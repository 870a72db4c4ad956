/** A value that may be absent: an unselected form control, a missing file,
    a check that found nothing wrong. */
module Optional {

  datatype Option<+T> = None | Some(value: T)
}
