/** The session form's submit handler up to the call of logSession: the ordered
    checks on the session and its breaks (the first failure is the one reported),
    the attachment of each break's proof image, and the derived study and break
    totals. Instants are integer milliseconds; durations are exact seconds. */
module Sessions {

  import opened Optional

  /** A proof image, already read into its data-URL form. */
  type Image = string

  /** new Date(input.value): an instant in milliseconds, or an Invalid Date,
      whose getTime() is NaN. */
  datatype Instant = Invalid | At(ms: int)

  /** One break entry of the form; `proof` is the chosen file, if any. */
  datatype BreakEntry = BreakEntry(start: Instant, end: Instant, reason: string, proof: Option<Image>)

  datatype SessionForm = SessionForm(start: Instant, end: Instant, breaks: seq<BreakEntry>)

  /** A break as stored in the session document. */
  datatype Break = Break(start: int, end: int, reason: string, proofImage: Image)

  /** The session document passed to logSession. */
  datatype Session = Session(
    start: int,
    end: int,
    studySeconds: real,
    breakSeconds: real,
    breaks: seq<Break>,
    createdAt: int)

  /** Which check failed; each has its own alert. */
  datatype Reason =
    | InvalidSessionTimes
    | InvalidBreakTimes
    | BreakOutsideSession
    | MissingProof
    | BreaksExceedSession

  /** Either the document handed to logSession, or the reason the handler
      returned early without saving anything. */
  datatype Verdict = Accepted(session: Session) | Rejected(reason: Reason)

  /** The alert shown for each rejection. */
  function Message(r: Reason): string {
    match r
    case InvalidSessionTimes =>
      "Please enter a valid start and end time for the session, where the end time is after the start time."
    case InvalidBreakTimes =>
      "One of the breaks has an invalid start or end time. Ensure end time is after start time."
    case BreakOutsideSession => "Break times must be within the overall session start and end times."
    case MissingProof => "Please provide an image proof for every break."
    case BreaksExceedSession => "Total break time cannot be longer than the total session time."
  }

  /** A millisecond span in seconds: (end - start) / 1000. */
  function Seconds(ms: int): real {
    ms as real / 1000.0
  }

  /** breaksData.reduce((acc, b) => acc + (b.breakEnd - b.breakStart) / 1000, 0) */
  function TotalBreakSeconds(bs: seq<Break>): real {
    if bs == [] then 0.0
    else TotalBreakSeconds(bs[..|bs| - 1]) + Seconds(bs[|bs| - 1].end - bs[|bs| - 1].start)
  }

  /** The total break time in milliseconds. */
  function TotalBreakMs(bs: seq<Break>): int {
    if bs == [] then 0 else TotalBreakMs(bs[..|bs| - 1]) + (bs[|bs| - 1].end - bs[|bs| - 1].start)
  }

  /** Summing seconds break by break is the same as converting the summed milliseconds. */
  lemma {:induction false} TotalBreakSecondsIsMs(bs: seq<Break>)
    ensures TotalBreakSeconds(bs) == Seconds(TotalBreakMs(bs))
  {
    if bs != [] {
      TotalBreakSecondsIsMs(bs[..|bs| - 1]);
    }
  }

  // ---------------------------------------------------------------------------
  // The checks, in the order the handler runs them

  /** Check 1 (script.js:342): both session instants valid and end after start. */
  predicate SessionTimesOk(f: SessionForm) {
    f.start.At? && f.end.At? && f.start.ms < f.end.ms
  }

  /** Checks 2 to 4 on one break (script.js:366-383), first failure first. */
  function CheckBreak(e: BreakEntry, sessionStart: int, sessionEnd: int): (r: Option<Reason>)
    ensures r.None? <==> BreakOk(e, sessionStart, sessionEnd)
    ensures r.Some? ==> r.value in {InvalidBreakTimes, BreakOutsideSession, MissingProof}
    ensures r == Some(InvalidBreakTimes) <==> !(e.start.At? && e.end.At? && e.start.ms < e.end.ms)
    ensures r == Some(BreakOutsideSession) <==>
      e.start.At? && e.end.At? && e.start.ms < e.end.ms && (e.start.ms < sessionStart || e.end.ms > sessionEnd)
    ensures r == Some(MissingProof) <==>
      e.start.At? && e.end.At? && e.start.ms < e.end.ms && sessionStart <= e.start.ms && e.end.ms <= sessionEnd
      && e.proof.None?
  {
    if e.start.Invalid? || e.end.Invalid? || e.end.ms <= e.start.ms then Some(InvalidBreakTimes)
    else if e.start.ms < sessionStart || e.end.ms > sessionEnd then Some(BreakOutsideSession)
    else if e.proof.None? then Some(MissingProof)
    else None
  }

  /** A break passes every check: valid instants, end after start, nested in
      the session, and a proof present. */
  predicate BreakOk(e: BreakEntry, sessionStart: int, sessionEnd: int) {
    && e.start.At? && e.end.At? && e.start.ms < e.end.ms
    && sessionStart <= e.start.ms && e.end.ms <= sessionEnd
    && e.proof.Some?
  }

  /** The failure of the first break, in entry order, that fails a check. */
  function FirstBreakFailure(es: seq<BreakEntry>, sessionStart: int, sessionEnd: int): Option<Reason> {
    if es == [] then None
    else match FirstBreakFailure(es[..|es| - 1], sessionStart, sessionEnd)
      case Some(r) => Some(r)
      case None => CheckBreak(es[|es| - 1], sessionStart, sessionEnd)
  }

  /** Break i is the first one that fails, and it fails with r. */
  predicate FailsFirstAt(es: seq<BreakEntry>, i: int, sessionStart: int, sessionEnd: int, r: Reason) {
    && 0 <= i < |es|
    && (forall j :: 0 <= j < i ==> BreakOk(es[j], sessionStart, sessionEnd))
    && CheckBreak(es[i], sessionStart, sessionEnd) == Some(r)
  }

  lemma {:induction false} NoBreakFailure(es: seq<BreakEntry>, sessionStart: int, sessionEnd: int)
    ensures FirstBreakFailure(es, sessionStart, sessionEnd).None?
        <==> forall i :: 0 <= i < |es| ==> BreakOk(es[i], sessionStart, sessionEnd)
  {
    if es != [] {
      var init := es[..|es| - 1];
      NoBreakFailure(init, sessionStart, sessionEnd);
      assert forall i :: 0 <= i < |init| ==> init[i] == es[i];
    }
  }

  /** The reported failure is that of the first failing break. */
  lemma {:induction false} FirstBreakFailureAt(es: seq<BreakEntry>, sessionStart: int, sessionEnd: int, r: Reason)
    ensures FirstBreakFailure(es, sessionStart, sessionEnd) == Some(r)
        <==> exists i :: FailsFirstAt(es, i, sessionStart, sessionEnd, r)
  {
    if es != [] {
      var init := es[..|es| - 1];
      FirstBreakFailureAt(init, sessionStart, sessionEnd, r);
      NoBreakFailure(init, sessionStart, sessionEnd);
      assert forall i :: 0 <= i < |init| ==> init[i] == es[i];
      if FirstBreakFailure(es, sessionStart, sessionEnd) == Some(r) {
        if FirstBreakFailure(init, sessionStart, sessionEnd).None? {
          assert FailsFirstAt(es, |es| - 1, sessionStart, sessionEnd, r);
        } else {
          var i :| FailsFirstAt(init, i, sessionStart, sessionEnd, r);
          assert FailsFirstAt(es, i, sessionStart, sessionEnd, r);
        }
      }
      if i :| FailsFirstAt(es, i, sessionStart, sessionEnd, r) {
        if i < |init| {
          assert FailsFirstAt(init, i, sessionStart, sessionEnd, r);
        } else {
          assert forall j :: 0 <= j < |init| ==> BreakOk(init[j], sessionStart, sessionEnd);
        }
      }
    }
  }

  /** A failure among the first n breaks is the failure of all of them: later
      breaks are never looked at. */
  lemma {:induction false} FirstBreakFailurePrefix(es: seq<BreakEntry>, n: nat, sessionStart: int, sessionEnd: int)
    requires n <= |es|
    requires FirstBreakFailure(es[..n], sessionStart, sessionEnd).Some?
    ensures FirstBreakFailure(es, sessionStart, sessionEnd) == FirstBreakFailure(es[..n], sessionStart, sessionEnd)
    decreases |es| - n
  {
    if n < |es| {
      assert es[..|es| - 1][..n] == es[..n];
      FirstBreakFailurePrefix(es[..|es| - 1], n, sessionStart, sessionEnd);
    } else {
      assert es[..n] == es;
    }
  }

  /** The stored break for an entry that passed its checks. */
  function ToBreak(e: BreakEntry, sessionStart: int, sessionEnd: int): Break
    requires BreakOk(e, sessionStart, sessionEnd)
  {
    Break(e.start.ms, e.end.ms, e.reason, e.proof.value)
  }

  /** The stored breaks for entries that all passed their checks, in entry order. */
  function StoredBreaks(es: seq<BreakEntry>, sessionStart: int, sessionEnd: int): (bs: seq<Break>)
    requires forall i :: 0 <= i < |es| ==> BreakOk(es[i], sessionStart, sessionEnd)
    ensures |bs| == |es| && forall i :: 0 <= i < |es| ==> bs[i] == ToBreak(es[i], sessionStart, sessionEnd)
  {
    seq(|es|, i requires 0 <= i < |es| => ToBreak(es[i], sessionStart, sessionEnd))
  }

  /** What the handler decides, as one function of the form and the clock. */
  function Validate(f: SessionForm, now: int): Verdict {
    if !SessionTimesOk(f) then Rejected(InvalidSessionTimes)
    else
      var ss, se := f.start.ms, f.end.ms;
      match FirstBreakFailure(f.breaks, ss, se)
      case Some(r) => Rejected(r)
      case None =>
        NoBreakFailure(f.breaks, ss, se);
        var breaks := StoredBreaks(f.breaks, ss, se);
        var total := TotalBreakSeconds(breaks);
        var study := Seconds(se - ss) - total;
        if study < 0.0 then Rejected(BreaksExceedSession)
        else Accepted(Session(ss, se, study, total, breaks, now))
  }

  // ---------------------------------------------------------------------------
  // The handler

  /** A break entry that passed its checks, before its proof image is attached. */
  datatype PendingBreak = PendingBreak(start: int, end: int, reason: string)

  /** The submit handler of the session form (script.js:339-418): it returns
      early with the first failed check, collects each checked break and its
      proof in entry order, attaches the proofs by index, sums the break time and
      rejects a session whose study time would be negative. */
  method SubmitSession(form: SessionForm, now: int) returns (v: Verdict)
    ensures v == Validate(form, now)
  {
    if form.start.Invalid? || form.end.Invalid? || form.end.ms <= form.start.ms {
      return Rejected(InvalidSessionTimes);
    }
    var sessionStart, sessionEnd := form.start.ms, form.end.ms;
    var breaksData: seq<PendingBreak> := [];
    var imagePromises: seq<Image> := [];
    for i := 0 to |form.breaks|
      invariant |breaksData| == i && |imagePromises| == i
      invariant forall k :: 0 <= k < i ==>
        && BreakOk(form.breaks[k], sessionStart, sessionEnd)
        && breaksData[k] == PendingBreak(form.breaks[k].start.ms, form.breaks[k].end.ms, form.breaks[k].reason)
        && imagePromises[k] == form.breaks[k].proof.value
    {
      var entry := form.breaks[i];
      var failure := CheckBreak(entry, sessionStart, sessionEnd);
      if failure.Some? {
        NoBreakFailure(form.breaks[..i], sessionStart, sessionEnd);
        assert form.breaks[..i + 1][..i] == form.breaks[..i];
        FirstBreakFailurePrefix(form.breaks, i + 1, sessionStart, sessionEnd);
        return Rejected(failure.value);
      }
      imagePromises := imagePromises + [entry.proof.value];
      breaksData := breaksData + [PendingBreak(entry.start.ms, entry.end.ms, entry.reason)];
    }
    NoBreakFailure(form.breaks, sessionStart, sessionEnd);

    var breaks: seq<Break> := [];
    for k := 0 to |breaksData|
      invariant |breaks| == k
      invariant forall j :: 0 <= j < k ==> breaks[j] == ToBreak(form.breaks[j], sessionStart, sessionEnd)
    {
      var b := breaksData[k];
      breaks := breaks + [Break(b.start, b.end, b.reason, imagePromises[k])];
    }
    assert breaks == StoredBreaks(form.breaks, sessionStart, sessionEnd);

    var totalSessionDuration := Seconds(sessionEnd - sessionStart);
    var totalBreakDuration := TotalBreakSeconds(breaks);
    var totalStudyDuration := totalSessionDuration - totalBreakDuration;
    if totalStudyDuration < 0.0 {
      return Rejected(BreaksExceedSession);
    }
    v := Accepted(Session(sessionStart, sessionEnd, totalStudyDuration, totalBreakDuration, breaks, now));
  }

  // ---------------------------------------------------------------------------
  // What an accepted session guarantees, and when each rejection happens

  /** The invariants of a session document: the session is a proper interval,
      every break is a proper interval nested in it, the break total is the sum
      of the break durations, and study plus break time is the session length. */
  predicate WellFormed(s: Session) {
    && s.start < s.end
    && (forall i :: 0 <= i < |s.breaks| ==> s.start <= s.breaks[i].start < s.breaks[i].end <= s.end)
    && s.breakSeconds == Seconds(TotalBreakMs(s.breaks))
    && s.studySeconds + s.breakSeconds == Seconds(s.end - s.start)
    && s.studySeconds >= 0.0
  }

  /** An accepted session is well formed, keeps the form's instants, stamps the
      clock, and keeps every break in entry order with its own proof at its index. */
  lemma AcceptedSession(f: SessionForm, now: int)
    requires Validate(f, now).Accepted?
    ensures var s := Validate(f, now).session;
      && WellFormed(s)
      && f.start == At(s.start) && f.end == At(s.end) && s.createdAt == now
      && |s.breaks| == |f.breaks|
      && forall i :: 0 <= i < |f.breaks| ==>
           && f.breaks[i].start == At(s.breaks[i].start) && f.breaks[i].end == At(s.breaks[i].end)
           && f.breaks[i].reason == s.breaks[i].reason && f.breaks[i].proof == Some(s.breaks[i].proofImage)
  {
    var s := Validate(f, now).session;
    NoBreakFailure(f.breaks, f.start.ms, f.end.ms);
    TotalBreakSecondsIsMs(s.breaks);
  }

  /** The session check comes first: a bad session window is reported whatever
      the breaks hold, and only then. */
  lemma RejectsInvalidSessionTimes(f: SessionForm, now: int)
    ensures Validate(f, now) == Rejected(InvalidSessionTimes) <==> !SessionTimesOk(f)
  {
    if SessionTimesOk(f) {
      match FirstBreakFailure(f.breaks, f.start.ms, f.end.ms)
      case Some(r) =>
        FirstBreakFailureAt(f.breaks, f.start.ms, f.end.ms, r);
        var i :| FailsFirstAt(f.breaks, i, f.start.ms, f.end.ms, r);
      case None =>
    }
  }

  /** With a valid session window, a break check is reported exactly when some
      break fails it and every earlier break passed all its checks. */
  lemma RejectsFirstFailingBreak(f: SessionForm, now: int, r: Reason)
    requires SessionTimesOk(f)
    requires r in {InvalidBreakTimes, BreakOutsideSession, MissingProof}
    ensures Validate(f, now) == Rejected(r) <==> exists i :: FailsFirstAt(f.breaks, i, f.start.ms, f.end.ms, r)
  {
    FirstBreakFailureAt(f.breaks, f.start.ms, f.end.ms, r);
  }

  /** The last check: when every break passes, the session is rejected exactly
      when the breaks add up to more than the session, and accepted otherwise. */
  lemma RejectsExcessBreakTime(f: SessionForm, now: int)
    requires SessionTimesOk(f)
    requires forall i :: 0 <= i < |f.breaks| ==> BreakOk(f.breaks[i], f.start.ms, f.end.ms)
    ensures var breaks := StoredBreaks(f.breaks, f.start.ms, f.end.ms);
      && (Validate(f, now) == Rejected(BreaksExceedSession) <==> TotalBreakMs(breaks) > f.end.ms - f.start.ms)
      && (Validate(f, now).Accepted? <==> TotalBreakMs(breaks) <= f.end.ms - f.start.ms)
  {
    NoBreakFailure(f.breaks, f.start.ms, f.end.ms);
    TotalBreakSecondsIsMs(StoredBreaks(f.breaks, f.start.ms, f.end.ms));
  }

  // ---------------------------------------------------------------------------
  // Worked examples (times in milliseconds after midnight)

  const Hour: int := 3600000
  const Minute: int := 60000

  /** 09:00-12:00 with a 10:00-10:15 coffee break is saved with 2h45m of study
      (9900 s) and 15 minutes of break (900 s). */
  lemma CoffeeBreakSession(photo: Image, now: int)
    ensures var f := SessionForm(At(9 * Hour), At(12 * Hour),
                                 [BreakEntry(At(10 * Hour), At(10 * Hour + 15 * Minute), "coffee", Some(photo))]);
      Validate(f, now) == Accepted(Session(9 * Hour, 12 * Hour, 9900.0, 900.0,
                                           [Break(10 * Hour, 10 * Hour + 15 * Minute, "coffee", photo)], now))
  {
    var f := SessionForm(At(9 * Hour), At(12 * Hour),
                         [BreakEntry(At(10 * Hour), At(10 * Hour + 15 * Minute), "coffee", Some(photo))]);
    assert f.breaks[..|f.breaks| - 1] == [];
    assert FirstBreakFailure(f.breaks, 9 * Hour, 12 * Hour) == None;
    var bs := StoredBreaks(f.breaks, 9 * Hour, 12 * Hour);
    assert bs == [Break(10 * Hour, 10 * Hour + 15 * Minute, "coffee", photo)];
    assert TotalBreakSeconds(bs) == 900.0 by {
      assert bs[..|bs| - 1] == [];
    }
    assert Seconds(12 * Hour - 9 * Hour) == 10800.0;
  }

  /** 09:00-10:00 with a 09:30-11:00 break is refused: the break ends after the session. */
  lemma BreakPastSessionEnd(photo: Image, now: int)
    ensures Validate(SessionForm(At(9 * Hour), At(10 * Hour),
                                 [BreakEntry(At(9 * Hour + 30 * Minute), At(11 * Hour), "walk", Some(photo))]), now)
         == Rejected(BreakOutsideSession)
  {
    var es := [BreakEntry(At(9 * Hour + 30 * Minute), At(11 * Hour), "walk", Some(photo))];
    assert es[..|es| - 1] == [];
    assert FirstBreakFailure(es, 9 * Hour, 10 * Hour) == Some(BreakOutsideSession);
  }
}
