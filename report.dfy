/** The report side: the filters of the three download handlers and the data
    part of generatePDF (the "no data" case, the totals, the copy sorted by
    session start, the session rows and the flattened break rows). */
module Report {

  import opened Optional
  import Duration
  import Calendar
  import opened Sessions

  // ---------------------------------------------------------------------------
  // Filtering by session start

  predicate InWindow(t: int, w: Calendar.Range) {
    w.start <= t <= w.end
  }

  /** allLogs.filter(log => logDate >= start && logDate <= end), both bounds inclusive. */
  function FilterByStart(logs: seq<Session>, w: Calendar.Range): seq<Session> {
    if logs == [] then []
    else
      var last := logs[|logs| - 1];
      FilterByStart(logs[..|logs| - 1], w) + (if InWindow(last.start, w) then [last] else [])
  }

  /** The filter keeps no more sessions than it is given, and only sessions
      starting inside the window. */
  lemma {:induction false} FilterInWindow(logs: seq<Session>, w: Calendar.Range)
    ensures var r := FilterByStart(logs, w);
      |r| <= |logs| && forall i :: 0 <= i < |r| ==> InWindow(r[i].start, w)
  {
    if logs != [] {
      FilterInWindow(logs[..|logs| - 1], w);
    }
  }

  /** Filtering works piece by piece, so the kept sessions stay in their input order. */
  lemma {:induction false} FilterAppend(a: seq<Session>, b: seq<Session>, w: Calendar.Range)
    ensures FilterByStart(a + b, w) == FilterByStart(a, w) + FilterByStart(b, w)
    decreases |b|
  {
    if b == [] {
      assert a + b == a;
    } else {
      var b', last := b[..|b| - 1], b[|b| - 1];
      FilterAppend(a, b', w);
      assert b == b' + [last];
      assert a + b == (a + b') + [last];
      FilterSnoc(a + b', last, w);
      FilterSnoc(b', last, w);
    }
  }

  lemma FilterSnoc(s: seq<Session>, x: Session, w: Calendar.Range)
    ensures FilterByStart(s + [x], w) == FilterByStart(s, w) + (if InWindow(x.start, w) then [x] else [])
  {
    assert (s + [x])[..|s|] == s;
  }

  /** Exactly the sessions starting inside the window are kept, each as often as
      it occurs in the input. */
  lemma {:induction false} FilterKeepsExactly(logs: seq<Session>, w: Calendar.Range, x: Session)
    ensures multiset(FilterByStart(logs, w))[x] == if InWindow(x.start, w) then multiset(logs)[x] else 0
  {
    if logs != [] {
      var init := logs[..|logs| - 1];
      FilterKeepsExactly(init, w, x);
      assert logs == init + [logs[|logs| - 1]];
    }
  }

  /** Nothing is kept exactly when no session starts inside the window. */
  lemma {:induction false} FilterEmpty(logs: seq<Session>, w: Calendar.Range)
    ensures FilterByStart(logs, w) == [] <==> forall i :: 0 <= i < |logs| ==> !InWindow(logs[i].start, w)
  {
    if logs != [] {
      var init := logs[..|logs| - 1];
      FilterEmpty(init, w);
      assert forall i :: 0 <= i < |init| ==> init[i] == logs[i];
    }
  }

  // ---------------------------------------------------------------------------
  // The sorted copy: [...logs].sort((a, b) => a.start - b.start), a stable sort

  predicate SortedByStart(s: seq<Session>) {
    forall i, j :: 0 <= i < j < |s| ==> s[i].start <= s[j].start
  }

  /** Puts x in front of the first session that does not start earlier than it. */
  function Insert(x: Session, s: seq<Session>): seq<Session> {
    if s == [] || x.start <= s[0].start then [x] + s
    else [s[0]] + Insert(x, s[1..])
  }

  /** Inserting into a sorted sequence keeps it sorted and adds exactly x. */
  lemma {:induction false} InsertSorted(x: Session, s: seq<Session>)
    requires SortedByStart(s)
    ensures var r := Insert(x, s);
      SortedByStart(r) && multiset(r) == multiset(s) + multiset{x} && |r| == |s| + 1
  {
    if s == [] || x.start <= s[0].start {
      assert Insert(x, s) == [x] + s;
      ConsSorted(x, s);
    } else {
      assert s == [s[0]] + s[1..];
      var rest := Insert(x, s[1..]);
      assert Insert(x, s) == [s[0]] + rest;
      InsertSorted(x, s[1..]);
      LowerBound(s[0].start, x, s[1..], rest);
      ConsSorted(s[0], rest);
    }
  }

  /** A session starting no later than every session of a sorted sequence can go in front. */
  lemma ConsSorted(y: Session, q: seq<Session>)
    requires SortedByStart(q) && (q != [] ==> y.start <= q[0].start)
    ensures SortedByStart([y] + q)
  {
    var r := [y] + q;
    forall i, j | 0 <= i < j < |r|
      ensures r[i].start <= r[j].start
    {
      assert r[j] == q[j - 1];
      if i > 0 {
        assert r[i] == q[i - 1];
      } else if j > 1 {
        assert q[0].start <= q[j - 1].start;
      }
    }
  }

  /** A bound below x and every element of s is a bound below every element of
      a sequence holding exactly x and the elements of s. */
  lemma LowerBound(t: int, x: Session, s: seq<Session>, r: seq<Session>)
    requires t <= x.start && forall i :: 0 <= i < |s| ==> t <= s[i].start
    requires multiset(r) == multiset(s) + multiset{x}
    ensures forall i :: 0 <= i < |r| ==> t <= r[i].start
  {
    forall i | 0 <= i < |r|
      ensures t <= r[i].start
    {
      assert r[i] in multiset(r);
      if r[i] != x {
        assert r[i] in multiset(s);
      }
    }
  }

  /** The sorted copy of the report's sessions, ascending by start. */
  function SortByStart(s: seq<Session>): (r: seq<Session>)
    ensures SortedByStart(r) && multiset(r) == multiset(s) && |r| == |s|
  {
    if s == [] then []
    else
      assert s == [s[0]] + s[1..];
      InsertSorted(s[0], SortByStart(s[1..]));
      Insert(s[0], SortByStart(s[1..]))
  }

  /** The sessions of s starting at instant t, in order. */
  function StartingAt(s: seq<Session>, t: int): seq<Session> {
    if s == [] then [] else (if s[0].start == t then [s[0]] else []) + StartingAt(s[1..], t)
  }

  lemma {:induction false} InsertStartingAt(x: Session, s: seq<Session>, t: int)
    ensures StartingAt(Insert(x, s), t) == (if x.start == t then [x] else []) + StartingAt(s, t)
  {
    if s == [] || x.start <= s[0].start {
      assert Insert(x, s) == [x] + s;
      StartingAtCons(x, s, t);
    } else {
      var rest := Insert(x, s[1..]);
      InsertStartingAt(x, s[1..], t);
      assert Insert(x, s) == [s[0]] + rest;
      StartingAtCons(s[0], rest, t);
      assert s == [s[0]] + s[1..];
      StartingAtCons(s[0], s[1..], t);
      if x.start == t {
        assert s[0].start != t;
      }
    }
  }

  lemma StartingAtCons(y: Session, q: seq<Session>, t: int)
    ensures StartingAt([y] + q, t) == (if y.start == t then [y] else []) + StartingAt(q, t)
  {
    assert ([y] + q)[1..] == q;
  }

  /** The sort is stable: sessions with the same start keep their input order. */
  lemma {:induction false} SortIsStable(s: seq<Session>, t: int)
    ensures StartingAt(SortByStart(s), t) == StartingAt(s, t)
  {
    if s != [] {
      SortIsStable(s[1..], t);
      InsertStartingAt(s[0], SortByStart(s[1..]), t);
    }
  }

  // ---------------------------------------------------------------------------
  // Totals: logs.reduce((acc, log) => acc + field, 0)

  /** The sum of f over the sessions, added from left to right. */
  function SumOf(logs: seq<Session>, f: Session -> real): real {
    if logs == [] then 0.0 else SumOf(logs[..|logs| - 1], f) + f(logs[|logs| - 1])
  }

  function StudyOf(s: Session): real { s.studySeconds }
  function BreakOf(s: Session): real { s.breakSeconds }
  function LengthOf(s: Session): real { Seconds(s.end - s.start) }

  /** Taking session k out of the list takes f of it out of the sum. */
  lemma {:induction false} SumRemove(b: seq<Session>, k: nat, f: Session -> real)
    requires k < |b|
    ensures SumOf(b, f) == SumOf(b[..k] + b[k + 1..], f) + f(b[k])
  {
    var init := b[..|b| - 1];
    if k == |b| - 1 {
      assert b[..k] + b[k + 1..] == init;
    } else {
      SumRemove(init, k, f);
      var rest := init[..k] + init[k + 1..];
      assert b[..k] + b[k + 1..] == rest + [b[|b| - 1]];
      assert (rest + [b[|b| - 1]])[..|rest|] == rest;
    }
  }

  lemma MultisetRemove<T>(b: seq<T>, k: nat)
    requires k < |b|
    ensures multiset(b[..k] + b[k + 1..]) == multiset(b) - multiset{b[k]}
  {
    assert b == b[..k] + [b[k]] + b[k + 1..];
  }

  /** A sum does not depend on the order of the sessions. */
  lemma {:induction false} SumPermutation(a: seq<Session>, b: seq<Session>, f: Session -> real)
    requires multiset(a) == multiset(b)
    ensures SumOf(a, f) == SumOf(b, f)
    decreases |a|
  {
    if a != [] {
      var x := a[|a| - 1];
      var a' := a[..|a| - 1];
      MultisetRemove(a, |a| - 1);
      assert a[..|a| - 1] + a[|a|..] == a';
      assert x in multiset(b);
      var k :| 0 <= k < |b| && b[k] == x;
      MultisetRemove(b, k);
      SumPermutation(a', b[..k] + b[k + 1..], f);
      SumRemove(b, k, f);
    }
  }

  /** Sums of pointwise sums add up. */
  lemma {:induction false} SumOfSum(logs: seq<Session>, f: Session -> real, g: Session -> real, h: Session -> real)
    requires forall i :: 0 <= i < |logs| ==> f(logs[i]) + g(logs[i]) == h(logs[i])
    ensures SumOf(logs, f) + SumOf(logs, g) == SumOf(logs, h)
  {
    if logs != [] {
      SumOfSum(logs[..|logs| - 1], f, g, h);
    }
  }

  /** Over well-formed sessions, the study total and the break total of a report
      add up to the total length of its sessions. */
  lemma TotalsCoverSessions(logs: seq<Session>)
    requires forall i :: 0 <= i < |logs| ==> WellFormed(logs[i])
    ensures SumOf(logs, StudyOf) + SumOf(logs, BreakOf) == SumOf(logs, LengthOf)
  {
    SumOfSum(logs, StudyOf, BreakOf, LengthOf);
  }

  // ---------------------------------------------------------------------------
  // Rows

  /** One row of the session table. */
  datatype SessionRow = SessionRow(start: int, end: int, studyTime: string, breakTime: string, breakCount: nat)

  /** One row of the break table; sessionStart stands for the session's date column. */
  datatype BreakRow = BreakRow(sessionStart: int, start: int, end: int, duration: string, reason: string)

  function SessionRowOf(s: Session): SessionRow {
    SessionRow(s.start, s.end, Duration.FormatTime(Duration.Val(s.studySeconds)),
               Duration.FormatTime(Duration.Val(s.breakSeconds)), |s.breaks|)
  }

  /** s.map(f) */
  function Map<S, T>(s: seq<S>, f: S -> T): seq<T> {
    seq(|s|, i requires 0 <= i < |s| => f(s[i]))
  }

  /** A mapped sequence holds f of exactly the elements of the sequence, each
      as often as it occurs, whatever their order. */
  lemma {:induction false} MapPermutation<S, T>(a: seq<S>, b: seq<S>, f: S -> T)
    requires multiset(a) == multiset(b)
    ensures multiset(Map(a, f)) == multiset(Map(b, f))
    decreases |a|
  {
    if a != [] {
      var x, a' := a[|a| - 1], a[..|a| - 1];
      MultisetRemove(a, |a| - 1);
      assert a[..|a| - 1] + a[|a|..] == a';
      assert x in multiset(b);
      var k :| 0 <= k < |b| && b[k] == x;
      MultisetRemove(b, k);
      MapPermutation(a', b[..k] + b[k + 1..], f);
      MapMultisetRemove(a, |a| - 1, f);
      MapMultisetRemove(b, k, f);
    }
  }

  lemma MapMultisetRemove<S, T>(b: seq<S>, k: nat, f: S -> T)
    requires k < |b|
    ensures multiset(Map(b, f)) == multiset(Map(b[..k] + b[k + 1..], f)) + multiset{f(b[k])}
  {
    var mb := Map(b, f);
    MapRemove(b, k, f);
    MultisetRemove(mb, k);
    assert mb[k] == f(b[k]);
    assert mb[k] in multiset(mb);
  }

  lemma MapRemove<S, T>(b: seq<S>, k: nat, f: S -> T)
    requires k < |b|
    ensures Map(b[..k] + b[k + 1..], f) == Map(b, f)[..k] + Map(b, f)[k + 1..]
  {
    var b', mb := b[..k] + b[k + 1..], Map(b, f);
    var lhs, rhs := Map(b', f), mb[..k] + mb[k + 1..];
    forall i | 0 <= i < |lhs|
      ensures lhs[i] == rhs[i]
    {
      if i < k {
        assert b'[i] == b[i];
      } else {
        assert b'[i] == b[i + 1];
      }
    }
  }

  /** sortedLogs.map(log => [...]) */
  function SessionRows(sorted: seq<Session>): seq<SessionRow> {
    Map(sorted, SessionRowOf)
  }

  /** Row i of the session table is the row of session i. */
  lemma SessionRowsAt(sorted: seq<Session>)
    ensures |SessionRows(sorted)| == |sorted|
    ensures forall i :: 0 <= i < |sorted| ==> SessionRows(sorted)[i] == SessionRowOf(sorted[i])
  {}

  /** A session row shows the session's instants, its break count, and its study
      and break times as clock strings that read back to their whole seconds. */
  lemma SessionRowShows(s: Session)
    ensures var row := SessionRowOf(s);
      && row.start == s.start && row.end == s.end && row.breakCount == |s.breaks|
      && (s.studySeconds >= 0.0 ==> Duration.ParseClock(row.studyTime) == Some(s.studySeconds.Floor as nat))
      && (s.breakSeconds >= 0.0 ==> Duration.ParseClock(row.breakTime) == Some(s.breakSeconds.Floor as nat))
  {
  }

  /** (b.breakEnd - b.breakStart) / 1000 */
  function BreakSeconds(b: Break): real {
    Seconds(b.end - b.start)
  }

  function BreakRowOf(s: Session, b: Break): BreakRow {
    BreakRow(s.start, b.start, b.end, Duration.FormatTime(Duration.Val(BreakSeconds(b))), b.reason)
  }

  /** A whole number of milliseconds in seconds, rounded down, is the integer quotient by 1000. */
  lemma FloorSeconds(ms: nat)
    ensures Seconds(ms).Floor == ms / 1000
  {
    var q, r := ms / 1000, ms % 1000;
    assert ms as real / 1000.0 == q as real + r as real / 1000.0;
  }

  /** A break row shows its session's start, the break's instants and reason,
      and the break's length as a clock string reading back to its whole seconds. */
  lemma BreakRowShows(s: Session, b: Break)
    requires b.start <= b.end
    ensures var row := BreakRowOf(s, b);
      && row.sessionStart == s.start && row.start == b.start && row.end == b.end && row.reason == b.reason
      && Duration.ParseClock(row.duration) == Some((b.end - b.start) / 1000)
  {
    var t := BreakSeconds(b);
    FloorSeconds(b.end - b.start);
    assert t >= 0.0 && t.Floor == (b.end - b.start) / 1000;
  }

  /** The rows of one session's breaks, in their own order. */
  function BreakRowsOf(s: Session): seq<BreakRow> {
    seq(|s.breaks|, k requires 0 <= k < |s.breaks| => BreakRowOf(s, s.breaks[k]))
  }

  /** Number of breaks over the sessions: the sum of breaks.length. */
  function BreakCount(logs: seq<Session>): nat {
    if logs == [] then 0 else BreakCount(logs[..|logs| - 1]) + |logs[|logs| - 1].breaks|
  }

  /** The break table's body: the rows of each session's breaks, session after session. */
  function BreakRows(sorted: seq<Session>): (rows: seq<BreakRow>)
    ensures |rows| == BreakCount(sorted)
  {
    if sorted == [] then []
    else BreakRows(sorted[..|sorted| - 1]) + BreakRowsOf(sorted[|sorted| - 1])
  }

  /** Break k of session i sits at row BreakCount(sessions before i) + k. */
  lemma {:induction false} BreakRowsAt(sorted: seq<Session>, i: nat, k: nat)
    requires i < |sorted| && k < |sorted[i].breaks|
    ensures BreakCount(sorted[..i]) + k < |BreakRows(sorted)|
    ensures BreakRows(sorted)[BreakCount(sorted[..i]) + k] == BreakRowOf(sorted[i], sorted[i].breaks[k])
  {
    var init := sorted[..|sorted| - 1];
    if i == |sorted| - 1 {
      assert sorted[..i] == init;
    } else {
      BreakRowsAt(init, i, k);
      assert init[..i] == sorted[..i];
    }
  }

  /** There are no break rows exactly when no session has a break. */
  lemma {:induction false} NoBreakRows(sorted: seq<Session>)
    ensures BreakRows(sorted) == [] <==> forall i :: 0 <= i < |sorted| ==> sorted[i].breaks == []
  {
    if sorted != [] {
      var init := sorted[..|sorted| - 1];
      NoBreakRows(init);
      assert forall i :: 0 <= i < |init| ==> init[i] == sorted[i];
    }
  }

  function BreakLength(s: Session): real { |s.breaks| as real }

  lemma {:induction false} BreakCountIsSum(logs: seq<Session>)
    ensures BreakCount(logs) as real == SumOf(logs, BreakLength)
  {
    if logs != [] {
      BreakCountIsSum(logs[..|logs| - 1]);
    }
  }

  /** The number of breaks does not depend on the order of the sessions. */
  lemma BreakCountPermutation(a: seq<Session>, b: seq<Session>)
    requires multiset(a) == multiset(b)
    ensures BreakCount(a) == BreakCount(b)
  {
    BreakCountIsSum(a);
    BreakCountIsSum(b);
    SumPermutation(a, b, BreakLength);
  }

  /** breakBody, built by the nested forEach/push over the sorted sessions. */
  method BuildBreakRows(sortedLogs: seq<Session>) returns (breakBody: seq<BreakRow>)
    ensures breakBody == BreakRows(sortedLogs)
  {
    breakBody := [];
    for i := 0 to |sortedLogs|
      invariant breakBody == BreakRows(sortedLogs[..i])
    {
      var log := sortedLogs[i];
      if |log.breaks| > 0 {
        for k := 0 to |log.breaks|
          invariant breakBody == BreakRows(sortedLogs[..i]) + BreakRowsOf(log)[..k]
        {
          BreakRowsOfStep(log, k);
          breakBody := breakBody + [BreakRowOf(log, log.breaks[k])];
        }
      }
      assert BreakRowsOf(log)[..|log.breaks|] == BreakRowsOf(log);
      BreakRowsStep(sortedLogs, i);
    }
    assert sortedLogs[..|sortedLogs|] == sortedLogs;
  }

  lemma BreakRowsOfStep(log: Session, k: nat)
    requires k < |log.breaks|
    ensures BreakRowsOf(log)[..k + 1] == BreakRowsOf(log)[..k] + [BreakRowOf(log, log.breaks[k])]
  {
    var rows := BreakRowsOf(log);
    PrefixSnoc(rows, k);
    assert rows[k] == BreakRowOf(log, log.breaks[k]);
  }

  lemma PrefixSnoc<T>(s: seq<T>, k: nat)
    requires k < |s|
    ensures s[..k + 1] == s[..k] + [s[k]]
  {
  }

  lemma BreakRowsStep(s: seq<Session>, i: nat)
    requires i < |s|
    ensures BreakRows(s[..i + 1]) == BreakRows(s[..i]) + BreakRowsOf(s[i])
  {
    assert s[..i + 1][..i] == s[..i];
  }

  // ---------------------------------------------------------------------------
  // generatePDF

  /** The data a report is drawn from; breakTable says whether the break table is drawn. */
  datatype ReportData = ReportData(
    totalStudySeconds: real,
    totalBreakSeconds: real,
    sessionRows: seq<SessionRow>,
    breakRows: seq<BreakRow>,
    breakTable: bool)

  /** "No data available" and no document, or the document's data. */
  datatype Pdf = NoData | Document(data: ReportData)

  predicate SomeBreaks(logs: seq<Session>) {
    exists i :: 0 <= i < |logs| && logs[i].breaks != []
  }

  lemma SomeBreaksIgnoresOrder(a: seq<Session>, b: seq<Session>)
    requires multiset(a) == multiset(b)
    ensures SomeBreaks(a) <==> SomeBreaks(b)
  {
    if SomeBreaks(a) {
      var i :| 0 <= i < |a| && a[i].breaks != [];
      assert a[i] in multiset(b);
    }
    if SomeBreaks(b) {
      var i :| 0 <= i < |b| && b[i].breaks != [];
      assert b[i] in multiset(a);
    }
  }

  /** What generatePDF draws for a list of sessions. */
  function ReportOf(logs: seq<Session>): (r: Pdf)
    ensures r.NoData? <==> |logs| == 0
    ensures r.Document? ==>
      && |r.data.sessionRows| == |logs|
      && (forall i, j :: 0 <= i < j < |logs| ==> r.data.sessionRows[i].start <= r.data.sessionRows[j].start)
      && |r.data.breakRows| == BreakCount(logs)
      && (r.data.breakTable <==> SomeBreaks(logs))
    ensures r.Document? ==>
      && r.data.sessionRows == SessionRows(SortByStart(logs))
      && r.data.breakRows == BreakRows(SortByStart(logs))
      && r.data.totalStudySeconds == SumOf(logs, StudyOf)
      && r.data.totalBreakSeconds == SumOf(logs, BreakOf)
  {
    if |logs| == 0 then NoData
    else
      var sorted := SortByStart(logs);
      var breakRows := BreakRows(sorted);
      BreakCountPermutation(sorted, logs);
      SessionRowsAt(sorted);
      NoBreakRows(sorted);
      SomeBreaksIgnoresOrder(sorted, logs);
      Document(ReportData(SumOf(logs, StudyOf), SumOf(logs, BreakOf), SessionRows(sorted), breakRows, |breakRows| > 0))
  }

  /** The session table shows the rows of exactly the listed sessions. */
  lemma ReportSessionRows(logs: seq<Session>)
    requires |logs| > 0
    ensures ReportOf(logs).Document?
    ensures multiset(ReportOf(logs).data.sessionRows) == multiset(SessionRows(logs))
  {
    MapPermutation(SortByStart(logs), logs, SessionRowOf);
  }

  /** The totals of a report depend only on which sessions it holds, not on their order. */
  lemma ReportTotalsIgnoreOrder(a: seq<Session>, b: seq<Session>)
    requires multiset(a) == multiset(b) && |a| > 0
    ensures ReportOf(a).Document? && ReportOf(b).Document?
    ensures ReportOf(a).data.totalStudySeconds == ReportOf(b).data.totalStudySeconds
    ensures ReportOf(a).data.totalBreakSeconds == ReportOf(b).data.totalBreakSeconds
  {
    assert |multiset(a)| == |a| && |multiset(b)| == |b|;
    SumPermutation(a, b, StudyOf);
    SumPermutation(a, b, BreakOf);
  }

  /** The totals are also the sums over the sorted rows' sessions. */
  lemma ReportTotalsOfSorted(logs: seq<Session>)
    requires |logs| > 0
    ensures ReportOf(logs).data.totalStudySeconds == SumOf(SortByStart(logs), StudyOf)
    ensures ReportOf(logs).data.totalBreakSeconds == SumOf(SortByStart(logs), BreakOf)
  {
    SumPermutation(logs, SortByStart(logs), StudyOf);
    SumPermutation(logs, SortByStart(logs), BreakOf);
  }

  /** generatePDF (script.js:229-304), without the drawing: an empty list gives
      "no data"; otherwise totals over the list, session rows over a sorted copy,
      and break rows built session by session, the break table only when non-empty. */
  method GeneratePdf(logs: seq<Session>) returns (r: Pdf)
    ensures r == ReportOf(logs)
  {
    if |logs| == 0 {
      return NoData;
    }
    var totalStudySeconds := SumOf(logs, StudyOf);
    var totalBreakSeconds := SumOf(logs, BreakOf);
    var sortedLogs := SortByStart(logs);
    var sessionBody := SessionRows(sortedLogs);
    var breakBody := BuildBreakRows(sortedLogs);
    r := Document(ReportData(totalStudySeconds, totalBreakSeconds, sessionBody, breakBody, |breakBody| > 0));
  }

  // ---------------------------------------------------------------------------
  // The download handlers (script.js:433-476)

  /** What a download button does: ask for a selection first, or run generatePDF. */
  datatype Download = SelectFirst | Generated(pdf: Pdf)

  /** The daily button: a date (year, month 1..12, day), if one is selected. */
  method DownloadDaily(allLogs: seq<Session>, date: Option<(int, int, int)>) returns (d: Download)
    ensures date.None? <==> d.SelectFirst?
    ensures date.Some? ==>
      d == Generated(ReportOf(FilterByStart(allLogs, Calendar.DayRange(date.value.0, date.value.1, date.value.2))))
  {
    if date.None? {
      return SelectFirst;
    }
    var (y, m, day) := date.value;
    var filteredLogs := FilterByStart(allLogs, Calendar.DayRange(y, m, day));
    var pdf := GeneratePdf(filteredLogs);
    d := Generated(pdf);
  }

  /** The weekly button: a week (year, week number), if one is selected. */
  method DownloadWeekly(allLogs: seq<Session>, week: Option<(int, int)>) returns (d: Download)
    ensures week.None? <==> d.SelectFirst?
    ensures week.Some? ==>
      d == Generated(ReportOf(FilterByStart(allLogs, Calendar.WeekRange(week.value.0, week.value.1))))
  {
    if week.None? {
      return SelectFirst;
    }
    var filteredLogs := FilterByStart(allLogs, Calendar.WeekRange(week.value.0, week.value.1));
    var pdf := GeneratePdf(filteredLogs);
    d := Generated(pdf);
  }

  /** The monthly button: a month (year, month 1..12), if one is selected. */
  method DownloadMonthly(allLogs: seq<Session>, month: Option<(int, int)>) returns (d: Download)
    ensures month.None? <==> d.SelectFirst?
    ensures month.Some? ==>
      d == Generated(ReportOf(FilterByStart(allLogs, Calendar.MonthRange(month.value.0, month.value.1))))
  {
    if month.None? {
      return SelectFirst;
    }
    var filteredLogs := FilterByStart(allLogs, Calendar.MonthRange(month.value.0, month.value.1));
    var pdf := GeneratePdf(filteredLogs);
    d := Generated(pdf);
  }

  /** A period in which no session starts yields "no data" and no document. */
  lemma NoSessionsNoDocument(allLogs: seq<Session>, w: Calendar.Range)
    requires forall i :: 0 <= i < |allLogs| ==> !InWindow(allLogs[i].start, w)
    ensures ReportOf(FilterByStart(allLogs, w)) == NoData
  {
    FilterEmpty(allLogs, w);
  }
}
