/**
 * How long writes stopped, measured from a log of probe attempts. Probes run side by side, so
 * the log is in no particular order.
 */
module WriteStop {
  import opened Wrappers

  datatype Attempt = Attempt(seqNo: int, start: real, end: real, ok: bool, detail: string)

  datatype Stop = Stop(duration: Option<real>, lastOkAt: Option<real>, firstFailAt: Option<real>,
                       resumedAt: Option<real>, failures: nat, attempts: nat)

  // ----- the measurement ------------------------------------------------------------------

  function Select(log: seq<Attempt>, p: Attempt -> bool): seq<Attempt> {
    if log == [] then [] else (if p(log[0]) then [log[0]] else []) + Select(log[1..], p)
  }

  function Insert(a: Attempt, sorted: seq<Attempt>, key: Attempt -> real): seq<Attempt> {
    if sorted == [] || key(a) <= key(sorted[0]) then [a] + sorted
    else [sorted[0]] + Insert(a, sorted[1..], key)
  }

  /** A stable sort. */
  function SortBy(log: seq<Attempt>, key: Attempt -> real): seq<Attempt> {
    if log == [] then [] else Insert(log[0], SortBy(log[1..], key), key)
  }

  function Times(log: seq<Attempt>, key: Attempt -> real): seq<real> {
    seq(|log|, i requires 0 <= i < |log| => key(log[i]))
  }

  function Start(a: Attempt): real { a.start }

  function End(a: Attempt): real { a.end }

  function Max(times: seq<real>): Option<real> {
    if times == [] then None
    else
      var rest := Max(times[1..]);
      if rest.Some? && rest.value > times[0] then rest else Some(times[0])
  }

  function Min(times: seq<real>): Option<real> {
    if times == [] then None
    else
      var rest := Min(times[1..]);
      if rest.Some? && rest.value < times[0] then rest else Some(times[0])
  }

  function Gaps(acks: seq<real>): seq<real> {
    if |acks| < 2 then [] else [acks[1] - acks[0]] + Gaps(acks[1..])
  }

  predicate Before(time: real, until: Option<real>) { until.None? || time < until.value }

  function InWindow(since: real, until: Option<real>): Attempt -> bool {
    (a: Attempt) => a.start >= since && Before(a.start, until)
  }

  function Succeeded(): Attempt -> bool { (a: Attempt) => a.ok }

  function Failed(): Attempt -> bool { (a: Attempt) => !a.ok }

  function AckIn(since: real, until: Option<real>): Attempt -> bool {
    (a: Attempt) => a.end >= since && Before(a.end, until)
  }

  function AckBefore(since: real): Attempt -> bool { (a: Attempt) => a.end < since }

  function EndsBy(t: real): Attempt -> bool { (a: Attempt) => a.end <= t }

  function StartsFrom(t: real): Attempt -> bool { (a: Attempt) => a.start >= t }

  function StartsBefore(t: Option<real>): Attempt -> bool { (a: Attempt) => Before(a.start, t) }

  /** The answers that count when nothing failed: those in the window and the last one before it. */
  function Acks(successes: seq<Attempt>, since: real, until: Option<real>): seq<real> {
    var inside := Times(Select(successes, AckIn(since, until)), End);
    var before := Times(Select(successes, AckBefore(since)), End);
    if before == [] then inside else [before[|before| - 1]] + inside
  }

  function WithoutFailure(acks: seq<real>, attempts: nat): Stop {
    Stop(Max(Gaps(acks)), None, None, if acks == [] then None else Some(acks[|acks| - 1]), 0, attempts)
  }

  function AfterFailure(failures: seq<Attempt>, successes: seq<Attempt>, since: real, attempts: nat): Stop
    requires failures != []
  {
    var firstFail := failures[0].start;
    var lastOk := Max(Times(Select(successes, EndsBy(firstFail)), End));
    var resumed := Min(Times(Select(successes, StartsFrom(firstFail)), End));
    var counted := Select(failures, StartsBefore(resumed));
    var origin := if lastOk.Some? then lastOk.value else since;
    Stop(if resumed.Some? then Some(resumed.value - origin) else None,
         lastOk, Some(firstFail), resumed, |counted|, attempts)
  }

  function Measure(log: seq<Attempt>, since: real, until: Option<real>): Stop {
    var window := Select(log, InWindow(since, until));
    var successes := SortBy(Select(log, Succeeded()), End);
    var failures := SortBy(Select(window, Failed()), Start);
    if failures == [] then WithoutFailure(Acks(successes, since, until), |window|)
    else AfterFailure(failures, successes, since, |window|)
  }

  // ----- selections and sorts as multisets ------------------------------------------------

  lemma {:induction false} SelectMember(log: seq<Attempt>, p: Attempt -> bool)
    ensures forall a :: a in Select(log, p) <==> a in log && p(a)
  {
    if log != [] {
      SelectMember(log[1..], p);
    }
  }

  lemma {:induction false} SelectCount(log: seq<Attempt>, p: Attempt -> bool, a: Attempt)
    ensures multiset(Select(log, p))[a] == if p(a) then multiset(log)[a] else 0
  {
    if log != [] {
      SelectCount(log[1..], p, a);
      assert log == [log[0]] + log[1..];
    }
  }

  lemma SelectSame(log: seq<Attempt>, other: seq<Attempt>, p: Attempt -> bool)
    requires multiset(log) == multiset(other)
    ensures multiset(Select(log, p)) == multiset(Select(other, p))
    ensures |Select(log, p)| == |Select(other, p)|
  {
    forall a: Attempt
      ensures multiset(Select(log, p))[a] == multiset(Select(other, p))[a]
    {
      SelectCount(log, p, a);
      SelectCount(other, p, a);
    }
    assert multiset(Select(log, p)) == multiset(Select(other, p));
    assert |multiset(Select(log, p))| == |multiset(Select(other, p))|;
  }

  ghost predicate SortedBy(log: seq<Attempt>, key: Attempt -> real) {
    forall i, k | 0 <= i < k < |log| :: key(log[i]) <= key(log[k])
  }

  lemma {:induction false} InsertBag(a: Attempt, sorted: seq<Attempt>, key: Attempt -> real)
    ensures multiset(Insert(a, sorted, key)) == multiset(sorted) + multiset{a}
  {
    if sorted != [] && key(a) > key(sorted[0]) {
      InsertBag(a, sorted[1..], key);
      assert sorted == [sorted[0]] + sorted[1..];
    }
  }

  lemma {:induction false} InsertMember(a: Attempt, sorted: seq<Attempt>, key: Attempt -> real)
    ensures forall i | 0 <= i < |Insert(a, sorted, key)| :: Insert(a, sorted, key)[i] == a || Insert(a, sorted, key)[i] in sorted
  {
    if sorted != [] && key(a) > key(sorted[0]) {
      InsertMember(a, sorted[1..], key);
    }
  }

  lemma HeadFirst(a: Attempt, rest: seq<Attempt>, key: Attempt -> real)
    requires SortedBy(rest, key) && forall i | 0 <= i < |rest| :: key(a) <= key(rest[i])
    ensures SortedBy([a] + rest, key)
  {
  }

  lemma {:induction false} InsertSorts(a: Attempt, sorted: seq<Attempt>, key: Attempt -> real)
    requires SortedBy(sorted, key)
    ensures SortedBy(Insert(a, sorted, key), key)
  {
    if sorted != [] && key(a) > key(sorted[0]) {
      InsertSorts(a, sorted[1..], key);
      InsertMember(a, sorted[1..], key);
      HeadFirst(sorted[0], Insert(a, sorted[1..], key), key);
    } else {
      HeadFirst(a, sorted, key);
    }
  }

  lemma {:induction false} SortSorts(log: seq<Attempt>, key: Attempt -> real)
    ensures SortedBy(SortBy(log, key), key)
    ensures multiset(SortBy(log, key)) == multiset(log)
  {
    if log != [] {
      SortSorts(log[1..], key);
      InsertSorts(log[0], SortBy(log[1..], key), key);
      InsertBag(log[0], SortBy(log[1..], key), key);
      assert log == [log[0]] + log[1..];
    }
  }

  lemma {:induction false} SelectSorted(log: seq<Attempt>, p: Attempt -> bool, key: Attempt -> real)
    requires SortedBy(log, key)
    ensures SortedBy(Select(log, p), key)
  {
    if log != [] {
      SelectSorted(log[1..], p, key);
      SelectMember(log[1..], p);
      var rest := Select(log[1..], p);
      forall i | 0 <= i < |rest|
        ensures key(log[0]) <= key(rest[i])
      {
        assert rest[i] in log[1..];
      }
    }
  }

  lemma TimesConcat(a: seq<Attempt>, b: seq<Attempt>, key: Attempt -> real)
    ensures Times(a + b, key) == Times(a, key) + Times(b, key)
  {
  }

  lemma {:induction false} TimesSame(log: seq<Attempt>, other: seq<Attempt>, key: Attempt -> real)
    requires multiset(log) == multiset(other)
    ensures multiset(Times(log, key)) == multiset(Times(other, key))
  {
    if log == [] {
      assert |multiset(other)| == 0;
      assert other == [];
    } else {
      var a := log[0];
      assert a in multiset(other);
      var i :| 0 <= i < |other| && other[i] == a;
      var front, back := other[..i], other[i + 1..];
      assert log == [a] + log[1..];
      assert other == front + ([a] + back);
      assert multiset(log) == multiset{a} + multiset(log[1..]);
      assert multiset(other) == multiset(front) + (multiset{a} + multiset(back));
      assert multiset(front + back) == multiset(other) - multiset{a};
      assert multiset(log[1..]) == multiset(log) - multiset{a};
      TimesSame(log[1..], front + back, key);
      TimesConcat([a], log[1..], key);
      TimesConcat(front, back, key);
      TimesConcat(front, [a] + back, key);
      TimesConcat([a], back, key);
    }
  }

  ghost predicate Ascending(times: seq<real>) {
    forall i, k | 0 <= i < k < |times| :: times[i] <= times[k]
  }

  lemma {:induction false} AscendingUnique(a: seq<real>, b: seq<real>)
    requires Ascending(a) && Ascending(b) && multiset(a) == multiset(b)
    ensures a == b
  {
    if a == [] {
      assert |multiset(b)| == 0;
    } else {
      FirstSame(a, b);
      assert a == [a[0]] + a[1..] && b == [b[0]] + b[1..];
      assert multiset(a[1..]) == multiset(a) - multiset{a[0]};
      assert multiset(b[1..]) == multiset(b) - multiset{b[0]};
      AscendingUnique(a[1..], b[1..]);
    }
  }

  lemma FirstSame(a: seq<real>, b: seq<real>)
    requires Ascending(a) && Ascending(b) && multiset(a) == multiset(b)
    requires a != []
    ensures b != [] && a[0] == b[0]
  {
    assert a[0] in multiset(b);
    assert b[0] in multiset(a);
    var i :| 0 <= i < |b| && b[i] == a[0];
    var k :| 0 <= k < |a| && a[k] == b[0];
  }

  /** Attempts sorted on a time, then read at that time, do not depend on the order of the log. */
  lemma SortedTimesSame(log: seq<Attempt>, other: seq<Attempt>, key: Attempt -> real)
    requires SortedBy(log, key) && SortedBy(other, key)
    requires multiset(log) == multiset(other)
    ensures Times(log, key) == Times(other, key)
  {
    TimesSame(log, other, key);
    AscendingUnique(Times(log, key), Times(other, key));
  }

  lemma {:induction false} MaxIs(times: seq<real>)
    ensures Max(times).None? <==> times == []
    ensures times != [] ==> Max(times).value in times && forall t | t in times :: t <= Max(times).value
  {
    if times != [] {
      MaxIs(times[1..]);
      assert forall t | t in times :: t == times[0] || t in times[1..];
    }
  }

  lemma {:induction false} MinIs(times: seq<real>)
    ensures Min(times).None? <==> times == []
    ensures times != [] ==> Min(times).value in times && forall t | t in times :: Min(times).value <= t
  {
    if times != [] {
      MinIs(times[1..]);
      assert forall t | t in times :: t == times[0] || t in times[1..];
    }
  }

  lemma ExtremesSame(a: seq<real>, b: seq<real>)
    requires multiset(a) == multiset(b)
    ensures Max(a) == Max(b) && Min(a) == Min(b)
  {
    MaxIs(a);
    MaxIs(b);
    MinIs(a);
    MinIs(b);
    assert forall t :: t in a <==> t in multiset(a);
    assert forall t :: t in b <==> t in multiset(b);
    assert |multiset(a)| == |a| && |multiset(b)| == |b|;
  }

  // ----- the order of the log does not matter ---------------------------------------------

  lemma AcksSame(s: seq<Attempt>, o: seq<Attempt>, since: real, until: Option<real>)
    requires SortedBy(s, End) && SortedBy(o, End) && multiset(s) == multiset(o)
    ensures Acks(s, since, until) == Acks(o, since, until)
  {
    SelectSorted(s, AckIn(since, until), End);
    SelectSorted(o, AckIn(since, until), End);
    SelectSame(s, o, AckIn(since, until));
    SortedTimesSame(Select(s, AckIn(since, until)), Select(o, AckIn(since, until)), End);
    SelectSorted(s, AckBefore(since), End);
    SelectSorted(o, AckBefore(since), End);
    SelectSame(s, o, AckBefore(since));
    SortedTimesSame(Select(s, AckBefore(since)), Select(o, AckBefore(since)), End);
  }

  lemma SelectedExtremesSame(s: seq<Attempt>, o: seq<Attempt>, p: Attempt -> bool, key: Attempt -> real)
    requires multiset(s) == multiset(o)
    ensures Max(Times(Select(s, p), key)) == Max(Times(Select(o, p), key))
    ensures Min(Times(Select(s, p), key)) == Min(Times(Select(o, p), key))
  {
    SelectSame(s, o, p);
    TimesSame(Select(s, p), Select(o, p), key);
    ExtremesSame(Times(Select(s, p), key), Times(Select(o, p), key));
  }

  lemma FirstStartSame(f: seq<Attempt>, g: seq<Attempt>)
    requires f != [] && SortedBy(f, Start) && SortedBy(g, Start) && multiset(f) == multiset(g)
    ensures g != [] && f[0].start == g[0].start
  {
    SortedTimesSame(f, g, Start);
    assert |Times(f, Start)| == |Times(g, Start)|;
    assert Times(f, Start)[0] == Times(g, Start)[0];
  }

  lemma AfterFailureSame(f: seq<Attempt>, g: seq<Attempt>, s: seq<Attempt>, o: seq<Attempt>, since: real, n: nat)
    requires f != [] && SortedBy(f, Start) && SortedBy(g, Start)
    requires multiset(f) == multiset(g) && multiset(s) == multiset(o)
    ensures g != [] && AfterFailure(f, s, since, n) == AfterFailure(g, o, since, n)
  {
    hide Select, Times, Max, Min;
    FirstStartSame(f, g);
    var first := f[0].start;
    SelectedExtremesSame(s, o, EndsBy(first), End);
    SelectedExtremesSame(s, o, StartsFrom(first), End);
    SelectSame(f, g, StartsBefore(Min(Times(Select(s, StartsFrom(first)), End))));
  }

  /** The measurement depends only on which attempts were logged, never on their order. */
  lemma OrderIrrelevant(log: seq<Attempt>, other: seq<Attempt>, since: real, until: Option<real>)
    requires multiset(log) == multiset(other)
    ensures Measure(log, since, until) == Measure(other, since, until)
  {
    hide Acks, AfterFailure;
    SelectSame(log, other, InWindow(since, until));
    var window, window' := Select(log, InWindow(since, until)), Select(other, InWindow(since, until));
    SelectSame(log, other, Succeeded());
    SortSorts(Select(log, Succeeded()), End);
    SortSorts(Select(other, Succeeded()), End);
    SelectSame(window, window', Failed());
    var f, g := SortBy(Select(window, Failed()), Start), SortBy(Select(window', Failed()), Start);
    SortSorts(Select(window, Failed()), Start);
    SortSorts(Select(window', Failed()), Start);
    var s, o := SortBy(Select(log, Succeeded()), End), SortBy(Select(other, Succeeded()), End);
    if f == [] {
      assert |multiset(g)| == 0;
      AcksSame(s, o, since, until);
    } else {
      AfterFailureSame(f, g, s, o, since, |window|);
    }
  }

  // ----- what the measurement means -------------------------------------------------------

  ghost predicate Fails(log: seq<Attempt>, since: real, until: Option<real>) {
    exists a :: a in log && !a.ok && a.start >= since && Before(a.start, until)
  }

  function Failures(log: seq<Attempt>, since: real, until: Option<real>): seq<Attempt> {
    SortBy(Select(Select(log, InWindow(since, until)), Failed()), Start)
  }

  function Successes(log: seq<Attempt>): seq<Attempt> { SortBy(Select(log, Succeeded()), End) }

  lemma FailuresAre(log: seq<Attempt>, since: real, until: Option<real>)
    ensures SortedBy(Failures(log, since, until), Start)
    ensures forall a :: a in Failures(log, since, until) <==>
      a in log && !a.ok && a.start >= since && Before(a.start, until)
    ensures Failures(log, since, until) != [] <==> Fails(log, since, until)
  {
    var window := Select(log, InWindow(since, until));
    SelectMember(log, InWindow(since, until));
    SelectMember(window, Failed());
    SortSorts(Select(window, Failed()), Start);
    SortMember(Select(window, Failed()), Start);
    if Failures(log, since, until) != [] {
      assert Failures(log, since, until)[0] in Failures(log, since, until);
    }
  }

  lemma SuccessesAre(log: seq<Attempt>)
    ensures SortedBy(Successes(log), End)
    ensures forall a :: a in Successes(log) <==> a in log && a.ok
  {
    SelectMember(log, Succeeded());
    SortSorts(Select(log, Succeeded()), End);
    SortMember(Select(log, Succeeded()), End);
  }

  lemma SortMember(log: seq<Attempt>, key: Attempt -> real)
    ensures forall a :: a in SortBy(log, key) <==> a in log
  {
    SortSorts(log, key);
    assert forall a :: a in log <==> a in multiset(log);
    assert forall a :: a in SortBy(log, key) <==> a in multiset(SortBy(log, key));
  }

  lemma TimesMember(log: seq<Attempt>, key: Attempt -> real)
    ensures forall a | a in log :: key(a) in Times(log, key)
    ensures forall t | t in Times(log, key) :: exists a :: a in log && key(a) == t
  {
    forall a | a in log
      ensures key(a) in Times(log, key)
    {
      var i :| 0 <= i < |log| && log[i] == a;
      assert Times(log, key)[i] == key(a);
    }
  }

  /** An answer received at this time, by any attempt of the log. */
  ghost predicate AckAt(log: seq<Attempt>, t: real) { exists a :: a in log && a.ok && a.end == t }

  /** The answers that bound the silences: those in the window and the last one before it. */
  ghost predicate Counts(log: seq<Attempt>, since: real, until: Option<real>, t: real) {
    && AckAt(log, t)
    && if t >= since then Before(t, until) else forall earlier | AckAt(log, earlier) && earlier < since :: earlier <= t
  }

  lemma SelectedTimes(s: seq<Attempt>, log: seq<Attempt>, p: Attempt -> bool, q: real -> bool)
    requires SortedBy(s, End)
    requires forall a :: a in s <==> a in log && a.ok
    requires forall a: Attempt :: p(a) == q(a.end)
    ensures Ascending(Times(Select(s, p), End))
    ensures forall t :: t in Times(Select(s, p), End) <==> AckAt(log, t) && q(t)
  {
    SelectSorted(s, p, End);
    SelectMember(s, p);
    TimesMember(Select(s, p), End);
    forall t
      ensures t in Times(Select(s, p), End) <==> AckAt(log, t) && q(t)
    {
      if t in Times(Select(s, p), End) {
        var a :| a in Select(s, p) && End(a) == t;
        assert a in log && a.ok;
      }
      if AckAt(log, t) && q(t) {
        var a :| a in log && a.ok && a.end == t;
        assert a in Select(s, p);
      }
    }
  }

  lemma AcksAre(log: seq<Attempt>, since: real, until: Option<real>)
    ensures Ascending(Acks(Successes(log), since, until))
    ensures forall t :: t in Acks(Successes(log), since, until) <==> Counts(log, since, until, t)
  {
    hide Select, SortBy, Times, Successes;
    var s := Successes(log);
    SuccessesAre(log);
    SelectedTimes(s, log, AckIn(since, until), (t: real) => t >= since && Before(t, until));
    SelectedTimes(s, log, AckBefore(since), (t: real) => t < since);
    var before := Times(Select(s, AckBefore(since)), End);
    if before != [] {
      assert before[|before| - 1] in before;
      var inside := Times(Select(s, AckIn(since, until)), End);
      forall k | 0 <= k < |inside|
        ensures before[|before| - 1] < inside[k]
      {
        assert inside[k] in inside;
      }
      assert forall t | AckAt(log, t) && t < since :: t in before;
    }
  }

  lemma {:induction false} GapsAre(acks: seq<real>)
    ensures |acks| < 2 ==> Gaps(acks) == []
    ensures |acks| >= 2 ==> |Gaps(acks)| == |acks| - 1
    ensures forall i | 0 <= i < |Gaps(acks)| :: Gaps(acks)[i] == acks[i + 1] - acks[i]
  {
    if |acks| >= 2 {
      GapsAre(acks[1..]);
    }
  }

  ghost predicate Silent(log: seq<Attempt>, u: real, v: real) { forall t | AckAt(log, t) :: !(u < t < v) }

  /** Between two neighbours of an ascending list lies any interval that avoids its members. */
  lemma {:induction false} Straddled(acks: seq<real>, u: real, v: real) returns (i: nat)
    requires Ascending(acks) && |acks| >= 2
    requires acks[0] <= u < v <= acks[|acks| - 1]
    requires forall t | t in acks :: !(u < t < v)
    ensures i + 1 < |acks| && acks[i] <= u && v <= acks[i + 1]
  {
    assert acks[1] in acks;
    if acks[1] >= v {
      i := 0;
    } else {
      assert forall t | t in acks[1..] :: t in acks;
      var rest := Straddled(acks[1..], u, v);
      i := rest + 1;
    }
  }

  ghost predicate Silence(log: seq<Attempt>, since: real, until: Option<real>, length: real, u: real) {
    Counts(log, since, until, u) && Counts(log, since, until, u + length) && Silent(log, u, u + length)
  }

  lemma SilenceBounded(log: seq<Attempt>, since: real, until: Option<real>, acks: seq<real>,
                       first: real, u: real, v: real, last: real)
    requires Ascending(acks) && forall t :: t in acks <==> Counts(log, since, until, t)
    requires Counts(log, since, until, first) && Counts(log, since, until, last)
    requires first <= u < v <= last && Silent(log, u, v)
    ensures Max(Gaps(acks)).Some? && v - u <= Max(Gaps(acks)).value
  {
    assert first in acks && last in acks;
    var i := Straddled(acks, u, v);
    GapsAre(acks);
    MaxIs(Gaps(acks));
    assert Gaps(acks)[i] in Gaps(acks);
  }

  lemma LongestGap(log: seq<Attempt>, since: real, until: Option<real>, acks: seq<real>)
    requires Ascending(acks) && forall t :: t in acks <==> Counts(log, since, until, t)
    requires Max(Gaps(acks)).Some?
    ensures exists u :: Silence(log, since, until, Max(Gaps(acks)).value, u)
  {
    GapsAre(acks);
    MaxIs(Gaps(acks));
    var longest := Max(Gaps(acks)).value;
    var i :| 0 <= i < |Gaps(acks)| && Gaps(acks)[i] == longest;
    var u, v := acks[i], acks[i + 1];
    assert u in acks && v in acks;
    forall t | AckAt(log, t)
      ensures !(u < t < v)
    {
      assert u < t < v ==> Counts(log, since, until, t);
      assert u < t < v ==> t in acks;
    }
    assert Silence(log, since, until, longest, u);
  }

  /**
   * When nothing failed, the duration is the longest stretch without an answer between two
   * counted answers: no stretch is longer and one is that long.
   */
  lemma LongestSilence(log: seq<Attempt>, since: real, until: Option<real>)
    requires !Fails(log, since, until)
    ensures var r := Measure(log, since, until);
      && (forall first, u, v, last |
            Counts(log, since, until, first) && Counts(log, since, until, last) && first <= u < v <= last
            && Silent(log, u, v) :: r.duration.Some? && v - u <= r.duration.value)
      && (r.duration.Some? ==> exists u :: Silence(log, since, until, r.duration.value, u))
      && (r.resumedAt.None? <==> forall t :: !Counts(log, since, until, t))
      && (r.resumedAt.Some? ==>
            Counts(log, since, until, r.resumedAt.value) && forall t | Counts(log, since, until, t) :: t <= r.resumedAt.value)
  {
    hide Acks, Select, SortBy, Gaps, Max, Counts, Silent;
    FailuresAre(log, since, until);
    AcksAre(log, since, until);
    var acks := Acks(Successes(log), since, until);
    assert Measure(log, since, until) == WithoutFailure(acks, |Select(log, InWindow(since, until))|);
    forall first, u, v, last | Counts(log, since, until, first) && Counts(log, since, until, last)
        && first <= u < v <= last && Silent(log, u, v)
      ensures Max(Gaps(acks)).Some? && v - u <= Max(Gaps(acks)).value
    {
      SilenceBounded(log, since, until, acks, first, u, v, last);
    }
    if Max(Gaps(acks)).Some? {
      LongestGap(log, since, until, acks);
    }
    if acks != [] {
      assert acks[|acks| - 1] in acks;
    }
  }

  /** The earliest failure of the window, and the answers on either side of it. */
  lemma StopIsAroundFirstFailure(log: seq<Attempt>, since: real, until: Option<real>)
    requires Fails(log, since, until)
    ensures var r := Measure(log, since, until);
      && r.firstFailAt.Some?
      && (exists a :: a in log && !a.ok && since <= a.start == r.firstFailAt.value && Before(a.start, until))
      && (forall a | a in log && !a.ok && a.start >= since && Before(a.start, until) :: r.firstFailAt.value <= a.start)
      && LatestAck(log, r.firstFailAt.value, r.lastOkAt)
      && EarliestRetry(log, r.firstFailAt.value, r.resumedAt)
      && r.duration == (if r.resumedAt.None? then None
                        else Some(r.resumedAt.value - if r.lastOkAt.Some? then r.lastOkAt.value else since))
  {
    hide Select, SortBy, Times, Max, Min;
    FailuresAre(log, since, until);
    SuccessesAre(log);
    var failures, s := Failures(log, since, until), Successes(log);
    var a :| a in log && !a.ok && a.start >= since && Before(a.start, until);
    assert a in failures;
    var first := failures[0];
    assert first in failures;
    forall a | a in failures
      ensures first.start <= a.start
    {
      var i :| 0 <= i < |failures| && failures[i] == a;
      assert i > 0 ==> Start(first) <= Start(failures[i]);
    }
    LatestIs(log, s, first.start);
    EarliestIs(log, s, first.start);
  }

  /** The last answer received by a given time. */
  ghost predicate LatestAck(log: seq<Attempt>, t: real, r: Option<real>) {
    && (r.None? <==> forall a | a in log && a.ok :: a.end > t)
    && (r.Some? ==> r.value <= t && AckAt(log, r.value) && forall a | a in log && a.ok && a.end <= t :: a.end <= r.value)
  }

  /** The first answer to an attempt made from a given time on. */
  ghost predicate EarliestRetry(log: seq<Attempt>, t: real, r: Option<real>) {
    && (r.None? <==> forall a | a in log && a.ok :: a.start < t)
    && (r.Some? ==>
          (exists a :: a in log && a.ok && a.start >= t && a.end == r.value) && forall a | a in log && a.ok && a.start >= t :: r.value <= a.end)
  }

  lemma LatestIs(log: seq<Attempt>, s: seq<Attempt>, t: real)
    requires forall a :: a in s <==> a in log && a.ok
    ensures LatestAck(log, t, Max(Times(Select(s, EndsBy(t)), End)))
  {
    var chosen := Select(s, EndsBy(t));
    SelectMember(s, EndsBy(t));
    TimesMember(chosen, End);
    MaxIs(Times(chosen, End));
    if chosen != [] {
      assert chosen[0] in chosen;
      var a :| a in chosen && End(a) == Max(Times(chosen, End)).value;
      assert AckAt(log, a.end);
    } else {
      assert forall a | a in log && a.ok :: a !in chosen;
    }
  }

  lemma EarliestIs(log: seq<Attempt>, s: seq<Attempt>, t: real)
    requires forall a :: a in s <==> a in log && a.ok
    ensures EarliestRetry(log, t, Min(Times(Select(s, StartsFrom(t)), End)))
  {
    var chosen := Select(s, StartsFrom(t));
    SelectMember(s, StartsFrom(t));
    TimesMember(chosen, End);
    MinIs(Times(chosen, End));
    if chosen != [] {
      assert chosen[0] in chosen;
      var a :| a in chosen && End(a) == Min(Times(chosen, End)).value;
    } else {
      assert forall a | a in log && a.ok :: a !in chosen;
    }
  }

  /** The duration is never negative when every attempt ends after it starts. */
  lemma NeverNegative(log: seq<Attempt>, since: real, until: Option<real>)
    requires forall a | a in log :: a.start <= a.end
    ensures Measure(log, since, until).duration.Some? ==> Measure(log, since, until).duration.value >= 0.0
  {
    hide Acks, Select, SortBy, Gaps, Max, Measure;
    if Fails(log, since, until) {
      StopIsAroundFirstFailure(log, since, until);
    } else {
      SilenceNonNegative(log, since, until);
    }
  }

  lemma SilenceNonNegative(log: seq<Attempt>, since: real, until: Option<real>)
    requires !Fails(log, since, until)
    ensures Measure(log, since, until).duration.Some? ==> Measure(log, since, until).duration.value >= 0.0
  {
    FailuresAre(log, since, until);
    AcksAre(log, since, until);
    var acks := Acks(Successes(log), since, until);
    GapsAre(acks);
    MaxIs(Gaps(acks));
  }

  ghost predicate AnswerWithin(log: seq<Attempt>, u: real, v: real) {
    exists a :: a in log && a.ok && u < a.end < v
  }

  /** The earliest start of a failing attempt of the window. */
  ghost predicate IsFirstFailure(log: seq<Attempt>, since: real, until: Option<real>, first: real) {
    && (exists a :: a in log && !a.ok && since <= a.start == first && Before(a.start, until))
    && (forall a | a in log && !a.ok && a.start >= since && Before(a.start, until) :: first <= a.start)
  }

  /**
    A successful attempt was under way when the first failing one started and is answered before
    every successful attempt made from then on.
   */
  ghost predicate Overlaps(log: seq<Attempt>, first: real) {
    exists a :: a in log && a.ok && a.start < first < a.end && FirstBack(log, first, a.end)
  }

  ghost predicate FirstBack(log: seq<Attempt>, first: real, end: real) {
    forall b | b in log && b.ok && b.start >= first :: end < b.end
  }

  /** With a failure, the reported stop is free of answers exactly when no attempt overlaps its start that way. */
  lemma QuietUnlessOverlapping(log: seq<Attempt>, since: real, until: Option<real>, first: real)
    requires IsFirstFailure(log, since, until, first)
    ensures var r := Measure(log, since, until);
      && r.firstFailAt == Some(first)
      && (r.resumedAt.Some? ==>
            (AnswerWithin(log, if r.lastOkAt.Some? then r.lastOkAt.value else since, r.resumedAt.value)
             <==> Overlaps(log, first)))
  {
    hide Measure;
    var f :| f in log && !f.ok && since <= f.start == first && Before(f.start, until);
    StopIsAroundFirstFailure(log, since, until);
    var r := Measure(log, since, until);
    if r.resumedAt.Some? {
      var origin := if r.lastOkAt.Some? then r.lastOkAt.value else since;
      if AnswerWithin(log, origin, r.resumedAt.value) {
        var a :| a in log && a.ok && origin < a.end < r.resumedAt.value;
        assert a.start < first < a.end && FirstBack(log, first, a.end);
      }
      if Overlaps(log, first) {
        var a :| a in log && a.ok && a.start < first < a.end && FirstBack(log, first, a.end);
        assert origin < a.end < r.resumedAt.value;
      }
    }
  }

  /** The attempt from 9 to 12 is answered inside the stop that is reported from 6 to 14. */
  lemma OverlapShown()
    ensures var log := [Attempt(1, 5.0, 6.0, true, ""), Attempt(2, 9.0, 12.0, true, ""),
                        Attempt(3, 10.0, 11.0, false, ""), Attempt(4, 13.0, 14.0, true, "")];
      var r := Measure(log, 0.0, None);
      && r.lastOkAt == Some(6.0) && r.resumedAt == Some(14.0) && r.duration == Some(8.0)
      && AnswerWithin(log, 6.0, 14.0)
  {
    hide Measure;
    var log := [Attempt(1, 5.0, 6.0, true, ""), Attempt(2, 9.0, 12.0, true, ""),
                Attempt(3, 10.0, 11.0, false, ""), Attempt(4, 13.0, 14.0, true, "")];
    assert log[0] in log && log[1] in log && log[2] in log && log[3] in log;
    assert forall a | a in log :: a == log[0] || a == log[1] || a == log[2] || a == log[3];
    StopIsAroundFirstFailure(log, 0.0, None);
  }

  // ----- the two counters -----------------------------------------------------------------

  /** Positions of the attempts that satisfy a condition. */
  ghost function Positions(log: seq<Attempt>, p: Attempt -> bool): set<int> {
    set i | 0 <= i < |log| && p(log[i])
  }

  lemma {:induction false} SelectSnoc(log: seq<Attempt>, a: Attempt, p: Attempt -> bool)
    ensures Select(log + [a], p) == Select(log, p) + if p(a) then [a] else []
  {
    if log == [] {
      assert log + [a] == [a];
    } else {
      SelectSnoc(log[1..], a, p);
      assert (log + [a])[1..] == log[1..] + [a];
    }
  }

  lemma {:induction false} SelectSize(log: seq<Attempt>, p: Attempt -> bool)
    ensures |Select(log, p)| == |Positions(log, p)|
  {
    if log == [] {
      assert Positions(log, p) == {};
    } else {
      var n := |log| - 1;
      SelectSize(log[..n], p);
      SelectSnoc(log[..n], log[n], p);
      assert log == log[..n] + [log[n]];
      assert Positions(log, p) == Positions(log[..n], p) + if p(log[n]) then {n} else {};
    }
  }

  lemma {:induction false} SelectTwice(log: seq<Attempt>, p: Attempt -> bool, q: Attempt -> bool, both: Attempt -> bool)
    requires forall a :: both(a) <==> p(a) && q(a)
    ensures Select(Select(log, p), q) == Select(log, both)
  {
    if log != [] {
      SelectTwice(log[1..], p, q, both);
      var rest := Select(log[1..], p);
      if p(log[0]) {
        assert ([log[0]] + rest)[1..] == rest;
      } else {
        assert Select(log, p) == rest;
      }
    }
  }

  function FailsUntil(since: real, until: Option<real>, resumed: Option<real>): Attempt -> bool {
    (a: Attempt) => !a.ok && a.start >= since && Before(a.start, until) && Before(a.start, resumed)
  }

  /** `attempts` counts the attempts of the window, `failures` its failing ones that start before writes resume. */
  lemma CountersCount(log: seq<Attempt>, since: real, until: Option<real>)
    ensures var r := Measure(log, since, until);
      && r.attempts == |Positions(log, InWindow(since, until))|
      && r.failures == if Fails(log, since, until) then |Positions(log, FailsUntil(since, until, r.resumedAt))| else 0
  {
    hide Acks, Select, SortBy, Times, Max, Min, Positions, Gaps;
    SelectSize(log, InWindow(since, until));
    FailuresAre(log, since, until);
    if Fails(log, since, until) {
      var window, r := Select(log, InWindow(since, until)), Measure(log, since, until);
      var failing := Select(window, Failed());
      var inWindow := (a: Attempt) => a.start >= since && Before(a.start, until) && !a.ok;
      SortSorts(failing, Start);
      SelectSame(SortBy(failing, Start), failing, StartsBefore(r.resumedAt));
      SelectTwice(log, InWindow(since, until), Failed(), inWindow);
      SelectTwice(log, inWindow, StartsBefore(r.resumedAt), FailsUntil(since, until, r.resumedAt));
      SelectSize(log, FailsUntil(since, until, r.resumedAt));
    }
  }

  lemma {:induction false} GapsNone(acks: seq<real>)
    ensures Max(Gaps(acks)).None? <==> |acks| < 2
  {
    GapsAre(acks);
    MaxIs(Gaps(acks));
  }

  function OkAnd(p: Attempt -> bool): Attempt -> bool { (a: Attempt) => a.ok && p(a) }

  lemma SuccessSize(log: seq<Attempt>, p: Attempt -> bool)
    ensures |Select(Successes(log), p)| == |Positions(log, OkAnd(p))|
  {
    var ok := Select(log, Succeeded());
    SortSorts(ok, End);
    SelectSame(Successes(log), ok, p);
    SelectTwice(log, Succeeded(), p, OkAnd(p));
    SelectSize(log, OkAnd(p));
  }

  /** Without failures there is a duration exactly when two answers count: those of the window and one before it. */
  lemma DurationNeedsTwoAnswers(log: seq<Attempt>, since: real, until: Option<real>)
    requires !Fails(log, since, until)
    ensures var r := Measure(log, since, until);
      var inside, before := |Positions(log, OkAnd(AckIn(since, until)))|, |Positions(log, OkAnd(AckBefore(since)))|;
      && (r.duration.None? <==> inside + (if before > 0 then 1 else 0) < 2)
      && r.lastOkAt.None? && r.firstFailAt.None?
  {
    hide Select, SortBy, Gaps, Max, Positions;
    FailuresAre(log, since, until);
    SuccessSize(log, AckIn(since, until));
    SuccessSize(log, AckBefore(since));
    GapsNone(Acks(Successes(log), since, until));
  }
}
