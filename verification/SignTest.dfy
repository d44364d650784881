/** The exact two-sided sign test over paired differences. */
module SignTest {

  /** math.comb. */
  function Comb(n: nat, k: nat): nat {
    if k > n then 0 else if k == 0 || k == n then 1 else Comb(n - 1, k - 1) + Comb(n - 1, k)
  }

  function Pow2(n: nat): (p: nat)
    ensures p > 0
  {
    if n == 0 then 1 else 2 * Pow2(n - 1)
  }

  /** Comb(n, 0) + ... + Comb(n, x). */
  function CombSum(n: nat, x: int): nat
    requires x >= -1
    decreases x + 1
  {
    if x == -1 then 0 else CombSum(n, x - 1) + Comb(n, x)
  }

  function TailAtMost(n: nat, x: nat): real { CombSum(n, x) as real / Pow2(n) as real }

  function Min(a: nat, b: nat): nat { if a <= b then a else b }

  /** The p value from the counts of wins and losses; ties were dropped before. */
  function PValue(wins: nat, losses: nat): real {
    var n := wins + losses;
    if n == 0 then 1.0
    else
      var doubled := 2.0 * TailAtMost(n, Min(wins, losses));
      if doubled < 1.0 then doubled else 1.0
  }

  function Count(diffs: seq<real>, up: bool): nat {
    if diffs == [] then 0
    else (if (if up then diffs[0] > 0.0 else diffs[0] < 0.0) then 1 else 0) + Count(diffs[1..], up)
  }

  datatype Outcome = Outcome(wins: nat, losses: nat, ties: nat, pValue: real)

  lemma {:induction false} CountsFit(diffs: seq<real>)
    ensures Count(diffs, true) + Count(diffs, false) <= |diffs|
  {
    if diffs != [] {
      CountsFit(diffs[1..]);
    }
  }

  function Test(diffs: seq<real>): Outcome {
    var wins, losses := Count(diffs, true), Count(diffs, false);
    CountsFit(diffs);
    Outcome(wins, losses, |diffs| - (wins + losses), PValue(wins, losses))
  }

  // ----- Pascal's triangle ----------------------------------------------------------------

  lemma {:induction false} CombSymmetric(n: nat, k: nat)
    requires k <= n
    ensures Comb(n, k) == Comb(n, n - k)
  {
    if 0 < k < n {
      CombSymmetric(n - 1, k - 1);
      CombSymmetric(n - 1, k);
    }
  }

  lemma {:induction false} CombPositive(n: nat, k: nat)
    requires k <= n
    ensures Comb(n, k) > 0
  {
    if 0 < k < n {
      CombPositive(n - 1, k - 1);
    }
  }

  lemma Pascal(n: nat, k: nat)
    requires n > 0 && k > 0
    ensures Comb(n, k) == Comb(n - 1, k - 1) + Comb(n - 1, k)
  {
  }

  /** A row sum up to x is twice the row above up to x - 1, plus its next entry. */
  lemma {:induction false} RowFromAbove(n: nat, x: int)
    requires n > 0 && x >= 0
    ensures CombSum(n, x) == 2 * CombSum(n - 1, x - 1) + Comb(n - 1, x)
    decreases x
  {
    if x > 0 {
      RowFromAbove(n, x - 1);
      Pascal(n, x);
    }
  }

  lemma {:induction false} RowTotal(n: nat)
    ensures CombSum(n, n) == Pow2(n)
  {
    if n > 0 {
      RowFromAbove(n, n);
      RowTotal(n - 1);
    } else {
      assert CombSum(0, -1) == 0;
    }
  }

  /** The lower part of a row and its mirror image make up the whole row. */
  lemma {:induction false} RowMirror(n: nat, x: int)
    requires -1 <= x <= n
    ensures CombSum(n, x) + CombSum(n, n - x - 1) == Pow2(n)
    decreases n - x
  {
    if x == n {
      RowTotal(n);
    } else {
      RowMirror(n, x + 1);
      CombSymmetric(n, x + 1);
    }
  }

  // ----- the doubled tail -----------------------------------------------------------------

  /** Twice the numerator of the lower tail against the denominator 2^n. */
  lemma DoubledTail(wins: nat, losses: nat)
    requires wins + losses > 0
    ensures var n, m := wins + losses, Min(wins, losses);
      && (2 * CombSum(n, m) > Pow2(n) <==> wins == losses)
      && (2 * CombSum(n, m) == Pow2(n) <==> wins == losses + 1 || losses == wins + 1)
  {
    var n, m := wins + losses, Min(wins, losses);
    RowMirror(n, m);
    if wins == losses {
      assert n - m - 1 == m - 1;
      CombPositive(n, m);
    } else {
      SumsGrow(n, m, n - m - 1);
    }
  }

  lemma {:induction false} SumsGrow(n: nat, x: int, y: int)
    requires -1 <= x <= y <= n
    ensures CombSum(n, x) <= CombSum(n, y)
    ensures x < y ==> CombSum(n, x) < CombSum(n, y)
    decreases y
  {
    if x < y {
      SumsGrow(n, x, y - 1);
      CombPositive(n, y);
    }
  }

  lemma DoubledReal(n: nat, x: nat)
    ensures 2.0 * TailAtMost(n, x) > 1.0 <==> 2 * CombSum(n, x) > Pow2(n)
    ensures 2.0 * TailAtMost(n, x) == 1.0 <==> 2 * CombSum(n, x) == Pow2(n)
  {
    hide CombSum, Pow2;
    Ratio(CombSum(n, x), Pow2(n));
  }

  lemma Ratio(x: nat, d: nat)
    requires d > 0
    ensures 2.0 * (x as real / d as real) > 1.0 <==> 2 * x > d
    ensures 2.0 * (x as real / d as real) == 1.0 <==> 2 * x == d
  {
    var q, e := x as real / d as real, d as real;
    assert q * e == x as real;
    assert (2.0 * q - 1.0) * e == (2 * x - d) as real;
    Sign(2.0 * q - 1.0, e);
  }

  lemma Sign(q: real, e: real)
    requires e > 0.0
    ensures q > 0.0 <==> q * e > 0.0
    ensures q == 0.0 <==> q * e == 0.0
  {
  }

  /** The clip at 1 acts only on a draw, and p is 1 exactly when wins and losses differ by at most 1. */
  lemma {:induction false} ClippedOnlyOnDraw(wins: nat, losses: nat)
    requires wins + losses > 0
    ensures 2.0 * TailAtMost(wins + losses, Min(wins, losses)) > 1.0 <==> wins == losses
    ensures PValue(wins, losses) == 1.0 <==> -1 <= wins - losses <= 1
    ensures PValue(wins, losses) == PValue(losses, wins)
    ensures 0.0 < PValue(wins, losses) <= 1.0
  {
    var n, m := wins + losses, Min(wins, losses);
    DoubledTail(wins, losses);
    DoubledReal(n, m);
    CombPositive(n, m);
  }

  /** With n decided pairs fixed, fewer on the smaller side always means a smaller p. */
  lemma {:induction false} FewerMeansSmaller(n: nat, a: nat, b: nat)
    requires n > 0 && a < b <= n - b
    ensures PValue(a, n - a) < PValue(b, n - b)
  {
    SumsGrow(n, a, b);
    DoubledTail(a, n - a);
    DoubledTail(b, n - b);
    DoubledReal(n, a);
    DoubledReal(n, b);
    TailGrows(CombSum(n, a), CombSum(n, b), Pow2(n));
  }

  lemma TailGrows(x: nat, y: nat, d: nat)
    requires x < y && d > 0
    ensures x as real / d as real < y as real / d as real
  {
  }

  function Negated(diffs: seq<real>): seq<real> {
    if diffs == [] then [] else [-diffs[0]] + Negated(diffs[1..])
  }

  /** Exchanging the two arms exchanges wins and losses and leaves p alone. */
  lemma {:induction false} ArmsExchange(diffs: seq<real>)
    ensures var t, u := Test(diffs), Test(Negated(diffs));
      u.wins == t.losses && u.losses == t.wins && u.ties == t.ties && u.pValue == t.pValue
  {
    NegatedCounts(diffs);
  }

  lemma {:induction false} NegatedCounts(diffs: seq<real>)
    ensures |Negated(diffs)| == |diffs|
    ensures Count(Negated(diffs), true) == Count(diffs, false)
    ensures Count(Negated(diffs), false) == Count(diffs, true)
  {
    if diffs != [] {
      NegatedCounts(diffs[1..]);
    }
  }

  // ----- the p value by counting ----------------------------------------------------------

  function Prepend(b: bool, a: set<seq<bool>>): set<seq<bool>> { set s | s in a :: [b] + s }

  lemma PrependMember(b: bool, a: set<seq<bool>>, s: seq<bool>)
    ensures s in Prepend(b, a) <==> s != [] && s[0] == b && s[1..] in a
  {
    if s in Prepend(b, a) {
      var t :| t in a && [b] + t == s;
      assert s[1..] == t;
    }
    if s != [] && s[0] == b && s[1..] in a {
      assert s == [b] + s[1..];
    }
  }

  lemma {:induction false} PrependSize(b: bool, a: set<seq<bool>>)
    ensures |Prepend(b, a)| == |a|
  {
    if x :| x in a {
      var rest := a - {x};
      PrependSize(b, rest);
      PrependMember(b, rest, [b] + x);
      assert ([b] + x)[1..] == x;
      assert Prepend(b, a) == Prepend(b, rest) + {[b] + x};
    } else {
      assert a == {} && Prepend(b, a) == {};
    }
  }

  /** All ways in which n fair pairs can come out. */
  function Outcomes(n: nat): set<seq<bool>> {
    if n == 0 then {[]} else Prepend(true, Outcomes(n - 1)) + Prepend(false, Outcomes(n - 1))
  }

  lemma {:induction false} OutcomesAre(n: nat, s: seq<bool>)
    ensures s in Outcomes(n) <==> |s| == n
  {
    if n > 0 {
      PrependMember(true, Outcomes(n - 1), s);
      PrependMember(false, Outcomes(n - 1), s);
      if s != [] {
        OutcomesAre(n - 1, s[1..]);
      }
    }
  }

  function Wins(s: seq<bool>): nat { if s == [] then 0 else (if s[0] then 1 else 0) + Wins(s[1..]) }

  ghost function WithWins(n: nat, k: int): set<seq<bool>> { set s | s in Outcomes(n) && Wins(s) == k }

  ghost function AtMostWins(n: nat, x: int): set<seq<bool>> { set s | s in Outcomes(n) && Wins(s) <= x }

  lemma WinsSplit(n: nat, k: int)
    requires n > 0
    ensures |WithWins(n, k)| == |WithWins(n - 1, k - 1)| + |WithWins(n - 1, k)|
  {
    var up, down := Prepend(true, WithWins(n - 1, k - 1)), Prepend(false, WithWins(n - 1, k));
    PrependSize(true, WithWins(n - 1, k - 1));
    PrependSize(false, WithWins(n - 1, k));
    forall s
      ensures s in WithWins(n, k) <==> s in up || s in down
      ensures !(s in up && s in down)
    {
      WinsSplitMember(n, k, s);
    }
    assert WithWins(n, k) == up + down && up !! down;
  }

  lemma WinsSplitMember(n: nat, k: int, s: seq<bool>)
    requires n > 0
    ensures s in WithWins(n, k) <==> s in Prepend(true, WithWins(n - 1, k - 1)) || s in Prepend(false, WithWins(n - 1, k))
    ensures !(s in Prepend(true, WithWins(n - 1, k - 1)) && s in Prepend(false, WithWins(n - 1, k)))
  {
    hide Prepend, Outcomes;
    PrependMember(true, WithWins(n - 1, k - 1), s);
    PrependMember(false, WithWins(n - 1, k), s);
    OutcomesAre(n, s);
    if s != [] {
      OutcomesAre(n - 1, s[1..]);
    }
  }

  lemma {:induction false} CombCounts(n: nat, k: int)
    ensures |WithWins(n, k)| == if k < 0 then 0 else Comb(n, k)
  {
    if n == 0 {
      assert Outcomes(0) == {[]};
      assert WithWins(0, k) == if k == 0 then {[]} else {};
    } else {
      WinsSplit(n, k);
      CombCounts(n - 1, k - 1);
      CombCounts(n - 1, k);
      if k > 0 {
        Pascal(n, k);
      } else if k == 0 {
        assert Comb(n - 1, 0) == 1;
      }
    }
  }

  lemma {:induction false} TailCounts(n: nat, x: int)
    requires x >= -1
    ensures |AtMostWins(n, x)| == CombSum(n, x)
    decreases x + 1
  {
    if x == -1 {
      assert AtMostWins(n, x) == {};
    } else {
      TailCounts(n, x - 1);
      CombCounts(n, x);
      assert AtMostWins(n, x) == AtMostWins(n, x - 1) + WithWins(n, x);
      assert AtMostWins(n, x - 1) !! WithWins(n, x);
    }
  }

  lemma {:induction false} WinsBound(s: seq<bool>)
    ensures Wins(s) <= |s|
  {
    if s != [] {
      WinsBound(s[1..]);
    }
  }

  lemma OutcomeCount(n: nat)
    ensures |Outcomes(n)| == Pow2(n)
  {
    TailCounts(n, n);
    RowTotal(n);
    forall s | s in Outcomes(n)
      ensures Wins(s) <= n
    {
      OutcomesAre(n, s);
      WinsBound(s);
    }
    assert AtMostWins(n, n) == Outcomes(n);
  }

  /**
    The p value is the share, at most all, of the outcomes of n fair pairs with no more wins than
    the smaller side has, counted twice for the two sides.
   */
  lemma PValueCounts(wins: nat, losses: nat)
    ensures var n, m := wins + losses, if wins <= losses then wins else losses;
      var all, twice := |Outcomes(n)|, 2 * |AtMostWins(n, m)|;
      PValue(wins, losses) * all as real == (if twice <= all then twice else all) as real
  {
    hide Comb, CombSum, Outcomes, AtMostWins, Pow2;
    var n, m := wins + losses, Min(wins, losses);
    OutcomeCount(n);
    TailCounts(n, m);
    if n == 0 {
      NothingDecided();
    } else {
      Share(CombSum(n, m), Pow2(n));
    }
  }

  lemma NothingDecided()
    ensures Pow2(0) == 1 && CombSum(0, 0) == 1
  {
    assert CombSum(0, 0) == CombSum(0, -1) + Comb(0, 0);
  }

  lemma Share(x: nat, d: nat)
    requires d > 0
    ensures var doubled := 2.0 * (x as real / d as real);
      (if doubled < 1.0 then doubled else 1.0) * d as real == (if 2 * x <= d then 2 * x else d) as real
  {
    Ratio(x, d);
    assert x as real / d as real * d as real == x as real;
  }

  // ----- the counts -----------------------------------------------------------------------

  lemma {:induction false} CountSnoc(diffs: seq<real>, d: real, up: bool)
    ensures Count(diffs + [d], up) == Count(diffs, up) + if (if up then d > 0.0 else d < 0.0) then 1 else 0
  {
    if diffs == [] {
      assert diffs + [d] == [d];
    } else {
      CountSnoc(diffs[1..], d, up);
      assert (diffs + [d])[1..] == diffs[1..] + [d];
    }
  }

  ghost function Positive(diffs: seq<real>): set<int> { set i | 0 <= i < |diffs| && diffs[i] > 0.0 }

  ghost function Negative(diffs: seq<real>): set<int> { set i | 0 <= i < |diffs| && diffs[i] < 0.0 }

  ghost function Zero(diffs: seq<real>): set<int> { set i | 0 <= i < |diffs| && diffs[i] == 0.0 }

  lemma Extended(diffs: seq<real>, d: real)
    ensures Positive(diffs + [d]) == Positive(diffs) + if d > 0.0 then {|diffs|} else {}
    ensures Negative(diffs + [d]) == Negative(diffs) + if d < 0.0 then {|diffs|} else {}
    ensures Zero(diffs + [d]) == Zero(diffs) + if d == 0.0 then {|diffs|} else {}
    ensures |diffs| !in Positive(diffs) && |diffs| !in Negative(diffs) && |diffs| !in Zero(diffs)
  {
    assert forall i | 0 <= i < |diffs| :: (diffs + [d])[i] == diffs[i];
  }

  lemma {:induction false} CountSizes(diffs: seq<real>)
    ensures Count(diffs, true) == |Positive(diffs)| && Count(diffs, false) == |Negative(diffs)|
    ensures |Positive(diffs)| + |Negative(diffs)| + |Zero(diffs)| == |diffs|
  {
    if diffs == [] {
      assert Positive(diffs) == {} && Negative(diffs) == {} && Zero(diffs) == {};
    } else {
      hide Count, Positive, Negative, Zero;
      var n := |diffs| - 1;
      CountSizes(diffs[..n]);
      CountSnoc(diffs[..n], diffs[n], true);
      CountSnoc(diffs[..n], diffs[n], false);
      Extended(diffs[..n], diffs[n]);
      assert diffs == diffs[..n] + [diffs[n]];
    }
  }

  /** Wins, losses and ties are the positive, negative and zero differences. */
  lemma TestCounts(diffs: seq<real>)
    ensures var t := Test(diffs);
      && t.wins == |Positive(diffs)| && t.losses == |Negative(diffs)| && t.ties == |Zero(diffs)|
      && t.pValue == PValue(|Positive(diffs)|, |Negative(diffs)|)
  {
    CountSizes(diffs);
  }
}
