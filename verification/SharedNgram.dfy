/** The longest contiguous text that a generated question shares with its source chunk. */
module SharedNgram {

  /** Kept by the normalisation: ASCII letters and digits and Hangul syllables. */
  predicate Kept(c: char) {
    '0' <= c <= '9' || 'A' <= c <= 'Z' || 'a' <= c <= 'z' || '\U{AC00}' <= c <= '\U{D7A3}'
  }

  function Normalize(text: string): string {
    if text == [] then [] else (if Kept(text[0]) then [text[0]] else []) + Normalize(text[1..])
  }

  predicate OccursAt(c: string, w: string, p: nat) { p + |w| <= |c| && c[p..p + |w|] == w }

  /** The `in` of two strings. */
  predicate Within(w: string, c: string) { exists p: nat | p <= |c| :: OccursAt(c, w, p) }

  /** q[i..i+n] also occurs in c. */
  predicate Shared(q: string, c: string, i: nat, n: nat) {
    i + n <= |q| && Within(q[i..i + n], c)
  }

  /** A shorter piece from the same start is shared too. */
  lemma SharedShorter(q: string, c: string, i: nat, n: nat, m: nat)
    requires Shared(q, c, i, n) && m <= n
    ensures Shared(q, c, i, m)
  {
    var w := q[i..i + n];
    var p: nat :| p <= |c| && OccursAt(c, w, p);
    assert q[i..i + m] == w[..m];
    assert c[p..p + m] == c[p..p + n][..m];
    assert OccursAt(c, q[i..i + m], p);
  }

  /** best is the length of the longest common contiguous substring. */
  ghost predicate IsLongest(q: string, c: string, best: nat) {
    && (exists i: nat | i <= |q| :: Shared(q, c, i, best))
    && (forall i: nat, n: nat | Shared(q, c, i, n) :: n <= best)
  }

  lemma EmptyOccurs(q: string, c: string)
    ensures Shared(q, c, 0, 0)
  {
    assert OccursAt(c, q[0..0], 0);
  }

  lemma NothingInEmpty(q: string, c: string)
    requires q == [] || c == []
    ensures forall i: nat, n: nat | Shared(q, c, i, n) :: n == 0
  {
    forall i: nat, n: nat | Shared(q, c, i, n)
      ensures n == 0
    {
      var p: nat :| p <= |c| && OccursAt(c, q[i..i + n], p);
    }
  }

  /** If the piece one longer than best is not shared, no longer one from the same start is. */
  lemma NothingLonger(q: string, c: string, i: nat, best: nat)
    requires i + best + 1 <= |q| ==> !Within(q[i..i + best + 1], c)
    ensures forall n: nat | Shared(q, c, i, n) :: n <= best
  {
    forall n: nat | Shared(q, c, i, n)
      ensures n <= best
    {
      if n > best {
        SharedShorter(q, c, i, n, best + 1);
      }
    }
  }

  /**
    For every start the search resumes at one more than the best so far: a longer piece that is
    not shared rules out every piece beyond it.
   */
  method MaxSharedNgram(question: string, content: string) returns (best: nat)
    ensures IsLongest(Normalize(question), Normalize(content), best)
  {
    hide Normalize, OccursAt;
    var q, c := Normalize(question), Normalize(content);
    assert Shared(q, c, 0, 0) by {
      EmptyOccurs(q, c);
    }
    best := 0;
    if q == [] || c == [] {
      NothingInEmpty(q, c);
      return;
    }
    for i := 0 to |q|
      invariant exists k: nat | k <= |q| :: Shared(q, c, k, best)
      invariant forall k: nat, n: nat | k < i && Shared(q, c, k, n) :: n <= best
    {
      var j := best + 1;
      while i + j <= |q| && Within(q[i..i + j], c)
        invariant j == best + 1
        invariant exists k: nat | k <= |q| :: Shared(q, c, k, best)
        decreases |q| - j
      {
        assert Shared(q, c, i, j);
        best := j;
        j := j + 1;
      }
      NothingLonger(q, c, i, best);
    }
  }

  /** One character is kept or dropped by itself. */
  lemma NormalizeOne(c: char)
    ensures Normalize([c]) ==
      if '0' <= c <= '9' || 'A' <= c <= 'Z' || 'a' <= c <= 'z' || 0xAC00 <= c as int <= 0xD7A3 then [c] else ""
  {
    assert [c][1..] == [];
  }

  /** Dropping characters of a text is dropping those of its parts, in order. */
  lemma {:induction false} NormalizeConcat(a: string, b: string)
    ensures Normalize(a + b) == Normalize(a) + Normalize(b)
  {
    if a == "" {
      assert a + b == b;
    } else {
      NormalizeConcat(a[1..], b);
      assert (a + b)[1..] == a[1..] + b;
      Associative(if Kept(a[0]) then [a[0]] else [], Normalize(a[1..]), Normalize(b));
    }
  }

  lemma Associative(x: string, y: string, z: string)
    ensures x + (y + z) == (x + y) + z
  {
  }
}
