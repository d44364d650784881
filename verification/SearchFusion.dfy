/** Reciprocal-rank fusion of two candidate lists, the re-sort of the details and the fail-open rerank. */
module SearchFusion {
  import opened Wrappers

  type Id = int

  const RRF_K: nat := 60
  const CANDIDATE_LIMIT: nat := 50

  datatype Hit = Hit(id: Id, score: real)

  // ----- the search code ------------------------------------------------------------------

  /** The 1-based rank that `associate` keeps for an id. */
  function RankOf(ids: seq<Id>, id: Id): (r: Option<nat>)
    ensures r.Some? ==> 1 <= r.value <= |ids| && ids[r.value - 1] == id
    ensures r.None? <==> id !in ids
  {
    if ids == [] then None
    else if ids[|ids| - 1] == id then Some(|ids|)
    else
      assert ids == ids[..|ids| - 1] + [ids[|ids| - 1]];
      RankOf(ids[..|ids| - 1], id)
  }

  function Contribution(k: nat, rank: Option<nat>): real {
    if rank.None? || k + rank.value == 0 then 0.0 else 1.0 / (k + rank.value) as real
  }

  function ScoreWith(k: nat, vector: seq<Id>, keyword: seq<Id>, id: Id): real {
    Contribution(k, RankOf(vector, id)) + Contribution(k, RankOf(keyword, id))
  }

  function Score(vector: seq<Id>, keyword: seq<Id>, id: Id): real { ScoreWith(RRF_K, vector, keyword, id) }

  /** Keys of both rank maps, vector hits first. */
  function Union(vector: seq<Id>, keyword: seq<Id>): seq<Id> {
    if keyword == [] then vector
    else
      var last := keyword[|keyword| - 1];
      var rest := Union(vector, keyword[..|keyword| - 1]);
      if last in rest then rest else rest + [last]
  }

  function Scored(ids: seq<Id>, vector: seq<Id>, keyword: seq<Id>): seq<Hit> {
    if ids == [] then [] else [Hit(ids[0], Score(vector, keyword, ids[0]))] + Scored(ids[1..], vector, keyword)
  }

  /** sortedByDescending, which is stable. */
  function SortDesc(hits: seq<Hit>): seq<Hit> {
    if hits == [] then [] else Insert(hits[0], SortDesc(hits[1..]))
  }

  function Insert(h: Hit, sorted: seq<Hit>): seq<Hit> {
    if sorted == [] || h.score >= sorted[0].score then [h] + sorted else [sorted[0]] + Insert(h, sorted[1..])
  }

  function Take<T>(xs: seq<T>, n: nat): seq<T> { if |xs| <= n then xs else xs[..n] }

  function TopHits(vector: seq<Id>, keyword: seq<Id>, limit: nat): seq<Hit> {
    Take(SortDesc(Scored(Union(vector, keyword), vector, keyword)), limit)
  }

  /** Items of the reranker's ids that exist, in its order. */
  function Known(ids: seq<Id>, items: seq<Hit>): seq<Hit> {
    if ids == [] then [] else
      (match Find(ids[0], items) case None => [] case Some(h) => [h]) + Known(ids[1..], items)
  }

  function Find(id: Id, items: seq<Hit>): (r: Option<Hit>)
    ensures r.Some? ==> r.value in items && r.value.id == id
    ensures r.None? ==> forall h | h in items :: h.id != id
  {
    if items == [] then None
    else if items[|items| - 1].id == id then Some(items[|items| - 1])
    else
      assert items == items[..|items| - 1] + [items[|items| - 1]];
      Find(id, items[..|items| - 1])
  }

  function Uncovered(ids: seq<Id>, items: seq<Hit>): seq<Hit> {
    if items == [] then [] else (if items[0].id in ids then [] else [items[0]]) + Uncovered(ids, items[1..])
  }

  /** None stands for a reranker that throws: the items keep their order. */
  function Rerank(items: seq<Hit>, answer: Option<seq<Id>>): seq<Hit> {
    match answer
    case None => items
    case Some(ids) => Known(ids, items) + Uncovered(ids, items)
  }

  datatype Options = Options(topK: nat, rerank: bool, pool: nat)

  function FetchLimit(o: Options): nat {
    if o.rerank then (if o.topK >= o.pool then o.topK else o.pool) else o.topK
  }

  /** rows are the detail rows that the database returns for the top ids, in any order. */
  function HybridSearch(vector: seq<Id>, keyword: seq<Id>, o: Options, rows: seq<Hit>, answer: Option<seq<Id>>): seq<Hit> {
    if TopHits(vector, keyword, FetchLimit(o)) == [] then []
    else
      var items := SortDesc(rows);
      Take(if o.rerank then Rerank(items, answer) else items, o.topK)
  }

  ghost predicate Distinct(ids: seq<Id>) { forall i, k | 0 <= i < k < |ids| :: ids[i] != ids[k] }

  ghost predicate DistinctHits(hits: seq<Hit>) { forall i, k | 0 <= i < k < |hits| :: hits[i].id != hits[k].id }

  /** One detail row per fetched id. */
  ghost predicate DetailsOf(vector: seq<Id>, keyword: seq<Id>, o: Options, rows: seq<Hit>) {
    multiset(rows) == multiset(TopHits(vector, keyword, FetchLimit(o)))
  }

  ghost predicate Descending(hits: seq<Hit>) { forall i, k | 0 <= i < k < |hits| :: hits[i].score >= hits[k].score }

  // ----- sorting --------------------------------------------------------------------------

  lemma {:induction false} InsertBag(h: Hit, sorted: seq<Hit>)
    ensures multiset(Insert(h, sorted)) == multiset(sorted) + multiset{h}
  {
    if sorted != [] && h.score < sorted[0].score {
      InsertBag(h, sorted[1..]);
      assert sorted == [sorted[0]] + sorted[1..];
    }
  }

  lemma {:induction false} InsertMember(h: Hit, sorted: seq<Hit>)
    ensures forall i | 0 <= i < |Insert(h, sorted)| :: Insert(h, sorted)[i] == h || Insert(h, sorted)[i] in sorted
  {
    if sorted != [] && h.score < sorted[0].score {
      InsertMember(h, sorted[1..]);
    }
  }

  lemma HeadFirst(h: Hit, rest: seq<Hit>)
    requires Descending(rest) && forall i | 0 <= i < |rest| :: h.score >= rest[i].score
    ensures Descending([h] + rest)
  {
  }

  lemma {:induction false} InsertSorts(h: Hit, sorted: seq<Hit>)
    requires Descending(sorted)
    ensures Descending(Insert(h, sorted))
  {
    if sorted != [] && h.score < sorted[0].score {
      InsertSorts(h, sorted[1..]);
      InsertMember(h, sorted[1..]);
      HeadFirst(sorted[0], Insert(h, sorted[1..]));
    } else {
      HeadFirst(h, sorted);
    }
  }

  lemma {:induction false} SortSorts(hits: seq<Hit>)
    ensures Descending(SortDesc(hits)) && multiset(SortDesc(hits)) == multiset(hits)
  {
    if hits != [] {
      SortSorts(hits[1..]);
      InsertSorts(hits[0], SortDesc(hits[1..]));
      InsertBag(hits[0], SortDesc(hits[1..]));
      assert hits == [hits[0]] + hits[1..];
    }
  }

  function Scores(hits: seq<Hit>): seq<real> {
    if hits == [] then [] else [hits[0].score] + Scores(hits[1..])
  }

  lemma {:induction false} ScoresAt(hits: seq<Hit>)
    ensures |Scores(hits)| == |hits| && forall i | 0 <= i < |hits| :: Scores(hits)[i] == hits[i].score
  {
    if hits != [] {
      ScoresAt(hits[1..]);
    }
  }

  function WithoutAt(b: seq<Hit>, k: nat): (r: seq<Hit>)
    requires k < |b|
    ensures |r| == |b| - 1
  {
    b[..k] + b[k + 1..]
  }

  lemma WithoutAtRows(b: seq<Hit>, k: nat)
    requires k < |b|
    ensures multiset(WithoutAt(b, k)) == multiset(b) - multiset{b[k]}
    ensures forall i: nat | i < |b| - 1 :: WithoutAt(b, k)[i] == b[if i < k then i else i + 1]
  {
    assert b == b[..k] + ([b[k]] + b[k + 1..]);
  }

  lemma BagMember(b: seq<Hit>, h: Hit) returns (k: nat)
    requires h in multiset(b)
    ensures k < |b| && b[k] == h
  {
    assert h in b;
    k :| 0 <= k < |b| && b[k] == h;
  }

  lemma DropKeepsDescending(b: seq<Hit>, rest: seq<Hit>, k: nat)
    requires Descending(b) && k < |b| && |rest| == |b| - 1
    requires forall i: nat | i < |b| - 1 :: rest[i] == b[if i < k then i else i + 1]
    ensures Descending(rest)
  {
  }

  lemma DropShiftsScores(b: seq<Hit>, rest: seq<Hit>, k: nat)
    requires k < |b| && |rest| == |b| - 1
    requires forall i: nat | i < |b| - 1 :: rest[i] == b[if i < k then i else i + 1]
    requires forall i | 0 <= i <= k :: b[i].score == b[k].score
    ensures Scores(b) == [b[k].score] + Scores(rest)
  {
    hide Scores;
    ScoresAt(b);
    ScoresAt(rest);
    Shifted(Scores(b), b[k].score, Scores(rest));
  }

  /** Up to an entry with the first entry's score all scores are that one, so any may be dropped first. */
  lemma DropEqual(b: seq<Hit>, k: nat)
    requires Descending(b) && k < |b| && b[k].score == b[0].score
    ensures Descending(WithoutAt(b, k))
    ensures Scores(b) == [b[k].score] + Scores(WithoutAt(b, k))
  {
    hide WithoutAt, Scores, Descending;
    var rest := WithoutAt(b, k);
    WithoutAtRows(b, k);
    EqualFront(b, k);
    DropKeepsDescending(b, rest, k);
    DropShiftsScores(b, rest, k);
  }

  lemma EqualFront(b: seq<Hit>, k: nat)
    requires Descending(b) && k < |b| && b[k].score == b[0].score
    ensures forall i | 0 <= i <= k :: b[i].score == b[k].score
  {
  }

  lemma Shifted(s: seq<real>, head: real, rest: seq<real>)
    requires |s| == |rest| + 1 && s[0] == head
    requires forall i | 0 <= i < |rest| :: rest[i] == s[i + 1]
    ensures s == [head] + rest
  {
  }

  lemma FirstScores(a: seq<Hit>, b: seq<Hit>)
    requires Descending(a) && Descending(b) && multiset(a) == multiset(b) && a != [] && b != []
    ensures a[0].score == b[0].score
  {
    assert a[0] in multiset(a) && b[0] in multiset(b);
    var k := BagMember(b, a[0]);
    var j := BagMember(a, b[0]);
  }

  lemma SameBagSameSize(a: seq<Hit>, b: seq<Hit>)
    requires multiset(a) == multiset(b)
    ensures |a| == |b|
  {
    assert |a| == |multiset(a)| == |multiset(b)| == |b|;
  }

  /** Two descending arrangements of the same hits show the same scores. */
  lemma {:induction false} SortedScoresUnique(a: seq<Hit>, b: seq<Hit>)
    requires Descending(a) && Descending(b) && multiset(a) == multiset(b)
    ensures Scores(a) == Scores(b)
  {
    SameBagSameSize(a, b);
    if a != [] {
      FirstScores(a, b);
      assert a[0] in multiset(a);
      var k := BagMember(b, a[0]);
      WithoutAtRows(a, 0);
      WithoutAtRows(b, k);
      DropEqual(a, 0);
      DropEqual(b, k);
      hide Scores, Descending, WithoutAt;
      SortedScoresUnique(WithoutAt(a, 0), WithoutAt(b, k));
    }
  }

  // ----- results --------------------------------------------------------------------------

  lemma {:induction false} UnionIds(vector: seq<Id>, keyword: seq<Id>)
    requires Distinct(vector)
    ensures Distinct(Union(vector, keyword))
    ensures forall id :: id in Union(vector, keyword) <==> id in vector || id in keyword
  {
    if keyword != [] {
      var n := |keyword| - 1;
      UnionIds(vector, keyword[..n]);
      assert keyword == keyword[..n] + [keyword[n]];
    }
  }

  lemma {:induction false} ScoredHits(ids: seq<Id>, vector: seq<Id>, keyword: seq<Id>)
    ensures var hits := Scored(ids, vector, keyword);
      |hits| == |ids| && forall i | 0 <= i < |ids| :: hits[i] == Hit(ids[i], Score(vector, keyword, ids[i]))
  {
    if ids != [] {
      ScoredHits(ids[1..], vector, keyword);
    }
  }

  ghost predicate FromLists(vector: seq<Id>, keyword: seq<Id>, h: Hit) {
    (h.id in vector || h.id in keyword) && h.score == Score(vector, keyword, h.id)
  }

  /** The sorted candidates: each id of either list once, with its score. */
  lemma RankedHits(vector: seq<Id>, keyword: seq<Id>)
    requires Distinct(vector)
    ensures var all := SortDesc(Scored(Union(vector, keyword), vector, keyword));
      && Descending(all) && DistinctHits(all)
      && (forall h :: h in all <==> FromLists(vector, keyword, h))
  {
    var ids := Union(vector, keyword);
    var hits := Scored(ids, vector, keyword);
    UnionIds(vector, keyword);
    ScoredHits(ids, vector, keyword);
    SortSorts(hits);
    BagDistinct(hits, SortDesc(hits));
    forall h
      ensures h in SortDesc(hits) <==> FromLists(vector, keyword, h)
    {
      assert h in SortDesc(hits) <==> h in multiset(hits);
      if FromLists(vector, keyword, h) {
        var i :| 0 <= i < |ids| && ids[i] == h.id;
        assert hits[i] == h;
      }
    }
  }

  /** A rearrangement of hits with distinct ids has distinct ids. */
  lemma BagDistinct(a: seq<Hit>, b: seq<Hit>)
    requires DistinctHits(a) && multiset(a) == multiset(b)
    ensures DistinctHits(b)
  {
    forall i, k | 0 <= i < k < |b|
      ensures b[i].id != b[k].id
    {
      assert b[i] in multiset(a) && b[k] in multiset(a);
      if b[i] == b[k] {
        BagTwice(b, i, k);
        BagOnce(a, b[i]);
      }
    }
  }

  lemma BagTwice(b: seq<Hit>, i: nat, k: nat)
    requires i < k < |b| && b[i] == b[k]
    ensures multiset(b)[b[i]] >= 2
  {
    assert b == b[..i] + [b[i]] + b[i + 1..k] + [b[k]] + b[k + 1..];
  }

  lemma {:induction false} BagOnce(a: seq<Hit>, h: Hit)
    requires DistinctHits(a)
    ensures multiset(a)[h] <= 1
  {
    if a != [] {
      assert a == [a[0]] + a[1..];
      BagOnce(a[1..], h);
      if h == a[0] {
        assert h !in a[1..];
      }
    }
  }

  lemma Rearranged(top: seq<Hit>, rows: seq<Hit>)
    requires Descending(top) && DistinctHits(top) && multiset(rows) == multiset(top)
    ensures var items := SortDesc(rows);
      && Descending(items) && DistinctHits(items) && |items| == |top|
      && (forall h :: h in items <==> h in top)
      && Scores(items) == Scores(top)
  {
    var items := SortDesc(rows);
    SortSorts(rows);
    BagDistinct(top, items);
    SortedScoresUnique(items, top);
    assert |items| == |multiset(items)| == |multiset(top)| == |top|;
    forall h
      ensures h in items <==> h in top
    {
      assert h in items <==> h in multiset(items);
      assert h in top <==> h in multiset(top);
    }
  }

  lemma TakeTop(all: seq<Hit>, n: nat)
    requires Descending(all) && DistinctHits(all)
    ensures var top := Take(all, n);
      && Descending(top) && DistinctHits(top)
      && (forall h | h in top :: h in all)
      && (forall h, x | h in top && x in all && x !in top :: h.score >= x.score)
  {
    var top := Take(all, n);
    assert forall i | 0 <= i < |top| :: top[i] == all[i] && top[i] in top;
    forall h, x | h in top && x in all && x !in top
      ensures h.score >= x.score
    {
      var i :| 0 <= i < |top| && top[i] == h;
      var k :| 0 <= k < |all| && all[k] == x;
    }
  }

  /** The detail rows put back in order are the top hits up to ties. */
  lemma ItemsAreTop(vector: seq<Id>, keyword: seq<Id>, o: Options, rows: seq<Hit>)
    requires Distinct(vector) && DetailsOf(vector, keyword, o, rows)
    ensures var top, items := TopHits(vector, keyword, FetchLimit(o)), SortDesc(rows);
      && Descending(items) && DistinctHits(items) && |items| == |top|
      && (forall h :: h in items <==> h in top)
      && Scores(items) == Scores(top)
      && (forall h | h in items :: FromLists(vector, keyword, h))
      && (forall h, x | h in items && FromLists(vector, keyword, x) && x !in items :: h.score >= x.score)
  {
    RankedHits(vector, keyword);
    var all := SortDesc(Scored(Union(vector, keyword), vector, keyword));
    TakeTop(all, FetchLimit(o));
    hide SortDesc, Scored, Union, FromLists, Take, FetchLimit;
    Rearranged(TopHits(vector, keyword, FetchLimit(o)), rows);
  }

  lemma {:induction false} TopSize(vector: seq<Id>, keyword: seq<Id>, limit: nat)
    ensures |TopHits(vector, keyword, limit)| == if limit <= |Union(vector, keyword)| then limit else |Union(vector, keyword)|
  {
    var hits := Scored(Union(vector, keyword), vector, keyword);
    ScoredHits(Union(vector, keyword), vector, keyword);
    SortSorts(hits);
    assert |SortDesc(hits)| == |multiset(SortDesc(hits))| == |multiset(hits)|;
  }

  /** Results are scored candidates of the lists and at most topK of them, whatever the reranker answers. */
  lemma ResultsFromLists(vector: seq<Id>, keyword: seq<Id>, o: Options, rows: seq<Hit>, answer: Option<seq<Id>>)
    requires Distinct(vector) && DetailsOf(vector, keyword, o, rows)
    ensures var r := HybridSearch(vector, keyword, o, rows, answer);
      && |r| <= o.topK
      && forall h | h in r :: FromLists(vector, keyword, h)
  {
    hide SortDesc, FromLists, TopHits, Distinct, DetailsOf, DistinctHits, Known, Uncovered;
    ItemsAreTop(vector, keyword, o, rows);
    if o.rerank && answer.Some? {
      RerankRows(SortDesc(rows), answer.value);
    }
  }

  /** Without rerank no omitted candidate scores above a returned one, and the list is filled up. */
  lemma NoBetterOmitted(vector: seq<Id>, keyword: seq<Id>, o: Options, rows: seq<Hit>, answer: Option<seq<Id>>)
    requires Distinct(vector) && DetailsOf(vector, keyword, o, rows) && !o.rerank
    ensures var r := HybridSearch(vector, keyword, o, rows, answer);
      && Descending(r)
      && |r| == (if o.topK <= |Union(vector, keyword)| then o.topK else |Union(vector, keyword)|)
      && forall h, x | h in r && FromLists(vector, keyword, x) && x !in r :: h.score >= x.score
  {
    ItemsAreTop(vector, keyword, o, rows);
    TopSize(vector, keyword, o.topK);
    PlainSearch(vector, keyword, o, rows, answer);
    hide SortDesc, FromLists, TopHits, HybridSearch;
  }

  /** Without an answer to apply, the search is just the first topK items. */
  lemma PlainSearch(vector: seq<Id>, keyword: seq<Id>, o: Options, rows: seq<Hit>, answer: Option<seq<Id>>)
    requires Distinct(vector) && DetailsOf(vector, keyword, o, rows)
    requires !o.rerank || answer.None?
    ensures HybridSearch(vector, keyword, o, rows, answer) == Take(SortDesc(rows), o.topK)
  {
    ItemsAreTop(vector, keyword, o, rows);
    hide SortDesc, FromLists, TopHits;
  }

  lemma {:induction false} TakeScores(hits: seq<Hit>, n: nat)
    ensures Scores(Take(hits, n)) == Take(Scores(hits), n)
  {
    ScoresAt(hits);
    ScoresAt(Take(hits, n));
  }

  lemma TakeTake<T>(xs: seq<T>, n: nat, m: nat)
    requires m <= n
    ensures Take(Take(xs, n), m) == Take(xs, m)
  {
  }

  /** The items show the best scores of the whole ranking. */
  lemma ItemScores(vector: seq<Id>, keyword: seq<Id>, o: Options, rows: seq<Hit>)
    requires Distinct(vector) && DetailsOf(vector, keyword, o, rows)
    ensures Scores(SortDesc(rows)) == Take(Scores(SortDesc(Scored(Union(vector, keyword), vector, keyword))), FetchLimit(o))
  {
    ItemsAreTop(vector, keyword, o, rows);
    hide SortDesc, Scored, Union, FromLists, Scores, Distinct, Take;
    TakeScores(SortDesc(Scored(Union(vector, keyword), vector, keyword)), FetchLimit(o));
  }

  /**
    A reranker that throws costs nothing: despite the wider pool and the second sort the caller
    sees the same scores as with rerank switched off.
   */
  lemma FailOpen(vector: seq<Id>, keyword: seq<Id>, topK: nat, pool: nat, rowsOn: seq<Hit>, rowsOff: seq<Hit>, answer: Option<seq<Id>>)
    requires Distinct(vector)
    requires DetailsOf(vector, keyword, Options(topK, true, pool), rowsOn)
    requires DetailsOf(vector, keyword, Options(topK, false, pool), rowsOff)
    ensures Scores(HybridSearch(vector, keyword, Options(topK, true, pool), rowsOn, None))
         == Scores(HybridSearch(vector, keyword, Options(topK, false, pool), rowsOff, answer))
  {
    hide SortDesc, Scored, Union, FromLists, HybridSearch, Scores, DetailsOf, Distinct, Take;
    var on, off := Options(topK, true, pool), Options(topK, false, pool);
    var all := SortDesc(Scored(Union(vector, keyword), vector, keyword));
    ItemScores(vector, keyword, on, rowsOn);
    ItemScores(vector, keyword, off, rowsOff);
    PlainSearch(vector, keyword, on, rowsOn, None);
    PlainSearch(vector, keyword, off, rowsOff, answer);
    TakeScores(SortDesc(rowsOn), topK);
    TakeScores(SortDesc(rowsOff), topK);
    TakeTake(Scores(all), FetchLimit(on), topK);
    TakeTake(Scores(all), FetchLimit(off), topK);
  }

  // ----- rerank ---------------------------------------------------------------------------

  lemma {:induction false} FindIn(id: Id, items: seq<Hit>)
    requires DistinctHits(items)
    ensures forall h | h in items && h.id == id :: Find(id, items) == Some(h)
  {
  }

  lemma {:induction false} KnownRows(ids: seq<Id>, items: seq<Hit>)
    requires DistinctHits(items)
    ensures forall h :: h in Known(ids, items) <==> h in items && h.id in ids
  {
    if ids != [] {
      KnownRows(ids[1..], items);
      FindIn(ids[0], items);
      assert forall id :: id in ids <==> id == ids[0] || id in ids[1..];
    }
  }

  lemma {:induction false} UncoveredRows(ids: seq<Id>, items: seq<Hit>)
    requires DistinctHits(items)
    ensures forall h :: h in Uncovered(ids, items) <==> h in items && h.id !in ids
    ensures DistinctHits(Uncovered(ids, items))
    ensures Descending(items) ==> Descending(Uncovered(ids, items))
  {
    if items != [] {
      UncoveredRows(ids, items[1..]);
      assert forall h :: h in items <==> h == items[0] || h in items[1..];
      var rest := Uncovered(ids, items[1..]);
      forall i | 0 <= i < |rest|
        ensures rest[i] in items[1..]
      {
        assert rest[i] in rest;
      }
    }
  }

  lemma RerankRows(items: seq<Hit>, ids: seq<Id>)
    requires DistinctHits(items)
    ensures forall h :: h in Rerank(items, Some(ids)) <==> h in items
  {
    KnownRows(ids, items);
    UncoveredRows(ids, items);
  }

  lemma {:induction false} SameDistinctSameBag(a: seq<Hit>, b: seq<Hit>)
    requires DistinctHits(a) && DistinctHits(b) && (forall h :: h in a <==> h in b)
    ensures multiset(a) == multiset(b)
  {
    forall h
      ensures multiset(a)[h] == multiset(b)[h]
    {
      BagOnce(a, h);
      BagOnce(b, h);
      assert h in multiset(a) <==> h in a;
      assert h in multiset(b) <==> h in b;
    }
  }

  /** An answer that repeats an id of the pool. */
  ghost predicate RepeatsKnown(ids: seq<Id>, items: seq<Hit>) {
    exists i, k | 0 <= i < k < |ids| :: ids[i] == ids[k] && exists h | h in items :: h.id == ids[i]
  }

  lemma {:induction false} KnownTwice(ids: seq<Id>, items: seq<Hit>)
    requires DistinctHits(items)
    ensures !RepeatsKnown(ids, items) <==> DistinctHits(Known(ids, items))
  {
    if ids != [] {
      var rest := Known(ids[1..], items);
      KnownTwice(ids[1..], items);
      KnownRows(ids[1..], items);
      FindIn(ids[0], items);
      assert RepeatsKnown(ids, items) <==>
        RepeatsKnown(ids[1..], items) || (Find(ids[0], items).Some? && ids[0] in ids[1..]) by {
        RepeatsTail(ids, items);
      }
      if Find(ids[0], items).None? {
        assert Known(ids, items) == [] + rest == rest;
      } else {
        var h := Find(ids[0], items).value;
        assert Known(ids, items) == [h] + rest;
        assert h in rest <==> ids[0] in ids[1..];
        assert DistinctHits([h] + rest) <==> DistinctHits(rest) && h !in rest by {
          HeadDistinct(h, rest, items);
        }
      }
    }
  }

  lemma HeadDistinct(h: Hit, rest: seq<Hit>, items: seq<Hit>)
    requires DistinctHits(items) && h in items && forall x | x in rest :: x in items
    ensures DistinctHits([h] + rest) <==> DistinctHits(rest) && h !in rest
  {
    var all := [h] + rest;
    if DistinctHits(all) {
      forall i, k | 0 <= i < k < |rest|
        ensures rest[i].id != rest[k].id
      {
        assert all[i + 1] == rest[i] && all[k + 1] == rest[k];
      }
      forall i | 0 <= i < |rest|
        ensures rest[i] != h
      {
        assert all[0] == h && all[i + 1] == rest[i];
      }
    } else if DistinctHits(rest) && h !in rest {
      forall i | 0 <= i < |rest|
        ensures rest[i].id != h.id
      {
        assert rest[i] in rest && rest[i] in items;
      }
    }
  }

  lemma RepeatsTail(ids: seq<Id>, items: seq<Hit>)
    requires ids != []
    ensures RepeatsKnown(ids, items) <==>
      RepeatsKnown(ids[1..], items) || (Find(ids[0], items).Some? && ids[0] in ids[1..])
  {
    if RepeatsKnown(ids, items) {
      var i, k :| 0 <= i < k < |ids| && ids[i] == ids[k] && exists h | h in items :: h.id == ids[i];
      if i > 0 {
        assert ids[1..][i - 1] == ids[1..][k - 1] == ids[i];
      } else {
        assert ids[1..][k - 1] == ids[0];
      }
    }
    if RepeatsKnown(ids[1..], items) {
      var i, k :| 0 <= i < k < |ids| - 1 && ids[1..][i] == ids[1..][k] && exists h | h in items :: h.id == ids[1..][i];
      assert ids[i + 1] == ids[k + 1];
    }
    if Find(ids[0], items).Some? && ids[0] in ids[1..] {
      var k :| 0 <= k < |ids| - 1 && ids[1..][k] == ids[0];
      assert ids[0] == ids[k + 1];
    }
  }

  /**
    Reranking permutes the pool exactly when the answer repeats no item of it; ids that are
    unknown or missing are harmless. What the answer leaves out follows in score order.
   */
  lemma RerankPermutes(items: seq<Hit>, ids: seq<Id>)
    requires DistinctHits(items) && Descending(items)
    ensures multiset(Rerank(items, Some(ids))) == multiset(items) <==> !RepeatsKnown(ids, items)
    ensures Rerank(items, Some(ids)) == Known(ids, items) + Uncovered(ids, items)
    ensures Descending(Uncovered(ids, items)) && forall h | h in Uncovered(ids, items) :: h.id !in ids
  {
    KnownTwice(ids, items);
    UncoveredRows(ids, items);
    if !RepeatsKnown(ids, items) {
      KnownRows(ids, items);
      Disjoint(ids, items);
      RerankRows(items, ids);
      SameDistinctSameBag(Rerank(items, Some(ids)), items);
    } else if multiset(Rerank(items, Some(ids))) == multiset(items) {
      BagDistinct(items, Rerank(items, Some(ids)));
      PrefixDistinct(Known(ids, items), Uncovered(ids, items));
    }
  }

  lemma Disjoint(ids: seq<Id>, items: seq<Hit>)
    requires DistinctHits(items) && DistinctHits(Known(ids, items))
    ensures DistinctHits(Rerank(items, Some(ids)))
  {
    KnownRows(ids, items);
    UncoveredRows(ids, items);
    var k, u := Known(ids, items), Uncovered(ids, items);
    forall i, j | 0 <= i < |k| && 0 <= j < |u|
      ensures k[i].id != u[j].id
    {
      assert k[i] in k && u[j] in u;
    }
  }

  lemma PrefixDistinct(k: seq<Hit>, u: seq<Hit>)
    requires DistinctHits(k + u)
    ensures DistinctHits(k)
  {
    assert forall i | 0 <= i < |k| :: (k + u)[i] == k[i];
  }

  // ----- when the results are distinct ----------------------------------------------------

  predicate InPool(id: Id, pool: seq<Hit>) { exists h | h in pool :: h.id == id }

  /** The ids of the answer that name an item of the pool, in the answer's order. */
  function PoolIds(ids: seq<Id>, pool: seq<Hit>): seq<Id> {
    if ids == [] then [] else (if InPool(ids[0], pool) then [ids[0]] else []) + PoolIds(ids[1..], pool)
  }

  lemma {:induction false} KnownIds(ids: seq<Id>, items: seq<Hit>)
    ensures |Known(ids, items)| == |PoolIds(ids, items)|
    ensures forall i | 0 <= i < |PoolIds(ids, items)| :: Known(ids, items)[i].id == PoolIds(ids, items)[i]
  {
    if ids != [] {
      KnownIds(ids[1..], items);
      assert InPool(ids[0], items) <==> Find(ids[0], items).Some?;
    }
  }

  lemma {:induction false} SamePool(ids: seq<Id>, a: seq<Hit>, b: seq<Hit>)
    requires forall h :: h in a <==> h in b
    ensures PoolIds(ids, a) == PoolIds(ids, b)
  {
    if ids != [] {
      SamePool(ids[1..], a, b);
    }
  }

  lemma DistinctByIds(k: seq<Hit>, ids: seq<Id>, n: nat)
    requires |k| == |ids| && forall i | 0 <= i < |ids| :: k[i].id == ids[i]
    ensures DistinctHits(Take(k, n)) <==> Distinct(Take(ids, n))
  {
    var hits, names := Take(k, n), Take(ids, n);
    assert |hits| == |names| && forall i | 0 <= i < |names| :: hits[i].id == names[i];
    if DistinctHits(hits) {
      forall i, j | 0 <= i < j < |names|
        ensures names[i] != names[j]
      {
        assert hits[i].id != hits[j].id;
      }
    }
    if Distinct(names) {
      forall i, j | 0 <= i < j < |hits|
        ensures hits[i].id != hits[j].id
      {
        assert names[i] != names[j];
      }
    }
  }

  /** Cutting the reranked pool keeps it distinct exactly when the part of the answer in the cut repeats nothing. */
  lemma CutDistinct(items: seq<Hit>, ids: seq<Id>, n: nat)
    requires DistinctHits(items)
    ensures DistinctHits(Take(Rerank(items, Some(ids)), n)) <==> Distinct(Take(PoolIds(ids, items), n))
  {
    hide Known, Uncovered, PoolIds, DistinctHits, Distinct;
    var k, u := Known(ids, items), Uncovered(ids, items);
    KnownIds(ids, items);
    DistinctByIds(k, PoolIds(ids, items), n);
    if |k| >= n {
      assert Take(k + u, n) == Take(k, n);
    } else {
      if DistinctHits(k) {
        Disjoint(ids, items);
        assert k + u == Take(k + u, n) + (k + u)[|Take(k + u, n)|..];
        PrefixDistinct(Take(k + u, n), (k + u)[|Take(k + u, n)|..]);
      }
      if DistinctHits(Take(k + u, n)) {
        assert Take(k + u, n) == k + Take(u, n - |k|);
        PrefixDistinct(k, Take(u, n - |k|));
      }
    }
  }

  /**
    The results are distinct exactly when the first topK ids of the answer that belong to the
    fetched pool repeat nothing; without rerank, or when it throws, they always are.
   */
  lemma DistinctResults(vector: seq<Id>, keyword: seq<Id>, o: Options, rows: seq<Hit>, answer: Option<seq<Id>>)
    requires Distinct(vector) && DetailsOf(vector, keyword, o, rows)
    ensures DistinctHits(HybridSearch(vector, keyword, o, rows, answer)) <==>
      (o.rerank && answer.Some? ==>
         Distinct(Take(PoolIds(answer.value, TopHits(vector, keyword, FetchLimit(o))), o.topK)))
  {
    hide SortDesc, FromLists, TopHits, PoolIds, DistinctHits, Distinct, DetailsOf, Take, Known, Uncovered;
    ItemsAreTop(vector, keyword, o, rows);
    var top, items := TopHits(vector, keyword, FetchLimit(o)), SortDesc(rows);
    if o.rerank && answer.Some? {
      SamePool(answer.value, items, top);
      CutDistinct(items, answer.value, o.topK);
      if top == [] {
        EmptyPool(answer.value, o.topK);
      }
    } else {
      NothingTwice(items, o.topK);
      PlainSearch(vector, keyword, o, rows, answer);
    }
  }

  lemma {:induction false} EmptyPool(ids: seq<Id>, n: nat)
    ensures Distinct(Take(PoolIds(ids, []), n)) && DistinctHits([])
  {
    if ids != [] {
      EmptyPool(ids[1..], n);
    }
  }

  lemma NothingTwice(items: seq<Hit>, n: nat)
    requires DistinctHits(items)
    ensures DistinctHits(Take(items, n))
  {
  }

  // ----- the order of the results ---------------------------------------------------------

  lemma {:induction false} PoolIdsMembers(ids: seq<Id>, pool: seq<Hit>)
    ensures forall id :: id in PoolIds(ids, pool) <==> id in ids && InPool(id, pool)
    ensures Distinct(ids) ==> Distinct(PoolIds(ids, pool))
  {
    if ids != [] {
      PoolIdsMembers(ids[1..], pool);
      assert forall id :: id in ids <==> id == ids[0] || id in ids[1..];
      var rest := PoolIds(ids[1..], pool);
      if Distinct(ids) {
        assert ids[0] !in ids[1..];
        forall i | 0 <= i < |rest|
          ensures rest[i] != ids[0]
        {
          assert rest[i] in rest;
        }
      }
    }
  }

  /** The answer's order survives in the part of it that names the pool. */
  lemma {:induction false} PoolIdsInOrder(ids: seq<Id>, pool: seq<Hit>, i: nat, k: nat) returns (p: nat, q: nat)
    requires i < k < |ids| && InPool(ids[i], pool) && InPool(ids[k], pool)
    ensures p < q < |PoolIds(ids, pool)| && PoolIds(ids, pool)[p] == ids[i] && PoolIds(ids, pool)[q] == ids[k]
  {
    var rest := PoolIds(ids[1..], pool);
    PoolIdsMembers(ids[1..], pool);
    var shift := if InPool(ids[0], pool) then 1 else 0;
    if i > 0 {
      p, q := PoolIdsInOrder(ids[1..], pool, i - 1, k - 1);
      p, q := p + shift, q + shift;
    } else {
      assert ids[1..][k - 1] == ids[k];
      var at :| 0 <= at < |rest| && rest[at] == ids[k];
      p, q := 0, at + 1;
    }
  }

  ghost predicate ReturnedBefore(r: seq<Hit>, id: Id, y: int) { exists x :: 0 <= x < y && x < |r| && r[x].id == id }

  /** The cut of a reranked pool, seen only through ids and scores. */
  ghost predicate OrderedBy(r: seq<Hit>, ids: seq<Id>, pool: seq<Hit>) {
    // an id before another in the answer is returned before it
    && (forall i, k, y | 0 <= i < k < |ids| && 0 <= y < |r| && InPool(ids[i], pool) && r[y].id == ids[k] ::
          ReturnedBefore(r, ids[i], y))
    && NamedFirst(r, ids)
    // what the answer does not name is returned only when all it names is, best first
    && (forall h, y | h in pool && h !in r && 0 <= y < |r| && r[y].id !in ids :: h.id !in ids && r[y].score >= h.score)
  }

  /** Hits the answer names come before those it does not, which are in descending order of score. */
  ghost predicate NamedFirst(r: seq<Hit>, ids: seq<Id>) {
    && (forall x, y | 0 <= x < |r| && 0 <= y < |r| && r[x].id in ids && r[y].id !in ids :: x < y)
    && (forall x, y | 0 <= x < y < |r| && r[x].id !in ids && r[y].id !in ids :: r[x].score >= r[y].score)
  }

  lemma CutParts(k: seq<Hit>, u: seq<Hit>, n: nat)
    ensures var r := Take(k + u, n);
      && (forall x | 0 <= x < |r| :: if x < |k| then r[x] == k[x] && r[x] in k else r[x] == u[x - |k|] && r[x] in u)
      && (forall j | 0 <= j < |k| && j < |r| :: k[j] in r)
      && (forall j | 0 <= j < |u| && |k| + j < |r| :: u[j] in r)
  {
    var r := Take(k + u, n);
    assert forall j | 0 <= j < |k| && j < |r| :: r[j] == k[j];
    assert forall j | 0 <= j < |u| && |k| + j < |r| :: r[|k| + j] == u[j];
  }

  lemma CutNamedFirst(items: seq<Hit>, ids: seq<Id>, n: nat)
    requires DistinctHits(items) && Descending(items)
    ensures NamedFirst(Take(Rerank(items, Some(ids)), n), ids)
  {
    var k, u := Known(ids, items), Uncovered(ids, items);
    KnownRows(ids, items);
    UncoveredRows(ids, items);
    var r := Take(k + u, n);
    hide Known, Uncovered, DistinctHits;
    CutParts(k, u, n);
    hide Take;
  }

  lemma CutInOrder(items: seq<Hit>, ids: seq<Id>, n: nat, i: nat, m: nat, y: nat)
    requires DistinctHits(items) && Distinct(ids) && i < m < |ids| && InPool(ids[i], items)
    requires y < |Take(Rerank(items, Some(ids)), n)| && Take(Rerank(items, Some(ids)), n)[y].id == ids[m]
    ensures ReturnedBefore(Take(Rerank(items, Some(ids)), n), ids[i], y)
  {
    var k, u := Known(ids, items), Uncovered(ids, items);
    KnownRows(ids, items);
    UncoveredRows(ids, items);
    KnownIds(ids, items);
    PoolIdsMembers(ids, items);
    var r := Take(k + u, n);
    hide Known, Uncovered, DistinctHits;
    CutParts(k, u, n);
    assert ids[m] in ids;
    assert r[y] == k[y];
    var p, q := PoolIdsInOrder(ids, items, i, m);
    assert PoolIds(ids, items)[y] == ids[m];
    assert q == y;
    assert r[p] == k[p];
  }

  lemma CutKeepsBest(items: seq<Hit>, ids: seq<Id>, n: nat, h: Hit, y: nat)
    requires DistinctHits(items) && Descending(items) && h in items
    requires var r := Take(Rerank(items, Some(ids)), n); h !in r && y < |r| && r[y].id !in ids
    ensures h.id !in ids && Take(Rerank(items, Some(ids)), n)[y].score >= h.score
  {
    var k, u := Known(ids, items), Uncovered(ids, items);
    KnownRows(ids, items);
    UncoveredRows(ids, items);
    var r := Take(k + u, n);
    hide Known, Uncovered, DistinctHits;
    CutParts(k, u, n);
    assert h !in k;
    assert h in u;
    var j :| 0 <= j < |u| && u[j] == h;
    assert r[y] == u[y - |k|];
  }

  /**
    With a duplicate-free answer the results follow it: as many as fit, in the answer's order,
    and then the rest of the pool by score.
   */
  lemma ResultsFollowAnswer(vector: seq<Id>, keyword: seq<Id>, o: Options, rows: seq<Hit>, ids: seq<Id>)
    requires Distinct(vector) && DetailsOf(vector, keyword, o, rows) && o.rerank && Distinct(ids)
    ensures var r := HybridSearch(vector, keyword, o, rows, Some(ids)); var pool := TopHits(vector, keyword, FetchLimit(o));
      OrderedBy(r, ids, pool) && |r| == (if o.topK <= |pool| then o.topK else |pool|)
  {
    hide SortDesc, FromLists, TopHits, DistinctHits, Distinct, DetailsOf, Descending, Known, Uncovered;
    ItemsAreTop(vector, keyword, o, rows);
    var items, pool := SortDesc(rows), TopHits(vector, keyword, FetchLimit(o));
    var cut := Take(Rerank(items, Some(ids)), o.topK);
    hide Rerank;
    CutSize(items, ids);
    CutNamedFirst(items, ids, o.topK);
    assert forall id :: InPool(id, items) <==> InPool(id, pool);
    forall i: int, m: int, y: int | 0 <= i < m < |ids| && 0 <= y < |cut| && InPool(ids[i], pool) && cut[y].id == ids[m]
      ensures ReturnedBefore(cut, ids[i], y)
    {
      CutInOrder(items, ids, o.topK, i, m, y);
    }
    forall h, y: int | h in pool && h !in cut && 0 <= y < |cut| && cut[y].id !in ids
      ensures h.id !in ids && cut[y].score >= h.score
    {
      CutKeepsBest(items, ids, o.topK, h, y);
    }
    assert pool == [] ==> items == [] && cut == [];
  }

  lemma CutSize(items: seq<Hit>, ids: seq<Id>)
    requires DistinctHits(items) && Descending(items) && Distinct(ids)
    ensures |Rerank(items, Some(ids))| == |items|
  {
    RerankPermutes(items, ids);
    assert !RepeatsKnown(ids, items);
    SameBagSameSize(Rerank(items, Some(ids)), items);
  }

  /** With any answer, repeated ids or not, named hits come first and the others follow by score. */
  lemma ResultsNamedFirst(vector: seq<Id>, keyword: seq<Id>, o: Options, rows: seq<Hit>, ids: seq<Id>)
    requires Distinct(vector) && DetailsOf(vector, keyword, o, rows) && o.rerank
    ensures NamedFirst(HybridSearch(vector, keyword, o, rows, Some(ids)), ids)
  {
    hide SortDesc, FromLists, TopHits, DistinctHits, Distinct, DetailsOf, Descending, Rerank;
    ItemsAreTop(vector, keyword, o, rows);
    CutNamedFirst(SortDesc(rows), ids, o.topK);
  }

  /** With rerank the pool is the wider of topK and the pool size, as far as there are candidates. */
  lemma PoolSize(vector: seq<Id>, keyword: seq<Id>, o: Options)
    ensures var pool, all := TopHits(vector, keyword, FetchLimit(o)), Union(vector, keyword);
      var wanted := if o.rerank && o.pool > o.topK then o.pool else o.topK;
      |pool| == if wanted <= |all| then wanted else |all|
  {
    TopSize(vector, keyword, FetchLimit(o));
  }

  /** An answer that names its only candidate twice: the search shows it twice. */
  lemma RepeatedAnswerShown()
    ensures var h := Hit(7, Score([7], [], 7)); var o := Options(2, true, 10);
      && Distinct([7]) && DetailsOf([7], [], o, [h])
      && HybridSearch([7], [], o, [h], Some([7, 7])) == [h, h]
      && RepeatsKnown([7, 7], [h])
      && multiset(Rerank([h], Some([7, 7]))) != multiset([h])
      && !DistinctHits(HybridSearch([7], [], o, [h], Some([7, 7])))
  {
    var h := Hit(7, Score([7], [], 7));
    var ids: seq<Id> := [7, 7];
    assert [7][1..] == [];
    assert Scored(Union([7], []), [7], []) == [h] + Scored([], [7], []) == [h];
    assert SortDesc([h]) == [h] by {
      assert [h][1..] == [];
    }
    assert ids[1..] == [7];
    assert Find(7, [h]) == Some(h);
    assert Known([7], [h]) == [h] + Known([], [h]) == [h];
    assert Known(ids, [h]) == [h] + Known([7], [h]) == [h, h];
    assert Uncovered(ids, [h]) == [] by {
      assert [h][1..] == [];
    }
    assert ids[0] == ids[1] && h in [h];
    assert multiset([h, h])[h] == 2 && multiset([h])[h] == 1;
    assert [h, h][0].id == [h, h][1].id;
  }

  // ----- fusion scores --------------------------------------------------------------------

  lemma Reciprocal(a: nat, b: nat)
    requires 0 < a < b
    ensures 0.0 < 1.0 / b as real < 1.0 / a as real
  {
  }

  /** The extreme case: last place twice against first place once. */
  lemma LastTwiceFirstOnce(k: nat, limit: nat)
    requires limit >= 1
    ensures Contribution(k, Some(limit)) + Contribution(k, Some(limit)) > Contribution(k, Some(1)) <==> limit < k + 2
  {
    var x, y := (k + 1) as real, (k + limit) as real;
    assert 1.0 / y + 1.0 / y - 1.0 / x == (2.0 * x - y) / (x * y);
  }

  /** Lists of at most `limit` candidates with an id in both and another in one of them only. */
  ghost predicate Compared(limit: nat, vector: seq<Id>, keyword: seq<Id>, both: Id, one: Id) {
    && |vector| <= limit && |keyword| <= limit && Distinct(vector) && Distinct(keyword)
    && both in vector && both in keyword
    && (one in vector) != (one in keyword)
  }

  /** With constant k, whatever the lists, being in both beats being in one. */
  ghost predicate BothBeatOne(k: nat, limit: nat) {
    forall vector, keyword, both, one | Compared(limit, vector, keyword, both, one) ::
      ScoreWith(k, vector, keyword, both) > ScoreWith(k, vector, keyword, one)
  }

  lemma TwoRanksBeatOne(k: nat, limit: nat, r1: nat, r2: nat, r: nat)
    requires limit < k + 2 && 1 <= r1 <= limit && 1 <= r2 <= limit && 1 <= r <= limit
    ensures Contribution(k, Some(r1)) + Contribution(k, Some(r2)) > Contribution(k, Some(r))
  {
    hide Contribution;
    LastTwiceFirstOnce(k, limit);
    AtLeast(k, r1, limit);
    AtLeast(k, r2, limit);
    AtLeast(k, 1, r);
  }

  lemma InRange(k: nat, limit: nat, vector: seq<Id>, keyword: seq<Id>, both: Id, one: Id)
    requires limit < k + 2 && Compared(limit, vector, keyword, both, one)
    ensures ScoreWith(k, vector, keyword, both) > ScoreWith(k, vector, keyword, one)
  {
    hide RankOf, Distinct;
    var rank := if one in vector then RankOf(vector, one) else RankOf(keyword, one);
    TwoRanksBeatOne(k, limit, RankOf(vector, both).value, RankOf(keyword, both).value, rank.value);
  }

  /** Two full lists that share only their last entry. */
  function VectorIds(limit: nat): seq<Id> { seq(limit, i => i) }

  function KeywordIds(limit: nat): seq<Id> { seq(limit, i => if i == limit - 1 then i else limit + i) }

  lemma OutOfRange(k: nat, limit: nat)
    requires limit >= k + 2
    ensures Compared(limit, VectorIds(limit), KeywordIds(limit), limit - 1, 0)
    ensures ScoreWith(k, VectorIds(limit), KeywordIds(limit), limit - 1)
         <= ScoreWith(k, VectorIds(limit), KeywordIds(limit), 0)
  {
    var v, w := VectorIds(limit), KeywordIds(limit);
    assert v[limit - 1] == w[limit - 1] == limit - 1 && v[0] == 0 && 0 !in w;
    RankAt(v, limit - 1);
    RankAt(w, limit - 1);
    RankAt(v, 0);
    hide Contribution, RankOf;
    LastTwiceFirstOnce(k, limit);
    assert RankOf(w, 0) == None;
    NoRankNoScore(k);
  }

  lemma NoRankNoScore(k: nat)
    ensures Contribution(k, None) == 0.0
  {
  }

  /** Being in both lists always wins exactly when the list limit stays below k + 2. */
  lemma {:induction false} DominanceLimit(k: nat, limit: nat)
    ensures BothBeatOne(k, limit) <==> limit < k + 2
  {
    hide ScoreWith, Compared;
    if limit < k + 2 {
      forall vector, keyword, both, one | Compared(limit, vector, keyword, both, one)
        ensures ScoreWith(k, vector, keyword, both) > ScoreWith(k, vector, keyword, one)
      {
        InRange(k, limit, vector, keyword, both, one);
      }
    } else {
      OutOfRange(k, limit);
    }
  }

  lemma AtLeast(k: nat, r: nat, limit: nat)
    requires 1 <= r <= limit
    ensures Contribution(k, Some(r)) >= Contribution(k, Some(limit)) > 0.0
  {
    if r < limit {
      Reciprocal(k + r, k + limit);
    }
  }

  /** With at most 50 candidates a list, a chunk in both lists outranks every chunk in only one. */
  lemma {:induction false} BothListsOutrankOne(vector: seq<Id>, keyword: seq<Id>, both: Id, one: Id)
    requires |vector| <= CANDIDATE_LIMIT && |keyword| <= CANDIDATE_LIMIT
    requires both in vector && both in keyword
    requires (one in vector) != (one in keyword)
    ensures Score(vector, keyword, both) > Score(vector, keyword, one)
  {
    hide RankOf, Contribution;
    var rank := if one in vector then RankOf(vector, one) else RankOf(keyword, one);
    TwoRanksBeatOne(RRF_K, CANDIDATE_LIMIT, RankOf(vector, both).value, RankOf(keyword, both).value, rank.value);
    NoRankNoScore(RRF_K);
  }

  /** The score from the positions in the two ranked lists: 1/61 for the first place, 1/62 for the second. */
  lemma ScoreOfPositions(vector: seq<Id>, keyword: seq<Id>, i: nat, j: nat)
    requires Distinct(vector) && Distinct(keyword) && i < |vector| && j < |keyword|
    ensures vector[i] == keyword[j] ==>
      Score(vector, keyword, vector[i]) == 1.0 / (61 + i) as real + 1.0 / (61 + j) as real
    ensures vector[i] !in keyword ==> Score(vector, keyword, vector[i]) == 1.0 / (61 + i) as real
    ensures keyword[j] !in vector ==> Score(vector, keyword, keyword[j]) == 1.0 / (61 + j) as real
  {
    RankAt(vector, i);
    RankAt(keyword, j);
  }

  /** The hits with one score, in their order. */
  function Tied(hits: seq<Hit>, score: real): seq<Hit> {
    if hits == [] then [] else (if hits[0].score == score then [hits[0]] else []) + Tied(hits[1..], score)
  }

  lemma TiedHead(h: Hit, rest: seq<Hit>, score: real)
    ensures Tied([h] + rest, score) == (if h.score == score then [h] else []) + Tied(rest, score)
  {
    assert ([h] + rest)[1..] == rest;
  }

  lemma {:induction false} InsertKeepsTies(h: Hit, sorted: seq<Hit>, score: real)
    ensures Tied(Insert(h, sorted), score) == (if h.score == score then [h] else []) + Tied(sorted, score)
  {
    if sorted != [] && h.score < sorted[0].score {
      InsertKeepsTies(h, sorted[1..], score);
      TiedHead(sorted[0], Insert(h, sorted[1..]), score);
      TiedHead(sorted[0], sorted[1..], score);
    } else {
      TiedHead(h, sorted, score);
    }
  }

  /** Candidates with equal scores keep the order of the joined lists: those of the vector list first. */
  lemma {:induction false} TiesKeepOrder(hits: seq<Hit>, score: real)
    ensures Tied(SortDesc(hits), score) == Tied(hits, score)
  {
    if hits != [] {
      TiesKeepOrder(hits[1..], score);
      InsertKeepsTies(hits[0], SortDesc(hits[1..]), score);
    }
  }

  /** The list with its element i moved forward to position j. */
  function MoveUp(ids: seq<Id>, i: nat, j: nat): seq<Id>
    requires j <= i < |ids|
  {
    ids[..j] + [ids[i]] + ids[j..i] + ids[i + 1..]
  }

  lemma RankAt(ids: seq<Id>, i: nat)
    requires Distinct(ids) && i < |ids|
    ensures RankOf(ids, ids[i]) == Some(i + 1)
  {
    assert ids[i] in ids;
  }

  /** Position of ids[n] after the move. */
  function MovedTo(i: nat, j: nat, n: nat): nat { if n < j || n > i then n else if n == i then j else n + 1 }

  ghost predicate IsMoved(ids: seq<Id>, moved: seq<Id>, i: nat, j: nat) {
    && |moved| == |ids|
    && forall n: nat | n < |ids| :: MovedTo(i, j, n) < |ids| && moved[MovedTo(i, j, n)] == ids[n]
  }

  lemma MovedAt(ids: seq<Id>, i: nat, j: nat)
    requires j <= i < |ids|
    ensures IsMoved(ids, MoveUp(ids, i, j), i, j)
  {
  }

  lemma MovedFrom(ids: seq<Id>, moved: seq<Id>, i: nat, j: nat, m: nat) returns (n: nat)
    requires IsMoved(ids, moved, i, j) && j <= i < |ids| && m < |ids|
    ensures n < |ids| && MovedTo(i, j, n) == m && moved[m] == ids[n]
  {
    n := if m < j || m > i then m else if m == j then i else m - 1;
    assert MovedTo(i, j, n) == m;
  }

  lemma MovedDistinct(ids: seq<Id>, moved: seq<Id>, i: nat, j: nat)
    requires Distinct(ids) && IsMoved(ids, moved, i, j) && j <= i < |ids|
    ensures Distinct(moved)
  {
    forall a, b | 0 <= a < b < |moved|
      ensures moved[a] != moved[b]
    {
      var m := MovedFrom(ids, moved, i, j, a);
      var n := MovedFrom(ids, moved, i, j, b);
      assert m != n;
    }
  }

  /** The moved chunk rises, every other one keeps its rank or drops by one. */
  lemma MovedRanks(ids: seq<Id>, i: nat, j: nat, id: Id)
    requires Distinct(ids) && j <= i < |ids|
    ensures var before, after := RankOf(ids, id), RankOf(MoveUp(ids, i, j), id);
      && before.Some? == after.Some?
      && (before.Some? ==>
            if id == ids[i] then after.value <= before.value else before.value <= after.value <= before.value + 1)
  {
    var moved := MoveUp(ids, i, j);
    MovedAt(ids, i, j);
    MovedDistinct(ids, moved, i, j);
    hide MoveUp, RankOf;
    if id in ids {
      var n :| 0 <= n < |ids| && ids[n] == id;
      RankAt(ids, n);
      RankAt(moved, MovedTo(i, j, n));
    } else if id in moved {
      var m :| 0 <= m < |moved| && moved[m] == id;
      var n := MovedFrom(ids, moved, i, j, m);
    }
  }

  lemma ContributionFalls(k: nat, r: Option<nat>, s: Option<nat>)
    requires r.Some? == s.Some? && (r.Some? ==> 1 <= r.value <= s.value)
    ensures Contribution(k, r) >= Contribution(k, s)
  {
    if r.Some? && r.value < s.value {
      Reciprocal(k + r.value, k + s.value);
    }
  }

  /** Chunks that score strictly above the given one. */
  ghost function Beaters(vector: seq<Id>, keyword: seq<Id>, id: Id): set<Id> {
    set x | x in Union(vector, keyword) && Score(vector, keyword, x) > Score(vector, keyword, id)
  }

  /** Moving a chunk up in one list lets no further chunk pass it. */
  lemma {:induction false} MovingUpNeverHurts(vector: seq<Id>, keyword: seq<Id>, i: nat, j: nat)
    requires Distinct(vector) && j <= i < |vector|
    ensures Beaters(MoveUp(vector, i, j), keyword, vector[i]) <= Beaters(vector, keyword, vector[i])
    ensures Beaters(keyword, MoveUp(vector, i, j), vector[i]) <= Beaters(keyword, vector, vector[i])
  {
    var moved, id := MoveUp(vector, i, j), vector[i];
    forall x
      ensures x in Union(moved, keyword) <==> x in Union(vector, keyword)
      ensures x in Union(keyword, moved) <==> x in Union(keyword, vector)
      ensures x != id ==> Score(moved, keyword, x) <= Score(vector, keyword, x)
      ensures x == id ==> Score(moved, keyword, x) >= Score(vector, keyword, x)
    {
      MovedRanks(vector, i, j, x);
      UnionMembers(vector, keyword, x);
      UnionMembers(moved, keyword, x);
      UnionMembers(keyword, vector, x);
      UnionMembers(keyword, moved, x);
      if x == id {
        ContributionFalls(RRF_K, RankOf(moved, x), RankOf(vector, x));
      } else {
        ContributionFalls(RRF_K, RankOf(vector, x), RankOf(moved, x));
      }
    }
  }

  lemma {:induction false} UnionMembers(vector: seq<Id>, keyword: seq<Id>, id: Id)
    ensures id in Union(vector, keyword) <==> id in vector || id in keyword
  {
    if keyword != [] {
      var n := |keyword| - 1;
      UnionMembers(vector, keyword[..n], id);
      assert keyword == keyword[..n] + [keyword[n]];
    }
  }
}
