/** The access-ordered embedding cache and the client that reads and fills it. */
module EmbeddingCache {
  import opened Wrappers

  datatype Text = Text(characters: string)
  datatype Vector = Vector(values: seq<real>)

  datatype Entry = Entry(key: Text, value: Vector)

  // ----- the cache ------------------------------------------------------------------------

  /** One cache operation as the history records it; a lookup counts only when it hits. */
  datatype Touch = Put(key: Text, value: Vector) | Hit(key: Text)

  /** A LinkedHashMap in access order: the entries from least to most recently used. */
  class Lru {
    const capacity: nat
    var entries: seq<Entry>
    ghost var history: seq<Touch>

    ghost predicate Valid()
      reads this
    {
      Reflects(capacity, entries, history)
    }

    constructor (capacity: nat)
      ensures this.capacity == capacity && entries == [] && history == []
      ensures Valid()
    {
      this.capacity := capacity;
      entries, history := [], [];
    }

    method IndexOf(key: Text) returns (r: Option<nat>)
      ensures r.None? <==> forall i | 0 <= i < |entries| :: entries[i].key != key
      ensures r.Some? ==> r.value < |entries| && entries[r.value].key == key
    {
      for i := 0 to |entries|
        invariant forall k | 0 <= k < i :: entries[k].key != key
      {
        if entries[i].key == key {
          return Some(i);
        }
      }
      r := None;
    }

    /** A hit moves the entry to the most recent end. */
    method Get(key: Text) returns (r: Option<Vector>)
      requires Valid()
      modifies this
      ensures Valid()
      ensures r == Lookup(old(entries), key)
      ensures history == old(history) + (if r.Some? then [Hit(key)] else [])
      ensures r.None? ==> entries == old(entries)
      ensures forall e | e in entries :: e in old(entries)
    {
      hide Reflects, Touched, Lookup;
      var at := IndexOf(key);
      KeysDistinct(capacity, entries, history);
      LookupAt(entries, key);
      if at.None? {
        return None;
      }
      var entry := entries[at.value];
      TouchKeeps(capacity, entries, history, Hit(key), at, entry);
      MovedToEnd(capacity, entries, at.value);
      entries := entries[..at.value] + entries[at.value + 1..] + [entry];
      history := history + [Hit(key)];
      r := Some(entry.value);
    }

    /** Insert or overwrite at the most recent end; the eldest goes when the map is over capacity. */
    method Put(key: Text, value: Vector)
      requires Valid()
      modifies this
      ensures Valid()
      ensures history == old(history) + [Touch.Put(key, value)]
      ensures capacity > 0 ==> Lookup(entries, key) == Some(value)
      ensures forall e | e in entries :: e == Entry(key, value) || e in old(entries)
    {
      var at := IndexOf(key);
      ghost var entry := Entry(key, value);
      KeysDistinct(capacity, entries, history);
      TouchKeeps(capacity, entries, history, Touch.Put(key, value), at, entry);
      PutFinds(capacity, entries, history, entry, at);
      if at.Some? {
        entries := entries[..at.value] + entries[at.value + 1..];
      }
      entries := entries + [Entry(key, value)];
      if |entries| > capacity {
        entries := entries[1..];
      }
      assert entries == Touched(capacity, old(entries), entry, at);
      history := history + [Touch.Put(key, value)];
    }
  }

  // ----- what the history says ------------------------------------------------------------

  function Lookup(entries: seq<Entry>, key: Text): Option<Vector> {
    if entries == [] then None
    else if entries[0].key == key then Some(entries[0].value) else Lookup(entries[1..], key)
  }

  function Drop(keys: seq<Text>, key: Text): seq<Text> {
    if keys == [] then [] else (if keys[0] == key then [] else [keys[0]]) + Drop(keys[1..], key)
  }

  /** The distinct keys ever touched, by last touch. */
  function Recency(history: seq<Touch>): seq<Text> {
    if history == [] then []
    else
      var last := history[|history| - 1];
      Drop(Recency(history[..|history| - 1]), last.key) + [last.key]
  }

  /** The value most recently put under a key. */
  function LastPut(history: seq<Touch>, key: Text): Option<Vector> {
    if history == [] then None
    else
      var last := history[|history| - 1];
      if last.Put? && last.key == key then Some(last.value) else LastPut(history[..|history| - 1], key)
  }

  function LastN<T>(xs: seq<T>, n: nat): seq<T> { if |xs| <= n then xs else xs[|xs| - n..] }

  function Keys(entries: seq<Entry>): seq<Text> {
    seq(|entries|, i requires 0 <= i < |entries| => entries[i].key)
  }

  /** The cache holds the N most recently touched keys, in order, each with its last put. */
  ghost predicate Reflects(capacity: nat, entries: seq<Entry>, history: seq<Touch>) {
    && Keys(entries) == LastN(Recency(history), capacity)
    && forall e | e in entries :: LastPut(history, e.key) == Some(e.value)
  }

  ghost predicate Distinct(keys: seq<Text>) { forall i, k | 0 <= i < k < |keys| :: keys[i] != keys[k] }

  ghost predicate DistinctEntries(entries: seq<Entry>) {
    forall i, k | 0 <= i < k < |entries| :: entries[i].key != entries[k].key
  }

  lemma {:induction false} LookupAt(entries: seq<Entry>, key: Text)
    ensures Lookup(entries, key).None? <==> forall i | 0 <= i < |entries| :: entries[i].key != key
    ensures DistinctEntries(entries) ==>
      forall i | 0 <= i < |entries| && entries[i].key == key :: Lookup(entries, key) == Some(entries[i].value)
    decreases entries
  {
    if entries != [] {
      LookupAt(entries[1..], key);
    }
  }

  lemma {:induction false} DropAbsent(keys: seq<Text>, key: Text)
    requires key !in keys
    ensures Drop(keys, key) == keys
  {
    if keys != [] {
      DropAbsent(keys[1..], key);
    }
  }

  lemma {:induction false} DropKeys(keys: seq<Text>, key: Text)
    ensures key !in Drop(keys, key)
    ensures forall k :: k in Drop(keys, key) <==> k in keys && k != key
    ensures Distinct(keys) ==> Distinct(Drop(keys, key))
  {
    if keys != [] {
      DropKeys(keys[1..], key);
      var rest := Drop(keys[1..], key);
      forall i | 0 <= i < |rest| && Distinct(keys)
        ensures rest[i] != keys[0]
      {
        assert rest[i] in rest;
      }
    }
  }

  lemma {:induction false} DropConcat(a: seq<Text>, b: seq<Text>, key: Text)
    ensures Drop(a + b, key) == Drop(a, key) + Drop(b, key)
  {
    if a == [] {
      assert a + b == b;
    } else {
      DropConcat(a[1..], b, key);
      assert (a + b)[0] == a[0] && (a + b)[1..] == a[1..] + b;
      Associative(if a[0] == key then [] else [a[0]], Drop(a[1..], key), Drop(b, key));
    }
  }

  lemma Associative<T>(x: seq<T>, y: seq<T>, z: seq<T>)
    ensures x + (y + z) == (x + y) + z
  {
  }

  lemma {:induction false} DropSplit(a: seq<Text>, b: seq<Text>, key: Text)
    requires key !in a && key !in b
    ensures Drop(a + [key] + b, key) == a + b
  {
    if a == [] {
      assert [key] + b == a + [key] + b && ([key] + b)[1..] == b;
      DropAbsent(b, key);
    } else {
      DropSplit(a[1..], b, key);
      assert (a + [key] + b)[1..] == a[1..] + [key] + b;
      assert a + b == [a[0]] + (a[1..] + b);
    }
  }

  lemma LastNSuffix<T>(x: seq<T>, y: seq<T>, n: nat)
    requires |y| >= n
    ensures LastN(x + y, n) == LastN(y, n)
  {
  }

  lemma {:induction false} RecencyDistinct(history: seq<Touch>)
    ensures Distinct(Recency(history))
  {
    if history != [] {
      RecencyDistinct(history[..|history| - 1]);
      DropKeys(Recency(history[..|history| - 1]), history[|history| - 1].key);
    }
  }

  /** What the entries become when a key is touched. */
  function Touched(capacity: nat, entries: seq<Entry>, entry: Entry, at: Option<nat>): seq<Entry>
    requires at.Some? ==> at.value < |entries|
  {
    var rest := if at.Some? then entries[..at.value] + entries[at.value + 1..] else entries;
    LastN(rest + [entry], capacity)
  }

  lemma Regroup(before: seq<Text>, a: seq<Text>, b: seq<Text>, key: Text)
    ensures before + (a + [key] + b) == (before + a) + [key] + b
    ensures (before + a) + b + [key] == before + (a + b + [key])
  {
  }

  lemma TouchedPresent(n: nat, before: seq<Text>, a: seq<Text>, b: seq<Text>, key: Text)
    requires key !in before && key !in a && key !in b
    requires before != [] ==> |a + [key] + b| == n
    ensures LastN(Drop(a + [key] + b, key) + [key], n) == LastN(Drop(before + (a + [key] + b), key) + [key], n)
  {
    hide Drop;
    DropSplit(a, b, key);
    if before == [] {
      assert before + (a + [key] + b) == a + [key] + b;
    } else {
      DropSplit(before + a, b, key);
      Regroup(before, a, b, key);
      LastNSuffix(before, a + b + [key], n);
    }
  }

  lemma DistinctParts(keys: seq<Text>, k: nat)
    requires Distinct(keys) && k < |keys|
    ensures keys == keys[..k] + [keys[k]] + keys[k + 1..]
    ensures keys[k] !in keys[..k] && keys[k] !in keys[k + 1..]
  {
  }

  lemma TouchedAbsent(n: nat, before: seq<Text>, keys: seq<Text>, key: Text)
    requires key !in keys
    requires before != [] ==> |keys| == n
    ensures LastN(Drop(keys, key) + [key], n) == LastN(Drop(before + keys, key) + [key], n)
  {
    DropConcat(before, keys, key);
    DropAbsent(keys, key);
    if before == [] {
      assert before + keys == keys;
    } else {
      assert Drop(before, key) + keys + [key] == Drop(before, key) + (keys + [key]);
      LastNSuffix(Drop(before, key), keys + [key], n);
    }
  }

  lemma LastNSplit(recency: seq<Text>, n: nat)
    ensures var keys := LastN(recency, n);
      && |keys| <= |recency|
      && recency[|recency| - |keys|..] == keys
      && recency == recency[..|recency| - |keys|] + keys
      && (|keys| < |recency| ==> |keys| == n)
  {
  }

  /** Touching a key commutes with keeping only the most recent ones. */
  lemma TouchedKeys(n: nat, recency: seq<Text>, key: Text)
    requires Distinct(recency)
    ensures LastN(Drop(LastN(recency, n), key) + [key], n) == LastN(Drop(recency, key) + [key], n)
  {
    hide Drop, Distinct, LastN;
    var keys := LastN(recency, n);
    LastNSplit(recency, n);
    var m := |recency| - |keys|;
    DistinctSlices(recency, m);
    if key in keys {
      var k :| 0 <= k < |keys| && keys[k] == key;
      DistinctParts(keys, k);
      TouchedPresent(n, recency[..m], keys[..k], keys[k + 1..], key);
    } else {
      TouchedAbsent(n, recency[..m], keys, key);
    }
  }

  lemma DistinctSlices(keys: seq<Text>, m: nat)
    requires Distinct(keys) && m <= |keys|
    ensures Distinct(keys[m..])
    ensures forall k | k in keys[m..] :: k !in keys[..m]
  {
  }

  lemma KeysDistinct(capacity: nat, entries: seq<Entry>, history: seq<Touch>)
    requires Reflects(capacity, entries, history)
    ensures Distinct(Keys(entries)) && DistinctEntries(entries)
    ensures |entries| <= capacity
  {
    RecencyDistinct(history);
    var keys := Keys(entries);
    forall i, k | 0 <= i < k < |entries|
      ensures entries[i].key != entries[k].key
    {
      assert keys[i] != keys[k];
    }
  }

  lemma KeysConcat(a: seq<Entry>, b: seq<Entry>)
    ensures Keys(a + b) == Keys(a) + Keys(b)
  {
  }

  lemma KeysOfOne(entry: Entry)
    ensures Keys([entry]) == [entry.key]
  {
  }

  lemma KeysLastN(entries: seq<Entry>, n: nat)
    ensures Keys(LastN(entries, n)) == LastN(Keys(entries), n)
  {
  }

  lemma TouchedEntryKeys(capacity: nat, entries: seq<Entry>, entry: Entry, at: Option<nat>)
    requires Distinct(Keys(entries))
    requires at.Some? ==> at.value < |entries| && entries[at.value].key == entry.key
    requires at.None? ==> forall i | 0 <= i < |entries| :: entries[i].key != entry.key
    ensures Keys(Touched(capacity, entries, entry, at)) == LastN(Drop(Keys(entries), entry.key) + [entry.key], capacity)
  {
    hide Distinct, Drop, LastN, Keys;
    var keys := Keys(entries);
    var rest := if at.Some? then entries[..at.value] + entries[at.value + 1..] else entries;
    assert Keys(rest) == Drop(keys, entry.key) by {
      TouchedRestKeys(entries, entry.key, at);
    }
    KeysConcat(rest, [entry]);
    KeysOfOne(entry);
    KeysLastN(rest + [entry], capacity);
  }

  lemma TouchedRestKeys(entries: seq<Entry>, key: Text, at: Option<nat>)
    requires Distinct(Keys(entries))
    requires at.Some? ==> at.value < |entries| && entries[at.value].key == key
    requires at.None? ==> forall i | 0 <= i < |entries| :: entries[i].key != key
    ensures Keys(if at.Some? then entries[..at.value] + entries[at.value + 1..] else entries) == Drop(Keys(entries), key)
  {
    hide Distinct, Drop;
    var keys := Keys(entries);
    if at.Some? {
      KeysConcat(entries[..at.value], entries[at.value + 1..]);
      assert Keys(entries[..at.value]) == keys[..at.value];
      assert Keys(entries[at.value + 1..]) == keys[at.value + 1..];
      DistinctParts(keys, at.value);
      DropSplit(keys[..at.value], keys[at.value + 1..], key);
    } else {
      DropAbsent(keys, key);
    }
  }

  lemma TouchedMember(capacity: nat, entries: seq<Entry>, entry: Entry, at: Option<nat>, e: Entry)
    requires DistinctEntries(entries)
    requires at.Some? ==> at.value < |entries| && entries[at.value].key == entry.key
    requires at.None? ==> forall i | 0 <= i < |entries| :: entries[i].key != entry.key
    requires e in Touched(capacity, entries, entry, at)
    ensures e == entry || (e in entries && e.key != entry.key)
  {
  }

  /** Moving or inserting the touched entry, with at most one eviction, follows the history. */
  lemma TouchKeeps(capacity: nat, entries: seq<Entry>, history: seq<Touch>, touch: Touch, at: Option<nat>, entry: Entry)
    requires Reflects(capacity, entries, history)
    requires at.Some? ==> at.value < |entries| && entries[at.value].key == touch.key
    requires at.None? ==> touch.Put? && forall i | 0 <= i < |entries| :: entries[i].key != touch.key
    requires entry == if touch.Put? then Entry(touch.key, touch.value) else entries[at.value]
    ensures Reflects(capacity, Touched(capacity, entries, entry, at), history + [touch])
  {
    hide Distinct, DistinctEntries, Drop, LastN, Keys, Touched;
    KeysDistinct(capacity, entries, history);
    TouchedEntryKeys(capacity, entries, entry, at);
    RecencyDistinct(history);
    TouchedKeys(capacity, Recency(history), touch.key);
    var later := history + [touch];
    assert later[..|later| - 1] == history;
    forall e | e in Touched(capacity, entries, entry, at)
      ensures LastPut(later, e.key) == Some(e.value)
    {
      TouchedMember(capacity, entries, entry, at, e);
      if e == entry && touch.Hit? {
        assert entry in entries;
      }
    }
  }

  lemma MovedToEnd(capacity: nat, entries: seq<Entry>, i: nat)
    requires i < |entries| <= capacity
    ensures var moved := entries[..i] + entries[i + 1..] + [entries[i]];
      && moved == Touched(capacity, entries, entries[i], Some(i))
      && forall e | e in moved :: e in entries
  {
  }

  lemma PutFinds(capacity: nat, entries: seq<Entry>, history: seq<Touch>, entry: Entry, at: Option<nat>)
    requires at.Some? ==> at.value < |entries|
    requires Reflects(capacity, Touched(capacity, entries, entry, at), history + [Put(entry.key, entry.value)])
    ensures capacity > 0 ==> Lookup(Touched(capacity, entries, entry, at), entry.key) == Some(entry.value)
    ensures forall e | e in Touched(capacity, entries, entry, at) :: e == entry || e in entries
  {
    var touched := Touched(capacity, entries, entry, at);
    KeysDistinct(capacity, touched, history + [Put(entry.key, entry.value)]);
    LookupAt(touched, entry.key);
    if capacity > 0 {
      assert touched[|touched| - 1] == entry;
    }
  }

  /** When a key was last touched, counting from one; zero for a key never touched. */
  function LastTouch(history: seq<Touch>, key: Text): nat {
    if history == [] then 0
    else if history[|history| - 1].key == key then |history|
    else LastTouch(history[..|history| - 1], key)
  }

  lemma {:induction false} LastTouchBound(history: seq<Touch>, key: Text)
    ensures LastTouch(history, key) <= |history|
  {
    if history != [] {
      LastTouchBound(history[..|history| - 1], key);
    }
  }

  ghost predicate InOrder(keys: seq<Text>, x: Text, y: Text) {
    exists a, b :: 0 <= a < b < |keys| && keys[a] == x && keys[b] == y
  }

  lemma OrderInTail(keys: seq<Text>, x: Text, y: Text)
    requires keys != [] && InOrder(keys[1..], x, y)
    ensures InOrder(keys, x, y)
  {
    var a, b :| 0 <= a < b < |keys[1..]| && keys[1..][a] == x && keys[1..][b] == y;
    assert keys[a + 1] == x && keys[b + 1] == y;
  }

  lemma OrderFromHead(keys: seq<Text>, y: Text)
    requires keys != [] && y in keys[1..]
    ensures InOrder(keys, keys[0], y)
  {
    var b :| 0 <= b < |keys[1..]| && keys[1..][b] == y;
    assert keys[b + 1] == y;
  }

  lemma {:induction false} DropKeepsOrder(keys: seq<Text>, key: Text, i: nat, k: nat)
    requires i < k < |Drop(keys, key)|
    ensures InOrder(keys, Drop(keys, key)[i], Drop(keys, key)[k])
  {
    hide InOrder;
    var rest := Drop(keys[1..], key);
    if keys[0] == key {
      assert Drop(keys, key) == rest;
      DropKeepsOrder(keys[1..], key, i, k);
      OrderInTail(keys, rest[i], rest[k]);
    } else if i > 0 {
      DropKeepsOrder(keys[1..], key, i - 1, k - 1);
      OrderInTail(keys, rest[i - 1], rest[k - 1]);
    } else {
      DropKeys(keys[1..], key);
      assert rest[k - 1] in rest;
      OrderFromHead(keys, rest[k - 1]);
    }
  }

  /** Recency lists exactly the touched keys, each once, in the order of their last touches. */
  lemma {:induction false} RecencyByLastTouch(history: seq<Touch>)
    ensures forall key :: key in Recency(history) <==> LastTouch(history, key) > 0
    ensures forall i, k | 0 <= i < k < |Recency(history)| ::
      LastTouch(history, Recency(history)[i]) < LastTouch(history, Recency(history)[k])
  {
    if history != [] {
      var before, key := history[..|history| - 1], history[|history| - 1].key;
      RecencyByLastTouch(before);
      var older := Recency(before);
      DropKeys(older, key);
      forall i, k | 0 <= i < k < |Recency(history)|
        ensures LastTouch(history, Recency(history)[i]) < LastTouch(history, Recency(history)[k])
      {
        assert Drop(older, key)[i] in Drop(older, key);
        if k < |Drop(older, key)| {
          assert Drop(older, key)[k] in Drop(older, key);
          DropKeepsOrder(older, key, i, k);
        } else {
          LastTouchBound(before, Recency(history)[i]);
        }
      }
    }
  }

  // ----- the client -----------------------------------------------------------------------

  datatype ModelError = OpenAi | Unexpected
  datatype ClientError = Upstream | Uncaught

  type Model = Text -> Result<Vector, ModelError>

  /** What the client answers when nothing is cached. */
  function EmbedUncached(model: Model, dimensions: nat, text: Text): Result<Vector, ClientError> {
    match model(text)
    case Err(OpenAi) => Err(Upstream)
    case Err(Unexpected) => Err(Uncaught)
    case Ok(vector) => if vector.values == [] || |vector.values| != dimensions then Err(Upstream) else Ok(vector)
  }

  class Client {
    const model: Model
    const dimensions: nat
    const cache: Lru

    /** Every cached vector is what the model gives for its text, with the configured dimension. */
    ghost predicate Valid()
      reads this, cache
    {
      && cache.Valid()
      && forall e | e in cache.entries :: EmbedUncached(model, dimensions, e.key) == Ok(e.value)
    }

    constructor (model: Model, dimensions: nat, cache: Lru)
      requires cache.Valid() && cache.entries == []
      ensures Valid()
      ensures this.model == model && this.dimensions == dimensions && this.cache == cache
    {
      this.model, this.dimensions, this.cache := model, dimensions, cache;
    }

    method Embed(text: Text) returns (r: Result<Vector, ClientError>)
      requires Valid()
      modifies cache
      ensures Valid()
      ensures r == EmbedUncached(model, dimensions, text)
      ensures r.Ok? <==> model(text).Ok? && |model(text).value.values| == dimensions > 0
      ensures r.Ok? ==> r.value == model(text).value
      ensures r.Err? ==> r.error == if model(text) == Err(Unexpected) then Uncaught else Upstream
      ensures Lookup(old(cache.entries), text).Some? ==> cache.history == old(cache.history) + [Hit(text)]
      ensures Lookup(old(cache.entries), text).None? && r.Ok? ==>
        cache.history == old(cache.history) + [Put(text, r.value)]
      ensures r.Err? ==> cache.entries == old(cache.entries) && cache.history == old(cache.history)
    {
      LookupMember(cache.entries, text);
      var cached := cache.Get(text);
      if cached.Some? {
        return Ok(cached.value);
      }
      var answer := model(text);
      if answer.Err? {
        return Err(if answer.error.OpenAi? then Upstream else Uncaught);
      }
      var vector := answer.value;
      if vector.values == [] {
        return Err(Upstream);
      }
      if |vector.values| != dimensions {
        return Err(Upstream);
      }
      cache.Put(text, vector);
      r := Ok(vector);
    }
  }

  lemma {:induction false} LookupMember(entries: seq<Entry>, key: Text)
    ensures Lookup(entries, key).Some? ==> Entry(key, Lookup(entries, key).value) in entries
  {
    if entries != [] {
      LookupMember(entries[1..], key);
    }
  }

  /** Whatever is cached is the model's own vector for the text, of the configured dimension. */
  lemma StoredVectors(c: Client, e: Entry)
    requires c.Valid() && e in c.cache.entries
    ensures c.model(e.key) == Ok(e.value) && |e.value.values| == c.dimensions > 0
  {
    assert EmbedUncached(c.model, c.dimensions, e.key) == Ok(e.value);
  }
}
