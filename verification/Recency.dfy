/** Least-recently-used bookkeeping: the two bounded prepared-statement structures (the pin tracker of
    connection_state.rs and the statement cache of cache.rs) against an unbounded recency list. */
module Recency {
  import opened WireBytes

  // ---------------------------------------------------------------- recency lists

  /** `retain(|n| n != name)`. */
  function Without<K(==)>(order: seq<K>, name: K): (r: seq<K>) {
    if order == [] then []
    else if order[0] == name then Without(order[1..], name)
    else [order[0]] + Without(order[1..], name)
  }

  function Names<K>(order: seq<K>): (r: set<K>) {
    if order == [] then {} else {order[0]} + Names(order[1..])
  }

  predicate NoDuplicates<K(==)>(order: seq<K>) {
    order == [] || (order[0] !in Names(order[1..]) && NoDuplicates(order[1..]))
  }

  /** `order` is the tail of `whole`. */
  predicate IsSuffix<K(==)>(order: seq<K>, whole: seq<K>) {
    |order| <= |whole| && order == whole[|whole| - |order|..]
  }

  lemma {:induction false} WithoutNames<K>(order: seq<K>, name: K)
    ensures Names(Without(order, name)) == Names(order) - {name}
    ensures NoDuplicates(order) ==> NoDuplicates(Without(order, name))
    ensures name !in Names(order) ==> Without(order, name) == order
  {
    if order != [] {
      WithoutNames(order[1..], name);
      if order[0] != name {
        var r := Without(order, name);
        assert r[0] == order[0] && r[1..] == Without(order[1..], name);
      }
    }
  }

  lemma {:induction false} WithoutAppend<K>(a: seq<K>, b: seq<K>, name: K)
    ensures Without(a + b, name) == Without(a, name) + Without(b, name)
  {
    if a == [] {
      assert a + b == b;
    } else {
      WithoutAppend(a[1..], b, name);
      assert (a + b)[1..] == a[1..] + b;
    }
  }

  lemma {:induction false} NamesAppend<K>(a: seq<K>, b: seq<K>)
    ensures Names(a + b) == Names(a) + Names(b)
    ensures NoDuplicates(a + b) <==> NoDuplicates(a) && NoDuplicates(b) && Names(a) !! Names(b)
  {
    if a == [] {
      assert a + b == b;
    } else {
      NamesAppend(a[1..], b);
      assert (a + b)[1..] == a[1..] + b;
      assert (a + b)[0] == a[0];
    }
  }

  lemma WithoutSuffix<K>(order: seq<K>, whole: seq<K>, name: K)
    requires IsSuffix(order, whole)
    ensures IsSuffix(Without(order, name), Without(whole, name))
  {
    var cut := |whole| - |order|;
    assert whole == whole[..cut] + order;
    WithoutAppend(whole[..cut], order, name);
  }

  lemma DropSuffix<K>(order: seq<K>, whole: seq<K>, k: nat, name: K)
    requires IsSuffix(order, whole) && k <= |order|
    ensures IsSuffix(order[k..] + [name], whole + [name])
  {
    assert order[k..] == whole[|whole| - (|order| - k)..];
  }

  lemma {:induction false} NamesSize<K>(order: seq<K>)
    ensures |Names(order)| <= |order|
    ensures NoDuplicates(order) ==> |Names(order)| == |order|
  {
    if order != [] {
      NamesSize(order[1..]);
    }
  }

  // ---------------------------------------------------------------- the bounded structure

  /** A map together with its use order, oldest first. */
  datatype Bounded<K, V> = Bounded(entries: map<K, V>, order: seq<K>)

  /** `while entries.len() >= max { pop the oldest, or stop when the order is empty }`. */
  function Evict<K(==), V>(b: Bounded<K, V>, max: nat): (r: Bounded<K, V>)
    decreases |b.order|
  {
    if |b.entries| >= max && b.order != [] then
      Evict(Bounded(b.entries - {b.order[0]}, b.order[1..]), max)
    else b
  }

  /** `ConnectionState::add_prepared_statement`: a known name is refreshed without eviction. */
  function TrackerAdd<K(==), V>(b: Bounded<K, V>, max: nat, name: K, v: V): (r: Bounded<K, V>) {
    var b' := if name in b.entries then b.(order := Without(b.order, name)) else Evict(b, max);
    Bounded(b'.entries[name := v], b'.order + [name])
  }

  /** `PreparedStatementCache::insert_statement`: eviction also runs when a known name is re-inserted. */
  function CacheInsert<K(==), V>(b: Bounded<K, V>, max: nat, name: K, v: V): (r: Bounded<K, V>) {
    var b' := Evict(if name in b.entries then b.(order := Without(b.order, name)) else b, max);
    Bounded(b'.entries[name := v], b'.order + [name])
  }

  /** `get_statement`: a hit becomes the most recently used. */
  function CacheGet<K(==), V>(b: Bounded<K, V>, name: K): (r: (Bounded<K, V>, Option<V>)) {
    if name in b.entries then (b.(order := Touch(b.order, name)), Some(b.entries[name])) else (b, None)
  }

  function Remove<K(==), V>(b: Bounded<K, V>, name: K): (r: Bounded<K, V>) {
    Bounded(b.entries - {name}, Without(b.order, name))
  }

  // ---------------------------------------------------------------- the unbounded reference and the invariant

  /** Every live name in order of last definition or hit, with its latest value. */
  datatype Unbounded<K, V> = Unbounded(values: map<K, V>, order: seq<K>)

  function Touch<K(==)>(order: seq<K>, name: K): (r: seq<K>) { Without(order, name) + [name] }

  function Define<K(==), V>(u: Unbounded<K, V>, name: K, v: V): (r: Unbounded<K, V>) {
    Unbounded(u.values[name := v], Touch(u.order, name))
  }

  function Forget<K(==), V>(u: Unbounded<K, V>, name: K): (r: Unbounded<K, V>) {
    Unbounded(u.values - {name}, Without(u.order, name))
  }

  predicate Listed<K(==), V>(entries: map<K, V>, order: seq<K>) {
    NoDuplicates(order) && Names(order) == entries.Keys
  }

  function AtLeastOne(max: nat): (r: nat) { if max == 0 then 1 else max }

  /** What every trace keeps: no duplicates, exactly the map's keys, within the bound, the most recent part of the
      unbounded list, and the unbounded values. */
  ghost predicate Tracks<K, V>(b: Bounded<K, V>, u: Unbounded<K, V>, max: nat) {
    && Listed(b.entries, b.order) && Listed(u.values, u.order)
    && |b.order| <= AtLeastOne(max)
    && IsSuffix(b.order, u.order)
    && Within(b.entries, u.values)
  }

  /** Every entry of `a` is one of `b`. */
  ghost predicate Within<K, V>(a: map<K, V>, b: map<K, V>) {
    forall n | n in a :: n in b && a[n] == b[n]
  }

  lemma ListedSize<K, V>(entries: map<K, V>, order: seq<K>)
    requires Listed(entries, order)
    ensures |entries| == |order|
  {
    NamesSize(order);
    assert |entries| == |entries.Keys|;
  }

  lemma TouchListed<K, V>(u: Unbounded<K, V>, name: K, v: V)
    requires Listed(u.values, u.order)
    ensures Listed(Define(u, name, v).values, Define(u, name, v).order)
  {
    WithoutNames(u.order, name);
    NamesAppend(Without(u.order, name), [name]);
  }

  /** How many names eviction drops. */
  ghost function Evicted<K, V>(b: Bounded<K, V>, max: nat): (k: nat)
    ensures k <= |b.order|
    ensures k == 0 <==> |b.entries| < max || b.order == []
    decreases |b.order|
  {
    if |b.entries| >= max && b.order != [] then 1 + Evicted(Bounded(b.entries - {b.order[0]}, b.order[1..]), max) else 0
  }

  /** Eviction drops the oldest names from the order, and from the map just those, until there is room. */
  lemma EvictDropsOldest<K, V>(b: Bounded<K, V>, max: nat)
    ensures Evict(b, max).order == b.order[Evicted(b, max)..]
    ensures Evict(b, max).entries.Keys == b.entries.Keys - Names(b.order[..Evicted(b, max)])
    ensures |Evict(b, max).entries| < max || Evicted(b, max) == |b.order|
  {
    EvictOrder(b, max);
    EvictKeys(b, max);
  }

  lemma {:induction false} EvictOrder<K, V>(b: Bounded<K, V>, max: nat)
    ensures Evict(b, max).order == b.order[Evicted(b, max)..]
    ensures |Evict(b, max).entries| < max || Evicted(b, max) == |b.order|
    decreases |b.order|
  {
    if |b.entries| >= max && b.order != [] {
      EvictOrder(Bounded(b.entries - {b.order[0]}, b.order[1..]), max);
    }
  }

  lemma EvictOnce<K, V>(b: Bounded<K, V>, max: nat)
    requires |b.entries| >= max && b.order != []
    ensures var b1 := Bounded(b.entries - {b.order[0]}, b.order[1..]);
            Evict(b, max) == Evict(b1, max) && Evicted(b, max) == Evicted(b1, max) + 1
  {
  }

  lemma NamesTake<K>(order: seq<K>, n: nat)
    requires n < |order|
    ensures Names(order[..n + 1]) == {order[0]} + Names(order[1..][..n])
  {
    assert order[..n + 1][1..] == order[1..][..n];
  }

  lemma KeysWithout<K, V>(m: map<K, V>, k: K, rest: set<K>)
    ensures (m - {k}).Keys - rest == m.Keys - ({k} + rest)
  {
  }

  lemma {:induction false} EvictKeys<K, V>(b: Bounded<K, V>, max: nat)
    ensures Evict(b, max).entries.Keys == b.entries.Keys - Names(b.order[..Evicted(b, max)])
    decreases |b.order|
  {
    if |b.entries| >= max && b.order != [] {
      EvictOnce(b, max);
      hide Evict, Evicted;
      var b1 := Bounded(b.entries - {b.order[0]}, b.order[1..]);
      EvictKeys(b1, max);
      NamesTake(b.order, Evicted(b1, max));
      KeysWithout(b.entries, b.order[0], Names(b1.order[..Evicted(b1, max)]));
    } else {
      NothingDropped(b.order);
    }
  }

  lemma {:induction false} EvictKeepsValues<K, V>(b: Bounded<K, V>, max: nat)
    ensures Within(Evict(b, max).entries, b.entries)
    decreases |b.order|
  {
    if |b.entries| >= max && b.order != [] {
      EvictKeepsValues(Bounded(b.entries - {b.order[0]}, b.order[1..]), max);
    }
  }

  /** Taking `name` out of the order, evicting, and adding `name` at the recent end keeps the invariant. */
  lemma RefreshTracks<K, V>(b: Bounded<K, V>, u: Unbounded<K, V>, max: nat, name: K, v: V)
    requires Tracks(b, u, max)
    ensures var b1 := Evict(b.(order := Without(b.order, name)), max);
            Tracks(Bounded(b1.entries[name := v], b1.order + [name]), Define(u, name, v), max)
  {
    hide Evict, Evicted, Without, Listed, IsSuffix, Within;
    var b1 := Evict(b.(order := Without(b.order, name)), max);
    RefreshListed(b, max, name, v);
    TouchListed(u, name, v);
    RefreshSuffix(b, u, max, name);
    EvictKeepsValues(b.(order := Without(b.order, name)), max);
    WithinUpdate(b1.entries, b.entries, u.values, name, v);
  }

  lemma WithinUpdate<K, V>(a: map<K, V>, b: map<K, V>, c: map<K, V>, name: K, v: V)
    requires Within(a, b) && Within(b, c)
    ensures Within(a[name := v], c[name := v])
  {
  }

  lemma RefreshSuffix<K, V>(b: Bounded<K, V>, u: Unbounded<K, V>, max: nat, name: K)
    requires IsSuffix(b.order, u.order)
    ensures IsSuffix(Evict(b.(order := Without(b.order, name)), max).order + [name], Touch(u.order, name))
  {
    hide Evict, Evicted, Without, IsSuffix;
    var b0 := b.(order := Without(b.order, name));
    EvictDropsOldest(b0, max);
    WithoutSuffix(b.order, u.order, name);
    DropSuffix(b0.order, Without(u.order, name), Evicted(b0, max), name);
  }

  lemma DropNames<K>(order: seq<K>, k: nat)
    requires NoDuplicates(order) && k <= |order|
    ensures NoDuplicates(order[k..]) && Names(order[k..]) == Names(order) - Names(order[..k])
    ensures Names(order[..k]) <= Names(order)
  {
    assert order == order[..k] + order[k..];
    NamesAppend(order[..k], order[k..]);
  }

  lemma PushName<K>(order: seq<K>, name: K)
    requires NoDuplicates(order) && name !in Names(order)
    ensures NoDuplicates(order + [name]) && Names(order + [name]) == Names(order) + {name}
  {
    NamesAppend(order, [name]);
  }

  lemma RefreshListed<K, V>(b: Bounded<K, V>, max: nat, name: K, v: V)
    requires Listed(b.entries, b.order)
    ensures var b1 := Evict(b.(order := Without(b.order, name)), max);
            Listed(b1.entries[name := v], b1.order + [name]) && |b1.order| + 1 <= AtLeastOne(max)
  {
    hide Evict, Evicted, Without, Names, NoDuplicates;
    var order := Without(b.order, name);
    var b0 := b.(order := order);
    var b1 := Evict(b0, max);
    EvictDropsOldest(b0, max);
    WithoutNames(b.order, name);
    DropNames(order, Evicted(b0, max));
    PushName(b1.order, name);
    SizeOfOrder(b1);
  }

  lemma SizeOfOrder<K, V>(b: Bounded<K, V>)
    requires NoDuplicates(b.order) && Names(b.order) <= b.entries.Keys
    ensures |b.order| <= |b.entries|
  {
    NamesSize(b.order);
    SubsetSize(Names(b.order), b.entries.Keys);
    assert |b.entries| == |b.entries.Keys|;
  }

  lemma SubsetSize<T>(a: set<T>, b: set<T>)
    requires a <= b
    ensures |a| <= |b|
  {
    assert b == a + (b - a);
  }

  lemma CacheInsertTracks<K, V>(b: Bounded<K, V>, u: Unbounded<K, V>, max: nat, name: K, v: V)
    requires Tracks(b, u, max)
    ensures Tracks(CacheInsert(b, max, name, v), Define(u, name, v), max)
  {
    hide Tracks, Evict;
    RefreshTracks(b, u, max, name, v);
    if name !in b.entries {
      AbsentName(b, u, max, name);
    }
  }

  lemma AbsentName<K, V>(b: Bounded<K, V>, u: Unbounded<K, V>, max: nat, name: K)
    requires Tracks(b, u, max) && name !in b.entries
    ensures Without(b.order, name) == b.order
  {
    WithoutNames(b.order, name);
  }

  /** Moving a known name to the recent end, with a new value or the old one. */
  lemma MoveTracks<K, V>(b: Bounded<K, V>, u: Unbounded<K, V>, max: nat, name: K, v: V)
    requires Tracks(b, u, max) && name in b.entries
    ensures Tracks(Bounded(b.entries[name := v], Touch(b.order, name)), Define(u, name, v), max)
  {
    hide Without, Names, NoDuplicates, IsSuffix;
    var order := Without(b.order, name);
    TouchListed(u, name, v);
    TouchListed(Unbounded(b.entries, b.order), name, v);
    WithoutSuffix(b.order, u.order, name);
    DropSuffix(order, Without(u.order, name), 0, name);
    assert order[0..] == order;
    ListedSize(b.entries[name := v], Touch(b.order, name));
    ListedSize(b.entries, b.order);
    assert b.entries[name := v].Keys == b.entries.Keys;
    assert |b.entries[name := v].Keys| == |b.entries.Keys|;
  }

  lemma TrackerAddTracks<K, V>(b: Bounded<K, V>, u: Unbounded<K, V>, max: nat, name: K, v: V)
    requires Tracks(b, u, max)
    ensures Tracks(TrackerAdd(b, max, name, v), Define(u, name, v), max)
  {
    hide Tracks, Evict;
    if name in b.entries {
      MoveTracks(b, u, max, name, v);
    } else {
      AbsentName(b, u, max, name);
      RefreshTracks(b, u, max, name, v);
    }
  }

  /** A hit returns the unbounded value and refreshes both lists. */
  lemma CacheGetTracks<K, V>(b: Bounded<K, V>, u: Unbounded<K, V>, max: nat, name: K)
    requires Tracks(b, u, max)
    ensures var (b', hit) := CacheGet(b, name);
            if hit.Some? then
              name in u.values && hit.value == u.values[name] && Tracks(b', Unbounded(u.values, Touch(u.order, name)), max)
            else b' == b && name !in b.entries
  {
    if name in b.entries {
      MoveTracks(b, u, max, name, b.entries[name]);
      assert u.values[name := b.entries[name]] == u.values;
      assert b.entries[name := b.entries[name]] == b.entries;
    }
  }

  lemma RemoveTracks<K, V>(b: Bounded<K, V>, u: Unbounded<K, V>, max: nat, name: K)
    requires Tracks(b, u, max)
    ensures Tracks(Remove(b, name), Forget(u, name), max)
  {
    WithoutNames(b.order, name);
    WithoutNames(u.order, name);
    WithoutSuffix(b.order, u.order, name);
    WithoutShorter(b.order, name);
  }

  lemma {:induction false} WithoutShorter<K>(order: seq<K>, name: K)
    ensures |Without(order, name)| <= |order|
  {
    if order != [] {
      WithoutShorter(order[1..], name);
    }
  }

  // ---------------------------------------------------------------- every trace of operations

  datatype CacheOp<K, V> = Insert(name: K, value: V) | Get(name: K) | Drop(name: K) | Clear

  /** The bounded structure and its reference, driven together; the reference moves a name only on a hit. */
  datatype Pair<K, V> = Pair(bounded: Bounded<K, V>, reference: Unbounded<K, V>)

  function CacheStep<K(==), V>(p: Pair<K, V>, max: nat, op: CacheOp<K, V>): (r: Pair<K, V>) {
    match op
    case Insert(n, v) => Pair(CacheInsert(p.bounded, max, n, v), Define(p.reference, n, v))
    case Get(n) =>
      Pair(CacheGet(p.bounded, n).0,
           if n in p.bounded.entries then p.reference.(order := Touch(p.reference.order, n)) else p.reference)
    case Drop(n) => Pair(Remove(p.bounded, n), Forget(p.reference, n))
    case Clear => Pair(Bounded(map[], []), Unbounded(map[], []))
  }

  function CacheRun<K(==), V>(max: nat, ops: seq<CacheOp<K, V>>): (p: Pair<K, V>) {
    if ops == [] then Pair(Bounded(map[], []), Unbounded(map[], []))
    else CacheStep(CacheRun(max, ops[..|ops| - 1]), max, ops[|ops| - 1])
  }

  /** Over every trace of the statement cache. */
  lemma {:induction false} CacheTrace<K, V>(max: nat, ops: seq<CacheOp<K, V>>)
    ensures Tracks(CacheRun(max, ops).bounded, CacheRun(max, ops).reference, max)
  {
    if ops != [] {
      CacheTrace(max, ops[..|ops| - 1]);
      var p := CacheRun(max, ops[..|ops| - 1]);
      match ops[|ops| - 1]
      case Insert(n, v) => CacheInsertTracks(p.bounded, p.reference, max, n, v);
      case Get(n) => CacheGetTracks(p.bounded, p.reference, max, n);
      case Drop(n) => RemoveTracks(p.bounded, p.reference, max, n);
      case Clear =>
    }
  }

  datatype TrackerOp<K, V> = Track(name: K, value: V) | Untrack(name: K) | UntrackAll

  function TrackerStep<K(==), V>(b: Bounded<K, V>, max: nat, op: TrackerOp<K, V>): (r: Bounded<K, V>) {
    match op
    case Track(n, v) => TrackerAdd(b, max, n, v)
    case Untrack(n) => Remove(b, n)
    case UntrackAll => Bounded(map[], [])
  }

  function TrackerRun<K(==), V>(max: nat, ops: seq<TrackerOp<K, V>>): (b: Bounded<K, V>) {
    if ops == [] then Bounded(map[], [])
    else TrackerStep(TrackerRun(max, ops[..|ops| - 1]), max, ops[|ops| - 1])
  }

  function ReferenceStep<K(==), V>(u: Unbounded<K, V>, op: TrackerOp<K, V>): (r: Unbounded<K, V>) {
    match op
    case Track(n, v) => Define(u, n, v)
    case Untrack(n) => Forget(u, n)
    case UntrackAll => Unbounded(map[], [])
  }

  function ReferenceRun<K(==), V>(ops: seq<TrackerOp<K, V>>): (u: Unbounded<K, V>) {
    if ops == [] then Unbounded(map[], []) else ReferenceStep(ReferenceRun(ops[..|ops| - 1]), ops[|ops| - 1])
  }

  /** Over every trace of the pin tracker; and an add never leaves it empty. */
  lemma {:induction false} TrackerTrace<K, V>(max: nat, ops: seq<TrackerOp<K, V>>)
    ensures Tracks(TrackerRun(max, ops), ReferenceRun(ops), max)
    ensures ops != [] && ops[|ops| - 1].Track? ==> ops[|ops| - 1].name in TrackerRun(max, ops).entries
  {
    if ops != [] {
      TrackerTrace(max, ops[..|ops| - 1]);
      var b, u := TrackerRun(max, ops[..|ops| - 1]), ReferenceRun(ops[..|ops| - 1]);
      match ops[|ops| - 1]
      case Track(n, v) => TrackerAddTracks(b, u, max, n, v);
      case Untrack(n) => RemoveTracks(b, u, max, n);
      case UntrackAll =>
    }
  }

  /** While no more names are live than the bound allows, the pin tracker loses nothing. */
  lemma {:induction false} TrackerExactWithinBound<K, V>(max: nat, ops: seq<TrackerOp<K, V>>)
    requires forall k | 0 <= k <= |ops| :: |ReferenceRun(ops[..k]).order| <= max
    ensures TrackerRun(max, ops) == Bounded(ReferenceRun(ops).values, ReferenceRun(ops).order)
  {
    if ops != [] {
      var before := ops[..|ops| - 1];
      assert forall k | 0 <= k <= |before| :: before[..k] == ops[..k];
      TrackerExactWithinBound(max, before);
      TrackerTrace(max, before);
      assert ops[..|ops|] == ops;
      match ops[|ops| - 1]
      case Track(n, v) => TrackerAddExact(TrackerRun(max, before), ReferenceRun(before), max, n, v);
      case Untrack(n) =>
      case UntrackAll =>
    }
  }

  lemma TrackerAddExact<K, V>(b: Bounded<K, V>, u: Unbounded<K, V>, max: nat, name: K, v: V)
    requires Tracks(b, u, max) && b.order == u.order && b.entries == u.values
    requires |Touch(u.order, name)| <= max
    ensures TrackerAdd(b, max, name, v) == Bounded(Define(u, name, v).values, Define(u, name, v).order)
  {
    if name !in b.entries {
      WithoutNames(u.order, name);
      ListedSize(b.entries, b.order);
    }
  }

  /** The statement cache, unlike the tracker, evicts another entry when a known name is re-inserted while it is full:
      exactly when it holds at least `max` entries and at least one other. */
  lemma CacheReinsertEvicts<K, V>(b: Bounded<K, V>, u: Unbounded<K, V>, max: nat, name: K, v: V)
    requires Tracks(b, u, max) && name in b.entries
    ensures b.entries.Keys != CacheInsert(b, max, name, v).entries.Keys
       <==> (|b.entries| >= max && |b.entries| >= 2)
  {
    hide Evict, Without, Names, NoDuplicates;
    var order := Without(b.order, name);
    var b0 := b.(order := order);
    EvictDropsOldest(b0, max);
    WithoutNames(b.order, name);
    DropNames(order, Evicted(b0, max));
    OthersListed(b.entries.Keys, order, name);
    assert |b.entries| == |b.entries.Keys|;
    if Evicted(b0, max) > 0 {
      FirstDropped(order, Evicted(b0, max));
    } else {
      NothingDropped(order);
    }
  }

  lemma OthersListed<K>(keys: set<K>, order: seq<K>, name: K)
    requires NoDuplicates(order) && Names(order) == keys - {name} && name in keys
    ensures |order| == |keys| - 1
  {
    NamesSize(order);
  }

  lemma FirstDropped<K>(order: seq<K>, k: nat)
    requires 0 < k <= |order|
    ensures order[0] in Names(order[..k]) && order[0] in Names(order)
  {
  }

  lemma NothingDropped<K>(order: seq<K>)
    ensures Names(order[..0]) == {}
  {
  }

  /** A lookup of an evicted name shows why the reference may only move names on a hit: a list that also moved `a`
      would end in a name the cache does not hold. */
  lemma MissBreaksPlainRecency<K, V>(b: Bounded<K, V>, u: Unbounded<K, V>, max: nat, a: K)
    requires Tracks(b, u, max) && b.order != [] && a in u.values && a !in b.entries
    ensures !IsSuffix(CacheGet(b, a).0.order, Touch(u.order, a))
  {
    var touched := Touch(u.order, a);
    var last := b.order[|b.order| - 1];
    assert touched[|touched| - 1] == a;
    LastName(b.order);
    assert |b.order| <= |touched| ==> touched[|touched| - |b.order|..][|b.order| - 1] == a;
  }

  lemma {:induction false} LastName<K>(order: seq<K>)
    requires order != []
    ensures order[|order| - 1] in Names(order)
  {
    if |order| > 1 {
      LastName(order[1..]);
    }
  }

  // ---------------------------------------------------------------- exactly which names the tracker still holds

  /** How many names of `order` come after `name`. */
  function Newer<K(==)>(order: seq<K>, name: K): (n: nat) {
    if order == [] then 0 else if order[0] == name then |order| - 1 else Newer(order[1..], name)
  }

  lemma {:induction false} NewerAppend<K>(a: seq<K>, b: seq<K>, name: K)
    requires NoDuplicates(a + b) && name in Names(a + b)
    ensures name in Names(b) <==> Newer(a + b, name) < |b|
  {
    if a == [] {
      assert a + b == b;
      NewerShort(b, name);
    } else {
      NamesAppend(a, b);
      assert (a + b)[1..] == a[1..] + b && (a + b)[0] == a[0];
      if a[0] != name {
        NewerAppend(a[1..], b, name);
      }
    }
  }

  lemma {:induction false} NewerShort<K>(order: seq<K>, name: K)
    requires name in Names(order)
    ensures Newer(order, name) < |order|
  {
    if order[0] != name {
      NewerShort(order[1..], name);
    }
  }

  /** A bounded structure that follows its reference holds a name exactly when few enough names are newer. */
  lemma HeldByRank<K, V>(b: Bounded<K, V>, u: Unbounded<K, V>, max: nat, name: K)
    requires Tracks(b, u, max)
    ensures name in b.entries <==> name in u.values && Newer(u.order, name) < |b.order|
  {
    hide NoDuplicates, Newer, Names;
    if name in u.values {
      var cut := |u.order| - |b.order|;
      assert u.order == u.order[..cut] + b.order;
      NewerAppend(u.order[..cut], b.order, name);
    }
  }

  /** Eviction stops as soon as there is room for one more. */
  lemma {:induction false} EvictStops<K, V>(b: Bounded<K, V>, max: nat)
    requires Listed(b.entries, b.order) && Evicted(b, max) > 0
    ensures |Evict(b, max).order| + 1 >= max
    decreases |b.order|
  {
    var b1 := Bounded(b.entries - {b.order[0]}, b.order[1..]);
    assert Names(b.order) == {b.order[0]} + Names(b1.order);
    assert b1.entries.Keys == b.entries.Keys - {b.order[0]};
    ListedSize(b.entries, b.order);
    ListedSize(b1.entries, b1.order);
    if Evicted(b1, max) > 0 {
      EvictStops(b1, max);
    }
  }

  ghost predicate Defines<K, V>(op: TrackerOp<K, V>, name: K) { op.Track? && op.name == name }

  /** Live in `u`, with fewer newer live names than the bound. */
  ghost predicate InReach<K, V>(u: Unbounded<K, V>, max: nat, name: K) {
    name in u.values && Newer(u.order, name) < AtLeastOne(max)
  }

  lemma HeldInReach<K, V>(b: Bounded<K, V>, u: Unbounded<K, V>, max: nat, name: K)
    requires Tracks(b, u, max) && name in b.entries
    ensures InReach(u, max, name)
  {
    hide Newer;
    HeldByRank(b, u, max, name);
  }

  /** A full tracker holds every name in reach. */
  lemma FullHolds<K, V>(b: Bounded<K, V>, u: Unbounded<K, V>, max: nat, name: K)
    requires Tracks(b, u, max) && InReach(u, max, name) && |b.order| >= AtLeastOne(max)
    ensures name in b.entries
  {
    hide Newer;
    HeldByRank(b, u, max, name);
  }

  lemma TracksListed<K, V>(b: Bounded<K, V>, u: Unbounded<K, V>, max: nat)
    requires Tracks(b, u, max)
    ensures Listed(b.entries, b.order)
  {
  }

  lemma AddKeeps<K, V>(b: Bounded<K, V>, u: Unbounded<K, V>, max: nat, added: K, v: V, name: K)
    requires Tracks(b, u, max) && name in b.entries && InReach(Define(u, added, v), max, name)
    ensures name in TrackerAdd(b, max, added, v).entries
  {
    hide Evict, Evicted, Newer, Tracks, Touch, Listed, InReach, Names;
    if added !in b.entries {
      EvictDropsOldest(b, max);
      if Evicted(b, max) > 0 {
        TrackerAddTracks(b, u, max, added, v);
        TracksListed(b, u, max);
        EvictStops(b, max);
        FullHolds(TrackerAdd(b, max, added, v), Define(u, added, v), max, name);
      } else {
        NothingDropped(b.order);
      }
    }
  }

  lemma AddHolds<K, V>(b: Bounded<K, V>, max: nat, added: K, v: V, name: K)
    ensures name in TrackerAdd(b, max, added, v).entries ==> name == added || name in b.entries
    ensures added in TrackerAdd(b, max, added, v).entries
  {
    hide Evict;
    EvictKeepsValues(b, max);
  }

  /** One step keeps a name exactly if it was there and stays in reach, and adds the name it defines. */
  lemma HeldStep<K, V>(b: Bounded<K, V>, u: Unbounded<K, V>, max: nat, op: TrackerOp<K, V>, name: K)
    requires Tracks(b, u, max)
    ensures name in TrackerStep(b, max, op).entries
       <==> Defines(op, name) || (name in b.entries && InReach(ReferenceStep(u, op), max, name))
  {
    hide TrackerAdd, Tracks, Newer, Define, Without;
    var b', u' := TrackerStep(b, max, op), ReferenceStep(u, op);
    StepTracks(b, u, max, op);
    if name in b'.entries {
      HeldInReach(b', u', max, name);
    }
    if op.Track? {
      AddHolds(b, max, op.name, op.value, name);
      if name in b.entries && InReach(u', max, name) {
        AddKeeps(b, u, max, op.name, op.value, name);
      }
    }
  }

  lemma StepTracks<K, V>(b: Bounded<K, V>, u: Unbounded<K, V>, max: nat, op: TrackerOp<K, V>)
    requires Tracks(b, u, max)
    ensures Tracks(TrackerStep(b, max, op), ReferenceStep(u, op), max)
  {
    hide TrackerAdd;
    match op
    case Track(n, v) => TrackerAddTracks(b, u, max, n, v);
    case Untrack(n) => RemoveTracks(b, u, max, n);
    case UntrackAll =>
  }

  /** Defined at some point, and in reach ever since: at every later point live, with fewer than the bound live names
      defined after it. */
  ghost predicate InReachSince<K, V>(max: nat, ops: seq<TrackerOp<K, V>>, i: nat, name: K) {
    forall k | i < k <= |ops| :: InReach(ReferenceRun(ops[..k]), max, name)
  }

  ghost predicate Retained<K, V>(max: nat, ops: seq<TrackerOp<K, V>>, name: K) {
    exists i | 0 <= i < |ops| :: Defines(ops[i], name) && InReachSince(max, ops, i, name)
  }

  lemma InReachOne<K, V>(max: nat, ops: seq<TrackerOp<K, V>>, op: TrackerOp<K, V>, i: nat, name: K)
    requires i <= |ops|
    ensures InReachSince(max, ops + [op], i, name)
       <==> InReachSince(max, ops, i, name) && InReach(ReferenceRun(ops + [op]), max, name)
  {
    hide InReach, ReferenceRun;
    var ops' := ops + [op];
    assert ops'[..|ops'|] == ops';
    assert forall k | 0 <= k <= |ops| :: ops'[..k] == ops[..k];
  }

  /** The pin tracker, over every trace and every bound: it holds exactly the names retained. */
  lemma {:induction false} TrackerHoldsExactly<K, V>(max: nat, ops: seq<TrackerOp<K, V>>, name: K)
    ensures name in TrackerRun(max, ops).entries <==> Retained(max, ops, name)
  {
    if ops != [] {
      hide InReach, InReachSince, Tracks, TrackerStep, ReferenceStep;
      var before, op := ops[..|ops| - 1], ops[|ops| - 1];
      assert before + [op] == ops;
      TrackerHoldsExactly(max, before, name);
      TrackerTrace(max, before);
      HeldStep(TrackerRun(max, before), ReferenceRun(before), max, op, name);
      RetainedStep(max, before, op, name);
    }
  }

  lemma RetainedStep<K, V>(max: nat, ops: seq<TrackerOp<K, V>>, op: TrackerOp<K, V>, name: K)
    ensures Retained(max, ops + [op], name)
       <==> Defines(op, name) || (Retained(max, ops, name) && InReach(ReferenceRun(ops + [op]), max, name))
  {
    hide InReach, InReachSince, ReferenceRun;
    var ops' := ops + [op];
    forall i | 0 <= i <= |ops|
      ensures InReachSince(max, ops', i, name) <==> InReachSince(max, ops, i, name) && InReach(ReferenceRun(ops'), max, name)
    {
      InReachOne(max, ops, op, i, name);
    }
    assert forall i | 0 <= i < |ops| :: ops'[i] == ops[i];
    assert ops'[|ops|] == op;
    if Defines(op, name) {
      DefinedInReach(max, ops, op, name);
      assert InReachSince(max, ops, |ops|, name) by { NothingSince(max, ops, name); }
    }
    if i :| 0 <= i < |ops| && Defines(ops[i], name) && InReachSince(max, ops, i, name) {
      assert Defines(ops'[i], name);
    }
    if i :| 0 <= i < |ops'| && Defines(ops'[i], name) && InReachSince(max, ops', i, name) {
      assert i < |ops| ==> Defines(ops[i], name);
    }
  }

  lemma NothingSince<K, V>(max: nat, ops: seq<TrackerOp<K, V>>, name: K)
    ensures InReachSince(max, ops, |ops|, name)
  {
  }

  lemma DefinedInReach<K, V>(max: nat, ops: seq<TrackerOp<K, V>>, op: TrackerOp<K, V>, name: K)
    requires Defines(op, name)
    ensures InReach(ReferenceRun(ops + [op]), max, name)
  {
    hide Tracks, InReach;
    var ops' := ops + [op];
    TrackerTrace(max, ops');
    HeldInReach(TrackerRun(max, ops'), ReferenceRun(ops'), max, name);
  }

  // ---------------------------------------------------------------- what the reference's order means

  /** Where `name` was last defined, or -1. */
  function LastDefined<K(==), V>(ops: seq<TrackerOp<K, V>>, name: K): (i: int)
    ensures -1 <= i < |ops|
    ensures i >= 0 ==> Defines(ops[i], name)
    ensures forall j | i < j < |ops| :: !Defines(ops[j], name)
  {
    if ops == [] then -1
    else if ops[|ops| - 1].Track? && ops[|ops| - 1].name == name then |ops| - 1
    else LastDefined(ops[..|ops| - 1], name)
  }

  /** Each name was last defined before all that follow it. */
  ghost predicate ByDefinition<K, V>(ops: seq<TrackerOp<K, V>>, order: seq<K>) {
    order == [] ||
    ((forall m | m in Names(order[1..]) :: LastDefined(ops, order[0]) < LastDefined(ops, m)) && ByDefinition(ops, order[1..]))
  }

  lemma {:induction false} WithoutByDefinition<K, V>(ops: seq<TrackerOp<K, V>>, order: seq<K>, name: K)
    requires ByDefinition(ops, order)
    ensures ByDefinition(ops, Without(order, name))
  {
    if order != [] {
      WithoutByDefinition(ops, order[1..], name);
      WithoutNames(order[1..], name);
      if order[0] != name {
        assert Without(order, name)[1..] == Without(order[1..], name);
      }
    }
  }

  /** A further step moves only the name it defines, to the end. */
  lemma {:induction false} LaterByDefinition<K, V>(ops: seq<TrackerOp<K, V>>, op: TrackerOp<K, V>, order: seq<K>)
    requires ByDefinition(ops, order) && (op.Track? ==> op.name !in Names(order))
    ensures ByDefinition(ops + [op], order)
    ensures op.Track? ==> ByDefinition(ops + [op], order + [op.name])
  {
    var ops' := ops + [op];
    assert ops'[..|ops|] == ops;
    if order == [] {
      assert op.Track? ==> (order + [op.name])[1..] == [];
    } else {
      LaterByDefinition(ops, op, order[1..]);
      if op.Track? {
        var order' := order + [op.name];
        assert order'[1..] == order[1..] + [op.name];
        NamesAppend(order[1..], [op.name]);
      }
    }
  }

  /** The reference lists the live names in the order of their last definitions, so the newer names of `Newer` are those
      defined later. */
  lemma {:induction false} ReferenceByDefinition<K, V>(ops: seq<TrackerOp<K, V>>)
    ensures ByDefinition(ops, ReferenceRun(ops).order)
  {
    if ops != [] {
      hide ByDefinition, LastDefined, Without;
      var before, op := ops[..|ops| - 1], ops[|ops| - 1];
      assert before + [op] == ops;
      ReferenceByDefinition(before);
      var order := ReferenceRun(before).order;
      match op {
        case Track(n, _) =>
          WithoutByDefinition(before, order, n);
          WithoutNames(order, n);
          LaterByDefinition(before, op, Without(order, n));
        case Untrack(n) =>
          WithoutByDefinition(before, order, n);
          LaterByDefinition(before, op, Without(order, n));
        case UntrackAll =>
          NoneByDefinition(ops);
      }
    }
  }

  lemma NoneByDefinition<K, V>(ops: seq<TrackerOp<K, V>>)
    ensures ByDefinition(ops, [])
  {
  }

  // ---------------------------------------------------------------- exactly which names the cache still holds

  /** How many names, counted from the newest, an insert of `o` leaves: the bound, or one less when `o` was there already. */
  function Room<K, V>(b: Bounded<K, V>, max: nat, o: K): (n: nat) {
    if o !in b.entries then AtLeastOne(max) else if max == 0 then 0 else max - 1
  }

  /** The operation leaves a name the cache holds. */
  ghost predicate Leaves<K, V>(p: Pair<K, V>, max: nat, op: CacheOp<K, V>, name: K) {
    match op
    case Insert(o, _) => o == name || Newer(Touch(p.reference.order, o), name) < Room(p.bounded, max, o)
    case Get(_) => true
    case Drop(o) => o != name
    case Clear => false
  }

  /** Re-inserting a known name leaves at most one less than the bound. */
  lemma ReinsertSize<K, V>(b: Bounded<K, V>, max: nat, o: K, v: V)
    requires Listed(b.entries, b.order) && |b.order| <= AtLeastOne(max) && o in b.entries && |b.entries| >= 2
    ensures |CacheInsert(b, max, o, v).order| == if |b.entries| < max then |b.entries| else max - 1
  {
    var order := Without(b.order, o);
    var b0 := b.(order := order);
    WithoutNames(b.order, o);
    ListedSize(b.entries, b.order);
    OthersListed(b.entries.Keys, order, o);
    assert |b.entries| == |b.entries.Keys|;
    if |b.entries| >= max {
      var b1 := Bounded(b.entries - {order[0]}, order[1..]);
      assert order[0] in Names(order);
      assert b1.entries.Keys == b.entries.Keys - {order[0]};
      assert |b1.entries| == |b1.entries.Keys| == max - 1;
      assert Evict(b0, max) == Evict(b1, max) == b1;
    }
  }

  lemma ReinsertLeaves<K, V>(b: Bounded<K, V>, u: Unbounded<K, V>, max: nat, o: K, v: V, name: K)
    requires Tracks(b, u, max) && o in b.entries && name != o && name in b.entries
    ensures name in CacheInsert(b, max, o, v).entries <==> Newer(Touch(u.order, o), name) < Room(b, max, o)
  {
    hide CacheInsert, Newer, Without, NoDuplicates, Names, Touch;
    var b' := CacheInsert(b, max, o, v);
    TwoNames(b.entries, o, name);
    ListedSize(b.entries, b.order);
    ReinsertSize(b, max, o, v);
    CacheInsertTracks(b, u, max, o, v);
    HeldByRank(b', Define(u, o, v), max, name);
    if |b.entries| < max {
      ReinsertKeepsAll(b, max, o, v, name);
    }
  }

  lemma TwoNames<K, V>(m: map<K, V>, a: K, b: K)
    requires a in m && b in m && a != b
    ensures |m| >= 2
  {
    SubsetSize({a, b}, m.Keys);
    assert |m| == |m.Keys|;
  }

  lemma ReinsertKeepsAll<K, V>(b: Bounded<K, V>, max: nat, o: K, v: V, name: K)
    requires name in b.entries && |b.entries| < max && o in b.entries
    ensures name in CacheInsert(b, max, o, v).entries
  {
  }

  lemma CacheHeldStep<K, V>(p: Pair<K, V>, max: nat, op: CacheOp<K, V>, name: K)
    requires Tracks(p.bounded, p.reference, max)
    ensures name in CacheStep(p, max, op).bounded.entries
       <==> (op.Insert? && op.name == name) || (name in p.bounded.entries && Leaves(p, max, op, name))
  {
    hide CacheInsert, Tracks, Newer, Without, Evict, Touch;
    if op.Insert? {
      var b, u := p.bounded, p.reference;
      InsertHolds(b, max, op.name, op.value, name);
      if name != op.name && name in b.entries {
        if op.name in b.entries {
          ReinsertLeaves(b, u, max, op.name, op.value, name);
        } else {
          InsertIsAdd(b, max, op.name, op.value);
          HeldStep(b, u, max, Track(op.name, op.value), name);
          StillLive(b, u, max, op.name, op.value, name);
        }
      }
    }
  }

  lemma InsertHolds<K, V>(b: Bounded<K, V>, max: nat, o: K, v: V, name: K)
    ensures name in CacheInsert(b, max, o, v).entries ==> name == o || name in b.entries
    ensures o in CacheInsert(b, max, o, v).entries
  {
    hide Evict;
    EvictKeepsValues(if o in b.entries then b.(order := Without(b.order, o)) else b, max);
  }

  lemma InsertIsAdd<K, V>(b: Bounded<K, V>, max: nat, o: K, v: V)
    requires o !in b.entries
    ensures CacheInsert(b, max, o, v) == TrackerAdd(b, max, o, v)
  {
  }

  lemma StillLive<K, V>(b: Bounded<K, V>, u: Unbounded<K, V>, max: nat, o: K, v: V, name: K)
    requires Tracks(b, u, max) && name in b.entries
    ensures name in Define(u, o, v).values && Define(u, o, v).order == Touch(u.order, o)
  {
  }

  /** Inserted at some point, and left by every operation since. */
  ghost predicate CacheRetains<K, V>(max: nat, ops: seq<CacheOp<K, V>>, name: K) {
    exists i | 0 <= i < |ops| :: ops[i].Insert? && ops[i].name == name && LeftSince(max, ops, i, name)
  }

  ghost predicate LeftSince<K, V>(max: nat, ops: seq<CacheOp<K, V>>, i: nat, name: K) {
    forall k | i < k < |ops| :: Leaves(CacheRun(max, ops[..k]), max, ops[k], name)
  }

  lemma LeftSinceOne<K, V>(max: nat, ops: seq<CacheOp<K, V>>, op: CacheOp<K, V>, i: nat, name: K)
    requires i < |ops|
    ensures LeftSince(max, ops + [op], i, name)
       <==> LeftSince(max, ops, i, name) && Leaves(CacheRun(max, ops), max, op, name)
  {
    hide Leaves, CacheRun;
    var ops' := ops + [op];
    assert ops'[..|ops|] == ops && ops'[|ops|] == op;
    assert forall k | 0 <= k < |ops| :: ops'[..k] == ops[..k] && ops'[k] == ops[k];
  }

  lemma CacheRetainsOne<K, V>(max: nat, ops: seq<CacheOp<K, V>>, op: CacheOp<K, V>, name: K)
    ensures CacheRetains(max, ops + [op], name)
       <==> (op.Insert? && op.name == name) || (CacheRetains(max, ops, name) && Leaves(CacheRun(max, ops), max, op, name))
  {
    hide Leaves, CacheRun;
    var ops' := ops + [op];
    assert ops'[|ops|] == op;
    if op.Insert? && op.name == name {
      assert LeftSince(max, ops', |ops|, name);
    }
    if i :| 0 <= i < |ops| && ops[i].Insert? && ops[i].name == name && LeftSince(max, ops, i, name) {
      LeftSinceOne(max, ops, op, i, name);
      assert ops'[i] == ops[i];
    }
    if i :| 0 <= i < |ops'| && ops'[i].Insert? && ops'[i].name == name && LeftSince(max, ops', i, name) {
      if i < |ops| {
        LeftSinceOne(max, ops, op, i, name);
        assert ops[i] == ops'[i];
      }
    }
  }

  /** The statement cache, over every trace and every bound: it holds a name exactly if it was inserted at some point and
      ever since not dropped or cleared, and at every insert of another name within the room that insert leaves. */
  lemma {:induction false} CacheHoldsExactly<K, V>(max: nat, ops: seq<CacheOp<K, V>>, name: K)
    ensures name in CacheRun(max, ops).bounded.entries <==> CacheRetains(max, ops, name)
  {
    if ops != [] {
      hide CacheRetains, CacheStep, Leaves, Tracks;
      var before, op := ops[..|ops| - 1], ops[|ops| - 1];
      assert before + [op] == ops;
      CacheHoldsExactly(max, before, name);
      CacheTrace(max, before);
      CacheHeldStep(CacheRun(max, before), max, op, name);
      CacheRetainsOne(max, before, op, name);
    }
  }
}
