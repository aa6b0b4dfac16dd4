/** Hot data detection: a Count-Min Sketch, a top-k heap fed by it, and their joint temporal decay. */
module HotData {

  // ---------------------------------------------------------------- the sketch

  /** Counters, row by row. */
  type Table = seq<seq<nat>>

  predicate Shape(t: Table, width: nat, depth: nat) {
    width > 0 && depth > 0 && |t| == depth && forall i | 0 <= i < depth :: |t[i]| == width
  }

  function Bucket<F>(hash: (F, nat) -> nat, width: nat, x: F, row: nat): (b: nat)
    requires width > 0
    ensures b < width
  {
    hash(x, row) % width
  }

  /** The counters of `x`, one per row. */
  function Cell<F>(t: Table, hash: (F, nat) -> nat, width: nat, x: F, row: nat): (n: nat)
    requires width > 0 && row < |t| && |t[row]| == width
  {
    t[row][Bucket(hash, width, x, row)]
  }

  /** The smallest counter of `x` among the first `rows` rows. */
  function MinCell<F>(t: Table, hash: (F, nat) -> nat, width: nat, x: F, rows: nat): (n: nat)
    requires width > 0 && 0 < rows <= |t| && forall i | 0 <= i < |t| :: |t[i]| == width
    ensures forall i | 0 <= i < rows :: n <= Cell(t, hash, width, x, i)
    ensures exists i | 0 <= i < rows :: n == Cell(t, hash, width, x, i)
  {
    var c := Cell(t, hash, width, x, rows - 1);
    if rows == 1 then c
    else
      var m := MinCell(t, hash, width, x, rows - 1);
      if c < m then c else m
  }

  /** The count of `x` the sketch reports. */
  function Estimate<F>(t: Table, hash: (F, nat) -> nat, width: nat, depth: nat, x: F): (n: nat)
    requires Shape(t, width, depth)
  {
    MinCell(t, hash, width, x, depth)
  }

  function Incremented<F>(t: Table, hash: (F, nat) -> nat, width: nat, depth: nat, x: F): (r: Table)
    requires Shape(t, width, depth)
    ensures Shape(r, width, depth)
  {
    seq(depth, i requires 0 <= i < depth =>
      t[i][Bucket(hash, width, x, i) := t[i][Bucket(hash, width, x, i)] + 1])
  }

  function Decayed(t: Table, f: nat -> nat): (r: Table)
    ensures |r| == |t| && forall i | 0 <= i < |t| :: |r[i]| == |t[i]|
  {
    seq(|t|, i requires 0 <= i < |t| => seq(|t[i]|, j requires 0 <= j < |t[i]| => f(t[i][j])))
  }

  /** `(count as f64 * factor) as u64`, of which only monotonicity matters. */
  ghost predicate Monotone(f: nat -> nat) {
    forall a: nat, b: nat | a <= b :: f(a) <= f(b)
  }

  class CountMinSketch<F> {
    const width: nat
    const depth: nat
    const hash: (F, nat) -> nat
    var table: Table

    ghost predicate Valid()
      reads this
    {
      Shape(table, width, depth)
    }

    constructor (width: nat, depth: nat, hash: (F, nat) -> nat)
      requires width > 0 && depth > 0
      ensures Valid()
      ensures this.width == width && this.depth == depth && this.hash == hash
      ensures table == Zero(width, depth)
    {
      this.width, this.depth, this.hash := width, depth, hash;
      this.table := seq(depth, _ => seq(width, _ => 0));
    }

    /** Adds one to the bucket of each row and returns the smallest of the new counts. */
    method Increment(x: F) returns (count: nat)
      requires Valid()
      modifies this
      ensures Valid()
      ensures table == Incremented(old(table), hash, width, depth, x)
      ensures count == Estimate(table, hash, width, depth, x)
    {
      ghost var after := Incremented(table, hash, width, depth, x);
      count := 0;
      for i := 0 to depth
        invariant Valid()
        invariant forall r | 0 <= r < depth :: table[r] == if r < i then after[r] else old(table)[r]
        invariant i > 0 ==> count == MinCell(after, hash, width, x, i)
      {
        var bucket := hash(x, i) % width;
        var newCount := table[i][bucket] + 1;
        table := table[i := table[i][bucket := newCount]];
        assert newCount == Cell(after, hash, width, x, i);
        count := if i == 0 || newCount < count then newCount else count;
      }
      assert table == after;
    }

    method ApplyDecay(f: nat -> nat)
      requires Valid()
      modifies this
      ensures Valid()
      ensures table == Decayed(old(table), f)
    {
      ghost var after := Decayed(table, f);
      for i := 0 to depth
        invariant Valid()
        invariant forall r | 0 <= r < depth :: table[r] == if r < i then after[r] else old(table)[r]
      {
        ghost var before := table;
        for j := 0 to width
          invariant Valid()
          invariant forall r | 0 <= r < depth && r != i :: table[r] == before[r]
          invariant forall c | 0 <= c < width :: table[i][c] == if c < j then after[i][c] else before[i][c]
        {
          var decayed: nat := f(table[i][j]);
          var row: seq<nat> := table[i][j := decayed];
          table := table[i := row];
        }
        assert table[i] == after[i];
      }
      assert table == after;
    }
  }

  // ---------------------------------------------------------------- one-sided error, over every trace

  datatype Event<F> = Access(x: F) | Decay

  function Zero(width: nat, depth: nat): (t: Table)
    requires width > 0 && depth > 0
    ensures Shape(t, width, depth)
  {
    seq(depth, _ => seq(width, _ => 0))
  }

  function TableAfter<F>(hash: (F, nat) -> nat, width: nat, depth: nat, f: nat -> nat, trace: seq<Event<F>>): (t: Table)
    requires width > 0 && depth > 0
    ensures Shape(t, width, depth)
  {
    if trace == [] then Zero(width, depth)
    else
      var t := TableAfter(hash, width, depth, f, trace[..|trace| - 1]);
      match trace[|trace| - 1]
      case Access(x) => Incremented(t, hash, width, depth, x)
      case Decay => Decayed(t, f)
  }

  /** The counter of `x` if nothing else were counted, decayed the same way. */
  function Exact<F(==)>(f: nat -> nat, trace: seq<Event<F>>, x: F): (n: nat) {
    if trace == [] then 0
    else
      var n := Exact(f, trace[..|trace| - 1], x);
      match trace[|trace| - 1]
      case Access(y) => if y == x then n + 1 else n
      case Decay => f(n)
  }

  lemma {:induction false} CellAtLeastExact<F>(hash: (F, nat) -> nat, width: nat, depth: nat, f: nat -> nat,
                                               trace: seq<Event<F>>, x: F, row: nat)
    requires width > 0 && row < depth && Monotone(f)
    ensures Cell(TableAfter(hash, width, depth, f, trace), hash, width, x, row) >= Exact(f, trace, x)
  {
    if trace != [] {
      CellAtLeastExact(hash, width, depth, f, trace[..|trace| - 1], x, row);
    }
  }

  /** Their hashes for this row leave the same remainder. */
  predicate Collide<F>(hash: (F, nat) -> nat, width: nat, x: F, y: F, row: nat)
    requires width > 0
  {
    hash(y, row) % width == hash(x, row) % width
  }

  /** No other fingerprint the trace accesses collides with `x` in this row. */
  ghost predicate Alone<F>(hash: (F, nat) -> nat, width: nat, trace: seq<Event<F>>, x: F, row: nat)
    requires width > 0
  {
    forall i | 0 <= i < |trace| ::
      trace[i].Access? && trace[i].x != x ==> !Collide(hash, width, x, trace[i].x, row)
  }

  /** An access of `y` moves the counter of `x` in a row, by one, exactly when the two collide there, and no other cell. */
  lemma AccessTouches<F>(t: Table, hash: (F, nat) -> nat, width: nat, depth: nat, x: F, y: F, row: nat)
    requires Shape(t, width, depth) && row < depth
    ensures var t' := Incremented(t, hash, width, depth, y);
            && Cell(t', hash, width, x, row) == Cell(t, hash, width, x, row) + (if Collide(hash, width, x, y, row) then 1 else 0)
            && t'[row][hash(y, row) % width] == t[row][hash(y, row) % width] + 1
            && forall j | 0 <= j < width && j != hash(y, row) % width :: t'[row][j] == t[row][j]
  {
  }

  lemma {:induction false} CellExactWhenAlone<F>(hash: (F, nat) -> nat, width: nat, depth: nat, f: nat -> nat,
                                                 trace: seq<Event<F>>, x: F, row: nat)
    requires width > 0 && row < depth && Alone(hash, width, trace, x, row)
    ensures Cell(TableAfter(hash, width, depth, f, trace), hash, width, x, row) == Exact(f, trace, x)
  {
    if trace != [] {
      CellExactWhenAlone(hash, width, depth, f, trace[..|trace| - 1], x, row);
      assert trace[|trace| - 1] == trace[|trace| - 1];
    }
  }

  /** For arbitrary hash functions and any monotone decay, the reported count never falls below the exact one, and is
      exact when some row gives the fingerprint a bucket of its own. */
  lemma SketchOneSided<F>(hash: (F, nat) -> nat, width: nat, depth: nat, f: nat -> nat, trace: seq<Event<F>>, x: F)
    requires width > 0 && depth > 0 && Monotone(f)
    ensures var n := Estimate(TableAfter(hash, width, depth, f, trace), hash, width, depth, x);
            && n >= Exact(f, trace, x)
            && ((exists row | 0 <= row < depth :: Alone(hash, width, trace, x, row)) ==> n == Exact(f, trace, x))
  {
    var t := TableAfter(hash, width, depth, f, trace);
    forall row | 0 <= row < depth
      ensures Cell(t, hash, width, x, row) >= Exact(f, trace, x)
      ensures Alone(hash, width, trace, x, row) ==> Cell(t, hash, width, x, row) == Exact(f, trace, x)
    {
      CellAtLeastExact(hash, width, depth, f, trace, x, row);
      if Alone(hash, width, trace, x, row) {
        CellExactWhenAlone(hash, width, depth, f, trace, x, row);
      }
    }
  }

  function Sum(row: seq<nat>): (n: nat) {
    if row == [] then 0 else Sum(row[..|row| - 1]) + row[|row| - 1]
  }

  lemma {:induction false} SumIncrement(row: seq<nat>, i: nat)
    requires i < |row|
    ensures Sum(row[i := row[i] + 1]) == Sum(row) + 1
  {
    var row' := row[i := row[i] + 1];
    if i == |row| - 1 {
      assert row'[..|row| - 1] == row[..|row| - 1];
    } else {
      assert row'[..|row| - 1] == row[..|row| - 1][i := row[i] + 1];
      SumIncrement(row[..|row| - 1], i);
    }
  }

  lemma {:induction false} SumZero(width: nat)
    ensures Sum(seq(width, _ => 0)) == 0
  {
    if width > 0 {
      SumZero(width - 1);
      assert seq(width, _ => 0)[..width - 1] == seq(width - 1, _ => 0);
    }
  }

  /** Without decay every row accounts for every increment. */
  lemma {:induction false} RowSums<F>(hash: (F, nat) -> nat, width: nat, depth: nat, f: nat -> nat, trace: seq<Event<F>>, row: nat)
    requires width > 0 && row < depth
    requires forall i | 0 <= i < |trace| :: trace[i].Access?
    ensures Sum(TableAfter(hash, width, depth, f, trace)[row]) == |trace|
  {
    hide Sum, Incremented, Zero;
    if trace == [] {
      ZeroRow(width, depth, row);
    } else {
      var before := trace[..|trace| - 1];
      RowSums(hash, width, depth, f, before, row);
      RowIncrement(TableAfter(hash, width, depth, f, before), hash, width, depth, trace[|trace| - 1].x, row);
    }
  }

  lemma ZeroRow(width: nat, depth: nat, row: nat)
    requires width > 0 && row < depth
    ensures Sum(Zero(width, depth)[row]) == 0
  {
    SumZero(width);
  }

  lemma RowIncrement<F>(t: Table, hash: (F, nat) -> nat, width: nat, depth: nat, x: F, row: nat)
    requires Shape(t, width, depth) && row < depth
    ensures Sum(Incremented(t, hash, width, depth, x)[row]) == Sum(t[row]) + 1
  {
    hide Sum;
    SumIncrement(t[row], Bucket(hash, width, x, row));
  }

  // ---------------------------------------------------------------- the top-k heap

  datatype Entry<F> = Entry(fingerprint: F, count: nat)

  /** A min-heap seen as the multiset of its entries, and the map it indexes. */
  datatype TopK<F(==)> = TopK(heap: multiset<Entry<F>>, counts: map<F, nat>)

  function Pairs<F(==)>(counts: map<F, nat>): (r: set<Entry<F>>) {
    set x | x in counts :: Entry(x, counts[x])
  }

  function Entries<F(==)>(counts: map<F, nat>): (r: multiset<Entry<F>>) {
    multiset(Pairs(counts))
  }

  /** A root of the min-heap: with equal counts, any of them. */
  predicate IsMin<F(==)>(heap: multiset<Entry<F>>, e: Entry<F>) {
    e in heap && forall o | o in heap :: e.count <= o.count
  }

  predicate Updated<F(==)>(k: nat, s: TopK<F>, x: F, n: nat, r: TopK<F>) {
    if x in s.counts then
      r == TopK(Entries(s.counts[x := n]), s.counts[x := n])
    else if |s.counts| < k then
      r == TopK(s.heap + multiset{Entry(x, n)}, s.counts[x := n])
    else
      || (r == s && (s.heap == multiset{} || exists e | e in s.heap :: IsMin(s.heap, e) && n <= e.count))
      || exists e | e in s.heap :: Replaces(s, x, n, e, r)
  }

  predicate Replaces<F(==)>(s: TopK<F>, x: F, n: nat, e: Entry<F>, r: TopK<F>) {
    && IsMin(s.heap, e)
    && n > e.count
    && r == TopK(s.heap - multiset{e} + multiset{Entry(x, n)}, (s.counts - {e.fingerprint})[x := n])
  }

  function DecayedCounts<F(==)>(counts: map<F, nat>, f: nat -> nat): (r: map<F, nat>) {
    map x | x in counts :: f(counts[x])
  }

  class TopKHeap<F(==)> {
    const k: nat
    var heap: multiset<Entry<F>>
    var counts: map<F, nat>

    ghost function View(): TopK<F>
      reads this
    {
      TopK(heap, counts)
    }

    constructor (k: nat)
      ensures this.k == k && View() == TopK(multiset{}, map[])
    {
      this.k, heap, counts := k, multiset{}, map[];
    }

    method Update(x: F, n: nat)
      modifies this
      ensures Updated(k, old(View()), x, n, View())
    {
      if x in counts {
        counts := counts[x := n];
        RebuildHeap();
      } else if |counts| < k {
        counts := counts[x := n];
        heap := heap + multiset{Entry(x, n)};
      } else if heap != multiset{} {
        var e := Peek();
        if n > e.count {
          ghost var s := View();
          heap := heap - multiset{e};
          counts := counts - {e.fingerprint};
          counts := counts[x := n];
          heap := heap + multiset{Entry(x, n)};
          assert Replaces(s, x, n, e, View());
        }
      }
    }

    /** The entry at the root. */
    method Peek() returns (e: Entry<F>)
      requires heap != multiset{}
      ensures IsMin(heap, e)
    {
      var rest := heap;
      e :| e in rest;
      rest := rest - multiset{e};
      ghost var seen := multiset{e};
      while rest != multiset{}
        invariant heap == seen + rest
        invariant e in seen && forall o | o in seen :: e.count <= o.count
        decreases |rest|
      {
        var o :| o in rest;
        rest := rest - multiset{o};
        seen := seen + multiset{o};
        e := if o.count < e.count then o else e;
      }
    }

    method RebuildHeap()
      modifies this
      ensures counts == old(counts) && heap == Entries(counts)
    {
      heap := multiset{};
      var rest := Pairs(counts);
      while rest != {}
        invariant counts == old(counts)
        invariant rest <= Pairs(counts)
        invariant heap == multiset(Pairs(counts) - rest)
        decreases |rest|
      {
        var e :| e in rest;
        ghost var done := Pairs(counts) - rest;
        rest := rest - {e};
        assert Pairs(counts) - rest == done + {e};
        heap := heap + multiset{e};
      }
    }

    method ApplyDecay(f: nat -> nat)
      modifies this
      ensures counts == DecayedCounts(old(counts), f) && heap == Entries(counts)
    {
      counts := map x | x in counts :: f(counts[x]);
      RebuildHeap();
    }
  }

  // ---------------------------------------------------------------- what the heap holds, over every trace

  /** For each fingerprint accessed so far the count last reported for it, decayed ever since. */
  function LastReported<F(==)>(hash: (F, nat) -> nat, width: nat, depth: nat, f: nat -> nat, trace: seq<Event<F>>): (r: map<F, nat>)
    requires width > 0 && depth > 0
  {
    if trace == [] then map[]
    else
      var last := LastReported(hash, width, depth, f, trace[..|trace| - 1]);
      match trace[|trace| - 1]
      case Access(x) => last[x := Estimate(TableAfter(hash, width, depth, f, trace), hash, width, depth, x)]
      case Decay => DecayedCounts(last, f)
  }

  /** The heap after each event of the trace: each access updates it with the count the sketch reports. */
  ghost predicate HeapRun<F>(k: nat, hash: (F, nat) -> nat, width: nat, depth: nat, f: nat -> nat,
                             trace: seq<Event<F>>, heaps: seq<TopK<F>>)
    requires width > 0 && depth > 0
  {
    && |heaps| == |trace| + 1
    && heaps[0] == TopK(multiset{}, map[])
    && forall i | 0 <= i < |trace| :: HeapStep(k, hash, width, depth, f, trace, heaps, i)
  }

  ghost predicate HeapStep<F>(k: nat, hash: (F, nat) -> nat, width: nat, depth: nat, f: nat -> nat,
                              trace: seq<Event<F>>, heaps: seq<TopK<F>>, i: nat)
    requires width > 0 && depth > 0 && i < |trace| && |heaps| == |trace| + 1
  {
    match trace[i]
    case Access(x) =>
      Updated(k, heaps[i], x, Estimate(TableAfter(hash, width, depth, f, trace[..i + 1]), hash, width, depth, x), heaps[i + 1])
    case Decay =>
      var counts := DecayedCounts(heaps[i].counts, f);
      heaps[i + 1] == TopK(Entries(counts), counts)
  }

  /** The heap and its index agree, at most `k` are tracked with the counts last reported, everything accessed is
      tracked while there is room, and nothing untracked was reported above anything tracked. */
  ghost predicate Dominates<F(!new)>(k: nat, s: TopK<F>, last: map<F, nat>) {
    && s.heap == Entries(s.counts)
    && |s.counts| <= k
    && s.counts.Keys <= last.Keys
    && (forall x | x in s.counts :: s.counts[x] == last[x])
    && (|s.counts| < k ==> s.counts.Keys == last.Keys)
    && (forall u, t | u in last && u !in s.counts && t in s.counts :: last[u] <= s.counts[t])
  }

  lemma PairsInsert<F>(counts: map<F, nat>, x: F, n: nat)
    requires x !in counts
    ensures Pairs(counts[x := n]) == Pairs(counts) + {Entry(x, n)}
    ensures Entry(x, n) !in Pairs(counts)
  {
    var grown := counts[x := n];
    forall e | e in Pairs(grown)
      ensures e in Pairs(counts) + {Entry(x, n)}
    {
      var y :| y in grown && e == Entry(y, grown[y]);
      assert y != x ==> Entry(y, counts[y]) in Pairs(counts);
    }
    forall e | e in Pairs(counts) + {Entry(x, n)}
      ensures e in Pairs(grown)
    {
      assert Entry(e.fingerprint, grown[e.fingerprint]) in Pairs(grown);
    }
  }

  lemma EntriesInsert<F>(counts: map<F, nat>, x: F, n: nat)
    requires x !in counts
    ensures Entries(counts[x := n]) == Entries(counts) + multiset{Entry(x, n)}
    ensures |counts[x := n]| == |counts| + 1
  {
    PairsInsert(counts, x, n);
    hide Pairs;
    assert counts[x := n].Keys == counts.Keys + {x};
  }

  lemma EntriesRemove<F>(counts: map<F, nat>, e: Entry<F>)
    requires e in Entries(counts)
    ensures e.fingerprint in counts && counts[e.fingerprint] == e.count
    ensures Entries(counts - {e.fingerprint}) == Entries(counts) - multiset{e}
    ensures |counts - {e.fingerprint}| == |counts| - 1
  {
    var rest := counts - {e.fingerprint};
    assert rest[e.fingerprint := e.count] == counts;
    EntriesInsert(rest, e.fingerprint, e.count);
    assert Entry(e.fingerprint, e.count) == e;
  }

  lemma MinIsLeast<F>(counts: map<F, nat>, e: Entry<F>, t: F)
    requires IsMin(Entries(counts), e) && t in counts
    ensures e.count <= counts[t]
  {
    assert Entry(t, counts[t]) in Pairs(counts);
  }

  lemma ReplaceKeeps<F(!new)>(k: nat, s: TopK<F>, last: map<F, nat>, x: F, n: nat, e: Entry<F>, r: TopK<F>)
    requires Dominates(k, s, last) && x !in s.counts && |s.counts| >= k && Replaces(s, x, n, e, r)
    ensures Dominates(k, r, last[x := n])
  {
    hide Entries;
    EntriesRemove(s.counts, e);
    EntriesInsert(s.counts - {e.fingerprint}, x, n);
    forall t | t in s.counts
      ensures e.count <= s.counts[t]
    {
      MinIsLeast(s.counts, e, t);
    }
  }

  lemma SkipKeeps<F(!new)>(k: nat, s: TopK<F>, last: map<F, nat>, x: F, n: nat)
    requires Dominates(k, s, last) && x !in s.counts && |s.counts| >= k
    requires s.heap == multiset{} || exists e | e in s.heap :: IsMin(s.heap, e) && n <= e.count
    ensures Dominates(k, s, last[x := n])
  {
    forall t | t in s.counts
      ensures n <= s.counts[t]
    {
      assert Entry(t, s.counts[t]) in Pairs(s.counts);
      assert Entry(t, s.counts[t]) in s.heap;
    }
  }

  lemma RaiseKeeps<F(!new)>(k: nat, s: TopK<F>, last: map<F, nat>, x: F, n: nat)
    requires Dominates(k, s, last) && x in s.counts && last[x] <= n
    ensures Dominates(k, TopK(Entries(s.counts[x := n]), s.counts[x := n]), last[x := n])
  {
    hide Entries;
    assert s.counts[x := n].Keys == s.counts.Keys;
    assert |s.counts[x := n]| == |s.counts[x := n].Keys|;
  }

  lemma InsertKeeps<F(!new)>(k: nat, s: TopK<F>, last: map<F, nat>, x: F, n: nat)
    requires Dominates(k, s, last) && x !in s.counts && |s.counts| < k
    ensures Dominates(k, TopK(s.heap + multiset{Entry(x, n)}, s.counts[x := n]), last[x := n])
  {
    hide Entries;
    EntriesInsert(s.counts, x, n);
  }

  /** A report no smaller than the previous one keeps the heap dominating. */
  lemma AccessKeeps<F(!new)>(k: nat, s: TopK<F>, last: map<F, nat>, x: F, n: nat, r: TopK<F>)
    requires Dominates(k, s, last) && Updated(k, s, x, n, r)
    requires x in last ==> last[x] <= n
    ensures Dominates(k, r, last[x := n])
  {
    if x in s.counts {
      RaiseKeeps(k, s, last, x, n);
    } else if |s.counts| < k {
      InsertKeeps(k, s, last, x, n);
    } else if e :| e in s.heap && Replaces(s, x, n, e, r) {
      ReplaceKeeps(k, s, last, x, n, e, r);
    } else {
      hide Dominates;
      SkipKeeps(k, s, last, x, n);
    }
  }

  lemma DecayKeeps<F(!new)>(k: nat, s: TopK<F>, last: map<F, nat>, f: nat -> nat)
    requires Dominates(k, s, last) && Monotone(f)
    ensures var counts := DecayedCounts(s.counts, f); Dominates(k, TopK(Entries(counts), counts), DecayedCounts(last, f))
  {
    var counts := DecayedCounts(s.counts, f);
    assert counts.Keys == s.counts.Keys;
    assert |counts| == |counts.Keys| == |s.counts|;
  }

  /** Reports of one fingerprint only grow between decays: what was last reported is never above the estimate. */
  lemma {:induction false} ReportedBelowEstimate<F>(hash: (F, nat) -> nat, width: nat, depth: nat, f: nat -> nat,
                                                    trace: seq<Event<F>>, x: F)
    requires width > 0 && depth > 0 && Monotone(f)
    requires x in LastReported(hash, width, depth, f, trace)
    ensures LastReported(hash, width, depth, f, trace)[x]
         <= Estimate(TableAfter(hash, width, depth, f, trace), hash, width, depth, x)
  {
    hide Incremented, Decayed, MinCell, Estimate;
    var before := trace[..|trace| - 1];
    if trace[|trace| - 1] != Access(x) {
      ReportedBelowEstimate(hash, width, depth, f, before, x);
      var t := TableAfter(hash, width, depth, f, before);
      match trace[|trace| - 1] {
        case Access(y) => EstimateKept(t, hash, width, depth, x, y);
        case Decay => EstimateDecays(t, hash, width, depth, f, x);
      }
    }
  }

  lemma ReportGrows<F>(hash: (F, nat) -> nat, width: nat, depth: nat, f: nat -> nat, trace: seq<Event<F>>, x: F)
    requires width > 0 && depth > 0 && Monotone(f) && trace != [] && trace[|trace| - 1] == Access(x)
    ensures var last := LastReported(hash, width, depth, f, trace[..|trace| - 1]);
            x in last ==> last[x] <= Estimate(TableAfter(hash, width, depth, f, trace), hash, width, depth, x)
  {
    hide Incremented, MinCell, Estimate;
    var before := trace[..|trace| - 1];
    if x in LastReported(hash, width, depth, f, before) {
      ReportedBelowEstimate(hash, width, depth, f, before, x);
      EstimateKept(TableAfter(hash, width, depth, f, before), hash, width, depth, x, x);
    }
  }

  /** Over every trace of accesses and decays the heap holds a dominating set. */
  lemma {:induction false} TopKTrace<F(!new)>(k: nat, hash: (F, nat) -> nat, width: nat, depth: nat, f: nat -> nat,
                                              trace: seq<Event<F>>, heaps: seq<TopK<F>>)
    requires width > 0 && depth > 0 && Monotone(f) && HeapRun(k, hash, width, depth, f, trace, heaps)
    ensures Dominates(k, heaps[|trace|], LastReported(hash, width, depth, f, trace))
    decreases |trace|
  {
    if trace != [] {
      hide Updated, Estimate, TableAfter, DecayedCounts, Entries, Dominates;
      var n := |trace| - 1;
      var before, earlier := trace[..n], heaps[..n + 1];
      EarlierRun(k, hash, width, depth, f, trace, heaps);
      TopKTrace(k, hash, width, depth, f, before, earlier);
      var last := LastReported(hash, width, depth, f, before);
      assert HeapStep(k, hash, width, depth, f, trace, heaps, n);
      assert trace[..n + 1] == trace;
      match trace[n] {
        case Access(x) =>
          var count := Estimate(TableAfter(hash, width, depth, f, trace), hash, width, depth, x);
          ReportGrows(hash, width, depth, f, trace, x);
          AccessKeeps(k, heaps[n], last, x, count, heaps[n + 1]);
        case Decay =>
          DecayKeeps(k, heaps[n], last, f);
      }
    }
  }

  lemma EstimateKept<F>(t: Table, hash: (F, nat) -> nat, width: nat, depth: nat, x: F, y: F)
    requires Shape(t, width, depth)
    ensures Estimate(Incremented(t, hash, width, depth, y), hash, width, depth, x) >= Estimate(t, hash, width, depth, x)
  {
    var t' := Incremented(t, hash, width, depth, y);
    assert forall i | 0 <= i < depth :: Cell(t', hash, width, x, i) >= Cell(t, hash, width, x, i);
  }

  lemma EstimateDecays<F>(t: Table, hash: (F, nat) -> nat, width: nat, depth: nat, f: nat -> nat, x: F)
    requires Shape(t, width, depth) && Monotone(f)
    ensures Estimate(Decayed(t, f), hash, width, depth, x) >= f(Estimate(t, hash, width, depth, x))
  {
    assert forall i | 0 <= i < depth :: Cell(Decayed(t, f), hash, width, x, i) == f(Cell(t, hash, width, x, i));
  }

  lemma EarlierRun<F>(k: nat, hash: (F, nat) -> nat, width: nat, depth: nat, f: nat -> nat,
                      trace: seq<Event<F>>, heaps: seq<TopK<F>>)
    requires width > 0 && depth > 0 && trace != [] && HeapRun(k, hash, width, depth, f, trace, heaps)
    ensures HeapRun(k, hash, width, depth, f, trace[..|trace| - 1], heaps[..|trace|])
  {
    var before := trace[..|trace| - 1];
    forall i | 0 <= i < |before|
      ensures HeapStep(k, hash, width, depth, f, before, heaps[..|trace|], i)
    {
      assert HeapStep(k, hash, width, depth, f, trace, heaps, i);
      assert before[..i + 1] == trace[..i + 1];
    }
  }

  // ---------------------------------------------------------------- the tracker

  class HotDataTracker<F(==)> {
    const sketch: CountMinSketch<F>
    const topK: TopKHeap<F>
    const decay: nat -> nat

    constructor (k: nat, decay: nat -> nat, hash: (F, nat) -> nat)
      ensures fresh(sketch) && fresh(topK) && sketch.Valid()
      ensures sketch.width == 2048 && sketch.depth == 4 && sketch.hash == hash && topK.k == k && this.decay == decay
      ensures sketch.table == Zero(2048, 4) && topK.View() == TopK(multiset{}, map[])
    {
      sketch := new CountMinSketch(2048, 4, hash);
      topK := new TopKHeap(k);
      this.decay := decay;
    }

    method RecordAccess(x: F)
      requires sketch.Valid()
      modifies sketch, topK
      ensures sketch.Valid()
      ensures sketch.table == Incremented(old(sketch.table), sketch.hash, sketch.width, sketch.depth, x)
      ensures Updated(topK.k, old(topK.View()), x,
                      Estimate(sketch.table, sketch.hash, sketch.width, sketch.depth, x), topK.View())
    {
      var count := sketch.Increment(x);
      topK.Update(x, count);
    }

    method ApplyDecay()
      requires sketch.Valid()
      modifies sketch, topK
      ensures sketch.Valid()
      ensures sketch.table == Decayed(old(sketch.table), decay)
      ensures topK.counts == DecayedCounts(old(topK.counts), decay) && topK.heap == Entries(topK.counts)
    {
      sketch.ApplyDecay(decay);
      topK.ApplyDecay(decay);
    }
  }

  // ---------------------------------------------------------------- who is let into a full heap

  /** An untracked fingerprint gets into a full heap exactly when its count is above the least tracked one; it then takes the
      place of one entry with that count, and otherwise, ties included, nothing changes. */
  lemma FullUpdateExactly<F>(k: nat, s: TopK<F>, x: F, n: nat, r: TopK<F>)
    requires s.heap == Entries(s.counts) && x !in s.counts && |s.counts| >= k && Updated(k, s, x, n, r)
    ensures x in r.counts <==> exists y | y in s.counts :: s.counts[y] < n
    ensures x !in r.counts ==> r == s
    ensures x in r.counts ==>
              exists y | y in s.counts ::
                && (forall z | z in s.counts :: s.counts[y] <= s.counts[z])
                && r.counts == (s.counts - {y})[x := n]
  {
    hide Updated;
    UpdatedFull(k, s, x, n, r);
    if r != s {
      var e :| e in s.heap && Replaces(s, x, n, e, r);
      EntryOf(s.counts, e);
      forall z | z in s.counts
        ensures e.count <= s.counts[z]
      {
        assert Entry(z, s.counts[z]) in s.heap;
      }
    } else {
      forall y | y in s.counts
        ensures n <= s.counts[y]
      {
        assert Entry(y, s.counts[y]) in s.heap;
        var e :| e in s.heap && IsMin(s.heap, e) && n <= e.count;
      }
    }
  }

  lemma UpdatedFull<F>(k: nat, s: TopK<F>, x: F, n: nat, r: TopK<F>)
    requires x !in s.counts && |s.counts| >= k && Updated(k, s, x, n, r)
    ensures r == s ==> s.heap == multiset{} || exists e | e in s.heap :: IsMin(s.heap, e) && n <= e.count
    ensures r != s ==> exists e | e in s.heap :: Replaces(s, x, n, e, r)
  {
    if e :| e in s.heap && Replaces(s, x, n, e, r) {
      assert x in r.counts && r != s;
    }
  }

  lemma EntryOf<F>(counts: map<F, nat>, e: Entry<F>)
    requires e in Entries(counts)
    ensures e.fingerprint in counts && counts[e.fingerprint] == e.count
  {
  }
}
