/**
 * `clean_proccess` called while a migration is under way: the swap of tables happens during the sweep, and
 * what the iterator had not reached in the second table is then out of its sight.
 */
module DictMidSweep {
  import opened Options
  import opened DictModel
  import opened DictTheorems
  import opened DictRehash
  import opened DictIter
  import opened DictSweep

  // ----- after the swap: the chain the iterator is in, and no more -------------------------

  /** The iterator is in what was bucket `i` of the second table and is now in the only one. */
  ghost predicate Draining<R, V>(d: Dict<R, V>, it: Iter<R>, keyOf: map<R, Key>, i: nat) {
    && Sweeps(d, it, keyOf) && !d.Rehashing() && it.table == 1 && it.index >= 0 && it.entry.Some?
    && i < |d.ht0.buckets|
    && it.next == FirstOf(d.ht0.buckets[i])
  }

  function FirstOf<R, V>(chain: seq<Cell<R, V>>): Option<R> {
    if chain == [] then None else Some(chain[0].ref)
  }

  /** The first cell of a chain is found there, since addresses are unique. */
  lemma FirstIsThere<R, V>(d: Dict<R, V>, keyOf: map<R, Key>, i: nat)
    requires Inv(d) && Owned(d, keyOf) && i < |d.ht0.buckets| && d.ht0.buckets[i] != []
    ensures var r := d.ht0.buckets[i][0].ref; ChainWith(d, r) == d.ht0.buckets[i] && RefPos(d.ht0.buckets[i], r) == 0
  {
    var r := d.ht0.buckets[i][0].ref;
    assert RefPos(d.ht0.buckets[i], r) == 0;
    var x := FindRef(d.ht0.buckets, r);
    assert x <= i;
    OnePlace(d.ht0, keyOf, x, RefPos(d.ht0.buckets[x], r), i, 0);
  }

  lemma DrainNext<R, V>(d: Dict<R, V>, it: Iter<R>, keyOf: map<R, Key>, i: nat)
    requires Draining(d, it, keyOf, i)
    ensures var chain := d.ht0.buckets[i];
      if chain == [] then Next(d, it).1 == None
      else Next(d, it) == Yield(it, chain, 0)
  {
    assert d.ht1 == NoTable();
    if d.ht0.buckets[i] != [] { FirstIsThere(d, keyOf, i); }
  }

  /** Deleting the head of a chain when idle. */
  lemma HeadDeleted<R, V>(d: Dict<R, V>, i: nat)
    requires Inv(d) && !d.Rehashing() && i < |d.ht0.buckets| && d.ht0.buckets[i] != []
    ensures var chain := d.ht0.buckets[i];
      Delete(d, chain[0].key).0 == d.(ht0 := d.ht0.(buckets := d.ht0.buckets[i := chain[1..]], used := d.ht0.used - 1))
  {
    var chain := d.ht0.buckets[i];
    CellInBucket(d.ht0, i, 0);
    DeleteWhenIdle(d, chain[0].key);
    assert chain[..0] + chain[1..] == chain[1..];
  }

  /** One turn: the head goes, and the rest of the chain is next. */
  lemma DrainTurn<R, V>(d: Dict<R, V>, it: Iter<R>, keyOf: map<R, Key>, i: nat) returns (e: Dict<R, V>, it': Iter<R>)
    requires Draining(d, it, keyOf, i) && d.ht0.buckets[i] != []
    ensures Draining(e, it', keyOf, i) && e.ht0.buckets == d.ht0.buckets[i := d.ht0.buckets[i][1..]]
    ensures Sweep(d, it, keyOf).0 == Sweep(e, it', keyOf).0
  {
    DrainNext(d, it, keyOf, i);
    HeadDeleted(d, i);
    e, it' := SweepOn(d, it, keyOf);
    StillDraining(d, it, keyOf, i, e, it');
  }

  lemma StillDraining<R, V>(d: Dict<R, V>, it: Iter<R>, keyOf: map<R, Key>, i: nat, e: Dict<R, V>, it': Iter<R>)
    requires Draining(d, it, keyOf, i) && d.ht0.buckets[i] != [] && Sweeps(e, it', keyOf)
    requires it' == Yield(it, d.ht0.buckets[i], 0).0
    requires e == d.(ht0 := d.ht0.(buckets := d.ht0.buckets[i := d.ht0.buckets[i][1..]], used := d.ht0.used - 1))
    ensures Draining(e, it', keyOf, i)
  {
  }

  /** The sweep is a turn and the sweep from there. */
  lemma SweepOn<R, V>(d: Dict<R, V>, it: Iter<R>, keyOf: map<R, Key>) returns (e: Dict<R, V>, it': Iter<R>)
    requires Sweeps(d, it, keyOf) && Next(d, it).1.Some?
    ensures it' == Next(d, it).0 && e == Delete(d, Next(d, it).1.value.key).0
    ensures Sweeps(e, it', keyOf) && |MapOf(e)| < |MapOf(d)| && Sweep(d, it, keyOf).0 == Sweep(e, it', keyOf).0
  {
    TurnKeeps(d, it, keyOf);
    it', e := Next(d, it).0, Delete(d, Next(d, it).1.value.key).0;
  }

  lemma SweepTo<R, V>(d: Dict<R, V>, it: Iter<R>, keyOf: map<R, Key>, it': Iter<R>, c: Cell<R, V>, e: Dict<R, V>)
    requires Sweeps(d, it, keyOf) && Next(d, it) == (it', Some(c)) && e == Delete(d, c.key).0
    ensures Sweeps(e, it', keyOf) && Sweep(d, it, keyOf).0 == Sweep(e, it', keyOf).0
  {
    TurnKeeps(d, it, keyOf);
  }

  /** The other buckets are left. */
  ghost predicate LeavesBut<R, V>(b: seq<seq<Cell<R, V>>>, i: nat, e: Dict<R, V>)
    requires i < |b|
  {
    Inv(e) && !e.Rehashing() && e.ht0.buckets == b[i := []]
  }

  lemma LeavesShorter<R, V>(b: seq<seq<Cell<R, V>>>, i: nat, chain: seq<Cell<R, V>>, e: Dict<R, V>)
    requires i < |b| && LeavesBut(b[i := chain], i, e)
    ensures LeavesBut(b, i, e)
  {
    assert b[i := chain][i := []] == b[i := []];
  }

  lemma DrainEnds<R, V>(d: Dict<R, V>, it: Iter<R>, keyOf: map<R, Key>, i: nat)
    requires Draining(d, it, keyOf, i) && d.ht0.buckets[i] == []
    ensures LeavesBut(d.ht0.buckets, i, Sweep(d, it, keyOf).0)
  {
    DrainNext(d, it, keyOf, i);
    assert d.ht0.buckets[i := []] == d.ht0.buckets;
  }

  /** The rest of the chain goes, and the other buckets stay. */
  lemma {:induction false} DrainSweep<R, V>(d: Dict<R, V>, it: Iter<R>, keyOf: map<R, Key>, i: nat)
    requires Draining(d, it, keyOf, i)
    ensures LeavesBut(d.ht0.buckets, i, Sweep(d, it, keyOf).0)
    decreases |d.ht0.buckets[i]|
  {
    if d.ht0.buckets[i] == [] {
      DrainEnds(d, it, keyOf, i);
    } else {
      var e, it' := DrainTurn(d, it, keyOf, i);
      DrainSweep(e, it', keyOf, i);
      LeavesShorter(d.ht0.buckets, i, d.ht0.buckets[i][1..], Sweep(e, it', keyOf).0);
    }
  }

  // ----- the swap ------------------------------------------------------------------------

  /** Only the swap is still to come, and the iterator has not got beyond the first table. */
  ghost predicate SwapDue<R, V>(d: Dict<R, V>, it: Iter<R>, keyOf: map<R, Key>) {
    && Sweeps(d, it, keyOf) && d.Rehashing() && d.iterators == 0 && d.ht0.used == 0
    && it.table == 0 && (it.entry.None? || it.next.None?)
  }

  /** The first non-empty bucket of the second table is next. */
  lemma SwapNext<R, V>(d: Dict<R, V>, it: Iter<R>, keyOf: map<R, Key>)
    requires SwapDue(d, it, keyOf)
    ensures var i := NextBusy(d.ht1.buckets, 0);
      if i == |d.ht1.buckets| then Next(d, it).1 == None
      else Next(d, it) == Yield(it.(table := 1, index := i, entry := None), d.ht1.buckets[i], 0)
  {
    TotalZero(d.ht0.buckets);
    var from := it.index + 1;
    if from <= |d.ht0.buckets| { assert NextBusy(d.ht0.buckets, from) == |d.ht0.buckets|; }
  }

  /** The first deletion swaps the tables. */
  lemma DeleteSwaps<R, V>(d: Dict<R, V>, k: Key)
    requires Inv(d) && d.Rehashing() && d.iterators == 0 && d.ht0.used == 0
    ensures Step(d) == Dict(d.ht1, NoTable(), -1, 0) && Inv(Step(d))
    ensures Delete(d, k) == Delete(Step(d), k)
  {
    assert Rehash(d, 1) == Rehash(RehashOne(d), 0);
    StepKeeps(d);
    assert Step(Step(d)) == Step(d);
    assert CellAt(d.ht1, k) == CellAt(Step(d).ht0, k);
  }

  lemma SwapDeleted<R, V>(d: Dict<R, V>, i: nat, c: Cell<R, V>) returns (e: Dict<R, V>)
    requires Inv(d) && d.Rehashing() && d.iterators == 0 && d.ht0.used == 0
    requires i < |d.ht1.buckets| && d.ht1.buckets[i] != [] && c == d.ht1.buckets[i][0]
    ensures var t := d.ht1;
      e == Dict(t.(buckets := t.buckets[i := t.buckets[i][1..]], used := t.used - 1), NoTable(), -1, 0)
    ensures e == Delete(d, c.key).0
  {
    DeleteSwaps(d, c.key);
    HeadDeleted(Step(d), i);
    e := Delete(d, c.key).0;
  }

  lemma SwapDraining<R, V>(t: Table<R, V>, e: Dict<R, V>, it: Iter<R>, keyOf: map<R, Key>, i: nat)
    requires i < |t.buckets| && t.buckets[i] != [] && Sweeps(e, it, keyOf)
    requires e == Dict(t.(buckets := t.buckets[i := t.buckets[i][1..]], used := t.used - 1), NoTable(), -1, 0)
    requires it.table == 1 && it.index == i && it == Yield(it, t.buckets[i], 0).0
    ensures Draining(e, it, keyOf, i) && e.ht0.buckets == t.buckets[i := t.buckets[i][1..]]
  {
  }

  lemma SwapYields<R, V>(d: Dict<R, V>, it: Iter<R>, keyOf: map<R, Key>, i: nat)
    returns (it': Iter<R>, c: Cell<R, V>)
    requires SwapDue(d, it, keyOf) && i == NextBusy(d.ht1.buckets, 0) < |d.ht1.buckets|
    ensures d.ht1.buckets[i] != [] && c == d.ht1.buckets[i][0] && Next(d, it) == (it', Some(c))
    ensures it'.table == 1 && it'.index == i && it' == Yield(it', d.ht1.buckets[i], 0).0
  {
    SwapNext(d, it, keyOf);
    c := d.ht1.buckets[i][0];
    it' := Yield(it.(table := 1, index := i, entry := None), d.ht1.buckets[i], 0).0;
  }

  /** The turn in which that happens. */
  lemma SwapTurn<R, V>(d: Dict<R, V>, it: Iter<R>, keyOf: map<R, Key>, i: nat) returns (e: Dict<R, V>, it': Iter<R>)
    requires SwapDue(d, it, keyOf) && i == NextBusy(d.ht1.buckets, 0) < |d.ht1.buckets|
    ensures Draining(e, it', keyOf, i) && e.ht0.buckets == d.ht1.buckets[i := d.ht1.buckets[i][1..]]
    ensures Sweep(d, it, keyOf).0 == Sweep(e, it', keyOf).0
  {
    var c: Cell<R, V>;
    it', c := SwapYields(d, it, keyOf, i);
    e := SwapDeleted(d, i, c);
    SweepTo(d, it, keyOf, it', c, e);
    SwapDraining(d.ht1, e, it', keyOf, i);
  }

  /** What is left is the second table without its first non-empty chain. */
  ghost predicate LeavesAllButFirst<R, V>(d: Dict<R, V>, e: Dict<R, V>) {
    var i := NextBusy(d.ht1.buckets, 0);
    if i == |d.ht1.buckets| then MapOf(e) == map[] else LeavesBut(d.ht1.buckets, i, e)
  }

  lemma SwapEnds<R, V>(d: Dict<R, V>, it: Iter<R>, keyOf: map<R, Key>)
    requires SwapDue(d, it, keyOf) && NextBusy(d.ht1.buckets, 0) == |d.ht1.buckets|
    ensures MapOf(Sweep(d, it, keyOf).0) == map[]
  {
    SwapNext(d, it, keyOf);
    BothEmpty(d);
  }

  /** So the sweep takes the first non-empty chain of the second table and leaves the others. */
  lemma SwapSweep<R, V>(d: Dict<R, V>, it: Iter<R>, keyOf: map<R, Key>)
    requires SwapDue(d, it, keyOf)
    ensures LeavesAllButFirst(d, Sweep(d, it, keyOf).0)
  {
    var i := NextBusy(d.ht1.buckets, 0);
    if i == |d.ht1.buckets| {
      SwapEnds(d, it, keyOf);
    } else {
      var e, it' := SwapTurn(d, it, keyOf, i);
      DrainSweep(e, it', keyOf, i);
      LeavesShorter(d.ht1.buckets, i, d.ht1.buckets[i][1..], Sweep(e, it', keyOf).0);
    }
  }

  lemma BothEmpty<R, V>(d: Dict<R, V>)
    requires Inv(d) && d.Rehashing() && d.ht0.used == 0 && NextBusy(d.ht1.buckets, 0) == |d.ht1.buckets|
    ensures MapOf(d) == map[]
  {
    TotalZero(d.ht1.buckets);
    SizeIsUsed(d);
  }

  // ----- before the swap: old chains of one entry each -------------------------------------

  ghost predicate Singles<R, V>(b: seq<seq<Cell<R, V>>>) {
    forall i :: 0 <= i < |b| ==> |b[i]| <= 1
  }

  /** The iterator is in the first table, at the end of a chain, with nothing left up to there. */
  ghost predicate BeforeSwap<R, V>(d: Dict<R, V>, it: Iter<R>, keyOf: map<R, Key>) {
    && Sweeps(d, it, keyOf) && d.Rehashing() && d.iterators == 0 && Singles(d.ht0.buckets)
    && it.table == 0 && (it.entry.None? || it.next.None?)
    && forall i :: 0 <= i < |d.ht0.buckets| && i <= it.index ==> d.ht0.buckets[i] == []
  }

  /** What is next is what the migration moves next. */
  lemma OldNext<R, V>(d: Dict<R, V>, it: Iter<R>, keyOf: map<R, Key>)
    requires BeforeSwap(d, it, keyOf) && d.ht0.used != 0
    ensures var i := ScanStop(d);
      && i < |d.ht0.buckets| && |d.ht0.buckets[i]| == 1 && it.index < i
      && Next(d, it) == Yield(it.(index := i, entry := None), d.ht0.buckets[i], 0)
  {
    ScanStaysInside(d);
    var i := ScanStop(d);
    assert NextBusy(d.ht0.buckets, it.index + 1) == i;
  }

  lemma PushAllOne<R, V>(t: Table<R, V>, chain: seq<Cell<R, V>>)
    requires |chain| == 1
    ensures PushAll(t, chain) == Push(t, chain[0])
  {
    assert chain[1..] == [];
    assert PushAll(t, chain) == PushAll(Push(t, chain[0]), chain[1..]);
  }

  /** The step of the migration moves that entry. */
  lemma OldMoved<R, V>(d: Dict<R, V>, i: nat)
    requires Inv(d) && d.Rehashing() && d.iterators == 0 && d.ht0.used != 0
    requires i == ScanStop(d) < |d.ht0.buckets| && |d.ht0.buckets[i]| == 1
    ensures Step(d) == Dict(d.ht0.(buckets := d.ht0.buckets[i := []], used := d.ht0.used - 1),
                            Push(d.ht1, d.ht0.buckets[i][0]), i + 1, 0)
  {
    PushAllOne(d.ht1, d.ht0.buckets[i]);
    assert Rehash(d, 1) == Rehash(RehashOne(d), 0);
  }

  /** The deletion removes it from there: the second table is as it was. */
  lemma OldDeleted<R, V>(d: Dict<R, V>, i: nat)
    requires Inv(d) && d.Rehashing() && d.iterators == 0 && d.ht0.used != 0
    requires i == ScanStop(d) < |d.ht0.buckets| && |d.ht0.buckets[i]| == 1
    ensures Delete(d, d.ht0.buckets[i][0].key).0 ==
      d.(ht0 := d.ht0.(buckets := d.ht0.buckets[i := []], used := d.ht0.used - 1), rehashidx := i + 1)
  {
    var c := d.ht0.buckets[i][0];
    OldMoved(d, i);
    PushThenUnlink(d.ht1, c);
    StepKeeps(d);
    assert Disjoint(Step(d).ht0, Step(d).ht1);
    assert CellAt(Step(d).ht0, c.key).None?;
  }

  lemma PushThenUnlink<R, V>(t: Table<R, V>, c: Cell<R, V>)
    requires TableOK(t) && t.buckets != []
    ensures CellAt(Push(t, c), c.key) == Some(c) && Unlink(Push(t, c), c.key) == t
  {
    var chain := ChainOf(t, c.key);
    assert ([c] + chain)[..0] + ([c] + chain)[1..] == chain;
    assert t.buckets[t.slot(c.key) := [c] + chain][t.slot(c.key) := chain] == t.buckets;
  }

  lemma OldTurn<R, V>(d: Dict<R, V>, it: Iter<R>, keyOf: map<R, Key>) returns (e: Dict<R, V>, it': Iter<R>)
    requires BeforeSwap(d, it, keyOf) && d.ht0.used != 0
    ensures BeforeSwap(e, it', keyOf) && e.ht1 == d.ht1 && |MapOf(e)| < |MapOf(d)|
    ensures Sweep(d, it, keyOf).0 == Sweep(e, it', keyOf).0
  {
    OldNext(d, it, keyOf);
    OldDeleted(d, ScanStop(d));
    e, it' := SweepOn(d, it, keyOf);
    StillBefore(d, it, keyOf, e, it');
  }

  lemma StillBefore<R, V>(d: Dict<R, V>, it: Iter<R>, keyOf: map<R, Key>, e: Dict<R, V>, it': Iter<R>)
    requires BeforeSwap(d, it, keyOf) && Sweeps(e, it', keyOf)
    requires var i, b := ScanStop(d), d.ht0.buckets;
      && i < |b| && |b[i]| == 1 && it' == Yield(it.(index := i, entry := None), b[i], 0).0
      && e == d.(ht0 := d.ht0.(buckets := b[i := []], used := d.ht0.used - 1), rehashidx := i + 1)
    ensures BeforeSwap(e, it', keyOf)
  {
  }

  /** So one after the other the old entries go, and then the first non-empty chain of the second table. */
  lemma {:induction false} SinglesSweep<R, V>(d: Dict<R, V>, it: Iter<R>, keyOf: map<R, Key>)
    requires BeforeSwap(d, it, keyOf)
    ensures LeavesAllButFirst(d, Sweep(d, it, keyOf).0)
    decreases |MapOf(d)|
  {
    if d.ht0.used == 0 {
      SwapSweep(d, it, keyOf);
    } else {
      var e, it' := OldTurn(d, it, keyOf);
      SinglesSweep(e, it', keyOf);
    }
  }

  // ----- when nothing is left --------------------------------------------------------------

  /** Emptying the first non-empty bucket empties the table exactly if there is no other. */
  lemma EmptyWithoutFirst<R, V>(b: seq<seq<Cell<R, V>>>)
    requires NextBusy(b, 0) < |b|
    ensures Total(b[NextBusy(b, 0) := []]) == 0 <==> Busy(b) <= 1
  {
    var i := NextBusy(b, 0);
    BusyUpdate(b, i);
    BusyBound(b[i := []]);
    if Busy(b) <= 1 { NoneBusy(b[i := []]); }
  }

  lemma {:induction false} NoneBusy<R, V>(b: seq<seq<Cell<R, V>>>)
    ensures Busy(b) == 0 <==> Total(b) == 0
  {
    BusyBound(b);
    if b != [] { NoneBusy(b[1..]); }
  }

  /** The size of the first non-empty bucket. */
  ghost function FirstSize<R, V>(b: seq<seq<Cell<R, V>>>): nat {
    if NextBusy(b, 0) < |b| then |b[NextBusy(b, 0)]| else 0
  }

  /** How much is left. */
  lemma LeftCount<R, V>(d: Dict<R, V>, e: Dict<R, V>)
    requires Inv(d) && LeavesAllButFirst(d, e)
    ensures |MapOf(e)| == d.ht1.used - FirstSize(d.ht1.buckets)
  {
    var b := d.ht1.buckets;
    var i := NextBusy(b, 0);
    if i == |b| {
      TotalZero(b);
    } else {
      TotalUpdate(b, i, []);
      SizeIsUsed(e);
    }
  }

  /** Nothing, exactly if no other bucket has entries. */
  lemma NothingBehind<R, V>(d: Dict<R, V>)
    requires Inv(d)
    ensures d.ht1.used == FirstSize(d.ht1.buckets) <==> Busy(d.ht1.buckets) <= 1
  {
    var b := d.ht1.buckets;
    var i := NextBusy(b, 0);
    if i == |b| {
      TotalZero(b);
      NoneBusy(b);
    } else {
      TotalUpdate(b, i, []);
      EmptyWithoutFirst(b);
    }
  }

  /**
   * A sweep that starts during a migration, when every old chain still to be moved has at most one entry
   * (in particular when all have been moved): all entries of the second table but those of its first non-empty
   * chain are left, and so the table ends empty if and only if there is at most one such chain.
   */
  lemma MidSweep<R, V>(d: Dict<R, V>, keyOf: map<R, Key>)
    requires Inv(d) && Owned(d, keyOf) && d.Rehashing() && d.iterators == 0 && Singles(d.ht0.buckets)
    ensures LeavesAllButFirst(d, Sweep(d, NewIter(false), keyOf).0)
    ensures var m := MapOf(Sweep(d, NewIter(false), keyOf).0);
      && |m| == d.ht1.used - FirstSize(d.ht1.buckets)
      && (m == map[] <==> Busy(d.ht1.buckets) <= 1)
  {
    SinglesSweep(d, NewIter(false), keyOf);
    LeftCount(d, Sweep(d, NewIter(false), keyOf).0);
    NothingBehind(d);
  }
}
