/**
 * When the hash table grows, and by how much; that it grows no more than its keys ask for; and that every ordinary
 * operation brings a migration forward.
 */
module DictGrowth {
  import opened Bits
  import opened DictModel
  import opened DictTheorems
  import opened DictRehash

  /** Buckets of the table that takes inserts. */
  ghost function Capacity<R, V>(d: Dict<R, V>): nat {
    |d.Target().buckets|
  }

  ghost function Keys<R, V>(d: Dict<R, V>): nat {
    |MapOf(d)|
  }

  /** `c` is the least power of two that is at least 4 and at least `n`. */
  ghost predicate IsLeastPower(c: nat, n: nat) {
    IsPow2(c) && c >= 4 && c >= n && forall m: nat :: IsPow2(m) && m >= 4 && m >= n ==> c <= m
  }

  lemma {:induction false} DoubledBelow(i: nat, size: nat)
    requires i > 0
    ensures Doubled(i, size) == i || Doubled(i, size) < 2 * size
    decreases size - i
  {
    if i < size { DoubledBelow(2 * i, size); }
  }

  lemma LeastPowerIs(n: nat)
    ensures IsLeastPower(NextPower(n), n) && (NextPower(n) == 4 || NextPower(n) < 2 * n)
  {
    NextPowerIsLeast(n);
    DoubledBelow(4, n);
  }

  // ----- explicit resizing ---------------------------------------------------------------

  /** `dict_expand` succeeds exactly if there is room and no migration, and then into the least sufficient capacity. */
  lemma ExpandCapacity<R, V>(d: Dict<R, V>, size: nat)
    requires Inv(d)
    ensures var (e, ok) := Expand(d, size);
      && (ok <==> !d.Rehashing() && Keys(d) <= size)
      && (if ok then IsLeastPower(Capacity(e), size) && (e.Rehashing() <==> d.ht0.buckets != []) else e == d)
  {
    SizeIsUsed(d);
    TotalZero(d.ht1.buckets);
    LeastPowerIs(size);
  }

  /** `dict_resize` goes to the least power of two that is at least 4 and at least the number of keys. */
  lemma ResizeCapacity<R, V>(d: Dict<R, V>, canResize: bool)
    requires Inv(d)
    ensures var (e, ok) := Resize(d, canResize);
      && (ok <==> canResize && !d.Rehashing())
      && (if ok then IsLeastPower(Capacity(e), Keys(d)) else e == d)
  {
    if canResize && !d.Rehashing() {
      SizeIsUsed(d);
      TotalZero(d.ht1.buckets);
      ExpandCapacity(d, if d.ht0.used < 4 then 4 else d.ht0.used);
    }
  }

  // ----- growth on insertion -------------------------------------------------------------

  /** How many keys a bucket may have before an insertion makes the table grow. */
  function Ratio(canResize: bool): nat {
    if canResize then 1 else 6
  }

  /** The growth that an insertion starts, seen from the number of keys alone. */
  lemma GrowthIs<R, V>(d: Dict<R, V>, canResize: bool)
    requires Inv(d)
    ensures var e := ExpandIfNeeded(d, canResize).0;
      if d.Rehashing() || Keys(d) < Ratio(canResize) * Capacity(d) then e == d
      else IsLeastPower(Capacity(e), 2 * Keys(d)) && (Capacity(e) == 4 || Capacity(e) < 4 * Keys(d))
  {
    if !d.Rehashing() {
      SizeIsUsed(d);
      TotalZero(d.ht1.buckets);
      TotalZero(d.ht0.buckets);
      if d.ht0.buckets == [] { LeastPowerIs(4); } else { FullGrowth(d, canResize, Keys(d)); }
    }
  }

  lemma FullGrowth<R, V>(d: Dict<R, V>, canResize: bool, used: nat)
    requires !d.Rehashing() && d.ht0.buckets != [] && used == d.ht0.used
    ensures var e := ExpandIfNeeded(d, canResize).0;
      if used < Ratio(canResize) * |d.ht0.buckets| then e == d
      else IsLeastPower(Capacity(e), 2 * used) && (Capacity(e) == 4 || Capacity(e) < 4 * used)
  {
    RatioIs(used, |d.ht0.buckets|);
    LeastPowerIs(2 * used);
  }

  /** A migration that the next step does not bring to its end. */
  ghost predicate StillMigrating<R, V>(d: Dict<R, V>) {
    d.Rehashing() && (d.iterators != 0 || Busy(d.ht0.buckets) > 0)
  }

  lemma StepCapacity<R, V>(d: Dict<R, V>)
    requires Inv(d)
    ensures var e := Step(d);
      Inv(e) && Keys(e) == Keys(d) && Capacity(e) == Capacity(d) && (e.Rehashing() <==> StillMigrating(d))
  {
    StepKeeps(d);
    SameLookupsSameMap(d, Step(d));
    if d.iterators == 0 && d.Rehashing() { RehashFinishes(d, 1); }
  }

  /**
   * `dict_add` grows the table exactly if no migration goes on and the keys fill the capacity, six times over with
   * resizing disabled; and then to the least power of two that is at least 4 and twice the keys.
   */
  lemma AddCapacity<R, V>(d: Dict<R, V>, r: R, k: Key, v: V, canResize: bool)
    requires Inv(d)
    ensures var e := Add(d, r, k, v, canResize).0;
      if StillMigrating(d) || Keys(d) < Ratio(canResize) * Capacity(d) then Capacity(e) == Capacity(d)
      else IsLeastPower(Capacity(e), 2 * Keys(d)) && (Capacity(e) == 4 || Capacity(e) < 4 * Keys(d))
  {
    StepCapacity(d);
    GrowthIs(Step(d), canResize);
    RoomCapacity(d, k, canResize);
    var d2, room := Room(d, k, canResize).0, Room(d, k, canResize).1;
    if room { PushCapacity(d2, Cell(r, k, v)); }
  }

  lemma RoomCapacity<R, V>(d: Dict<R, V>, k: Key, canResize: bool)
    ensures Room(d, k, canResize).0 == ExpandIfNeeded(Step(d), canResize).0
  {
  }

  lemma PushCapacity<R, V>(d: Dict<R, V>, c: Cell<R, V>)
    requires d.Target().buckets != []
    ensures Capacity(WithTarget(d, Push(d.Target(), c))) == Capacity(d)
  {
  }

  lemma FindCapacity<R, V>(d: Dict<R, V>, k: Key)
    requires Inv(d)
    ensures Capacity(Find(d, k).0) == Capacity(d)
  {
    StepCapacity(d);
  }

  lemma ReplaceCapacity<R, V>(d: Dict<R, V>, r: R, k: Key, v: V, canResize: bool)
    requires Inv(d)
    ensures Capacity(Replace(d, r, k, v, canResize).0) == Capacity(Add(d, r, k, v, canResize).0)
  {
    AddKeeps(d, r, k, v, canResize);
    var (d1, added) := Add(d, r, k, v, canResize);
    if !added {
      FindCapacity(d1, k);
      SetValCapacity(Find(d1, k).0, k, v);
    }
  }

  lemma SetValCapacity<R, V>(d: Dict<R, V>, k: Key, v: V)
    ensures Capacity(SetVal(d, k, v)) == Capacity(d)
  {
  }

  lemma DeleteCapacity<R, V>(d: Dict<R, V>, k: Key)
    requires Inv(d)
    ensures Capacity(Delete(d, k).0) == Capacity(d)
  {
    StepCapacity(d);
    var d1 := Step(d);
    if CellAt(d1.ht0, k).Some? { UnlinkOK(d1.ht0, k); }
    else if CellAt(d1.ht1, k).Some? { UnlinkOK(d1.ht1, k); }
  }

  /** A new entry is the first of its chain, in the table that takes inserts; no other chain has changed by it. */
  lemma AddAtHead<R, V>(d: Dict<R, V>, r: R, k: Key, v: V, canResize: bool)
    requires Inv(d) && Add(d, r, k, v, canResize).1
    ensures var t, u := Room(d, k, canResize).0.Target(), Add(d, r, k, v, canResize).0.Target();
      && |u.buckets| == |t.buckets| && t.slot(k) < |t.buckets|
      && u.buckets[t.slot(k)] != [] && u.buckets[t.slot(k)][0] == Cell(r, k, v)
      && u.buckets[t.slot(k)][1..] == t.buckets[t.slot(k)]
      && forall i :: 0 <= i < |t.buckets| && i != t.slot(k) ==> u.buckets[i] == t.buckets[i]
  {
    var d2 := Room(d, k, canResize).0;
    RoomCapacity(d, k, canResize);
    StepKeeps(d);
    ExpandIfNeededKeeps(Step(d), canResize);
    PushIsHead(d2.Target(), Cell(r, k, v));
  }

  lemma PushIsHead<R, V>(t: Table<R, V>, c: Cell<R, V>)
    requires t.buckets != [] && HashSlots(t)
    ensures var u := Push(t, c); var x := t.slot(c.key);
      && x < |t.buckets| == |u.buckets| && u.buckets[x] == [c] + t.buckets[x]
      && forall i :: 0 <= i < |t.buckets| && i != x ==> u.buckets[i] == t.buckets[i]
  {
  }

  // ----- the other half of the load bound ------------------------------------------------

  lemma ApplyCapacity<R, V>(d: Dict<R, V>, op: Op<R, V>)
    requires Inv(d) && OrdinaryUse(op, false)
    ensures var e := Apply(d, op).0; Capacity(e) == Capacity(d) || Capacity(e) == 4 || Capacity(e) < 4 * Keys(d)
  {
    match op
    case OpAdd(r, k, v, can) => AddCapacity(d, r, k, v, can);
    case OpReplace(r, k, v, can) =>
      ReplaceCapacity(d, r, k, v, can);
      AddCapacity(d, r, k, v, can);
    case OpFind(k) => FindCapacity(d, k);
    case OpDelete(k) => DeleteCapacity(d, k);
  }

  /** Some prefix of the run held more than a quarter of `c` keys. */
  ghost predicate HeldQuarter<R, V>(d: Dict<R, V>, ops: seq<Op<R, V>>, c: nat) {
    exists k :: 0 <= k <= |ops| && c < 4 * Keys(RunDict(d, ops[..k]).0)
  }

  lemma RunLater<R, V>(d: Dict<R, V>, ops: seq<Op<R, V>>, k: nat)
    requires ops != [] && k < |ops|
    ensures RunDict(d, ops[..k + 1]).0 == RunDict(Apply(d, ops[0]).0, ops[1..][..k]).0
  {
    assert ops[..k + 1][0] == ops[0] && ops[..k + 1][1..] == ops[1..][..k];
  }

  lemma HeldLater<R, V>(d: Dict<R, V>, ops: seq<Op<R, V>>, c: nat)
    requires ops != [] && HeldQuarter(Apply(d, ops[0]).0, ops[1..], c)
    ensures HeldQuarter(d, ops, c)
  {
    var e, rest := Apply(d, ops[0]).0, ops[1..];
    var k :| 0 <= k <= |rest| && c < 4 * Keys(RunDict(e, rest[..k]).0);
    RunLater(d, ops, k);
  }

  lemma {:induction false} RunCapacity<R, V>(d: Dict<R, V>, ops: seq<Op<R, V>>)
    requires Inv(d) && forall i :: 0 <= i < |ops| ==> OrdinaryUse(ops[i], false)
    ensures var c := Capacity(RunDict(d, ops).0); c == Capacity(d) || c == 4 || HeldQuarter(d, ops, c)
    decreases |ops|
  {
    if ops != [] {
      var e := Apply(d, ops[0]).0;
      ApplyRefines(d, ops[0]);
      ApplyCapacity(d, ops[0]);
      RunCapacity(e, ops[1..]);
      var c := Capacity(RunDict(d, ops).0);
      if HeldQuarter(e, ops[1..], c) { HeldLater(d, ops, c); }
      else if c == Capacity(e) && c < 4 * Keys(d) { assert RunDict(d, ops[..0]).0 == d; }
    }
  }

  /**
   * In any run of adds, replaces, finds and deletes from an empty dictionary, the table that takes inserts has at
   * most 4 buckets, or at some time held more keys than a quarter of its buckets.
   */
  lemma CapacityBound<R, V>(ops: seq<Op<R, V>>)
    requires forall i :: 0 <= i < |ops| ==> OrdinaryUse(ops[i], false)
    ensures var c := Capacity(RunDict(Create<R, V>(), ops).0);
      c <= 4 || exists k :: 0 <= k <= |ops| && c < 4 * |MapOf(RunDict(Create<R, V>(), ops[..k]).0)|
  {
    CreateIsEmpty<R, V>();
    RunCapacity(Create<R, V>(), ops);
    var c := Capacity(RunDict(Create<R, V>(), ops).0);
    if HeldQuarter(Create<R, V>(), ops, c) {
      var k :| 0 <= k <= |ops| && c < 4 * Keys(RunDict(Create<R, V>(), ops[..k]).0);
    }
  }

  // ----- every ordinary operation brings a migration forward -----------------------------

  /** From `d` to `e` the same migration has emptied old buckets, or the new table has taken the old one's place. */
  ghost predicate Forward<R, V>(d: Dict<R, V>, e: Dict<R, V>) {
    && e.iterators == 0
    && ((e.Rehashing() && |e.ht1.buckets| == |d.ht1.buckets| && Busy(e.ht0.buckets) < Busy(d.ht0.buckets))
        || |e.ht0.buckets| == |d.ht1.buckets|)
  }

  ghost predicate Migrating<R, V>(d: Dict<R, V>) {
    Inv(d) && d.Rehashing() && d.iterators == 0
  }

  lemma StepForward<R, V>(d: Dict<R, V>)
    requires Migrating(d)
    ensures Inv(Step(d)) && Forward(d, Step(d)) && (Step(d).Rehashing() <==> StillMigrating(d))
    ensures var e := Step(d);
      if e.Rehashing() then |e.ht1.buckets| == |d.ht1.buckets| && Busy(e.ht0.buckets) < Busy(d.ht0.buckets)
      else |e.ht0.buckets| == |d.ht1.buckets|
  {
    StepKeeps(d);
    RehashFinishes(d, 1);
  }

  lemma AddForward<R, V>(d: Dict<R, V>, r: R, k: Key, v: V, canResize: bool)
    requires Migrating(d)
    ensures Forward(d, Add(d, r, k, v, canResize).0)
  {
    StepForward(d);
    var s := Step(d);
    ExpandIfNeededKeeps(s, canResize);
    var d2 := ExpandIfNeeded(s, canResize).0;
    assert d2.iterators == 0 && d2.ht0 == s.ht0 && (s.Rehashing() ==> d2 == s) by { GrowthShape(s, canResize); }
    if Room(d, k, canResize).1 { PushShape(d2, Cell(r, k, v)); }
  }

  lemma GrowthShape<R, V>(d: Dict<R, V>, canResize: bool)
    ensures var e := ExpandIfNeeded(d, canResize).0;
      && e.iterators == d.iterators && (d.Rehashing() ==> e == d)
      && (d.ht0.buckets != [] ==> e.ht0 == d.ht0)
  {
  }

  lemma PushShape<R, V>(d: Dict<R, V>, c: Cell<R, V>)
    requires d.Target().buckets != []
    ensures var e := WithTarget(d, Push(d.Target(), c));
      && e.iterators == d.iterators && (e.Rehashing() <==> d.Rehashing())
      && |e.ht0.buckets| == |d.ht0.buckets| && |e.ht1.buckets| == |d.ht1.buckets|
      && (d.Rehashing() ==> e.ht0 == d.ht0)
  {
  }

  lemma DeleteForward<R, V>(d: Dict<R, V>, k: Key)
    requires Migrating(d)
    ensures Forward(d, Delete(d, k).0)
  {
    StepForward(d);
    var d1 := Step(d);
    if CellAt(d1.ht0, k).Some? {
      UnlinkOK(d1.ht0, k);
      BusyShape(d1.ht0.buckets, Unlink(d1.ht0, k).buckets);
    } else if CellAt(d1.ht1, k).Some? {
      UnlinkOK(d1.ht1, k);
    }
  }

  /** Overwriting moves nothing. */
  lemma SetValForward<R, V>(d: Dict<R, V>, e: Dict<R, V>, k: Key, v: V)
    requires Inv(e) && Forward(d, e)
    ensures Forward(d, SetVal(e, k, v))
  {
    if CellAt(e.ht0, k).Some? {
      PutValOK(e.ht0, k, v);
      BusyShape(e.ht0.buckets, PutVal(e.ht0, k, v).buckets);
    } else if CellAt(e.ht1, k).Some? {
      PutValOK(e.ht1, k, v);
    }
  }

  lemma ForwardTwice<R, V>(d: Dict<R, V>, s: Dict<R, V>, e: Dict<R, V>)
    requires Forward(d, s) && |s.ht1.buckets| == |d.ht1.buckets| && Forward(s, e)
    requires s.Rehashing() && Busy(s.ht0.buckets) <= Busy(d.ht0.buckets)
    ensures Forward(d, e)
  {
  }

  /** A step in a migration that goes on leaves the size of the old table. */
  lemma StepSize<R, V>(d: Dict<R, V>)
    requires Migrating(d) && Busy(d.ht0.buckets) > 0
    ensures |Step(d).ht0.buckets| == |d.ht0.buckets|
  {
    BusyBound(d.ht0.buckets);
    StepForward(d);
    assert Step(d) == RehashOne(d) by { assert Rehash(RehashOne(d), 0) == RehashOne(d); }
  }

  /** The look-up of `dict_replace` behind an insertion that found the key: a second step. */
  lemma FindForward<R, V>(d: Dict<R, V>, k: Key, canResize: bool)
    requires Migrating(d)
    ensures var d1 := Room(d, k, canResize).0; Inv(Find(d1, k).0) && Forward(d, Find(d1, k).0)
  {
    StepForward(d);
    var s := Step(d);
    ExpandIfNeededKeeps(s, canResize);
    GrowthShape(s, canResize);
    RoomCapacity(d, k, canResize);
    FindAgain(d, s, ExpandIfNeeded(s, canResize).0, k, canResize);
  }

  lemma FindAgain<R, V>(d: Dict<R, V>, s: Dict<R, V>, d1: Dict<R, V>, k: Key, canResize: bool)
    requires Migrating(d) && Inv(s) && Forward(d, s) && (s.Rehashing() ==> Busy(s.ht0.buckets) < Busy(d.ht0.buckets))
    requires !s.Rehashing() ==> |s.ht0.buckets| == |d.ht1.buckets|
    requires s.Rehashing() ==> |s.ht1.buckets| == |d.ht1.buckets|
    requires Inv(d1) && d1 == ExpandIfNeeded(s, canResize).0 && d1.iterators == 0 && (s.Rehashing() ==> d1 == s)
    requires s.ht0.buckets != [] ==> d1.ht0 == s.ht0
    ensures Inv(Find(d1, k).0) && Forward(d, Find(d1, k).0)
  {
    FindKeeps(d1, k);
    if d1.Rehashing() {
      StepForward(d1);
      if s.Rehashing() {
        ForwardTwice(d, s, Step(s));
      } else {
        NewMigrationBusy(s, d1, k, canResize);
        StepSize(d1);
      }
    }
  }

  /** A migration that has just been started has old entries to move. */
  lemma NewMigrationBusy<R, V>(s: Dict<R, V>, d1: Dict<R, V>, k: Key, canResize: bool)
    requires Inv(s) && Inv(d1) && !s.Rehashing() && d1 == ExpandIfNeeded(s, canResize).0 && d1.Rehashing()
    ensures Busy(d1.ht0.buckets) > 0
  {
    BusyBound(d1.ht0.buckets);
  }

  lemma ReplaceForward<R, V>(d: Dict<R, V>, r: R, k: Key, v: V, canResize: bool)
    requires Migrating(d)
    ensures Forward(d, Replace(d, r, k, v, canResize).0)
  {
    AddForward(d, r, k, v, canResize);
    var (d1, added) := Add(d, r, k, v, canResize);
    if !added {
      FindForward(d, k, canResize);
      SetValForward(d, Find(d1, k).0, k, v);
    }
  }

  lemma ApplyForward<R, V>(d: Dict<R, V>, op: Op<R, V>)
    requires Migrating(d) && OrdinaryUse(op, false)
    ensures Inv(Apply(d, op).0) && Forward(d, Apply(d, op).0)
  {
    ApplyRefines(d, op);
    match op
    case OpAdd(r, k, v, can) => AddForward(d, r, k, v, can);
    case OpReplace(r, k, v, can) => ReplaceForward(d, r, k, v, can);
    case OpFind(k) => StepForward(d);
    case OpDelete(k) => DeleteForward(d, k);
  }

  /**
   * A migration is over, and its new table the only one or the next to be migrated, at the latest after one operation
   * more than there were non-empty old buckets.
   */
  lemma {:induction false} MigrationEnds<R, V>(d: Dict<R, V>, ops: seq<Op<R, V>>)
    requires Migrating(d) && |ops| > Busy(d.ht0.buckets)
    requires forall i :: 0 <= i < |ops| ==> OrdinaryUse(ops[i], false)
    ensures exists k :: 0 <= k <= Busy(d.ht0.buckets) + 1
                        && |RunDict(d, ops[..k]).0.ht0.buckets| == |d.ht1.buckets|
    decreases |ops|
  {
    var e := Apply(d, ops[0]).0;
    ApplyForward(d, ops[0]);
    if |e.ht0.buckets| == |d.ht1.buckets| {
      assert ops[..1][1..] == [];
      assert RunDict(d, ops[..1]).0 == e;
    } else {
      MigrationEnds(e, ops[1..]);
      var k :| 0 <= k <= Busy(e.ht0.buckets) + 1 && |RunDict(e, ops[1..][..k]).0.ht0.buckets| == |e.ht1.buckets|;
      RunLater(d, ops, k);
    }
  }
}
