/** How migration progresses, and the load bound it pays for. */
module DictRehash {
  import opened Bits
  import opened DictModel
  import opened DictTheorems

  /** Number of non-empty buckets. */
  ghost function Busy<R, V>(b: seq<seq<Cell<R, V>>>): nat {
    if b == [] then 0 else (if b[0] == [] then 0 else 1) + Busy(b[1..])
  }

  lemma {:induction false} BusyUpdate<R, V>(b: seq<seq<Cell<R, V>>>, i: nat)
    requires i < |b| && b[i] != []
    ensures Busy(b[i := []]) == Busy(b) - 1
  {
    if i == 0 {
      assert b[0 := []][1..] == b[1..];
    } else {
      assert b[i := []][1..] == b[1..][i - 1 := []];
      BusyUpdate(b[1..], i - 1);
    }
  }

  lemma {:induction false} BusyBound<R, V>(b: seq<seq<Cell<R, V>>>)
    ensures Busy(b) <= Total(b) && (Total(b) > 0 ==> Busy(b) > 0)
  {
    if b != [] { BusyBound(b[1..]); }
  }

  lemma {:induction false} BusyShape<R, V>(b: seq<seq<Cell<R, V>>>, c: seq<seq<Cell<R, V>>>)
    requires |c| == |b| && forall i :: 0 <= i < |b| && b[i] == [] ==> c[i] == []
    ensures Busy(c) <= Busy(b)
  {
    if b != [] {
      forall i | 0 <= i < |b[1..]| && b[1..][i] == [] ensures c[1..][i] == [] { assert b[i + 1] == []; }
      BusyShape(b[1..], c[1..]);
    }
  }

  /** One pass of the loop finishes when no entry is left, and otherwise empties exactly one non-empty bucket. */
  lemma RehashOneProgress<R, V>(d: Dict<R, V>)
    requires Inv(d) && d.Rehashing()
    ensures var e := RehashOne(d);
      && (e.Rehashing() <==> Busy(d.ht0.buckets) > 0)
      && (e.Rehashing() ==> Busy(e.ht0.buckets) == Busy(d.ht0.buckets) - 1 && |e.ht1.buckets| == |d.ht1.buckets|)
      && (!e.Rehashing() ==> e.ht0 == d.ht1)
      && e.ht0.used + e.ht1.used == d.ht0.used + d.ht1.used
  {
    BusyBound(d.ht0.buckets);
    if d.ht0.used != 0 {
      ScanStaysInside(d);
      BusyUpdate(d.ht0.buckets, ScanStop(d));
      RehashOneKeeps(d);
      SizeIsUsed(d);
      SizeIsUsed(RehashOne(d));
      SameLookupsSameMap(d, RehashOne(d));
    }
  }

  /**
   * `dict_rehash(d, n)` is still rehashing afterwards (and so returns 1) exactly when `n` does not exceed
   * the number of non-empty old buckets; it has then emptied `n` of them, and otherwise all keys
   * sit in one table of the new capacity. The keys and values are the same throughout.
   */
  lemma {:induction false} RehashFinishes<R, V>(d: Dict<R, V>, n: nat)
    requires Inv(d) && d.Rehashing()
    ensures var e := Rehash(d, n);
      && Inv(e) && MapOf(e) == MapOf(d)
      && (e.Rehashing() <==> n <= Busy(d.ht0.buckets))
      && (e.Rehashing() ==> Busy(e.ht0.buckets) == Busy(d.ht0.buckets) - n)
      && |e.Target().buckets| == |d.ht1.buckets|
    decreases n
  {
    RehashMap(d, n);
    if n > 0 {
      RehashOneProgress(d);
      RehashOneKeeps(d);
      var e := RehashOne(d);
      if e.Rehashing() { RehashFinishes(e, n - 1); }
    }
  }

  /** `a` steps and then `b` steps are `a + b` steps. */
  lemma {:induction false} RehashComposes<R, V>(d: Dict<R, V>, a: nat, b: nat)
    ensures Rehash(Rehash(d, a), b) == Rehash(d, a + b)
    decreases a
  {
    if a > 0 && d.Rehashing() {
      RehashComposes(RehashOne(d), a - 1, b);
    }
  }

  // ----- the amortised load bound --------------------------------------------------------

  lemma RatioIs(used: nat, size: nat)
    requires size > 0
    ensures used >= size && used / size > 5 <==> used >= 6 * size
  {
    var q, r := used / size, used % size;
    assert used == q * size + r;
    if q > 5 { MulMonotone(6, q, size); } else { MulMonotone(q, 5, size); }
  }

  /**
   * Keys plus the old buckets still to be moved never exceed the new capacity by more than one; with growth
   * disabled at times, they never exceed six times the new capacity.
   */
  ghost predicate Loaded<R, V>(d: Dict<R, V>, always: bool, slack: int) {
    && Inv(d) && d.iterators == 0
    && d.ht0.used + d.ht1.used + (if d.Rehashing() then Busy(d.ht0.buckets) else 0)
       <= (if always then |d.Target().buckets| + 1 else 6 * |d.Target().buckets|) + slack
  }

  lemma StepLoad<R, V>(d: Dict<R, V>, always: bool)
    requires Loaded(d, always, 0)
    ensures Loaded(Step(d), always, if Step(d).Rehashing() then -1 else 0)
  {
    StepKeeps(d);
    if d.Rehashing() {
      RehashOneProgress(d);
      RehashOneKeeps(d);
      assert Step(d) == RehashOne(d) by { assert Rehash(RehashOne(d), 0) == RehashOne(d); }
    }
  }

  /** Growing when full restores room for one more key. */
  lemma ExpandLoad<R, V>(d: Dict<R, V>, canResize: bool, always: bool)
    requires Loaded(d, always, if d.Rehashing() then -1 else 0) && (always ==> canResize)
    ensures Loaded(ExpandIfNeeded(d, canResize).0, always, -1)
  {
    ExpandIfNeededKeeps(d, canResize);
    BusyBound(d.ht0.buckets);
    TotalZero(d.ht0.buckets);
    TotalZero(d.ht1.buckets);
    if !d.Rehashing() { GrownLoad(d, canResize); }
  }

  lemma GrownLoad<R, V>(d: Dict<R, V>, canResize: bool)
    requires Inv(d) && d.iterators == 0 && !d.Rehashing()
    ensures var e := ExpandIfNeeded(d, canResize).0; var size, used := |d.ht0.buckets|, d.ht0.used;
      if size > 0 && used < (if canResize then 1 else 6) * size then e == d
      else && e.iterators == 0 && e.ht0.used + e.ht1.used == used
           && 2 * used <= |e.Target().buckets| && |e.Target().buckets| >= 4
           && (e.Rehashing() ==> e.ht0 == d.ht0)
  {
    var size, used := |d.ht0.buckets|, d.ht0.used;
    NextPowerIsLeast(4);
    NextPowerIsLeast((if size > used then size else used) * 2);
    if size == 0 { TotalZero(d.ht0.buckets); } else { RatioIs(used, size); }
  }

  lemma AddLoad<R, V>(d: Dict<R, V>, r: R, k: Key, v: V, canResize: bool, always: bool)
    requires Loaded(d, always, 0) && (always ==> canResize)
    ensures Loaded(Add(d, r, k, v, canResize).0, always, 0)
  {
    StepLoad(d, always);
    ExpandLoad(Step(d), canResize, always);
    AddKeeps(d, r, k, v, canResize);
  }

  lemma FindLoad<R, V>(d: Dict<R, V>, k: Key, always: bool)
    requires Loaded(d, always, 0)
    ensures Loaded(Find(d, k).0, always, 0)
  {
    StepLoad(d, always);
  }

  /** Overwriting moves nothing. */
  lemma SetValLoad<R, V>(d: Dict<R, V>, k: Key, v: V, always: bool)
    requires Loaded(d, always, 0) && Inv(SetVal(d, k, v))
    ensures Loaded(SetVal(d, k, v), always, 0)
  {
    if CellAt(d.ht0, k).Some? {
      PutValOK(d.ht0, k, v);
      BusyShape(d.ht0.buckets, PutVal(d.ht0, k, v).buckets);
    }
  }

  lemma ReplaceLoad<R, V>(d: Dict<R, V>, r: R, k: Key, v: V, canResize: bool, always: bool)
    requires Loaded(d, always, 0) && (always ==> canResize)
    ensures Loaded(Replace(d, r, k, v, canResize).0, always, 0)
  {
    AddLoad(d, r, k, v, canResize, always);
    ReplaceKeeps(d, r, k, v, canResize);
    var (d1, added) := Add(d, r, k, v, canResize);
    if !added {
      FindLoad(d1, k, always);
      SetValLoad(Find(d1, k).0, k, v, always);
    }
  }

  lemma DeleteLoad<R, V>(d: Dict<R, V>, k: Key, always: bool)
    requires Loaded(d, always, 0)
    ensures Loaded(Delete(d, k).0, always, 0)
  {
    StepLoad(d, always);
    DeleteKeeps(d, k);
    var d1 := Step(d);
    if CellAt(d1.ht0, k).Some? {
      UnlinkOK(d1.ht0, k);
      BusyShape(d1.ht0.buckets, Unlink(d1.ht0, k).buckets);
    }
  }

  /** Adds, replaces, finds and deletes; growth enabled at each of them if `always` says so. */
  predicate OrdinaryUse<R, V>(op: Op<R, V>, always: bool) {
    match op
    case OpAdd(_, _, _, can) => always ==> can
    case OpReplace(_, _, _, can) => always ==> can
    case OpFind(_) => true
    case OpDelete(_) => true
    case _ => false
  }

  lemma {:induction false} RunLoad<R, V>(d: Dict<R, V>, ops: seq<Op<R, V>>, always: bool)
    requires Loaded(d, always, 0) && forall i :: 0 <= i < |ops| ==> OrdinaryUse(ops[i], always)
    ensures Loaded(RunDict(d, ops).0, always, 0)
    decreases |ops|
  {
    if ops != [] {
      match ops[0] {
        case OpAdd(r, k, v, can) => AddLoad(d, r, k, v, can, always);
        case OpReplace(r, k, v, can) => ReplaceLoad(d, r, k, v, can, always);
        case OpFind(k) => FindLoad(d, k, always);
        case OpDelete(k) => DeleteLoad(d, k, always);
      }
      RunLoad(Apply(d, ops[0]).0, ops[1..], always);
    }
  }

  /**
   * In any run of adds, replaces, finds and deletes from an empty dictionary with no safe iterator running, the
   * number of stored keys is at most six times the capacity of the table taking inserts; with growth enabled
   * throughout it exceeds that capacity by at most one: migrating one bucket per operation always keeps up.
   */
  lemma LoadBound<R, V>(ops: seq<Op<R, V>>, always: bool)
    requires forall i :: 0 <= i < |ops| ==> OrdinaryUse(ops[i], always)
    ensures var d := RunDict(Create<R, V>(), ops).0;
      |MapOf(d)| <= if always then |d.Target().buckets| + 1 else 6 * |d.Target().buckets|
  {
    CreateIsEmpty<R, V>();
    RunLoad(Create<R, V>(), ops, always);
    SizeIsUsed(RunDict(Create<R, V>(), ops).0);
    BusyBound(RunDict(Create<R, V>(), ops).0.ht0.buckets);
  }
}
