/**
 * The incrementally rehashed hash table as a value: two arrays of chains, the migration index
 * and the count of running safe iterators. Every operation of the C code is a function here;
 * module `Dicts` proves the pointer implementation equal to these functions.
 *
 * A `Cell` is one entry. `ref` is the entry's identity (its address), which a value does not
 * otherwise have and which the iteration properties are about.
 */
module DictModel {
  import opened Bits
  import opened Options

  type Key = string  // the bytes of a key

  datatype Cell<R, V> = Cell(ref: R, key: Key, val: V)

  /**
   * `dictht`. No buckets at all stands for `table == NULL`; `slot` stands for `sizemask`: it is the
   * function `hash & sizemask` of the table (see `HashSlots`).
   */
  datatype Table<R, V> = Table(buckets: seq<seq<Cell<R, V>>>, used: int, slot: Key -> nat)

  datatype Dict<R, V> = Dict(ht0: Table<R, V>, ht1: Table<R, V>, rehashidx: int, iterators: int) {
    predicate Rehashing() { rehashidx != -1 }

    /** The table that takes inserts. */
    function Target(): Table<R, V> { if Rehashing() then ht1 else ht0 }
  }

  // ----- hashing -------------------------------------------------------------------------

  /** One step of the 32-bit Bernstein hash: `((hash << 5) + hash) + c`. */
  function HashStep(h: nat, c: char): nat {
    (h * 33 + c as int) % 0x1_0000_0000
  }

  function HashFrom(h: nat, key: Key): nat
    decreases |key|
  {
    if key == [] then h else HashFrom(HashStep(h, key[0]), key[1..])
  }

  function Hash(key: Key): nat { HashFrom(5381, key) }

  /** `hash & sizemask`. */
  function Slot(key: Key, size: nat): (i: nat)
    requires size > 0
    ensures i < size
  {
    BitAnd(Hash(key), size - 1)
  }

  // ----- one table -----------------------------------------------------------------------

  function NoTable<R, V>(): Table<R, V> { Table([], 0, k => 0) }

  function NewTable<R, V>(size: nat): Table<R, V> {
    Table(seq(size, _ => []), 0, k => if size > 0 then Slot(k, size) else 0)
  }

  /** Position of the first cell of the chain holding `k`, or the chain's length. */
  function Search<R, V>(chain: seq<Cell<R, V>>, k: Key): (j: nat)
    ensures j <= |chain|
    ensures forall i :: 0 <= i < j ==> chain[i].key != k
    ensures j < |chain| ==> chain[j].key == k
  {
    if chain == [] || chain[0].key == k then 0 else 1 + Search(chain[1..], k)
  }

  function ChainOf<R, V>(t: Table<R, V>, k: Key): seq<Cell<R, V>> {
    if t.slot(k) < |t.buckets| then t.buckets[t.slot(k)] else []
  }

  function FindIn<R, V>(chain: seq<Cell<R, V>>, k: Key): Option<Cell<R, V>> {
    var j := Search(chain, k);
    if j < |chain| then Some(chain[j]) else None
  }

  function CellAt<R, V>(t: Table<R, V>, k: Key): Option<Cell<R, V>> {
    FindIn(ChainOf(t, k), k)
  }

  /** Replace the chain that `k` hashes to, changing the entry count by `delta`. */
  function SetChain<R, V>(t: Table<R, V>, k: Key, chain: seq<Cell<R, V>>, delta: int): (r: Table<R, V>)
    ensures |r.buckets| == |t.buckets|
  {
    if t.slot(k) < |t.buckets| then t.(buckets := t.buckets[t.slot(k) := chain], used := t.used + delta) else t
  }

  /** Insert at the head of the chain. */
  function Push<R, V>(t: Table<R, V>, c: Cell<R, V>): Table<R, V> {
    SetChain(t, c.key, [c] + ChainOf(t, c.key), 1)
  }

  /** Unlink the cell holding `k`. */
  function Unlink<R, V>(t: Table<R, V>, k: Key): Table<R, V>
    requires CellAt(t, k).Some?
  {
    var chain := ChainOf(t, k);
    var j := Search(chain, k);
    SetChain(t, k, chain[..j] + chain[j + 1..], -1)
  }

  /** Overwrite the value in the cell holding `k`. */
  function PutVal<R, V>(t: Table<R, V>, k: Key, v: V): Table<R, V>
    requires CellAt(t, k).Some?
  {
    var chain := ChainOf(t, k);
    var j := Search(chain, k);
    SetChain(t, k, chain[j := chain[j].(val := v)], 0)
  }

  /** Move the cells of a chain, head first, to the heads of their chains in `t`. */
  function PushAll<R, V>(t: Table<R, V>, chain: seq<Cell<R, V>>): (r: Table<R, V>)
    ensures |r.buckets| == |t.buckets|
    decreases |chain|
  {
    if chain == [] then t else PushAll(Push(t, chain[0]), chain[1..])
  }

  /** First non-empty bucket at or after `i`, or the number of buckets. */
  function NextBusy<R, V>(b: seq<seq<Cell<R, V>>>, i: nat): (r: nat)
    requires i <= |b|
    ensures i <= r <= |b|
    ensures forall j :: i <= j < r ==> b[j] == []
    ensures r < |b| ==> b[r] != []
    decreases |b| - i
  {
    if i == |b| || b[i] != [] then i else NextBusy(b, i + 1)
  }

  // ----- the dictionary's operations -----------------------------------------------------

  function Create<R, V>(): Dict<R, V> { Dict(NoTable(), NoTable(), -1, 0) }

  function Expand<R, V>(d: Dict<R, V>, size: nat): (Dict<R, V>, bool) {
    if d.Rehashing() || d.ht0.used > size then (d, false)
    else if d.ht0.buckets == [] then (d.(ht0 := NewTable(NextPower(size))), true)
    else (d.(ht1 := NewTable(NextPower(size)), rehashidx := 0), true)
  }

  function Resize<R, V>(d: Dict<R, V>, canResize: bool): (Dict<R, V>, bool) {
    if !canResize || d.Rehashing() then (d, false)
    else Expand(d, if d.ht0.used < 4 then 4 else d.ht0.used)
  }

  /** The bucket the scan of `dict_rehash` stops at. */
  function ScanStop<R, V>(d: Dict<R, V>): nat {
    if 0 <= d.rehashidx <= |d.ht0.buckets| then NextBusy(d.ht0.buckets, d.rehashidx) else |d.ht0.buckets|
  }

  /**
   * One pass of the loop in `dict_rehash`: finish, or move one bucket. (The middle branch would be
   * a scan past the end of the table; `ScanStaysInside` shows that the invariant rules it out.)
   */
  function RehashOne<R, V>(d: Dict<R, V>): Dict<R, V> {
    var i := ScanStop(d);
    if d.ht0.used == 0 then Dict(d.ht1, NoTable(), -1, d.iterators)
    else if i == |d.ht0.buckets| || d.ht1.buckets == [] then d
    else
      var chain := d.ht0.buckets[i];
      Dict(d.ht0.(buckets := d.ht0.buckets[i := []], used := d.ht0.used - |chain|), PushAll(d.ht1, chain),
           i + 1, d.iterators)
  }

  /** `dict_rehash(d, n)`; it returns 1 exactly when the result is still rehashing. */
  function Rehash<R, V>(d: Dict<R, V>, n: nat): Dict<R, V>
    decreases n
  {
    if n == 0 || !d.Rehashing() then d else Rehash(RehashOne(d), n - 1)
  }

  /** `_dict_rehash_step`: one step, unless a safe iterator is running. */
  function Step<R, V>(d: Dict<R, V>): Dict<R, V> {
    if d.iterators == 0 then Rehash(d, 1) else d
  }

  function Lookup<R, V>(d: Dict<R, V>, k: Key): Option<Cell<R, V>> {
    if CellAt(d.ht0, k).Some? then CellAt(d.ht0, k)
    else if d.Rehashing() then CellAt(d.ht1, k) else None
  }

  function ExpandIfNeeded<R, V>(d: Dict<R, V>, canResize: bool): (Dict<R, V>, bool) {
    var size, used := |d.ht0.buckets|, d.ht0.used;
    if d.Rehashing() then (d, true)
    else if size == 0 then Expand(d, 4)
    else if used >= size && (canResize || used / size > 5) then
      Expand(d, (if size > used then size else used) * 2)
    else (d, true)
  }

  function WithTarget<R, V>(d: Dict<R, V>, t: Table<R, V>): Dict<R, V> {
    if d.Rehashing() then d.(ht1 := t) else d.(ht0 := t)
  }

  /** The part of `dict_add` before the allocation: step, grow, and look whether the key is there. */
  function Room<R, V>(d: Dict<R, V>, k: Key, canResize: bool): (r: (Dict<R, V>, bool))
    ensures r.1 ==> r.0.Target().buckets != []
  {
    var (d2, ok) := ExpandIfNeeded(Step(d), canResize);
    (d2, ok && Lookup(d2, k).None? && d2.Target().buckets != [])
  }

  /** `dict_add`; `r` is the address the new entry would get. */
  function Add<R, V>(d: Dict<R, V>, r: R, k: Key, v: V, canResize: bool): (Dict<R, V>, bool) {
    var (d2, ok) := Room(d, k, canResize);
    (if ok then WithTarget(d2, Push(d2.Target(), Cell(r, k, v))) else d2, ok)
  }

  function Find<R, V>(d: Dict<R, V>, k: Key): (Dict<R, V>, Option<Cell<R, V>>) {
    if d.ht0.buckets == [] then (d, None) else (Step(d), Lookup(Step(d), k))
  }

  /** Write a value into the entry that a lookup of `k` returns. */
  function SetVal<R, V>(d: Dict<R, V>, k: Key, v: V): Dict<R, V> {
    if CellAt(d.ht0, k).Some? then d.(ht0 := PutVal(d.ht0, k, v))
    else if CellAt(d.ht1, k).Some? then d.(ht1 := PutVal(d.ht1, k, v)) else d
  }

  /** `dict_replace`: add, or else find and overwrite. True when the key was new. */
  function Replace<R, V>(d: Dict<R, V>, r: R, k: Key, v: V, canResize: bool): (Dict<R, V>, bool) {
    var (d1, added) := Add(d, r, k, v, canResize);
    if added then (d1, true) else (SetVal(Find(d1, k).0, k, v), false)
  }

  function Delete<R, V>(d: Dict<R, V>, k: Key): (Dict<R, V>, bool) {
    if d.ht0.buckets == [] then (d, false)
    else
      var d1 := Step(d);
      if CellAt(d1.ht0, k).Some? then (d1.(ht0 := Unlink(d1.ht0, k)), true)
      else if d1.Rehashing() && CellAt(d1.ht1, k).Some? then (d1.(ht1 := Unlink(d1.ht1, k)), true)
      else (d1, false)
  }

  // ----- the invariant -------------------------------------------------------------------

  ghost function Total<R, V>(b: seq<seq<Cell<R, V>>>): nat {
    if b == [] then 0 else |b[0]| + Total(b[1..])
  }

  ghost predicate Distinct<R, V>(chain: seq<Cell<R, V>>) {
    forall i, j :: 0 <= i < j < |chain| ==> chain[i].key != chain[j].key
  }

  /** Buckets are chosen by `hash & sizemask`. */
  ghost predicate HashSlots<R, V>(t: Table<R, V>)
    requires t.buckets != []
  {
    && (forall k :: t.slot(k) < |t.buckets|)
    && (forall k {:trigger Slot(k, |t.buckets|)} :: t.slot(k) == Slot(k, |t.buckets|))
  }

  /** Every entry is in its own bucket, no key twice, the count is right, the capacity a power of two. */
  ghost predicate TableOK<R, V>(t: Table<R, V>) {
    && (t.buckets != [] ==> IsPow2(|t.buckets|) && HashSlots(t))
    && (forall i :: 0 <= i < |t.buckets| ==> Distinct(t.buckets[i]))
    && (forall i, j :: 0 <= i < |t.buckets| && 0 <= j < |t.buckets[i]| ==>
          t.slot(t.buckets[i][j].key) == i)
    && t.used == Total(t.buckets)
  }

  ghost predicate Disjoint<R, V>(t: Table<R, V>, u: Table<R, V>) {
    forall k :: CellAt(t, k).Some? ==> CellAt(u, k).None?
  }

  ghost predicate Inv<R, V>(d: Dict<R, V>) {
    && TableOK(d.ht0) && TableOK(d.ht1) && Disjoint(d.ht0, d.ht1)
    && (if d.Rehashing() then
          && d.ht0.buckets != [] && d.ht1.buckets != []
          && 0 <= d.rehashidx <= |d.ht0.buckets|
          && (forall i :: 0 <= i < d.rehashidx ==> d.ht0.buckets[i] == [])
        else d.ht1 == NoTable())
  }

  // ----- counting lemmas -----------------------------------------------------------------

  lemma {:induction false} TotalUpdate<R, V>(b: seq<seq<Cell<R, V>>>, i: nat, x: seq<Cell<R, V>>)
    requires i < |b|
    ensures Total(b[i := x]) == Total(b) - |b[i]| + |x|
  {
    if i == 0 {
      assert b[0 := x][1..] == b[1..];
    } else {
      assert b[i := x][1..] == b[1..][i - 1 := x];
      TotalUpdate(b[1..], i - 1, x);
    }
  }

  lemma {:induction false} TotalZero<R, V>(b: seq<seq<Cell<R, V>>>)
    ensures Total(b) == 0 <==> forall i :: 0 <= i < |b| ==> b[i] == []
  {
    if b != [] {
      TotalZero(b[1..]);
      if forall i :: 0 <= i < |b[1..]| ==> b[1..][i] == [] {
        forall i | 1 <= i < |b| ensures b[i] == [] { assert b[i] == b[1..][i - 1]; }
      }
    }
  }

  /** While entries remain, the scan for a non-empty bucket stays inside the table. */
  lemma BusyBucketExists<R, V>(b: seq<seq<Cell<R, V>>>, from: nat)
    requires from <= |b| && Total(b) > 0
    requires forall i :: 0 <= i < from ==> b[i] == []
    ensures NextBusy(b, from) < |b|
  {
    TotalZero(b);
    var i :| 0 <= i < |b| && b[i] != [];
  }

  // ----- one table keeps its invariant ---------------------------------------------------

  lemma FoundAt<R, V>(chain: seq<Cell<R, V>>, j: nat)
    requires Distinct(chain) && j < |chain|
    ensures FindIn(chain, chain[j].key) == Some(chain[j])
  {
  }

  lemma CellInBucket<R, V>(t: Table<R, V>, i: nat, j: nat)
    requires TableOK(t) && i < |t.buckets| && j < |t.buckets[i]|
    ensures CellAt(t, t.buckets[i][j].key) == Some(t.buckets[i][j])
  {
    var c := t.buckets[i][j];
    assert t.slot(c.key) == i && Distinct(t.buckets[i]);
    FoundAt(t.buckets[i], j);
  }

  /** Lookups after one chain has been replaced. */
  lemma SetChainAt<R, V>(t: Table<R, V>, k: Key, chain: seq<Cell<R, V>>, delta: int, x: Key)
    requires t.slot(k) < |t.buckets| && t.slot(x) < |t.buckets|
    ensures CellAt(SetChain(t, k, chain, delta), x) == if t.slot(x) == t.slot(k) then FindIn(chain, x) else CellAt(t, x)
  {
  }

  lemma SlotsInside<R, V>(t: Table<R, V>)
    requires TableOK(t) && t.buckets != []
    ensures forall k :: t.slot(k) < |t.buckets|
  {
  }

  lemma SetChainOK<R, V>(t: Table<R, V>, k: Key, chain: seq<Cell<R, V>>, delta: int)
    requires TableOK(t) && t.buckets != []
    requires Distinct(chain)
    requires forall j :: 0 <= j < |chain| ==> t.slot(chain[j].key) == t.slot(k)
    requires delta == |chain| - |ChainOf(t, k)|
    ensures TableOK(SetChain(t, k, chain, delta))
  {
    TotalUpdate(t.buckets, t.slot(k), chain);
  }

  lemma PushOK<R, V>(t: Table<R, V>, c: Cell<R, V>)
    requires TableOK(t) && t.buckets != [] && CellAt(t, c.key).None?
    ensures TableOK(Push(t, c))
    ensures forall k :: CellAt(Push(t, c), k) == if k == c.key then Some(c) else CellAt(t, k)
  {
    SetChainOK(t, c.key, [c] + ChainOf(t, c.key), 1);
    SlotsInside(t);
    PushFinds(t, c);
  }

  lemma PushFinds<R, V>(t: Table<R, V>, c: Cell<R, V>)
    requires forall k :: t.slot(k) < |t.buckets|
    ensures forall k :: CellAt(Push(t, c), k) == if k == c.key then Some(c) else CellAt(t, k)
  {
    var chain := [c] + ChainOf(t, c.key);
    assert chain[1..] == ChainOf(t, c.key);
    forall k ensures CellAt(Push(t, c), k) == if k == c.key then Some(c) else CellAt(t, k) {
      SetChainAt(t, c.key, chain, 1, k);
      assert FindIn(chain, k) == if k == c.key then Some(c) else FindIn(chain[1..], k);
    }
  }

  lemma FindWithout<R, V>(chain: seq<Cell<R, V>>, j: nat, k: Key)
    requires Distinct(chain) && j < |chain|
    ensures var rest := chain[..j] + chain[j + 1..];
      && Distinct(rest)
      && FindIn(rest, k) == if k == chain[j].key then None else FindIn(chain, k)
  {
    var rest := chain[..j] + chain[j + 1..];
    var b := Search(rest, k);
    assert forall i :: 0 <= i < j ==> chain[i] == rest[i];
    assert forall i :: j < i < |chain| ==> chain[i] == rest[i - 1];
    if b < |rest| {
      FoundAt(chain, if b < j then b else b + 1);
    }
  }

  lemma FindOverwritten<R, V>(chain: seq<Cell<R, V>>, j: nat, v: V, k: Key)
    requires Distinct(chain) && j < |chain|
    ensures var c := chain[j].(val := v);
      && Distinct(chain[j := c])
      && FindIn(chain[j := c], k) == if k == c.key then Some(c) else FindIn(chain, k)
  {
    var after := chain[j := chain[j].(val := v)];
    var a, b := Search(chain, k), Search(after, k);
    if b < |after| { FoundAt(chain, b); FoundAt(after, b); }
    if a < |chain| { FoundAt(chain, a); assert after[a].key == k; FoundAt(after, a); }
  }

  /** As many buckets, and empty ones still empty. */
  ghost predicate SameShape<R, V>(t: Table<R, V>, u: Table<R, V>) {
    && |u.buckets| == |t.buckets|
    && forall i :: 0 <= i < |t.buckets| && t.buckets[i] == [] ==> u.buckets[i] == []
  }

  lemma UnlinkOK<R, V>(t: Table<R, V>, x: Key)
    requires TableOK(t) && CellAt(t, x).Some?
    ensures TableOK(Unlink(t, x)) && SameShape(t, Unlink(t, x))
    ensures forall k :: CellAt(Unlink(t, x), k) == if k == x then None else CellAt(t, k)
  {
    var chain := ChainOf(t, x);
    var j := Search(chain, x);
    FindWithout(chain, j, x);
    SetChainOK(t, x, chain[..j] + chain[j + 1..], -1);
    SlotsInside(t);
    UnlinkFinds(t, x);
  }

  lemma UnlinkFinds<R, V>(t: Table<R, V>, x: Key)
    requires CellAt(t, x).Some? && Distinct(ChainOf(t, x)) && forall k :: t.slot(k) < |t.buckets|
    ensures forall k :: CellAt(Unlink(t, x), k) == if k == x then None else CellAt(t, k)
  {
    var chain := ChainOf(t, x);
    var j := Search(chain, x);
    forall k ensures CellAt(Unlink(t, x), k) == if k == x then None else CellAt(t, k) {
      SetChainAt(t, x, chain[..j] + chain[j + 1..], -1, k);
      FindWithout(chain, j, k);
    }
  }

  lemma PutValOK<R, V>(t: Table<R, V>, x: Key, v: V)
    requires TableOK(t) && CellAt(t, x).Some?
    ensures TableOK(PutVal(t, x, v)) && SameShape(t, PutVal(t, x, v))
    ensures forall k :: CellAt(PutVal(t, x, v), k) ==
                        if k == x then Some(CellAt(t, x).value.(val := v)) else CellAt(t, k)
  {
    var chain := ChainOf(t, x);
    var j := Search(chain, x);
    FindOverwritten(chain, j, v, x);
    SetChainOK(t, x, chain[j := chain[j].(val := v)], 0);
    forall k ensures CellAt(PutVal(t, x, v), k) ==
                     if k == x then Some(CellAt(t, x).value.(val := v)) else CellAt(t, k) {
      FindOverwritten(chain, j, v, k);
    }
  }

  lemma {:induction false} PushAllOK<R, V>(t: Table<R, V>, chain: seq<Cell<R, V>>)
    requires TableOK(t) && t.buckets != [] && Distinct(chain)
    requires forall j :: 0 <= j < |chain| ==> CellAt(t, chain[j].key).None?
    ensures TableOK(PushAll(t, chain))
    ensures PushAll(t, chain).used == t.used + |chain|
    ensures forall k :: CellAt(PushAll(t, chain), k) ==
                        if FindIn(chain, k).Some? then FindIn(chain, k) else CellAt(t, k)
    decreases |chain|
  {
    if chain != [] {
      PushOK(t, chain[0]);
      PushAllOK(Push(t, chain[0]), chain[1..]);
    }
  }

  // ----- the dictionary keeps its invariant, and migration changes no lookup -------------

  ghost predicate SameLookups<R, V>(d: Dict<R, V>, e: Dict<R, V>) {
    forall k :: Lookup(e, k) == Lookup(d, k)
  }

  lemma EmptyBuckets<R, V>(n: nat)
    requires IsPow2(n)
    ensures TableOK(NewTable<R, V>(n))
    ensures forall k :: CellAt(NewTable<R, V>(n), k).None?
  {
    TotalZero(NewTable<R, V>(n).buckets);
  }

  lemma ExpandKeeps<R, V>(d: Dict<R, V>, size: nat)
    requires Inv(d)
    ensures Inv(Expand(d, size).0) && SameLookups(d, Expand(d, size).0)
  {
    NextPowerIsLeast(size);
    EmptyBuckets<R, V>(NextPower(size));
  }

  /** Emptying bucket `i` removes exactly that bucket's keys. */
  lemma ClearBucketOK<R, V>(t: Table<R, V>, i: nat)
    requires TableOK(t) && i < |t.buckets|
    ensures var u := t.(buckets := t.buckets[i := []], used := t.used - |t.buckets[i]|);
      && TableOK(u)
      && forall k :: CellAt(u, k) == if FindIn(t.buckets[i], k).Some? then None else CellAt(t, k)
  {
    TotalUpdate(t.buckets, i, []);
  }

  /** Moving the keys of one chain from `t` to `u` keeps the two apart and loses none. */
  lemma MoveLookups<R, V>(t: Table<R, V>, u: Table<R, V>, t': Table<R, V>, u': Table<R, V>, chain: seq<Cell<R, V>>)
    requires Disjoint(t, u)
    requires forall k :: FindIn(chain, k).Some? ==> CellAt(t, k) == FindIn(chain, k)
    requires forall k :: CellAt(t', k) == if FindIn(chain, k).Some? then None else CellAt(t, k)
    requires forall k :: CellAt(u', k) == if FindIn(chain, k).Some? then FindIn(chain, k) else CellAt(u, k)
    ensures Disjoint(t', u')
    ensures forall k :: (if CellAt(t', k).Some? then CellAt(t', k) else CellAt(u', k))
                     == (if CellAt(t, k).Some? then CellAt(t, k) else CellAt(u, k))
  {
    forall k ensures CellAt(t', k).Some? ==> CellAt(u', k).None? { assert CellAt(t, k).Some? ==> CellAt(u, k).None?; }
  }

  /** While entries remain in the old table, the bucket scan of `dict_rehash` stops inside it. */
  lemma ScanStaysInside<R, V>(d: Dict<R, V>)
    requires Inv(d) && d.Rehashing() && d.ht0.used != 0
    ensures ScanStop(d) < |d.ht0.buckets| && d.ht0.buckets[ScanStop(d)] != []
  {
    BusyBucketExists(d.ht0.buckets, d.rehashidx);
  }

  lemma MoveBucketKeeps<R, V>(d: Dict<R, V>)
    requires Inv(d) && d.Rehashing() && d.ht0.used != 0
    ensures Inv(RehashOne(d)) && SameLookups(d, RehashOne(d))
  {
    ScanStaysInside(d);
    var i := ScanStop(d);
    var chain := d.ht0.buckets[i];
    forall k | FindIn(chain, k).Some? ensures CellAt(d.ht0, k) == FindIn(chain, k) {
      CellInBucket(d.ht0, i, Search(chain, k));
    }
    forall j | 0 <= j < |chain| ensures CellAt(d.ht1, chain[j].key).None? { CellInBucket(d.ht0, i, j); }
    PushAllOK(d.ht1, chain);
    ClearBucketOK(d.ht0, i);
    MoveLookups(d.ht0, d.ht1, RehashOne(d).ht0, RehashOne(d).ht1, chain);
  }

  /** The inner loop of `dict_rehash`: move the first cell of bucket `i` of the old table. */
  ghost function MoveCell<R, V>(d: Dict<R, V>, i: nat): Dict<R, V>
    requires i < |d.ht0.buckets| && d.ht0.buckets[i] != [] && d.ht1.buckets != []
  {
    var chain := d.ht0.buckets[i];
    d.(ht0 := d.ht0.(buckets := d.ht0.buckets[i := chain[1..]], used := d.ht0.used - 1), ht1 := Push(d.ht1, chain[0]))
  }

  /** The whole inner loop. */
  ghost function MoveCells<R, V>(d: Dict<R, V>, i: nat): Dict<R, V>
    requires i < |d.ht0.buckets| && d.ht1.buckets != []
    decreases |d.ht0.buckets[i]|
  {
    if d.ht0.buckets[i] == [] then d else MoveCells(MoveCell(d, i), i)
  }

  lemma {:induction false} MoveCellsIs<R, V>(d: Dict<R, V>, i: nat)
    requires i < |d.ht0.buckets| && d.ht1.buckets != []
    ensures var chain := d.ht0.buckets[i];
      MoveCells(d, i) == d.(ht0 := d.ht0.(buckets := d.ht0.buckets[i := []], used := d.ht0.used - |chain|),
                            ht1 := PushAll(d.ht1, chain))
    decreases |d.ht0.buckets[i]|
  {
    if d.ht0.buckets[i] == [] {
      assert d.ht0.buckets[i := []] == d.ht0.buckets;
    } else {
      MoveCellsIs(MoveCell(d, i), i);
    }
  }

  lemma PopBucketOK<R, V>(t: Table<R, V>, i: nat, c: Cell<R, V>) returns (u: Table<R, V>)
    requires TableOK(t) && i < |t.buckets| && t.buckets[i] != [] && c == t.buckets[i][0]
    ensures u == t.(buckets := t.buckets[i := t.buckets[i][1..]], used := t.used - 1)
    ensures TableOK(u) && CellAt(t, c.key) == Some(c)
    ensures forall k :: CellAt(u, k) == if k == c.key then None else CellAt(t, k)
  {
    CellInBucket(t, i, 0);
    UnlinkOK(t, c.key);
    UnlinkIsPop(t, i, t.buckets[i], c);
    u := Unlink(t, c.key);
  }

  lemma UnlinkIsPop<R, V>(t: Table<R, V>, i: nat, chain: seq<Cell<R, V>>, c: Cell<R, V>)
    requires i < |t.buckets| && chain == t.buckets[i] && chain != [] && chain[0] == c
    requires i == t.slot(c.key) && Search(chain, c.key) == 0
    ensures Unlink(t, c.key) == t.(buckets := t.buckets[i := chain[1..]], used := t.used - 1)
  {
    assert chain[..0] + chain[1..] == chain[1..];
  }

  lemma MoveCellKeeps<R, V>(d: Dict<R, V>, i: nat)
    requires Inv(d) && d.Rehashing() && i < |d.ht0.buckets| && d.ht0.buckets[i] != []
    ensures Inv(MoveCell(d, i))
  {
    var c := d.ht0.buckets[i][0];
    var t := PopBucketOK(d.ht0, i, c);
    OnlyInFirst(d, c.key);
    PushOK(d.ht1, c);
    MovedOneKeeps(d, t, Push(d.ht1, c), c, i);
  }

  lemma OnlyInFirst<R, V>(d: Dict<R, V>, k: Key)
    requires Inv(d) && CellAt(d.ht0, k).Some?
    ensures CellAt(d.ht1, k).None?
  {
  }

  lemma MovedOneKeeps<R, V>(d: Dict<R, V>, t: Table<R, V>, u: Table<R, V>, c: Cell<R, V>, i: nat)
    requires Inv(d) && d.Rehashing() && TableOK(t) && TableOK(u) && u.buckets != []
    requires |t.buckets| == |d.ht0.buckets|
    requires forall x :: 0 <= x < |t.buckets| && d.ht0.buckets[x] == [] ==> t.buckets[x] == []
    requires forall k :: CellAt(t, k) == if k == c.key then None else CellAt(d.ht0, k)
    requires forall k :: CellAt(u, k) == if k == c.key then Some(c) else CellAt(d.ht1, k)
    ensures Inv(d.(ht0 := t, ht1 := u))
  {
    forall k | CellAt(t, k).Some? ensures CellAt(u, k).None? { assert CellAt(d.ht1, k).None?; }
  }

  /** No other cell holds the key of cell `j` of bucket `i` of the old table. */
  lemma FirstKeyOnlyHere<R, V>(d: Dict<R, V>, i: nat, j: nat)
    requires Inv(d) && i < |d.ht0.buckets| && j < |d.ht0.buckets[i]|
    ensures forall x, y :: 0 <= x < |d.ht0.buckets| && 0 <= y < |d.ht0.buckets[x]| && (x != i || y != j) ==>
              d.ht0.buckets[x][y].key != d.ht0.buckets[i][j].key
    ensures forall x, y :: 0 <= x < |d.ht1.buckets| && 0 <= y < |d.ht1.buckets[x]| ==>
              d.ht1.buckets[x][y].key != d.ht0.buckets[i][j].key
  {
    CellInBucket(d.ht0, i, j);
    forall x, y | 0 <= x < |d.ht1.buckets| && 0 <= y < |d.ht1.buckets[x]|
      ensures d.ht1.buckets[x][y].key != d.ht0.buckets[i][j].key {
      CellInBucket(d.ht1, x, y);
    }
  }

  /** The same for the new table. */
  lemma SecondKeyOnlyHere<R, V>(d: Dict<R, V>, i: nat, j: nat)
    requires Inv(d) && i < |d.ht1.buckets| && j < |d.ht1.buckets[i]|
    ensures forall x, y :: 0 <= x < |d.ht1.buckets| && 0 <= y < |d.ht1.buckets[x]| && (x != i || y != j) ==>
              d.ht1.buckets[x][y].key != d.ht1.buckets[i][j].key
    ensures forall x, y :: 0 <= x < |d.ht0.buckets| && 0 <= y < |d.ht0.buckets[x]| ==>
              d.ht0.buckets[x][y].key != d.ht1.buckets[i][j].key
  {
    CellInBucket(d.ht1, i, j);
    forall x, y | 0 <= x < |d.ht0.buckets| && 0 <= y < |d.ht0.buckets[x]|
      ensures d.ht0.buckets[x][y].key != d.ht1.buckets[i][j].key {
      CellInBucket(d.ht0, x, y);
    }
  }

  lemma RehashOneKeeps<R, V>(d: Dict<R, V>)
    requires Inv(d) && d.Rehashing()
    ensures Inv(RehashOne(d)) && SameLookups(d, RehashOne(d))
    ensures RehashOne(d).iterators == d.iterators
  {
    if d.ht0.used != 0 {
      MoveBucketKeeps(d);
    } else {
      TotalZero(d.ht0.buckets);
      forall k ensures CellAt(d.ht0, k).None? {}
    }
  }

  lemma {:induction false} RehashKeeps<R, V>(d: Dict<R, V>, n: nat)
    requires Inv(d)
    ensures Inv(Rehash(d, n)) && SameLookups(d, Rehash(d, n))
    ensures Rehash(d, n).iterators == d.iterators
    decreases n
  {
    if n > 0 && d.Rehashing() {
      RehashOneKeeps(d);
      RehashKeeps(RehashOne(d), n - 1);
    }
  }

  lemma StepKeeps<R, V>(d: Dict<R, V>)
    requires Inv(d)
    ensures Inv(Step(d)) && SameLookups(d, Step(d))
    ensures d.ht0.buckets != [] ==> Step(d).ht0.buckets != []
  {
    RehashKeeps(d, 1);
  }

  /** Growth on insert never fails and leaves a table to insert into. */
  lemma ExpandIfNeededKeeps<R, V>(d: Dict<R, V>, canResize: bool)
    requires Inv(d)
    ensures var (e, ok) := ExpandIfNeeded(d, canResize);
      Inv(e) && SameLookups(d, e) && ok && e.Target().buckets != []
  {
    var size, used := |d.ht0.buckets|, d.ht0.used;
    ExpandKeeps(d, 4);
    if used >= 0 { ExpandKeeps(d, (if size > used then size else used) * 2); }
    NextPowerIsLeast(4);
    if size == 0 { TotalZero(d.ht0.buckets); }
  }

  /** Inserting into the target table a key found in neither. */
  lemma InsertKeeps<R, V>(d: Dict<R, V>, t: Table<R, V>, c: Cell<R, V>)
    requires Inv(d) && Lookup(d, c.key).None?
    requires TableOK(t) && t.buckets != []
    requires forall k :: CellAt(t, k) == if k == c.key then Some(c) else CellAt(d.Target(), k)
    ensures Inv(WithTarget(d, t))
    ensures forall k :: Lookup(WithTarget(d, t), k) == if k == c.key then Some(c) else Lookup(d, k)
  {
    if d.Rehashing() {
      forall k | CellAt(d.ht0, k).Some? ensures CellAt(t, k).None? { assert CellAt(d.ht1, k).None?; }
    } else {
      assert forall k :: CellAt(d.ht1, k).None?;
    }
  }

  lemma AddKeeps<R, V>(d: Dict<R, V>, r: R, k: Key, v: V, canResize: bool)
    requires Inv(d)
    ensures var (e, ok) := Add(d, r, k, v, canResize);
      && Inv(e)
      && ok == Lookup(d, k).None?
      && forall x :: Lookup(e, x) == if x == k && ok then Some(Cell(r, k, v)) else Lookup(d, x)
  {
    StepKeeps(d);
    ExpandIfNeededKeeps(Step(d), canResize);
    var d2 := ExpandIfNeeded(Step(d), canResize).0;
    if Lookup(d2, k).None? {
      PushOK(d2.Target(), Cell(r, k, v));
      InsertKeeps(d2, Push(d2.Target(), Cell(r, k, v)), Cell(r, k, v));
    }
  }

  /** Replacing the tables by ones with no new keys keeps the invariant. */
  lemma ShrinkKeeps<R, V>(d: Dict<R, V>, t: Table<R, V>, u: Table<R, V>)
    requires Inv(d) && TableOK(t) && TableOK(u)
    requires SameShape(d.ht0, t) && SameShape(d.ht1, u)
    requires d.Rehashing() || u == d.ht1
    requires forall k :: CellAt(t, k).Some? ==> CellAt(d.ht0, k).Some?
    requires forall k :: CellAt(u, k).Some? ==> CellAt(d.ht1, k).Some?
    ensures Inv(d.(ht0 := t, ht1 := u))
  {
    forall k | CellAt(t, k).Some? ensures CellAt(u, k).None? { assert CellAt(d.ht1, k).None?; }
  }

  /** Overwriting (`o == Some`) or unlinking (`o == None`) the cell of `k` in the first table. */
  lemma ChangeFirstKeeps<R, V>(d: Dict<R, V>, t: Table<R, V>, k: Key, o: Option<Cell<R, V>>)
    requires Inv(d) && TableOK(t) && SameShape(d.ht0, t) && CellAt(d.ht0, k).Some?
    requires forall x :: CellAt(t, x) == if x == k then o else CellAt(d.ht0, x)
    ensures Inv(d.(ht0 := t))
    ensures forall x :: Lookup(d.(ht0 := t), x) == if x == k then o else Lookup(d, x)
  {
    assert CellAt(d.ht1, k).None?;
    ShrinkKeeps(d, t, d.ht1);
  }

  /** The same in the second table. */
  lemma ChangeSecondKeeps<R, V>(d: Dict<R, V>, u: Table<R, V>, k: Key, o: Option<Cell<R, V>>)
    requires Inv(d) && d.Rehashing() && TableOK(u) && SameShape(d.ht1, u) && CellAt(d.ht1, k).Some?
    requires forall x :: CellAt(u, x) == if x == k then o else CellAt(d.ht1, x)
    ensures Inv(d.(ht1 := u))
    ensures forall x :: Lookup(d.(ht1 := u), x) == if x == k then o else Lookup(d, x)
  {
    ShrinkKeeps(d, d.ht0, u);
    assert CellAt(d.ht0, k).None?;
  }

  lemma SetValKeeps<R, V>(d: Dict<R, V>, k: Key, v: V)
    requires Inv(d) && Lookup(d, k).Some?
    ensures Inv(SetVal(d, k, v))
    ensures forall x :: Lookup(SetVal(d, k, v), x) ==
                        if x == k then Some(Lookup(d, k).value.(val := v)) else Lookup(d, x)
  {
    var o := Some(Lookup(d, k).value.(val := v));
    if CellAt(d.ht0, k).Some? {
      PutValOK(d.ht0, k, v);
      ChangeFirstKeeps(d, PutVal(d.ht0, k, v), k, o);
    } else {
      PutValOK(d.ht1, k, v);
      ChangeSecondKeeps(d, PutVal(d.ht1, k, v), k, o);
    }
  }

  lemma FindKeeps<R, V>(d: Dict<R, V>, k: Key)
    requires Inv(d)
    ensures var (e, c) := Find(d, k); Inv(e) && SameLookups(d, e) && c == Lookup(d, k)
  {
    StepKeeps(d);
  }

  lemma ReplaceKeeps<R, V>(d: Dict<R, V>, r: R, k: Key, v: V, canResize: bool)
    requires Inv(d)
    ensures var (e, isNew) := Replace(d, r, k, v, canResize);
      && Inv(e)
      && isNew == Lookup(d, k).None?
      && forall x :: Lookup(e, x) ==
           if x != k then Lookup(d, x)
           else if isNew then Some(Cell(r, k, v)) else Some(Lookup(d, k).value.(val := v))
  {
    AddKeeps(d, r, k, v, canResize);
    var (d1, added) := Add(d, r, k, v, canResize);
    if !added {
      FindKeeps(d1, k);
      SetValKeeps(Find(d1, k).0, k, v);
    }
  }

  lemma DeleteKeeps<R, V>(d: Dict<R, V>, k: Key)
    requires Inv(d)
    ensures var (e, ok) := Delete(d, k);
      && Inv(e)
      && ok == Lookup(d, k).Some?
      && forall x :: Lookup(e, x) == if x == k then None else Lookup(d, x)
  {
    StepKeeps(d);
    var d1 := Step(d);
    assert Lookup(d1, k) == Lookup(d, k);
    if d.ht0.buckets == [] {
    } else if CellAt(d1.ht0, k).Some? {
      UnlinkOK(d1.ht0, k);
      ChangeFirstKeeps(d1, Unlink(d1.ht0, k), k, None);
    } else if d1.Rehashing() && CellAt(d1.ht1, k).Some? {
      UnlinkOK(d1.ht1, k);
      ChangeSecondKeeps(d1, Unlink(d1.ht1, k), k, None);
    }
  }
}
