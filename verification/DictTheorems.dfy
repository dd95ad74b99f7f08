/**
 * What the hash table is for: it behaves as one finite map whatever the state of the migration,
 * migration steps compose and terminate, and the load of the table taking inserts stays bounded.
 */
module DictTheorems {
  import opened Options
  import opened Bits
  import opened DictModel

  // ----- the hash ------------------------------------------------------------------------

  /** Bernstein's polynomial in the bytes of a key, before any reduction. */
  function Bernstein(key: Key): nat {
    if key == [] then 5381 else Bernstein(key[..|key| - 1]) * 33 + key[|key| - 1] as int
  }

  lemma HashStepIs(h: nat, c: char)
    ensures HashStep(h % 0x1_0000_0000, c) == (h * 33 + c as int) % 0x1_0000_0000
  {
    ReduceFirst(h, 33, c as int, 0x1_0000_0000);
  }

  lemma {:induction false} HashFromSnoc(h: nat, key: Key, c: char)
    ensures HashFrom(h, key + [c]) == HashStep(HashFrom(h, key), c)
    decreases |key|
  {
    if key == [] {
      assert key + [c] == [c] && [c][1..] == [];
    } else {
      assert (key + [c])[1..] == key[1..] + [c];
      HashFromSnoc(HashStep(h, key[0]), key[1..], c);
    }
  }

  /** The hash is that polynomial, reduced once to 32 bits. */
  lemma {:induction false} HashIsBernstein(key: Key)
    ensures Hash(key) == Bernstein(key) % 0x1_0000_0000
    decreases |key|
  {
    if key != [] {
      var n := |key| - 1;
      HashIsBernstein(key[..n]);
      assert key == key[..n] + [key[n]];
      HashFromSnoc(5381, key[..n], key[n]);
      HashStepIs(Bernstein(key[..n]), key[n]);
    }
  }

  // ----- the finite map ------------------------------------------------------------------

  ghost function ChainKeys<R, V>(chain: seq<Cell<R, V>>): set<Key> {
    set j | 0 <= j < |chain| :: chain[j].key
  }

  ghost function KeysOf<R, V>(b: seq<seq<Cell<R, V>>>): set<Key> {
    set i, j | 0 <= i < |b| && 0 <= j < |b[i]| :: b[i][j].key
  }

  /** The abstract value of a dictionary. */
  ghost function MapOf<R, V>(d: Dict<R, V>): map<Key, V> {
    map k | k in KeysOf(d.ht0.buckets) + KeysOf(d.ht1.buckets) && Lookup(d, k).Some? :: Lookup(d, k).value.val
  }

  lemma KeysOfTable<R, V>(t: Table<R, V>)
    requires TableOK(t)
    ensures forall k :: k in KeysOf(t.buckets) <==> CellAt(t, k).Some?
  {
    forall k ensures k in KeysOf(t.buckets) <==> CellAt(t, k).Some? {
      if k in KeysOf(t.buckets) {
        var i, j :| 0 <= i < |t.buckets| && 0 <= j < |t.buckets[i]| && t.buckets[i][j].key == k;
        CellInBucket(t, i, j);
      }
      if CellAt(t, k).Some? {
        var chain := ChainOf(t, k);
        assert chain == t.buckets[t.slot(k)] && chain[Search(chain, k)].key == k;
      }
    }
  }

  /** The map holds exactly what a lookup finds. */
  lemma MapIsLookup<R, V>(d: Dict<R, V>, k: Key)
    requires Inv(d)
    ensures k in MapOf(d) <==> Lookup(d, k).Some?
    ensures k in MapOf(d) ==> MapOf(d)[k] == Lookup(d, k).value.val
  {
    KeysOfTable(d.ht0);
    KeysOfTable(d.ht1);
  }

  lemma {:induction false} ChainSize<R, V>(chain: seq<Cell<R, V>>)
    requires Distinct(chain)
    ensures |ChainKeys(chain)| == |chain|
  {
    if chain != [] {
      ChainSize(chain[1..]);
      assert ChainKeys(chain) == {chain[0].key} + ChainKeys(chain[1..]);
    }
  }

  lemma {:induction false} KeysSize<R, V>(b: seq<seq<Cell<R, V>>>)
    requires forall i :: 0 <= i < |b| ==> Distinct(b[i])
    requires forall i, i' :: 0 <= i < i' < |b| ==> ChainKeys(b[i]) !! ChainKeys(b[i'])
    ensures |KeysOf(b)| == Total(b)
  {
    if b != [] {
      var rest := b[1..];
      assert forall i :: 0 <= i < |rest| ==> rest[i] == b[i + 1];
      KeysSize(rest);
      ChainSize(b[0]);
      KeysOfFirst(b);
      forall k | k in KeysOf(rest) ensures k !in ChainKeys(b[0]) {
        var i, j :| 0 <= i < |rest| && 0 <= j < |rest[i]| && rest[i][j].key == k;
        assert k in ChainKeys(b[i + 1]);
      }
    }
  }

  lemma KeysOfFirst<R, V>(b: seq<seq<Cell<R, V>>>)
    requires b != []
    ensures KeysOf(b) == ChainKeys(b[0]) + KeysOf(b[1..])
  {
    forall k | k in KeysOf(b) ensures k in ChainKeys(b[0]) + KeysOf(b[1..]) {
      var i, j :| 0 <= i < |b| && 0 <= j < |b[i]| && b[i][j].key == k;
      if i > 0 { assert b[1..][i - 1][j].key == k; }
    }
  }

  lemma TableSize<R, V>(t: Table<R, V>)
    requires TableOK(t)
    ensures |KeysOf(t.buckets)| == t.used
  {
    forall i, i' | 0 <= i < i' < |t.buckets| ensures ChainKeys(t.buckets[i]) !! ChainKeys(t.buckets[i']) {}
    KeysSize(t.buckets);
  }

  lemma KeysOfMap<R, V>(d: Dict<R, V>)
    requires Inv(d)
    ensures MapOf(d).Keys == KeysOf(d.ht0.buckets) + KeysOf(d.ht1.buckets)
  {
    KeysOfTable(d.ht0);
    KeysOfTable(d.ht1);
    forall k | k in KeysOf(d.ht0.buckets) + KeysOf(d.ht1.buckets) ensures k in MapOf(d) {}
  }

  /** `dict_size`, the sum of the two `used` counters, is the number of keys. */
  lemma SizeIsUsed<R, V>(d: Dict<R, V>)
    requires Inv(d)
    ensures |MapOf(d)| == d.ht0.used + d.ht1.used
  {
    var a, b := KeysOf(d.ht0.buckets), KeysOf(d.ht1.buckets);
    KeysOfTable(d.ht0);
    KeysOfTable(d.ht1);
    TableSize(d.ht0);
    TableSize(d.ht1);
    assert a !! b;
    assert |a + b| == |a| + |b|;
    KeysOfMap(d);
    assert |MapOf(d)| == |MapOf(d).Keys|;
  }

  function Get<V>(m: map<Key, V>, k: Key): Option<V> {
    if k in m then Some(m[k]) else None
  }

  ghost function ValueOf<R, V>(o: Option<Cell<R, V>>): Option<V> {
    if o.Some? then Some(o.value.val) else None
  }

  lemma AllLookups<R, V>(d: Dict<R, V>)
    requires Inv(d)
    ensures forall k :: Get(MapOf(d), k) == ValueOf(Lookup(d, k))
  {
    forall k ensures Get(MapOf(d), k) == ValueOf(Lookup(d, k)) {
      MapIsLookup(d, k);
    }
  }

  lemma UpdatedGets<V>(m: map<Key, V>, n: map<Key, V>, k: Key, o: Option<V>)
    requires forall x :: Get(n, x) == if x == k then o else Get(m, x)
    ensures n == if o.Some? then m[k := o.value] else m - {k}
  {
    var u := if o.Some? then m[k := o.value] else m - {k};
    forall x ensures Get(n, x) == Get(u, x) {}
    SameGets(n, u);
  }

  lemma SameGets<V>(m: map<Key, V>, n: map<Key, V>)
    requires forall x :: Get(m, x) == Get(n, x)
    ensures m == n
  {
    forall x ensures x in m <==> x in n { assert Get(m, x) == Get(n, x); }
    forall x | x in m ensures m[x] == n[x] { assert Get(m, x) == Get(n, x); }
  }

  /** If one lookup changes to `o` and the others stay, so does the map. */
  lemma MapUpdated<R, V>(d: Dict<R, V>, e: Dict<R, V>, k: Key, o: Option<V>)
    requires Inv(d) && Inv(e)
    requires forall x :: ValueOf(Lookup(e, x)) == if x == k then o else ValueOf(Lookup(d, x))
    ensures MapOf(e) == if o.Some? then MapOf(d)[k := o.value] else MapOf(d) - {k}
  {
    AllLookups(d);
    AllLookups(e);
    UpdatedGets(MapOf(d), MapOf(e), k, o);
  }

  /** Nothing that only migrates or grows changes the map. */
  lemma SameLookupsSameMap<R, V>(d: Dict<R, V>, e: Dict<R, V>)
    requires Inv(d) && Inv(e) && SameLookups(d, e)
    ensures MapOf(e) == MapOf(d)
  {
    AllLookups(d);
    AllLookups(e);
    forall x ensures Get(MapOf(e), x) == Get(MapOf(d), x) {
      assert Lookup(e, x) == Lookup(d, x);
    }
    SameGets(MapOf(e), MapOf(d));
  }

  lemma CreateIsEmpty<R, V>()
    ensures Inv(Create<R, V>()) && MapOf(Create<R, V>()) == map[]
  {
    assert Inv(Create<R, V>());
  }

  lemma AddMap<R, V>(d: Dict<R, V>, r: R, k: Key, v: V, canResize: bool)
    requires Inv(d)
    ensures var (e, ok) := Add(d, r, k, v, canResize);
      && Inv(e) && ok == (k !in MapOf(d))
      && MapOf(e) == if k in MapOf(d) then MapOf(d) else MapOf(d)[k := v]
  {
    AddKeeps(d, r, k, v, canResize);
    MapIsLookup(d, k);
    var (e, ok) := Add(d, r, k, v, canResize);
    if ok { MapUpdated(d, e, k, Some(v)); } else { SameLookupsSameMap(d, e); }
  }

  /** The part of `dict_add` before the allocation leaves the map alone and tells whether the key is new. */
  lemma RoomMap<R, V>(d: Dict<R, V>, k: Key, canResize: bool)
    requires Inv(d)
    ensures var (e, ok) := Room(d, k, canResize); Inv(e) && ok == (k !in MapOf(d)) && MapOf(e) == MapOf(d)
  {
    StepKeeps(d);
    ExpandIfNeededKeeps(Step(d), canResize);
    MapIsLookup(d, k);
    SameLookupsSameMap(d, Room(d, k, canResize).0);
  }

  lemma ReplaceMap<R, V>(d: Dict<R, V>, r: R, k: Key, v: V, canResize: bool)
    requires Inv(d)
    ensures var (e, isNew) := Replace(d, r, k, v, canResize);
      Inv(e) && isNew == (k !in MapOf(d)) && MapOf(e) == MapOf(d)[k := v]
  {
    ReplaceKeeps(d, r, k, v, canResize);
    MapIsLookup(d, k);
    MapUpdated(d, Replace(d, r, k, v, canResize).0, k, Some(v));
  }

  lemma FindMap<R, V>(d: Dict<R, V>, k: Key)
    requires Inv(d)
    ensures var (e, c) := Find(d, k);
      && Inv(e) && MapOf(e) == MapOf(d)
      && (c.Some? <==> k in MapOf(d)) && (c.Some? ==> c.value.key == k && c.value.val == MapOf(d)[k])
  {
    FindKeeps(d, k);
    MapIsLookup(d, k);
    SameLookupsSameMap(d, Find(d, k).0);
  }

  /** The other half of `dict_replace`: the key is there, so it is found and overwritten. */
  lemma OverwriteMap<R, V>(d: Dict<R, V>, k: Key, v: V, canResize: bool)
    requires Inv(d) && !Room(d, k, canResize).1
    ensures var d2 := Find(Room(d, k, canResize).0, k).0;
      && Inv(d2) && Lookup(d2, k).Some? && k in MapOf(d)
      && Inv(SetVal(d2, k, v)) && MapOf(SetVal(d2, k, v)) == MapOf(d)[k := v]
    ensures forall r: R {:trigger Replace(d, r, k, v, canResize)} ::
              Replace(d, r, k, v, canResize) == (SetVal(Find(Room(d, k, canResize).0, k).0, k, v), false)
  {
    RoomMap(d, k, canResize);
    var d1 := Room(d, k, canResize).0;
    FindMap(d1, k);
    var d2 := Find(d1, k).0;
    MapIsLookup(d2, k);
    SetValKeeps(d2, k, v);
    MapUpdated(d2, SetVal(d2, k, v), k, Some(v));
  }

  /** The same, told from the state after the step. */
  lemma FindReply<R, V>(d: Dict<R, V>, e: Dict<R, V>, k: Key)
    requires Inv(d) && e == if d.ht0.buckets == [] then d else Step(d)
    ensures e == Find(d, k).0 && Inv(e) && MapOf(e) == MapOf(d)
    ensures Lookup(e, k).Some? <==> k in MapOf(e)
    ensures k in MapOf(e) ==> MapOf(e)[k] == Lookup(e, k).value.val
  {
    FindMap(d, k);
    MapIsLookup(e, k);
  }

  lemma DeleteMap<R, V>(d: Dict<R, V>, k: Key)
    requires Inv(d)
    ensures var (e, ok) := Delete(d, k);
      Inv(e) && ok == (k in MapOf(d)) && MapOf(e) == MapOf(d) - {k}
  {
    DeleteKeeps(d, k);
    MapIsLookup(d, k);
    MapUpdated(d, Delete(d, k).0, k, None);
  }

  lemma ExpandMap<R, V>(d: Dict<R, V>, size: nat)
    requires Inv(d)
    ensures Inv(Expand(d, size).0) && MapOf(Expand(d, size).0) == MapOf(d)
    ensures Expand(d, size).1 <==> !d.Rehashing() && d.ht0.used <= size
  {
    ExpandKeeps(d, size);
    SameLookupsSameMap(d, Expand(d, size).0);
  }

  lemma RehashMap<R, V>(d: Dict<R, V>, n: nat)
    requires Inv(d)
    ensures Inv(Rehash(d, n)) && MapOf(Rehash(d, n)) == MapOf(d)
  {
    RehashKeeps(d, n);
    SameLookupsSameMap(d, Rehash(d, n));
  }

  // ----- whole runs ----------------------------------------------------------------------

  datatype Op<R, V> =
    | OpAdd(r: R, k: Key, v: V, canResize: bool)
    | OpReplace(r: R, k: Key, v: V, canResize: bool)
    | OpFind(k: Key)
    | OpDelete(k: Key)
    | OpExpand(size: nat)
    | OpResize(canResize: bool)
    | OpRehash(n: nat)

  datatype Reply<V> = Done(ok: bool) | Found(v: Option<V>)

  ghost function Apply<R, V>(d: Dict<R, V>, op: Op<R, V>): (Dict<R, V>, Reply<V>) {
    match op
    case OpAdd(r, k, v, can) => var (e, ok) := Add(d, r, k, v, can); (e, Done(ok))
    case OpReplace(r, k, v, can) => var (e, ok) := Replace(d, r, k, v, can); (e, Done(ok))
    case OpFind(k) => var (e, c) := Find(d, k); (e, Found(if c.Some? then Some(c.value.val) else None))
    case OpDelete(k) => var (e, ok) := Delete(d, k); (e, Done(ok))
    case OpExpand(size) => (Expand(d, size).0, Done(true))
    case OpResize(can) => (Resize(d, can).0, Done(true))
    case OpRehash(n) => (Rehash(d, n), Done(true))
  }

  /** The same operations on a plain finite map. */
  ghost function ApplyMap<R, V>(m: map<Key, V>, op: Op<R, V>): (map<Key, V>, Reply<V>) {
    match op
    case OpAdd(_, k, v, _) => (if k in m then m else m[k := v], Done(k !in m))
    case OpReplace(_, k, v, _) => (m[k := v], Done(k !in m))
    case OpFind(k) => (m, Found(if k in m then Some(m[k]) else None))
    case OpDelete(k) => (m - {k}, Done(k in m))
    case _ => (m, Done(true))
  }

  ghost function RunDict<R, V>(d: Dict<R, V>, ops: seq<Op<R, V>>): (Dict<R, V>, seq<Reply<V>>)
    decreases |ops|
  {
    if ops == [] then (d, [])
    else
      var (e, reply) := Apply(d, ops[0]);
      var (f, replies) := RunDict(e, ops[1..]);
      (f, [reply] + replies)
  }

  ghost function RunMap<R, V>(m: map<Key, V>, ops: seq<Op<R, V>>): (map<Key, V>, seq<Reply<V>>)
    decreases |ops|
  {
    if ops == [] then (m, [])
    else
      var (e, reply) := ApplyMap(m, ops[0]);
      var (f, replies) := RunMap(e, ops[1..]);
      (f, [reply] + replies)
  }

  lemma ApplyRefines<R, V>(d: Dict<R, V>, op: Op<R, V>)
    requires Inv(d)
    ensures var (e, reply) := Apply(d, op); Inv(e) && (MapOf(e), reply) == ApplyMap(MapOf(d), op)
  {
    match op
    case OpAdd(r, k, v, can) => AddMap(d, r, k, v, can);
    case OpReplace(r, k, v, can) => ReplaceMap(d, r, k, v, can);
    case OpFind(k) => FindMap(d, k);
    case OpDelete(k) => DeleteMap(d, k);
    case OpExpand(size) => ExpandMap(d, size);
    case OpResize(can) => ExpandMap(d, if d.ht0.used < 4 then 4 else d.ht0.used);
    case OpRehash(n) => RehashMap(d, n);
  }

  /**
   * From any sound state, every run of operations answers exactly as a finite map does and ends
   * in a sound state holding that map, whatever migrations happen on the way.
   */
  lemma {:induction false} RunRefinesMap<R, V>(d: Dict<R, V>, ops: seq<Op<R, V>>)
    requires Inv(d)
    ensures var (e, replies) := RunDict(d, ops); Inv(e) && (MapOf(e), replies) == RunMap(MapOf(d), ops)
    decreases |ops|
  {
    if ops != [] {
      ApplyRefines(d, ops[0]);
      RunRefinesMap(Apply(d, ops[0]).0, ops[1..]);
    }
  }
}
