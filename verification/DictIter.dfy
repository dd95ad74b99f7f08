/**
 * Iteration while the dictionary changes. A safe iterator freezes migration from its first
 * `dict_next` on; the theorem is that it then returns every entry present at the start and not
 * deleted exactly once, whatever finds, adds, replaces, deletes and expansions happen in between.
 */
module DictIter {
  import opened Options
  import opened DictModel

  /** `dict_iterator`; entries are known by address. */
  datatype Iter<R> = Iter(table: int, index: int, safe: bool, entry: Option<R>, next: Option<R>)

  function NewIter<R>(safe: bool): Iter<R> { Iter(0, -1, safe, None, None) }

  function Buckets<R, V>(d: Dict<R, V>, table: int): seq<seq<Cell<R, V>>> {
    if table == 0 then d.ht0.buckets else d.ht1.buckets
  }

  /** Position of an entry in its chain, or the chain's length. */
  function RefPos<R(==), V>(chain: seq<Cell<R, V>>, r: R): (j: nat)
    ensures j <= |chain|
    ensures forall i :: 0 <= i < j ==> chain[i].ref != r
    ensures j < |chain| ==> chain[j].ref == r
  {
    if chain == [] || chain[0].ref == r then 0 else 1 + RefPos(chain[1..], r)
  }

  /** Return cell `j` of the chain, remembering its successor. */
  function Yield<R, V>(it: Iter<R>, chain: seq<Cell<R, V>>, j: nat): (Iter<R>, Option<Cell<R, V>>)
    requires j < |chain|
  {
    (it.(entry := Some(chain[j].ref), next := if j + 1 < |chain| then Some(chain[j + 1].ref) else None),
     Some(chain[j]))
  }

  function ScanTable<R, V>(b: seq<seq<Cell<R, V>>>, it: Iter<R>): (Iter<R>, Option<Cell<R, V>>) {
    var from := it.index + 1;
    var i := if 0 <= from <= |b| then NextBusy(b, from) else from;
    if 0 <= i < |b| then Yield(it.(index := i), b[i], 0) else (it.(index := i), None)
  }

  /** The part of `dict_next` that runs when the current chain is used up. */
  function Scan<R, V>(d: Dict<R, V>, it: Iter<R>): (Iter<R>, Option<Cell<R, V>>) {
    var first := ScanTable(Buckets(d, it.table), it.(entry := None));
    if first.1.None? && d.Rehashing() && it.table == 0
    then ScanTable(d.ht1.buckets, it.(table := 1, index := -1, entry := None))
    else first
  }

  /** One turn of the loop in `dict_next`: skip an empty bucket, yield, cross to the second table, or stop. */
  lemma ScanTurn<R, V>(d: Dict<R, V>, it: Iter<R>)
    requires it.entry.None? && it.index >= -1
    ensures var b := Buckets(d, it.table); var i := it.index + 1;
      if i >= |b| then
        if d.Rehashing() && it.table == 0 then Scan(d, it) == Scan(d, it.(table := 1, index := -1))
        else Scan(d, it) == (it.(index := i), None)
      else if b[i] == [] then Scan(d, it) == Scan(d, it.(index := i))
      else Scan(d, it) == Yield(it.(index := i), b[i], 0)
  {
    assert it.(entry := None) == it;
  }

  /**
   * Where the turn moves to: the next bucket, the second table's first at the end of the first during
   * migration, or out.
   */
  ghost function Move<R, V>(d: Dict<R, V>, it: Iter<R>): (bool, Iter<R>) {
    var i := it.index + 1;
    if i < |Buckets(d, it.table)| then (true, it.(index := i))
    else if d.Rehashing() && it.table == 0 then (true, it.(table := 1, index := 0))
    else (false, it.(index := i))
  }

  /** What the scan comes to, seen from there. */
  lemma MoveScan<R, V>(d: Dict<R, V>, it: Iter<R>)
    requires it.entry.None? && it.index >= -1 && it.table in {0, 1} && (d.Rehashing() ==> d.ht1.buckets != [])
    ensures var (inside, to) := Move(d, it);
      && (!inside ==> Scan(d, it) == (to, None))
      && (inside ==> to.index < |Buckets(d, to.table)|
                     && var chain := Buckets(d, to.table)[to.index];
                        Scan(d, it) == if chain == [] then Scan(d, to) else Yield(to, chain, 0))
  {
    ScanTurn(d, it);
    if it.index + 1 >= |Buckets(d, it.table)| && d.Rehashing() && it.table == 0 {
      ScanTurn(d, it.(table := 1, index := -1));
    }
  }

  /** The first `dict_next` of a safe iterator registers it. */
  function Register<R, V>(d: Dict<R, V>, it: Iter<R>): Dict<R, V> {
    if it.entry.None? && it.safe && it.index == -1 && it.table == 0
    then d.(iterators := d.iterators + 1) else d
  }

  /** First bucket whose chain has an entry at that address, or the number of buckets. */
  function FindRef<R(==), V>(b: seq<seq<Cell<R, V>>>, r: R): (i: nat)
    ensures i <= |b| && (i < |b| ==> RefPos(b[i], r) < |b[i]|)
    ensures forall k :: 0 <= k < i ==> RefPos(b[k], r) == |b[k]|
  {
    if b == [] || RefPos(b[0], r) < |b[0]| then 0 else FindRef(b[1..], r) + 1
  }

  /** The chain that an entry is in now, whichever table it has moved to. */
  function ChainWith<R(==), V>(d: Dict<R, V>, r: R): seq<Cell<R, V>> {
    var i, j := FindRef(d.ht0.buckets, r), FindRef(d.ht1.buckets, r);
    if i < |d.ht0.buckets| then d.ht0.buckets[i] else if j < |d.ht1.buckets| then d.ht1.buckets[j] else []
  }

  /** The saved successor, where it is now; none only if it is in neither table any more. */
  function Chase<R(==), V>(d: Dict<R, V>, it: Iter<R>, r: R): (Iter<R>, Option<Cell<R, V>>) {
    var chain := ChainWith(d, r);
    if RefPos(chain, r) < |chain| then Yield(it, chain, RefPos(chain, r)) else (it, None)
  }

  /**
   * `dict_next`: a saved successor is followed wherever it is. For a safe iterator that is always the chain the
   * iterator stands in (`WellPlaced`); a plain one can find it moved to the second table.
   */
  function Next<R(==), V>(d: Dict<R, V>, it: Iter<R>): (Iter<R>, Option<Cell<R, V>>) {
    var chain := if 0 <= it.index < |Buckets(d, it.table)| then Buckets(d, it.table)[it.index] else [];
    if it.entry.None? || it.next.None? then Scan(d, it)
    else if RefPos(chain, it.next.value) < |chain| then Yield(it, chain, RefPos(chain, it.next.value))
    else Chase(d, it, it.next.value)
  }

  lemma NextScans<R, V>(d: Dict<R, V>, it: Iter<R>)
    requires it.entry.None? || it.next.None?
    ensures Next(d, it) == Scan(d, it.(entry := None))
  {
  }

  /** `dict_release_iterator`. */
  function Release<R, V>(d: Dict<R, V>, it: Iter<R>): Dict<R, V> {
    if it.safe && !(it.index == -1 && it.table == 0) then d.(iterators := d.iterators - 1) else d
  }

  /** The iterator stands in a bucket that exists, and the entry it saved is still in that bucket's chain. */
  ghost predicate WellPlaced<R, V>(d: Dict<R, V>, it: Iter<R>) {
    && it.table in {0, 1} && it.index >= -1
    && (it.table == 1 ==> d.Rehashing())
    && (it.entry.Some? ==> 0 <= it.index < |Buckets(d, it.table)|)
    && (it.entry.Some? && it.next.Some? ==>
          var chain := Buckets(d, it.table)[it.index]; RefPos(chain, it.next.value) < |chain|)
  }

  // ----- entries still to come -----------------------------------------------------------

  ghost function ChainRefs<R, V>(chain: seq<Cell<R, V>>): set<R> {
    set j | 0 <= j < |chain| :: chain[j].ref
  }

  ghost function RefsFrom<R, V>(b: seq<seq<Cell<R, V>>>, from: int): set<R> {
    set i, j | 0 <= i < |b| && from <= i && 0 <= j < |b[i]| :: b[i][j].ref
  }

  ghost function Suffix<R, V>(chain: seq<Cell<R, V>>, next: Option<R>): set<R> {
    if next.None? then {} else ChainRefs(chain[RefPos(chain, next.value)..])
  }

  ghost function PendingIn<R, V>(b: seq<seq<Cell<R, V>>>, it: Iter<R>): set<R> {
    (if it.entry.Some? && 0 <= it.index < |b| then Suffix(b[it.index], it.next) else {}) + RefsFrom(b, it.index + 1)
  }

  /** Addresses of the entries a frozen dictionary would still return. */
  ghost function Pending<R, V>(d: Dict<R, V>, it: Iter<R>): set<R> {
    if it.table == 0 then PendingIn(d.ht0.buckets, it) + RefsFrom(d.ht1.buckets, 0)
    else PendingIn(d.ht1.buckets, it)
  }

  ghost function AllRefs<R, V>(d: Dict<R, V>): set<R> {
    RefsFrom(d.ht0.buckets, 0) + RefsFrom(d.ht1.buckets, 0)
  }

  /** `keyOf` records the key of every entry ever allocated, so one address is one entry. */
  ghost predicate OwnedTable<R, V>(b: seq<seq<Cell<R, V>>>, keyOf: map<R, Key>) {
    forall i, j :: 0 <= i < |b| && 0 <= j < |b[i]| ==> b[i][j].ref in keyOf && keyOf[b[i][j].ref] == b[i][j].key
  }

  ghost predicate Owned<R, V>(d: Dict<R, V>, keyOf: map<R, Key>) {
    OwnedTable(d.ht0.buckets, keyOf) && OwnedTable(d.ht1.buckets, keyOf)
  }

  /** What `dict_next` needs: the successor saved, if any, is still an entry of the dictionary. */
  ghost predicate Placed<R, V>(d: Dict<R, V>, it: Iter<R>) {
    it.table in {0, 1} && it.index >= -1 && (it.entry.Some? && it.next.Some? ==> it.next.value in AllRefs(d))
  }

  lemma WellPlacedIsPlaced<R, V>(d: Dict<R, V>, it: Iter<R>)
    requires WellPlaced(d, it)
    ensures Placed(d, it)
  {
    if it.entry.Some? && it.next.Some? {
      var chain := Buckets(d, it.table)[it.index];
      assert chain[RefPos(chain, it.next.value)].ref == it.next.value;
    }
  }

  /** An entry is found where it is. */
  lemma Located<R, V>(d: Dict<R, V>, r: R) returns (w: nat, i: nat)
    requires r in AllRefs(d)
    ensures w < 2 && i < |Buckets(d, w)| && ChainWith(d, r) == Buckets(d, w)[i]
    ensures RefPos(ChainWith(d, r), r) < |ChainWith(d, r)|
  {
    i := FindRef(d.ht0.buckets, r);
    w := if i < |d.ht0.buckets| then 0 else 1;
    if w == 1 {
      i := FindRef(d.ht1.buckets, r);
      var x, y :| 0 <= x < |d.ht1.buckets| && 0 <= y < |d.ht1.buckets[x]| && d.ht1.buckets[x][y].ref == r;
      assert RefPos(d.ht1.buckets[x], r) <= y;
    }
  }

  /** The saved successor is returned from wherever it is now. */
  lemma SavedCell<R, V>(d: Dict<R, V>, it: Iter<R>) returns (w: nat, i: nat, j: nat)
    requires Placed(d, it) && it.entry.Some? && it.next.Some?
    ensures w < 2 && i < |Buckets(d, w)| && j < |Buckets(d, w)[i]| && Buckets(d, w)[i][j].ref == it.next.value
    ensures Next(d, it) == Yield(it, Buckets(d, w)[i], j)
  {
    var r := it.next.value;
    w, i := it.table, if it.index < 0 then 0 else it.index;
    if !(0 <= it.index < |Buckets(d, w)| && RefPos(Buckets(d, w)[i], r) < |Buckets(d, w)[i]|) {
      w, i := Located(d, r);
    }
    j := RefPos(Buckets(d, w)[i], r);
  }

  // ----- what one dict_next does ---------------------------------------------------------

  lemma OnePlace<R, V>(t: Table<R, V>, keyOf: map<R, Key>, i: nat, j: nat, i': nat, j': nat)
    requires TableOK(t) && OwnedTable(t.buckets, keyOf)
    requires i < |t.buckets| && j < |t.buckets[i]| && i' < |t.buckets| && j' < |t.buckets[i']|
    requires t.buckets[i][j].ref == t.buckets[i'][j'].ref
    ensures i == i' && j == j'
  {
    assert t.buckets[i][j].key == t.buckets[i'][j'].key;
  }

  /** Yielding cell `j` of bucket `it.index` leaves pending exactly what follows it in this table. */
  lemma YieldPending<R, V>(t: Table<R, V>, keyOf: map<R, Key>, it: Iter<R>, j: nat)
    requires TableOK(t) && OwnedTable(t.buckets, keyOf)
    requires 0 <= it.index < |t.buckets| && j < |t.buckets[it.index]|
    ensures var b := t.buckets; var chain := b[it.index]; var it' := Yield(it, chain, j).0;
      && PendingIn(b, it') == ChainRefs(chain[j..]) + RefsFrom(b, it.index + 1) - {chain[j].ref}
      && (it'.next.Some? ==> RefPos(chain, it'.next.value) == j + 1)
  {
    var b := t.buckets;
    var chain := b[it.index];
    var it' := Yield(it, chain, j).0;
    if it'.next.Some? {
      var p := RefPos(chain, it'.next.value);
      OnePlace(t, keyOf, it.index, p, it.index, j + 1);
    }
    assert Suffix(chain, it'.next) == ChainRefs(chain[j + 1..]) by {
      if it'.next.None? { assert chain[j + 1..] == []; }
    }
    assert ChainRefs(chain[j..]) == {chain[j].ref} + ChainRefs(chain[j + 1..]) by {
      assert chain[j..][1..] == chain[j + 1..];
      assert chain[j..][0] == chain[j];
      forall r | r in ChainRefs(chain[j..]) ensures r in {chain[j].ref} + ChainRefs(chain[j + 1..]) {
        var q :| 0 <= q < |chain[j..]| && chain[j..][q].ref == r;
        if q > 0 { assert chain[j + 1..][q - 1].ref == r; }
      }
      forall r | r in ChainRefs(chain[j + 1..]) ensures r in ChainRefs(chain[j..]) {
        var q :| 0 <= q < |chain[j + 1..]| && chain[j + 1..][q].ref == r;
        assert chain[j..][q + 1].ref == r;
      }
    }
    assert chain[j].ref !in ChainRefs(chain[j + 1..]);
    assert chain[j].ref !in RefsFrom(b, it.index + 1);
  }

  lemma RefsFromBusy<R, V>(b: seq<seq<Cell<R, V>>>, from: nat, i: nat)
    requires from <= i <= |b| && forall x :: from <= x < i ==> b[x] == []
    ensures i < |b| ==> RefsFrom(b, from) == ChainRefs(b[i]) + RefsFrom(b, i + 1)
    ensures i == |b| ==> RefsFrom(b, from) == {}
  {
    if i < |b| {
      forall r | r in RefsFrom(b, from) ensures r in ChainRefs(b[i]) + RefsFrom(b, i + 1) {
        var x, j :| 0 <= x < |b| && from <= x && 0 <= j < |b[x]| && b[x][j].ref == r;
      }
      forall r | r in ChainRefs(b[i]) ensures r in RefsFrom(b, from) {
        var j :| 0 <= j < |b[i]| && b[i][j].ref == r;
      }
    }
  }

  lemma ScanTablePending<R, V>(t: Table<R, V>, keyOf: map<R, Key>, it: Iter<R>)
    requires TableOK(t) && OwnedTable(t.buckets, keyOf) && it.entry.None? && it.index >= -1
    ensures var b := t.buckets; var (it', c) := ScanTable(b, it);
      && it'.index >= 0 && it'.table == it.table && it'.safe == it.safe
      && (c.None? ==> RefsFrom(b, it.index + 1) == {} && it'.entry.None? && it'.index >= |b|)
      && (c.Some? ==>
            && it'.entry == Some(c.value.ref) && it'.index < |b|
            && (it'.next.Some? ==> RefPos(b[it'.index], it'.next.value) < |b[it'.index]|)
            && c.value.ref in RefsFrom(b, it.index + 1)
            && PendingIn(b, it') == RefsFrom(b, it.index + 1) - {c.value.ref})
  {
    var b := t.buckets;
    var from := it.index + 1;
    if from <= |b| {
      var i := NextBusy(b, from);
      RefsFromBusy(b, from, i);
      if i < |b| {
        YieldPending(t, keyOf, it.(index := i), 0);
        assert b[i][0..] == b[i];
        var chain: seq<Cell<R, V>> := b[i];
        assert chain[0].ref in ChainRefs(chain);
      }
    }
  }

  lemma FirstNotInSecond<R, V>(d: Dict<R, V>, keyOf: map<R, Key>, i: nat, j: nat)
    requires Inv(d) && Owned(d, keyOf) && i < |d.ht0.buckets| && j < |d.ht0.buckets[i]|
    ensures d.ht0.buckets[i][j].ref !in RefsFrom(d.ht1.buckets, 0)
  {
    var r := d.ht0.buckets[i][j].ref;
    if r in RefsFrom(d.ht1.buckets, 0) {
      var i', j' :| 0 <= i' < |d.ht1.buckets| && 0 <= j' < |d.ht1.buckets[i']| && d.ht1.buckets[i'][j'].ref == r;
      CellInBucket(d.ht0, i, j);
      CellInBucket(d.ht1, i', j');
    }
  }

  ghost predicate NextOK<R, V>(d: Dict<R, V>, it: Iter<R>, it': Iter<R>, c: Option<Cell<R, V>>) {
    && WellPlaced(d, it') && it'.safe == it.safe && it'.index >= 0
    && (c.None? ==> Pending(d, it) == {} && Pending(d, it') == {})
    && (c.Some? ==> it'.entry == Some(c.value.ref) && c.value.ref in Pending(d, it)
                    && Pending(d, it') == Pending(d, it) - {c.value.ref})
  }

  lemma NextInChain<R, V>(d: Dict<R, V>, keyOf: map<R, Key>, it: Iter<R>)
    requires Inv(d) && Owned(d, keyOf) && WellPlaced(d, it) && it.entry.Some? && it.next.Some?
    ensures NextOK(d, it, Next(d, it).0, Next(d, it).1)
  {
    var t := if it.table == 0 then d.ht0 else d.ht1;
    var chain := t.buckets[it.index];
    var j := RefPos(chain, it.next.value);
    YieldPending(t, keyOf, it, j);
    assert chain[j..][0] == chain[j];
    assert chain[j].ref in ChainRefs(chain[j..]);
    if it.table == 0 { FirstNotInSecond(d, keyOf, it.index, j); }
  }

  lemma MinusPlus<R>(a: set<R>, rest: set<R>, r: R)
    requires r !in rest
    ensures a - {r} + rest == a + rest - {r}
  {
  }

  /** The scan stops in the first table. */
  lemma NextInFirst<R, V>(d: Dict<R, V>, keyOf: map<R, Key>, it: Iter<R>)
    requires Inv(d) && Owned(d, keyOf) && WellPlaced(d, it) && (it.entry.None? || it.next.None?)
    requires it.table == 0 && ScanTable(d.ht0.buckets, it.(entry := None)).1.Some?
    ensures NextOK(d, it, Scan(d, it).0, Scan(d, it).1)
  {
    var (it', c) := ScanTable(d.ht0.buckets, it.(entry := None));
    ScanTablePending(d.ht0, keyOf, it.(entry := None));
    assert PendingIn(d.ht0.buckets, it) == RefsFrom(d.ht0.buckets, it.index + 1);
    assert d.ht0.buckets[it'.index][0] == c.value;
    FirstNotInSecond(d, keyOf, it'.index, 0);
    MinusPlus(RefsFrom(d.ht0.buckets, it.index + 1), RefsFrom(d.ht1.buckets, 0), c.value.ref);
  }

  /** Or in the second. */
  lemma NextInSecond<R, V>(d: Dict<R, V>, keyOf: map<R, Key>, it: Iter<R>)
    requires Inv(d) && Owned(d, keyOf) && WellPlaced(d, it) && (it.entry.None? || it.next.None?)
    requires it.table == 1 && ScanTable(d.ht1.buckets, it.(entry := None)).1.Some?
    ensures NextOK(d, it, Scan(d, it).0, Scan(d, it).1)
  {
    ScanTablePending(d.ht1, keyOf, it.(entry := None));
    assert PendingIn(d.ht1.buckets, it) == RefsFrom(d.ht1.buckets, it.index + 1);
  }

  /** The first table is through, and the scan goes on in the second. */
  lemma NextCrossing<R, V>(d: Dict<R, V>, keyOf: map<R, Key>, it: Iter<R>)
    requires Inv(d) && Owned(d, keyOf) && WellPlaced(d, it) && (it.entry.None? || it.next.None?)
    requires ScanTable(Buckets(d, it.table), it.(entry := None)).1.None? && d.Rehashing() && it.table == 0
    ensures NextOK(d, it, Scan(d, it).0, Scan(d, it).1)
  {
    ScanTablePending(d.ht0, keyOf, it.(entry := None));
    assert PendingIn(d.ht0.buckets, it) == {};
    ScanTablePending(d.ht1, keyOf, it.(table := 1, index := -1, entry := None));
  }

  /** Both are through. */
  lemma NextEnds<R, V>(d: Dict<R, V>, keyOf: map<R, Key>, it: Iter<R>)
    requires Inv(d) && Owned(d, keyOf) && WellPlaced(d, it) && (it.entry.None? || it.next.None?)
    requires ScanTable(Buckets(d, it.table), it.(entry := None)).1.None? && !(d.Rehashing() && it.table == 0)
    ensures NextOK(d, it, Scan(d, it).0, Scan(d, it).1)
  {
    var t := if it.table == 0 then d.ht0 else d.ht1;
    ScanTablePending(t, keyOf, it.(entry := None));
    assert PendingIn(t.buckets, it) == {};
    assert RefsFrom(d.ht1.buckets, 0) == {} || it.table == 1;
  }

  /**
   * One `dict_next`: it returns a pending entry and leaves the others pending,
   * or returns NULL, and then nothing is pending.
   */
  lemma NextPending<R, V>(d: Dict<R, V>, keyOf: map<R, Key>, it: Iter<R>)
    requires Inv(d) && Owned(d, keyOf) && WellPlaced(d, it)
    ensures NextOK(d, it, Next(d, it).0, Next(d, it).1)
  {
    if it.entry.Some? && it.next.Some? { NextInChain(d, keyOf, it); }
    else if ScanTable(Buckets(d, it.table), it.(entry := None)).1.Some? {
      if it.table == 0 { NextInFirst(d, keyOf, it); } else { NextInSecond(d, keyOf, it); }
    }
    else if d.Rehashing() && it.table == 0 { NextCrossing(d, keyOf, it); }
    else { NextEnds(d, keyOf, it); }
  }
}
