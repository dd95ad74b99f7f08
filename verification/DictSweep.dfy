/**
 * Emptying a dictionary through a plain (not safe) iterator, deleting each entry as it is returned,
 * as `clean_proccess` does with the table of waiting processes.
 */
module DictSweep {
  import opened Options
  import opened DictModel
  import opened DictTheorems
  import opened DictIter
  import opened DictSafeIter

  /** No migration is under way and everything left is still ahead of the iterator. */
  ghost predicate Sweepable<R, V>(d: Dict<R, V>, it: Iter<R>, keyOf: map<R, Key>) {
    Inv(d) && Owned(d, keyOf) && !d.Rehashing() && WellPlaced(d, it) && AllRefs(d) <= Pending(d, it)
  }

  lemma NextIsPending<R, V>(d: Dict<R, V>, it: Iter<R>)
    requires WellPlaced(d, it) && it.entry.Some? && it.next.Some?
    ensures it.next.value in Pending(d, it)
  {
    var chain := Buckets(d, it.table)[it.index];
    var suffix := chain[RefPos(chain, it.next.value)..];
    assert suffix[0].ref == it.next.value;
    assert it.next.value in ChainRefs(suffix);
  }

  lemma PendingHasCell<R, V>(d: Dict<R, V>, it: Iter<R>, keyOf: map<R, Key>)
    requires Inv(d) && Owned(d, keyOf) && !d.Rehashing() && WellPlaced(d, it)
    ensures var c := Next(d, it).1; c.Some? ==> CellAt(d.ht0, c.value.key) == c
  {
    var (it', c) := Next(d, it);
    if c.Some? {
      NextStandsAt(d, it);
      CellInBucket(d.ht0, it'.index, RefPos(d.ht0.buckets[it'.index], c.value.ref));
    }
  }

  /** The entry returned is in the bucket where the iterator stands. */
  lemma NextStandsAt<R, V>(d: Dict<R, V>, it: Iter<R>)
    requires Inv(d) && !d.Rehashing() && WellPlaced(d, it)
    ensures var (it', c) := Next(d, it);
      c.Some? ==> 0 <= it'.index < |d.ht0.buckets|
                  && var chain := d.ht0.buckets[it'.index];
                     RefPos(chain, c.value.ref) < |chain| && chain[RefPos(chain, c.value.ref)] == c.value
  {
  }

  lemma DeleteWhenIdle<R, V>(d: Dict<R, V>, k: Key)
    requires Inv(d) && !d.Rehashing() && CellAt(d.ht0, k).Some?
    ensures Delete(d, k) == (d.(ht0 := Unlink(d.ht0, k)), true)
  {
  }

  /** A cell that unlinking leaves was there before and is not the one unlinked. */
  lemma CellLeft<R, V>(t: Table<R, V>, keyOf: map<R, Key>, c: Cell<R, V>, i: nat, j: nat)
    requires TableOK(t) && OwnedTable(t.buckets, keyOf) && CellAt(t, c.key) == Some(c)
    requires i < |Unlink(t, c.key).buckets| && j < |Unlink(t, c.key).buckets[i]|
    ensures Unlink(t, c.key).buckets[i][j].ref in RefsFrom(t.buckets, 0) - {c.ref}
  {
    var left := Unlink(t, c.key).buckets[i][j];
    UnlinkOK(t, c.key);
    CellInBucket(Unlink(t, c.key), i, j);
    var chain := ChainOf(t, c.key);
    assert chain[Search(chain, c.key)] == c;
    var j' := UnlinkedWasThere(t, c.key, i, j);
    assert t.buckets[i][j'].ref in RefsFrom(t.buckets, 0);
    assert keyOf[left.ref] == left.key != c.key == keyOf[c.ref];
  }

  /** Unlinking removes exactly the entry with that key. */
  lemma UnlinkedRefs<R, V>(d: Dict<R, V>, keyOf: map<R, Key>, c: Cell<R, V>)
    requires Inv(d) && Owned(d, keyOf) && !d.Rehashing() && CellAt(d.ht0, c.key) == Some(c)
    ensures AllRefs(d.(ht0 := Unlink(d.ht0, c.key))) <= AllRefs(d) - {c.ref}
  {
    var b: seq<seq<Cell<R, V>>> := Unlink(d.ht0, c.key).buckets;
    forall i, j | 0 <= i < |b| && 0 <= j < |b[i]| ensures b[i][j].ref in RefsFrom(d.ht0.buckets, 0) - {c.ref} {
      CellLeft(d.ht0, keyOf, c, i, j);
    }
  }

  /** Unlinking the entry just returned leaves the rest ahead. */
  lemma RestAhead<R, V>(d: Dict<R, V>, it: Iter<R>, keyOf: map<R, Key>, c: Cell<R, V>)
    requires Inv(d) && Owned(d, keyOf) && !d.Rehashing() && WellPlaced(d, it) && it.entry == Some(c.ref)
    requires CellAt(d.ht0, c.key) == Some(c) && AllRefs(d) <= Pending(d, it) + {c.ref} && c.ref !in Pending(d, it)
    ensures var e := d.(ht0 := Unlink(d.ht0, c.key));
      Owned(e, keyOf) && WellPlaced(e, it) && AllRefs(e) <= Pending(e, it)
  {
    if it.next.Some? { NextIsPending(d, it); }
    UnlinkPending(d, d.(ht0 := Unlink(d.ht0, c.key)), it, keyOf, 0, c.key);
    UnlinkedRefs(d, keyOf, c);
  }

  /** One turn of the loop: the key returned goes, and the rest is still ahead. */
  lemma SweepTurn<R, V>(d: Dict<R, V>, it: Iter<R>, keyOf: map<R, Key>)
    requires Sweepable(d, it, keyOf) && Next(d, it).1.Some?
    ensures var (it', c) := Next(d, it); var k := c.value.key; var e := Delete(d, k).0;
      Sweepable(e, it', keyOf) && k in MapOf(d) && MapOf(e) == MapOf(d) - {k}
  {
    NextPending(d, keyOf, it);
    PendingHasCell(d, it, keyOf);
    var (it', c) := Next(d, it);
    DeleteMap(d, c.value.key);
    DeleteWhenIdle(d, c.value.key);
    RestAhead(d, it', keyOf, c.value);
  }

  lemma UnlinkedWasThere<R, V>(t: Table<R, V>, k: Key, i: nat, j: nat) returns (j': nat)
    requires CellAt(t, k).Some?
    requires i < |Unlink(t, k).buckets| && j < |Unlink(t, k).buckets[i]|
    ensures i < |t.buckets| && j' < |t.buckets[i]| && t.buckets[i][j'] == Unlink(t, k).buckets[i][j]
  {
    j' := if i == t.slot(k) && j >= Search(t.buckets[i], k) then j + 1 else j;
  }

  lemma KeyHasEntry<R, V>(b: seq<seq<Cell<R, V>>>, k: Key)
    requires k in KeysOf(b)
    ensures RefsFrom(b, 0) != {}
  {
    var i, j :| 0 <= i < |b| && 0 <= j < |b[i]| && b[i][j].key == k;
    assert b[i][j].ref in RefsFrom(b, 0);
  }

  lemma NothingLeft<R, V>(d: Dict<R, V>)
    requires Inv(d) && !d.Rehashing() && AllRefs(d) == {}
    ensures MapOf(d) == map[]
  {
    if k :| k in KeysOf(d.ht0.buckets) { KeyHasEntry(d.ht0.buckets, k); }
  }

  /** A fresh plain iterator has everything ahead of it. */
  lemma SweepStart<R, V>(d: Dict<R, V>, keyOf: map<R, Key>)
    requires Inv(d) && Owned(d, keyOf) && !d.Rehashing()
    ensures Sweepable(d, NewIter(false), keyOf)
  {
  }

  /** When the iterator is through, nothing is left. */
  lemma SweepStops<R, V>(d: Dict<R, V>, it: Iter<R>, keyOf: map<R, Key>)
    requires Sweepable(d, it, keyOf) && Next(d, it).1.None?
    ensures MapOf(d) == map[]
  {
    NextPending(d, keyOf, it);
    NothingLeft(d);
  }

  // ----- the whole sweep, whatever the state of the migration ------------------------------

  /** What every turn of the sweep needs and keeps. */
  ghost predicate Sweeps<R, V>(d: Dict<R, V>, it: Iter<R>, keyOf: map<R, Key>) {
    Inv(d) && Owned(d, keyOf) && Placed(d, it)
  }

  /** Where the cell that `dict_next` returns is, and what it saves. */
  lemma NextCell<R, V>(d: Dict<R, V>, it: Iter<R>) returns (w: nat, i: nat, j: nat)
    requires Placed(d, it) && Next(d, it).1.Some?
    ensures w < 2 && i < |Buckets(d, w)| && j < |Buckets(d, w)[i]|
    ensures var (it', c) := Next(d, it); var chain := Buckets(d, w)[i];
      && c == Some(chain[j]) && it'.entry == Some(chain[j].ref) && it'.table in {0, 1} && it'.index >= -1
      && it'.next == if j + 1 < |chain| then Some(chain[j + 1].ref) else None
  {
    var it' := Next(d, it).0;
    if it.entry.Some? && it.next.Some? {
      w, i, j := SavedCell(d, it);
    } else {
      w, i, j := it'.table, it'.index, 0;
    }
  }

  lemma CellLookup<R, V>(d: Dict<R, V>, w: nat, i: nat, j: nat)
    requires Inv(d) && w < 2 && i < |Buckets(d, w)| && j < |Buckets(d, w)[i]|
    ensures Lookup(d, Buckets(d, w)[i][j].key) == Some(Buckets(d, w)[i][j])
  {
    CellInBucket(if w == 0 then d.ht0 else d.ht1, i, j);
  }

  lemma FoundIsHeld<R, V>(d: Dict<R, V>, k: Key)
    requires Inv(d) && Lookup(d, k).Some?
    ensures Lookup(d, k).value.ref in AllRefs(d)
  {
    var t := if CellAt(d.ht0, k).Some? then d.ht0 else d.ht1;
    var chain := t.buckets[t.slot(k)];
    assert chain[Search(chain, k)].ref in RefsFrom(t.buckets, 0);
  }

  /** Cells that are still found are the cells that were there. */
  lemma OwnedByLookup<R, V>(d: Dict<R, V>, e: Dict<R, V>, keyOf: map<R, Key>)
    requires Inv(d) && Owned(d, keyOf) && Inv(e)
    requires forall k :: Lookup(e, k).Some? ==> Lookup(e, k) == Lookup(d, k)
    ensures Owned(e, keyOf)
  {
    forall w, i, j | 0 <= w < 2 && 0 <= i < |Buckets(e, w)| && 0 <= j < |Buckets(e, w)[i]|
      ensures Buckets(e, w)[i][j].ref in keyOf && keyOf[Buckets(e, w)[i][j].ref] == Buckets(e, w)[i][j].key {
      CellLookup(e, w, i, j);
      LookupOwned(d, keyOf, Buckets(e, w)[i][j].key);
    }
    assert Buckets(e, 0) == e.ht0.buckets && Buckets(e, 1) == e.ht1.buckets;
  }

  lemma LookupOwned<R, V>(d: Dict<R, V>, keyOf: map<R, Key>, k: Key)
    requires Owned(d, keyOf) && Lookup(d, k).Some?
    ensures var c := Lookup(d, k).value; c.ref in keyOf && keyOf[c.ref] == c.key == k
  {
    var t := if CellAt(d.ht0, k).Some? then d.ht0 else d.ht1;
    var chain := t.buckets[t.slot(k)];
    assert chain[Search(chain, k)] == Lookup(d, k).value;
  }

  lemma OtherStays<R, V>(d: Dict<R, V>, k: Key, c: Cell<R, V>) returns (e: Dict<R, V>)
    requires Inv(d) && Lookup(d, c.key) == Some(c) && c.key != k
    ensures e == Delete(d, k).0 && c.ref in AllRefs(e)
  {
    DeleteKeeps(d, k);
    e := Delete(d, k).0;
    FoundIsHeld(e, c.key);
  }

  /** Deleting a cell leaves its successor in the dictionary. */
  lemma SuccessorStays<R, V>(d: Dict<R, V>, w: nat, i: nat, j: nat)
    requires Inv(d) && w < 2 && i < |Buckets(d, w)| && j + 1 < |Buckets(d, w)[i]|
    ensures var chain := Buckets(d, w)[i]; chain[j + 1].ref in AllRefs(Delete(d, chain[j].key).0)
  {
    var chain := Buckets(d, w)[i];
    CellLookup(d, w, i, j + 1);
    KeysDiffer(d, w, i, j);
    var e := OtherStays(d, chain[j].key, chain[j + 1]);
  }

  lemma DeleteOwned<R, V>(d: Dict<R, V>, keyOf: map<R, Key>, k: Key)
    requires Inv(d) && Owned(d, keyOf)
    ensures Owned(Delete(d, k).0, keyOf)
  {
    DeleteKeeps(d, k);
    OwnedByLookup(d, Delete(d, k).0, keyOf);
  }

  /** A present key less. */
  lemma DeleteShrinks<R, V>(d: Dict<R, V>, k: Key)
    requires Inv(d) && Lookup(d, k).Some?
    ensures var e := Delete(d, k).0; Inv(e) && k in MapOf(d) && MapOf(e) == MapOf(d) - {k} && |MapOf(e)| < |MapOf(d)|
  {
    DeleteMap(d, k);
    MapIsLookup(d, k);
    assert (MapOf(d) - {k}).Keys == MapOf(d).Keys - {k};
  }

  /** One turn: the entry returned is in the map, and deleting it keeps the saved successor in the dictionary. */
  lemma TurnKeeps<R, V>(d: Dict<R, V>, it: Iter<R>, keyOf: map<R, Key>)
    requires Sweeps(d, it, keyOf) && Next(d, it).1.Some?
    ensures var (it', c) := Next(d, it); var k := c.value.key; var e := Delete(d, k).0;
      && Sweeps(e, it', keyOf) && k in MapOf(d) && MapOf(e) == MapOf(d) - {k} && |MapOf(e)| < |MapOf(d)|
  {
    var w, i, j := NextCell(d, it);
    var chain := Buckets(d, w)[i];
    CellLookup(d, w, i, j);
    DeleteShrinks(d, chain[j].key);
    DeleteOwned(d, keyOf, chain[j].key);
    if j + 1 < |chain| { SuccessorStays(d, w, i, j); }
  }

  lemma KeysDiffer<R, V>(d: Dict<R, V>, w: nat, i: nat, j: nat)
    requires Inv(d) && w < 2 && i < |Buckets(d, w)| && j + 1 < |Buckets(d, w)[i]|
    ensures Buckets(d, w)[i][j].key != Buckets(d, w)[i][j + 1].key
  {
    var t := if w == 0 then d.ht0 else d.ht1;
    assert Distinct(t.buckets[i]);
  }

  /** `clean_proccess` from one `dict_next` on: what it leaves, and the keys it takes, in order. */
  ghost function Sweep<R, V>(d: Dict<R, V>, it: Iter<R>, keyOf: map<R, Key>): (Dict<R, V>, seq<Key>)
    requires Sweeps(d, it, keyOf)
    decreases |MapOf(d)|
  {
    var (it', c) := Next(d, it);
    if c.None? then (d, [])
    else
      TurnKeeps(d, it, keyOf);
      var (e, ks) := Sweep(Delete(d, c.value.key).0, it', keyOf);
      (e, [c.value.key] + ks)
  }

  /** With no migration under way at the start, it leaves nothing. */
  lemma {:induction false} IdleSweep<R, V>(d: Dict<R, V>, it: Iter<R>, keyOf: map<R, Key>)
    requires Sweepable(d, it, keyOf) && Placed(d, it)
    ensures MapOf(Sweep(d, it, keyOf).0) == map[]
    decreases |MapOf(d)|
  {
    var (it', c) := Next(d, it);
    if c.None? {
      SweepStops(d, it, keyOf);
    } else {
      TurnKeeps(d, it, keyOf);
      SweepTurn(d, it, keyOf);
      IdleSweep(Delete(d, c.value.key).0, it', keyOf);
    }
  }
}
