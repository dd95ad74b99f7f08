/**
 * The hash table as the program runs it: bucket arrays of linked entries, updated in place.
 * The ghost field `m` is the value that `DictModel` describes; every method is proved to take it
 * exactly where the function of the same name does, and to change the finite map accordingly.
 */
module Dicts {
  import opened Bits
  import opened Options
  import M = DictModel
  import opened DictTheorems

  /** `dict_entry`. */
  class Entry<V> {
    const key: M.Key
    var val: V
    var next: Entry?<V>

    constructor (key: M.Key, val: V, next: Entry?<V>)
      ensures this.key == key && this.val == val && this.next == next
    {
      this.key, this.val, this.next := key, val, next;
    }
  }

  /** `dictht`, copied by value in the source. */
  datatype Dictht<V> = Dictht(table: array?<Entry?<V>>, size: nat, sizemask: nat, used: int)

  type Chain<V> = seq<M.Cell<Entry<V>, V>>

  ghost function FirstRef<V>(chain: Chain<V>): Entry?<V> {
    if chain == [] then null else chain[0].ref
  }

  /** Cell `j` of the chain is what its entry holds, and the entry points at the next cell's entry. */
  ghost predicate Stored<V>(chain: Chain<V>, j: nat)
    requires j < |chain|
    reads chain[j].ref
  {
    var e := chain[j].ref;
    e.key == chain[j].key && e.val == chain[j].val && e.next == FirstRef(chain[j + 1..])
  }

  method GenHash(key: M.Key) returns (h: nat)
    ensures h == M.Hash(key)
  {
    h := 5381;
    var i := 0;
    while i < |key|
      invariant 0 <= i <= |key|
      invariant M.HashFrom(h, key[i..]) == M.Hash(key)
    {
      assert key[i..][1..] == key[i + 1..];
      h := M.HashStep(h, key[i]);
      i := i + 1;
    }
  }

  class Dict<V> {
    var ht: seq<Dictht<V>>
    var rehashidx: int
    var iterators: int

    ghost var m: M.Dict<Entry<V>, V>
    ghost var Repr: set<object>  // the bucket arrays and the entries

    /**
     * Table `h` represents `t`. While a bucket is being moved its head lives in a local variable:
     * bucket `hole` starts at `head` instead of the array cell.
     */
    static ghost predicate TableRep(h: Dictht<V>, t: M.Table<Entry<V>, V>, hole: int, head: Entry?<V>,
                                    repr: set<object>)
      reads repr
    {
      && h.size == |t.buckets| && h.used == t.used && h.sizemask == (if h.size == 0 then 0 else h.size - 1)
      && (h.table == null <==> h.size == 0) && (h.size > 0 ==> M.HashSlots(t))
      && (h.table != null ==>
            && h.table in repr && h.table.Length == h.size
            && (forall i :: 0 <= i < h.size ==> (if i == hole then head else h.table[i]) == FirstRef(t.buckets[i])))
      && (forall i, j :: 0 <= i < |t.buckets| && 0 <= j < |t.buckets[i]| ==> t.buckets[i][j].ref in repr)
      && (forall i, j {:trigger Stored(t.buckets[i], j)} :: 0 <= i < |t.buckets| && 0 <= j < |t.buckets[i]| ==>
            Stored(t.buckets[i], j))
    }

    /** The object represents the value `m`. */
    ghost predicate Rep(hole: int, head: Entry?<V>)
      reads this, Repr
    {
      && this !in Repr && |ht| == 2
      && TableRep(ht[0], m.ht0, hole, head, Repr) && TableRep(ht[1], m.ht1, -1, null, Repr)
      && (ht[0].table != null ==> ht[0].table != ht[1].table)
      && m.rehashidx == rehashidx && m.iterators == iterators
    }

    ghost predicate Valid()
      reads this, Repr
    {
      Rep(-1, null) && M.Inv(m)
    }

    /** The finite map the dictionary stands for. */
    ghost function Map(): map<M.Key, V>
      reads this
    {
      MapOf(m)
    }

    /** `dict_create`. */
    constructor ()
      ensures Valid() && fresh(Repr)
      ensures m == M.Create() && Map() == map[]
    {
      ht := [Dictht(null, 0, 0, 0), Dictht(null, 0, 0, 0)];
      rehashidx, iterators := -1, 0;
      m := M.Create();
      Repr := {};
      new;
      CreateIsEmpty<Entry<V>, V>();
    }

    /** A new array represents the empty table. */
    static lemma EmptyRep(table: array<Entry?<V>>, repr: set<object>)
      requires table.Length > 0 && IsPow2(table.Length) && table in repr
      requires forall i :: 0 <= i < table.Length ==> table[i] == null
      ensures TableRep(Dictht(table, table.Length, table.Length - 1, 0), M.NewTable(table.Length), -1, null, repr)
    {
    }

    /** A new empty table. */
    method NewTable(size: nat) returns (n: Dictht<V>)
      requires Rep(-1, null) && IsPow2(size) && size > 0
      modifies this`Repr
      ensures Rep(-1, null) && fresh(Repr - old(Repr)) && old(Repr) <= Repr
      ensures TableRep(n, M.NewTable(size), -1, null, Repr)
      ensures n.table != ht[0].table && n.table != ht[1].table
    {
      var table := new Entry?<V>[size](_ => null);
      n := Dictht(table, size, size - 1, 0);
      Repr := Repr + {table};
      EmptyRep(table, Repr);
    }

    /** The body of `dict_expand`, which needs no more than the representation. */
    method Allocate(size: nat) returns (ok: bool)
      requires Rep(-1, null)
      modifies this
      ensures Rep(-1, null) && fresh(Repr - old(Repr)) && old(Repr) <= Repr
      ensures (m, ok) == M.Expand(old(m), size)
    {
      if rehashidx != -1 || ht[0].used > size { return false; }
      NextPowerIsLeast(size);
      var n := NewTable(NextPower(size));
      m := M.Expand(m, size).0;
      if ht[0].table == null {
        ht := ht[0 := n];
      } else {
        ht := ht[1 := n];
        rehashidx := 0;
      }
      ok := true;
    }

    /** The search loop shared by lookup, insert and delete: walk one chain for `key`. */
    static method Walk(head: Entry?<V>, key: M.Key, ghost chain: Chain<V>)
      returns (prev: Entry?<V>, he: Entry?<V>, ghost j: nat)
      requires head == FirstRef(chain) && forall i :: 0 <= i < |chain| ==> Stored(chain, i)
      ensures j == M.Search(chain, key)
      ensures he == null <==> j == |chain|
      ensures j < |chain| ==> he == chain[j].ref && he.key == key && he.val == chain[j].val
      ensures (prev == null <==> j == 0) && (j > 0 ==> prev == chain[j - 1].ref)
    {
      prev, he, j := null, head, 0;
      while he != null
        invariant j <= |chain| && he == FirstRef(chain[j..])
        invariant forall i :: 0 <= i < j ==> chain[i].key != key
        invariant (prev == null <==> j == 0) && (j > 0 ==> prev == chain[j - 1].ref)
        decreases |chain| - j
      {
        assert Stored(chain, j);
        if he.key == key { return; }
        prev, he, j := he, he.next, j + 1;
      }
    }

    /** The chain of `key` in table `w`. */
    ghost function ChainIn(w: int, key: M.Key): Chain<V>
      reads this
    {
      M.ChainOf(if w == 0 then m.ht0 else m.ht1, key)
    }

    /** The slot of a key and the linked chain found there. */
    static lemma ChainLinked(h: Dictht<V>, t: M.Table<Entry<V>, V>, repr: set<object>, key: M.Key)
      requires TableRep(h, t, -1, null, repr) && h.size > 0
      ensures t.slot(key) == BitAnd(M.Hash(key), h.sizemask) < h.size
      ensures h.table != null && h.table.Length == h.size
      ensures var chain := M.ChainOf(t, key);
        && h.table[t.slot(key)] == FirstRef(chain)
        && forall i :: 0 <= i < |chain| ==> chain[i].ref in repr && Stored(chain, i)
    {
      assert t.slot(key) == M.Slot(key, h.size);
      var chain := M.ChainOf(t, key);
      forall i | 0 <= i < |chain| ensures chain[i].ref in repr && Stored(chain, i) {
        assert Stored(t.buckets[t.slot(key)], i);
      }
    }

    method SearchTable(w: nat, key: M.Key) returns (idx: nat, prev: Entry?<V>, he: Entry?<V>, ghost j: nat)
      requires Rep(-1, null) && w < 2 && ht[w].size > 0
      ensures idx < ht[w].size && idx == (if w == 0 then m.ht0 else m.ht1).slot(key)
      ensures var chain := ChainIn(w, key);
        && j == M.Search(chain, key)
        && (he == null <==> j == |chain|)
        && (j < |chain| ==> he == chain[j].ref && he in Repr && he.key == key && he.val == chain[j].val)
        && (prev == null <==> j == 0) && (j > 0 ==> prev == chain[j - 1].ref)
    {
      ChainLinked(ht[w], if w == 0 then m.ht0 else m.ht1, Repr, key);
      var h := GenHash(key);
      idx := BitAnd(h, ht[w].sizemask);
      prev, he, j := Walk(ht[w].table[idx], key, ChainIn(w, key));
    }

    /** Search both tables, the second only during migration. */
    method Search(key: M.Key) returns (he: Entry?<V>)
      requires Rep(-1, null) && ht[0].size > 0 && (rehashidx != -1 ==> ht[1].size > 0)
      ensures he == null <==> M.Lookup(m, key).None?
      ensures he != null ==> he.key == key && he in Repr
      ensures he != null ==> var e: Entry<V> := he; M.Lookup(m, key) == Some(M.Cell(e, key, he.val))
    {
      var table := 0;
      while table <= 1
        invariant 0 <= table <= 2
        invariant table >= 1 ==> M.CellAt(m.ht0, key).None? && rehashidx != -1
        invariant table == 2 ==> M.CellAt(m.ht1, key).None?
      {
        var _, _, e, j := SearchTable(table, key);
        he := e;
        if he != null { return; }
        if rehashidx == -1 { return; }
        table := table + 1;
      }
      he := null;
    }

    static twostate predicate SameEntry(e: Entry<V>)
      reads e
    {
      e.val == old(e.val) && e.next == old(e.next)
    }

    /** Dropping the first entry of the chain under way from the old table. */
    twostate lemma PoppedRep(i: nat)
      requires Repr == old(Repr) && |old(ht)| == 2
      requires i < |old(m).ht0.buckets| && old(m).ht0.buckets[i] != []
      requires old(TableRep(ht[0], m.ht0, i, m.ht0.buckets[i][0].ref, Repr))
      requires var t := old(m).ht0;
        forall x, y :: 0 <= x < |t.buckets| && 0 <= y < |t.buckets[x]| && (x != i || y != 0) ==>
          SameEntry(t.buckets[x][y].ref)
      requires var h := old(ht)[0];
        h.table != null ==> forall x :: 0 <= x < h.table.Length ==> h.table[x] == old(h.table[x])
      ensures var h := old(ht)[0]; var t := old(m).ht0;
        TableRep(h.(used := h.used - 1), t.(buckets := t.buckets[i := t.buckets[i][1..]], used := t.used - 1), i,
                 old(t.buckets[i][0].ref.next), Repr)
    {
      var t := old(m).ht0;
      var chain := t.buckets[i];
      assert old(Stored(chain, 0));
      forall x, y | 0 <= x < |t.buckets| && 0 <= y < |t.buckets[x]| && (x != i || y != 0)
        ensures t.buckets[x][y].ref in Repr && Stored(t.buckets[x], y) {
        assert old(Stored(t.buckets[x], y));
      }
      forall y | 0 <= y < |chain[1..]| ensures chain[y + 1].ref in Repr && Stored(chain[1..], y) {
        assert Stored(chain, y + 1);
        assert chain[1..][y + 1..] == chain[y + 2..];
      }
    }

    /** Linking an entry at the head of its chain in table `w`. */
    twostate lemma PushedRep(new w: nat, new c: M.Cell<Entry<V>, V>)
      requires w < 2 && |old(ht)| == 2 && old(Repr) <= Repr && c.ref in Repr
      requires old(ht)[w].size > 0
      requires old(TableRep(ht[w], if w == 0 then m.ht0 else m.ht1, -1, null, Repr))
      requires var t := if w == 0 then old(m).ht0 else old(m).ht1;
        forall x, y :: 0 <= x < |t.buckets| && 0 <= y < |t.buckets[x]| ==> SameEntry(t.buckets[x][y].ref)
      requires c.ref.key == c.key && c.ref.val == c.val
      requires var h := old(ht)[w]; var idx := (if w == 0 then old(m).ht0 else old(m).ht1).slot(c.key);
        && h.table[idx] == c.ref && c.ref.next == old(h.table[idx])
        && (forall x :: 0 <= x < h.size && x != idx ==> h.table[x] == old(h.table[x]))
      ensures var h := old(ht)[w]; var t := if w == 0 then old(m).ht0 else old(m).ht1;
        TableRep(h.(used := h.used + 1), M.Push(t, c), -1, null, Repr)
    {
      var t := if w == 0 then old(m).ht0 else old(m).ht1;
      var chain := M.ChainOf(t, c.key);
      assert ([c] + chain)[1..] == chain;
      forall x, y | 0 <= x < |t.buckets| && 0 <= y < |t.buckets[x]|
        ensures t.buckets[x][y].ref in Repr && Stored(t.buckets[x], y) {
        assert old(Stored(t.buckets[x], y));
      }
      assert Stored([c] + chain, 0);
      forall y | 1 <= y <= |chain| ensures chain[y - 1].ref in Repr && Stored([c] + chain, y) {
        assert Stored(chain, y - 1);
        assert ([c] + chain)[y + 1..] == chain[y..];
      }
    }

    /** A table whose array and entries are as before. */
    twostate lemma UntouchedRep(new w: nat)
      requires w < 2 && |old(ht)| == 2 && old(Repr) <= Repr
      requires old(TableRep(ht[w], if w == 0 then m.ht0 else m.ht1, -1, null, Repr))
      requires var t := if w == 0 then old(m).ht0 else old(m).ht1;
        forall x, y :: 0 <= x < |t.buckets| && 0 <= y < |t.buckets[x]| ==> SameEntry(t.buckets[x][y].ref)
      requires var h := old(ht)[w];
        h.table != null ==> forall x :: 0 <= x < h.table.Length ==> h.table[x] == old(h.table[x])
      ensures TableRep(old(ht)[w], if w == 0 then old(m).ht0 else old(m).ht1, -1, null, Repr)
    {
      var t := if w == 0 then old(m).ht0 else old(m).ht1;
      forall x, y | 0 <= x < |t.buckets| && 0 <= y < |t.buckets[x]|
        ensures t.buckets[x][y].ref in Repr && Stored(t.buckets[x], y) {
        assert old(Stored(t.buckets[x], y));
      }
    }

    /** Table `w` with one entry more and the other untouched make the representation. */
    twostate lemma Relinked(new w: nat, new c: M.Cell<Entry<V>, V>)
      requires w < 2 && old(Rep(-1, null)) && old(Repr) <= Repr && this !in Repr
      requires rehashidx == old(rehashidx) && iterators == old(iterators)
      requires w == (if rehashidx != -1 then 1 else 0) && m == M.WithTarget(old(m), M.Push(old(m).Target(), c))
      requires var h := old(ht)[w]; ht == old(ht)[w := h.(used := h.used + 1)]
      requires TableRep(ht[w], if w == 0 then m.ht0 else m.ht1, -1, null, Repr)
      requires TableRep(ht[1 - w], if w == 0 then m.ht1 else m.ht0, -1, null, Repr)
      ensures Rep(-1, null)
    {
    }

    /** The same from what is in the heap. */
    twostate lemma LinkedRep(new w: nat, new c: M.Cell<Entry<V>, V>)
      requires w < 2 && old(Rep(-1, null)) && old(Repr) <= Repr && this !in Repr && c.ref in Repr
      requires rehashidx == old(rehashidx) && iterators == old(iterators)
      requires w == (if rehashidx != -1 then 1 else 0) && m == M.WithTarget(old(m), M.Push(old(m).Target(), c))
      requires var h := old(ht)[w]; h.size > 0 && ht == old(ht)[w := h.(used := h.used + 1)]
      requires forall x, y :: 0 <= x < |old(m).ht0.buckets| && 0 <= y < |old(m).ht0.buckets[x]| ==>
                 SameEntry(old(m).ht0.buckets[x][y].ref)
      requires forall x, y :: 0 <= x < |old(m).ht1.buckets| && 0 <= y < |old(m).ht1.buckets[x]| ==>
                 SameEntry(old(m).ht1.buckets[x][y].ref)
      requires c.ref.key == c.key && c.ref.val == c.val
      requires var h := old(ht)[w]; var idx := old(m).Target().slot(c.key);
        && h.table[idx] == c.ref && c.ref.next == old(h.table[idx])
        && (forall x :: 0 <= x < h.size && x != idx ==> h.table[x] == old(h.table[x]))
      requires var h := old(ht)[1 - w];
        h.table != null ==> forall x :: 0 <= x < h.table.Length ==> h.table[x] == old(h.table[x])
      ensures Rep(-1, null)
    {
      PushedRep(w, c);
      UntouchedRep(1 - w);
      Relinked(w, c);
    }

    /** No cell but cell `j` of bucket `x` of table `w` lives in entry `e`. */
    ghost predicate OnlyAt(w: int, x: int, j: int, e: Entry<V>)
      reads this
    {
      && (forall y, z :: 0 <= y < |m.ht0.buckets| && 0 <= z < |m.ht0.buckets[y]| && (w != 0 || y != x || z != j) ==>
            m.ht0.buckets[y][z].ref != e)
      && (forall y, z :: 0 <= y < |m.ht1.buckets| && 0 <= z < |m.ht1.buckets[y]| && (w != 1 || y != x || z != j) ==>
            m.ht1.buckets[y][z].ref != e)
    }

    /** One entry, one cell: entries carry their keys, and no key occurs twice. */
    lemma OnlyHome(hole: int, head: Entry?<V>, w: int, x: nat, j: nat)
      requires Rep(hole, head) && M.Inv(m) && w in {0, 1}
      requires var b := if w == 0 then m.ht0.buckets else m.ht1.buckets; x < |b| && j < |b[x]|
      ensures OnlyAt(w, x, j, (if w == 0 then m.ht0.buckets else m.ht1.buckets)[x][j].ref)
    {
      var e := (if w == 0 then m.ht0.buckets else m.ht1.buckets)[x][j].ref;
      if w == 0 { M.FirstKeyOnlyHere(m, x, j); assert Stored(m.ht0.buckets[x], j); }
      else { M.SecondKeyOnlyHere(m, x, j); assert Stored(m.ht1.buckets[x], j); }
      forall y, z | 0 <= y < |m.ht0.buckets| && 0 <= z < |m.ht0.buckets[y]| && (w != 0 || y != x || z != j)
        ensures m.ht0.buckets[y][z].ref != e { assert Stored(m.ht0.buckets[y], z); }
      forall y, z | 0 <= y < |m.ht1.buckets| && 0 <= z < |m.ht1.buckets[y]| && (w != 1 || y != x || z != j)
        ensures m.ht1.buckets[y][z].ref != e { assert Stored(m.ht1.buckets[y], z); }
    }

    /** The body of the inner loop of `dict_rehash`: relink one entry into the new table. */
    method MoveEntry(de: Entry<V>, ghost i: nat) returns (nextde: Entry?<V>)
      requires i < |m.ht0.buckets| && de == FirstRef(m.ht0.buckets[i])
      requires Rep(i, de) && OnlyAt(0, i, 0, de) && ht[1].size > 0
      modifies this, Repr
      ensures Repr == old(Repr) && m == M.MoveCell(old(m), i) && Rep(i, nextde)
    {
      ghost var cell := m.ht0.buckets[i][0];
      assert Stored(m.ht0.buckets[i], 0);
      ChainLinked(ht[1], m.ht1, Repr, de.key);
      nextde := de.next;
      var h := GenHash(de.key);
      h := BitAnd(h, ht[1].sizemask);
      de.next := ht[1].table[h];
      ht[1].table[h] := de;
      var h0, h1 := ht[0], ht[1];
      ht := [h0.(used := h0.used - 1), h1.(used := h1.used + 1)];
      m := M.MoveCell(m, i);
      PoppedRep(i);
      PushedRep(1, cell);
    }

    /** The scan of `dict_rehash`: advance to the next non-empty bucket. */
    method ScanToBusy(ghost stop: nat)
      requires Rep(-1, null) && 0 <= rehashidx <= stop < |m.ht0.buckets| && m.ht0.buckets[stop] != []
      requires forall i :: rehashidx <= i < stop ==> m.ht0.buckets[i] == []
      modifies this
      ensures Rep(-1, null) && Repr == old(Repr) && ht == old(ht)
      ensures rehashidx == stop && m == old(m).(rehashidx := stop)
    {
      while ht[0].table[rehashidx] == null
        invariant Rep(-1, null) && Repr == old(Repr) && ht == old(ht)
        invariant old(rehashidx) <= rehashidx <= stop
        invariant m == old(m).(rehashidx := rehashidx)
        decreases stop - rehashidx
      {
        rehashidx := rehashidx + 1;
        m := m.(rehashidx := rehashidx);
      }
    }

    /** The same with the dictionary's invariant, which makes the entry the only home of its key. */
    method MoveFirst(de: Entry<V>, ghost i: nat) returns (nextde: Entry?<V>)
      requires i < |m.ht0.buckets| && de == FirstRef(m.ht0.buckets[i])
      requires Rep(i, de) && M.Inv(m) && rehashidx != -1
      modifies this, Repr
      ensures Repr == old(Repr) && m == M.MoveCell(old(m), i) && Rep(i, nextde) && M.Inv(m)
    {
      OnlyHome(i, de, 0, i, 0);
      M.MoveCellKeeps(m, i);
      nextde := MoveEntry(de, i);
    }

    /** The inner loop of `dict_rehash`: move every entry of bucket `i`. */
    method MoveChain(i: nat)
      requires Rep(-1, null) && M.Inv(m) && rehashidx != -1 && i < |m.ht0.buckets|
      modifies this, Repr
      ensures Rep(i, null) && Repr == old(Repr) && i < |m.ht0.buckets| && m.ht0.buckets[i] == []
      ensures m == M.MoveCells(old(m), i)
    {
      var de := ht[0].table[i];
      while de != null
        invariant i < |m.ht0.buckets| && de == FirstRef(m.ht0.buckets[i])
        invariant Rep(i, de) && M.Inv(m) && Repr == old(Repr) && rehashidx != -1
        invariant M.MoveCells(m, i) == M.MoveCells(old(m), i)
        decreases |m.ht0.buckets[i]|
      {
        de := MoveFirst(de, i);
      }
    }

    /** `d->ht[0].table[d->rehashidx] = NULL; d->rehashidx++;` */
    method ClearHead()
      requires 0 <= rehashidx < |m.ht0.buckets| && Rep(rehashidx, null) && m.ht0.buckets[rehashidx] == []
      modifies this, Repr
      ensures Rep(-1, null) && Repr == old(Repr) && m == old(m).(rehashidx := old(rehashidx) + 1)
    {
      ht[0].table[rehashidx] := null;
      rehashidx := rehashidx + 1;
      m := m.(rehashidx := rehashidx);
    }

    /** Empty the bucket the scan stopped at. */
    method EmptyBucket()
      requires Valid() && 0 <= rehashidx < |m.ht0.buckets|
      modifies this, Repr
      ensures Rep(-1, null) && Repr == old(Repr)
      ensures m == M.MoveCells(old(m), old(rehashidx)).(rehashidx := old(rehashidx) + 1)
    {
      M.MoveCellsIs(m, rehashidx);
      MoveChain(rehashidx);
      ClearHead();
    }

    /** One pass of the outer loop of `dict_rehash` while entries remain. */
    method MoveBucket()
      requires Valid() && rehashidx != -1 && ht[0].used != 0
      modifies this, Repr
      ensures Rep(-1, null) && Repr == old(Repr) && m == M.RehashOne(old(m))
    {
      M.ScanStaysInside(m);
      ScanKeeps(m);
      ScanToBusy(M.ScanStop(m));
      M.MoveCellsIs(m, rehashidx);
      EmptyBucket();
    }

    /** The scan may move the index over empty buckets. */
    static lemma ScanKeeps(d: M.Dict<Entry<V>, V>)
      requires M.Inv(d) && d.Rehashing() && d.ht0.used != 0
      ensures M.Inv(d.(rehashidx := M.ScanStop(d)))
    {
    }

    /** The other pass: the old table is empty, so the new one takes its place. */
    method FinishRehash()
      requires Rep(-1, null) && rehashidx != -1 && ht[0].used == 0
      modifies this
      ensures Rep(-1, null) && Repr == old(Repr) && m == M.RehashOne(old(m))
    {
      ht := [ht[1], Dictht(null, 0, 0, 0)];
      rehashidx := -1;
      m := M.RehashOne(m);
    }

    /** One pass, whichever it is. */
    method RehashPass(ghost left: nat) returns (done: bool)
      requires Valid() && rehashidx != -1
      modifies this, Repr
      ensures Valid() && Repr == old(Repr) && iterators == old(iterators) && done == (rehashidx == -1)
      ensures M.Rehash(m, left) == M.Rehash(old(m), left + 1)
    {
      M.RehashOneKeeps(m);
      done := ht[0].used == 0;
      if done { FinishRehash(); } else { MoveBucket(); }
    }

    /** `dict_rehash`; true for 1. */
    method Rehash(n: nat) returns (more: bool)
      requires Valid()
      modifies this, Repr
      ensures Valid() && Repr == old(Repr)
      ensures m == M.Rehash(old(m), n) && more == m.Rehashing() && iterators == old(iterators)
    {
      if rehashidx == -1 { return false; }
      var left: nat := n;
      while left != 0
        invariant Valid() && Repr == old(Repr) && iterators == old(iterators)
        invariant rehashidx != -1
        invariant left <= n && M.Rehash(m, left) == M.Rehash(old(m), n)
        decreases left
      {
        left := left - 1;
        var done := RehashPass(left);
        if done { return false; }
      }
      more := true;
    }

    /** `_dict_rehash_step`. */
    method RehashStep()
      requires Valid()
      modifies this, Repr
      ensures Valid() && Repr == old(Repr)
      ensures m == M.Step(old(m)) && iterators == old(iterators)
    {
      if iterators == 0 { var _ := Rehash(1); }
    }

    /** What every operation on a non-empty table begins with. */
    method StepIfRehashing()
      requires Valid()
      modifies this, Repr
      ensures Valid() && Repr == old(Repr) && m == M.Step(old(m)) && iterators == old(iterators)
    {
      if rehashidx != -1 { RehashStep(); } else { StepIdle(m); }
    }

    static lemma StepIdle(d: M.Dict<Entry<V>, V>)
      requires !d.Rehashing()
      ensures M.Step(d) == d
    {
    }

    // ----- lookup, growth, insertion, deletion ---------------------------------------------

    method StepAndSearch(key: M.Key) returns (he: Entry?<V>)
      requires Valid()
      modifies this, Repr
      ensures Valid() && Repr == old(Repr) && iterators == old(iterators)
      ensures m == if old(m).ht0.buckets == [] then old(m) else M.Step(old(m))
      ensures he == null <==> M.Lookup(m, key).None?
      ensures he != null ==> he.key == key && he in Repr
      ensures he != null ==> var e: Entry<V> := he; M.Lookup(m, key) == Some(M.Cell(e, key, he.val))
    {
      if ht[0].size == 0 { return null; }
      if rehashidx != -1 { RehashStep(); }
      he := Search(key);
    }

    /** `_dict_expand_if_needed`. */
    method ExpandIfNeeded(canResize: bool) returns (ok: bool)
      requires Valid()
      modifies this, Repr
      ensures Valid() && fresh(Repr - old(Repr)) && old(Repr) <= Repr
      ensures (m, ok) == M.ExpandIfNeeded(old(m), canResize)
      ensures ok && m.Target().buckets != []
    {
      M.ExpandIfNeededKeeps(m, canResize);
      if rehashidx != -1 { return true; }
      var size, used := ht[0].size, ht[0].used;
      if size == 0 { ok := Allocate(4); return; }
      if used >= size && (canResize || used / size > 5) {
        ok := Allocate((if size > used then size else used) * 2);
        return;
      }
      ok := true;
    }

    /** The search of `_dict_key_index`: the slot for a new key in the table that takes inserts, or -1. */
    method SlotFor(key: M.Key) returns (index: int)
      requires Rep(-1, null) && m.Target().buckets != [] && ht[0].size > 0
      ensures index == -1 <==> M.Lookup(m, key).Some?
      ensures index != -1 ==> index == m.Target().slot(key)
    {
      var table := 0;
      index := -1;
      while table <= 1
        invariant 0 <= table <= 2
        invariant table >= 1 ==> M.CellAt(m.ht0, key).None? && rehashidx != -1
        invariant table == 2 ==> M.CellAt(m.ht1, key).None? && index == m.ht1.slot(key)
      {
        var idx, _, he, j := SearchTable(table, key);
        if he != null { return -1; }
        index := idx;
        if rehashidx == -1 { return; }
        table := table + 1;
      }
    }

    /** Link a new entry at the head of bucket `index` of the table that takes inserts. */
    method Link(index: nat, key: M.Key, val: V) returns (r: Entry<V>)
      requires Rep(-1, null) && m.Target().buckets != [] && index == m.Target().slot(key)
      modifies this, Repr
      ensures Rep(-1, null) && fresh(Repr - old(Repr)) && old(Repr) <= Repr && fresh(r) && r.key == key
      ensures m == M.WithTarget(old(m), M.Push(old(m).Target(), M.Cell(r, key, val)))
    {
      var w := if rehashidx != -1 then 1 else 0;
      var h := ht[w];
      r := new Entry(key, val, h.table[index]);
      h.table[index] := r;
      ht := ht[w := h.(used := h.used + 1)];
      Repr := Repr + {r};
      m := M.WithTarget(m, M.Push(m.Target(), M.Cell(r, key, val)));
      LinkedRep(w, M.Cell(r, key, val));
    }

    static lemma RoomIs(d: M.Dict<Entry<V>, V>, d1: M.Dict<Entry<V>, V>, d2: M.Dict<Entry<V>, V>, key: M.Key,
                        canResize: bool)
      requires d1 == M.Step(d) && (d2, true) == M.ExpandIfNeeded(d1, canResize) && d2.Target().buckets != []
      ensures M.Room(d, key, canResize) == (d2, M.Lookup(d2, key).None?)
    {
    }

    /** Step, and `_dict_expand_if_needed`. */
    method MakeRoom(ghost key: M.Key, canResize: bool)
      requires Valid()
      modifies this, Repr
      ensures Rep(-1, null) && fresh(Repr - old(Repr)) && old(Repr) <= Repr
      ensures M.Room(old(m), key, canResize) == (m, M.Lookup(m, key).None?)
      ensures m.Target().buckets != [] && ht[0].size > 0
    {
      StepIfRehashing();
      ghost var stepped := m;
      var grown := ExpandIfNeeded(canResize);
      RoomIs(old(m), stepped, m, key, canResize);
    }

    /** Step, `_dict_key_index`: the slot for a new key, or -1 if it is there already. */
    method KeyIndex(key: M.Key, canResize: bool) returns (index: int)
      requires Valid()
      modifies this, Repr
      ensures Rep(-1, null) && fresh(Repr - old(Repr)) && old(Repr) <= Repr
      ensures m == M.Room(old(m), key, canResize).0 && (index != -1 <==> M.Room(old(m), key, canResize).1)
      ensures index != -1 ==> m.Target().buckets != [] && index == m.Target().slot(key)
    {
      MakeRoom(key, canResize);
      index := SlotFor(key);
    }

    /** `dict_add` without its effect on the map. */
    method AddEntry(key: M.Key, val: V, canResize: bool) returns (ok: bool, ghost r: Entry?<V>)
      requires Valid()
      modifies this, Repr
      ensures Rep(-1, null) && fresh(Repr - old(Repr)) && old(Repr) <= Repr
      ensures ok == M.Room(old(m), key, canResize).1
      ensures ok ==> r != null && fresh(r) && r.key == key
      ensures ok ==> var d2 := M.Room(old(m), key, canResize).0; var e: Entry<V> := r;
        m == M.WithTarget(d2, M.Push(d2.Target(), M.Cell(e, key, val)))
      ensures !ok ==> m == M.Room(old(m), key, canResize).0
    {
      var index := KeyIndex(key, canResize);
      ok, r := index != -1, null;
      if ok {
        var e := Link(index, key, val);
        r := e;
      }
    }

    /** `dict_add`; true for DICT_OK. The entry made is returned for the specification. */
    method Add(key: M.Key, val: V, canResize: bool) returns (ok: bool, ghost r: Entry?<V>)
      requires Valid()
      modifies this, Repr
      ensures Valid() && fresh(Repr - old(Repr)) && old(Repr) <= Repr
      ensures ok == (key !in old(Map()))
      ensures Map() == if ok then old(Map())[key := val] else old(Map())
      ensures ok ==> r != null && fresh(r) && r.key == key
      ensures ok ==> var e: Entry<V> := r; (m, true) == M.Add(old(m), e, key, val, canResize)
      ensures !ok ==> (m, false) == M.Room(old(m), key, canResize)
    {
      ok, r := AddEntry(key, val, canResize);
      if ok {
        AddMap(old(m), r as Entry<V>, key, val, canResize);
      } else {
        RoomMap(old(m), key, canResize);
      }
    }

    /** `d->iterators++` and `d->iterators--`. */
    method Count(delta: int)
      requires Valid()
      modifies this
      ensures Valid() && Repr == old(Repr) && m == old(m).(iterators := old(m).iterators + delta)
    {
      iterators := iterators + delta;
      m := m.(iterators := m.iterators + delta);
    }

    /** `dict_find`. */
    method Find(key: M.Key) returns (he: Entry?<V>)
      requires Valid()
      modifies this, Repr
      ensures Valid() && Repr == old(Repr) && iterators == old(iterators)
      ensures m == M.Find(old(m), key).0 && Map() == old(Map())
      ensures he == null <==> key !in Map()
      ensures he != null ==> he in Repr && he.key == key && he.val == Map()[key]
      ensures he != null ==> var e: Entry<V> := he; M.Lookup(m, key) == Some(M.Cell(e, key, he.val))
    {
      he := StepAndSearch(key);
      FindReply(old(m), m, key);
    }

    /** `dict_fetch_value`. */
    method FetchValue(key: M.Key) returns (v: Option<V>)
      requires Valid()
      modifies this, Repr
      ensures Valid() && Repr == old(Repr) && m == M.Find(old(m), key).0 && Map() == old(Map())
      ensures v == if key in Map() then Some(Map()[key]) else None
    {
      var he := Find(key);
      v := if he != null then Some(he.val) else None;
    }

    /** `dict_expand`; true for DICT_OK. */
    method Expand(size: nat) returns (ok: bool)
      requires Valid()
      modifies this
      ensures Valid() && fresh(Repr - old(Repr)) && old(Repr) <= Repr
      ensures (m, ok) == M.Expand(old(m), size) && Map() == old(Map())
    {
      ok := Allocate(size);
      ExpandMap(old(m), size);
    }

    /** `dict_resize`. */
    method Resize(canResize: bool) returns (ok: bool)
      requires Valid()
      modifies this
      ensures Valid() && fresh(Repr - old(Repr)) && old(Repr) <= Repr
      ensures (m, ok) == M.Resize(old(m), canResize) && Map() == old(Map())
    {
      if !canResize || rehashidx != -1 { return false; }
      var minimal := ht[0].used;
      if minimal < 4 { minimal := 4; }
      ok := Expand(minimal);
    }

    /** The cells of a chain without cell `j`, and what follows each. */
    static lemma AfterDrop(chain: Chain<V>, j: nat, z: nat)
      requires j < |chain| && z < |chain| - 1
      ensures var rest := chain[..j] + chain[j + 1..]; var o := if z < j then z else z + 1;
        && rest[z] == chain[o]
        && FirstRef(rest[z + 1..]) == if z + 1 == j then FirstRef(chain[j + 1..]) else FirstRef(chain[o + 1..])
    {
      var rest := chain[..j] + chain[j + 1..];
      if z + 1 < j {
        assert rest[z + 1..][0] == rest[z + 1] == chain[z + 1];
      } else if z + 1 < |rest| {
        assert rest[z + 1..][0] == rest[z + 1] == chain[z + 2] == chain[j + 1..][z + 1 - j];
      }
    }

    /** Unlinking cell `j` of bucket `x`: the cell before it, or the array, points past it. */
    twostate lemma UnlinkedRep(new w: nat, new x: nat, new j: nat)
      requires w < 2 && |old(ht)| == 2 && Repr == old(Repr)
      requires var t := if w == 0 then old(m).ht0 else old(m).ht1; x < |t.buckets| && j < |t.buckets[x]|
      requires old(TableRep(ht[w], if w == 0 then m.ht0 else m.ht1, -1, null, Repr))
      requires var t := if w == 0 then old(m).ht0 else old(m).ht1;
        forall y, z :: 0 <= y < |t.buckets| && 0 <= z < |t.buckets[y]| && (y != x || z != j - 1) ==>
          SameEntry(t.buckets[y][z].ref)
      requires var t := if w == 0 then old(m).ht0 else old(m).ht1; var h := old(ht)[w];
        && (j > 0 ==> var p := t.buckets[x][j - 1].ref; p.val == old(p.val) && p.next == old(t.buckets[x][j].ref.next))
        && (j == 0 ==> h.table[x] == old(t.buckets[x][0].ref.next))
        && (forall y :: 0 <= y < h.size && (y != x || j > 0) ==> h.table[y] == old(h.table[y]))
      ensures var t := if w == 0 then old(m).ht0 else old(m).ht1; var h := old(ht)[w]; var chain := t.buckets[x];
        TableRep(h.(used := h.used - 1),
                 t.(buckets := t.buckets[x := chain[..j] + chain[j + 1..]], used := t.used - 1), -1, null, Repr)
    {
      var t := if w == 0 then old(m).ht0 else old(m).ht1;
      var chain := t.buckets[x];
      var rest := chain[..j] + chain[j + 1..];
      assert old(Stored(chain, j));
      forall y, z | 0 <= y < |t.buckets| && 0 <= z < |t.buckets[y]| && y != x
        ensures t.buckets[y][z].ref in Repr && Stored(t.buckets[y], z) { assert old(Stored(t.buckets[y], z)); }
      forall z | 0 <= z < |rest| ensures rest[z].ref in Repr && Stored(rest, z) {
        var o := if z < j then z else z + 1;
        assert old(Stored(chain, o));
        AfterDrop(chain, j, z);
      }
    }

    /** The value without cell `j` of bucket `x` of table `w`. */
    static ghost function Without(d: M.Dict<Entry<V>, V>, w: nat, x: nat, j: nat): M.Dict<Entry<V>, V>
      requires var t := if w == 0 then d.ht0 else d.ht1; x < |t.buckets| && j < |t.buckets[x]|
    {
      var t := if w == 0 then d.ht0 else d.ht1;
      var t' := t.(buckets := t.buckets[x := t.buckets[x][..j] + t.buckets[x][j + 1..]], used := t.used - 1);
      if w == 0 then d.(ht0 := t') else d.(ht1 := t')
    }

    /** `he` is cell `j` of bucket `idx` of table `w`. */
    ghost predicate IsCell(w: nat, idx: nat, j: nat, he: Entry<V>)
      reads this
    {
      var t := if w == 0 then m.ht0 else m.ht1;
      w < 2 && idx < |t.buckets| && j < |t.buckets[idx]| && he == t.buckets[idx][j].ref
    }

    /** One table without the cell and the other untouched make the representation. */
    twostate lemma Reassembled(new w: nat, new x: nat, new j: nat)
      requires w < 2 && old(Rep(-1, null)) && Repr == old(Repr)
      requires rehashidx == old(rehashidx) && iterators == old(iterators)
      requires var t := if w == 0 then old(m).ht0 else old(m).ht1; x < |t.buckets| && j < |t.buckets[x]|
      requires m == Without(old(m), w, x, j)
      requires var h := old(ht)[w]; ht == old(ht)[w := h.(used := h.used - 1)]
      requires TableRep(ht[w], if w == 0 then m.ht0 else m.ht1, -1, null, Repr)
      requires TableRep(ht[1 - w], if w == 0 then m.ht1 else m.ht0, -1, null, Repr)
      ensures Rep(-1, null)
    {
    }

    /** `prev_he->next = he->next`, and `used--`. */
    method UnlinkAfter(w: nat, idx: nat, prev: Entry<V>, he: Entry<V>, ghost j: nat)
      requires Rep(-1, null) && j > 0 && IsCell(w, idx, j, he) && IsCell(w, idx, j - 1, prev)
      requires OnlyAt(w, idx, j - 1, prev)
      modifies this, Repr
      ensures Rep(-1, null) && Repr == old(Repr) && m == Without(old(m), w, idx, j)
    {
      assert Stored((if w == 0 then m.ht0 else m.ht1).buckets[idx], j);
      prev.next := he.next;
      var h := ht[w];
      ht := ht[w := h.(used := h.used - 1)];
      m := Without(m, w, idx, j);
      UnlinkedRep(w, idx, j);
      UntouchedRep(1 - w);
      Reassembled(w, idx, j);
    }

    /** `table[idx] = he->next`, and `used--`. */
    method UnlinkHead(w: nat, idx: nat, he: Entry<V>)
      requires Rep(-1, null) && IsCell(w, idx, 0, he)
      modifies this, Repr
      ensures Rep(-1, null) && Repr == old(Repr) && m == Without(old(m), w, idx, 0)
    {
      assert Stored((if w == 0 then m.ht0 else m.ht1).buckets[idx], 0);
      ht[w].table[idx] := he.next;
      var h := ht[w];
      ht := ht[w := h.(used := h.used - 1)];
      m := Without(m, w, idx, 0);
      UnlinkedRep(w, idx, 0);
      UntouchedRep(1 - w);
      Reassembled(w, idx, 0);
    }

    /** Removing the cell that holds `key` is `Unlink`. */
    static lemma WithoutIs(d: M.Dict<Entry<V>, V>, w: nat, key: M.Key)
      requires w < 2 && M.CellAt(if w == 0 then d.ht0 else d.ht1, key).Some?
      ensures var t := if w == 0 then d.ht0 else d.ht1;
        && t.slot(key) < |t.buckets| && M.Search(t.buckets[t.slot(key)], key) < |t.buckets[t.slot(key)]|
        && Without(d, w, t.slot(key), M.Search(t.buckets[t.slot(key)], key)) ==
           if w == 0 then d.(ht0 := M.Unlink(t, key)) else d.(ht1 := M.Unlink(t, key))
    {
    }

    /** Search table `w` for `key` and unlink the entry found. */
    method UnlinkFrom(w: nat, key: M.Key) returns (ok: bool)
      requires Valid() && w < 2 && ht[w].size > 0
      modifies this, Repr
      ensures Rep(-1, null) && Repr == old(Repr)
      ensures ok == M.CellAt(if w == 0 then old(m).ht0 else old(m).ht1, key).Some?
      ensures !ok ==> m == old(m)
      ensures ok ==> m == if w == 0 then old(m).(ht0 := M.Unlink(old(m).ht0, key))
                          else old(m).(ht1 := M.Unlink(old(m).ht1, key))
    {
      var idx, prev, he, j := SearchTable(w, key);
      if he == null { return false; }
      WithoutIs(m, w, key);
      if prev != null { OnlyHome(-1, null, w, idx, j - 1); }
      if prev != null { UnlinkAfter(w, idx, prev, he, j); } else { UnlinkHead(w, idx, he); }
      ok := true;
    }

    /** The search-and-unlink loop of `dict_generic_delete`. */
    method DeleteEntry(key: M.Key) returns (ok: bool)
      requires Valid() && ht[0].size > 0
      modifies this, Repr
      ensures Rep(-1, null) && Repr == old(Repr)
      ensures (m, ok) == if M.CellAt(old(m).ht0, key).Some? then (old(m).(ht0 := M.Unlink(old(m).ht0, key)), true)
                         else if old(m).Rehashing() && M.CellAt(old(m).ht1, key).Some?
                         then (old(m).(ht1 := M.Unlink(old(m).ht1, key)), true)
                         else (old(m), false)
    {
      var table := 0;
      while table <= 1
        invariant 0 <= table <= 2 && Valid() && Repr == old(Repr) && m == old(m) && rehashidx == old(rehashidx)
        invariant table >= 1 ==> M.CellAt(m.ht0, key).None? && rehashidx != -1
        invariant table == 2 ==> M.CellAt(m.ht1, key).None?
      {
        ok := UnlinkFrom(table, key);
        if ok { return; }
        if rehashidx == -1 { return; }
        table := table + 1;
      }
      ok := false;
    }

    /** `dict_generic_delete`; true for DICT_OK. */
    method Delete(key: M.Key) returns (ok: bool)
      requires Valid()
      modifies this, Repr
      ensures Valid() && Repr == old(Repr)
      ensures (m, ok) == M.Delete(old(m), key)
      ensures ok == (key in old(Map())) && Map() == old(Map()) - {key}
    {
      if ht[0].size == 0 {
        DeleteMap(m, key);
        return false;
      }
      StepIfRehashing();
      ok := DeleteEntry(key);
      DeleteMap(old(m), key);
    }

    /** Overwriting the value of cell `j` of bucket `x`. */
    twostate lemma OverwrittenRep(new w: nat, new x: nat, new j: nat, new v: V)
      requires w < 2 && |old(ht)| == 2 && Repr == old(Repr)
      requires var t := if w == 0 then old(m).ht0 else old(m).ht1; x < |t.buckets| && j < |t.buckets[x]|
      requires old(TableRep(ht[w], if w == 0 then m.ht0 else m.ht1, -1, null, Repr))
      requires var t := if w == 0 then old(m).ht0 else old(m).ht1; var h := old(ht)[w];
        && (forall y, z :: 0 <= y < |t.buckets| && 0 <= z < |t.buckets[y]| && (y != x || z != j) ==>
              SameEntry(t.buckets[y][z].ref))
        && (h.table != null ==> forall y :: 0 <= y < h.table.Length ==> h.table[y] == old(h.table[y]))
        && t.buckets[x][j].ref.val == v && t.buckets[x][j].ref.next == old(t.buckets[x][j].ref.next)
      ensures var t := if w == 0 then old(m).ht0 else old(m).ht1; var chain := t.buckets[x];
        TableRep(old(ht)[w], t.(buckets := t.buckets[x := chain[j := chain[j].(val := v)]]), -1, null, Repr)
    {
      var t := if w == 0 then old(m).ht0 else old(m).ht1;
      var chain := t.buckets[x];
      var after := chain[j := chain[j].(val := v)];
      forall y, z | 0 <= y < |t.buckets| && 0 <= z < |t.buckets[y]| && y != x
        ensures Stored(t.buckets[y], z) { assert old(Stored(t.buckets[y], z)); }
      forall z | 0 <= z < |after| ensures Stored(after, z) {
        assert old(Stored(chain, z));
        assert FirstRef(after[z + 1..]) == FirstRef(chain[z + 1..]);
      }
    }

    /** `entry->val = val` for the entry that a search finds. */
    method Overwrite(ghost w: nat, ghost idx: nat, ghost j: nat, he: Entry<V>, val: V)
      requires Rep(-1, null) && w < 2
      requires var t := if w == 0 then m.ht0 else m.ht1;
        idx < |t.buckets| && j < |t.buckets[idx]| && he == t.buckets[idx][j].ref
      requires OnlyAt(w, idx, j, he)
      modifies this, Repr
      ensures Rep(-1, null) && Repr == old(Repr)
      ensures var t := if w == 0 then old(m).ht0 else old(m).ht1;
        var chain := t.buckets[idx];
        var t' := t.(buckets := t.buckets[idx := chain[j := chain[j].(val := val)]]);
        m == if w == 0 then old(m).(ht0 := t') else old(m).(ht1 := t')
    {
      ghost var t := if w == 0 then m.ht0 else m.ht1;
      ghost var t' := t.(buckets := t.buckets[idx := t.buckets[idx][j := t.buckets[idx][j].(val := val)]]);
      he.val := val;
      m := if w == 0 then m.(ht0 := t') else m.(ht1 := t');
      OverwrittenRep(w, idx, j, val);
    }

    /** `dict_replace`: add, or else find and overwrite. True when the key was new. */
    method Replace(key: M.Key, val: V, canResize: bool) returns (isNew: bool, ghost r: Entry?<V>)
      requires Valid()
      modifies this, Repr
      ensures Valid() && fresh(Repr - old(Repr)) && old(Repr) <= Repr
      ensures isNew == (key !in old(Map())) && Map() == old(Map())[key := val]
      ensures isNew ==> r != null && fresh(r) && r.key == key
      ensures isNew ==> var e: Entry<V> := r; (m, true) == M.Replace(old(m), e, key, val, canResize)
      ensures !isNew ==> m == M.SetVal(M.Find(M.Room(old(m), key, canResize).0, key).0, key, val)
    {
      isNew, r := Add(key, val, canResize);
      if isNew { return; }
      OverwriteMap(old(m), key, val, canResize);
      OverwriteFound(key, val);
    }

    method OverwriteFound(key: M.Key, val: V)
      requires Valid() && M.Lookup(M.Find(m, key).0, key).Some? && M.Inv(M.Find(m, key).0)
      modifies this, Repr
      ensures Rep(-1, null) && Repr == old(Repr) && m == M.SetVal(M.Find(old(m), key).0, key, val)
    {
      var entry := Find(key);
      ghost var w := if M.CellAt(m.ht0, key).Some? then 0 else 1;
      ghost var t := if w == 0 then m.ht0 else m.ht1;
      ghost var x := t.slot(key);
      ghost var j := M.Search(t.buckets[x], key);
      OnlyHome(-1, null, w, x, j);
      Overwrite(w, x, j, entry, val);
    }
  }
}
