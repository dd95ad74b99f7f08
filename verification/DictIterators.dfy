/** `dict_iterator` over the linked table, proved to step exactly as `DictIter.Next`. */
module DictIterators {
  import opened Options
  import M = DictModel
  import I = DictIter
  import opened Dicts

  ghost function Ref<V>(e: Entry?<V>): Option<Entry<V>> {
    if e == null then None else Some(e)
  }

  class Iterator<V> {
    const d: Dict<V>
    const safe: bool
    var table: int
    var index: int
    var entry: Entry?<V>
    var next_entry: Entry?<V>

    ghost function Value(): I.Iter<Entry<V>>
      reads this
    {
      I.Iter(table, index, safe, Ref(entry), Ref(next_entry))
    }

    /** `dict_get_iterator` and `dict_get_safe_iterator`. */
    constructor (d: Dict<V>, safe: bool)
      ensures this.d == d && Value() == I.NewIter(safe)
    {
      this.d, this.safe := d, safe;
      table, index, entry, next_entry := 0, -1, null, null;
    }

    ghost predicate Ready()
      reads this, d, d.Repr
    {
      d.Rep(-1, null) && M.Inv(d.m) && this !in d.Repr && I.Placed(d.m, Value())
    }

    /** The entry returned is the cell the specification returns. */
    static ghost predicate Returned(e: Entry?<V>, c: Option<M.Cell<Entry<V>, V>>)
      reads e
    {
      && (e == null <==> c.None?)
      && (e != null ==> c.Some? && c.value.ref == e && c.value.key == e.key && c.value.val == e.val)
    }

    /** `iter->next_entry = iter->entry->next` for cell `j` of chain `i` of table `w`. */
    method Yield(ghost w: nat, ghost i: nat, ghost j: nat)
      requires d.Rep(-1, null) && this !in d.Repr && w < 2
      requires i < |I.Buckets(d.m, w)| && j < |I.Buckets(d.m, w)[i]| && entry == I.Buckets(d.m, w)[i][j].ref
      modifies this`next_entry
      ensures (Value(), Some(I.Buckets(d.m, w)[i][j])) == I.Yield(old(Value()), I.Buckets(d.m, w)[i], j)
      ensures Returned(entry, Some(I.Buckets(d.m, w)[i][j]))
    {
      assert Stored(I.Buckets(d.m, w)[i], j);
      next_entry := entry.next;
    }

    /** `iter->entry = ht->table[iter->index]` */
    method Load()
      requires d.Rep(-1, null) && this !in d.Repr && table in {0, 1} && 0 <= index < |I.Buckets(d.m, table)|
      modifies this`entry
      ensures entry == FirstRef(I.Buckets(d.m, table)[index])
    {
      entry := d.ht[table].table[index];
    }

    /** What a scan needs: the dictionary's representation and an iterator at the end of a chain. */
    ghost predicate Scanning()
      reads this, d, d.Repr
    {
      && d.Rep(-1, null) && this !in d.Repr && entry == null && table in {0, 1} && index >= -1
      && (d.m.Rehashing() ==> d.m.ht1.buckets != [])
    }

    /** `iter->index++`, crossing to the second table at the end of the first during migration. */
    method Move() returns (inside: bool)
      requires Scanning()
      modifies this`table, this`index
      ensures (inside, Value()) == I.Move(d.m, old(Value())) && (inside ==> Scanning())
      ensures inside ==> 0 <= index < |I.Buckets(d.m, table)|
      ensures inside ==> table > old(table) || (table == old(table) && old(index) < index)
    {
      index := index + 1;
      if index >= d.ht[table].size {
        if d.rehashidx == -1 || table != 0 { return false; }
        table := 1;
        index := 0;
      }
      inside := true;
    }

    /** One turn of the loop of `dict_next` with no current entry. */
    method Turn() returns (done: bool, ghost c: Option<M.Cell<Entry<V>, V>>)
      requires Scanning()
      modifies this
      ensures done ==> (Value(), c) == I.Scan(d.m, old(Value())) && Returned(entry, c)
      ensures !done ==> Scanning() && I.Scan(d.m, Value()) == I.Scan(d.m, old(Value()))
      ensures !done ==> table > old(table) || (table == old(table) && old(index) < index < |I.Buckets(d.m, table)|)
    {
      I.MoveScan(d.m, Value());
      var inside := Move();
      if !inside { return true, None; }
      ghost var to := Value();
      Load();
      done := entry != null;
      c := None;
      if done {
        c := Some(I.Buckets(d.m, table)[index][0]);
        Yield(table, index, 0);
      } else {
        assert Value() == to;
      }
    }

    /** The loop of `dict_next` once the current chain is used up. */
    method ScanOn() returns (ghost c: Option<M.Cell<Entry<V>, V>>)
      requires Scanning()
      modifies this
      ensures (Value(), c) == I.Scan(d.m, old(Value())) && Returned(entry, c)
    {
      while true
        invariant Scanning() && I.Scan(d.m, Value()) == I.Scan(d.m, old(Value()))
        decreases 1 - table, |I.Buckets(d.m, table)| - index
      {
        var done;
        done, c := Turn();
        if done { return; }
      }
    }

    /** The first call of `dict_next` on a safe iterator counts it in the dictionary. */
    method Register()
      requires Ready()
      modifies d
      ensures Ready() && d.Repr == old(d.Repr) && d.m == I.Register(old(d.m), Value())
    {
      if entry == null && safe && index == -1 && table == 0 { d.Count(1); }
    }

    method Advance() returns (ghost c: Option<M.Cell<Entry<V>, V>>)
      requires Ready()
      modifies this
      ensures (Value(), c) == I.Next(d.m, old(Value())) && Returned(entry, c)
    {
      if entry != null && next_entry != null {
        c := Follow();
      } else {
        c := LeaveChain();
      }
    }

    /** `dict_next`. */
    method Next() returns (e: Entry?<V>, ghost c: Option<M.Cell<Entry<V>, V>>)
      requires Ready()
      modifies this, d
      ensures d.Valid() && d.Repr == old(d.Repr) && d.m == I.Register(old(d.m), old(Value()))
      ensures (Value(), c) == I.Next(d.m, old(Value())) && Returned(e, c) && e == entry
    {
      Register();
      c := Advance();
      e := entry;
    }

    method LeaveChain() returns (ghost c: Option<M.Cell<Entry<V>, V>>)
      requires Ready() && (entry == null || next_entry == null)
      modifies this
      ensures (Value(), c) == I.Next(d.m, old(Value())) && Returned(entry, c)
    {
      I.NextScans(d.m, Value());
      entry := null;
      c := ScanOn();
    }

    /** `iter->entry = iter->next_entry`, when there is one. */
    method Follow() returns (ghost c: Option<M.Cell<Entry<V>, V>>)
      requires Ready() && entry != null && next_entry != null
      modifies this`entry, this`next_entry
      ensures (Value(), c) == I.Next(d.m, old(Value())) && Returned(entry, c) && entry != null
    {
      ghost var w, i, j := I.SavedCell(d.m, Value());
      c := Some(I.Buckets(d.m, w)[i][j]);
      entry := next_entry;
      Yield(w, i, j);
    }

    /** `dict_release_iterator`. */
    method Release()
      requires d.Valid() && this !in d.Repr
      modifies d
      ensures d.Valid() && d.Repr == old(d.Repr) && d.m == I.Release(old(d.m), Value())
    {
      if safe && !(index == -1 && table == 0) { d.Count(-1); }
    }
  }
}
