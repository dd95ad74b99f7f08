/** `clean_proccess`: signal (or just report) and forget every process in the table of waiting processes. */
module CleanProcess {
  import M = DictModel
  import I = DictIter
  import opened DictTheorems
  import opened DictRehash
  import opened DictSweep
  import opened DictMidSweep
  import opened Dicts
  import opened DictIterators

  /** Every key of `keys` exactly once. */
  ghost predicate EachOnce(ks: seq<M.Key>, keys: set<M.Key>) {
    && (forall i, j :: 0 <= i < j < |ks| ==> ks[i] != ks[j])
    && (forall k :: k in ks <==> k in keys)
  }

  lemma OnceMore<V>(taken: seq<M.Key>, m: map<M.Key, V>, all: set<M.Key>, k: M.Key)
    requires m.Keys <= all && EachOnce(taken, all - m.Keys) && k in m
    ensures EachOnce(taken + [k], all - (m - {k}).Keys) && (m - {k}).Keys <= all && |m - {k}| < |m|
  {
    assert (m - {k}).Keys == m.Keys - {k};
    assert |m.Keys - {k}| == |m.Keys| - 1;
    assert |(m - {k}).Keys| == |m - {k}| && |m.Keys| == |m|;
  }

  /** Entries carry their keys, so an address determines a key. */
  lemma KeysByEntry<V>(d: Dict<V>) returns (keyOf: map<Entry<V>, M.Key>)
    requires d.Valid()
    ensures I.Owned(d.m, keyOf) && forall e :: e in keyOf ==> keyOf[e] == e.key
  {
    keyOf := map e | e in I.AllRefs(d.m) :: e.key;
    forall i, j | 0 <= i < |d.m.ht0.buckets| && 0 <= j < |d.m.ht0.buckets[i]|
      ensures d.m.ht0.buckets[i][j].ref in keyOf && keyOf[d.m.ht0.buckets[i][j].ref] == d.m.ht0.buckets[i][j].key {
      assert Stored(d.m.ht0.buckets[i], j);
    }
    forall i, j | 0 <= i < |d.m.ht1.buckets| && 0 <= j < |d.m.ht1.buckets[i]|
      ensures d.m.ht1.buckets[i][j].ref in keyOf && keyOf[d.m.ht1.buckets[i][j].ref] == d.m.ht1.buckets[i][j].key {
      assert Stored(d.m.ht1.buckets[i], j);
    }
  }

  /** The iterator has just returned `de`, or NULL, from where it was `before`. */
  ghost predicate Sweeping<V>(waitq: Dict<V>, it: Iterator<V>, before: I.Iter<Entry<V>>, de: Entry?<V>,
                              keyOf: map<Entry<V>, M.Key>)
    reads waitq, waitq.Repr, it, de
  {
    && waitq.Valid() && it.d == waitq && !it.safe && it !in waitq.Repr
    && Sweeps(waitq.m, before, keyOf)
    && var (v, c) := I.Next(waitq.m, before); it.Value() == v && it.Returned(de, c)
  }

  /** The turn that begins with `de` just returned leads to `e` and `after`. */
  lemma OneTurn<V>(d: M.Dict<Entry<V>, V>, before: I.Iter<Entry<V>>, keyOf: map<Entry<V>, M.Key>, k: M.Key)
    returns (e: M.Dict<Entry<V>, V>, after: I.Iter<Entry<V>>)
    requires Sweeps(d, before, keyOf)
    requires var c := I.Next(d, before).1; c.Some? && c.value.key == k
    ensures e == M.Delete(d, k).0 && after == I.Next(d, before).0 && Sweeps(e, after, keyOf)
    ensures k in MapOf(d) && MapOf(e) == MapOf(d) - {k}
    ensures Sweep(d, before, keyOf) == var (end, ks) := Sweep(e, after, keyOf); (end, [k] + ks)
  {
    TurnKeeps(d, before, keyOf);
    e, after := M.Delete(d, k).0, I.Next(d, before).0;
  }

  /** `dict_delete` of the entry just returned, then `dict_next`. */
  method TakeOne<V>(waitq: Dict<V>, it: Iterator<V>, de: Entry<V>, ghost before: I.Iter<Entry<V>>,
                    ghost keyOf: map<Entry<V>, M.Key>)
    returns (next: Entry?<V>)
    requires Sweeping(waitq, it, before, de, keyOf)
    modifies waitq, waitq.Repr, it
    ensures waitq.Repr == old(waitq.Repr) && Sweeping(waitq, it, old(it.Value()), next, keyOf)
    ensures de.key in old(waitq.Map()) && waitq.Map() == old(waitq.Map()) - {de.key}
    ensures Sweep(old(waitq.m), before, keyOf) ==
            var (e, ks) := Sweep(waitq.m, old(it.Value()), keyOf); (e, [de.key] + ks)
  {
    ghost var e, after := OneTurn(waitq.m, before, keyOf, de.key);
    var ok := waitq.Delete(de.key);
    ghost var c;
    next, c := it.Next();
  }

  /** Of a sweep that leaves `end` and takes `all`, `taken` is done, and the rest begins at `before`. */
  ghost predicate Underway<V>(d: M.Dict<Entry<V>, V>, before: I.Iter<Entry<V>>, keyOf: map<Entry<V>, M.Key>,
                              taken: seq<M.Key>, end: M.Dict<Entry<V>, V>, all: seq<M.Key>) {
    Sweeps(d, before, keyOf) && Sweep(d, before, keyOf).0 == end && taken + Sweep(d, before, keyOf).1 == all
  }

  lemma OneTaken(taken: seq<M.Key>, k: M.Key, ks: seq<M.Key>)
    ensures taken + ([k] + ks) == taken + [k] + ks
  {
  }

  /**
   * `clean_proccess`, in whatever state the table is. It takes the keys that `Sweep` says, each at most once,
   * signals them if `kill` says so, and leaves the rest. With no migration under way on entry it takes all of them;
   * with one, and old chains of at most one entry each, all of them exactly if the second table has at most one
   * non-empty chain.
   */
  method CleanProcess<V>(waitq: Dict<V>, kill: bool)
    returns (signalled: seq<M.Key>, ghost taken: seq<M.Key>, ghost keyOf: map<Entry<V>, M.Key>)
    requires waitq.Valid()
    modifies waitq, waitq.Repr
    ensures waitq.Valid() && signalled == if kill then taken else []
    ensures Sweeps(old(waitq.m), I.NewIter(false), keyOf)
    ensures (waitq.m, taken) == Sweep(old(waitq.m), I.NewIter(false), keyOf)
    ensures waitq.Map().Keys <= old(waitq.Map()).Keys
    ensures EachOnce(taken, old(waitq.Map()).Keys - waitq.Map().Keys)
    ensures old(waitq.rehashidx) == -1 ==> waitq.Map() == map[]
    ensures old(waitq.rehashidx) != -1 && old(waitq.iterators) == 0 && Singles(old(waitq.m).ht0.buckets) ==>
      (waitq.Map() == map[] <==> Busy(old(waitq.m).ht1.buckets) <= 1)
  {
    var it, de;
    ghost var before;
    it, de, before, keyOf := Begin(waitq);
    ghost var all := waitq.Map().Keys;
    ghost var end, ks := Sweep(waitq.m, before, keyOf).0, Sweep(waitq.m, before, keyOf).1;
    taken, signalled := [], [];
    assert [] + ks == ks;
    while de != null
      invariant waitq.Repr == old(waitq.Repr) && fresh(it) && Sweeping(waitq, it, before, de, keyOf)
      invariant waitq.Map().Keys <= all && EachOnce(taken, all - waitq.Map().Keys)
      invariant Underway(waitq.m, before, keyOf, taken, end, ks)
      invariant signalled == if kill then taken else []
      decreases |waitq.Map()|
    {
      var p := de.key;
      if kill { signalled := signalled + [p]; }
      ghost var here, m := it.Value(), waitq.Map();
      de := TakeOne(waitq, it, de, before, keyOf);
      OnceMore(taken, m, all, p);
      OneTaken(taken, p, Sweep(waitq.m, here, keyOf).1);
      taken := taken + [p];
      before := here;
    }
    SweepOutcome(old(waitq.m), keyOf);
    assert taken + [] == taken;
  }

  /** What the theorems say of it. */
  lemma SweepOutcome<V>(d: M.Dict<Entry<V>, V>, keyOf: map<Entry<V>, M.Key>)
    requires M.Inv(d) && I.Owned(d, keyOf)
    ensures Sweeps(d, I.NewIter(false), keyOf)
    ensures var m := MapOf(Sweep(d, I.NewIter(false), keyOf).0);
      && (!d.Rehashing() ==> m == map[])
      && (d.Rehashing() && d.iterators == 0 && Singles(d.ht0.buckets) ==> (m == map[] <==> Busy(d.ht1.buckets) <= 1))
  {
    if !d.Rehashing() {
      SweepStart(d, keyOf);
      IdleSweep(d, I.NewIter(false), keyOf);
    } else if d.iterators == 0 && Singles(d.ht0.buckets) {
      MidSweep(d, keyOf);
    }
  }

  /** `dict_get_iterator` and the first `dict_next`. */
  method Begin<V>(waitq: Dict<V>)
    returns (it: Iterator<V>, de: Entry?<V>, ghost before: I.Iter<Entry<V>>, ghost keyOf: map<Entry<V>, M.Key>)
    requires waitq.Valid()
    modifies waitq
    ensures waitq.Repr == old(waitq.Repr) && waitq.m == old(waitq.m) && fresh(it)
    ensures before == I.NewIter(false) && Sweeping(waitq, it, before, de, keyOf)
  {
    keyOf := KeysByEntry(waitq);
    it := new Iterator<V>(waitq, false);
    before := it.Value();
    ghost var c;
    de, c := it.Next();
  }
}
