/** The safe-iteration theorem over whole runs. */
module DictSafeIter {
  import opened Options
  import opened DictModel
  import opened DictIter

  // ----- how a change to one chain moves the pending set ---------------------------------

  /** `after` is `before` up to dropping some of `drop` and gaining some of `add`. */
  ghost predicate Shifted<R>(before: set<R>, after: set<R>, drop: set<R>, add: set<R>) {
    before - drop <= after <= before + add
  }

  lemma SetChainPending<R, V>(b: seq<seq<Cell<R, V>>>, x: nat, chain: seq<Cell<R, V>>, it: Iter<R>,
                              drop: set<R>, add: set<R>)
    requires x < |b| && Shifted(ChainRefs(b[x]), ChainRefs(chain), drop, add)
    requires it.entry.Some? && it.index == x ==> Shifted(Suffix(b[x], it.next), Suffix(chain, it.next), drop, add)
    ensures Shifted(PendingIn(b, it), PendingIn(b[x := chain], it), drop, add)
    ensures Shifted(RefsFrom(b, 0), RefsFrom(b[x := chain], 0), drop, add)
  {
    RefsFromSetChain(b, x, chain, it.index + 1, drop, add);
    RefsFromSetChain(b, x, chain, 0, drop, add);
  }

  lemma RefsFromSetChain<R, V>(b: seq<seq<Cell<R, V>>>, x: nat, chain: seq<Cell<R, V>>, from: int,
                               drop: set<R>, add: set<R>)
    requires x < |b| && Shifted(ChainRefs(b[x]), ChainRefs(chain), drop, add)
    ensures Shifted(RefsFrom(b, from), RefsFrom(b[x := chain], from), drop, add)
  {
    var c: seq<seq<Cell<R, V>>> := b[x := chain];
    forall r | r in RefsFrom(b, from) - drop ensures r in RefsFrom(c, from) {
      var i, j :| 0 <= i < |b| && from <= i && 0 <= j < |b[i]| && b[i][j].ref == r;
      if i == x {
        assert r in ChainRefs(b[x]);
        assert r in ChainRefs(chain);
        var j' :| 0 <= j' < |chain| && chain[j'].ref == r;
        assert c[x][j'].ref == r;
      } else {
        assert c[i][j].ref == r;
      }
    }
    forall r | r in RefsFrom(c, from) ensures r in RefsFrom(b, from) + add {
      var i, j :| 0 <= i < |c| && from <= i && 0 <= j < |c[i]| && c[i][j].ref == r;
      if i == x {
        assert r in ChainRefs(chain);
        if r !in add {
          var j' :| 0 <= j' < |b[x]| && b[x][j'].ref == r;
        }
      }
    }
  }

  /** The saved successor is still in the chain. */
  ghost predicate NextIn<R, V>(chain: seq<Cell<R, V>>, next: Option<R>) {
    next.Some? ==> RefPos(chain, next.value) < |chain|
  }

  lemma PushChain<R, V>(chain: seq<Cell<R, V>>, c: Cell<R, V>, next: Option<R>)
    requires NextIn(chain, next) && next != Some(c.ref)
    ensures Shifted(ChainRefs(chain), ChainRefs([c] + chain), {}, {c.ref})
    ensures NextIn([c] + chain, next) && Suffix([c] + chain, next) == Suffix(chain, next)
  {
    var after := [c] + chain;
    assert after[1..] == chain;
    forall r | r in ChainRefs(chain) ensures r in ChainRefs(after) {
      var j :| 0 <= j < |chain| && chain[j].ref == r;
      assert after[j + 1].ref == r;
    }
    if next.Some? {
      assert RefPos(after, next.value) == 1 + RefPos(chain, next.value);
      assert after[1 + RefPos(chain, next.value)..] == chain[RefPos(chain, next.value)..];
    }
  }

  lemma RefsWithout<R, V>(chain: seq<Cell<R, V>>, j: nat)
    requires j < |chain|
    ensures Shifted(ChainRefs(chain), ChainRefs(chain[..j] + chain[j + 1..]), {chain[j].ref}, {})
  {
    var after := chain[..j] + chain[j + 1..];
    forall r | r in ChainRefs(chain) - {chain[j].ref} ensures r in ChainRefs(after) {
      var i :| 0 <= i < |chain| && chain[i].ref == r;
      assert after[if i < j then i else i - 1].ref == r;
    }
    forall r | r in ChainRefs(after) ensures r in ChainRefs(chain) {
      var i :| 0 <= i < |after| && after[i].ref == r;
      assert chain[if i < j then i else i + 1].ref == r;
    }
  }

  lemma UnlinkChain<R, V>(chain: seq<Cell<R, V>>, j: nat, next: Option<R>)
    requires j < |chain| && NextIn(chain, next) && next != Some(chain[j].ref)
    ensures var after := chain[..j] + chain[j + 1..];
      && Shifted(ChainRefs(chain), ChainRefs(after), {chain[j].ref}, {})
      && NextIn(after, next) && Shifted(Suffix(chain, next), Suffix(after, next), {chain[j].ref}, {})
  {
    RefsWithout(chain, j);
    if next.Some? {
      var after := chain[..j] + chain[j + 1..];
      var p := RefPos(chain, next.value);
      if p < j {
        assert after[p] == chain[p];
        assert RefPos(after, next.value) == p;
        var s := chain[p..];
        assert after[p..] == s[..j - p] + s[j - p + 1..];
        RefsWithout(s, j - p);
      } else {
        assert after[p - 1] == chain[p];
        assert RefPos(after, next.value) == p - 1;
        assert after[p - 1..] == chain[p..];
      }
    }
  }

  lemma SameRefs<R, V>(chain: seq<Cell<R, V>>, after: seq<Cell<R, V>>, next: Option<R>)
    requires |after| == |chain| && forall j :: 0 <= j < |chain| ==> after[j].ref == chain[j].ref
    ensures ChainRefs(after) == ChainRefs(chain) && Suffix(after, next) == Suffix(chain, next)
    ensures NextIn(chain, next) ==> NextIn(after, next)
  {
    RefsEqual(chain, after);
    if next.Some? {
      var p, q := RefPos(chain, next.value), RefPos(after, next.value);
      assert p == q;
      RefsEqual(chain[p..], after[p..]);
    }
  }

  lemma RefsEqual<R, V>(a: seq<Cell<R, V>>, b: seq<Cell<R, V>>)
    requires |b| == |a| && forall j :: 0 <= j < |a| ==> b[j].ref == a[j].ref
    ensures ChainRefs(a) == ChainRefs(b)
  {
    forall r ensures r in ChainRefs(a) <==> r in ChainRefs(b) {
      if r in ChainRefs(a) { var j :| 0 <= j < |a| && a[j].ref == r; assert b[j].ref == r; }
      if r in ChainRefs(b) { var j :| 0 <= j < |b| && b[j].ref == r; assert a[j].ref == r; }
    }
  }

  /** `e` is `d` with the chain of bucket `x` in table `w` replaced. */
  ghost predicate ChainReplaced<R, V>(d: Dict<R, V>, e: Dict<R, V>, w: int, x: nat, chain: seq<Cell<R, V>>) {
    && e.rehashidx == d.rehashidx && e.iterators == d.iterators && w in {0, 1} && x < |Buckets(d, w)|
    && Buckets(e, w) == Buckets(d, w)[x := chain] && Buckets(e, 1 - w) == Buckets(d, 1 - w)
  }

  lemma ChainReplacedPending<R, V>(d: Dict<R, V>, e: Dict<R, V>, w: int, x: nat, chain: seq<Cell<R, V>>,
                                   it: Iter<R>, drop: set<R>, add: set<R>)
    requires WellPlaced(d, it) && ChainReplaced(d, e, w, x, chain)
    requires Shifted(ChainRefs(Buckets(d, w)[x]), ChainRefs(chain), drop, add)
    requires it.entry.Some? && it.table == w && it.index == x ==>
               NextIn(chain, it.next) && Shifted(Suffix(Buckets(d, w)[x], it.next), Suffix(chain, it.next), drop, add)
    ensures WellPlaced(e, it) && Shifted(Pending(d, it), Pending(e, it), drop, add)
  {
    if it.table == w {
      SetChainPending(Buckets(d, w), x, chain, it, drop, add);
    } else {
      RefsFromSetChain(Buckets(d, w), x, chain, 0, drop, add);
    }
  }

  lemma ChainReplacedOwned<R, V>(d: Dict<R, V>, e: Dict<R, V>, w: int, x: nat, chain: seq<Cell<R, V>>,
                                 keyOf: map<R, Key>)
    requires Owned(d, keyOf) && ChainReplaced(d, e, w, x, chain)
    requires forall j :: 0 <= j < |chain| ==> chain[j].ref in keyOf && keyOf[chain[j].ref] == chain[j].key
    ensures Owned(e, keyOf)
  {
    forall i, j | 0 <= i < |Buckets(e, w)| && 0 <= j < |Buckets(e, w)[i]|
      ensures Buckets(e, w)[i][j].ref in keyOf && keyOf[Buckets(e, w)[i][j].ref] == Buckets(e, w)[i][j].key {
      if i != x { assert Buckets(e, w)[i] == Buckets(d, w)[i]; }
    }
    assert OwnedTable(Buckets(e, w), keyOf);
    assert OwnedTable(Buckets(e, 1 - w), keyOf);
  }

  // ----- the run -------------------------------------------------------------------------

  /** What a caller may do between two `dict_next` calls of a safe iterator. */
  datatype Event<R, V> =
    | EvNext
    | EvFind(k: Key)
    | EvAdd(r: R, k: Key, v: V, canResize: bool)
    | EvReplace(r: R, k: Key, v: V, canResize: bool)
    | EvDelete(k: Key)
    | EvExpand(size: nat)
    | EvResize(canResize: bool)

  /**
   * A run in progress: the dictionary, the iterator, the key of every entry ever allocated,
   * the entries deleted so far and the entries returned so far, in order.
   */
  datatype Run<R, V> = Run(d: Dict<R, V>, it: Iter<R>, keyOf: map<R, Key>, deleted: set<R>, returned: seq<R>)

  /**
   * New entries, which only absent keys get, have fresh addresses, and the entry deleted is not the successor
   * that the iterator has saved. (Deleting the entry just returned is therefore allowed; so is deleting any other.)
   */
  ghost predicate Allowed<R, V>(s: Run<R, V>, ev: Event<R, V>) {
    match ev
    case EvAdd(r, k, _, _) => Lookup(s.d, k).None? ==> r !in s.keyOf
    case EvReplace(r, k, _, _) => Lookup(s.d, k).None? ==> r !in s.keyOf
    case EvDelete(k) => Lookup(s.d, k).Some? && s.it.entry.Some? ==> s.it.next != Some(Lookup(s.d, k).value.ref)
    case _ => true
  }

  /** The addresses known after an insertion that may be one of `k` at `r`. */
  ghost function Extended<R, V>(d: Dict<R, V>, keyOf: map<R, Key>, r: R, k: Key): map<R, Key> {
    if Lookup(d, k).None? then keyOf[r := k] else keyOf
  }

  ghost function Advance<R, V>(s: Run<R, V>, ev: Event<R, V>): Run<R, V> {
    match ev
    case EvNext =>
      var (it', c) := Next(Register(s.d, s.it), s.it);
      s.(d := Register(s.d, s.it), it := it', returned := if c.Some? then s.returned + [c.value.ref] else s.returned)
    case EvFind(k) => s.(d := Find(s.d, k).0)
    case EvAdd(r, k, v, can) => s.(d := Add(s.d, r, k, v, can).0, keyOf := Extended(s.d, s.keyOf, r, k))
    case EvReplace(r, k, v, can) => s.(d := Replace(s.d, r, k, v, can).0, keyOf := Extended(s.d, s.keyOf, r, k))
    case EvDelete(k) =>
      s.(d := Delete(s.d, k).0,
         deleted := s.deleted + (if Lookup(s.d, k).Some? then {Lookup(s.d, k).value.ref} else {}))
    case EvExpand(size) => s.(d := Expand(s.d, size).0)
    case EvResize(can) => s.(d := Resize(s.d, can).0)
  }

  ghost predicate NoneTwice<R>(s: seq<R>) {
    forall i, j :: 0 <= i < j < |s| ==> s[i] != s[j]
  }

  /** The loop invariant of a caller's iteration, `start` being the entries present at the beginning. */
  ghost predicate Sound<R, V>(s: Run<R, V>, start: set<R>) {
    && Inv(s.d) && Owned(s.d, s.keyOf) && WellPlaced(s.d, s.it)
    && s.d.iterators >= 1 && s.it.safe && s.it.index >= 0
    && NoneTwice(s.returned)
    && (forall r :: r in s.returned ==> r in s.keyOf && r !in Pending(s.d, s.it))
    && (forall r :: r in start ==> r in s.deleted || r in s.returned || r in Pending(s.d, s.it))
  }

  /** Any change of the dictionary that shifts the pending set by deleted and by fresh entries keeps the run sound. */
  lemma ShiftKeepsSound<R, V>(s: Run<R, V>, s': Run<R, V>, start: set<R>, drop: set<R>, add: set<R>)
    requires Sound(s, start) && s'.it == s.it && s'.returned == s.returned
    requires Inv(s'.d) && Owned(s'.d, s'.keyOf) && WellPlaced(s'.d, s.it) && s'.d.iterators >= 1
    requires Shifted(Pending(s.d, s.it), Pending(s'.d, s.it), drop, add)
    requires add !! s.keyOf.Keys && s.keyOf.Keys <= s'.keyOf.Keys && s'.deleted == s.deleted + drop
    ensures Sound(s', start)
  {
  }

  lemma ExpandPending<R, V>(d: Dict<R, V>, size: nat, it: Iter<R>)
    requires Inv(d) && WellPlaced(d, it)
    ensures var e := Expand(d, size).0;
      WellPlaced(e, it) && e.iterators == d.iterators && Pending(e, it) == Pending(d, it)
    ensures forall keyOf: map<R, Key> | Owned(d, keyOf) :: Owned(Expand(d, size).0, keyOf)
  {
  }

  /** The saved successor, if the iterator stands in bucket `x` of table `w`. */
  ghost function NextAt<R>(it: Iter<R>, w: int, x: int): Option<R> {
    if it.entry.Some? && it.table == w && it.index == x then it.next else None
  }

  lemma NextIsOwned<R, V>(d: Dict<R, V>, it: Iter<R>, keyOf: map<R, Key>, w: int, x: nat)
    requires WellPlaced(d, it) && Owned(d, keyOf) && w in {0, 1} && x < |Buckets(d, w)|
    ensures NextIn(Buckets(d, w)[x], NextAt(it, w, x))
    ensures NextAt(it, w, x).Some? ==> NextAt(it, w, x).value in keyOf
  {
  }

  lemma InsertPending<R, V>(d: Dict<R, V>, it: Iter<R>, keyOf: map<R, Key>, c: Cell<R, V>)
    requires Inv(d) && Owned(d, keyOf) && WellPlaced(d, it) && d.Target().buckets != [] && c.ref !in keyOf
    ensures var e := WithTarget(d, Push(d.Target(), c));
      && WellPlaced(e, it) && Shifted(Pending(d, it), Pending(e, it), {}, {c.ref})
      && Owned(e, keyOf[c.ref := c.key]) && e.iterators == d.iterators
  {
    var w := if d.Rehashing() then 1 else 0;
    var e := WithTarget(d, Push(d.Target(), c));
    var x := d.Target().slot(c.key);
    var chain := Buckets(d, w)[x];
    NextIsOwned(d, it, keyOf, w, x);
    PushChain(chain, c, NextAt(it, w, x));
    assert ChainReplaced(d, e, w, x, [c] + chain);
    ChainReplacedPending(d, e, w, x, [c] + chain, it, {}, {c.ref});
    ChainReplacedOwned(d, e, w, x, [c] + chain, keyOf[c.ref := c.key]);
  }

  lemma UnlinkPending<R, V>(d: Dict<R, V>, e: Dict<R, V>, it: Iter<R>, keyOf: map<R, Key>, w: int, k: Key)
    requires Owned(d, keyOf) && WellPlaced(d, it) && w in {0, 1}
    requires var t := if w == 0 then d.ht0 else d.ht1;
      CellAt(t, k).Some? && e == (if w == 0 then d.(ht0 := Unlink(t, k)) else d.(ht1 := Unlink(t, k)))
      && (it.entry.Some? ==> it.next != Some(CellAt(t, k).value.ref))
    ensures var c := CellAt(if w == 0 then d.ht0 else d.ht1, k).value;
      WellPlaced(e, it) && Shifted(Pending(d, it), Pending(e, it), {c.ref}, {}) && Owned(e, keyOf)
  {
    var t := if w == 0 then d.ht0 else d.ht1;
    var x := t.slot(k);
    var chain := t.buckets[x];
    var j := Search(chain, k);
    var rest := chain[..j] + chain[j + 1..];
    NextIsOwned(d, it, keyOf, w, x);
    UnlinkChain(chain, j, NextAt(it, w, x));
    assert ChainReplaced(d, e, w, x, rest);
    ChainReplacedPending(d, e, w, x, rest, it, {chain[j].ref}, {});
    ChainReplacedOwned(d, e, w, x, rest, keyOf);
  }

  lemma PutValPending<R, V>(d: Dict<R, V>, e: Dict<R, V>, it: Iter<R>, keyOf: map<R, Key>, w: int, k: Key, v: V)
    requires Owned(d, keyOf) && WellPlaced(d, it) && w in {0, 1}
    requires var t := if w == 0 then d.ht0 else d.ht1;
      CellAt(t, k).Some? && e == (if w == 0 then d.(ht0 := PutVal(t, k, v)) else d.(ht1 := PutVal(t, k, v)))
    ensures WellPlaced(e, it) && Shifted(Pending(d, it), Pending(e, it), {}, {}) && Owned(e, keyOf)
  {
    var t := if w == 0 then d.ht0 else d.ht1;
    var x := t.slot(k);
    var chain := t.buckets[x];
    var j := Search(chain, k);
    var after := chain[j := chain[j].(val := v)];
    NextIsOwned(d, it, keyOf, w, x);
    SameRefs(chain, after, NextAt(it, w, x));
    assert ChainReplaced(d, e, w, x, after);
    ChainReplacedPending(d, e, w, x, after, it, {}, {});
    ChainReplacedOwned(d, e, w, x, after, keyOf);
  }

  // ----- each event keeps the run sound --------------------------------------------------

  lemma GrowthPending<R, V>(d: Dict<R, V>, it: Iter<R>, keyOf: map<R, Key>, canResize: bool)
    requires Inv(d) && WellPlaced(d, it) && Owned(d, keyOf)
    ensures var e := ExpandIfNeeded(d, canResize).0;
      WellPlaced(e, it) && e.iterators == d.iterators && Pending(e, it) == Pending(d, it) && Owned(e, keyOf)
  {
    var size, used := |d.ht0.buckets|, d.ht0.used;
    ExpandPending(d, 4, it);
    if used >= 0 { ExpandPending(d, (if size > used then size else used) * 2, it); }
  }

  /** What an operation may do to a dictionary with a safe iterator running. */
  ghost predicate Undisturbed<R, V>(d: Dict<R, V>, e: Dict<R, V>, it: Iter<R>, keyOf: map<R, Key>,
                                    drop: set<R>, add: set<R>) {
    Inv(e) && Owned(e, keyOf) && WellPlaced(e, it) && e.iterators >= 1
    && Shifted(Pending(d, it), Pending(e, it), drop, add)
  }

  lemma InsertUndisturbed<R, V>(d: Dict<R, V>, it: Iter<R>, keyOf: map<R, Key>, c: Cell<R, V>)
    requires Inv(d) && Owned(d, keyOf) && WellPlaced(d, it) && d.iterators >= 1 && c.ref !in keyOf
    requires d.Target().buckets != [] && Lookup(d, c.key).None?
    ensures Undisturbed(d, WithTarget(d, Push(d.Target(), c)), it, keyOf[c.ref := c.key], {}, {c.ref})
  {
    InsertPending(d, it, keyOf, c);
    PushOK(d.Target(), c);
    InsertKeeps(d, Push(d.Target(), c), c);
  }

  lemma GrowthUndisturbed<R, V>(d: Dict<R, V>, it: Iter<R>, keyOf: map<R, Key>, canResize: bool)
    requires Inv(d) && Owned(d, keyOf) && WellPlaced(d, it) && d.iterators >= 1
    ensures Undisturbed(d, ExpandIfNeeded(d, canResize).0, it, keyOf, {}, {})
    ensures forall k :: Lookup(ExpandIfNeeded(d, canResize).0, k) == Lookup(d, k)
  {
    GrowthPending(d, it, keyOf, canResize);
    ExpandIfNeededKeeps(d, canResize);
  }

  lemma AddWhileFrozen<R, V>(d: Dict<R, V>, r: R, k: Key, v: V, canResize: bool)
    requires Inv(d) && d.iterators >= 1
    ensures var d2 := ExpandIfNeeded(d, canResize).0;
      && d2.Target().buckets != []
      && Add(d, r, k, v, canResize) == if Lookup(d2, k).Some? then (d2, false)
                                       else (WithTarget(d2, Push(d2.Target(), Cell(r, k, v))), true)
  {
    ExpandIfNeededKeeps(d, canResize);
  }

  lemma UndisturbedTrans<R, V>(d: Dict<R, V>, d2: Dict<R, V>, e: Dict<R, V>, it: Iter<R>, keyOf: map<R, Key>,
                               add: set<R>, add': set<R>)
    requires Shifted(Pending(d, it), Pending(d2, it), {}, add) && Undisturbed(d2, e, it, keyOf, {}, add')
    ensures Undisturbed(d, e, it, keyOf, {}, add + add')
  {
  }

  /** The addresses an insertion of `k` at `r` adds. */
  ghost function NewRefs<R, V>(d: Dict<R, V>, r: R, k: Key): set<R> {
    if Lookup(d, k).None? then {r} else {}
  }

  lemma AddUndisturbed<R, V>(d: Dict<R, V>, it: Iter<R>, keyOf: map<R, Key>, r: R, k: Key, v: V, canResize: bool)
    requires Inv(d) && Owned(d, keyOf) && WellPlaced(d, it) && d.iterators >= 1 && (Lookup(d, k).None? ==> r !in keyOf)
    ensures Undisturbed(d, Add(d, r, k, v, canResize).0, it, Extended(d, keyOf, r, k), {}, NewRefs(d, r, k))
  {
    AddWhileFrozen(d, r, k, v, canResize);
    GrowthUndisturbed(d, it, keyOf, canResize);
    var d2 := ExpandIfNeeded(d, canResize).0;
    if Lookup(d2, k).None? {
      var c := Cell(r, k, v);
      InsertUndisturbed(d2, it, keyOf, c);
      UndisturbedTrans(d, d2, WithTarget(d2, Push(d2.Target(), c)), it, keyOf[r := k], {}, {r});
      assert {} + {r} == {r};
    }
  }

  lemma AddSound<R, V>(s: Run<R, V>, start: set<R>, r: R, k: Key, v: V, canResize: bool)
    requires Sound(s, start) && Allowed(s, EvAdd(r, k, v, canResize))
    ensures Sound(Advance(s, EvAdd(r, k, v, canResize)), start)
  {
    AddUndisturbed(s.d, s.it, s.keyOf, r, k, v, canResize);
    ShiftKeepsSound(s, Advance(s, EvAdd(r, k, v, canResize)), start, {}, NewRefs(s.d, r, k));
  }

  lemma SetValUndisturbed<R, V>(d: Dict<R, V>, it: Iter<R>, keyOf: map<R, Key>, k: Key, v: V)
    requires Inv(d) && Owned(d, keyOf) && WellPlaced(d, it) && d.iterators >= 1 && Lookup(d, k).Some?
    ensures Undisturbed(d, SetVal(d, k, v), it, keyOf, {}, {})
  {
    SetValKeeps(d, k, v);
    PutValPending(d, SetVal(d, k, v), it, keyOf, if CellAt(d.ht0, k).Some? then 0 else 1, k, v);
  }

  lemma ReplaceWhileFrozen<R, V>(d: Dict<R, V>, r: R, k: Key, v: V, canResize: bool)
    requires Inv(d) && d.iterators >= 1
    ensures var (d1, added) := Add(d, r, k, v, canResize);
      && (added ==> Replace(d, r, k, v, canResize).0 == d1)
      && (!added ==> Lookup(d1, k).Some? && Replace(d, r, k, v, canResize).0 == SetVal(d1, k, v))
  {
    AddKeeps(d, r, k, v, canResize);
    AddWhileFrozen(d, r, k, v, canResize);
    StepKeeps(Add(d, r, k, v, canResize).0);
    ExpandIfNeededKeeps(d, canResize);
  }

  lemma OverwriteUndisturbed<R, V>(d: Dict<R, V>, d1: Dict<R, V>, it: Iter<R>, keyOf: map<R, Key>, add: set<R>,
                                   k: Key, v: V)
    requires Undisturbed(d, d1, it, keyOf, {}, add) && Lookup(d1, k).Some?
    ensures Undisturbed(d, SetVal(d1, k, v), it, keyOf, {}, add)
  {
    SetValUndisturbed(d1, it, keyOf, k, v);
    UndisturbedTrans(d, d1, SetVal(d1, k, v), it, keyOf, add, {});
    assert add + {} == add;
  }

  lemma ReplaceUndisturbed<R, V>(d: Dict<R, V>, it: Iter<R>, keyOf: map<R, Key>, r: R, k: Key, v: V, canResize: bool)
    requires Inv(d) && Owned(d, keyOf) && WellPlaced(d, it) && d.iterators >= 1 && (Lookup(d, k).None? ==> r !in keyOf)
    ensures Undisturbed(d, Replace(d, r, k, v, canResize).0, it, Extended(d, keyOf, r, k), {}, NewRefs(d, r, k))
  {
    AddUndisturbed(d, it, keyOf, r, k, v, canResize);
    ReplaceWhileFrozen(d, r, k, v, canResize);
    var (d1, added) := Add(d, r, k, v, canResize);
    if !added { OverwriteUndisturbed(d, d1, it, Extended(d, keyOf, r, k), NewRefs(d, r, k), k, v); }
  }

  lemma ReplaceSound<R, V>(s: Run<R, V>, start: set<R>, r: R, k: Key, v: V, canResize: bool)
    requires Sound(s, start) && Allowed(s, EvReplace(r, k, v, canResize))
    ensures Sound(Advance(s, EvReplace(r, k, v, canResize)), start)
  {
    ReplaceUndisturbed(s.d, s.it, s.keyOf, r, k, v, canResize);
    ShiftKeepsSound(s, Advance(s, EvReplace(r, k, v, canResize)), start, {}, NewRefs(s.d, r, k));
  }

  lemma DeleteSound<R, V>(s: Run<R, V>, start: set<R>, k: Key)
    requires Sound(s, start) && Allowed(s, EvDelete(k))
    ensures Sound(Advance(s, EvDelete(k)), start)
  {
    var s' := Advance(s, EvDelete(k));
    DeleteKeeps(s.d, k);
    if Lookup(s.d, k).Some? {
      var w := if CellAt(s.d.ht0, k).Some? then 0 else 1;
      UnlinkPending(s.d, s'.d, s.it, s.keyOf, w, k);
      ShiftKeepsSound(s, s', start, {Lookup(s.d, k).value.ref}, {});
    } else {
      ShiftKeepsSound(s, s', start, {}, {});
    }
  }

  lemma NextSound<R, V>(s: Run<R, V>, start: set<R>)
    requires Sound(s, start)
    ensures Sound(Advance(s, EvNext), start)
  {
    NextPending(s.d, s.keyOf, s.it);
    var s' := Advance(s, EvNext);
    var c := Next(s.d, s.it).1;
    if c.Some? {
      PendingIsOwned(s.d, s.it, s.keyOf);
    }
  }

  lemma PendingIsOwned<R, V>(d: Dict<R, V>, it: Iter<R>, keyOf: map<R, Key>)
    requires Owned(d, keyOf) && WellPlaced(d, it)
    ensures Pending(d, it) <= keyOf.Keys
  {
  }

  lemma AdvanceSound<R, V>(s: Run<R, V>, start: set<R>, ev: Event<R, V>)
    requires Sound(s, start) && Allowed(s, ev)
    ensures Sound(Advance(s, ev), start)
  {
    match ev
    case EvNext => NextSound(s, start);
    case EvFind(k) => FindKeeps(s.d, k);
    case EvAdd(r, k, v, can) => AddSound(s, start, r, k, v, can);
    case EvReplace(r, k, v, can) => ReplaceSound(s, start, r, k, v, can);
    case EvDelete(k) => DeleteSound(s, start, k);
    case EvExpand(size) =>
      ExpandKeeps(s.d, size);
      ExpandPending(s.d, size, s.it);
    case EvResize(can) =>
      var n := if s.d.ht0.used < 4 then 4 else s.d.ht0.used;
      ExpandKeeps(s.d, n);
      ExpandPending(s.d, n, s.it);
  }

  /** Every event of the run is allowed when it happens. */
  ghost predicate Legal<R, V>(s: Run<R, V>, evs: seq<Event<R, V>>)
    decreases |evs|
  {
    evs != [] ==> Allowed(s, evs[0]) && Legal(Advance(s, evs[0]), evs[1..])
  }

  ghost function Play<R, V>(s: Run<R, V>, evs: seq<Event<R, V>>): Run<R, V>
    decreases |evs|
  {
    if evs == [] then s else Play(Advance(s, evs[0]), evs[1..])
  }

  lemma {:induction false} PlaySound<R, V>(s: Run<R, V>, start: set<R>, evs: seq<Event<R, V>>)
    requires Sound(s, start) && Legal(s, evs)
    ensures Sound(Play(s, evs), start)
    decreases |evs|
  {
    if evs != [] {
      AdvanceSound(s, start, evs[0]);
      PlaySound(Advance(s, evs[0]), start, evs[1..]);
    }
  }

  /** The first `dict_next`. */
  lemma StartSound<R, V>(d: Dict<R, V>, keyOf: map<R, Key>)
    requires Inv(d) && Owned(d, keyOf) && d.iterators >= 0
    ensures Sound(Advance(Run(d, NewIter(true), keyOf, {}, []), EvNext), AllRefs(d))
  {
    var s0 := Run(d, NewIter<R>(true), keyOf, {}, []);
    var s1 := Advance(s0, EvNext);
    NextPending(s1.d, keyOf, s0.it);
    assert Pending(s1.d, s0.it) == AllRefs(d);
    PendingIsOwned(s1.d, s0.it, keyOf);
  }

  /** When the next `dict_next` would return NULL. */
  lemma SoundAtEnd<R, V>(s: Run<R, V>, start: set<R>)
    requires Sound(s, start) && Next(s.d, s.it).1.None?
    ensures forall r :: r in start ==> r in s.returned || r in s.deleted
  {
    NextPending(s.d, s.keyOf, s.it);
  }

  /**
   * Safe iteration. Begin with a new safe iterator on a sound dictionary and call `dict_next` once;
   * then let any allowed events follow. No entry is ever returned twice, and when `dict_next` returns
   * NULL every entry that was present at the beginning has been returned (exactly once) or deleted.
   */
  lemma SafeIteration<R, V>(d: Dict<R, V>, keyOf: map<R, Key>, evs: seq<Event<R, V>>)
    requires Inv(d) && Owned(d, keyOf) && d.iterators >= 0
    requires Legal(Advance(Run(d, NewIter(true), keyOf, {}, []), EvNext), evs)
    ensures var s := Play(Advance(Run(d, NewIter(true), keyOf, {}, []), EvNext), evs);
      && NoneTwice(s.returned)
      && (Next(s.d, s.it).1.None? ==> forall r :: r in AllRefs(d) ==> r in s.returned || r in s.deleted)
  {
    StartSound(d, keyOf);
    var s1 := Advance(Run(d, NewIter<R>(true), keyOf, {}, []), EvNext);
    PlaySound(s1, AllRefs(d), evs);
    var s := Play(s1, evs);
    if Next(s.d, s.it).1.None? { SoundAtEnd(s, AllRefs(d)); }
  }
}
