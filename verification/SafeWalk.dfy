/**
 * A caller's loop over a safe iterator on the linked table, with any operations in between: the events of
 * `DictSafeIter` as the program performs them.
 */
module SafeWalk {
  import M = DictModel
  import I = DictIter
  import opened DictTheorems
  import opened DictSafeIter
  import S = DictSweep
  import opened Dicts
  import opened DictIterators
  import opened CleanProcess

  /** What the caller does to the table between two calls of `dict_next`. */
  datatype Act<V> =
    | Find(key: M.Key)
    | Add(key: M.Key, val: V, canResize: bool)
    | Replace(key: M.Key, val: V, canResize: bool)
    | DeleteCurrent
    | Expand(size: nat)
    | Resize(canResize: bool)

  /** What an act does to the map, right after an entry of key `current` was returned. */
  function MapAct<V>(m: map<M.Key, V>, act: Act<V>, current: M.Key): map<M.Key, V> {
    match act
    case Add(k, v, _) => if k in m then m else m[k := v]
    case Replace(k, v, _) => m[k := v]
    case DeleteCurrent => m - {current}
    case _ => m
  }

  function MapActs<V>(m: map<M.Key, V>, acts: seq<Act<V>>, current: M.Key): map<M.Key, V> {
    if acts == [] then m else MapAct(MapActs(m, acts[..|acts| - 1], current), acts[|acts| - 1], current)
  }

  /** What the whole script does to the map when `returned` are the entries it is run after. */
  ghost function MapScript<V>(m: map<M.Key, V>, script: seq<seq<Act<V>>>, returned: seq<Entry<V>>): map<M.Key, V>
    requires |script| <= |returned|
  {
    var n := |script| - 1;
    if n < 0 then m else MapActs(MapScript(m, script[..n], returned), script[n], returned[n].key)
  }

  type EntryRun<V> = Run<Entry<V>, V>
  type EntryEvent<V> = Event<Entry<V>, V>

  ghost predicate KeyReturned<V>(returned: seq<Entry<V>>, k: M.Key) {
    exists i :: 0 <= i < |returned| && returned[i].key == k
  }

  /** The saved successor has another key than the entry just returned. */
  ghost predicate Elsewhere<V>(s: EntryRun<V>, current: M.Key) {
    s.it.entry.Some? && s.it.next.Some? ==> s.it.next.value in s.keyOf && s.keyOf[s.it.next.value] != current
  }

  /** Addresses carry their keys, and what was deleted had been returned, as an entry of its key. */
  ghost predicate Honest<V>(s: EntryRun<V>) {
    && (forall r :: r in s.keyOf ==> s.keyOf[r] == r.key)
    && (forall r :: r in s.deleted ==> KeyReturned(s.returned, r.key))
  }

  /** The run between two calls of `dict_next`, the last of which returned an entry with key `current`. */
  ghost predicate Between<V>(s: EntryRun<V>, start: set<Entry<V>>, current: M.Key) {
    Sound(s, start) && Honest(s) && Elsewhere(s, current) && KeyReturned(s.returned, current)
  }

  /** Events a caller's acts cause: new entries carry the new key, and only the current key is deleted. */
  ghost predicate Acts<V>(s: EntryRun<V>, ev: EntryEvent<V>, current: M.Key) {
    match ev
    case EvNext => false
    case EvAdd(r, k, _, _) => M.Lookup(s.d, k).None? ==> r !in s.keyOf && r.key == k
    case EvReplace(r, k, _, _) => M.Lookup(s.d, k).None? ==> r !in s.keyOf && r.key == k
    case EvDelete(k) => k == current
    case _ => true
  }

  lemma ActAllowed<V>(s: EntryRun<V>, start: set<Entry<V>>, current: M.Key, ev: EntryEvent<V>)
    requires Between(s, start, current) && Acts(s, ev, current)
    ensures Allowed(s, ev)
  {
    if ev.EvDelete? && M.Lookup(s.d, current).Some? { S.LookupOwned(s.d, s.keyOf, current); }
  }

  lemma ActHonest<V>(s: EntryRun<V>, start: set<Entry<V>>, current: M.Key, ev: EntryEvent<V>)
    requires Between(s, start, current) && Acts(s, ev, current)
    ensures var s' := Advance(s, ev); Honest(s') && Elsewhere(s', current) && s'.returned == s.returned && s'.it == s.it
  {
    if ev.EvDelete? && M.Lookup(s.d, current).Some? { S.LookupOwned(s.d, s.keyOf, current); }
  }

  lemma ActKeeps<V>(s: EntryRun<V>, start: set<Entry<V>>, current: M.Key, ev: EntryEvent<V>)
    requires Between(s, start, current) && Acts(s, ev, current)
    ensures var s' := Advance(s, ev); Between(s', start, current) && s'.returned == s.returned && s'.it == s.it
  {
    ActAllowed(s, start, current, ev);
    ActHonest(s, start, current, ev);
    AdvanceSound(s, start, ev);
  }

  lemma StepIsFrozen<V>(d: M.Dict<Entry<V>, V>)
    requires d.iterators >= 1
    ensures M.Step(d) == d
  {
  }

  lemma AddCounts<V>(d: M.Dict<Entry<V>, V>, r: Entry<V>, k: M.Key, v: V, can: bool)
    requires M.Inv(d) && d.iterators >= 1
    ensures M.Add(d, r, k, v, can).0.iterators == d.iterators
  {
    AddWhileFrozen(d, r, k, v, can);
  }

  lemma ReplaceCounts<V>(d: M.Dict<Entry<V>, V>, r: Entry<V>, k: M.Key, v: V, can: bool)
    requires M.Inv(d) && d.iterators >= 1
    ensures M.Replace(d, r, k, v, can).0.iterators == d.iterators
  {
    AddCounts(d, r, k, v, can);
    ReplaceWhileFrozen(d, r, k, v, can);
  }

  /** No act counts iterators. */
  lemma ActCounts<V>(s: EntryRun<V>, start: set<Entry<V>>, current: M.Key, ev: EntryEvent<V>)
    requires Between(s, start, current) && Acts(s, ev, current)
    ensures Advance(s, ev).d.iterators == s.d.iterators
  {
    StepIsFrozen(s.d);
    match ev
    case EvAdd(r, k, v, can) => AddCounts(s.d, r, k, v, can);
    case EvReplace(r, k, v, can) => ReplaceCounts(s.d, r, k, v, can);
    case _ =>
  }

  method DoAdd<V>(d: Dict<V>, key: M.Key, val: V, can: bool) returns (ghost r: Entry<V>)
    requires d.Valid()
    modifies d, d.Repr
    ensures d.Valid() && fresh(d.Repr - old(d.Repr))
    ensures d.m == M.Add(old(d.m), r, key, val, can).0
    ensures d.Map() == if key in old(d.Map()) then old(d.Map()) else old(d.Map())[key := val]
    ensures M.Lookup(old(d.m), key).None? ==> fresh(r) && r.key == key
  {
    MapIsLookup(d.m, key);
    var ok, e := d.Add(key, val, can);
    r := if ok then e else M.Lookup(old(d.m), key).value.ref;
  }

  method DoReplace<V>(d: Dict<V>, key: M.Key, val: V, can: bool) returns (ghost r: Entry<V>)
    requires d.Valid()
    modifies d, d.Repr
    ensures d.Valid() && fresh(d.Repr - old(d.Repr))
    ensures d.m == M.Replace(old(d.m), r, key, val, can).0 && d.Map() == old(d.Map())[key := val]
    ensures M.Lookup(old(d.m), key).None? ==> fresh(r) && r.key == key
  {
    MapIsLookup(d.m, key);
    RoomMap(d.m, key, can);
    var isNew, e := d.Replace(key, val, can);
    r := if isNew then e else M.Lookup(old(d.m), key).value.ref;
    if !isNew { OverwriteMap(old(d.m), key, val, can); }
  }

  /** An insertion, and the event it is. */
  method Insert<V>(d: Dict<V>, act: Act<V>, current: M.Key, ghost s: EntryRun<V>) returns (ghost ev: EntryEvent<V>)
    requires d.Valid() && s.d == d.m && (act.Add? || act.Replace?)
    modifies d, d.Repr
    ensures d.Valid() && fresh(d.Repr - old(d.Repr))
    ensures Acts(s, ev, current) && d.m == Advance(s, ev).d && d.Map() == MapAct(old(d.Map()), act, current)
  {
    if act.Add? {
      ghost var r := DoAdd(d, act.key, act.val, act.canResize);
      ev := EvAdd(r, act.key, act.val, act.canResize);
    } else {
      ghost var r := DoReplace(d, act.key, act.val, act.canResize);
      ev := EvReplace(r, act.key, act.val, act.canResize);
    }
  }

  /** One act, and the event it is. */
  method Perform<V>(d: Dict<V>, act: Act<V>, current: M.Key, ghost s: EntryRun<V>) returns (ghost ev: EntryEvent<V>)
    requires d.Valid() && s.d == d.m
    modifies d, d.Repr
    ensures d.Valid() && fresh(d.Repr - old(d.Repr))
    ensures Acts(s, ev, current) && d.m == Advance(s, ev).d && d.Map() == MapAct(old(d.Map()), act, current)
  {
    match act
    case Find(k) => var _ := d.Find(k); ev := EvFind(k);
    case DeleteCurrent => var _ := d.Delete(current); ev := EvDelete(current);
    case Expand(size) => var _ := d.Expand(size); ev := EvExpand(size);
    case Resize(can) => var _ := d.Resize(can); ev := EvResize(can);
    case _ => ev := Insert(d, act, current, s);
  }

  /** The objects are at run `s`. */
  ghost predicate At<V>(d: Dict<V>, it: Iterator<V>, s: EntryRun<V>)
    reads d, d.Repr, it
  {
    d.Valid() && it.d == d && it.safe && it !in d.Repr && s.d == d.m && s.it == it.Value()
  }

  /** One act during the walk. */
  method PerformOne<V>(d: Dict<V>, it: Iterator<V>, act: Act<V>, current: M.Key, ghost s: EntryRun<V>,
                       ghost start: set<Entry<V>>)
    returns (ghost s': EntryRun<V>)
    requires At(d, it, s) && Between(s, start, current)
    modifies d, d.Repr
    ensures At(d, it, s') && Between(s', start, current) && s'.returned == s.returned && fresh(d.Repr - old(d.Repr))
    ensures d.Map() == MapAct(old(d.Map()), act, current) && d.iterators == old(d.iterators)
  {
    ghost var ev := Perform(d, act, current, s);
    ActKeeps(s, start, current, ev);
    ActCounts(s, start, current, ev);
    s' := Advance(s, ev);
  }

  lemma OneMoreAct<V>(m: map<M.Key, V>, acts: seq<Act<V>>, current: M.Key, i: nat)
    requires i < |acts|
    ensures MapActs(m, acts[..i + 1], current) == MapAct(MapActs(m, acts[..i], current), acts[i], current)
  {
    assert acts[..i + 1][..i] == acts[..i];
  }

  /** The acts between two calls of `dict_next`. */
  method PerformAll<V>(d: Dict<V>, it: Iterator<V>, acts: seq<Act<V>>, current: M.Key, ghost s: EntryRun<V>,
                       ghost start: set<Entry<V>>)
    returns (ghost s': EntryRun<V>)
    requires At(d, it, s) && Between(s, start, current)
    modifies d, d.Repr
    ensures At(d, it, s') && Between(s', start, current) && s'.returned == s.returned && fresh(d.Repr - old(d.Repr))
    ensures d.Map() == MapActs(old(d.Map()), acts, current) && d.iterators == old(d.iterators)
  {
    s' := s;
    for i := 0 to |acts|
      invariant At(d, it, s') && Between(s', start, current) && s'.returned == s.returned
      invariant fresh(d.Repr - old(d.Repr)) && d.Map() == MapActs(old(d.Map()), acts[..i], current)
      invariant d.iterators == old(d.iterators)
    {
      s' := PerformOne(d, it, acts[i], current, s', start);
      OneMoreAct(old(d.Map()), acts, current, i);
    }
    assert acts[..|acts|] == acts;
  }

  /** What `dict_next` returns is in the run, and its successor has another key. */
  lemma NextBetween<V>(s: EntryRun<V>, start: set<Entry<V>>, e: Entry<V>)
    requires Sound(Advance(s, EvNext), start) && Honest(s)
    requires var d := I.Register(s.d, s.it); M.Inv(d) && I.Owned(d, s.keyOf) && I.Placed(d, s.it)
    requires var c := I.Next(I.Register(s.d, s.it), s.it).1; c.Some? && c.value.key == e.key && c.value.ref == e
    ensures Between(Advance(s, EvNext), start, e.key)
  {
    var d, s' := I.Register(s.d, s.it), Advance(s, EvNext);
    var w, i, j := S.NextCell(d, s.it);
    if j + 1 < |I.Buckets(d, w)[i]| {
      S.KeysDiffer(d, w, i, j);
      assert s'.keyOf[I.Buckets(d, w)[i][j + 1].ref] == I.Buckets(d, w)[i][j + 1].key;
    }
    assert s'.returned[|s.returned|].key == e.key;
    StillReturned(s.returned, e);
  }

  lemma StillReturned<V>(returned: seq<Entry<V>>, e: Entry<V>)
    ensures forall k :: KeyReturned(returned, k) ==> KeyReturned(returned + [e], k)
  {
    forall k | KeyReturned(returned, k) ensures KeyReturned(returned + [e], k) {
      var i :| 0 <= i < |returned| && returned[i].key == k;
      assert (returned + [e])[i].key == k;
    }
  }

  /** The loop invariant: run `s` is what the caller sees; `de` is the entry just returned, or NULL at the end. */
  ghost predicate Looping<V>(s: EntryRun<V>, start: set<Entry<V>>, returned: seq<Entry<V>>, de: Entry?<V>) {
    && s.returned == returned && Sound(s, start) && Honest(s)
    && (de != null ==> Between(s, start, de.key))
    && (de == null ==> forall r :: r in start ==> r in returned || r in s.deleted)
  }

  /** A `dict_next` after acts. */
  lemma NextLooping<V>(s: EntryRun<V>, start: set<Entry<V>>, de: Entry?<V>)
    requires Sound(s, start) && Honest(s)
    requires var c := I.Next(s.d, s.it).1;
      (de == null <==> c.None?) && (de != null ==> c.value.key == de.key && c.value.ref == de)
    ensures Looping(Advance(s, EvNext), start, if de != null then s.returned + [de] else s.returned, de)
    ensures Advance(s, EvNext).d == s.d && Advance(s, EvNext).it == I.Next(s.d, s.it).0
  {
    NextSound(s, start);
    I.WellPlacedIsPlaced(s.d, s.it);
    if de == null { SoundAtEnd(s, start); } else { NextBetween(s, start, de); }
  }

  /** The first `dict_next`, with nothing returned before. */
  lemma FirstLooping<V>(d: M.Dict<Entry<V>, V>, keyOf: map<Entry<V>, M.Key>, de: Entry?<V>)
    requires M.Inv(d) && I.Owned(d, keyOf) && d.iterators >= 0 && forall r :: r in keyOf ==> keyOf[r] == r.key
    requires var c := I.Next(I.Register(d, I.NewIter(true)), I.NewIter(true)).1;
      (de == null <==> c.None?) && (de != null ==> c.value.key == de.key && c.value.ref == de)
    ensures Looping(Advance(Run(d, I.NewIter(true), keyOf, {}, []), EvNext), I.AllRefs(d),
                    if de != null then [de] else [], de)
  {
    var s := Run(d, I.NewIter<Entry<V>>(true), keyOf, {}, []);
    StartSound(d, keyOf);
    if de == null {
      I.NextPending(I.Register(d, s.it), keyOf, s.it);
      assert I.Pending(I.Register(d, s.it), s.it) == I.AllRefs(d);
    } else {
      NextBetween(s, I.AllRefs(d), de);
      assert [] + [de] == [de];
    }
  }

  /** A key that was in the map had an entry at the start. */
  lemma KeysStarted<V>(d: M.Dict<Entry<V>, V>, keyOf: map<Entry<V>, M.Key>, k: M.Key)
    requires M.Inv(d) && I.Owned(d, keyOf) && k in MapOf(d)
    ensures exists r :: r in I.AllRefs(d) && r in keyOf && keyOf[r] == k
  {
    MapIsLookup(d, k);
    S.FoundIsHeld(d, k);
    S.LookupOwned(d, keyOf, k);
  }

  /** At the end every key of the start has been returned. */
  lemma AllKeysReturned<V>(d: M.Dict<Entry<V>, V>, keyOf: map<Entry<V>, M.Key>, s: EntryRun<V>, returned: seq<Entry<V>>)
    requires M.Inv(d) && I.Owned(d, keyOf) && (forall r :: r in keyOf ==> keyOf[r] == r.key)
    requires Looping(s, I.AllRefs(d), returned, null)
    ensures forall k :: k in MapOf(d) ==> KeyReturned(returned, k)
  {
    forall k | k in MapOf(d) ensures KeyReturned(returned, k) {
      KeysStarted(d, keyOf, k);
      var r :| r in I.AllRefs(d) && r in keyOf && keyOf[r] == k;
      if r in returned { var i :| 0 <= i < |returned| && returned[i] == r; assert returned[i].key == k; }
    }
  }

  /** Counting an iterator changes no entry. */
  lemma CountingKeepsMap<V>(d: M.Dict<Entry<V>, V>, e: M.Dict<Entry<V>, V>)
    requires M.Inv(d) && e == d.(iterators := e.iterators)
    ensures MapOf(e) == MapOf(d)
  {
    assert M.SameLookups(d, e);
    SameLookupsSameMap(d, e);
  }

  /** `dict_get_safe_iterator` and the first `dict_next`. */
  method Open<V>(d: Dict<V>)
    returns (it: Iterator<V>, de: Entry?<V>, ghost s: EntryRun<V>, ghost keyOf: map<Entry<V>, M.Key>)
    requires d.Valid() && d.iterators >= 0
    modifies d
    ensures d.Repr == old(d.Repr) && d.Map() == old(d.Map()) && fresh(it) && At(d, it, s)
    ensures I.Owned(old(d.m), keyOf) && (forall r :: r in keyOf ==> keyOf[r] == r.key)
    ensures Looping(s, I.AllRefs(old(d.m)), if de != null then [de] else [], de) && d.iterators == old(d.iterators) + 1
  {
    keyOf := KeysByEntry(d);
    it := new Iterator<V>(d, true);
    ghost var c;
    de, c := it.Next();
    FirstLooping(old(d.m), keyOf, de);
    CountingKeepsMap(old(d.m), d.m);
    s := Advance(Run(old(d.m), I.NewIter<Entry<V>>(true), keyOf, {}, []), EvNext);
  }

  /** The acts of one turn, and `dict_next`. */
  method Turn<V>(d: Dict<V>, it: Iterator<V>, acts: seq<Act<V>>, de: Entry<V>, ghost s: EntryRun<V>,
                 ghost start: set<Entry<V>>)
    returns (next: Entry?<V>, ghost s': EntryRun<V>)
    requires At(d, it, s) && Looping(s, start, s.returned, de)
    modifies d, d.Repr, it
    ensures At(d, it, s') && fresh(d.Repr - old(d.Repr)) && d.Map() == MapActs(old(d.Map()), acts, de.key)
    ensures Looping(s', start, if next != null then s.returned + [next] else s.returned, next)
    ensures d.iterators == old(d.iterators)
  {
    s' := PerformAll(d, it, acts, de.key, s, start);
    I.WellPlacedIsPlaced(s'.d, s'.it);
    ghost var c;
    next, c := it.Next();
    NextLooping(s', start, next);
    s' := Advance(s', EvNext);
  }

  /** One batch more, and the entries returned since do not change what the earlier ones did. */
  lemma {:induction false} OneMoreTurn<V>(m: map<M.Key, V>, script: seq<seq<Act<V>>>, i: nat, returned: seq<Entry<V>>,
                                         more: seq<Entry<V>>)
    requires i < |script| && |returned| == i + 1
    ensures MapScript(m, script[..i + 1], returned + more) ==
            MapActs(MapScript(m, script[..i], returned), script[i], returned[i].key)
  {
    assert script[..i + 1][..i] == script[..i];
    LaterEntries(m, script[..i], returned, more);
  }

  lemma {:induction false} LaterEntries<V>(m: map<M.Key, V>, script: seq<seq<Act<V>>>, returned: seq<Entry<V>>,
                                          more: seq<Entry<V>>)
    requires |script| <= |returned|
    ensures MapScript(m, script, returned + more) == MapScript(m, script, returned)
  {
    if script != [] { LaterEntries(m, script[..|script| - 1], returned, more); }
  }

  /** How far the loop is: as many entries as batches performed, and one more unless NULL was returned. */
  ghost predicate Progress<V>(m: map<M.Key, V>, now: map<M.Key, V>, script: seq<seq<Act<V>>>, turns: nat,
                              returned: seq<Entry<V>>, de: Entry?<V>)
  {
    && turns <= |script| && |returned| == (if de != null then turns + 1 else turns)
    && (de != null ==> de == returned[turns])
    && now == MapScript(m, script[..turns], returned)
  }

  lemma ProgressOn<V>(m: map<M.Key, V>, was: map<M.Key, V>, now: map<M.Key, V>, script: seq<seq<Act<V>>>, turns: nat,
                      returned: seq<Entry<V>>, de: Entry<V>, next: Entry?<V>)
    returns (returned': seq<Entry<V>>)
    requires Progress(m, was, script, turns, returned, de) && turns < |script|
    requires now == MapActs(was, script[turns], de.key)
    ensures returned' == if next != null then returned + [next] else returned
    ensures Progress(m, now, script, turns + 1, returned', next)
  {
    var more := if next != null then [next] else [];
    returned' := returned + more;
    OneMoreTurn(m, script, turns, returned, more);
  }

  /** The body of the loop. */
  method NextTurn<V>(d: Dict<V>, it: Iterator<V>, script: seq<seq<Act<V>>>, turns: nat, returned: seq<Entry<V>>,
                     de: Entry<V>, ghost s: EntryRun<V>, ghost start: set<Entry<V>>, ghost m: map<M.Key, V>)
    returns (next: Entry?<V>, returned': seq<Entry<V>>, ghost s': EntryRun<V>)
    requires At(d, it, s) && Looping(s, start, returned, de)
    requires turns < |script| && Progress(m, d.Map(), script, turns, returned, de)
    modifies d, d.Repr, it
    ensures At(d, it, s') && fresh(d.Repr - old(d.Repr)) && Looping(s', start, returned', next)
    ensures Progress(m, d.Map(), script, turns + 1, returned', next) && d.iterators == old(d.iterators)
  {
    ghost var was := d.Map();
    next, s' := Turn(d, it, script[turns], de, s, start);
    returned' := if next != null then returned + [next] else returned;
    ghost var same := ProgressOn(m, was, d.Map(), script, turns, returned, de, next);
  }

  /** The loop: `script[i]` is what the caller does after the i-th entry it is given. */
  method Continue<V>(d: Dict<V>, it: Iterator<V>, script: seq<seq<Act<V>>>, first: Entry?<V>, ghost s: EntryRun<V>,
                     ghost start: set<Entry<V>>)
    returns (returned: seq<Entry<V>>, turns: nat, de: Entry?<V>, ghost s': EntryRun<V>)
    requires At(d, it, s) && Looping(s, start, if first != null then [first] else [], first)
    modifies d, d.Repr, it
    ensures At(d, it, s') && fresh(d.Repr - old(d.Repr)) && Looping(s', start, returned, de)
    ensures Progress(old(d.Map()), d.Map(), script, turns, returned, de) && (de != null ==> turns == |script|)
    ensures d.iterators == old(d.iterators)
  {
    de := first;
    turns, s', returned := 0, s, if de != null then [de] else [];
    while de != null && turns < |script|
      invariant At(d, it, s') && fresh(d.Repr - old(d.Repr)) && Looping(s', start, returned, de)
      invariant Progress(old(d.Map()), d.Map(), script, turns, returned, de) && d.iterators == old(d.iterators)
      decreases |script| - turns
    {
      de, returned, s' := NextTurn(d, it, script, turns, returned, de, s', start, old(d.Map()));
      turns := turns + 1;
    }
  }

  /** What the walk that began at `d` has returned by now. */
  lemma WalkIs<V>(d: M.Dict<Entry<V>, V>, keyOf: map<Entry<V>, M.Key>, s: EntryRun<V>, returned: seq<Entry<V>>,
                  de: Entry?<V>)
    requires M.Inv(d) && I.Owned(d, keyOf) && (forall r :: r in keyOf ==> keyOf[r] == r.key)
    requires Looping(s, I.AllRefs(d), returned, de)
    ensures Sound(s, I.AllRefs(d)) && NoneTwice(returned)
    ensures de == null ==> forall k :: k in MapOf(d) ==> KeyReturned(returned, k)
  {
    if de == null { AllKeysReturned(d, keyOf, s, returned); }
  }

  /** `dict_release_iterator`. */
  method Close<V>(d: Dict<V>, it: Iterator<V>, ghost s: EntryRun<V>, ghost start: set<Entry<V>>)
    requires At(d, it, s) && Sound(s, start)
    modifies d
    ensures d.Valid() && d.Repr == old(d.Repr) && d.Map() == old(d.Map()) && d.iterators == old(d.iterators) - 1
  {
    it.Release();
    CountingKeepsMap(old(d.m), d.m);
  }

  /**
   * A caller walks the dictionary with a safe iterator, performing `script[i]` after the i-th entry it is given, and
   * releases the iterator, after which it is no longer counted. No entry is returned twice; the map is what the acts
   * make of it; and unless the caller stops because its script is over, every key that was in the map at the start has
   * been returned, whatever the acts were.
   */
  method Walk<V>(d: Dict<V>, script: seq<seq<Act<V>>>) returns (returned: seq<Entry<V>>, turns: nat)
    requires d.Valid() && d.iterators >= 0
    modifies d, d.Repr
    ensures d.Valid() && d.iterators == old(d.iterators) && NoneTwice(returned)
    ensures turns <= |script| && turns <= |returned| <= turns + 1 && (|returned| > turns ==> turns == |script|)
    ensures d.Map() == MapScript(old(d.Map()), script[..turns], returned)
    ensures |returned| == turns ==> forall k :: k in old(d.Map()) ==> KeyReturned(returned, k)
  {
    ghost var s, keyOf;
    var it, first, de;
    it, first, s, keyOf := Open(d);
    returned, turns, de, s := Continue(d, it, script, first, s, I.AllRefs(old(d.m)));
    WalkIs(old(d.m), keyOf, s, returned, de);
    Close(d, it, s, I.AllRefs(old(d.m)));
  }
}
