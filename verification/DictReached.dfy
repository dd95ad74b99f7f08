/**
 * A table of waiting processes that the program can really have when it is told to clean up: five children
 * registered, two of them reaped. Only one of the other three is then signalled.
 */
module DictReached {
  import opened Bits
  import opened DictModel
  import opened DictTheorems
  import opened DictIter
  import opened DictSweep
  import opened DictMidSweep

  /** The bytes of a pid below 256. */
  function Pid(c: char): Key {
    [c, '\0', '\0', '\0']
  }

  /** Truncation to 32 bits does not matter modulo 8. */
  lemma WordMod(x: nat)
    ensures x % 0x1_0000_0000 % 8 == x % 8
  {
    var q, r := x / 0x1_0000_0000, x % 0x1_0000_0000;
    RemainderIs(x, 8, 0x2000_0000 * q + r / 8, r % 8);
  }

  /** 33 leaves a remainder of 1. */
  lemma HashStepMod(h: nat, c: char)
    ensures HashStep(h, c) % 8 == (h + c as int) % 8
  {
    var y, z := h * 33 + c as int, h + c as int;
    WordMod(y);
    RemainderIs(y, 8, 4 * h + z / 8, z % 8);
  }

  lemma FourOfEight(x: nat, z: nat)
    requires x % 8 == z % 8
    ensures x % 4 == z % 4
  {
    RemainderIs(x, 4, 2 * (x / 8) + x % 8 / 4, x % 8 % 4);
    RemainderIs(z, 4, 2 * (z / 8) + z % 8 / 4, z % 8 % 4);
  }

  lemma HashFromFirst(h: nat, c: char, k: Key)
    ensures HashFrom(h, [c] + k) == HashFrom(HashStep(h, c), k)
  {
    assert ([c] + k)[1..] == k;
  }

  /** A NUL at the front changes nothing modulo 8. */
  lemma NulMod(h: nat, k: Key) returns (g: nat)
    ensures HashFrom(h, ['\0'] + k) == HashFrom(g, k) && g % 8 == h % 8
  {
    g := HashStep(h, '\0');
    HashFromFirst(h, '\0', k);
    HashStepMod(h, '\0');
  }

  /** So modulo 8 the hash is the sum of 5381 and the byte. */
  lemma PidHash(c: char)
    ensures Hash(Pid(c)) % 8 == (5 + c as int) % 8 && Hash(Pid(c)) % 4 == (1 + c as int) % 4
  {
    var three, two, one := ['\0', '\0', '\0'], ['\0', '\0'], ['\0'];
    assert Pid(c) == [c] + three && three == one + two && two == one + one && one == one + [];
    HashFromFirst(5381, c, three);
    HashStepMod(5381, c);
    var h1 := HashStep(5381, c);
    var h2 := NulMod(h1, two);
    var h3 := NulMod(h2, one);
    var h4 := NulMod(h3, []);
    assert Hash(Pid(c)) == h4;
    RemainderIs(5381 + c as int, 8, 672 + (5 + c as int) / 8, (5 + c as int) % 8);
    FourOfEight(h4, 5 + c as int);
    RemainderIs(5 + c as int, 4, 1 + (1 + c as int) / 4, (1 + c as int) % 4);
  }

  lemma PidSlots(c: char)
    ensures NewTable<int, int>(4).slot(Pid(c)) == (1 + c as int) % 4
    ensures NewTable<int, int>(8).slot(Pid(c)) == (5 + c as int) % 8
  {
    PidHash(c);
    assert Pow2(2) == 4 && Pow2(3) == 8 by { assert Pow2(1) == 2; }
    MaskedIndex(Hash(Pid(c)), 4);
    MaskedIndex(Hash(Pid(c)), 8);
  }

  // ----- five children -------------------------------------------------------------------

  /** Five entries; `b0` to `b3` go into the buckets of the first table that their names say. */
  datatype Five<R, V> = Five(b0: Cell<R, V>, b1: Cell<R, V>, b2: Cell<R, V>, b3: Cell<R, V>, fifth: Cell<R, V>)

  function Slot4<R, V>(c: Cell<R, V>): nat { NewTable<R, V>(4).slot(c.key) }
  function Slot8<R, V>(c: Cell<R, V>): nat { NewTable<R, V>(8).slot(c.key) }

  /** In the second table `b0`, `b2`, `b3` and the fifth each have a bucket of their own. */
  ghost predicate Spread<R, V>(v: Five<R, V>) {
    && Slot4(v.b0) == 0 && Slot4(v.b1) == 1 && Slot4(v.b2) == 2 && Slot4(v.b3) == 3
    && Slot8(v.b0) == 4 && Slot8(v.b2) == 2 && Slot8(v.b3) == 3 && Slot8(v.fifth) == 5
    && v.fifth.key != v.b1.key
  }

  /** A table of 4 or 8 buckets that has not been resized. */
  function Sized<R, V>(size: nat, b: seq<seq<Cell<R, V>>>, used: int): Table<R, V> {
    NewTable(size).(buckets := b, used := used)
  }

  function Small<R, V>(b0: seq<Cell<R, V>>, b1: seq<Cell<R, V>>, b2: seq<Cell<R, V>>, b3: seq<Cell<R, V>>, used: int)
    : Table<R, V>
  {
    Sized(4, [b0, b1, b2, b3], used)
  }

  /** The second table, with buckets 2 to 5. */
  function Large<R, V>(b2: seq<Cell<R, V>>, b3: seq<Cell<R, V>>, b4: seq<Cell<R, V>>, b5: seq<Cell<R, V>>, used: int)
    : Table<R, V>
  {
    Sized(8, [[], [], b2, b3, b4, b5, [], []], used)
  }

  function Idle<R, V>(t: Table<R, V>): Dict<R, V> {
    Dict(t, NoTable(), -1, 0)
  }

  // ----- registering ---------------------------------------------------------------------

  lemma IdleStep<R, V>(t: Table<R, V>)
    ensures Step(Idle(t)) == Idle(t)
  {
  }

  /** While there is room, an entry goes into its bucket. */
  lemma AddOne<R, V>(b: seq<seq<Cell<R, V>>>, used: int, c: Cell<R, V>)
    requires |b| == 4 && 0 <= used < 4 && Slot4(c) < 4 && b[Slot4(c)] == []
    ensures Add(Idle(Sized(4, b, used)), c.ref, c.key, c.val, true) ==
            (Idle(Sized(4, b[Slot4(c) := [c]], used + 1)), true)
  {
    IdleStep(Sized(4, b, used));
    assert [c] + [] == [c];
  }

  /** The first creates the table. */
  lemma AddFirst<R, V>(c: Cell<R, V>)
    requires Slot4(c) == 1
    ensures Add(Create(), c.ref, c.key, c.val, true) == (Idle(Small([], [c], [], [], 1)), true)
  {
    var b: seq<seq<Cell<R, V>>> := [[], [], [], []];
    assert NewTable<R, V>(4).buckets == b;
    assert NextPower(4) == 4;
    IdleStep<R, V>(NoTable());
    assert ExpandIfNeeded<R, V>(Create(), true) == (Idle(Sized(4, b, 0)), true);
    assert [c] + [] == [c] && b[1 := [c]] == [[], [c], [], []];
  }

  /** The fifth starts a migration and goes into the new table. */
  lemma AddFifth<R, V>(b: seq<seq<Cell<R, V>>>, c: Cell<R, V>)
    requires |b| == 4 && CellAt(Sized(4, b, 4), c.key).None? && Slot8(c) == 5
    ensures Add(Idle(Sized(4, b, 4)), c.ref, c.key, c.val, true) ==
            (Dict(Sized(4, b, 4), Large([], [], [], [c], 1), 0, 0), true)
  {
    var none: seq<seq<Cell<R, V>>> := [[], [], [], [], [], [], [], []];
    assert NewTable<R, V>(8).buckets == none;
    assert NextPower(8) == Doubled(8, 8) == 8;
    IdleStep(Sized(4, b, 4));
    var e := Dict(Sized(4, b, 4), Sized(8, none, 0), 0, 0);
    assert ExpandIfNeeded(Idle(Sized(4, b, 4)), true) == (e, true);
    assert [c] + [] == [c] && none[5 := [c]] == [[], [], [], [], [], [c], [], []];
  }

  /** `run_prog` registers its child. */
  function AddOf<R, V>(c: Cell<R, V>): Op<R, V> {
    OpAdd(c.ref, c.key, c.val, true)
  }

  function Registered<R, V>(v: Five<R, V>): seq<Op<R, V>> {
    [AddOf(v.b1), AddOf(v.b2), AddOf(v.b3), AddOf(v.b0), AddOf(v.fifth)]
  }

  /** `handle_sigchild` fetches the entry of each and deletes it. */
  function Reaped<R, V>(v: Five<R, V>): seq<Op<R, V>> {
    [OpFind(v.b1.key), OpDelete(v.b1.key), OpFind(v.b2.key), OpDelete(v.b2.key)]
  }

  lemma RunOne<R, V>(d: Dict<R, V>, op: Op<R, V>, ops: seq<Op<R, V>>)
    ensures RunDict(d, [op] + ops).0 == RunDict(Apply(d, op).0, ops).0
  {
    assert ([op] + ops)[1..] == ops;
  }

  lemma RunTwo<R, V>(d: Dict<R, V>, op1: Op<R, V>, op2: Op<R, V>, ops: seq<Op<R, V>>)
    ensures RunDict(d, [op1, op2] + ops).0 == RunDict(Apply(Apply(d, op1).0, op2).0, ops).0
  {
    RunOne(d, op1, [op2] + ops);
    RunOne(Apply(d, op1).0, op2, ops);
    assert [op1] + ([op2] + ops) == [op1, op2] + ops;
  }

  /** Two entries into buckets 1 and 2. */
  lemma FirstTwo<R, V>(v: Five<R, V>)
    requires Spread(v)
    ensures Apply(Apply(Create(), AddOf(v.b1)).0, AddOf(v.b2)).0 == Idle(Small([], [v.b1], [v.b2], [], 2))
  {
    AddFirst(v.b1);
    AddOne([[], [v.b1], [], []], 1, v.b2);
    assert [[], [v.b1], [], []][2 := [v.b2]] == [[], [v.b1], [v.b2], []];
  }

  /** Two more into buckets 3 and 0. */
  lemma NextTwo<R, V>(v: Five<R, V>)
    requires Spread(v)
    ensures Apply(Apply(Idle(Small([], [v.b1], [v.b2], [], 2)), AddOf(v.b3)).0, AddOf(v.b0)).0 ==
            Idle(Small([v.b0], [v.b1], [v.b2], [v.b3], 4))
  {
    AddOne([[], [v.b1], [v.b2], []], 2, v.b3);
    assert [[], [v.b1], [v.b2], []][3 := [v.b3]] == [[], [v.b1], [v.b2], [v.b3]];
    AddOne([[], [v.b1], [v.b2], [v.b3]], 3, v.b0);
    assert [[], [v.b1], [v.b2], [v.b3]][0 := [v.b0]] == [[v.b0], [v.b1], [v.b2], [v.b3]];
  }

  lemma FifthIsNew<R, V>(v: Five<R, V>)
    requires Spread(v)
    ensures CellAt(Small([v.b0], [v.b1], [v.b2], [v.b3], 4), v.fifth.key).None?
  {
  }

  lemma RegisteredRun<R, V>(v: Five<R, V>) returns (d: Dict<R, V>)
    requires Spread(v)
    ensures d == RunDict(Create(), Registered(v)).0 && Inv(d)
    ensures d == Dict(Small([v.b0], [v.b1], [v.b2], [v.b3], 4), Large([], [], [], [v.fifth], 1), 0, 0)
  {
    d := RunDict(Create(), Registered(v)).0;
    var last := [AddOf(v.fifth)];
    assert Registered(v) == [AddOf(v.b1), AddOf(v.b2)] + ([AddOf(v.b3), AddOf(v.b0)] + (last + []));
    RunTwo(Create(), AddOf(v.b1), AddOf(v.b2), [AddOf(v.b3), AddOf(v.b0)] + (last + []));
    FirstTwo(v);
    RunTwo(Idle(Small([], [v.b1], [v.b2], [], 2)), AddOf(v.b3), AddOf(v.b0), last + []);
    NextTwo(v);
    var full := Idle(Small([v.b0], [v.b1], [v.b2], [v.b3], 4));
    RunOne(full, AddOf(v.fifth), []);
    FifthIsNew(v);
    AddFifth([[v.b0], [v.b1], [v.b2], [v.b3]], v.fifth);
    CreateIsEmpty<R, V>();
    RunRefinesMap(Create(), Registered(v));
  }

  // ----- reaping -------------------------------------------------------------------------

  /** A look-up makes a step of the migration, which moves the only entry of bucket `i`. */
  lemma FindMoves<R, V>(d: Dict<R, V>, i: nat, k: Key)
    requires Inv(d) && d.Rehashing() && d.iterators == 0 && d.ht0.used != 0
    requires i == ScanStop(d) < |d.ht0.buckets| && |d.ht0.buckets[i]| == 1
    ensures Inv(Find(d, k).0)
    ensures Find(d, k).0 == Dict(d.ht0.(buckets := d.ht0.buckets[i := []], used := d.ht0.used - 1),
                                 Push(d.ht1, d.ht0.buckets[i][0]), i + 1, 0)
  {
    OldMoved(d, i);
    FindKeeps(d, k);
  }

  /** The first look-up moves bucket 0. */
  lemma FindFirst<R, V>(v: Five<R, V>, d: Dict<R, V>) returns (e: Dict<R, V>)
    requires Spread(v) && Inv(d)
    requires d == Dict(Small([v.b0], [v.b1], [v.b2], [v.b3], 4), Large([], [], [], [v.fifth], 1), 0, 0)
    ensures e == Find(d, v.b1.key).0 && Inv(e)
    ensures e == Dict(Small([], [v.b1], [v.b2], [v.b3], 3), Large([], [], [v.b0], [v.fifth], 2), 1, 0)
  {
    FindMoves(d, 0, v.b1.key);
    e := Find(d, v.b1.key).0;
    PushOne([], [], [], [v.fifth], 1, v.b0, 4);
    assert d.ht0.buckets[0 := []] == [[], [v.b1], [v.b2], [v.b3]];
  }

  /** And the deletion moves bucket 1 and removes its entry. */
  lemma DeleteFirst<R, V>(v: Five<R, V>, d: Dict<R, V>) returns (e: Dict<R, V>)
    requires Spread(v) && Inv(d)
    requires d == Dict(Small([], [v.b1], [v.b2], [v.b3], 3), Large([], [], [v.b0], [v.fifth], 2), 1, 0)
    ensures e == Delete(d, v.b1.key).0 && Inv(e)
    ensures e == Dict(Small([], [], [v.b2], [v.b3], 2), Large([], [], [v.b0], [v.fifth], 2), 2, 0)
  {
    OldDeleted(d, 1);
    DeleteKeeps(d, v.b1.key);
    e := Delete(d, v.b1.key).0;
    assert d.ht0.buckets[1 := []] == [[], [], [v.b2], [v.b3]];
  }

  /** An entry moves into an empty bucket of the second table. */
  lemma PushOne<R, V>(b2: seq<Cell<R, V>>, b3: seq<Cell<R, V>>, b4: seq<Cell<R, V>>, b5: seq<Cell<R, V>>, used: int,
                      c: Cell<R, V>, i: nat)
    requires i == Slot8(c) && (i == 2 ==> b2 == []) && (i == 3 ==> b3 == []) && (i == 4 ==> b4 == []) && 2 <= i <= 4
    ensures Push(Large(b2, b3, b4, b5, used), c) ==
            Large(if i == 2 then [c] else b2, if i == 3 then [c] else b3, if i == 4 then [c] else b4, b5, used + 1)
  {
    assert [c] + [] == [c];
    assert [[], [], b2, b3, b4, b5, [], []][i := [c]] ==
           [[], [], if i == 2 then [c] else b2, if i == 3 then [c] else b3, if i == 4 then [c] else b4, b5, [], []];
  }

  /** The second look-up moves bucket 2. */
  lemma FindSecond<R, V>(v: Five<R, V>, d: Dict<R, V>) returns (e: Dict<R, V>)
    requires Spread(v) && Inv(d)
    requires d == Dict(Small([], [], [v.b2], [v.b3], 2), Large([], [], [v.b0], [v.fifth], 2), 2, 0)
    ensures e == Find(d, v.b2.key).0 && Inv(e)
    ensures e == Dict(Small([], [], [], [v.b3], 1), Large([v.b2], [], [v.b0], [v.fifth], 3), 3, 0)
  {
    FindMoves(d, 2, v.b2.key);
    e := Find(d, v.b2.key).0;
    PushOne([], [], [v.b0], [v.fifth], 2, v.b2, 2);
    assert d.ht0.buckets[2 := []] == [[], [], [], [v.b3]];
  }

  /** And the deletion moves bucket 3 and removes its entry from the second table. */
  lemma DeleteSecond<R, V>(v: Five<R, V>, d: Dict<R, V>) returns (e: Dict<R, V>)
    requires Spread(v) && Inv(d)
    requires d == Dict(Small([], [], [], [v.b3], 1), Large([v.b2], [], [v.b0], [v.fifth], 3), 3, 0)
    ensures e == Delete(d, v.b2.key).0 && Inv(e)
    ensures e == Dict(Small([], [], [], [], 0), Large([], [v.b3], [v.b0], [v.fifth], 3), 4, 0)
  {
    var d1 := LastMoved(v, d);
    UnlinkOne(v);
    NoneInEmpty<R, V>(v.b2.key);
    e := DeletedBehind(d, d1, v.b2.key);
  }

  lemma LastMoved<R, V>(v: Five<R, V>, d: Dict<R, V>) returns (d1: Dict<R, V>)
    requires Spread(v) && Inv(d)
    requires d == Dict(Small([], [], [], [v.b3], 1), Large([v.b2], [], [v.b0], [v.fifth], 3), 3, 0)
    ensures d1 == Step(d)
    ensures d1 == Dict(Small([], [], [], [], 0), Large([v.b2], [v.b3], [v.b0], [v.fifth], 4), 4, 0)
  {
    OldMoved(d, 3);
    PushOne([v.b2], [], [v.b0], [v.fifth], 3, v.b3, 3);
    assert d.ht0.buckets[3 := []] == [[], [], [], []];
    d1 := Step(d);
  }

  lemma NoneInEmpty<R, V>(k: Key)
    ensures CellAt(Small<R, V>([], [], [], [], 0), k).None?
  {
  }

  /** A deletion that finds its key in the second table. */
  lemma DeletedBehind<R, V>(d: Dict<R, V>, d1: Dict<R, V>, k: Key) returns (e: Dict<R, V>)
    requires Inv(d) && d.ht0.buckets != [] && d1 == Step(d) && d1.Rehashing()
    requires CellAt(d1.ht0, k).None? && CellAt(d1.ht1, k).Some?
    ensures e == Delete(d, k).0 && Inv(e) && e == d1.(ht1 := Unlink(d1.ht1, k))
  {
    DeleteKeeps(d, k);
    e := Delete(d, k).0;
  }

  lemma UnlinkOne<R, V>(v: Five<R, V>)
    requires Spread(v)
    ensures var t := Large([v.b2], [v.b3], [v.b0], [v.fifth], 4);
      CellAt(t, v.b2.key).Some? && Unlink(t, v.b2.key) == Large([], [v.b3], [v.b0], [v.fifth], 3)
  {
    var t := Large([v.b2], [v.b3], [v.b0], [v.fifth], 4);
    assert ChainOf(t, v.b2.key) == [v.b2] && [v.b2][..0] + [v.b2][1..] == [];
    EmptiedThird([v.b2], [v.b3], [v.b0], [v.fifth]);
  }

  lemma EmptiedThird<T>(b2: seq<T>, b3: seq<T>, b4: seq<T>, b5: seq<T>)
    ensures [[], [], b2, b3, b4, b5, [], []][2 := []] == [[], [], [], b3, b4, b5, [], []]
  {
  }

  lemma ReapsAre<R, V>(v: Five<R, V>, d: Dict<R, V>)
    ensures RunDict(d, Reaped(v) + []).0 ==
            var e := Delete(Find(d, v.b1.key).0, v.b1.key).0; Delete(Find(e, v.b2.key).0, v.b2.key).0
  {
    var second := [OpFind(v.b2.key), OpDelete(v.b2.key)];
    assert Reaped(v) + [] == [OpFind(v.b1.key), OpDelete(v.b1.key)] + (second + []);
    RunTwo(d, OpFind(v.b1.key), OpDelete(v.b1.key), second + []);
    RunTwo(Delete(Find(d, v.b1.key).0, v.b1.key).0, OpFind(v.b2.key), OpDelete(v.b2.key), []);
  }

  lemma ReapBoth<R, V>(v: Five<R, V>, d0: Dict<R, V>) returns (d: Dict<R, V>)
    requires Spread(v) && Inv(d0)
    requires d0 == Dict(Small([v.b0], [v.b1], [v.b2], [v.b3], 4), Large([], [], [], [v.fifth], 1), 0, 0)
    ensures d == var e := Delete(Find(d0, v.b1.key).0, v.b1.key).0; Delete(Find(e, v.b2.key).0, v.b2.key).0
    ensures Inv(d) && d == Dict(Small([], [], [], [], 0), Large([], [v.b3], [v.b0], [v.fifth], 3), 4, 0)
  {
    var d1 := FindFirst(v, d0);
    var d2 := DeleteFirst(v, d1);
    var d3 := FindSecond(v, d2);
    d := DeleteSecond(v, d3);
  }

  /** What `clean_proccess` then finds: three entries, each in a bucket of its own, and the swap still to come. */
  lemma ReapedRun<R, V>(v: Five<R, V>) returns (d: Dict<R, V>)
    requires Spread(v)
    ensures d == RunDict(Create(), Registered(v) + (Reaped(v) + [])).0 && Inv(d)
    ensures d == Dict(Small([], [], [], [], 0), Large([], [v.b3], [v.b0], [v.fifth], 3), 4, 0)
  {
    var d0 := RegisteredRun(v);
    RunPlus(Create(), Registered(v), Reaped(v) + []);
    ReapsAre(v, d0);
    d := ReapBoth(v, d0);
  }

  lemma {:induction false} RunPlus<R, V>(d: Dict<R, V>, a: seq<Op<R, V>>, b: seq<Op<R, V>>)
    ensures RunDict(d, a + b).0 == RunDict(RunDict(d, a).0, b).0
    decreases |a|
  {
    if a == [] {
      assert a + b == b;
    } else {
      assert (a + b)[1..] == a[1..] + b;
      RunPlus(Apply(d, a[0]).0, a[1..], b);
    }
  }

  // ----- cleaning up ---------------------------------------------------------------------

  lemma FirstOfThree<R, V>(v: Five<R, V>)
    ensures FirstSize(Large([], [v.b3], [v.b0], [v.fifth], 3).buckets) == 1
  {
    var b := Large([], [v.b3], [v.b0], [v.fifth], 3).buckets;
    assert NextBusy(b, 3) == 3 && NextBusy(b, 2) == 3 && NextBusy(b, 1) == 3;
  }

  /** One of three is signalled and two stay. */
  lemma SweepMisses<R, V>(d: Dict<R, V>, keyOf: map<R, Key>)
    requires Inv(d) && Owned(d, keyOf) && d.Rehashing() && d.iterators == 0 && Singles(d.ht0.buckets)
    requires d.ht0.used == 0 && d.ht1.used == 3 && FirstSize(d.ht1.buckets) == 1
    ensures |MapOf(d)| == 3 && |MapOf(Sweep(d, NewIter(false), keyOf).0)| == 2
  {
    SizeIsUsed(d);
    MidSweep(d, keyOf);
  }

  /** The table after the reaping is such a one. */
  lemma ThreeLeft<R, V>(v: Five<R, V>, d: Dict<R, V>) returns (keyOf: map<R, Key>)
    requires d == Dict(Small([], [], [], [], 0), Large([], [v.b3], [v.b0], [v.fifth], 3), 4, 0)
    requires v.b3.ref != v.b0.ref && v.b0.ref != v.fifth.ref && v.fifth.ref != v.b3.ref
    ensures Owned(d, keyOf) && d.Rehashing() && d.iterators == 0 && Singles(d.ht0.buckets)
    ensures d.ht0.used == 0 && d.ht1.used == 3 && FirstSize(d.ht1.buckets) == 1
  {
    keyOf := map[v.b3.ref := v.b3.key, v.b0.ref := v.b0.key, v.fifth.ref := v.fifth.key];
    FirstOfThree(v);
  }

  /** The entry of a child, whatever its program. */
  function PidEntry(pid: int): Cell<int, int>
    requires 0 <= pid < 256
  {
    Cell(pid, Pid(pid as char), 0)
  }

  /** Bucket `four` of the first table and `eight` of the second. */
  ghost predicate GoesTo<R, V>(c: Cell<R, V>, four: nat, eight: nat) {
    Slot4(c) == four && Slot8(c) == eight
  }

  lemma PidCell(pid: int, four: nat, eight: nat)
    requires 0 <= pid < 256 && four == (1 + pid) % 4 && eight == (5 + pid) % 8
    ensures GoesTo(PidEntry(pid), four, eight)
  {
    PidSlots(pid as char);
  }

  lemma PidsDiffer(a: int, b: int)
    requires 0 <= a < b < 256
    ensures PidEntry(a).key != PidEntry(b).key
  {
    assert PidEntry(a).key[0] != PidEntry(b).key[0];
  }

  lemma SpreadOut<R, V>(v: Five<R, V>)
    requires GoesTo(v.b0, 0, 4) && GoesTo(v.b1, 1, 1) && GoesTo(v.b2, 2, 2) && GoesTo(v.b3, 3, 3)
    requires GoesTo(v.fifth, 1, 5) && v.fifth.key != v.b1.key
    ensures Spread(v)
  {
  }

  /** Five successive pids. */
  function Pids(first: int): Five<int, int>
    requires 0 <= first < 252
  {
    Five(PidEntry(first + 3), PidEntry(first), PidEntry(first + 1), PidEntry(first + 2), PidEntry(first + 4))
  }

  lemma PidsSpread(first: int)
    requires 0 <= first < 252 && first % 8 == 4
    ensures Spread(Pids(first))
  {
    PidCell(first, 1, 1);
    PidCell(first + 1, 2, 2);
    PidCell(first + 2, 3, 3);
    PidCell(first + 3, 0, 4);
    PidCell(first + 4, 1, 5);
    PidsDiffer(first, first + 4);
    SpreadOut(Pids(first));
  }

  /**
   * Children with five successive pids, 100 to 104 for example, are registered in an empty table and the first two
   * reaped. If the program is then told to clean up, it signals one of the other three and leaves two.
   */
  lemma ShortSweep(first: int) returns (d: Dict<int, int>, keyOf: map<int, Key>)
    requires 0 <= first < 252 && first % 8 == 4
    ensures d == RunDict(Create(), Registered(Pids(first)) + (Reaped(Pids(first)) + [])).0 && Inv(d) && Owned(d, keyOf)
    ensures |MapOf(d)| == 3 && |MapOf(Sweep(d, NewIter(false), keyOf).0)| == 2
  {
    var v := Pids(first);
    PidsSpread(first);
    d := ReapedRun(v);
    keyOf := ThreeLeft(v, d);
    SweepMisses(d, keyOf);
  }
}
