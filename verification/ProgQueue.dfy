/**
 * The queue the scheduler starts with: `load_conf` puts each configured program behind every queued
 * program whose flag is not greater. The result is the stable sort of the configuration by flag.
 */
module ProgQueue {
  import opened Options
  import opened DLists
  import opened Schedulers
  import S = Sched

  /** Before the first element with a greater flag. */
  function Insert(q: seq<Program>, p: Program): seq<Program> {
    if q == [] then [p] else if q[0].flag > p.flag then [p] + q else [q[0]] + Insert(q[1..], p)
  }

  /** The queue after all of `ps` have been configured. */
  function Queued(ps: seq<Program>): seq<Program> {
    if ps == [] then [] else Insert(Queued(ps[..|ps| - 1]), ps[|ps| - 1])
  }

  predicate SortedByFlag(q: seq<Program>) {
    forall i, j :: 0 <= i < j < |q| ==> q[i].flag <= q[j].flag
  }

  /** The programs with flag `k`, in order. */
  function WithFlag(q: seq<Program>, k: int): seq<Program> {
    Filter(q, (p: Program) => p.flag == k)
  }

  lemma {:induction false} InsertIsAt(q: seq<Program>, p: Program, i: nat)
    requires i <= |q| && (forall k :: 0 <= k < i ==> q[k].flag <= p.flag) && (i < |q| ==> q[i].flag > p.flag)
    ensures Insert(q, p) == q[..i] + [p] + q[i..]
  {
    if i > 0 {
      InsertIsAt(q[1..], p, i - 1);
      assert q == [q[0]] + q[1..];
    }
  }

  lemma {:induction false} InsertAdds(q: seq<Program>, p: Program)
    ensures multiset(Insert(q, p)) == multiset(q) + multiset{p}
  {
    if q != [] {
      assert q == [q[0]] + q[1..];
      if q[0].flag <= p.flag { InsertAdds(q[1..], p); }
    }
  }

  lemma {:induction false} InsertSorts(q: seq<Program>, p: Program)
    requires SortedByFlag(q)
    ensures SortedByFlag(Insert(q, p))
  {
    if q != [] && q[0].flag <= p.flag {
      InsertSorts(q[1..], p);
      InsertAdds(q[1..], p);
      var r := Insert(q[1..], p);
      forall k | 0 <= k < |r| ensures q[0].flag <= r[k].flag {
        assert r[k] in multiset(r);
        assert r[k] in q[1..] || r[k] == p;
      }
    }
  }

  lemma {:induction false} NoneWithFlag(q: seq<Program>, k: int)
    requires forall i :: 0 <= i < |q| ==> q[i].flag != k
    ensures WithFlag(q, k) == []
  {
    if q != [] { NoneWithFlag(q[1..], k); }
  }

  lemma {:induction false} FirstWithFlag(q: seq<Program>, k: int)
    requires q != []
    ensures WithFlag(q, k) == (if q[0].flag == k then [q[0]] else []) + WithFlag(q[1..], k)
  {
  }

  lemma {:induction false} InsertWithFlag(q: seq<Program>, p: Program, k: int)
    requires SortedByFlag(q)
    ensures WithFlag(Insert(q, p), k) == WithFlag(q, k) + if p.flag == k then [p] else []
  {
    FirstWithFlag(Insert(q, p), k);
    if q != [] {
      if q[0].flag > p.flag {
        assert Insert(q, p)[1..] == q;
        if p.flag == k { NoneWithFlag(q, k); }
      } else {
        FirstWithFlag(q, k);
        assert Insert(q, p)[1..] == Insert(q[1..], p);
        InsertWithFlag(q[1..], p, k);
      }
    }
  }

  /** Stable sort: same programs, sorted by flag, and within each flag the configured order. */
  lemma {:induction false} QueuedIsStableSort(ps: seq<Program>)
    ensures SortedByFlag(Queued(ps)) && multiset(Queued(ps)) == multiset(ps)
    ensures forall k :: WithFlag(Queued(ps), k) == WithFlag(ps, k)
  {
    if ps != [] {
      var n := |ps| - 1;
      assert ps == ps[..n] + [ps[n]];
      QueuedIsStableSort(ps[..n]);
      InsertSorts(Queued(ps[..n]), ps[n]);
      InsertAdds(Queued(ps[..n]), ps[n]);
      forall k ensures WithFlag(Queued(ps), k) == WithFlag(ps, k) {
        InsertWithFlag(Queued(ps[..n]), ps[n], k);
        FilterSnoc(ps[..n], ps[n], (p: Program) => p.flag == k);
      }
    }
  }

  lemma {:induction false} FromWithFlag(q: seq<Program>, k: int)
    ensures WithFlag(q, k) != [] ==> exists i :: 0 <= i < |q| && q[i].flag == k
  {
    if forall i :: 0 <= i < |q| ==> q[i].flag != k { NoneWithFlag(q, k); }
  }

  /** And that says all: there is only one such order. */
  lemma {:induction false} StableSortIsUnique(q: seq<Program>, r: seq<Program>)
    requires SortedByFlag(q) && SortedByFlag(r) && forall k :: WithFlag(q, k) == WithFlag(r, k)
    ensures q == r
  {
    if q != [] {
      FirstWithFlag(q, q[0].flag);
      assert WithFlag(r, q[0].flag) != [];
      FromWithFlag(r, q[0].flag);
    }
    if r != [] {
      FirstWithFlag(r, r[0].flag);
      assert WithFlag(q, r[0].flag) != [];
      FromWithFlag(q, r[0].flag);
      FirstWithFlag(q, q[0].flag);
      FirstWithFlag(r, q[0].flag);
      assert q[0].flag == r[0].flag;
      assert WithFlag(q, q[0].flag)[0] == q[0] && WithFlag(r, q[0].flag)[0] == r[0];
      assert q[0] == r[0];
      forall j ensures WithFlag(q[1..], j) == WithFlag(r[1..], j) {
        assert WithFlag(q, j) == WithFlag(r, j);
        FirstWithFlag(q, j);
        FirstWithFlag(r, j);
        var head := if q[0].flag == j then [q[0]] else [];
        assert WithFlag(q, j)[|head|..] == WithFlag(q[1..], j);
        assert WithFlag(r, j)[|head|..] == WithFlag(r[1..], j);
      }
      StableSortIsUnique(q[1..], r[1..]);
      assert q == [q[0]] + q[1..] && r == [r[0]] + r[1..];
    }
  }

  /** The insertion loop of `load_conf`. */
  method Enqueue(progq: DList<Program>, prog: Program)
    requires progq.Valid()
    modifies progq, progq.nodes
    ensures progq.Valid() && progq.vals == Insert(old(progq.vals), prog)
    ensures forall k :: 0 <= k < |progq.nodes| ==> progq.nodes[k] in old(progq.nodes) || fresh(progq.nodes[k])
  {
    var it := new ListIter(progq, true);
    ghost var i := 0;
    var node := it.Next(progq, 0);
    while node != null
      invariant Standing(progq, it, node, i) && fresh(it)
      invariant progq.nodes == old(progq.nodes) && progq.vals == old(progq.vals)
      invariant forall k :: 0 <= k < i ==> progq.vals[k].flag <= prog.flag
      decreases |progq.nodes| - i
    {
      if node.value.flag > prog.flag { break; }
      i := i + 1;
      node := it.Next(progq, i);
    }
    Place(progq, node, prog, i);
  }

  /** Before `node`, or at the end. */
  method Place(progq: DList<Program>, node: ListNode?<Program>, prog: Program, ghost i: nat)
    requires progq.Valid() && i <= |progq.nodes| && node == NodeAt(progq.nodes, i)
    requires forall k :: 0 <= k < i ==> progq.vals[k].flag <= prog.flag
    requires i < |progq.vals| ==> progq.vals[i].flag > prog.flag
    modifies progq, progq.nodes
    ensures progq.Valid() && progq.vals == Insert(old(progq.vals), prog)
    ensures forall k :: 0 <= k < |progq.nodes| ==> progq.nodes[k] in old(progq.nodes) || fresh(progq.nodes[k])
  {
    InsertIsAt(progq.vals, prog, i);
    if node == null {
      assert progq.vals[..i] == progq.vals && progq.vals[i..] == [];
      if progq.len == 0 {
        var _ := progq.AddHead(prog);
      } else {
        var _ := progq.AddTail(prog);
      }
    } else {
      var _ := progq.Insert(node, prog, false, i);
    }
  }

  /** What the state machine is told of a program. */
  ghost function View(p: Program): S.Prog
    reads p
  {
    S.Prog(p.id, p.flag, p.has_pid_file, p.cond, p.pid, p.time)
  }

  /** A configured program: a known flag, and not started. */
  ghost predicate Unstarted(p: Program)
    reads p
  {
    p.pid == 0 && p.time == 0 && S.FORK_FIRST <= p.flag <= S.FORK_PERIOD
  }

  ghost predicate Configured(ps: seq<Program>)
    reads ps
  {
    && (forall i, j :: 0 <= i < j < |ps| ==> ps[i].id != ps[j].id)
    && (forall i :: 0 <= i < |ps| ==> Unstarted(ps[i]))
  }

  /** The watched programs are the kind that the state machine describes. */
  predicate NoWatchedPidFiles(ps: seq<Program>) {
    forall i :: 0 <= i < |ps| ==> ps[i].flag == S.FORK_WATCH ==> !ps[i].has_pid_file
  }

  /** Reordering keeps it. */
  lemma StillConfigured(ps: seq<Program>, q: seq<Program>)
    requires Configured(ps) && multiset(q) == multiset(ps)
    ensures Configured(q) && (NoWatchedPidFiles(ps) ==> NoWatchedPidFiles(q))
  {
    forall i | 0 <= i < |q| ensures q[i] in ps {
      assert q[i] in multiset(q);
    }
    forall i, j | 0 <= i < j < |q| ensures q[i].id != q[j].id {
      assert q[i] in ps && q[j] in ps;
      if q[i] == q[j] {
        Twice(q, i, j);
        Once(ps, q[i]);
      }
    }
  }

  lemma Twice(q: seq<Program>, i: nat, j: nat)
    requires i < j < |q| && q[i] == q[j]
    ensures multiset(q)[q[i]] >= 2
  {
    assert q == q[..j] + [q[j]] + q[j + 1..];
    assert q[i] in q[..j];
    assert multiset(q) == multiset(q[..j]) + multiset{q[j]} + multiset(q[j + 1..]);
  }

  lemma {:induction false} Once(ps: seq<Program>, p: Program)
    requires forall i, j :: 0 <= i < j < |ps| ==> ps[i].id != ps[j].id
    ensures multiset(ps)[p] <= 1
  {
    if ps != [] {
      assert ps == [ps[0]] + ps[1..];
      assert multiset(ps) == multiset{ps[0]} + multiset(ps[1..]);
      Once(ps[1..], p);
      forall k | 0 <= k < |ps[1..]| ensures ps[1..][k] != ps[0] {
        assert ps[1..][k] == ps[k + 1];
      }
      assert ps[0] !in multiset(ps[1..]);
    }
  }

  ghost function Views(ps: seq<Program>): (r: seq<S.Prog>)
    reads ps
    ensures |r| == |ps| && forall i :: 0 <= i < |ps| ==> r[i] == View(ps[i])
  {
    if ps == [] then [] else Views(ps[..|ps| - 1]) + [View(ps[|ps| - 1])]
  }

  /** All programs of the configuration, into an empty queue. */
  method EnqueueAll(progq: DList<Program>, configured: seq<Program>)
    requires progq.Valid() && progq.vals == [] && progq.nodes == []
    modifies progq
    ensures progq.Valid() && progq.vals == Queued(configured)
    ensures fresh(progq.nodes)
  {
    for i := 0 to |configured|
      invariant progq.Valid() && progq.vals == Queued(configured[..i]) && fresh(progq.nodes)
    {
      assert configured[..i + 1][..i] == configured[..i];
      Enqueue(progq, configured[i]);
    }
    assert configured[..|configured|] == configured;
  }

  lemma DistinctIds(ps: seq<Program>)
    requires Configured(ps)
    ensures forall i, j :: 0 <= i < j < |Queued(ps)| ==> Queued(ps)[i].id != Queued(ps)[j].id
  {
    QueuedIsStableSort(ps);
    StillConfigured(ps, Queued(ps));
  }

  /** The state the machine starts in. */
  ghost function Start(q: seq<Program>, now: int, sleep: int, present: set<int>, used: set<int>): S.State
    reads q
  {
    S.State(Views(q), None, S.Clock(now, 1, 0), now, sleep, present, used, [], {}, map[])
  }

  lemma StartIsInitial(ps: seq<Program>, now: int, sleep: int, present: set<int>, used: set<int>)
    requires Configured(ps) && NoWatchedPidFiles(ps) && now > 0 && present <= used && 0 !in present
    ensures S.Initial(Start(Queued(ps), now, sleep, present, used))
  {
    QueuedIsStableSort(ps);
    StillConfigured(ps, Queued(ps));
  }

  /**
   * `load_conf`, from the configured programs on: the scheduler's queue is their stable sort by flag, and
   * if no watched one has a pid file it is in an initial state of the state machine.
   */
  method LoadConf(os: Os, sleep_time: int, now: int, configured: seq<Program>) returns (s: Scheduler)
    requires os.Valid() && Configured(configured) && now > 0 && os.present <= os.used && 0 !in os.present
    requires os.children == {}
    ensures fresh(s) && s.Valid() && s.m.latest == now && s.os == os && s.m.at.None? && s.m.log == []
    ensures NoWatchedPidFiles(configured) ==> S.Initial(s.m)
    ensures s.progq.vals == Queued(configured) && s.m.queue == Views(Queued(configured))
  {
    s := new Scheduler(os, sleep_time);
    EnqueueAll(s.progq, configured);
    DistinctIds(configured);
    MirrorStart(s, now);
    if NoWatchedPidFiles(configured) { StartIsInitial(configured, now, sleep_time, os.present, os.used); }
  }

  /** The mirrored state is set to match the queue. */
  ghost method MirrorStart(s: Scheduler, now: int)
    requires s.progq.Valid() && s.os.Valid() && s.os.children == {} && s.waitq == map[]
    requires var q := s.progq.vals; forall i, j :: 0 <= i < j < |q| ==> q[i].id != q[j].id
    modifies s`m
    ensures s.Valid() && s.m == Start(s.progq.vals, now, s.sleep_time, s.os.present, s.os.used)
  {
    s.m := Start(s.progq.vals, now, s.sleep_time, s.os.present, s.os.used);
  }
}
