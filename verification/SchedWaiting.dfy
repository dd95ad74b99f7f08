/**
 * The table of waiting processes. Every child that is still to be waited for is registered, under the program it
 * was started for, so `handle_sigchild` always finds an entry, and stamps that program and no other.
 */
module SchedWaiting {
  import opened Options
  import opened Sched
  import opened SchedTheorems

  /** Launch `a` was of process `pid`, for program `id`. */
  ghost predicate LaunchedAs(s: State, a: nat, pid: int, id: nat) {
    a < |s.log| && s.log[a].pid == pid && s.log[a].id == id
  }

  /** Some launch was of process `pid`, for program `id`. */
  ghost predicate StartedFor(s: State, pid: int, id: nat) {
    exists a :: LaunchedAs(s, a, pid, id)
  }

  /** A launched process that is there is still to be waited for, and is registered at most under its program. */
  ghost predicate ChildOK(s: State, a: nat)
    requires a < |s.log|
  {
    var l := s.log[a];
    (l.pid in s.present ==> l.pid in s.children) && (l.pid in s.waitq ==> s.waitq[l.pid] == l.id)
  }

  /** The pid of a queued program is of a process that was started for it, and without one it has no time stamp. */
  ghost predicate OwnerOK(s: State, i: nat)
    requires i < |s.queue|
  {
    var p := s.queue[i];
    if p.pid == 0 then p.time == 0 else StartedFor(s, p.pid, p.id)
  }

  ghost predicate Queued(q: seq<Prog>, id: nat) {
    IndexOf(q, id) < |q|
  }

  ghost predicate Registered(s: State) {
    && s.children <= s.waitq.Keys && s.waitq.Keys <= s.used
    && (forall a :: 0 <= a < |s.log| ==> ChildOK(s, a))
    && (forall pid :: pid in s.waitq ==> StartedFor(s, pid, s.waitq[pid]))
    && (forall i :: 0 <= i < |s.queue| ==> OwnerOK(s, i))
    && (forall a :: 0 <= a < |s.log| && s.log[a].flag == FORK_WATCH ==> Queued(s.queue, s.log[a].id))
  }

  // ----- queue positions -----------------------------------------------------------------

  lemma QueuedAt(q: seq<Prog>, j: nat)
    requires j < |q|
    ensures Queued(q, q[j].id)
  {
  }

  /** Ids distinct, the position found is the position. */
  lemma IndexIs(q: seq<Prog>, j: nat)
    requires j < |q| && forall i, k :: 0 <= i < k < |q| ==> q[i].id != q[k].id
    ensures IndexOf(q, q[j].id) == j
  {
  }

  lemma SameIdsQueued(q: seq<Prog>, r: seq<Prog>)
    requires |q| == |r| && forall i :: 0 <= i < |q| ==> q[i].id == r[i].id
    ensures forall id :: Queued(q, id) ==> Queued(r, id)
  {
    forall id | Queued(q, id) ensures Queued(r, id) { QueuedAt(r, IndexOf(q, id)); }
  }

  lemma DroppedQueued(q: seq<Prog>, i: nat, id: nat)
    requires i < |q| && Queued(q, id) && q[i].id != id
    ensures Queued(Drop(q, i), id)
  {
    var j := IndexOf(q, id);
    QueuedAt(Drop(q, i), if j < i then j else j - 1);
  }

  lemma StampIs(q: seq<Prog>, id: nat, t: int)
    ensures var r := Stamp(q, id, t);
      |r| == |q| && forall i :: 0 <= i < |q| ==> r[i] == q[i] || (q[i].id == id && r[i] == q[i].(time := t))
  {
  }

  // ----- the steps -----------------------------------------------------------------------

  /** Launches are not forgotten. */
  lemma StartedStays(s: State, s': State, pid: int, id: nat)
    requires StartedFor(s, pid, id) && s.log <= s'.log
    ensures StartedFor(s', pid, id)
  {
    var a :| LaunchedAs(s, a, pid, id);
    assert LaunchedAs(s', a, pid, id);
  }

  /** Processes that vanish or are waited for take nothing from what is registered for the others. */
  lemma FewerChildren(s: State, s': State)
    requires Registered(s) && s'.log == s.log && s'.waitq == s.waitq && s'.queue == s.queue && s'.used == s.used
    requires s'.present <= s.present && s'.children <= s.children
    requires forall pid :: pid in s'.present && pid in s.children ==> pid in s'.children
    ensures Registered(s')
  {
    forall a | 0 <= a < |s'.log| ensures ChildOK(s', a) { assert ChildOK(s, a); }
    forall pid | pid in s'.waitq ensures StartedFor(s', pid, s'.waitq[pid]) { StartedStays(s, s', pid, s.waitq[pid]); }
    forall i | 0 <= i < |s'.queue| ensures OwnerOK(s', i) {
      assert OwnerOK(s, i);
      if s.queue[i].pid != 0 { StartedStays(s, s', s.queue[i].pid, s.queue[i].id); }
    }
  }

  /** A logged program that is still queued has a pid. */
  lemma StartedHasPid(s: State, pid: int, id: nat, i: nat)
    requires LogOK(s) && StartedFor(s, pid, id) && i < |s.queue| && s.queue[i].id == id
    ensures s.queue[i].pid > 0
  {
    var a :| LaunchedAs(s, a, pid, id);
    assert LaunchOK(s, a, i);
  }

  lemma ReapRegisters(s: State, pid: int, t: int)
    requires LogOK(s) && Registered(s) && Enabled(s, Reap(pid, t))
    ensures Registered(Apply(s, Reap(pid, t)))
  {
    var s' := Apply(s, Reap(pid, t));
    var id := s.waitq[pid];
    StampIs(s.queue, id, t);
    SameIdsQueued(s.queue, s'.queue);
    forall a | 0 <= a < |s'.log| ensures ChildOK(s', a) { assert ChildOK(s, a); }
    forall p | p in s'.waitq ensures StartedFor(s', p, s'.waitq[p]) { StartedStays(s, s', p, s.waitq[p]); }
    forall i | 0 <= i < |s'.queue| ensures OwnerOK(s', i) {
      assert OwnerOK(s, i);
      if s.queue[i].pid != 0 { StartedStays(s, s', s.queue[i].pid, s.queue[i].id); }
      else if s.queue[i].id == id { StartedHasPid(s, pid, id, i); }
    }
  }

  /** `run_prog`, as far as it launches. */
  lemma LaunchRegisters(s: State, i: nat, pid: int)
    requires LogOK(s) && Registered(s) && i < |s.queue| && pid > 0 && pid !in s.used
    ensures Registered(RunProg(s, i, pid))
  {
    var s' := RunProg(s, i, pid);
    if s' != s {
      var p := s.queue[i];
      assert LaunchedAs(s', |s.log|, pid, p.id);
      SameIdsQueued(s.queue, s'.queue);
      forall a | 0 <= a < |s'.log| ensures ChildOK(s', a) {
        if a < |s.log| { assert ChildOK(s, a) && s'.log[a] == s.log[a]; }
      }
      forall q | q in s'.waitq ensures StartedFor(s', q, s'.waitq[q]) {
        if q != pid { StartedStays(s, s', q, s.waitq[q]); }
      }
      forall j | 0 <= j < |s'.queue| ensures OwnerOK(s', j) {
        assert OwnerOK(s, j);
        if j != i && s.queue[j].pid != 0 { StartedStays(s, s', s.queue[j].pid, s.queue[j].id); }
      }
      QueuedAt(s'.queue, i);
    }
  }

  /** Moving the iterator. */
  lemma AtRegisters(s: State, at: Option<nat>)
    requires Registered(s)
    ensures Registered(s.(at := at))
  {
    FewerChildren(s, s.(at := at));
  }

  /** A watched program is never taken off the queue, so none is missed there. */
  lemma RemoveRegisters(s: State, i: nat)
    requires LogOK(s) && Registered(s) && i < |s.queue| && s.queue[i].flag != FORK_WATCH
    ensures Registered(Remove(s, i))
  {
    var s' := Remove(s, i);
    DropAt(s.queue, i);
    forall a | 0 <= a < |s'.log| ensures ChildOK(s', a) { assert ChildOK(s, a); }
    forall p | p in s'.waitq ensures StartedFor(s', p, s'.waitq[p]) { StartedStays(s, s', p, s.waitq[p]); }
    forall j | 0 <= j < |s'.queue| ensures OwnerOK(s', j) {
      var k := if j < i then j else j + 1;
      assert OwnerOK(s, k);
      if s.queue[k].pid != 0 { StartedStays(s, s', s.queue[k].pid, s.queue[k].id); }
    }
    forall a | 0 <= a < |s'.log| && s'.log[a].flag == FORK_WATCH ensures Queued(s'.queue, s'.log[a].id) {
      assert LaunchOK(s, a, i);
      DroppedQueued(s.queue, i, s.log[a].id);
    }
  }

  lemma VisitRegisters(s: State, pid: int, first: seq<nat>)
    requires Inv(s, first) && Registered(s) && Enabled(s, Visit(pid))
    ensures Registered(Apply(s, Visit(pid)))
  {
    var i := s.at.value;
    var p := s.queue[i];
    var r := RunProg(s, i, pid);
    assert ProgOK(s, i);
    LaunchRegisters(s, i, pid);
    AtRegisters(r, None);
    AtRegisters(r, Some(i + 1));
    AtRegisters(s, None);
    AtRegisters(s, Some(i + 1));
    if p.flag == FORK_FIRST {
      RemoveRegisters(s, i);
    } else if p.flag in {FORK_ONCE, FORK_PERIOD} {
      LaunchedLog(s, i, pid);
      RemoveRegisters(r, i);
    } else {
      FewerChildren(s.(at := Some(i + 1)), Stop(s.(at := Some(i + 1)), p.pid));
    }
  }

  lemma StepRegisters(s: State, step: Step, first: seq<nat>)
    requires Inv(s, first) && Registered(s) && Enabled(s, step)
    ensures Registered(Apply(s, step))
  {
    match step
    case Visit(pid) => VisitRegisters(s, pid, first);
    case Reap(pid, t) => ReapRegisters(s, pid, t);
    case _ => FewerChildren(s, Apply(s, step));
  }

  /** Both invariants. */
  ghost predicate Sound(s: State, first: seq<nat>) {
    Inv(s, first) && Registered(s)
  }

  lemma StepSound(s: State, step: Step, first: seq<nat>)
    requires Sound(s, first) && Enabled(s, step)
    ensures Sound(Apply(s, step), first)
  {
    StepKeeps(s, step, first);
    StepRegisters(s, step, first);
  }

  lemma {:induction false} RunRegisters(s: State, steps: seq<Step>, first: seq<nat>)
    requires Sound(s, first) && Legal(s, steps)
    ensures Sound(Run(s, steps), first)
    decreases |steps|
  {
    if steps != [] {
      StepSound(s, steps[0], first);
      RunRegisters(Apply(s, steps[0]), steps[1..], first);
    }
  }

  /** So in every reachable state. */
  lemma WaitAgrees(s0: State, steps: seq<Step>)
    requires Initial(s0) && Legal(s0, steps)
    ensures Sound(Run(s0, steps), Waiting(s0.queue))
  {
    InitialOK(s0);
    RunRegisters(s0, steps, Waiting(s0.queue));
  }

  // ----- what follows for `handle_sigchild` ----------------------------------------------

  /**
   * Whatever child is waited for, it is registered under the program it was started for. That program, if it is
   * still queued, and no other gets the stamp, and the process is gone from the table.
   */
  lemma ReapStamps(s0: State, steps: seq<Step>, pid: int, t: int)
    requires Initial(s0) && Legal(s0, steps) && Enabled(Run(s0, steps), Reap(pid, t))
    ensures var s := Run(s0, steps); var s' := Apply(s, Reap(pid, t));
      && pid in s.waitq && StartedFor(s, pid, s.waitq[pid]) && s'.waitq == s.waitq - {pid} && pid !in s'.present
      && |s'.queue| == |s.queue|
      && forall i :: 0 <= i < |s.queue| ==>
           s'.queue[i] == if s.queue[i].id == s.waitq[pid] then s.queue[i].(time := t) else s.queue[i]
  {
    WaitAgrees(s0, steps);
    var s := Run(s0, steps);
    var q, j := s.queue, IndexOf(s.queue, s.waitq[pid]);
    forall i | 0 <= i < |q| && q[i].id == s.waitq[pid] ensures i == j { IndexIs(q, i); }
  }

  /** The program of a child is still queued exactly if it is a watched one, or a fork-first one not yet removed. */
  lemma StampedIsQueued(s0: State, steps: seq<Step>, pid: int, a: nat)
    requires Initial(s0) && Legal(s0, steps)
    requires var s := Run(s0, steps); pid in s.waitq && a < |s.log| && s.log[a].pid == pid
    ensures var s := Run(s0, steps); var l := s.log[a];
      && s.waitq[pid] == l.id
      && (Queued(s.queue, l.id) <==> l.flag == FORK_WATCH || (FirstQueued(s) && s.queue[0].id == l.id))
  {
    WaitAgrees(s0, steps);
    var s := Run(s0, steps);
    assert ChildOK(s, a);
    var j := IndexOf(s.queue, s.log[a].id);
    if j < |s.queue| { assert LaunchOK(s, a, j) && ProgOK(s, j); }
    if FirstQueued(s) && s.queue[0].id == s.log[a].id { QueuedAt(s.queue, 0); }
  }

  /**
   * A period program leaves the queue on its first visit, inside its window or not, and is started on that visit:
   * nothing can have stamped it before.
   */
  lemma PeriodLeavesAtOnce(s0: State, steps: seq<Step>, pid: int)
    requires Initial(s0) && Legal(s0, steps) && Enabled(Run(s0, steps), Visit(pid))
    requires var s := Run(s0, steps); s.queue[s.at.value].flag == FORK_PERIOD
    ensures var s := Run(s0, steps); var s' := Apply(s, Visit(pid)); var p := s.queue[s.at.value];
      && s'.queue == Drop(s.queue, s.at.value)
      && s'.log == s.log + [Launch(p.id, p.flag, p.hasPidFile, pid, s.clock.now)]
  {
    WaitAgrees(s0, steps);
    var s := Run(s0, steps);
    assert ProgOK(s, s.at.value) && OwnerOK(s, s.at.value);
  }

  // ----- processes stopped outside their windows -----------------------------------------

  /** Registered, but neither there nor waited for any more. */
  ghost predicate Stale(s: State, k: int) {
    k in s.used && k in s.waitq && k !in s.children && k !in s.present
  }

  lemma {:induction false} StaleStays(s: State, steps: seq<Step>, k: int)
    requires Legal(s, steps) && Stale(s, k)
    ensures Stale(Run(s, steps), k)
    decreases |steps|
  {
    if steps != [] { StaleStays(Apply(s, steps[0]), steps[1..], k); }
  }

  /** A process that a visit stops stays in `waitq` from then on, whatever happens. */
  lemma StoppedStaysRegistered(s0: State, steps: seq<Step>, pid: int, k: int, more: seq<Step>)
    requires Initial(s0) && Legal(s0, steps) && Enabled(Run(s0, steps), Visit(pid))
    requires var s := Run(s0, steps); var s' := Apply(s, Visit(pid));
      k in s.present && k !in s'.present && Legal(s', more)
    ensures var e := Run(Apply(Run(s0, steps), Visit(pid)), more); k in e.waitq && k !in e.present
  {
    WaitAgrees(s0, steps);
    var s := Run(s0, steps);
    var i := s.at.value;
    assert ProgOK(s, i) && OwnerOK(s, i);
    var a :| LaunchedAs(s, a, k, s.queue[i].id);
    assert ChildOK(s, a);
    StaleStays(Apply(s, Visit(pid)), more, k);
  }
}
