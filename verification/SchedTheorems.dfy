/** What every run of the scheduler keeps. */
module SchedTheorems {
  import opened Options
  import opened Conditions
  import opened Sched

  // ----- helpers on ids ------------------------------------------------------------------

  lemma {:induction false} NoneWaiting(q: seq<Prog>)
    requires forall i :: 0 <= i < |q| ==> q[i].flag != FORK_FIRST || q[i].pid != 0
    ensures Waiting(q) == []
  {
    if q != [] { NoneWaiting(q[1..]); }
  }

  lemma {:induction false} WaitingUpdate(q: seq<Prog>, i: nat, p: Prog)
    requires i < |q| && p.id == q[i].id && p.flag == q[i].flag
    requires p.flag == FORK_FIRST ==> (p.pid == 0 <==> q[i].pid == 0)
    ensures Waiting(q[i := p]) == Waiting(q)
  {
    if i == 0 {
      assert q[i := p][1..] == q[1..];
    } else {
      assert q[i := p][1..] == q[1..][i - 1 := p];
      WaitingUpdate(q[1..], i - 1, p);
    }
  }

  lemma FirstIdsSnoc(log: seq<Launch>, l: Launch)
    ensures FirstIds(log + [l]) == FirstIds(log) + (if l.flag == FORK_FIRST then [l.id] else [])
  {
    assert (log + [l])[..|log|] == log;
  }

  /** A sorted queue whose head is not fork-first holds no fork-first program. */
  lemma NoFirst(s: State)
    requires QueueOK(s) && !FirstQueued(s)
    ensures forall i :: 0 <= i < |s.queue| ==> s.queue[i].flag != FORK_FIRST
    ensures Waiting(s.queue) == []
  {
    forall i | 0 <= i < |s.queue| ensures s.queue[i].flag != FORK_FIRST {
      assert ProgOK(s, 0);
      if i > 0 { assert s.queue[0].flag <= s.queue[i].flag; }
    }
    NoneWaiting(s.queue);
  }

  // ----- steps outside the queue loop ----------------------------------------------------

  lemma BeginKeeps(s: State, c: Clock, first: seq<nat>)
    requires Inv(s, first) && Enabled(s, Begin(c))
    ensures Inv(Apply(s, Begin(c)), first)
  {
    var s' := Apply(s, Begin(c));
    forall i | 0 <= i < |s'.queue| ensures ProgOK(s', i) { assert ProgOK(s, i); }
    forall a, i | 0 <= a < |s'.log| && 0 <= i < |s'.queue| ensures LaunchOK(s', a, i) { assert LaunchOK(s, a, i); }
    forall a, b | 0 <= a < b < |s'.log| ensures PairOK(s', a, b) { assert PairOK(s, a, b); }
    forall i | 0 <= i < |s'.queue| ensures WindowOK(s', i) { assert WindowOK(s, i); }
  }

  lemma EndKeeps(s: State, first: seq<nat>)
    requires Inv(s, first) && Enabled(s, End)
    ensures Inv(Apply(s, End), first)
  {
    var s' := Apply(s, End);
    forall i | 0 <= i < |s'.queue| ensures ProgOK(s', i) { assert ProgOK(s, i); }
    forall a, i | 0 <= a < |s'.log| && 0 <= i < |s'.queue| ensures LaunchOK(s', a, i) { assert LaunchOK(s, a, i); }
    forall a, b | 0 <= a < b < |s'.log| ensures PairOK(s', a, b) { assert PairOK(s, a, b); }
    forall i | 0 <= i < |s'.queue| ensures WindowOK(s', i) { assert WindowOK(s, i); }
  }

  lemma VanishKeeps(s: State, pids: set<int>, first: seq<nat>)
    requires Inv(s, first)
    ensures Inv(s.(present := s.present - pids), first)
  {
    var s' := s.(present := s.present - pids);
    forall i | 0 <= i < |s'.queue| ensures ProgOK(s', i) { assert ProgOK(s, i); }
    forall a, i | 0 <= a < |s'.log| && 0 <= i < |s'.queue| ensures LaunchOK(s', a, i) { assert LaunchOK(s, a, i); }
    forall a, b | 0 <= a < b < |s'.log| ensures PairOK(s', a, b) { assert PairOK(s, a, b); }
    forall i | 0 <= i < |s'.queue| ensures WindowOK(s', i) { assert WindowOK(s, i); }
  }

  /** A time stamp, now or later than any clock reading so far. */
  lemma StampKeeps(s: State, j: nat, t: int, first: seq<nat>)
    requires Inv(s, first) && s.at.None? && j < |s.queue| && t >= s.latest
    ensures Inv(s.(latest := t, queue := s.queue[j := s.queue[j].(time := t)]), first)
  {
    var s' := s.(latest := t, queue := s.queue[j := s.queue[j].(time := t)]);
    WaitingUpdate(s.queue, j, s.queue[j].(time := t));
    forall i | 0 <= i < |s'.queue| ensures ProgOK(s', i) { assert ProgOK(s, i); }
    forall a, i | 0 <= a < |s'.log| && 0 <= i < |s'.queue| ensures LaunchOK(s', a, i) { assert LaunchOK(s, a, i); }
    forall a, b | 0 <= a < b < |s'.log| ensures PairOK(s', a, b) { assert PairOK(s, a, b); }
    forall i | 0 <= i < |s'.queue| ensures WindowOK(s', i) { assert WindowOK(s, i); }
  }

  lemma LaterKeeps(s: State, t: int, first: seq<nat>)
    requires Inv(s, first) && s.at.None? && t >= s.latest
    ensures Inv(s.(latest := t), first)
  {
    var s' := s.(latest := t);
    forall i | 0 <= i < |s'.queue| ensures ProgOK(s', i) { assert ProgOK(s, i); }
    forall a, i | 0 <= a < |s'.log| && 0 <= i < |s'.queue| ensures LaunchOK(s', a, i) { assert LaunchOK(s, a, i); }
    forall a, b | 0 <= a < b < |s'.log| ensures PairOK(s', a, b) { assert PairOK(s, a, b); }
    forall i | 0 <= i < |s'.queue| ensures WindowOK(s', i) { assert WindowOK(s, i); }
  }

  /** The invariant does not look at who waits for what. */
  lemma WaitersKeep(s: State, children: set<int>, waitq: map<int, nat>, first: seq<nat>)
    requires Inv(s, first)
    ensures Inv(s.(children := children, waitq := waitq), first)
  {
    var s' := s.(children := children, waitq := waitq);
    forall i | 0 <= i < |s'.queue| ensures ProgOK(s', i) { assert ProgOK(s, i); }
    forall a, i | 0 <= a < |s'.log| && 0 <= i < |s'.queue| ensures LaunchOK(s', a, i) { assert LaunchOK(s, a, i); }
    forall a, b | 0 <= a < b < |s'.log| ensures PairOK(s', a, b) { assert PairOK(s, a, b); }
    forall i | 0 <= i < |s'.queue| ensures WindowOK(s', i) { assert WindowOK(s, i); }
  }

  lemma ReapKeeps(s: State, pid: int, t: int, first: seq<nat>)
    requires Inv(s, first) && Enabled(s, Reap(pid, t))
    ensures Inv(Apply(s, Reap(pid, t)), first)
  {
    var s1 := s.(present := s.present - {pid});
    VanishKeeps(s, {pid}, first);
    var s2 := s1.(children := s.children - {pid}, waitq := s.waitq - {pid});
    WaitersKeep(s1, s.children - {pid}, s.waitq - {pid}, first);
    var j := if pid in s.waitq then IndexOf(s.queue, s.waitq[pid]) else |s.queue|;
    if j < |s.queue| { StampKeeps(s2, j, t, first); } else { LaterKeeps(s2, t, first); }
  }

  lemma StopKeeps(s: State, pid: int, first: seq<nat>)
    requires Inv(s, first)
    ensures Inv(Stop(s, pid), first)
  {
    VanishKeeps(s, {pid}, first);
    WaitersKeep(s.(present := s.present - {pid}), s.children - {pid}, s.waitq, first);
  }

  // ----- one visit -----------------------------------------------------------------------

  lemma MoveOnKeeps(s: State, i: nat, first: seq<nat>)
    requires Inv(s, first) && s.at == Some(i) && i < |s.queue| && s.queue[i].flag >= 0
    requires s.queue[i].flag == FORK_WATCH && s.queue[i].pid in s.present ==> Judged(s.queue[i], s.clock)
    ensures Inv(s.(at := Some(i + 1)), first)
  {
    var s' := s.(at := Some(i + 1));
    forall j | 0 <= j < |s'.queue| ensures ProgOK(s', j) { assert ProgOK(s, j); }
    forall a, j | 0 <= a < |s'.log| && 0 <= j < |s'.queue| ensures LaunchOK(s', a, j) { assert LaunchOK(s, a, j); }
    forall a, b | 0 <= a < b < |s'.log| ensures PairOK(s', a, b) { assert PairOK(s, a, b); }
    forall j | 0 <= j < |s'.queue| ensures WindowOK(s', j) { assert WindowOK(s, j); }
  }

  lemma BreakKeeps(s: State, first: seq<nat>)
    requires Inv(s, first) && FirstQueued(s)
    ensures Inv(s.(at := None), first)
  {
    var s' := s.(at := None);
    forall j | 0 <= j < |s'.queue| ensures ProgOK(s', j) { assert ProgOK(s, j); }
    forall a, j | 0 <= a < |s'.log| && 0 <= j < |s'.queue| ensures LaunchOK(s', a, j) { assert LaunchOK(s, a, j); }
    forall a, b | 0 <= a < b < |s'.log| ensures PairOK(s', a, b) { assert PairOK(s, a, b); }
    forall j | 0 <= j < |s'.queue| ensures WindowOK(s', j) { assert ProgOK(s, j); }
  }

  lemma DropAt<T>(q: seq<T>, i: nat)
    requires i < |q|
    ensures |Drop(q, i)| == |q| - 1
    ensures forall j :: 0 <= j < |q| - 1 ==> Drop(q, i)[j] == q[if j < i then j else j + 1]
  {
  }

  /** `t` is `s` after node `i` was taken off the queue; at most pids and launches were added. */
  ghost predicate Removed(s: State, i: nat, t: State) {
    && i < |s.queue| && s.at == Some(i) && t.at == Some(i) && t.clock == s.clock && t.latest == s.latest
    && t.sleep == s.sleep && s.used <= t.used && s.log <= t.log
    && |t.queue| == |s.queue| - 1
    && (forall j :: 0 <= j < |t.queue| ==> t.queue[j] == s.queue[if j < i then j else j + 1])
  }

  lemma RemovedQueueOK(s: State, i: nat, t: State)
    requires QueueOK(s) && Removed(s, i, t)
    ensures QueueOK(t)
    ensures FirstQueued(t) ==> FirstQueued(s)
  {
    assert ProgOK(s, 0);
    if FirstQueued(t) && i == 0 { assert s.queue[0].flag <= s.queue[1].flag; }
    forall j | 0 <= j < |t.queue| ensures ProgOK(t, j) { assert ProgOK(s, if j < i then j else j + 1); }
  }

  lemma RemovedWindowsOK(s: State, i: nat, t: State)
    requires QueueOK(s) && LogOK(s) && WindowsOK(s) && Removed(s, i, t)
    requires forall p :: p in t.present && p in s.used ==> p in s.present
    requires 0 !in t.present
    ensures WindowsOK(t)
  {
    forall j | 0 <= j < |t.queue| ensures WindowOK(t, j) {
      var k := if j < i then j else j + 1;
      assert ProgOK(s, k) && WindowOK(s, k);
    }
  }

  /** Removing a fork-first program that has been started and, unless it has a pid file, has ended. */
  lemma RemoveKeeps(s: State, i: nat, first: seq<nat>)
    requires Inv(s, first) && s.at == Some(i) && i < |s.queue| && s.queue[i].flag == FORK_FIRST
    requires s.queue[i].pid != 0 && (s.queue[i].hasPidFile || s.queue[i].pid !in s.present)
    ensures Inv(Remove(s, i), first)
  {
    var s' := Remove(s, i);
    assert ProgOK(s, i);
    if i > 0 { NoFirst(s); }
    DropAt(s.queue, i);
    assert s'.queue == s.queue[1..];
    RemovedQueueOK(s, i, s');
    RemovedWindowsOK(s, i, s');
    FirstRemovedLog(s);
  }

  /** Removing the head leaves the log as it is. */
  lemma FirstRemovedLog(s: State)
    requires LogOK(s) && PairsOK(s) && s.queue != [] && FirstQueued(s)
    ensures var s' := s.(queue := s.queue[1..], at := Some(0)); LogOK(s') && PairsOK(s')
  {
    var s' := s.(queue := s.queue[1..], at := Some(0));
    forall a, j | 0 <= a < |s'.log| && 0 <= j < |s'.queue| ensures LaunchOK(s', a, j) { assert LaunchOK(s, a, j + 1); }
    forall a, b | 0 <= a < b < |s'.log| ensures PairOK(s', a, b) { assert PairOK(s, a, b); }
  }

  /** Launching program `i`: the log against the queue. */
  lemma LaunchedLog(s: State, i: nat, pid: int)
    requires QueueOK(s) && LogOK(s) && i < |s.queue| && s.at.Some? && s.queue[i].pid !in s.present
    requires FirstQueued(s) ==> s.queue[i].flag == FORK_FIRST
    requires pid > 0 && pid !in s.used
    ensures LogOK(RunProg(s, i, pid))
  {
    var r := RunProg(s, i, pid);
    forall a, j | 0 <= a < |r.log| && 0 <= j < |r.queue| ensures LaunchOK(r, a, j) {
      if a < |s.log| { assert LaunchOK(s, a, j); }
    }
    assert FirstQueued(r) <==> FirstQueued(s);
  }

  /** And the launches among each other. */
  lemma LaunchedPairs(s: State, i: nat, pid: int)
    requires LogOK(s) && PairsOK(s) && i < |s.queue| && s.queue[i].pid !in s.present && pid !in s.used
    requires s.queue[i].pid == 0 || s.queue[i].flag == FORK_WATCH
    ensures PairsOK(RunProg(s, i, pid))
  {
    var r := RunProg(s, i, pid);
    forall a, b | 0 <= a < b < |r.log| ensures PairOK(r, a, b) {
      if b < |s.log| { assert PairOK(s, a, b); } else { assert LaunchOK(s, a, i); }
    }
  }

  /** Neither is about the iterator. */
  lemma MovedLog(s: State, at: Option<nat>)
    requires LogOK(s) && PairsOK(s)
    ensures LogOK(s.(at := at)) && PairsOK(s.(at := at))
  {
    var t := s.(at := at);
    forall a, j | 0 <= a < |t.log| && 0 <= j < |t.queue| ensures LaunchOK(t, a, j) { assert LaunchOK(s, a, j); }
    forall a, b | 0 <= a < b < |t.log| ensures PairOK(t, a, b) { assert PairOK(s, a, b); }
  }

  /** Removing program `i` keeps both, unless a fork-first program turns up at the head. */
  lemma RemovedLog(s: State, i: nat)
    requires LogOK(s) && PairsOK(s) && i < |s.queue| && !FirstQueued(Remove(s, i))
    ensures LogOK(Remove(s, i)) && PairsOK(Remove(s, i))
  {
    var t := Remove(s, i);
    DropAt(s.queue, i);
    forall a, j | 0 <= a < |t.log| && 0 <= j < |t.queue| ensures LaunchOK(t, a, j) {
      assert LaunchOK(s, a, if j < i then j else j + 1);
    }
    forall a, b | 0 <= a < b < |t.log| ensures PairOK(t, a, b) { assert PairOK(s, a, b); }
  }

  lemma LaunchFirstKeeps(s: State, i: nat, pid: int, first: seq<nat>)
    requires Inv(s, first) && s.at == Some(i) && i < |s.queue| && s.queue[i].flag == FORK_FIRST && s.queue[i].pid == 0
    requires pid > 0 && pid !in s.used
    ensures i == 0 && Inv(RunProg(s, i, pid).(at := None), first)
  {
    if i > 0 { NoFirst(s); }
    LaunchedLog(s, i, pid);
    LaunchedPairs(s, i, pid);
    MovedLog(RunProg(s, i, pid), None);
    LaunchFirstQueue(s, pid);
    LaunchFirstOrder(s, pid, first);
  }

  lemma LaunchFirstQueue(s: State, pid: int)
    requires QueueOK(s) && LogOK(s) && FirstQueued(s) && s.at.Some? && s.queue[0].pid == 0 && pid > 0
    ensures var t := RunProg(s, 0, pid).(at := None); QueueOK(t) && WindowsOK(t)
  {
    var t := RunProg(s, 0, pid).(at := None);
    forall j | 0 <= j < |t.queue| ensures ProgOK(t, j) && WindowOK(t, j) { assert ProgOK(s, j); }
  }

  lemma LaunchFirstOrder(s: State, pid: int, first: seq<nat>)
    requires LogOK(s) && FirstOK(s) && OrderOK(s, first) && FirstQueued(s) && s.queue[0].pid == 0
    requires pid > 0 && pid !in s.used
    ensures var t := RunProg(s, 0, pid).(at := None); FirstOK(t) && OrderOK(t, first)
  {
    var t := RunProg(s, 0, pid).(at := None);
    FirstIdsSnoc(s.log, t.log[|s.log|]);
    assert t.queue[1..] == s.queue[1..];
    assert Waiting(s.queue) == [s.queue[0].id] + Waiting(t.queue);
    forall a | 0 <= a < |s.log| && s.log[a].pid in s.present
      ensures s.log[a].flag != FORK_FIRST || s.log[a].hasPidFile {
      assert s.log[a].pid in s.used;
    }
  }

  lemma LaunchWatchKeeps(s: State, i: nat, pid: int, first: seq<nat>)
    requires Inv(s, first) && s.at == Some(i) && i < |s.queue| && s.queue[i].flag == FORK_WATCH
    requires !FirstQueued(s) && s.queue[i].pid !in s.present && Judged(s.queue[i], s.clock)
    requires s.queue[i].time == 0 || s.clock.now - s.queue[i].time > s.sleep
    requires pid > 0 && pid !in s.used
    ensures Inv(RunProg(s, i, pid).(at := Some(i + 1)), first)
  {
    LaunchedLog(s, i, pid);
    LaunchedPairs(s, i, pid);
    MovedLog(RunProg(s, i, pid), Some(i + 1));
    LaunchWatchQueue(s, i, pid);
    LaunchWatchOrder(s, i, pid, first);
  }

  lemma LaunchWatchQueue(s: State, i: nat, pid: int)
    requires QueueOK(s) && LogOK(s) && WindowsOK(s) && s.at == Some(i) && i < |s.queue| && s.queue[i].flag == FORK_WATCH
    requires !FirstQueued(s) && Judged(s.queue[i], s.clock) && pid > 0 && pid !in s.used
    ensures var t := RunProg(s, i, pid).(at := Some(i + 1)); QueueOK(t) && WindowsOK(t)
  {
    var t := RunProg(s, i, pid).(at := Some(i + 1));
    forall j | 0 <= j < |t.queue| ensures ProgOK(t, j) && WindowOK(t, j) { assert ProgOK(s, j) && WindowOK(s, j); }
  }

  lemma LaunchWatchOrder(s: State, i: nat, pid: int, first: seq<nat>)
    requires LogOK(s) && FirstOK(s) && OrderOK(s, first) && i < |s.queue| && s.queue[i].flag == FORK_WATCH
    requires !FirstQueued(s) && pid !in s.used && (s.queue[i].time == 0 || s.clock.now - s.queue[i].time > s.sleep)
    ensures var t := RunProg(s, i, pid).(at := Some(i + 1)); FirstOK(t) && OrderOK(t, first)
  {
    var t := RunProg(s, i, pid).(at := Some(i + 1));
    FirstIdsSnoc(s.log, t.log[|s.log|]);
    WaitingUpdate(s.queue, i, t.queue[i]);
  }

  /** Launching and removing program `i`, which is not a fork-first one: the queue. */
  lemma RunAndRemoveQueue(s: State, i: nat, pid: int, first: seq<nat>)
    requires Inv(s, first) && s.at == Some(i) && i < |s.queue| && s.queue[i].flag in {FORK_ONCE, FORK_PERIOD}
    requires pid > 0 && pid !in s.used
    ensures var s' := Remove(RunProg(s, i, pid), i);
      QueueOK(s') && WindowsOK(s') && OrderOK(s', first) && !FirstQueued(s') && !FirstQueued(s)
  {
    var r := RunProg(s, i, pid);
    var s' := Remove(r, i);
    DropAt(s.queue, i);
    DropAt(r.queue, i);
    assert ProgOK(s, i) && ProgOK(s, 0);
    RemovedQueueOK(s, i, s');
    RemovedWindowsOK(s, i, s');
    NoFirst(s);
    NoFirst(s');
    if |r.log| > |s.log| { FirstIdsSnoc(s.log, r.log[|s.log|]); }
  }

  /** No fork-first program without pid file is alive, and none is started. */
  lemma RunAndRemoveFirst(s: State, i: nat, pid: int)
    requires LogOK(s) && FirstOK(s) && i < |s.queue| && s.queue[i].flag >= 0 && !FirstQueued(s) && pid !in s.used
    ensures FirstOK(Remove(RunProg(s, i, pid), i))
  {
  }

  /** Once-only and period programs alike: run (unless throttled) and removed. */
  lemma RunAndRemoveKeeps(s: State, i: nat, pid: int, first: seq<nat>)
    requires Inv(s, first) && s.at == Some(i) && i < |s.queue| && s.queue[i].flag in {FORK_ONCE, FORK_PERIOD}
    requires pid > 0 && pid !in s.used
    ensures Inv(Remove(RunProg(s, i, pid), i), first)
  {
    assert ProgOK(s, i);
    RunAndRemoveQueue(s, i, pid, first);
    LaunchedLog(s, i, pid);
    LaunchedPairs(s, i, pid);
    RemovedLog(RunProg(s, i, pid), i);
    RunAndRemoveFirst(s, i, pid);
  }

  lemma VisitFirstKeeps(s: State, pid: int, first: seq<nat>)
    requires Inv(s, first) && Enabled(s, Visit(pid)) && s.queue[s.at.value].flag < 0
    ensures Inv(Apply(s, Visit(pid)), first)
  {
    var i := s.at.value;
    var p := s.queue[i];
    assert ProgOK(s, i);
    if i > 0 { NoFirst(s); }
    if p.pid == 0 { LaunchFirstKeeps(s, i, pid, first); }
    else if !p.hasPidFile && p.pid in s.present { BreakKeeps(s, first); }
    else { RemoveKeeps(s, i, first); }
  }

  lemma VisitWatchKeeps(s: State, pid: int, first: seq<nat>)
    requires Inv(s, first) && Enabled(s, Visit(pid)) && s.queue[s.at.value].flag == FORK_WATCH
    ensures Inv(Apply(s, Visit(pid)), first)
  {
    var i := s.at.value;
    var p := s.queue[i];
    assert ProgOK(s, i);
    WatchGuardNeverTaken(s, first);
    if Judged(p, s.clock) {
      if p.pid in s.present || (p.time != 0 && s.clock.now - p.time <= s.sleep) { MoveOnKeeps(s, i, first); }
      else { LaunchWatchKeeps(s, i, pid, first); }
    } else {
      StopKeeps(s, p.pid, first);
      if p.pid > 0 { MoveOnKeeps(Stop(s, p.pid), i, first); } else { MoveOnKeeps(s, i, first); }
    }
  }

  lemma VisitKeeps(s: State, pid: int, first: seq<nat>)
    requires Inv(s, first) && Enabled(s, Visit(pid))
    ensures Inv(Apply(s, Visit(pid)), first)
  {
    var i := s.at.value;
    assert ProgOK(s, i);
    if s.queue[i].flag < 0 { VisitFirstKeeps(s, pid, first); }
    else if s.queue[i].flag == FORK_WATCH { VisitWatchKeeps(s, pid, first); }
    else { RunAndRemoveKeeps(s, i, pid, first); }
  }

  /** When the loop reaches a watched program, no fork-first program heads the queue any more. */
  lemma WatchGuardNeverTaken(s: State, first: seq<nat>)
    requires Inv(s, first) && s.at.Some? && s.at.value < |s.queue| && s.queue[s.at.value].flag >= 0
    ensures s.queue[0].flag >= 0
  {
    assert ProgOK(s, 0);
  }

  lemma StepKeeps(s: State, step: Step, first: seq<nat>)
    requires Inv(s, first) && Enabled(s, step)
    ensures Inv(Apply(s, step), first)
  {
    match step
    case Begin(c) => BeginKeeps(s, c, first);
    case Visit(pid) => VisitKeeps(s, pid, first);
    case End => EndKeeps(s, first);
    case Gone(pids) => VanishKeeps(s, pids, first);
    case Reap(pid, t) => ReapKeeps(s, pid, t, first);
  }

  lemma {:induction false} RunKeeps(s: State, steps: seq<Step>, first: seq<nat>)
    requires Inv(s, first) && Legal(s, steps)
    ensures Inv(Run(s, steps), first)
    decreases |steps|
  {
    if steps != [] {
      StepKeeps(s, steps[0], first);
      RunKeeps(Apply(s, steps[0]), steps[1..], first);
    }
  }

  /** One more step at the end of a run. */
  lemma {:induction false} RunSnoc(s: State, steps: seq<Step>, last: Step)
    requires Legal(s, steps) && Enabled(Run(s, steps), last)
    ensures Legal(s, steps + [last]) && Run(s, steps + [last]) == Apply(Run(s, steps), last)
    decreases |steps|
  {
    if steps == [] {
      assert Legal(Apply(s, last), ([] + [last])[1..]);
    } else {
      assert (steps + [last])[1..] == steps[1..] + [last];
      RunSnoc(Apply(s, steps[0]), steps[1..], last);
    }
  }

  lemma {:induction false} RunConcat(s: State, a: seq<Step>, b: seq<Step>)
    requires Legal(s, a) && Legal(Run(s, a), b)
    ensures Legal(s, a + b) && Run(s, a + b) == Run(Run(s, a), b)
    decreases |a|
  {
    if a == [] {
      assert a + b == b;
    } else {
      assert (a + b)[1..] == a[1..] + b;
      RunConcat(Apply(s, a[0]), a[1..], b);
    }
  }

  lemma InitialOK(s: State)
    requires Initial(s)
    ensures Inv(s, Waiting(s.queue))
  {
    forall i | 0 <= i < |s.queue| ensures ProgOK(s, i) {}
  }

  // ----- the theorems, for every run from every initial queue ----------------------------

  /** The state after a run. */
  lemma Reached(s0: State, steps: seq<Step>)
    requires Initial(s0) && Legal(s0, steps)
    ensures Inv(Run(s0, steps), Waiting(s0.queue))
  {
    InitialOK(s0);
    RunKeeps(s0, steps, Waiting(s0.queue));
  }

  /** Barrier: nothing but fork-first programs is ever started while a fork-first program remains queued. */
  lemma FirstBarrier(s0: State, steps: seq<Step>, pid: int)
    requires Initial(s0) && Legal(s0, steps) && Enabled(Run(s0, steps), Visit(pid))
    ensures var s := Run(s0, steps); var s' := Apply(s, Visit(pid));
      |s'.log| > |s.log| && s'.log[|s.log|].flag != FORK_FIRST ==>
        forall i :: 0 <= i < |s.queue| ==> s.queue[i].flag != FORK_FIRST
  {
    Reached(s0, steps);
    var s := Run(s0, steps);
    var i := s.at.value;
    assert ProgOK(s, i) && ProgOK(s, 0);
    if s.queue[i].flag >= 0 { NoFirst(s); }
  }

  /** The guard for watched programs behind a fork-first head is never taken. */
  lemma GuardNeverTaken(s0: State, steps: seq<Step>)
    requires Initial(s0) && Legal(s0, steps)
    ensures var s := Run(s0, steps);
      s.at.Some? && s.at.value < |s.queue| && s.queue[s.at.value].flag == FORK_WATCH ==> s.queue[0].flag >= 0
  {
    Reached(s0, steps);
    var s := Run(s0, steps);
    if s.at.Some? && s.at.value < |s.queue| && s.queue[s.at.value].flag == FORK_WATCH {
      WatchGuardNeverTaken(s, Waiting(s0.queue));
    }
  }

  /** Fork-first programs are started in queue order, each at most once. */
  lemma FirstInOrder(s0: State, steps: seq<Step>)
    requires Initial(s0) && Legal(s0, steps)
    ensures FirstIds(Run(s0, steps).log) <= Waiting(s0.queue)
  {
    Reached(s0, steps);
  }

  /** One without a pid file has ended by the time anything else is started, and for good. */
  lemma FirstEndsBeforeNext(s0: State, steps: seq<Step>, a: nat, b: nat)
    requires Initial(s0) && Legal(s0, steps) && a < b < |Run(s0, steps).log|
    requires var l := Run(s0, steps).log[a]; l.flag == FORK_FIRST && !l.hasPidFile
    ensures Run(s0, steps).log[a].pid !in Run(s0, steps).present
  {
    Reached(s0, steps);
  }

  /** At most one process per program at any moment: an earlier launch of the same program is gone. */
  lemma OneInstance(s0: State, steps: seq<Step>, a: nat, b: nat)
    requires Initial(s0) && Legal(s0, steps) && a < b < |Run(s0, steps).log|
    requires Run(s0, steps).log[a].id == Run(s0, steps).log[b].id
    ensures Run(s0, steps).log[a].pid !in Run(s0, steps).present
  {
    Reached(s0, steps);
    assert PairOK(Run(s0, steps), a, b);
  }

  /**
   * Only watched programs are ever started twice. In particular a period program, which the sample
   * configuration describes as run every so often, is started at most once.
   */
  lemma OthersRunOnce(s0: State, steps: seq<Step>, a: nat, b: nat)
    requires Initial(s0) && Legal(s0, steps) && a < b < |Run(s0, steps).log|
    requires Run(s0, steps).log[a].flag != FORK_WATCH
    ensures Run(s0, steps).log[a].id != Run(s0, steps).log[b].id
  {
    Reached(s0, steps);
    assert PairOK(Run(s0, steps), a, b);
  }

  /** Throttle: two launches of the same program are more than `sleep_time` seconds apart. */
  lemma Throttled(s0: State, steps: seq<Step>, a: nat, b: nat)
    requires Initial(s0) && Legal(s0, steps) && a < b < |Run(s0, steps).log|
    requires Run(s0, steps).log[a].id == Run(s0, steps).log[b].id
    ensures Run(s0, steps).log[b].now - Run(s0, steps).log[a].now > s0.sleep
  {
    Reached(s0, steps);
    SleepStays(s0, steps);
    assert PairOK(Run(s0, steps), a, b);
  }

  lemma {:induction false} SleepStays(s: State, steps: seq<Step>)
    requires Legal(s, steps)
    ensures Run(s, steps).sleep == s.sleep
    decreases |steps|
  {
    if steps != [] { SleepStays(Apply(s, steps[0]), steps[1..]); }
  }

  /**
   * Between ticks, also after a tick cut short by a fork-first program, every process that a watched
   * program ever started and that is still there is inside one of the program's windows, as judged
   * by the clock of that tick.
   */
  lemma InsideWindows(s0: State, steps: seq<Step>, a: nat, i: nat)
    requires Initial(s0) && Legal(s0, steps)
    requires var s := Run(s0, steps);
      && s.at.None? && a < |s.log| && i < |s.queue| && s.log[a].id == s.queue[i].id
      && s.queue[i].flag == FORK_WATCH && s.log[a].pid in s.present
    ensures var s := Run(s0, steps); Judged(s.queue[i], s.clock)
  {
    Reached(s0, steps);
    var s := Run(s0, steps);
    assert LaunchOK(s, a, i) && WindowOK(s, i);
  }

  /** The queue stays sorted by flag. */
  lemma QueueStaysSorted(s0: State, steps: seq<Step>)
    requires Initial(s0) && Legal(s0, steps)
    ensures Sorted(Run(s0, steps).queue)
  {
    Reached(s0, steps);
  }

  // ----- watched programs never leave the queue ------------------------------------------

  /** The watched programs with their windows, in queue order. */
  function Watched(q: seq<Prog>): seq<(nat, seq<Cond>)> {
    if q == [] then [] else (if q[0].flag == FORK_WATCH then [(q[0].id, q[0].cond)] else []) + Watched(q[1..])
  }

  lemma {:induction false} WatchedUpdate(q: seq<Prog>, i: nat, p: Prog)
    requires i < |q| && p.id == q[i].id && p.flag == q[i].flag && p.cond == q[i].cond
    ensures Watched(q[i := p]) == Watched(q)
  {
    if i == 0 {
      assert q[i := p][1..] == q[1..];
    } else {
      assert q[i := p][1..] == q[1..][i - 1 := p];
      WatchedUpdate(q[1..], i - 1, p);
    }
  }

  lemma {:induction false} WatchedDrop(q: seq<Prog>, i: nat)
    requires i < |q| && q[i].flag != FORK_WATCH
    ensures Watched(Drop(q, i)) == Watched(q)
  {
    if i == 0 {
      assert Drop(q, i) == q[1..];
    } else {
      assert Drop(q, i)[1..] == Drop(q[1..], i - 1);
      WatchedDrop(q[1..], i - 1);
    }
  }

  lemma WatchedAfterStep(s: State, step: Step)
    requires Enabled(s, step)
    ensures Watched(Apply(s, step).queue) == Watched(s.queue)
  {
    match step
    case Begin(c) =>
    case End =>
    case Gone(_) =>
    case Reap(pid, t) =>
      var j := if pid in s.waitq then IndexOf(s.queue, s.waitq[pid]) else |s.queue|;
      if j < |s.queue| { WatchedUpdate(s.queue, j, s.queue[j].(time := t)); }
    case Visit(pid) =>
      var i := s.at.value;
      var r := RunProg(s, i, pid);
      WatchedUpdate(s.queue, i, r.queue[i]);
      if s.queue[i].flag != FORK_WATCH && s.queue[i].flag <= FORK_PERIOD {
        WatchedDrop(s.queue, i);
        WatchedDrop(r.queue, i);
      }
  }

  /** Every watched program stays queued, with its windows, through every run. */
  lemma {:induction false} WatchedStay(s: State, steps: seq<Step>)
    requires Legal(s, steps)
    ensures Watched(Run(s, steps).queue) == Watched(s.queue)
    decreases |steps|
  {
    if steps != [] {
      WatchedAfterStep(s, steps[0]);
      WatchedStay(Apply(s, steps[0]), steps[1..]);
    }
  }
}
