/**
 * The scheduler as a state machine. One tick of `mytask` is a `Begin` step, one `Visit` step for
 * each queue node the iterator reaches, and an `End` step (or a `break` out of a visit). Processes
 * disappear in between as they like. Every run keeps the properties proved in `SchedTheorems`.
 */
module Sched {
  import opened Options
  import opened Conditions

  const FORK_FIRST := -1
  const FORK_ONCE := 0
  const FORK_WATCH := 1
  const FORK_PERIOD := 2

  /** `prog_t`, as far as the tick uses it. `id` tells programs apart; `pid` 0 means never started. */
  datatype Prog = Prog(id: nat, flag: int, hasPidFile: bool, cond: seq<Cond>, pid: int, time: int)

  /** What the clock says during one tick: seconds since 1970, weekday 1..7, second of the day. */
  datatype Clock = Clock(now: int, wday: int, sec: int)

  /** One successful `run_prog`. */
  datatype Launch = Launch(id: nat, flag: int, hasPidFile: bool, pid: int, now: int)

  /**
   * `at` is the iterator during a tick: the index of the node it will return next. `present` are the
   * processes for which `kill(pid, 0)` succeeds, `used` all pids that ever existed, `latest` the
   * latest clock reading anyone took, `log` every launch so far. `children` are the processes forked and not
   * yet waited for, `waitq` the table that says which program a process was started for.
   */
  datatype State = State(queue: seq<Prog>, at: Option<nat>, clock: Clock, latest: int, sleep: int,
                         present: set<int>, used: set<int>, log: seq<Launch>,
                         children: set<int>, waitq: map<int, nat>)

  function Drop<T>(s: seq<T>, i: nat): seq<T>
    requires i < |s|
  {
    s[..i] + s[i + 1..]
  }

  predicate Judged(p: Prog, c: Clock) {
    Judge(p.flag, p.cond, c.wday, c.sec, c.now - p.time)
  }

  /** `run_prog` on queue node `i`; `pid` is what fork would return. */
  function RunProg(s: State, i: nat, pid: int): State
    requires i < |s.queue|
  {
    var p := s.queue[i];
    if p.flag > 0 && p.time != 0 && s.clock.now - p.time <= s.sleep then s
    else s.(queue := s.queue[i := p.(pid := pid, time := s.clock.now)],
            present := s.present + {pid}, used := s.used + {pid},
            log := s.log + [Launch(p.id, p.flag, p.hasPidFile, pid, s.clock.now)],
            children := s.children + {pid}, waitq := s.waitq[pid := p.id])
  }

  /** `list_del_node` on node `i`, whose successor the iterator has saved. */
  function Remove(s: State, i: nat): State
    requires i < |s.queue|
  {
    s.(queue := Drop(s.queue, i), at := Some(i))
  }

  /**
   * `kill(pid, SIGTERM); waitpid(pid, NULL, 0);` for a process that is there. The `dict_delete` behind them is
   * given the bytes of a pointer for its key, and so does not find the process in `waitq`.
   */
  function Stop(s: State, pid: int): State {
    if pid in s.present then s.(present := s.present - {pid}, children := s.children - {pid}) else s
  }

  /** The body of the queue loop on node `i`. */
  function VisitNode(s: State, i: nat, pid: int): State
    requires i < |s.queue|
  {
    var p := s.queue[i];
    var onwards := s.(at := Some(i + 1));
    if p.flag < 0 then
      if p.pid == 0 then RunProg(s, i, pid).(at := None)
      else if !p.hasPidFile && p.pid in s.present then s.(at := None)
      else Remove(s, i)
    else if p.flag == FORK_ONCE || p.flag == FORK_PERIOD then
      if p.flag == FORK_PERIOD && p.pid != 0 && p.pid in s.present then onwards
      else Remove(RunProg(s, i, pid), i)
    else if s.queue[0].flag < 0 then onwards
    else if Judged(p, s.clock) then
      if p.pid > 0 && p.pid in s.present then onwards
      else RunProg(s, i, pid).(at := Some(i + 1))
    else if p.pid > 0 then Stop(onwards, p.pid)
    else onwards
  }

  /** Position of a program in the queue, or the queue's length. */
  function IndexOf(q: seq<Prog>, id: nat): (j: nat)
    ensures j <= |q| && (j < |q| ==> q[j].id == id)
    ensures forall i :: 0 <= i < j ==> q[i].id != id
  {
    if q == [] || q[0].id == id then 0 else 1 + IndexOf(q[1..], id)
  }

  /** A program, if it is still queued, gets a time stamp. */
  function Stamp(q: seq<Prog>, id: nat, t: int): seq<Prog> {
    var j := IndexOf(q, id);
    if j < |q| then q[j := q[j].(time := t)] else q
  }

  /**
   * What can happen next. `Gone` is processes leaving the process table, `Reap` one turn of the loop of
   * `handle_sigchild`: a child has been waited for, and its program gets the time as its stamp.
   */
  datatype Step =
    | Begin(clock: Clock)
    | Visit(pid: int)
    | End
    | Gone(pids: set<int>)
    | Reap(pid: int, now: int)

  ghost predicate Enabled(s: State, step: Step) {
    match step
    case Begin(c) => s.at.None? && c.now >= s.latest && 1 <= c.wday <= 7 && 0 <= c.sec < 86400
    case Visit(pid) => s.at.Some? && s.at.value < |s.queue| && pid > 0 && pid !in s.used
    case End => s.at.Some? && s.at.value >= |s.queue|
    case Gone(_) => true
    case Reap(pid, t) => s.at.None? && t >= s.latest && pid in s.children
  }

  ghost function Apply(s: State, step: Step): State
    requires Enabled(s, step)
  {
    match step
    case Begin(c) => s.(clock := c, latest := c.now, at := Some(0))
    case Visit(pid) => VisitNode(s, s.at.value, pid)
    case End => s.(at := None)
    case Gone(pids) => s.(present := s.present - pids)
    case Reap(pid, t) =>
      s.(present := s.present - {pid}, children := s.children - {pid}, waitq := s.waitq - {pid}, latest := t,
         queue := if pid in s.waitq then Stamp(s.queue, s.waitq[pid], t) else s.queue)
  }

  /** A run: every step is enabled where it happens. */
  ghost predicate Legal(s: State, steps: seq<Step>)
    decreases |steps|
  {
    steps != [] ==> Enabled(s, steps[0]) && Legal(Apply(s, steps[0]), steps[1..])
  }

  ghost function Run(s: State, steps: seq<Step>): State
    requires Legal(s, steps)
    decreases |steps|
  {
    if steps == [] then s else Run(Apply(s, steps[0]), steps[1..])
  }

  // ----- the initial state ---------------------------------------------------------------

  predicate Sorted(q: seq<Prog>) {
    forall i, j :: 0 <= i < j < |q| ==> q[i].flag <= q[j].flag
  }

  /** After `load_conf`: a queue sorted by flag, nothing started yet. Watched programs have no pid file. */
  ghost predicate Initial(s: State) {
    && Sorted(s.queue) && s.at.None? && s.log == [] && s.present <= s.used && 0 !in s.present && s.latest > 0
    && s.children == {} && s.waitq == map[]
    && (forall i, j :: 0 <= i < j < |s.queue| ==> s.queue[i].id != s.queue[j].id)
    && (forall i :: 0 <= i < |s.queue| ==>
          var p := s.queue[i];
          p.pid == 0 && p.time == 0 && FORK_FIRST <= p.flag <= FORK_PERIOD && (p.flag == FORK_WATCH ==> !p.hasPidFile))
  }

  // ----- the invariant -------------------------------------------------------------------

  /** Fork-first programs still in the queue. */
  predicate FirstQueued(s: State) {
    s.queue != [] && s.queue[0].flag == FORK_FIRST
  }

  /** The queue: sorted, ids distinct, only the head may be a started fork-first program. */
  ghost predicate QueueOK(s: State) {
    && Sorted(s.queue) && s.latest > 0 && (s.at.Some? ==> s.at.value <= |s.queue|)
    && (s.at.Some? && s.at.value > 0 ==> !FirstQueued(s))
    && (s.at.Some? ==> s.clock.now == s.latest)
    && (forall i, j :: 0 <= i < j < |s.queue| ==> s.queue[i].id != s.queue[j].id)
    && (forall i :: 0 <= i < |s.queue| ==> ProgOK(s, i))
  }

  ghost predicate ProgOK(s: State, i: nat)
    requires i < |s.queue|
  {
    var p := s.queue[i];
    && FORK_FIRST <= p.flag <= FORK_PERIOD && (p.flag == FORK_WATCH ==> !p.hasPidFile)
    && p.pid >= 0 && (p.pid > 0 ==> p.pid in s.used) && p.time <= s.latest
    && (p.flag == FORK_FIRST && i > 0 ==> p.pid == 0)
    && (p.flag in {FORK_ONCE, FORK_PERIOD} ==> p.pid == 0)
    && (p.flag == FORK_WATCH && FirstQueued(s) ==> p.pid == 0)
  }

  /** Launches and queue: a logged program still queued has a pid, and its newest process is that one. */
  ghost predicate LaunchOK(s: State, a: nat, i: nat)
    requires a < |s.log| && i < |s.queue|
  {
    var l := s.log[a];
    var p := s.queue[i];
    l.id == p.id ==>
      l.flag == p.flag && l.hasPidFile == p.hasPidFile && p.pid > 0 && l.now <= p.time
      && (l.pid in s.present ==> l.pid == p.pid)
  }

  ghost predicate LogOK(s: State) {
    && s.present <= s.used && 0 !in s.present
    && (forall a :: 0 <= a < |s.log| ==> s.log[a].pid in s.used && 0 < s.log[a].now <= s.latest)
    && (forall a, i :: 0 <= a < |s.log| && 0 <= i < |s.queue| ==> LaunchOK(s, a, i))
    && (FirstQueued(s) ==> forall a :: 0 <= a < |s.log| ==> s.log[a].flag == FORK_FIRST)
  }

  /** Two launches of one program: a watched one, restarted late enough and only after the first process was gone. */
  ghost predicate PairOK(s: State, a: nat, b: nat)
    requires a < b < |s.log|
  {
    s.log[a].id == s.log[b].id ==>
      s.log[a].flag == FORK_WATCH && s.log[a].pid !in s.present && s.log[b].now - s.log[a].now > s.sleep
  }

  ghost predicate PairsOK(s: State) {
    forall a, b :: 0 <= a < b < |s.log| ==> PairOK(s, a, b)
  }

  /** A fork-first program without pid file that is still there is the latest launch and heads the queue. */
  ghost predicate FirstOK(s: State) {
    forall a :: 0 <= a < |s.log| && s.log[a].flag == FORK_FIRST && !s.log[a].hasPidFile && s.log[a].pid in s.present ==>
      a == |s.log| - 1 && FirstQueued(s) && s.queue[0].pid == s.log[a].pid && !s.queue[0].hasPidFile
  }

  /** Watched programs visited in this tick, or all of them between ticks, run only inside their windows. */
  ghost predicate WindowsOK(s: State) {
    forall i :: 0 <= i < |s.queue| ==> WindowOK(s, i)
  }

  ghost predicate WindowOK(s: State, i: nat)
    requires i < |s.queue|
  {
    (s.at.Some? ==> i < s.at.value) && s.queue[i].flag == FORK_WATCH && s.queue[i].pid in s.present ==>
      Judged(s.queue[i], s.clock)
  }

  function FirstIds(log: seq<Launch>): seq<nat> {
    if log == [] then []
    else FirstIds(log[..|log| - 1]) + (if log[|log| - 1].flag == FORK_FIRST then [log[|log| - 1].id] else [])
  }

  /** Ids of the fork-first programs waiting to be started, in queue order. */
  function Waiting(q: seq<Prog>): seq<nat> {
    if q == [] then []
    else (if q[0].flag == FORK_FIRST && q[0].pid == 0 then [q[0].id] else []) + Waiting(q[1..])
  }

  ghost predicate OrderOK(s: State, first: seq<nat>) {
    FirstIds(s.log) + Waiting(s.queue) == first
  }

  ghost predicate Inv(s: State, first: seq<nat>) {
    QueueOK(s) && LogOK(s) && PairsOK(s) && FirstOK(s) && WindowsOK(s) && OrderOK(s, first)
  }
}
