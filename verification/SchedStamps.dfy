/**
 * Time stamps, and what they decide: the stamp of a queued program is the time of its latest launch or of the latest
 * waiting for one of its processes; so a visit of a watched program can be told from the launches and reapings of the
 * run alone.
 */
module SchedStamps {
  import opened Options
  import opened Conditions
  import opened Sched
  import opened SchedTheorems
  import opened SchedWaiting

  /** The step waits for a process that was started for program `id`. */
  ghost predicate ReapOf(s: State, step: Step, id: nat) {
    step.Reap? && StartedFor(s, step.pid, id)
  }

  ghost predicate LaunchAt(s: State, a: nat, id: nat, t: int) {
    a < |s.log| && s.log[a].id == id && s.log[a].now == t
  }

  ghost predicate ReapAt(s: State, steps: seq<Step>, k: nat, id: nat, t: int) {
    k < |steps| && ReapOf(s, steps[k], id) && steps[k].now == t
  }

  /** Program `id` was launched, or one of its processes waited for, at time `t`. */
  ghost predicate Touched(s: State, steps: seq<Step>, id: nat, t: int) {
    (exists a :: LaunchAt(s, a, id, t)) || (exists k :: ReapAt(s, steps, k, id, t))
  }

  /** `t` is the latest such time in the run of `steps` that has led to `s`, or 0 if there is none. */
  ghost predicate LatestTouch(s: State, steps: seq<Step>, id: nat, t: int) {
    && (t == 0 || Touched(s, steps, id, t))
    && (forall a :: 0 <= a < |s.log| && s.log[a].id == id ==> s.log[a].now <= t)
    && (forall k :: 0 <= k < |steps| && ReapOf(s, steps[k], id) ==> steps[k].now <= t)
  }

  ghost predicate StampsOK(s: State, steps: seq<Step>) {
    && (forall i :: 0 <= i < |s.queue| ==> LatestTouch(s, steps, s.queue[i].id, s.queue[i].time))
    && (forall k :: 0 <= k < |steps| && steps[k].Reap? ==> steps[k].pid in s.used)
  }

  // ----- each step keeps it --------------------------------------------------------------

  lemma SameStarted(s: State, s': State, pid: int, id: nat)
    requires s'.log == s.log
    ensures StartedFor(s', pid, id) <==> StartedFor(s, pid, id)
  {
    if StartedFor(s, pid, id) { StartedStays(s, s', pid, id); }
    if StartedFor(s', pid, id) { StartedStays(s', s, pid, id); }
  }

  /** A step that neither launches nor waits for anything of the program. */
  lemma TouchCarries(s: State, steps: seq<Step>, s': State, step: Step, id: nat, t: int)
    requires LatestTouch(s, steps, id, t) && s'.log == s.log && !ReapOf(s, step, id)
    ensures LatestTouch(s', steps + [step], id, t)
  {
    var more := steps + [step];
    forall k | 0 <= k < |more| ensures ReapOf(s', more[k], id) <==> k < |steps| && ReapOf(s, steps[k], id) {
      if more[k].Reap? { SameStarted(s, s', more[k].pid, id); }
    }
    if t != 0 {
      if a: nat :| LaunchAt(s, a, id, t) { assert LaunchAt(s', a, id, t); }
      else {
        var k: nat :| ReapAt(s, steps, k, id, t);
        assert ReapAt(s', more, k, id, t);
      }
    }
  }

  /** A step that waits for one of its processes. */
  lemma ReapTouches(s: State, steps: seq<Step>, s': State, step: Step, id: nat, t: int)
    requires LatestTouch(s, steps, id, t) && s'.log == s.log && ReapOf(s, step, id) && step.now >= t
    ensures LatestTouch(s', steps + [step], id, step.now)
  {
    var more := steps + [step];
    forall k | 0 <= k < |more| && ReapOf(s', more[k], id) ensures more[k].now <= step.now {
      if k < |steps| { SameStarted(s, s', steps[k].pid, id); }
    }
    SameStarted(s, s', step.pid, id);
    assert ReapAt(s', more, |steps|, id, step.now);
  }

  /** A launch adds no process to those waited for earlier. */
  lemma LaunchedStarted(s: State, s': State, l: Launch, pid: int, id: nat)
    requires s'.log == s.log + [l] && pid != l.pid
    ensures StartedFor(s', pid, id) <==> StartedFor(s, pid, id)
  {
    if StartedFor(s, pid, id) { StartedStays(s, s', pid, id); }
    if StartedFor(s', pid, id) {
      var a :| LaunchedAs(s', a, pid, id);
      assert LaunchedAs(s, a, pid, id);
    }
  }

  lemma LaunchedReaps(s: State, steps: seq<Step>, s': State, step: Step, l: Launch, id: nat)
    requires s'.log == s.log + [l] && l.pid !in s.used && !step.Reap?
    requires forall k :: 0 <= k < |steps| && steps[k].Reap? ==> steps[k].pid in s.used
    ensures var more := steps + [step];
      forall k :: 0 <= k < |more| ==> (ReapOf(s', more[k], id) <==> k < |steps| && ReapOf(s, steps[k], id))
  {
    var more := steps + [step];
    forall k | 0 <= k < |more| ensures ReapOf(s', more[k], id) <==> k < |steps| && ReapOf(s, steps[k], id) {
      if more[k].Reap? { LaunchedStarted(s, s', l, more[k].pid, id); }
    }
  }

  /** A launch of another program. */
  lemma OtherLaunch(s: State, steps: seq<Step>, s': State, step: Step, l: Launch, id: nat, t: int)
    requires LatestTouch(s, steps, id, t) && s'.log == s.log + [l] && l.pid !in s.used && !step.Reap? && l.id != id
    requires forall k :: 0 <= k < |steps| && steps[k].Reap? ==> steps[k].pid in s.used
    ensures LatestTouch(s', steps + [step], id, t)
  {
    LaunchedReaps(s, steps, s', step, l, id);
    if t != 0 {
      if a: nat :| LaunchAt(s, a, id, t) { assert LaunchAt(s', a, id, t); }
      else {
        var k: nat :| ReapAt(s, steps, k, id, t);
        assert ReapAt(s', steps + [step], k, id, t);
      }
    }
  }

  /** A launch of the program itself. */
  lemma LaunchTouches(s: State, steps: seq<Step>, s': State, step: Step, l: Launch, id: nat, t: int)
    requires LatestTouch(s, steps, id, t) && s'.log == s.log + [l] && l.pid !in s.used && !step.Reap?
    requires l.id == id && l.now >= t
    requires forall k :: 0 <= k < |steps| && steps[k].Reap? ==> steps[k].pid in s.used
    ensures LatestTouch(s', steps + [step], id, l.now)
  {
    LaunchedReaps(s, steps, s', step, l, id);
    assert LaunchAt(s', |s.log|, id, l.now);
  }

  /** Every program of `q` is one of the queue, with the stamp it has there. */
  ghost predicate StampsFrom(q: seq<Prog>, from: seq<Prog>) {
    forall j :: 0 <= j < |q| ==> StampIn(from, q[j].id, q[j].time)
  }

  ghost predicate StampIn(from: seq<Prog>, id: nat, t: int) {
    exists i :: 0 <= i < |from| && from[i].id == id && from[i].time == t
  }

  lemma CarriedStamps(s: State, steps: seq<Step>, s': State, step: Step)
    requires StampsOK(s, steps) && s'.log == s.log && !step.Reap? && s.used <= s'.used && StampsFrom(s'.queue, s.queue)
    ensures StampsOK(s', steps + [step])
  {
    forall j | 0 <= j < |s'.queue| ensures LatestTouch(s', steps + [step], s'.queue[j].id, s'.queue[j].time) {
      var i :| 0 <= i < |s.queue| && s.queue[i].id == s'.queue[j].id && s.queue[i].time == s'.queue[j].time;
      TouchCarries(s, steps, s', step, s.queue[i].id, s.queue[i].time);
    }
  }

  lemma ReapStamped(s: State, steps: seq<Step>, pid: int, t: int, first: seq<nat>)
    requires Sound(s, first) && StampsOK(s, steps) && Enabled(s, Reap(pid, t))
    ensures StampsOK(Apply(s, Reap(pid, t)), steps + [Reap(pid, t)])
  {
    var step := Reap(pid, t);
    var s' := Apply(s, step);
    var id := s.waitq[pid];
    forall j | 0 <= j < |s'.queue| ensures LatestTouch(s', steps + [step], s'.queue[j].id, s'.queue[j].time) {
      var p := s.queue[j];
      StampIs(s.queue, id, t);
      assert ProgOK(s, j);
      if p.id == id {
        IndexIs(s.queue, j);
        ReapTouches(s, steps, s', step, id, p.time);
      } else {
        OneOwner(s, pid, p.id);
        TouchCarries(s, steps, s', step, p.id, p.time);
      }
    }
  }

  /** A registered process was started for the program registered and no other. */
  lemma OneOwner(s: State, pid: int, id: nat)
    requires Registered(s) && pid in s.waitq && s.waitq[pid] != id
    ensures !StartedFor(s, pid, id)
  {
    forall a: nat ensures !LaunchedAs(s, a, pid, id) {
      if a < |s.log| { assert ChildOK(s, a); }
    }
  }

  /** `run_prog` on node `i`, and then perhaps its removal. */
  lemma RunStamped(s: State, steps: seq<Step>, i: nat, pid: int, s': State, step: Step)
    requires QueueOK(s) && StampsOK(s, steps) && s.at.Some? && i < |s.queue| && pid !in s.used && !step.Reap?
    requires var r := RunProg(s, i, pid);
      s'.log == r.log && r.used <= s'.used
      && (s'.queue == r.queue || (s'.queue == Drop(r.queue, i) && |s'.queue| == |r.queue| - 1))
    ensures StampsOK(s', steps + [step])
  {
    var r := RunProg(s, i, pid);
    DropAt(r.queue, i);
    if r == s {
      CarriedStamps(s, steps, s', step);
    } else {
      var l := r.log[|s.log|];
      assert ProgOK(s, i);
      LaunchTouches(s, steps, s', step, l, l.id, s.queue[i].time);
      forall j | 0 <= j < |s'.queue| ensures LatestTouch(s', steps + [step], s'.queue[j].id, s'.queue[j].time) {
        var k := if s'.queue == r.queue || j < i then j else j + 1;
        if k != i { OtherLaunch(s, steps, s', step, l, s.queue[k].id, s.queue[k].time); }
      }
    }
  }

  /** The queue as it was, perhaps without one program. */
  ghost predicate SameOrFewer(q: seq<Prog>, from: seq<Prog>) {
    q == from || exists i :: 0 <= i < |from| && q == Drop(from, i)
  }

  lemma FewerStamps(q: seq<Prog>, from: seq<Prog>)
    requires SameOrFewer(q, from)
    ensures StampsFrom(q, from)
  {
    var d: nat := |from|;
    if q != from {
      d :| d < |from| && q == Drop(from, d);
      DropAt(from, d);
    }
    forall j | 0 <= j < |q| ensures StampIn(from, q[j].id, q[j].time) {
      assert from[if j < d then j else j + 1] == q[j];
    }
  }

  /** A visit that does not launch. */
  lemma QuietStamped(s: State, steps: seq<Step>, pid: int, s': State)
    requires StampsOK(s, steps) && s'.log == s.log && s'.used == s.used && SameOrFewer(s'.queue, s.queue)
    ensures StampsOK(s', steps + [Visit(pid)])
  {
    FewerStamps(s'.queue, s.queue);
    CarriedStamps(s, steps, s', Visit(pid));
  }

  lemma LaunchStamped(s: State, steps: seq<Step>, pid: int, first: seq<nat>)
    requires Sound(s, first) && StampsOK(s, steps) && Enabled(s, Visit(pid))
    requires var s' := Apply(s, Visit(pid)); var r := RunProg(s, s.at.value, pid);
      s'.log == r.log && s'.used == r.used && (s'.queue == r.queue || s'.queue == Drop(r.queue, s.at.value))
    ensures StampsOK(Apply(s, Visit(pid)), steps + [Visit(pid)])
  {
    DropAt(RunProg(s, s.at.value, pid).queue, s.at.value);
    RunStamped(s, steps, s.at.value, pid, Apply(s, Visit(pid)), Visit(pid));
  }

  lemma VisitStamped(s: State, steps: seq<Step>, pid: int, first: seq<nat>)
    requires Sound(s, first) && StampsOK(s, steps) && Enabled(s, Visit(pid))
    ensures StampsOK(Apply(s, Visit(pid)), steps + [Visit(pid)])
  {
    var i, s' := s.at.value, Apply(s, Visit(pid));
    if s'.log == s.log && s'.used == s.used && (s'.queue == s.queue || s'.queue == Drop(s.queue, i)) {
      QuietStamped(s, steps, pid, s');
    } else {
      LaunchStamped(s, steps, pid, first);
    }
  }

  lemma StepStamped(s: State, steps: seq<Step>, step: Step, first: seq<nat>)
    requires Sound(s, first) && StampsOK(s, steps) && Enabled(s, step)
    ensures StampsOK(Apply(s, step), steps + [step])
  {
    match step
    case Visit(pid) => VisitStamped(s, steps, pid, first);
    case Reap(pid, t) => ReapStamped(s, steps, pid, t, first);
    case _ => CarriedStamps(s, steps, Apply(s, step), step);
  }

  lemma {:induction false} RunStampsOK(s: State, before: seq<Step>, steps: seq<Step>, first: seq<nat>)
    requires Sound(s, first) && StampsOK(s, before) && Legal(s, steps)
    ensures StampsOK(Run(s, steps), before + steps)
    decreases |steps|
  {
    if steps == [] {
      assert before + steps == before;
    } else {
      StepSound(s, steps[0], first);
      StepStamped(s, before, steps[0], first);
      RunStampsOK(Apply(s, steps[0]), before + [steps[0]], steps[1..], first);
      assert before + [steps[0]] + steps[1..] == before + steps;
    }
  }

  /** In every reached state each queued program's stamp is its latest touch in the run. */
  lemma StampIsLatest(s0: State, steps: seq<Step>)
    requires Initial(s0) && Legal(s0, steps)
    ensures Sound(Run(s0, steps), Waiting(s0.queue)) && StampsOK(Run(s0, steps), steps)
  {
    WaitAgrees(s0, steps);
    WaitAgrees(s0, []);
    RunStampsOK(s0, [], steps, Waiting(s0.queue));
    assert [] + steps == steps;
  }

  // ----- what a visit does ---------------------------------------------------------------

  /** The processes that were ever started for a program. */
  ghost function Processes(s: State, id: nat): set<int> {
    set a | 0 <= a < |s.log| && s.log[a].id == id :: s.log[a].pid
  }

  ghost predicate Gone(s: State, id: nat) {
    Processes(s, id) !! s.present
  }

  /** More than the sleep time has passed since every launch of the program and every waiting for a process of it. */
  ghost predicate Rested(s: State, steps: seq<Step>, id: nat) {
    && (forall a :: 0 <= a < |s.log| && s.log[a].id == id ==> s.clock.now - s.log[a].now > s.sleep)
    && (forall k :: 0 <= k < |steps| && ReapOf(s, steps[k], id) ==> s.clock.now - steps[k].now > s.sleep)
  }

  /** The clock is inside one of the windows. */
  ghost predicate InSomeWindow(cond: seq<Cond>, c: Clock) {
    exists j :: 0 <= j < |cond| && InWindow(cond[j], c.wday, c.sec)
  }

  ghost predicate Launched(s: State, s': State, p: Prog, pid: int) {
    && s'.log == s.log + [Launch(p.id, p.flag, p.hasPidFile, pid, s.clock.now)]
    && s'.present == s.present + {pid} && s'.children == s.children + {pid} && s'.waitq == s.waitq[pid := p.id]
  }

  ghost predicate Quiet(s: State, s': State) {
    s'.log == s.log && s'.present == s.present && s'.children == s.children && s'.waitq == s.waitq
  }

  /** A fork-first program is launched if it never was, awaited while its process is there, and otherwise removed. */
  ghost predicate FirstServed(s: State, s': State, p: Prog, i: nat, pid: int)
    requires i < |s.queue|
  {
    if Processes(s, p.id) == {} then Launched(s, s', p, pid) && s'.at.None?
    else if !p.hasPidFile && !Gone(s, p.id) then s' == s.(at := None)
    else s' == s.(queue := Drop(s.queue, i), at := Some(i))
  }

  /**
   * A watched program inside a window is launched exactly if its processes are gone and it is rested; outside, its
   * processes are stopped, and no others.
   */
  ghost predicate WatchServed(s: State, steps: seq<Step>, s': State, p: Prog, pid: int) {
    if !InSomeWindow(p.cond, s.clock) then s'.log == s.log && s'.present == s.present - Processes(s, p.id)
    else if Gone(s, p.id) && Rested(s, steps, p.id) then Launched(s, s', p, pid)
    else Quiet(s, s')
  }

  /** Any other program is launched and removed. */
  ghost predicate OtherServed(s: State, s': State, p: Prog, i: nat, pid: int)
    requires i < |s.queue|
  {
    Launched(s, s', p, pid) && s'.queue == Drop(s.queue, i) && s'.at == Some(i)
  }

  /** The pid in the record stands for all processes of the program. */
  lemma PidIsProcess(s: State, first: seq<nat>, i: nat)
    requires Sound(s, first) && i < |s.queue|
    ensures var p := s.queue[i];
      && (p.pid == 0 <==> Processes(s, p.id) == {})
      && (Gone(s, p.id) <==> p.pid !in s.present)
      && s.present - Processes(s, p.id) == s.present - {p.pid}
  {
    var p := s.queue[i];
    assert OwnerOK(s, i) && ProgOK(s, i);
    forall a | 0 <= a < |s.log| && s.log[a].id == p.id
      ensures p.pid > 0 && (s.log[a].pid in s.present ==> s.log[a].pid == p.pid) {
      assert LaunchOK(s, a, i);
    }
    if p.pid != 0 {
      var a :| LaunchedAs(s, a, p.pid, p.id);
      assert p.pid in Processes(s, p.id);
    }
  }

  /** The stamp decides whether a program is rested. */
  lemma StampIsRest(s: State, steps: seq<Step>, id: nat, t: int)
    requires LogOK(s) && LatestTouch(s, steps, id, t)
    ensures Rested(s, steps, id) <==> t == 0 || s.clock.now - t > s.sleep
  {
    if t != 0 && Rested(s, steps, id) {
      if a: nat :| LaunchAt(s, a, id, t) { assert s.clock.now - s.log[a].now > s.sleep; }
      else {
        var k: nat :| ReapAt(s, steps, k, id, t);
        assert s.clock.now - steps[k].now > s.sleep;
      }
    }
  }

  lemma WindowIsJudged(p: Prog, c: Clock)
    requires p.flag == FORK_WATCH
    ensures Judged(p, c) <==> InSomeWindow(p.cond, c)
  {
    if InSomeWindow(p.cond, c) {
      var j :| 0 <= j < |p.cond| && InWindow(p.cond[j], c.wday, c.sec);
      assert Holds(p.flag, p.cond[j], c.wday, c.sec, c.now - p.time);
    }
  }

  lemma WatchVisit(s: State, steps: seq<Step>, pid: int, first: seq<nat>)
    requires Sound(s, first) && StampsOK(s, steps) && Enabled(s, Visit(pid)) && s.queue[s.at.value].flag == FORK_WATCH
    ensures WatchServed(s, steps, Apply(s, Visit(pid)), s.queue[s.at.value], pid)
  {
    var i := s.at.value;
    var p := s.queue[i];
    WatchGuardNeverTaken(s, first);
    PidIsProcess(s, first, i);
    StampIsRest(s, steps, p.id, p.time);
    WindowIsJudged(p, s.clock);
    assert ProgOK(s, i) && OwnerOK(s, i);
  }

  lemma FirstVisit(s: State, pid: int, first: seq<nat>)
    requires Sound(s, first) && Enabled(s, Visit(pid)) && s.queue[s.at.value].flag == FORK_FIRST
    ensures FirstServed(s, Apply(s, Visit(pid)), s.queue[s.at.value], s.at.value, pid)
  {
    PidIsProcess(s, first, s.at.value);
  }

  lemma OtherVisit(s: State, pid: int, first: seq<nat>)
    requires Sound(s, first) && Enabled(s, Visit(pid)) && s.queue[s.at.value].flag in {FORK_ONCE, FORK_PERIOD}
    ensures OtherServed(s, Apply(s, Visit(pid)), s.queue[s.at.value], s.at.value, pid)
  {
    var i := s.at.value;
    assert ProgOK(s, i) && OwnerOK(s, i);
    DropAt(s.queue, i);
    DropAt(RunProg(s, i, pid).queue, i);
  }
}
