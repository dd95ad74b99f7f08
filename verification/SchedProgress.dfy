/**
 * What a tick achieves: it visits the queued programs in order, each once, and serves every one it visits.
 * Only a fork-first program that has just been launched, or is still running, ends a tick early.
 */
module SchedProgress {
  import opened Options
  import opened Sched
  import opened SchedTheorems
  import opened SchedWaiting
  import opened SchedStamps

  /** All steps are taken while a tick is under way. */
  ghost predicate Pass(s: State, steps: seq<Step>)
    decreases |steps|
  {
    steps != [] ==> s.at.Some? && Enabled(s, steps[0]) && Pass(Apply(s, steps[0]), steps[1..])
  }

  lemma {:induction false} PassIsLegal(s: State, steps: seq<Step>)
    requires Pass(s, steps)
    ensures Legal(s, steps)
    decreases |steps|
  {
    if steps != [] { PassIsLegal(Apply(s, steps[0]), steps[1..]); }
  }

  /** One more step in the same tick. */
  lemma {:induction false} PassSnoc(s: State, steps: seq<Step>, last: Step)
    requires Legal(s, steps) && Pass(s, steps) && Run(s, steps).at.Some? && Enabled(Run(s, steps), last)
    ensures Pass(s, steps + [last])
    decreases |steps|
  {
    if steps == [] {
      assert (steps + [last])[1..] == [];
    } else {
      assert (steps + [last])[1..] == steps[1..] + [last];
      PassSnoc(Apply(s, steps[0]), steps[1..], last);
    }
  }

  /** The steps of one tick so far. */
  ghost predicate OneTick(s: State, steps: seq<Step>) {
    && steps != [] && steps[0].Begin? && Enabled(s, steps[0])
    && Pass(Apply(s, steps[0]), steps[1..])
  }

  lemma OneTickSnoc(s: State, steps: seq<Step>, last: Step)
    requires Legal(s, steps) && OneTick(s, steps) && Run(s, steps).at.Some? && Enabled(Run(s, steps), last)
    ensures OneTick(s, steps + [last])
  {
    assert (steps + [last])[1..] == steps[1..] + [last];
    PassSnoc(Apply(s, steps[0]), steps[1..], last);
  }

  /** A visit: the state before it, the whole run that has led there, and the pid that `fork` would give. */
  datatype Visited = Visited(s: State, before: seq<Step>, pid: int)

  /** The visits of a run that goes on behind `before`. */
  ghost function Visits(s: State, before: seq<Step>, steps: seq<Step>): seq<Visited>
    requires Legal(s, steps)
    decreases |steps|
  {
    if steps == [] then []
    else
      var rest := Visits(Apply(s, steps[0]), before + [steps[0]], steps[1..]);
      if steps[0].Visit? then [Visited(s, before, steps[0].pid)] + rest else rest
  }

  /** What the visit of program `q` does, told from the launches and reapings of the run before it. */
  ghost predicate Served(v: Visited, q: Prog) {
    && Enabled(v.s, Visit(v.pid))
    && var i := v.s.at.value; var p := v.s.queue[i]; var s' := Apply(v.s, Visit(v.pid));
       && p == q
       && (p.flag == FORK_FIRST ==> FirstServed(v.s, s', p, i, v.pid))
       && (p.flag == FORK_WATCH ==> WatchServed(v.s, v.before, s', p, v.pid))
       && (p.flag in {FORK_ONCE, FORK_PERIOD} ==> OtherServed(v.s, s', p, i, v.pid))
  }

  lemma VisitServes(s: State, before: seq<Step>, pid: int, first: seq<nat>)
    requires Sound(s, first) && StampsOK(s, before) && Enabled(s, Visit(pid))
    ensures Served(Visited(s, before, pid), s.queue[s.at.value])
  {
    var i := s.at.value;
    assert ProgOK(s, i);
    if s.queue[i].flag == FORK_FIRST { FirstVisit(s, pid, first); }
    else if s.queue[i].flag == FORK_WATCH { WatchVisit(s, before, pid, first); }
    else { OtherVisit(s, pid, first); }
  }

  lemma DropTail(q: seq<Prog>, i: nat)
    requires i < |q|
    ensures Drop(q, i)[i..] == q[i + 1..]
  {
  }

  /** `run_prog` does not touch the programs behind. */
  lemma RunProgTail(s: State, i: nat, pid: int)
    requires i < |s.queue|
    ensures var r := RunProg(s, i, pid); |r.queue| == |s.queue| && r.queue[i + 1..] == s.queue[i + 1..]
  {
  }

  /** A visit leaves the programs behind it, and nothing else, to be visited. */
  lemma VisitAdvances(s: State, pid: int)
    requires Enabled(s, Visit(pid))
    ensures var s' := Apply(s, Visit(pid));
      && (s'.at.Some? ==> s'.at.value <= |s'.queue| && s'.queue[s'.at.value..] == s.queue[s.at.value + 1..])
      && (s'.at.None? ==> s.queue[s.at.value].flag < 0)
  {
    var i := s.at.value;
    RunProgTail(s, i, pid);
    DropTail(s.queue, i);
    DropTail(RunProg(s, i, pid).queue, i);
  }

  /** The visits serve an initial stretch of `todo`: all of it, or up to a fork-first program that ends the tick. */
  ghost predicate Serves(visits: seq<Visited>, todo: seq<Prog>) {
    && |visits| <= |todo|
    && (forall j :: 0 <= j < |visits| ==> Served(visits[j], todo[j]))
    && (|visits| < |todo| ==> visits != [] && todo[|visits| - 1].flag == FORK_FIRST)
  }

  lemma ServesFirst(v: Visited, rest: seq<Visited>, p: Prog, todo: seq<Prog>)
    requires Served(v, p) && Serves(rest, todo)
    ensures Serves([v] + rest, [p] + todo)
  {
    var vs, qs := [v] + rest, [p] + todo;
    forall j | 0 <= j < |vs| ensures Served(vs[j], qs[j]) {
      if j > 0 { assert Served(rest[j - 1], todo[j - 1]); }
    }
  }

  /** A visit and the visits after it. */
  lemma ServesOn(s: State, before: seq<Step>, pid: int, rest: seq<Visited>, first: seq<nat>)
    requires Sound(s, first) && StampsOK(s, before) && Enabled(s, Visit(pid))
    requires var s' := Apply(s, Visit(pid));
      if s'.at.None? then rest == []
      else s'.at.value <= |s'.queue| && Serves(rest, s'.queue[s'.at.value..])
    ensures Serves([Visited(s, before, pid)] + rest, s.queue[s.at.value..])
  {
    var i, s' := s.at.value, Apply(s, Visit(pid));
    VisitServes(s, before, pid, first);
    VisitAdvances(s, pid);
    assert s.queue[i..] == [s.queue[i]] + s.queue[i + 1..];
    if s'.at.Some? {
      ServesFirst(Visited(s, before, pid), rest, s.queue[i], s.queue[i + 1..]);
    } else {
      assert ProgOK(s, i);
    }
  }

  /** The other steps of a tick change nothing about what is to be visited, or end it when all has been. */
  lemma OtherStep(s: State, step: Step)
    requires s.at.Some? && s.at.value <= |s.queue| && !step.Visit? && Enabled(s, step)
    ensures var s' := Apply(s, step);
      if s'.at.Some? then s'.at == s.at && s'.queue == s.queue else s.queue[s.at.value..] == []
  {
  }

  lemma InQueue(s: State, first: seq<nat>)
    requires Inv(s, first) && s.at.Some?
    ensures s.at.value <= |s.queue|
  {
  }

  lemma {:induction false} PassServes(s: State, before: seq<Step>, steps: seq<Step>, first: seq<nat>)
    requires Sound(s, first) && StampsOK(s, before) && Legal(s, steps) && Pass(s, steps)
    requires s.at.Some? && Run(s, steps).at.None?
    ensures s.at.value <= |s.queue| && Serves(Visits(s, before, steps), s.queue[s.at.value..])
    decreases |steps|
  {
    var step, rest := steps[0], steps[1..];
    var s', done := Apply(s, step), before + [step];
    InQueue(s, first);
    StepSound(s, step, first);
    StepStamped(s, before, step, first);
    if s'.at.Some? { PassServes(s', done, rest, first); } else { PassEnds(s', done, rest); }
    if step.Visit? {
      ServesOn(s, before, step.pid, Visits(s', done, rest), first);
    } else {
      OtherStep(s, step);
      assert Visits(s, before, steps) == Visits(s', done, rest);
    }
  }

  lemma PassEnds(s: State, before: seq<Step>, steps: seq<Step>)
    requires Legal(s, steps) && Pass(s, steps) && s.at.None?
    ensures steps == [] && Visits(s, before, steps) == []
  {
  }

  /** The visits are all made at one clock reading. */
  ghost predicate AllAt(visits: seq<Visited>, c: Clock) {
    forall j :: 0 <= j < |visits| ==> visits[j].s.clock == c
  }

  lemma {:induction false} PassClock(s: State, before: seq<Step>, steps: seq<Step>)
    requires Legal(s, steps) && Pass(s, steps)
    ensures AllAt(Visits(s, before, steps), s.clock)
    decreases |steps|
  {
    if steps != [] { PassClock(Apply(s, steps[0]), before + [steps[0]], steps[1..]); }
  }

  /** A tick from a state that satisfies the invariants. */
  lemma TickFrom(s: State, before: seq<Step>, steps: seq<Step>, first: seq<nat>)
    requires Sound(s, first) && StampsOK(s, before)
    requires Legal(s, steps) && OneTick(s, steps) && Run(s, steps).at.None?
    ensures Serves(Visits(s, before, steps), s.queue) && AllAt(Visits(s, before, steps), steps[0].clock)
  {
    var begin, rest := steps[0], steps[1..];
    var s1 := Apply(s, begin);
    StepSound(s, begin, first);
    StepStamped(s, before, begin, first);
    assert s1.queue[0..] == s.queue;
    PassServes(s1, before + [begin], rest, first);
    PassClock(s1, before + [begin], rest);
    assert Visits(s, before, steps) == Visits(s1, before + [begin], rest);
  }

  /**
   * Progress. From any reachable state, a tick visits the queued programs in order, each at most once, and
   * serves each: a fork-first one is launched if it never was, awaited or removed; a watched one inside a window is
   * launched exactly if its processes are gone and more than the sleep time has passed since its latest launch or
   * reaping, and outside its processes are stopped; any other is launched and removed. Every program is visited
   * unless a fork-first program is the last one visited.
   */
  lemma TickServes(s0: State, run: seq<Step>, steps: seq<Step>)
    requires Initial(s0) && Legal(s0, run)
    requires var s := Run(s0, run); Legal(s, steps) && OneTick(s, steps) && Run(s, steps).at.None?
    ensures Serves(Visits(Run(s0, run), run, steps), Run(s0, run).queue)
    ensures AllAt(Visits(Run(s0, run), run, steps), steps[0].clock)
  {
    StampIsLatest(s0, run);
    TickFrom(Run(s0, run), run, steps, Waiting(s0.queue));
  }

  // ----- the ticks of a run --------------------------------------------------------------

  /** The clock readings at which ticks begin. */
  function Begins(steps: seq<Step>): seq<Clock> {
    if steps == [] then [] else Begins(steps[..|steps| - 1]) + BeginOf(steps[|steps| - 1])
  }

  function BeginOf(step: Step): seq<Clock> {
    if step.Begin? then [step.clock] else []
  }

  lemma PlusPlus<T>(a: seq<T>, b: seq<T>, c: seq<T>)
    ensures a + b + c == a + (b + c)
  {
  }

  lemma {:induction false} BeginsConcat(a: seq<Step>, b: seq<Step>)
    ensures Begins(a + b) == Begins(a) + Begins(b)
    decreases |b|
  {
    if b == [] {
      assert a + b == a;
    } else {
      var n := |b| - 1;
      assert (a + b)[..|a| + n] == a + b[..n];
      BeginsConcat(a, b[..n]);
      PlusPlus(Begins(a), Begins(b[..n]), BeginOf(b[n]));
    }
  }

  lemma BeginsFirst(step: Step, rest: seq<Step>)
    ensures Begins([step] + rest) == BeginOf(step) + Begins(rest)
  {
    assert Begins([step]) == Begins([step][..0]) + BeginOf(step);
    BeginsConcat([step], rest);
  }

  lemma {:induction false} PassBegins(s: State, steps: seq<Step>)
    requires Pass(s, steps)
    ensures Begins(steps) == []
    decreases |steps|
  {
    if steps != [] {
      PassBegins(Apply(s, steps[0]), steps[1..]);
      assert steps == [steps[0]] + steps[1..];
      BeginsFirst(steps[0], steps[1..]);
    }
  }

  lemma OneTickBegins(s: State, steps: seq<Step>)
    requires OneTick(s, steps)
    ensures Begins(steps) == [steps[0].clock]
  {
    PassBegins(Apply(s, steps[0]), steps[1..]);
    assert steps == [steps[0]] + steps[1..];
    BeginsFirst(steps[0], steps[1..]);
  }

  /** A legal run in two parts. */
  lemma {:induction false} RunSplit(s: State, steps: seq<Step>, k: nat)
    requires Legal(s, steps) && k <= |steps|
    ensures Legal(s, steps[..k]) && Legal(Run(s, steps[..k]), steps[k..])
    ensures Run(s, steps) == Run(Run(s, steps[..k]), steps[k..])
    decreases k
  {
    if k > 0 {
      RunSplit(Apply(s, steps[0]), steps[1..], k - 1);
      assert steps[..k][1..] == steps[1..][..k - 1] && steps[k..] == steps[1..][k - 1..];
    }
  }

  /** From inside a tick, a run that ends between ticks comes to the end of this one. */
  lemma {:induction false} TickEnds(s: State, steps: seq<Step>) returns (n: nat)
    requires Legal(s, steps) && s.at.Some? && Run(s, steps).at.None?
    ensures n <= |steps| && Legal(s, steps[..n]) && Pass(s, steps[..n]) && Run(s, steps[..n]).at.None?
    decreases |steps|
  {
    var s' := Apply(s, steps[0]);
    if s'.at.Some? {
      n := TickEnds(s', steps[1..]);
      n := n + 1;
      assert steps[..n][1..] == steps[1..][..n - 1];
    } else {
      n := 1;
      assert steps[..1][1..] == [];
    }
  }

  /**
   * In any run that ends between ticks, every `Begin` begins a complete tick, and that tick serves the queue
   * it finds.
   */
  lemma EveryTickServes(s0: State, steps: seq<Step>, k: nat) returns (e: nat)
    requires Initial(s0) && Legal(s0, steps) && Run(s0, steps).at.None? && k < |steps| && steps[k].Begin?
    ensures k < e <= |steps| && Legal(s0, steps[..k])
    ensures var s := Run(s0, steps[..k]); var tick := steps[k..e];
      && Legal(s, tick) && OneTick(s, tick) && Run(s, tick).at.None?
      && Serves(Visits(s, steps[..k], tick), s.queue) && AllAt(Visits(s, steps[..k], tick), steps[k].clock)
  {
    RunSplit(s0, steps, k);
    var s, rest := Run(s0, steps[..k]), steps[k..];
    var n := TickEnds(Apply(s, rest[0]), rest[1..]);
    e := k + 1 + n;
    assert steps[k..e] == rest[..n + 1] && rest[..n + 1][1..] == rest[1..][..n];
    TickServes(s0, steps[..k], steps[k..e]);
  }
}
