/**
 * The scheduler as the program runs it: program records updated in place, in a linked queue that
 * loses nodes while it is iterated, and a table that tells which process was started for which. The
 * endless loop is proved to be a run of the state machine in `Sched`, so everything proved there holds of it.
 */
module Schedulers {
  import opened Options
  import opened Conditions
  import opened DLists
  import S = Sched
  import opened SchedTheorems
  import opened SchedWaiting
  import opened SchedProgress

  /** `prog_t`, as far as the queue loop uses it. */
  class Program {
    const id: nat
    const flag: int
    const has_pid_file: bool
    const cond: seq<Cond>
    var pid: int
    var time: int
    var update_pid: bool

    constructor (id: nat, flag: int, has_pid_file: bool, cond: seq<Cond>)
      ensures this.id == id && this.flag == flag && this.has_pid_file == has_pid_file && this.cond == cond
      ensures pid == 0 && time == 0
    {
      this.id, this.flag, this.has_pid_file, this.cond := id, flag, has_pid_file, cond;
      pid, time, update_pid := 0, 0, false;
    }

    ghost predicate Is(p: S.Prog)
      reads this
    {
      p == S.Prog(id, flag, has_pid_file, cond, pid, time)
    }
  }

  lemma Member<T>(s: set<T>) returns (x: T)
    requires s != {}
    ensures x in s
  {
    x :| x in s;
  }

  /**
   * The operating system: which processes there are, and a pid never used so far. A child that has ended is still
   * there, for `kill(pid, 0)`, until it is waited for.
   */
  class Os {
    var present: set<int>
    var used: set<int>
    var fresh_pid: int
    var children: set<int>
    var ended: set<int>

    ghost predicate Valid()
      reads this
    {
      && fresh_pid > 0 && (forall p :: p in used ==> p < fresh_pid)
      && ended <= children && forall p :: p in children ==> p > 0
    }

    /** `fork`, in the parent. */
    method Fork() returns (pid: int)
      requires Valid()
      modifies this
      ensures Valid() && pid == old(fresh_pid) && ended == old(ended)
      ensures present == old(present) + {pid} && used == old(used) + {pid} && children == old(children) + {pid}
    {
      pid := fresh_pid;
      present, used, children := present + {pid}, used + {pid}, children + {pid};
      fresh_pid := fresh_pid + 1;
    }

    /** `kill(pid, 0) == 0`. */
    method Exists(pid: int) returns (r: bool)
      ensures r == (pid in present)
    {
      r := pid in present;
    }

    /** The process is gone, also for its parent. */
    method Forget(pid: int)
      requires Valid()
      modifies this
      ensures Valid() && used == old(used) && fresh_pid == old(fresh_pid)
      ensures present == old(present) - {pid} && children == old(children) - {pid} && ended == old(ended) - {pid}
    {
      present, children, ended := present - {pid}, children - {pid}, ended - {pid};
    }

    /** `kill(pid, SIGTERM); waitpid(pid, NULL, 0);` */
    method Terminate(pid: int)
      requires Valid()
      modifies this
      ensures Valid() && used == old(used) && fresh_pid == old(fresh_pid)
      ensures present == old(present) - {pid} && children == old(children) - {pid} && ended == old(ended) - {pid}
    {
      Forget(pid);
    }

    /** `waitpid(-1, &status, WNOHANG)`: a child that has ended, or 0 if there is none. */
    method WaitAny() returns (pid: int)
      requires Valid()
      modifies this
      ensures Valid() && used == old(used) && fresh_pid == old(fresh_pid)
      ensures pid == 0 <==> old(ended) == {}
      ensures pid == 0 ==> unchanged(this)
      ensures pid != 0 ==> pid in old(ended)
      ensures pid != 0 ==>
        present == old(present) - {pid} && children == old(children) - {pid} && ended == old(ended) - {pid}
    {
      pid := 0;
      if ended != {} {
        ghost var one := Member(ended);
        pid :| pid in ended;
        Forget(pid);
      }
    }

    /** Any children may end, and any other processes go away. */
    method Drift() returns (ghost gone: set<int>)
      requires Valid()
      modifies this
      ensures Valid() && used == old(used) && fresh_pid == old(fresh_pid)
      ensures present == old(present) - gone && children == old(children) && old(ended) <= ended
    {
      assert {} <= present;
      var some: set<int> :| some <= present;
      gone := some - children;
      present := present - (some - children);
      ended := ended + some * children;
    }
  }

  /** How many nodes the tick may still visit, counting its end. */
  function Left(s: S.State): int {
    if s.at.Some? then |s.queue| - s.at.value + 1 else 0
  }

  /** One round of the endless loop: has SIGCHLD been caught, and what does the clock say? */
  datatype Round = Round(chld: bool, clock: S.Clock)

  function Clocks(rounds: seq<Round>): seq<S.Clock> {
    if rounds == [] then [] else Clocks(rounds[..|rounds| - 1]) + [rounds[|rounds| - 1].clock]
  }

  /** Clock readings that do not run backwards. */
  predicate Readings(rounds: seq<Round>, from: int) {
    && (forall i :: 0 <= i < |rounds| ==> from <= rounds[i].clock.now)
    && (forall i, j :: 0 <= i < j < |rounds| ==> rounds[i].clock.now <= rounds[j].clock.now)
    && (forall i :: 0 <= i < |rounds| ==> 1 <= rounds[i].clock.wday <= 7 && 0 <= rounds[i].clock.sec < 86400)
  }

  /** A visit keeps the clock and leaves one node fewer to visit. */
  lemma OneFewer(s: S.State, i: nat, pid: int)
    requires s.at == Some(i) && i < |s.queue|
    ensures var t := S.VisitNode(s, i, pid); t.clock == s.clock && t.latest == s.latest && Left(t) < Left(s)
  {
  }

  /** One record has changed. */
  twostate lemma MirrorsUpdate(vals: seq<Program>, new q: seq<S.Prog>, new i: nat, new x: S.Prog)
    requires i < |vals| == |q| && vals[i].Is(x) && forall j :: 0 <= j < |vals| ==> old(vals[j].Is(q[j]))
    requires forall j :: 0 <= j < |vals| && j != i ==>
               vals[j].pid == old(vals[j].pid) && vals[j].time == old(vals[j].time)
    ensures forall j :: 0 <= j < |vals| ==> vals[j].Is(q[i := x][j])
  {
  }

  /** Writing the time into record `p`, which is the one queued under its id if any is. */
  twostate lemma MirrorsStamp(vals: seq<Program>, new p: Program, new q: seq<S.Prog>, new now: int)
    requires |vals| == |q| && forall j :: 0 <= j < |vals| ==> old(vals[j].Is(q[j]))
    requires p.time == now && forall j :: 0 <= j < |vals| ==> vals[j].pid == old(vals[j].pid)
    requires forall j :: 0 <= j < |vals| && vals[j] != p ==> vals[j].time == old(vals[j].time)
    requires forall j :: 0 <= j < |vals| && vals[j].id == p.id ==> vals[j] == p
    requires forall j, k :: 0 <= j < k < |vals| ==> vals[j].id != vals[k].id
    ensures var r := S.Stamp(q, p.id, now); |r| == |vals| && forall j :: 0 <= j < |vals| ==> vals[j].Is(r[j])
  {
    var j := S.IndexOf(q, p.id);
    forall k | 0 <= k < |vals| ensures vals[k].id == q[k].id { assert old(vals[k].Is(q[k])); }
    if j < |q| { MirrorsUpdate(vals, q, j, q[j].(time := now)); }
  }

  /** `waitq` holds the records of the programs that `w` names; of a queued program, the record that is queued. */
  ghost predicate Names(waitq: map<int, Program>, vals: seq<Program>, w: map<int, nat>) {
    && waitq.Keys == w.Keys
    && (forall pid :: pid in w ==> waitq[pid].id == w[pid])
    && (forall pid, i :: pid in w && 0 <= i < |vals| && vals[i].id == w[pid] ==> vals[i] == waitq[pid])
  }

  lemma NamesOneMore(waitq: map<int, Program>, vals: seq<Program>, w: map<int, nat>, pid: int, i: nat)
    requires Names(waitq, vals, w) && i < |vals|
    requires forall j, k :: 0 <= j < k < |vals| ==> vals[j].id != vals[k].id
    ensures Names(waitq[pid := vals[i]], vals, w[pid := vals[i].id])
  {
  }

  lemma NamesOneLess(waitq: map<int, Program>, vals: seq<Program>, w: map<int, nat>, pid: int)
    requires Names(waitq, vals, w)
    ensures Names(waitq - {pid}, vals, w - {pid})
  {
  }

  lemma NamesFewer(waitq: map<int, Program>, vals: seq<Program>, w: map<int, nat>, i: nat)
    requires Names(waitq, vals, w) && i < |vals|
    ensures Names(waitq, vals[..i] + vals[i + 1..], w)
  {
  }

  /** `steps` are one reaping at `now` for each of the pids. */
  ghost predicate Reaped(steps: seq<S.Step>, pids: set<int>, now: int) {
    && (forall k :: 0 <= k < |steps| ==> steps[k].Reap? && steps[k].pid in pids && steps[k].now == now)
    && (forall pid :: pid in pids ==> S.Reap(pid, now) in steps)
  }

  lemma ReapedOneMore(steps: seq<S.Step>, pids: set<int>, now: int, pid: int)
    requires Reaped(steps, pids, now)
    ensures Reaped(steps + [S.Reap(pid, now)], pids + {pid}, now)
  {
    var more := steps + [S.Reap(pid, now)];
    assert more[|steps|] == S.Reap(pid, now);
    forall p | p in pids + {pid} ensures S.Reap(p, now) in more {
      if p != pid { assert S.Reap(p, now) in steps; }
    }
  }

  lemma ReapedMore(steps: seq<S.Step>, pids: set<int>, ended: set<int>, pid: int, now: int)
    requires Reaped(steps, pids - ended, now) && pid in ended && ended <= pids
    ensures Reaped(steps + [S.Reap(pid, now)], pids - (ended - {pid}), now) && |ended - {pid}| < |ended|
  {
    ReapedOneMore(steps, pids - ended, now, pid);
    assert pids - ended + {pid} == pids - (ended - {pid});
  }

  lemma {:induction false} ReapedBegins(steps: seq<S.Step>)
    requires forall k :: 0 <= k < |steps| ==> steps[k].Reap?
    ensures Begins(steps) == []
  {
    if steps != [] { ReapedBegins(steps[..|steps| - 1]); }
  }

  class Scheduler {
    const progq: DList<Program>
    const os: Os
    const sleep_time: int
    var waitq: map<int, Program>
    ghost var m: S.State

    constructor (os: Os, sleep_time: int)
      requires os.Valid()
      ensures this.os == os && this.sleep_time == sleep_time && fresh(progq) && progq.Valid() && progq.vals == []
      ensures waitq == map[]
    {
      this.os, this.sleep_time := os, sleep_time;
      progq := new DList<Program>();
      waitq := map[];
    }

    /** At most entries for `p` are new in `waitq`. */
    twostate predicate OnlyAdds(p: Program)
      reads this
    {
      forall pid :: pid in waitq ==> waitq[pid] == p || (pid in old(waitq) && waitq[pid] == old(waitq)[pid])
    }

    /** The objects mirror the state `m`. */
    ghost predicate Valid()
      reads this, os, progq, progq.nodes, progq.vals
    {
      && progq.Valid() && os.Valid()
      && m.present == os.present && m.used == os.used && m.sleep == sleep_time
      && m.children == os.children && Names(waitq, progq.vals, m.waitq)
      && |m.queue| == |progq.vals|
      && (forall i :: 0 <= i < |m.queue| ==> progq.vals[i].Is(m.queue[i]))
      && (forall i, j :: 0 <= i < j < |progq.vals| ==> progq.vals[i].id != progq.vals[j].id)
    }

    /** `fork`, in the parent. */
    method ForkChild() returns (pid: int)
      requires Valid()
      modifies this`m, os
      ensures Valid() && pid == old(os.fresh_pid)
      ensures m == old(m).(present := old(m).present + {pid}, used := old(m).used + {pid},
                           children := old(m).children + {pid})
    {
      pid := os.Fork();
      m := m.(present := os.present, used := os.used, children := os.children);
    }

    /** What the parent notes about the child: in the program's record, and in `waitq`. */
    method Record(p: Program, pid: int, now: int, ghost i: nat)
      requires Valid() && i < |progq.vals| && p == progq.vals[i]
      modifies this`m, this`waitq, p
      ensures Valid() && OnlyAdds(p)
      ensures var q := old(m).queue[i];
        m == old(m).(queue := old(m).queue[i := q.(pid := pid, time := now)], waitq := old(m).waitq[pid := q.id],
                     log := old(m).log + [S.Launch(q.id, q.flag, q.hasPidFile, pid, now)])
    {
      ghost var q := m.queue[i];
      assert p.Is(q);
      NamesOneMore(waitq, progq.vals, m.waitq, pid, i);
      p.pid := pid;
      p.update_pid := false;
      waitq := waitq[pid := p];
      p.time := now;
      if p.flag > 0 && !p.has_pid_file { p.update_pid := true; }
      MirrorsUpdate(progq.vals, m.queue, i, q.(pid := pid, time := now));
      m := m.(queue := m.queue[i := q.(pid := pid, time := now)], waitq := m.waitq[pid := q.id],
              log := m.log + [S.Launch(q.id, q.flag, q.hasPidFile, pid, now)]);
    }

    /** `run_prog`, once it is not paused. */
    method Launch(p: Program, now: int, ghost i: nat)
      requires Valid() && i < |progq.vals| && p == progq.vals[i] && now == m.clock.now
      requires p.flag > 0 && p.time != 0 ==> now - p.time > sleep_time
      modifies this`m, this`waitq, os, p
      ensures Valid() && m == S.RunProg(old(m), i, old(os.fresh_pid)) && OnlyAdds(p)
    {
      assert p.Is(m.queue[i]);
      var pid := ForkChild();
      Record(p, pid, now, i);
    }

    /** `run_prog`. */
    method RunProg(p: Program, now: int, ghost i: nat) returns (r: int)
      requires Valid() && i < |progq.vals| && p == progq.vals[i] && now == m.clock.now
      modifies this, os, p
      ensures Valid() && m == S.RunProg(old(m), i, old(os.fresh_pid)) && OnlyAdds(p)
    {
      assert p.Is(m.queue[i]);
      if p.flag > 0 && p.time != 0 {
        var diff := now - p.time;
        if diff <= sleep_time { return -1; }
      }
      Launch(p, now, i);
      r := 0;
    }

    /** `list_del_node` on node `i`. */
    method Remove(n: ListNode<Program>, ghost i: nat)
      requires Valid() && i < |progq.nodes| && progq.nodes[i] == n
      modifies this`m, progq, progq.nodes
      ensures Valid() && m == S.Remove(old(m), i)
      ensures progq.nodes == old(progq.nodes[..i] + progq.nodes[i + 1..])
      ensures progq.vals == old(progq.vals[..i] + progq.vals[i + 1..])
    {
      NamesFewer(waitq, progq.vals, m.waitq, i);
      progq.Delete(n, i);
      m := S.Remove(m, i);
    }

    /** `judge_condition` at the clock of this tick. */
    method Judged(p: Program, c: S.Clock) returns (r: bool)
      requires 1 <= c.wday <= 7
      ensures r == S.Judged(S.Prog(p.id, p.flag, p.has_pid_file, p.cond, p.pid, p.time), c)
    {
      r := JudgeCondition(p.flag, p.cond, if c.wday == 7 then 0 else c.wday, c.sec, c.now - p.time);
    }

    /** `n` is node `i` of the queue. */
    ghost predicate Kept(n: ListNode<Program>, i: nat)
      reads this, progq, progq.nodes
    {
      i < |progq.nodes| && progq.nodes[i] == n
    }

    /** Unless it broke off, a visit either kept node `i` and goes on behind it, or removed it and goes on there. */
    twostate predicate OnwardsOrRemoved(i: nat)
      reads this, progq
    {
      i < |old(progq.nodes)| == |old(progq.vals)| && OnlyAdds(old(progq.vals)[i]) &&
      if m.at == Some(i)
      then && progq.nodes == old(progq.nodes)[..i] + old(progq.nodes)[i + 1..]
           && progq.vals == old(progq.vals)[..i] + old(progq.vals)[i + 1..]
      else && progq.nodes == old(progq.nodes) && progq.vals == old(progq.vals)
           && (m.at.Some? ==> m.at == Some(i + 1))
    }

    /** `break` */
    ghost method Break()
      requires Valid()
      modifies this`m
      ensures Valid() && m == old(m).(at := None)
    {
      m := m.(at := None);
    }

    method StartFirst(p: Program, now: int, ghost i: nat)
      requires Valid() && i < |progq.vals| && p == progq.vals[i] && now == m.clock.now
      modifies this, os, p
      ensures Valid() && m == S.RunProg(old(m), i, old(os.fresh_pid)).(at := None) && OnlyAdds(p)
    {
      var _ := RunProg(p, now, i);
      Break();
    }

    /** Wait for it to end, or go on without it. */
    method AwaitFirst(n: ListNode<Program>, ghost i: nat) returns (stop: bool)
      requires Valid() && Kept(n, i) && n.value.flag < 0 && n.value.pid != 0
      modifies this`m, progq, progq.nodes
      ensures Valid() && m == S.VisitNode(old(m), i, os.fresh_pid) && stop == m.at.None?
      ensures OnwardsOrRemoved(i)
    {
      var p := n.value;
      assert p.Is(m.queue[i]);
      stop := false;
      if !p.has_pid_file { stop := os.Exists(p.pid); }
      if stop { Break(); } else { Remove(n, i); }
    }

    /** The branch for fork-first programs. */
    method VisitFirst(n: ListNode<Program>, c: S.Clock, ghost i: nat) returns (stop: bool)
      requires Valid() && Kept(n, i) && c == m.clock && n.value.flag < 0
      modifies this, os, progq, progq.nodes, n.value
      ensures Valid() && m == S.VisitNode(old(m), i, old(os.fresh_pid)) && stop == m.at.None?
      ensures OnwardsOrRemoved(i)
    {
      assert n.value.Is(m.queue[i]);
      if n.value.pid == 0 {
        StartFirst(n.value, c.now, i);
        return true;
      }
      stop := AwaitFirst(n, i);
    }

    /** `run_prog; list_del_node;` */
    method RunAndRemove(n: ListNode<Program>, now: int, ghost i: nat)
      requires Valid() && Kept(n, i) && now == m.clock.now
      modifies this, os, progq, progq.nodes, n.value
      ensures Valid() && m == S.Remove(S.RunProg(old(m), i, old(os.fresh_pid)), i)
      ensures OnwardsOrRemoved(i)
    {
      var _ := RunProg(n.value, now, i);
      Remove(n, i);
    }

    /** The branch for once-only and period programs. */
    method VisitOnce(n: ListNode<Program>, c: S.Clock, ghost i: nat)
      requires Valid() && Kept(n, i) && c == m.clock && 1 <= c.wday <= 7
      requires n.value.flag == S.FORK_ONCE || n.value.flag == S.FORK_PERIOD
      modifies this, os, progq, progq.nodes, n.value
      ensures Valid() && m == S.VisitNode(old(m), i, old(os.fresh_pid)) && m.at.Some?
      ensures OnwardsOrRemoved(i)
    {
      var p := n.value;
      assert p.Is(m.queue[i]);
      if p.flag == S.FORK_PERIOD {
        if p.pid != 0 {
          var there := os.Exists(p.pid);
          if there {
            m := m.(at := Some(i + 1));
            return;
          }
        }
        var judged := Judged(p, c);
        if judged {
          RunAndRemove(n, c.now, i);
          return;
        }
      }
      RunAndRemove(n, c.now, i);
    }

    /** Leave the visited program as it is. */
    ghost method MoveOn(i: nat)
      requires Valid()
      modifies this`m
      ensures Valid() && m == old(m).(at := Some(i + 1))
    {
      m := m.(at := Some(i + 1));
    }

    /** `kill(p->pid, SIGTERM); waitpid(p->pid, NULL, 0);`, with a `dict_delete` that does not find the entry. */
    method StopProg(pid: int)
      requires Valid()
      modifies this`m, os
      ensures Valid() && m == S.Stop(old(m), pid) && os.fresh_pid == old(os.fresh_pid)
    {
      var there := os.Exists(pid);
      if there {
        os.Terminate(pid);
        m := S.Stop(m, pid);
      }
    }

    /** Start it, leave it alone or stop it. */
    method ServeWatch(p: Program, c: S.Clock, ghost i: nat)
      requires Valid() && i < |progq.vals| && p == progq.vals[i] && c == m.clock && 1 <= c.wday <= 7
      requires p.flag > 0 && p.flag != S.FORK_PERIOD && m.queue[0].flag >= 0
      modifies this, os, p
      ensures Valid() && m == S.VisitNode(old(m), i, old(os.fresh_pid)) && m.at == Some(i + 1)
      ensures OnlyAdds(p)
    {
      assert p.Is(m.queue[i]);
      var judged := Judged(p, c);
      if judged {
        var there := false;
        if p.pid > 0 { there := os.Exists(p.pid); }
        if !there { var _ := RunProg(p, c.now, i); }
      } else if p.pid > 0 {
        StopProg(p.pid);
      }
      MoveOn(i);
    }

    /** The branch for watched programs, which have no pid file. */
    method VisitWatch(n: ListNode<Program>, c: S.Clock, ghost i: nat)
      requires Valid() && Kept(n, i) && c == m.clock && 1 <= c.wday <= 7
      requires n.value.flag > 0 && n.value.flag != S.FORK_PERIOD
      modifies this, os, n.value
      ensures Valid() && m == S.VisitNode(old(m), i, old(os.fresh_pid)) && m.at == Some(i + 1)
      ensures OnlyAdds(n.value)
    {
      var p := n.value;
      assert p.Is(m.queue[i]);
      var f := progq.head.value;
      assert f.Is(m.queue[0]);
      if f.flag < 0 {
        m := m.(at := Some(i + 1));
        return;
      }
      ServeWatch(p, c, i);
    }

    /** Nothing joins the queue while the program runs, and `waitq` knows no other programs. */
    ghost predicate Confined(nodes: set<ListNode<Program>>, progs: set<Program>)
      reads this, progq
    {
      && Within(progq.nodes, nodes) && (forall k :: 0 <= k < |progq.vals| ==> progq.vals[k] in progs)
      && forall pid :: pid in waitq ==> waitq[pid] in progs
    }

    /** The iterator of a tick stands behind node `i`, which it has just returned, or at the end. */
    ghost predicate Iterating(it: ListIter<Program>, n: ListNode?<Program>, i: nat, nodes: set<ListNode<Program>>,
                              progs: set<Program>)
      reads this, progq, progq.nodes, progq.vals, it
    {
      Standing(progq, it, n, i) && m.at == Some(i) && Confined(nodes, progs)
    }

    /** The body of the queue loop, up to `list_next`. */
    method Branch(n: ListNode<Program>, c: S.Clock, ghost i: nat) returns (stop: bool)
      requires Valid() && Kept(n, i) && c == m.clock && 1 <= c.wday <= 7
      requires S.FORK_FIRST <= n.value.flag <= S.FORK_PERIOD
      modifies this, os, progq, progq.nodes, n.value
      ensures Valid() && m == S.VisitNode(old(m), i, old(os.fresh_pid)) && stop == m.at.None? && OnwardsOrRemoved(i)
    {
      var flag := n.value.flag;
      stop := false;
      if flag < 0 {
        stop := VisitFirst(n, c, i);
      } else if flag == S.FORK_ONCE || flag == S.FORK_PERIOD {
        VisitOnce(n, c, i);
      } else {
        VisitWatch(n, c, i);
      }
    }

    /** `list_next`. */
    method Onward(it: ListIter<Program>, ghost nodes: set<ListNode<Program>>, ghost progs: set<Program>)
      returns (next: ListNode?<Program>)
      requires Valid() && it.fromHead && m.at.Some? && m.at.value <= |progq.nodes|
      requires it.At(progq.nodes, m.at.value) && Confined(nodes, progs)
      modifies it
      ensures Valid() && m == old(m) && Iterating(it, next, m.at.value, nodes, progs) && Confined(nodes, progs)
    {
      next := it.Next(progq, m.at.value);
    }

    /** The branches, with the iterator's place in the queue. */
    method BranchOn(n: ListNode<Program>, it: ListIter<Program>, c: S.Clock, ghost i: nat,
                    ghost nodes: set<ListNode<Program>>, ghost progs: set<Program>)
      returns (stop: bool)
      requires Valid() && Iterating(it, n, i, nodes, progs) && c == m.clock && 1 <= c.wday <= 7
      requires S.FORK_FIRST <= n.value.flag <= S.FORK_PERIOD
      modifies this, os, progq, nodes, progs
      ensures Valid() && m == S.VisitNode(old(m), i, old(os.fresh_pid)) && stop == m.at.None? && Confined(nodes, progs)
      ensures !stop ==> m.at.value <= |progq.nodes| && it.At(progq.nodes, m.at.value)
    {
      stop := Branch(n, c, i);
    }

    /** The body of the queue loop. */
    method VisitNode(n: ListNode<Program>, it: ListIter<Program>, c: S.Clock, ghost i: nat,
                     ghost nodes: set<ListNode<Program>>, ghost progs: set<Program>)
      returns (stop: bool, next: ListNode?<Program>)
      requires Valid() && Iterating(it, n, i, nodes, progs) && c == m.clock && 1 <= c.wday <= 7
      requires S.FORK_FIRST <= n.value.flag <= S.FORK_PERIOD
      modifies this, os, progq, it, nodes, progs
      ensures Valid() && m == S.VisitNode(old(m), i, old(os.fresh_pid)) && stop == m.at.None?
      ensures !stop ==> Iterating(it, next, m.at.value, nodes, progs)
      ensures Confined(nodes, progs)
    {
      stop := BranchOn(n, it, c, i, nodes, progs);
      if stop { return true, null; }
      next := Onward(it, nodes, progs);
    }

    /** Some processes go away. */
    method Drift() returns (ghost gone: set<int>)
      requires Valid()
      modifies this`m, os
      ensures Valid() && m == S.Apply(old(m), S.Gone(gone))
      ensures os.fresh_pid == old(os.fresh_pid)
    {
      gone := os.Drift();
      m := m.(present := os.present);
    }

    /** One turn of the queue loop: perhaps some processes go away, then the node is visited. */
    method Turn(n: ListNode<Program>, it: ListIter<Program>, c: S.Clock, ghost first: seq<nat>,
                ghost nodes: set<ListNode<Program>>, ghost progs: set<Program>)
      returns (stop: bool, next: ListNode?<Program>, ghost s1: S.Step, ghost s2: S.Step)
      requires Valid() && Sound(m, first) && m.at.Some? && Iterating(it, n, m.at.value, nodes, progs)
      requires c == m.clock && 1 <= c.wday <= 7
      modifies this, os, progq, it, nodes, progs
      ensures Valid() && Sound(m, first) && stop == m.at.None?
      ensures S.Enabled(old(m), s1) && S.Apply(old(m), s1).at.Some?
      ensures S.Enabled(S.Apply(old(m), s1), s2) && m == S.Apply(S.Apply(old(m), s1), s2)
      ensures !stop ==> Iterating(it, next, m.at.value, nodes, progs)
      ensures Confined(nodes, progs)
      ensures m.clock == c && m.latest == old(m).latest && Left(m) < Left(old(m))
    {
      ghost var i := m.at.value;
      ghost var gone := Drift();
      s1 := S.Gone(gone);
      StepSound(old(m), s1, first);
      s2 := S.Visit(os.fresh_pid);
      StepSound(m, s2, first);
      assert S.ProgOK(m, i) && progq.vals[i].Is(m.queue[i]);
      OneFewer(m, i, os.fresh_pid);
      stop, next := VisitNode(n, it, c, i, nodes, progs);
    }

    /** Where a tick stands after `steps` from state `start`. */
    ghost predicate Reached(start: S.State, steps: seq<S.Step>, c: S.Clock, first: seq<nat>)
      reads this
    {
      && Sound(m, first) && S.Legal(start, steps) && m == S.Run(start, steps)
      && m.clock == c && m.latest == c.now && OneTick(start, steps) && steps[0] == S.Begin(c)
    }

    lemma TwoMore(start: S.State, now: S.State, steps: seq<S.Step>, s1: S.Step, s2: S.Step)
      requires S.Legal(start, steps) && now == S.Run(start, steps) && OneTick(start, steps)
      requires S.Enabled(now, s1) && S.Enabled(S.Apply(now, s1), s2) && now.at.Some? && S.Apply(now, s1).at.Some?
      ensures OneTick(start, steps + [s1] + [s2])
      ensures S.Legal(start, steps + [s1] + [s2]) && S.Run(start, steps + [s1] + [s2]) == S.Apply(S.Apply(now, s1), s2)
    {
      RunSnoc(start, steps, s1);
      OneTickSnoc(start, steps, s1);
      RunSnoc(start, steps + [s1], s2);
      OneTickSnoc(start, steps + [s1], s2);
    }

    ghost predicate InTick(start: S.State, steps: seq<S.Step>, c: S.Clock, first: seq<nat>, stop: bool,
                           it: ListIter<Program>, n: ListNode?<Program>,
                           nodes: set<ListNode<Program>>, progs: set<Program>)
      reads this, os, progq, progq.nodes, progq.vals, it
    {
      && Valid() && Reached(start, steps, c, first) && stop == m.at.None?
      && Confined(nodes, progs) && (!stop ==> Iterating(it, n, m.at.value, nodes, progs))
    }

    /** Begin a tick: the clock is read. */
    ghost method ReadClock(c: S.Clock, first: seq<nat>) returns (steps: seq<S.Step>)
      requires Valid() && Sound(m, first) && S.Enabled(m, S.Begin(c))
      modifies this`m
      ensures Valid() && Reached(old(m), steps, c, first) && m.at == Some(0)
    {
      StepSound(m, S.Begin(c), first);
      steps := [S.Begin(c)];
      RunSnoc(m, [], S.Begin(c));
      m := S.Apply(m, S.Begin(c));
    }

    /** The iterator is made and returns the first node. */
    method FirstNode(ghost nodes: set<ListNode<Program>>, ghost progs: set<Program>)
      returns (it: ListIter<Program>, n: ListNode?<Program>)
      requires Valid() && m.at == Some(0) && Confined(nodes, progs)
      ensures fresh(it) && Valid() && Iterating(it, n, 0, nodes, progs)
    {
      it := new ListIter(progq, true);
      n := it.Next(progq, 0);
    }

    method TurnOn(n: ListNode<Program>, it: ListIter<Program>, c: S.Clock, ghost start: S.State,
                  ghost steps: seq<S.Step>, ghost first: seq<nat>, ghost nodes: set<ListNode<Program>>,
                  ghost progs: set<Program>)
      returns (stop: bool, next: ListNode?<Program>, ghost more: seq<S.Step>)
      requires InTick(start, steps, c, first, false, it, n, nodes, progs) && 1 <= c.wday <= 7
      modifies this, os, progq, it, nodes, progs
      ensures InTick(start, more, c, first, stop, it, next, nodes, progs)
      ensures Left(m) < Left(old(m))
    {
      ghost var s1, s2;
      ghost var before := m;
      stop, next, s1, s2 := Turn(n, it, c, first, nodes, progs);
      TwoMore(start, before, steps, s1, s2);
      more := steps + [s1] + [s2];
    }

    method EndTick(c: S.Clock, ghost start: S.State, ghost steps: seq<S.Step>, ghost first: seq<nat>)
      returns (ghost more: seq<S.Step>)
      requires Valid() && Reached(start, steps, c, first) && S.Enabled(m, S.End)
      modifies this`m
      ensures Valid() && Reached(start, more, c, first) && m.at.None?
    {
      StepSound(m, S.End, first);
      RunSnoc(start, steps, S.End);
      OneTickSnoc(start, steps, S.End);
      more := steps + [S.End];
      m := S.Apply(m, S.End);
    }

    /** The queue loop, to its end or to a `break`. */
    method Pass(n: ListNode?<Program>, it: ListIter<Program>, c: S.Clock, ghost start: S.State,
                ghost steps: seq<S.Step>, ghost first: seq<nat>, ghost nodes: set<ListNode<Program>>,
                ghost progs: set<Program>)
      returns (ghost more: seq<S.Step>)
      requires InTick(start, steps, c, first, false, it, n, nodes, progs) && 1 <= c.wday <= 7
      modifies this, os, progq, it, nodes, progs
      ensures Valid() && Reached(start, more, c, first) && Confined(nodes, progs) && m.at.None?
    {
      var next, stop := n, false;
      more := steps;
      while next != null && !stop
        invariant InTick(start, more, c, first, stop, it, next, nodes, progs)
        decreases Left(m)
      {
        stop, next, more := TurnOn(next, it, c, start, more, first, nodes, progs);
      }
      if !stop { more := EndTick(c, start, more, first); }
    }

    /**
     * One pass of `mytask` over the queue at clock reading `c`, with processes going away at any time.
     * It is a run of the state machine, so the invariant, and with it every theorem about runs, survives.
     */
    method Tick(c: S.Clock, ghost first: seq<nat>, ghost nodes: set<ListNode<Program>>, ghost progs: set<Program>)
      returns (ghost steps: seq<S.Step>)
      requires Valid() && Sound(m, first) && S.Enabled(m, S.Begin(c)) && Confined(nodes, progs)
      modifies this, os, progq, nodes, progs
      ensures Valid() && m.at.None? && Reached(old(m), steps, c, first) && Confined(nodes, progs)
    {
      steps := ReadClock(c, first);
      var it, n := FirstNode(nodes, progs);
      steps := Pass(n, it, c, old(m), steps, first, nodes, progs);
    }

    /** Between passes: `steps` have led from state `start` here. */
    ghost predicate Between(start: S.State, steps: seq<S.Step>, first: seq<nat>)
      reads this
    {
      Sound(m, first) && m.at.None? && S.Legal(start, steps) && m == S.Run(start, steps)
    }

    /** `waitpid(-1, &status, WNOHANG)` */
    method WaitChild() returns (pid: int)
      requires Valid()
      modifies this`m, os
      ensures Valid() && (pid == 0 <==> old(os.ended) == {})
      ensures pid == 0 ==> m == old(m) && os.ended == {}
      ensures pid != 0 ==> pid in old(os.ended) && pid in old(m).children && os.ended == old(os.ended) - {pid}
      ensures pid != 0 ==>
        m == old(m).(present := old(m).present - {pid}, children := old(m).children - {pid})
    {
      pid := os.WaitAny();
      m := m.(present := os.present, children := os.children);
    }

    /** The program that `waitq` names for a process gets the time, and the entry goes. */
    method StampProgram(pid: int, now: int)
      requires Valid() && pid in waitq
      modifies this`m, this`waitq, waitq[pid]
      ensures Valid() && waitq == old(waitq) - {pid}
      ensures m == old(m).(waitq := old(m).waitq - {pid}, latest := now,
                           queue := S.Stamp(old(m).queue, old(m).waitq[pid], now))
    {
      var p := waitq[pid];
      p.time := now;
      NamesOneLess(waitq, progq.vals, m.waitq, pid);
      MirrorsStamp(progq.vals, p, m.queue, now);
      waitq := waitq - {pid};
      m := m.(waitq := m.waitq - {pid}, latest := now, queue := S.Stamp(m.queue, p.id, now));
    }

    /**
     * One turn of the loop of `handle_sigchild`: a child that has ended is waited for, and the program that `waitq`
     * names gets the time as its stamp.
     */
    method Reap(now: int, ghost first: seq<nat>, ghost nodes: set<ListNode<Program>>, ghost progs: set<Program>)
      returns (pid: int)
      requires Valid() && Sound(m, first) && m.at.None? && now >= m.latest && Confined(nodes, progs)
      modifies this, os, progs
      ensures Valid() && Confined(nodes, progs) && (pid == 0 <==> old(os.ended) == {})
      ensures pid == 0 ==> m == old(m) && os.ended == {}
      ensures pid != 0 ==> pid in old(os.ended) && os.ended == old(os.ended) - {pid}
      ensures pid != 0 ==> S.Enabled(old(m), S.Reap(pid, now)) && m == S.Apply(old(m), S.Reap(pid, now))
    {
      pid := WaitChild();
      if pid != 0 { StampProgram(pid, now); }
    }

    /** Of the children `pids` that had ended, those not in `os.ended` any more have been waited for in `steps`. */
    ghost predicate Reaping(start: S.State, steps: seq<S.Step>, first: seq<nat>, pids: set<int>, now: int)
      reads this, os
    {
      Between(start, steps, first) && now >= m.latest && os.ended <= pids && Reaped(steps, pids - os.ended, now)
    }

    lemma ReapedNext(start: S.State, before: S.State, steps: seq<S.Step>, first: seq<nat>, pid: int, now: int)
      returns (more: seq<S.Step>)
      requires Sound(before, first) && before.at.None? && S.Legal(start, steps) && before == S.Run(start, steps)
      requires S.Enabled(before, S.Reap(pid, now)) && m == S.Apply(before, S.Reap(pid, now))
      ensures more == steps + [S.Reap(pid, now)] && Between(start, more, first) && m.latest == now
    {
      StepSound(before, S.Reap(pid, now), first);
      RunSnoc(start, steps, S.Reap(pid, now));
      more := steps + [S.Reap(pid, now)];
    }

    /** The turn, and what has been reaped by then. */
    method ReapOn(now: int, ghost start: S.State, ghost steps: seq<S.Step>, ghost first: seq<nat>,
                  ghost pids: set<int>, ghost nodes: set<ListNode<Program>>, ghost progs: set<Program>)
      returns (pid: int, ghost more: seq<S.Step>)
      requires Valid() && Confined(nodes, progs) && Reaping(start, steps, first, pids, now)
      modifies this, os, progs
      ensures Valid() && Confined(nodes, progs) && Reaping(start, more, first, pids, now)
      ensures if pid == 0 then os.ended == {} else |os.ended| < |old(os.ended)|
    {
      ghost var before, ended := m, os.ended;
      pid := Reap(now, first, nodes, progs);
      more := steps;
      if pid != 0 {
        more := ReapedNext(start, before, steps, first, pid, now);
        ReapedMore(steps, pids, ended, pid, now);
      }
    }

    /** `handle_sigchild`: the loop over `waitpid`. Exactly the children that had ended are waited for. */
    method ReapAll(now: int, ghost first: seq<nat>, ghost nodes: set<ListNode<Program>>, ghost progs: set<Program>)
      returns (ghost steps: seq<S.Step>)
      requires Valid() && Sound(m, first) && m.at.None? && now >= m.latest && Confined(nodes, progs)
      modifies this, os, progs
      ensures Valid() && now >= m.latest && Between(old(m), steps, first) && Confined(nodes, progs)
      ensures Reaped(steps, old(os.ended), now) && os.ended == {}
    {
      steps := [];
      var pid := -1;
      ghost var pids := os.ended;
      while pid != 0
        invariant Valid() && Confined(nodes, progs) && Reaping(old(m), steps, first, pids, now)
        invariant pid == 0 ==> os.ended == {}
        decreases |os.ended|, if pid != 0 then 1 else 0
      {
        pid, steps := ReapOn(now, old(m), steps, first, pids, nodes, progs);
      }
      assert pids - os.ended == pids;
    }

    /** One round of the endless loop. */
    method Round(r: Round, ghost first: seq<nat>, ghost nodes: set<ListNode<Program>>, ghost progs: set<Program>)
      returns (ghost steps: seq<S.Step>)
      requires Valid() && Sound(m, first) && m.at.None? && Readings([r], m.latest) && Confined(nodes, progs)
      modifies this, os, progq, nodes, progs
      ensures Valid() && Between(old(m), steps, first) && m.latest == r.clock.now && Confined(nodes, progs)
      ensures Begins(steps) == [r.clock]
      ensures r.chld ==> forall pid :: pid in old(os.ended) ==> S.Reap(pid, r.clock.now) in steps
    {
      assert [r][0] == r;
      ghost var before := [];
      if r.chld { before := ReapAll(r.clock.now, first, nodes, progs); }
      ghost var after := Tick(r.clock, first, nodes, progs);
      RunConcat(old(m), before, after);
      ReapedBegins(before);
      BeginsConcat(before, after);
      OneTickBegins(S.Run(old(m), before), after);
      steps := before + after;
    }

    method NextRound(r: Round, ghost start: S.State, ghost steps: seq<S.Step>, ghost first: seq<nat>,
                     ghost nodes: set<ListNode<Program>>, ghost progs: set<Program>)
      returns (ghost more: seq<S.Step>)
      requires Valid() && Between(start, steps, first) && Readings([r], m.latest) && Confined(nodes, progs)
      modifies this, os, progq, nodes, progs
      ensures Valid() && Between(start, more, first) && m.latest == r.clock.now && Confined(nodes, progs)
      ensures Begins(more) == Begins(steps) + [r.clock]
    {
      var steps' := Round(r, first, nodes, progs);
      RunConcat(start, steps, steps');
      BeginsConcat(steps, steps');
      more := steps + steps';
    }

    method Rounds(rounds: seq<Round>, ghost first: seq<nat>, ghost nodes: set<ListNode<Program>>,
                  ghost progs: set<Program>)
      returns (ghost steps: seq<S.Step>)
      requires Valid() && Sound(m, first) && m.at.None? && Readings(rounds, m.latest) && Confined(nodes, progs)
      modifies this, os, progq, nodes, progs
      ensures Valid() && Between(old(m), steps, first) && Begins(steps) == Clocks(rounds)
    {
      steps := [];
      for i := 0 to |rounds|
        invariant Valid() && Between(old(m), steps, first) && Confined(nodes, progs)
        invariant i < |rounds| ==> m.latest <= rounds[i].clock.now
        invariant Begins(steps) == Clocks(rounds[..i])
      {
        assert Readings([rounds[i]], m.latest);
        assert rounds[..i + 1][..i] == rounds[..i];
        steps := NextRound(rounds[i], old(m), steps, first, nodes, progs);
      }
      assert rounds[..|rounds|] == rounds;
    }

    /**
     * `mytask`, for as many rounds as it lives: what it does is a run of the state machine from its initial state,
     * with exactly one tick for each round, at that round's clock.
     */
    method MyTask(rounds: seq<Round>) returns (ghost steps: seq<S.Step>)
      requires Valid() && S.Initial(m) && Readings(rounds, m.latest)
      modifies this, os, progq, progq.nodes, progq.vals
      ensures Valid() && Between(old(m), steps, S.Waiting(old(m).queue)) && Begins(steps) == Clocks(rounds)
    {
      WaitAgrees(m, []);
      steps := Rounds(rounds, S.Waiting(m.queue), set x | x in progq.nodes, set x | x in progq.vals);
    }
  }
}
