/**
 * The file appender of the log on values: messages go through a buffer into the newest file, and a
 * rotation takes what is pending along into the next one.
 */
module LogModel {

  /**
   * `file_log`. `files` are the contents of all files opened so far, the newest last and empty before
   * the first; `pending` are the first `w_pos` bytes of the buffer.
   */
  datatype Log = Log(files: seq<string>, pending: string, bufSize: int, wSize: int,
                     switchSize: int, switchTime: int, swDay: int, fileCount: int)

  /** Day of the month and second of the day. */
  datatype Clock = Clock(mday: int, sec: int)

  datatype Event = Message(text: string, at: Clock) | Flush(at: Clock)

  predicate Opened(l: Log) { l.files != [] }

  function Newest(l: Log): string
    requires Opened(l)
  {
    l.files[|l.files| - 1]
  }

  function Append(l: Log, text: string): Log
    requires Opened(l)
  {
    l.(files := l.files[|l.files| - 1 := Newest(l) + text])
  }

  /** `log_file_init_callback_fun`: the first file, or the next one with what was pending. */
  function Init(l: Log): (r: Log)
    ensures Opened(r)
  {
    if Opened(l) then l.(files := l.files + [l.pending], pending := "", wSize := 0, fileCount := l.fileCount + 1)
    else l.(files := [""])
  }

  predicate NewDay(l: Log, c: Clock) {
    l.switchTime > 0 && c.mday != l.swDay && c.sec >= l.switchTime
  }

  /** `log_file_switch`. */
  function Switch(l: Log, c: Clock): (r: Log)
    ensures Opened(l) ==> Opened(r)
  {
    if NewDay(l, c) then Init(l.(swDay := c.mday))
    else if l.switchSize > 0 && l.wSize >= l.switchSize then Init(l)
    else l
  }

  /** The buffer goes to the file. */
  function Spill(l: Log): Log
    requires Opened(l)
  {
    Append(l, l.pending).(wSize := l.wSize + |l.pending|, pending := "")
  }

  lemma SpillNothing(l: Log)
    requires Opened(l) && l.pending == ""
    ensures Spill(l) == l
  {
    assert Newest(l) + "" == Newest(l);
    assert l.files[|l.files| - 1 := Newest(l)] == l.files;
  }

  /** The part of `log_file_log_callback_fun` after the switch. */
  function Put(l: Log, text: string): Log
    requires Opened(l)
  {
    if |text| > l.bufSize - |l.pending| then
      var s := Spill(l);
      Append(s, text).(wSize := s.wSize + |text|)
    else l.(pending := l.pending + text, wSize := l.wSize + |text|)
  }

  /** `log_file_log_callback_fun` and `log_file_flush_callback_fun`; before the first file nothing happens. */
  function Handle(l: Log, e: Event): (r: Log)
    ensures Opened(l) ==> Opened(r)
  {
    if !Opened(l) then l
    else
      match e
      case Message(text, c) => Put(Switch(l, c), text)
      case Flush(c) => Spill(Switch(l, c))
  }

  function HandleAll(l: Log, events: seq<Event>): Log
    decreases |events|
  {
    if events == [] then l else HandleAll(Handle(l, events[0]), events[1..])
  }

  /** After `log_initialize_file` and `log_start`. */
  function Started(bufSize: int, switchSize: int, switchTime: int): Log {
    Init(Log([], "", bufSize, 0, switchSize, switchTime, 0, 0))
  }

  // ----- nothing is lost, doubled, reordered or torn --------------------------------------

  function Messages(events: seq<Event>): seq<string> {
    if events == [] then []
    else (if events[0].Message? then [events[0].text] else []) + Messages(events[1..])
  }

  function Concat(texts: seq<string>): string {
    if texts == [] then "" else Concat(texts[..|texts| - 1]) + texts[|texts| - 1]
  }

  function Flatten(groups: seq<seq<string>>): seq<string> {
    if groups == [] then [] else Flatten(groups[..|groups| - 1]) + groups[|groups| - 1]
  }

  /** Whole messages: each file is the messages of one group, and the last group is pending. */
  ghost predicate Holds(l: Log, groups: seq<seq<string>>) {
    && |groups| == |l.files| + 1 && Opened(l)
    && (forall i :: 0 <= i < |l.files| ==> l.files[i] == Concat(groups[i]))
    && l.pending == Concat(groups[|l.files|])
  }

  lemma {:induction false} ConcatPlus(a: seq<string>, b: seq<string>)
    ensures Concat(a + b) == Concat(a) + Concat(b)
    decreases |b|
  {
    if b == [] {
      assert a + b == a;
    } else {
      assert (a + b)[..|a + b| - 1] == a + b[..|b| - 1];
      ConcatPlus(a, b[..|b| - 1]);
    }
  }

  /** The groups before the last two, and those. */
  lemma FlattenTwo(front: seq<seq<string>>, x: seq<string>, y: seq<string>)
    ensures Flatten(front + [x, y]) == Flatten(front) + x + y
  {
    var groups := front + [x, y];
    assert groups[..|groups| - 1] == front + [x];
    assert (front + [x])[..|front|] == front;
  }

  lemma RotateHolds(l: Log, groups: seq<seq<string>>) returns (next: seq<seq<string>>)
    requires Holds(l, groups)
    ensures Holds(Init(l), next) && Flatten(next) == Flatten(groups)
  {
    next := groups + [[]];
    assert next[..|groups|] == groups;
  }

  lemma SwitchHolds(l: Log, c: Clock, groups: seq<seq<string>>) returns (next: seq<seq<string>>)
    requires Holds(l, groups)
    ensures Holds(Switch(l, c), next) && Flatten(next) == Flatten(groups)
  {
    if NewDay(l, c) {
      assert Holds(l.(swDay := c.mday), groups);
      next := RotateHolds(l.(swDay := c.mday), groups);
    } else if l.switchSize > 0 && l.wSize >= l.switchSize {
      next := RotateHolds(l, groups);
    } else {
      next := groups;
    }
  }

  lemma SpillHolds(l: Log, groups: seq<seq<string>>) returns (next: seq<seq<string>>)
    requires Holds(l, groups)
    ensures Holds(Spill(l), next) && Flatten(next) == Flatten(groups) && next[|l.files|] == []
  {
    var n := |l.files|;
    var front, x, y := groups[..n - 1], groups[n - 1], groups[n];
    next := front + [x + y, []];
    ConcatPlus(x, y);
    FlattenTwo(front, x, y);
    FlattenTwo(front, x + y, []);
    assert groups == front + [x, y];
  }

  /** With nothing pending, a message joins the newest file's group. */
  lemma AppendHolds(l: Log, text: string, groups: seq<seq<string>>) returns (next: seq<seq<string>>)
    requires Holds(l, groups) && groups[|l.files|] == []
    ensures Holds(Append(l, text), next) && Flatten(next) == Flatten(groups) + [text]
  {
    var n := |l.files|;
    var front, x := groups[..n - 1], groups[n - 1];
    next := front + [x + [text], []];
    ConcatPlus(x, [text]);
    FlattenTwo(front, x, []);
    FlattenTwo(front, x + [text], []);
    assert groups == front + [x, []];
  }

  /** Otherwise it joins the pending group. */
  lemma KeepHolds(l: Log, text: string, groups: seq<seq<string>>) returns (next: seq<seq<string>>)
    requires Holds(l, groups)
    ensures Holds(l.(pending := l.pending + text), next) && Flatten(next) == Flatten(groups) + [text]
  {
    var n := |l.files|;
    var y := groups[n];
    next := groups[..n] + [y + [text]];
    ConcatPlus(y, [text]);
    assert next[..n] == groups[..n];
  }

  lemma PutHolds(l: Log, text: string, groups: seq<seq<string>>) returns (next: seq<seq<string>>)
    requires Holds(l, groups)
    ensures Holds(Put(l, text), next) && Flatten(next) == Flatten(groups) + [text]
  {
    if |text| > l.bufSize - |l.pending| {
      var mid := SpillHolds(l, groups);
      next := AppendHolds(Spill(l), text, mid);
    } else {
      next := KeepHolds(l, text, groups);
    }
  }

  lemma HandleHolds(l: Log, e: Event, groups: seq<seq<string>>) returns (next: seq<seq<string>>)
    requires Holds(l, groups)
    ensures Holds(Handle(l, e), next)
    ensures Flatten(next) == Flatten(groups) + (if e.Message? then [e.text] else [])
  {
    var mid := SwitchHolds(l, e.at, groups);
    if e.Message? {
      next := PutHolds(Switch(l, e.at), e.text, mid);
    } else {
      next := SpillHolds(Switch(l, e.at), mid);
    }
  }

  lemma FirstMessage(events: seq<Event>, before: seq<string>, texts: seq<string>, rest: seq<string>)
    requires events != [] && rest == Messages(events[1..])
    requires texts == if events[0].Message? then [events[0].text] else []
    ensures before + texts + rest == before + Messages(events)
  {
    assert Messages(events) == texts + rest;
    PlusPlus(before, texts, rest);
  }

  lemma PlusPlus(a: seq<string>, b: seq<string>, c: seq<string>)
    ensures a + b + c == a + (b + c)
  {
  }

  lemma {:induction false} AllHold(l: Log, events: seq<Event>, groups: seq<seq<string>>)
    returns (next: seq<seq<string>>)
    requires Holds(l, groups)
    ensures Holds(HandleAll(l, events), next) && Flatten(next) == Flatten(groups) + Messages(events)
    decreases |events|
  {
    if events == [] { return groups; }
    var mid := HandleHolds(l, events[0], groups);
    next := AllHold(Handle(l, events[0]), events[1..], mid);
    FirstMessage(events, Flatten(groups), if events[0].Message? then [events[0].text] else [], Messages(events[1..]));
  }

  lemma {:induction false} FlattenConcat(groups: seq<seq<string>>, texts: seq<string>)
    requires |texts| == |groups| && forall i :: 0 <= i < |groups| ==> texts[i] == Concat(groups[i])
    ensures Concat(Flatten(groups)) == Concat(texts)
    decreases |groups|
  {
    if groups != [] {
      var n := |groups| - 1;
      FlattenConcat(groups[..n], texts[..n]);
      ConcatPlus(Flatten(groups[..n]), groups[n]);
    }
  }

  /**
   * In every run the messages fall into consecutive groups, one for each file and one pending: no
   * message is lost, written twice, out of order or divided between two files.
   */
  lemma Conservation(bufSize: int, switchSize: int, switchTime: int, events: seq<Event>)
    returns (groups: seq<seq<string>>)
    ensures var l := HandleAll(Started(bufSize, switchSize, switchTime), events);
      && Holds(l, groups) && Flatten(groups) == Messages(events)
      && Concat(l.files) + l.pending == Concat(Messages(events))
  {
    var l0 := Started(bufSize, switchSize, switchTime);
    groups := AllHold(l0, events, [[], []]);
    var l := HandleAll(l0, events);
    assert Flatten([[], []]) == [] by {
      var none: seq<seq<string>> := [];
      FlattenTwo(none, [], []);
      assert none + [[], []] == [[], []];
    }
    FlattenConcat(groups, l.files + [l.pending]);
    assert (l.files + [l.pending])[..|l.files|] == l.files;
  }

  // ----- bounds --------------------------------------------------------------------------

  /** The largest a file can get when no message is longer than `longest`. */
  function Limit(l: Log, longest: int): int {
    l.switchSize - 1 + l.bufSize + longest
  }

  /** `w_size` forgets what a rotation takes along, which is at most a buffer, and counts what is flushed twice. */
  ghost predicate Bounded(l: Log, longest: int) {
    && Opened(l) && 0 <= |l.pending| <= l.bufSize && l.wSize >= 0 && l.fileCount == |l.files| - 1
    && |Newest(l)| + |l.pending| <= l.wSize + l.bufSize
    && (l.switchSize > 0 ==>
          && |Newest(l)| + |l.pending| <= Limit(l, longest)
          && forall i :: 0 <= i < |l.files| ==> |l.files[i]| <= Limit(l, longest))
  }

  lemma SwitchBounded(l: Log, c: Clock, longest: int)
    requires Bounded(l, longest) && longest >= 0
    ensures Bounded(Switch(l, c), longest)
    ensures var s := Switch(l, c); s.switchSize > 0 ==> |Newest(s)| + |s.pending| <= s.switchSize - 1 + s.bufSize
  {
  }

  lemma HandleBounded(l: Log, e: Event, longest: int)
    requires Bounded(l, longest) && longest >= 0 && (e.Message? ==> |e.text| <= longest)
    ensures Bounded(Handle(l, e), longest)
  {
    SwitchBounded(l, e.at, longest);
  }

  lemma {:induction false} AllBounded(l: Log, events: seq<Event>, longest: int)
    requires Bounded(l, longest) && longest >= 0
    requires forall i :: 0 <= i < |events| && events[i].Message? ==> |events[i].text| <= longest
    ensures Bounded(HandleAll(l, events), longest)
    ensures var r := HandleAll(l, events); r.bufSize == l.bufSize && r.switchSize == l.switchSize
    decreases |events|
  {
    if events != [] {
      HandleBounded(l, events[0], longest);
      AllBounded(Handle(l, events[0]), events[1..], longest);
    }
  }

  /**
   * In every run the buffer never overflows, files are numbered without gap, and with a switch size
   * no file exceeds it by more than the buffer and the longest message, less one byte.
   */
  lemma FilesBounded(bufSize: int, switchSize: int, switchTime: int, events: seq<Event>, longest: int)
    requires bufSize > 0 && longest >= 0
    requires forall i :: 0 <= i < |events| && events[i].Message? ==> |events[i].text| <= longest
    ensures var l := HandleAll(Started(bufSize, switchSize, switchTime), events);
      && 0 <= |l.pending| <= bufSize && l.fileCount == |l.files| - 1
      && (switchSize > 0 ==> forall i :: 0 <= i < |l.files| ==> |l.files[i]| <= switchSize - 1 + bufSize + longest)
  {
    AllBounded(Started(bufSize, switchSize, switchTime), events, longest);
  }

  // ----- the bound is sharp --------------------------------------------------------------

  predicate NoLonger(events: seq<Event>, longest: int) {
    forall i :: 0 <= i < |events| && events[i].Message? ==> |events[i].text| <= longest
  }

  lemma {:induction false} HandleAllPlus(l: Log, a: seq<Event>, b: seq<Event>)
    ensures HandleAll(l, a + b) == HandleAll(HandleAll(l, a), b)
    decreases |a|
  {
    if a == [] {
      assert a + b == b;
    } else {
      assert (a + b)[1..] == a[1..] + b;
      HandleAllPlus(Handle(l, a[0]), a[1..], b);
    }
  }

  function Text(n: nat): string {
    seq(n, _ => 'x')
  }

  /** With nothing pending and no rotation due, messages count once: short ones wait, long ones go out. */
  lemma OneMessage(l: Log, c: Clock, n: nat)
    requires Opened(l) && l.pending == "" && !NewDay(l, c) && l.wSize < l.switchSize
    ensures var r := Handle(l, Message(Text(n), c));
      && |r.files| == |l.files| && r.wSize == l.wSize + n && !NewDay(r, c)
      && r.(files := l.files, pending := "", wSize := l.wSize) == l
      && (if n > l.bufSize then |Newest(r)| == |Newest(l)| + n && r.pending == ""
          else |Newest(r)| == |Newest(l)| && |r.pending| == n)
  {
    SpillNothing(l);
  }

  /** So the count can be brought to one below the switch size without counting any byte twice. */
  lemma {:induction false} FillUp(l: Log, c: Clock) returns (events: seq<Event>)
    requires Opened(l) && l.pending == "" && !NewDay(l, c) && l.wSize < l.switchSize && l.bufSize > 0
    ensures NoLonger(events, l.bufSize + 1)
    ensures var r := HandleAll(l, events);
      && |r.files| == |l.files| && r.wSize == l.switchSize - 1 && !NewDay(r, c)
      && r.bufSize == l.bufSize && r.switchSize == l.switchSize && |r.pending| <= r.bufSize
      && |Newest(r)| + |r.pending| == |Newest(l)| + l.switchSize - 1 - l.wSize
    decreases l.switchSize - l.wSize
  {
    var room := l.switchSize - 1 - l.wSize;
    var n := if room <= l.bufSize then room else l.bufSize + 1;
    var e := Message(Text(n), c);
    OneMessage(l, c, n);
    var l1 := Handle(l, e);
    if room <= l.bufSize {
      events := [e];
      assert HandleAll(l1, []) == l1;
    } else {
      var rest := FillUp(l1, c);
      events := [e] + rest;
      assert events[1..] == rest;
    }
  }

  /** A message longer than the buffer takes what is pending along. */
  lemma LastMessage(l: Log, c: Clock, n: nat)
    requires Opened(l) && !NewDay(l, c) && l.wSize < l.switchSize && n > l.bufSize
    ensures var r := Handle(l, Message(Text(n), c));
      |r.files| == |l.files| && |Newest(r)| == |Newest(l)| + |l.pending| + n
  {
  }

  /** A full buffer, taken along by the rotation of a new day. */
  lemma FullBuffer(bufSize: nat, switchSize: int, switchTime: int)
    requires bufSize > 0 && switchSize > 0 && switchTime > 0
    ensures var l := HandleAll(Started(bufSize, switchSize, switchTime),
                               [Message(Text(bufSize), Clock(1, 0)), Flush(Clock(1, switchTime))]);
      l == Log(["", Text(bufSize)], "", bufSize, 0, switchSize, switchTime, 1, 1)
  {
    var l0 := Started(bufSize, switchSize, switchTime);
    var first, second := Message(Text(bufSize), Clock(1, 0)), Flush(Clock(1, switchTime));
    var l1 := Log([""], Text(bufSize), bufSize, bufSize, switchSize, switchTime, 0, 0);
    var l2 := Log(["", Text(bufSize)], "", bufSize, 0, switchSize, switchTime, 1, 1);
    assert "" + Text(bufSize) == Text(bufSize);
    assert Handle(l0, first) == l1;
    assert Switch(l1, Clock(1, switchTime)) == l2;
    SpillNothing(l2);
    assert HandleAll(l2, []) == l2;
    assert [first, second][1..] == [second] && [second][1..] == [];
  }

  /**
   * The bound is sharp for all buffer and switch sizes, when there is also a switch time and a message can be
   * longer than the buffer: a run in which the second file reaches it.
   */
  lemma BoundReached(bufSize: nat, switchSize: int, switchTime: int, longest: nat) returns (events: seq<Event>)
    requires bufSize > 0 && switchSize > 0 && switchTime > 0 && longest > bufSize
    ensures NoLonger(events, longest)
    ensures var l := HandleAll(Started(bufSize, switchSize, switchTime), events);
      |l.files| == 2 && |l.files[1]| == switchSize - 1 + bufSize + longest
  {
    var c := Clock(1, switchTime);
    var first := [Message(Text(bufSize), Clock(1, 0)), Flush(c)];
    FullBuffer(bufSize, switchSize, switchTime);
    var l0 := Started(bufSize, switchSize, switchTime);
    var l1 := HandleAll(l0, first);
    var more := FillUp(l1, c);
    var l2 := HandleAll(l1, more);
    LastMessage(l2, c, longest);
    var last := [Message(Text(longest), c)];
    assert HandleAll(l2, last) == HandleAll(Handle(l2, last[0]), []);
    HandleAllPlus(l1, more, last);
    HandleAllPlus(l0, first, more + last);
    events := first + (more + last);
  }

  /** With rotation by size alone it is reached too, for example here. */
  lemma BoundReachedBySize(c: Clock) returns (events: seq<Event>)
    ensures forall i :: 0 <= i < |events| && events[i].Message? ==> |events[i].text| <= 2
    ensures var l := HandleAll(Started(1, 3, 0), events); |l.files| == 2 && |l.files[1]| == 3 - 1 + 1 + 2
  {
    events := [Message("a", c), Flush(c), Message("b", c), Message("cc", c), Message("dd", c)];
    var l1 := Log([""], "a", 1, 1, 3, 0, 0, 0);
    var l2 := Log(["a"], "", 1, 2, 3, 0, 0, 0);
    var l3 := Log(["a"], "b", 1, 3, 3, 0, 0, 0);
    var l4 := Log(["a", "bcc"], "", 1, 2, 3, 0, 0, 1);
    var l5 := Log(["a", "bccdd"], "", 1, 4, 3, 0, 0, 1);
    assert Handle(Started(1, 3, 0), events[0]) == l1;
    assert Handle(l1, events[1]) == l2;
    assert Handle(l2, events[2]) == l3;
    var turned := Log(["a", "b"], "", 1, 0, 3, 0, 0, 1);
    assert Switch(l3, c) == turned;
    SpillNothing(turned);
    SpillNothing(l4);
    assert Append(turned, "cc").files == l4.files by { assert "b" + "cc" == "bcc"; }
    assert Append(l4, "dd").files == l5.files by { assert "bcc" + "dd" == "bccdd"; }
    assert Handle(l3, events[3]) == l4;
    assert Handle(l4, events[4]) == l5;
    assert HandleAll(l4, [events[4]]) == HandleAll(l5, []);
    assert HandleAll(l2, events[2..]) == l5 by {
      assert events[2..][1..] == [events[3], events[4]] && [events[3], events[4]][1..] == [events[4]];
    }
    assert events[1..][1..] == events[2..];
    assert HandleAll(l1, events[1..]) == HandleAll(l2, events[2..]);
  }
}
