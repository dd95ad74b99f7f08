/** When the log opens a new file, and what a flush leaves in the buffer, told from the events alone. */
module LogRotation {
  import opened LogModel

  /** Day of the last event at or past the switch time; 0 if there was none. */
  function LastDay(events: seq<Event>, switchTime: int): int {
    if events == [] then 0
    else if events[|events| - 1].at.sec >= switchTime then events[|events| - 1].at.mday
    else LastDay(events[..|events| - 1], switchTime)
  }

  /** Event `k` is the first at or past the switch time on another day than the last such event. */
  predicate DayChange(events: seq<Event>, k: nat, switchTime: int)
    requires k < |events|
  {
    switchTime > 0 && events[k].at.sec >= switchTime && events[k].at.mday != LastDay(events[..k], switchTime)
  }

  function DayChanges(events: seq<Event>, switchTime: int): nat {
    if events == [] then 0
    else
      var k := |events| - 1;
      DayChanges(events[..k], switchTime) + (if DayChange(events, k, switchTime) then 1 else 0)
  }

  /**
   * Numbers that tell what the log does: files opened, bytes pending, and the count that is compared with the switch
   * size.
   */
  datatype Tally = Tally(files: nat, pending: nat, counted: nat)

  /**
   * The count is of all bytes logged since the newest file was opened, and once more of those that went into it
   * through the buffer; what was pending when it was opened does not count.
   */
  function TallyOf(bufSize: int, switchSize: int, switchTime: int, events: seq<Event>): Tally {
    if events == [] then Tally(1, 0, 0)
    else
      var k := |events| - 1;
      var t := TallyOf(bufSize, switchSize, switchTime, events[..k]);
      var opens := DayChange(events, k, switchTime) || (switchSize > 0 && t.counted >= switchSize);
      var u := if opens then Tally(t.files + 1, 0, 0) else t;
      match events[k]
      case Flush(_) => Tally(u.files, 0, u.counted + u.pending)
      case Message(text, _) =>
        if u.pending + |text| <= bufSize then Tally(u.files, u.pending + |text|, u.counted + |text|)
        else Tally(u.files, 0, u.counted + u.pending + |text|)
  }

  /** The log agrees with the numbers. */
  ghost predicate Tallies(l: Log, bufSize: int, switchSize: int, switchTime: int, events: seq<Event>) {
    var t := TallyOf(bufSize, switchSize, switchTime, events);
    && l.bufSize == bufSize && l.switchSize == switchSize && l.switchTime == switchTime
    && Opened(l) && |l.files| == t.files && |l.pending| == t.pending && l.wSize == t.counted
    && (switchTime > 0 ==> l.swDay == LastDay(events, switchTime))
  }

  lemma OneMoreEvent(l: Log, events: seq<Event>, e: Event)
    ensures HandleAll(l, events + [e]) == Handle(HandleAll(l, events), e)
  {
    HandleAllPlus(l, events, [e]);
    assert [e][1..] == [];
  }

  lemma HandleTallies(l: Log, bufSize: int, switchSize: int, switchTime: int, events: seq<Event>, e: Event)
    requires Tallies(l, bufSize, switchSize, switchTime, events)
    ensures Tallies(Handle(l, e), bufSize, switchSize, switchTime, events + [e])
  {
    assert (events + [e])[..|events|] == events;
  }

  /**
   * In every run, after every event: as many files have been opened, as many bytes are pending and the count stands
   * as the numbers say. With a switch size of 0 or less a new file is opened exactly at each change of day.
   */
  lemma {:induction false} LogTallies(bufSize: int, switchSize: int, switchTime: int, events: seq<Event>)
    ensures var l := HandleAll(Started(bufSize, switchSize, switchTime), events);
      Tallies(l, bufSize, switchSize, switchTime, events)
    decreases |events|
  {
    if events != [] {
      var k := |events| - 1;
      LogTallies(bufSize, switchSize, switchTime, events[..k]);
      assert events == events[..k] + [events[k]];
      OneMoreEvent(Started(bufSize, switchSize, switchTime), events[..k], events[k]);
      HandleTallies(HandleAll(Started(bufSize, switchSize, switchTime), events[..k]), bufSize, switchSize, switchTime,
                    events[..k], events[k]);
    }
  }

  lemma {:induction false} TallyByDay(bufSize: int, switchSize: int, switchTime: int, events: seq<Event>)
    requires switchSize <= 0
    ensures TallyOf(bufSize, switchSize, switchTime, events).files == 1 + DayChanges(events, switchTime)
  {
    if events != [] { TallyByDay(bufSize, switchSize, switchTime, events[..|events| - 1]); }
  }

  /** Rotation by time alone, which is all the scheduler asks for: one file, and one more for each change of day. */
  lemma RotatesByDay(bufSize: int, switchSize: int, switchTime: int, events: seq<Event>)
    requires switchSize <= 0
    ensures |HandleAll(Started(bufSize, switchSize, switchTime), events).files| == 1 + DayChanges(events, switchTime)
  {
    LogTallies(bufSize, switchSize, switchTime, events);
    TallyByDay(bufSize, switchSize, switchTime, events);
  }

  /**
   * An event opens a file, for what was pending and for its own message, exactly if it is a change of day or finds
   * the count full; the files closed before stay as they are.
   */
  lemma OpensAt(bufSize: int, switchSize: int, switchTime: int, events: seq<Event>, e: Event)
    ensures var l0 := Started(bufSize, switchSize, switchTime);
      var l, l' := HandleAll(l0, events), HandleAll(l0, events + [e]);
      && |l'.files| ==
           |l.files| + (if DayChange(events + [e], |events|, switchTime)
                           || (switchSize > 0 && TallyOf(bufSize, switchSize, switchTime, events).counted >= switchSize)
                        then 1 else 0)
      && 1 <= |l.files| <= |l'.files| && l.files[..|l.files| - 1] == l'.files[..|l.files| - 1]
      && (|l'.files| > |l.files| ==> l'.files[|l.files| - 1] == l.files[|l.files| - 1])
  {
    var l0 := Started(bufSize, switchSize, switchTime);
    LogTallies(bufSize, switchSize, switchTime, events);
    LogTallies(bufSize, switchSize, switchTime, events + [e]);
    OneMoreEvent(l0, events, e);
    assert (events + [e])[..|events|] == events;
  }

  /** After a flush nothing is pending. */
  lemma FlushEmpties(l: Log, c: Clock)
    requires Opened(l)
    ensures Handle(l, Flush(c)).pending == ""
  {
  }

  /** So in a run that ends in a flush every byte logged is in a file. */
  lemma FlushedIsWritten(bufSize: int, switchSize: int, switchTime: int, events: seq<Event>, c: Clock)
    ensures var l := HandleAll(Started(bufSize, switchSize, switchTime), events + [Flush(c)]);
      l.pending == "" && Concat(l.files) == Concat(Messages(events + [Flush(c)]))
  {
    var l0 := Started(bufSize, switchSize, switchTime);
    LogTallies(bufSize, switchSize, switchTime, events);
    OneMoreEvent(l0, events, Flush(c));
    FlushEmpties(HandleAll(l0, events), c);
    var groups := Conservation(bufSize, switchSize, switchTime, events + [Flush(c)]);
    var l := HandleAll(l0, events + [Flush(c)]);
    assert Concat(l.files) + "" == Concat(l.files);
  }
}
