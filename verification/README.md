# Verified model of a program scheduler and its data structures

`mysch` starts programs in a configured order, restarts watched ones and stops them outside their
time windows. This project models its logic in Dafny 4.11 and proves what the code keeps and promises.
`dafny verify dfyconfig.toml` checks everything.

Strings are sequences of characters that stand for bytes; a C string has no NUL in it. Code that
changes objects, buffers and pointers is modelled by classes and loops, each proved equal to a function
on values; the theorems about all inputs, runs and reachable states are lemmas about those functions.

| file | what it models |
|---|---|
| `Bits.dfy` | the capacity of a table, and `hash & sizemask` |
| `DictModel.dfy`, `DictTheorems.dfy`, `DictRehash.dfy`, `DictGrowth.dfy` | the hash table as a value, its invariant, the finite map it stands for, migration, load and growth |
| `DictIter.dfy`, `DictSafeIter.dfy` | iteration while the table changes |
| `DictSweep.dfy`, `DictMidSweep.dfy`, `DictReached.dfy` | deleting under a plain iterator, with and without a migration under way, and a table that is reached where it stops short |
| `Dicts.dfy`, `DictIterators.dfy`, `SafeWalk.dfy`, `CleanProcess.dfy` | the linked table, its iterators, a caller's loop over a safe one, and emptying the table of waiting processes |
| `DList.dfy` | the intrusive list |
| `Sched.dfy`, `SchedTheorems.dfy`, `SchedWaiting.dfy`, `SchedStamps.dfy`, `SchedProgress.dfy` | the scheduler as a state machine, what all its runs keep, the table of waiting processes, time stamps, and what every tick achieves |
| `Scheduler.dfy`, `ProgQueue.dfy` | the endless loop as a run of that machine, and the queue it starts with |
| `Match.dfy`, `Text.dfy`, `Conditions.dfy` | wildcard matching, splitting and trimming, RUN_TIME conditions |
| `IniText.dfy`, `IniTheorems.dfy`, `IniRepeats.dfy`, `IniReached.dfy`, `IniMeaning.dfy`, `IniFiles.dfy` | reading and writing INI files |
| `LogModel.dfy`, `LogRotation.dfy`, `LogFiles.dfy` | the buffered, rotating log file |

## Where the code differs from what is written about it

- The sample configuration (`mysch.conf:14`) shows the windows 23:30-16:30 and 00:00-8:30. `build_condition`
  refuses both, and the whole line with them (`Conditions.SampleRefused`): a window must end later than it starts
  (`Conditions.WindowRoundTrip`, both ways), and every time has five characters.
- A `forkperiod` program is described (`mysch.conf:13-16`) as run at intervals given in seconds; the code reads
  the number as minutes (`Conditions.PeriodIsMinutes`), and its condition also holds at that very second of the day
  (`Conditions.PeriodDecision`). But there is no interval: the branch at `mysch.c:652-667` falls through, and on its
  first visit the program is started, inside its window or not, and removed from the queue
  (`SchedWaiting.PeriodLeavesAtOnce`, `SchedTheorems.OthersRunOnce`).
- A process that is stopped outside its windows stays in `waitq` for ever (`SchedWaiting.StoppedStaysRegistered`): the
  `dict_delete` at `mysch.c:701` is given the bytes of a pointer for its key. `handle_sigchild` always finds the entry
  of the child it has waited for, and writes the time into that program's record; the record is still queued, and not
  freed, if and only if the program is a watched one or the fork-first program at the head
  (`SchedWaiting.StampedIsQueued`).
- After a failed bracket set `match` skips a start, or follows a retry pointer that is NULL or past the text.
  Acceptance is right for every pattern, and the answer is exact on every text on which no closed set fails
  (`Match.WholeRun`), so always for patterns without closed sets. If the first closed set has no `*` before it, or
  directly follows one, there is a text on which the loop faults (`Match.UnguardedSetFaults`); for `*c[set]` the loop
  is right on all texts if and only if `c` is a member or nothing is (`Match.StarCharSetExact`).
- `ini_load` ends, without failure, at a line that is too long or has no line end (`IniTheorems.UnreadableEnds`), and
  takes no keys behind a second section line of the same name (`IniMeaning.FileMeans`). A line that `trim` refuses,
  because it is all spaces or too long, is handled by handling the line before it again. In every state the loop can
  reach that changes nothing
  if and only if the line before is not a section line whose section takes keys (`IniRepeats.RepeatHarmless`);
  otherwise the section takes none of the keys behind it (`IniRepeats.FailingLineLosesKeys`).
- What loading can produce is exactly the configurations whose names, keys and values are clean
  (`IniReached.LoadableIsLoaded`), among them keys that begin with `#` or `;` and values that end in a carriage return:
  they come from an indented line with a carriage return before its end (`IniReached.LooseIsLoaded`). Those do not survive
  being saved and loaded again, and all others do (`IniTheorems.RoundTrip`).
- `clean_proccess` can leave processes in the table if it is called while a migration is under way. When all
  remaining old chains have at most one entry it takes the old entries and the first non-empty chain of the new table,
  and so empties the table if and only if there is at most one such chain (`DictMidSweep.MidSweep`). After five
  successive pids, 100 to 104 for example, are registered and two of them reaped, it leaves two of the other three
  (`DictReached.ShortSweep`).

## Model

| member | source | states |
|---|---|---|
| Bits.NextPower64 | dict.c:618-631 | for every 64-bit size below LONG_MAX the doubling loop ends without wrapping, with the capacity `NextPower` gives; otherwise it clamps |
| Bits.NextPowerIsLeast | dict.c:618-631 | that capacity is the least power of two that is at least 4 and at least the size |
| Bits.MaskedIndex | dict.c:654 | with a power-of-two capacity `hash & sizemask` is `hash mod size`, hence a bucket of the table |
| DictModel.ScanStaysInside | dict.c:206-214 | while old entries remain, the scan of `dict_rehash` for a non-empty bucket stops inside the table |
| DictModel.RehashOneKeeps | dict.c:191-233 | moving a bucket or finishing keeps the invariant and every lookup |
| DictModel.AddKeeps | dict.c:273-304 | adding keeps the invariant: every entry in its bucket, no key twice or in both tables, right counts, moved buckets empty |
| DictModel.DeleteKeeps | dict.c:336-381 | deleting keeps the invariant and changes only the lookup of that key |
| DictTheorems.SizeIsUsed | dict.h:74-76 | the two `used` counters together are the number of keys of the map |
| DictTheorems.AddMap | dict.c:273-304 | `dict_add` succeeds exactly for an absent key, and then the map has gained exactly that pair |
| DictTheorems.ReplaceMap | dict.c:310-333 | `dict_replace` binds the key to the value, whatever table it is in, and reports whether it was new |
| DictTheorems.FindReply | dict.c:433-462 | `dict_find` answers what the map says |
| DictTheorems.DeleteMap | dict.c:336-381 | `dict_delete` removes exactly that key and succeeds exactly if it was there |
| DictTheorems.ExpandMap | dict.c:144-185 | starting a migration leaves the map unchanged |
| DictTheorems.RehashMap | dict.c:191-233 | any number of migration steps leave the map unchanged |
| DictTheorems.RunRefinesMap | dict.c:144-462 | over any sequence of operations the two tables reply and end up as one finite map would |
| DictRehash.RehashOneProgress | dict.c:191-233 | one pass empties exactly one non-empty bucket, or finishes if there is none |
| DictRehash.RehashFinishes | dict.c:191-233 | `dict_rehash(d, n)` is still migrating, and returns 1, exactly if `n` does not exceed the non-empty old buckets |
| DictRehash.RehashComposes | dict.c:191-233 | `a` steps and then `b` steps are `a + b` steps |
| DictRehash.LoadBound | dict.c:266-304 | in any run of add, replace, find and delete the keys exceed the capacity of the table taking inserts by at most one, and with resizing disabled at times never six times that capacity |
| DictGrowth.ExpandCapacity | dict.c:157-185 | `dict_expand` succeeds exactly with no migration under way and the keys within the size, and then into the least power of two that is at least 4 and at least the size |
| DictGrowth.ResizeCapacity | dict.c:144-154 | `dict_resize` goes to the least power of two that is at least 4 and at least the keys |
| DictGrowth.AddCapacity | dict.c:593-615 | an insertion grows the table exactly if no migration goes on and the keys fill the capacity (six times over with resizing disabled), and then to the least power of two that is at least 4 and twice the keys |
| DictGrowth.AddAtHead | dict.c:288-303 | a new entry is the first of its chain, and no other chain has changed by it |
| DictGrowth.CapacityBound | dict.c:593-615 | in any run of add, replace, find and delete the capacity is at most 4 or some prefix held more keys than a quarter of it |
| DictGrowth.MigrationEnds | dict.c:259-270 | a migration is over at the latest after one add, replace, find or delete more than there were non-empty old buckets |
| DictIter.NextPending | dict.c:493-531 | `dict_next` returns an entry still to come and takes exactly it off what is to come; NULL means nothing is |
| DictSafeIter.SafeIteration | dict.c:485-531 | under any interleaving of find, add, replace, expand, resize and delete of the entry just returned, nothing is returned twice and at NULL everything present at the start was returned or deleted |
| DictSafeIter.AdvanceSound | dict.c:266-270 | each such event keeps what is still to come disjoint from what was returned |
| SafeWalk.Walk | dict.c:485-538 | on the linked table: a caller that finds, adds, replaces, expands, resizes or deletes the current entry between calls is given no entry twice, and every key of the start unless it stops early; the map is what its acts make of it, and the count of iterators is as before |
| DictSweep.SweepTurn | mysch.c:498-512 | with no migration under way, deleting the entry a plain iterator just returned leaves all others ahead of it |
| DictSweep.SweepStops | mysch.c:498-512 | when that iterator returns NULL the map is empty |
| DictSweep.TurnKeeps | mysch.c:498-512 | in any state, also during migration: the entry returned is in the map, and deleting it leaves the saved successor in the table |
| DictSweep.IdleSweep | mysch.c:498-512 | a sweep begun with no migration under way leaves nothing |
| DictMidSweep.SwapSweep | mysch.c:498-512 | with only the swap of a migration to come, it takes exactly the first non-empty chain of the second table |
| DictMidSweep.MidSweep | mysch.c:498-512 | begun during migration with old chains of at most one entry, it leaves exactly the other chains of the second table, hence nothing if and only if at most one is non-empty |
| DictReached.ShortSweep | mysch.c:494-515 | tables reached by five registrations and two reapings, from which the sweep takes one of three entries |
| DictTheorems.HashIsBernstein | dict.c:90-97 | the hash is the polynomial 33 in the bytes from 5381 on, reduced once to 32 bits |
| Dicts.GenHash | dict.c:90-97 | the byte loop computes that hash |
| Dicts.Dict.constructor | dict.c:122-140 | a new table is valid and empty |
| Dicts.Dict.Expand | dict.c:157-185 | new bucket array of the least sufficient power of two, or refusal; the map is unchanged |
| Dicts.Dict.Resize | dict.c:144-154 | shrinks to the entries, at least 4; the map is unchanged |
| Dicts.Dict.MoveBucket | dict.c:206-229 | the scan and the loop that relinks each entry of a bucket into the new array are `RehashOne` |
| Dicts.Dict.Rehash | dict.c:191-233 | the linked tables after `n` passes are `Rehash` of what they were, and the result tells whether migration goes on |
| Dicts.Dict.ExpandIfNeeded | dict.c:593-615 | grows when full, or past five entries a bucket with resizing disabled, and never during migration: as `DictGrowth.AddCapacity` says |
| Dicts.Dict.KeyIndex | dict.c:639-670 | the bucket for a new key in the table taking inserts, or -1 exactly if the key is in either table |
| Dicts.Dict.Add | dict.c:273-304 | inserts at the head of the right chain exactly if the key is absent; the map gains exactly that pair |
| Dicts.Dict.Find | dict.c:433-462 | returns the entry with the key and its value, NULL exactly if the key is absent |
| Dicts.Dict.FetchValue | dict.c:464-470 | the value of the key in the map |
| Dicts.Dict.Replace | dict.c:310-333 | afterwards the map binds the key to the value; true exactly if it was absent |
| Dicts.Dict.Delete | dict.c:336-381 | unlinks the entry from whichever table holds it; the map loses exactly that key |
| DictIterators.Iterator.Next | dict.c:493-531 | the pointer iterator moves as `DictIter.Next`, and registers itself on its first call if safe |
| DictIterators.Iterator.Release | dict.c:533-538 | deregisters a safe iterator exactly if it was ever advanced |
| CleanProcess.CleanProcess | mysch.c:494-515 | whatever the state of the table, it signals if asked, and removes, exactly the keys of the sweep, each once; everything with no migration under way, and exactly as `MidSweep` says with one |
| DLists.DList.AddHead | dlist.c:81-99 | the list's sequence gains the value in front; links, head, tail and length agree with the sequence |
| DLists.DList.AddTail | dlist.c:107-125 | it gains the value at the end |
| DLists.DList.Insert | dlist.c:127-154 | it gains the value before or after the given node |
| DLists.DList.Delete | dlist.c:160-174 | it loses exactly the given node |
| DLists.DList.Index | dlist.c:317-329 | the node at the index, from the head or, negative, from the tail; NULL outside |
| DLists.DList.Rotate | dlist.c:332-345 | the last node becomes the first |
| DLists.DList.Apart | dlist.c:81-174 | consistent links alone make all nodes distinct |
| DLists.ListIter.Next | dlist.c:223-234 | returns the node at the iterator's position and moves one on in its direction |
| DLists.VisitDeleting | dlist.c:223-234 | an iteration that deletes some of the nodes just returned visits the original sequence once, in order, and leaves the others |
| SchedTheorems.VisitKeeps | mysch.c:632-708 | one turn of the queue loop keeps the invariant: order of the queue, launches recorded, one process for a program, fork-first programs ahead |
| SchedTheorems.StepKeeps | mysch.c:609-712 | every step of the machine keeps the invariant over queue, launches, processes and clock |
| SchedTheorems.RunKeeps | mysch.c:609-712 | and so does every run |
| SchedTheorems.FirstBarrier | mysch.c:632-650 | nothing but fork-first programs is started while one is queued |
| SchedTheorems.GuardNeverTaken | mysch.c:668-674 | the guard in the watch branch never finds a fork-first program at the head |
| SchedTheorems.FirstInOrder | mysch.c:634-650 | fork-first programs are started in queue order, each at most once |
| SchedTheorems.FirstEndsBeforeNext | mysch.c:640-650 | one without pid file is gone before anything else is started, and stays gone |
| SchedTheorems.OneInstance | mysch.c:676-690 | of two launches of a program the earlier process is gone in every reachable state |
| SchedTheorems.OthersRunOnce | mysch.c:652-667 | only watched programs are ever started twice |
| SchedWaiting.WaitAgrees | mysch.c:554-564 | in every reached state each child still to be waited for is registered in `waitq`, every entry names the program its process was started for, and a queued program without process has no time stamp |
| SchedWaiting.ReapStamps | mysch.c:460-477 | whatever child is waited for, `waitq` has its program; that program, if queued, and no other gets the time, and the entry goes |
| SchedWaiting.StampedIsQueued | mysch.c:460-477 | the program of a registered process is still queued exactly if it is a watched one or the fork-first head |
| SchedWaiting.PeriodLeavesAtOnce | mysch.c:652-667 | a period program leaves the queue on its first visit, whatever its window, and is started on it |
| SchedWaiting.StoppedStaysRegistered | mysch.c:688-702 | a process stopped outside its windows is in `waitq` in every later state |
| SchedStamps.StampIsLatest | mysch.c:469-570 | in every reached state the time stamp of a queued program is the time of its latest launch or of the latest waiting for one of its processes in the run, or 0 |
| SchedStamps.WatchVisit | mysch.c:668-704 | so a visit launches a watched program exactly if the clock is in a window, its processes are gone and more than the sleep time has passed since all its launches and reapings; outside its windows it stops its processes and no others |
| SchedProgress.TickServes | mysch.c:629-711 | from every reached state a complete tick visits the queued programs in order at one clock, all of them or up to a fork-first one; each visit launches, awaits, leaves, stops or removes as the launches, reapings and processes so far demand, and touches no other process |
| SchedProgress.EveryTickServes | mysch.c:609-714 | in every run that ends between ticks, each beginning of a tick begins a complete one, and that serves the queue |
| SchedTheorems.Throttled | mysch.c:520-530 | two launches of the same program are more than `sleep_time` seconds apart, whatever time stamps exits leave |
| SchedTheorems.InsideWindows | mysch.c:668-704 | between ticks, also after one cut short, every process a watched program started is gone or inside a window of that program |
| SchedTheorems.QueueStaysSorted | mysch.c:650-667 | every tick preserves the order by flag |
| SchedTheorems.WatchedStay | mysch.c:668-704 | the watched programs, with their windows, are the same and in the same order after every run |
| Schedulers.Scheduler.RunProg | mysch.c:517-574 | updates pid and time stamp and launches, or pauses and leaves both alone, as `SchedStamps.WatchVisit` says |
| Schedulers.Scheduler.VisitFirst | mysch.c:634-650 | the fork-first branch on the linked queue is `VisitNode`: launch and break off, wait and break off, or remove |
| Schedulers.Scheduler.VisitOnce | mysch.c:652-667 | the once and period branch is `VisitNode`, with the node removed under the iterator |
| Schedulers.Scheduler.VisitWatch | mysch.c:668-704 | the watch branch is `VisitNode`: start, leave, or terminate |
| Schedulers.Scheduler.Reap | mysch.c:464-477 | one turn of the loop: 0 exactly if no child has ended, else a `Reap` step of one that has, through `waitq` |
| Schedulers.Scheduler.ReapAll | mysch.c:460-477 | the loop reaps exactly the children that had ended, and none is left |
| Schedulers.Scheduler.Round | mysch.c:611-711 | one round reaps the ended children if SIGCHLD was caught and then makes exactly one tick, at its clock |
| Schedulers.Scheduler.Tick | mysch.c:629-711 | one pass over the queue, with processes going away at any time, is exactly one tick of the machine |
| Schedulers.Scheduler.MyTask | mysch.c:609-714 | from an initial state any number of rounds is a run of the machine with exactly one tick for each round, at that round's clock, and its state is sound |
| ProgQueue.Enqueue | mysch.c:276-293 | the loop inserts before the first program with a greater flag |
| ProgQueue.QueuedIsStableSort | mysch.c:276-293 | the queue is sorted by flag, holds the configured programs, and keeps the configured order within each flag |
| ProgQueue.StableSortIsUnique | mysch.c:276-293 | there is only one such order |
| ProgQueue.LoadConf | mysch.c:276-305 | the scheduler starts valid, nothing started, with that queue for any configuration; it is an initial state of the machine if no watched program has a pid file |
| Match.MatchPattern | util.c:294-389 | terminates; accepts only texts in the pattern's language, and exactly those unless a closed set fails on the way |
| Match.WholeRun | util.c:294-389 | the same of the loop as a function, and no set fails if the pattern has no closed one |
| Match.Sound | util.c:294-389 | from every state of the loop acceptance implies a match from there or from a later start of the last star |
| Match.Exact | util.c:294-389 | as long as no set fails the converse too, from every state: retrying only the last star loses nothing |
| Match.ScanSet | util.c:316-334 | the set loop finds the end of the set and whether the character is one of its members |
| Match.SetLosesAMatch | util.c:335-340 | `*[a]` should match "ba" and does not |
| Match.SetFaults | util.c:335-340 | a failed set with no star before it goes through a NULL pointer |
| Match.UnguardedSetFaults | util.c:335-340 | every pattern whose first closed set has no star before it, or directly follows one, has a text on which the loop faults |
| Match.StarCharSetExact | util.c:335-340 | the loop is right on all texts for `*c[set]` exactly if `c` is in the set or the set is empty |
| Text.Split | util.c:391-426 | the pieces between delimiters; refused exactly if one but the last is too long for its slot or there are too many, overrun exactly if the last does not fit what is left of the array |
| Text.SplitFits | util.c:391-426 | refusal exactly if a piece before the last would not end in its own slot of the array, overrun exactly if only the last would not end in the array |
| Text.JoinOfParts | util.c:391-426 | the pieces contain no delimiter and joined give the text |
| Text.PartsOfJoin | util.c:391-426 | any delimiter-free pieces are recovered from their join |
| Text.Trim | util.c:488-501 | both ends stripped, or failure exactly if nothing is left or it is too long, with what the destination then holds |
| Text.TrimLeft | util.c:428-455 | what is left of the text after its leading trimmable characters; fails exactly if empty or too long, with the destination kept or zeroed |
| Text.TrimRight | util.c:457-486 | likewise at the end |
| Text.TrimIs | util.c:488-501 | trimming removes only trimmable characters and leaves none at either end |
| Conditions.JudgeCondition | mysch.c:319-358 | true for flags up to 0; for watched programs exactly if the weekday (Sunday as 7) and second are in one of the windows |
| Conditions.BuildCondition | mysch.c:359-458 | accepts, refuses or overruns as the parser on text does |
| Conditions.BuildIsProper | mysch.c:378-447 | every accepted condition has days within 1..7, and 0 <= start < end <= 86400 or, for a period program, a number of whole minutes |
| Conditions.AtoiReads | mysch.c:398-420 | numbers are read behind leading blanks and a sign, whatever follows the digits |
| Conditions.WindowGrammar | mysch.c:378-430 | any text is accepted exactly if it spells three characters of days and two times of five characters, in range, and then as that window |
| Conditions.ListGrammar | mysch.c:359-458 | and a whole text exactly if it is a list of 1 to 128 such texts joined by bars, and then as those windows |
| Conditions.WindowRoundTrip | mysch.c:378-447 | a printed window is parsed back as itself if it is valid, and refused if it is not |
| Conditions.AcceptsPrinted | mysch.c:359-458 | any 1 to 128 windows, printed and joined, give exactly those windows if all are valid, and are refused otherwise, for every flag but period |
| Conditions.SampleRefused | mysch.c:378-447 | the windows 23:30-16:30 and 00:00-8:30 of the sample configuration are refused, and its whole line |
| Conditions.PeriodIsMinutes | mysch.c:431-434 | days and a printed number are accepted for a period program exactly if the days are valid, and the number counts minutes |
| Conditions.PeriodDecision | mysch.c:319-358 | and then the decision is yes exactly on those days, after more than so many minutes or at that second of the day |
| Conditions.TextToDecision | mysch.c:319-458 | and then the decision at a weekday and second is yes exactly if one of the windows contains it |
| IniTheorems.RoundTrip | iniconf.c:124-234 | a configuration written in any order is loaded back as itself if and only if it is canonical |
| IniTheorems.LoadOfRender | iniconf.c:124-234 | for anything loading can produce, each pair is reread by itself: a key that looks like a comment is dropped with its value, a value loses a carriage return at its end with the spaces before it, and an emptied value its key; all else is kept |
| IniTheorems.LoadIsLoadable | iniconf.c:124-202 | whatever the file, loaded names, keys and values are one-line, trimmed, within their limits and free of their delimiters |
| IniReached.LooseIsLoaded | iniconf.c:124-202 | every such configuration, written on indented lines with a carriage return before each line end, in any order, is loaded as itself |
| IniReached.LoadableIsLoaded | iniconf.c:124-202 | so a configuration can come out of loading if and only if it is such a one |
| IniTheorems.LastLineLost | iniconf.c:27-57 | a last line without line end is never loaded |
| IniTheorems.UnreadableEnds | iniconf.c:141-144 | nothing is loaded from the first line on that is too long or has no end |
| IniMeaning.EmptyLine | iniconf.c:147-149 | from every state of the loop an empty line changes neither configuration, current section nor kept line |
| IniMeaning.SkippedIsLoaded | iniconf.c:147-149 | taking all empty lines and all lines that begin with # or ;, unless longer than 1282 characters, out of a file does not change what is loaded |
| IniMeaning.FileMeans | iniconf.c:124-202 | however section lines, pairs, comments, empty lines and other text are mixed, what is loaded are the sections named, each with the pairs behind its first section line up to the next section line, the first value of a key staying |
| IniMeaning.MeaningIsUnique | iniconf.c:124-202 | only one configuration is described by that |
| IniMeaning.OpenHeaderFails | iniconf.c:163-171 | a section line without closing bracket makes the load fail with what was read before |
| IniMeaning.LongLineEnds | iniconf.c:141-144 | a line of more than 1283 characters ends the load, without failure, with what was read before |
| IniMeaning.LongPairOverruns | iniconf.c:176-192 | in a section, a key or a value too long for its buffer overruns it |
| IniRepeats.RepeatHarmless | iniconf.c:149-152 | in every state the loop can reach, a line that `trim` refuses changes nothing if and only if the line before is not a section line whose section takes keys |
| IniRepeats.FailingLineLosesKeys | iniconf.c:149-152 | a file of a section line, a line of spaces or an over-long one, and any keys is loaded without those keys |
| IniRepeats.SampleLosesKey | iniconf.c:149-152 | a section `a`, a line of one space and `k=v` load as an empty section |
| IniFiles.ReadLine | iniconf.c:27-57 | one line into the buffer, without carriage return; -1 if too long or not ended |
| IniFiles.LoadFile | iniconf.c:124-202 | the loop over reused buffers and section objects loads what `Load` says, which `IniMeaning.FileMeans` describes |
| IniFiles.Ini.InsertSec | iniconf.c:260-278 | a new empty section, or NULL if there is one already |
| IniFiles.Section.InsertVal | iniconf.c:309-327 | adds the pair only if the key is new |
| IniFiles.SaveFile | iniconf.c:203-234 | writes every section and pair exactly once, in the order the iterators return them; what is written loads as the same configuration exactly if that is canonical |
| IniFiles.SaveSection | iniconf.c:58-77 | the same for one section |
| LogModel.Conservation | log.c:377-501 | in every run the messages fall into consecutive groups, one for each file and one pending: none lost, doubled, reordered or split over two files |
| LogModel.FilesBounded | log.c:383-501 | the pending bytes fit the buffer, and with a switch size no file exceeds it by more than buffer and longest message less one |
| LogModel.BoundReached | log.c:383-501 | for all buffer and switch sizes, with a switch time and messages longer than the buffer, a run in which a file reaches that bound |
| LogModel.BoundReachedBySize | log.c:383-501 | and one in which it does by size alone |
| LogRotation.LogTallies | log.c:443-502 | in every run files opened, bytes pending and the count compared with the switch size are what a recurrence over the events gives: bytes logged since the opening, and once more those that went through the buffer |
| LogRotation.OpensAt | log.c:443-474 | an event opens a file exactly if it is the first past the switch time on another day than the last such event, or finds the count full; the files before stay as they are |
| LogRotation.RotatesByDay | log.c:447-458 | with time rotation alone the files are one and one for each such change of day |
| LogRotation.FlushedIsWritten | log.c:540-556 | in a run that ends in a flush every byte logged is in a file |
| LogFiles.FileLog.Init | log.c:377-441 | closes the old stream, opens a new file and carries the buffered bytes into it |
| LogFiles.FileLog.Switch | log.c:443-474 | the same rotation as `LogModel.Switch`, for which `LogRotation.OpensAt` says when it opens a file |
| LogFiles.FileLog.Log | log.c:476-502 | buffers the message, or spills the buffer and writes the message behind it |
| LogFiles.FileLog.Flush | log.c:540-556 | spills the buffer (`LogRotation.FlushedIsWritten`); the stream fetched before the switch is only used while it is the open one |

## Left out

- Reload on SIGUSR1, `uninit_context`, command line, daemonising, user switching: operating-system calls.
- The processes themselves: `fork` returns a pid never used before and succeeds, `kill(pid, 0)` asks a set of present pids, in which a child stays until it is waited for; any children may end, and other processes vanish, before any turn of the queue loop.
- Schedulers.Scheduler.VisitWatch: does not model `update_pid`, which finds the process of a watched program in its pid file, so the watched programs of the machine have no pid file; fork-first programs may have one. The delete keyed by a pointer's bytes is taken to find nothing.
- Schedulers.Scheduler.Tick: the same, and the clock is read once for each round and never runs backwards.
- Schedulers.Scheduler.Reap: `waitq` is a map here, which is what `DictTheorems.RunRefinesMap` proves the table to be, and the record of a program already freed is taken not to be reused.
- Schedulers.Scheduler.MyTask: does not model the signals that reload, flush the log or end the loop, nor the final clean-up; it runs for a given number of rounds.
- ProgQueue.LoadConf: the other options that `load_conf` reads, and its exits on error, are not modelled.
- `dict_empty`, `dict_release`, `dict_get_randomKey`, statistics, `dict_rehash_milliseconds`, allocation failure, the case-insensitive and integer hash functions, the caller's freeing of keys and values. Counters are unbounded; `Bits.NextPower64` treats the machine's width.
- DictSafeIter.SafeIteration: no direct `dict_rehash` and no `dict_empty` during the iteration, which the safe iterator does not guard against.
- DictMidSweep.MidSweep: when old chains of two or more entries remain, what the sweep takes is given only by the function `DictSweep.Sweep`, not by a condition on the table.
- `list_dup`, `list_search_key`, `list_release`, `list_rewind`: the same loops with nothing more to say.
- `match` on NULL arguments.
- Match.MatchPattern: on a text on which a closed set fails, refusals are not characterised, except for the pattern shapes of `Match.UnguardedSetFaults` and `Match.StarCharSetExact`.
- Text.Split: an overrun of the destination is an outcome of its own; what is then in memory is not modelled.
- Conditions.PeriodIsMinutes: integers are unbounded; the machine's overflow from 35791395 minutes on.
- Conditions.TextToDecision: has no room limit of its own; the caller's buffer of 1024 bytes holds at most 64 such windows.
- The dicts inside an INI configuration are maps here, which is what `DictTheorems.RunRefinesMap` proves the table to be; the order in which they are saved is arbitrary.
- `ini_dump`, `ini_delete_sec`, `ini_delete_val`, `ini_destroy`; saving over a longer old file; failing reads and writes.
- IniFiles.LoadFile: after an overrun of a fixed buffer nothing is said about the configuration.
- Log levels, message formatting, the console appender, the mutex, `log_file_uninit_callback_fun`, file names (each file opened is taken to be new), failing I/O.
