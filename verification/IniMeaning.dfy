/**
 * What a file means, line by line: which lines are passed over, and which section and which value every pair belongs
 * to, whatever other lines stand in between.
 */
module IniMeaning {
  import opened Options
  import opened Text
  import opened IniText
  import opened IniTheorems
  import opened IniRepeats

  // ----- lines that are passed over ------------------------------------------------------

  /** An empty line, or a comment. */
  predicate Skippable(t: string) {
    '\n' !in t && |t| <= READ_LINE && (Chomp(t) == "" || t[0] == '#' || t[0] == ';')
  }

  /** Such a line changes neither configuration, current section nor kept line. */
  lemma SkippedLine(t: string, rest: string, l: Loader) returns (l': Loader)
    requires InConf(l) && Skippable(t)
    ensures InConf(l') && l'.conf == l.conf && l'.cur == l.cur && l'.line == l.line
    ensures l'.buf[READ_LINE] == l.buf[READ_LINE]
    ensures LoadFrom(t + "\n" + rest, l) == LoadFrom(rest, l')
  {
    FirstOf(t, rest, l.buf);
    var r := LineOf(t, rest, l.buf);
    l' := l.(buf := r.buf);
    assert OnLine(l', r.len) == Next(l');
  }

  /** An empty line, for one. */
  lemma EmptyLine(rest: string, l: Loader) returns (l': Loader)
    requires InConf(l)
    ensures InConf(l') && l'.conf == l.conf && l'.cur == l.cur && l'.line == l.line
    ensures LoadFrom("\n" + rest, l) == LoadFrom(rest, l')
  {
    assert "" + "\n" + rest == "\n" + rest;
    l' := SkippedLine("", rest, l);
  }

  /** Of what is left in the line buffer only its last byte matters. */
  lemma SameBuffer(file: string, l: Loader, l': Loader)
    requires InConf(l) && InConf(l') && l' == l.(buf := l'.buf) && l'.buf[READ_LINE] == l.buf[READ_LINE]
    ensures LoadFrom(file, l') == LoadFrom(file, l)
  {
    assert l'.buf[READ_LINE..] == l.buf[READ_LINE..];
    assert ReadLine(file, l'.buf, READ_LINE) == ReadLine(file, l.buf, READ_LINE);
    var r := ReadLine(file, l.buf, READ_LINE);
    if r.Some? { assert l'.(buf := r.value.buf) == l.(buf := r.value.buf); }
  }

  function FileOf(lines: seq<string>): string {
    if lines == [] then "" else lines[0] + "\n" + FileOf(lines[1..])
  }

  function Significant(lines: seq<string>): seq<string> {
    if lines == [] then []
    else if Skippable(lines[0]) then Significant(lines[1..])
    else [lines[0]] + Significant(lines[1..])
  }

  /** A line at the front of two files. */
  lemma SameFirst(t: string, rest: string, other: string, l: Loader)
    returns (next: Option<Loader>)
    requires InConf(l) && '\n' !in t
    ensures next.None? ==> LoadFrom(t + "\n" + rest, l) == LoadFrom(t + "\n" + other, l)
    ensures next.Some? ==> InConf(next.value)
    ensures next.Some? ==> LoadFrom(t + "\n" + rest, l) == LoadFrom(rest, next.value)
    ensures next.Some? ==> LoadFrom(t + "\n" + other, l) == LoadFrom(other, next.value)
  {
    var first := t + "\n";
    assert first == t + "\n" + "";
    IndexAt(t, '\n', "");
    FirstTurn(first, rest, l);
    FirstTurn(first, other, l);
    var line := ReadLine(first, l.buf, READ_LINE);
    next := None;
    if line.Some? {
      assert line.value.rest == "";
      assert "" + rest == rest && "" + other == other;
      var turn := OnLine(l.(buf := line.value.buf), line.value.len);
      if turn.Next? { next := Some(turn.l); }
    }
  }

  /** Empty lines and comments can be taken out of a file, wherever they are. */
  lemma {:induction false} SkippedFrom(lines: seq<string>, l: Loader)
    requires InConf(l) && forall i :: 0 <= i < |lines| ==> '\n' !in lines[i]
    ensures LoadFrom(FileOf(lines), l) == LoadFrom(FileOf(Significant(lines)), l)
    decreases |lines|
  {
    if lines != [] {
      var t, rest := lines[0], lines[1..];
      if Skippable(t) {
        var l' := SkippedLine(t, FileOf(rest), l);
        SkippedFrom(rest, l');
        SameBuffer(FileOf(Significant(rest)), l, l');
      } else {
        var next := SameFirst(t, FileOf(rest), FileOf(Significant(rest)), l);
        if next.Some? { SkippedFrom(rest, next.value); }
      }
    }
  }

  /** So they do not change what is loaded. */
  lemma SkippedIsLoaded(lines: seq<string>, conf: ConfMap)
    requires forall i :: 0 <= i < |lines| ==> '\n' !in lines[i]
    ensures Load(FileOf(lines), conf) == Load(FileOf(Significant(lines)), conf)
  {
    SkippedFrom(lines, Start(conf));
  }

  // ----- the meaning of a file -----------------------------------------------------------

  /** A section line, the line of a pair, or a line to be passed over: empty, a comment, or text without `=`. */
  datatype Item = Header(name: string) | Setting(key: string, value: string) | Other(text: string)

  predicate GoodItem(it: Item) {
    match it
    case Header(name) => GoodName(name)
    case Setting(k, v) => GoodKey(k) && GoodValue(v)
    case Other(t) => Skippable(t) || Wordless(t)
  }

  /** Text that is no pair, section or comment. */
  predicate Wordless(t: string) {
    OneLine(t) && t != "" && |t| < READ_LINE && Trimmed(t, " ") && '=' !in t && '\r' !in t && t[0] != '['
  }

  function LineOfItem(it: Item): string {
    match it
    case Header(name) => "[" + name + "]"
    case Setting(k, v) => k + "=" + v
    case Other(t) => t
  }

  function LinesOf(items: seq<Item>): string {
    if items == [] then "" else LineOfItem(items[0]) + "\n" + LinesOf(items[1..])
  }

  /** Line `h` is the first section line of that name. */
  ghost predicate Opens(items: seq<Item>, h: nat, s: string) {
    h < |items| && items[h] == Header(s) && forall g :: 0 <= g < h ==> items[g] != Header(s)
  }

  /** No other section line stands between line `h` and line `i`. */
  ghost predicate Under(items: seq<Item>, h: nat, i: nat) {
    h < i <= |items| && forall j :: h < j < i ==> !items[j].Header?
  }

  /** Place `i` belongs to section `s`: only the first section line of a name opens it. */
  ghost predicate Inside(items: seq<Item>, i: nat, s: string) {
    exists h :: Opens(items, h, s) && Under(items, h, i)
  }

  /** Line `i` gives key `k` of section `s` the value `v`, unless an earlier line has done so. */
  ghost predicate Gives(items: seq<Item>, i: nat, s: string, k: string, v: string) {
    && i < |items| && items[i].Setting? && items[i].key == k && Reread(k, items[i].value) == Some(v)
    && Inside(items, i, s)
  }

  ghost predicate GivesFirst(items: seq<Item>, i: nat, s: string, k: string, v: string) {
    Gives(items, i, s, k, v) && forall j: nat, w :: Gives(items, j, s, k, w) ==> i <= j
  }

  /** `conf` has the sections of the file, and in each the keys given to it, with the value given first. */
  ghost predicate Means(items: seq<Item>, conf: ConfMap) {
    && (forall s :: s in conf <==> Header(s) in items)
    && (forall s, k :: s in conf && k in conf[s] ==> exists i :: GivesFirst(items, i, s, k, conf[s][k]))
    && (forall i, s, k, v :: Gives(items, i, s, k, v) ==> s in conf && k in conf[s])
  }

  // ----- one more line -------------------------------------------------------------------

  lemma OpensMore(items: seq<Item>, e: Item, h: nat, s: string)
    ensures Opens(items + [e], h, s) <==>
              if h < |items| then Opens(items, h, s) else h == |items| && e == Header(s) && e !in items
  {
    var more := items + [e];
    if h < |items| {
      assert forall g :: 0 <= g <= h ==> more[g] == items[g];
    } else if h == |items| {
      assert forall g :: 0 <= g < h ==> more[g] == items[g];
    }
  }

  lemma UnderMore(items: seq<Item>, e: Item, h: nat, i: nat)
    ensures i <= |items| ==> (Under(items + [e], h, i) <==> Under(items, h, i))
    ensures Under(items + [e], h, |items| + 1) <==>
              h == |items| || (!e.Header? && Under(items, h, |items|))
  {
    var more := items + [e];
    assert forall j :: 0 <= j < |items| ==> more[j] == items[j];
    assert more[|items|] == e;
  }

  lemma InsideMore(items: seq<Item>, e: Item, i: nat, s: string)
    requires i <= |items|
    ensures Inside(items + [e], i, s) <==> Inside(items, i, s)
  {
    var more := items + [e];
    if h: nat :| Opens(items, h, s) && Under(items, h, i) {
      OpensMore(items, e, h, s);
      UnderMore(items, e, h, i);
    }
    if h: nat :| Opens(more, h, s) && Under(more, h, i) {
      OpensMore(items, e, h, s);
      UnderMore(items, e, h, i);
    }
  }

  /** Which section is open behind one more line. */
  lemma InsideAfter(items: seq<Item>, e: Item, s: string)
    ensures Inside(items + [e], |items| + 1, s) <==>
              if e.Header? then e == Header(s) && e !in items else Inside(items, |items|, s)
  {
    var more, n := items + [e], |items|;
    if h: nat :| Opens(more, h, s) && Under(more, h, n + 1) {
      OpensMore(items, e, h, s);
      UnderMore(items, e, h, n);
    }
    if e == Header(s) && e !in items {
      OpensMore(items, e, n, s);
      UnderMore(items, e, n, n);
    } else if !e.Header? && Inside(items, n, s) {
      var h: nat :| Opens(items, h, s) && Under(items, h, n);
      OpensMore(items, e, h, s);
      UnderMore(items, e, h, n);
    }
  }

  lemma GivesMore(items: seq<Item>, e: Item, i: nat, s: string, k: string, v: string)
    ensures Gives(items + [e], i, s, k, v) <==>
              if i < |items| then Gives(items, i, s, k, v)
              else i == |items| && e.Setting? && e.key == k && Reread(k, e.value) == Some(v)
                   && Inside(items, |items|, s)
  {
    if i <= |items| { InsideMore(items, e, i, s); }
  }

  /** A pair given first stays the first. */
  lemma GivesFirstMore(items: seq<Item>, e: Item, i: nat, s: string, k: string, v: string)
    requires GivesFirst(items, i, s, k, v)
    ensures GivesFirst(items + [e], i, s, k, v)
  {
    GivesMore(items, e, i, s, k, v);
    forall j: nat, w | Gives(items + [e], j, s, k, w) ensures i <= j { GivesMore(items, e, j, s, k, w); }
  }

  /** What the loader has of the lines so far. */
  ghost predicate Knows(items: seq<Item>, l: Loader) {
    InConf(l) && Means(items, l.conf) && forall s :: l.cur == Some(s) <==> Inside(items, |items|, s)
  }

  /** A line that gives nothing: a pair outside all sections or without value, or a line passed over. */
  ghost predicate Idle(items: seq<Item>, e: Item) {
    !e.Header? && (e.Setting? ==> Reread(e.key, e.value).None? || forall s :: !Inside(items, |items|, s))
  }

  lemma IdleKnown(items: seq<Item>, e: Item, l: Loader, l': Loader)
    requires Knows(items, l) && Idle(items, e) && InConf(l') && l'.conf == l.conf && l'.cur == l.cur
    ensures Knows(items + [e], l')
  {
    var more := items + [e];
    forall s ensures Inside(more, |more|, s) <==> Inside(items, |items|, s) { InsideAfter(items, e, s); }
    forall s ensures Header(s) in more <==> Header(s) in items {}
    forall s, k | s in l.conf && k in l.conf[s] ensures exists i :: GivesFirst(more, i, s, k, l.conf[s][k]) {
      var i: nat :| GivesFirst(items, i, s, k, l.conf[s][k]);
      GivesFirstMore(items, e, i, s, k, l.conf[s][k]);
    }
    forall i: nat, s, k, v | Gives(more, i, s, k, v) ensures s in l.conf && k in l.conf[s] {
      GivesMore(items, e, i, s, k, v);
    }
  }

  lemma HeaderKnown(items: seq<Item>, name: string, l: Loader, l': Loader)
    requires Knows(items, l) && InConf(l')
    requires if name in l.conf then l'.conf == l.conf && l'.cur == None
             else l'.conf == l.conf[name := map[]] && l'.cur == Some(name)
    ensures Knows(items + [Header(name)], l')
  {
    var e := Header(name);
    var more := items + [e];
    forall s ensures Inside(more, |more|, s) <==> e == Header(s) && e !in items { InsideAfter(items, e, s); }
    forall s ensures Header(s) in more <==> Header(s) in items || s == name {
      if Header(s) in items { var g :| 0 <= g < |items| && items[g] == Header(s); assert more[g] == Header(s); }
      if s == name { assert more[|items|] == Header(s); }
    }
    forall s, k | s in l'.conf && k in l'.conf[s] ensures exists i :: GivesFirst(more, i, s, k, l'.conf[s][k]) {
      var i: nat :| GivesFirst(items, i, s, k, l.conf[s][k]);
      GivesFirstMore(items, e, i, s, k, l.conf[s][k]);
    }
    forall i: nat, s, k, v | Gives(more, i, s, k, v) ensures s in l'.conf && k in l'.conf[s] {
      GivesMore(items, e, i, s, k, v);
    }
  }

  lemma PairKnown(items: seq<Item>, k: string, v: string, w: string, l: Loader, l': Loader)
    requires Knows(items, l) && l.cur.Some? && Reread(k, v) == Some(w) && InConf(l') && l'.cur == l.cur
    requires l'.conf == l.conf[l.cur.value := InsertVal(l.conf[l.cur.value], k, w)]
    ensures Knows(items + [Setting(k, v)], l')
  {
    var e, c := Setting(k, v), l.cur.value;
    var more, n := items + [e], |items|;
    forall s ensures Inside(more, |more|, s) <==> Inside(items, n, s) { InsideAfter(items, e, s); }
    forall s ensures Header(s) in more <==> Header(s) in items {}
    forall s, j | s in l'.conf && j in l'.conf[s] ensures exists i :: GivesFirst(more, i, s, j, l'.conf[s][j]) {
      if j in l.conf[s] {
        var i: nat :| GivesFirst(items, i, s, j, l.conf[s][j]);
        GivesFirstMore(items, e, i, s, j, l.conf[s][j]);
      } else {
        GivesMore(items, e, n, c, k, w);
        forall i: nat, x | Gives(more, i, c, k, x) ensures n <= i { GivesMore(items, e, i, c, k, x); }
        assert GivesFirst(more, n, c, k, w);
      }
    }
    forall i: nat, s, j, x | Gives(more, i, s, j, x) ensures s in l'.conf && j in l'.conf[s] {
      GivesMore(items, e, i, s, j, x);
    }
  }

  // ----- loading the lines ---------------------------------------------------------------

  /** The line of a section that is there already. */
  lemma SectionAgain(l: Loader, name: string, len: nat)
    requires InConf(l) && GoodName(name) && name in l.conf
    requires CString(l.buf) == Some("[" + name + "]") && l.buf[0] == '[' && len > 0
    ensures OnLine(l, len) == Next(l.(line := "[" + name + "]", cur := None))
  {
    var t := "[" + name + "]";
    TrimmedStays(t, " ");
    assert t[1..] == name + "]" + "";
    IndexAt(name, ']', "");
    assert t[1..|name| + 1] == name;
  }

  lemma HeaderLoads(name: string, rest: string, l: Loader) returns (l': Loader)
    requires InConf(l) && GoodName(name)
    ensures InConf(l') && LoadFrom("[" + name + "]" + "\n" + rest, l) == LoadFrom(rest, l')
    ensures if name in l.conf then l'.conf == l.conf && l'.cur == None
            else l'.conf == l.conf[name := map[]] && l'.cur == Some(name)
  {
    if name in l.conf {
      var l1, len := LoadLine("[" + name + "]", rest, l);
      SectionAgain(l1, name, len);
      l' := OnLine(l1, len).l;
    } else {
      l' := SectionOpens(name, rest, l);
    }
  }

  lemma OtherLoads(t: string, rest: string, l: Loader) returns (l': Loader)
    requires InConf(l) && GoodItem(Other(t))
    ensures InConf(l') && l'.conf == l.conf && l'.cur == l.cur && LoadFrom(t + "\n" + rest, l) == LoadFrom(rest, l')
  {
    if Skippable(t) {
      l' := SkippedLine(t, rest, l);
    } else {
      var l1, len := LoadLine(t, rest, l);
      TrimmedStays(t, " ");
      assert IndexOf(t, '=') == |t|;
      l' := OnLine(l1, len).l;
    }
  }

  /** One line, whatever it is. */
  lemma ItemLoads(items: seq<Item>, e: Item, rest: string, l: Loader) returns (l': Loader)
    requires Knows(items, l) && GoodItem(e)
    ensures Knows(items + [e], l') && LoadFrom(LineOfItem(e) + "\n" + rest, l) == LoadFrom(rest, l')
  {
    match e
    case Header(name) =>
      l' := HeaderLoads(name, rest, l);
      HeaderKnown(items, name, l, l');
    case Other(t) =>
      l' := OtherLoads(t, rest, l);
      IdleKnown(items, e, l, l');
    case Setting(k, v) =>
      if l.cur.None? {
        l' := KeyIgnored(l, k, v, rest);
        IdleKnown(items, e, l, l');
      } else {
        l' := PairLoads(k, v, rest, l);
        SettingKnown(items, k, v, l, l');
      }
  }

  lemma SettingKnown(items: seq<Item>, k: string, v: string, l: Loader, l': Loader)
    requires Knows(items, l) && l.cur.Some? && InConf(l') && l'.cur == l.cur
    requires l'.conf == l.conf[l.cur.value := Added(l.conf[l.cur.value], k, v)]
    ensures Knows(items + [Setting(k, v)], l')
  {
    match Reread(k, v)
    case None =>
      assert l'.conf == l.conf;
      IdleKnown(items, Setting(k, v), l, l');
    case Some(w) => PairKnown(items, k, v, w, l, l');
  }

  lemma NoItem(before: seq<Item>, tail: string)
    ensures before + [] == before && LinesOf([]) + tail == tail
  {
  }

  lemma FirstItem(before: seq<Item>, items: seq<Item>, tail: string)
    requires items != []
    ensures LinesOf(items) + tail == LineOfItem(items[0]) + "\n" + (LinesOf(items[1..]) + tail)
    ensures before + [items[0]] + items[1..] == before + items
  {
  }

  /** All lines, and a text behind them. */
  lemma {:induction false} ItemsLoad(before: seq<Item>, items: seq<Item>, tail: string, l: Loader)
    returns (l': Loader)
    requires Knows(before, l) && forall i :: 0 <= i < |items| ==> GoodItem(items[i])
    ensures Knows(before + items, l') && LoadFrom(LinesOf(items) + tail, l) == LoadFrom(tail, l')
    decreases |items|
  {
    if items == [] {
      NoItem(before, tail);
      l' := l;
    } else {
      FirstItem(before, items, tail);
      var l1 := ItemLoads(before, items[0], LinesOf(items[1..]) + tail, l);
      l' := ItemsLoad(before + [items[0]], items[1..], tail, l1);
    }
  }

  lemma NothingKnown()
    ensures Knows([], Start(map[]))
  {
  }

  /** From the start, with any text behind. */
  lemma FileLoads(items: seq<Item>, tail: string) returns (l: Loader)
    requires forall i :: 0 <= i < |items| ==> GoodItem(items[i])
    ensures Knows(items, l) && Load(LinesOf(items) + tail, map[]) == LoadFrom(tail, l)
  {
    NothingKnown();
    l := ItemsLoad([], items, tail, Start(map[]));
    assert [] + items == items;
  }

  /**
   * What a file means. However sections, pairs, comments, empty lines and other text are mixed: loading it gives the
   * sections named, and in each the pairs behind its first section line up to the next one, the first value of a key
   * staying.
   */
  lemma FileMeans(items: seq<Item>) returns (conf: ConfMap)
    requires forall i :: 0 <= i < |items| ==> GoodItem(items[i])
    ensures Load(LinesOf(items), map[]) == Loaded(conf) && Means(items, conf)
  {
    var l := FileLoads(items, "");
    assert LinesOf(items) + "" == LinesOf(items);
    NoLine("", l);
    conf := l.conf;
  }

  /** That leaves no choice. */
  lemma MeaningIsUnique(items: seq<Item>, a: ConfMap, b: ConfMap)
    requires Means(items, a) && Means(items, b)
    ensures a == b
  {
    forall s | s in a ensures s in b && a[s] == b[s] {
      forall k ensures k in a[s] <==> k in b[s] {
        if k in a[s] { var i: nat :| GivesFirst(items, i, s, k, a[s][k]); }
        if k in b[s] { var i: nat :| GivesFirst(items, i, s, k, b[s][k]); }
      }
      forall k | k in a[s] ensures a[s][k] == b[s][k] {
        var i: nat :| GivesFirst(items, i, s, k, a[s][k]);
        var j: nat :| GivesFirst(items, j, s, k, b[s][k]);
      }
    }
  }

  // ----- lines that end it ---------------------------------------------------------------

  /** A section line without `]` makes the load fail, with what has been read so far. */
  lemma OpenHeaderFails(items: seq<Item>, name: string, rest: string) returns (conf: ConfMap)
    requires forall i :: 0 <= i < |items| ==> GoodItem(items[i])
    requires OneLine(name) && ']' !in name && '\r' !in name && |name| < READ_LINE - 1 && Trimmed("[" + name, " ")
    ensures Load(LinesOf(items) + ("[" + name + "\n" + rest), map[]) == Malformed(conf) && Means(items, conf)
  {
    var t := "[" + name;
    var l := FileLoads(items, t + "\n" + rest);
    var l1, len := LoadLine(t, rest, l);
    TrimmedStays(t, " ");
    assert t[1..] == name;
    conf := l.conf;
  }

  /** A line that is too long ends it, without failure: nothing behind it is read. */
  lemma LongLineEnds(items: seq<Item>, t: string, rest: string) returns (conf: ConfMap)
    requires forall i :: 0 <= i < |items| ==> GoodItem(items[i])
    requires '\n' !in t && |t| > READ_LINE + 1
    ensures Load(LinesOf(items) + (t + "\n" + rest), map[]) == Loaded(conf) && Means(items, conf)
  {
    var l := FileLoads(items, t + "\n" + rest);
    IndexAt(t, '\n', rest);
    NoLine(t + "\n" + rest, l);
    conf := l.conf;
  }

  lemma LongPairLine(l: Loader, k: string, v: string, len: nat)
    requires InConf(l) && l.cur.Some? && len > 0 && k != "" && l.buf[0] == k[0]
    requires CString(l.buf) == Some(k + "=" + v) && Trimmed(k + "=" + v, " ") && |k| + |v| + 1 < READ_LINE
    requires k[0] !in {'[', '#', ';'} && '=' !in k && v != "" && (|k| >= MAX_KEY || |v| >= MAX_VALUE)
    ensures OnLine(l, len) == Stop(Overrun)
  {
    var t := k + "=" + v;
    TrimmedStays(t, " ");
    IndexAt(k, '=', v);
    assert t[0] == k[0];
  }

  /** In a section, a key or a value that does not fit its buffer overruns it. */
  lemma LongPairOverruns(items: seq<Item>, s: string, k: string, v: string, rest: string)
    requires (forall i :: 0 <= i < |items| ==> GoodItem(items[i])) && Inside(items, |items|, s)
    requires OneLine(k + "=" + v) && '=' !in k && '\r' !in v && v != "" && |k| + |v| + 1 < READ_LINE
    requires k != "" && k[0] !in {'[', '#', ';'} && Trimmed(k + "=" + v, " ")
    requires |k| >= MAX_KEY || |v| >= MAX_VALUE
    ensures Load(LinesOf(items) + (k + "=" + v + "\n" + rest), map[]) == Overrun
  {
    var l := FileLoads(items, k + "=" + v + "\n" + rest);
    var l1, len := LoadLine(k + "=" + v, rest, l);
    LongPairLine(l1, k, v, len);
  }
}
