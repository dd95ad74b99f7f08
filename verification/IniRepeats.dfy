/**
 * Lines on which `trim` fails: those of spaces only, and those too long for it. `ini_load` then finds the
 * line before them still in its buffer and handles that again. When is this harmless?
 */
module IniRepeats {
  import opened Options
  import opened Text
  import opened IniText
  import opened IniTheorems

  /** Where `trim` leaves its destination alone. */
  predicate TrimFails(text: string) {
    StripLeft(text, " ") == "" || |StripLeft(text, " ")| >= READ_LINE
  }

  predicate SectionKept(l: Loader) {
    l.line != "" && l.line[0] == '['
  }

  /** The kept line has had its effect: handled again it would only lose the current section, or do nothing. */
  ghost predicate Settled(l: Loader) {
    && InConf(l)
    && (l.line != "" ==> if l.line[0] == '[' then SectionDone(l) else l.cur.Some? ==> PairDone(l, l.cur.value))
  }

  ghost predicate SectionDone(l: Loader)
    requires l.line != ""
  {
    var n := IndexOf(l.line[1..], ']');
    n < |l.line| - 1 && n < MAX_KEY && l.line[1..n + 1] in l.conf
  }

  ghost predicate PairDone(l: Loader, s: string)
    requires s in l.conf
  {
    var p := PairIn(l.line);
    !p.TooBig? && (p.Pair? ==> p.key in l.conf[s])
  }

  /** The loader after the lines of a file, if the loop gets that far. */
  function LoaderAfter(file: string, l: Loader): Option<Loader>
    requires InConf(l)
    decreases |file|
  {
    if file == "" then Some(l)
    else
      match ReadLine(file, l.buf, READ_LINE)
      case None => None
      case Some(r) =>
        match OnLine(l.(buf := r.buf), r.len)
        case Next(l') => LoaderAfter(r.rest, l')
        case Stop(_) => None
  }

  lemma SectionSettles(l: Loader)
    requires InConf(l) && SectionKept(l)
    ensures var t := OnSection(l); t.Next? ==> Settled(t.l)
  {
  }

  lemma PairSettles(l: Loader, s: string)
    requires InConf(l) && l.line != "" && l.line[0] != '[' && l.cur == Some(s)
    ensures var t := OnPair(l, s); t.Next? ==> Settled(t.l)
  {
    var p := PairIn(l.line);
    if p.Pair? { assert OnPair(l, s).l.line == l.line; }
  }

  lemma LineSettles(l: Loader, len: nat)
    requires Settled(l)
    ensures var t := OnLine(l, len); t.Next? ==> Settled(t.l)
  {
    var text := CString(l.buf);
    if l.buf[0] != '#' && l.buf[0] != ';' && len != 0 && text.Some? {
      var l1 := l.(line := TrimInto(text.value, " ", l.line, READ_LINE));
      if SectionKept(l1) { SectionSettles(l1); }
      else if l1.line != "" && l1.cur.Some? { PairSettles(l1, l1.cur.value); }
    }
  }

  lemma {:induction false} ReachedIsSettled(file: string, l: Loader)
    requires Settled(l) && LoaderAfter(file, l).Some?
    ensures Settled(LoaderAfter(file, l).value)
    decreases |file|
  {
    if file != "" {
      var r := ReadLine(file, l.buf, READ_LINE).value;
      LineSettles(l.(buf := r.buf), r.len);
      ReachedIsSettled(r.rest, OnLine(l.(buf := r.buf), r.len).l);
    }
  }

  /** A failing line, with the line kept from before already settled. */
  lemma RepeatTurn(l: Loader, len: nat)
    requires Settled(l) && len > 0 && l.buf[0] != '#' && l.buf[0] != ';'
    requires CString(l.buf).Some? && TrimFails(CString(l.buf).value)
    ensures OnLine(l, len) == Next(if SectionKept(l) then l.(cur := None) else l)
  {
    assert TrimInto(CString(l.buf).value, " ", l.line, READ_LINE) == l.line;
    assert l.(line := l.line) == l;
    if SectionKept(l) {
      assert OnLine(l, len) == OnSection(l);
    } else if l.line != "" && l.cur.Some? {
      RepeatPair(l, l.cur.value);
      assert OnLine(l, len) == OnPair(l, l.cur.value);
    }
  }

  lemma RepeatPair(l: Loader, s: string)
    requires s in l.conf && PairDone(l, s)
    ensures OnPair(l, s) == Next(l)
  {
    assert l.conf[s := l.conf[s]] == l.conf;
  }

  /**
   * Wherever the loop can be, after any file into any configuration: a line on which `trim` fails changes
   * nothing if and only if the line kept from before is not a section line with its section still current.
   */
  lemma RepeatHarmless(file: string, conf: ConfMap, l: Loader, buf: seq<char>, len: nat)
    requires LoaderAfter(file, Start(conf)) == Some(l) && |buf| == READ_LINE + 1
    requires len > 0 && buf[0] != '#' && buf[0] != ';'
    requires CString(buf).Some? && TrimFails(CString(buf).value)
    ensures var l1 := l.(buf := buf);
      && InConf(l1)
      && (OnLine(l1, len) == Next(l1) <==> !(SectionKept(l) && l.cur.Some?))
      && (SectionKept(l) && l.cur.Some? ==> OnLine(l1, len) == Next(l1.(cur := None)))
  {
    ReachedIsSettled(file, Start(conf));
    RepeatTurn(l.(buf := buf), len);
  }

  /** A line on which `trim` fails, as it stands in a file. */
  predicate FailingLine(t: string) {
    && OneLine(t) && |t| <= READ_LINE && Chomp(t) != "" && t[0] != '#' && t[0] != ';' && TrimFails(Chomp(t))
  }

  /** Outside a section, a key is ignored. */
  lemma KeyIgnored(l: Loader, k: string, v: string, rest: string) returns (l': Loader)
    requires InConf(l) && l.cur.None? && GoodKey(k) && GoodValue(v)
    ensures InConf(l') && l'.cur.None? && l'.conf == l.conf
    ensures LoadFrom(k + "=" + v + "\n" + rest, l) == LoadFrom(rest, l')
  {
    var t := k + "=" + v;
    assert Chomp(t) == k + "=" + Chomp(v);
    var l1, len := LoadLine(t, rest, l);
    if !CommentKey(k) {
      PairText(k, v, l.line);
      assert (k + "=" + StripRight(Chomp(v), " "))[0] == k[0];
    }
    l' := OnLine(l1, len).l;
  }

  /** And so are all of them. */
  lemma {:induction false} KeysIgnored(l: Loader, ps: Pairs, rest: string) returns (l': Loader)
    requires InConf(l) && l.cur.None? && GoodPairs(ps)
    ensures InConf(l') && l'.cur.None? && l'.conf == l.conf
    ensures LoadFrom(RenderPairs(ps) + rest, l) == LoadFrom(rest, l')
    decreases |ps|
  {
    if ps == [] {
      assert RenderPairs(ps) + rest == rest;
      return l;
    }
    var (k, v) := ps[0];
    var behind := RenderPairs(ps[1..]) + rest;
    assert RenderPairs(ps) + rest == k + "=" + v + "\n" + behind;
    var l1 := KeyIgnored(l, k, v, behind);
    l' := KeysIgnored(l1, ps[1..], rest);
  }

  lemma SectionIsKept(l: Loader, name: string)
    requires GoodName(name) && l.line == "[" + name + "]" && name in l.conf
    ensures SectionKept(l) && SectionDone(l)
  {
    assert l.line[1..] == name + "]" + "";
    IndexAt(name, ']', "");
    assert l.line[1..|name| + 1] == name;
  }

  /** A section line and a failing line leave the section there, but not current. */
  lemma FailingLineCloses(name: string, t: string, rest: string, l: Loader) returns (l': Loader)
    requires InConf(l) && name !in l.conf && GoodName(name) && FailingLine(t)
    requires |t| == READ_LINE ==> l.buf[READ_LINE] == NUL
    ensures InConf(l') && l'.cur.None? && l'.conf == l.conf[name := map[]]
    ensures LoadFrom("[" + name + "]" + "\n" + (t + "\n" + rest), l) == LoadFrom(rest, l')
  {
    var l1 := SectionOpens(name, t + "\n" + rest, l);
    var l2, len := LoadLine(t, rest, l1);
    SectionIsKept(l2, name);
    RepeatTurn(l2, len);
    l' := l2.(cur := None);
  }

  /**
   * A file of a section line, a failing line and any keys: all of them are lost. The shortest failing line is one
   * space; one of READ_LINE characters without leading space does the same.
   */
  lemma FailingLineLosesKeys(name: string, t: string, ps: Pairs)
    requires GoodName(name) && FailingLine(t) && GoodPairs(ps)
    ensures Load("[" + name + "]" + "\n" + (t + "\n" + (RenderPairs(ps) + "")), map[]) == Loaded(map[name := map[]])
  {
    var l1 := FailingLineCloses(name, t, RenderPairs(ps) + "", Start(map[]));
    var l2 := KeysIgnored(l1, ps, "");
    NoLine("", l2);
  }

  /** Both kinds of failing line exist. */
  lemma FailingLines(x: char)
    requires x !in {' ', '\n', '\r', NUL, '#', ';'}
    ensures FailingLine(" ") && FailingLine(seq(READ_LINE, _ => x))
  {
    var long := seq(READ_LINE, _ => x);
    assert StripLeft(" ", " ") == StripLeft("", " ") == "";
    assert long[0] == x && long[READ_LINE - 1] == x;
  }

  const SAMPLE := "[a]\n \nk=v\n"

  lemma SampleParts(file: string, name: string, t: string, ps: Pairs)
    requires file == SAMPLE && name == "a" && t == " " && ps == [("k", "v")]
    ensures file == "[" + name + "]" + "\n" + (t + "\n" + (RenderPairs(ps) + "")) && GoodName(name) && GoodPairs(ps)
  {
    assert RenderPairs(ps) == "k" + "=" + "v" + "\n" + RenderPairs(ps[1..]);
  }

  /** For example. */
  lemma SampleLosesKey()
    ensures Load(SAMPLE, map[]) == Loaded(map["a" := map[]])
  {
    FailingLines('x');
    SampleParts(SAMPLE, "a", " ", [("k", "v")]);
    FailingLineLosesKeys("a", " ", [("k", "v")]);
  }
}
