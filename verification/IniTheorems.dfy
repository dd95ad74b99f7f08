/** Which configurations `ini_save` and `ini_load` carry over, and what becomes of the others. */
module IniTheorems {
  import opened Options
  import opened Text
  import opened IniText

  // ----- one line ------------------------------------------------------------------------

  lemma IndexAt(a: string, c: char, b: string)
    requires c !in a
    ensures IndexOf(a + [c] + b, c) == |a|
  {
    var s := a + [c] + b;
    assert forall i :: 0 <= i < |a| ==> s[i] == a[i] && a[i] in a;
    assert s[|a|] == c;
  }

  lemma {:induction false} IndexPrefix(a: string, c: char, b: string)
    requires IndexOf(a, c) < |a|
    ensures IndexOf(a + b, c) == IndexOf(a, c)
    decreases |a|
  {
    if a[0] != c {
      assert (a + b)[1..] == a[1..] + b;
      IndexPrefix(a[1..], c, b);
    }
  }

  /** The line leaves room for a NUL; `memset` provides it everywhere but in the last byte of the buffer. */
  predicate Fits(t: string, buf: seq<char>)
    requires |buf| == READ_LINE + 1
  {
    |t| < READ_LINE || (|t| == READ_LINE && buf[READ_LINE] == NUL)
  }

  /** A line of the usual length comes back without its line end and carriage return. */
  lemma ReadWhole(t: string, rest: string, buf: seq<char>) returns (r: Line)
    requires |buf| == READ_LINE + 1 && OneLine(t) && Fits(t, buf)
    ensures ReadLine(t + "\n" + rest, buf, READ_LINE) == Some(r)
    ensures |r.buf| == READ_LINE + 1 && r.rest == rest && r.len == |Chomp(t)| && r.buf[READ_LINE] == buf[READ_LINE]
    ensures CString(r.buf) == Some(Chomp(t)) && (r.len > 0 ==> r.buf[0] == t[0])
  {
    FirstOf(t, rest, buf);
    r := LineOf(t, rest, buf);
    LineHolds(t, rest, buf);
    HoldsText(r.buf, Chomp(t));
  }

  /** The first line of a file, read. */
  lemma FirstOf(t: string, rest: string, buf: seq<char>)
    requires |buf| == READ_LINE + 1 && '\n' !in t && |t| <= READ_LINE + 1
    ensures ReadLine(t + "\n" + rest, buf, READ_LINE) == Some(LineOf(t, rest, buf))
  {
    var file := t + "\n" + rest;
    IndexAt(t, '\n', rest);
    assert file[..|t|] == t && file[|t| + 1..] == rest;
  }

  lemma LineHolds(t: string, rest: string, buf: seq<char>)
    requires |buf| == READ_LINE + 1 && Fits(t, buf)
    ensures var r := LineOf(t, rest, buf); var u := Chomp(t);
      && r.len == |u| < |r.buf| && r.buf[..|u|] == u && r.buf[|u|] == NUL && r.buf[READ_LINE] == buf[READ_LINE]
      && (r.len > 0 ==> r.buf[0] == t[0])
  {
  }

  lemma HoldsText(buf: seq<char>, u: string)
    requires NUL !in u && |u| < |buf| && buf[..|u|] == u && buf[|u|] == NUL
    ensures CString(buf) == Some(u)
  {
    assert buf == u + [NUL] + buf[|u| + 1..];
    IndexAt(u, NUL, buf[|u| + 1..]);
  }

  /** What comes of the rest of the file after a turn of the loop. */
  function Continue(t: Turn, rest: string): Result
    requires t.Next? ==> InConf(t.l)
  {
    match t case Next(l) => LoadFrom(rest, l) case Stop(r) => r
  }

  /** So the loader goes on behind it with what `OnLine` makes of it. */
  lemma LoadLine(t: string, rest: string, l: Loader) returns (l': Loader, len: nat)
    requires InConf(l) && OneLine(t) && Fits(t, l.buf)
    ensures l' == l.(buf := l'.buf) && InConf(l') && len == |Chomp(t)| && l'.buf[READ_LINE] == l.buf[READ_LINE]
    ensures CString(l'.buf) == Some(Chomp(t)) && (len > 0 ==> l'.buf[0] == t[0])
    ensures LoadFrom(t + "\n" + rest, l) == Continue(OnLine(l', len), rest)
  {
    var r := ReadWhole(t, rest, l.buf);
    l', len := l.(buf := r.buf), r.len;
  }

  lemma {:induction false} StripRightAfter(a: string, b: string, needle: string)
    requires a != "" && a[|a| - 1] !in needle
    ensures StripRight(a + b, needle) == a + StripRight(b, needle)
    decreases |b|
  {
    if b == "" {
      assert a + b == a;
    } else if b[|b| - 1] in needle {
      assert (a + b)[..|a + b| - 1] == a + b[..|b| - 1];
      StripRightAfter(a, b[..|b| - 1], needle);
    }
  }

  /** The line of a section that is not there yet. */
  lemma SectionLine(l: Loader, name: string, len: nat)
    requires InConf(l) && GoodName(name) && name !in l.conf
    requires CString(l.buf) == Some("[" + name + "]") && l.buf[0] == '[' && len > 0
    ensures OnLine(l, len) ==
            Next(l.(line := "[" + name + "]", conf := l.conf[name := map[]], cur := Some(name)))
  {
    var t := "[" + name + "]";
    TrimmedStays(t, " ");
    assert TrimInto(t, " ", l.line, READ_LINE) == t;
    assert t[1..] == name + "]" + "";
    IndexAt(name, ']', "");
    assert t[1..|name| + 1] == name;
  }

  /** What trimming leaves of the line of a pair, and of the pair in it. */
  lemma PairText(k: string, v: string, dest: string)
    requires GoodKey(k) && GoodValue(v)
    ensures var w := StripRight(Chomp(v), " ");
      && TrimInto(k + "=" + Chomp(v), " ", dest, READ_LINE) == k + "=" + w
      && |w| <= |v| && TrimInto(k, " ", "", MAX_KEY) == k
      && (w != "" ==> TrimInto(w, " ", "", MAX_VALUE) == w)
  {
    var u := Chomp(v);
    var w := StripRight(u, " ");
    StripRightShorter(u, " ");
    StripRightAfter(k + "=", u, " ");
    TrimmedStays(k, " ");
    var b := StripRightIs(u, " ");
    if w != "" {
      assert w[0] == v[0];
      TrimmedStays(w, " ");
    }
  }

  /** `m` after the line of a pair. */
  function Added(acc: map<string, string>, k: string, v: string): map<string, string> {
    match Reread(k, v) case None => acc case Some(w) => InsertVal(acc, k, w)
  }

  /** The line of a pair. */
  lemma PairLine(l: Loader, k: string, v: string, len: nat) returns (l': Loader)
    requires InConf(l) && l.cur.Some? && GoodKey(k) && GoodValue(v)
    requires CString(l.buf) == Some(k + "=" + Chomp(v)) && l.buf[0] == k[0] && len > 0
    ensures OnLine(l, len) == Next(l') && InConf(l') && l'.cur == l.cur
    ensures l'.conf == l.conf[l.cur.value := Added(l.conf[l.cur.value], k, v)]
  {
    assert l.conf == l.conf[l.cur.value := l.conf[l.cur.value]];
    if CommentKey(k) { return l; }
    var w := StripRight(Chomp(v), " ");
    PairText(k, v, l.line);
    var line := k + "=" + w;
    IndexAt(k, '=', w);
    assert line[..|k|] == k && line[|k| + 1..] == w;
    assert line[0] == k[0];
    l' := OnPair(l.(line := line), l.cur.value).l;
  }

  // ----- all lines -----------------------------------------------------------------------

  ghost predicate GoodPairs(ps: Pairs) {
    forall i :: 0 <= i < |ps| ==> GoodKey(ps[i].0) && GoodValue(ps[i].1)
  }

  /** `m` after the lines of `ps`. */
  function Merge(m: map<string, string>, ps: Pairs): map<string, string>
    decreases |ps|
  {
    if ps == [] then m
    else
      var (k, v) := ps[0];
      Merge(Added(m, k, v), ps[1..])
  }

  /** The line of a pair, and all behind it. */
  lemma PairLoads(k: string, v: string, rest: string, l: Loader) returns (l': Loader)
    requires InConf(l) && l.cur.Some? && GoodKey(k) && GoodValue(v)
    ensures InConf(l') && l'.cur == l.cur
    ensures l'.conf == l.conf[l.cur.value := Added(l.conf[l.cur.value], k, v)]
    ensures LoadFrom(k + "=" + v + "\n" + rest, l) == LoadFrom(rest, l')
  {
    var t := k + "=" + v;
    assert Chomp(t) == k + "=" + Chomp(v);
    var l1, len := LoadLine(t, rest, l);
    l' := PairLine(l1, k, v, len);
  }

  lemma {:induction false} LoadPairs(ps: Pairs, rest: string, l: Loader) returns (l': Loader)
    requires InConf(l) && l.cur.Some? && GoodPairs(ps)
    ensures InConf(l') && LoadFrom(RenderPairs(ps) + rest, l) == LoadFrom(rest, l')
    ensures l'.conf == l.conf[l.cur.value := Merge(l.conf[l.cur.value], ps)]
    decreases |ps|
  {
    if ps == [] {
      assert RenderPairs(ps) + rest == rest;
      assert l.conf == l.conf[l.cur.value := l.conf[l.cur.value]];
      return l;
    }
    var (k, v) := ps[0];
    var behind := RenderPairs(ps[1..]) + rest;
    assert RenderPairs(ps) + rest == k + "=" + v + "\n" + behind;
    var l2 := PairLoads(k, v, behind, l);
    l' := LoadPairs(ps[1..], rest, l2);
  }

  lemma ListsTail<V>(ps: seq<(string, V)>, m: map<string, V>)
    requires ps != [] && Lists(ps, m)
    ensures Lists(ps[1..], m - {ps[0].0})
  {
    var k0 := ps[0].0;
    forall k | k in m - {k0} ensures exists i :: 0 <= i < |ps[1..]| && ps[1..][i].0 == k {
      var i :| 0 <= i < |ps| && ps[i].0 == k;
      assert ps[1..][i - 1].0 == k;
    }
  }

  lemma ListsOneMore<V>(ps: seq<(string, V)>, m: map<string, V>, k: string, v: V)
    requires Lists(ps, m) && k !in m
    ensures Lists(ps + [(k, v)], m[k := v])
  {
    var qs, m' := ps + [(k, v)], m[k := v];
    forall j | j in m' ensures exists i :: 0 <= i < |qs| && qs[i].0 == j {
      if j == k {
        assert qs[|ps|].0 == k;
      } else {
        var i :| 0 <= i < |ps| && ps[i].0 == j;
        assert qs[i].0 == j;
      }
    }
  }

  lemma OneLess<V>(m: map<string, V>, k: string)
    requires k in m
    ensures |m - {k}| < |m|
  {
    assert (m - {k}).Keys == m.Keys - {k};
    assert |m - {k}| == |(m - {k}).Keys|;
  }

  /** `b` is `a` with `k` bound to `w`, or is `a` when there is no `w`. */
  lemma BoundFirst<T>(acc: map<string, T>, a: map<string, T>, b: map<string, T>, k: string, w: Option<T>)
    requires k !in acc && k !in a && b == (if w.Some? then a[k := w.value] else a)
    ensures (if w.Some? then acc[k := w.value] else acc) + a == acc + b
  {
  }

  lemma RereadFirst(m: map<string, string>, k: string)
    requires k in m
    ensures var w := Reread(k, m[k]); var a := RereadMap(m - {k});
      k !in a && RereadMap(m) == if w.Some? then a[k := w.value] else a
  {
  }

  lemma AddedFirst(acc: map<string, string>, k: string, m: map<string, string>)
    requires k in m && k !in acc
    ensures Added(acc, k, m[k]) + RereadMap(m - {k}) == acc + RereadMap(m)
  {
    RereadFirst(m, k);
    BoundFirst(acc, RereadMap(m - {k}), RereadMap(m), k, Reread(k, m[k]));
  }

  /** The lines of a map, in any order, add the pairs that its lines give back. */
  lemma {:induction false} MergeIs(acc: map<string, string>, ps: Pairs, m: map<string, string>)
    requires Lists(ps, m) && acc.Keys !! m.Keys
    ensures Merge(acc, ps) == acc + RereadMap(m)
    decreases |ps|
  {
    if ps != [] {
      var (k, v) := ps[0];
      ListsTail(ps, m);
      MergeIs(Added(acc, k, v), ps[1..], m - {k});
      AddedFirst(acc, k, m);
    } else {
      assert m == map[];
    }
  }

  lemma ListsConfTail(secs: Sections, conf: ConfMap)
    requires secs != [] && ListsConf(secs, conf)
    ensures ListsConf(secs[1..], conf - {secs[0].0})
  {
    var k0 := secs[0].0;
    forall k | k in conf - {k0} ensures exists i :: 0 <= i < |secs[1..]| && secs[1..][i].0 == k {
      var i :| 0 <= i < |secs| && secs[i].0 == k;
      assert secs[1..][i - 1].0 == k;
    }
  }

  lemma GoodPairsOf(ps: Pairs, m: map<string, string>)
    requires Lists(ps, m) && forall k :: k in m ==> GoodKey(k) && GoodValue(m[k])
    ensures GoodPairs(ps)
  {
  }

  /** The line of a section, and all behind it. */
  lemma SectionOpens(name: string, rest: string, l: Loader) returns (l': Loader)
    requires InConf(l) && name !in l.conf && GoodName(name)
    ensures InConf(l') && l'.conf == l.conf[name := map[]] && l'.cur == Some(name)
    ensures l'.line == "[" + name + "]" && l'.buf[READ_LINE] == l.buf[READ_LINE]
    ensures LoadFrom("[" + name + "]" + "\n" + rest, l) == LoadFrom(rest, l')
  {
    var l1, len := LoadLine("[" + name + "]", rest, l);
    SectionLine(l1, name, len);
    l' := OnLine(l1, len).l;
  }

  /** The lines of one section. */
  lemma LoadSection(name: string, ps: Pairs, m: map<string, string>, rest: string, l: Loader) returns (l': Loader)
    requires InConf(l) && name !in l.conf && GoodName(name) && Lists(ps, m) && GoodPairs(ps)
    ensures InConf(l') && l'.conf == l.conf[name := RereadMap(m)]
    ensures LoadFrom("[" + name + "]" + "\n" + (RenderPairs(ps) + rest), l) == LoadFrom(rest, l')
  {
    var l2 := SectionOpens(name, RenderPairs(ps) + rest, l);
    l' := LoadPairs(ps, rest, l2);
    MergeIs(map[], ps, m);
    EmptyPlus(RereadMap(m));
    SetTwice(l.conf, name, map[], RereadMap(m));
  }

  lemma SetTwice<V>(m: map<string, V>, k: string, v: V, w: V)
    ensures m[k := v][k := v] == m[k := v] && m[k := v][k := w] == m[k := w]
  {
  }

  lemma EmptyPlus<V>(m: map<string, V>)
    ensures map[] + m == m
  {
  }

  lemma NoSections(before: ConfMap, conf: ConfMap)
    requires ListsConf([], conf)
    ensures before + RereadConf(conf) == before
  {
    assert conf == map[];
  }

  lemma RereadConfFirst(conf: ConfMap, name: string, before: ConfMap)
    requires name in conf && name !in before
    ensures before[name := RereadMap(conf[name])] + RereadConf(conf - {name}) == before + RereadConf(conf)
  {
    var a, b := RereadConf(conf - {name}), RereadConf(conf);
    assert b == a[name := RereadMap(conf[name])];
    BoundFirst(before, a, b, name, Some(RereadMap(conf[name])));
  }

  lemma LoadFirstSection(secs: Sections, conf: ConfMap, l: Loader) returns (l': Loader)
    requires secs != [] && InConf(l) && ListsConf(secs, conf) && Loadable(conf) && secs[0].0 !in l.conf
    ensures InConf(l') && LoadFrom(Render(secs), l) == LoadFrom(Render(secs[1..]), l')
    ensures l'.conf == l.conf[secs[0].0 := RereadMap(conf[secs[0].0])]
  {
    var (name, ps) := secs[0];
    GoodPairsOf(ps, conf[name]);
    assert Render(secs) == "[" + name + "]" + "\n" + (RenderPairs(ps) + Render(secs[1..]));
    l' := LoadSection(name, ps, conf[name], Render(secs[1..]), l);
  }

  lemma {:induction false} LoadSections(secs: Sections, conf: ConfMap, l: Loader)
    requires InConf(l) && ListsConf(secs, conf) && Loadable(conf) && l.conf.Keys !! conf.Keys
    ensures LoadFrom(Render(secs), l) == Loaded(l.conf + RereadConf(conf))
    decreases |secs|
  {
    if secs == [] {
      NoSections(l.conf, conf);
    } else {
      var name := secs[0].0;
      var l' := LoadFirstSection(secs, conf, l);
      ListsConfTail(secs, conf);
      LoadSections(secs[1..], conf - {name}, l');
      RereadConfFirst(conf, name, l.conf);
    }
  }

  /**
   * Writing anything that loading can produce, in any order, and reading it again: no line fails, and each pair
   * is reread by itself.
   */
  lemma LoadOfRender(secs: Sections, conf: ConfMap)
    requires ListsConf(secs, conf) && Loadable(conf)
    ensures Load(Render(secs), map[]) == Loaded(RereadConf(conf))
  {
    LoadSections(secs, conf, Start(map[]));
    EmptyPlus(RereadConf(conf));
  }

  lemma StableIsReread(k: string, v: string)
    requires GoodKey(k) && GoodValue(v)
    ensures Reread(k, v) == Some(v) <==> StablePair(k, v)
  {
    StripRightShorter(Chomp(v), " ");
    if Chomp(v) == v { TrimmedStays(v, " "); }
  }

  lemma CanonicalIsReread(conf: ConfMap)
    requires Loadable(conf)
    ensures RereadConf(conf) == conf <==> Canonical(conf)
  {
    forall s, k | s in conf && k in conf[s]
      ensures Reread(k, conf[s][k]) == Some(conf[s][k]) <==> StablePair(k, conf[s][k]) {
      StableIsReread(k, conf[s][k]);
    }
    if RereadConf(conf) == conf {
      forall s, k | s in conf && k in conf[s] ensures StablePair(k, conf[s][k]) {
        assert RereadConf(conf)[s] == RereadMap(conf[s]);
        assert k in RereadMap(conf[s]);
      }
    }
    if Canonical(conf) {
      forall s | s in conf ensures RereadMap(conf[s]) == conf[s] {}
    }
  }

  // ----- what loading produces -----------------------------------------------------------

  predicate CleanLoader(l: Loader) {
    InConf(l) && Loadable(l.conf) && '\n' !in l.buf && OneLine(l.line) && Trimmed(l.line, " ")
  }

  lemma TrimClean(text: string, dest: string, size: int)
    requires OneLine(text) && OneLine(dest) && Trimmed(dest, " ")
    ensures var r := TrimInto(text, " ", dest, size); OneLine(r) && Trimmed(r, " ")
  {
    var a, b := TrimIs(text, " ");
  }

  lemma TrimPart(text: string, size: int)
    ensures var r := TrimInto(text, " ", "", size);
      && Trimmed(r, " ") && (forall c :: c in r ==> c in text) && |r| <= |text|
      && (r != "" && text[0] != ' ' ==> r[0] == text[0])
  {
    var a, b := TrimIs(text, " ");
    StripRightShorter(StripLeft(text, " "), " ");
  }

  lemma PairClean(l: Loader, s: string)
    requires CleanLoader(l) && s in l.conf && l.line != "" && l.line[0] != '['
    ensures var r := OnPair(l, s); r.Next? ==> CleanLoader(r.l)
  {
    var n := IndexOf(l.line, '=');
    if n + 1 < |l.line| {
      var k, v := TrimInto(l.line[..n], " ", "", MAX_KEY), TrimInto(l.line[n + 1..], " ", "", MAX_VALUE);
      TrimPart(l.line[..n], MAX_KEY);
      TrimPart(l.line[n + 1..], MAX_VALUE);
      assert '=' !in l.line[..n];
    }
  }

  lemma SectionClean(l: Loader)
    requires CleanLoader(l) && l.line != ""
    ensures var r := OnSection(l); r.Next? ==> CleanLoader(r.l)
  {
    var n := IndexOf(l.line[1..], ']');
    if n < |l.line| - 1 {
      var name := l.line[1..n + 1];
      assert forall i :: 0 <= i < n ==> name[i] == l.line[1..][i];
    }
  }

  lemma LineClean(l: Loader, len: nat)
    requires CleanLoader(l)
    ensures var r := OnLine(l, len); r.Next? ==> CleanLoader(r.l)
  {
    var text := CString(l.buf);
    if text.Some? {
      assert OneLine(text.value);
      TrimClean(text.value, l.line, READ_LINE);
      var l' := l.(line := TrimInto(text.value, " ", l.line, READ_LINE));
      if l'.line != "" {
        if l'.line[0] == '[' { SectionClean(l'); } else if l'.cur.Some? { PairClean(l', l'.cur.value); }
      }
    }
  }

  lemma ReadClean(file: string, buf: seq<char>)
    requires |buf| == READ_LINE + 1 && '\n' !in buf
    ensures var r := ReadLine(file, buf, READ_LINE); r.Some? ==> '\n' !in r.value.buf
  {
  }

  lemma {:induction false} LoadFromClean(file: string, l: Loader)
    requires CleanLoader(l)
    ensures LoadFrom(file, l).Loaded? ==> Loadable(LoadFrom(file, l).conf)
    decreases |file|
  {
    var r := ReadLine(file, l.buf, READ_LINE);
    ReadClean(file, l.buf);
    if r.Some? {
      LineClean(l.(buf := r.value.buf), r.value.len);
      var t := OnLine(l.(buf := r.value.buf), r.value.len);
      if t.Next? { LoadFromClean(r.value.rest, t.l); }
    }
  }

  /** Whatever the file, what is loaded has trimmed one-line keys and values within their limits. */
  lemma LoadIsLoadable(file: string)
    ensures Load(file, map[]).Loaded? ==> Loadable(Load(file, map[]).conf)
  {
    LoadFromClean(file, Start(map[]));
  }

  /** A configuration, written in any order, is read back as itself exactly if it is canonical. */
  lemma RoundTrip(secs: Sections, conf: ConfMap)
    requires ListsConf(secs, conf)
    ensures Load(Render(secs), map[]) == Loaded(conf) <==> Canonical(conf)
  {
    if Loadable(conf) {
      LoadOfRender(secs, conf);
      CanonicalIsReread(conf);
    } else {
      LoadIsLoadable(Render(secs));
    }
  }

  // ----- what loading overlooks ----------------------------------------------------------

  lemma Cuts(a: string, b: string, n: nat)
    requires n < |a|
    ensures (a + b)[..n] == a[..n] && (a + b)[n + 1..] == a[n + 1..] + b
  {
  }

  lemma SameFirstLine(file: string, t: string, buf: seq<char>)
    requires |buf| == READ_LINE + 1 && IndexOf(file, '\n') < |file|
    ensures ReadLine(file, buf, READ_LINE).None? ==> ReadLine(file + t, buf, READ_LINE).None?
    ensures ReadLine(file, buf, READ_LINE).Some? ==>
      var r := ReadLine(file, buf, READ_LINE).value;
      ReadLine(file + t, buf, READ_LINE) == Some(Line(r.len, r.buf, r.rest + t))
  {
    var n := IndexOf(file, '\n');
    IndexPrefix(file, '\n', t);
    Cuts(file, t, n);
    if n <= READ_LINE + 1 { SameLine(file[..n], file[n + 1..], t, buf); }
  }

  lemma SameLine(first: string, rest: string, t: string, buf: seq<char>)
    requires 0 < |buf| && |first| <= |buf|
    ensures var r := LineOf(first, rest, buf); LineOf(first, rest + t, buf) == Line(r.len, r.buf, r.rest + t)
  {
  }

  /** Text behind the first line does not change how that line is handled. */
  lemma FirstTurn(file: string, t: string, l: Loader)
    requires InConf(l) && IndexOf(file, '\n') < |file|
    ensures var r := ReadLine(file, l.buf, READ_LINE);
      LoadFrom(file + t, l) == if r.None? then Loaded(l.conf)
                               else Continue(OnLine(l.(buf := r.value.buf), r.value.len), r.value.rest + t)
  {
    SameFirstLine(file, t, l.buf);
  }

  lemma FirstLineEnds(file: string)
    requires file != "" && file[|file| - 1] == '\n'
    ensures IndexOf(file, '\n') < |file|
    ensures var rest := file[IndexOf(file, '\n') + 1..]; rest != "" ==> rest[|rest| - 1] == '\n'
  {
  }

  /** The turn at the first line, with and without text behind the file: the same outcome, or the same next state. */
  lemma SameTurn(file: string, t: string, l: Loader) returns (rest: string, next: Option<Loader>)
    requires InConf(l) && IndexOf(file, '\n') < |file|
    ensures next.None? ==> LoadFrom(file + t, l) == LoadFrom(file, l)
    ensures next.Some? ==> InConf(next.value) && rest == file[IndexOf(file, '\n') + 1..]
    ensures next.Some? ==> LoadFrom(file + t, l) == LoadFrom(rest + t, next.value)
    ensures next.Some? ==> LoadFrom(file, l) == LoadFrom(rest, next.value)
  {
    FirstTurn(file, t, l);
    var r := ReadLine(file, l.buf, READ_LINE);
    rest, next := "", None;
    if r.Some? {
      var turn := OnLine(l.(buf := r.value.buf), r.value.len);
      rest := r.value.rest;
      if turn.Next? { next := Some(turn.l); }
    }
  }

  /** A text whose first line is too long, or has no end: `read_line` gives -1. */
  predicate Unreadable(t: string) {
    var n := IndexOf(t, '\n');
    n == |t| || n > READ_LINE + 1
  }

  lemma NoLine(t: string, l: Loader)
    requires InConf(l) && Unreadable(t)
    ensures LoadFrom(t, l) == Loaded(l.conf)
  {
  }

  /** Loading ends at the first line that is too long or has no end, whatever comes behind it. */
  lemma {:induction false} UnreadableEnds(file: string, t: string, l: Loader)
    requires InConf(l) && Unreadable(t) && (file != "" ==> file[|file| - 1] == '\n')
    ensures LoadFrom(file + t, l) == LoadFrom(file, l)
    decreases |file|
  {
    if file == "" {
      assert "" + t == t;
      NoLine(t, l);
      NoLine("", l);
    } else {
      FirstLineEnds(file);
      var rest, next := SameTurn(file, t, l);
      if next.Some? { UnreadableEnds(rest, t, next.value); }
    }
  }

  /** In particular, a last line without line end is not loaded. */
  lemma LastLineLost(file: string, t: string, l: Loader)
    requires InConf(l) && '\n' !in t && (file != "" ==> file[|file| - 1] == '\n')
    ensures LoadFrom(file + t, l) == LoadFrom(file, l)
  {
    assert Unreadable(t);
    UnreadableEnds(file, t, l);
  }
}
