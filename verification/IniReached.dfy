/** What `ini_load` can produce at all: exactly the configurations whose names, keys and values are clean. */
module IniReached {
  import opened Options
  import opened Text
  import opened IniText
  import opened IniTheorems

  /** Each pair on an indented line, with a carriage return before the line end. */
  function LoosePairs(ps: Pairs): string {
    if ps == [] then "" else " " + ps[0].0 + "=" + ps[0].1 + "\r" + "\n" + LoosePairs(ps[1..])
  }

  function Loose(secs: Sections): string {
    if secs == [] then "" else "[" + secs[0].0 + "]" + "\n" + (LoosePairs(secs[0].1) + Loose(secs[1..]))
  }

  /** What trimming leaves of such a line, and of the pair in it: the key and the value, whatever they are. */
  lemma LooseText(k: string, v: string, dest: string)
    requires GoodKey(k) && GoodValue(v)
    ensures TrimInto(" " + k + "=" + v, " ", dest, READ_LINE) == k + "=" + v
    ensures TrimInto(k, " ", "", MAX_KEY) == k && TrimInto(v, " ", "", MAX_VALUE) == v
  {
    var t := k + "=" + v;
    assert (" " + k + "=" + v)[1..] == t;
    assert StripLeft(" " + k + "=" + v, " ") == StripLeft(t, " ");
    TrimmedStays(t, " ");
    TrimmedStays(k, " ");
    TrimmedStays(v, " ");
  }

  lemma LooseLine(l: Loader, k: string, v: string, len: nat) returns (l': Loader)
    requires InConf(l) && l.cur.Some? && GoodKey(k) && GoodValue(v)
    requires CString(l.buf) == Some(" " + k + "=" + v) && l.buf[0] == ' ' && len > 0
    ensures OnLine(l, len) == Next(l') && InConf(l') && l'.cur == l.cur
    ensures l'.conf == l.conf[l.cur.value := InsertVal(l.conf[l.cur.value], k, v)]
  {
    LooseText(k, v, l.line);
    var line := k + "=" + v;
    IndexAt(k, '=', v);
    assert line[..|k|] == k && line[|k| + 1..] == v;
    assert line[0] == k[0];
    l' := OnPair(l.(line := line), l.cur.value).l;
  }

  lemma LooseLoads(k: string, v: string, rest: string, l: Loader) returns (l': Loader)
    requires InConf(l) && l.cur.Some? && GoodKey(k) && GoodValue(v)
    ensures InConf(l') && l'.cur == l.cur
    ensures l'.conf == l.conf[l.cur.value := InsertVal(l.conf[l.cur.value], k, v)]
    ensures LoadFrom(" " + k + "=" + v + "\r" + "\n" + rest, l) == LoadFrom(rest, l')
  {
    var t := " " + k + "=" + v + "\r";
    assert Chomp(t) == " " + k + "=" + v;
    var l1, len := LoadLine(t, rest, l);
    l' := LooseLine(l1, k, v, len);
  }

  /** `m` with the pairs of `ps` that are new. */
  function InsertAll(m: map<string, string>, ps: Pairs): map<string, string>
    decreases |ps|
  {
    if ps == [] then m else InsertAll(InsertVal(m, ps[0].0, ps[0].1), ps[1..])
  }

  lemma {:induction false} InsertAllIs(acc: map<string, string>, ps: Pairs, m: map<string, string>)
    requires Lists(ps, m) && acc.Keys !! m.Keys
    ensures InsertAll(acc, ps) == acc + m
    decreases |ps|
  {
    if ps == [] {
      assert m == map[];
    } else {
      var (k, v) := ps[0];
      ListsTail(ps, m);
      InsertAllIs(acc[k := v], ps[1..], m - {k});
      BoundFirst(acc, m - {k}, m, k, Some(v));
    }
  }

  lemma {:induction false} LoadLoosePairs(ps: Pairs, rest: string, l: Loader) returns (l': Loader)
    requires InConf(l) && l.cur.Some? && GoodPairs(ps)
    ensures InConf(l') && LoadFrom(LoosePairs(ps) + rest, l) == LoadFrom(rest, l')
    ensures l'.conf == l.conf[l.cur.value := InsertAll(l.conf[l.cur.value], ps)]
    decreases |ps|
  {
    if ps == [] {
      assert LoosePairs(ps) + rest == rest;
      assert l.conf == l.conf[l.cur.value := l.conf[l.cur.value]];
      return l;
    }
    var (k, v) := ps[0];
    var behind := LoosePairs(ps[1..]) + rest;
    assert LoosePairs(ps) + rest == " " + k + "=" + v + "\r" + "\n" + behind;
    var l2 := LooseLoads(k, v, behind, l);
    l' := LoadLoosePairs(ps[1..], rest, l2);
  }

  lemma LoadLooseSection(name: string, ps: Pairs, m: map<string, string>, rest: string, l: Loader)
    returns (l': Loader)
    requires InConf(l) && name !in l.conf && GoodName(name) && Lists(ps, m) && GoodPairs(ps)
    ensures InConf(l') && l'.conf == l.conf[name := m]
    ensures LoadFrom("[" + name + "]" + "\n" + (LoosePairs(ps) + rest), l) == LoadFrom(rest, l')
  {
    var l2 := SectionOpens(name, LoosePairs(ps) + rest, l);
    l' := LoadLoosePairs(ps, rest, l2);
    InsertAllIs(map[], ps, m);
    EmptyPlus(m);
    SetTwice(l.conf, name, map[], m);
  }

  lemma LoadFirstLoose(secs: Sections, conf: ConfMap, l: Loader) returns (l': Loader)
    requires secs != [] && InConf(l) && ListsConf(secs, conf) && Loadable(conf) && secs[0].0 !in l.conf
    ensures InConf(l') && LoadFrom(Loose(secs), l) == LoadFrom(Loose(secs[1..]), l')
    ensures l'.conf == l.conf[secs[0].0 := conf[secs[0].0]]
  {
    var (name, ps) := secs[0];
    GoodPairsOf(ps, conf[name]);
    l' := LoadLooseSection(name, ps, conf[name], Loose(secs[1..]), l);
  }

  lemma NothingMore(before: ConfMap, conf: ConfMap)
    requires ListsConf([], conf)
    ensures before + conf == before
  {
    assert conf == map[];
  }

  lemma PlusFirst(before: ConfMap, conf: ConfMap, name: string)
    requires name in conf && name !in before
    ensures before[name := conf[name]] + (conf - {name}) == before + conf
  {
    BoundFirst(before, conf - {name}, conf, name, Some(conf[name]));
  }

  lemma {:induction false} LoadLooseSections(secs: Sections, conf: ConfMap, l: Loader)
    requires InConf(l) && ListsConf(secs, conf) && Loadable(conf) && l.conf.Keys !! conf.Keys
    ensures LoadFrom(Loose(secs), l) == Loaded(l.conf + conf)
    decreases |secs|
  {
    if secs == [] {
      NothingMore(l.conf, conf);
    } else {
      var name := secs[0].0;
      var l' := LoadFirstLoose(secs, conf, l);
      ListsConfTail(secs, conf);
      LoadLooseSections(secs[1..], conf - {name}, l');
      PlusFirst(l.conf, conf, name);
    }
  }

  /** Written this way, in any order, a clean configuration is loaded as exactly itself. */
  lemma LooseIsLoaded(secs: Sections, conf: ConfMap)
    requires ListsConf(secs, conf) && Loadable(conf)
    ensures Load(Loose(secs), map[]) == Loaded(conf)
  {
    LoadLooseSections(secs, conf, Start(map[]));
    EmptyPlus(conf);
  }

  // ----- every configuration can be written ----------------------------------------------

  lemma PutBack<V>(m: map<string, V>, k: string)
    requires k in m
    ensures (m - {k})[k := m[k]] == m
  {
  }

  lemma {:induction false} Listed<V>(m: map<string, V>) returns (ps: seq<(string, V)>)
    ensures Lists(ps, m)
    decreases |m|
  {
    if m == map[] { return []; }
    var k :| k in m;
    OneLess(m, k);
    var rest := Listed(m - {k});
    ListsOneMore(rest, m - {k}, k, m[k]);
    PutBack(m, k);
    ps := rest + [(k, m[k])];
  }

  lemma NamedOneMore<V>(ps: seq<(string, V)>, p: (string, V), k: string)
    requires k == p.0 || exists i :: 0 <= i < |ps| && ps[i].0 == k
    ensures exists i :: 0 <= i < |ps + [p]| && (ps + [p])[i].0 == k
  {
    if k == p.0 {
      assert (ps + [p])[|ps|].0 == k;
    } else {
      var i :| 0 <= i < |ps| && ps[i].0 == k;
      assert (ps + [p])[i].0 == k;
    }
  }

  lemma ListsConfOneMore(secs: Sections, conf: ConfMap, s: string, ps: Pairs, m: map<string, string>)
    requires ListsConf(secs, conf) && s !in conf && Lists(ps, m)
    ensures ListsConf(secs + [(s, ps)], conf[s := m])
  {
    var more, conf' := secs + [(s, ps)], conf[s := m];
    forall k | k in conf' ensures exists i :: 0 <= i < |more| && more[i].0 == k {
      NamedOneMore(secs, (s, ps), k);
    }
  }

  lemma {:induction false} ConfListed(conf: ConfMap) returns (secs: Sections)
    ensures ListsConf(secs, conf)
    decreases |conf|
  {
    if conf == map[] { return []; }
    var s :| s in conf;
    OneLess(conf, s);
    var ps := Listed(conf[s]);
    var rest := ConfListed(conf - {s});
    ListsConfOneMore(rest, conf - {s}, s, ps, conf[s]);
    PutBack(conf, s);
    secs := rest + [(s, ps)];
  }

  ghost predicate LoadsAs(file: string, conf: ConfMap) {
    Load(file, map[]) == Loaded(conf)
  }

  /** So a configuration can come out of `ini_load` if and only if it is clean. */
  lemma LoadableIsLoaded(conf: ConfMap)
    ensures Loadable(conf) <==> exists file :: LoadsAs(file, conf)
  {
    if Loadable(conf) {
      var secs := ConfListed(conf);
      LooseIsLoaded(secs, conf);
      assert LoadsAs(Loose(secs), conf);
    }
    if file :| LoadsAs(file, conf) { LoadIsLoadable(file); }
  }
}
