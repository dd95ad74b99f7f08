/** The configuration object, and `ini_load` and `ini_save` as they run: over buffers used again for every line. */
module IniFiles {
  import opened Options
  import opened Text
  import opened IniText
  import opened IniTheorems

  /** A section: the dict from its keys to their values. */
  class Section {
    var vals: map<string, string>

    constructor ()
      ensures vals == map[]
    {
      vals := map[];
    }

    /** `ini_insert_val`. */
    method InsertVal(key: string, val: string) returns (ok: bool)
      modifies this
      ensures ok == (key !in old(vals)) && vals == IniText.InsertVal(old(vals), key, val)
    {
      ok := key !in vals;
      if ok { vals := vals[key := val]; }
    }
  }

  /** `ini_conf_t`: the dict from names to sections. */
  class Ini {
    var secs: map<string, Section>

    constructor ()
      ensures Valid() && secs == map[] && Contents() == map[]
    {
      secs := map[];
    }

    ghost predicate Valid()
      reads this
    {
      forall a, b :: a in secs && b in secs && a != b ==> secs[a] != secs[b]
    }

    ghost function Contents(): ConfMap
      reads this, secs.Values
    {
      map s | s in secs :: secs[s].vals
    }

    /** The section that takes keys is section `name` of this configuration. */
    ghost predicate Current(sec: Section?, name: Option<string>)
      reads this
    {
      match name case None => sec == null case Some(n) => n in secs && sec == secs[n]
    }

    /** `ini_insert_sec`: NULL if there is one already. */
    method InsertSec(name: string) returns (sec: Section?)
      requires Valid()
      modifies this
      ensures Valid() && Current(sec, if name in old(secs) then None else Some(name))
      ensures name in old(secs) ==> secs == old(secs)
      ensures name !in old(secs) ==> fresh(sec) && secs == old(secs)[name := sec] && sec.vals == map[]
    {
      var v := new Section();
      if name in secs { return null; }
      secs := secs[name := v];
      sec := v;
    }

    /** `ini_insert_val` on section `name`. */
    method InsertIn(sec: Section, ghost name: string, key: string, val: string)
      requires Valid() && name in secs && sec == secs[name]
      modifies sec
      ensures Valid() && secs == old(secs)
      ensures Contents() == old(Contents())[name := IniText.InsertVal(old(Contents())[name], key, val)]
    {
      var _ := sec.InsertVal(key, val);
    }
  }

  /** The `read` loop of `read_line`: characters up to a line end, the end of the file or the end of the buffer. */
  method FillLine(file: string, pos: nat, buf: array<char>) returns (index: nat, next: nat, eol: bool)
    requires pos <= |file| && buf.Length == READ_LINE + 1
    modifies buf
    ensures pos + index <= next <= |file| && index <= READ_LINE + 1
    ensures buf[..] == file[pos..pos + index] + old(buf[..])[index..]
    ensures '\n' !in file[pos..pos + index]
    ensures eol ==> next == pos + index + 1 && file[pos + index] == '\n'
    ensures !eol ==> pos + index == |file| || (index == READ_LINE + 1 && file[pos + index] != '\n')
  {
    index, next, eol := 0, pos, false;
    while next < |file|
      invariant next == pos + index && next <= |file| && index <= READ_LINE + 1
      invariant forall i :: 0 <= i < index ==> buf[i] == file[pos + i] && buf[i] != '\n'
      invariant forall i :: index <= i < buf.Length ==> buf[i] == old(buf[i])
    {
      var ch := file[next];
      next := next + 1;
      if ch == '\n' { return index, next, true; }
      if index > READ_LINE { return index, next, false; }
      buf[index] := ch;
      index := index + 1;
    }
  }

  /** What `read_line` is to give, in terms of what the loop gives. */
  lemma LineIs(s: string, buf: seq<char>, n: nat)
    requires |buf| == READ_LINE + 1 && n <= |s| && '\n' !in s[..n] && n <= READ_LINE + 1
    ensures n == |s| || (n == READ_LINE + 1 && s[n] != '\n') ==> IniText.ReadLine(s, buf, READ_LINE) == None
    ensures n < |s| && s[n] == '\n' ==> var b := s[..n] + (Zeros(READ_LINE) + buf[READ_LINE..])[n..];
      IniText.ReadLine(s, buf, READ_LINE) ==
        Some(if n > 0 && b[n - 1] == '\r' then Line(n - 1, b[n - 1 := NUL], s[n + 1..]) else Line(n, b, s[n + 1..]))
  {
    if n < |s| && s[n] == '\n' { IndexFrom(s, '\n', 0, n); }
  }

  /** `read_line` from position `pos`; -1 for a line that is too long, and at the end of the file. */
  method ReadLine(file: string, pos: nat, buf: array<char>) returns (len: int, next: nat)
    requires pos <= |file| && buf.Length == READ_LINE + 1
    modifies buf
    ensures var r := IniText.ReadLine(file[pos..], old(buf[..]), READ_LINE);
      && (r.None? ==> len == -1)
      && (r.Some? ==> len == r.value.len && buf[..] == r.value.buf)
      && (r.Some? ==> pos < next <= |file| && file[next..] == r.value.rest)
  {
    ghost var was := buf[..];
    forall i | 0 <= i < READ_LINE { buf[i] := NUL; }
    assert buf[..] == Zeros(READ_LINE) + was[READ_LINE..];
    var index, eol;
    index, next, eol := FillLine(file, pos, buf);
    assert file[pos..][..index] == file[pos..pos + index];
    LineIs(file[pos..], was, index);
    if index > 0 {
      if buf[index - 1] == '\r' {
        buf[index - 1] := NUL;
        index := index - 1;
      }
    }
    if !eol { return -1, next; }
    len := index;
  }

  /** How `ini_load` ended: 0, -1, or after writing outside one of its buffers. */
  datatype Status = Done | Bad | Overran

  /** How far `ini_load` has come: the objects mirror `l`, and loading the rest gives what loading all gives. */
  ghost predicate Loading(ini: Ini, buf: array<char>, line: string, cur: Section?, l: Loader)
    reads ini, ini.secs.Values, buf
  {
    && ini.Valid() && InConf(l) && buf[..] == l.buf && line == l.line
    && ini.Contents() == l.conf && ini.Current(cur, l.cur)
  }

  /** The status tells the result, which is the contents unless a buffer was overrun. */
  predicate Ended(r: Result, status: Status, contents: ConfMap) {
    match r
    case Loaded(conf) => status == Done && conf == contents
    case Malformed(conf) => status == Bad && conf == contents
    case Overrun => status == Overran
  }

  /** The loop goes on or has ended, as the turn says. */
  ghost predicate After(t: Turn, ended: bool, status: Status, ini: Ini, buf: array<char>, line: string, cur: Section?)
    reads ini, ini.secs.Values, buf
  {
    match t
    case Next(l) => !ended && Loading(ini, buf, line, cur, l)
    case Stop(r) => ended && Ended(r, status, ini.Contents())
  }

  lemma IndexFrom(s: string, c: char, from: nat, at: nat)
    requires from <= at <= |s| && c !in s[from..at] && (at < |s| ==> s[at] == c)
    ensures s[from..][..at - from] == s[from..at]
    ensures IndexOf(s[from..], c) == at - from
    ensures from == 0 ==> IndexOf(s, c) == at
  {
    var t := s[from..];
    assert from == 0 ==> t == s;
    assert t[..at - from] == s[from..at];
    if at < |s| {
      assert t == s[from..at] + [c] + s[at + 1..];
      IndexAt(s[from..at], c, s[at + 1..]);
    } else {
      assert t == s[from..at];
    }
  }

  /** A section line. */
  method OnSection(ini: Ini, buf: array<char>, line: string, cur: Section?, ghost l: Loader)
    returns (ended: bool, status: Status, cur': Section?)
    requires Loading(ini, buf, line, cur, l) && line != "" && line[0] == '['
    modifies ini
    ensures After(IniText.OnSection(l), ended, status, ini, buf, line, cur')
    ensures forall s :: s in ini.secs ==> (s in old(ini.secs) && ini.secs[s] == old(ini.secs)[s]) || fresh(ini.secs[s])
  {
    var tmp := Text.Find(line, ']', 1);
    IndexFrom(line, ']', 1, tmp);
    if tmp == |line| { return true, Bad, cur; }
    if tmp - 1 >= MAX_KEY { return true, Overran, cur; }
    var key := line[1..tmp];
    cur' := ini.InsertSec(key);
    ended := false;
    status := Done;
  }

  /** The part of `ini_load` from the search for `=` to the test for an empty key or value. */
  method FindPair(line: string) returns (p: Pair)
    ensures p == PairIn(line)
  {
    var eq := Text.Find(line, '=', 0);
    IndexFrom(line, '=', 0, eq);
    if eq == |line| || eq + 1 == |line| { return NoPair; }
    if eq >= MAX_KEY || |line| - eq - 1 >= MAX_VALUE { return TooBig; }
    var _, key := Trim(line[..eq], " ", "", MAX_KEY);
    var _, value := Trim(line[eq + 1..], " ", "", MAX_VALUE);
    p := if key == "" || value == "" then NoPair else Pair(key, value);
  }

  /** A line inside a section. */
  method OnPair(ini: Ini, buf: array<char>, line: string, cur: Section, ghost l: Loader) returns (ended: bool)
    requires Loading(ini, buf, line, cur, l) && l.cur.Some?
    modifies cur
    ensures After(IniText.OnPair(l, l.cur.value), ended, Overran, ini, buf, line, cur)
    ensures ini.secs == old(ini.secs)
  {
    var p := FindPair(line);
    if p.NoPair? { return false; }
    if p.TooBig? { return true; }
    ini.InsertIn(cur, l.cur.value, p.key, p.value);
    ended := false;
  }

  /** The loop body of `ini_load`, behind `read_line`. */
  method OnLine(ini: Ini, buf: array<char>, len: nat, line: string, cur: Section?, ghost l: Loader)
    returns (ended: bool, status: Status, line': string, cur': Section?)
    requires Loading(ini, buf, line, cur, l)
    modifies ini, ini.secs.Values
    ensures After(IniText.OnLine(l, len), ended, status, ini, buf, line', cur')
    ensures forall s :: s in ini.secs ==> (s in old(ini.secs) && ini.secs[s] == old(ini.secs)[s]) || fresh(ini.secs[s])
  {
    ended, status, line', cur' := false, Done, line, cur;
    if buf[0] == '#' || buf[0] == ';' || len == 0 { return; }
    var end := Text.Find(buf[..], NUL, 0);
    IndexFrom(buf[..], NUL, 0, end);
    if end == buf.Length { return true, Overran, line, cur; }
    var _, trimmed := Trim(buf[..end], " ", line, READ_LINE);
    line' := trimmed;
    ghost var l1 := l.(line := line');
    assert Loading(ini, buf, line', cur, l1);
    if line' == "" { return; }
    if line'[0] == '[' {
      ended, status, cur' := OnSection(ini, buf, line', cur, l1);
      return;
    }
    if cur != null {
      ended := OnPair(ini, buf, line', cur, l1);
      if ended { status := Overran; }
    }
  }

  /** One turn of the loop of `ini_load`. */
  method LoadLine(ini: Ini, file: string, pos: nat, buf: array<char>, line: string, cur: Section?, ghost l: Loader)
    returns (ended: bool, status: Status, next: nat, line': string, cur': Section?, ghost l': Loader)
    requires pos <= |file| && Loading(ini, buf, line, cur, l)
    modifies ini, ini.secs.Values, buf
    ensures !ended ==> pos < next <= |file| && Loading(ini, buf, line', cur', l')
    ensures !ended ==> LoadFrom(file[pos..], l) == LoadFrom(file[next..], l')
    ensures ended ==> Ended(LoadFrom(file[pos..], l), status, ini.Contents())
    ensures forall s :: s in ini.secs ==> (s in old(ini.secs) && ini.secs[s] == old(ini.secs)[s]) || fresh(ini.secs[s])
  {
    var len;
    len, next := ReadLine(file, pos, buf);
    if len < 0 { return true, Done, next, line, cur, l; }
    l' := l.(buf := buf[..]);
    assert Loading(ini, buf, line, cur, l');
    ghost var turn := IniText.OnLine(l', len);
    ended, status, line', cur' := OnLine(ini, buf, len, line, cur, l');
    if !ended { l' := turn.l; }
  }

  /** `ini_load`. */
  method LoadFile(ini: Ini, file: string) returns (status: Status)
    requires ini.Valid()
    modifies ini, ini.secs.Values
    ensures Ended(Load(file, old(ini.Contents())), status, ini.Contents())
  {
    var tmpline := new char[READ_LINE + 1](_ => NUL);
    var line, cur: Section?, pos := "", null, 0;
    ghost var l := Start(ini.Contents());
    ghost var whole := Load(file, ini.Contents());
    assert tmpline[..] == Zeros(READ_LINE + 1) && file[0..] == file;
    var ended := false;
    status := Done;
    while !ended
      invariant !ended ==> pos <= |file| && Loading(ini, tmpline, line, cur, l) && LoadFrom(file[pos..], l) == whole
      invariant ended ==> Ended(whole, status, ini.Contents())
      invariant forall s :: s in ini.secs ==> ini.secs[s] in old(ini.secs.Values) || fresh(ini.secs[s])
      decreases !ended, |file| - pos
    {
      ended, status, pos, line, cur, l := LoadLine(ini, file, pos, tmpline, line, cur, l);
    }
  }

  // ----- saving --------------------------------------------------------------------------

  lemma {:induction false} RenderOneMorePair(ps: Pairs, k: string, v: string)
    ensures RenderPairs(ps + [(k, v)]) == RenderPairs(ps) + (k + "=" + v + "\n")
  {
    if ps == [] {
      assert RenderPairs([(k, v)]) == k + "=" + v + "\n" + RenderPairs([(k, v)][1..]);
    } else {
      assert (ps + [(k, v)])[1..] == ps[1..] + [(k, v)];
      RenderOneMorePair(ps[1..], k, v);
    }
  }

  /** Of the map `whole`, `done` is written, as `ps`, and `todo` is not. */
  ghost predicate Halfway<V>(whole: map<string, V>, done: map<string, V>, todo: map<string, V>, ps: seq<(string, V)>) {
    done.Keys !! todo.Keys && done + todo == whole && Lists(ps, done)
  }

  /** One entry moves over. */
  lemma OneWritten<V>(whole: map<string, V>, done: map<string, V>, todo: map<string, V>, k: string,
                      ps: seq<(string, V)>)
    requires Halfway(whole, done, todo, ps) && k in todo
    ensures Halfway(whole, done[k := todo[k]], todo - {k}, ps + [(k, todo[k])]) && |todo - {k}| < |todo|
  {
    ListsOneMore(ps, done, k, todo[k]);
    SameUnion(done, todo, k, todo[k]);
    OneLess(todo, k);
  }

  lemma SameUnion<V>(a: map<string, V>, b: map<string, V>, k: string, v: V)
    requires a.Keys !! b.Keys && k in b && b[k] == v
    ensures a[k := v] + (b - {k}) == a + b && a[k := v].Keys !! (b - {k}).Keys
  {
  }

  lemma AllWritten<V>(whole: map<string, V>, done: map<string, V>, todo: map<string, V>, ps: seq<(string, V)>)
    requires Halfway(whole, done, todo, ps) && |todo| == 0
    ensures Lists(ps, whole)
  {
    assert todo == map[];
    assert done == whole;
  }

  /** `ini_save_sec`: the lines of one section, in whatever order the iterator returns them. */
  method SaveSection(sec: Section) returns (out: string, ghost ps: Pairs)
    ensures Lists(ps, sec.vals) && out == RenderPairs(ps)
  {
    out, ps := "", [];
    ghost var vals := sec.vals;
    var todo := sec.vals;
    ghost var done: map<string, string> := map[];
    assert done + todo == vals;
    while |todo| != 0
      invariant Halfway(vals, done, todo, ps) && out == RenderPairs(ps)
      decreases |todo|
    {
      var k :| k in todo;
      var v := todo[k];
      OneWritten(vals, done, todo, k, ps);
      RenderOneMorePair(ps, k, v);
      out := out + (k + "=" + v + "\n");
      ps := ps + [(k, v)];
      done, todo := done[k := v], todo - {k};
    }
    AllWritten(vals, done, todo, ps);
  }

  lemma {:induction false} RenderOneMore(secs: Sections, name: string, ps: Pairs)
    ensures Render(secs + [(name, ps)]) == Render(secs) + ("[" + name + "]" + "\n" + RenderPairs(ps))
  {
    if secs == [] {
      assert Render([(name, ps)][1..]) == "";
    } else {
      assert (secs + [(name, ps)])[1..] == secs[1..] + [(name, ps)];
      RenderOneMore(secs[1..], name, ps);
    }
  }

  /** `secs` spells out the sections in `ms`. */
  ghost predicate Spells(secs: Sections, ms: seq<(string, Section)>)
    reads set i | 0 <= i < |ms| :: ms[i].1
  {
    |secs| == |ms| && forall i :: 0 <= i < |ms| ==> secs[i].0 == ms[i].0 && Lists(secs[i].1, ms[i].1.vals)
  }

  lemma SpellsOneMore(secs: Sections, ms: seq<(string, Section)>, k: string, v: Section, ps: Pairs)
    requires Spells(secs, ms) && Lists(ps, v.vals)
    ensures Spells(secs + [(k, ps)], ms + [(k, v)])
  {
  }

  lemma SpellsConf(ini: Ini, secs: Sections, ms: seq<(string, Section)>)
    requires Spells(secs, ms) && Lists(ms, ini.secs)
    ensures ListsConf(secs, ini.Contents())
  {
    forall k | k in ini.secs ensures exists i :: 0 <= i < |secs| && secs[i].0 == k {
      var i :| 0 <= i < |ms| && ms[i].0 == k;
      assert secs[i].0 == k;
    }
  }

  /** The loop of `ini_save`. */
  method WriteSections(ini: Ini) returns (out: string, ghost secs: Sections, ghost ms: seq<(string, Section)>)
    ensures Lists(ms, ini.secs) && Spells(secs, ms) && out == Render(secs)
  {
    out, secs, ms := "", [], [];
    var todo := ini.secs;
    ghost var done: map<string, Section> := map[];
    ghost var whole := ini.secs;
    assert done + todo == whole;
    while |todo| != 0
      invariant Halfway(whole, done, todo, ms) && Spells(secs, ms) && out == Render(secs)
      decreases |todo|
    {
      var k :| k in todo;
      var v := todo[k];
      var text, ps := SaveSection(v);
      OneWritten(whole, done, todo, k, ms);
      SpellsOneMore(secs, ms, k, v, ps);
      RenderOneMore(secs, k, ps);
      out := out + ("[" + k + "]" + "\n" + text);
      secs, ms := secs + [(k, ps)], ms + [(k, v)];
      done, todo := done[k := v], todo - {k};
    }
    AllWritten(whole, done, todo, ms);
  }

  /**
   * `ini_save`: all sections, in whatever order the iterator returns them. Loading what was written gives
   * the configuration back exactly if it is canonical.
   */
  method SaveFile(ini: Ini) returns (out: string, ghost secs: Sections)
    ensures ListsConf(secs, ini.Contents()) && out == Render(secs)
    ensures Load(out, map[]) == Loaded(ini.Contents()) <==> Canonical(ini.Contents())
  {
    ghost var ms;
    out, secs, ms := WriteSections(ini);
    SpellsConf(ini, secs, ms);
    RoundTrip(secs, ini.Contents());
  }
}
