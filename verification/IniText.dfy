/**
 * The INI reader and writer on text: what `ini_load` makes of a file, what `ini_save` writes, and
 * exactly which configurations survive being written and read again.
 */
module IniText {
  import opened Options
  import opened Text

  const NUL := '\0'
  const MAX_KEY := 256
  const MAX_VALUE := 1024
  const READ_LINE := MAX_KEY + MAX_VALUE + 2

  /** Section to key to value. */
  type ConfMap = map<string, map<string, string>>

  /** The first `c` of a string, or its end. */
  function IndexOf(s: string, c: char): (r: nat)
    ensures r <= |s| && (forall i :: 0 <= i < r ==> s[i] != c) && (r < |s| ==> s[r] == c)
  {
    if s == "" || s[0] == c then 0 else IndexOf(s[1..], c) + 1
  }

  /** The C string at the start of a buffer; `None` if no NUL ends it there. */
  function CString(buf: seq<char>): (r: Option<string>)
    ensures r.Some? ==> r.value <= buf && NUL !in r.value
  {
    var n := IndexOf(buf, NUL);
    if n == |buf| then None else Some(buf[..n])
  }

  // ----- reading -------------------------------------------------------------------------

  function Zeros(n: nat): seq<char> {
    seq(n, _ => NUL)
  }

  datatype Line = Line(len: nat, buf: seq<char>, rest: string)

  /** `memset` of all but the last byte of the line buffer, then a line and no NUL of its own. */
  function Stored(t: string, buf: seq<char>): (r: seq<char>)
    requires 0 < |buf| && |t| <= |buf|
    ensures |r| == |buf|
  {
    t + (Zeros(|buf| - 1) + buf[|buf| - 1..])[|t|..]
  }

  /** A line in the buffer, without its carriage return, and the text behind it. */
  function LineOf(t: string, rest: string, buf: seq<char>): (r: Line)
    requires 0 < |buf| && |t| <= |buf|
    ensures |r.buf| == |buf| && r.rest == rest
  {
    var n := |t|;
    var b := Stored(t, buf);
    if n > 0 && b[n - 1] == '\r' then Line(n - 1, b[n - 1 := NUL], rest) else Line(n, b, rest)
  }

  /**
   * `read_line` into a buffer of `size + 1` bytes. `None` is -1: the line is too long, or the file
   * ends in it, with or without characters.
   */
  function ReadLine(file: string, buf: seq<char>, size: nat): (r: Option<Line>)
    requires |buf| == size + 1
    ensures r.Some? ==> |r.value.buf| == size + 1 && |r.value.rest| < |file|
  {
    var n := IndexOf(file, '\n');
    if n == |file| || n > size + 1 then None else Some(LineOf(file[..n], file[n + 1..], buf))
  }

  /** What the loop keeps between lines: both buffers, what is loaded, and the section that takes keys. */
  datatype Loader = Loader(buf: seq<char>, line: string, conf: ConfMap, cur: Option<string>)

  /** 0, -1, or an overrun of a buffer. */
  datatype Result = Loaded(conf: ConfMap) | Malformed(conf: ConfMap) | Overrun

  datatype Turn = Next(l: Loader) | Stop(r: Result)

  /** `ini_insert_val`: the first value of a key stays. */
  function InsertVal(m: map<string, string>, k: string, v: string): map<string, string> {
    if k in m then m else m[k := v]
  }

  /** A section line. */
  function OnSection(l: Loader): Turn
    requires l.line != ""
  {
    var n := IndexOf(l.line[1..], ']');
    if n == |l.line| - 1 then Stop(Malformed(l.conf))
    else if n >= MAX_KEY then Stop(Overrun)
    else
      var name := l.line[1..n + 1];
      if name in l.conf then Next(l.(cur := None)) else Next(l.(conf := l.conf[name := map[]], cur := Some(name)))
  }

  datatype Pair = NoPair | TooBig | Pair(key: string, value: string)

  /** The pair on a line, trimmed; an empty side makes it none. */
  function PairIn(line: string): Pair {
    var n := IndexOf(line, '=');
    if n + 1 >= |line| then NoPair
    else if n >= MAX_KEY || |line| - n - 1 >= MAX_VALUE then TooBig
    else
      var key, value := TrimInto(line[..n], " ", "", MAX_KEY), TrimInto(line[n + 1..], " ", "", MAX_VALUE);
      if key == "" || value == "" then NoPair else Pair(key, value)
  }

  /** Any other line inside section `s`. */
  function OnPair(l: Loader, s: string): Turn
    requires s in l.conf
  {
    match PairIn(l.line)
    case NoPair => Next(l)
    case TooBig => Stop(Overrun)
    case Pair(key, value) => Next(l.(conf := l.conf[s := InsertVal(l.conf[s], key, value)]))
  }

  predicate InConf(l: Loader) {
    |l.buf| == READ_LINE + 1 && (l.cur.Some? ==> l.cur.value in l.conf)
  }

  /** The loop body of `ini_load`, after `read_line` has returned `len`. */
  function OnLine(l: Loader, len: nat): (r: Turn)
    requires InConf(l)
    ensures r.Next? ==> InConf(r.l)
  {
    if l.buf[0] == '#' || l.buf[0] == ';' || len == 0 then Next(l)
    else
      var text := CString(l.buf);
      if text.None? then Stop(Overrun)
      else
        var l := l.(line := TrimInto(text.value, " ", l.line, READ_LINE));
        if l.line == "" then Next(l)
        else if l.line[0] == '[' then OnSection(l)
        else if l.cur.Some? then OnPair(l, l.cur.value)
        else Next(l)
  }

  function LoadFrom(file: string, l: Loader): Result
    requires InConf(l)
    decreases |file|
  {
    match ReadLine(file, l.buf, READ_LINE)
    case None => Loaded(l.conf)
    case Some(Line(len, buf, rest)) =>
      match OnLine(l.(buf := buf), len)
      case Next(l') => LoadFrom(rest, l')
      case Stop(r) => r
  }

  function Start(conf: ConfMap): (l: Loader)
    ensures InConf(l)
  {
    Loader(Zeros(READ_LINE + 1), "", conf, None)
  }

  /** `ini_load`. */
  function Load(file: string, conf: ConfMap): Result {
    LoadFrom(file, Start(conf))
  }

  // ----- writing -------------------------------------------------------------------------

  type Pairs = seq<(string, string)>
  type Sections = seq<(string, Pairs)>

  function RenderPairs(ps: Pairs): string {
    if ps == [] then "" else ps[0].0 + "=" + ps[0].1 + "\n" + RenderPairs(ps[1..])
  }

  /** What `ini_save` writes when the iterators return sections and pairs in this order. */
  function Render(secs: Sections): string {
    if secs == [] then "" else "[" + secs[0].0 + "]" + "\n" + (RenderPairs(secs[0].1) + Render(secs[1..]))
  }

  /** An order in which an iterator may return a map. */
  ghost predicate Lists<V>(ps: seq<(string, V)>, m: map<string, V>) {
    && (forall i, j :: 0 <= i < j < |ps| ==> ps[i].0 != ps[j].0)
    && (forall i :: 0 <= i < |ps| ==> ps[i].0 in m && m[ps[i].0] == ps[i].1)
    && (forall k :: k in m ==> exists i :: 0 <= i < |ps| && ps[i].0 == k)
  }

  ghost predicate ListsConf(secs: Sections, conf: ConfMap) {
    && (forall i, j :: 0 <= i < j < |secs| ==> secs[i].0 != secs[j].0)
    && (forall i :: 0 <= i < |secs| ==> secs[i].0 in conf && Lists(secs[i].1, conf[secs[i].0]))
    && (forall k :: k in conf ==> exists i :: 0 <= i < |secs| && secs[i].0 == k)
  }

  // ----- which configurations survive ----------------------------------------------------

  predicate OneLine(s: string) {
    '\n' !in s && NUL !in s
  }

  predicate GoodName(s: string) {
    OneLine(s) && ']' !in s && |s| < MAX_KEY
  }

  predicate GoodKey(k: string) {
    OneLine(k) && k != "" && Trimmed(k, " ") && '=' !in k && k[0] != '[' && |k| < MAX_KEY
  }

  predicate GoodValue(v: string) {
    OneLine(v) && v != "" && Trimmed(v, " ") && |v| < MAX_VALUE
  }

  /** What loading can produce. */
  predicate Loadable(conf: ConfMap) {
    forall s :: s in conf ==> GoodName(s) && forall k :: k in conf[s] ==> GoodKey(k) && GoodValue(conf[s][k])
  }

  /** Written at the start of a line, such a key makes the line a comment. */
  predicate CommentKey(k: string) {
    k != "" && (k[0] == '#' || k[0] == ';')
  }

  function Chomp(v: string): string {
    if v != "" && v[|v| - 1] == '\r' then v[..|v| - 1] else v
  }

  /** A pair that its own line gives back. */
  predicate StablePair(k: string, v: string) {
    !CommentKey(k) && Chomp(v) == v
  }

  /** What survives being written and read. */
  predicate Canonical(conf: ConfMap) {
    Loadable(conf) && forall s :: s in conf ==> forall k :: k in conf[s] ==> StablePair(k, conf[s][k])
  }

  /** What becomes of the value when the line of a pair is read. */
  function Reread(k: string, v: string): Option<string> {
    var w := StripRight(Chomp(v), " ");
    if CommentKey(k) || w == "" then None else Some(w)
  }

  function RereadMap(m: map<string, string>): map<string, string> {
    map k | k in m && Reread(k, m[k]).Some? :: Reread(k, m[k]).value
  }

  function RereadConf(conf: ConfMap): ConfMap {
    map s | s in conf :: RereadMap(conf[s])
  }
}
