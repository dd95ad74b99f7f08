/** The RUN_TIME conditions: from configuration text to windows, and from windows to a decision. */
module Conditions {
  import opened Text

  /** `cond_t`: `day[d]` for d in 0..7, and two seconds of the day. */
  datatype Cond = Cond(day: seq<bool>, start: int, end: int)

  /** One condition of `judge_condition`; `diff` is the time since the program's time stamp. */
  predicate Holds(flag: int, c: Cond, wday: int, sec: int, diff: int) {
    0 <= wday < |c.day| && c.day[wday] && ((flag == 2 && diff > c.start) || c.start <= sec <= c.end)
  }

  /** A day of the condition, at a second from its start to its end. */
  predicate InWindow(c: Cond, wday: int, sec: int) {
    0 <= wday < |c.day| && c.day[wday] && c.start <= sec <= c.end
  }

  predicate Judge(flag: int, cond: seq<Cond>, wday: int, sec: int, diff: int) {
    flag <= 0 || exists i :: 0 <= i < |cond| && Holds(flag, cond[i], wday, sec, diff)
  }

  /** `judge_condition`; `tm_wday` counts from Sunday as 0. */
  method JudgeCondition(flag: int, cond: seq<Cond>, tm_wday: int, sec: int, diff: int) returns (r: bool)
    ensures r == Judge(flag, cond, if tm_wday == 0 then 7 else tm_wday, sec, diff)
    ensures flag <= 0 ==> r
    ensures flag > 0 && flag != 2 ==>
      (r <==> exists i :: 0 <= i < |cond| && InWindow(cond[i], if tm_wday == 0 then 7 else tm_wday, sec))
  {
    if flag <= 0 { return true; }
    var wday := tm_wday;
    if wday == 0 { wday := 7; }
    for i := 0 to |cond|
      invariant forall j :: 0 <= j < i ==> !Holds(flag, cond[j], wday, sec, diff)
    {
      var c := cond[i];
      if 0 <= wday < |c.day| && c.day[wday] {
        if flag == 2 {
          if diff > c.start { return true; }
        }
        if sec >= c.start && sec <= c.end { return true; }
      }
    }
    r := false;
  }

  // ----- numbers -------------------------------------------------------------------------

  predicate IsDigit(c: char) { '0' <= c <= '9' }

  function DigitsFrom(acc: int, s: string): int
    decreases |s|
  {
    if s != "" && IsDigit(s[0]) then DigitsFrom(acc * 10 + (s[0] as int - '0' as int), s[1..]) else acc
  }

  /** `atoi`: leading white space, a sign, then digits up to the first other character. */
  function Atoi(s: string): int
    decreases |s|
  {
    if s == "" then 0
    else if s[0] == ' ' || ('\t' <= s[0] <= '\r') then Atoi(s[1..])
    else if s[0] == '-' then -DigitsFrom(0, s[1..])
    else if s[0] == '+' then DigitsFrom(0, s[1..])
    else DigitsFrom(0, s)
  }

  // ----- build_condition -----------------------------------------------------------------

  /** What becomes of the text: accepted, refused with -1, or a write outside an array. */
  datatype Parsed<T> = Accepted(value: T) | Invalid | Overrun

  function ParseTimes(text: string): Parsed<(int, int)> {
    match SplitOf(text, '-', 64, 2)
    case Overflow => Overrun
    case Refused => Invalid
    case Pieces(t) =>
      if |t| != 2 || |t[0]| != 5 || t[0][2] != ':' || |t[1]| != 5 || t[1][2] != ':' then Invalid
      else
        var start := Atoi(t[0]) * 3600 + Atoi(t[0][3..]) * 60;
        var end := Atoi(t[1]) * 3600 + Atoi(t[1][3..]) * 60;
        if start >= end || start < 0 || end < 0 || start > 86400 || end > 86400 then Invalid
        else Accepted((start, end))
  }

  function DaysOf(from: int, to: int): seq<bool> {
    seq(8, d => from <= d <= to)
  }

  /** One `d-d,HH:MM-HH:MM` (for a period program, `d-d,minutes`). */
  function ParseOne(flag: int, text: string): Parsed<Cond> {
    match SplitOf(text, ',', 64, 2)
    case Overflow => Overrun
    case Refused => Invalid
    case Pieces(dt) =>
      if |dt| != 2 || |dt[0]| != 3 || dt[0][1] != '-' then Invalid
      else
        var from, to := Atoi(dt[0]), Atoi(dt[0][2..]);
        if from > to || from <= 0 || to <= 0 || from > 7 || to > 7 then Invalid
        else if flag == 2 then Accepted(Cond(DaysOf(from, to), Atoi(dt[1]) * 60, Atoi(dt[1]) * 60))
        else
          match ParseTimes(dt[1])
          case Overrun => Overrun
          case Invalid => Invalid
          case Accepted(se) => Accepted(Cond(DaysOf(from, to), se.0, se.1))
  }

  function ParseAll(flag: int, texts: seq<string>): Parsed<seq<Cond>>
    decreases |texts|
  {
    if texts == [] then Accepted([])
    else
      match ParseOne(flag, texts[0])
      case Overrun => Overrun
      case Invalid => Invalid
      case Accepted(c) =>
        match ParseAll(flag, texts[1..])
        case Overrun => Overrun
        case Invalid => Invalid
        case Accepted(cs) => Accepted([c] + cs)
  }

  function Conditions(flag: int, cond: string): Parsed<seq<Cond>> {
    match SplitOf(cond, '|', 64, 128)
    case Overflow => Overrun
    case Refused => Invalid
    case Pieces(ts) => ParseAll(flag, ts)
  }

  function Prefixed(list: seq<Cond>, r: Parsed<seq<Cond>>): Parsed<seq<Cond>> {
    if r.Accepted? then Accepted(list + r.value) else r
  }

  lemma PrefixedStep(flag: int, texts: seq<string>, list: seq<Cond>)
    requires texts != []
    ensures Prefixed(list, ParseAll(flag, texts)) ==
            match ParseOne(flag, texts[0])
            case Accepted(c) => Prefixed(list + [c], ParseAll(flag, texts[1..]))
            case Invalid => Invalid
            case Overrun => Overrun
  {
    var rest := ParseAll(flag, texts[1..]);
    if ParseOne(flag, texts[0]).Accepted? && rest.Accepted? {
      var c := ParseOne(flag, texts[0]).value;
      assert list + ([c] + rest.value) == (list + [c]) + rest.value;
    }
  }

  lemma PrefixedNil(r: Parsed<seq<Cond>>)
    ensures Prefixed([], r) == r
  {
    if r.Accepted? { assert [] + r.value == r.value; }
  }

  /** The loop of `build_condition` stops at the first condition that does not parse. */
  method BuildList(flag: int, ts: seq<string>) returns (r: Parsed<seq<Cond>>)
    ensures r == ParseAll(flag, ts)
  {
    var list := [];
    var i := 0;
    assert ts[0..] == ts;
    PrefixedNil(ParseAll(flag, ts));
    while i < |ts|
      invariant i <= |ts|
      invariant ParseAll(flag, ts) == Prefixed(list, ParseAll(flag, ts[i..]))
      decreases |ts| - i
    {
      PrefixedStep(flag, ts[i..], list);
      assert ts[i..][1..] == ts[i + 1..];
      var p := ParseOne(flag, ts[i]);
      if p.Invalid? { return Invalid; }
      if p.Overrun? { return Overrun; }
      list := list + [p.value];
      i := i + 1;
    }
    assert ts[i..] == [] && list + [] == list;
    r := Accepted(list);
  }

  /** `build_condition`. */
  method BuildCondition(flag: int, cond: string) returns (r: Parsed<seq<Cond>>)
    ensures r == Conditions(flag, cond)
  {
    var s := Split(cond, '|', 64, 128);
    match s
    case Refused => return Invalid;
    case Overflow => return Overrun;
    case Pieces(ts) => r := BuildList(flag, ts);
  }

  // ----- every accepted condition is proper ----------------------------------------------

  /** Some weekdays, and a window of the day; or for a period program, a number of minutes. */
  ghost predicate Proper(flag: int, c: Cond) {
    && (exists from, to :: 1 <= from <= to <= 7 && c.day == DaysOf(from, to))
    && if flag == 2 then c.start == c.end && c.start % 60 == 0 else 0 <= c.start < c.end <= 86400
  }

  lemma AcceptedIsProper(flag: int, text: string)
    requires ParseOne(flag, text).Accepted?
    ensures Proper(flag, ParseOne(flag, text).value)
  {
    var dt := SplitOf(text, ',', 64, 2).pieces;
    assert ParseOne(flag, text).value.day == DaysOf(Atoi(dt[0]), Atoi(dt[0][2..]));
  }

  lemma {:induction false} AcceptedAreProper(flag: int, texts: seq<string>)
    requires ParseAll(flag, texts).Accepted?
    ensures var cs := ParseAll(flag, texts).value;
      |cs| == |texts| && forall i :: 0 <= i < |cs| ==> Proper(flag, cs[i])
    decreases |texts|
  {
    if texts != [] {
      AcceptedAreProper(flag, texts[1..]);
      AcceptedIsProper(flag, texts[0]);
    }
  }

  /** For any text at all: what `build_condition` accepts is one or more proper conditions. */
  lemma BuildIsProper(flag: int, cond: string)
    requires Conditions(flag, cond).Accepted?
    ensures var cs := Conditions(flag, cond).value; cs != [] && forall i :: 0 <= i < |cs| ==> Proper(flag, cs[i])
  {
    AcceptedAreProper(flag, SplitOf(cond, '|', 64, 128).pieces);
  }

  // ----- from windows to text and back ----------------------------------------------------

  /** A window as the configuration writes it: two weekdays and two times of day. */
  datatype Window = Window(from: int, to: int, h0: int, m0: int, h1: int, m1: int)

  /** One digit for a day, two for an hour or a minute. */
  ghost predicate Printable(w: Window) {
    && 0 <= w.from < 10 && 0 <= w.to < 10
    && 0 <= w.h0 < 100 && 0 <= w.m0 < 100 && 0 <= w.h1 < 100 && 0 <= w.m1 < 100
  }

  ghost predicate ValidWindow(w: Window) {
    Printable(w) && 1 <= w.from <= w.to <= 7 && Start(w) < End(w) <= 86400
  }

  function Start(w: Window): int { w.h0 * 3600 + w.m0 * 60 }
  function End(w: Window): int { w.h1 * 3600 + w.m1 * 60 }

  /** Second `sec` of weekday `wday` lies in the window, both ends included. */
  predicate Contains(w: Window, wday: int, sec: int) {
    w.from <= wday <= w.to && Start(w) <= sec <= End(w)
  }

  function Digit(d: int): char
    requires 0 <= d < 10
  {
    (d + '0' as int) as char
  }

  function TwoDigits(n: int): string
    requires 0 <= n < 100
  {
    [Digit(n / 10), Digit(n % 10)]
  }

  function PrintDays(from: int, to: int): string
    requires 0 <= from < 10 && 0 <= to < 10
  {
    [Digit(from), '-', Digit(to)]
  }

  function PrintTime(h: int, m: int): string
    requires 0 <= h < 100 && 0 <= m < 100
  {
    TwoDigits(h) + ":" + TwoDigits(m)
  }

  ghost function PrintTimes(w: Window): string
    requires Printable(w)
  {
    Join([PrintTime(w.h0, w.m0), PrintTime(w.h1, w.m1)], '-')
  }

  ghost function PrintWindow(w: Window): string
    requires Printable(w)
  {
    Join([PrintDays(w.from, w.to), PrintTimes(w)], ',')
  }

  ghost function PrintAll(ws: seq<Window>): seq<string>
    requires forall i :: 0 <= i < |ws| ==> Printable(ws[i])
  {
    seq(|ws|, i requires 0 <= i < |ws| => PrintWindow(ws[i]))
  }

  ghost function CondOf(w: Window): Cond { Cond(DaysOf(w.from, w.to), Start(w), End(w)) }

  ghost function CondsOf(ws: seq<Window>): seq<Cond> {
    seq(|ws|, i requires 0 <= i < |ws| => CondOf(ws[i]))
  }

  lemma AtoiDigits(n: int, rest: string)
    requires 0 <= n < 100 && (rest == "" || !IsDigit(rest[0]))
    ensures Atoi(TwoDigits(n) + rest) == n
    ensures n < 10 ==> Atoi([Digit(n)] + rest) == n
  {
    var s := TwoDigits(n) + rest;
    assert s[1..][1..] == rest;
    assert DigitsFrom(0, s) == DigitsFrom(n / 10, s[1..]) == DigitsFrom(n / 10 * 10 + n % 10, rest) == n;
    if n < 10 {
      var u := [Digit(n)] + rest;
      assert u[1..] == rest;
    }
  }

  /** `atoi` reads the hour at the front of `HH:MM` and the minute three characters on. */
  lemma TimeRoundTrip(h: int, m: int)
    requires 0 <= h < 100 && 0 <= m < 100
    ensures var t := PrintTime(h, m);
      && |t| == 5 && t[2] == ':' && '-' !in t && ',' !in t && '|' !in t
      && Atoi(t) == h && Atoi(t[3..]) == m
  {
    var t := PrintTime(h, m);
    assert t == TwoDigits(h) + (":" + TwoDigits(m));
    AtoiDigits(h, ":" + TwoDigits(m));
    assert t[3..] == TwoDigits(m) + "";
    AtoiDigits(m, "");
  }

  lemma JoinTwo(a: string, b: string, needle: char)
    ensures Join([a, b], needle) == a + [needle] + b
  {
  }

  /** Two pieces that fit are recovered from their join. */
  lemma SplitTwo(a: string, b: string, needle: char)
    requires needle !in a && needle !in b && |a| < 64 && |b| < 64
    ensures SplitOf(Join([a, b], needle), needle, 64, 2) == Pieces([a, b])
  {
    JoinTwo(a, b, needle);
    PartsOfJoin([a, b], needle);
  }

  lemma DaysRoundTrip(from: int, to: int)
    requires 0 <= from < 10 && 0 <= to < 10
    ensures var days := PrintDays(from, to);
      |days| == 3 && days[1] == '-' && ',' !in days && Atoi(days) == from && Atoi(days[2..]) == to
  {
    var days := PrintDays(from, to);
    assert days == [Digit(from)] + ("-" + [Digit(to)]) && days[2..] == [Digit(to)] + "";
    AtoiDigits(from, "-" + [Digit(to)]);
    AtoiDigits(to, "");
  }

  lemma TimesRoundTrip(w: Window)
    requires Printable(w)
    ensures ',' !in PrintTimes(w) && '|' !in PrintTimes(w) && |PrintTimes(w)| == 11
    ensures ParseTimes(PrintTimes(w)) == if Start(w) < End(w) <= 86400 then Accepted((Start(w), End(w))) else Invalid
  {
    TimeRoundTrip(w.h0, w.m0);
    TimeRoundTrip(w.h1, w.m1);
    var t0, t1 := PrintTime(w.h0, w.m0), PrintTime(w.h1, w.m1);
    JoinTwo(t0, t1, '-');
    SplitTwo(t0, t1, '-');
  }

  /** A printed window is accepted, as exactly that window, if it is valid, and refused if it is not. */
  lemma WindowRoundTrip(flag: int, w: Window)
    requires flag != 2 && Printable(w)
    ensures ParseOne(flag, PrintWindow(w)) == if ValidWindow(w) then Accepted(CondOf(w)) else Invalid
    ensures '|' !in PrintWindow(w) && |PrintWindow(w)| == 15
  {
    TimesRoundTrip(w);
    DaysRoundTrip(w.from, w.to);
    var days, times := PrintDays(w.from, w.to), PrintTimes(w);
    JoinTwo(days, times, ',');
    SplitTwo(days, times, ',');
  }

  ghost predicate AllValid(ws: seq<Window>) {
    forall i :: 0 <= i < |ws| ==> ValidWindow(ws[i])
  }

  lemma {:induction false} AllAccepted(flag: int, ws: seq<Window>, texts: seq<string>)
    requires flag != 2 && |texts| == |ws| && AllValid(ws)
    requires forall i :: 0 <= i < |ws| ==> Printable(ws[i]) && texts[i] == PrintWindow(ws[i])
    ensures ParseAll(flag, texts) == Accepted(CondsOf(ws))
    decreases |ws|
  {
    if ws == [] {
      assert CondsOf(ws) == [];
    } else {
      WindowRoundTrip(flag, ws[0]);
      AllAccepted(flag, ws[1..], texts[1..]);
      CondsOfFirst(ws);
    }
  }

  lemma CondsOfFirst(ws: seq<Window>)
    requires ws != []
    ensures CondsOf(ws) == [CondOf(ws[0])] + CondsOf(ws[1..])
  {
  }

  lemma {:induction false} OneRefused(flag: int, ws: seq<Window>, texts: seq<string>, k: nat)
    requires flag != 2 && |texts| == |ws| && k < |ws| && !ValidWindow(ws[k])
    requires forall i :: 0 <= i < |ws| ==> Printable(ws[i]) && texts[i] == PrintWindow(ws[i])
    ensures ParseAll(flag, texts) == Invalid
    decreases |ws|
  {
    WindowRoundTrip(flag, ws[0]);
    if ValidWindow(ws[0]) { OneRefused(flag, ws[1..], texts[1..], k - 1); }
  }

  lemma ShortPieces(ps: seq<string>, size: nat, num: nat)
    requires ps != [] && |ps| <= num && forall i :: 0 <= i < |ps| ==> |ps[i]| < size
    ensures Placed(ps, size, num) == Pieces(ps)
  {
    var last := |ps| - 1;
    assert (num - last) * size >= 1 * size;
  }

  lemma PrintedSplit(flag: int, ws: seq<Window>)
    requires flag != 2 && 1 <= |ws| <= 128 && forall i :: 0 <= i < |ws| ==> Printable(ws[i])
    ensures SplitOf(Join(PrintAll(ws), '|'), '|', 64, 128) == Pieces(PrintAll(ws))
  {
    var texts := PrintAll(ws);
    forall i | 0 <= i < |texts| ensures '|' !in texts[i] && |texts[i]| == 15 { WindowRoundTrip(flag, ws[i]); }
    PartsOfJoin(texts, '|');
    JoinNonEmpty(texts, '|');
    ShortPieces(texts, 64, 128);
  }

  /**
   * Printed windows joined by `|` are accepted, and give exactly the windows, if every one is valid;
   * if one is not, the whole text is refused.
   */
  lemma AcceptsPrinted(flag: int, ws: seq<Window>)
    requires flag != 2 && 1 <= |ws| <= 128 && forall i :: 0 <= i < |ws| ==> Printable(ws[i])
    ensures Conditions(flag, Join(PrintAll(ws), '|')) == if AllValid(ws) then Accepted(CondsOf(ws)) else Invalid
  {
    var texts := PrintAll(ws);
    PrintedSplit(flag, ws);
    if AllValid(ws) {
      AllAccepted(flag, ws, texts);
    } else {
      var k :| 0 <= k < |ws| && !ValidWindow(ws[k]);
      OneRefused(flag, ws, texts, k);
    }
  }

  lemma JudgeIsContains(flag: int, ws: seq<Window>, wday: int, sec: int, diff: int)
    requires flag > 0 && flag != 2 && 1 <= wday <= 7
    ensures Judge(flag, CondsOf(ws), wday, sec, diff) <==> exists i :: 0 <= i < |ws| && Contains(ws[i], wday, sec)
  {
    var cs := CondsOf(ws);
    forall i | 0 <= i < |ws| ensures Holds(flag, cs[i], wday, sec, diff) <==> Contains(ws[i], wday, sec) {
      assert cs[i] == CondOf(ws[i]);
    }
  }

  /**
   * Text to decision: any list of 1 to 128 valid windows, printed and joined by `|`, is accepted for a
   * watched program, and the program may run at a given weekday and second exactly when some window contains it.
   */
  lemma TextToDecision(flag: int, ws: seq<Window>, wday: int, sec: int, diff: int)
    requires flag > 0 && flag != 2 && 1 <= wday <= 7
    requires 1 <= |ws| <= 128 && AllValid(ws) && forall i :: 0 <= i < |ws| ==> Printable(ws[i])
    ensures var r := Conditions(flag, Join(PrintAll(ws), '|'));
      && r.Accepted?
      && (Judge(flag, r.value, wday, sec, diff) <==> exists i :: 0 <= i < |ws| && Contains(ws[i], wday, sec))
  {
    AcceptsPrinted(flag, ws);
    JudgeIsContains(flag, ws, wday, sec, diff);
  }

  lemma JoinNonEmpty(pieces: seq<string>, needle: char)
    requires pieces != [] && pieces[0] != ""
    ensures Join(pieces, needle) != ""
  {
  }

  // ----- periods -------------------------------------------------------------------------

  function Decimal(n: nat): string {
    if n < 10 then [Digit(n)] else Decimal(n / 10) + [Digit(n % 10)]
  }

  lemma {:induction false} DigitsOn(acc: int, a: string, c: char)
    requires (forall i :: 0 <= i < |a| ==> IsDigit(a[i])) && IsDigit(c)
    ensures DigitsFrom(acc, a + [c]) == DigitsFrom(acc, a) * 10 + (c as int - '0' as int)
    decreases |a|
  {
    if a == "" {
      assert a + [c] == [c] && [c][1..] == "";
    } else {
      assert (a + [c])[1..] == a[1..] + [c];
      DigitsOn(acc * 10 + (a[0] as int - '0' as int), a[1..], c);
    }
  }

  /** `atoi` reads any number of digits. */
  lemma {:induction false} AtoiDecimal(n: nat)
    ensures var s := Decimal(n);
      s != "" && (forall i :: 0 <= i < |s| ==> IsDigit(s[i])) && DigitsFrom(0, s) == n && Atoi(s) == n
  {
    if n >= 10 {
      AtoiDecimal(n / 10);
      DigitsOn(0, Decimal(n / 10), Digit(n % 10));
    }
  }

  /** The number behind the days of a period program counts minutes: `start` and `end` are that many times 60. */
  lemma PeriodIsMinutes(from: int, to: int, n: nat)
    requires 0 <= from < 10 && 0 <= to < 10 && |Decimal(n)| < 64
    ensures ParseOne(2, PrintDays(from, to) + "," + Decimal(n)) ==
            if 1 <= from <= to <= 7 then Accepted(Cond(DaysOf(from, to), n * 60, n * 60)) else Invalid
  {
    var days := PrintDays(from, to);
    AtoiDecimal(n);
    DaysRoundTrip(from, to);
    JoinTwo(days, Decimal(n), ',');
    SplitTwo(days, Decimal(n), ',');
  }

  /** It then holds on its days once more than so many minutes have passed, and at that very second of the day. */
  lemma PeriodDecision(from: int, to: int, n: nat, wday: int, sec: int, diff: int)
    requires 1 <= from <= to <= 7 && |Decimal(n)| < 64 && 1 <= wday <= 7
    ensures var r := ParseOne(2, PrintDays(from, to) + "," + Decimal(n));
      && r.Accepted?
      && (Judge(2, [r.value], wday, sec, diff) <==> from <= wday <= to && (diff > n * 60 || sec == n * 60))
  {
    PeriodIsMinutes(from, to, n);
    var c := Cond(DaysOf(from, to), n * 60, n * 60);
    assert [c][0] == c;
  }

  // ----- what is accepted, for any text --------------------------------------------------

  predicate IsBlank(c: char) { c == ' ' || '\t' <= c <= '\r' }

  /** The number that digits spell. */
  function Numeral(digits: string): int {
    if digits == "" then 0
    else Numeral(digits[..|digits| - 1]) * 10 + (digits[|digits| - 1] as int - '0' as int)
  }

  predicate AllDigits(s: string) {
    forall i :: 0 <= i < |s| ==> IsDigit(s[i])
  }

  lemma {:induction false} DigitsStop(acc: int, digits: string, rest: string)
    requires AllDigits(digits) && (rest == "" || !IsDigit(rest[0]))
    ensures DigitsFrom(acc, digits + rest) == DigitsFrom(acc, digits)
    decreases |digits|
  {
    if digits == "" {
      assert digits + rest == rest;
    } else {
      assert (digits + rest)[1..] == digits[1..] + rest;
      DigitsStop(acc * 10 + (digits[0] as int - '0' as int), digits[1..], rest);
    }
  }

  lemma {:induction false} DigitsAre(digits: string)
    requires AllDigits(digits)
    ensures DigitsFrom(0, digits) == Numeral(digits)
    decreases |digits|
  {
    if digits != "" {
      var n := |digits| - 1;
      DigitsAre(digits[..n]);
      DigitsOn(0, digits[..n], digits[n]);
      assert digits == digits[..n] + [digits[n]];
    }
  }

  /** `atoi` reads the number behind leading blanks and a sign, whatever follows the digits. */
  lemma {:induction false} AtoiReads(blanks: string, sign: string, digits: string, rest: string)
    requires (forall i :: 0 <= i < |blanks| ==> IsBlank(blanks[i])) && sign in {"", "-", "+"}
    requires digits != "" && AllDigits(digits) && (rest == "" || !IsDigit(rest[0]))
    ensures Atoi(blanks + sign + digits + rest) == if sign == "-" then -Numeral(digits) else Numeral(digits)
    decreases |blanks|
  {
    var s := blanks + sign + digits + rest;
    if blanks != "" {
      assert s[1..] == blanks[1..] + sign + digits + rest;
      AtoiReads(blanks[1..], sign, digits, rest);
    } else {
      DigitsStop(0, digits, rest);
      DigitsAre(digits);
      if sign == "" { assert s == digits + rest; } else { assert s[1..] == digits + rest; }
    }
  }

  /** `text` is three characters of days, a comma, and two times of five characters with a hyphen in between. */
  ghost predicate Spelt(text: string, days: string, a: string, b: string) {
    && text == days + "," + (a + "-" + b)
    && |days| == 3 && days[1] == '-' && ',' !in days && ',' !in a && ',' !in b
    && |a| == |b| == 5 && a[2] == b[2] == ':' && '-' !in a && '-' !in b
  }

  function SecondsOf(t: string): int
    requires |t| == 5
  {
    Atoi(t) * 3600 + Atoi(t[3..]) * 60
  }

  ghost predicate InRange(days: string, a: string, b: string)
    requires |days| == 3 && |a| == |b| == 5
  {
    1 <= Atoi(days) <= Atoi(days[2..]) <= 7 && 0 <= SecondsOf(a) < SecondsOf(b) <= 86400
  }

  /** The window that a text spells, if its numbers are in range. */
  ghost predicate SpeltWindow(text: string, c: Cond, days: string, a: string, b: string) {
    && Spelt(text, days, a, b) && InRange(days, a, b)
    && c == Cond(DaysOf(Atoi(days), Atoi(days[2..])), SecondsOf(a), SecondsOf(b))
  }

  lemma TwoPieces(text: string, needle: char, size: nat, ps: seq<string>)
    requires SplitOf(text, needle, size, 2) == Pieces(ps) && |ps| == 2
    ensures text == ps[0] + [needle] + ps[1] && needle !in ps[0] && needle !in ps[1]
  {
    JoinOfParts(text, needle);
    assert ps[1..] == [ps[1]];
    JoinTwo(ps[0], ps[1], needle);
    assert ps == [ps[0], ps[1]];
  }

  lemma SpeltIsAccepted(flag: int, text: string, c: Cond, days: string, a: string, b: string)
    requires flag != 2 && SpeltWindow(text, c, days, a, b)
    ensures ParseOne(flag, text) == Accepted(c)
  {
    SplitTwo(a, b, '-');
    JoinTwo(a, b, '-');
    SplitTwo(days, a + "-" + b, ',');
    JoinTwo(days, a + "-" + b, ',');
  }

  /** Any text at all is accepted exactly if it spells a window in range, and then as that window. */
  lemma WindowGrammar(flag: int, text: string, c: Cond)
    requires flag != 2
    ensures ParseOne(flag, text) == Accepted(c) <==> exists days, a, b :: SpeltWindow(text, c, days, a, b)
  {
    if ParseOne(flag, text) == Accepted(c) {
      var dt := SplitOf(text, ',', 64, 2).pieces;
      TwoPieces(text, ',', 64, dt);
      var t := SplitOf(dt[1], '-', 64, 2).pieces;
      TwoPieces(dt[1], '-', 64, t);
      assert SpeltWindow(text, c, dt[0], t[0], t[1]);
    }
    if days, a, b :| SpeltWindow(text, c, days, a, b) { SpeltIsAccepted(flag, text, c, days, a, b); }
  }

  /** The texts are accepted one by one. */
  ghost predicate AllParsed(flag: int, texts: seq<string>, cs: seq<Cond>) {
    |cs| == |texts| && forall i :: 0 <= i < |texts| ==> ParseOne(flag, texts[i]) == Accepted(cs[i])
  }

  lemma {:induction false} ParseAllIs(flag: int, texts: seq<string>, cs: seq<Cond>)
    ensures ParseAll(flag, texts) == Accepted(cs) <==> AllParsed(flag, texts, cs)
    decreases |texts|
  {
    if texts != [] {
      if cs != [] {
        ParseAllIs(flag, texts[1..], cs[1..]);
        assert cs == [cs[0]] + cs[1..];
      }
      var rest := ParseAll(flag, texts[1..]);
      if ParseAll(flag, texts) == Accepted(cs) {
        assert cs[0] == ParseOne(flag, texts[0]).value && cs[1..] == rest.value;
      }
    }
  }

  ghost predicate ListOf(flag: int, cond: string, cs: seq<Cond>, texts: seq<string>) {
    && 1 <= |texts| <= 128 && AllParsed(flag, texts, cs) && cond == Join(texts, '|')
    && forall i :: 0 <= i < |texts| ==> '|' !in texts[i]
  }

  /** And a whole text exactly if it is a list of 1 to 128 of them, joined by `|`, and then as those windows. */
  lemma ListGrammar(flag: int, cond: string, cs: seq<Cond>)
    requires flag != 2
    ensures Conditions(flag, cond) == Accepted(cs) <==> exists texts :: ListOf(flag, cond, cs, texts)
  {
    if Conditions(flag, cond) == Accepted(cs) {
      var ts := SplitOf(cond, '|', 64, 128).pieces;
      ParseAllIs(flag, ts, cs);
      JoinOfParts(cond, '|');
      assert ListOf(flag, cond, cs, ts);
    }
    if texts :| ListOf(flag, cond, cs, texts) {
      forall i | 0 <= i < |texts| ensures 0 < |texts[i]| < 64 {
        WindowGrammar(flag, texts[i], cs[i]);
      }
      PartsOfJoin(texts, '|');
      JoinNonEmpty(texts, '|');
      ShortPieces(texts, 64, 128);
      ParseAllIs(flag, texts, cs);
    }
  }

  // ----- the windows of the sample configuration ------------------------------------------

  /** A time that is not five characters long is refused, whatever the days. */
  lemma TimeLengthRefused(flag: int, days: string, t0: string, t1: string)
    requires flag != 2 && ',' !in days && |days| < 64
    requires '-' !in t0 && '-' !in t1 && ',' !in t0 && ',' !in t1 && |t0| + |t1| < 63
    requires |t0| != 5 || |t1| != 5
    ensures ParseOne(flag, days + "," + (t0 + "-" + t1)) == Invalid
  {
    JoinTwo(t0, t1, '-');
    SplitTwo(t0, t1, '-');
    JoinTwo(days, t0 + "-" + t1, ',');
    SplitTwo(days, t0 + "-" + t1, ',');
  }

  const SAMPLE_FIRST := "1-5,23:30-16:30"
  const SAMPLE_SECOND := "1-5,17:30-21:30"
  const SAMPLE_LAST := "6-7,00:00-8:30"
  const SAMPLE := "1-5,23:30-16:30|1-5,17:30-21:30|6-7,00:00-8:30"

  /** 23:30-16:30 ends before it starts. */
  lemma SampleWindow(flag: int)
    requires flag != 2
    ensures ParseOne(flag, SAMPLE_FIRST) == Invalid
  {
    var w := Window(1, 5, 23, 30, 16, 30);
    assert TwoDigits(23) == "23" && TwoDigits(30) == "30" && TwoDigits(16) == "16";
    assert PrintTime(23, 30) == "23:30" && PrintTime(16, 30) == "16:30";
    JoinTwo("23:30", "16:30", '-');
    assert PrintTimes(w) == "23:30-16:30";
    JoinTwo("1-5", "23:30-16:30", ',');
    assert PrintWindow(w) == SAMPLE_FIRST;
    WindowRoundTrip(flag, w);
  }

  /** And 8:30 has four characters. */
  lemma SampleTime(flag: int)
    requires flag != 2
    ensures ParseOne(flag, SAMPLE_LAST) == Invalid
  {
    TimeLengthRefused(flag, "6-7", "00:00", "8:30");
    assert SAMPLE_LAST == "6-7" + "," + ("00:00" + "-" + "8:30");
  }

  /** A text is refused with its first condition. */
  lemma FirstRefused(flag: int, a: string, b: string, c: string)
    requires '|' !in a && '|' !in b && '|' !in c && 0 < |a| < 64 && |b| < 64 && |c| < 64
    requires ParseOne(flag, a) == Invalid
    ensures Conditions(flag, a + "|" + b + "|" + c) == Invalid
  {
    JoinThree(a, b, c, '|');
    PartsOfJoin([a, b, c], '|');
    assert SplitOf(a + "|" + b + "|" + c, '|', 64, 128) == Pieces([a, b, c]);
  }

  lemma SampleText()
    ensures SAMPLE == SAMPLE_FIRST + "|" + SAMPLE_SECOND + "|" + SAMPLE_LAST
  {
  }

  lemma SampleParts()
    ensures |SAMPLE_FIRST| == |SAMPLE_SECOND| == 15 && |SAMPLE_LAST| == 14
    ensures '|' !in SAMPLE_FIRST && '|' !in SAMPLE_SECOND && '|' !in SAMPLE_LAST
  {
  }

  /** So the whole sample line is refused. */
  lemma SampleRefused(flag: int)
    requires flag != 2
    ensures ParseOne(flag, SAMPLE_FIRST) == ParseOne(flag, SAMPLE_LAST) == Invalid
    ensures Conditions(flag, SAMPLE) == Invalid
  {
    SampleWindow(flag);
    SampleTime(flag);
    SampleText();
    SampleParts();
    FirstRefused(flag, SAMPLE_FIRST, SAMPLE_SECOND, SAMPLE_LAST);
  }

  lemma JoinThree(a: string, b: string, c: string, needle: char)
    ensures Join([a, b, c], needle) == a + [needle] + b + [needle] + c
  {
    assert [a, b, c][1..] == [b, c];
    JoinTwo(b, c, needle);
  }
}
