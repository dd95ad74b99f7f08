/**
 * The wildcard matcher: a loop that remembers only the last `*`. A C string is a string without NUL;
 * reading at its end gives the NUL.
 */
module Match {
  import opened Options

  const NUL := '\0'

  type CString = s: string | forall i :: 0 <= i < |s| ==> s[i] != NUL

  function At(s: CString, i: nat): char {
    if i < |s| then s[i] else NUL
  }

  /** The answer, or an access through a pointer that is not inside the text. */
  datatype Outcome = Answer(matched: bool) | Fault

  // ----- bracket sets --------------------------------------------------------------------

  /** The members of a set whose `[` is just before `p`, and the position after its `]`; `None` if there is no `]`. */
  function SetAt(pattern: CString, p: nat): (r: Option<(set<char>, nat)>)
    ensures r.Some? ==> p < r.value.1 <= |pattern| && NUL !in r.value.0
    decreases |pattern| - p
  {
    if p >= |pattern| then None
    else if pattern[p] == ']' then Some(({}, p + 1))
    else
      var q := if pattern[p] == '\\' then p + 1 else p;
      if q >= |pattern| then None
      else
        var rest := SetAt(pattern, q + 1);
        if rest.None? then None else Some((rest.value.0 + {pattern[q]}, rest.value.1))
  }

  // ----- the language of a pattern -------------------------------------------------------

  /**
   * Does the rest of the text from `t` belong to the rest of the pattern from `p`? `*` stands for any
   * stretch, `?` for one character, `[...]` for one of its members, `\c` and any other character for themselves.
   */
  ghost predicate Matches(text: CString, pattern: CString, t: nat, p: nat)
    decreases |pattern| - p
  {
    if p >= |pattern| then t == |text|
    else match pattern[p]
      case '*' => var q := p + 1; exists k: nat :: t <= k <= |text| && Matches(text, pattern, k, q)
      case '?' => t < |text| && Matches(text, pattern, t + 1, p + 1)
      case '[' =>
        var s := SetAt(pattern, p + 1);
        s.Some? && t < |text| && text[t] in s.value.0 && Matches(text, pattern, t + 1, s.value.1)
      case '\\' => p + 1 < |pattern| && t < |text| && text[t] == pattern[p + 1] && Matches(text, pattern, t + 1, p + 2)
      case c => t < |text| && text[t] == c && Matches(text, pattern, t + 1, p + 1)
  }

  /** Some tail of the text from `t` on belongs to the rest of the pattern from `p`. */
  ghost predicate MatchesLater(text: CString, pattern: CString, t: nat, p: nat) {
    exists k: nat :: t <= k <= |text| && Matches(text, pattern, k, p)
  }

  // ----- the loop ------------------------------------------------------------------------

  /** Where the loop stands: both positions, and the retry positions once a `*` has been seen. */
  datatype Retry = NoRetry | Retry(pat: nat, text: nat)

  ghost predicate Position(text: CString, pattern: CString, t: nat, p: nat, r: Retry) {
    t <= |text| && p <= |pattern| && (r.Retry? ==> r.pat <= p && r.text <= t)
  }

  /** Everything the loop does from a position on. */
  function Run(text: CString, pattern: CString, t: nat, p: nat, r: Retry): Outcome
    requires Position(text, pattern, t, p, r)
    decreases if r.Retry? then |pattern| - r.pat else |pattern| + 1,
              if r.Retry? then |text| - r.text else 0, |pattern| - p
  {
    if t == |text| && p == |pattern| then Answer(true)
    else if At(pattern, p) == '*' then Run(text, pattern, t, p + 1, Retry(p + 1, t))
    else if At(pattern, p) == '[' then
      var s := SetAt(pattern, p + 1);
      if s.None? then Answer(false)
      else if At(text, t) in s.value.0 then Run(text, pattern, t + 1, s.value.1, r)
      else if r.NoRetry? || r.text + 1 > |text| then Fault
      else if r.text + 1 == |text| then Answer(false)
      else Run(text, pattern, r.text + 2, r.pat, Retry(r.pat, r.text + 1))
    else if At(pattern, p) == '?' then
      if t == |text| then Answer(false) else Run(text, pattern, t + 1, p + 1, r)
    else
      var escaped := At(pattern, p) == '\\';
      if escaped && p + 1 == |pattern| then Answer(false)
      else
        var c := if escaped then pattern[p + 1] else At(pattern, p);
        if t < |text| && text[t] == c then Run(text, pattern, t + 1, if escaped then p + 2 else p + 1, r)
        else if t == |text| || r.NoRetry? then Answer(false)
        else Run(text, pattern, r.text + 1, r.pat, Retry(r.pat, r.text + 1))
  }

  /** The set loop: `found`, and the position after the `]`. */
  method ScanSet(pattern: CString, start: nat, c: char) returns (ok: bool, found: bool, p: nat)
    requires start <= |pattern|
    ensures ok <==> SetAt(pattern, start).Some?
    ensures ok ==> p == SetAt(pattern, start).value.1 && (found <==> c in SetAt(pattern, start).value.0)
  {
    p, found := start, false;
    while true
      invariant start <= p <= |pattern|
      invariant SetAt(pattern, start).Some? <==> SetAt(pattern, p).Some?
      invariant SetAt(pattern, p).Some? ==>
                  && SetAt(pattern, start).value.1 == SetAt(pattern, p).value.1
                  && (c in SetAt(pattern, start).value.0 <==> found || c in SetAt(pattern, p).value.0)
      decreases |pattern| - p
    {
      var ch := At(pattern, p);
      p := p + 1;
      if ch == ']' { return true, found, p; }
      if ch == '\\' {
        ch := At(pattern, p);
        p := p + 1;
      }
      if ch == NUL { return false, false, 0; }
      if c == ch { found := true; }
    }
  }

  /** `match` on two non-NULL strings. */
  method MatchPattern(text: CString, pattern: CString) returns (r: Outcome)
    ensures r == Run(text, pattern, 0, 0, NoRetry)
    ensures r == Answer(true) ==> Matches(text, pattern, 0, 0)
    ensures !SetFails(text, pattern, 0, 0, NoRetry) ==> r == Answer(Matches(text, pattern, 0, 0))
    ensures FirstSet(pattern, 0).None? ==> r == Answer(Matches(text, pattern, 0, 0))
  {
    WholeRun(text, pattern);
    var t: nat, p: nat, retryPat: int, retryText: int := 0, 0, -1, -1;
    ghost var rt := NoRetry;
    while t < |text| || p < |pattern|
      invariant Position(text, pattern, t, p, rt)
      invariant retryPat >= 0 ==> retryText >= 0
      invariant rt == if retryPat < 0 then NoRetry else Retry(retryPat, retryText)
      invariant Run(text, pattern, t, p, rt) == Run(text, pattern, 0, 0, NoRetry)
      decreases if rt.Retry? then |pattern| - rt.pat else |pattern| + 1,
                if rt.Retry? then |text| - rt.text else 0, |pattern| - p
    {
      var ch := At(pattern, p);
      var next := p + 1;
      if ch == '*' {
        retryPat, retryText := next, t;
        p := next;
      } else if ch == '[' {
        var ok, found, q := ScanSet(pattern, next, At(text, t));
        if !ok { return Answer(false); }
        p := q;
        if !found {
          if retryPat < 0 { return Fault; }
          p := retryPat;
          retryText := retryText + 1;
          t := retryText;
          if t > |text| { return Fault; }
        }
        if At(text, t) == NUL { return Answer(false); }
        t := t + 1;
      } else if ch == '?' {
        if At(text, t) == NUL { return Answer(false); }
        t, p := t + 1, next;
      } else {
        if ch == '\\' {
          ch := At(pattern, next);
          if ch == NUL { return Answer(false); }
          next := next + 1;
        }
        if At(text, t) == ch {
          t, p := t + 1, next;
        } else if t < |text| {
          if retryPat < 0 { return Answer(false); }
          p := retryPat;
          retryText := retryText + 1;
          t := retryText;
        } else {
          return Answer(false);
        }
      }
      rt := if retryPat < 0 then NoRetry else Retry(retryPat, retryText);
    }
    r := Answer(true);
  }

  // ----- soundness, for every pattern ----------------------------------------------------

  /** A match from here, or from a later start of the part after the last `*`. */
  ghost predicate Hope(text: CString, pattern: CString, t: nat, p: nat, r: Retry) {
    Matches(text, pattern, t, p) || (r.Retry? && MatchesLater(text, pattern, r.text + 1, r.pat))
  }

  /** The loop never accepts a text outside the language. */
  lemma {:induction false} Sound(text: CString, pattern: CString, t: nat, p: nat, r: Retry)
    requires Position(text, pattern, t, p, r)
    ensures Run(text, pattern, t, p, r) == Answer(true) ==> Hope(text, pattern, t, p, r)
    decreases if r.Retry? then |pattern| - r.pat else |pattern| + 1,
              if r.Retry? then |text| - r.text else 0, |pattern| - p
  {
    if t == |text| && p == |pattern| {
    } else if At(pattern, p) == '*' {
      Sound(text, pattern, t, p + 1, Retry(p + 1, t));
    } else if At(pattern, p) == '[' {
      var s := SetAt(pattern, p + 1);
      if s.Some? {
        if At(text, t) in s.value.0 { Sound(text, pattern, t + 1, s.value.1, r); }
        else if r.Retry? && r.text + 1 < |text| { Sound(text, pattern, r.text + 2, r.pat, Retry(r.pat, r.text + 1)); }
      }
    } else if At(pattern, p) == '?' {
      if t < |text| { Sound(text, pattern, t + 1, p + 1, r); }
    } else {
      var escaped := At(pattern, p) == '\\';
      if !(escaped && p + 1 == |pattern|) {
        var c := if escaped then pattern[p + 1] else At(pattern, p);
        if t < |text| && text[t] == c { Sound(text, pattern, t + 1, if escaped then p + 2 else p + 1, r); }
        else if t < |text| && r.Retry? { Sound(text, pattern, r.text + 1, r.pat, Retry(r.pat, r.text + 1)); }
      }
    }
  }

  // ----- exactness, as long as no bracket set fails --------------------------------------

  /** From here the loop comes to a closed set that the text's character is not in. */
  ghost predicate SetFails(text: CString, pattern: CString, t: nat, p: nat, r: Retry)
    requires Position(text, pattern, t, p, r)
    decreases if r.Retry? then |pattern| - r.pat else |pattern| + 1,
              if r.Retry? then |text| - r.text else 0, |pattern| - p
  {
    if t == |text| && p == |pattern| then false
    else if At(pattern, p) == '*' then SetFails(text, pattern, t, p + 1, Retry(p + 1, t))
    else if At(pattern, p) == '[' then
      var s := SetAt(pattern, p + 1);
      s.Some? && (At(text, t) in s.value.0 ==> SetFails(text, pattern, t + 1, s.value.1, r))
    else if At(pattern, p) == '?' then t < |text| && SetFails(text, pattern, t + 1, p + 1, r)
    else
      var escaped := At(pattern, p) == '\\';
      if t == |text| || (escaped && p + 1 == |pattern|) then false
      else if text[t] == (if escaped then pattern[p + 1] else At(pattern, p)) then
        SetFails(text, pattern, t + 1, if escaped then p + 2 else p + 1, r)
      else r.Retry? && SetFails(text, pattern, r.text + 1, r.pat, Retry(r.pat, r.text + 1))
  }

  /** The position after one character, escaped or not. */
  function After(pattern: CString, p: nat): nat
    requires p < |pattern|
  {
    if pattern[p] == '\\' then p + 2 else p + 1
  }

  /** The first bracket set the loop can enter; a `[` without `]` ends the search, as it ends the loop. */
  function FirstSet(pattern: CString, p: nat): Option<nat>
    decreases |pattern| - p
  {
    if p >= |pattern| then None
    else if pattern[p] != '[' then FirstSet(pattern, After(pattern, p))
    else if SetAt(pattern, p + 1).Some? then Some(p) else None
  }

  /** In particular, none fails when the pattern has none. */
  lemma {:induction false} NoneFails(text: CString, pattern: CString, t: nat, p: nat, r: Retry)
    requires Position(text, pattern, t, p, r)
    requires FirstSet(pattern, p).None? && (r.Retry? ==> FirstSet(pattern, r.pat).None?)
    ensures !SetFails(text, pattern, t, p, r)
    decreases if r.Retry? then |pattern| - r.pat else |pattern| + 1,
              if r.Retry? then |text| - r.text else 0, |pattern| - p
  {
    if t == |text| && p == |pattern| {
    } else if At(pattern, p) == '*' {
      NoneFails(text, pattern, t, p + 1, Retry(p + 1, t));
    } else if At(pattern, p) == '[' {
    } else if At(pattern, p) == '?' {
      if t < |text| { NoneFails(text, pattern, t + 1, p + 1, r); }
    } else {
      var escaped := At(pattern, p) == '\\';
      if t < |text| && !(escaped && p + 1 == |pattern|) {
        if text[t] == (if escaped then pattern[p + 1] else At(pattern, p)) {
          NoneFails(text, pattern, t + 1, if escaped then p + 2 else p + 1, r);
        } else if r.Retry? {
          NoneFails(text, pattern, r.text + 1, r.pat, Retry(r.pat, r.text + 1));
        }
      }
    }
  }

  /** The position after what stands for one character: a closed set, or a character, escaped or not. */
  function Past(pattern: CString, p: nat): (q: nat)
    requires p < |pattern|
    ensures q > p
  {
    if pattern[p] == '[' && SetAt(pattern, p + 1).Some? then SetAt(pattern, p + 1).value.1 else After(pattern, p)
  }

  /** From `p` to `q` the pattern asks for exactly `n` single characters. */
  ghost predicate Singles(pattern: CString, p: nat, q: nat, n: nat)
    decreases |pattern| - p
  {
    if p >= q then p == q && n == 0
    else p < |pattern| && n > 0 && pattern[p] != '*' && Singles(pattern, Past(pattern, p), q, n - 1)
  }

  /** Whatever matches from `p` has consumed `n` characters when it stands at `q`. */
  lemma {:induction false} SinglesConsume(text: CString, pattern: CString, k: nat, p: nat, q: nat, n: nat)
    requires Singles(pattern, p, q, n) && Matches(text, pattern, k, p) && k <= |text|
    ensures k + n <= |text| && Matches(text, pattern, k + n, q)
    decreases n
  {
    if p < q { SinglesConsume(text, pattern, k + 1, Past(pattern, p), q, n - 1); }
  }

  lemma {:induction false} SinglesExtend(pattern: CString, p: nat, q: nat, n: nat)
    requires Singles(pattern, p, q, n) && q < |pattern| && pattern[q] != '*'
    ensures Singles(pattern, p, Past(pattern, q), n + 1)
    decreases n
  {
    if p < q { SinglesExtend(pattern, Past(pattern, p), q, n - 1); }
  }

  /** The part between the last `*` and here has consumed what lies between the retry point and here. */
  ghost predicate OnTrack(pattern: CString, t: nat, p: nat, r: Retry) {
    r.Retry? ==> r.text <= t && Singles(pattern, r.pat, p, t - r.text)
  }

  /** Nothing is lost by giving up when the text has run out, or by forgetting an earlier `*` for a later one. */
  lemma LaterStarts(text: CString, pattern: CString, t: nat, p: nat, r: Retry)
    requires Position(text, pattern, t, p, r) && OnTrack(pattern, t, p, r) && Hope(text, pattern, t, p, r)
    ensures MatchesLater(text, pattern, t, p)
    ensures Matches(text, pattern, t, p) || MatchesLater(text, pattern, t + 1, p)
  {
    if !Matches(text, pattern, t, p) {
      var k: nat :| r.text + 1 <= k <= |text| && Matches(text, pattern, k, r.pat);
      SinglesConsume(text, pattern, k, r.pat, p, t - r.text);
    }
  }

  /** After a `*`, a later start is no better than this one. */
  lemma StarLater(text: CString, pattern: CString, t: nat, p: nat)
    requires At(pattern, p) == '*' && t <= |text|
    ensures MatchesLater(text, pattern, t, p) ==> Matches(text, pattern, t, p)
    ensures Matches(text, pattern, t, p) <==>
            Matches(text, pattern, t, p + 1) || MatchesLater(text, pattern, t + 1, p + 1)
  {
    if MatchesLater(text, pattern, t, p) {
      var k: nat :| t <= k <= |text| && Matches(text, pattern, k, p);
      var k': nat :| k <= k' <= |text| && Matches(text, pattern, k', p + 1);
    }
  }

  /** Retrying only the last `*` finds a match whenever there is one, unless a set fails on the way. */
  lemma {:induction false} Exact(text: CString, pattern: CString, t: nat, p: nat, r: Retry)
    requires Position(text, pattern, t, p, r) && OnTrack(pattern, t, p, r) && !SetFails(text, pattern, t, p, r)
    ensures Run(text, pattern, t, p, r) == Answer(Hope(text, pattern, t, p, r))
    decreases if r.Retry? then |pattern| - r.pat else |pattern| + 1,
              if r.Retry? then |text| - r.text else 0, |pattern| - p
  {
    if Hope(text, pattern, t, p, r) { LaterStarts(text, pattern, t, p, r); }
    if r.Retry? && p < |pattern| && pattern[p] != '*' { SinglesExtend(pattern, r.pat, p, t - r.text); }
    if t == |text| && p == |pattern| {
    } else if At(pattern, p) == '*' {
      Exact(text, pattern, t, p + 1, Retry(p + 1, t));
      StarLater(text, pattern, t, p);
    } else if At(pattern, p) == '[' {
      var s := SetAt(pattern, p + 1);
      if s.Some? { Exact(text, pattern, t + 1, s.value.1, r); }
    } else if At(pattern, p) == '?' {
      if t < |text| { Exact(text, pattern, t + 1, p + 1, r); }
    } else {
      var escaped := At(pattern, p) == '\\';
      if !(escaped && p + 1 == |pattern|) {
        var c := if escaped then pattern[p + 1] else At(pattern, p);
        if t < |text| && text[t] == c {
          Exact(text, pattern, t + 1, if escaped then p + 2 else p + 1, r);
        } else if t < |text| && r.Retry? {
          Exact(text, pattern, r.text + 1, r.pat, Retry(r.pat, r.text + 1));
        }
      }
    }
  }

  /** From the beginning: acceptance is always right, and unless a closed set fails on the way so is refusal. */
  lemma WholeRun(text: CString, pattern: CString)
    ensures Run(text, pattern, 0, 0, NoRetry) == Answer(true) ==> Matches(text, pattern, 0, 0)
    ensures !SetFails(text, pattern, 0, 0, NoRetry) ==>
              Run(text, pattern, 0, 0, NoRetry) == Answer(Matches(text, pattern, 0, 0))
    ensures FirstSet(pattern, 0).None? ==> !SetFails(text, pattern, 0, 0, NoRetry)
  {
    Sound(text, pattern, 0, 0, NoRetry);
    if !SetFails(text, pattern, 0, 0, NoRetry) { Exact(text, pattern, 0, 0, NoRetry); }
    if FirstSet(pattern, 0).None? { NoneFails(text, pattern, 0, 0, NoRetry); }
  }

  // ----- where bracket sets go wrong -----------------------------------------------------

  /** Where the last `*` was: nowhere, just before, or with single characters behind it. */
  datatype Star = NoStar | JustBefore | Before

  /** The first bracket set of the pattern has no `*` before it, or directly follows one. */
  predicate SetUnguarded(pattern: CString, p: nat, star: Star)
    decreases |pattern| - p
  {
    p < |pattern|
    && if pattern[p] == '[' then SetAt(pattern, p + 1).Some? && !star.Before?
       else if pattern[p] == '*' then SetUnguarded(pattern, p + 1, JustBefore)
       else SetUnguarded(pattern, After(pattern, p), if star.NoStar? then NoStar else Before)
  }

  /** The shortest text that leads the loop up to that set. */
  function UpToSet(pattern: CString, p: nat): (text: string)
    ensures forall i :: 0 <= i < |text| ==> text[i] != NUL
    decreases |pattern| - p
  {
    if p >= |pattern| || pattern[p] == '[' then ""
    else if pattern[p] == '*' then UpToSet(pattern, p + 1)
    else if pattern[p] == '\\' then
      if p + 1 < |pattern| then [pattern[p + 1]] + UpToSet(pattern, p + 2) else ""
    else [pattern[p]] + UpToSet(pattern, p + 1)
  }

  lemma {:induction false} FaultsAtSet(text: CString, pattern: CString, t: nat, p: nat, r: Retry, star: Star)
    requires Position(text, pattern, t, p, r) && SetUnguarded(pattern, p, star) && text[t..] == UpToSet(pattern, p)
    requires (r.NoRetry? <==> star.NoStar?) && (star.JustBefore? ==> r == Retry(p, t))
    ensures Run(text, pattern, t, p, r) == Fault
    decreases |pattern| - p
  {
    if pattern[p] == '[' {
      assert t == |text|;
    } else if pattern[p] == '*' {
      FaultsAtSet(text, pattern, t, p + 1, Retry(p + 1, t), JustBefore);
    } else {
      assert SetUnguarded(pattern, After(pattern, p), if star.NoStar? then NoStar else Before);
      assert After(pattern, p) <= |pattern|;
      assert text[t] == text[t..][0] && text[t + 1..] == text[t..][1..];
      FaultsAtSet(text, pattern, t + 1, After(pattern, p), r, if star.NoStar? then NoStar else Before);
    }
  }

  /** Every such pattern makes the loop follow a NULL or passed retry pointer on some text. */
  lemma UnguardedSetFaults(pattern: CString) returns (text: CString)
    requires SetUnguarded(pattern, 0, NoStar)
    ensures Run(text, pattern, 0, 0, NoRetry) == Fault
  {
    text := UpToSet(pattern, 0);
    FaultsAtSet(text, pattern, 0, 0, NoRetry, NoStar);
  }

  /** A character that the loop takes for itself. */
  predicate Plain(c: char) {
    c != NUL && c != '*' && c != '[' && c != '?' && c != '\\'
  }

  /** The pattern is `*`, a plain character `c` and one bracket set, whose members are `members`. */
  predicate StarCharSet(pattern: CString, c: char, members: set<char>) {
    && |pattern| > 3 && pattern[0] == '*' && pattern[1] == c && pattern[2] == '[' && Plain(c)
    && SetAt(pattern, 3) == Some((members, |pattern|))
  }

  /** `c` and then a member of the set are the last two characters of the text. */
  predicate EndsIn(text: CString, c: char, members: set<char>) {
    |text| >= 2 && text[|text| - 2] == c && text[|text| - 1] in members
  }

  lemma MatchesAt(text: CString, pattern: CString, c: char, members: set<char>, k: nat)
    requires StarCharSet(pattern, c, members) && k <= |text|
    ensures Matches(text, pattern, k, 1) <==> k + 2 == |text| && EndsIn(text, c, members)
  {
    if k + 1 < |text| {
      assert Matches(text, pattern, k + 2, |pattern|) <==> k + 2 == |text|;
      assert Matches(text, pattern, k + 1, 2) <==> text[k + 1] in members && k + 2 == |text|;
    }
    assert k + 1 == |text| ==> !Matches(text, pattern, k + 1, 2);
    assert Matches(text, pattern, k, 1) <==> k < |text| && text[k] == c && Matches(text, pattern, k + 1, 2);
  }

  /** One start of the loop behind the `*`: at the character, at the set, behind it. */
  lemma RunFrom(text: CString, pattern: CString, c: char, members: set<char>, t: nat, j: nat)
    requires StarCharSet(pattern, c, members) && j <= t <= |text| && t <= j + 1
    ensures t == |text| ==> Run(text, pattern, t, 1, Retry(1, j)) == Answer(false)
    ensures t < |text| && text[t] != c ==>
      Run(text, pattern, t, 1, Retry(1, j)) == Run(text, pattern, j + 1, 1, Retry(1, j + 1))
    ensures t < |text| && text[t] == c && At(text, t + 1) !in members ==>
      Run(text, pattern, t, 1, Retry(1, j)) ==
      if j + 1 == |text| then Answer(false) else Run(text, pattern, j + 2, 1, Retry(1, j + 1))
    ensures t < |text| && text[t] == c && At(text, t + 1) in members ==>
      Run(text, pattern, t, 1, Retry(1, j)) ==
      if t + 2 == |text| then Answer(true) else Run(text, pattern, j + 1, 1, Retry(1, j + 1))
  {
    var r := Retry(1, j);
    if t < |text| && text[t] == c {
      assert Run(text, pattern, t, 1, r) == Run(text, pattern, t + 1, 2, r);
      if At(text, t + 1) in members {
        assert Run(text, pattern, t + 1, 2, r) == Run(text, pattern, t + 2, |pattern|, r);
      }
    }
  }

  lemma StarCharSetMatches(text: CString, pattern: CString, c: char, members: set<char>)
    requires StarCharSet(pattern, c, members)
    ensures Matches(text, pattern, 0, 0) <==> EndsIn(text, c, members)
  {
    forall k: nat | k <= |text| ensures Matches(text, pattern, k, 1) <==> k + 2 == |text| && EndsIn(text, c, members) {
      MatchesAt(text, pattern, c, members, k);
    }
    if EndsIn(text, c, members) { assert Matches(text, pattern, |text| - 2, 1); }
  }

  /** If `c` is itself a member, the start the loop skips after a failed set could not have matched. */
  lemma {:induction false} SkipsHarmlessly(text: CString, pattern: CString, c: char, members: set<char>, t: nat, j: nat)
    requires StarCharSet(pattern, c, members) && c in members && j <= t <= j + 1 && t <= |text|
    ensures Run(text, pattern, t, 1, Retry(1, j)) == Answer(t + 2 <= |text| && EndsIn(text, c, members))
    decreases |text| - j
  {
    RunFrom(text, pattern, c, members, t, j);
    if t < |text| {
      if text[t] != c || (At(text, t + 1) in members && t + 2 < |text|) {
        SkipsHarmlessly(text, pattern, c, members, j + 1, j + 1);
      } else if At(text, t + 1) !in members && j + 1 < |text| {
        SkipsHarmlessly(text, pattern, c, members, j + 2, j + 1);
      }
    }
  }

  /** If it is not, `c`, `c` and a member is a text whose match the loop skips. */
  lemma SkipsAMatch(text: CString, pattern: CString, c: char, members: set<char>, x: char)
    requires StarCharSet(pattern, c, members) && c !in members && x in members && text == [c, c, x]
    ensures Matches(text, pattern, 0, 0) && Run(text, pattern, 0, 0, NoRetry) == Answer(false)
  {
    StarCharSetMatches(text, pattern, c, members);
    RunFrom(text, pattern, c, members, 0, 0);
    RunFrom(text, pattern, c, members, 2, 1);
    RunFrom(text, pattern, c, members, 2, 2);
    RunFrom(text, pattern, c, members, 3, 3);
  }

  /** The loop is right about one pattern on every text. */
  ghost predicate RightFor(pattern: CString) {
    forall text: CString :: Run(text, pattern, 0, 0, NoRetry) == Answer(Matches(text, pattern, 0, 0))
  }

  /** With no members nothing matches, and the loop accepts nothing. */
  lemma {:induction false} EmptySetRefuses(text: CString, pattern: CString, c: char, t: nat, j: nat)
    requires StarCharSet(pattern, c, {}) && j <= t <= j + 1 && t <= |text|
    ensures Run(text, pattern, t, 1, Retry(1, j)) == Answer(false)
    decreases |text| - j
  {
    RunFrom(text, pattern, c, {}, t, j);
    if t < |text| {
      if text[t] != c { EmptySetRefuses(text, pattern, c, j + 1, j + 1); }
      else if j + 1 < |text| { EmptySetRefuses(text, pattern, c, j + 2, j + 1); }
    }
  }

  /** For patterns of that shape the loop is right on every text exactly if `c` is a member, or nothing is. */
  lemma StarCharSetExact(pattern: CString, c: char, members: set<char>)
    requires StarCharSet(pattern, c, members)
    ensures RightFor(pattern) <==> c in members || members == {}
  {
    if c in members || members == {} {
      forall text: CString ensures Run(text, pattern, 0, 0, NoRetry) == Answer(Matches(text, pattern, 0, 0)) {
        StarCharSetMatches(text, pattern, c, members);
        if members == {} { EmptySetRefuses(text, pattern, c, 0, 0); }
        else { SkipsHarmlessly(text, pattern, c, members, 0, 0); }
      }
    } else {
      var x :| x in members;
      var text: CString := [c, c, x];
      SkipsAMatch(text, pattern, c, members, x);
    }
  }

  /** A failed set skips one start too many: `*[a]` should match "ba". */
  lemma SetLosesAMatch()
    ensures Matches("ba", "*[a]", 0, 0) && Run("ba", "*[a]", 0, 0, NoRetry) == Answer(false)
  {
    var text: CString, pattern: CString := "ba", "*[a]";
    assert SetAt(pattern, 3) == Some(({}, 4));
    assert {} + {'a'} == {'a'};
    assert SetAt(pattern, 2) == Some(({'a'}, 4));
    assert Matches(text, pattern, 2, 4);
    assert Matches(text, pattern, 1, 1);
    assert Run(text, pattern, 2, 1, Retry(1, 1)) == Answer(false);
    assert Run(text, pattern, 0, 1, Retry(1, 0)) == Answer(false);
  }

  /** A failed set without a `*` before it follows a NULL pointer. */
  lemma SetFaults()
    ensures Run("", "[a]", 0, 0, NoRetry) == Fault
  {
    var pattern: CString := "[a]";
    assert SetAt(pattern, 2) == Some(({}, 3));
    assert {} + {'a'} == {'a'};
    assert SetAt(pattern, 1) == Some(({'a'}, 3));
  }
}
