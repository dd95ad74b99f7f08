/** `split` and the trim functions of the utility file. Strings are C strings without their NUL. */
module Text {

  // ----- split ---------------------------------------------------------------------------

  /** `-1`, the pieces, or a last piece written beyond the end of the array. */
  datatype SplitResult = Pieces(pieces: seq<string>) | Refused | Overflow

  /** The stretches between the delimiters. */
  function Parts(text: string, needle: char): (r: seq<string>)
    ensures r != []
    decreases |text|
  {
    if text == "" then [""]
    else
      var rest := Parts(text[1..], needle);
      if text[0] == needle then [""] + rest else [[text[0]] + rest[0]] + rest[1..]
  }

  function Join(pieces: seq<string>, needle: char): string
    requires pieces != []
  {
    if |pieces| == 1 then pieces[0] else pieces[0] + [needle] + Join(pieces[1..], needle)
  }

  /**
   * What becomes of the pieces of a text in an array of `num` slots of `size` bytes. The last piece is copied
   * unchecked: it may run on over the unused slots behind its own.
   */
  function Placed(ps: seq<string>, size: int, num: int): SplitResult
    requires ps != []
  {
    var last := |ps| - 1;
    if last > num || exists i :: 0 <= i < last && |ps[i]| >= size then Refused
    else if |ps[last]| >= (num - last) * size then Overflow
    else Pieces(ps)
  }

  /** What `split` makes of a text. */
  function SplitOf(text: string, needle: char, size: int, num: int): SplitResult {
    if text == "" || size <= 0 || num <= 0 then Refused else Placed(Parts(text, needle), size, num)
  }

  /** `strchr` from position `from`: the first delimiter, or the end. */
  method Find(text: string, needle: char, from: nat) returns (at: nat)
    requires from <= |text|
    ensures from <= at <= |text| && needle !in text[from..at]
    ensures at < |text| ==> text[at] == needle
  {
    at := from;
    while at < |text| && text[at] != needle
      invariant from <= at <= |text| && needle !in text[from..at]
    {
      at := at + 1;
    }
  }

  lemma {:induction false} PartsFirst(text: string, needle: char, at: nat)
    requires at <= |text| && needle !in text[..at]
    ensures at == |text| ==> Parts(text, needle) == [text]
    ensures at < |text| && text[at] == needle ==> Parts(text, needle) == [text[..at]] + Parts(text[at + 1..], needle)
    decreases at
  {
    if at > 0 {
      assert text[0] == text[..at][0];
      assert text[1..][..at - 1] == text[..at][1..];
      if at < |text| { assert text[1..][at - 1 + 1..] == text[at + 1..]; }
      PartsFirst(text[1..], needle, at - 1);
      assert text[..at] == [text[0]] + text[1..][..at - 1];
      assert text[..|text|] == text == [text[0]] + text[1..];
    } else if text == "" {
    } else {
      assert text[..0] == "";
    }
  }

  /** One turn of the loop of `split`: the piece between `orig` and the delimiter at `tmp`. */
  lemma NextPiece(text: string, needle: char, all: seq<string>, dest: seq<string>, orig: nat, tmp: nat)
    requires orig <= tmp < |text| && needle !in text[orig..tmp] && text[tmp] == needle
    requires all == dest + Parts(text[orig..], needle)
    ensures all == dest + [text[orig..tmp]] + Parts(text[tmp + 1..], needle)
    ensures |all| > |dest| + 1 && all[|dest|] == text[orig..tmp]
  {
    assert text[orig..][..tmp - orig] == text[orig..tmp];
    assert text[orig..][tmp - orig + 1..] == text[tmp + 1..];
    PartsFirst(text[orig..], needle, tmp - orig);
  }

  lemma LastPiece(text: string, needle: char, all: seq<string>, dest: seq<string>, orig: nat)
    requires orig <= |text| && needle !in text[orig..] && all == dest + Parts(text[orig..], needle)
    ensures all == dest + [text[orig..]]
  {
    assert text[orig..][..|text| - orig] == text[orig..];
    PartsFirst(text[orig..], needle, |text| - orig);
  }

  /** A piece before the last that is too long, or one too many, makes `split` give up. */
  lemma GivesUp(ps: seq<string>, k: nat, size: int, num: int)
    requires k < |ps| - 1 && (|ps[k]| >= size || k >= num)
    ensures Placed(ps, size, num) == Refused
  {
  }

  /** The last piece is stored unchecked. */
  lemma StoresLast(dest: seq<string>, last: string, size: int, num: int)
    requires |dest| <= num && forall i :: 0 <= i < |dest| ==> |dest[i]| < size
    ensures Placed(dest + [last], size, num) ==
            if |last| >= (num - |dest|) * size then Overflow else Pieces(dest + [last])
  {
    assert forall i :: 0 <= i < |dest| ==> (dest + [last])[i] == dest[i];
  }

  /** Half way through `split`: `dest` are the pieces before `orig`, and `tmp` is the next delimiter. */
  ghost predicate Splitting(text: string, needle: char, size: int, num: int, dest: seq<string>, orig: nat, tmp: nat) {
    && orig <= tmp <= |text| && needle !in text[orig..tmp] && (tmp < |text| ==> text[tmp] == needle)
    && Parts(text, needle) == dest + Parts(text[orig..], needle)
    && |dest| <= num && forall i :: 0 <= i < |dest| ==> |dest[i]| < size
  }

  /** A piece too long, or one too many. */
  lemma AtDelimiter(text: string, needle: char, size: int, num: int, dest: seq<string>, orig: nat, tmp: nat)
    requires Splitting(text, needle, size, num, dest, orig, tmp) && tmp < |text|
    requires tmp - orig >= size || |dest| >= num
    ensures Placed(Parts(text, needle), size, num) == Refused
  {
    NextPiece(text, needle, Parts(text, needle), dest, orig, tmp);
    GivesUp(Parts(text, needle), |dest|, size, num);
  }

  /** Otherwise the loop goes on behind the delimiter. */
  lemma PastDelimiter(text: string, needle: char, size: int, num: int, dest: seq<string>, orig: nat,
                      tmp: nat, next: nat)
    requires Splitting(text, needle, size, num, dest, orig, tmp) && tmp < |text| && tmp - orig < size && |dest| < num
    requires tmp + 1 <= next <= |text| && needle !in text[tmp + 1..next] && (next < |text| ==> text[next] == needle)
    ensures Splitting(text, needle, size, num, dest + [text[orig..tmp]], tmp + 1, next)
  {
    NextPiece(text, needle, Parts(text, needle), dest, orig, tmp);
  }

  /** And behind the last one. */
  lemma AtEnd(text: string, needle: char, size: int, num: int, dest: seq<string>, orig: nat)
    requires Splitting(text, needle, size, num, dest, orig, |text|)
    ensures Placed(Parts(text, needle), size, num) ==
            if |text| - orig >= (num - |dest|) * size then Overflow else Pieces(dest + [text[orig..]])
  {
    assert text[orig..|text|] == text[orig..];
    LastPiece(text, needle, Parts(text, needle), dest, orig);
    StoresLast(dest, text[orig..], size, num);
  }

  /** `split`. */
  method Split(text: string, needle: char, size: int, num: int) returns (r: SplitResult)
    ensures r == SplitOf(text, needle, size, num)
  {
    if text == "" || size <= 0 || num <= 0 { return Refused; }
    var dest: seq<string> := [];
    var orig := 0;
    var tmp := Find(text, needle, 0);
    assert text[0..] == text;
    while tmp < |text|
      invariant Splitting(text, needle, size, num, dest, orig, tmp)
      decreases |text| - tmp
    {
      var len := tmp - orig;
      if len >= size || |dest| >= num { AtDelimiter(text, needle, size, num, dest, orig, tmp); }
      if len >= size { return Refused; }
      if |dest| >= num { return Refused; }
      var next := Find(text, needle, tmp + 1);
      PastDelimiter(text, needle, size, num, dest, orig, tmp, next);
      dest := dest + [text[orig..tmp]];
      orig := tmp + 1;
      tmp := next;
    }
    AtEnd(text, needle, size, num, dest, orig);
    if |text| - orig >= (num - |dest|) * size { return Overflow; }
    r := Pieces(dest + [text[orig..]]);
  }

  /** The pieces are free of the delimiter and give the text back. */
  lemma {:induction false} JoinOfParts(text: string, needle: char)
    ensures Join(Parts(text, needle), needle) == text
    ensures forall i :: 0 <= i < |Parts(text, needle)| ==> needle !in Parts(text, needle)[i]
    decreases |text|
  {
    if text != "" {
      JoinOfParts(text[1..], needle);
      var rest := Parts(text[1..], needle);
      var ps := Parts(text, needle);
      if text[0] == needle {
        assert ps[1..] == rest;
      } else if |rest| > 1 {
        assert ps[1..] == rest[1..];
      }
      assert text == [text[0]] + text[1..];
    }
  }

  /** And any delimiter-free pieces are recovered from their join. */
  lemma {:induction false} PartsOfJoin(pieces: seq<string>, needle: char)
    requires pieces != [] && forall i :: 0 <= i < |pieces| ==> needle !in pieces[i]
    ensures Parts(Join(pieces, needle), needle) == pieces
  {
    var text := Join(pieces, needle);
    if |pieces| == 1 {
      assert text[..|text|] == text;
      PartsFirst(text, needle, |text|);
    } else {
      var at := |pieces[0]|;
      assert text[..at] == pieces[0];
      assert text[at + 1..] == Join(pieces[1..], needle);
      PartsFirst(text, needle, at);
      PartsOfJoin(pieces[1..], needle);
    }
  }

  /** In the memory of the array: every piece but the last, with its NUL, ends before the next slot. */
  ghost predicate FrontFits(ps: seq<string>, size: nat, num: nat) {
    |ps| <= num + 1 && forall i :: 0 <= i < |ps| - 1 ==> i * size + |ps[i]| + 1 <= (i + 1) * size
  }

  /** And the last one ends before the end. */
  ghost predicate LastFits(ps: seq<string>, size: nat, num: nat)
    requires ps != []
  {
    (|ps| - 1) * size + |ps[|ps| - 1]| + 1 <= num * size
  }

  lemma SlotIs(i: nat, size: nat, length: nat)
    ensures i * size + length + 1 <= (i + 1) * size <==> length < size
  {
    assert (i + 1) * size == i * size + size;
  }

  lemma RoomIs(last: nat, num: nat, size: nat, length: nat)
    requires size > 0
    ensures last * size + length + 1 <= num * size <==> last < num && length < (num - last) * size
  {
    assert (num - last) * size == num * size - last * size;
    if last >= num { assert (last - num) * size >= 0; }
  }

  /**
   * A text is refused exactly if a piece before the last does not fit, and overruns the array exactly if only the
   * last does not.
   */
  lemma SplitFits(text: string, needle: char, size: nat, num: nat)
    requires text != "" && size > 0 && num > 0
    ensures var ps := Parts(text, needle);
      SplitOf(text, needle, size, num) ==
        if !FrontFits(ps, size, num) then Refused else if !LastFits(ps, size, num) then Overflow else Pieces(ps)
  {
    var ps := Parts(text, needle);
    var last := |ps| - 1;
    forall i: nat | i < last ensures i * size + |ps[i]| + 1 <= (i + 1) * size <==> |ps[i]| < size {
      SlotIs(i, size, |ps[i]|);
    }
    RoomIs(last, num, size, |ps[last]|);
    if last == num { assert (num - last) * size == 0; }
  }

  // ----- trim ----------------------------------------------------------------------------

  function StripLeft(text: string, needle: string): string
    decreases |text|
  {
    if text != "" && text[0] in needle then StripLeft(text[1..], needle) else text
  }

  function StripRight(text: string, needle: string): string
    decreases |text|
  {
    if text != "" && text[|text| - 1] in needle then StripRight(text[..|text| - 1], needle) else text
  }

  /** `trim_left` into a buffer of `size` bytes that held `dest`. */
  method TrimLeft(text: string, needle: string, dest: string, size: int) returns (ok: bool, out: string)
    ensures ok == (text != "" && needle != "" && size > 0 && |StripLeft(text, needle)| < size)
    ensures ok ==> out == StripLeft(text, needle)
    ensures !ok ==> out == if text == "" || needle == "" || size <= 0 then dest else ""
  {
    if text == "" || needle == "" || size <= 0 { return false, dest; }
    var count := 0;
    while count < |text| && text[count] in needle
      invariant count <= |text| && StripLeft(text[count..], needle) == StripLeft(text, needle)
    {
      assert text[count..][1..] == text[count + 1..];
      count := count + 1;
    }
    if |text| - count >= size { return false, ""; }
    return true, text[count..];
  }

  /** `trim_right` likewise. */
  method TrimRight(text: string, needle: string, dest: string, size: int) returns (ok: bool, out: string)
    ensures ok == (text != "" && needle != "" && size > 0 && |StripRight(text, needle)| < size)
    ensures ok ==> out == StripRight(text, needle)
    ensures !ok ==> out == if text == "" || needle == "" || size <= 0 then dest else ""
  {
    if text == "" || needle == "" || size <= 0 { return false, dest; }
    var len := |text|;
    assert text[..len] == text;
    while len > 0 && text[len - 1] in needle
      invariant 0 <= len <= |text| && StripRight(text[..len], needle) == StripRight(text, needle)
    {
      assert text[..len][..len - 1] == text[..len - 1];
      len := len - 1;
    }
    if len >= size { return false, ""; }
    return true, text[..len];
  }

  /** What `trim` leaves in a buffer that held `dest`: on a blank text the buffer keeps its old content. */
  function TrimInto(text: string, needle: string, dest: string, size: int): string {
    var left := StripLeft(text, needle);
    if needle == "" || size <= 0 || left == "" || |left| >= size then dest else StripRight(left, needle)
  }

  /** `trim`. */
  method Trim(text: string, needle: string, dest: string, size: int) returns (ok: bool, out: string)
    ensures ok == (needle != "" && StripLeft(text, needle) != "" && |StripLeft(text, needle)| < size)
    ensures out == TrimInto(text, needle, dest, size)
  {
    var okLeft, tmp := TrimLeft(text, needle, "", size);
    if !okLeft { return false, dest; }
    StripRightShorter(tmp, needle);
    ok, out := TrimRight(tmp, needle, dest, size);
  }

  lemma {:induction false} StripRightShorter(text: string, needle: string)
    ensures |StripRight(text, needle)| <= |text|
    decreases |text|
  {
    if text != "" && text[|text| - 1] in needle { StripRightShorter(text[..|text| - 1], needle); }
  }

  ghost predicate AllIn(s: string, needle: string) {
    forall i :: 0 <= i < |s| ==> s[i] in needle
  }

  /** Nothing to trim on either side. */
  predicate Trimmed(s: string, needle: string) {
    s != "" ==> s[0] !in needle && s[|s| - 1] !in needle
  }

  lemma {:induction false} StripLeftIs(text: string, needle: string) returns (a: string)
    ensures text == a + StripLeft(text, needle) && AllIn(a, needle)
    ensures StripLeft(text, needle) != "" ==> StripLeft(text, needle)[0] !in needle
    decreases |text|
  {
    a := "";
    if text != "" && text[0] in needle {
      var b := StripLeftIs(text[1..], needle);
      a := [text[0]] + b;
    }
  }

  lemma {:induction false} StripRightIs(text: string, needle: string) returns (b: string)
    ensures text == StripRight(text, needle) + b && AllIn(b, needle)
    ensures StripRight(text, needle) != "" ==> StripRight(text, needle)[|StripRight(text, needle)| - 1] !in needle
    decreases |text|
  {
    b := "";
    if text != "" && text[|text| - 1] in needle {
      var c := StripRightIs(text[..|text| - 1], needle);
      b := c + [text[|text| - 1]];
    }
  }

  /** What is left by trimming is the text without its trimmable ends, and has no trimmable ends of its own. */
  lemma TrimIs(text: string, needle: string) returns (a: string, b: string)
    ensures var r := StripRight(StripLeft(text, needle), needle);
      text == a + r + b && AllIn(a, needle) && AllIn(b, needle) && Trimmed(r, needle)
  {
    a := StripLeftIs(text, needle);
    b := StripRightIs(StripLeft(text, needle), needle);
    var left, r := StripLeft(text, needle), StripRight(StripLeft(text, needle), needle);
    if r != "" { assert left[0] == r[0]; }
  }

  lemma TrimmedStays(s: string, needle: string)
    requires Trimmed(s, needle)
    ensures StripLeft(s, needle) == s && StripRight(s, needle) == s
  {
  }
}
