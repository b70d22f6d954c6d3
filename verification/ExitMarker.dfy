/**
The process exit code is carried inside error messages as "[exit=N]"; exitCodeFor finds the
last such marker and reads it with Go's "%d".
*/
module ExitMarker {
  import opened Wrappers
  import opened Text
  import opened Decimals

  const MARK := "[exit="

  /** Go's int. */
  predicate IsInt64(i: int) {
    -0x8000_0000_0000_0000 <= i < 0x8000_0000_0000_0000
  }

  /** MARK stands at position i. */
  predicate MarkAt(s: string, i: nat) {
    && i + |MARK| <= |s|
    && s[i] == '[' && s[i + 1] == 'e' && s[i + 2] == 'x' && s[i + 3] == 'i' && s[i + 4] == 't' && s[i + 5] == '='
  }

  lemma MarkIsPrefix(s: string, i: nat)
    requires i + |MARK| <= |s|
    ensures MarkAt(s, i) <==> s[i..i + |MARK|] == MARK
  {
    var u := s[i..i + |MARK|];
    assert |u| == 6 && u[0] == s[i] && u[1] == s[i + 1] && u[2] == s[i + 2];
    assert u[3] == s[i + 3] && u[4] == s[i + 4] && u[5] == s[i + 5];
  }

  predicate HasMark(s: string) {
    exists i: nat | i < |s| :: MarkAt(s, i)
  }

  /** strings.LastIndex among the first n positions. */
  function LastMark(s: string, n: nat): (i: Option<nat>)
    requires n <= |s|
    ensures i.Some? ==> i.value + |MARK| <= |s|
  {
    if n == 0 then None
    else if MarkAt(s, n - 1) then Some(n - 1)
    else LastMark(s, n - 1)
  }

  /** "%d" skips blanks but not a line break. */
  function SkipBlanks(s: string): string {
    if s != "" && IsSpace(s[0]) && s[0] != '\n' then SkipBlanks(s[1..]) else s
  }

  /** Digits, a value that fits, and the bracket. */
  function ScanDigits(u: string, negative: bool): Option<int> {
    var k := DigitRun(u);
    if k == 0 || k == |u| || u[k] != ']' then None
    else
      var v := if negative then 0 - Value(u[..k]) else Value(u[..k]);
      if IsInt64(v) then Some(v) else None
  }

  /** "%d]" past the blanks: an optional sign and the digits. */
  function ScanSigned(t: string): Option<int> {
    if t != "" && (t[0] == '-' || t[0] == '+') then ScanDigits(t[1..], t[0] == '-') else ScanDigits(t, false)
  }

  function ScanNumber(s: string): Option<int> {
    ScanSigned(SkipBlanks(s))
  }

  /** What follows a mark, or 1 when it is not a number and a bracket. */
  function CodeIn(u: string): int {
    var n := ScanNumber(u);
    if n.Some? then n.value else 1
  }

  /** exitCodeFor; None is the nil error. */
  function ExitCodeFor(err: Option<string>): int {
    if err.None? then 0
    else
      var i := LastMark(err.value, |err.value|);
      if i.None? then 1 else CodeIn(err.value[i.value + |MARK|..])
  }

  function Marked(code: int): string {
    MARK + Render(code) + "]"
  }

  lemma {:induction false} LastMarkMeaning(s: string, n: nat)
    requires n <= |s|
    ensures LastMark(s, n).None? ==> forall j | 0 <= j < n :: !MarkAt(s, j)
    ensures LastMark(s, n).Some? ==>
              && LastMark(s, n).value < n && MarkAt(s, LastMark(s, n).value)
              && forall j | LastMark(s, n).value < j < n :: !MarkAt(s, j)
  {
    if n > 0 {
      LastMarkMeaning(s, n - 1);
    }
  }

  lemma {:induction false} LastMarkIs(s: string, n: nat, i: nat)
    requires i < n <= |s| && MarkAt(s, i) && forall j | i < j < n :: !MarkAt(s, j)
    ensures LastMark(s, n) == Some(i)
  {
    if i < n - 1 {
      LastMarkIs(s, n - 1, i);
    }
  }

  lemma NothingToSkip(s: string)
    requires s != "" && !IsSpace(s[0])
    ensures SkipBlanks(s) == s
  {
  }

  lemma ScanClosed(digits: string, rest: string, negative: bool, v: int)
    requires digits != "" && AllDigits(digits) && rest != "" && rest[0] == ']'
    requires v == (if negative then 0 - Value(digits) else Value(digits)) && IsInt64(v)
    ensures ScanDigits(digits + rest, negative) == Some(v)
  {
    DigitRunStops(digits, rest);
    var u := digits + rest;
    assert u[..|digits|] == digits && u[|digits|] == rest[0];
  }

  lemma ScanPositive(s: string, digits: string, rest: string, v: int)
    requires digits != "" && AllDigits(digits) && rest != "" && rest[0] == ']'
    requires s == digits + rest && v == Value(digits) && IsInt64(v)
    ensures ScanNumber(s) == Some(v)
  {
    assert s[0] == digits[0];
    NothingToSkip(s);
    ScanClosed(digits, rest, false, v);
  }

  lemma ScanNegative(s: string, digits: string, rest: string, v: int)
    requires digits != "" && AllDigits(digits) && rest != "" && rest[0] == ']'
    requires s == ['-'] + (digits + rest) && v == 0 - Value(digits) && IsInt64(v)
    ensures ScanNumber(s) == Some(v)
  {
    NothingToSkip(s);
    assert s[1..] == digits + rest;
    ScanClosed(digits, rest, true, v);
  }

  /** What a printed number consists of. */
  ghost predicate IsPrinted(s: string, digits: string, code: int) {
    && digits != "" && AllDigits(digits)
    && (if code < 0 then s == ['-'] + digits && Value(digits) == 0 - code else s == digits && Value(digits) == code)
  }

  lemma RenderIsPrinted(code: int) returns (digits: string)
    ensures IsPrinted(Render(code), digits, code)
  {
    if code < 0 {
      digits := Digits(-code);
      ValueOfDigits(-code);
    } else {
      digits := Digits(code);
      ValueOfDigits(code);
    }
  }

  lemma ScanPrinted(s: string, digits: string, rest: string, code: int)
    requires IsInt64(code) && rest != "" && rest[0] == ']' && IsPrinted(s, digits, code)
    ensures ScanNumber(s + rest) == Some(code)
  {
    if code < 0 {
      assert s + rest == ['-'] + (digits + rest);
      ScanNegative(s + rest, digits, rest, code);
    } else {
      ScanPositive(s + rest, digits, rest, code);
    }
  }

  /** The marker of a code scans back to it. */
  lemma ScanRendered(code: int, rest: string)
    requires IsInt64(code) && rest != "" && rest[0] == ']'
    ensures ScanNumber(Render(code) + rest) == Some(code)
  {
    var digits := RenderIsPrinted(code);
    ScanPrinted(Render(code), digits, rest, code);
  }

  lemma OneBracket(code: int, k: nat)
    requires 0 < k < |Marked(code)|
    ensures Marked(code)[k] != '['
  {
    ValueOfDigits(if code < 0 then -code else code);
  }

  /** A mark in a suffix of a text is a mark of the text. */
  lemma MarkShift(pre: string, s: string, i: nat)
    requires i <= |s|
    ensures MarkAt(pre + s, |pre| + i) <==> MarkAt(s, i)
  {
    assert forall k | 0 <= k < |s| :: (pre + s)[|pre| + k] == s[k];
  }

  /** A later "[exit=" can only lie in the tail: the marker itself has '[' nowhere else. */
  lemma NoLaterMark(code: int, tail: string, j: nat)
    requires 0 < j && MarkAt(Marked(code) + tail, j)
    ensures j >= |Marked(code)| && MarkAt(tail, j - |Marked(code)|)
  {
    if j >= |Marked(code)| {
      MarkShift(Marked(code), tail, j - |Marked(code)|);
    } else {
      OneBracket(code, j);
    }
  }

  lemma LastOfMarked(msg: string, code: int, tail: string)
    requires !HasMark(tail)
    ensures var s := msg + (Marked(code) + tail); LastMark(s, |s|) == Some(|msg|)
  {
    var rest := Marked(code) + tail;
    var s := msg + rest;
    MarkShift(msg, rest, 0);
    forall j | |msg| < j < |s| ensures !MarkAt(s, j) {
      MarkShift(msg, rest, j - |msg|);
      if MarkAt(rest, j - |msg|) {
        NoLaterMark(code, tail, j - |msg|);
        assert HasMark(tail);
      }
    }
    LastMarkIs(s, |s|, |msg|);
  }

  lemma AfterMark(msg: string, code: int, tail: string)
    ensures (msg + (Marked(code) + tail))[|msg| + |MARK|..] == Render(code) + ("]" + tail)
  {
    assert Marked(code) + tail == MARK + (Render(code) + ("]" + tail));
  }

  /**
  Round trip: whatever stands in front, and whatever follows without a marker of its own, the
  code that was printed is the code that is read, for every code a Go int can hold.
  */
  lemma ExitCodeRoundTrip(msg: string, code: int, tail: string)
    requires -0x8000_0000_0000_0000 <= code <= 0x7fff_ffff_ffff_ffff && !HasMark(tail)
    ensures ExitCodeFor(Some(msg + Marked(code) + tail)) == code
  {
    assert msg + Marked(code) + tail == msg + (Marked(code) + tail);
    LastOfMarked(msg, code, tail);
    AfterMark(msg, code, tail);
    ScanRendered(code, "]" + tail);
  }

  lemma HasLastMark(s: string) returns (i: nat)
    requires HasMark(s)
    ensures LastMark(s, |s|) == Some(i) && MarkAt(s, i) && i < |s| && forall j | i < j < |s| :: !MarkAt(s, j)
  {
    LastMarkMeaning(s, |s|);
    i := LastMark(s, |s|).value;
  }

  lemma ShiftedLastMark(pre: string, s: string, i: nat)
    requires MarkAt(s, i) && i < |s| && forall j | i < j < |s| :: !MarkAt(s, j)
    ensures LastMark(pre + s, |pre + s|) == Some(|pre| + i)
  {
    MarkShift(pre, s, i);
    forall j | |pre| + i < j < |pre + s| ensures !MarkAt(pre + s, j) {
      MarkShift(pre, s, j - |pre|);
    }
    LastMarkIs(pre + s, |pre + s|, |pre| + i);
  }

  /** The code depends on nothing but what follows the last mark. */
  lemma CodeAfterMark(s: string, i: nat, u: string)
    requires LastMark(s, |s|) == Some(i) && i + |MARK| <= |s| && s[i + |MARK|..] == u
    ensures ExitCodeFor(Some(s)) == CodeIn(u)
  {
  }

  /** Text put in front of a message that has any marker, sound or not, changes nothing. */
  lemma PrefixKeepsCode(pre: string, s: string)
    requires HasMark(s)
    ensures ExitCodeFor(Some(pre + s)) == ExitCodeFor(Some(s))
  {
    var i := HasLastMark(s);
    ShiftedLastMark(pre, s, i);
    var u := s[i + |MARK|..];
    assert (pre + s)[|pre| + i + |MARK|..] == u;
    CodeAfterMark(pre + s, |pre| + i, u);
    CodeAfterMark(s, i, u);
  }

  /** Wrapping an error appends a marker; the outermost one decides, whatever was inside. */
  lemma OutermostMarkerDecides(pre: string, s: string, mid: string, code: int)
    requires IsInt64(code)
    ensures ExitCodeFor(Some(pre + s + mid + Marked(code))) == code
  {
    assert pre + s + mid + Marked(code) + "" == pre + s + mid + Marked(code);
    assert !HasMark("");
    ExitCodeRoundTrip(pre + s + mid, code, "");
  }

  lemma UnmarkedIsOne(s: string)
    requires !HasMark(s)
    ensures ExitCodeFor(Some(s)) == 1
  {
    LastMarkMeaning(s, |s|);
  }

  /** A number that does not fit a Go int is no marker: the code is 1. */
  lemma OverflowIsOne(msg: string, code: int, tail: string)
    requires !(-0x8000_0000_0000_0000 <= code <= 0x7fff_ffff_ffff_ffff) && !HasMark(tail)
    ensures ExitCodeFor(Some(msg + Marked(code) + tail)) == 1
  {
    var s := msg + (Marked(code) + tail);
    assert msg + Marked(code) + tail == s;
    LastOfMarked(msg, code, tail);
    AfterMark(msg, code, tail);
    CodeAfterMark(s, |msg|, Render(code) + ("]" + tail));
    OverflowCode(code, "]" + tail);
  }

  lemma OverflowCode(code: int, rest: string)
    requires !IsInt64(code) && rest != "" && rest[0] == ']'
    ensures CodeIn(Render(code) + rest) == 1
  {
    var digits := RenderIsPrinted(code);
    OverflowScan(Render(code), digits, rest, code);
  }

  lemma OverflowDigits(digits: string, rest: string, negative: bool)
    requires digits != "" && AllDigits(digits) && rest != "" && rest[0] == ']'
    requires !IsInt64(if negative then 0 - Value(digits) else Value(digits))
    ensures ScanDigits(digits + rest, negative) == None
  {
    DigitRunStops(digits, rest);
    assert (digits + rest)[..|digits|] == digits;
  }

  lemma OverflowScan(s: string, digits: string, rest: string, code: int)
    requires !IsInt64(code) && rest != "" && rest[0] == ']' && IsPrinted(s, digits, code)
    ensures ScanNumber(s + rest) == None
  {
    if code < 0 {
      assert s + rest == ['-'] + (digits + rest) && (s + rest)[1..] == digits + rest;
      NothingToSkip(s + rest);
      OverflowDigits(digits, rest, true);
    } else {
      assert (s + rest)[0] == digits[0];
      NothingToSkip(s + rest);
      OverflowDigits(digits, rest, false);
    }
  }

  /** Blanks before the number are skipped, but not a line break. */
  lemma {:induction false} BlanksAreSkipped(blanks: string, s: string)
    requires forall i | 0 <= i < |blanks| :: IsSpace(blanks[i]) && blanks[i] != '\n'
    ensures ScanNumber(blanks + s) == ScanNumber(s)
    ensures ScanNumber("\n" + s) == None
  {
    assert ("\n" + s)[0] == '\n' && DigitRun("\n" + s) == 0;
    SkipBlanksIs(blanks, s);
  }

  lemma {:induction false} SkipBlanksIs(blanks: string, s: string)
    requires forall i | 0 <= i < |blanks| :: IsSpace(blanks[i]) && blanks[i] != '\n'
    ensures SkipBlanks(blanks + s) == SkipBlanks(s)
  {
    if blanks == "" {
      assert blanks + s == s;
    } else {
      assert (blanks + s)[0] == blanks[0] && (blanks + s)[1..] == blanks[1..] + s;
      SkipBlanksIs(blanks[1..], s);
    }
  }

  /** A plus sign is accepted, as Go's scanner does. */
  lemma PlusIsAccepted(digits: string, rest: string)
    requires digits != "" && AllDigits(digits) && rest != "" && rest[0] == ']' && IsInt64(Value(digits))
    ensures ScanNumber(['+'] + (digits + rest)) == Some(Value(digits))
  {
    var s := ['+'] + (digits + rest);
    NothingToSkip(s);
    assert s[1..] == digits + rest;
    ScanClosed(digits, rest, false, Value(digits));
  }

  /** A number that no bracket closes is no marker. */
  lemma UnclosedIsNone(digits: string, rest: string)
    requires digits != "" && AllDigits(digits) && (rest == "" || (rest[0] != ']' && !IsDigit(rest[0])))
    ensures ScanNumber(digits + rest) == None
  {
    DigitRunStops(digits, rest);
    assert (digits + rest)[0] == digits[0];
    NothingToSkip(digits + rest);
  }
}
