/** The parts of java.lang.String, Character and Integer that the plugin's
    request handling relies on, restricted to ASCII text. */
module JavaText {

  datatype Option<T> = None | Some(value: T)

  // ---------------------------------------------------------------------
  // Character classes (Character.isDigit / isLetter / isWhitespace on ASCII)
  // ---------------------------------------------------------------------

  predicate IsDigit(c: char) { '0' <= c <= '9' }

  predicate IsLetter(c: char) { 'A' <= c <= 'Z' || 'a' <= c <= 'z' }

  /** Character.isWhitespace on ASCII: space, TAB..CR and the four
      information separators U+001C..U+001F. */
  predicate IsWhitespace(c: char) {
    c == ' ' || '\t' <= c <= '\r' || '\U{1C}' <= c <= '\U{1F}'
  }

  predicate AllDigits(s: string) {
    forall i :: 0 <= i < |s| ==> IsDigit(s[i])
  }

  function ToLowerChar(c: char): char {
    if 'A' <= c <= 'Z' then (c as int + 32) as char else c
  }

  /** String.toLowerCase on ASCII text. */
  function ToLower(s: string): (r: string)
    ensures |r| == |s|
  {
    if s == [] then [] else [ToLowerChar(s[0])] + ToLower(s[1..])
  }

  lemma {:induction false} ToLowerAt(s: string, i: nat)
    requires i < |s|
    ensures ToLower(s)[i] == ToLowerChar(s[i])
  {
    if i > 0 {
      ToLowerAt(s[1..], i - 1);
    }
  }

  // ---------------------------------------------------------------------
  // Prefixes, suffixes and searching
  // ---------------------------------------------------------------------

  predicate StartsWith(s: string, p: string) {
    |p| <= |s| && s[..|p|] == p
  }

  predicate EndsWith(s: string, p: string) {
    |p| <= |s| && s[|s| - |p|..] == p
  }

  predicate OccursAt(s: string, p: string, i: nat) {
    i + |p| <= |s| && s[i..i + |p|] == p
  }

  /** String.indexOf(p, from): the first position at or after `from` where
      `p` occurs, or None for -1. */
  function IndexOfFrom(s: string, p: string, from: nat): (r: Option<nat>)
    decreases |s| - from
    ensures r.Some? ==> from <= r.value && OccursAt(s, p, r.value)
    ensures forall j: nat :: from <= j && (r.None? || j < r.value) ==> !OccursAt(s, p, j)
  {
    if from + |p| > |s| then None
    else if OccursAt(s, p, from) then Some(from)
    else IndexOfFrom(s, p, from + 1)
  }

  function IndexOf(s: string, p: string): Option<nat> {
    IndexOfFrom(s, p, 0)
  }

  /** String.contains. */
  predicate Contains(s: string, p: string) {
    IndexOf(s, p).Some?
  }

  /** The first occurrence is where the search stops. */
  lemma IndexOfIsFirst(s: string, p: string, from: nat, i: nat)
    requires from <= i && OccursAt(s, p, i)
    requires forall j: nat :: from <= j < i ==> !OccursAt(s, p, j)
    ensures IndexOfFrom(s, p, from) == Some(i)
  {
  }

  lemma OccursAtChar(s: string, c: char, i: nat)
    ensures OccursAt(s, [c], i) <==> i < |s| && s[i] == c
  {
    if i < |s| && s[i] == c {
      assert s[i..i + 1] == [c];
    }
  }

  /** String.lastIndexOf for a one-character pattern; -1 when absent. */
  function LastIndexOf(s: string, c: char): (r: int)
    ensures -1 <= r < |s|
    ensures r >= 0 ==> s[r] == c
    ensures forall j :: r < j < |s| ==> s[j] != c
  {
    if s == [] then -1
    else if s[|s| - 1] == c then |s| - 1
    else LastIndexOf(s[..|s| - 1], c)
  }

  /** String.trim: drops leading and trailing characters up to U+0020. */
  function Trim(s: string): string {
    TrimEnd(TrimStart(s))
  }

  function TrimStart(s: string): string {
    if s != [] && s[0] <= ' ' then TrimStart(s[1..]) else s
  }

  function TrimEnd(s: string): string {
    if s != [] && s[|s| - 1] <= ' ' then TrimEnd(s[..|s| - 1]) else s
  }

  /** Leading characters up to U+0020 are skipped by TrimStart. */
  lemma {:induction false} TrimStartSkips(ws: string, t: string)
    requires forall i :: 0 <= i < |ws| ==> ws[i] <= ' '
    requires t != [] && t[0] > ' '
    ensures TrimStart(ws + t) == t
  {
    if ws != [] {
      assert (ws + t)[1..] == ws[1..] + t;
      TrimStartSkips(ws[1..], t);
    }
  }

  /** Trailing characters up to U+0020 are skipped by TrimEnd. */
  lemma {:induction false} TrimEndSkips(t: string, ws: string)
    requires forall i :: 0 <= i < |ws| ==> ws[i] <= ' '
    requires t != [] && t[|t| - 1] > ' '
    ensures TrimEnd(t + ws) == t
  {
    if ws != [] {
      var w := ws[..|ws| - 1];
      assert (t + ws)[..|t + ws| - 1] == t + w;
      TrimEndSkips(t, w);
    } else {
      assert t + ws == t;
    }
  }

  /** String.trim removes exactly the blank padding around a text that
      starts and ends with a visible character. */
  lemma TrimAround(ws: string, t: string, ws2: string)
    requires forall i :: 0 <= i < |ws| ==> ws[i] <= ' '
    requires forall i :: 0 <= i < |ws2| ==> ws2[i] <= ' '
    requires t != [] && t[0] > ' ' && t[|t| - 1] > ' '
    ensures Trim(ws + t + ws2) == t
  {
    assert ws + t + ws2 == ws + (t + ws2);
    TrimStartSkips(ws, t + ws2);
    TrimEndSkips(t, ws2);
  }

  // ---------------------------------------------------------------------
  // Decimal rendering and Integer.parseInt
  // ---------------------------------------------------------------------

  const IntMin: int := -2147483648
  const IntMax: int := 2147483647

  function DigitChar(d: nat): char
    requires d < 10
  {
    ('0' as int + d) as char
  }

  function DigitOf(c: char): nat
    requires IsDigit(c)
  {
    c as int - '0' as int
  }

  /** Decimal rendering of a non-negative number, as string concatenation
      of an int or long does it. */
  function Dec(n: nat): (r: string)
    ensures |r| >= 1 && AllDigits(r)
  {
    if n < 10 then [DigitChar(n)] else Dec(n / 10) + [DigitChar(n % 10)]
  }

  /** Decimal rendering of any int or long. */
  function IntToString(n: int): string {
    if n < 0 then "-" + Dec(-n) else Dec(n)
  }

  /** The value of a string of decimal digits. */
  function DigitsValue(s: string): nat
    requires AllDigits(s)
  {
    if s == [] then 0 else DigitsValue(s[..|s| - 1]) * 10 + DigitOf(s[|s| - 1])
  }

  /** Integer.parseInt(s) with radix 10: an optional sign, at least one
      digit, and a value that fits in 32 bits; None where it throws
      NumberFormatException. */
  function ParseInt(s: string): Option<int> {
    if s == [] then None
    else
      var digits := if s[0] == '-' || s[0] == '+' then s[1..] else s;
      if digits == [] || !AllDigits(digits) then None
      else
        var v: int := if s[0] == '-' then 0 - DigitsValue(digits) as int else DigitsValue(digits);
        if IntMin <= v <= IntMax then Some(v) else None
  }

  /** Reading back a rendered number gives the number. */
  lemma {:induction false} DigitsValueDec(n: nat)
    ensures DigitsValue(Dec(n)) == n
  {
    if n >= 10 {
      var d := Dec(n / 10) + [DigitChar(n % 10)];
      assert d[..|d| - 1] == Dec(n / 10);
      DigitsValueDec(n / 10);
    }
  }

  /** Integer.parseInt accepts what Long.toString renders (within range). */
  lemma ParseIntDec(n: nat)
    requires n <= IntMax
    ensures ParseInt(Dec(n)) == Some(n)
  {
    DigitsValueDec(n);
  }

  /** Integer.parseInt reads back what Integer.toString renders, signs
      included, for every 32-bit value. */
  lemma ParseIntToString(n: int)
    requires IntMin <= n <= IntMax
    ensures ParseInt(IntToString(n)) == Some(n)
  {
    if n < 0 {
      ParseIntNegative(-n);
    } else {
      ParseIntDec(n);
    }
  }

  /** Integer.parseInt accepts a minus sign before the rendered magnitude. */
  lemma ParseIntNegative(m: nat)
    requires 0 < m <= -IntMin
    ensures ParseInt("-" + Dec(m)) == Some(-(m as int))
  {
    var d := Dec(m);
    var s := "-" + d;
    assert s[0] == '-' && s[1..] == d;
    DigitsValueDec(m);
  }

  /** Rendering is injective. */
  lemma DecInjective(a: nat, b: nat)
    requires Dec(a) == Dec(b)
    ensures a == b
  {
    DigitsValueDec(a);
    DigitsValueDec(b);
  }

  lemma {:induction false} DecLength(n: nat)
    ensures n < 10 ==> |Dec(n)| == 1
    ensures n < 100 ==> |Dec(n)| <= 2
    ensures n < 1000 ==> |Dec(n)| <= 3
  {
    if n >= 10 {
      DecLength(n / 10);
    }
  }

  /** The message of NumberFormatException.forInputString for radix 10. */
  function NumberFormatMessage(s: string): string {
    "For input string: \"" + s + "\""
  }

  /** The message of an ArrayIndexOutOfBoundsException. */
  function IndexOutOfBoundsMessage(index: nat, length: nat): string {
    "Index " + Dec(index) + " out of bounds for length " + Dec(length)
  }

  // ---------------------------------------------------------------------
  // String.split with a literal separator
  // ---------------------------------------------------------------------

  /** Every piece between occurrences of `sep`, scanning left to right. */
  function SplitAll(s: string, sep: string): (r: seq<string>)
    requires |sep| > 0
    decreases |s|
    ensures |r| >= 1
  {
    match IndexOf(s, sep)
    case None => [s]
    case Some(i) => [s[..i]] + SplitAll(s[i + |sep|..], sep)
  }

  /** Drops the empty strings at the end of the list. */
  function DropTrailingEmpty(xs: seq<string>): (r: seq<string>)
    ensures r <= xs
    ensures r == [] || r[|r| - 1] != ""
  {
    if xs == [] then []
    else if xs[|xs| - 1] == "" then DropTrailingEmpty(xs[..|xs| - 1])
    else xs
  }

  /** String.split(sep) with limit 0, for a separator with no regular
      expression metacharacters: the input itself when `sep` does not occur,
      otherwise every piece with the trailing empty pieces removed. */
  function JavaSplit(s: string, sep: string): seq<string>
    requires |sep| > 0
  {
    if IndexOf(s, sep).None? then [s] else DropTrailingEmpty(SplitAll(s, sep))
  }

  /** A non-empty piece survives the removal of trailing empty pieces,
      together with everything before it. */
  lemma {:induction false} DropTrailingEmptyKeeps(xs: seq<string>, k: nat)
    requires k < |xs| && xs[k] != ""
    ensures |DropTrailingEmpty(xs)| > k
  {
    if xs[|xs| - 1] == "" {
      DropTrailingEmptyKeeps(xs[..|xs| - 1], k);
    }
  }

  /** Splitting on a one-character separator that does not occur in the
      head `x` gives `x` followed by the pieces of the rest. */
  lemma SplitAllCons(x: string, c: char, y: string)
    requires forall i :: 0 <= i < |x| ==> x[i] != c
    ensures SplitAll(x + [c] + y, [c]) == [x] + SplitAll(y, [c])
  {
    var s := x + [c] + y;
    OccursAtChar(s, c, |x|);
    forall j: nat | j < |x| ensures !OccursAt(s, [c], j) {
      OccursAtChar(s, c, j);
    }
    IndexOfIsFirst(s, [c], 0, |x|);
    assert s[..|x|] == x;
    assert s[|x| + 1..] == y;
  }

  /** Splitting at a separator whose first occurrence follows the head `x`
      gives `x` followed by the pieces of the rest. */
  lemma SplitAllAt(x: string, sep: string, y: string)
    requires |sep| > 0
    requires forall j: nat :: j < |x| ==> !OccursAt(x + sep + y, sep, j)
    ensures SplitAll(x + sep + y, sep) == [x] + SplitAll(y, sep)
  {
    var s := x + sep + y;
    assert s[|x|..|x| + |sep|] == sep;
    IndexOfIsFirst(s, sep, 0, |x|);
    assert s[..|x|] == x;
    assert s[|x| + |sep|..] == y;
  }

  /** A string in which the separator never occurs is its own only piece. */
  lemma SplitAllAbsent(s: string, sep: string)
    requires |sep| > 0
    requires forall j: nat :: !OccursAt(s, sep, j)
    ensures IndexOf(s, sep) == None
    ensures SplitAll(s, sep) == [s]
  {
  }

  /** Splitting a string without the separator gives the string itself. */
  lemma SplitAllNone(x: string, c: char)
    requires forall i :: 0 <= i < |x| ==> x[i] != c
    ensures IndexOf(x, [c]) == None
    ensures SplitAll(x, [c]) == [x]
  {
    forall j: nat ensures !OccursAt(x, [c], j) {
      OccursAtChar(x, c, j);
    }
  }

  /** A text without the separator, followed by nothing or by the
      separator, is the first piece. */
  lemma HeadPiece(x: string, c: char, tail: string)
    requires forall i :: 0 <= i < |x| ==> x[i] != c
    requires tail == [] || tail[0] == c
    ensures SplitAll(x + tail, [c])[0] == x
  {
    if tail == [] {
      assert x + tail == x;
      SplitAllNone(x, c);
    } else {
      assert x + tail == x + [c] + tail[1..];
      SplitAllCons(x, c, tail[1..]);
    }
  }

  /** A run of separators splits into empty pieces only. */
  lemma {:induction false} SplitAllOfSeparators(s: string, c: char)
    requires forall i :: 0 <= i < |s| ==> s[i] == c
    ensures forall k :: 0 <= k < |SplitAll(s, [c])| ==> SplitAll(s, [c])[k] == ""
  {
    if s != [] {
      var rest := s[1..];
      assert s == [] + [c] + rest;
      SplitAllAt([], [c], rest);
      SplitAllOfSeparators(rest, c);
      var pieces, tail := SplitAll(s, [c]), SplitAll(rest, [c]);
      assert pieces == [""] + tail;
      forall k | 0 <= k < |pieces| ensures pieces[k] == "" {
        if k > 0 {
          assert pieces[k] == tail[k - 1];
        }
      }
    }
  }

  /** With nothing but empty pieces after the first, at most the first
      piece survives the removal of trailing empty pieces. */
  lemma {:induction false} DropTrailingEmptyLeavesHead(xs: seq<string>)
    requires forall k :: 1 <= k < |xs| ==> xs[k] == ""
    ensures |DropTrailingEmpty(xs)| <= 1
  {
    if |xs| > 1 {
      DropTrailingEmptyLeavesHead(xs[..|xs| - 1]);
    }
  }

  /** The first token of a split on a one-character separator is a prefix
      of the text and holds no separator. */
  lemma FirstPieceHasNoSeparator(s: string, c: char)
    ensures var t := JavaSplit(s, [c]);
            |t| > 0 ==> t[0] <= s && forall k :: 0 <= k < |t[0]| ==> t[0][k] != c
  {
    var t := JavaSplit(s, [c]);
    match IndexOf(s, [c])
    case None =>
      forall k | 0 <= k < |s| ensures s[k] != c {
        OccursAtChar(s, c, k);
      }
    case Some(i) =>
      if |t| > 0 {
        assert t[0] == SplitAll(s, [c])[0] == s[..i];
        forall k | 0 <= k < i ensures s[k] != c {
          OccursAtChar(s, c, k);
        }
      }
  }
}
