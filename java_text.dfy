/** The Java library text conversions the province files rely on: decimal printing of
    an `int` (`"" + i`), `Integer.parseInt`, `Boolean.parseBoolean`, and `String.split`
    with a one-character separator (trailing empty pieces dropped). */
module JavaText {
  import opened Objects

  /** A value of Java's 32-bit `int`. */
  predicate IsInt32(i: int) {
    -0x8000_0000 <= i < 0x8000_0000
  }

  predicate IsDigit(ch: char) {
    '0' <= ch <= '9'
  }

  predicate AllDigits(s: string) {
    forall i :: 0 <= i < |s| ==> IsDigit(s[i])
  }

  function DigitChar(d: nat): (ch: char)
    requires d < 10
    ensures IsDigit(ch)
  {
    ['0', '1', '2', '3', '4', '5', '6', '7', '8', '9'][d]
  }

  function DigitValue(ch: char): (d: nat)
    requires IsDigit(ch)
    ensures d < 10
  {
    (ch as int - '0' as int) as nat
  }

  /** The value of a run of decimal digits, most significant first. */
  function DigitsValue(s: string): nat
    requires AllDigits(s)
  {
    if |s| == 0 then 0 else DigitsValue(s[..|s| - 1]) * 10 + DigitValue(s[|s| - 1])
  }

  /** The decimal digits of `n`, without leading zeros. */
  function NatToString(n: nat): (s: string)
    ensures |s| > 0 && AllDigits(s)
    ensures s[0] == '0' ==> n == 0
    ensures DigitsValue(s) == n
  {
    if n < 10 then [DigitChar(n)]
    else
      var s := NatToString(n / 10) + [DigitChar(n % 10)];
      assert s[..|s| - 1] == NatToString(n / 10);
      s
  }

  /** `"" + i` for an `int`: a minus sign for negative values, then the digits. */
  function IntToString(i: int): (s: string)
    ensures |s| > 0
    ensures s[0] == '-' <==> i < 0
    ensures forall k :: 0 <= k < |s| ==> IsDigit(s[k]) || (k == 0 && s[k] == '-')
  {
    if i < 0 then "-" + NatToString(-i) else NatToString(i)
  }

  /** `Integer.parseInt`: an optional sign, at least one decimal digit, and a value that
      fits an `int`; anything else raises an error, `None` here. */
  function ParseInt(s: string): (r: Option<int>)
    ensures r.Some? ==> IsInt32(r.value)
  {
    if |s| == 0 then None
    else
      var signed := s[0] == '-' || s[0] == '+';
      var digits := if signed then s[1..] else s;
      if |digits| == 0 || !AllDigits(digits) then None
      else
        var v: int := if s[0] == '-' then -(DigitsValue(digits) as int) else DigitsValue(digits);
        if IsInt32(v) then Some(v) else None
  }

  /** Printing an `int` and parsing it back gives the same value. */
  lemma ParseIntToString(i: int)
    requires IsInt32(i)
    ensures ParseInt(IntToString(i)) == Some(i)
  {
    var s := IntToString(i);
    if i < 0 {
      assert s[1..] == NatToString(-i);
    } else {
      assert IsDigit(s[0]);
    }
  }

  /** `Boolean.toString` (as `"" + b`). */
  function BoolToString(b: bool): string {
    if b then "true" else "false"
  }

  function LowerAscii(ch: char): char {
    if 'A' <= ch <= 'Z' then (ch as int - 'A' as int + 'a' as int) as char else ch
  }

  /** `Boolean.parseBoolean`: true exactly for "true" in any letter case; a missing
      value (`null`) gives false. */
  function ParseBoolean(s: Option<string>): (b: bool)
    ensures b ==> s.Some? && |s.value| == 4
    ensures s == Some("true") || s == Some("TRUE") ==> b
  {
    s.Some? && |s.value| == 4
    && LowerAscii(s.value[0]) == 't' && LowerAscii(s.value[1]) == 'r'
    && LowerAscii(s.value[2]) == 'u' && LowerAscii(s.value[3]) == 'e'
  }

  /** Printing a boolean and parsing it back gives the same value. */
  lemma ParseBooleanToString(b: bool)
    ensures ParseBoolean(Some(BoolToString(b))) == b
  {
    if !b {
      assert LowerAscii(BoolToString(b)[0]) == 'f';
    }
  }

  /** The pieces of `s` between occurrences of `sep`, empty pieces included. */
  function SplitAll(s: string, sep: char): (r: seq<string>)
    ensures |r| > 0
    ensures forall i :: 0 <= i < |r| ==> sep !in r[i]
  {
    if |s| == 0 then [""]
    else
      var rest := SplitAll(s[1..], sep);
      if s[0] == sep then [""] + rest else [[s[0]] + rest[0]] + rest[1..]
  }

  /** The pieces `r` joined with `sep` between consecutive pieces. */
  function Join(r: seq<string>, sep: char): string
    requires |r| > 0
  {
    if |r| == 1 then r[0] else Join(r[..|r| - 1], sep) + [sep] + r[|r| - 1]
  }

  /** Splitting undoes joining. */
  lemma {:induction false} JoinSplit(s: string, sep: char)
    ensures Join(SplitAll(s, sep), sep) == s
  {
    if |s| > 0 {
      JoinSplit(s[1..], sep);
      var rest := SplitAll(s[1..], sep);
      if s[0] == sep {
        JoinCons("", rest, sep);
      } else {
        JoinHead([s[0]], rest, sep);
      }
    }
  }

  /** Joining a piece in front of `r`. */
  lemma {:induction false} JoinCons(a: string, r: seq<string>, sep: char)
    requires |r| > 0
    ensures Join([a] + r, sep) == a + [sep] + Join(r, sep)
  {
    if |r| > 1 {
      JoinCons(a, r[..|r| - 1], sep);
      assert ([a] + r)[..|r|] == [a] + r[..|r| - 1];
    }
  }

  /** Extending the first piece of `r` at its front. */
  lemma {:induction false} JoinHead(a: string, r: seq<string>, sep: char)
    requires |r| > 0
    ensures Join([a + r[0]] + r[1..], sep) == a + Join(r, sep)
  {
    var t := [a + r[0]] + r[1..];
    if |r| > 1 {
      var init := r[..|r| - 1];
      JoinHead(a, init, sep);
      assert t[..|t| - 1] == [a + init[0]] + init[1..];
      assert t[|t| - 1] == r[|r| - 1];
      calc {
        Join(t, sep);
        Join(t[..|t| - 1], sep) + [sep] + r[|r| - 1];
        a + Join(init, sep) + [sep] + r[|r| - 1];
      }
    }
  }

  /** Splitting at a separator splits the pieces on either side separately. */
  lemma {:induction false} SplitAppend(a: string, b: string, sep: char)
    ensures SplitAll(a + [sep] + b, sep) == SplitAll(a, sep) + SplitAll(b, sep)
  {
    if |a| == 0 {
      assert (a + [sep] + b)[1..] == b;
    } else {
      assert (a + [sep] + b)[1..] == a[1..] + [sep] + b;
      SplitAppend(a[1..], b, sep);
    }
  }

  /** A string without the separator is one piece. */
  lemma {:induction false} SplitNone(a: string, sep: char)
    requires sep !in a
    ensures SplitAll(a, sep) == [a]
  {
    if |a| > 0 {
      SplitNone(a[1..], sep);
      assert [a[0]] + a[1..] == a;
    }
  }

  /** Joining undoes splitting, for pieces without the separator. */
  lemma {:induction false} SplitJoin(r: seq<string>, sep: char)
    requires |r| > 0
    requires forall i :: 0 <= i < |r| ==> sep !in r[i]
    ensures SplitAll(Join(r, sep), sep) == r
  {
    SplitNone(r[|r| - 1], sep);
    if |r| > 1 {
      SplitJoin(r[..|r| - 1], sep);
      SplitAppend(Join(r[..|r| - 1], sep), r[|r| - 1], sep);
    }
  }

  /** `r` without its trailing empty pieces. */
  function DropTrailingEmpty(r: seq<string>): (t: seq<string>)
    ensures t <= r
    ensures |t| > 0 ==> t[|t| - 1] != ""
    ensures forall i :: |t| <= i < |r| ==> r[i] == ""
  {
    if |r| == 0 then []
    else if r[|r| - 1] == "" then DropTrailingEmpty(r[..|r| - 1])
    else r
  }

  /** `String.split` with a one-character separator: the input itself when the
      separator does not occur, otherwise its pieces without the trailing empty ones. */
  function JavaSplit(s: string, sep: char): seq<string> {
    if sep !in s then [s] else DropTrailingEmpty(SplitAll(s, sep))
  }

  /** Splitting pieces joined with the separator gives the pieces back, when none
      contains the separator and the last is not empty. */
  lemma JavaSplitJoin(r: seq<string>, sep: char)
    requires |r| > 0 && r[|r| - 1] != ""
    requires forall i :: 0 <= i < |r| ==> sep !in r[i]
    ensures JavaSplit(Join(r, sep), sep) == r
  {
    SplitJoin(r, sep);
    if sep !in Join(r, sep) {
      SplitNone(Join(r, sep), sep);
    }
  }
}
