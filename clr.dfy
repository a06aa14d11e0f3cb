/** The pieces of the .NET base library the query engine relies on: 32-bit integers
    and their unchecked arithmetic, ordinal case-insensitive comparison, `char.IsWhiteSpace`,
    `string.Split(char)` and `int.Parse` / `long.Parse` with the default number style. */
module Clr {
  import opened Wrappers

  const MinInt32: int := -0x8000_0000
  const MaxInt32: int := 0x7FFF_FFFF
  const MinInt64: int := -0x8000_0000_0000_0000
  const MaxInt64: int := 0x7FFF_FFFF_FFFF_FFFF

  /** The values of a C# `int`. */
  type Int32 = x: int | MinInt32 <= x <= MaxInt32

  /** The result of unchecked C# `int` arithmetic whose exact value is `x`: `x` reduced
      modulo 2^32 into the `int` range. */
  function Wrap32(x: int): (r: Int32)
    ensures MinInt32 <= x <= MaxInt32 ==> r == x
    ensures (x - r) % 0x1_0000_0000 == 0
  {
    (x - MinInt32) % 0x1_0000_0000 + MinInt32
  }

  /** A value clamped into the `int` range, as the saturating floating-point to `int`
      conversion of .NET 9 does. */
  function Saturate32(x: int): (r: Int32)
    ensures MinInt32 <= x <= MaxInt32 ==> r == x
    ensures x > MaxInt32 ==> r == MaxInt32
    ensures x < MinInt32 ==> r == MinInt32
  {
    if x < MinInt32 then MinInt32 else if x > MaxInt32 then MaxInt32 else x
  }

  // ---------------------------------------------------------------------------
  // Ordinal case-insensitive comparison

  /** Case folding of one character; only the ASCII letters have a case here. */
  function FoldChar(c: char): char
  {
    if 'A' <= c <= 'Z' then (c as int + 32) as char else c
  }

  function Lower(s: string): (r: string)
    ensures |r| == |s|
    ensures forall i :: 0 <= i < |s| ==> r[i] == FoldChar(s[i])
  {
    seq(|s|, i requires 0 <= i < |s| => FoldChar(s[i]))
  }

  /** `StringComparer.OrdinalIgnoreCase.Equals(a, b)`. */
  predicate EqualsIgnoreCase(a: string, b: string)
  {
    Lower(a) == Lower(b)
  }

  lemma LowerIdempotent(s: string)
    ensures Lower(Lower(s)) == Lower(s)
  {
  }

  // ---------------------------------------------------------------------------
  // Whitespace

  /** `char.IsWhiteSpace`: the Unicode separators and the control characters
      U+0009 to U+000D and U+0085. */
  predicate IsWhiteSpace(c: char)
  {
    || '\U{9}' <= c <= '\U{D}' || c == ' ' || c == '\U{85}' || c == '\U{A0}'
    || c == '\U{1680}' || '\U{2000}' <= c <= '\U{200A}' || c == '\U{2028}' || c == '\U{2029}'
    || c == '\U{202F}' || c == '\U{205F}' || c == '\U{3000}'
  }

  /** `string.IsNullOrWhiteSpace`. */
  predicate IsNullOrWhiteSpace(s: Option<string>)
  {
    s.None? || forall i :: 0 <= i < |s.value| ==> IsWhiteSpace(s.value[i])
  }

  // ---------------------------------------------------------------------------
  // string.Split(char)

  /** `s.Split(sep)`: the pieces between separators, empty pieces included, so that
      the result always has at least one element. */
  function Split(s: string, sep: char): (r: seq<string>)
    ensures |r| >= 1
    decreases |s|
  {
    if s == [] then [""]
    else
      var rest := Split(s[1..], sep);
      if s[0] == sep then [""] + rest
      else [[s[0]] + rest[0]] + rest[1..]
  }

  /** `string.Join(sep, parts)`. */
  function Join(parts: seq<string>, sep: char): string
    requires |parts| >= 1
  {
    if |parts| == 1 then parts[0] else parts[0] + [sep] + Join(parts[1..], sep)
  }

  /** Splitting loses nothing: joining the pieces gives the string back. */
  lemma {:induction false} JoinSplit(s: string, sep: char)
    ensures Join(Split(s, sep), sep) == s
    decreases |s|
  {
    if s != [] {
      var rest := Split(s[1..], sep);
      JoinSplit(s[1..], sep);
      if s[0] == sep {
        assert ([""] + rest)[1..] == rest;
      } else if |rest| > 1 {
        var r := Split(s, sep);
        assert r[1..] == rest[1..];
        calc {
          Join(r, sep);
          r[0] + [sep] + Join(rest[1..], sep);
          [s[0]] + (rest[0] + [sep] + Join(rest[1..], sep));
          [s[0]] + Join(rest, sep);
          [s[0]] + s[1..];
        }
      }
    }
  }

  /** No piece contains the separator. */
  lemma {:induction false} SplitPiecesHaveNoSeparator(s: string, sep: char)
    ensures forall i :: 0 <= i < |Split(s, sep)| ==> sep !in Split(s, sep)[i]
    decreases |s|
  {
    if s != [] {
      SplitPiecesHaveNoSeparator(s[1..], sep);
    }
  }

  /** A string without the separator is a single piece. */
  lemma {:induction false} SplitWithoutSeparator(s: string, sep: char)
    requires sep !in s
    ensures Split(s, sep) == [s]
    decreases |s|
  {
    if s != [] {
      SplitWithoutSeparator(s[1..], sep);
      assert [s[0]] + s[1..] == s;
    }
  }

  function LowerEach(parts: seq<string>): (r: seq<string>)
    ensures |r| == |parts|
    ensures forall i :: 0 <= i < |parts| ==> r[i] == Lower(parts[i])
  {
    seq(|parts|, i requires 0 <= i < |parts| => Lower(parts[i]))
  }

  /** Splitting on a character that has no case commutes with case folding. */
  lemma {:induction false} SplitLower(s: string, sep: char)
    requires FoldChar(sep) == sep && forall c :: FoldChar(c) == sep ==> c == sep
    ensures Split(Lower(s), sep) == LowerEach(Split(s, sep))
    decreases |s|
  {
    if s != [] {
      assert Lower(s)[1..] == Lower(s[1..]);
      SplitLower(s[1..], sep);
      var rest := Split(s[1..], sep);
      if s[0] != sep {
        assert Lower([s[0]] + rest[0]) == [FoldChar(s[0])] + Lower(rest[0]);
      }
    }
  }

  // ---------------------------------------------------------------------------
  // int.Parse / long.Parse with NumberStyles.Integer and the invariant culture

  datatype ParseError = Malformed | Overflow

  /** The white space `NumberStyles.AllowLeadingWhite` and `AllowTrailingWhite` skip. */
  predicate IsNumberWhite(c: char)
  {
    '\U{9}' <= c <= '\U{D}' || c == ' '
  }

  function TrimNumberWhite(s: string): (r: string)
    ensures |r| <= |s|
    decreases |s|
  {
    if s == [] then s
    else if IsNumberWhite(s[0]) then TrimNumberWhite(s[1..])
    else if IsNumberWhite(s[|s| - 1]) then TrimNumberWhite(s[..|s| - 1])
    else s
  }

  predicate IsDigit(c: char) { '0' <= c <= '9' }

  predicate AllDigits(s: string) { forall i :: 0 <= i < |s| ==> IsDigit(s[i]) }

  /** The value of a decimal numeral, most significant digit first. */
  function DigitsValue(ds: string): nat
    requires AllDigits(ds)
  {
    if ds == [] then 0 else DigitsValue(ds[..|ds| - 1]) * 10 + (ds[|ds| - 1] as int - '0' as int)
  }

  /** Parses an optionally signed decimal integer surrounded by optional white space;
      a well-formed numeral outside `[min, max]` is an overflow. */
  function ParseInteger(s: string, min: int, max: int): (r: Result<int, ParseError>)
    ensures r.Success? ==> min <= r.value <= max
  {
    var t := TrimNumberWhite(s);
    if t == [] then Failure(Malformed)
    else
      var digits := if t[0] == '-' || t[0] == '+' then t[1..] else t;
      if digits == [] || !AllDigits(digits) then Failure(Malformed)
      else
        var v: int := if t[0] == '-' then 0 - DigitsValue(digits) as int else DigitsValue(digits);
        if min <= v <= max then Success(v) else Failure(Overflow)
  }

  /** `int.Parse(s)`. */
  function ParseInt32(s: string): Result<int, ParseError>
  {
    ParseInteger(s, MinInt32, MaxInt32)
  }

  /** `long.Parse(s)`. */
  function ParseInt64(s: string): Result<int, ParseError>
  {
    ParseInteger(s, MinInt64, MaxInt64)
  }

  function DecimalDigits(n: nat): (r: string)
    ensures r != [] && AllDigits(r)
  {
    if n < 10 then [('0' as int + n) as char]
    else DecimalDigits(n / 10) + [('0' as int + n % 10) as char]
  }

  /** `n.ToString()` in the invariant culture. */
  function FormatInteger(n: int): (r: string)
  {
    if n < 0 then "-" + DecimalDigits(-n) else DecimalDigits(n)
  }

  lemma {:induction false} DigitsValueOfDecimalDigits(n: nat)
    ensures DigitsValue(DecimalDigits(n)) == n
  {
    if n >= 10 {
      var ds := DecimalDigits(n);
      assert ds[..|ds| - 1] == DecimalDigits(n / 10);
      DigitsValueOfDecimalDigits(n / 10);
    }
  }

  lemma TrimKeepsBoundedText(s: string)
    requires s != [] && !IsNumberWhite(s[0]) && !IsNumberWhite(s[|s| - 1])
    ensures TrimNumberWhite(s) == s
  {
  }

  /** Parsing gives back every integer of the range from its decimal rendering. */
  lemma ParseFormatRoundTrip(n: int, min: int, max: int)
    requires min <= n <= max
    ensures ParseInteger(FormatInteger(n), min, max) == Success(n)
  {
    var f := FormatInteger(n);
    var ds := DecimalDigits(if n < 0 then -n else n);
    assert IsDigit(ds[|ds| - 1]);
    TrimKeepsBoundedText(f);
    DigitsValueOfDecimalDigits(if n < 0 then -n else n);
    if n < 0 {
      assert f[1..] == ds;
    } else {
      assert IsDigit(ds[0]);
    }
  }
}
