/** The small part of the Java platform that the customer code relies on:
    nullable values, String.trim/isEmpty, indexOf/lastIndexOf, the "\\d+" regular
    expression, Integer.toString/parseInt and 32-bit int arithmetic for hash codes. */
module JavaLang {

  /** A Java reference that may be null: None stands for null. */
  datatype Option<+T> = None | Some(value: T)

  /** Java's int: every int-typed value of the source (ids, limits, offsets, hashes). */
  type Int32 = x: int | -0x8000_0000 <= x < 0x8000_0000

  const MaxInt32: int := 0x7FFF_FFFF

  /** Java's long, for the pool timeouts. */
  type Int64 = x: int | -0x8000_0000_0000_0000 <= x < 0x8000_0000_0000_0000

  // ---------------------------------------------------------------------------
  // String.trim() and "blank"

  /** String.trim() removes every leading and trailing character whose code is at
      most U+0020 (space, tab, newline and the other control characters). */
  predicate IsTrimmable(c: char) {
    c <= ' '
  }

  /** The string without its leading trimmable characters. */
  function TrimStart(s: string): (r: string)
    ensures |r| <= |s| && r == s[|s| - |r|..]
    ensures r == [] || !IsTrimmable(r[0])
    ensures forall i :: 0 <= i < |s| - |r| ==> IsTrimmable(s[i])
  {
    if s != [] && IsTrimmable(s[0]) then TrimStart(s[1..]) else s
  }

  /** The string without its trailing trimmable characters. */
  function TrimEnd(s: string): (r: string)
    ensures |r| <= |s| && r == s[..|r|]
    ensures r == [] || !IsTrimmable(r[|r| - 1])
    ensures forall i :: |r| <= i < |s| ==> IsTrimmable(s[i])
  {
    if s != [] && IsTrimmable(s[|s| - 1]) then TrimEnd(s[..|s| - 1]) else s
  }

  /** String.trim(). */
  function Trim(s: string): string {
    TrimEnd(TrimStart(s))
  }

  /** `s.trim().isEmpty()`: what the source calls a blank string. */
  predicate IsBlank(s: string) {
    Trim(s) == []
  }

  /** Trimming leaves exactly the middle part of the string between two runs of
      trimmable characters: the leading run TrimStart drops, and a trailing one. */
  lemma {:induction false} TrimIsInfix(s: string)
    ensures var i, j := |s| - |TrimStart(s)|, |s| - |TrimStart(s)| + |Trim(s)|;
            && j <= |s| && Trim(s) == s[i..j]
            && (forall k :: 0 <= k < i ==> IsTrimmable(s[k]))
            && (forall k :: j <= k < |s| ==> IsTrimmable(s[k]))
  {
    var t := TrimStart(s);
    var e := TrimEnd(t);
    assert Trim(s) == e;
    PrefixOfSuffix(s, |s| - |t|, e);
  }

  /** A prefix `e` of the suffix of `s` from `i`, followed there by trimmable
      characters only, is the infix s[i..i + |e|] followed by trimmable characters. */
  lemma PrefixOfSuffix(s: string, i: int, e: string)
    requires 0 <= i <= |s| && |e| <= |s| - i && e == s[i..][..|e|]
    requires forall m :: |e| <= m < |s| - i ==> IsTrimmable(s[i..][m])
    ensures e == s[i..i + |e|]
    ensures forall k :: i + |e| <= k < |s| ==> IsTrimmable(s[k])
  {
    assert forall k :: i + |e| <= k < |s| ==> s[k] == s[i..][k - i];
  }

  /** The trimmed string neither starts nor ends with a trimmable character. */
  lemma {:induction false} TrimmedEndsAreVisible(s: string)
    ensures Trim(s) == [] || (!IsTrimmable(Trim(s)[0]) && !IsTrimmable(Trim(s)[|Trim(s)| - 1]))
  {
    var t := TrimStart(s);
    var e := TrimEnd(t);
    assert e == [] || e[0] == t[0];
  }

  /** A string is blank exactly when every one of its characters is trimmable;
      in particular "", "   ", "\t" and "\n" are blank. */
  lemma {:induction false} BlankIffAllTrimmable(s: string)
    ensures IsBlank(s) <==> forall i :: 0 <= i < |s| ==> IsTrimmable(s[i])
  {
    var t := TrimStart(s);
    if t != [] {
      assert !IsTrimmable(t[0]);
      assert !IsTrimmable(s[|s| - |t|]);
    }
  }

  /** A string holding a character above U+0020 is not blank. */
  lemma NotBlankWhenVisible(s: string, k: int)
    requires 0 <= k < |s| && !IsTrimmable(s[k])
    ensures !IsBlank(s)
  {
    BlankIffAllTrimmable(s);
  }

  // ---------------------------------------------------------------------------
  // indexOf / lastIndexOf

  /** String.indexOf(c): the first position of c, or -1 when c does not occur. */
  function IndexOf(s: string, c: char): (r: int)
    ensures -1 <= r < |s|
    ensures r == -1 <==> c !in s
    ensures 0 <= r ==> s[r] == c && c !in s[..r]
  {
    if s == [] then -1
    else if s[0] == c then 0
    else
      var k := IndexOf(s[1..], c);
      if k == -1 then -1
      else
        assert s[..k + 1] == [s[0]] + s[1..][..k];
        k + 1
  }

  /** String.lastIndexOf(c): the last position of c, or -1 when c does not occur. */
  function LastIndexOf(s: string, c: char): (r: int)
    ensures -1 <= r < |s|
    ensures r == -1 <==> c !in s
    ensures 0 <= r ==> s[r] == c && c !in s[r + 1..]
  {
    if s == [] then -1
    else if s[|s| - 1] == c then |s| - 1
    else
      var k := LastIndexOf(s[..|s| - 1], c);
      assert k >= 0 ==> s[k + 1..] == s[..|s| - 1][k + 1..] + [s[|s| - 1]];
      assert s == s[..|s| - 1] + [s[|s| - 1]];
      k
  }

  /** indexOf and lastIndexOf agree exactly when the character occurs at most once. */
  lemma {:induction false} IndexOfEqualsLastIndexOf(s: string, c: char)
    requires c in s
    ensures IndexOf(s, c) == LastIndexOf(s, c)
            <==> forall i :: 0 <= i < |s| && s[i] == c ==> i == IndexOf(s, c)
  {
    var a, b := IndexOf(s, c), LastIndexOf(s, c);
    if a != b {
      assert s[b] == c;
    } else {
      assert forall j :: 0 <= j < a ==> s[..a][j] == s[j];
      assert forall j :: b < j < |s| ==> s[b + 1..][j - b - 1] == s[j];
    }
  }

  // ---------------------------------------------------------------------------
  // Decimal digits, Integer.toString and Integer.parseInt

  predicate IsDigit(c: char) {
    '0' <= c <= '9'
  }

  /** `s.matches("\\d+")`: one or more ASCII decimal digits and nothing else. */
  predicate MatchesDigits(s: string) {
    |s| >= 1 && forall i :: 0 <= i < |s| ==> IsDigit(s[i])
  }

  function DigitValue(c: char): nat
    requires IsDigit(c)
  {
    c as int - '0' as int
  }

  function DigitChar(d: nat): (c: char)
    requires d < 10
    ensures IsDigit(c) && DigitValue(c) == d
  {
    (d + '0' as int) as char
  }

  /** The number a string of decimal digits denotes, most significant digit first. */
  function DigitsValue(s: string): nat
    requires forall i :: 0 <= i < |s| ==> IsDigit(s[i])
  {
    if s == [] then 0 else DigitsValue(s[..|s| - 1]) * 10 + DigitValue(s[|s| - 1])
  }

  /** The decimal digits of a natural number, without leading zeros. */
  function NatToDigits(n: nat): (s: string)
    ensures MatchesDigits(s)
  {
    if n < 10 then [DigitChar(n)] else NatToDigits(n / 10) + [DigitChar(n % 10)]
  }

  lemma {:induction false} NatToDigitsRoundTrip(n: nat)
    ensures DigitsValue(NatToDigits(n)) == n
  {
    if n >= 10 {
      NatToDigitsRoundTrip(n / 10);
      var s := NatToDigits(n);
      assert s[..|s| - 1] == NatToDigits(n / 10);
    }
  }

  /** Integer.toString(n) (and String.valueOf(n)): a minus sign for negative values,
      then the decimal digits of the magnitude. */
  function IntToString(n: int): string {
    if n < 0 then "-" + NatToDigits(-n) else NatToDigits(n)
  }

  /** Integer.parseInt / Long.parseLong with the range [lo, hi] of the target type:
      an optional '+' or '-', then at least one decimal digit; None stands for the
      NumberFormatException thrown otherwise or when the value is out of range. */
  function ParseDecimal(s: string, lo: int, hi: int): (r: Option<int>)
    ensures r.Some? ==> lo <= r.value <= hi
    ensures r.Some? ==> s != [] && (IsDigit(s[0]) || s[0] == '-' || s[0] == '+')
  {
    var negative := s != [] && s[0] == '-';
    var digits := if s != [] && (s[0] == '-' || s[0] == '+') then s[1..] else s;
    if !MatchesDigits(digits) then None
    else
      var v: int := if negative then -(DigitsValue(digits) as int) else DigitsValue(digits);
      if lo <= v <= hi then Some(v) else None
  }

  /** Integer.parseInt. */
  function ParseInt(s: string): (r: Option<Int32>) {
    match ParseDecimal(s, -0x8000_0000, MaxInt32)
    case None => None
    case Some(v) => Some(v)
  }

  /** Long.parseLong. */
  function ParseLong(s: string): (r: Option<Int64>) {
    match ParseDecimal(s, -0x8000_0000_0000_0000, 0x7FFF_FFFF_FFFF_FFFF)
    case None => None
    case Some(v) => Some(v)
  }

  /** Parsing what Integer.toString printed gives the number back, for every value
      in range: Integer.parseInt(String.valueOf(n)) == n. */
  lemma IntToStringRoundTrip(n: int, lo: int, hi: int)
    requires lo <= n <= hi
    ensures ParseDecimal(IntToString(n), lo, hi) == Some(n)
  {
    var s := IntToString(n);
    if n < 0 {
      var d := NatToDigits(-n);
      NatToDigitsRoundTrip(-n);
      assert s[0] == '-' && s[1..] == d;
      assert MatchesDigits(d) && DigitsValue(d) == -n;
    } else {
      NatToDigitsRoundTrip(n);
      assert IsDigit(s[0]);
    }
  }

  lemma ParseIntRoundTrip(n: Int32)
    ensures ParseInt(IntToString(n)) == Some(n)
  {
    IntToStringRoundTrip(n, -0x8000_0000, MaxInt32);
  }

  // ---------------------------------------------------------------------------
  // 32-bit arithmetic and String.hashCode()

  /** The int a Java int expression yields for the mathematical value x
      (two's-complement wrap-around). */
  function Wrap32(x: int): (r: Int32)
    ensures (x - r) % 0x1_0000_0000 == 0
    ensures -0x8000_0000 <= x <= MaxInt32 ==> r == x
  {
    var m := x % 0x1_0000_0000;
    if m <= MaxInt32 then m else m - 0x1_0000_0000
  }

  /** String.hashCode(): s[0]*31^(n-1) + ... + s[n-1], in int arithmetic. */
  function StringHash(s: string): Int32 {
    if s == [] then 0 else Wrap32(31 * StringHash(s[..|s| - 1]) + s[|s| - 1] as int)
  }
}
