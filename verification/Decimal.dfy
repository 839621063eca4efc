/** Decimal texts of 64-bit integers (util.c): ll2string and string2ll are inverse, and accept nothing else. */
module Decimal {
  import opened Bytes

  const LLONG_MIN: int := -0x8000_0000_0000_0000
  const LLONG_MAX: int := 0x7FFF_FFFF_FFFF_FFFF
  const ULLONG_MAX: int := 0xFFFF_FFFF_FFFF_FFFF

  predicate IsInt64(i: int) {
    LLONG_MIN <= i <= LLONG_MAX
  }

  predicate IsDigit(b: byte) {
    48 <= b <= 57
  }

  predicate AllDigits(s: seq<byte>) {
    forall i :: 0 <= i < |s| ==> IsDigit(s[i])
  }

  /** The decimal digits of a natural number, without leading zeros. */
  function Digits(n: nat): (s: seq<byte>)
    ensures |s| > 0 && AllDigits(s) && (s[0] == 48 ==> n == 0 && |s| == 1)
  {
    if n < 10 then [48 + n] else Digits(n / 10) + [48 + n % 10]
  }

  /** The text of an integer. */
  function Text(i: int): (s: seq<byte>)
    ensures |s| > 0
    ensures forall k :: 0 <= k < |s| ==> IsDigit(s[k]) || s[k] == 45
  {
    if i < 0 then [45] + Digits(-i) else Digits(i)
  }

  /** The number a string of digits stands for. */
  function Value(s: seq<byte>): nat
    requires AllDigits(s)
  {
    if s == [] then 0 else 10 * Value(s[..|s| - 1]) + (s[|s| - 1] as int - 48)
  }

  /** Digits without a leading zero, except the number zero itself. */
  predicate IsNumeral(s: seq<byte>) {
    |s| > 0 && AllDigits(s) && (s[0] == 48 ==> |s| == 1)
  }

  lemma {:induction false} ValueOfDigits(n: nat)
    ensures Value(Digits(n)) == n
  {
    if n >= 10 {
      ValueOfDigits(n / 10);
      var s := Digits(n);
      assert s[..|s| - 1] == Digits(n / 10);
    } else {
      assert Digits(n)[..0] == [];
    }
  }

  lemma {:induction false} DigitsOfValue(s: seq<byte>)
    requires IsNumeral(s)
    ensures Digits(Value(s)) == s
  {
    var p := s[..|s| - 1];
    if p == [] {
      assert Value(s) == s[0] as int - 48;
    } else {
      DigitsOfValue(p);
      assert p[0] != 48 && Value(p) > 0;
      assert s == p + [s[|s| - 1]];
    }
  }

  /** The integer whose text `s` is, if there is one of 64 bits. */
  function Parse(s: seq<byte>): Option<int> {
    if s != [] && s[0] == 45 then
      if IsNumeral(s[1..]) && 0 < Value(s[1..]) <= -LLONG_MIN then Some(0 - Value(s[1..])) else None
    else
      if IsNumeral(s) && Value(s) <= LLONG_MAX then Some(Value(s)) else None
  }

  /** A text is parsed to `i` exactly when it is the text of `i`: no second spelling of an integer is accepted. */
  lemma {:induction false} ParseExactlyTexts(s: seq<byte>, i: int)
    ensures Parse(s) == Some(i) <==> IsInt64(i) && s == Text(i)
  {
    if IsInt64(i) && s == Text(i) {
      ValueOfDigits(if i < 0 then -i else i);
      if i < 0 {
        assert s[1..] == Digits(-i);
      } else {
        assert IsDigit(s[0]);
      }
    }
    if Parse(s) == Some(i) {
      if s[0] == 45 {
        DigitsOfValue(s[1..]);
        assert s == [s[0]] + s[1..];
      } else {
        DigitsOfValue(s);
      }
    }
  }

  /** ll2string into a buffer of `len` bytes: the text, cut off when it does not fit with its terminator. */
  method Ll2string(len: nat, value: int) returns (s: seq<byte>)
    requires IsInt64(value)
    ensures s == if len == 0 then [] else if |Text(value)| + 1 > len then Text(value)[..len - 1] else Text(value)
  {
    if len == 0 {
      return [];
    }
    var v: nat := if value < 0 then -value else value;
    ghost var n := v;
    var p: seq<byte> := [48 + v % 10];
    v := v / 10;
    while v != 0
      invariant v > 0 ==> Digits(v) + p == Digits(n)
      invariant v == 0 ==> p == Digits(n)
    {
      p := [48 + v % 10] + p;
      v := v / 10;
    }
    if value < 0 {
      p := [45] + p;
    }
    return if |p| + 1 > len then p[..len - 1] else p;
  }

  lemma {:induction false} DigitsShort(n: nat, k: nat)
    requires 0 < k <= 20 && n < Power10(k)
    ensures |Digits(n)| <= k
  {
    if n >= 10 {
      DigitsShort(n / 10, k - 1);
    }
  }

  function Power10(k: nat): nat {
    if k == 0 then 1 else 10 * Power10(k - 1)
  }

  lemma TextShort(n: int)
    requires IsInt64(n)
    ensures |Text(n)| <= 21
  {
    assert Power10(4) == 10000;
    assert Power10(8) == 1_0000_0000;
    assert Power10(12) == 1_0000_0000_0000;
    assert Power10(16) == 1_0000_0000_0000_0000;
    assert Power10(20) == 1_0000_0000_0000_0000_0000;
    DigitsShort(if n < 0 then -n else n, 20);
  }

  lemma {:induction false} ValueGrows(s: seq<byte>, k: nat)
    requires AllDigits(s) && k < |s|
    ensures 10 * Value(s[..k]) <= Value(s)
    ensures Value(s[..k + 1]) == 10 * Value(s[..k]) + (s[k] as int - 48) <= Value(s)
  {
    assert s[..k + 1][..k] == s[..k];
    if k + 1 < |s| {
      ValueGrows(s[..|s| - 1], k);
      assert s[..|s| - 1][..k] == s[..k] && s[..|s| - 1][..k + 1] == s[..k + 1];
    } else {
      assert s[..k + 1] == s;
    }
  }

  /** string2ll: every overflow of the unsigned accumulator is noticed. */
  method String2ll(s: seq<byte>) returns (r: Option<int>)
    ensures r == Parse(s)
  {
    if s == [] {
      return None;
    }
    if |s| == 1 && s[0] == 48 {
      assert s == [48] && Value(s) == 0;
      return Some(0);
    }
    var negative := s[0] == 45;
    if negative && |s| == 1 {
      return None;
    }
    var t := if negative then s[1..] else s;
    if t[0] == 48 || !IsDigit(t[0]) {
      NotANumeral(s);
      return None;
    }
    var v: int := t[0] as int - 48;
    var plen := 1;
    assert t[..1][..0] == [] && t[..1][0] == t[0];
    while plen < |t| && IsDigit(t[plen])
      invariant 1 <= plen <= |t| && AllDigits(t[..plen]) && 0 < v == Value(t[..plen]) <= ULLONG_MAX
    {
      var d: int := t[plen] as int - 48;
      assert t[..plen + 1][..plen] == t[..plen];
      if v > ULLONG_MAX / 10 || v * 10 > ULLONG_MAX - d {
        TooLong(t, plen);
        return None;
      }
      v := v * 10 + d;
      plen := plen + 1;
    }
    if plen < |t| {
      return None;
    }
    assert t[..plen] == t;
    if negative {
      return if v > -(LLONG_MIN + 1) + 1 then None else Some(0 - v);
    }
    return if v > LLONG_MAX then None else Some(v);
  }

  lemma NotANumeral(s: seq<byte>)
    requires s != [] && s != [48] && s != [45]
    requires var t := if s[0] == 45 then s[1..] else s;
             t[0] == 48 || !IsDigit(t[0])
    ensures Parse(s) == None
  {
    if s[0] == 45 && s[1..] == [48] {
      assert Value(s[1..]) == 0;
    }
  }

  lemma TooLong(t: seq<byte>, plen: nat)
    requires 0 < plen < |t| && AllDigits(t[..plen + 1]) && AllDigits(t[..plen])
    requires 10 * Value(t[..plen]) + (t[plen] as int - 48) > ULLONG_MAX
    ensures AllDigits(t) ==> Value(t) > ULLONG_MAX
  {
    if AllDigits(t) {
      ValueGrows(t, plen);
    }
  }

  // ----- The library's conversion

  /** How many digits a string begins with. */
  function DigitRun(s: seq<byte>): (n: nat)
    ensures n <= |s| && AllDigits(s[..n]) && (n < |s| ==> !IsDigit(s[n]))
  {
    if s != [] && IsDigit(s[0]) then
      assert forall n :: 0 <= n < |s| ==> s[..n + 1] == [s[0]] + s[1..][..n];
      1 + DigitRun(s[1..])
    else 0
  }

  function SkipSpaces(s: seq<byte>): seq<byte> {
    if s != [] && (s[0] == 32 || 9 <= s[0] <= 13) then SkipSpaces(s[1..]) else s
  }

  /** strtol with base 10. */
  function Strtol(s: seq<byte>): int {
    var t := SkipSpaces(s);
    var negative := t != [] && t[0] == 45;
    var u := if negative || (t != [] && t[0] == 43) then t[1..] else t;
    var v := Value(u[..DigitRun(u)]);
    if negative then (if v > -LLONG_MIN then LLONG_MIN else 0 - v) else if v > LLONG_MAX then LLONG_MAX else v
  }

  /** atoi: the low 32 bits of strtol's result. */
  function Atoi(s: seq<byte>): int {
    var v := Strtol(s) % 0x1_0000_0000;
    if v >= 0x8000_0000 then v - 0x1_0000_0000 else v
  }

  lemma {:induction false} DigitRunIs(a: seq<byte>, rest: seq<byte>)
    requires AllDigits(a) && (rest != [] ==> !IsDigit(rest[0]))
    ensures DigitRun(a + rest) == |a|
  {
    if a != [] {
      assert (a + rest)[1..] == a[1..] + rest;
      DigitRunIs(a[1..], rest);
    }
  }

  lemma StrtolDigits(n: nat, rest: seq<byte>)
    requires n <= LLONG_MAX && (rest != [] ==> !IsDigit(rest[0]))
    ensures Strtol(Digits(n) + rest) == n
  {
    var s := Digits(n) + rest;
    assert IsDigit(s[0]);
    assert SkipSpaces(s) == s;
    DigitRunIs(Digits(n), rest);
    assert s[..|Digits(n)|] == Digits(n);
    ValueOfDigits(n);
  }

  lemma AtoiIs(s: seq<byte>)
    requires 0 <= Strtol(s) < 0x8000_0000
    ensures Atoi(s) == Strtol(s)
  {}

  lemma StrtolReads(n: nat, rest: seq<byte>)
    requires n <= LLONG_MAX && rest != [] && rest[0] == 13
    ensures Strtol(Digits(n) + rest) == n
    ensures n < 0x8000_0000 ==> Atoi(Digits(n) + rest) == n
  {
    hide Digits, Strtol, Atoi;
    StrtolDigits(n, rest);
    if n < 0x8000_0000 {
      AtoiIs(Digits(n) + rest);
    }
  }

  /** The text of an integer is read as that integer. */
  lemma StrtolText(v: int)
    requires IsInt64(v)
    ensures Strtol(Text(v)) == v
  {
    var none: seq<byte> := [];
    if v < 0 {
      StrtolMinus(-v);
    } else {
      StrtolDigits(v, none);
      assert Digits(v) + none == Digits(v);
    }
  }

  lemma StrtolMinus(n: nat)
    requires n <= -LLONG_MIN
    ensures Strtol([45] + Digits(n)) == 0 - n
  {
    var none: seq<byte> := [];
    var s := [45] + Digits(n);
    assert SkipSpaces(s) == s && s[1..] == Digits(n);
    DigitRunIs(Digits(n), none);
    assert Digits(n) + none == Digits(n) && Digits(n)[..|Digits(n)|] == Digits(n);
    ValueOfDigits(n);
  }

  lemma StrtolRange(s: seq<byte>)
    ensures IsInt64(Strtol(s))
  {}
}
