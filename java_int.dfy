/** Java's 32-bit `int`, `Integer.toString` and `Integer.parseInt`, on unbounded integers. */
module JavaInt {
  import opened Wrappers

  const MIN32: int := -0x8000_0000
  const MAX32: int :=  0x7fff_ffff
  const MIN64: int := -0x8000_0000_0000_0000
  const MAX64: int :=  0x7fff_ffff_ffff_ffff

  predicate IsInt32(n: int) { MIN32 <= n <= MAX32 }

  /** Two's-complement wrap-around of Java `int` arithmetic: the value in the 32-bit range that
      differs from `n` by a multiple of 2^32. A sum or difference of two `int`s is at most one
      wrap away, which the first branches spell out. */
  function Wrap32(n: int): (r: int)
    ensures IsInt32(r)
    ensures IsInt32(n) ==> r == n
  {
    if IsInt32(n) then n
    else if MAX32 < n <= MAX32 + 0x1_0000_0000 then n - 0x1_0000_0000
    else if MIN32 - 0x1_0000_0000 <= n < MIN32 then n + 0x1_0000_0000
    else (n - MIN32) % 0x1_0000_0000 + MIN32
  }

  /** The wrapped value differs from the exact one by a multiple of 2^32. */
  lemma Wrap32Congruent(n: int)
    ensures (Wrap32(n) - n) % 0x1_0000_0000 == 0
  {
  }

  predicate IsDigit(c: char) { '0' <= c <= '9' }

  predicate AllDigits(s: string) { forall i :: 0 <= i < |s| ==> IsDigit(s[i]) }

  function DigitChar(d: nat): (c: char)
    requires d < 10
    ensures IsDigit(c) && c as int - '0' as int == d
  {
    (d + '0' as int) as char
  }

  /** Decimal digits of a natural number, without leading zeros. */
  function NatToString(n: nat): (s: string)
    ensures |s| >= 1 && AllDigits(s)
    ensures s[0] == '0' ==> n == 0
    decreases n
  {
    if n < 10 then [DigitChar(n)] else NatToString(n / 10) + [DigitChar(n % 10)]
  }

  /** `Integer.toString(n)` (also `String.valueOf(n)` and `n + ""`). */
  function IntToString(n: int): string
  {
    if n < 0 then "-" + NatToString(-n) else NatToString(n)
  }

  /** The number a string of decimal digits denotes. */
  function DigitsValue(s: string): nat
    requires AllDigits(s)
  {
    if |s| == 0 then 0 else DigitsValue(s[..|s| - 1]) * 10 + (s[|s| - 1] as int - '0' as int)
  }

  /** `Integer.parseInt(s)` and `Integer.valueOf(s)`: an optional sign, at least one digit,
      and a value inside the 32-bit range; `None` stands for the NumberFormatException. */
  function ParseInt(s: string): (r: Option<int>)
    ensures r.Some? ==> IsInt32(r.value)
  {
    if |s| == 0 then None
    else
      var body := if s[0] == '-' || s[0] == '+' then s[1..] else s;
      if |body| == 0 || !AllDigits(body) then None
      else
        var v: int := if s[0] == '-' then 0 - DigitsValue(body) as int else DigitsValue(body);
        if IsInt32(v) then Some(v) else None
  }

  /** The integer a Redis INCR accepts as the current value: the canonical decimal form of
      a signed 64-bit integer. */
  function RedisInt(s: string): (r: Option<int>)
    ensures r.Some? ==> IntToString(r.value) == s && MIN64 <= r.value <= MAX64
  {
    if |s| == 0 then None
    else
      var body := if s[0] == '-' then s[1..] else s;
      if |body| == 0 || !AllDigits(body) then None
      else
        var v: int := if s[0] == '-' then 0 - DigitsValue(body) as int else DigitsValue(body);
        if IntToString(v) == s && MIN64 <= v <= MAX64 then Some(v) else None
  }

  lemma {:induction false} NatToStringValue(n: nat)
    ensures DigitsValue(NatToString(n)) == n
    decreases n
  {
    if n >= 10 {
      var s := NatToString(n);
      NatToStringValue(n / 10);
      assert s[..|s| - 1] == NatToString(n / 10);
    }
  }

  /** `Integer.parseInt` reads back what `Integer.toString` wrote. */
  lemma ParseIntToString(n: int)
    requires IsInt32(n)
    ensures ParseInt(IntToString(n)) == Some(n)
  {
    var s := IntToString(n);
    NatToStringValue(if n < 0 then -n else n);
    if n < 0 {
      assert s[1..] == NatToString(-n);
    }
  }

  /** Redis INCR accepts every value `Integer.toString` produces. */
  lemma RedisIntToString(n: int)
    requires MIN64 <= n <= MAX64
    ensures RedisInt(IntToString(n)) == Some(n)
  {
    var s := IntToString(n);
    NatToStringValue(if n < 0 then -n else n);
    if n < 0 {
      assert s[1..] == NatToString(-n);
    }
  }

  /** Distinct numbers have distinct decimal forms (so distinct indices give distinct keys). */
  lemma IntToStringInjective(a: int, b: int)
    requires IntToString(a) == IntToString(b)
    ensures a == b
  {
    var s := IntToString(a);
    NatToStringValue(if a < 0 then -a else a);
    NatToStringValue(if b < 0 then -b else b);
    if a < 0 { assert s[1..] == NatToString(-a); }
    if b < 0 { assert s[1..] == NatToString(-b); }
  }

  /** A decimal form is never blank: its first character is a sign or a digit. */
  lemma IntToStringStart(n: int)
    ensures |IntToString(n)| >= 1
    ensures IntToString(n)[0] == '-' || IsDigit(IntToString(n)[0])
  {
  }

  /** A decimal form outside the 32-bit range is rejected by `Integer.parseInt`. */
  lemma ParseIntOutOfRange(n: int)
    requires !IsInt32(n)
    ensures ParseInt(IntToString(n)) == None
  {
    var s := IntToString(n);
    NatToStringValue(if n < 0 then -n else n);
    if n < 0 {
      assert s[1..] == NatToString(-n);
    }
  }
}
