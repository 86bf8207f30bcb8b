/** Byte strings, decimal and hexadecimal numbers, and small sequence helpers shared by the model.
    A byte string is a `string` whose characters stand for bytes; no result below depends on
    characters being smaller than 256, so every byte string is covered. */
module Text {

  datatype Option<+T> = None | Some(value: T)
  {
    function GetOr(default: T): T {
      if Some? then value else default
    }
  }

  predicate IsDigit(c: char) { '0' <= c <= '9' }

  predicate AllDigits(s: string) { forall i | 0 <= i < |s| :: IsDigit(s[i]) }

  function Digit(n: nat): (c: char)
    requires n < 10
    ensures IsDigit(c)
  {
    '0' + n as char
  }

  /** Decimal text of a number, as a stream writes it. */
  function Decimal(n: nat): (s: string)
    ensures |s| > 0 && AllDigits(s)
  {
    if n < 10 then [Digit(n)] else Decimal(n / 10) + [Digit(n % 10)]
  }

  function DecimalValue(s: string): nat
    requires AllDigits(s)
  {
    if s == "" then 0 else 10 * DecimalValue(s[..|s| - 1]) + (s[|s| - 1] as int - '0' as int)
  }

  lemma {:induction false} DecimalRoundTrip(n: nat)
    ensures DecimalValue(Decimal(n)) == n
  {
    if n < 10 {
      assert Decimal(n)[..0] == "";
    } else {
      DecimalRoundTrip(n / 10);
      assert Decimal(n)[..|Decimal(n)| - 1] == Decimal(n / 10);
    }
  }

  function HexDigit(n: nat): char
    requires n < 16
  {
    if n < 10 then '0' + n as char else 'a' + (n - 10) as char
  }

  predicate IsHexDigit(c: char) { IsDigit(c) || 'a' <= c <= 'f' }

  predicate AllHex(s: string) { forall i | 0 <= i < |s| :: IsHexDigit(s[i]) }

  function HexDigits(n: nat): (s: string)
    ensures |s| > 0 && AllHex(s)
  {
    if n < 16 then [HexDigit(n)] else HexDigits(n / 16) + [HexDigit(n % 16)]
  }

  function HexDigitValue(c: char): nat
    requires IsHexDigit(c)
  {
    if IsDigit(c) then c as int - '0' as int else c as int - 'a' as int + 10
  }

  function HexValueOf(s: string): nat
    requires AllHex(s)
  {
    if s == "" then 0 else 16 * HexValueOf(s[..|s| - 1]) + HexDigitValue(s[|s| - 1])
  }

  lemma {:induction false} HexRoundTrip(n: nat)
    ensures HexValueOf(HexDigits(n)) == n
  {
    if n < 16 {
      assert HexDigits(n)[..0] == "";
    } else {
      HexRoundTrip(n / 16);
      assert HexDigits(n)[..|HexDigits(n)| - 1] == HexDigits(n / 16);
    }
  }

  /** `ToHex64` of util.cpp. */
  function ToHex64(n: nat): string { "0x" + HexDigits(n) }

  /** The prefix, then digits that give back the number. */
  lemma ToHex64Exact(n: nat)
    ensures |ToHex64(n)| > 2 && ToHex64(n)[..2] == "0x"
    ensures AllHex(ToHex64(n)[2..]) && HexValueOf(ToHex64(n)[2..]) == n
  {
    HexRoundTrip(n);
    assert ToHex64(n)[2..] == HexDigits(n);
  }

  /** Numbers are written without leading zeros. */
  lemma {:induction false} NoLeadingZero(n: nat)
    ensures n > 0 ==> Decimal(n)[0] != '0' && HexDigits(n)[0] != '0'
    decreases n
  {
    if n >= 10 {
      NoLeadingZero(n / 10);
    }
    if n >= 16 {
      NoLeadingZero(n / 16);
    }
  }
}
