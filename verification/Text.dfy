/** Characters, decimal numerals and lowercase hex, as the encoders print them. */
module Text {
  type Byte = b: int | 0 <= b < 256

  predicate IsDigit(c: char) { '0' <= c <= '9' }

  function DigitValue(c: char): nat
    requires IsDigit(c)
  {
    c as int - '0' as int
  }

  predicate AllDigits(s: string) { forall c | c in s :: IsDigit(c) }

  /** The numeral ECMAScript's String() and Go's %d print for a natural number. */
  function Decimal(n: nat): (s: string)
    ensures |s| > 0 && AllDigits(s)
    ensures s[0] == '0' ==> n == 0 && |s| == 1
  {
    if n < 10 then [('0' as int + n) as char]
    else Decimal(n / 10) + [('0' as int + n % 10) as char]
  }

  function NumeralValue(s: string): nat
    requires AllDigits(s)
  {
    if s == "" then 0
    else 10 * NumeralValue(s[..|s| - 1]) + DigitValue(s[|s| - 1])
  }

  /** A numeral without a leading zero: "0", or one that starts with 1..9. */
  predicate IsCanonicalNumeral(s: string) {
    |s| > 0 && AllDigits(s) && (s[0] == '0' ==> |s| == 1)
  }

  lemma {:induction false} DecimalValue(n: nat)
    ensures NumeralValue(Decimal(n)) == n
  {
    if n >= 10 {
      DecimalValue(n / 10);
      assert Decimal(n)[..|Decimal(n)| - 1] == Decimal(n / 10);
    }
  }

  lemma {:induction false} NumeralIsDecimal(s: string)
    requires IsCanonicalNumeral(s)
    ensures Decimal(NumeralValue(s)) == s
    ensures s[0] != '0' ==> NumeralValue(s) > 0
  {
    var init, last := s[..|s| - 1], s[|s| - 1];
    assert s == init + [last];
    assert NumeralValue(s) == 10 * NumeralValue(init) + DigitValue(last);
    assert ('0' as int + DigitValue(last)) as char == last;
    if |s| == 1 {
      assert init == "";
    } else {
      assert init[0] == s[0];
      NumeralIsDecimal(init);
      var n := NumeralValue(init);
      assert n > 0;
      var v := 10 * n + DigitValue(last);
      assert v / 10 == n && v % 10 == DigitValue(last);
    }
  }

  // ---- Hex -------------------------------------------------------------------

  predicate IsHexDigit(c: char) { '0' <= c <= '9' || 'a' <= c <= 'f' }

  /** Lowercase hex of even length: what bytesToHex prints and hexToBytes reads. */
  predicate IsHex(s: string) {
    |s| % 2 == 0 && forall c | c in s :: IsHexDigit(c)
  }

  function HexDigit(n: int): (c: char)
    requires 0 <= n < 16
    ensures IsHexDigit(c) && HexValue(c) == n
  {
    if n < 10 then ('0' as int + n) as char else ('a' as int + (n - 10)) as char
  }

  function HexValue(c: char): (n: int)
    requires IsHexDigit(c)
    ensures 0 <= n < 16
  {
    if c <= '9' then c as int - '0' as int else c as int - 'a' as int + 10
  }

  function BytesToHex(bytes: seq<Byte>): (s: string)
    ensures |s| == 2 * |bytes| && IsHex(s)
  {
    if bytes == [] then ""
    else [HexDigit(bytes[0] / 16), HexDigit(bytes[0] % 16)] + BytesToHex(bytes[1..])
  }

  function HexToBytes(s: string): (bytes: seq<Byte>)
    requires IsHex(s)
    ensures |bytes| * 2 == |s|
  {
    if s == "" then []
    else [HexValue(s[0]) * 16 + HexValue(s[1])] + HexToBytes(s[2..])
  }

  lemma HexDigitsInOrder(n: nat)
    requires n < 16
    ensures HexDigit(n) == "0123456789abcdef"[n]
  {}

  lemma HexPair(high: char, low: char)
    requires IsHexDigit(high) && IsHexDigit(low)
    ensures var b := HexValue(high) * 16 + HexValue(low);
      HexDigit(b / 16) == high && HexDigit(b % 16) == low
  {}

  lemma {:induction false} HexOfBytesOfHex(s: string)
    requires IsHex(s)
    ensures BytesToHex(HexToBytes(s)) == s
  {
    if s != "" {
      var tail := s[2..];
      HexOfBytesOfHex(tail);
      HexPair(s[0], s[1]);
      var bytes := HexToBytes(s);
      assert bytes[1..] == HexToBytes(tail);
      assert BytesToHex(bytes) == [s[0], s[1]] + BytesToHex(bytes[1..]);
    }
  }

  lemma {:induction false} BytesOfHexOfBytes(bytes: seq<Byte>)
    ensures HexToBytes(BytesToHex(bytes)) == bytes
  {
    if bytes != [] {
      BytesOfHexOfBytes(bytes[1..]);
      assert BytesToHex(bytes)[2..] == BytesToHex(bytes[1..]);
    }
  }

  /** toLowerCase, as far as hex digits go. */
  function Lower(s: string): (r: string)
    ensures |r| == |s|
  {
    seq(|s|, i requires 0 <= i < |s| => if 'A' <= s[i] <= 'Z' then (s[i] as int + 32) as char else s[i])
  }

  /** replace(/^0x/, ""). */
  function Strip(s: string): string { if "0x" <= s then s[2..] else s }

  // ---- Joining -----------------------------------------------------------------

  /** Array.prototype.join. */
  function Join(parts: seq<string>, sep: string): string {
    if parts == [] then ""
    else if |parts| == 1 then parts[0]
    else parts[0] + sep + Join(parts[1..], sep)
  }
}
