/** UTF-8 encoding, as TextEncoder produces it for text without lone surrogates. */
module Utf8 {
  import opened Text

  function EncodeChar(c: char): (bytes: seq<Byte>)
    ensures 1 <= |bytes| <= 4
    ensures c as int < 0x80 ==> bytes == [c as int]
    ensures c as int >= 0x80 ==> forall b | b in bytes :: b >= 0x80
  {
    var x := c as int;
    if x < 0x80 then [x]
    else if x < 0x800 then [0xC0 + x / 64, 0x80 + x % 64]
    else if x < 0x1_0000 then [0xE0 + x / 4096, 0x80 + x / 64 % 64, 0x80 + x % 64]
    else [0xF0 + x / 262144, 0x80 + x / 4096 % 64, 0x80 + x / 64 % 64, 0x80 + x % 64]
  }

  function Encode(s: string): seq<Byte> {
    if s == "" then [] else EncodeChar(s[0]) + Encode(s[1..])
  }

  /** The code point the first bytes stand for; its length follows from the first byte. */
  function FirstCodePoint(b: seq<Byte>): int
    requires |b| >= 1
  {
    if b[0] < 0x80 || |b| < 2 then b[0]
    else if b[0] < 0xE0 || |b| < 3 then (b[0] as int - 0xC0) * 64 + (b[1] as int - 0x80)
    else if b[0] < 0xF0 || |b| < 4 then (b[0] as int - 0xE0) * 4096 + (b[1] as int - 0x80) * 64 + (b[2] as int - 0x80)
    else (b[0] as int - 0xF0) * 262144 + (b[1] as int - 0x80) * 4096 + (b[2] as int - 0x80) * 64 + (b[3] as int - 0x80)
  }

  lemma FirstCodePointReadsBack(c: char, rest: seq<Byte>)
    ensures FirstCodePoint(EncodeChar(c) + rest) == c as int
  {
    var x, b := c as int, EncodeChar(c) + rest;
    assert |EncodeChar(c)| >= 1 && b[0] == EncodeChar(c)[0];
    if x >= 0x80 { assert b[1] == EncodeChar(c)[1]; }
    if x >= 0x800 { assert b[2] == EncodeChar(c)[2]; }
    if x >= 0x1_0000 { assert b[3] == EncodeChar(c)[3]; }
    SixBitDigits(x);
  }

  lemma SixBitDigits(x: nat)
    ensures x == x / 64 * 64 + x % 64
    ensures x / 64 == x / 4096 * 64 + x / 64 % 64
    ensures x / 4096 == x / 262144 * 64 + x / 4096 % 64
  {}

  lemma {:induction false} EncodeInjective(s: string, t: string)
    ensures Encode(s) == Encode(t) ==> s == t
  {
    if s != "" && t != "" && Encode(s) == Encode(t) {
      FirstCodePointReadsBack(s[0], Encode(s[1..]));
      FirstCodePointReadsBack(t[0], Encode(t[1..]));
      assert Encode(s[1..]) == Encode(s)[|EncodeChar(s[0])|..] == Encode(t[1..]);
      EncodeInjective(s[1..], t[1..]);
      assert s == [s[0]] + s[1..] && t == [t[0]] + t[1..];
    }
  }

  lemma {:induction false} EncodeConcat(s: string, t: string)
    ensures Encode(s + t) == Encode(s) + Encode(t)
  {
    hide EncodeChar, Encode;
    if s == "" {
      assert s + t == t;
      EncodeEmpty();
      assert [] + Encode(t) == Encode(t);
    } else {
      EncodeConcat(s[1..], t);
      assert (s + t)[1..] == s[1..] + t && (s + t)[0] == s[0];
      EncodeHead(s);
      EncodeHead(s + t);
      Regroup(EncodeChar(s[0]), Encode(s[1..]), Encode(t));
    }
  }

  lemma EncodeEmpty()
    ensures Encode("") == []
  {}

  lemma EncodeHead(s: string)
    requires s != ""
    ensures Encode(s) == EncodeChar(s[0]) + Encode(s[1..])
  {
    hide EncodeChar;
  }

  lemma Regroup(a: seq<Byte>, b: seq<Byte>, c: seq<Byte>)
    ensures a + (b + c) == a + b + c
  {}

  /** An ASCII byte occurs in the encoding only where its character occurs in the text. */
  lemma {:induction false} AsciiByteOccurs(s: string, k: char)
    requires k as int < 0x80 && k !in s
    ensures k as int !in Encode(s)
  {
    if s != "" {
      AsciiByteOccurs(s[1..], k);
    }
  }

  /** A text whose encoding is a prefix of another's is a prefix of it. */
  lemma {:induction false} EncodePrefix(s: string, t: string)
    requires Encode(s) <= Encode(t)
    ensures s <= t
  {
    hide EncodeChar, Encode, FirstCodePoint;
    EncodeEmpty();
    if s != "" {
      EncodeHead(s);
      assert t != "" by { assert |Encode(s)| > 0; }
      EncodeHead(t);
      var tail := Encode(t)[|Encode(s)|..];
      assert Encode(t) == Encode(s) + tail;
      Regroup(EncodeChar(s[0]), Encode(s[1..]), tail);
      FirstCodePointReadsBack(s[0], Encode(s[1..]) + tail);
      FirstCodePointReadsBack(t[0], Encode(t[1..]));
      SameRest(EncodeChar(s[0]), Encode(t[1..]), Encode(s[1..]) + tail);
      EncodePrefix(s[1..], t[1..]);
      assert s == [s[0]] + s[1..] && t == [t[0]] + t[1..];
    }
  }

  lemma SameRest(head: seq<Byte>, a: seq<Byte>, b: seq<Byte>)
    requires head + a == head + b
    ensures a == b
  {
    assert a == (head + a)[|head|..] && b == (head + b)[|head|..];
  }
}
