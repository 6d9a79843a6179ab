/** UTF-16, the unit speech is priced in, and the two ways the clients count it. */
module Utf16 {
  import opened Text

  /** The code units of one character (RFC 2781, section 2.1). */
  function Units(c: char): (u: seq<int>)
    ensures 1 <= |u| <= 2 && forall x | x in u :: 0 <= x < 0x1_0000
  {
    var x := c as int;
    if x < 0x1_0000 then [x] else [0xD800 + (x - 0x1_0000) / 0x400, 0xDC00 + (x - 0x1_0000) % 0x400]
  }

  /** A JavaScript string holds these; its length is their number. */
  function Encode(s: string): seq<int> { if s == "" then [] else Units(s[0]) + Encode(s[1..]) }

  /** utf16Length in JavaScript. */
  function Length(s: string): nat { |Encode(s)| }

  function UnitBytes(units: seq<int>): (b: seq<int>)
    ensures |b| == 2 * |units|
  {
    if units == [] then [] else [units[0] % 256, units[0] / 256] + UnitBytes(units[1..])
  }

  /** utf16_length in Python: half the number of utf-16-le bytes. */
  function PythonLength(s: string): nat { |UnitBytes(Encode(s))| / 2 }

  predicate Astral(c: char) { c as int >= 0x1_0000 }

  function AstralCount(s: string): nat {
    if s == "" then 0 else (if Astral(s[0]) then 1 else 0) + AstralCount(s[1..])
  }

  lemma {:induction false} EncodeConcat(s: string, t: string)
    ensures Encode(s + t) == Encode(s) + Encode(t)
  {
    hide Units, Encode;
    EncodeEmpty();
    if s == "" {
      assert s + t == t && [] + Encode(t) == Encode(t);
    } else {
      EncodeConcat(s[1..], t);
      assert (s + t)[1..] == s[1..] + t && (s + t)[0] == s[0];
      EncodeHead(s);
      EncodeHead(s + t);
      Regroup(Units(s[0]), Encode(s[1..]), Encode(t));
    }
  }

  lemma EncodeEmpty()
    ensures Encode("") == []
  {}

  lemma EncodeHead(s: string)
    requires s != ""
    ensures Encode(s) == Units(s[0]) + Encode(s[1..])
  {
    hide Units;
  }

  lemma Regroup(a: seq<int>, b: seq<int>, c: seq<int>)
    ensures a + (b + c) == a + b + c
  {}

  /** The priced count is additive. */
  lemma LengthIsAdditive(s: string, t: string)
    ensures Length(s + t) == Length(s) + Length(t)
  {
    EncodeConcat(s, t);
  }

  /** It is the number of code points plus the number of astral characters, and both clients compute it. */
  lemma {:induction false} LengthCountsAstralTwice(s: string)
    ensures Length(s) == |s| + AstralCount(s)
    ensures PythonLength(s) == Length(s)
  {
    if s != "" { LengthCountsAstralTwice(s[1..]); }
  }

  /** Counting code points instead is right exactly when no character is astral. */
  lemma {:induction false} CodePointsSufficeExactly(s: string)
    ensures |s| == Length(s) <==> forall c | c in s :: !Astral(c)
  {
    LengthCountsAstralTwice(s);
    AstralCountZero(s);
  }

  lemma {:induction false} AstralCountZero(s: string)
    ensures AstralCount(s) == 0 <==> forall c | c in s :: !Astral(c)
  {
    if s != "" {
      AstralCountZero(s[1..]);
      assert forall c :: c in s <==> c == s[0] || c in s[1..];
    }
  }
}
