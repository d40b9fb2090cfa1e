/** UTF-8, the encoding in which canonical text is hashed. */
module Utf8 {

  type Byte = b: nat | b < 256

  function EncodeChar(c: char): (bytes: seq<Byte>)
    ensures bytes != []
  {
    var n := c as int;
    if n < 0x80 then [n]
    else if n < 0x800 then [0xC0 + n / 64, 0x80 + n % 64]
    else
      var high := n / 64;
      if n < 0x1_0000 then [0xE0 + high / 64, 0x80 + high % 64, 0x80 + n % 64]
      else
        var higher := high / 64;
        [0xF0 + higher / 64, 0x80 + higher % 64, 0x80 + high % 64, 0x80 + n % 64]
  }

  function Encode(s: string): seq<Byte> {
    if s == [] then [] else EncodeChar(s[0]) + Encode(s[1..])
  }

  function CodePoints(s: string): (codes: seq<int>)
    ensures |codes| == |s|
  {
    seq(|s|, i requires 0 <= i < |s| => s[i] as int)
  }

  /** Six more bits, from a continuation byte. */
  function Continued(bits: int, b: Byte): int {
    bits * 64 + b as int - 0x80
  }

  /** The code point at the head of a byte string and the number of its bytes, as section 3 of RFC 3629 lays them out. */
  function DecodeFirst(b: seq<Byte>): (r: (int, nat))
    requires b != []
    ensures r.1 >= 1
  {
    if b[0] >= 0xF0 && |b| >= 4 then
      (Continued(Continued(Continued(b[0] as int - 0xF0, b[1]), b[2]), b[3]), 4)
    else if 0xE0 <= b[0] < 0xF0 && |b| >= 3 then (Continued(Continued(b[0] as int - 0xE0, b[1]), b[2]), 3)
    else if 0xC0 <= b[0] < 0xE0 && |b| >= 2 then (Continued(b[0] as int - 0xC0, b[1]), 2)
    else (b[0], 1)
  }

  function Decode(b: seq<Byte>): seq<int>
    decreases |b|
  {
    if b == [] then []
    else if DecodeFirst(b).1 > |b| then []
    else [DecodeFirst(b).0] + Decode(b[DecodeFirst(b).1..])
  }

  lemma FirstDecodes(c: char, rest: seq<Byte>)
    ensures DecodeFirst(EncodeChar(c) + rest) == (c as int, |EncodeChar(c)|)
  {
    var b := EncodeChar(c) + rest;
    assert forall i :: 0 <= i < |EncodeChar(c)| ==> b[i] == EncodeChar(c)[i];
  }

  /** The bytes of a text decode to its code points. */
  lemma {:induction false} EncodeDecodes(s: string)
    ensures Decode(Encode(s)) == CodePoints(s)
  {
    if s != [] {
      FirstDecodes(s[0], Encode(s[1..]));
      EncodeDecodes(s[1..]);
      assert (EncodeChar(s[0]) + Encode(s[1..]))[|EncodeChar(s[0])|..] == Encode(s[1..]);
      assert CodePoints(s) == [s[0] as int] + CodePoints(s[1..]);
    } else {
      assert CodePoints(s) == [];
    }
  }

  lemma EncodeInjective(s: string, t: string)
    requires Encode(s) == Encode(t)
    ensures s == t
  {
    EncodeDecodes(s);
    EncodeDecodes(t);
    assert |s| == |CodePoints(s)| == |t|;
    forall i | 0 <= i < |s|
      ensures s[i] == t[i]
    {
      assert CodePoints(s)[i] == CodePoints(t)[i];
    }
  }
}
