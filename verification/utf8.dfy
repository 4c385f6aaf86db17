/**
 * UTF-8 as the WHATWG Encoding Standard defines it: the encoder used by
 * `encodeURIComponent` and by the application/x-www-form-urlencoded serializer,
 * and the "UTF-8 decode without BOM" used by the form-urlencoded parser, in which
 * every malformed sequence (a maximal invalid subpart) becomes U+FFFD.
 */
module Utf8 {

  type Byte = b: int | 0 <= b < 256

  const Replacement: char := 0xFFFD as char

  /** The UTF-8 bytes of one Unicode scalar value. */
  function EncodeChar(c: char): (bs: seq<Byte>)
    ensures 1 <= |bs| <= 4
    ensures (c as int < 0x80) <==> |bs| == 1
    ensures |bs| == 1 ==> bs[0] == c as int
    ensures forall i :: 0 <= i < |bs| ==> (bs[i] < 0x80 <==> |bs| == 1)
  {
    var n := c as int;
    if n < 0x80 then [n]
    else if n < 0x800 then [0xC0 + n / 64, 0x80 + n % 64]
    else if n < 0x10000 then [0xE0 + n / 4096, 0x80 + (n / 64) % 64, 0x80 + n % 64]
    else [0xF0 + n / 262144, 0x80 + (n / 4096) % 64, 0x80 + (n / 64) % 64, 0x80 + n % 64]
  }

  function Encode(s: string): (bs: seq<Byte>)
    ensures |s| <= |bs|
  {
    if s == [] then [] else EncodeChar(s[0]) + Encode(s[1..])
  }

  /** Number of continuation bytes a lead byte announces; 0 for ASCII and for bytes no sequence starts with. */
  function Needed(b: Byte): nat {
    if 0xC2 <= b <= 0xDF then 1
    else if 0xE0 <= b <= 0xEF then 2
    else if 0xF0 <= b <= 0xF4 then 3
    else 0
  }

  /** Whether `b` may be continuation byte number `i` (from 0) after `lead`; the first one has narrowed bounds. */
  predicate Accepts(lead: Byte, i: nat, b: Byte) {
    if i == 0 then
      && (if lead == 0xE0 then 0xA0 else if lead == 0xF0 then 0x90 else 0x80) <= b
      && b <= (if lead == 0xED then 0x9F else if lead == 0xF4 then 0x8F else 0xBF)
    else 0x80 <= b <= 0xBF
  }

  /** Byte `1 + i` of `bs` exists and is an acceptable continuation byte number `i` after `bs[0]`. */
  predicate AcceptedAt(bs: seq<Byte>, i: nat) {
    1 + i < |bs| && Accepts(bs[0], i, bs[1 + i])
  }

  /** How many continuation bytes, from number `k` on and at most `need`, follow the lead byte `bs[0]`. */
  function Run(bs: seq<Byte>, k: nat, need: nat): (r: nat)
    requires 1 + k <= |bs| && k <= need
    ensures k <= r <= need && 1 + r <= |bs|
    ensures forall i :: k <= i < r ==> AcceptedAt(bs, i)
    ensures r < need ==> !AcceptedAt(bs, r)
    decreases need - k
  {
    if k == need then k
    else if AcceptedAt(bs, k) then Run(bs, k + 1, need)
    else k
  }

  /** The scalar value a complete, accepted sequence `bs[..need + 1]` encodes. */
  function CodePoint(bs: seq<Byte>, need: nat): (cp: int)
    requires 1 <= need <= 3 && need + 1 <= |bs| && Needed(bs[0]) == need
    requires forall i :: 0 <= i < need ==> AcceptedAt(bs, i)
    ensures 0 <= cp < 0xD800 || 0xE000 <= cp < 0x110000
  {
    var b0: int, b1: int := bs[0], bs[1];
    assert AcceptedAt(bs, 0);
    if need == 1 then
      (b0 - 0xC0) * 64 + (b1 - 0x80)
    else if need == 2 then
      assert AcceptedAt(bs, 1);
      var b2: int := bs[2];
      (b0 - 0xE0) * 4096 + (b1 - 0x80) * 64 + (b2 - 0x80)
    else
      assert AcceptedAt(bs, 1) && AcceptedAt(bs, 2);
      var b2: int, b3: int := bs[2], bs[3];
      (b0 - 0xF0) * 262144 + (b1 - 0x80) * 4096 + (b2 - 0x80) * 64 + (b3 - 0x80)
  }

  /** UTF-8 decode without BOM, replacement error mode. */
  function Decode(bs: seq<Byte>): string
    decreases |bs|
  {
    if bs == [] then []
    else if bs[0] < 0x80 then [bs[0] as char] + Decode(bs[1..])
    else
      var need := Needed(bs[0]);
      if need == 0 then [Replacement] + Decode(bs[1..])
      else
        var k := Run(bs, 0, need);
        if k == need then [CodePoint(bs, need) as char] + Decode(bs[need + 1..])
        else [Replacement] + Decode(bs[k + 1..])
  }

  lemma DecodeEncodeChar(c: char, rest: seq<Byte>)
    ensures Decode(EncodeChar(c) + rest) == [c] + Decode(rest)
  {
    var n := c as int;
    if n < 0x80 {
      assert (EncodeChar(c) + rest)[1..] == rest;
    } else if n < 0x800 {
      DecodeEncodeTwo(c, rest);
    } else if n < 0x10000 {
      DecodeEncodeThree(c, rest);
    } else {
      DecodeEncodeFour(c, rest);
    }
  }

  lemma DecodeEncodeTwo(c: char, rest: seq<Byte>)
    requires 0x80 <= c as int < 0x800
    ensures Decode(EncodeChar(c) + rest) == [c] + Decode(rest)
  {
    var n := c as int;
    var bs := EncodeChar(c) + rest;
    assert bs[0] == 0xC0 + n / 64 && bs[1] == 0x80 + n % 64;
    assert Needed(bs[0]) == 1;
    assert AcceptedAt(bs, 0);
    assert Run(bs, 0, 1) == 1;
    assert CodePoint(bs, 1) == n;
    assert bs[2..] == rest;
  }

  lemma DecodeEncodeThree(c: char, rest: seq<Byte>)
    requires 0x800 <= c as int < 0x10000
    ensures Decode(EncodeChar(c) + rest) == [c] + Decode(rest)
  {
    var n := c as int;
    var bs := EncodeChar(c) + rest;
    TwoContinuations(n);
    assert bs[0] == 0xE0 + n / 4096 && bs[1] == 0x80 + (n / 64) % 64 && bs[2] == 0x80 + n % 64;
    assert Needed(bs[0]) == 2;
    assert AcceptedAt(bs, 0) && AcceptedAt(bs, 1);
    assert Run(bs, 1, 2) == 2;
    assert Run(bs, 0, 2) == 2;
    assert CodePoint(bs, 2) == n;
    assert bs[3..] == rest;
  }

  lemma DecodeEncodeFour(c: char, rest: seq<Byte>)
    requires 0x10000 <= c as int
    ensures Decode(EncodeChar(c) + rest) == [c] + Decode(rest)
  {
    var n := c as int;
    var bs := EncodeChar(c) + rest;
    ThreeContinuations(n);
    assert bs[0] == 0xF0 + n / 262144 && bs[1] == 0x80 + (n / 4096) % 64;
    assert bs[2] == 0x80 + (n / 64) % 64 && bs[3] == 0x80 + n % 64;
    assert Needed(bs[0]) == 3;
    assert AcceptedAt(bs, 0) && AcceptedAt(bs, 1) && AcceptedAt(bs, 2);
    assert Run(bs, 2, 3) == 3;
    assert Run(bs, 1, 3) == 3;
    assert Run(bs, 0, 3) == 3;
    assert CodePoint(bs, 3) == n;
    assert bs[4..] == rest;
  }

  lemma TwoContinuations(n: int)
    requires 0x800 <= n < 0x10000 && (n < 0xD800 || 0xE000 <= n)
    ensures 0xE0 <= 0xE0 + n / 4096 <= 0xEF
    ensures n / 4096 == 0 ==> (n / 64) % 64 >= 0x20
    ensures n / 4096 == 0xD ==> (n / 64) % 64 < 0x20
    ensures (n / 4096) * 4096 + ((n / 64) % 64) * 64 + n % 64 == n
  {
    var q := n / 64;
    assert q * 64 + n % 64 == n;
    assert (q / 64) == n / 4096;
    assert (q / 64) * 64 + q % 64 == q;
  }

  lemma ThreeContinuations(n: int)
    requires 0x10000 <= n < 0x110000
    ensures 0xF0 <= 0xF0 + n / 262144 <= 0xF4
    ensures n / 262144 == 0 ==> (n / 4096) % 64 >= 0x10
    ensures n / 262144 == 4 ==> (n / 4096) % 64 < 0x10
    ensures (n / 262144) * 262144 + ((n / 4096) % 64) * 4096 + ((n / 64) % 64) * 64 + n % 64 == n
  {
    var q := n / 64;
    var r := q / 64;
    assert q * 64 + n % 64 == n;
    assert r * 64 + q % 64 == q;
    assert r == n / 4096;
    assert (r / 64) * 64 + r % 64 == r;
    assert r / 64 == n / 262144;
  }

  /** Decoding undoes encoding: every string survives a UTF-8 round trip. */
  lemma {:induction false} DecodeEncode(s: string)
    ensures Decode(Encode(s)) == s
  {
    if s != [] {
      DecodeEncodeChar(s[0], Encode(s[1..]));
      DecodeEncode(s[1..]);
    }
  }

  lemma {:induction false} EncodeAppend(s: string, t: string)
    ensures Encode(s + t) == Encode(s) + Encode(t)
  {
    if s == [] {
      assert s + t == t;
    } else {
      assert (s + t)[0] == s[0] && (s + t)[1..] == s[1..] + t;
      EncodeAppend(s[1..], t);
    }
  }
}
