/**
 * Percent-encoding as the front end meets it:
 *  - `encodeURIComponent` (section 19.2.6.5 of ECMA-262): every character
 *    outside the RFC 3986 unreserved set and the marks ! * ' ( ) is written as
 *    the %XX escapes of its UTF-8 bytes, with upper-case hex digits;
 *  - the application/x-www-form-urlencoded serializer of the WHATWG URL
 *    Standard (section 5.2), which `URLSearchParams.toString` uses;
 *  - the application/x-www-form-urlencoded parser of the same standard
 *    (section 5.1), which `URLSearchParams` applies to a URL's query.
 */
module PercentEncoding {
  import opened Utf8
  import opened Text

  predicate IsAsciiAlphanumeric(c: int) {
    ('0' as int <= c <= '9' as int) || ('A' as int <= c <= 'Z' as int) || ('a' as int <= c <= 'z' as int)
  }

  /** The upper-case hexadecimal digit of `d`, as an ASCII byte. */
  function HexDigit(d: nat): (b: Byte)
    requires d < 16
    ensures IsHex(b) && HexValue(b) == d
    ensures IsAsciiAlphanumeric(b)
  {
    if d < 10 then '0' as int + d else 'A' as int + d - 10
  }

  /** The characters `encodeURIComponent` leaves alone. */
  predicate IsUriUnreserved(c: char) {
    IsAsciiAlphanumeric(c as int) || c in "-_.!~*'()"
  }

  /** `%XY` for one byte, upper-case hex. */
  function PercentByte(b: Byte): (r: string)
    ensures |r| == 3 && r[0] == '%'
    ensures forall i :: 0 <= i < 3 ==> r[i] == '%' || IsAsciiAlphanumeric(r[i] as int)
  {
    ['%', HexDigit(b / 16) as char, HexDigit(b % 16) as char]
  }

  function PercentBytes(bs: seq<Byte>): (r: string)
    ensures |r| == 3 * |bs|
    ensures forall i :: 0 <= i < |r| ==> r[i] == '%' || IsAsciiAlphanumeric(r[i] as int)
  {
    if bs == [] then "" else PercentByte(bs[0]) + PercentBytes(bs[1..])
  }

  /** `encodeURIComponent(s)`. */
  function EncodeUriComponent(s: string): (r: string)
    ensures forall i :: 0 <= i < |r| ==> IsUriUnreserved(r[i]) || r[i] == '%'
    ensures |r| >= |s|
    ensures |r| == |s| <==> forall i :: 0 <= i < |s| ==> IsUriUnreserved(s[i])
  {
    if s == [] then ""
    else
      var head := if IsUriUnreserved(s[0]) then [s[0]] else PercentBytes(EncodeChar(s[0]));
      var r := head + EncodeUriComponent(s[1..]);
      assert forall i :: 1 <= i < |s| ==> s[i] == s[1..][i - 1];
      r
  }

  /** A value that `encodeURIComponent` returns unchanged is exactly one made of unreserved characters. */
  lemma {:induction false} EncodingInvariant(s: string)
    ensures EncodeUriComponent(s) == s <==> forall i :: 0 <= i < |s| ==> IsUriUnreserved(s[i])
  {
    if forall i :: 0 <= i < |s| ==> IsUriUnreserved(s[i]) {
      if s != [] {
        assert forall i :: 0 <= i < |s[1..]| ==> IsUriUnreserved(s[1..][i]) by {
          forall i | 0 <= i < |s[1..]| ensures IsUriUnreserved(s[1..][i]) { assert s[1..][i] == s[i + 1]; }
        }
        EncodingInvariant(s[1..]);
        assert s == [s[0]] + s[1..];
      }
    }
  }

  /** The URL-significant characters that an encoded path value never holds. */
  lemma EncodedHasNoDelimiter(s: string, i: nat)
    requires i < |EncodeUriComponent(s)|
    ensures EncodeUriComponent(s)[i] !in "{}/?#&=$+"
  {
    var c := EncodeUriComponent(s)[i];
    assert IsUriUnreserved(c) || c == '%';
    NotDelimiter(c);
  }

  lemma NotDelimiter(c: char)
    requires IsUriUnreserved(c) || c == '%'
    ensures c !in "{}/?#&=$+"
  {
  }

  // ---------------------------------------------------------------------------
  // application/x-www-form-urlencoded serializing (WHATWG URL, section 5.2)

  const Amp: Byte := 0x26
  const Equals: Byte := 0x3D
  const Plus: Byte := 0x2B
  const Space: Byte := 0x20
  const Percent: Byte := 0x25
  const Hash: Byte := 0x23

  /** Bytes the form-urlencoded percent-encode set leaves alone: ASCII alphanumerics and * - . _ */
  predicate IsFormSafe(b: Byte) {
    IsAsciiAlphanumeric(b) || b == 0x2A || b == 0x2D || b == 0x2E || b == 0x5F
  }

  /** ASCII bytes of `%XY`. */
  function PercentByteAscii(b: Byte): (r: seq<Byte>)
    ensures |r| == 3 && r[0] == Percent && IsHex(r[1]) && IsHex(r[2])
    ensures HexValue(r[1]) * 16 + HexValue(r[2]) == b
  {
    [Percent, HexDigit(b / 16), HexDigit(b % 16)]
  }

  /** One byte, encoded with space as plus. */
  function FormEncodeByte(b: Byte): (r: seq<Byte>)
    ensures forall i :: 0 <= i < |r| ==> r[i] < 0x80 && r[i] != Amp && r[i] != Equals && r[i] != Hash
  {
    if b == Space then [Plus]
    else if IsFormSafe(b) then [b]
    else PercentByteAscii(b)
  }

  function FormEncodeBytes(bs: seq<Byte>): (r: seq<Byte>)
    ensures forall i :: 0 <= i < |r| ==> r[i] < 0x80 && r[i] != Amp && r[i] != Equals && r[i] != Hash
  {
    if bs == [] then [] else FormEncodeByte(bs[0]) + FormEncodeBytes(bs[1..])
  }

  /** The serialized `name=value` of one pair. */
  function FormPair(name: string, value: string): seq<Byte> {
    FormEncodeBytes(Encode(name)) + [Equals] + FormEncodeBytes(Encode(value))
  }

  /** The serializer's output, as bytes: the pairs' `name=value` joined by `&`. */
  function SerializeBytes(pairs: seq<(string, string)>): (r: seq<Byte>)
    ensures forall i :: 0 <= i < |r| ==> r[i] < 0x80 && r[i] != Hash
  {
    var parts := seq(|pairs|, i requires 0 <= i < |pairs| => FormPair(pairs[i].0, pairs[i].1));
    JoinAscii(parts)
  }

  function JoinAscii(parts: seq<seq<Byte>>): (r: seq<Byte>)
    requires forall i, j :: 0 <= i < |parts| && 0 <= j < |parts[i]| ==> parts[i][j] < 0x80 && parts[i][j] != Hash
    ensures r == Join(parts, Amp)
    ensures forall i :: 0 <= i < |r| ==> r[i] < 0x80 && r[i] != Hash
  {
    if parts == [] then []
    else if |parts| == 1 then parts[0]
    else parts[0] + [Amp] + JoinAscii(parts[1..])
  }

  /** An ASCII byte sequence read as a string. */
  function AsciiString(bs: seq<Byte>): (s: string)
    requires forall i :: 0 <= i < |bs| ==> bs[i] < 0x80
    ensures |s| == |bs| && Encode(s) == bs
    ensures forall i :: 0 <= i < |s| ==> s[i] as int == bs[i]
  {
    if bs == [] then ""
    else
      var s := [bs[0] as char] + AsciiString(bs[1..]);
      assert s[1..] == AsciiString(bs[1..]);
      s
  }

  /** `URLSearchParams.toString()` of a list of pairs. */
  function Serialize(pairs: seq<(string, string)>): (s: string)
    ensures Encode(s) == SerializeBytes(pairs)
    ensures s == "" <==> pairs == []
    ensures '#' !in s
  {
    var bs := SerializeBytes(pairs);
    assert pairs != [] ==> |bs| > 0 by {
      if pairs != [] {
        var parts := seq(|pairs|, i requires 0 <= i < |pairs| => FormPair(pairs[i].0, pairs[i].1));
        assert |parts[0]| > 0;
        JoinNonEmpty(parts);
      }
    }
    AsciiString(bs)
  }

  lemma JoinNonEmpty(parts: seq<seq<Byte>>)
    requires parts != [] && |parts[0]| > 0
    ensures |Join(parts, Amp)| > 0
  {
  }

  // ---------------------------------------------------------------------------
  // application/x-www-form-urlencoded parsing (WHATWG URL, section 5.1)

  predicate IsHex(b: Byte) {
    ('0' as int <= b <= '9' as int) || ('A' as int <= b <= 'F' as int) || ('a' as int <= b <= 'f' as int)
  }

  function HexValue(b: Byte): (v: nat)
    requires IsHex(b)
    ensures v < 16
  {
    if b <= '9' as int then b - '0' as int
    else if b <= 'F' as int then b - 'A' as int + 10
    else b - 'a' as int + 10
  }

  /** Percent-decode a byte sequence (WHATWG URL, section 1.3): a `%` not followed by two hex digits stays. */
  function PercentDecode(bs: seq<Byte>): seq<Byte> {
    if bs == [] then []
    else if bs[0] == Percent && |bs| >= 3 && IsHex(bs[1]) && IsHex(bs[2]) then
      [HexValue(bs[1]) * 16 + HexValue(bs[2])] + PercentDecode(bs[3..])
    else [bs[0]] + PercentDecode(bs[1..])
  }

  function PlusToSpace(bs: seq<Byte>): (r: seq<Byte>)
    ensures |r| == |bs|
    ensures forall i :: 0 <= i < |bs| ==> r[i] == if bs[i] == Plus then Space else bs[i]
  {
    if bs == [] then [] else [if bs[0] == Plus then Space else bs[0]] + PlusToSpace(bs[1..])
  }

  /** Name or value bytes to a string: plus to space, percent-decode, UTF-8 decode without BOM. */
  function DecodeComponent(bs: seq<Byte>): string {
    Decode(PercentDecode(PlusToSpace(bs)))
  }

  /** One `&`-separated sequence as a pair: split at the first `=`, or all name and an empty value. */
  function ParsePair(bs: seq<Byte>): (string, string) {
    var pieces := Split(bs, Equals);
    if |pieces| == 1 then (DecodeComponent(bs), "")
    else (DecodeComponent(pieces[0]), DecodeComponent(bs[|pieces[0]| + 1..]))
  }

  /** The parser over bytes: empty sequences are skipped. */
  function ParseSequences(seqs: seq<seq<Byte>>): seq<(string, string)> {
    if seqs == [] then []
    else if seqs[0] == [] then ParseSequences(seqs[1..])
    else [ParsePair(seqs[0])] + ParseSequences(seqs[1..])
  }

  function ParseBytes(bs: seq<Byte>): seq<(string, string)> {
    ParseSequences(Split(bs, Amp))
  }

  /** The name-value list `URLSearchParams` holds for a query string (its UTF-8 bytes parsed). */
  function ParseForm(query: string): seq<(string, string)> {
    ParseBytes(Encode(query))
  }

  // ---------------------------------------------------------------------------
  // The parser undoes the serializer.

  lemma {:induction false} DecodeFormEncoded(bs: seq<Byte>)
    ensures PercentDecode(PlusToSpace(FormEncodeBytes(bs))) == bs
  {
    if bs != [] {
      var head := FormEncodeByte(bs[0]);
      var tail := FormEncodeBytes(bs[1..]);
      PlusToSpaceAppend(head, tail);
      DecodeFormEncoded(bs[1..]);
      var x := PlusToSpace(head) + PlusToSpace(tail);
      if bs[0] == Space {
        assert x[1..] == PlusToSpace(tail);
      } else if IsFormSafe(bs[0]) {
        assert x[1..] == PlusToSpace(tail);
      } else {
        assert PlusToSpace(head) == head;
        assert x[3..] == PlusToSpace(tail);
      }
    }
  }

  lemma PlusToSpaceAppend(a: seq<Byte>, b: seq<Byte>)
    ensures PlusToSpace(a + b) == PlusToSpace(a) + PlusToSpace(b)
  {
  }

  lemma {:induction false} SplitFormPair(name: string, value: string)
    ensures var bs := FormPair(name, value);
      var pieces := Split(bs, Equals);
      |pieces| > 1 && pieces[0] == FormEncodeBytes(Encode(name))
      && bs[|pieces[0]| + 1..] == FormEncodeBytes(Encode(value))
  {
    var n := FormEncodeBytes(Encode(name));
    var v := FormEncodeBytes(Encode(value));
    SplitPrefix(n, v, Equals);
    assert FormPair(name, value) == n + [Equals] + v;
  }

  lemma {:induction false} ParsePairOfFormPair(name: string, value: string)
    ensures ParsePair(FormPair(name, value)) == (name, value)
  {
    SplitFormPair(name, value);
    DecodeFormEncoded(Encode(name));
    DecodeFormEncoded(Encode(value));
    DecodeEncode(name);
    DecodeEncode(value);
  }

  /** Parsing what the serializer wrote gives back the same pairs, in the same order. */
  lemma {:induction false} ParseSerialize(pairs: seq<(string, string)>)
    ensures ParseForm(Serialize(pairs)) == pairs
  {
    assert Encode(Serialize(pairs)) == SerializeBytes(pairs);
    ParseSerializedBytes(pairs);
  }

  lemma {:induction false} ParseSerializedBytes(pairs: seq<(string, string)>)
    ensures ParseBytes(SerializeBytes(pairs)) == pairs
  {
    var parts := seq(|pairs|, i requires 0 <= i < |pairs| => FormPair(pairs[i].0, pairs[i].1));
    assert SerializeBytes(pairs) == Join(parts, Amp);
    if pairs == [] {
      assert Split(Join(parts, Amp), Amp) == [[]];
      assert ParseSequences([[]]) == ParseSequences([]);
    } else {
      forall i | 0 <= i < |parts| ensures Amp !in parts[i] {
        assert parts[i] == FormPair(pairs[i].0, pairs[i].1);
      }
      SplitJoin(parts, Amp);
      ParseFormPairs(pairs, parts);
    }
  }

  lemma {:induction false} ParseFormPairs(pairs: seq<(string, string)>, parts: seq<seq<Byte>>)
    requires |parts| == |pairs|
    requires forall i :: 0 <= i < |pairs| ==> parts[i] == FormPair(pairs[i].0, pairs[i].1)
    ensures ParseSequences(parts) == pairs
  {
    if pairs != [] {
      assert parts[0] != [] by { assert Equals in parts[0]; }
      ParsePairOfFormPair(pairs[0].0, pairs[0].1);
      ParseFormPairs(pairs[1..], parts[1..]);
    }
  }
}
