/** Hexadecimal text, as configuration keys and the HTTP interface use it. */
module Hex {
  import opened Types

  /** hex_val; None stands for -1 */
  function HexVal(ch: char): (v: Option<nat>)
    ensures v.Some? ==> v.value < 16
  {
    if '0' <= ch <= '9' then Some((ch - '0') as nat)
    else if 'a' <= ch <= 'f' then Some((ch - 'a') as nat + 10)
    else if 'A' <= ch <= 'F' then Some((ch - 'A') as nat + 10)
    else None
  }

  const DIGITS := "0123456789abcdef"

  function Lower(ch: char): char { if 'A' <= ch <= 'Z' then ch - 'A' + 'a' else ch }

  /** A digit stands for a value exactly when its lower-case form is that value's digit. */
  lemma HexValInverts(ch: char, v: nat)
    requires v < 16
    ensures HexVal(ch) == Some(v) <==> Lower(ch) == DIGITS[v]
  {
  }

  predicate AllHex(s: string) { forall i :: 0 <= i < |s| ==> HexVal(s[i]).Some? }

  /** The byte written by the digit pair at index i; shifting left by four multiplies by sixteen. */
  function PairValue(s: string, i: nat): byte
    requires 2 * i + 1 < |s| && AllHex(s)
  {
    (HexVal(s[2 * i]).value * 16 + HexVal(s[2 * i + 1]).value) as byte
  }

  /** The bytes that an even number of digits stand for. */
  function HexBytes(s: string): (b: Bytes)
    requires |s| % 2 == 0 && AllHex(s)
    ensures |b| == |s| / 2
  {
    seq(|s| / 2, i requires 0 <= i < |s| / 2 => PairValue(s, i))
  }

  function HexText(b: Bytes): (s: string)
    ensures |s| == 2 * |b|
  {
    seq(2 * |b|, i requires 0 <= i < 2 * |b| => DIGITS[if i % 2 == 0 then b[i / 2] / 16 else b[i / 2] % 16])
  }

  predicate Decodable(s: string) { s != "" && |s| % 2 == 0 && AllHex(s) }

  lemma NextPair(data: Bytes, i: nat)
    requires i < |data|
    ensures HexText(data)[..2 * (i + 1)] ==
        HexText(data)[..2 * i] + [DIGITS[data[i] / 16 % 16]] + [DIGITS[data[i] % 16]]
  {
  }

  /** hex_encode */
  method HexEncode(data: Bytes) returns (out: string)
    ensures out == HexText(data)
  {
    out := "";
    hide HexText;
    for i := 0 to |data|
      invariant out == HexText(data)[..2 * i]
    {
      out := out + [DIGITS[data[i] / 16 % 16]];
      out := out + [DIGITS[data[i] % 16]];
      NextPair(data, i);
    }
  }

  /** hex_decode into a caller's buffer of at least maxOut bytes; outLen is the caller's previous length. */
  method HexDecodeInto(hex: string, out: array<byte>, outLen: nat, maxOut: nat) returns (ok: bool, newLen: nat)
    requires maxOut <= out.Length
    modifies out
    ensures ok <==> Decodable(hex) && |hex| / 2 <= maxOut
    ensures ok ==> newLen <= maxOut && out[..newLen] == HexBytes(hex)
    ensures newLen == if |hex| % 2 != 0 || hex == "" then outLen else |hex| / 2
    ensures forall k :: 0 <= k < out.Length && (k >= |hex| / 2 || newLen > maxOut) ==> out[k] == old(out[k])
  {
    newLen := outLen;
    if |hex| % 2 != 0 || |hex| == 0 {
      return false, newLen;
    }
    newLen := |hex| / 2;
    if newLen > maxOut {
      return false, newLen;
    }
    for i := 0 to newLen
      invariant forall k :: 0 <= k < 2 * i ==> HexVal(hex[k]).Some?
      invariant forall k :: 0 <= k < i ==> out[k] as nat == HexVal(hex[2 * k]).value * 16 + HexVal(hex[2 * k + 1]).value
      invariant forall k :: newLen <= k < out.Length ==> out[k] == old(out[k])
    {
      var hi, lo := HexVal(hex[2 * i]), HexVal(hex[2 * i + 1]);
      if hi.None? || lo.None? {
        return false, newLen;
      }
      out[i] := (hi.value * 16 + lo.value) as byte;
    }
    return true, newLen;
  }

  /** hex_decode into a growing vector whose previous contents are `before`. */
  method HexDecode(hex: string, before: Bytes) returns (ok: bool, out: Bytes)
    ensures ok <==> Decodable(hex)
    ensures ok ==> out == HexBytes(hex)
    ensures !ok ==> out == if |hex| % 2 != 0 || hex == "" then before else []
  {
    out := before;
    if |hex| % 2 != 0 || |hex| == 0 {
      return false, out;
    }
    var n := |hex| / 2;
    out := seq(n, k => if 0 <= k < |before| then before[k] else 0);
    for i := 0 to n
      invariant |out| == n
      invariant forall k :: 0 <= k < 2 * i ==> HexVal(hex[k]).Some?
      invariant forall k :: 0 <= k < i ==> out[k] as nat == HexVal(hex[2 * k]).value * 16 + HexVal(hex[2 * k + 1]).value
    {
      var hi, lo := HexVal(hex[2 * i]), HexVal(hex[2 * i + 1]);
      if hi.None? || lo.None? {
        out := [];
        return false, out;
      }
      out := out[i := (hi.value * 16 + lo.value) as byte];
    }
    return true, out;
  }

  function LowerAll(s: string): (t: string)
    ensures |t| == |s|
  {
    seq(|s|, i requires 0 <= i < |s| => Lower(s[i]))
  }

  /** The decoder reads a text as some bytes exactly when the text is their encoding up to letter case. */
  lemma HexDecodesExactly(s: string, b: Bytes)
    ensures |s| % 2 == 0 && AllHex(s) && HexBytes(s) == b <==> LowerAll(s) == HexText(b)
  {
    if |s| % 2 == 0 && AllHex(s) && HexBytes(s) == b {
      forall i | 0 <= i < |s| ensures Lower(s[i]) == HexText(b)[i] {
        PairDigits(s, b, i);
      }
    }
    if LowerAll(s) == HexText(b) {
      forall i | 0 <= i < |s| ensures HexVal(s[i]) == Some(if i % 2 == 0 then b[i / 2] / 16 else b[i / 2] % 16) {
        assert LowerAll(s)[i] == HexText(b)[i];
        HexValInverts(s[i], if i % 2 == 0 then b[i / 2] / 16 else b[i / 2] % 16);
      }
      assert forall k :: 0 <= k < |b| ==>
          (2 * k) / 2 == k && (2 * k) % 2 == 0 && (2 * k + 1) / 2 == k && (2 * k + 1) % 2 == 1;
      assert HexBytes(s) == b;
    }
  }

  lemma PairDigits(s: string, b: Bytes, i: nat)
    requires |s| % 2 == 0 && AllHex(s) && HexBytes(s) == b && i < |s|
    ensures Lower(s[i]) == HexText(b)[i]
  {
    hide HexVal;
    hide Lower;
    var k := i / 2;
    assert b[k] == PairValue(s, k);
    var hi, lo := HexVal(s[2 * k]).value, HexVal(s[2 * k + 1]).value;
    Nibbles(hi, lo);
    if i % 2 == 0 { HexValInverts(s[i], hi); } else { HexValInverts(s[i], lo); }
  }

  lemma Nibbles(hi: nat, lo: nat)
    requires hi < 16 && lo < 16
    ensures (hi * 16 + lo) / 16 == hi && (hi * 16 + lo) % 16 == lo
  {
  }

  /** Decoding inverts encoding; only the empty text, which encodes no bytes, is refused. */
  lemma HexRoundTrip(b: Bytes)
    ensures AllHex(HexText(b)) && HexBytes(HexText(b)) == b
    ensures Decodable(HexText(b)) <==> b != []
  {
    assert forall i :: 0 <= i < 16 ==> Lower(DIGITS[i]) == DIGITS[i];
    assert LowerAll(HexText(b)) == HexText(b);
    HexDecodesExactly(HexText(b), b);
  }
}

/** The base 64 text of section 4 of RFC 4648, and a strict decoder for it. */
module Base64 {
  import opened Types

  const TABLE := "ABCDEFGHIJKLMNOPQRSTUVWXYZ" + ("abcdefghijklmnopqrstuvwxyz" + "0123456789+/")

  function Digit(v: nat): char
    requires v < 64
  {
    TABLE[v]
  }

  function Value(ch: char): (v: Option<nat>)
    ensures v.Some? ==> v.value < 64
  {
    if 'A' <= ch <= 'Z' then Some((ch - 'A') as nat)
    else if 'a' <= ch <= 'z' then Some((ch - 'a') as nat + 26)
    else if '0' <= ch <= '9' then Some((ch - '0') as nat + 52)
    else if ch == '+' then Some(62)
    else if ch == '/' then Some(63)
    else None
  }

  lemma UpperDigit(v: nat)
    requires v < 26
    ensures Digit(v) == 'A' + v as char
  {
  }

  lemma LowerDigit(v: nat)
    requires 26 <= v < 52
    ensures Digit(v) == 'a' + (v - 26) as char
  {
  }

  lemma OtherDigit(v: nat)
    requires 52 <= v < 64
    ensures Digit(v) == if v < 62 then '0' + (v - 52) as char else if v == 62 then '+' else '/'
  {
  }

  lemma ValueInverts(ch: char, v: nat)
    requires v < 64
    ensures Value(ch) == Some(v) <==> ch == Digit(v)
    ensures Digit(v) != '='
  {
    if v < 26 { UpperDigit(v); } else if v < 52 { LowerDigit(v); } else { OtherDigit(v); }
    hide Digit;
  }

  function At(b: Bytes, i: nat): nat { if i < |b| then b[i] as nat else 0 }

  /** Four characters for the next one, two or three bytes; missing bytes are shown by padding. */
  function Quad(b: Bytes): (q: string)
    requires b != []
    ensures |q| == 4
  {
    var n := At(b, 0) * 65536 + At(b, 1) * 256 + At(b, 2);
    [Digit(n / 262144 % 64), Digit(n / 4096 % 64),
     if |b| > 1 then Digit(n / 64 % 64) else '=',
     if |b| > 2 then Digit(n % 64) else '=']
  }

  function Encoded(b: Bytes): string {
    if b == [] then "" else if |b| <= 3 then Quad(b) else Quad(b[..3]) + Encoded(b[3..])
  }

  /** base64_encode; shifting right by k bits divides by two to the k. */
  method Base64Encode(data: Bytes) returns (out: string)
    ensures out == Encoded(data)
  {
    hide Encoded;
    hide Rest;
    out := "";
    var i := 0;
    AllRemains(data);
    while i < |data|
      invariant out + Rest(data, i) == Encoded(data)
    {
      var b0: nat := data[i];
      var b1: nat := if i + 1 < |data| then data[i + 1] else 0;
      var b2: nat := if i + 2 < |data| then data[i + 2] else 0;
      var triple := b0 * 65536 + b1 * 256 + b2;
      QuadAt(data, i, triple);
      NextQuad(out, data, i);
      hide Digit;
      hide Quad;
      ghost var before := out;
      out := out + [Digit(triple / 262144 % 64)];
      out := out + [Digit(triple / 4096 % 64)];
      out := out + [if i + 1 < |data| then Digit(triple / 64 % 64) else '='];
      out := out + [if i + 2 < |data| then Digit(triple % 64) else '='];
      assert out == before + Quad(Group(data, i));
      i := i + 3;
    }
    NothingRemains(out, data, i);
  }

  lemma AllRemains(data: Bytes)
    ensures "" + Rest(data, 0) == Encoded(data)
  {
  }

  lemma NothingRemains(out: string, data: Bytes, i: nat)
    requires i >= |data|
    ensures out + Rest(data, i) == out
  {
  }

  /** The bytes of one step of the loop, and what the loop has still to write. */
  function Group(data: Bytes, i: nat): Bytes
    requires i < |data|
  {
    if i + 3 <= |data| then data[i..i + 3] else data[i..]
  }

  function Rest(data: Bytes, i: nat): string { if i < |data| then Encoded(data[i..]) else "" }

  lemma QuadAt(data: Bytes, i: nat, n: nat)
    requires i < |data| && n == At(data, i) * 65536 + At(data, i + 1) * 256 + At(data, i + 2)
    ensures Quad(Group(data, i)) == [Digit(n / 262144 % 64), Digit(n / 4096 % 64),
                                     if i + 1 < |data| then Digit(n / 64 % 64) else '=',
                                     if i + 2 < |data| then Digit(n % 64) else '=']
  {
  }

  lemma NextQuad(out: string, data: Bytes, i: nat)
    requires i < |data|
    ensures out + Quad(Group(data, i)) + Rest(data, i + 3) == out + Rest(data, i)
  {
    hide Quad;
    if i + 3 < |data| {
      assert data[i..][..3] == Group(data, i) && data[i..][3..] == data[i + 3..];
      assert out + Quad(Group(data, i)) + Rest(data, i + 3) == out + (Quad(Group(data, i)) + Rest(data, i + 3));
    } else {
      assert Group(data, i) == data[i..];
    }
  }

  // ---- the decoder ----

  function OneByte(d0: nat, d1: nat): Bytes
    requires d0 < 64 && d1 < 64
  {
    [d0 * 4 + d1 / 16]
  }

  function TwoBytes(d0: nat, d1: nat, d2: nat): Bytes
    requires d0 < 64 && d1 < 64 && d2 < 64
  {
    [d0 * 4 + d1 / 16, d1 % 16 * 16 + d2 / 4]
  }

  function ThreeBytes(d0: nat, d1: nat, d2: nat, d3: nat): Bytes
    requires d0 < 64 && d1 < 64 && d2 < 64 && d3 < 64
  {
    [d0 * 4 + d1 / 16, d1 % 16 * 16 + d2 / 4, d2 % 4 * 64 + d3]
  }

  /** The bytes of four characters; padding is allowed only at the end and must hide no bits. */
  function ReadQuad(q: string, last: bool): (b: Option<Bytes>)
    requires |q| == 4
    ensures b.Some? ==> 1 <= |b.value| <= 3 && (!last ==> |b.value| == 3)
  {
    match (Value(q[0]), Value(q[1]))
    case (Some(d0), Some(d1)) =>
      if last && q[2] == '=' && q[3] == '=' then (if d1 % 16 != 0 then None else Some(OneByte(d0, d1)))
      else
        (match Value(q[2])
         case None => None
         case Some(d2) =>
           if last && q[3] == '=' then (if d2 % 4 != 0 then None else Some(TwoBytes(d0, d1, d2)))
           else
             (match Value(q[3])
              case None => None
              case Some(d3) => Some(ThreeBytes(d0, d1, d2, d3))))
    case _ => None
  }

  function Decode(s: string): Option<Bytes> {
    if s == "" then Some([])
    else if |s| < 4 then None
    else
      match (ReadQuad(s[..4], |s| == 4), Decode(s[4..]))
      case (Some(b), Some(rest)) => Some(b + rest)
      case _ => None
  }

  /** Three bytes, written as two-, four- and six-bit pieces, regrouped into four six-bit digits. */
  lemma Regroup(x: nat, y: nat, z: nat, w: nat, u: nat, v: nat)
    requires x < 64 && y < 4 && z < 16 && w < 16 && u < 4 && v < 64
    ensures var n := (4 * x + y) * 65536 + (16 * z + w) * 256 + (64 * u + v);
      n / 262144 % 64 == x && n / 4096 % 64 == 16 * y + z && n / 64 % 64 == 4 * w + u && n % 64 == v
  {
    var n := (4 * x + y) * 65536 + (16 * z + w) * 256 + (64 * u + v);
    assert n == 262144 * x + (4096 * (16 * y + z) + 64 * (4 * w + u) + v);
    assert n / 4096 == 64 * x + (16 * y + z);
    assert n / 64 == 64 * (64 * x + (16 * y + z)) + (4 * w + u);
  }

  lemma QuadDigits(b: Bytes, b0: byte, b1: byte, b2: byte)
    requires b != [] && b0 == At(b, 0) && b1 == At(b, 1) && b2 == At(b, 2)
    ensures Quad(b) == [Digit(b0 / 4), Digit(16 * (b0 % 4) + b1 / 16),
                        if |b| > 1 then Digit(4 * (b1 % 16) + b2 / 64) else '=',
                        if |b| > 2 then Digit(b2 % 64) else '=']
  {
    hide Digit;
    Regroup(b0 / 4, b0 % 4, b1 / 16, b1 % 16, b2 / 64, b2 % 64);
  }

  lemma LastDigits(b0: byte, b1: byte)
    ensures 16 * (b0 % 4) + 0 / 16 == 16 * (b0 % 4) && 4 * (b1 % 16) + 0 / 64 == 4 * (b1 % 16)
  {
  }

  lemma ThreeBytesExact(d0: nat, d1: nat, d2: nat, d3: nat, b: Bytes)
    requires d0 < 64 && d1 < 64 && d2 < 64 && d3 < 64 && |b| == 3
    ensures ThreeBytes(d0, d1, d2, d3) == b <==>
            d0 == b[0] / 4 && d1 == 16 * (b[0] % 4) + b[1] / 16 && d2 == 4 * (b[1] % 16) + b[2] / 64 && d3 == b[2] % 64
  {
  }

  lemma TwoBytesExact(d0: nat, d1: nat, d2: nat, b: Bytes)
    requires d0 < 64 && d1 < 64 && d2 < 64 && |b| == 2
    ensures d2 % 4 == 0 && TwoBytes(d0, d1, d2) == b <==>
            d0 == b[0] / 4 && d1 == 16 * (b[0] % 4) + b[1] / 16 && d2 == 4 * (b[1] % 16)
  {
  }

  lemma OneByteExact(d0: nat, d1: nat, b: Bytes)
    requires d0 < 64 && d1 < 64 && |b| == 1
    ensures d1 % 16 == 0 && OneByte(d0, d1) == b <==> d0 == b[0] / 4 && d1 == 16 * (b[0] % 4)
  {
  }

  lemma QuadOfThree(q: string, last: bool, b: Bytes)
    requires |q| == 4 && |b| == 3
    ensures ReadQuad(q, last) == Some(b) <==> q == Quad(b)
  {
    hide Quad;
    hide ReadQuad;
    hide Digit;
    hide Value;
    ThreeDigits(q, last, b);
    var e0, e1, e2, e3 := b[0] / 4, 16 * (b[0] % 4) + b[1] / 16, 4 * (b[1] % 16) + b[2] / 64, b[2] % 64;
    ValueInverts(q[0], e0);
    ValueInverts(q[1], e1);
    ValueInverts(q[2], e2);
    ValueInverts(q[3], e3);
    QuadDigits(b, b[0], b[1], b[2]);
    assert q == [q[0], q[1], q[2], q[3]];
  }

  lemma QuadOfTwo(q: string, b: Bytes)
    requires |q| == 4 && |b| == 2
    ensures ReadQuad(q, true) == Some(b) <==> q == Quad(b)
  {
    hide Quad;
    hide ReadQuad;
    hide Digit;
    hide Value;
    TwoDigits(q, b);
    ValueInverts(q[0], b[0] / 4);
    ValueInverts(q[1], 16 * (b[0] % 4) + b[1] / 16);
    ValueInverts(q[2], 4 * (b[1] % 16));
    LastDigits(b[0], b[1]);
    QuadDigits(b, b[0], b[1], 0);
    assert q == [q[0], q[1], q[2], q[3]];
  }

  lemma QuadOfOne(q: string, b: Bytes)
    requires |q| == 4 && |b| == 1
    ensures ReadQuad(q, true) == Some(b) <==> q == Quad(b)
  {
    hide Quad;
    hide ReadQuad;
    hide Digit;
    hide Value;
    OneDigit(q, b);
    ValueInverts(q[0], b[0] / 4);
    ValueInverts(q[1], 16 * (b[0] % 4));
    LastDigits(b[0], 0);
    QuadDigits(b, b[0], 0, 0);
    assert q == [q[0], q[1], q[2], q[3]];
  }

  lemma ThreeDigits(q: string, last: bool, b: Bytes)
    requires |q| == 4 && |b| == 3
    ensures ReadQuad(q, last) == Some(b) <==>
            && Value(q[0]) == Some(b[0] / 4) && Value(q[1]) == Some(16 * (b[0] % 4) + b[1] / 16)
            && Value(q[2]) == Some(4 * (b[1] % 16) + b[2] / 64) && Value(q[3]) == Some(b[2] % 64)
  {
    PaddingHasNoValue();
    hide Value;
    if Value(q[0]).Some? && Value(q[1]).Some? && Value(q[2]).Some? && Value(q[3]).Some? {
      ThreeBytesExact(Value(q[0]).value, Value(q[1]).value, Value(q[2]).value, Value(q[3]).value, b);
    }
    assert forall d0, d1 | 0 <= d0 < 64 && 0 <= d1 < 64 :: |OneByte(d0, d1)| == 1;
    assert forall d0, d1, d2 | 0 <= d0 < 64 && 0 <= d1 < 64 && 0 <= d2 < 64 :: |TwoBytes(d0, d1, d2)| == 2;
    hide OneByte;
    hide TwoBytes;
    hide ThreeBytes;
  }

  lemma TwoDigits(q: string, b: Bytes)
    requires |q| == 4 && |b| == 2
    ensures ReadQuad(q, true) == Some(b) <==>
            && Value(q[0]) == Some(b[0] / 4) && Value(q[1]) == Some(16 * (b[0] % 4) + b[1] / 16)
            && Value(q[2]) == Some(4 * (b[1] % 16)) && q[3] == '='
  {
    PaddingHasNoValue();
    hide Value;
    if Value(q[0]).Some? && Value(q[1]).Some? && Value(q[2]).Some? {
      TwoBytesExact(Value(q[0]).value, Value(q[1]).value, Value(q[2]).value, b);
    }
    hide TwoBytes;
  }

  lemma OneDigit(q: string, b: Bytes)
    requires |q| == 4 && |b| == 1
    ensures ReadQuad(q, true) == Some(b) <==>
            Value(q[0]) == Some(b[0] / 4) && Value(q[1]) == Some(16 * (b[0] % 4)) && q[2] == '=' && q[3] == '='
  {
    PaddingHasNoValue();
    hide Value;
    if Value(q[0]).Some? && Value(q[1]).Some? {
      OneByteExact(Value(q[0]).value, Value(q[1]).value, b);
    }
    hide OneByte;
  }

  lemma PaddingHasNoValue()
    ensures Value('=').None?
  {
  }

  /** Four characters are read as some bytes exactly when they are the encoding of those bytes. */
  lemma QuadExact(q: string, last: bool, b: Bytes)
    requires |q| == 4 && 1 <= |b| <= 3 && (!last ==> |b| == 3)
    ensures ReadQuad(q, last) == Some(b) <==> q == Quad(b)
  {
    hide Quad;
    hide ReadQuad;
    if |b| == 3 { QuadOfThree(q, last, b); } else if |b| == 2 { QuadOfTwo(q, b); } else { QuadOfOne(q, b); }
  }

  /** The standard decoder accepts exactly the encodings, and returns what was encoded. */
  lemma {:induction false} Base64Exact(s: string, b: Bytes)
    ensures Decode(s) == Some(b) <==> s == Encoded(b)
    decreases |s|
  {
    EncodedLength(b);
    hide Quad;
    hide ReadQuad;
    if |s| == 4 {
      assert s[..4] == s && Decode(s[4..]) == Some([]);
      assert forall x: Bytes :: x + [] == x;
      if 1 <= |b| <= 3 { QuadExact(s, true, b); }
    } else if |s| > 4 && |b| >= 3 {
      Base64Exact(s[4..], b[3..]);
      QuadExact(s[..4], false, b[..3]);
      assert s == s[..4] + s[4..] && b == b[..3] + b[3..];
    }
  }

  lemma {:induction false} EncodedLength(b: Bytes)
    ensures |Encoded(b)| == (|b| + 2) / 3 * 4
  {
    hide Quad;
    if |b| > 3 { EncodedLength(b[3..]); }
  }
}
