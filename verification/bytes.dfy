/**
 * Bytes, and Go's conversion between `string` and `[]byte`.
 *
 * A Go string is a byte sequence. The strings `encoding/json` decodes are
 * always valid UTF-8; the `Authorization` header, the `token` query value
 * and the URL path are not decoded and may hold any bytes. The model keeps
 * every string as a sequence of Unicode scalar values, so those three
 * inputs are taken to be valid UTF-8, and makes the conversion `[]byte(s)`
 * (and `len(s)`, which counts bytes) explicit as UTF-8 encoding, section 3
 * of RFC 3629.
 */
module Bytes {
  import opened Wrappers

  /** Go's `byte`. */
  type byte = b: int | 0 <= b < 0x100

  /** A continuation byte carrying the low six bits of `v`. */
  function Cont(v: nat): byte {
    0x80 + v % 0x40
  }

  /** How many bytes UTF-8 spends on the scalar value `v`. */
  function RuneLength(v: nat): nat {
    if v < 0x80 then 1 else if v < 0x800 then 2 else if v < 0x10000 then 3 else 4
  }

  predicate IsScalar(v: int) {
    0 <= v < 0x110000 && !(0xD800 <= v < 0xE000)
  }

  predicate IsAscii(s: string) {
    forall i :: 0 <= i < |s| ==> s[i] as int < 0x80
  }

  /** UTF-8 encoding of a value below 0x110000, section 3 of RFC 3629. */
  function EncodeScalar(v: nat): (bs: seq<byte>)
    requires v < 0x110000
    ensures |bs| == RuneLength(v)
    ensures |bs| == 1 ==> bs[0] == v
  {
    if v < 0x80 then [v]
    else if v < 0x800 then [0xC0 + v / 0x40, Cont(v)]
    else if v < 0x10000 then [0xE0 + v / 0x1000, Cont(v / 0x40), Cont(v)]
    else [0xF0 + v / 0x40000, Cont(v / 0x1000), Cont(v / 0x40), Cont(v)]
  }

  /** UTF-8 encoding of one rune. */
  function EncodeRune(c: char): (bs: seq<byte>)
    ensures |bs| == RuneLength(c as int)
    ensures |bs| == 1 ==> bs[0] == c as int
  {
    EncodeScalar(c as int)
  }

  /** Go's `[]byte(s)`: the UTF-8 encoding of `s`. */
  function Utf8(s: string): (bs: seq<byte>)
    ensures |s| <= |bs| <= 4 * |s|
    ensures |bs| == |s| <==> IsAscii(s)
    ensures IsAscii(s) ==> forall i :: 0 <= i < |s| ==> bs[i] == s[i] as int
  {
    if |s| == 0 then [] else EncodeRune(s[0]) + Utf8(s[1..])
  }

  /** Go's `len(s)` on a string: its length in bytes. */
  function ByteLen(s: string): nat {
    |Utf8(s)|
  }

  /** The length a lead byte announces, 0 for a byte that cannot start a rune. */
  function LeadLength(b: byte): nat {
    if b < 0x80 then 1
    else if b < 0xC0 then 0
    else if b < 0xE0 then 2
    else if b < 0xF0 then 3
    else if b < 0xF8 then 4
    else 0
  }

  predicate IsCont(b: byte) {
    0x80 <= b < 0xC0
  }

  /** The scalar value spelled by a lead byte and its continuation bytes. */
  function RuneValue(bs: seq<byte>): nat
    requires 1 <= |bs| <= 4 && LeadLength(bs[0]) == |bs|
    requires forall i :: 1 <= i < |bs| ==> IsCont(bs[i])
  {
    var b0 := bs[0] as int;
    if |bs| == 1 then b0
    else if |bs| == 2 then (b0 - 0xC0) * 0x40 + Low(bs[1])
    else if |bs| == 3 then (b0 - 0xE0) * 0x1000 + Low(bs[1]) * 0x40 + Low(bs[2])
    else (b0 - 0xF0) * 0x40000 + Low(bs[1]) * 0x1000 + Low(bs[2]) * 0x40 + Low(bs[3])
  }

  /** The six payload bits of a continuation byte. */
  function Low(b: byte): nat
    requires IsCont(b)
  {
    b as int - 0x80
  }

  /**
   * Decodes the rune at the front of `bs` together with the number of bytes
   * it occupies; None for a malformed, overlong or surrogate encoding.
   */
  function DecodeRune(bs: seq<byte>): Option<(char, nat)>
    requires |bs| > 0
  {
    var n := LeadLength(bs[0]);
    if n == 0 || |bs| < n then None
    else if !(forall i :: 1 <= i < n ==> IsCont(bs[i])) then None
    else
      var v := RuneValue(bs[..n]);
      if IsScalar(v) && RuneLength(v) == n then Some((v as char, n)) else None
  }

  /** Decodes a whole byte sequence as UTF-8; None when it is not valid UTF-8. */
  function DecodeUtf8(bs: seq<byte>): Option<string>
    decreases |bs|
  {
    if |bs| == 0 then Some([])
    else match DecodeRune(bs)
      case None => None
      case Some((c, n)) =>
        match DecodeUtf8(bs[n..])
        case None => None
        case Some(rest) => Some([c] + rest)
  }

  /** (q * d + r) / d == q and (q * d + r) % d == r for a remainder below d. */
  lemma DivModUnique(q: nat, r: nat, d: nat)
    requires d == 0x40 || d == 0x1000 || d == 0x40000
    requires r < d
    ensures (q * d + r) / d == q && (q * d + r) % d == r
  {
    if d == 0x40 {
      assert q * d + r == q * 0x40 + r;
    } else if d == 0x1000 {
      assert q * d + r == q * 0x1000 + r;
    } else {
      assert q * d + r == q * 0x40000 + r;
    }
  }

  /** Decoding the encoding of one rune gives that rune back, whatever follows it. */
  lemma DecodeEncodeRune(c: char, rest: seq<byte>)
    ensures DecodeRune(EncodeRune(c) + rest) == Some((c, |EncodeRune(c)|))
  {
    var v := c as int;
    var e := EncodeRune(c);
    var bs := e + rest;
    assert bs[..|e|] == e;
    assert LeadLength(bs[0]) == |e| by { LeadOfEncoding(c); }
    assert forall i :: 1 <= i < |e| ==> IsCont(bs[i]);
    assert RuneValue(e) == v by { RuneValueOfEncoding(c); }
    assert (v as char) == c;
  }

  /** The first byte of an encoding announces the encoding's length. */
  lemma LeadOfEncoding(c: char)
    ensures LeadLength(EncodeRune(c)[0]) == |EncodeRune(c)|
  {
    var v := c as int;
    if v >= 0x10000 {
      assert v / 0x40000 <= 4;
    }
  }

  /** The payload bits of a two-byte encoding spell the value. */
  lemma Spell2(v: nat)
    requires 0x80 <= v < 0x800
    ensures RuneValue(EncodeScalar(v)) == v
  {
    var e := EncodeScalar(v);
    assert e[0] as int - 0xC0 == v / 0x40;
    assert Low(e[1]) == v % 0x40;
  }

  /** The payload bits of a three-byte encoding spell the value. */
  lemma Spell3(v: nat)
    requires 0x800 <= v < 0x10000
    ensures RuneValue(EncodeScalar(v)) == v
  {
    var e := EncodeScalar(v);
    assert e[0] as int - 0xE0 == v / 0x1000;
    assert Low(e[1]) == (v / 0x40) % 0x40;
    assert Low(e[2]) == v % 0x40;
    assert (v / 0x40) % 0x40 * 0x40 + v % 0x40 == v % 0x1000;
  }

  /** A value splits into its six-bit groups. */
  lemma SixBitGroups(v: nat)
    ensures (v / 0x40) % 0x40 * 0x40 + v % 0x40 == v % 0x1000
    ensures (v / 0x1000) % 0x40 * 0x1000 + v % 0x1000 == v % 0x40000
    ensures v / 0x40000 * 0x40000 + v % 0x40000 == v
  {
  }

  /** The payload bits of a four-byte encoding spell the value. */
  lemma Spell4(v: nat)
    requires 0x10000 <= v < 0x110000
    ensures RuneValue(EncodeScalar(v)) == v
  {
    var e := EncodeScalar(v);
    assert v / 0x40000 <= 4;
    assert e[0] as int - 0xF0 == v / 0x40000;
    assert Low(e[1]) == (v / 0x1000) % 0x40;
    assert Low(e[2]) == (v / 0x40) % 0x40;
    assert Low(e[3]) == v % 0x40;
    SixBitGroups(v);
  }

  /** The payload bits of an encoding spell the encoded scalar value. */
  lemma RuneValueOfEncoding(c: char)
    ensures LeadLength(EncodeRune(c)[0]) == |EncodeRune(c)|
    ensures RuneValue(EncodeRune(c)) == c as int
  {
    LeadOfEncoding(c);
    var v := c as int;
    if v < 0x80 {
    } else if v < 0x800 {
      Spell2(v);
    } else if v < 0x10000 {
      Spell3(v);
    } else {
      Spell4(v);
    }
  }

  /** A well-formed two-byte sequence is the encoding of the value it spells. */
  lemma Respell2(b: seq<byte>)
    requires |b| == 2 && LeadLength(b[0]) == 2 && IsCont(b[1])
    requires RuneLength(RuneValue(b)) == 2
    ensures EncodeScalar(RuneValue(b)) == b
  {
    DivModUnique(b[0] as int - 0xC0, Low(b[1]), 0x40);
  }

  /** A well-formed three-byte sequence is the encoding of the value it spells. */
  lemma Respell3(b: seq<byte>)
    requires |b| == 3 && LeadLength(b[0]) == 3 && IsCont(b[1]) && IsCont(b[2])
    requires RuneLength(RuneValue(b)) == 3
    ensures EncodeScalar(RuneValue(b)) == b
  {
    var hi := (b[0] as int - 0xE0) * 0x40 + Low(b[1]);
    DivModUnique(hi, Low(b[2]), 0x40);
    DivModUnique(b[0] as int - 0xE0, Low(b[1]), 0x40);
    DivModUnique(b[0] as int - 0xE0, Low(b[1]) * 0x40 + Low(b[2]), 0x1000);
  }

  /** A well-formed four-byte sequence below 0x110000 is the encoding of the value it spells. */
  lemma Respell4(b: seq<byte>)
    requires |b| == 4 && LeadLength(b[0]) == 4 && IsCont(b[1]) && IsCont(b[2]) && IsCont(b[3])
    requires RuneLength(RuneValue(b)) == 4 && RuneValue(b) < 0x110000
    ensures EncodeScalar(RuneValue(b)) == b
  {
    var top := (b[0] as int - 0xF0) * 0x40 + Low(b[1]);
    var hi := top * 0x40 + Low(b[2]);
    DivModUnique(hi, Low(b[3]), 0x40);
    DivModUnique(top, Low(b[2]), 0x40);
    DivModUnique(b[0] as int - 0xF0, Low(b[1]), 0x40);
    DivModUnique(top, Low(b[2]) * 0x40 + Low(b[3]), 0x1000);
    DivModUnique(b[0] as int - 0xF0, Low(b[1]) * 0x1000 + Low(b[2]) * 0x40 + Low(b[3]), 0x40000);
  }

  /** A rune the decoder accepts was spelled exactly by its UTF-8 encoding. */
  lemma EncodeDecodeRune(bs: seq<byte>, c: char, n: nat)
    requires |bs| > 0 && DecodeRune(bs) == Some((c, n))
    ensures n <= |bs| && bs[..n] == EncodeRune(c)
  {
    var b := bs[..n];
    assert c as int == RuneValue(b);
    if n == 2 {
      Respell2(b);
    } else if n == 3 {
      Respell3(b);
    } else if n == 4 {
      Respell4(b);
    }
  }

  /** Go's `string([]byte(s)) == s`: the byte conversion loses nothing. */
  lemma {:induction false} DecodeUtf8RoundTrip(s: string)
    ensures DecodeUtf8(Utf8(s)) == Some(s)
  {
    if |s| > 0 {
      var e := EncodeRune(s[0]);
      var bs := Utf8(s);
      DecodeEncodeRune(s[0], Utf8(s[1..]));
      assert bs[|e|..] == Utf8(s[1..]);
      DecodeUtf8RoundTrip(s[1..]);
      assert [s[0]] + s[1..] == s;
    }
  }

  /** Every valid UTF-8 byte sequence is the encoding of the string it decodes to. */
  lemma {:induction false} Utf8OfDecoded(bs: seq<byte>, s: string)
    requires DecodeUtf8(bs) == Some(s)
    ensures Utf8(s) == bs
    decreases |bs|
  {
    if |bs| > 0 {
      var r := DecodeRune(bs);
      var c := r.value.0;
      var n := r.value.1;
      EncodeDecodeRune(bs, c, n);
      var rest := DecodeUtf8(bs[n..]).value;
      assert s == [c] + rest;
      Utf8OfDecoded(bs[n..], rest);
      assert s[1..] == rest;
      assert bs == bs[..n] + bs[n..];
    }
  }

  /** Distinct strings convert to distinct byte sequences. */
  lemma Utf8Injective(s: string, t: string)
    requires Utf8(s) == Utf8(t)
    ensures s == t
  {
    DecodeUtf8RoundTrip(s);
    DecodeUtf8RoundTrip(t);
  }
}
