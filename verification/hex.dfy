/** Go's `encoding/hex`, the format of a user's public key at registration. */
module Hex {
  import opened Wrappers
  import opened Bytes

  /** A character `hex.DecodeString` accepts: either case is allowed. */
  predicate IsHexDigit(c: char) {
    '0' <= c <= '9' || 'a' <= c <= 'f' || 'A' <= c <= 'F'
  }

  function DigitValue(c: char): (d: nat)
    requires IsHexDigit(c)
    ensures d < 16
  {
    if '0' <= c <= '9' then c as int - '0' as int
    else if 'a' <= c <= 'f' then c as int - 'a' as int + 10
    else c as int - 'A' as int + 10
  }

  /** The lower-case digit `hex.EncodeToString` writes for a value below 16. */
  function Digit(d: nat): (c: char)
    requires d < 16
    ensures IsHexDigit(c) && DigitValue(c) == d
  {
    if d < 10 then ('0' as int + d) as char else ('a' as int + d - 10) as char
  }

  predicate AllHex(s: string) {
    forall i :: 0 <= i < |s| ==> IsHexDigit(s[i])
  }

  /** The byte spelled by the digit pair starting at `s[2 * k]`. */
  function PairAt(s: string, k: nat): byte
    requires 2 * k + 1 < |s| && IsHexDigit(s[2 * k]) && IsHexDigit(s[2 * k + 1])
  {
    DigitValue(s[2 * k]) * 16 + DigitValue(s[2 * k + 1])
  }

  /** A string of at least two characters is all hex iff its first pair and the rest are. */
  lemma AllHexSplit(s: string)
    requires |s| >= 2
    ensures AllHex(s) <==> IsHexDigit(s[0]) && IsHexDigit(s[1]) && AllHex(s[2..])
  {
    if IsHexDigit(s[0]) && IsHexDigit(s[1]) && AllHex(s[2..]) {
      forall i | 0 <= i < |s|
        ensures IsHexDigit(s[i])
      {
        if i >= 2 {
          assert s[i] == s[2..][i - 2];
        }
      }
    }
    if AllHex(s) {
      forall i | 0 <= i < |s[2..]|
        ensures IsHexDigit(s[2..][i])
      {
        assert s[2..][i] == s[i + 2];
      }
    }
  }

  /** The pairs of `s[2..]` are the pairs of `s` after the first. */
  lemma PairsShift(s: string, rest: seq<byte>)
    requires |s| >= 2 && |s| % 2 == 0 && AllHex(s) && AllHex(s[2..])
    requires |rest| == |s| / 2 - 1
    requires forall k :: 0 <= k < |rest| ==> rest[k] == PairAt(s[2..], k)
    ensures forall k :: 0 <= k < |rest| + 1 ==> ([PairAt(s, 0)] + rest)[k] == PairAt(s, k)
  {
    var r := [PairAt(s, 0)] + rest;
    forall k | 0 <= k < |r|
      ensures r[k] == PairAt(s, k)
    {
      if k > 0 {
        assert s[2..][2 * (k - 1)] == s[2 * k] && s[2..][2 * (k - 1) + 1] == s[2 * k + 1];
        assert r[k] == rest[k - 1] == PairAt(s[2..], k - 1);
      }
    }
  }

  /**
   * Go's `hex.DecodeString`: succeeds exactly on an even-length string of
   * hex digits, and then yields one byte per digit pair.
   */
  function Decode(s: string): (r: Option<seq<byte>>)
    ensures r.Some? <==> |s| % 2 == 0 && AllHex(s)
    ensures r.Some? ==> |r.value| == |s| / 2
    ensures r.Some? ==> forall k :: 0 <= k < |r.value| ==> r.value[k] == PairAt(s, k)
    decreases |s|
  {
    if |s| == 0 then Some([])
    else if |s| == 1 then
      assert !(|s| % 2 == 0);
      None
    else
      AllHexSplit(s);
      if !IsHexDigit(s[0]) || !IsHexDigit(s[1]) then None
      else
        match Decode(s[2..])
        case None => None
        case Some(rest) =>
          PairsShift(s, rest);
          Some([PairAt(s, 0)] + rest)
  }

  /** Go's `hex.EncodeToString`: two lower-case digits per byte. */
  function Encode(bs: seq<byte>): (s: string)
    ensures |s| == 2 * |bs| && AllHex(s)
  {
    if |bs| == 0 then [] else [Digit(bs[0] / 16), Digit(bs[0] % 16)] + Encode(bs[1..])
  }

  /** Decoding an encoded key gives the key back. */
  lemma {:induction false} DecodeEncode(bs: seq<byte>)
    ensures Decode(Encode(bs)) == Some(bs)
  {
    if |bs| > 0 {
      var s := Encode(bs);
      assert s[2..] == Encode(bs[1..]);
      DecodeEncode(bs[1..]);
      assert DigitValue(s[0]) * 16 + DigitValue(s[1]) == bs[0];
      assert [bs[0]] + bs[1..] == bs;
    }
  }
}
