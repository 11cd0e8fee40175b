/**
 * The two id codecs of scaffold.ts and the byte loop that builds profile and organization ids in the
 * subgraph, over UTF-16 code units.
 */
module Codec {
  import opened Text

  // ----- the library functions the codecs call -----

  /** `StrWhiteSpaceChar` of the ECMAScript numeric-string grammar. */
  predicate IsSpace(c: CodeUnit)
  {
    || 0x09 <= c <= 0x0D || c == 0x20 || c == 0xA0 || c == 0x1680 || 0x2000 <= c <= 0x200A
    || c == 0x2028 || c == 0x2029 || c == 0x202F || c == 0x205F || c == 0x3000 || c == 0xFEFF
  }

  function HexValue(c: CodeUnit): Option<nat>
  {
    if 0x30 <= c <= 0x39 then Some(c - 0x30)
    else if 0x41 <= c <= 0x46 then Some(c - 0x37)
    else if 0x61 <= c <= 0x66 then Some(c - 0x57)
    else None
  }

  function SkipSpace(s: JsString): JsString
  {
    if s != [] && IsSpace(s[0]) then SkipSpace(s[1..]) else s
  }

  /** The value of the longest prefix of hexadecimal digits, continuing from `acc`; None if there is none. */
  function Digits(s: JsString, acc: Option<nat>): Option<nat>
  {
    if s == [] || HexValue(s[0]).None? then acc
    else Digits(s[1..], Some((if acc.Some? then acc.value else 0) * 16 + HexValue(s[0]).value))
  }

  /** `parseInt(s, 16)`, None standing for NaN. */
  function ParseInt16(s: JsString): Option<int>
  {
    var t := SkipSpace(s);
    var negative := t != [] && t[0] == 0x2D;
    var u := if t != [] && (t[0] == 0x2D || t[0] == 0x2B) then t[1..] else t;
    var v := if |u| >= 2 && u[0] == 0x30 && (u[1] == 0x78 || u[1] == 0x58) then u[2..] else u;
    var n := Digits(v, None);
    if n.None? then None else
      var value: int := n.value;
      Some(if negative then -value else value)
  }

  /** `String.fromCharCode`, which takes its argument modulo 2^16 and NaN as 0. */
  function FromCharCode(n: Option<int>): CodeUnit
  {
    if n.None? then 0 else n.value % 0x1_0000
  }

  /** `toString(16)` of a code unit. */
  function ToString16(n: nat): JsString
  {
    if n < 16 then [HexDigit(n)] else ToString16(n / 16) + [HexDigit(n % 16)]
  }

  /** `toString(16).padStart(2, '0')`. */
  function PaddedHex(n: nat): JsString
  {
    if |ToString16(n)| < 2 then [0x30] + ToString16(n) else ToString16(n)
  }

  // ----- the codecs as functions -----

  function Strip(h: JsString): JsString
  {
    if HEX_PREFIX <= h then h[2..] else h
  }

  function DecodePairs(hex: JsString): JsString
  {
    if |hex| < 2 then [] else [FromCharCode(ParseInt16(hex[..2]))] + DecodePairs(hex[2..])
  }

  function Decode(h: JsString): JsString
  {
    if |Strip(h)| != 16 then h else DecodePairs(Strip(h))
  }

  function EncodeUnits(s: JsString): JsString
  {
    if s == [] then [] else PaddedHex(s[0]) + EncodeUnits(s[1..])
  }

  function Encode(s: JsString): JsString
  {
    if |s| != 8 then s else HEX_PREFIX + EncodeUnits(s)
  }

  // ----- the loops -----

  lemma DecodeStep(hex: JsString, i: nat, done: JsString)
    requires i + 2 <= |hex|
    ensures done + DecodePairs(hex[i..]) ==
            done + [FromCharCode(ParseInt16(hex[i..i + 2]))] + DecodePairs(hex[i + 2..])
  {
    var tail := hex[i..];
    assert tail[..2] == hex[i..i + 2] && tail[2..] == hex[i + 2..];
    assert DecodePairs(tail) == [FromCharCode(ParseInt16(tail[..2]))] + DecodePairs(tail[2..]);
  }

  lemma EncodeStep(s: JsString, i: nat, done: JsString)
    requires i < |s|
    ensures done + EncodeUnits(s[i..]) == done + PaddedHex(s[i]) + EncodeUnits(s[i + 1..])
  {
    var tail := s[i..];
    assert tail[1..] == s[i + 1..];
    assert EncodeUnits(tail) == PaddedHex(tail[0]) + EncodeUnits(tail[1..]);
  }

  method Bytes8ToAlphanumericString(bytes8Hex: JsString) returns (r: JsString)
    ensures r == Decode(bytes8Hex)
  {
    var hex := if HEX_PREFIX <= bytes8Hex then bytes8Hex[2..] else bytes8Hex;
    if |hex| != 16 {
      return bytes8Hex;
    }
    var result: JsString := [];
    var i := 0;
    while i < 16
      invariant 0 <= i <= 16 && i % 2 == 0
      invariant result + DecodePairs(hex[i..]) == DecodePairs(hex)
    {
      DecodeStep(hex, i, result);
      var byte := ParseInt16(hex[i..i + 2]);
      result := result + [FromCharCode(byte)];
      i := i + 2;
    }
    return result;
  }

  method AlphanumericStringToBytes8(alphanumericId: JsString) returns (r: JsString)
    ensures r == Encode(alphanumericId)
  {
    if |alphanumericId| != 8 {
      return alphanumericId;
    }
    var hex: JsString := [];
    var i := 0;
    while i < 8
      invariant 0 <= i <= 8
      invariant hex + EncodeUnits(alphanumericId[i..]) == EncodeUnits(alphanumericId)
    {
      EncodeStep(alphanumericId, i, hex);
      hex := hex + PaddedHex(alphanumericId[i]);
      i := i + 1;
    }
    return HEX_PREFIX + hex;
  }

  /** `getProfileIdString` and `getOrganizationIdString`. */
  method ByteLoop(bytes8: Bytes8) returns (result: JsString)
    ensures result == IdString(bytes8)
    ensures |result| == 8 && forall i :: 0 <= i < 8 ==> result[i] == bytes8[i]
    ensures result == Decode(ToHex(bytes8))
  {
    result := [];
    var i := 0;
    while i < 8
      invariant 0 <= i <= 8
      invariant result == bytes8[..i]
    {
      result := result + [FromCharCode(Some(bytes8[i]))];
      i := i + 1;
    }
    assert bytes8[..8] == bytes8;
    ByteLoopAgrees(bytes8);
  }

  // ----- what one codec undoes of the other -----

  lemma TwoDigits(n: Byte)
    ensures PaddedHex(n) == [HexDigit(n / 16), HexDigit(n % 16)]
  {
    if n < 16 {
      assert n / 16 == 0 && n % 16 == n;
    } else {
      assert ToString16(n / 16) == [HexDigit(n / 16)];
    }
  }

  lemma HexDigitValue(n: nat)
    requires n < 16
    ensures HexValue(HexDigit(n)) == Some(n) && !IsSpace(HexDigit(n))
    ensures HexDigit(n) !in {0x2D, 0x2B, 0x78, 0x58}
  {
  }

  lemma DigitsOfTwo(a: CodeUnit, b: CodeUnit)
    requires HexValue(a).Some? && HexValue(b).Some?
    ensures Digits([a, b], None) == Some(HexValue(a).value * 16 + HexValue(b).value)
  {
    var high := Some(HexValue(a).value);
    assert [a, b][1..] == [b] && [b][1..] == [];
    assert Digits([a, b], None) == Digits([b], high);
    assert Digits([b], high) == Digits([], Some(high.value * 16 + HexValue(b).value));
  }

  lemma ParseTwoDigits(m: nat, n: nat)
    requires m < 16 && n < 16
    ensures ParseInt16([HexDigit(m), HexDigit(n)]) == Some(m * 16 + n)
  {
    HexDigitValue(m);
    HexDigitValue(n);
    DigitsOfTwo(HexDigit(m), HexDigit(n));
  }

  lemma {:induction false} DecodePairsLength(hex: JsString)
    ensures |DecodePairs(hex)| == |hex| / 2
  {
    if |hex| >= 2 {
      DecodePairsLength(hex[2..]);
    }
  }

  lemma {:induction false} ToString16Shape(n: nat)
    ensures LowerHex(ToString16(n)) && |ToString16(n)| >= 1
    ensures |ToString16(n)| <= 2 <==> n < 0x100
  {
    if n >= 16 {
      ToString16Shape(n / 16);
      if n / 16 < 16 {
        assert |ToString16(n / 16)| == 1;
      } else {
        assert ToString16(n / 16) == ToString16(n / 16 / 16) + [HexDigit(n / 16 % 16)];
        ToString16Shape(n / 16 / 16);
      }
    }
  }

  ghost predicate AllBytes(s: JsString)
  {
    forall i :: 0 <= i < |s| ==> s[i] < 0x100
  }

  lemma {:induction false} EncodeUnitsShape(s: JsString)
    ensures LowerHex(EncodeUnits(s)) && |EncodeUnits(s)| >= 2 * |s|
    ensures |EncodeUnits(s)| == 2 * |s| <==> AllBytes(s)
  {
    if s != [] {
      ToString16Shape(s[0]);
      EncodeUnitsShape(s[1..]);
      assert AllBytes(s) <==> s[0] < 0x100 && AllBytes(s[1..]);
    }
  }

  lemma DecodeEncodedUnit(c: Byte)
    ensures |PaddedHex(c)| == 2 && FromCharCode(ParseInt16(PaddedHex(c))) == c
  {
    TwoDigits(c);
    ParseTwoDigits(c / 16, c % 16);
  }

  lemma {:induction false} DecodeEncodedUnits(s: JsString)
    requires AllBytes(s)
    ensures DecodePairs(EncodeUnits(s)) == s
  {
    if s != [] {
      DecodeEncodedUnits(s[1..]);
      DecodeEncodedUnit(s[0]);
      var hex := EncodeUnits(s);
      assert hex[..2] == PaddedHex(s[0]) && hex[2..] == EncodeUnits(s[1..]);
      assert s == [s[0]] + s[1..];
    }
  }

  lemma LowerDigit(c: CodeUnit) returns (n: nat)
    requires 0x30 <= c <= 0x39 || 0x61 <= c <= 0x66
    ensures n < 16 && HexDigit(n) == c
  {
    n := if c <= 0x39 then c - 0x30 else c - 0x57;
  }

  lemma EncodeDecodedPair(pair: JsString)
    requires |pair| == 2 && LowerHex(pair)
    ensures PaddedHex(FromCharCode(ParseInt16(pair))) == pair
  {
    var m := LowerDigit(pair[0]);
    var n := LowerDigit(pair[1]);
    ParseTwoDigits(m, n);
    TwoDigits(m * 16 + n);
    assert pair == [HexDigit(m), HexDigit(n)];
  }

  lemma {:induction false} EncodeDecodedPairs(hex: JsString)
    requires LowerHex(hex) && |hex| % 2 == 0
    ensures EncodeUnits(DecodePairs(hex)) == hex
  {
    if hex != [] {
      EncodeDecodedPair(hex[..2]);
      EncodeDecodedPairs(hex[2..]);
      var units := DecodePairs(hex);
      assert units[1..] == DecodePairs(hex[2..]);
      assert hex == hex[..2] + hex[2..];
    }
  }

  /** A hexadecimal digit in either case. */
  ghost predicate IsAnyHexDigit(c: CodeUnit, n: nat)
  {
    IsHexDigit(c, n) || (10 <= n < 16 && c == 0x41 + n - 10)
  }

  lemma ParsePair(a: CodeUnit, b: CodeUnit, m: nat, n: nat)
    requires IsAnyHexDigit(a, m) && IsAnyHexDigit(b, n)
    ensures ParseInt16([a, b]) == Some(16 * m + n)
  {
    assert HexValue(a) == Some(m) && HexValue(b) == Some(n);
    DigitsOfTwo(a, b);
  }

  lemma {:induction false} DecodePairsAt(hex: JsString, i: nat, m: nat, n: nat)
    requires 2 * i + 1 < |hex| && IsAnyHexDigit(hex[2 * i], m) && IsAnyHexDigit(hex[2 * i + 1], n)
    ensures i < |DecodePairs(hex)| && DecodePairs(hex)[i] == 16 * m + n
  {
    if i == 0 {
      assert hex[..2] == [hex[0], hex[1]];
      ParsePair(hex[0], hex[1], m, n);
    } else {
      assert hex[2..][2 * (i - 1)] == hex[2 * i] && hex[2..][2 * (i - 1) + 1] == hex[2 * i + 1];
      DecodePairsAt(hex[2..], i - 1, m, n);
    }
  }

  /** Of sixteen digits, with or without 0x before them, the decoder makes eight units; unit `i` has the value of digits
      `2i` and `2i + 1`. */
  lemma DecodeAt(h: JsString, i: nat, m: nat, n: nat)
    requires i < 8 && (|h| == 16 || |h| == 18) && (|h| == 18 <==> h[..2] == [0x30, 0x78])
    requires var start := |h| - 16; IsAnyHexDigit(h[start + 2 * i], m) && IsAnyHexDigit(h[start + 2 * i + 1], n)
    ensures |Decode(h)| == 8 && Decode(h)[i] == 16 * m + n
  {
    var hex := h[|h| - 16..];
    assert HEX_PREFIX <= h <==> h[..2] == [0x30, 0x78];
    assert Strip(h) == hex;
    DecodePairsLength(hex);
    DecodePairsAt(hex, i, m, n);
  }

  lemma UnitDigits(c: Byte)
    ensures var pair := PaddedHex(c); |pair| == 2 && IsHexDigit(pair[0], c / 16) && IsHexDigit(pair[1], c % 16)
  {
    TwoDigits(c);
  }

  lemma BehindPair(pair: JsString, rest: JsString, k: nat)
    requires |pair| == 2 && k < |rest|
    ensures (pair + rest)[k + 2] == rest[k]
  {
  }

  lemma {:induction false} EncodeUnitsAt(s: JsString, i: nat)
    requires AllBytes(s) && i < |s|
    ensures |EncodeUnits(s)| == 2 * |s|
    ensures IsHexDigit(EncodeUnits(s)[2 * i], s[i] / 16) && IsHexDigit(EncodeUnits(s)[2 * i + 1], s[i] % 16)
  {
    var pair, rest := PaddedHex(s[0]), EncodeUnits(s[1..]);
    EncodeUnitsShape(s);
    UnitDigits(s[0]);
    assert EncodeUnits(s) == pair + rest;
    if i > 0 {
      EncodeUnitsAt(s[1..], i - 1);
      BehindPair(pair, rest, 2 * (i - 1));
      BehindPair(pair, rest, 2 * (i - 1) + 1);
    }
  }

  /** Of eight units at most 255 the encoder makes 0x and, unit by unit, the high digit before the low one. */
  lemma EncodeAt(s: JsString, i: nat)
    requires |s| == 8 && AllBytes(s) && i < 8
    ensures |Encode(s)| == 18 && Encode(s)[0] == 0x30 && Encode(s)[1] == 0x78
    ensures IsHexDigit(Encode(s)[2 + 2 * i], s[i] / 16) && IsHexDigit(Encode(s)[3 + 2 * i], s[i] % 16)
  {
    EncodeUnitsAt(s, i);
    PrefixedAt(EncodeUnits(s), 2 * i);
    PrefixedAt(EncodeUnits(s), 2 * i + 1);
  }

  lemma PrefixedAt(hex: JsString, k: nat)
    requires k < |hex|
    ensures var s := HEX_PREFIX + hex; |s| == 2 + |hex| && s[0] == 0x30 && s[1] == 0x78 && s[2 + k] == hex[k]
  {
  }

  /** Encoding then decoding returns the text exactly when it has eight units all at most 255, or, not having eight
      units and so passing the encoder unchanged, is not taken for hexadecimal by the decoder. */
  lemma DecodeEncodeIff(s: JsString)
    ensures Decode(Encode(s)) == s <==> (if |s| == 8 then AllBytes(s) else |Strip(s)| != 16)
  {
    if |s| == 8 {
      EncodeUnitsShape(s);
      assert Strip(Encode(s)) == EncodeUnits(s);
      if AllBytes(s) {
        DecodeEncodedUnits(s);
      }
    } else {
      DecodePairsLength(Strip(s));
    }
  }

  /** Decoding then encoding returns the id exactly when it is 0x and sixteen lower-case digits, or, not having
      sixteen digits and so passing the decoder unchanged, is not taken for an eight-unit text by the encoder. */
  lemma EncodeDecodeIff(h: JsString)
    ensures Encode(Decode(h)) == h <==> (if |Strip(h)| == 16 then HEX_PREFIX <= h && LowerHex(Strip(h)) else |h| != 8)
  {
    if |Strip(h)| == 16 {
      DecodePairsLength(Strip(h));
      EncodeUnitsShape(DecodePairs(Strip(h)));
      if HEX_PREFIX <= h && LowerHex(Strip(h)) {
        EncodeDecodedPairs(Strip(h));
        assert h == HEX_PREFIX + Strip(h);
      }
      if Encode(Decode(h)) == h {
        assert Strip(h) == EncodeUnits(DecodePairs(Strip(h)));
      }
    } else {
      EncodeUnitsShape(h);
    }
  }

  lemma {:induction false} HexPairsAreUnits(b: Bytes)
    ensures HexPairs(b) == EncodeUnits(b)
  {
    if b != [] {
      TwoDigits(b[0]);
      HexPairsAreUnits(b[1..]);
    }
  }

  /** The subgraph's byte loop is the decoder on `toHex`, and the encoder leads back: ids never collide. */
  lemma ByteLoopAgrees(b: Bytes8)
    ensures Decode(ToHex(b)) == IdString(b) && Encode(IdString(b)) == ToHex(b)
  {
    HexPairsAreUnits(b);
    HexPairsShape(b);
    assert Strip(ToHex(b)) == HexPairs(b);
    DecodeEncodedUnits(b);
  }
}
