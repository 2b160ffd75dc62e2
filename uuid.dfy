/**
 * UUID text handling of UPnPDevice: `isValidUUID` (the 8-4-4-4-12 hex layout)
 * and `generateUUID`, which forces the version-4 and DCE-variant bits of 16
 * bytes (section 4.4 of RFC 4122; version field in section 4.1.3, variant in
 * section 4.1.1) and prints them as lower-case hex. The 16 bytes come from the
 * random source, which stays outside the model: they are a parameter here.
 */
module Uuid {
  import opened Text

  const UUID_SIZE: nat := 37
  const UUID_LENGTH: nat := UUID_SIZE - 1

  predicate IsHyphenPosition(i: int) { i == 8 || i == 13 || i == 18 || i == 23 }

  /** Specification of `isValidUUID`: 36 characters, '-' at 8, 13, 18, 23, hex digits (either case) elsewhere. */
  predicate IsValidUuid(s: string) {
    |s| == UUID_LENGTH &&
    forall i :: 0 <= i < |s| ==> if IsHyphenPosition(i) then s[i] == '-' else IsHexDigit(s[i])
  }

  /** `isValidUUID`: length check, then a scan that returns false at the first bad character. */
  method CheckUuid(s: string) returns (ok: bool)
    ensures ok <==> IsValidUuid(s)
  {
    if |s| != UUID_LENGTH { return false; }
    var i := 0;
    while i < UUID_LENGTH
      invariant 0 <= i <= UUID_LENGTH
      invariant forall k :: 0 <= k < i ==> if IsHyphenPosition(k) then s[k] == '-' else IsHexDigit(s[k])
    {
      if IsHyphenPosition(i) {
        if s[i] != '-' { return false; }
      } else if !IsHexDigit(s[i]) {
        return false;
      }
      i := i + 1;
    }
    return true;
  }

  /** "%02x" of one byte. */
  function HexByte(b: bv8): string {
    [HexChar(b as int / 16), HexChar(b as int % 16)]
  }

  /** Consecutive "%02x" conversions. */
  function Hex(bs: seq<bv8>): string {
    if bs == [] then [] else HexByte(bs[0]) + Hex(bs[1..])
  }

  lemma {:induction false} HexLength(bs: seq<bv8>)
    ensures |Hex(bs)| == 2 * |bs|
  {
    if bs != [] { HexLength(bs[1..]); }
  }

  /** Character k of Hex(bs) is the high nibble of byte k/2 when k is even, the low nibble otherwise. */
  lemma {:induction false} HexAt(bs: seq<bv8>)
    ensures |Hex(bs)| == 2 * |bs|
    ensures forall k :: 0 <= k < 2 * |bs| ==>
      Hex(bs)[k] == HexChar(if k % 2 == 0 then bs[k / 2] as int / 16 else bs[k / 2] as int % 16)
  {
    if bs != [] {
      HexAt(bs[1..]);
      forall k | 2 <= k < 2 * |bs|
        ensures Hex(bs)[k] == HexChar(if k % 2 == 0 then bs[k / 2] as int / 16 else bs[k / 2] as int % 16)
      {
        assert Hex(bs)[k] == Hex(bs[1..])[k - 2];
        assert bs[1..][(k - 2) / 2] == bs[k / 2];
      }
    }
  }

  /** The sprintf layout xxxxxxxx-xxxx-xxxx-xxxx-xxxxxxxxxxxx over 16 bytes. */
  function FormatUuid(b: seq<bv8>): string
    requires |b| == 16
  {
    Hex(b[..4]) + "-" + Hex(b[4..6]) + "-" + Hex(b[6..8]) + "-" + Hex(b[8..10]) + "-" + Hex(b[10..])
  }

  /** Version nibble 4 in byte 6, variant bits 10 in byte 8. */
  function MaskVersionAndVariant(b: seq<bv8>): (m: seq<bv8>)
    requires |b| == 16
    ensures |m| == 16
    ensures forall k :: 0 <= k < 16 && k != 6 && k != 8 ==> m[k] == b[k]
  {
    b[6 := (b[6] & 0x0F) | 0x40][8 := (b[8] & 0x3F) | 0x80]
  }

  lemma MaskedNibbles(x: bv8)
    ensures ((x & 0x0F) | 0x40) as int / 16 == 4
    ensures 8 <= ((x & 0x3F) | 0x80) as int / 16 <= 11
  {
    assert 0x40 <= (x & 0x0F) | 0x40 <= 0x4F;
    assert 0x80 <= (x & 0x3F) | 0x80 <= 0xBF;
  }

  /** `generateUUID` with the random bytes given. */
  function GenerateUuid(bytes: seq<bv8>): string
    requires |bytes| == 16
  {
    FormatUuid(MaskVersionAndVariant(bytes))
  }

  /** Every character of a formatted UUID: hyphens at the four positions, and at
      every other position i the lower-case hex digit of nibble Nibble(i). */
  function NibbleIndex(i: nat): nat {
    if i < 8 then i else if i < 13 then i - 1 else if i < 18 then i - 2 else if i < 23 then i - 3 else i - 4
  }

  function NibbleChar(b: seq<bv8>, n: nat): char
    requires n < 2 * |b|
  {
    HexChar(if n % 2 == 0 then b[n / 2] as int / 16 else b[n / 2] as int % 16)
  }

  /** Character i of the hex piece starting at byte `from`, placed at offset `at` of the text. */
  lemma PieceAt(b: seq<bv8>, from: nat, to: nat, pre: string, post: string, i: nat)
    requires from <= to <= |b| && |pre| <= i < |pre| + 2 * (to - from)
    ensures |Hex(b[from..to])| == 2 * (to - from)
    ensures (pre + Hex(b[from..to]) + post)[i] == NibbleChar(b, 2 * from + i - |pre|)
  {
    HexAt(b[from..to]);
    var k := i - |pre|;
    assert (pre + Hex(b[from..to]) + post)[i] == Hex(b[from..to])[k];
    assert b[from..to][k / 2] == b[from + k / 2];
    assert (2 * from + k) / 2 == from + k / 2 && (2 * from + k) % 2 == k % 2;
  }

  /* The characters of FormatUuid, one hex piece at a time. */

  lemma FirstPieceAt(b: seq<bv8>, i: nat)
    requires |b| == 16 && i < 8
    ensures i < |FormatUuid(b)| && FormatUuid(b)[i] == NibbleChar(b, NibbleIndex(i))
  {
    var h0, h1, h2, h3, h4 := Hex(b[..4]), Hex(b[4..6]), Hex(b[6..8]), Hex(b[8..10]), Hex(b[10..]);
    HexLength(b[..4]);
    assert b[..4] == b[0..4];
    PieceAt(b, 0, 4, [], "-" + h1 + "-" + h2 + "-" + h3 + "-" + h4, i);
    assert FormatUuid(b) == [] + h0 + ("-" + h1 + "-" + h2 + "-" + h3 + "-" + h4);
  }

  lemma SecondPieceAt(b: seq<bv8>, i: nat)
    requires |b| == 16 && 9 <= i < 13
    ensures i < |FormatUuid(b)| && FormatUuid(b)[i] == NibbleChar(b, NibbleIndex(i))
  {
    var h0, h1, h2, h3, h4 := Hex(b[..4]), Hex(b[4..6]), Hex(b[6..8]), Hex(b[8..10]), Hex(b[10..]);
    HexLength(b[..4]); HexLength(b[4..6]);
    PieceAt(b, 4, 6, h0 + "-", "-" + h2 + "-" + h3 + "-" + h4, i);
    assert FormatUuid(b) == (h0 + "-") + h1 + ("-" + h2 + "-" + h3 + "-" + h4);
  }

  lemma ThirdPieceAt(b: seq<bv8>, i: nat)
    requires |b| == 16 && 14 <= i < 18
    ensures i < |FormatUuid(b)| && FormatUuid(b)[i] == NibbleChar(b, NibbleIndex(i))
  {
    var h0, h1, h2, h3, h4 := Hex(b[..4]), Hex(b[4..6]), Hex(b[6..8]), Hex(b[8..10]), Hex(b[10..]);
    HexLength(b[..4]); HexLength(b[4..6]); HexLength(b[6..8]);
    PieceAt(b, 6, 8, h0 + "-" + h1 + "-", "-" + h3 + "-" + h4, i);
    assert FormatUuid(b) == (h0 + "-" + h1 + "-") + h2 + ("-" + h3 + "-" + h4);
  }

  lemma FourthPieceAt(b: seq<bv8>, i: nat)
    requires |b| == 16 && 19 <= i < 23
    ensures i < |FormatUuid(b)| && FormatUuid(b)[i] == NibbleChar(b, NibbleIndex(i))
  {
    var h0, h1, h2, h3, h4 := Hex(b[..4]), Hex(b[4..6]), Hex(b[6..8]), Hex(b[8..10]), Hex(b[10..]);
    HexLength(b[..4]); HexLength(b[4..6]); HexLength(b[6..8]); HexLength(b[8..10]);
    PieceAt(b, 8, 10, h0 + "-" + h1 + "-" + h2 + "-", "-" + h4, i);
    assert FormatUuid(b) == (h0 + "-" + h1 + "-" + h2 + "-") + h3 + ("-" + h4);
  }

  lemma FifthPieceAt(b: seq<bv8>, i: nat)
    requires |b| == 16 && 24 <= i < 36
    ensures i < |FormatUuid(b)| && FormatUuid(b)[i] == NibbleChar(b, NibbleIndex(i))
  {
    var h0, h1, h2, h3, h4 := Hex(b[..4]), Hex(b[4..6]), Hex(b[6..8]), Hex(b[8..10]), Hex(b[10..]);
    HexLength(b[..4]); HexLength(b[4..6]); HexLength(b[6..8]); HexLength(b[8..10]); HexLength(b[10..]);
    assert b[10..] == b[10..16];
    PieceAt(b, 10, 16, h0 + "-" + h1 + "-" + h2 + "-" + h3 + "-", [], i);
    assert FormatUuid(b) == (h0 + "-" + h1 + "-" + h2 + "-" + h3 + "-") + h4 + [];
  }

  lemma HyphensAt(b: seq<bv8>)
    requires |b| == 16
    ensures |FormatUuid(b)| == UUID_LENGTH
    ensures FormatUuid(b)[8] == '-' && FormatUuid(b)[13] == '-'
    ensures FormatUuid(b)[18] == '-' && FormatUuid(b)[23] == '-'
  {
    var h0, h1, h2, h3, h4 := Hex(b[..4]), Hex(b[4..6]), Hex(b[6..8]), Hex(b[8..10]), Hex(b[10..]);
    HexLength(b[..4]); HexLength(b[4..6]); HexLength(b[6..8]); HexLength(b[8..10]); HexLength(b[10..]);
    assert FormatUuid(b) == (h0 + "-" + h1 + "-" + h2 + "-" + h3 + "-") + h4;
  }

  lemma FormatUuidAt(b: seq<bv8>, i: nat)
    requires |b| == 16 && i < UUID_LENGTH
    ensures |FormatUuid(b)| == UUID_LENGTH
    ensures IsHyphenPosition(i) ==> FormatUuid(b)[i] == '-'
    ensures !IsHyphenPosition(i) ==> FormatUuid(b)[i] == NibbleChar(b, NibbleIndex(i))
  {
    HyphensAt(b);
    if i < 8 {
      FirstPieceAt(b, i);
    } else if 8 < i < 13 {
      SecondPieceAt(b, i);
    } else if 13 < i < 18 {
      ThirdPieceAt(b, i);
    } else if 18 < i < 23 {
      FourthPieceAt(b, i);
    } else if 23 < i {
      FifthPieceAt(b, i);
    }
  }

  /** Every position of a generated UUID holds a hyphen or a lower-case hex digit,
      as its layout demands. */
  lemma GeneratedUuidShape(bytes: seq<bv8>)
    requires |bytes| == 16
    ensures |GenerateUuid(bytes)| == UUID_LENGTH
    ensures forall i :: 0 <= i < UUID_LENGTH ==>
      (if IsHyphenPosition(i) then GenerateUuid(bytes)[i] == '-' else IsHexDigit(GenerateUuid(bytes)[i]))
    ensures forall i :: 0 <= i < UUID_LENGTH ==> !('A' <= GenerateUuid(bytes)[i] <= 'Z')
  {
    var m := MaskVersionAndVariant(bytes);
    var s := GenerateUuid(bytes);
    HyphensAt(m);
    forall i | 0 <= i < UUID_LENGTH
      ensures if IsHyphenPosition(i) then s[i] == '-' else IsHexDigit(s[i])
      ensures !('A' <= s[i] <= 'Z')
    {
      FormatUuidAt(m, i);
    }
  }

  /** The version digit, position 14, is the high nibble of byte 6. */
  lemma VersionDigit(bytes: seq<bv8>)
    requires |bytes| == 16
    ensures |GenerateUuid(bytes)| == UUID_LENGTH && GenerateUuid(bytes)[14] == '4'
  {
    var m := MaskVersionAndVariant(bytes);
    FormatUuidAt(m, 14);
    MaskedNibbles(bytes[6]);
    assert m[6] as int / 16 == 4;
  }

  /** The variant digit, position 19, is the high nibble of byte 8. */
  lemma VariantDigit(bytes: seq<bv8>)
    requires |bytes| == 16
    ensures |GenerateUuid(bytes)| == UUID_LENGTH && GenerateUuid(bytes)[19] in "89ab"
  {
    var m := MaskVersionAndVariant(bytes);
    FormatUuidAt(m, 19);
    MaskedNibbles(bytes[8]);
    var v := m[8] as int / 16;
    assert 8 <= v <= 11;
    assert GenerateUuid(bytes)[19] == HexChar(v);
  }

  /** What generateUUID promises: a valid UUID, all lower case, version digit '4' at
      position 14 and a variant digit in {8, 9, a, b} at position 19. */
  lemma GeneratedUuidIsValid(bytes: seq<bv8>)
    requires |bytes| == 16
    ensures IsValidUuid(GenerateUuid(bytes))
    ensures forall i :: 0 <= i < UUID_LENGTH ==> !('A' <= GenerateUuid(bytes)[i] <= 'Z')
    ensures GenerateUuid(bytes)[14] == '4'
    ensures GenerateUuid(bytes)[19] in "89ab"
  {
    GeneratedUuidShape(bytes);
    VersionDigit(bytes);
    VariantDigit(bytes);
  }
}
