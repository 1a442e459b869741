/** Base16 text of raw bytes (section 8 of RFC 4648), as the verify pipeline writes it and
    as it compares it. */
module Hex {
  import opened Prelude

  type Bytes = seq<bv8>

  function LowerDigit(n: bv8): char
    requires n < 16
  {
    match n
    case 0 => '0' case 1 => '1' case 2 => '2' case 3 => '3'
    case 4 => '4' case 5 => '5' case 6 => '6' case 7 => '7'
    case 8 => '8' case 9 => '9' case 10 => 'a' case 11 => 'b'
    case 12 => 'c' case 13 => 'd' case 14 => 'e' case _ => 'f'
  }

  function UpperDigit(n: bv8): char
    requires n < 16
  {
    match n
    case 10 => 'A' case 11 => 'B' case 12 => 'C'
    case 13 => 'D' case 14 => 'E' case 15 => 'F'
    case _ => LowerDigit(n)
  }

  function LowerText(bytes: Bytes): string {
    if bytes == [] then ""
    else
      var b := bytes[|bytes| - 1];
      LowerText(bytes[..|bytes| - 1]) + [LowerDigit(b >> 4), LowerDigit(b & 0x0f)]
  }

  function UpperText(bytes: Bytes): string {
    if bytes == [] then ""
    else
      var b := bytes[|bytes| - 1];
      UpperText(bytes[..|bytes| - 1]) + [UpperDigit(b >> 4), UpperDigit(b & 0x0f)]
  }

  lemma LowerTextOneMore(bytes: Bytes, i: nat)
    requires i < |bytes|
    ensures LowerText(bytes[..i + 1]) ==
            LowerText(bytes[..i]) + [LowerDigit(bytes[i] >> 4)] + [LowerDigit(bytes[i] & 0x0f)]
  {
    assert bytes[..i + 1][..i] == bytes[..i];
  }

  method HexLower(bytes: Bytes) returns (s: string)
    ensures s == LowerText(bytes)
    ensures |s| == 2 * |bytes| && Decode(s) == Some(bytes)
    ensures forall c <- s :: c in "0123456789abcdef"
  {
    s := "";
    for i := 0 to |bytes|
      invariant s == LowerText(bytes[..i])
    {
      var b := bytes[i];
      s := s + [LowerDigit(b >> 4)];
      s := s + [LowerDigit(b & 0x0f)];
      LowerTextOneMore(bytes, i);
    }
    assert bytes[..|bytes|] == bytes;
    LowerTextDecodes(bytes);
    LowerTextIsLower(bytes);
  }

  lemma UpperTextOneMore(bytes: Bytes, i: nat)
    requires i < |bytes|
    ensures UpperText(bytes[..i + 1]) ==
            UpperText(bytes[..i]) + [UpperDigit(bytes[i] >> 4)] + [UpperDigit(bytes[i] & 0x0f)]
  {
    assert bytes[..i + 1][..i] == bytes[..i];
  }

  method HexUpper(bytes: Bytes) returns (s: string)
    ensures s == UpperText(bytes)
    ensures |s| == 2 * |bytes| && Decode(s) == Some(bytes)
    ensures forall c <- s :: c in "0123456789ABCDEF"
  {
    s := "";
    for i := 0 to |bytes|
      invariant s == UpperText(bytes[..i])
    {
      var b := bytes[i];
      s := s + [UpperDigit(b >> 4)];
      s := s + [UpperDigit(b & 0x0f)];
      UpperTextOneMore(bytes, i);
    }
    assert bytes[..|bytes|] == bytes;
    UpperTextDecodes(bytes);
    UpperTextIsUpper(bytes);
  }

  // ----- comparison -----

  function AsciiLower(c: char): char {
    if 'A' <= c <= 'Z' then c - 'A' + 'a' else c
  }

  predicate EqIgnoreAsciiCase(a: string, b: string) {
    |a| == |b| && forall i :: 0 <= i < |a| ==> AsciiLower(a[i]) == AsciiLower(b[i])
  }

  /** The same character, or a capital and its small letter 32 further on. */
  ghost predicate SameLetter(c: char, d: char) {
    || c == d
    || ('A' <= c <= 'Z' && d as int == c as int + 32)
    || ('A' <= d <= 'Z' && c as int == d as int + 32)
  }

  lemma IgnoresAsciiCaseIff(a: string, b: string)
    ensures EqIgnoreAsciiCase(a, b) <==> |a| == |b| && forall i :: 0 <= i < |a| ==> SameLetter(a[i], b[i])
  {
    forall c: char, d: char
      ensures AsciiLower(c) == AsciiLower(d) <==> SameLetter(c, d)
    {
    }
  }

  // ----- an independent reading of hex text: digits of either case, most significant first -----

  function Nibble(c: char): Option<bv8> {
    match c
    case '0' => Some(0) case '1' => Some(1) case '2' => Some(2) case '3' => Some(3)
    case '4' => Some(4) case '5' => Some(5) case '6' => Some(6) case '7' => Some(7)
    case '8' => Some(8) case '9' => Some(9)
    case 'a' => Some(10) case 'b' => Some(11) case 'c' => Some(12)
    case 'd' => Some(13) case 'e' => Some(14) case 'f' => Some(15)
    case 'A' => Some(10) case 'B' => Some(11) case 'C' => Some(12)
    case 'D' => Some(13) case 'E' => Some(14) case 'F' => Some(15)
    case _ => None
  }

  function DecodeByte(c: char, d: char): Option<bv8> {
    match (Nibble(c), Nibble(d))
    case (Some(hi), Some(lo)) => Some((hi << 4) | lo)
    case _ => None
  }

  function Decode(s: string): Option<Bytes> {
    if s == "" then Some([])
    else if |s| == 1 then None
    else
      match (Decode(s[..|s| - 2]), DecodeByte(s[|s| - 2], s[|s| - 1]))
      case (Some(bytes), Some(b)) => Some(bytes + [b])
      case _ => None
  }

  lemma DigitReadsAsNibble(n: bv8, c: char)
    requires n < 16
    ensures AsciiLower(c) == LowerDigit(n) ==> Nibble(c) == Some(n)
  {
  }

  lemma NibbleWritesAsDigit(c: char)
    ensures Nibble(c).Some? ==> Nibble(c).value < 16 && AsciiLower(c) == LowerDigit(Nibble(c).value)
  {
  }

  lemma UpperDigitIsDigit(n: bv8)
    requires n < 16
    ensures AsciiLower(UpperDigit(n)) == LowerDigit(n)
  {
  }

  lemma LowerDigitIsLower(n: bv8)
    requires n < 16
    ensures AsciiLower(LowerDigit(n)) == LowerDigit(n)
  {
  }

  lemma DigitOfNibble(n: bv8, c: char)
    requires n < 16
    ensures AsciiLower(c) == AsciiLower(LowerDigit(n)) <==> Nibble(c) == Some(n)
    ensures AsciiLower(UpperDigit(n)) == AsciiLower(LowerDigit(n))
  {
    DigitReadsAsNibble(n, c);
    NibbleWritesAsDigit(c);
    UpperDigitIsDigit(n);
    LowerDigitIsLower(n);
  }

  lemma NibblesOfByte(b: bv8, hi: bv8, lo: bv8)
    requires hi < 16 && lo < 16
    ensures (hi << 4) | lo == b <==> hi == b >> 4 && lo == b & 0x0f
  {
  }

  /** The comparison the pipeline runs, against its own lower-case text, accepts exactly the
      strings that decode, in either case, to the same bytes. */
  lemma {:induction false} MatchesLowerTextIffDecodes(bytes: Bytes, s: string)
    ensures EqIgnoreAsciiCase(LowerText(bytes), s) <==> Decode(s) == Some(bytes)
  {
    LowerTextLength(bytes);
    if bytes != [] && |s| == 2 * |bytes| {
      var b, init := bytes[|bytes| - 1], bytes[..|bytes| - 1];
      MatchesLowerTextIffDecodes(init, s[..|s| - 2]);
      LowerTextLength(init);
      LastTwoCompare(LowerText(bytes), s);
      assert LowerText(bytes)[..|s| - 2] == LowerText(init);
      MatchesByteIffDecodes(b, s[|s| - 2], s[|s| - 1]);
      DecodesLastByte(s, init, b);
      assert bytes == init + [b];
    } else {
      DecodedLength(s);
    }
  }

  lemma DecodesLastByte(s: string, init: Bytes, b: bv8)
    requires |s| >= 2
    ensures Decode(s) == Some(init + [b]) <==>
            Decode(s[..|s| - 2]) == Some(init) && DecodeByte(s[|s| - 2], s[|s| - 1]) == Some(b)
  {
    if Decode(s).Some? {
      var bytes := Decode(s).value;
      assert bytes[..|bytes| - 1] == Decode(s[..|s| - 2]).value;
      assert (init + [b])[..|init|] == init && (init + [b])[|init|] == b;
    }
  }

  lemma {:induction false} DecodedLength(s: string)
    ensures Decode(s).Some? ==> |s| == 2 * |Decode(s).value|
  {
    if |s| >= 2 {
      DecodedLength(s[..|s| - 2]);
    }
  }

  lemma MatchesByteIffDecodes(b: bv8, c: char, d: char)
    ensures AsciiLower(LowerDigit(b >> 4)) == AsciiLower(c)
            && AsciiLower(LowerDigit(b & 0x0f)) == AsciiLower(d)
            <==> DecodeByte(c, d) == Some(b)
  {
    DigitOfNibble(b >> 4, c);
    DigitOfNibble(b & 0x0f, d);
    NibbleWritesAsDigit(c);
    NibbleWritesAsDigit(d);
    if Nibble(c).Some? && Nibble(d).Some? {
      NibblesOfByte(b, Nibble(c).value, Nibble(d).value);
    }
  }

  lemma LastTwoCompare(a: string, b: string)
    requires |a| == |b| >= 2
    ensures EqIgnoreAsciiCase(a, b) <==>
            EqIgnoreAsciiCase(a[..|a| - 2], b[..|b| - 2])
            && AsciiLower(a[|a| - 2]) == AsciiLower(b[|b| - 2])
            && AsciiLower(a[|a| - 1]) == AsciiLower(b[|b| - 1])
  {
    if EqIgnoreAsciiCase(a[..|a| - 2], b[..|b| - 2]) {
      forall i | 0 <= i < |a| - 2
        ensures AsciiLower(a[i]) == AsciiLower(b[i])
      {
        assert a[i] == a[..|a| - 2][i] && b[i] == b[..|b| - 2][i];
      }
    }
  }

  lemma {:induction false} LowerTextLength(bytes: Bytes)
    ensures |LowerText(bytes)| == 2 * |bytes|
  {
    if bytes != [] {
      LowerTextLength(bytes[..|bytes| - 1]);
    }
  }

  lemma LowerTextDecodes(bytes: Bytes)
    ensures |LowerText(bytes)| == 2 * |bytes|
    ensures Decode(LowerText(bytes)) == Some(bytes)
  {
    LowerTextLength(bytes);
    MatchesLowerTextIffDecodes(bytes, LowerText(bytes));
  }

  /** Upper-case text of some bytes compares equal to their lower-case text. */
  lemma {:induction false} CasesCompareEqual(bytes: Bytes)
    ensures EqIgnoreAsciiCase(LowerText(bytes), UpperText(bytes))
  {
    if bytes != [] {
      var b := bytes[|bytes| - 1];
      CasesCompareEqual(bytes[..|bytes| - 1]);
      DigitOfNibble(b >> 4, '0');
      DigitOfNibble(b & 0x0f, '0');
    }
  }

  lemma UpperTextDecodes(bytes: Bytes)
    ensures |UpperText(bytes)| == 2 * |bytes|
    ensures Decode(UpperText(bytes)) == Some(bytes)
  {
    LowerTextLength(bytes);
    CasesCompareEqual(bytes);
    MatchesLowerTextIffDecodes(bytes, UpperText(bytes));
  }

  lemma {:induction false} LowerTextIsLower(bytes: Bytes)
    ensures forall c <- LowerText(bytes) :: c in "0123456789abcdef"
  {
    if bytes != [] {
      LowerTextIsLower(bytes[..|bytes| - 1]);
    }
  }

  lemma {:induction false} UpperTextIsUpper(bytes: Bytes)
    ensures forall c <- UpperText(bytes) :: c in "0123456789ABCDEF"
  {
    if bytes != [] {
      UpperTextIsUpper(bytes[..|bytes| - 1]);
    }
  }
}
