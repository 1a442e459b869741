/** The bearer check in front of `/ingest` (server/src/main.rs). */
module Auth {
  import opened Prelude
  import opened Hex

  /** "Bearer " in ASCII. */
  const BEARER: Bytes := [0x42, 0x65, 0x61, 0x72, 0x65, 0x72, 0x20]

  lemma DifferenceBit(diff: bv8, x: bv8, y: bv8)
    ensures diff | (x ^ y) == 0 <==> diff == 0 && x == y
  {
  }

  /** Byte comparison that looks at every position whatever it has seen: it answers equality. */
  method CtEq(a: Bytes, b: Bytes) returns (eq: bool)
    ensures eq <==> a == b
  {
    if |a| != |b| {
      return false;
    }
    var diff: bv8 := 0;
    for i := 0 to |a|
      invariant diff == 0 <==> a[..i] == b[..i]
    {
      DifferenceBit(diff, a[i], b[i]);
      assert a[..i + 1] == a[..i] + [a[i]] && b[..i + 1] == b[..i] + [b[i]];
      diff := diff | (a[i] ^ b[i]);
    }
    assert a[..|a|] == a && b[..|b|] == b;
    eq := diff == 0;
  }

  /** The header library only hands out header values made of visible ASCII and tabs. */
  predicate IsHeaderText(value: Bytes) {
    forall b <- value :: 0x20 <= b < 0x7f || b == 0x09
  }

  /** The bytes of an ASCII text. */
  function Ascii(text: string): Bytes
    requires forall c <- text :: c < '\U{80}'
  {
    seq(|text|, i requires 0 <= i < |text| => assert text[i] in text; text[i] as bv8)
  }

  /** The header is "Bearer " and the expected token, which is visible ASCII and tabs. */
  ghost predicate Authorizes(header: Option<Bytes>, expected: Bytes) {
    && header == Some(Ascii("Bearer ") + expected)
    && forall b <- expected :: b == 9 || 32 <= b <= 126
  }

  method BearerOk(header: Option<Bytes>, expected: Bytes) returns (ok: bool)
    ensures ok <==> Authorizes(header, expected)
  {
    assert Ascii("Bearer ") == BEARER;
    if header.None? || !IsHeaderText(header.value) || !(BEARER <= header.value) {
      if header == Some(BEARER + expected) {
        assert forall b :: b in BEARER + expected <==> b in BEARER || b in expected;
      }
      return false;
    }
    var token := header.value[|BEARER|..];
    assert header.value == BEARER + token;
    assert (BEARER + expected)[|BEARER|..] == expected;
    ok := CtEq(token, expected);
    if ok {
      assert forall b <- expected :: b in header.value;
    }
  }
}
