/** Slicing the raw Intel TDX quote out of the certificate extension that carries it. */
module Quote {
  import opened Prelude
  import opened Hex

  const TDX_QUOTE_MAGIC: Bytes := [0x04, 0x00, 0x02, 0x00]
  const MIN_QUOTE_LEN: nat := 1000

  datatype ExtractError = MagicNotFound | TooShort(length: nat)

  function ExtractQuote(blob: Bytes): Result<Bytes, ExtractError> {
    match Find(TDX_QUOTE_MAGIC, blob)
    case None => Err(MagicNotFound)
    case Some(pos) =>
      var quote := blob[pos..];
      if |quote| < MIN_QUOTE_LEN then Err(TooShort(|quote|)) else Ok(quote)
  }

  /** `quote` is a suffix of `blob` that starts with the magic. */
  ghost predicate IsQuoteSuffix(blob: Bytes, quote: Bytes) {
    |quote| <= |blob| && blob[|blob| - |quote|..] == quote && [0x04, 0x00, 0x02, 0x00] <= quote
  }

  /** `quote` is the longest such suffix, and long enough to be a quote. */
  ghost predicate IsEmbeddedQuote(blob: Bytes, quote: Bytes) {
    && IsQuoteSuffix(blob, quote) && |quote| >= 1000
    && forall k :: 0 <= k <= |blob| && IsQuoteSuffix(blob, blob[k..]) ==> |blob[k..]| <= |quote|
  }

  lemma SuffixIsOccurrence(blob: Bytes, k: int)
    requires 0 <= k <= |blob|
    ensures IsQuoteSuffix(blob, blob[k..]) <==> OccursAt(TDX_QUOTE_MAGIC, blob, k)
  {
    var n := |TDX_QUOTE_MAGIC|;
    assert blob[|blob| - |blob[k..]|..] == blob[k..];
    if k + n <= |blob| {
      assert blob[k..][..n] == blob[k..k + n];
    }
  }

  /** What extraction returns, in both directions: the longest suffix that starts with the
      magic, provided it is long enough to be a quote. */
  lemma ExtractsLongestSuffix(blob: Bytes, quote: Bytes)
    ensures ExtractQuote(blob) == Ok(quote) <==> IsEmbeddedQuote(blob, quote)
  {
    forall k | 0 <= k <= |blob|
      ensures IsQuoteSuffix(blob, blob[k..]) <==> OccursAt(TDX_QUOTE_MAGIC, blob, k)
    {
      SuffixIsOccurrence(blob, k);
    }
    var found := Find(TDX_QUOTE_MAGIC, blob);
    if found.Some? {
      assert IsQuoteSuffix(blob, blob[found.value..]);
    }
    if IsQuoteSuffix(blob, quote) {
      assert blob[|blob| - |quote|..] == quote;
      assert OccursAt(TDX_QUOTE_MAGIC, blob, |blob| - |quote|);
    }
  }

  /** Extraction fails exactly when no occurrence of the magic leaves enough bytes behind the
      first one; a later occurrence is never tried. */
  lemma ExtractionFailure(blob: Bytes)
    ensures ExtractQuote(blob) == Err(MagicNotFound) <==> !Contains([0x04, 0x00, 0x02, 0x00], blob)
    ensures ExtractQuote(blob).Err? && Contains([0x04, 0x00, 0x02, 0x00], blob) ==>
              ExtractQuote(blob).error.TooShort? && ExtractQuote(blob).error.length < 1000
  {
    var found := Find(TDX_QUOTE_MAGIC, blob);
    if found.Some? {
      assert OccursAt(TDX_QUOTE_MAGIC, blob, found.value);
    }
  }

  /** The framing prefix, whatever its length: it is sliced off exactly when it does not contain
      the magic by itself. No occurrence can straddle the boundary. */
  lemma FramingIsSlicedOff(framing: Bytes, quote: Bytes)
    ensures ExtractQuote(framing + quote) == Ok(quote) <==>
            && [0x04, 0x00, 0x02, 0x00] <= quote && |quote| >= 1000
            && !Contains([0x04, 0x00, 0x02, 0x00], framing)
  {
    var blob := framing + quote;
    assert blob[|framing|..] == quote;
    if TDX_QUOTE_MAGIC <= quote {
      FindAfterPrefix(TDX_QUOTE_MAGIC, framing, quote);
      var found := Find(TDX_QUOTE_MAGIC, blob);
      if found.Some? {
        assert |blob[found.value..]| == |blob| - found.value;
      }
    } else {
      ExtractsLongestSuffix(blob, quote);
    }
  }
}
