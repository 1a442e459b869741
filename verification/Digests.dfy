/** The two digest extractors that are meant to agree: the agent's pattern search
    (agent/src/main.rs) and the seed tool's token scan (server/examples/seed_state.rs). */
module Digests {
  import opened Prelude
  import opened Text

  const MARK := "@sha256:"
  const HEX_LEN: nat := 64

  // ----- the agent: leftmost, non-overlapping pattern matches -----

  predicate IsNameStart(c: char) {
    'a' <= c <= 'z' || 'A' <= c <= 'Z' || '0' <= c <= '9'
  }

  predicate IsNameChar(c: char) {
    IsNameStart(c) || c == '.' || c == '_' || c == '/' || c == '-'
  }

  predicate IsLowerHex(c: char) {
    'a' <= c <= 'f' || '0' <= c <= '9'
  }

  predicate IsHexDigit(c: char) {
    IsLowerHex(c) || 'A' <= c <= 'F'
  }

  /** `t` is a name of length `k`, the mark, and 64 lower-case hex digits, as the pattern
      `[a-zA-Z0-9][a-zA-Z0-9._/-]*@sha256:[a-f0-9]{64}` describes. */
  ghost predicate IsRefWithName(t: string, k: nat) {
    && 0 < k && |t| == k + 8 + 64
    && ('a' <= t[0] <= 'z' || 'A' <= t[0] <= 'Z' || '0' <= t[0] <= '9')
    && (forall i :: 0 <= i < k ==>
          'a' <= t[i] <= 'z' || 'A' <= t[i] <= 'Z' || '0' <= t[i] <= '9'
          || t[i] == '.' || t[i] == '_' || t[i] == '/' || t[i] == '-')
    && t[k..k + 8] == "@sha256:"
    && (forall i :: k + 8 <= i < |t| ==> 'a' <= t[i] <= 'f' || '0' <= t[i] <= '9')
  }

  ghost predicate IsImageRef(t: string) {
    exists k: nat :: IsRefWithName(t, k)
  }

  /** The length of the longest run of name characters at the front. */
  function NameRun(s: string): (n: nat)
    ensures n <= |s| && forall i :: 0 <= i < n ==> IsNameChar(s[i])
    ensures n < |s| ==> !IsNameChar(s[n])
  {
    if s != "" && IsNameChar(s[0]) then 1 + NameRun(s[1..]) else 0
  }

  /** The length of the match that starts at the front, if one does. The name cannot run over the
      '@', so there is only one way to match. */
  function MatchLength(s: string): Option<nat> {
    var k := NameRun(s);
    var h := k + |MARK|;
    if k > 0 && IsNameStart(s[0]) && h + HEX_LEN <= |s| && s[k..h] == MARK
       && forall i :: h <= i < h + HEX_LEN ==> IsLowerHex(s[i])
    then Some(h + HEX_LEN) else None
  }

  lemma MatchIsImageRef(s: string, n: nat)
    requires n <= |s|
    ensures MatchLength(s) == Some(n) <==> IsImageRef(s[..n])
  {
    if k: nat :| IsRefWithName(s[..n], k) {
      var t := s[..n];
      assert t[k..k + |MARK|][0] == '@';
      assert s[k] == t[k] == '@';
      assert forall i :: 0 <= i < k ==> s[i] == t[i] && IsNameChar(t[i]);
      assert NameRun(s) == k;
      assert s[k..k + 8] == t[k..k + 8];
      assert forall i :: k + 8 <= i < n ==> s[i] == t[i];
    }
    if MatchLength(s) == Some(n) {
      assert IsRefWithName(s[..n], NameRun(s));
    }
  }

  /** All matches, left to right, each search going on after the previous match; `matchLength` is the
      pattern. */
  function Scan(matchLength: string -> Option<nat>, s: string): seq<string>
    decreases |s|
  {
    if s == "" then []
    else
      match matchLength(s)
      case Some(n) => if 0 < n <= |s| then [s[..n]] + Scan(matchLength, s[n..]) else Scan(matchLength, s[1..])
      case None => Scan(matchLength, s[1..])
  }

  function Scanner(matchLength: string -> Option<nat>): string -> seq<string> {
    (s: string) => Scan(matchLength, s)
  }

  function Matches(s: string): seq<string> {
    Scan(MatchLength, s)
  }

  /** Push `x` unless it is there already. */
  method PushUnseen(out: seq<string>, x: string, ghost seen: seq<string>) returns (out': seq<string>)
    requires out == Distinct(seen)
    ensures out' == Distinct(seen + [x])
  {
    DistinctAppendOne(seen, x);
    DistinctHas(seen, x);
    out' := if x in out then out else out + [x];
  }

  /** What the agent extracts from a text. */
  function AgentDigests(text: string): seq<string> {
    Distinct(Matches(text))
  }

  method AgentExtractDigests(compose: string) returns (out: seq<string>)
    ensures out == AgentDigests(compose)
    ensures NoDuplicates(out)
  {
    out := [];
    var found := Matches(compose);
    for i := 0 to |found|
      invariant out == Distinct(found[..i])
    {
      out := PushUnseen(out, found[i], found[..i]);
      assert found[..i + 1] == found[..i] + [found[i]];
    }
    assert found[..|found|] == found;
    DistinctHasNoDuplicates(found);
  }

  // ----- the seed tool: tokens between blanks and quotes -----

  predicate IsSeparator(c: char) {
    IsWhitespace(c) || c == '"' || c == '\''
  }

  function SeparatorAt(s: string): (r: Option<nat>)
    ensures r.Some? ==> r.value < |s| && IsSeparator(s[r.value])
    ensures forall i :: 0 <= i < (if r.Some? then r.value else |s|) ==> !IsSeparator(s[i])
  {
    if s == "" then None
    else if IsSeparator(s[0]) then Some(0)
    else
      match SeparatorAt(s[1..])
      case None => None
      case Some(k) => Some(k + 1)
  }

  function Tokens(s: string): seq<string>
    decreases |s|
  {
    match SeparatorAt(s)
    case None => [s]
    case Some(k) => [s[..k]] + Tokens(s[k + 1..])
  }

  function HexRun(s: string): (n: nat)
    ensures n <= |s| && forall i :: 0 <= i < n ==> IsHexDigit(s[i])
    ensures n < |s| ==> !IsHexDigit(s[n])
  {
    if s != "" && IsHexDigit(s[0]) then 1 + HexRun(s[1..]) else 0
  }

  /** The reference a token yields: everything up to the first mark, and the hex digits behind it,
      which must be 64. */
  function SeedRef(token: string): (r: Option<string>)
    ensures r.Some? ==> r.value <= token
  {
    match Find(MARK, token)
    case None => None
    case Some(k) =>
      var rest := token[k + |MARK|..];
      if HexRun(rest) == HEX_LEN then Some(token[..k + |MARK| + HEX_LEN]) else None
  }

  function SeedList(token: string): seq<string> {
    if SeedRef(token).Some? then [SeedRef(token).value] else []
  }

  function SeedRefs(tokens: seq<string>): seq<string> {
    FlatMap(SeedList, tokens)
  }

  /** What the seed tool extracts from a text. */
  function SeedDigests(text: string): seq<string> {
    Distinct(SeedRefs(Tokens(text)))
  }

  method SeedExtractDigests(compose: string) returns (out: seq<string>)
    ensures out == SeedDigests(compose)
    ensures NoDuplicates(out)
  {
    out := [];
    var tokens := Tokens(compose);
    ghost var seen: seq<string> := [];
    for i := 0 to |tokens|
      invariant seen == SeedRefs(tokens[..i]) && out == Distinct(seen)
    {
      FlatMapOneMore(SeedList, tokens, i);
      var r := SeedRef(tokens[i]);
      if r.Some? {
        out := PushUnseen(out, r.value, seen);
        seen := seen + [r.value];
      }
    }
    assert tokens[..|tokens|] == tokens;
    DistinctHasNoDuplicates(seen);
  }

  // ----- matches never cross a separator -----

  lemma ImageRefHasNoSeparator(t: string, i: nat)
    requires i < |t|
    ensures IsImageRef(t) ==> !IsSeparator(t[i])
  {
    if k: nat :| IsRefWithName(t, k) {
      if k <= i < k + |MARK| {
        assert t[i] == t[k..k + |MARK|][i - k] == MARK[i - k];
      }
    }
  }

  lemma MatchStaysInToken(token: string, c: char, rest: string)
    requires token != "" && IsSeparator(c)
    ensures MatchLength(token + [c] + rest) == MatchLength(token)
  {
    var s := token + [c] + rest;
    if MatchLength(s).Some? {
      var n := MatchLength(s).value;
      MatchIsImageRef(s, n);
      if n > |token| {
        assert s[..n][|token|] == c;
        ImageRefHasNoSeparator(s[..n], |token|);
      }
      assert s[..n] == token[..n];
      MatchIsImageRef(token, n);
    } else if MatchLength(token).Some? {
      var n := MatchLength(token).value;
      MatchIsImageRef(token, n);
      assert s[..n] == token[..n];
      MatchIsImageRef(s, n);
    }
  }

  lemma NoMatchAtSeparator(c: char, rest: string)
    requires IsSeparator(c)
    ensures MatchLength([c] + rest) == None
  {
    var s := [c] + rest;
    if MatchLength(s).Some? {
      MatchIsImageRef(s, MatchLength(s).value);
      ImageRefHasNoSeparator(s[..MatchLength(s).value], 0);
    }
  }

  /** The pattern never reaches over a separator. */
  ghost predicate StopsAtSeparators(matchLength: string -> Option<nat>) {
    forall c, rest, token | IsSeparator(c) ::
      if token == "" then matchLength(token + [c] + rest) == None
      else matchLength(token + [c] + rest) == matchLength(token)
           && (matchLength(token).Some? ==> matchLength(token).value <= |token|)
  }

  lemma CutFront(token: string, c: char, rest: string, n: nat)
    requires n <= |token|
    ensures (token + [c] + rest)[n..] == token[n..] + [c] + rest
    ensures (token + [c] + rest)[..n] == token[..n]
  {
  }

  lemma {:induction false} ScanSplits(matchLength: string -> Option<nat>, token: string, c: char, rest: string)
    requires StopsAtSeparators(matchLength) && IsSeparator(c)
    ensures Scan(matchLength, token + [c] + rest) == Scan(matchLength, token) + Scan(matchLength, rest)
    decreases |token|
  {
    var s := token + [c] + rest;
    if token == "" {
      assert s[1..] == rest;
    } else {
      var m := matchLength(token);
      var n := if m.Some? && 0 < m.value then m.value else 1;
      CutFront(token, c, rest, n);
      ScanSplits(matchLength, token[n..], c, rest);
    }
  }

  lemma ScanOneToken(matchLength: string -> Option<nat>, token: string, c: char, rest: string)
    requires StopsAtSeparators(matchLength) && IsSeparator(c)
    requires Scan(matchLength, rest) == FlatMap(Scanner(matchLength), Tokens(rest))
    ensures Scan(matchLength, token + [c] + rest) == FlatMap(Scanner(matchLength), [token] + Tokens(rest))
  {
    ScanSplits(matchLength, token, c, rest);
    FlatMapCons(Scanner(matchLength), token, Tokens(rest));
  }

  /** Such a pattern may be searched token by token. */
  lemma {:induction false} ScanByToken(matchLength: string -> Option<nat>, s: string)
    requires StopsAtSeparators(matchLength)
    ensures Scan(matchLength, s) == FlatMap(Scanner(matchLength), Tokens(s))
    decreases |s|
  {
    match SeparatorAt(s) {
      case None =>
        FlatMapOne(Scanner(matchLength), s);
      case Some(k) =>
        var token, rest := s[..k], s[k + 1..];
        assert s == token + [s[k]] + rest;
        ScanByToken(matchLength, rest);
        ScanOneToken(matchLength, token, s[k], rest);
    }
  }

  lemma PatternStopsAtSeparators()
    ensures StopsAtSeparators(MatchLength)
  {
    forall c, rest, token | IsSeparator(c)
      ensures if token == "" then MatchLength(token + [c] + rest) == None
              else MatchLength(token + [c] + rest) == MatchLength(token)
                   && (MatchLength(token).Some? ==> MatchLength(token).value <= |token|)
    {
      if token == "" {
        NoMatchAtSeparator(c, rest);
        assert token + [c] + rest == [c] + rest;
      } else {
        MatchStaysInToken(token, c, rest);
      }
    }
  }

  // ----- when the two agree -----

  /** No part of the text is an image reference in the agent's grammar. */
  ghost predicate NoRefInside(s: string) {
    forall p, e :: 0 <= p <= e <= |s| ==> !IsImageRef(s[p..e])
  }

  lemma {:induction false} MatchesAreRefs(s: string, i: nat)
    requires i < |Matches(s)|
    ensures IsImageRef(Matches(s)[i])
    decreases |s|
  {
    if s != "" {
      match MatchLength(s) {
        case Some(n) =>
          MatchIsImageRef(s, n);
          if i > 0 {
            MatchesAreRefs(s[n..], i - 1);
          }
        case None => MatchesAreRefs(s[1..], i);
      }
    }
  }

  lemma SliceOfRest(s: string, p: nat, e: nat)
    requires s != "" && p <= e < |s|
    ensures s[1..][p..e] == s[p + 1..e + 1]
  {
  }

  /** The search finds nothing exactly when there is nothing to find. */
  lemma {:induction false} NothingFoundIff(s: string)
    ensures Matches(s) == [] <==> NoRefInside(s)
    decreases |s|
  {
    if s == "" {
      assert !IsImageRef("");
    } else if MatchLength(s).Some? {
      MatchIsImageRef(s, MatchLength(s).value);
      assert s[0..MatchLength(s).value] == s[..MatchLength(s).value];
    } else {
      NothingFoundIff(s[1..]);
      if NoRefInside(s[1..]) {
        forall p, e | 0 <= p <= e <= |s|
          ensures !IsImageRef(s[p..e])
        {
          if p > 0 {
            SliceOfRest(s, p - 1, e - 1);
          } else {
            MatchIsImageRef(s, e);
            assert s[p..e] == s[..e];
          }
        }
      } else {
        var p, e :| 0 <= p <= e <= |s[1..]| && IsImageRef(s[1..][p..e]);
        SliceOfRest(s, p, e);
      }
    }
  }

  /** Both find the same references in one token. */
  ghost predicate Agree(token: string) {
    AgentDigests(token) == SeedList(token)
  }

  /** What the seed tool takes is an image reference in the agent's grammar, and the agent finds only
      that same one behind it; or it takes nothing and there is none. */
  ghost predicate ReadAlike(token: string) {
    match SeedRef(token)
    case Some(r) => IsImageRef(r) && forall x <- Matches(token[|r|..]) :: x == r
    case None => NoRefInside(token)
  }

  lemma OnlyFront(r: string, rest: seq<string>)
    ensures (forall x <- [r] + rest :: x == r) <==> (forall x <- rest :: x == r)
  {
    assert forall x :: x in [r] + rest <==> x == r || x in rest;
  }

  lemma FrontMatch(token: string, r: string)
    requires r <= token && IsImageRef(r)
    ensures Matches(token) == [r] + Matches(token[|r|..])
  {
    assert token[..|r|] == r;
    MatchIsImageRef(token, |r|);
  }

  lemma TokenAgreesIff(token: string)
    ensures Agree(token) <==> ReadAlike(token)
  {
    match SeedRef(token) {
      case None =>
        NothingFoundIff(token);
        if Matches(token) != [] {
          DistinctHas(Matches(token), Matches(token)[0]);
        }
      case Some(r) =>
        DistinctIsOneIff(Matches(token), r);
        if IsImageRef(r) {
          FrontMatch(token, r);
          OnlyFront(r, Matches(token[|r|..]));
          assert Matches(token) != [];
        } else if Agree(token) {
          assert Matches(token)[0] in Matches(token);
          MatchesAreRefs(token, 0);
        }
    }
  }

  lemma AgentReadsByToken(text: string)
    ensures Matches(text) == FlatMap(Scanner(MatchLength), Tokens(text))
  {
    PatternStopsAtSeparators();
    ScanByToken(MatchLength, text);
  }

  /** On every text whose tokens the two read alike, they return the same list. */
  lemma ExtractorsAgree(compose: string)
    requires forall i :: 0 <= i < |Tokens(compose)| ==> ReadAlike(Tokens(compose)[i])
    ensures AgentDigests(compose) == SeedDigests(compose)
  {
    var tokens := Tokens(compose);
    AgentReadsByToken(compose);
    forall i | 0 <= i < |tokens|
      ensures Distinct(Scanner(MatchLength)(tokens[i])) == Distinct(SeedList(tokens[i]))
    {
      TokenAgreesIff(tokens[i]);
      DistinctOfUnique(SeedList(tokens[i]));
    }
    FlatMapSameDistinct(Scanner(MatchLength), SeedList, tokens);
  }

  /** No blank and no quote in it. */
  ghost predicate IsToken(t: string) {
    forall i :: 0 <= i < |t| ==> !IsWhitespace(t[i]) && t[i] != '"' && t[i] != '\''
  }

  /** All tokens of the text are among `vocabulary`. */
  ghost predicate WrittenIn(text: string, vocabulary: iset<string>) {
    forall i :: 0 <= i < |Tokens(text)| ==> Tokens(text)[i] in vocabulary
  }

  lemma OneToken(t: string)
    requires IsToken(t)
    ensures Tokens(t) == [t] && SeedDigests(t) == SeedList(t)
  {
    FlatMapOne(SeedList, t);
    DistinctOfUnique(SeedList(t));
  }

  lemma TokenEndsAt(a: string, c: char, b: string)
    requires IsSeparator(c) && IsToken(a)
    ensures Tokens(a + ([c] + b)) == [a] + Tokens(b)
  {
    var s := a + ([c] + b);
    assert s[|a|] == c && s[..|a|] == a && s[|a| + 1..] == b;
    assert SeparatorAt(s) == Some(|a|);
  }

  lemma Regroup(x: string, d: char, y: string, rest: string)
    ensures x + ([d] + y) + rest == x + ([d] + (y + rest))
  {
  }

  lemma TokenThen(x: string, d: char, y: string, rest: string, more: seq<string>)
    requires IsSeparator(d) && IsToken(x)
    requires Tokens(y + rest) == Tokens(y) + more
    ensures Tokens(x + ([d] + y) + rest) == Tokens(x + ([d] + y)) + more
  {
    TokenEndsAt(x, d, y);
    TokenEndsAt(x, d, y + rest);
    Regroup(x, d, y, rest);
    FirstThenMore(x, Tokens(y), more);
  }

  lemma FirstThenMore(x: string, rest: seq<string>, more: seq<string>)
    ensures [x] + (rest + more) == [x] + rest + more
  {
  }

  lemma {:induction false} TokensAppend(a: string, c: char, b: string)
    requires IsSeparator(c)
    ensures Tokens(a + ([c] + b)) == Tokens(a) + Tokens(b)
    decreases |a|
  {
    match SeparatorAt(a) {
      case None => TokenEndsAt(a, c, b);
      case Some(k) =>
        var x, y := a[..k], a[k + 1..];
        assert a == x + ([a[k]] + y);
        TokensAppend(y, c, b);
        TokenThen(x, a[k], y, [c] + b, Tokens(b));
    }
  }

  /** A text is cut into tokens at every blank and every quote, and nowhere else. */
  lemma TokensIff(a: string, c: char, b: string)
    ensures IsToken(a) ==> Tokens(a) == [a]
    ensures IsWhitespace(c) || c == '"' || c == '\'' ==> Tokens(a + ([c] + b)) == Tokens(a) + Tokens(b)
  {
    if IsSeparator(c) {
      TokensAppend(a, c, b);
    }
  }

  /** `hex` is 64 hex digits of either case, and none follows. */
  ghost predicate IsHash(hex: string, tail: string) {
    |hex| == 64 && (forall i :: 0 <= i < 64 ==> IsAnyHex(hex[i])) && (tail != "" ==> !IsAnyHex(tail[0]))
  }

  ghost predicate IsAnyHex(c: char) {
    '0' <= c <= '9' || 'a' <= c <= 'f' || 'A' <= c <= 'F'
  }

  ghost predicate HasSeedRef(token: string, name: string, hex: string, tail: string) {
    token == name + ("@sha256:" + (hex + tail)) && !Contains("@sha256:", name) && IsHash(hex, tail)
  }

  lemma SeedRefFound(token: string, name: string, hex: string, tail: string)
    requires HasSeedRef(token, name, hex, tail)
    ensures SeedRef(token) == Some(name + (MARK + hex))
  {
    var r := name + (MARK + hex);
    FindAfterPrefix(MARK, name, MARK + (hex + tail));
    assert token[|name| + |MARK|..] == hex + tail;
    HexRunOfDigits(hex, tail);
    assert token[..|r|] == r;
  }

  lemma SeedRefAt(token: string) returns (k: nat)
    requires SeedRef(token).Some?
    ensures OccursAt(MARK, token, k) && forall j :: 0 <= j < k ==> !OccursAt(MARK, token, j)
    ensures HexRun(token[k + |MARK|..]) == 64
  {
    k := Find(MARK, token).value;
  }

  lemma NoMarkBefore(token: string, k: nat)
    requires k <= |token| && forall j :: 0 <= j < k ==> !OccursAt(MARK, token, j)
    ensures !Contains(MARK, token[..k])
  {
    forall j
      ensures !OccursAt(MARK, token[..k], j)
    {
      if 0 <= j && j + |MARK| <= k {
        assert token[..k][j..j + |MARK|] == token[j..j + |MARK|];
        assert !OccursAt(MARK, token, j);
      }
    }
  }

  lemma SeedRefParts(token: string) returns (name: string, hex: string, tail: string)
    requires SeedRef(token).Some?
    ensures HasSeedRef(token, name, hex, tail)
  {
    var k := SeedRefAt(token);
    var rest := token[k + |MARK|..];
    name, hex, tail := token[..k], rest[..HEX_LEN], rest[HEX_LEN..];
    assert rest == hex + tail;
    PartsAtMark(token, k);
    NoMarkBefore(token, k);
    HashAtFront(rest);
  }

  lemma PartsAtMark(token: string, k: nat)
    requires OccursAt(MARK, token, k)
    ensures token == token[..k] + (MARK + token[k + |MARK|..])
  {
    assert token[k..] == MARK + token[k + |MARK|..];
  }

  lemma HashAtFront(rest: string)
    requires HexRun(rest) == 64
    ensures IsHash(rest[..64], rest[64..])
  {
  }

  /** What the seed tool takes from a token: what is before the first mark, the mark, and the hex digits of
      either case right behind it, if these are exactly 64. */
  lemma SeedRefIff(token: string, r: string)
    ensures SeedRef(token) == Some(r) <==>
            exists name, hex, tail :: HasSeedRef(token, name, hex, tail) && r == name + ("@sha256:" + hex)
  {
    if SeedRef(token).Some? {
      var name, hex, tail := SeedRefParts(token);
      SeedRefFound(token, name, hex, tail);
    }
    forall name, hex, tail | HasSeedRef(token, name, hex, tail)
      ensures SeedRef(token) == Some(name + (MARK + hex))
    {
      SeedRefFound(token, name, hex, tail);
    }
  }

  /** "Mirroring", exactly: the two return the same list on every text written in a vocabulary of
      tokens, if and only if each of these tokens reads alike. */
  lemma ExtractorsAgreeIff(vocabulary: iset<string>)
    requires forall t :: t in vocabulary ==> IsToken(t)
    ensures (forall text :: WrittenIn(text, vocabulary) ==> AgentDigests(text) == SeedDigests(text))
            <==> forall t :: t in vocabulary ==> ReadAlike(t)
  {
    if forall t :: t in vocabulary ==> ReadAlike(t) {
      forall text | WrittenIn(text, vocabulary)
        ensures AgentDigests(text) == SeedDigests(text)
      {
        ExtractorsAgree(text);
      }
    }
    if forall text :: WrittenIn(text, vocabulary) ==> AgentDigests(text) == SeedDigests(text) {
      forall t | t in vocabulary
        ensures ReadAlike(t)
      {
        OneToken(t);
        assert WrittenIn(t, vocabulary);
        TokenAgreesIff(t);
      }
    }
  }

  // ----- tokens that occur -----

  /** A name in the agent's grammar. */
  ghost predicate IsName(name: string) {
    name != "" && IsNameStart(name[0]) && forall i :: 0 <= i < |name| ==> IsNameChar(name[i])
  }

  lemma NoMarkWithoutAt(s: string)
    requires '@' !in s
    ensures !Contains(MARK, s)
  {
    forall k
      ensures !OccursAt(MARK, s, k)
    {
      if 0 <= k && k + |MARK| <= |s| {
        assert s[k..k + |MARK|][0] == s[k];
      }
    }
  }

  lemma AtFreeHasNoRef(s: string)
    requires '@' !in s
    ensures NoRefInside(s) && SeedRef(s).None?
  {
    forall p, e | 0 <= p <= e <= |s|
      ensures !IsImageRef(s[p..e])
    {
      forall k: nat
        ensures !IsRefWithName(s[p..e], k)
      {
        if k + |MARK| <= |s[p..e]| {
          assert s[p..e][k..k + |MARK|][0] == s[p..e][k] == s[p + k];
        }
      }
    }
    NoMarkWithoutAt(s);
  }

  lemma MarkIsFound(name: string, rest: string)
    requires '@' !in name
    ensures Find(MARK, name + (MARK + rest)) == Some(|name|)
    ensures (name + (MARK + rest))[|name| + |MARK|..] == rest
  {
    NoMarkWithoutAt(name);
    FindAfterPrefix(MARK, name, MARK + rest);
  }

  lemma {:induction false} HexRunOfDigits(hex: string, tail: string)
    requires forall i :: 0 <= i < |hex| ==> IsHexDigit(hex[i])
    ensures HexRun(hex + tail) == |hex| + HexRun(tail)
  {
    if hex == "" {
      assert hex + tail == tail;
    } else {
      HexRunOfDigits(hex[1..], tail);
      assert (hex + tail)[1..] == hex[1..] + tail;
    }
  }

  lemma CleanRefIsImageRef(name: string, hex: string)
    requires IsName(name) && |hex| == HEX_LEN && forall i :: 0 <= i < |hex| ==> IsLowerHex(hex[i])
    ensures IsImageRef(name + (MARK + hex))
  {
    var t := name + (MARK + hex);
    assert t[|name|..|name| + |MARK|] == MARK;
    assert IsRefWithName(t, |name|);
  }

  /** The tokens the extractors are made for: an image reference, and behind it an '@'-free tail that
      does not go on with a hex digit (in the raw JSON text, an escaped line end). */
  lemma CleanTokenAgrees(name: string, hex: string, tail: string)
    requires IsName(name) && |hex| == HEX_LEN && forall i :: 0 <= i < |hex| ==> IsLowerHex(hex[i])
    requires '@' !in tail && (tail != "" ==> !IsHexDigit(tail[0]))
    ensures Agree(name + (MARK + (hex + tail)))
    ensures Matches(name + (MARK + (hex + tail))) == [name + (MARK + hex)]
  {
    var token, r := name + (MARK + (hex + tail)), name + (MARK + hex);
    CleanTokenYields(name, hex, tail);
    CleanRefIsImageRef(name, hex);
    assert token[..|r|] == r && token[|r|..] == tail;
    FrontMatch(token, r);
    AtFreeHasNoRef(tail);
    NothingFoundIff(tail);
    TokenAgreesIff(token);
  }

  lemma CleanTokenYields(name: string, hex: string, tail: string)
    requires IsName(name) && |hex| == HEX_LEN && forall i :: 0 <= i < |hex| ==> IsHexDigit(hex[i])
    requires tail != "" ==> !IsHexDigit(tail[0])
    ensures SeedRef(name + (MARK + (hex + tail))) == Some(name + (MARK + hex))
  {
    var token, r := name + (MARK + (hex + tail)), name + (MARK + hex);
    NameHasNoAt(name);
    MarkIsFound(name, hex + tail);
    HexRunOfDigits(hex, tail);
    assert token[..|r|] == r;
  }

  lemma NameHasNoAt(name: string)
    requires IsName(name)
    ensures '@' !in name
  {
    assert !IsNameChar('@');
  }

  lemma AtFreeTokenAgrees(token: string)
    requires '@' !in token
    ensures Agree(token)
  {
    AtFreeHasNoRef(token);
    TokenAgreesIff(token);
  }

  /** Where "mirroring" ends: a longer digest is cut by the agent and dropped by the seed tool. */
  lemma LongDigestDisagrees(name: string, hex: string, more: char, tail: string)
    requires IsName(name) && |hex| == HEX_LEN && forall i :: 0 <= i < |hex| ==> IsLowerHex(hex[i])
    requires IsHexDigit(more) && IsToken(tail)
    ensures var text := name + (MARK + (hex + ([more] + tail)));
            && Tokens(text) == [text] && SeedDigests(text) == []
            && name + (MARK + hex) in AgentDigests(text)
  {
    var text, r := name + (MARK + (hex + ([more] + tail))), name + (MARK + hex);
    LongTokenIsDropped(name, hex, more, tail);
    CleanRefIsImageRef(name, hex);
    assert text[..|r|] == r;
    MatchIsImageRef(text, |r|);
    DistinctHas(Matches(text), r);
    forall i | 0 <= i < |text|
      ensures !IsSeparator(text[i])
    {
      if i < |r| {
        ImageRefHasNoSeparator(r, i);
        assert text[i] == r[i];
      } else {
        assert text[i] == ([more] + tail)[i - |r|];
      }
    }
    OneToken(text);
  }

  lemma LongTokenIsDropped(name: string, hex: string, more: char, tail: string)
    requires IsName(name) && |hex| == HEX_LEN && forall i :: 0 <= i < |hex| ==> IsHexDigit(hex[i])
    requires IsHexDigit(more)
    ensures SeedList(name + (MARK + (hex + ([more] + tail)))) == []
  {
    NameHasNoAt(name);
    MarkIsFound(name, hex + ([more] + tail));
    HexRunOfDigits(hex, [more] + tail);
  }

  /** An upper-case digit in the digest: taken by the seed tool, not a reference for the agent. */
  lemma UpperCaseDigestDisagrees(name: string, hex: string, i: nat)
    requires '@' !in name && |hex| == HEX_LEN && forall j :: 0 <= j < |hex| ==> IsHexDigit(hex[j])
    requires i < |hex| && !IsLowerHex(hex[i])
    ensures var token := name + (MARK + hex);
            SeedList(token) == [token] && !Agree(token)
  {
    var token := name + (MARK + hex);
    assert hex + "" == hex;
    MarkIsFound(name, hex);
    HexRunOfDigits(hex, "");
    assert token[..|name| + |MARK| + HEX_LEN] == token;
    assert token[|token| - HEX_LEN + i] == hex[i];
    assert !IsImageRef(token);
    TokenAgreesIff(token);
  }
}
