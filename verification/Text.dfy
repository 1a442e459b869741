/** The text operations of the Rust standard library that the scanners use. */
module Text {
  import opened Prelude

  /** Unicode White_Space. */
  predicate IsWhitespace(c: char) {
    || '\t' <= c <= '\r' || c == ' ' || c == '\U{85}' || c == '\U{A0}' || c == '\U{1680}'
    || '\U{2000}' <= c <= '\U{200A}' || c == '\U{2028}' || c == '\U{2029}' || c == '\U{202F}'
    || c == '\U{205F}' || c == '\U{3000}'
  }

  /** These are the 25 code points of that property. */
  lemma WhitespaceIs(c: char)
    ensures IsWhitespace(c) <==>
            c as int in {9, 10, 11, 12, 13, 32, 133, 160, 5760, 8192, 8193, 8194, 8195, 8196, 8197, 8198, 8199,
                         8200, 8201, 8202, 8232, 8233, 8239, 8287, 12288}
  {
  }

  function TrimStart(s: string): (r: string)
    ensures |r| <= |s|
  {
    if s != "" && IsWhitespace(s[0]) then TrimStart(s[1..]) else s
  }

  function TrimEnd(s: string): (r: string)
    ensures |r| <= |s|
  {
    if s != "" && IsWhitespace(s[|s| - 1]) then TrimEnd(s[..|s| - 1]) else s
  }

  function Trim(s: string): string {
    TrimEnd(TrimStart(s))
  }

  /** Bytes of one character in UTF-8. */
  function Utf8Width(c: char): nat {
    if c < '\U{80}' then 1 else if c < '\U{800}' then 2 else if c < '\U{10000}' then 3 else 4
  }

  function Utf8Length(s: string): nat {
    if s == "" then 0 else Utf8Width(s[0]) + Utf8Length(s[1..])
  }

  /** The bytes that trimming the start of a line takes away. */
  function Indent(line: string): nat
  {
    Utf8Length(line[..|line| - |TrimStart(line)|])
  }

  predicate EndsWith(s: string, c: char) {
    s != "" && s[|s| - 1] == c
  }

  /** A line without one '\r' at its end. */
  function WithoutCr(line: string): string {
    if EndsWith(line, '\r') then line[..|line| - 1] else line
  }

  /** The lines of a text: cut after each '\n', without the '\n' and without one '\r' before it;
      nothing after a last '\n'. */
  function Lines(s: string): seq<string>
    decreases |s|
  {
    if s == "" then []
    else
      match Position(s, '\n')
      case None => [s]
      case Some(k) => [WithoutCr(s[..k])] + Lines(s[k + 1..])
  }

  /** Split at the first occurrence of `sep`. */
  function SplitOnce(s: string, sep: string): Option<(string, string)> {
    match Find(sep, s)
    case None => None
    case Some(k) => Some((s[..k], s[k + |sep|..]))
  }

  // ----- facts -----

  lemma {:induction false} TrimStartOfIndented(spaces: string, body: string)
    requires forall i :: 0 <= i < |spaces| ==> IsWhitespace(spaces[i])
    requires body != "" && !IsWhitespace(body[0])
    ensures TrimStart(spaces + body) == body
  {
    if spaces == "" {
      assert spaces + body == body;
    } else {
      TrimStartOfIndented(spaces[1..], body);
      var s := spaces + body;
      assert s[0] == spaces[0] && s[1..] == spaces[1..] + body;
    }
  }

  lemma TrimEndOfTight(s: string)
    requires s == "" || !IsWhitespace(s[|s| - 1])
    ensures TrimEnd(s) == s
  {
  }

  lemma {:induction false} PositionAfter(before: string, c: char, rest: string)
    requires c !in before
    ensures Position(before + [c] + rest, c) == Some(|before|)
  {
    if before != "" {
      PositionAfter(before[1..], c, rest);
      assert (before + [c] + rest)[1..] == before[1..] + [c] + rest;
    }
  }

  /** Trimming takes the longest run of blanks at the front. */
  lemma {:induction false} TrimStartTakesBlanks(s: string)
    ensures var n := |s| - |TrimStart(s)|;
            && s[n..] == TrimStart(s)
            && (forall i :: 0 <= i < n ==> IsWhitespace(s[i]))
            && (n < |s| ==> !IsWhitespace(s[n]))
  {
    if s != "" && IsWhitespace(s[0]) {
      TrimStartTakesBlanks(s[1..]);
    }
  }

  lemma {:induction false} TrimEndTakesBlanks(s: string)
    ensures var n := |TrimEnd(s)|;
            && s[..n] == TrimEnd(s)
            && (forall i :: n <= i < |s| ==> IsWhitespace(s[i]))
            && (n > 0 ==> !IsWhitespace(s[n - 1]))
  {
    if s != "" && IsWhitespace(s[|s| - 1]) {
      TrimEndTakesBlanks(s[..|s| - 1]);
    }
  }

  ghost predicate Blanks(s: string) {
    forall i :: 0 <= i < |s| ==> IsWhitespace(s[i])
  }

  ghost predicate CoreAt(s: string, core: string, k: nat) {
    k + |core| <= |s| && s[k..k + |core|] == core && Blanks(s[..k]) && Blanks(s[k + |core|..])
  }

  /** `s` is blanks, `core`, blanks, and `core` has none at its ends. */
  ghost predicate IsCore(s: string, core: string) {
    && (core != "" ==> !IsWhitespace(core[0]) && !IsWhitespace(core[|core| - 1]))
    && exists k: nat :: CoreAt(s, core, k)
  }

  lemma CoreOfParts(s: string, k: nat, t: string, core: string)
    requires k <= |s| && s[k..] == t && core <= t
    requires Blanks(s[..k]) && Blanks(t[|core|..])
    ensures CoreAt(s, core, k)
  {
    assert s[k..][..|core|] == s[k..k + |core|];
    assert s[k..][|core|..] == s[k + |core|..];
  }

  lemma TrimIsCore(s: string)
    ensures IsCore(s, Trim(s))
  {
    var t := TrimStart(s);
    var core := TrimEnd(t);
    TrimStartTakesBlanks(s);
    TrimEndTakesBlanks(t);
    CoreOfParts(s, |s| - |t|, t, core);
    assert core != "" ==> core[0] == t[0] == s[|s| - |t|];
  }

  lemma CoreIsUnique(s: string, a: string, b: string)
    requires IsCore(s, a) && IsCore(s, b)
    ensures a == b
  {
    var k: nat :| CoreAt(s, a, k);
    var l: nat :| CoreAt(s, b, l);
    CoreIsWithin(s, a, k, b, l);
    CoreIsWithin(s, b, l, a, k);
  }

  lemma CoreIsWithin(s: string, a: string, k: nat, b: string, l: nat)
    requires IsCore(s, a) && CoreAt(s, a, k) && CoreAt(s, b, l)
    ensures a != "" ==> b != "" && l <= k && k + |a| <= l + |b|
  {
    if a != "" {
      assert s[k] == a[0] && s[k + |a| - 1] == a[|a| - 1];
      assert forall i :: 0 <= i < l ==> s[i] == s[..l][i];
      assert forall i :: l + |b| <= i < |s| ==> s[i] == s[l + |b|..][i - (l + |b|)];
    }
  }

  lemma TrimIff(s: string, core: string)
    ensures Trim(s) == core <==> IsCore(s, core)
  {
    TrimIsCore(s);
    if IsCore(s, core) {
      CoreIsUnique(s, Trim(s), core);
    }
  }

  lemma {:induction false} WidthOfRun(c: char, n: nat)
    ensures Utf8Length(seq(n, _ => c)) == n * Utf8Width(c)
  {
    if n > 0 {
      var s := seq(n, _ => c);
      assert s[1..] == seq(n - 1, _ => c);
      WidthOfRun(c, n - 1);
    }
  }

  /** An indent counts bytes: a tab or a space is one, U+0085 and U+00A0 are two, any other blank is three. */
  lemma IndentCountsBytes(c: char, n: nat, body: string)
    requires IsWhitespace(c) && body != "" && !IsWhitespace(body[0])
    ensures var width := if c as int < 0x80 then 1 else if c == '\U{85}' || c == '\U{A0}' then 2 else 3;
            Indent(seq(n, _ => c) + body) == n * width
  {
    var line := seq(n, _ => c) + body;
    TrimStartOfIndented(seq(n, _ => c), body);
    assert line[..n] == seq(n, _ => c);
    WidthOfRun(c, n);
  }

  lemma LinesOfOneMore(line: string, rest: string)
    requires '\n' !in line && !EndsWith(line, '\r')
    ensures Lines(line + "\n" + rest) == [line] + Lines(rest)
  {
    var s := line + "\n" + rest;
    PositionAfter(line, '\n', rest);
    assert s[..|line|] == line && s[|line| + 1..] == rest;
  }

  lemma LinesAtBreak(line: string, rest: string)
    requires '\n' !in line
    ensures Lines(line + "\n" + rest) == [WithoutCr(line)] + Lines(rest)
  {
    var s := line + "\n" + rest;
    PositionAfter(line, '\n', rest);
    assert s[..|line|] == line && s[|line| + 1..] == rest;
  }

  /** A line ends at each "\n" or "\r\n", and nothing follows the last one. */
  lemma LinesIff(line: string, rest: string)
    requires '\n' !in line
    ensures Lines("") == []
    ensures line != "" ==> Lines(line) == [line]
    ensures Lines(line + "\r\n" + rest) == [line] + Lines(rest)
    ensures !EndsWith(line, '\r') ==> Lines(line + "\n" + rest) == [line] + Lines(rest)
  {
    if !EndsWith(line, '\r') {
      LinesAtBreak(line, rest);
    }
    var carried := line + "\r";
    LinesAtBreak(carried, rest);
    assert carried[..|carried| - 1] == line;
    assert line + "\r\n" + rest == carried + "\n" + rest;
  }

  lemma BreakAppend(line: string, rest: string, after: string)
    ensures line + "\n" + rest + after == line + "\n" + (rest + after)
  {
  }

  lemma LinesAppendStep(line: string, rest: string, after: string)
    requires '\n' !in line && Lines(rest + after) == Lines(rest) + Lines(after)
    ensures Lines(line + "\n" + rest + after) == Lines(line + "\n" + rest) + Lines(after)
  {
    BreakAppend(line, rest, after);
    LinesAtBreak(line, rest);
    LinesAtBreak(line, rest + after);
  }

  /** A text that ends a line is cut independently of what follows. */
  lemma {:induction false} LinesAppend(before: string, after: string)
    requires before == "" || before[|before| - 1] == '\n'
    ensures Lines(before + after) == Lines(before) + Lines(after)
    decreases |before|
  {
    if before == "" {
      assert before + after == after;
    } else {
      var k := Position(before, '\n').value;
      var line, rest := before[..k], before[k + 1..];
      assert before == line + "\n" + rest;
      LinesAppend(rest, after);
      LinesAppendStep(line, rest, after);
    }
  }
}
