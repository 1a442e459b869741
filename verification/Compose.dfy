/** The image table of the detail page (server/src/page.rs): an indentation-driven scan of the
    measured docker-compose text. */
module Compose {
  import opened Prelude
  import opened Text

  datatype Origin = OutLayerBuilt | DstackSystemImage

  datatype ImageRow = ImageRow(
    container: string,
    image: string,
    digest: string,
    sigstoreUrl: string,
    releaseUrl: Option<string>,
    origin: Origin)

  /** The two fields the scanner takes out of the app-compose JSON. */
  datatype AppCompose = AppCompose(name: Option<string>, dockerComposeFile: Option<string>)

  const SERVICES := "services:"
  const IMAGE := "image:"
  const DIGEST_MARK := "@sha256:"
  const OUTLAYER_IMAGE := "outlayer/near-outlayer"

  /** A bare mapping key, without an inline value. */
  function ServiceKey(trimmed: string): Option<string> {
    if !EndsWith(trimmed, ':') then None
    else
      var key := trimmed[..|trimmed| - 1];
      if key == "" || (exists c <- key :: IsWhitespace(c)) || ':' in key || key[0] == '-' then None
      else Some(key)
  }

  predicate IsOutLayerImage(image: string) {
    Find(OUTLAYER_IMAGE, image).Some?
  }

  function ParseImageRow(value: string, service: Option<string>, version: Option<string>): Option<ImageRow> {
    match SplitOnce(value, DIGEST_MARK)
    case None => None
    case Some((left, right)) =>
      var image, digestHex := Trim(left), Trim(right);
      if image == "" || digestHex == "" then None
      else
        var digest := "sha256:" + digestHex;
        var outlayer := IsOutLayerImage(image);
        Some(ImageRow(
               if service.Some? then service.value else image,
               image,
               digest,
               "https://search.sigstore.dev/?hash=" + digest,
               if outlayer && version.Some?
               then Some("https://github.com/out-layer/outlayer/releases/tag/v" + version.value) else None,
               if outlayer then OutLayerBuilt else DstackSystemImage))
  }

  /** The part of a text after its last '-'. */
  function LastDashPart(name: string): (r: string)
    ensures '-' !in r
    ensures |r| <= |name| && name[|name| - |r|..] == r
    ensures |r| < |name| ==> name[|name| - |r| - 1] == '-'
  {
    if name == "" || name[|name| - 1] == '-' then ""
    else LastDashPart(name[..|name| - 1]) + [name[|name| - 1]]
  }

  predicate IsDottedNumber(s: string) {
    '.' in s && forall c <- s :: '0' <= c <= '9' || c == '.'
  }

  function ParseReleaseVersion(name: string): Option<string> {
    var last := LastDashPart(name);
    if last != "" && IsDottedNumber(last) then Some(last) else None
  }

  // ----- lines -----

  /** What the scanner reads off one line; blank lines and comments carry nothing. */
  datatype Line = Blank | Text(indent: nat, opens: bool, key: Option<string>, imageRef: Option<string>)

  function ReadLine(line: string): Line {
    var trimmed := TrimStart(line);
    if trimmed == "" || trimmed[0] == '#' then Blank
    else
      Text(Indent(line), SERVICES <= trimmed, ServiceKey(trimmed),
           if IMAGE <= trimmed then Some(Trim(trimmed[|IMAGE|..])) else None)
  }

  function ReadLines(lines: seq<string>): seq<Line> {
    seq(|lines|, i requires 0 <= i < |lines| => ReadLine(lines[i]))
  }

  // ----- the table, declaratively -----

  /** A line at or left of the opener's indent ends its block, unless it is `services:` again. */
  predicate Closes(opener: Line, line: Line) {
    opener.Text? && line.Text? && line.indent <= opener.indent && !line.opens
  }

  /** Line `o` opens a services block: every block opened before it has been closed before it. */
  ghost predicate Starts(lines: seq<Line>, o: nat)
    requires o < |lines|
    decreases o
  {
    && lines[o].Text? && lines[o].opens
    && forall p: nat :: p < o && Starts(lines, p) ==> exists c :: p < c < o && Closes(lines[p], lines[c])
  }

  /** The block that line `o` opens has not been closed before line `i`. */
  ghost predicate OpenBefore(lines: seq<Line>, o: nat, i: nat)
    requires i <= |lines|
  {
    o < i && Starts(lines, o) && forall c :: o < c < i ==> !Closes(lines[o], lines[c])
  }

  /** Line `i` lies inside the block that line `o` opens. */
  ghost predicate InBlock(lines: seq<Line>, o: nat, i: nat)
    requires i < |lines|
  {
    OpenBefore(lines, o, i) && !Closes(lines[o], lines[i])
  }

  function KeyOf(line: Line): Option<string> {
    if line.Text? then line.key else None
  }

  /** The nearest bare key after line `o` and before line `i`. */
  function NearestKey(lines: seq<Line>, o: nat, i: nat): Option<string>
    requires i <= |lines|
    decreases i
  {
    if i <= o + 1 then None
    else if KeyOf(lines[i - 1]).Some? then KeyOf(lines[i - 1])
    else NearestKey(lines, o, i - 1)
  }

  /** How an image value and its container become a row. */
  type RowBuilder = (string, Option<string>) -> Option<ImageRow>

  function RowsFor(version: Option<string>): RowBuilder {
    (value: string, container: Option<string>) => ParseImageRow(value, container, version)
  }

  /** The row an image line yields for a container. */
  function RowOf(line: Line, container: Option<string>, build: RowBuilder): Option<ImageRow> {
    if line.Text? && line.key.None? && line.imageRef.Some?
    then build(line.imageRef.value, container)
    else None
  }

  /** The opener of the block that is open before line `i`. */
  function BlockAt(lines: seq<Line>, i: nat): (r: Option<nat>)
    requires i <= |lines|
    ensures r.Some? ==> r.value < i
  {
    if i == 0 then None
    else
      var line := lines[i - 1];
      match BlockAt(lines, i - 1)
      case None => if line.Text? && line.opens then Some(i - 1) else None
      case Some(o) => if Closes(lines[o], line) then None else Some(o)
  }

  function RowAt(lines: seq<Line>, i: nat, build: RowBuilder): Option<ImageRow>
    requires i < |lines|
  {
    match BlockAt(lines, i)
    case None => None
    case Some(o) =>
      if Closes(lines[o], lines[i]) then None else RowOf(lines[i], NearestKey(lines, o, i), build)
  }

  function Rows(lines: seq<Line>, build: RowBuilder): nat -> Option<ImageRow> {
    (i: nat) => if i < |lines| then RowAt(lines, i, build) else None
  }

  /** The rows of the first `n` lines, in order. */
  function Table(lines: seq<Line>, n: nat, build: RowBuilder): seq<ImageRow> {
    Collect(Rows(lines, build), n)
  }

  /** The table of a compose text. */
  function TableOf(compose: string, version: Option<string>): seq<ImageRow> {
    Table(ReadLines(Lines(compose)), |Lines(compose)|, RowsFor(version))
  }

  // ----- the table against its declarative reading -----

  lemma OpenBlockIsUnique(lines: seq<Line>, o1: nat, o2: nat, i: nat)
    requires i <= |lines| && OpenBefore(lines, o1, i) && OpenBefore(lines, o2, i)
    ensures o1 == o2
  {
  }

  lemma OpenBeforeShrinks(lines: seq<Line>, o: nat, i: nat)
    requires i < |lines| && o < i && OpenBefore(lines, o, i + 1)
    ensures OpenBefore(lines, o, i) && !Closes(lines[o], lines[i])
  {
  }

  lemma OpenBeforeGrows(lines: seq<Line>, o: nat, i: nat)
    requires i < |lines| && OpenBefore(lines, o, i) && !Closes(lines[o], lines[i])
    ensures OpenBefore(lines, o, i + 1)
  {
    forall c | o < c < i + 1
      ensures !Closes(lines[o], lines[c])
    {
      assert c < i || c == i;
    }
  }

  lemma StartsWhenNoneOpen(lines: seq<Line>, i: nat)
    requires i < |lines| && lines[i].Text? && lines[i].opens
    requires forall p: nat :: !OpenBefore(lines, p, i)
    ensures Starts(lines, i)
  {
    forall p: nat | p < i && Starts(lines, p)
      ensures exists c :: p < c < i && Closes(lines[p], lines[c])
    {
      assert !OpenBefore(lines, p, i);
    }
  }

  /** A block is open exactly when its opening line started it and nothing has closed it since. */
  lemma {:induction false} BlockAtIsOpenBlock(lines: seq<Line>, i: nat, o: nat)
    requires i <= |lines|
    ensures BlockAt(lines, i) == Some(o) <==> OpenBefore(lines, o, i)
  {
    if i > 0 {
      BlockAtIsOpenBlock(lines, i - 1, o);
      var before := BlockAt(lines, i - 1);
      if before.Some? {
        BlockAtIsOpenBlock(lines, i - 1, before.value);
        OpenBlockAfter(lines, i - 1, before.value, o);
      } else {
        var last := i - 1;
        forall p: nat
          ensures !OpenBefore(lines, p, last)
        {
          BlockAtIsOpenBlock(lines, last, p);
        }
        NoBlockAfter(lines, last, o);
      }
    }
  }

  lemma OpenBlockAfter(lines: seq<Line>, i: nat, block: nat, o: nat)
    requires i < |lines| && OpenBefore(lines, block, i)
    ensures OpenBefore(lines, o, i + 1) <==> o == block && !Closes(lines[block], lines[i])
  {
    if OpenBefore(lines, o, i + 1) && o < i {
      OpenBeforeShrinks(lines, o, i);
      OpenBlockIsUnique(lines, o, block, i);
    }
    if !Closes(lines[block], lines[i]) {
      OpenBeforeGrows(lines, block, i);
    }
  }

  lemma NoBlockAfter(lines: seq<Line>, i: nat, o: nat)
    requires i < |lines| && forall p: nat :: !OpenBefore(lines, p, i)
    ensures OpenBefore(lines, o, i + 1) <==> o == i && lines[i].Text? && lines[i].opens
  {
    if OpenBefore(lines, o, i + 1) && o < i {
      OpenBeforeShrinks(lines, o, i);
    }
    if lines[i].Text? && lines[i].opens {
      StartsWhenNoneOpen(lines, i);
    }
  }

  /** A row is there exactly for a digest-pinned image line inside an open block, and its container is
      the nearest bare key of that block. */
  lemma RowAppearsIff(lines: seq<Line>, i: nat, build: RowBuilder, row: ImageRow)
    requires i < |lines|
    ensures RowAt(lines, i, build) == Some(row) <==>
            exists o: nat :: InBlock(lines, o, i) && RowOf(lines[i], NearestKey(lines, o, i), build) == Some(row)
  {
    var block := BlockAt(lines, i);
    if block.Some? {
      BlockAtIsOpenBlock(lines, i, block.value);
    }
    if o: nat :| InBlock(lines, o, i) && RowOf(lines[i], NearestKey(lines, o, i), build) == Some(row) {
      BlockAtIsOpenBlock(lines, i, o);
    }
  }

  lemma RowInside(lines: seq<Line>, o: nat, i: nat, build: RowBuilder)
    requires i < |lines| && InBlock(lines, o, i)
    ensures RowAt(lines, i, build) == RowOf(lines[i], NearestKey(lines, o, i), build)
  {
    BlockAtIsOpenBlock(lines, i, o);
  }

  // ----- the scan -----

  /** The line scanner computes the declarative table. `parseJson` is the JSON library. */
  method ImageRows(appCompose: Option<string>, parseJson: string -> Option<AppCompose>)
    returns (rows: seq<ImageRow>)
    ensures appCompose.None? || parseJson(appCompose.value).None? ==> rows == []
    ensures appCompose.Some? && parseJson(appCompose.value).Some? ==>
              var c := parseJson(appCompose.value).value;
              rows == TableOf(if c.dockerComposeFile.Some? then c.dockerComposeFile.value else "",
                              if c.name.Some? then ParseReleaseVersion(c.name.value) else None)
  {
    rows := [];
    if appCompose.None? {
      return;
    }
    var parsed := parseJson(appCompose.value);
    if parsed.None? {
      return;
    }
    var compose := if parsed.value.dockerComposeFile.Some? then parsed.value.dockerComposeFile.value else "";
    if compose == "" {
      return;
    }
    var version := if parsed.value.name.Some? then ParseReleaseVersion(parsed.value.name.value) else None;
    rows := ScanLines(ReadLines(Lines(compose)), RowsFor(version));
  }

  method ScanLines(lines: seq<Line>, build: RowBuilder) returns (rows: seq<ImageRow>)
    ensures rows == Table(lines, |lines|, build)
  {
    rows := [];
    var currentService: Option<string> := None;
    var inServices := false;
    var servicesIndent: nat := 0;

    for i := 0 to |lines|
      invariant rows == Table(lines, i, build)
      invariant inServices <==> BlockAt(lines, i).Some?
      invariant inServices ==>
          var o := BlockAt(lines, i).value;
          lines[o].Text? && servicesIndent == lines[o].indent && currentService == NearestKey(lines, o, i)
      invariant !inServices ==> currentService == None
    {
      match lines[i] {
        case Blank =>
        case Text(indent, opens, key, imageRef) =>
          if !inServices {
            if opens {
              inServices := true;
              servicesIndent := indent;
            }
          } else if indent <= servicesIndent && !opens {
            inServices := false;
            currentService := None;
          } else if key.Some? {
            currentService := key;
          } else if imageRef.Some? {
            var row := build(imageRef.value, currentService);
            if row.Some? {
              rows := rows + [row.value];
            }
          }
      }
    }
  }

  // ----- which key names the container -----

  /** Seen from any bare key `j` of the block, the container of a later image line is the nearest bare
      key after `j`, or `j` itself. */
  lemma {:induction false} ContainerSeenFrom(lines: seq<Line>, o: nat, j: nat, i: nat)
    requires o < j < i <= |lines| && KeyOf(lines[j]).Some?
    ensures NearestKey(lines, o, i) ==
            if NearestKey(lines, j, i).Some? then NearestKey(lines, j, i) else KeyOf(lines[j])
  {
    if i > j + 1 && KeyOf(lines[i - 1]).None? {
      ContainerSeenFrom(lines, o, j, i - 1);
    }
  }

  /** An image line under service `j` is credited to that service exactly when no bare key stands
      between them, or the last one repeats its name. */
  lemma ContainerIsServiceIff(lines: seq<Line>, o: nat, j: nat, i: nat, version: Option<string>)
    requires o < j < i < |lines| && InBlock(lines, o, i) && KeyOf(lines[j]).Some?
    requires RowAt(lines, i, RowsFor(version)).Some?
    ensures RowAt(lines, i, RowsFor(version)).value.container == KeyOf(lines[j]).value <==>
            NearestKey(lines, j, i).None? || NearestKey(lines, j, i) == KeyOf(lines[j])
  {
    RowInside(lines, o, i, RowsFor(version));
    ContainerSeenFrom(lines, o, j, i);
  }

  // ----- what a line is read as -----

  /** A bare key: a colon at the end, no other one, no blank, no leading dash. */
  lemma ServiceKeyIff(trimmed: string, key: string)
    ensures ServiceKey(trimmed) == Some(key) <==>
            && trimmed == key + ":" && key != "" && key[0] != '-'
            && (forall c <- key :: c != ':' && !IsWhitespace(c))
  {
    if trimmed == key + ":" {
      assert trimmed[..|trimmed| - 1] == key;
    }
  }

  /** What the scanner reads off blanks and a text that starts with none: nothing of a comment; else
      whether it opens a block, its bare key, and its image reference without the blanks around it. */
  lemma LineReads(blanks: string, body: string)
    requires forall i :: 0 <= i < |blanks| ==> IsWhitespace(blanks[i])
    requires body != "" && !IsWhitespace(body[0])
    ensures var line := ReadLine(blanks + body);
            && (line == Blank <==> body[0] == '#')
            && (line.Text? ==>
                  && line.indent == Indent(blanks + body)
                  && (line.opens <==> "services:" <= body)
                  && (forall key :: line.key == Some(key) <==> ServiceKey(body) == Some(key))
                  && (line.imageRef.Some? <==> "image:" <= body)
                  && ("image:" <= body ==> IsCore(body[6..], line.imageRef.value)))
  {
    TrimStartOfIndented(blanks, body);
    if "image:" <= body {
      TrimIsCore(body[6..]);
    }
  }

  ghost predicate SkippedFrom(line: string, k: nat) {
    k <= |line| && Blanks(line[..k]) && (k == |line| || line[k] == '#')
  }

  /** A line of blanks only, or whose first other character is '#'. */
  ghost predicate IsSkipped(line: string) {
    exists k: nat :: SkippedFrom(line, k)
  }

  lemma SkippedIsBlank(line: string)
    ensures ReadLine(line) == Blank <==> IsSkipped(line)
  {
    TrimStartTakesBlanks(line);
    var n := |line| - |TrimStart(line)|;
    assert n < |line| ==> TrimStart(line)[0] == line[n];
    if ReadLine(line) == Blank {
      assert SkippedFrom(line, n);
    }
    if k: nat :| SkippedFrom(line, k) {
      assert !IsWhitespace('#');
      assert n < k ==> line[..k][n] == line[n];
    }
  }

  /** `digest` is the digest in the text behind the mark. */
  ghost predicate IsDigestIn(right: string, digest: string) {
    exists hex :: hex != "" && IsCore(right, hex) && digest == "sha256:" + hex
  }

  /** What makes a row: the first "@sha256:" of the value parts image and digest, neither is blank, and a
      row without a service is named after its image. */
  ghost predicate IsRowOf(left: string, right: string, service: Option<string>, version: Option<string>, row: ImageRow)
  {
    && row.image != "" && IsCore(left, row.image) && IsDigestIn(right, row.digest)
    && row.container == (if service.Some? then service.value else row.image)
    && row.sigstoreUrl == "https://search.sigstore.dev/?hash=" + row.digest
    && (row.origin == OutLayerBuilt <==> Contains("outlayer/near-outlayer", row.image))
    && row.releaseUrl == (if row.origin == OutLayerBuilt && version.Some?
                          then Some("https://github.com/out-layer/outlayer/releases/tag/v" + version.value) else None)
  }

  ghost predicate SplitsAtMark(value: string, left: string, right: string) {
    value == left + ("@sha256:" + right) && !Contains("@sha256:", left)
  }

  lemma SplitsAtMarkIff(value: string, left: string, right: string)
    ensures SplitOnce(value, DIGEST_MARK) == Some((left, right)) <==> SplitsAtMark(value, left, right)
  {
    var found := Find(DIGEST_MARK, value);
    if SplitsAtMark(value, left, right) {
      FindAfterPrefix(DIGEST_MARK, left, DIGEST_MARK + right);
      assert value[..|left|] == left && value[|left| + |DIGEST_MARK|..] == right;
    }
    if found.Some? && SplitOnce(value, DIGEST_MARK) == Some((left, right)) {
      assert value == left + (DIGEST_MARK + right);
      FindAfterPrefix(DIGEST_MARK, left, DIGEST_MARK + right);
    }
  }

  lemma DigestInIff(right: string, digest: string)
    ensures IsDigestIn(right, digest) <==> Trim(right) != "" && digest == "sha256:" + Trim(right)
  {
    TrimIff(right, Trim(right));
    if IsDigestIn(right, digest) {
      var hex :| hex != "" && IsCore(right, hex) && digest == "sha256:" + hex;
      TrimIff(right, hex);
    }
  }

  lemma RowOfParts(value: string, left: string, right: string, service: Option<string>,
                   version: Option<string>, row: ImageRow)
    requires SplitOnce(value, DIGEST_MARK) == Some((left, right))
    ensures ParseImageRow(value, service, version) == Some(row) <==> IsRowOf(left, right, service, version, row)
  {
    TrimIff(left, row.image);
    DigestInIff(right, row.digest);
    assert IsOutLayerImage(row.image) <==> Contains("outlayer/near-outlayer", row.image);
  }

  lemma ImageRowIff(value: string, service: Option<string>, version: Option<string>, row: ImageRow)
    ensures ParseImageRow(value, service, version) == Some(row) <==>
            exists left, right :: SplitsAtMark(value, left, right) && IsRowOf(left, right, service, version, row)
  {
    var split := SplitOnce(value, DIGEST_MARK);
    if split.Some? {
      var (left, right) := split.value;
      SplitsAtMarkIff(value, left, right);
      RowOfParts(value, left, right, service, version, row);
    }
    forall left, right | SplitsAtMark(value, left, right)
      ensures split == Some((left, right))
    {
      SplitsAtMarkIff(value, left, right);
    }
  }

  // ----- only lines that are not skipped matter -----

  /** Where the scanner is: the rows so far, the indent of the open block, the nearest bare key. */
  datatype Cursor = Cursor(rows: seq<ImageRow>, block: Option<nat>, service: Option<string>)

  function Scan(c: Cursor, line: Line, build: RowBuilder): Cursor {
    if line.Blank? then c
    else if c.block.None? then
      if line.opens then c.(block := Some(line.indent)) else c
    else if line.indent <= c.block.value && !line.opens then Cursor(c.rows, None, None)
    else if line.key.Some? then c.(service := line.key)
    else
      match RowOf(line, c.service, build)
      case Some(row) => c.(rows := c.rows + [row])
      case None => c
  }

  function Scanner(build: RowBuilder): (Cursor, Line) -> Cursor {
    (c: Cursor, line: Line) => Scan(c, line, build)
  }

  const AT_START := Cursor([], None, None)

  ghost predicate CursorFits(c: Cursor, lines: seq<Line>, i: nat, build: RowBuilder)
    requires i <= |lines|
  {
    && c.rows == Table(lines, i, build)
    && match BlockAt(lines, i)
       case None => c.block.None? && c.service.None?
       case Some(o) => lines[o].Text? && c.block == Some(lines[o].indent) && c.service == NearestKey(lines, o, i)
  }

  lemma {:induction false} ScanComputesTable(lines: seq<Line>, i: nat, build: RowBuilder)
    requires i <= |lines|
    ensures CursorFits(Fold(Scanner(build), AT_START, lines[..i]), lines, i, build)
  {
    if i > 0 {
      ScanComputesTable(lines, i - 1, build);
      assert lines[..i][..i - 1] == lines[..i - 1];
    }
  }

  predicate IsText(line: Line) {
    line.Text?
  }

  lemma {:induction false} ScanSkipsBlanks(c: Cursor, lines: seq<Line>, build: RowBuilder)
    ensures Fold(Scanner(build), c, lines) == Fold(Scanner(build), c, Filter(lines, IsText))
  {
    if lines != [] {
      var n := |lines| - 1;
      ScanSkipsBlanks(c, lines[..n], build);
      if lines[n].Text? {
        var rest := Filter(lines[..n], IsText);
        assert (rest + [lines[n]])[..|rest|] == rest;
      }
    }
  }

  /** The lines of a text that are neither blank nor comments. */
  ghost function Relevant(text: string): seq<string> {
    Filter(Lines(text), line => !IsSkipped(line))
  }

  lemma {:induction false} RelevantLinesRead(lines: seq<string>, relevant: string -> bool)
    requires forall line :: relevant(line) <==> ReadLine(line).Text?
    ensures ReadLines(Filter(lines, relevant)) == Filter(ReadLines(lines), IsText)
  {
    if lines != [] {
      RelevantLinesRead(lines[..|lines| - 1], relevant);
      assert ReadLines(lines)[..|lines| - 1] == ReadLines(lines[..|lines| - 1]);
    }
  }

  /** The table of a text is what scanning its relevant lines yields. */
  lemma TableScansRelevant(text: string, version: Option<string>)
    ensures TableOf(text, version) == Fold(Scanner(RowsFor(version)), AT_START, ReadLines(Relevant(text))).rows
  {
    var lines, build := Lines(text), RowsFor(version);
    forall line
      ensures !IsSkipped(line) <==> ReadLine(line).Text?
    {
      SkippedIsBlank(line);
    }
    RelevantLinesRead(lines, line => !IsSkipped(line));
    ScanSkipsBlanks(AT_START, ReadLines(lines), build);
    ScanComputesTable(ReadLines(lines), |lines|, build);
    assert ReadLines(lines)[..|lines|] == ReadLines(lines);
  }

  /** Texts that differ only in blank lines and comments, anywhere, have the same table. */
  lemma CommentsDoNotMatter(text1: string, text2: string, version: Option<string>)
    requires Relevant(text1) == Relevant(text2)
    ensures TableOf(text1, version) == TableOf(text2, version)
  {
    TableScansRelevant(text1, version);
    TableScansRelevant(text2, version);
  }

  /** So a blank line or a comment can be put between any two lines. */
  lemma CommentCanBeInserted(before: string, line: string, after: string, version: Option<string>)
    requires before == "" || before[|before| - 1] == '\n'
    requires '\n' !in line && IsSkipped(line)
    ensures TableOf(before + (line + "\n" + after), version) == TableOf(before + after, version)
  {
    LinesAppend(before, line + "\n" + after);
    LinesAppend(before, after);
    var l := InsertedLine(line, after);
    InsertedIsIrrelevant(Lines(before), l, Lines(after));
    CommentsDoNotMatter(before + (line + "\n" + after), before + after, version);
  }

  lemma InsertedIsIrrelevant(before: seq<string>, line: string, after: seq<string>)
    requires IsSkipped(line)
    ensures var relevant := (l: string) => !IsSkipped(l);
            Filter(before + ([line] + after), relevant) == Filter(before + after, relevant)
  {
    var relevant := (l: string) => !IsSkipped(l);
    FilterAppend(before, [line] + after, relevant);
    FilterAppend([line], after, relevant);
    FilterAppend(before, after, relevant);
    assert [line][..0] == [] && Filter([line], relevant) == [];
  }

  lemma InsertedLine(line: string, after: string) returns (l: string)
    requires '\n' !in line && IsSkipped(line)
    ensures Lines(line + "\n" + after) == [l] + Lines(after) && IsSkipped(l)
  {
    LinesAtBreak(line, after);
    l := WithoutCr(line);
    var k: nat :| SkippedFrom(line, k);
    var m := if k < |l| then k else |l|;
    assert l[..m] == line[..m];
    assert forall i :: 0 <= i < m ==> line[i] == line[..k][i];
    assert SkippedFrom(l, m);
  }

  // ----- round trip -----

  datatype Service = Service(name: string, image: string, digest: string)

  /** No whitespace at either end. */
  predicate Tight(s: string) {
    s != "" && !IsWhitespace(s[0]) && !IsWhitespace(s[|s| - 1])
  }

  /** A service name: a bare key that is not a comment. */
  predicate WellFormedKey(key: string) {
    && key != "" && key[0] != '-' && key[0] != '#' && ':' !in key
    && forall c <- key :: !IsWhitespace(c)
  }

  ghost predicate WellFormed(s: Service) {
    && WellFormedKey(s.name)
    && Tight(s.image) && '\n' !in s.image && !Contains(DIGEST_MARK, s.image)
    && Tight(s.digest) && '\n' !in s.digest
  }

  /** Leading blanks of a line. */
  predicate IsIndent(indent: string) {
    indent != "" && '\n' !in indent && forall i :: 0 <= i < |indent| ==> IsWhitespace(indent[i])
  }

  /** How the printer lays a compose text out: any blanks before keys and before image lines. */
  datatype Layout = Layout(keyIndent: string, imageIndent: string) {
    predicate Valid() {
      IsIndent(keyIndent) && IsIndent(imageIndent)
    }
  }

  function KeyLine(indent: string, key: string): string {
    indent + (key + ":")
  }

  function ImageValue(s: Service): string {
    s.image + (DIGEST_MARK + s.digest)
  }

  function ImageLine(indent: string, s: Service): string {
    indent + ("image: " + ImageValue(s))
  }

  function PrintServices(layout: Layout, services: seq<Service>): string {
    if services == [] then ""
    else
      KeyLine(layout.keyIndent, services[0].name) + "\n"
      + (ImageLine(layout.imageIndent, services[0]) + "\n" + PrintServices(layout, services[1..]))
  }

  /** The services as a compose text. */
  function PrintCompose(layout: Layout, services: seq<Service>): string {
    SERVICES + "\n" + PrintServices(layout, services)
  }

  function ServiceLines(layout: Layout, services: seq<Service>): seq<string> {
    if services == [] then []
    else
      [KeyLine(layout.keyIndent, services[0].name), ImageLine(layout.imageIndent, services[0])]
      + ServiceLines(layout, services[1..])
  }

  lemma IndentedLineReads(indent: string, body: string)
    requires IsIndent(indent) && Tight(body) && '\n' !in body
    ensures TrimStart(indent + body) == body
    ensures Indent(indent + body) > 0
    ensures '\n' !in indent + body && !EndsWith(indent + body, '\r')
  {
    var line := indent + body;
    TrimStartOfIndented(indent, body);
    assert line[..|line| - |body|] == indent;
    assert line[|line| - 1] == body[|body| - 1];
  }

  lemma IndentedLineIsRead(indent: string, body: string)
    requires IsIndent(indent) && Tight(body) && '\n' !in body && body[0] != '#'
    ensures var line := ReadLine(indent + body);
            && line.Text? && line.indent > 0 && line.key == ServiceKey(body)
            && line.imageRef == if IMAGE <= body then Some(Trim(body[|IMAGE|..])) else None
  {
    IndentedLineReads(indent, body);
  }

  lemma KeyBody(key: string)
    requires WellFormedKey(key)
    ensures var body := key + ":";
            Tight(body) && '\n' !in body && body[0] != '#' && ServiceKey(body) == Some(key)
  {
    var body := key + ":";
    assert body[0] == key[0] && key[0] in key;
    assert IsWhitespace('\n');
    assert body[..|body| - 1] == key;
  }

  lemma KeyLineReads(indent: string, key: string)
    requires IsIndent(indent) && WellFormedKey(key)
    ensures var line := KeyLine(indent, key);
            && '\n' !in line && !EndsWith(line, '\r')
            && ReadLine(line).Text? && ReadLine(line).indent > 0 && ReadLine(line).key == Some(key)
  {
    KeyBody(key);
    IndentedLineReads(indent, key + ":");
    IndentedLineIsRead(indent, key + ":");
  }

  lemma ImageBodyIsNoKey(value: string)
    ensures ServiceKey("image: " + value).None?
  {
    var body := "image: " + value;
    if EndsWith(body, ':') {
      var key := body[..|body| - 1];
      assert key[6] == ' ' && ' ' in key;
    }
  }

  lemma ValueIsTight(s: Service)
    requires WellFormed(s)
    ensures Tight(ImageValue(s)) && '\n' !in ImageValue(s)
  {
    var value := ImageValue(s);
    assert value[0] == s.image[0] && value[|value| - 1] == s.digest[|s.digest| - 1];
  }

  lemma ImageBodyIsTight(value: string)
    requires Tight(value) && '\n' !in value
    ensures Tight("image: " + value) && '\n' !in "image: " + value
  {
    var body := "image: " + value;
    assert body[0] == 'i' && body[|body| - 1] == value[|value| - 1];
  }

  lemma TrimOfTight(s: string)
    requires Tight(s)
    ensures Trim(s) == s && Trim(" " + s) == s
  {
    TrimEndOfTight(s);
    TrimStartOfIndented(" ", s);
  }

  lemma ImageLineReads(indent: string, s: Service)
    requires IsIndent(indent) && WellFormed(s)
    ensures var line := ImageLine(indent, s);
            && '\n' !in line && !EndsWith(line, '\r')
            && ReadLine(line).Text? && ReadLine(line).indent > 0
            && ReadLine(line).key.None? && ReadLine(line).imageRef == Some(ImageValue(s))
  {
    var value := ImageValue(s);
    ValueIsTight(s);
    ImageBodyReads(indent, value);
  }

  lemma ImageBodyParts(value: string)
    requires Tight(value)
    ensures var body := "image: " + value;
            IMAGE <= body && body[|IMAGE|..] == " " + value && body[0] != '#'
  {
    var body := "image: " + value;
    assert body[..|IMAGE|] == IMAGE && body[|IMAGE|..] == " " + value;
  }

  lemma ImageBodyReads(indent: string, value: string)
    requires IsIndent(indent) && Tight(value) && '\n' !in value
    ensures var line := indent + ("image: " + value);
            && '\n' !in line && !EndsWith(line, '\r')
            && ReadLine(line).Text? && ReadLine(line).indent > 0
            && ReadLine(line).key.None? && ReadLine(line).imageRef == Some(value)
  {
    var body := "image: " + value;
    ImageBodyIsTight(value);
    ImageBodyParts(value);
    IndentedLineReads(indent, body);
    IndentedLineIsRead(indent, body);
    ImageBodyIsNoKey(value);
    TrimOfTight(value);
  }

  lemma ValueSplits(s: Service)
    requires WellFormed(s)
    ensures SplitOnce(ImageValue(s), DIGEST_MARK) == Some((s.image, s.digest))
  {
    var value := ImageValue(s);
    FindAfterPrefix(DIGEST_MARK, s.image, DIGEST_MARK + s.digest);
    assert value[..|s.image|] == s.image;
    assert value[|s.image| + |DIGEST_MARK|..] == s.digest;
  }

  /** The row a printed service comes back as. */
  ghost function ServiceRow(s: Service, version: Option<string>): ImageRow {
    var outlayer := Contains("outlayer/near-outlayer", s.image);
    var released := outlayer && version.Some?;
    ImageRow(
      s.name, s.image, "sha256:" + s.digest, "https://search.sigstore.dev/?hash=" + ("sha256:" + s.digest),
      if released then Some("https://github.com/out-layer/outlayer/releases/tag/v" + version.value) else None,
      if outlayer then OutLayerBuilt else DstackSystemImage)
  }

  lemma SplitValueYieldsRow(value: string, s: Service, version: Option<string>)
    requires SplitOnce(value, DIGEST_MARK) == Some((s.image, s.digest))
    requires Trim(s.image) == s.image != "" && Trim(s.digest) == s.digest != ""
    ensures ParseImageRow(value, Some(s.name), version) == Some(ServiceRow(s, version))
  {
  }

  lemma ValueYieldsRow(s: Service, version: Option<string>)
    requires WellFormed(s)
    ensures ParseImageRow(ImageValue(s), Some(s.name), version) == Some(ServiceRow(s, version))
  {
    ValueSplits(s);
    TrimOfTight(s.image);
    TrimOfTight(s.digest);
    SplitValueYieldsRow(ImageValue(s), s, version);
  }

  ghost predicate AllWellFormed(services: seq<Service>) {
    forall k :: 0 <= k < |services| ==> WellFormed(services[k])
  }

  lemma {:induction false} PrintedServicesRead(layout: Layout, services: seq<Service>)
    requires layout.Valid() && AllWellFormed(services)
    ensures Lines(PrintServices(layout, services)) == ServiceLines(layout, services)
  {
    if services != [] {
      var rest := PrintServices(layout, services[1..]);
      PrintedServiceReads(layout, services[0], rest);
      PrintedServicesRead(layout, services[1..]);
    }
  }

  lemma PrintedServiceReads(layout: Layout, s: Service, rest: string)
    requires layout.Valid() && WellFormed(s)
    ensures var key, image := KeyLine(layout.keyIndent, s.name), ImageLine(layout.imageIndent, s);
            Lines(key + "\n" + (image + "\n" + rest)) == [key, image] + Lines(rest)
  {
    KeyLineReads(layout.keyIndent, s.name);
    ImageLineReads(layout.imageIndent, s);
    TwoLines(KeyLine(layout.keyIndent, s.name), ImageLine(layout.imageIndent, s), rest);
  }

  lemma TwoLines(first: string, second: string, rest: string)
    requires '\n' !in first && !EndsWith(first, '\r') && '\n' !in second && !EndsWith(second, '\r')
    ensures Lines(first + "\n" + (second + "\n" + rest)) == [first, second] + Lines(rest)
  {
    LinesOfOneMore(second, rest);
    LinesOfOneMore(first, second + "\n" + rest);
  }

  lemma {:induction false} ServiceLinesAt(layout: Layout, services: seq<Service>, k: nat)
    requires k < |services|
    ensures |ServiceLines(layout, services)| == 2 * |services|
    ensures ServiceLines(layout, services)[2 * k] == KeyLine(layout.keyIndent, services[k].name)
    ensures ServiceLines(layout, services)[2 * k + 1] == ImageLine(layout.imageIndent, services[k])
  {
    if k > 0 {
      ServiceLinesAt(layout, services[1..], k - 1);
    } else if |services| > 1 {
      ServiceLinesAt(layout, services[1..], 0);
    }
  }

  /** What the scanner reads off the printed lines: an opener at the margin, then for each service
      its key and its image, both indented. */
  ghost predicate PrintedShape(lines: seq<Line>, services: seq<Service>) {
    && |lines| == 2 * |services| + 1
    && lines[0].Text? && lines[0].opens && lines[0].indent == 0
    && forall k :: 0 <= k < |services| ==> PairShape(lines, services, k)
  }

  ghost predicate PairShape(lines: seq<Line>, services: seq<Service>, k: nat)
    requires k < |services| && |lines| == 2 * |services| + 1
  {
    var key, image := lines[2 * k + 1], lines[2 * k + 2];
    && key.Text? && key.indent > 0 && key.key == Some(services[k].name)
    && image.Text? && image.indent > 0 && image.key.None?
    && image.imageRef == Some(ImageValue(services[k]))
  }

  lemma OpenerReads()
    ensures ReadLine(SERVICES).Text? && ReadLine(SERVICES).opens && ReadLine(SERVICES).indent == 0
  {
  }

  lemma PairIsRead(layout: Layout, services: seq<Service>, read: seq<Line>, k: nat)
    requires layout.Valid() && k < |services| && WellFormed(services[k])
    requires |read| == 2 * |services| + 1
    requires read[2 * k + 1] == ReadLine(KeyLine(layout.keyIndent, services[k].name))
    requires read[2 * k + 2] == ReadLine(ImageLine(layout.imageIndent, services[k]))
    ensures PairShape(read, services, k)
  {
    KeyLineReads(layout.keyIndent, services[k].name);
    ImageLineReads(layout.imageIndent, services[k]);
  }

  lemma PrintedLineAt(layout: Layout, services: seq<Service>, lines: seq<string>, k: nat)
    requires k < |services| && lines == [SERVICES] + ServiceLines(layout, services)
    ensures |lines| == 2 * |services| + 1
    ensures lines[2 * k + 1] == KeyLine(layout.keyIndent, services[k].name)
    ensures lines[2 * k + 2] == ImageLine(layout.imageIndent, services[k])
  {
    ServiceLinesAt(layout, services, k);
  }

  lemma PrintedPairHasShape(layout: Layout, services: seq<Service>, lines: seq<string>, k: nat)
    requires layout.Valid() && k < |services| && WellFormed(services[k])
    requires lines == [SERVICES] + ServiceLines(layout, services)
    ensures |lines| == 2 * |services| + 1 && PairShape(ReadLines(lines), services, k)
  {
    PrintedLineAt(layout, services, lines, k);
    PairIsRead(layout, services, ReadLines(lines), k);
  }

  lemma PrintedLinesHaveShape(layout: Layout, services: seq<Service>)
    requires layout.Valid() && AllWellFormed(services)
    ensures PrintedShape(ReadLines([SERVICES] + ServiceLines(layout, services)), services)
  {
    var lines := [SERVICES] + ServiceLines(layout, services);
    OpenerReads();
    if services != [] {
      PrintedLineAt(layout, services, lines, 0);
    }
    forall k | 0 <= k < |services|
      ensures PairShape(ReadLines(lines), services, k)
    {
      PrintedPairHasShape(layout, services, lines, k);
    }
  }

  lemma PrintedBlockStaysOpen(lines: seq<Line>, services: seq<Service>, i: nat)
    requires PrintedShape(lines, services) && 1 <= i < |lines|
    ensures InBlock(lines, 0, i)
  {
    forall c | 0 < c <= i
      ensures !Closes(lines[0], lines[c])
    {
      assert PairShape(lines, services, (c - 1) / 2);
    }
    assert Starts(lines, 0);
  }

  lemma {:induction false} CollectPairs<T>(f: nat -> Option<T>, rows: seq<T>, n: nat)
    requires n <= |rows| && f(0) == None
    requires forall k: nat :: k < |rows| ==> f(2 * k + 1) == None && f(2 * k + 2) == Some(rows[k])
    ensures Collect(f, 2 * n + 1) == rows[..n]
  {
    if n == 0 {
      assert Collect(f, 0) == [];
    } else {
      CollectPairs(f, rows, n - 1);
      var k: nat := n - 1;
      assert f(2 * k + 1) == None && f(2 * k + 2) == Some(rows[k]);
      assert Collect(f, 2 * k + 2) == Collect(f, 2 * k + 1);
      assert rows[..n] == rows[..n - 1] + [rows[n - 1]];
    }
  }

  /** Lines `2k + 1` and `2k + 2` yield nothing and `row`. */
  ghost predicate PairYields(lines: seq<Line>, k: nat, row: ImageRow, build: RowBuilder) {
    Rows(lines, build)(2 * k + 1) == None && Rows(lines, build)(2 * k + 2) == Some(row)
  }

  /** The two lines of service `k`: no row for its key, its own row for its image. */
  lemma PrintedPair(lines: seq<Line>, services: seq<Service>, k: nat, build: RowBuilder, row: ImageRow)
    requires PrintedShape(lines, services) && k < |services|
    requires build(ImageValue(services[k]), Some(services[k].name)) == Some(row)
    ensures PairYields(lines, k, row, build)
  {
    assert PairShape(lines, services, k);
    PrintedBlockStaysOpen(lines, services, 2 * k + 1);
    PrintedBlockStaysOpen(lines, services, 2 * k + 2);
    RowInside(lines, 0, 2 * k + 1, build);
    RowInside(lines, 0, 2 * k + 2, build);
    assert NearestKey(lines, 0, 2 * k + 2) == KeyOf(lines[2 * k + 1]);
  }

  lemma PrintedTable(lines: seq<Line>, services: seq<Service>, build: RowBuilder, rows: seq<ImageRow>)
    requires PrintedShape(lines, services) && |rows| == |services|
    requires forall k :: 0 <= k < |rows| ==> build(ImageValue(services[k]), Some(services[k].name)) == Some(rows[k])
    ensures Table(lines, |lines|, build) == rows
  {
    var f := Rows(lines, build);
    forall k: nat | k < |rows|
      ensures f(2 * k + 1) == None && f(2 * k + 2) == Some(rows[k])
    {
      PrintedPair(lines, services, k, build, rows[k]);
    }
    CollectPairs(f, rows, |rows|);
    assert rows[..|rows|] == rows;
  }

  ghost function ServiceRows(services: seq<Service>, version: Option<string>): seq<ImageRow> {
    seq(|services|, k requires 0 <= k < |services| => ServiceRow(services[k], version))
  }

  lemma ServicesYieldRows(services: seq<Service>, version: Option<string>)
    requires AllWellFormed(services)
    ensures forall k :: 0 <= k < |services| ==>
              RowsFor(version)(ImageValue(services[k]), Some(services[k].name)) ==
              Some(ServiceRows(services, version)[k])
  {
    forall k | 0 <= k < |services|
      ensures RowsFor(version)(ImageValue(services[k]), Some(services[k].name)) ==
              Some(ServiceRows(services, version)[k])
    {
      ValueYieldsRow(services[k], version);
    }
  }

  /** Printing services, with any indentation, and scanning the text gives back exactly one row per
      service, in order, with the same container, image and digest. */
  lemma ComposeRoundTrip(layout: Layout, services: seq<Service>, version: Option<string>)
    requires layout.Valid() && AllWellFormed(services)
    ensures TableOf(PrintCompose(layout, services), version) == ServiceRows(services, version)
  {
    PrintedServicesRead(layout, services);
    LinesOfOneMore(SERVICES, PrintServices(layout, services));
    PrintedLinesHaveShape(layout, services);
    ServicesYieldRows(services, version);
    PrintedTable(ReadLines([SERVICES] + ServiceLines(layout, services)), services, RowsFor(version),
                 ServiceRows(services, version));
  }

  /** The line does not start, behind its indent, with "services:". */
  ghost predicate OpensNothing(line: string) {
    forall k: nat :: k <= |line| && (forall i :: 0 <= i < k ==> IsWhitespace(line[i])) ==> !("services:" <= line[k..])
  }

  /** Something else at the margin, which ends the block. */
  ghost predicate EndsBlock(line: string) {
    line != "" && !IsWhitespace(line[0]) && line[0] != '#' && !("services:" <= line)
  }

  lemma OpensNothingReads(line: string)
    requires OpensNothing(line)
    ensures ReadLine(line).Text? ==> !ReadLine(line).opens
  {
    TrimStartTakesBlanks(line);
    assert line[|line| - |TrimStart(line)|..] == TrimStart(line);
  }

  lemma EndsBlockReads(line: string)
    requires EndsBlock(line)
    ensures ReadLine(line).Text? && ReadLine(line).indent == 0 && !ReadLine(line).opens
  {
    assert line[..0] == "";
  }

  lemma {:induction false} NothingOpens(c: Cursor, lines: seq<string>, build: RowBuilder)
    requires c.block.None? && forall i :: 0 <= i < |lines| ==> OpensNothing(lines[i])
    ensures Fold(Scanner(build), c, ReadLines(lines)) == c
  {
    if lines != [] {
      var n := |lines| - 1;
      NothingOpens(c, lines[..n], build);
      OpensNothingReads(lines[n]);
      assert ReadLines(lines)[..n] == ReadLines(lines[..n]);
    }
  }

  lemma PrintedBlockIsOpen(lines: seq<Line>, services: seq<Service>)
    requires PrintedShape(lines, services)
    ensures BlockAt(lines, |lines|) == Some(0)
  {
    var n := |lines| - 1;
    if n > 0 {
      PrintedBlockStaysOpen(lines, services, n);
      OpenBeforeGrows(lines, 0, n);
      BlockAtIsOpenBlock(lines, n + 1, 0);
    } else {
      assert BlockAt(lines, 0).None? && BlockAt(lines, 1) == Some(0);
    }
  }

  lemma ScanAtEnd(lines: seq<Line>, build: RowBuilder)
    ensures CursorFits(Fold(Scanner(build), AT_START, lines), lines, |lines|, build)
  {
    ScanComputesTable(lines, |lines|, build);
    assert lines[..|lines|] == lines;
  }

  lemma PrintedScan(lines: seq<Line>, services: seq<Service>, version: Option<string>) returns (c: Cursor)
    requires AllWellFormed(services) && PrintedShape(lines, services)
    ensures c == Fold(Scanner(RowsFor(version)), AT_START, lines)
    ensures c.rows == ServiceRows(services, version) && c.block == Some(0)
  {
    ServicesYieldRows(services, version);
    PrintedTable(lines, services, RowsFor(version), ServiceRows(services, version));
    PrintedBlockIsOpen(lines, services);
    ScanAtEnd(lines, RowsFor(version));
    c := Fold(Scanner(RowsFor(version)), AT_START, lines);
  }

  /** The round trip in context: other keys before the printed services, anything from a key at the margin
      on behind them, and blank lines and comments anywhere, change nothing. */
  lemma ComposeRoundTripInContext(text: string, head: seq<string>, layout: Layout, services: seq<Service>,
                                  rest: seq<string>, version: Option<string>)
    requires layout.Valid() && AllWellFormed(services)
    requires Relevant(text) == head + ([SERVICES] + ServiceLines(layout, services)) + rest
    requires forall i :: 0 <= i < |head| ==> OpensNothing(head[i])
    requires rest != [] ==> EndsBlock(rest[0]) && forall i :: 0 < i < |rest| ==> OpensNothing(rest[i])
    ensures TableOf(text, version) == ServiceRows(services, version)
  {
    var printed := [SERVICES] + ServiceLines(layout, services);
    TableScansRelevant(text, version);
    ScanParts(AT_START, head, printed, rest, RowsFor(version));
    NothingOpens(AT_START, head, RowsFor(version));
    PrintedLinesHaveShape(layout, services);
    var c := PrintedScan(ReadLines(printed), services, version);
    if rest != [] {
      RestIsIgnored(c, rest, RowsFor(version));
    }
  }

  lemma ScanParts(c: Cursor, head: seq<string>, middle: seq<string>, rest: seq<string>, build: RowBuilder)
    ensures Fold(Scanner(build), c, ReadLines(head + middle + rest)) ==
            Fold(Scanner(build), Fold(Scanner(build), Fold(Scanner(build), c, ReadLines(head)), ReadLines(middle)),
                 ReadLines(rest))
  {
    assert ReadLines(head + middle + rest) == ReadLines(head) + ReadLines(middle) + ReadLines(rest);
    FoldAppend(Scanner(build), c, ReadLines(head) + ReadLines(middle), ReadLines(rest));
    FoldAppend(Scanner(build), c, ReadLines(head), ReadLines(middle));
  }

  lemma RestIsIgnored(c: Cursor, rest: seq<string>, build: RowBuilder)
    requires c.block == Some(0)
    requires rest != [] && EndsBlock(rest[0]) && forall i :: 0 < i < |rest| ==> OpensNothing(rest[i])
    ensures Fold(Scanner(build), c, ReadLines(rest)).rows == c.rows
  {
    EndsBlockReads(rest[0]);
    var closed := Cursor(c.rows, None, None);
    assert ReadLines(rest) == ReadLines(rest[..1]) + ReadLines(rest[1..]);
    FoldAppend(Scanner(build), c, ReadLines(rest[..1]), ReadLines(rest[1..]));
    assert ReadLines(rest[..1]) == [ReadLine(rest[0])] && [ReadLine(rest[0])][..0] == [];
    assert Fold(Scanner(build), c, [ReadLine(rest[0])]) == closed;
    NothingOpens(closed, rest[1..], build);
  }

  /** A compose text with one service, and another bare key (say `environment:`) between the
      service's own key and its image. */
  function PrintNested(layout: Layout, s: Service, nestedIndent: string, nested: string): string {
    SERVICES + "\n"
    + (KeyLine(layout.keyIndent, s.name) + "\n"
       + (KeyLine(nestedIndent, nested) + "\n" + (ImageLine(layout.imageIndent, s) + "\n" + "")))
  }

  function NestedLines(layout: Layout, s: Service, nestedIndent: string, nested: string): seq<string> {
    [SERVICES, KeyLine(layout.keyIndent, s.name), KeyLine(nestedIndent, nested), ImageLine(layout.imageIndent, s)]
  }

  /** The table does not follow "the service key": in any such text the row is credited to the
      other key. */
  lemma NestedKeyTakesTheRow(layout: Layout, s: Service, nestedIndent: string, nested: string,
                             version: Option<string>)
    requires layout.Valid() && WellFormed(s) && IsIndent(nestedIndent) && WellFormedKey(nested)
    ensures TableOf(PrintNested(layout, s, nestedIndent, nested), version) ==
            [ServiceRow(s.(name := nested), version)]
  {
    var build, row := RowsFor(version), ServiceRow(s.(name := nested), version);
    assert build(ImageValue(s), Some(nested)) == Some(row) by {
      RenamedValue(s, nested, version);
    }
    NestedTextReads(layout, s, nestedIndent, nested);
    NestedLinesHaveShape(layout, s, nestedIndent, nested);
    NestedTable(ReadLines(NestedLines(layout, s, nestedIndent, nested)), nested, ImageValue(s), build, row);
  }

  lemma NestedTextReads(layout: Layout, s: Service, nestedIndent: string, nested: string)
    requires layout.Valid() && WellFormed(s) && IsIndent(nestedIndent) && WellFormedKey(nested)
    ensures Lines(PrintNested(layout, s, nestedIndent, nested)) == NestedLines(layout, s, nestedIndent, nested)
  {
    var key, other, image := KeyLine(layout.keyIndent, s.name), KeyLine(nestedIndent, nested),
                             ImageLine(layout.imageIndent, s);
    KeyLineReads(layout.keyIndent, s.name);
    KeyLineReads(nestedIndent, nested);
    ImageLineReads(layout.imageIndent, s);
    TwoLines(other, image, "");
    TwoLines(SERVICES, key, other + "\n" + (image + "\n" + ""));
  }

  lemma RenamedValue(s: Service, name: string, version: Option<string>)
    requires WellFormed(s) && WellFormedKey(name)
    ensures RowsFor(version)(ImageValue(s), Some(name)) == Some(ServiceRow(s.(name := name), version))
  {
    ValueYieldsRow(s.(name := name), version);
    assert ImageValue(s.(name := name)) == ImageValue(s);
  }

  ghost predicate NestedShape(lines: seq<Line>, nested: string, value: string) {
    && |lines| == 4 && lines[0].Text? && lines[1].Text? && lines[2].Text? && lines[3].Text?
    && lines[0].opens && lines[0].indent == 0
    && lines[1].indent > 0 && lines[2].indent > 0 && lines[3].indent > 0
    && lines[1].key.Some? && lines[2].key == Some(nested)
    && lines[3].key.None? && lines[3].imageRef == Some(value)
  }

  lemma NestedLinesHaveShape(layout: Layout, s: Service, nestedIndent: string, nested: string)
    requires layout.Valid() && WellFormed(s) && IsIndent(nestedIndent) && WellFormedKey(nested)
    ensures NestedShape(ReadLines(NestedLines(layout, s, nestedIndent, nested)), nested, ImageValue(s))
  {
    OpenerReads();
    KeyLineReads(layout.keyIndent, s.name);
    KeyLineReads(nestedIndent, nested);
    ImageLineReads(layout.imageIndent, s);
  }

  lemma NestedTable(lines: seq<Line>, nested: string, value: string, build: RowBuilder, row: ImageRow)
    requires NestedShape(lines, nested, value) && build(value, Some(nested)) == Some(row)
    ensures Table(lines, |lines|, build) == [row]
  {
    assert Starts(lines, 0);
    RowInside(lines, 0, 1, build);
    RowInside(lines, 0, 2, build);
    RowInside(lines, 0, 3, build);
    assert NearestKey(lines, 0, 3) == KeyOf(lines[2]);
    assert Table(lines, 1, build) == [] && Table(lines, 3, build) == Table(lines, 2, build) == [];
  }

  // ----- the release version -----

  /** A version is found exactly when the text after the last dash is a dotted number, and it is that text. */
  lemma ReleaseVersionIff(name: string, v: string)
    ensures ParseReleaseVersion(name) == Some(v) <==>
            && '.' in v && (forall c <- v :: c == '.' || '0' <= c <= '9')
            && (name == v || exists head :: name == head + "-" + v)
  {
    var last := LastDashPart(name);
    if |last| < |name| {
      var head := name[..|name| - |last| - 1];
      assert name == head + "-" + last;
    }
    if IsDottedNumber(v) && (name == v || exists head :: name == head + "-" + v) {
      assert '-' !in v;
      if name == v {
        DashFreeText(v);
      } else {
        var head :| name == head + "-" + v;
        TextAfterDash(head, v);
      }
    }
  }

  lemma {:induction false} DashFreeText(v: string)
    requires '-' !in v
    ensures LastDashPart(v) == v
  {
    if v != "" {
      DashFreeText(v[..|v| - 1]);
    }
  }

  lemma {:induction false} TextAfterDash(head: string, v: string)
    requires '-' !in v
    ensures LastDashPart(head + "-" + v) == v
  {
    var name := head + "-" + v;
    if v == "" {
      assert name[|name| - 1] == '-';
    } else {
      var m := |v| - 1;
      TextAfterDash(head, v[..m]);
      assert name[..|name| - 1] == head + "-" + v[..m];
      assert name[|name| - 1] == v[m];
    }
  }
}
