/** Finding file paths in text, splitting the text around them, and printing it as HTML. */
module FilePaths {
  import opened Prelude

  /** A range of the text that the path pattern matched. */
  datatype Match = Match(start: nat, end: nat)

  datatype Detected = Detected(text: string, filePath: string, lineNumber: Option<nat>, columnNumber: Option<nat>,
                               startIndex: nat, endIndex: nat)

  datatype Segment = Text(content: string) | FilePath(detected: Detected)

  // ---- line and column suffixes ------------------------------------------

  predicate AllDigits(s: string) { s != "" && OnlyDigits(s) }

  /** `s` is `:digits:digits` with its second colon at `j`. */
  predicate TwoParts(s: string, j: nat) {
    1 < j < |s| && s[j] == ':' && AllDigits(s[1..j]) && AllDigits(s[j + 1..])
  }

  /** `s` is `:digits` or `:digits:digits`. */
  predicate LineSuffix(s: string) {
    s != "" && s[0] == ':' && (AllDigits(s[1..]) || exists j :: 1 < j < |s| && TwoParts(s, j))
  }

  /** The least position from `k` on at which the rest of `s` is a line suffix. */
  function SuffixFrom(s: string, k: nat): (r: Option<nat>)
    requires k <= |s|
    ensures r.Some? ==> k <= r.value < |s| && LineSuffix(s[r.value..])
    ensures forall i :: k <= i < (if r.Some? then r.value else |s|) ==> !LineSuffix(s[i..])
    decreases |s| - k
  {
    if k == |s| then None else if LineSuffix(s[k..]) then Some(k) else SuffixFrom(s, k + 1)
  }

  /** What `.` does not match. */
  predicate IsLineTerminator(c: char) { c == '\n' || c == '\r' || c == '\U{2028}' || c == '\U{2029}' }

  predicate OneLine(s: string) { forall i :: 0 <= i < |s| ==> !IsLineTerminator(s[i]) }

  /** The stripping step of `isLikelyFilePath`: the leftmost suffix is removed. */
  function PathPortion(s: string): string {
    match SuffixFrom(s, 0)
    case Some(k) => s[..k]
    case None => s
  }

  datatype Location = Location(path: string, line: Option<nat>, column: Option<nat>)

  /** `parseLineColumn`: the shortest non-empty prefix that a suffix follows. */
  function ParseLineColumn(s: string): Location {
    if s == "" then Location(s, None, None)
    else match SuffixFrom(s, 1)
      case None => Location(s, None, None)
      case Some(k) =>
        if !OneLine(s[..k]) then Location(s, None, None)
        else if AllDigits(s[k + 1..]) then Location(s[..k], Some(NumberOf(s[k + 1..])), None)
        else
          var j := SecondColon(s[k..]);
          Location(s[..k], Some(NumberOf(s[k..][1..j])), Some(NumberOf(s[k..][j + 1..])))
  }

  function SecondColon(s: string): (j: nat)
    requires LineSuffix(s) && !AllDigits(s[1..])
    ensures TwoParts(s, j)
  {
    TwoPartsUnique(s);
    var j :| 1 < j < |s| && TwoParts(s, j); j
  }

  lemma NoColonBefore(s: string, i: nat, j: nat)
    requires TwoParts(s, j) && 1 <= i < j
    ensures s[i] != ':'
  {
    assert s[i] == s[1..j][i - 1];
  }

  lemma TwoPartsUnique(s: string)
    ensures forall i: nat, j: nat :: TwoParts(s, i) && TwoParts(s, j) ==> i == j
  {
    forall i: nat, j: nat | TwoParts(s, i) && TwoParts(s, j) ensures i == j {
      if i < j { NoColonBefore(s, i, j); }
      if j < i { NoColonBefore(s, j, i); }
    }
  }

  /** The lazy split and the leftmost strip give the same path exactly when the string is
      not itself a suffix and no line terminator stands before its first suffix. */
  lemma SamePathExactly(s: string)
    ensures ParseLineColumn(s).path == PathPortion(s) <==>
      !LineSuffix(s) && (SuffixFrom(s, 0).Some? ==> OneLine(s[..SuffixFrom(s, 0).value]))
  {
    assert s[0..] == s;
    if s != "" && !LineSuffix(s) { assert SuffixFrom(s, 0) == SuffixFrom(s, 1); }
  }

  /** In particular for every newline-free string that does not start with a colon. */
  lemma SamePath(s: string)
    requires OneLine(s) && (s == "" || s[0] != ':')
    ensures ParseLineColumn(s).path == PathPortion(s)
  {
    SamePathExactly(s);
  }

  /** The first suffix of a colon-free text followed by one is that one. */
  lemma SuffixAt(p: string, suffix: string)
    requires p != "" && ':' !in p && LineSuffix(suffix)
    ensures SuffixFrom(p + suffix, 1) == Some(|p|)
  {
    var s := p + suffix;
    assert s[|p|..] == suffix;
    assert forall k :: 0 <= k < |p| ==> s[k..][0] == p[k];
  }

  /** A path without a colon has no numbers, and none are found. */
  lemma PlainPathReads(p: string)
    requires ':' !in p
    ensures ParseLineColumn(p) == Location(p, None, None)
  {
    assert forall k :: 0 <= k < |p| ==> p[k..][0] == p[k];
  }

  /** A line number behind a path is read as the line, in decimal. */
  lemma LineReads(p: string, l: nat)
    requires p != "" && ':' !in p && OneLine(p)
    ensures ParseLineColumn(p + (":" + Decimal(l))) == Location(p, Some(l), None)
  {
    var suffix := ":" + Decimal(l);
    assert suffix[1..] == Decimal(l);
    SuffixAt(p, suffix);
    NumberOfDecimal(l);
    var s := p + suffix;
    assert s[..|p|] == p && s[|p|..] == suffix;
    assert s[|p| + 1..] == Decimal(l);
  }

  /** Of two numbers behind a path the first is the line and the second the column. */
  lemma LineAndColumnRead(p: string, l: nat, c: nat)
    requires p != "" && ':' !in p && OneLine(p)
    ensures ParseLineColumn(p + (":" + Decimal(l) + (":" + Decimal(c)))) == Location(p, Some(l), Some(c))
  {
    var suffix, j := ":" + Decimal(l) + (":" + Decimal(c)), 1 + |Decimal(l)|;
    assert suffix[1..j] == Decimal(l) && suffix[j] == ':' && suffix[j + 1..] == Decimal(c);
    assert TwoParts(suffix, j);
    SuffixAt(p, suffix);
    var s := p + suffix;
    assert s[..|p|] == p && s[|p|..] == suffix;
    assert s[|p| + 1..][j - 1] == ':';
    TwoPartsUnique(suffix);
    NumberOfDecimal(l);
    NumberOfDecimal(c);
  }

  // ---- detection ---------------------------------------------------------

  /** What the pattern yields: non-empty ranges of the text, in order, not overlapping. */
  predicate Ascending(text: string, ms: seq<Match>, from: nat) {
    && (forall i :: 0 <= i < |ms| ==> from <= ms[i].start < ms[i].end <= |text|)
    && (forall i, j :: 0 <= i < j < |ms| ==> ms[i].end <= ms[j].start)
  }

  function DetectedAt(text: string, m: Match): Detected
    requires m.start <= m.end <= |text|
  {
    var s := text[m.start..m.end];
    var at := ParseLineColumn(s);
    Detected(s, at.path, at.line, at.column, m.start, m.end)
  }

  /** A match that prints a path, a line and a column is detected as these. */
  lemma DetectedReads(text: string, m: Match, p: string, l: nat, c: nat)
    requires m.start <= m.end <= |text| && p != "" && ':' !in p && OneLine(p)
    requires text[m.start..m.end] == p + (":" + Decimal(l) + (":" + Decimal(c)))
    ensures DetectedAt(text, m) == Detected(text[m.start..m.end], p, Some(l), Some(c), m.start, m.end)
  {
    LineAndColumnRead(p, l, c);
  }

  function Detect(text: string, ms: seq<Match>, likely: string -> bool): seq<Detected>
    requires Ascending(text, ms, 0)
  {
    if ms == [] then []
    else
      var last := ms[|ms| - 1];
      Detect(text, ms[..|ms| - 1], likely)
      + (if likely(text[last.start..last.end]) then [DetectedAt(text, last)] else [])
  }

  /** `pattern` is what the regular expression yields on the text, `likely` is
      `isLikelyFilePath`. */
  method DetectFilePaths(text: string, pattern: seq<Match>, likely: string -> bool) returns (results: seq<Detected>)
    requires Ascending(text, pattern, 0)
    ensures results == Detect(text, pattern, likely)
  {
    results := [];
    for n := 0 to |pattern|
      invariant results == Detect(text, pattern[..n], likely)
    {
      var matchStr := text[pattern[n].start..pattern[n].end];
      assert pattern[..n + 1][..n] == pattern[..n];
      if likely(matchStr) {
        var at := ParseLineColumn(matchStr);
        results := results + [Detected(matchStr, at.path, at.line, at.column, pattern[n].start, pattern[n].end)];
      }
    }
    assert pattern[..|pattern|] == pattern;
  }

  /** Detected paths are the text at their ranges, in order, not overlapping. */
  predicate InOrder(text: string, ds: seq<Detected>, from: nat) {
    && (forall i :: 0 <= i < |ds| ==>
        from <= ds[i].startIndex < ds[i].endIndex <= |text| && ds[i].text == text[ds[i].startIndex..ds[i].endIndex])
    && (forall i, j :: 0 <= i < j < |ds| ==> ds[i].endIndex <= ds[j].startIndex)
  }

  lemma {:induction false} DetectedInOrder(text: string, ms: seq<Match>, likely: string -> bool)
    requires Ascending(text, ms, 0)
    ensures InOrder(text, Detect(text, ms, likely), 0)
    ensures ms != [] ==> forall i :: 0 <= i < |Detect(text, ms, likely)| ==> Detect(text, ms, likely)[i].endIndex <= ms[|ms| - 1].end
  {
    if ms != [] { DetectedInOrder(text, ms[..|ms| - 1], likely); }
  }

  // ---- splitting ---------------------------------------------------------

  function Split(text: string, ds: seq<Detected>, from: nat): seq<Segment>
    requires from <= |text| && InOrder(text, ds, from)
  {
    if ds == [] then (if from < |text| then [Text(text[from..])] else [])
    else
      (if ds[0].startIndex > from then [Text(text[from..ds[0].startIndex])] else [])
      + [FilePath(ds[0])] + Split(text, ds[1..], ds[0].endIndex)
  }

  function Segments(text: string, ds: seq<Detected>): seq<Segment>
    requires InOrder(text, ds, 0)
  {
    if ds == [] then [Text(text)] else Split(text, ds, 0)
  }

  method SplitTextWithFilePaths(text: string, pattern: seq<Match>,
                                likely: string -> bool) returns (segments: seq<Segment>)
    requires Ascending(text, pattern, 0)
    ensures InOrder(text, Detect(text, pattern, likely), 0)
    ensures segments == Segments(text, Detect(text, pattern, likely))
  {
    var detected := DetectFilePaths(text, pattern, likely);
    DetectedInOrder(text, pattern, likely);
    if |detected| == 0 { return [Text(text)]; }
    segments := SplitAround(text, detected);
  }

  method SplitAround(text: string, detected: seq<Detected>) returns (segments: seq<Segment>)
    requires InOrder(text, detected, 0)
    ensures segments == Split(text, detected, 0)
  {
    segments := [];
    var lastIndex: nat := 0;
    for n := 0 to |detected|
      invariant lastIndex <= |text| && InOrder(text, detected[n..], lastIndex)
      invariant segments + Split(text, detected[n..], lastIndex) == Split(text, detected, 0)
    {
      var fp := detected[n];
      SplitNext(text, detected, n, lastIndex);
      Regroup(segments, Gap(text, lastIndex, fp.startIndex), fp, Split(text, detected[n + 1..], fp.endIndex));
      if fp.startIndex > lastIndex {
        segments := segments + [Text(text[lastIndex..fp.startIndex])];
      }
      segments := segments + [FilePath(fp)];
      lastIndex := fp.endIndex;
    }
    if lastIndex < |text| {
      segments := segments + [Text(text[lastIndex..])];
    }
  }

  lemma Regroup(done: seq<Segment>, gap: seq<Segment>, fp: Detected, rest: seq<Segment>)
    ensures done + (gap + [FilePath(fp)] + rest) == done + gap + [FilePath(fp)] + rest
    ensures gap == [] ==> done + gap == done
  {
  }

  lemma SplitNext(text: string, ds: seq<Detected>, n: nat, from: nat)
    requires n < |ds| && from <= |text| && InOrder(text, ds[n..], from)
    ensures InOrder(text, ds[n + 1..], ds[n].endIndex) && from <= ds[n].startIndex < ds[n].endIndex <= |text|
    ensures Split(text, ds[n..], from) == Gap(text, from, ds[n].startIndex) + [FilePath(ds[n])] + Split(text, ds[n + 1..], ds[n].endIndex)
  {
    var rest := ds[n..];
    assert rest[0] == ds[n] && rest[1..] == ds[n + 1..];
    assert forall i :: 0 < i < |rest| ==> rest[0].endIndex <= rest[i].startIndex;
  }

  function Content(s: Segment): string {
    match s
    case Text(content) => content
    case FilePath(d) => d.text
  }

  function Contents(segments: seq<Segment>): string {
    if segments == [] then "" else Content(segments[0]) + Contents(segments[1..])
  }

  function Paths(segments: seq<Segment>): seq<Detected> {
    if segments == [] then []
    else (if segments[0].FilePath? then [segments[0].detected] else []) + Paths(segments[1..])
  }

  predicate NoTextsAdjacent(segments: seq<Segment>) {
    forall i :: 0 <= i < |segments| - 1 ==> !(segments[i].Text? && segments[i + 1].Text?)
  }

  lemma {:induction false} ContentsAppend(a: seq<Segment>, b: seq<Segment>)
    ensures Contents(a + b) == Contents(a) + Contents(b)
    ensures Paths(a + b) == Paths(a) + Paths(b)
  {
    if a == [] {
      assert a + b == b;
    } else {
      assert (a + b)[1..] == a[1..] + b;
      ContentsAppend(a[1..], b);
    }
  }

  lemma {:induction false} SplitPartitions(text: string, ds: seq<Detected>, from: nat)
    requires from <= |text| && InOrder(text, ds, from)
    ensures Contents(Split(text, ds, from)) == text[from..]
    ensures Paths(Split(text, ds, from)) == ds
    ensures NoTextsAdjacent(Split(text, ds, from)) && NoneEmpty(Split(text, ds, from))
  {
    if ds != [] {
      SplitPartitions(text, ds[1..], ds[0].endIndex);
      SplitHead(text, ds, from);
    } else {
      assert Contents(Split(text, ds, from)) == text[from..];
    }
  }

  function Gap(text: string, from: nat, to: nat): seq<Segment>
    requires from <= to <= |text|
  {
    if to > from then [Text(text[from..to])] else []
  }

  lemma SplitHead(text: string, ds: seq<Detected>, from: nat)
    requires from <= |text| && ds != [] && InOrder(text, ds, from)
    requires var rest := Split(text, ds[1..], ds[0].endIndex);
      Contents(rest) == text[ds[0].endIndex..] && Paths(rest) == ds[1..] && NoTextsAdjacent(rest) && NoneEmpty(rest)
    ensures var all := Split(text, ds, from);
      Contents(all) == text[from..] && Paths(all) == ds && NoTextsAdjacent(all) && NoneEmpty(all)
  {
    var d := ds[0];
    var gap, rest := Gap(text, from, d.startIndex), Split(text, ds[1..], d.endIndex);
    assert Split(text, ds, from) == gap + [FilePath(d)] + rest;
    GapContents(text, from, d.startIndex);
    JoinContents(gap, d, rest);
    JoinText(text, from, d.startIndex, d.endIndex);
    JoinShape(gap, d, rest);
  }

  predicate NoneEmpty(segments: seq<Segment>) {
    forall i :: 0 <= i < |segments| ==> Content(segments[i]) != ""
  }

  lemma JoinText(text: string, a: nat, b: nat, c: nat)
    requires a <= b <= c <= |text|
    ensures text[a..b] + text[b..c] + text[c..] == text[a..]
  {
  }

  lemma JoinContents(gap: seq<Segment>, d: Detected, rest: seq<Segment>)
    ensures Contents(gap + [FilePath(d)] + rest) == Contents(gap) + d.text + Contents(rest)
    ensures Paths(gap + [FilePath(d)] + rest) == Paths(gap) + [d] + Paths(rest)
  {
    ContentsAppend(gap + [FilePath(d)], rest);
    ContentsAppend(gap, [FilePath(d)]);
    assert Contents([FilePath(d)]) == d.text && Paths([FilePath(d)]) == [d];
  }

  lemma JoinShape(gap: seq<Segment>, d: Detected, rest: seq<Segment>)
    requires |gap| <= 1 && d.text != "" && NoTextsAdjacent(rest)
    requires NoneEmpty(gap) && NoneEmpty(rest)
    ensures NoTextsAdjacent(gap + [FilePath(d)] + rest) && NoneEmpty(gap + [FilePath(d)] + rest)
  {
  }

  lemma GapContents(text: string, from: nat, to: nat)
    requires from <= to <= |text|
    ensures Contents(Gap(text, from, to)) == text[from..to] && Paths(Gap(text, from, to)) == []
  {
    if to > from { assert Contents([Text(text[from..to])]) == text[from..to]; }
  }

  /** Splitting partitions every text: the segments concatenate to it, the path segments are
      the detected paths in order, no two text segments are adjacent, and none is empty
      unless the text is. */
  lemma SegmentsPartition(text: string, ds: seq<Detected>)
    requires InOrder(text, ds, 0)
    ensures Contents(Segments(text, ds)) == text
    ensures Paths(Segments(text, ds)) == ds
    ensures NoTextsAdjacent(Segments(text, ds))
    ensures forall i :: 0 <= i < |Segments(text, ds)| && Content(Segments(text, ds)[i]) == "" ==> text == ""
  {
    SplitPartitions(text, ds, 0);
    assert text[0..] == text;
  }

  // ---- HTML --------------------------------------------------------------

  function Attributes(d: Detected, escape: string -> string): string {
    AttributeList("data-file-path=\"", escape(d.filePath), " data-line=\"", d.lineNumber, " data-column=\"", d.columnNumber)
  }

  function AttributeList(path: string, value: string, line: string, l: Option<nat>, column: string, c: Option<nat>): string {
    path + value + "\"" + NumberAttribute(line, l) + NumberAttribute(column, c)
  }

  function NumberAttribute(lead: string, n: Option<nat>): string {
    if n.Some? then lead + Decimal(n.value) + "\"" else ""
  }

  const OPENING := "a class=\"file-link\" "

  function SegmentHtml(s: Segment, escape: string -> string): string {
    match s
    case Text(content) => escape(content)
    case FilePath(d) => Anchor(OPENING + Attributes(d, escape), escape(d.text))
  }

  /** `transformFilePathsToHtml` over the segments of the text. */
  function Html(segments: seq<Segment>, escape: string -> string): string {
    if segments == [] then "" else SegmentHtml(segments[0], escape) + Html(segments[1..], escape)
  }

  // ---- reading an anchor back --------------------------------------------

  /** The pieces of a text between its double quotes. */
  function Quoted(s: string): (pieces: seq<string>)
    ensures pieces != []
  {
    if s == "" then [""]
    else
      var rest := Quoted(s[1..]);
      if s[0] == '"' then [""] + rest else [[s[0]] + rest[0]] + rest[1..]
  }

  lemma {:induction false} QuotedNext(a: string, b: string)
    requires '"' !in a
    ensures Quoted(a + ("\"" + b)) == [a] + Quoted(b)
  {
    if a == "" {
      assert a + ("\"" + b) == "\"" + b && ("\"" + b)[1..] == b;
    } else {
      assert (a + ("\"" + b))[1..] == a[1..] + ("\"" + b);
      QuotedNext(a[1..], b);
      assert [a[0]] + a[1..] == a;
    }
  }

  lemma {:induction false} QuotedLast(a: string)
    requires '"' !in a
    ensures Quoted(a) == [a]
  {
    if a != "" {
      QuotedLast(a[1..]);
      assert [a[0]] + a[1..] == a;
    }
  }

  /** A name and its value in quotes. */
  lemma QuotedPair(name: string, value: string, rest: string)
    requires '"' !in name && '"' !in value
    ensures Quoted(name + ("\"" + (value + ("\"" + rest)))) == [name, value] + Quoted(rest)
  {
    QuotedNext(name, value + ("\"" + rest));
    QuotedNext(value, rest);
  }

  /** The pieces of two texts written behind each other. */
  function Glued(ps: seq<string>, qs: seq<string>): seq<string>
    requires ps != [] && qs != []
  {
    ps[..|ps| - 1] + [ps[|ps| - 1] + qs[0]] + qs[1..]
  }

  lemma {:induction false} QuotedJoins(a: string, b: string)
    ensures Quoted(a + b) == Glued(Quoted(a), Quoted(b))
  {
    if a == "" {
      assert a + b == b && "" + Quoted(b)[0] == Quoted(b)[0];
      assert Quoted(b) == [Quoted(b)[0]] + Quoted(b)[1..];
    } else {
      assert (a + b)[1..] == a[1..] + b;
      QuotedJoins(a[1..], b);
      GluedFirst(a[0], Quoted(a[1..]), Quoted(b));
    }
  }

  lemma GluedFirst(c: char, ps: seq<string>, qs: seq<string>)
    requires ps != [] && qs != []
    ensures Glued([""] + ps, qs) == [""] + Glued(ps, qs)
    ensures Glued([[c] + ps[0]] + ps[1..], qs) == [[c] + Glued(ps, qs)[0]] + Glued(ps, qs)[1..]
  {
    if |ps| == 1 {
      assert [c] + ps[0] + qs[0] == [c] + (ps[0] + qs[0]);
    }
  }

  /** A name, an opening quote, a value and a closing quote. */
  lemma QuotedValue(lead: string, name: string, value: string)
    requires lead == name + "\"" && '"' !in name && '"' !in value
    ensures Quoted(lead + value + "\"") == [name, value, ""]
  {
    QuotedPair(name, value, "");
    assert lead + value + "\"" == name + ("\"" + (value + ("\"" + "")));
  }

  function NumberPieces(name: string, n: Option<nat>): seq<string> {
    if n.Some? then [name, Decimal(n.value)] else []
  }

  /** The pieces of the attributes; each lead is a name and an opening quote. */
  lemma ListRead(path: string, pathName: string, value: string, line: string, lineName: string, l: Option<nat>,
                 column: string, columnName: string, c: Option<nat>)
    requires path == pathName + "\"" && line == lineName + "\"" && column == columnName + "\""
    requires '"' !in pathName && '"' !in lineName && '"' !in columnName && '"' !in value
    ensures Quoted(AttributeList(path, value, line, l, column, c))
         == [pathName, value] + NumberPieces(lineName, l) + NumberPieces(columnName, c) + [""]
  {
    var first := path + value + "\"";
    QuotedValue(path, pathName, value);
    QuotedNumber(line, lineName, l);
    QuotedNumber(column, columnName, c);
    QuotedJoins(first, NumberAttribute(line, l));
    QuotedJoins(first + NumberAttribute(line, l), NumberAttribute(column, c));
    GluedValues(Quoted(first), Quoted(NumberAttribute(line, l)), Quoted(NumberAttribute(column, c)));
  }

  lemma AttributesRead(d: Detected, escape: string -> string)
    requires '"' !in escape(d.filePath)
    ensures Quoted(Attributes(d, escape))
         == ["data-file-path=", escape(d.filePath)] + NumberPieces(" data-line=", d.lineNumber)
            + NumberPieces(" data-column=", d.columnNumber) + [""]
  {
    ListRead("data-file-path=\"", "data-file-path=", escape(d.filePath), " data-line=\"", " data-line=", d.lineNumber,
             " data-column=\"", " data-column=", d.columnNumber);
  }

  lemma QuotedNumber(lead: string, name: string, n: Option<nat>)
    requires lead == name + "\"" && '"' !in name
    ensures Quoted(NumberAttribute(lead, n)) == if n.Some? then [name, Decimal(n.value), ""] else [""]
  {
    if n.Some? { QuotedValue(lead, name, Decimal(n.value)); }
  }

  /** Pieces that end or begin empty are glued by leaving that piece out. */
  lemma GluedValues(path: seq<string>, line: seq<string>, column: seq<string>)
    requires |path| == 3 && path[2] == ""
    requires line == [""] || (|line| == 3 && line[2] == "")
    requires column == [""] || (|column| == 3 && column[2] == "")
    ensures Glued(Glued(path, line), column) == path[..2] + line[..|line| - 1] + column[..|column| - 1] + [""]
  {
    if line == [""] {
      assert "" + line[0] == "";
      assert Glued(path, line) == path[..2] + [""];
    } else {
      assert "" + line[0] == line[0];
      assert Glued(path, line) == path[..2] + line[..2] + [""];
    }
    if column != [""] { assert "" + column[0] == column[0]; } else { assert "" + column[0] == ""; }
  }

  lemma QuotedValueThen(lead: string, name: string, value: string, tail: string)
    requires lead == name + "\"" && '"' !in name && '"' !in value && '"' !in tail
    ensures Quoted(lead + value + "\"" + tail) == [name, value, tail]
  {
    QuotedValue(lead, name, value);
    QuotedLast(tail);
    QuotedJoins(lead + value + "\"", tail);
    assert "" + tail == tail;
  }

  lemma OpeningRead(opening: string)
    requires opening == OPENING
    ensures Quoted(opening) == ["a class=", "file-link", " "]
  {
    QuotedValueThen("a class=\"", "a class=", "file-link", " ");
    assert opening == "a class=\"" + "file-link" + "\"" + " ";
  }

  lemma AnchorPieces(opening: string, attributes: string, body: string, end: string)
    requires '"' !in end && Anchor(opening + attributes, body) == "<" + (opening + attributes + end)
    ensures Quoted(Anchor(opening + attributes, body))
         == Glued(["<"], Glued(Glued(Quoted(opening), Quoted(attributes)), [end]))
  {
    QuotedJoins(opening, attributes);
    QuotedLast(end);
    QuotedLast("<");
    QuotedJoins(opening + attributes, end);
    QuotedJoins("<", opening + attributes + end);
  }

  lemma AnchorEnd(open: string, body: string)
    ensures Anchor(open, body) == "<" + (open + (">" + (body + "</a>")))
  {
    assert "</a>" == "<" + ("/a" + ">");
  }

  lemma EndUnquoted(body: string)
    requires '"' !in body
    ensures '"' !in ">" + (body + "</a>")
  {
  }

  /** The values in an anchor, with the names of the optional ones. */
  function AnchorValues(d: Detected, escape: string -> string): seq<string> {
    [escape(d.filePath)] + NumberPieces(" data-line=", d.lineNumber) + NumberPieces(" data-column=", d.columnNumber)
  }

  /** Read between its quotes, an anchor names the class, the path, the line and the column, each
      followed by its value, and shows the matched text. */
  lemma AnchorReads(d: Detected, escape: string -> string)
    requires '"' !in escape(d.filePath) && '"' !in escape(d.text)
    ensures Quoted(SegmentHtml(FilePath(d), escape))
         == ["<a class=", "file-link", " data-file-path="] + AnchorValues(d, escape) + [">" + (escape(d.text) + "</a>")]
  {
    var end, attributes := ">" + (escape(d.text) + "</a>"), Attributes(d, escape);
    EndUnquoted(escape(d.text));
    AttributesRead(d, escape);
    assert Quoted(attributes) == ["data-file-path="] + AnchorValues(d, escape) + [""];
    AnchorGlue(OPENING, attributes, escape(d.text), end, AnchorValues(d, escape));
  }

  lemma AnchorGlue(opening: string, attributes: string, body: string, end: string, values: seq<string>)
    requires opening == OPENING && end == ">" + (body + "</a>") && '"' !in end
    requires Quoted(attributes) == ["data-file-path="] + values + [""]
    ensures Quoted(Anchor(opening + attributes, body)) == ["<a class=", "file-link", " data-file-path="] + values + [end]
  {
    OpeningRead(opening);
    AnchorEnd(opening + attributes, body);
    assert opening + attributes + end == (opening + attributes) + end;
    AnchorPieces(opening, attributes, body, end);
    GluedAnchor(values, end);
  }

  lemma GluedAnchor(values: seq<string>, end: string)
    ensures Glued(["<"], Glued(Glued(["a class=", "file-link", " "], ["data-file-path="] + values + [""]), [end]))
         == ["<a class=", "file-link", " data-file-path="] + values + [end]
  {
    var begun := Glued(["a class=", "file-link", " "], ["data-file-path="] + values + [""]);
    assert " " + "data-file-path=" == " data-file-path=";
    assert begun == ["a class=", "file-link", " data-file-path="] + values + [""];
    assert "" + end == end;
    assert Glued(begun, [end]) == ["a class=", "file-link", " data-file-path="] + values + [end];
    assert "<" + "a class=" == "<a class=";
  }

  predicate TagFree(s: string) { '<' !in s && '>' !in s }

  /** Escaping works character by character and leaves no tag delimiter. */
  ghost predicate EscapesHtml(escape: string -> string) {
    && escape("") == ""
    && (forall a, b :: escape(a + b) == escape(a) + escape(b))
    && (forall a :: TagFree(escape(a)))
  }

  /** Drops everything between `<` and `>`. */
  function StripTags(s: string, inTag: bool): string {
    if s == "" then ""
    else if inTag then StripTags(s[1..], s[0] != '>')
    else if s[0] == '<' then StripTags(s[1..], true)
    else [s[0]] + StripTags(s[1..], false)
  }

  lemma {:induction false} StripPlain(a: string, b: string)
    requires TagFree(a)
    ensures StripTags(a + b, false) == a + StripTags(b, false)
  {
    if a == "" {
      assert a + b == b;
    } else {
      assert (a + b)[1..] == a[1..] + b;
      StripPlain(a[1..], b);
    }
  }

  lemma {:induction false} StripInside(a: string, b: string)
    requires TagFree(a)
    ensures StripTags(a + (">" + b), true) == StripTags(b, false)
  {
    if a == "" {
      assert a + (">" + b) == ">" + b && (">" + b)[1..] == b;
    } else {
      assert (a + (">" + b))[1..] == a[1..] + (">" + b);
      StripInside(a[1..], b);
    }
  }

  lemma StripTag(tag: string, b: string)
    requires TagFree(tag)
    ensures StripTags("<" + (tag + (">" + b)), false) == StripTags(b, false)
  {
    assert ("<" + (tag + (">" + b)))[1..] == tag + (">" + b);
    StripInside(tag, b);
  }

  function Anchor(open: string, body: string): string {
    "<" + (open + (">" + (body + ("<" + ("/a" + ">")))))
  }

  lemma StripAnchor(open: string, body: string, rest: string)
    requires TagFree(open) && TagFree(body)
    ensures StripTags(Anchor(open, body) + rest, false) == body + StripTags(rest, false)
  {
    var end := "<" + ("/a" + (">" + rest));
    assert Anchor(open, body) + rest == "<" + (open + (">" + (body + end)));
    StripTag(open, body + end);
    StripPlain(body, end);
    StripTag("/a", rest);
  }

  lemma AttributesTagFree(d: Detected, escape: string -> string)
    requires EscapesHtml(escape)
    ensures TagFree(OPENING + Attributes(d, escape))
  {
    ListTagFree("data-file-path=\"", escape(d.filePath), " data-line=\"", d.lineNumber, " data-column=\"", d.columnNumber);
  }

  lemma ListTagFree(path: string, value: string, line: string, l: Option<nat>, column: string, c: Option<nat>)
    requires TagFree(path) && TagFree(value) && TagFree(line) && TagFree(column)
    ensures TagFree(AttributeList(path, value, line, l, column, c))
  {
    NumberTagFree(line, l);
    NumberTagFree(column, c);
  }

  lemma NumberTagFree(lead: string, n: Option<nat>)
    requires TagFree(lead)
    ensures TagFree(NumberAttribute(lead, n))
  {
  }

  lemma StripSegment(s: Segment, escape: string -> string, rest: string)
    requires EscapesHtml(escape)
    ensures StripTags(SegmentHtml(s, escape) + rest, false) == escape(Content(s)) + StripTags(rest, false)
  {
    match s
    case Text(content) => StripPlain(escape(content), rest);
    case FilePath(d) =>
      AttributesTagFree(d, escape);
      StripAnchor(OPENING + Attributes(d, escape), escape(d.text), rest);
  }

  /** Stripping the anchors from the HTML leaves the escaped text, so that undoing the
      escape recovers the text. */
  lemma {:induction false} AnchorsStripAway(segments: seq<Segment>, escape: string -> string)
    requires EscapesHtml(escape)
    ensures StripTags(Html(segments, escape), false) == escape(Contents(segments))
  {
    if segments != [] {
      AnchorsStripAway(segments[1..], escape);
      StripSegment(segments[0], escape, Html(segments[1..], escape));
    }
  }

  lemma TextRecovered(text: string, ds: seq<Detected>, escape: string -> string, unescape: string -> string)
    requires InOrder(text, ds, 0) && EscapesHtml(escape) && forall a :: unescape(escape(a)) == a
    ensures unescape(StripTags(Html(Segments(text, ds), escape), false)) == text
  {
    SegmentsPartition(text, ds);
    AnchorsStripAway(Segments(text, ds), escape);
  }

  // ---- one escape function -----------------------------------------------

  function EscapedChar(c: char): (s: string)
    ensures TagFree(s) && s != ""
  {
    if c == '&' then "&amp;" else if c == '<' then "&lt;" else if c == '>' then "&gt;"
    else if c == '"' then "&quot;" else if c == '\'' then "&#039;" else [c]
  }

  function EscapeHtml(s: string): (r: string) {
    if s == "" then "" else EscapedChar(s[0]) + EscapeHtml(s[1..])
  }

  function UnescapeHtml(s: string): string {
    if s == "" then ""
    else if "&amp;" <= s then "&" + UnescapeHtml(s[5..])
    else if "&lt;" <= s then "<" + UnescapeHtml(s[4..])
    else if "&gt;" <= s then ">" + UnescapeHtml(s[4..])
    else if "&quot;" <= s then "\"" + UnescapeHtml(s[6..])
    else if "&#039;" <= s then "'" + UnescapeHtml(s[6..])
    else [s[0]] + UnescapeHtml(s[1..])
  }

  lemma {:induction false} EscapeJoins(a: string, b: string)
    ensures EscapeHtml(a + b) == EscapeHtml(a) + EscapeHtml(b) && TagFree(EscapeHtml(a))
  {
    if a == "" {
      assert a + b == b;
    } else {
      assert (a + b)[1..] == a[1..] + b;
      EscapeJoins(a[1..], b);
    }
  }

  lemma {:induction false} UnescapeEscape(s: string)
    ensures UnescapeHtml(EscapeHtml(s)) == s
  {
    if s != "" {
      UnescapeEscape(s[1..]);
      UnescapeFirst(s[0], EscapeHtml(s[1..]));
      assert s == [s[0]] + s[1..];
    }
  }

  lemma UnescapeFirst(c: char, rest: string)
    ensures UnescapeHtml(EscapedChar(c) + rest) == [c] + UnescapeHtml(rest)
  {
    var s := EscapedChar(c) + rest;
    AfterPrefix(EscapedChar(c), rest);
    if c == '&' { assert "&amp;" <= s; }
    else if c == '<' { assert s[1] == 'l'; assert "&lt;" <= s; }
    else if c == '>' { assert s[1] == 'g'; assert "&gt;" <= s; }
    else if c == '"' { assert s[1] == 'q'; assert "&quot;" <= s; }
    else if c == '\'' { assert s[1] == '#'; assert "&#039;" <= s; }
    else { assert s[0] == c; }
  }

  lemma AfterPrefix(a: string, b: string)
    ensures (a + b)[|a|..] == b && a <= a + b
  {
  }

  /** The characters that have a meaning in HTML, and the names of their entities. */
  const ENTITIES: map<char, string> := map['&' := "amp", '<' := "lt", '>' := "gt", '"' := "quot", '\'' := "#039"]

  /** Those five become their entities, every other character stays. */
  lemma EscapesEntities(c: char)
    ensures EscapeHtml([c]) == if c in ENTITIES then "&" + ENTITIES[c] + ";" else [c]
  {
    assert [c][1..] == "";
    assert EscapeHtml([c]) == EscapedChar(c) + "" == EscapedChar(c);
  }

  /** One instance: with the escape function of the augment generator the text is always recovered. */
  lemma ServerTextRecovered(text: string, ds: seq<Detected>)
    requires InOrder(text, ds, 0)
    ensures UnescapeHtml(StripTags(Html(Segments(text, ds), EscapeHtml), false)) == text
  {
    forall a, b ensures EscapeHtml(a + b) == EscapeHtml(a) + EscapeHtml(b) { EscapeJoins(a, b); }
    forall a ensures TagFree(EscapeHtml(a)) { EscapeJoins(a, ""); }
    forall a ensures UnescapeHtml(EscapeHtml(a)) == a { UnescapeEscape(a); }
    TextRecovered(text, ds, EscapeHtml, UnescapeHtml);
  }
}
