/** Forwarding a stream line by line, without the lines to suppress. */
module LineFilter {
  /** `text.split(/\r?\n/)`: a carriage return before a newline belongs to the separator. */
  function SplitLines(text: string): (pieces: seq<string>)
    ensures |pieces| >= 1
  {
    if text == "" then [""] else Extended(SplitLines(text[..|text| - 1]), text[|text| - 1])
  }

  /** The pieces after one more character. */
  function Extended(pieces: seq<string>, c: char): (r: seq<string>)
    requires |pieces| >= 1
    ensures |r| >= 1
  {
    Complete(pieces) + (if c == '\n' then [WithoutReturn(Last(pieces)), ""] else [Last(pieces) + [c]])
  }

  function WithoutReturn(line: string): string {
    if line != "" && line[|line| - 1] == '\r' then line[..|line| - 1] else line
  }

  function Forwarded(lines: seq<string>, suppress: string -> bool): string {
    if lines == [] then ""
    else Forwarded(lines[..|lines| - 1], suppress)
         + (if suppress(lines[|lines| - 1]) then "" else lines[|lines| - 1] + "\n")
  }

  function Tail(line: string, suppress: string -> bool): string {
    if line != "" && !suppress(line) then line else ""
  }

  function Complete(pieces: seq<string>): seq<string>
    requires pieces != []
  {
    pieces[..|pieces| - 1]
  }

  function Last(pieces: seq<string>): string
    requires pieces != []
  {
    pieces[|pieces| - 1]
  }

  /** The whole stream at once: complete lines end in `\n`, a non-empty rest does not. */
  function Filtered(text: string, suppress: string -> bool): string {
    Forwarded(Complete(SplitLines(text)), suppress) + Tail(Last(SplitLines(text)), suppress)
  }

  class Filter {
    const shouldSuppressLine: string -> bool
    var buffered: string
    var output: string

    constructor (shouldSuppressLine: string -> bool)
      ensures this.shouldSuppressLine == shouldSuppressLine && buffered == "" && output == ""
    {
      this.shouldSuppressLine, buffered, output := shouldSuppressLine, "", "";
    }

    method OnData(chunk: string)
      modifies this
      ensures var pieces := SplitLines(old(buffered) + chunk);
        buffered == Last(pieces) && output == old(output) + Forwarded(Complete(pieces), shouldSuppressLine)
    {
      var lines := SplitLines(buffered + chunk);
      ghost var pieces := lines;
      buffered := lines[|lines| - 1];
      lines := lines[..|lines| - 1];
      for n := 0 to |lines|
        invariant buffered == Last(pieces)
        invariant output == old(output) + Forwarded(lines[..n], shouldSuppressLine)
      {
        assert lines[..n + 1][..n] == lines[..n];
        if !shouldSuppressLine(lines[n]) {
          output := output + (lines[n] + "\n");
        }
      }
      assert lines[..|lines|] == lines;
    }

    method OnEnd()
      modifies this
      ensures output == old(output) + Tail(buffered, shouldSuppressLine) && buffered == old(buffered)
    {
      if buffered != "" && !shouldSuppressLine(buffered) {
        output := output + buffered;
      }
    }
  }

  /** Cutting anywhere: the pieces of the whole are the complete pieces of the first part and
      then those of its last piece with the second part. */
  lemma {:induction false} SplitAcross(a: string, b: string)
    ensures SplitLines(a + b) == Complete(SplitLines(a)) + SplitLines(Last(SplitLines(a)) + b)
  {
    var done, rest := Complete(SplitLines(a)), Last(SplitLines(a));
    if b == "" {
      LastPieceIsOneLine(a);
      SplitOneLine(rest);
      assert a + b == a && rest + b == rest;
    } else {
      var front, c := b[..|b| - 1], b[|b| - 1];
      SplitAcross(a, front);
      assert b == front + [c];
      SplitAcrossNext(a, rest, done, front, c);
    }
  }

  lemma SplitAcrossNext(a: string, rest: string, done: seq<string>, b: string, c: char)
    requires SplitLines(a + b) == done + SplitLines(rest + b)
    ensures SplitLines(a + (b + [c])) == done + SplitLines(rest + (b + [c]))
  {
    assert a + (b + [c]) == (a + b) + [c] && rest + (b + [c]) == (rest + b) + [c];
    SplitNext(a + b, c);
    SplitNext(rest + b, c);
    ExtendedBehind(done, SplitLines(rest + b), c);
  }

  lemma ExtendedBehind(done: seq<string>, pieces: seq<string>, c: char)
    requires |pieces| >= 1
    ensures Extended(done + pieces, c) == done + Extended(pieces, c)
  {
    assert Complete(done + pieces) == done + Complete(pieces);
  }

  lemma SplitNext(text: string, c: char)
    ensures SplitLines(text + [c]) == Extended(SplitLines(text), c)
  {
    assert (text + [c])[..|text|] == text;
  }

  lemma {:induction false} LastPieceIsOneLine(text: string)
    ensures '\n' !in Last(SplitLines(text))
  {
    if text != "" { LastPieceIsOneLine(text[..|text| - 1]); }
  }

  lemma {:induction false} SplitOneLine(line: string)
    requires '\n' !in line
    ensures SplitLines(line) == [line]
  {
    if line != "" {
      var front, c := line[..|line| - 1], line[|line| - 1];
      SplitOneLine(front);
      assert c in line && c != '\n';
      assert Extended([front], c) == [front + [c]];
      assert front + [c] == line;
    }
  }

  lemma {:induction false} ForwardedJoins(a: seq<string>, b: seq<string>, suppress: string -> bool)
    ensures Forwarded(a + b, suppress) == Forwarded(a, suppress) + Forwarded(b, suppress)
  {
    if b == [] {
      assert a + b == a;
    } else {
      assert (a + b)[..|a + b| - 1] == a + b[..|b| - 1];
      ForwardedJoins(a, b[..|b| - 1], suppress);
    }
  }

  /** What the filter holds and has written after the chunks: see `Filter.OnData`. */
  function AfterChunks(chunks: seq<string>, suppress: string -> bool): (string, string) {
    if chunks == [] then ("", "")
    else
      var before := AfterChunks(chunks[..|chunks| - 1], suppress);
      var pieces := SplitLines(before.0 + chunks[|chunks| - 1]);
      (Last(pieces), before.1 + Forwarded(Complete(pieces), suppress))
  }

  lemma {:induction false} AfterChunksIsBatch(chunks: seq<string>, suppress: string -> bool)
    ensures AfterChunks(chunks, suppress)
         == (Last(SplitLines(Whole(chunks))), Forwarded(Complete(SplitLines(Whole(chunks))), suppress))
  {
    if chunks != [] {
      var before, chunk := chunks[..|chunks| - 1], chunks[|chunks| - 1];
      AfterChunksIsBatch(before, suppress);
      var text := Whole(before);
      SplitAcross(text, chunk);
      var rest := SplitLines(Last(SplitLines(text)) + chunk);
      ForwardedJoins(Complete(SplitLines(text)), Complete(rest), suppress);
      assert Complete(SplitLines(text + chunk)) == Complete(SplitLines(text)) + Complete(rest);
    }
  }

  function Whole<T>(chunks: seq<seq<T>>): seq<T> {
    if chunks == [] then [] else Whole(chunks[..|chunks| - 1]) + chunks[|chunks| - 1]
  }

  /** The output does not depend on the chunking: for every way of cutting the stream it is
      the batch result, so two cuttings of one text give the same output. */
  lemma ChunkingInvariant(chunks: seq<string>, others: seq<string>, suppress: string -> bool)
    ensures AfterChunks(chunks, suppress).1 + Tail(AfterChunks(chunks, suppress).0, suppress) == Filtered(Whole(chunks), suppress)
    ensures Whole(chunks) == Whole(others) ==>
      AfterChunks(chunks, suppress).1 + Tail(AfterChunks(chunks, suppress).0, suppress)
      == AfterChunks(others, suppress).1 + Tail(AfterChunks(others, suppress).0, suppress)
  {
    AfterChunksIsBatch(chunks, suppress);
    AfterChunksIsBatch(others, suppress);
  }

  /** A whole stream through the handlers. */
  method ForwardWithLineFilter(chunks: seq<string>, suppress: string -> bool) returns (output: string)
    ensures output == Filtered(Whole(chunks), suppress)
  {
    var filter := new Filter(suppress);
    for n := 0 to |chunks|
      invariant filter.shouldSuppressLine == suppress
      invariant (filter.buffered, filter.output) == AfterChunks(chunks[..n], suppress)
    {
      assert chunks[..n + 1][..n] == chunks[..n];
      filter.OnData(chunks[n]);
    }
    assert chunks[..|chunks|] == chunks;
    filter.OnEnd();
    ChunkingInvariant(chunks, chunks, suppress);
    return filter.output;
  }

  // ---- splitting, without its algorithm ----------------------------------

  datatype Line = Line(text: string, ending: string)

  function Unsplit(lines: seq<Line>, rest: string): string {
    if lines == [] then rest else lines[0].text + lines[0].ending + Unsplit(lines[1..], rest)
  }

  predicate Plausible(lines: seq<Line>) {
    forall i :: 0 <= i < |lines| ==> IsLine(lines[i])
  }

  /** A line and the separator that ends it: the longest one possible. */
  predicate IsLine(line: Line) {
    && '\n' !in line.text
    && (line.ending == "\r\n" || (line.ending == "\n" && WithoutReturn(line.text) == line.text))
  }

  function Texts(lines: seq<Line>): seq<string> {
    seq(|lines|, i requires 0 <= i < |lines| => lines[i].text)
  }

  lemma SplitSeparator(line: Line)
    requires IsLine(line)
    ensures SplitLines(line.text + line.ending) == [line.text, ""]
  {
    SplitOneLine(line.text);
    if line.ending == "\n" {
      SplitNext(line.text, '\n');
    } else {
      var l := line.text + ['\r'];
      SplitNext(line.text, '\r');
      assert Extended([line.text], '\r') == [l];
      SplitNext(l, '\n');
      assert WithoutReturn(l) == line.text;
      assert line.text + line.ending == l + ['\n'];
    }
  }

  /** The pieces are the lines of the text, however each one ends, and the rest: this
      determines `SplitLines` on every text, see `EveryTextIsLines`. */
  lemma {:induction false} SplitLinesMeaning(lines: seq<Line>, rest: string)
    requires Plausible(lines) && '\n' !in rest
    ensures SplitLines(Unsplit(lines, rest)) == Texts(lines) + [rest]
  {
    if lines == [] {
      SplitOneLine(rest);
    } else {
      SplitLinesMeaning(lines[1..], rest);
      SplitOneMore(lines[0], Unsplit(lines[1..], rest));
      TextsRegroup(lines, rest);
    }
  }

  lemma TextsRegroup(lines: seq<Line>, rest: string)
    requires lines != []
    ensures Texts(lines) + [rest] == [lines[0].text] + (Texts(lines[1..]) + [rest])
  {
  }

  lemma SplitOneMore(line: Line, text: string)
    requires IsLine(line)
    ensures SplitLines(line.text + line.ending + text) == [line.text] + SplitLines(text)
  {
    SplitSeparator(line);
    SplitAcross(line.text + line.ending, text);
    assert "" + text == text;
  }

  /** Every text is lines with their separators and a rest. */
  lemma {:induction false} EveryTextIsLines(text: string) returns (lines: seq<Line>, rest: string)
    ensures Plausible(lines) && '\n' !in rest && Unsplit(lines, rest) == text
  {
    if text == "" {
      lines, rest := [], "";
    } else {
      var before, last := EveryTextIsLines(text[..|text| - 1]);
      var c := text[|text| - 1];
      UnsplitMore(before, last, [c]);
      if c != '\n' {
        lines, rest := before, last + [c];
      } else {
        var line := ClosedLine(last);
        lines, rest := before + [line], "";
        UnsplitNext(before, line);
      }
      assert text == text[..|text| - 1] + [c];
    }
  }

  lemma ClosedLine(last: string) returns (line: Line)
    requires '\n' !in last
    ensures IsLine(line) && line.text + line.ending == last + ['\n']
  {
    line := if WithoutReturn(last) == last then Line(last, "\n") else Line(WithoutReturn(last), "\r\n");
    if WithoutReturn(last) != last {
      assert last == WithoutReturn(last) + ['\r'];
    }
  }

  lemma {:induction false} UnsplitMore(lines: seq<Line>, rest: string, more: string)
    ensures Unsplit(lines, rest + more) == Unsplit(lines, rest) + more
  {
    if lines != [] {
      UnsplitMore(lines[1..], rest, more);
      var first := lines[0].text + lines[0].ending;
      assert first + (Unsplit(lines[1..], rest) + more) == first + Unsplit(lines[1..], rest) + more;
    }
  }

  lemma {:induction false} UnsplitNext(lines: seq<Line>, line: Line)
    ensures Unsplit(lines + [line], "") == Unsplit(lines, line.text + line.ending)
  {
    if lines == [] {
      assert line.text + line.ending + "" == line.text + line.ending;
      assert [line][1..] == [];
    } else {
      UnsplitNext(lines[1..], line);
      assert (lines + [line])[1..] == lines[1..] + [line];
    }
  }

  // ---- the output, without its algorithm ---------------------------------

  /** The lines that are not suppressed, each ended by a newline. */
  function Kept(lines: seq<Line>, suppress: string -> bool): seq<Line> {
    if lines == [] then []
    else (if suppress(lines[0].text) then [] else [Line(lines[0].text, "\n")]) + Kept(lines[1..], suppress)
  }

  lemma ForwardedOne(text: string, suppress: string -> bool)
    ensures Forwarded([text], suppress) == if suppress(text) then "" else text + "\n"
  {
    assert [text][..0] == [];
  }

  lemma UnsplitKept(line: Line, lines: seq<Line>, suppress: string -> bool)
    ensures Unsplit(Kept([line] + lines, suppress), "")
         == (if suppress(line.text) then "" else line.text + "\n") + Unsplit(Kept(lines, suppress), "")
  {
    assert ([line] + lines)[1..] == lines;
    var rest := Kept(lines, suppress);
    if suppress(line.text) {
      assert [] + rest == rest && "" + Unsplit(rest, "") == Unsplit(rest, "");
    } else {
      var kept := [Line(line.text, "\n")] + rest;
      assert kept[1..] == rest && kept[0] == Line(line.text, "\n");
    }
  }

  lemma {:induction false} ForwardedKeeps(lines: seq<Line>, suppress: string -> bool)
    ensures Forwarded(Texts(lines), suppress) == Unsplit(Kept(lines, suppress), "")
  {
    if lines != [] {
      var line, rest := lines[0], lines[1..];
      assert lines == [line] + rest;
      assert Texts(lines) == [line.text] + Texts(rest);
      ForwardedJoins([line.text], Texts(rest), suppress);
      ForwardedOne(line.text, suppress);
      ForwardedKeeps(rest, suppress);
      UnsplitKept(line, rest, suppress);
    }
  }

  /** The output for lines and a rest: the lines that are not suppressed, each ended by a newline,
      and the rest as it is unless it is suppressed. Nothing of a suppressed line is written. */
  lemma FilterKeepsRest(lines: seq<Line>, rest: string, suppress: string -> bool)
    requires Plausible(lines) && '\n' !in rest
    ensures Filtered(Unsplit(lines, rest), suppress)
         == Unsplit(Kept(lines, suppress), if suppress(rest) then "" else rest)
  {
    SplitLinesMeaning(lines, rest);
    PiecesFiltered(Unsplit(lines, rest), Texts(lines), rest, suppress);
    ForwardedKeeps(lines, suppress);
    UnsplitMore(Kept(lines, suppress), "", if suppress(rest) then "" else rest);
    assert "" + rest == rest && "" + "" == "";
  }

  lemma PiecesFiltered(text: string, texts: seq<string>, rest: string, suppress: string -> bool)
    requires SplitLines(text) == texts + [rest]
    ensures Filtered(text, suppress) == Forwarded(texts, suppress) + if suppress(rest) then "" else rest
  {
    assert Complete(texts + [rest]) == texts;
  }
}
