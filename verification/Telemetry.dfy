/** The day-rotated telemetry log and the loader that reads it back. */
module Telemetry {
  import opened Prelude
  import opened IsoTime

  /** One telemetry event as it is written: the time stamp, the node and the event fields. */
  datatype Entry<P> = Entry(timestamp: string, relayNodeId: string, event: P)

  /** `JSON.stringify` and `JSON.parse` on records; a failed parse is `None`. */
  datatype Codec<!P> = Codec(stringify: Entry<P> -> string, parse: string -> Option<Entry<P>>)

  /** `!line.trim()` */
  predicate Blank(line: string) { forall i :: 0 <= i < |line| ==> IsSpace(line[i]) }

  /** Printing a record and parsing it gives it back, on one line that is not blank. */
  ghost predicate Lawful<P(!new)>(c: Codec<P>) {
    forall e :: c.parse(c.stringify(e)) == Some(e) && '\n' !in c.stringify(e) && !Blank(c.stringify(e))
  }

  const SUFFIX := ".ndjson"

  function FileName(date: string): string { date + SUFFIX }

  datatype Stream = Stream(id: nat, name: string)

  // ---- the recorder ------------------------------------------------------

  type Files = map<string, string>

  function ContentOf(files: Files, name: string): string {
    if name in files then files[name] else ""
  }

  /** The events directory, with the write streams open on it. */
  class Disk {
    var files: Files
    var open: set<nat>
    var next: nat

    constructor (files: Files)
      ensures this.files == files && open == {} && next == 0
    {
      this.files, open, next := files, {}, 0;
    }

    method CreateWriteStream(name: string) returns (s: Stream)
      modifies this
      ensures s == Stream(old(next), name) && next == old(next) + 1 && open == old(open) + {s.id}
      ensures files == old(files)[name := ContentOf(old(files), name)]
    {
      s := Stream(next, name);
      open, next := open + {next}, next + 1;
      files := files[name := ContentOf(files, name)];
    }

    method Write(s: Stream, text: string)
      requires s.id in open
      modifies this
      ensures files == old(files)[s.name := ContentOf(old(files), s.name) + text]
      ensures open == old(open) && next == old(next)
    {
      files := files[s.name := ContentOf(files, s.name) + text];
    }

    method End(s: Stream)
      modifies this
      ensures open == old(open) - {s.id} && files == old(files) && next == old(next)
    {
      open := open - {s.id};
    }
  }

  class JsonlRecorder<P> {
    const disk: Disk
    const codec: Codec<P>
    const nodeId: string
    var currentDate: string
    var stream: Option<Stream>

    /** The stream, if any, writes to the file of the current date, and no other is open. */
    ghost predicate Valid()
      reads this, disk
    {
      && disk.open == (if stream.Some? then {stream.value.id} else {})
      && (stream.Some? ==> stream.value.name == FileName(currentDate) && stream.value.name in disk.files)
    }

    constructor (disk: Disk, codec: Codec<P>, nodeId: string)
      requires disk.open == {}
      ensures this.disk == disk && this.codec == codec && this.nodeId == nodeId && Valid()
    {
      this.disk, this.codec, this.nodeId := disk, codec, nodeId;
      currentDate, stream := "", None;
    }

    method GetStream(now: Utc) returns (s: Stream)
      requires Valid() && IsoTime.Valid(now)
      modifies this, disk
      ensures Valid() && stream == Some(s) && s.name == FileName(UtcDate(now)) && |disk.open| == 1
      ensures disk.files == old(disk.files)[s.name := ContentOf(old(disk.files), s.name)]
    {
      var date := UtcDate(now);
      if stream.Some? && currentDate == date { return stream.value; }
      if stream.Some? { disk.End(stream.value); }
      currentDate := date;
      s := disk.CreateWriteStream(FileName(date));
      stream := Some(s);
    }

    method Record(event: P, now: Utc)
      requires Valid() && IsoTime.Valid(now)
      modifies this, disk
      ensures Valid() && |disk.open| <= 1
      ensures disk.files == Appended(old(disk.files), codec, Entry(Iso(now), nodeId, event), UtcDate(now))
    {
      var line := codec.stringify(Entry(Iso(now), nodeId, event));
      var s := GetStream(now);
      disk.Write(s, line + "\n");
    }

    method Close()
      requires Valid()
      modifies this, disk
      ensures Valid() && disk.open == {} && disk.files == old(disk.files)
    {
      if stream.None? { return; }
      var s := stream.value;
      stream := None;
      disk.End(s);
    }
  }

  function Appended<P>(files: Files, c: Codec<P>, e: Entry<P>, date: string): Files {
    files[FileName(date) := ContentOf(files, FileName(date)) + (c.stringify(e) + "\n")]
  }

  // ---- the loader --------------------------------------------------------

  /** `content.split("\n")` */
  function SplitNewline(text: string): (lines: seq<string>)
    ensures |lines| >= 1
  {
    if text == "" then [""] else Extended(SplitNewline(text[..|text| - 1]), text[|text| - 1])
  }

  /** The lines after one more character. */
  function Extended(lines: seq<string>, c: char): (r: seq<string>)
    requires |lines| >= 1
    ensures |r| >= 1
  {
    if c == '\n' then lines + [""] else lines[..|lines| - 1] + [lines[|lines| - 1] + [c]]
  }

  function ParseLine<P>(line: string, c: Codec<P>): seq<Entry<P>> {
    if Blank(line) then []
    else match c.parse(line)
      case Some(e) => [e]
      case None => []
  }

  function ParseLines<P>(lines: seq<string>, c: Codec<P>): seq<Entry<P>> {
    if lines == [] then [] else ParseLines(lines[..|lines| - 1], c) + ParseLine(lines[|lines| - 1], c)
  }

  method ParseEventsFile<P>(content: string, c: Codec<P>) returns (events: seq<Entry<P>>)
    ensures events == ParseLines(SplitNewline(content), c)
  {
    var lines := SplitNewline(content);
    events := [];
    for n := 0 to |lines|
      invariant events == ParseLines(lines[..n], c)
    {
      assert lines[..n + 1][..n] == lines[..n];
      if !Blank(lines[n]) {
        var parsed := c.parse(lines[n]);
        if parsed.Some? { events := events + [parsed.value]; }
      }
    }
    assert lines[..|lines|] == lines;
  }

  predicate IsLogName(name: string) { |name| >= |SUFFIX| && name[|name| - |SUFFIX|..] == SUFFIX }

  function LogNames(listing: seq<string>): seq<string> {
    if listing == [] then [] else (if IsLogName(listing[0]) then [listing[0]] else []) + LogNames(listing[1..])
  }

  predicate SortedNames(names: seq<string>) {
    forall i, j :: 0 <= i < j < |names| ==> !StringLess(names[j], names[i])
  }

  function Insert(name: string, names: seq<string>): seq<string> {
    if names == [] || StringLess(name, names[0]) then [name] + names else [names[0]] + Insert(name, names[1..])
  }

  /** `files.sort()` */
  function Sort(names: seq<string>): seq<string> {
    if names == [] then [] else Insert(names[0], Sort(names[1..]))
  }

  function ParseFiles<P>(names: seq<string>, files: Files, c: Codec<P>): seq<Entry<P>> {
    if names == [] then []
    else ParseLines(SplitNewline(ContentOf(files, names[0])), c) + ParseFiles(names[1..], files, c)
  }

  /** `loadEvents` when `readdirSync` returns `listing`. */
  function LoadEvents<P>(listing: seq<string>, files: Files, c: Codec<P>): seq<Entry<P>> {
    ParseFiles(Sort(LogNames(listing)), files, c)
  }

  // ---- sorting names -----------------------------------------------------

  lemma {:induction false} InsertSorts(name: string, names: seq<string>)
    requires SortedNames(names)
    ensures SortedNames(Insert(name, names)) && multiset(Insert(name, names)) == multiset(names) + multiset{name}
  {
    if names != [] && !StringLess(name, names[0]) {
      InsertSorts(name, names[1..]);
      var rest := Insert(name, names[1..]);
      assert names == [names[0]] + names[1..];
      forall j | 0 <= j < |rest| ensures !StringLess(rest[j], names[0]) {
        assert rest[j] in multiset(rest);
        if rest[j] != name {
          assert rest[j] in names[1..];
        }
      }
    } else if names != [] {
      forall j | 0 <= j < |names| ensures !StringLess(names[j], name) {
        if StringLess(names[j], name) {
          StringLessTransitive(names[j], name, names[0]);
          StringLessTotal(names[0], names[j]);
        }
      }
    }
  }

  lemma {:induction false} SortSorts(names: seq<string>)
    ensures SortedNames(Sort(names)) && multiset(Sort(names)) == multiset(names)
  {
    if names != [] {
      SortSorts(names[1..]);
      InsertSorts(names[0], Sort(names[1..]));
      assert names == [names[0]] + names[1..];
    }
  }

  // ---- malformed lines ---------------------------------------------------

  lemma {:induction false} ParseJoins<P>(a: seq<string>, b: seq<string>, c: Codec<P>)
    ensures ParseLines(a + b, c) == ParseLines(a, c) + ParseLines(b, c)
  {
    if b == [] {
      assert a + b == a;
    } else {
      assert (a + b)[..|a + b| - 1] == a + b[..|b| - 1];
      ParseJoins(a, b[..|b| - 1], c);
    }
  }

  lemma BadLineLast<P>(a: seq<string>, bad: string, c: Codec<P>)
    requires Blank(bad) || c.parse(bad).None?
    ensures ParseLines(a + [bad], c) == ParseLines(a, c)
  {
    assert (a + [bad])[..|a|] == a;
  }

  /** A line that is blank or cannot be parsed costs itself and no other line. */
  lemma MalformedLineIgnored<P>(a: seq<string>, bad: string, b: seq<string>, c: Codec<P>)
    requires Blank(bad) || c.parse(bad).None?
    ensures ParseLines(a + [bad] + b, c) == ParseLines(a + b, c)
  {
    BadLineLast(a, bad, c);
    ParseJoins(a + [bad], b, c);
    ParseJoins(a, b, c);
  }
}
