/** Reading back what was recorded. */
module TelemetryResults {
  import opened Prelude
  import opened IsoTime
  import opened Telemetry

  /** A call on the recorder, with the clock reading it makes. */
  datatype Call<P> = Record(entry: Entry<P>, now: Utc) | Close

  predicate Stamped<P>(call: Call<P>) {
    call.Record? ==> IsoTime.Valid(call.now) && call.entry.timestamp == Iso(call.now)
  }

  predicate AllStamped<P>(calls: seq<Call<P>>) { forall i :: 0 <= i < |calls| ==> Stamped(calls[i]) }

  /** The directory after the calls: see `JsonlRecorder.Record` and `JsonlRecorder.Close`. */
  function AfterCalls<P>(files: Files, calls: seq<Call<P>>, c: Codec<P>): Files
    requires AllStamped(calls)
  {
    if calls == [] then files
    else
      var before, call := AfterCalls(files, calls[..|calls| - 1], c), calls[|calls| - 1];
      if call.Record? then Appended(before, c, call.entry, UtcDate(call.now)) else before
  }

  function Recorded<P>(calls: seq<Call<P>>): seq<Entry<P>> {
    if calls == [] then []
    else Recorded(calls[..|calls| - 1]) + (if calls[|calls| - 1].Record? then [calls[|calls| - 1].entry] else [])
  }

  /** Runs the recorder over the calls. */
  method Drive<P>(recorder: JsonlRecorder<P>, calls: seq<Call<P>>)
    requires recorder.Valid() && AllStamped(calls)
    requires forall i :: 0 <= i < |calls| && calls[i].Record? ==> calls[i].entry.relayNodeId == recorder.nodeId
    modifies recorder, recorder.disk
    ensures recorder.Valid() && |recorder.disk.open| <= 1
    ensures recorder.disk.files == AfterCalls(old(recorder.disk.files), calls, recorder.codec)
  {
    for n := 0 to |calls|
      invariant recorder.Valid()
      invariant recorder.disk.files == AfterCalls(old(recorder.disk.files), calls[..n], recorder.codec)
    {
      assert calls[..n + 1][..n] == calls[..n];
      if calls[n].Record? {
        recorder.Record(calls[n].entry.event, calls[n].now);
      } else {
        recorder.Close();
      }
    }
    assert calls[..|calls|] == calls;
  }

  // ---- the date of an event ----------------------------------------------

  function DateOf<P>(e: Entry<P>): string { if |e.timestamp| >= 10 then e.timestamp[..10] else e.timestamp }

  predicate Dated<P>(es: seq<Entry<P>>) { forall i :: 0 <= i < |es| ==> |DateOf(es[i])| == 10 }

  /** The events of one date, in order. */
  function OfDate<P>(es: seq<Entry<P>>, date: string): seq<Entry<P>> {
    if es == [] then [] else OfDate(es[..|es| - 1], date) + (if DateOf(es[|es| - 1]) == date then [es[|es| - 1]] else [])
  }

  predicate DatesAscend<P>(es: seq<Entry<P>>) {
    forall i, j :: 0 <= i < j < |es| ==> !StringLess(DateOf(es[j]), DateOf(es[i]))
  }

  /** `sorted` is `es` stably sorted by date. */
  ghost predicate StablySorted<P>(es: seq<Entry<P>>, sorted: seq<Entry<P>>) {
    DatesAscend(sorted) && forall date :: OfDate(sorted, date) == OfDate(es, date)
  }

  lemma {:induction false} OfDateJoins<P>(a: seq<Entry<P>>, b: seq<Entry<P>>, date: string)
    ensures OfDate(a + b, date) == OfDate(a, date) + OfDate(b, date)
  {
    if b == [] {
      assert a + b == a;
    } else {
      assert (a + b)[..|a + b| - 1] == a + b[..|b| - 1];
      OfDateJoins(a, b[..|b| - 1], date);
    }
  }

  lemma OfDateNext<P>(es: seq<Entry<P>>, e: Entry<P>, date: string)
    ensures OfDate(es + [e], date) == OfDate(es, date) + (if DateOf(e) == date then [e] else [])
  {
    assert (es + [e])[..|es + [e]| - 1] == es;
  }

  lemma {:induction false} OfDateAll<P>(es: seq<Entry<P>>, date: string)
    requires forall i :: 0 <= i < |es| ==> DateOf(es[i]) == date
    ensures OfDate(es, date) == es
  {
    if es != [] { OfDateAll(es[..|es| - 1], date); }
  }

  lemma {:induction false} OfDateIs<P>(es: seq<Entry<P>>, date: string)
    ensures forall i :: 0 <= i < |OfDate(es, date)| ==> DateOf(OfDate(es, date)[i]) == date
  {
    if es != [] { OfDateIs(es[..|es| - 1], date); }
  }

  lemma {:induction false} OfDateFound<P>(es: seq<Entry<P>>, i: nat)
    requires i < |es|
    ensures OfDate(es, DateOf(es[i])) != []
  {
    if i < |es| - 1 { OfDateFound(es[..|es| - 1], i); }
  }

  lemma {:induction false} OfOtherDate<P>(es: seq<Entry<P>>, date: string)
    requires forall i :: 0 <= i < |es| ==> DateOf(es[i]) != date
    ensures OfDate(es, date) == []
  {
    if es != [] { OfOtherDate(es[..|es| - 1], date); }
  }

  // ---- one file ----------------------------------------------------------

  function Lines<P>(es: seq<Entry<P>>, c: Codec<P>): string {
    if es == [] then "" else Lines(es[..|es| - 1], c) + (c.stringify(es[|es| - 1]) + "\n")
  }

  lemma SplitNext(text: string, ch: char)
    ensures SplitNewline(text + [ch]) == Extended(SplitNewline(text), ch)
  {
    assert (text + [ch])[..|text + [ch]| - 1] == text;
  }

  /** The lines with `line` written behind the last. */
  function Behind(lines: seq<string>, line: string): (r: seq<string>)
    requires |lines| >= 1
    ensures |r| >= 1
  {
    lines[..|lines| - 1] + [lines[|lines| - 1] + line]
  }

  lemma BehindNext(lines: seq<string>, line: string, ch: char)
    requires |lines| >= 1 && ch != '\n'
    ensures Extended(Behind(lines, line), ch) == Behind(lines, line + [ch])
  {
    assert lines[|lines| - 1] + (line + [ch]) == lines[|lines| - 1] + line + [ch];
  }

  lemma BehindNothing(lines: seq<string>)
    requires |lines| >= 1
    ensures Behind(lines, "") == lines
  {
    assert lines[|lines| - 1] + "" == lines[|lines| - 1];
  }

  lemma BehindNewline(lines: seq<string>, line: string)
    ensures Extended(Behind(lines + [""], line), '\n') == lines + [line] + [""]
  {
    assert (lines + [""])[..|lines|] == lines && "" + line == line;
  }

  lemma {:induction false} SplitAppend(text: string, line: string)
    requires '\n' !in line
    ensures SplitNewline(text + line) == Behind(SplitNewline(text), line)
  {
    if line == "" {
      assert text + line == text;
      BehindNothing(SplitNewline(text));
    } else {
      var l, ch := line[..|line| - 1], line[|line| - 1];
      assert line == l + [ch];
      SplitAppend(text, l);
      SplitAppendNext(text, l, ch);
    }
  }

  lemma SplitAppendNext(text: string, line: string, ch: char)
    requires ch != '\n' && SplitNewline(text + line) == Behind(SplitNewline(text), line)
    ensures SplitNewline(text + (line + [ch])) == Behind(SplitNewline(text), line + [ch])
  {
    SplitNext(text + line, ch);
    BehindNext(SplitNewline(text), line, ch);
    assert text + (line + [ch]) == text + line + [ch];
  }

  /** One more line in a file closed by a newline. */
  lemma SplitLine(text: string, lines: seq<string>, line: string)
    requires '\n' !in line && SplitNewline(text) == lines + [""]
    ensures SplitNewline(text + (line + "\n")) == lines + [line] + [""]
  {
    SplitAppend(text, line);
    SplitNext(text + line, '\n');
    assert text + (line + "\n") == text + line + ['\n'];
    BehindNewline(lines, line);
  }

  lemma ParseNext<P>(lines: seq<string>, line: string, c: Codec<P>)
    ensures ParseLines(lines + [line], c) == ParseLines(lines, c) + ParseLine(line, c)
  {
    assert (lines + [line])[..|lines + [line]| - 1] == lines;
  }

  lemma {:induction false} SplitLines<P(!new)>(es: seq<Entry<P>>, c: Codec<P>) returns (lines: seq<string>)
    requires Lawful(c)
    ensures SplitNewline(Lines(es, c)) == lines + [""] && ParseLines(lines, c) == es
  {
    if es == [] {
      lines := [];
    } else {
      var front, e := es[..|es| - 1], es[|es| - 1];
      var before := SplitLines(front, c);
      SplitLine(Lines(front, c), before, c.stringify(e));
      ParseNext(before, c.stringify(e), c);
      lines := before + [c.stringify(e)];
      assert ParseLine(c.stringify(e), c) == [e] && front + [e] == es;
    }
  }

  /** A file written one event a line parses back to the events. */
  lemma FileRoundTrip<P(!new)>(es: seq<Entry<P>>, c: Codec<P>)
    requires Lawful(c)
    ensures ParseLines(SplitNewline(Lines(es, c)), c) == es
  {
    var lines := SplitLines(es, c);
    ParseNext(lines, "", c);
  }

  // ---- the directory -----------------------------------------------------

  /** No event file to begin with. */
  predicate NoLogs(files: Files) { forall name :: name in files ==> !IsLogName(name) }

  predicate HasDate<P>(es: seq<Entry<P>>, name: string) {
    exists i :: 0 <= i < |es| && name == FileName(DateOf(es[i]))
  }

  /** The directory holds exactly the files of the recorded dates, one event a line. */
  ghost predicate Holds<P>(files: Files, es: seq<Entry<P>>, c: Codec<P>) {
    && (forall name :: IsLogName(name) ==> (name in files <==> HasDate(es, name)))
    && (forall date: string :: |date| == 10 ==> ContentOf(files, FileName(date)) == Lines(OfDate(es, date), c))
  }

  lemma FileNameFacts(d: string, e: string)
    ensures IsLogName(FileName(d))
    ensures FileName(d) == FileName(e) <==> d == e
    ensures |d| == |e| ==> (StringLess(FileName(d), FileName(e)) <==> StringLess(d, e))
  {
    assert FileName(d)[|d|..] == SUFFIX;
    assert FileName(d)[..|FileName(d)| - |SUFFIX|] == d && FileName(e)[..|FileName(e)| - |SUFFIX|] == e;
    if |d| == |e| {
      if d != e { StringLessHeads(d, e, SUFFIX, SUFFIX); } else { StringLessTotal(FileName(d), FileName(e)); StringLessTotal(d, e); }
    }
  }

  lemma HoldsNothing<P>(files: Files, c: Codec<P>)
    requires NoLogs(files)
    ensures Holds(files, [], c)
  {
    forall date: string ensures FileName(date) !in files { FileNameFacts(date, date); }
  }

  lemma HasDateNext<P>(es: seq<Entry<P>>, e: Entry<P>, name: string)
    ensures HasDate(es + [e], name) <==> HasDate(es, name) || name == FileName(DateOf(e))
  {
    var more := es + [e];
    if HasDate(es, name) {
      var i :| 0 <= i < |es| && name == FileName(DateOf(es[i]));
      assert more[i] == es[i];
    }
    assert more[|es|] == e;
  }

  lemma ContentMore<P>(files: Files, es: seq<Entry<P>>, e: Entry<P>, c: Codec<P>, date: string)
    requires |DateOf(e)| == |date| && ContentOf(files, FileName(date)) == Lines(OfDate(es, date), c)
    ensures ContentOf(Appended(files, c, e, DateOf(e)), FileName(date)) == Lines(OfDate(es + [e], date), c)
  {
    FileNameFacts(date, DateOf(e));
    OfDateNext(es, e, date);
    if date == DateOf(e) {
      LinesNext(OfDate(es, date), e, c);
    } else {
      assert OfDate(es + [e], date) == OfDate(es, date);
    }
  }

  lemma NamesMore<P>(files: Files, es: seq<Entry<P>>, e: Entry<P>, c: Codec<P>, name: string)
    requires name in files <==> HasDate(es, name)
    ensures name in Appended(files, c, e, DateOf(e)) <==> HasDate(es + [e], name)
  {
    HasDateNext(es, e, name);
  }

  lemma HoldsMore<P>(files: Files, es: seq<Entry<P>>, e: Entry<P>, c: Codec<P>)
    requires Holds(files, es, c) && |DateOf(e)| == 10
    ensures Holds(Appended(files, c, e, DateOf(e)), es + [e], c)
  {
    forall date: string | |date| == 10
      ensures ContentOf(Appended(files, c, e, DateOf(e)), FileName(date)) == Lines(OfDate(es + [e], date), c)
    {
      ContentMore(files, es, e, c, date);
    }
    forall name | IsLogName(name) ensures name in Appended(files, c, e, DateOf(e)) <==> HasDate(es + [e], name) {
      NamesMore(files, es, e, c, name);
    }
  }

  lemma LinesNext<P>(es: seq<Entry<P>>, e: Entry<P>, c: Codec<P>)
    ensures Lines(es + [e], c) == Lines(es, c) + (c.stringify(e) + "\n")
  {
    assert (es + [e])[..|es + [e]| - 1] == es;
  }

  lemma DateOfCall<P>(call: Call<P>)
    requires call.Record? && Stamped(call)
    ensures DateOf(call.entry) == UtcDate(call.now) && |DateOf(call.entry)| == 10
  {
    IsoLength(call.now);
  }

  lemma {:induction false} RecordedDated<P>(calls: seq<Call<P>>)
    requires AllStamped(calls)
    ensures Dated(Recorded(calls))
  {
    if calls != [] {
      RecordedDated(calls[..|calls| - 1]);
      if calls[|calls| - 1].Record? { DateOfCall(calls[|calls| - 1]); }
    }
  }

  lemma {:induction false} DirectoryHolds<P>(files: Files, calls: seq<Call<P>>, c: Codec<P>)
    requires NoLogs(files) && AllStamped(calls)
    ensures Holds(AfterCalls(files, calls, c), Recorded(calls), c)
  {
    if calls == [] {
      HoldsNothing(files, c);
    } else {
      DirectoryHolds(files, calls[..|calls| - 1], c);
      DirectoryNext(files, calls, c);
    }
  }

  lemma DirectoryNext<P>(files: Files, calls: seq<Call<P>>, c: Codec<P>)
    requires calls != [] && AllStamped(calls)
    requires Holds(AfterCalls(files, calls[..|calls| - 1], c), Recorded(calls[..|calls| - 1]), c)
    ensures Holds(AfterCalls(files, calls, c), Recorded(calls), c)
  {
    var front, call := calls[..|calls| - 1], calls[|calls| - 1];
    if call.Record? {
      DateOfCall(call);
      HoldsMore(AfterCalls(files, front, c), Recorded(front), call.entry, c);
    } else {
      assert Recorded(calls) == Recorded(front);
    }
  }

  // ---- loading -----------------------------------------------------------

  ghost predicate Distinct(names: seq<string>) { forall name :: multiset(names)[name] <= 1 }

  /** What `readdirSync` may return: every file once, in any order. */
  ghost predicate Lists(listing: seq<string>, files: Files) {
    Distinct(listing) && forall name :: name in listing <==> name in files
  }

  lemma {:induction false} LogNamesOnly(listing: seq<string>)
    requires Distinct(listing)
    ensures Distinct(LogNames(listing))
    ensures forall name :: name in LogNames(listing) <==> name in listing && IsLogName(name)
    ensures multiset(LogNames(listing)) <= multiset(listing)
  {
    if listing != [] {
      assert listing == [listing[0]] + listing[1..];
      assert forall name :: multiset(listing)[name] >= multiset(listing[1..])[name];
      LogNamesOnly(listing[1..]);
    }
  }

  /** The file names of some dates with an event, in ascending order without repetition. */
  ghost predicate NamesOf<P>(names: seq<string>, es: seq<Entry<P>>) {
    && SortedNames(names) && Distinct(names)
    && (forall k :: 0 <= k < |names| ==> HasDate(es, names[k]))
  }

  /** Loading those files gives the events of their dates, dates ascending. */
  ghost predicate Loaded<P>(names: seq<string>, es: seq<Entry<P>>, loaded: seq<Entry<P>>) {
    && DatesAscend(loaded) && Dated(loaded)
    && (forall k :: 0 <= k < |loaded| ==> FileName(DateOf(loaded[k])) in names)
    && (forall date :: OfDate(loaded, date) == if FileName(date) in names then OfDate(es, date) else [])
  }

  lemma GroupAscends<P>(date: string, group: seq<Entry<P>>, names: seq<string>, rest: seq<Entry<P>>)
    requires |date| == 10 && forall i :: 0 <= i < |group| ==> DateOf(group[i]) == date
    requires forall k :: 0 <= k < |names| ==> !StringLess(names[k], FileName(date))
    requires DatesAscend(rest) && Dated(rest) && forall k :: 0 <= k < |rest| ==> FileName(DateOf(rest[k])) in names
    ensures DatesAscend(group + rest) && Dated(group + rest)
  {
    StringLessTotal(date, date);
    forall k | 0 <= k < |rest| ensures !StringLess(DateOf(rest[k]), date) {
      assert FileName(DateOf(rest[k])) in names;
      assert |DateOf(rest[k])| == 10;
      FileNameFacts(DateOf(rest[k]), date);
    }
  }

  lemma RestDistinct(names: seq<string>)
    requires names != [] && Distinct(names)
    ensures Distinct(names[1..]) && names[0] !in names[1..]
  {
    assert names == [names[0]] + names[1..];
    assert forall name :: multiset(names)[name] >= multiset(names[1..])[name];
    assert multiset(names)[names[0]] <= 1;
    assert names[0] !in multiset(names[1..]);
  }

  lemma {:induction false} ParseLoads<P(!new)>(names: seq<string>, files: Files, es: seq<Entry<P>>, c: Codec<P>)
    requires Lawful(c) && Holds(files, es, c) && Dated(es) && NamesOf(names, es)
    ensures Loaded(names, es, ParseFiles(names, files, c))
  {
    if names != [] {
      RestDistinct(names);
      ParseLoads(names[1..], files, es, c);
      assert HasDate(es, names[0]);
      var i :| 0 <= i < |es| && names[0] == FileName(DateOf(es[i]));
      var d := DateOf(es[i]);
      FileRoundTrip(OfDate(es, d), c);
      GroupLoads(d, names, es, ParseFiles(names[1..], files, c));
    }
  }

  lemma GroupLoads<P>(d: string, names: seq<string>, es: seq<Entry<P>>, rest: seq<Entry<P>>)
    requires names != [] && names[0] == FileName(d) && |d| == 10 && SortedNames(names) && names[0] !in names[1..]
    requires Loaded(names[1..], es, rest)
    ensures Loaded(names, es, OfDate(es, d) + rest)
  {
    OfDateIs(es, d);
    GroupAscends(d, OfDate(es, d), names[1..], rest);
    assert forall name :: name in names[1..] ==> name in names;
    forall date ensures OfDate(OfDate(es, d) + rest, date) == if FileName(date) in names then OfDate(es, date) else [] {
      GroupDates(d, names, es, rest, date);
    }
  }

  lemma GroupDates<P>(d: string, names: seq<string>, es: seq<Entry<P>>, rest: seq<Entry<P>>, date: string)
    requires names != [] && names[0] == FileName(d) && names[0] !in names[1..]
    requires OfDate(rest, date) == if FileName(date) in names[1..] then OfDate(es, date) else []
    ensures OfDate(OfDate(es, d) + rest, date) == if FileName(date) in names then OfDate(es, date) else []
  {
    OfDateIs(es, d);
    FileNameFacts(date, d);
    assert names == [names[0]] + names[1..];
    if date == d { OfDateAll(OfDate(es, d), d); } else { OfOtherDate(OfDate(es, d), date); }
    GroupOfDate(OfDate(es, d), rest, date);
  }

  lemma GroupOfDate<P>(group: seq<Entry<P>>, rest: seq<Entry<P>>, date: string)
    requires OfDate(group, date) == [] || OfDate(rest, date) == []
    ensures OfDate(group + rest, date) == if OfDate(rest, date) == [] then OfDate(group, date) else OfDate(rest, date)
  {
    OfDateJoins(group, rest, date);
  }

  /** `loadEvents` after any calls on the recorder: the recorded events, stably sorted by UTC
      date, whatever the order of the directory listing. */
  lemma LoadedIsSorted<P(!new)>(listing: seq<string>, files: Files, calls: seq<Call<P>>, c: Codec<P>)
    requires Lawful(c) && NoLogs(files) && AllStamped(calls)
    requires Lists(listing, AfterCalls(files, calls, c))
    ensures StablySorted(Recorded(calls), LoadEvents(listing, AfterCalls(files, calls, c), c))
  {
    var after, es := AfterCalls(files, calls, c), Recorded(calls);
    DirectoryHolds(files, calls, c);
    RecordedDated(calls);
    var names := Sort(LogNames(listing));
    NamesSorted(listing);
    ParseLoads(names, after, es, c);
    forall date ensures OfDate(LoadEvents(listing, after, c), date) == OfDate(es, date) {
      FileNameFacts(date, date);
      if !HasDate(es, FileName(date)) { NoneOfDate(es, date); }
    }
  }

  lemma NamesSorted(listing: seq<string>)
    requires Distinct(listing)
    ensures var names := Sort(LogNames(listing));
      SortedNames(names) && Distinct(names) && forall name :: name in names <==> name in listing && IsLogName(name)
  {
    LogNamesOnly(listing);
    var logs := LogNames(listing);
    SortSorts(logs);
    forall name ensures name in Sort(logs) <==> name in logs {
      assert name in multiset(Sort(logs)) <==> name in multiset(logs);
    }
  }

  lemma {:induction false} NoneOfDate<P>(es: seq<Entry<P>>, date: string)
    requires !HasDate(es, FileName(date))
    ensures OfDate(es, date) == []
  {
    forall i | 0 <= i < |es| ensures DateOf(es[i]) != date {
      assert FileName(DateOf(es[i])) != FileName(date);
    }
    OfOtherDate(es, date);
  }

  // ---- the stable sort is unique -----------------------------------------

  lemma {:induction false} DateFound<P>(es: seq<Entry<P>>, date: string) returns (i: nat)
    requires OfDate(es, date) != []
    ensures i < |es| && DateOf(es[i]) == date
  {
    if DateOf(es[|es| - 1]) == date {
      i := |es| - 1;
    } else {
      i := DateFound(es[..|es| - 1], date);
    }
  }

  lemma LastDateBounds<P>(a: seq<Entry<P>>, b: seq<Entry<P>>)
    requires b != [] && DatesAscend(a) && forall date :: OfDate(a, date) == OfDate(b, date)
    ensures a != [] && !StringLess(DateOf(a[|a| - 1]), DateOf(b[|b| - 1]))
  {
    OfDateFound(b, |b| - 1);
    var i := DateFound(a, DateOf(b[|b| - 1]));
    StringLessTotal(DateOf(a[i]), DateOf(a[i]));
  }

  lemma SameLast<P>(a: seq<Entry<P>>, b: seq<Entry<P>>)
    requires a != [] && b != [] && DateOf(a[|a| - 1]) == DateOf(b[|b| - 1])
    requires forall date :: OfDate(a, date) == OfDate(b, date)
    ensures a[|a| - 1] == b[|b| - 1]
  {
    LastOfDate(a);
    LastOfDate(b);
    assert OfDate(a, DateOf(a[|a| - 1])) == OfDate(b, DateOf(a[|a| - 1]));
  }

  lemma LastOfDate<P>(es: seq<Entry<P>>)
    requires es != []
    ensures var e := es[|es| - 1];
      var group := OfDate(es, DateOf(e)); group != [] && group[|group| - 1] == e
  {
  }

  lemma SameFronts<P>(a: seq<Entry<P>>, b: seq<Entry<P>>, e: Entry<P>, date: string)
    requires OfDate(a + [e], date) == OfDate(b + [e], date)
    ensures OfDate(a, date) == OfDate(b, date)
  {
    OfDateNext(a, e, date);
    OfDateNext(b, e, date);
    SameTails(OfDate(a, date), OfDate(b, date), if DateOf(e) == date then [e] else []);
  }

  lemma SameTails<T>(a: seq<T>, b: seq<T>, tail: seq<T>)
    requires a + tail == b + tail
    ensures a == b
  {
    assert |a + tail| == |b + tail|;
    assert a == (a + tail)[..|a|] && b == (b + tail)[..|b|];
  }

  /** Two date-ascending lists with the same events of every date, in the same order, are equal. */
  lemma {:induction false} StableSortUnique<P>(a: seq<Entry<P>>, b: seq<Entry<P>>)
    requires DatesAscend(a) && DatesAscend(b) && forall date :: OfDate(a, date) == OfDate(b, date)
    ensures a == b
  {
    if a != [] { LastDateBounds(b, a); }
    if b != [] { LastDateBounds(a, b); }
    if a != [] {
      var e, frontA, frontB := a[|a| - 1], a[..|a| - 1], b[..|b| - 1];
      StringLessTotal(DateOf(e), DateOf(b[|b| - 1]));
      SameLast(a, b);
      assert a == frontA + [e] && b == frontB + [e];
      forall date ensures OfDate(frontA, date) == OfDate(frontB, date) {
        assert OfDate(a, date) == OfDate(b, date);
        SameFronts(frontA, frontB, e, date);
      }
      StableSortUnique(frontA, frontB);
    }
  }

  /** The loader returns the recorded order exactly when the recorded dates never decrease. */
  lemma LoadedIsRecorded<P(!new)>(listing: seq<string>, files: Files, calls: seq<Call<P>>, c: Codec<P>)
    requires Lawful(c) && NoLogs(files) && AllStamped(calls)
    requires Lists(listing, AfterCalls(files, calls, c))
    ensures LoadEvents(listing, AfterCalls(files, calls, c), c) == Recorded(calls) <==> DatesAscend(Recorded(calls))
  {
    LoadedIsSorted(listing, files, calls, c);
    if DatesAscend(Recorded(calls)) {
      StableSortUnique(LoadEvents(listing, AfterCalls(files, calls, c), c), Recorded(calls));
    }
  }

  // ---- the clock ---------------------------------------------------------

  predicate ClockKeepsOn<P>(calls: seq<Call<P>>)
    requires AllStamped(calls)
  {
    forall i, j :: 0 <= i < j < |calls| && calls[i].Record? && calls[j].Record? ==>
      assert Stamped(calls[i]) && Stamped(calls[j]);
      TimeValue(calls[i].now) <= TimeValue(calls[j].now)
  }

  predicate FourDigitYears<P>(calls: seq<Call<P>>) {
    forall i :: 0 <= i < |calls| && calls[i].Record? ==> 0 <= calls[i].now.year <= 9999
  }

  lemma {:induction false} RecordedFrom<P>(calls: seq<Call<P>>, k: nat) returns (i: nat)
    requires k < |Recorded(calls)|
    ensures i < |calls| && calls[i].Record? && calls[i].entry == Recorded(calls)[k]
  {
    var front := calls[..|calls| - 1];
    if k < |Recorded(front)| {
      i := RecordedFrom(front, k);
    } else {
      i := |calls| - 1;
    }
  }

  lemma {:induction false} SteadyClockAscends<P>(calls: seq<Call<P>>)
    requires AllStamped(calls) && ClockKeepsOn(calls) && FourDigitYears(calls)
    ensures DatesAscend(Recorded(calls))
  {
    if calls != [] {
      var front, last := calls[..|calls| - 1], calls[|calls| - 1];
      SteadyClockAscends(front);
      if last.Record? {
        forall k | 0 <= k < |Recorded(front)|
          ensures !StringLess(DateOf(last.entry), DateOf(Recorded(front)[k]))
        {
          var i := RecordedFrom(front, k);
          assert Stamped(calls[i]) && Stamped(last);
          IsoLength(calls[i].now);
          IsoLength(last.now);
          UtcDateMonotone(calls[i].now, last.now);
          StringLessTotal(UtcDate(calls[i].now), UtcDate(last.now));
        }
      }
    }
  }

  /** While the clock never goes back the loader returns exactly what was recorded, in order. */
  lemma SteadyClockRoundTrip<P(!new)>(listing: seq<string>, files: Files, calls: seq<Call<P>>, c: Codec<P>)
    requires Lawful(c) && NoLogs(files) && AllStamped(calls) && ClockKeepsOn(calls) && FourDigitYears(calls)
    requires Lists(listing, AfterCalls(files, calls, c))
    ensures LoadEvents(listing, AfterCalls(files, calls, c), c) == Recorded(calls)
  {
    SteadyClockAscends(calls);
    LoadedIsRecorded(listing, files, calls, c);
  }
}
