/** The line filter on bytes: every chunk is decoded on its own before it is split into lines. */
module LineBytes {
  import opened Prelude
  import opened Utf
  import opened LineFilter

  function Chars(cs: seq<Scalar>): (s: string)
    ensures |s| == |cs|
  {
    seq(|cs|, i requires 0 <= i < |cs| => cs[i] as char)
  }

  /** `chunk.toString()`: malformed bytes are replaced, a byte order mark is kept. */
  function Text(bytes: seq<Byte>): string { Chars(DecodeFrom(bytes, READY)) }

  function Texts(chunks: seq<seq<Byte>>): (texts: seq<string>)
    ensures |texts| == |chunks|
  {
    seq(|chunks|, i requires 0 <= i < |chunks| => Text(chunks[i]))
  }

  /** A whole byte stream through the handlers. */
  method ForwardBytes(chunks: seq<seq<Byte>>, suppress: string -> bool) returns (output: string)
    ensures output == Filtered(Whole(Texts(chunks)), suppress)
    ensures AllClean(chunks) ==> output == Filtered(Text(Whole(chunks)), suppress)
  {
    output := ForwardWithLineFilter(Texts(chunks), suppress);
    TextExactly(chunks);
  }

  // ---- the decoder between two chunks ------------------------------------

  /** The state of the decoder after `bytes`. */
  function StateAfter(bytes: seq<Byte>, d: State): (e: State)
    requires Sound(d)
    ensures Sound(e)
    decreases |bytes|, d.needed
  {
    if bytes == [] then d
    else
      var b := bytes[0];
      if d.needed == 0 then StateAfter(bytes[1..], if IsLead(b) then Lead(b) else READY)
      else if !(d.lower <= b <= d.upper) then StateAfter(bytes, READY)
      else StateAfter(bytes[1..], if d.needed == 1 then READY else Continue(d, b))
  }

  /** What it has put out after `bytes`. */
  function Emitted(bytes: seq<Byte>, d: State): seq<Scalar>
    requires Sound(d)
    decreases |bytes|, d.needed
  {
    if bytes == [] then []
    else
      var b := bytes[0];
      if d.needed == 0 then
        if b < 0x80 then [b] + Emitted(bytes[1..], READY)
        else if IsLead(b) then Emitted(bytes[1..], Lead(b))
        else [REPLACEMENT] + Emitted(bytes[1..], READY)
      else if !(d.lower <= b <= d.upper) then [REPLACEMENT] + Emitted(bytes, READY)
      else if d.needed == 1 then [(d.bits * 0x40 + b - 0x80) as Scalar] + Emitted(bytes[1..], READY)
      else Emitted(bytes[1..], Continue(d, b))
  }

  lemma {:induction false} DecodesOn(a: seq<Byte>, b: seq<Byte>, d: State)
    requires Sound(d)
    ensures DecodeFrom(a + b, d) == Emitted(a, d) + DecodeFrom(b, StateAfter(a, d))
    decreases |a|, d.needed
  {
    if a == [] {
      assert a + b == b;
    } else {
      var x := a[0];
      assert (a + b)[1..] == a[1..] + b;
      if d.needed == 0 { DecodesOn(a[1..], b, if IsLead(x) then Lead(x) else READY); }
      else if !(d.lower <= x <= d.upper) { DecodesOn(a, b, READY); }
      else { DecodesOn(a[1..], b, if d.needed == 1 then READY else Continue(d, x)); }
    }
  }

  /** `b` goes on with a character that is not complete. */
  predicate Continues(d: State, b: seq<Byte>) {
    d.needed > 0 && b != [] && d.lower <= b[0] <= d.upper
  }

  /** No chunk goes on with a character that an earlier one began. */
  predicate AllClean(chunks: seq<seq<Byte>>) {
    chunks != [] ==>
      && AllClean(chunks[..|chunks| - 1])
      && !Continues(StateAfter(Whole(chunks[..|chunks| - 1]), READY), chunks[|chunks| - 1])
  }

  // ---- counting characters -----------------------------------------------

  /** The characters other than carriage returns, which alone the filter drops. */
  function Weight(s: string): nat {
    if s == "" then 0 else Weight(s[..|s| - 1]) + if s[|s| - 1] == '\r' then 0 else 1
  }

  lemma WeightNext(s: string, c: char)
    ensures Weight(s + [c]) == Weight(s) + if c == '\r' then 0 else 1
  {
    assert (s + [c])[..|s|] == s;
  }

  lemma {:induction false} WeightJoins(s: string, t: string)
    ensures Weight(s + t) == Weight(s) + Weight(t)
  {
    if t == "" {
      assert s + t == s;
    } else {
      var front, c := t[..|t| - 1], t[|t| - 1];
      WeightJoins(s, front);
      WeightNext(s + front, c);
      assert s + t == s + front + [c];
    }
  }

  function ScalarWeight(cs: seq<Scalar>): nat { Weight(Chars(cs)) }

  lemma ScalarWeightJoins(cs: seq<Scalar>, ds: seq<Scalar>)
    ensures Chars(cs + ds) == Chars(cs) + Chars(ds)
    ensures ScalarWeight(cs + ds) == ScalarWeight(cs) + ScalarWeight(ds)
  {
    assert Chars(cs + ds) == Chars(cs) + Chars(ds);
    WeightJoins(Chars(cs), Chars(ds));
  }

  lemma ScalarWeightOne(c: Scalar)
    ensures ScalarWeight([c]) == if c == 0x0D then 0 else 1
  {
    var x := c as char;
    assert x as int == c && '\r' as int == 0x0D;
    assert Chars([c]) == "" + [x];
    WeightNext("", x);
  }

  lemma ScalarWeightFirst(c: Scalar, cs: seq<Scalar>)
    ensures ScalarWeight([c] + cs) == (if c == 0x0D then 0 else 1) + ScalarWeight(cs)
  {
    ScalarWeightJoins([c], cs);
    ScalarWeightOne(c);
  }

  /** Reading `b` in the middle of a character gives at most one character more than reading it
      afresh, and none more when `b` goes on with that character. */
  lemma {:induction false} PendingWeight(b: seq<Byte>, d: State)
    requires Sound(d) && d.needed > 0
    ensures ScalarWeight(DecodeFrom(b, d)) <= 1 + ScalarWeight(DecodeFrom(b, READY))
    ensures Continues(d, b) ==> ScalarWeight(DecodeFrom(b, d)) <= ScalarWeight(DecodeFrom(b, READY))
  {
    if b == [] {
      ScalarWeightOne(REPLACEMENT);
    } else if !Continues(d, b) {
      ScalarWeightFirst(REPLACEMENT, DecodeFrom(b, READY));
    } else {
      ScalarWeightFirst(REPLACEMENT, DecodeFrom(b[1..], READY));
      if d.needed == 1 {
        ScalarWeightFirst((d.bits * 0x40 + b[0] - 0x80) as Scalar, DecodeFrom(b[1..], READY));
      } else {
        PendingWeight(b[1..], Continue(d, b[0]));
      }
    }
  }

  lemma CleanCut(a: seq<Byte>, b: seq<Byte>, out: seq<Scalar>, d: State)
    requires Sound(d) && !Continues(d, b)
    requires DecodeFrom(a + b, READY) == out + DecodeFrom(b, d) && DecodeFrom(a, READY) == out + DecodeFrom([], d)
    ensures Text(a + b) == Text(a) + Text(b)
  {
    FlushThenFresh(d, b);
    Regroup(out, DecodeFrom([], d), DecodeFrom(b, READY));
    JoinedText(a, b);
  }

  lemma Regroup(x: seq<Scalar>, y: seq<Scalar>, z: seq<Scalar>)
    ensures x + (y + z) == x + y + z
  {
  }

  lemma JoinedText(a: seq<Byte>, b: seq<Byte>)
    requires DecodeFrom(a + b, READY) == DecodeFrom(a, READY) + DecodeFrom(b, READY)
    ensures Text(a + b) == Text(a) + Text(b)
  {
    ScalarWeightJoins(DecodeFrom(a, READY), DecodeFrom(b, READY));
  }

  lemma CutInside(a: seq<Byte>, b: seq<Byte>, out: seq<Scalar>, d: State)
    requires Sound(d) && Continues(d, b)
    requires DecodeFrom(a + b, READY) == out + DecodeFrom(b, d) && DecodeFrom(a, READY) == out + DecodeFrom([], d)
    ensures Weight(Text(a + b)) < Weight(Text(a)) + Weight(Text(b))
  {
    ScalarWeightJoins(out, DecodeFrom(b, d));
    ScalarWeightJoins(out, DecodeFrom([], d));
    PendingWeight(b, d);
    ScalarWeightOne(REPLACEMENT);
  }

  /** Decoding two parts apart is decoding them together unless the cut is inside a character,
      and then it gives more characters. */
  lemma CutText(a: seq<Byte>, b: seq<Byte>)
    ensures !Continues(StateAfter(a, READY), b) ==> Text(a + b) == Text(a) + Text(b)
    ensures Continues(StateAfter(a, READY), b) ==> Weight(Text(a + b)) < Weight(Text(a)) + Weight(Text(b))
  {
    DecodesOn(a, b, READY);
    DecodesOn(a, [], READY);
    assert a + [] == a;
    if Continues(StateAfter(a, READY), b) {
      CutInside(a, b, Emitted(a, READY), StateAfter(a, READY));
    } else {
      CleanCut(a, b, Emitted(a, READY), StateAfter(a, READY));
    }
  }

  lemma FlushThenFresh(d: State, b: seq<Byte>)
    requires Sound(d) && !Continues(d, b)
    ensures DecodeFrom(b, d) == DecodeFrom([], d) + DecodeFrom(b, READY)
  {
  }

  lemma TextsNext(chunks: seq<seq<Byte>>)
    requires chunks != []
    ensures var front, last := chunks[..|chunks| - 1], chunks[|chunks| - 1];
      Whole(Texts(chunks)) == Whole(Texts(front)) + Text(last) && Whole(chunks) == Whole(front) + last
  {
    assert Texts(chunks)[..|chunks| - 1] == Texts(chunks[..|chunks| - 1]);
  }

  lemma {:induction false} ChunkedText(chunks: seq<seq<Byte>>)
    ensures AllClean(chunks) ==> Whole(Texts(chunks)) == Text(Whole(chunks))
    ensures Weight(Text(Whole(chunks))) <= Weight(Whole(Texts(chunks)))
    ensures !AllClean(chunks) ==> Weight(Text(Whole(chunks))) < Weight(Whole(Texts(chunks)))
  {
    if chunks != [] {
      var front, last := chunks[..|chunks| - 1], chunks[|chunks| - 1];
      ChunkedText(front);
      TextsNext(chunks);
      CutText(Whole(front), last);
      WeightJoins(Text(Whole(front)), Text(last));
      WeightJoins(Whole(Texts(front)), Text(last));
    }
  }

  /** The handlers see the text of the whole stream exactly when no cut is inside a character. */
  lemma TextExactly(chunks: seq<seq<Byte>>)
    ensures Whole(Texts(chunks)) == Text(Whole(chunks)) <==> AllClean(chunks)
  {
    ChunkedText(chunks);
  }

  // ---- the output --------------------------------------------------------

  /** Suppresses no line. */
  predicate NoLine(line: string) { false }

  function PieceWeight(pieces: seq<string>): nat
    requires pieces != []
  {
    Weight(Forwarded(Complete(pieces), NoLine) + Tail(Last(pieces), NoLine))
  }

  lemma {:induction false} SplitWeight(text: string)
    ensures PieceWeight(SplitLines(text)) == Weight(text)
  {
    if text != "" {
      SplitWeight(text[..|text| - 1]);
      ExtendedWeight(SplitLines(text[..|text| - 1]), text[|text| - 1]);
    }
  }

  /** The filter that suppresses nothing drops carriage returns only. */
  lemma FilteredWeight(text: string)
    ensures Weight(Filtered(text, NoLine)) == Weight(text)
  {
    SplitWeight(text);
  }

  lemma ExtendedWeight(pieces: seq<string>, c: char)
    requires |pieces| >= 1
    ensures PieceWeight(Extended(pieces, c)) == PieceWeight(pieces) + if c == '\r' then 0 else 1
  {
    var front, last := Complete(pieces), Last(pieces);
    assert pieces == front + [last];
    PiecesWeight(front, last);
    if c == '\n' { NewlineWeight(front, last); } else { OrdinaryWeight(front, last, c); }
  }

  lemma PiecesWeight(front: seq<string>, last: string)
    ensures PieceWeight(front + [last]) == Weight(Forwarded(front, NoLine)) + Weight(last)
  {
    assert Complete(front + [last]) == front && Tail(last, NoLine) == last;
    WeightJoins(Forwarded(front, NoLine), last);
  }

  lemma OrdinaryWeight(front: seq<string>, last: string, c: char)
    ensures PieceWeight(front + [last + [c]])
         == Weight(Forwarded(front, NoLine)) + Weight(last) + if c == '\r' then 0 else 1
  {
    PiecesWeight(front, last + [c]);
    WeightNext(last, c);
  }

  lemma NewlineWeight(front: seq<string>, last: string)
    ensures PieceWeight(front + [WithoutReturn(last), ""]) == Weight(Forwarded(front, NoLine)) + Weight(last) + 1
  {
    var line := WithoutReturn(last);
    var pieces := front + [line, ""];
    assert Complete(pieces) == front + [line];
    assert (front + [line])[..|front|] == front;
    var out := Forwarded(front, NoLine);
    assert Forwarded(Complete(pieces), NoLine) + Tail("", NoLine) == out + (line + "\n");
    WeightJoins(out, line + "\n");
    WeightNext(line, '\n');
    if line != last { WeightNext(line, '\r'); assert last == line + ['\r']; }
  }

  predicate SameOutput(seen: string, whole: string, suppress: string -> bool) {
    Filtered(seen, suppress) == Filtered(whole, suppress)
  }

  lemma DifferentOutput(seen: string, whole: string)
    requires Weight(whole) < Weight(seen)
    ensures !SameOutput(seen, whole, NoLine)
  {
    FilteredWeight(seen);
    FilteredWeight(whole);
  }

  /** On bytes the output is the batch result for every choice of suppressed lines exactly when
      no chunk ends inside a character that the next one goes on with. */
  lemma OutputExactly(chunks: seq<seq<Byte>>)
    ensures (forall suppress: string -> bool :: SameOutput(Whole(Texts(chunks)), Text(Whole(chunks)), suppress))
        <==> AllClean(chunks)
  {
    ChunkedText(chunks);
    if !AllClean(chunks) { DifferentOutput(Whole(Texts(chunks)), Text(Whole(chunks))); }
  }

  /** A two-byte character cut in the middle: the text is not that of the whole stream. */
  lemma SplitCharacter()
    ensures Whole(Texts([[0xC3], [0xA9]])) != Text(Whole([[0xC3], [0xA9]]))
  {
    var chunks: seq<seq<Byte>> := [[0xC3], [0xA9]];
    assert chunks[..1] == [[0xC3]] && chunks[..1][..0] == [];
    assert Whole(chunks[..1]) == [0xC3];
    assert StateAfter([0xC3], READY) == Lead(0xC3);
    TextExactly(chunks);
  }
}
