/** Uploading a file in chunks over a socket. */
module Upload {
  import opened Prelude

  type Bytes = seq<Byte>

  // ---- cutting the file --------------------------------------------------

  function Min(a: nat, b: nat): nat { if a < b then a else b }

  /** `file.slice(from, to)` */
  function Slice(file: Bytes, from: nat, to: nat): Bytes
    requires from <= to
  {
    file[Min(from, |file|)..Min(to, |file|)]
  }

  method FileToChunks(file: Bytes, chunkSize: nat) returns (chunks: seq<Bytes>)
    requires chunkSize > 0
    ensures Concat(chunks) == file
    ensures forall i :: 0 <= i < |chunks| ==> 0 < |chunks[i]| <= chunkSize
    ensures forall i :: 0 <= i < |chunks| - 1 ==> |chunks[i]| == chunkSize
  {
    chunks := [];
    var offset := 0;
    while offset < |file|
      invariant Concat(chunks) == file[..Min(offset, |file|)]
      invariant offset < |file| ==> forall i :: 0 <= i < |chunks| ==> |chunks[i]| == chunkSize
      invariant forall i :: 0 <= i < |chunks| ==> 0 < |chunks[i]| <= chunkSize
      invariant forall i :: 0 <= i < |chunks| - 1 ==> |chunks[i]| == chunkSize
    {
      var slice := Slice(file, offset, offset + chunkSize);
      ConcatNext(chunks, slice);
      assert file[..offset] + slice == file[..Min(offset + chunkSize, |file|)];
      chunks := chunks + [slice];
      offset := offset + chunkSize;
    }
    assert file[..|file|] == file;
  }

  // ---- the event machine -------------------------------------------------

  datatype Frame = Start | Chunk(data: Bytes) | End | Cancel

  datatype Failure = UploadFailure(message: string, code: string)

  /** How the promise is settled. */
  datatype Outcome<F> = Resolved(file: F) | Rejected(failure: Failure)

  /** Where the `open` handler stands: not started, waiting for chunk `next`, or over. */
  datatype Phase = Waiting | Sending(next: nat) | Over

  datatype Event<F> =
    | Open(throws: Option<Failure>)
    | Pull(throws: Option<Failure>)
    | Abort(cancelFails: bool)
    | Progress(bytesReceived: nat)
    | Complete(file: F)
    | ServerError(message: string, code: string)
    | SocketError
    | SocketClose(reason: string)

  datatype State<F> = State(
    aborted: bool, resolved: bool, listening: bool, phase: Phase,
    sent: seq<Frame>, closes: seq<string>, progress: seq<nat>, outcome: Option<Outcome<F>>)

  const ABORTED := UploadFailure("Upload aborted", "ABORTED")

  /** Only the first `resolve` or `reject` of a promise has an effect. */
  function Settle<F>(s: State<F>, o: Outcome<F>): State<F> {
    if s.outcome.None? then s.(outcome := Some(o)) else s
  }

  function OnAbort<F>(s: State<F>, cancelFails: bool): State<F> {
    if s.resolved then s
    else
      Settle(s.(aborted := true,
                sent := if cancelFails then s.sent else s.sent + [Cancel],
                closes := s.closes + ["Aborted by user"]),
             Rejected(ABORTED))
  }

  function Finish<F>(s: State<F>, reason: string, o: Outcome<F>): State<F> {
    Settle(s.(resolved := true, listening := false, closes := s.closes + [reason]), o)
  }

  function OnSocketError<F>(s: State<F>): State<F> {
    if s.resolved then s
    else Settle(s.(resolved := true, listening := false), Rejected(UploadFailure("WebSocket error", "WS_ERROR")))
  }

  function CloseMessage(reason: string): string { if reason != "" then reason else "Connection closed unexpectedly" }

  function OnSocketClose<F>(s: State<F>, reason: string): State<F> {
    if s.resolved then s
    else if s.aborted then s.(listening := false)
    else Settle(s.(listening := false, resolved := true), Rejected(UploadFailure(CloseMessage(reason), "WS_CLOSED")))
  }

  /** The `catch` of the `open` handler. */
  function OnThrow<F>(s: State<F>, failure: Failure): State<F> {
    if s.resolved then s.(phase := Over) else Finish(s.(phase := Over), "Error during upload", Rejected(failure))
  }

  function OnOpen<F>(s: State<F>, throws: Option<Failure>): State<F> {
    if throws.Some? then OnThrow(s, throws.value)
    else s.(sent := s.sent + [Start], phase := Sending(0))
  }

  /** The iterator answers: the next chunk, its end, or an error (its own, or that of `send`). */
  function OnPull<F>(s: State<F>, chunks: seq<Bytes>, throws: Option<Failure>): State<F>
    requires s.phase.Sending? && s.phase.next <= |chunks|
  {
    if throws.Some? then OnThrow(s, throws.value)
    else if s.aborted then s.(phase := Over)
    else if s.phase.next < |chunks| then
      s.(sent := s.sent + [Chunk(chunks[s.phase.next])], phase := Sending(s.phase.next + 1))
    else s.(sent := s.sent + [End], phase := Over)
  }

  /** The socket opens once, chunks come only while they are awaited, and an abort is only heard
      while its listener is registered. */
  predicate Enabled<F>(s: State<F>, chunks: seq<Bytes>, ev: Event<F>) {
    && (ev.Open? ==> s.phase.Waiting?)
    && (ev.Pull? ==> s.phase.Sending? && s.phase.next <= |chunks|)
    && (ev.Abort? ==> s.listening)
  }

  function Step<F>(s: State<F>, chunks: seq<Bytes>, ev: Event<F>): State<F>
    requires Enabled(s, chunks, ev)
  {
    match ev
    case Open(throws) => OnOpen(s, throws)
    case Pull(throws) => OnPull(s, chunks, throws)
    case Abort(cancelFails) => OnAbort(s, cancelFails)
    case Progress(n) => s.(progress := s.progress + [n])
    case Complete(file) => Finish(s, "Upload complete", Resolved(file))
    case ServerError(message, code) => Finish(s, "Error received", Rejected(UploadFailure(message, code)))
    case SocketError => OnSocketError(s)
    case SocketClose(reason) => OnSocketClose(s, reason)
  }

  function Initial<F>(): State<F> { State(false, false, true, Waiting, [], [], [], None) }

  /** `uploadChunks` past its early check, one method for each handler. */
  class Uploader<F> {
    const chunks: seq<Bytes>
    var aborted: bool
    var resolved: bool
    var listening: bool
    var phase: Phase
    var sent: seq<Frame>
    var closes: seq<string>
    var progress: seq<nat>
    var outcome: Option<Outcome<F>>

    ghost function View(): State<F>
      reads this
    {
      State(aborted, resolved, listening, phase, sent, closes, progress, outcome)
    }

    constructor (chunks: seq<Bytes>)
      ensures this.chunks == chunks && View() == Initial()
    {
      this.chunks := chunks;
      aborted, resolved, listening, phase := false, false, true, Waiting;
      sent, closes, progress, outcome := [], [], [], None;
    }

    method SettleWith(o: Outcome<F>)
      modifies this
      ensures View() == Settle(old(View()), o)
    {
      if outcome.None? { outcome := Some(o); }
    }

    method AbortHandler(cancelFails: bool)
      modifies this
      ensures View() == OnAbort(old(View()), cancelFails)
    {
      if resolved { return; }
      aborted := true;
      if !cancelFails { sent := sent + [Cancel]; }
      closes := closes + ["Aborted by user"];
      SettleWith(Rejected(ABORTED));
    }

    method Cleanup()
      modifies this
      ensures View() == old(View()).(listening := false)
    {
      listening := false;
    }

    /** The message handler: `Progress`, `Complete` or `ServerError`. */
    method MessageHandler(msg: Event<F>)
      requires msg.Progress? || msg.Complete? || msg.ServerError?
      modifies this
      ensures View() == Step(old(View()), chunks, msg)
    {
      match msg
      case Progress(n) =>
        progress := progress + [n];
      case Complete(file) =>
        resolved := true;
        Cleanup();
        closes := closes + ["Upload complete"];
        SettleWith(Resolved(file));
      case ServerError(message, code) =>
        resolved := true;
        Cleanup();
        closes := closes + ["Error received"];
        SettleWith(Rejected(UploadFailure(message, code)));
    }

    method ErrorHandler()
      modifies this
      ensures View() == OnSocketError(old(View()))
    {
      if resolved { return; }
      resolved := true;
      Cleanup();
      SettleWith(Rejected(UploadFailure("WebSocket error", "WS_ERROR")));
    }

    method CloseHandler(reason: string)
      modifies this
      ensures View() == OnSocketClose(old(View()), reason)
    {
      if resolved { return; }
      Cleanup();
      if !aborted {
        resolved := true;
        SettleWith(Rejected(UploadFailure(CloseMessage(reason), "WS_CLOSED")));
      }
    }

    method Catch(failure: Failure)
      modifies this
      ensures View() == OnThrow(old(View()), failure)
    {
      phase := Over;
      if resolved { return; }
      resolved := true;
      Cleanup();
      closes := closes + ["Error during upload"];
      SettleWith(Rejected(failure));
    }

    /** The `open` handler up to its first wait. */
    method OpenHandler(throws: Option<Failure>)
      modifies this
      ensures View() == OnOpen(old(View()), throws)
    {
      if throws.Some? {
        Catch(throws.value);
      } else {
        sent := sent + [Start];
        phase := Sending(0);
      }
    }

    /** The `open` handler from one wait for a chunk to the next. */
    method ResumeOpenHandler(throws: Option<Failure>)
      requires phase.Sending? && phase.next <= |chunks|
      modifies this
      ensures View() == OnPull(old(View()), chunks, throws)
    {
      if throws.Some? {
        Catch(throws.value);
      } else if phase.next < |chunks| {
        if aborted {
          phase := Over;
        } else {
          sent := sent + [Chunk(chunks[phase.next])];
          phase := Sending(phase.next + 1);
        }
      } else {
        if !aborted { sent := sent + [End]; }
        phase := Over;
      }
    }
  }

  /** The start of `uploadChunks`: a signal that is already aborted rejects without a socket. */
  method UploadChunks<F>(signalAborted: bool, chunks: seq<Bytes>)
    returns (outcome: Option<Outcome<F>>, uploader: Option<Uploader<F>>)
    ensures signalAborted ==> outcome == Some(Rejected(ABORTED)) && uploader.None?
    ensures !signalAborted ==> outcome.None? && uploader.Some? && fresh(uploader.value)
    ensures !signalAborted ==> uploader.value.chunks == chunks && uploader.value.View() == Initial()
  {
    if signalAborted { return Some(Rejected(ABORTED)), None; }
    var u := new Uploader(chunks);
    return None, Some(u);
  }

  // ---- runs --------------------------------------------------------------

  function Run<F>(chunks: seq<Bytes>, events: seq<Event<F>>): Option<State<F>> {
    if events == [] then Some(Initial())
    else
      var before, ev := Run(chunks, events[..|events| - 1]), events[|events| - 1];
      if before.Some? && Enabled(before.value, chunks, ev) then Some(Step(before.value, chunks, ev)) else None
  }

  /** The frames other than `cancel`. */
  function Payload(sent: seq<Frame>): seq<Frame> {
    if sent == [] then []
    else Payload(sent[..|sent| - 1]) + (if sent[|sent| - 1].Cancel? then [] else [sent[|sent| - 1]])
  }

  function Chunks(chunks: seq<Bytes>): seq<Frame> {
    seq(|chunks|, i requires 0 <= i < |chunks| => Chunk(chunks[i]))
  }

  /** All that is to be sent. */
  function Script(chunks: seq<Bytes>): seq<Frame> { [Start] + Chunks(chunks) + [End] }

  /** How far the script is sent, and what that says of the other fields. */
  predicate Progressed<F>(s: State<F>, chunks: seq<Bytes>) {
    match s.phase
    case Waiting => Payload(s.sent) == []
    case Sending(next) => next <= |chunks| && Payload(s.sent) == Script(chunks)[..next + 1]
    case Over => Payload(s.sent) <= Script(chunks) && (Payload(s.sent) == Script(chunks) || s.aborted || s.resolved)
  }

  predicate Settled<F>(s: State<F>) {
    && (s.outcome.Some? <==> s.aborted || s.resolved)
    && (s.resolved ==> !s.listening)
    && (!s.resolved && !s.aborted ==> s.listening)
    && (s.aborted ==> s.outcome == Some(Rejected(ABORTED)))
    && (Cancel in s.sent ==> s.aborted)
  }

  lemma PayloadNext(sent: seq<Frame>, f: Frame)
    ensures Payload(sent + [f]) == Payload(sent) + if f.Cancel? then [] else [f]
  {
    assert (sent + [f])[..|sent|] == sent;
  }

  function NextFrame(chunks: seq<Bytes>, n: nat): Frame { if n < |chunks| then Chunk(chunks[n]) else End }

  lemma ScriptNext(chunks: seq<Bytes>, n: nat)
    requires n <= |chunks|
    ensures Script(chunks)[..n + 1] + [NextFrame(chunks, n)] == Script(chunks)[..n + 2]
    ensures n == |chunks| ==> Script(chunks)[..n + 2] == Script(chunks)
  {
  }

  lemma ThrowProgresses<F>(s: State<F>, chunks: seq<Bytes>, failure: Failure)
    requires Payload(s.sent) <= Script(chunks)
    ensures Progressed(OnThrow(s, failure), chunks)
  {
  }

  lemma PullProgresses<F>(s: State<F>, chunks: seq<Bytes>, throws: Option<Failure>)
    requires s.phase.Sending? && Progressed(s, chunks)
    ensures Progressed(OnPull(s, chunks, throws), chunks)
  {
    if throws.Some? {
      ThrowProgresses(s, chunks, throws.value);
    } else if !s.aborted {
      SendProgresses(s, chunks);
    }
  }

  lemma SendProgresses<F>(s: State<F>, chunks: seq<Bytes>)
    requires s.phase.Sending? && Progressed(s, chunks) && !s.aborted
    ensures Progressed(OnPull(s, chunks, None), chunks)
  {
    PayloadNext(s.sent, NextFrame(chunks, s.phase.next));
    ScriptNext(chunks, s.phase.next);
  }

  lemma OpenProgresses<F>(s: State<F>, chunks: seq<Bytes>, throws: Option<Failure>)
    requires s.phase.Waiting? && Progressed(s, chunks)
    ensures Progressed(OnOpen(s, throws), chunks)
  {
    PayloadNext(s.sent, Start);
    assert Script(chunks)[..1] == [Start];
  }

  lemma StepProgresses<F>(s: State<F>, chunks: seq<Bytes>, ev: Event<F>)
    requires Enabled(s, chunks, ev) && Progressed(s, chunks)
    ensures Progressed(Step(s, chunks, ev), chunks)
  {
    match ev
    case Open(throws) => OpenProgresses(s, chunks, throws);
    case Pull(throws) => PullProgresses(s, chunks, throws);
    case Abort(cancelFails) => AbortProgresses(s, chunks, cancelFails);
    case _ =>
  }

  lemma AbortProgresses<F>(s: State<F>, chunks: seq<Bytes>, cancelFails: bool)
    requires Progressed(s, chunks)
    ensures Progressed(OnAbort(s, cancelFails), chunks)
  {
    PayloadNext(s.sent, Cancel);
    assert Payload(s.sent) + [] == Payload(s.sent);
  }

  lemma StepSettles<F>(s: State<F>, chunks: seq<Bytes>, ev: Event<F>)
    requires Enabled(s, chunks, ev) && Settled(s)
    ensures Settled(Step(s, chunks, ev))
  {
  }

  lemma {:induction false} RunKeeps<F>(chunks: seq<Bytes>, events: seq<Event<F>>)
    requires Run(chunks, events).Some?
    ensures Progressed(Run(chunks, events).value, chunks) && Settled(Run(chunks, events).value)
  {
    if events != [] {
      var front := events[..|events| - 1];
      RunKeeps(chunks, front);
      StepProgresses(Run(chunks, front).value, chunks, events[|events| - 1]);
      StepSettles(Run(chunks, front).value, chunks, events[|events| - 1]);
    }
  }

  // ---- what arrives ------------------------------------------------------

  /** The bytes of the chunks sent. */
  function Data(sent: seq<Frame>): Bytes {
    if sent == [] then []
    else Data(sent[..|sent| - 1]) + (if sent[|sent| - 1].Chunk? then sent[|sent| - 1].data else [])
  }

  lemma DataNext(sent: seq<Frame>, f: Frame)
    ensures Data(sent + [f]) == Data(sent) + if f.Chunk? then f.data else []
  {
    assert (sent + [f])[..|sent|] == sent;
  }

  lemma {:induction false} DataOfPayload(sent: seq<Frame>)
    ensures Data(sent) == Data(Payload(sent))
  {
    if sent != [] {
      var front, f := sent[..|sent| - 1], sent[|sent| - 1];
      DataOfPayload(front);
      DataNext(Payload(front), f);
      assert Payload(front) + [] == Payload(front);
    }
  }

  lemma {:induction false} DataOfScript(chunks: seq<Bytes>, n: nat)
    requires n <= |chunks|
    ensures Data(Script(chunks)[..n + 1]) == Concat(chunks[..n])
  {
    if n == 0 {
      assert Script(chunks)[..1] == [Start];
    } else {
      DataOfScript(chunks, n - 1);
      ScriptNext(chunks, n - 1);
      DataNext(Script(chunks)[..n], Chunk(chunks[n - 1]));
      ConcatNext(chunks[..n - 1], chunks[n - 1]);
      assert chunks[..n] == chunks[..n - 1] + [chunks[n - 1]];
    }
  }

  lemma {:induction false} PayloadMembers(sent: seq<Frame>, f: Frame)
    requires !f.Cancel?
    ensures f in Payload(sent) <==> f in sent
  {
    if sent != [] {
      PayloadMembers(sent[..|sent| - 1], f);
      assert sent == sent[..|sent| - 1] + [sent[|sent| - 1]];
    }
  }

  lemma PrefixWithEnd(payload: seq<Frame>, chunks: seq<Bytes>)
    requires payload <= Script(chunks)
    ensures End in payload <==> payload == Script(chunks)
  {
    assert Script(chunks)[|chunks| + 1] == End;
    if payload != Script(chunks) {
      assert forall i :: 0 <= i < |payload| ==> payload[i] == Script(chunks)[i] && !payload[i].End?;
    }
  }

  lemma {:induction false} ConcatPrefix(chunks: seq<Bytes>, n: nat)
    requires n <= |chunks|
    ensures Concat(chunks[..n]) <= Concat(chunks)
  {
    assert chunks == chunks[..n] + chunks[n..];
    ConcatAppend(chunks[..n], chunks[n..]);
  }

  /** At every point of every run what is sent is a prefix of the script but for `cancel`, and its
      bytes are a prefix of the file; once `end` is sent they are the whole file. */
  lemma SentIsPrefix<F>(file: Bytes, chunks: seq<Bytes>, events: seq<Event<F>>)
    requires Concat(chunks) == file && Run(chunks, events).Some?
    ensures var sent := Run(chunks, events).value.sent;
      && Payload(sent) <= Script(chunks) && Data(sent) <= file
      && (End in sent ==> Payload(sent) == Script(chunks) && Data(sent) == file)
  {
    RunKeeps(chunks, events);
    var s := Run(chunks, events).value;
    var payload := Payload(s.sent);
    DataOfPayload(s.sent);
    PayloadMembers(s.sent, End);
    PrefixWithEnd(payload, chunks);
    DataOfPrefix(payload, chunks);
  }

  lemma DataOfPrefix(payload: seq<Frame>, chunks: seq<Bytes>)
    requires payload <= Script(chunks)
    ensures Data(payload) <= Concat(chunks) && (payload == Script(chunks) ==> Data(payload) == Concat(chunks))
  {
    var n := if |payload| == 0 then 0 else Min(|payload| - 1, |chunks|);
    DataOfScript(chunks, n);
    ConcatPrefix(chunks, n);
    if |payload| == |chunks| + 2 {
      assert payload == Script(chunks)[..n + 1] + [End];
      DataNext(Script(chunks)[..n + 1], End);
      assert chunks[..n] == chunks;
    } else if payload != [] {
      assert payload == Script(chunks)[..n + 1];
    }
  }

  /** No chunk and no `end`. */
  predicate Silent(frames: seq<Frame>) {
    forall i :: 0 <= i < |frames| ==> frames[i].Start? || frames[i].Cancel?
  }

  lemma RunNext<F>(chunks: seq<Bytes>, events: seq<Event<F>>, ev: Event<F>)
    requires Run(chunks, events + [ev]).Some?
    ensures var before := Run(chunks, events);
      before.Some? && Enabled(before.value, chunks, ev)
      && Run(chunks, events + [ev]) == Some(Step(before.value, chunks, ev))
  {
    assert (events + [ev])[..|events + [ev]| - 1] == events;
  }

  /** The `open` handler will send neither a chunk nor `end` any more. */
  predicate Spent<F>(s: State<F>) { s.aborted || s.phase.Over? }

  /** Once it is spent it stays so, and sends nothing but possibly `start`. */
  lemma {:induction false} SpentSilences<F>(chunks: seq<Bytes>, a: seq<Event<F>>, b: seq<Event<F>>) returns (more: seq<Frame>)
    requires Run(chunks, a + b).Some?
    requires Run(chunks, a).Some? && Spent(Run(chunks, a).value)
    ensures Spent(Run(chunks, a + b).value)
    ensures Run(chunks, a).value.aborted ==> Run(chunks, a + b).value.aborted
    ensures Run(chunks, a + b).value.sent == Run(chunks, a).value.sent + more && Silent(more)
  {
    if b == [] {
      assert a + b == a;
      more := [];
    } else {
      var front, ev := a + b[..|b| - 1], b[|b| - 1];
      assert a + b == front + [ev];
      RunNext(chunks, front, ev);
      var before := SpentSilences(chunks, a, b[..|b| - 1]);
      var last := SpentStep(Run(chunks, front).value, chunks, ev);
      more := SilentJoin(Run(chunks, a).value.sent, before, last);
    }
  }

  lemma SilentJoin(sent: seq<Frame>, before: seq<Frame>, last: seq<Frame>) returns (more: seq<Frame>)
    requires Silent(before) && Silent(last)
    ensures Silent(more) && sent + before + last == sent + more
  {
    more := before + last;
  }

  lemma SpentStep<F>(s: State<F>, chunks: seq<Bytes>, ev: Event<F>) returns (more: seq<Frame>)
    requires Spent(s) && Enabled(s, chunks, ev)
    ensures Spent(Step(s, chunks, ev)) && (s.aborted ==> Step(s, chunks, ev).aborted)
    ensures Step(s, chunks, ev).sent == s.sent + more && Silent(more)
  {
    more := Step(s, chunks, ev).sent[|s.sent|..];
  }

  /** After an abort neither a chunk nor `end` is ever sent. */
  lemma AbortSilences<F>(chunks: seq<Bytes>, a: seq<Event<F>>, b: seq<Event<F>>) returns (more: seq<Frame>)
    requires Run(chunks, a + b).Some?
    requires Run(chunks, a).Some? && Run(chunks, a).value.aborted
    ensures Run(chunks, a + b).value.aborted
    ensures Run(chunks, a + b).value.sent == Run(chunks, a).value.sent + more && Silent(more)
  {
    more := SpentSilences(chunks, a, b);
  }

  /** In some continuation a chunk or `end` is sent. */
  ghost predicate SendsIn<F>(chunks: seq<Bytes>, events: seq<Event<F>>, more: seq<Event<F>>)
    requires Run(chunks, events).Some?
  {
    && Run(chunks, events + more).Some?
    && var sent, after := Run(chunks, events).value.sent, Run(chunks, events + more).value.sent;
    sent <= after && !Silent(after[|sent|..])
  }

  lemma RunMore<F>(chunks: seq<Bytes>, events: seq<Event<F>>, ev: Event<F>)
    requires Run(chunks, events).Some? && Enabled(Run(chunks, events).value, chunks, ev)
    ensures Run(chunks, events + [ev]) == Some(Step(Run(chunks, events).value, chunks, ev))
  {
    assert (events + [ev])[..|events + [ev]| - 1] == events;
  }

  /** A chunk or `end` can still follow, after the verdict or before it, exactly when the upload
      is not aborted and its `open` handler has not ended: the outcome does not matter. */
  lemma SendingPossibleExactly<F(!new)>(chunks: seq<Bytes>, events: seq<Event<F>>)
    requires Run(chunks, events).Some?
    ensures (exists more :: SendsIn(chunks, events, more)) <==> !Spent(Run(chunks, events).value)
  {
    if Spent(Run(chunks, events).value) {
      forall more | SendsIn(chunks, events, more) ensures false { SpentSendsNothing(chunks, events, more); }
    } else {
      var more := UnspentSends(chunks, events);
    }
  }

  lemma SpentSendsNothing<F>(chunks: seq<Bytes>, events: seq<Event<F>>, more: seq<Event<F>>)
    requires Run(chunks, events).Some? && Spent(Run(chunks, events).value)
    ensures !SendsIn(chunks, events, more)
  {
    if Run(chunks, events + more).Some? {
      var frames := SpentSilences(chunks, events, more);
      assert Run(chunks, events + more).value.sent[|Run(chunks, events).value.sent|..] == frames;
    }
  }

  lemma UnspentSends<F>(chunks: seq<Bytes>, events: seq<Event<F>>) returns (more: seq<Event<F>>)
    requires Run(chunks, events).Some? && !Spent(Run(chunks, events).value)
    ensures SendsIn(chunks, events, more)
  {
    RunKeeps(chunks, events);
    var s := Run(chunks, events).value;
    if s.phase.Waiting? {
      RunMore(chunks, events, Open(None));
      RunMore(chunks, events + [Open(None)], Pull(None));
      more := [Open(None), Pull(None)];
      assert events + more == events + [Open(None)] + [Pull(None)];
      assert Run(chunks, events + more).value.sent == s.sent + [Start] + [NextFrame(chunks, 0)];
      assert Run(chunks, events + more).value.sent[|s.sent|..][1] == NextFrame(chunks, 0);
    } else {
      RunMore(chunks, events, Pull(None));
      more := [Pull(None)];
      assert Run(chunks, events + more).value.sent == s.sent + [NextFrame(chunks, s.phase.next)];
      assert Run(chunks, events + more).value.sent[|s.sent|..][0] == NextFrame(chunks, s.phase.next);
    }
  }

  /** An error from the server right after the start rejects the upload, and still every chunk
      and `end` can follow. */
  lemma ErrorDoesNotStopSending(chunks: seq<Bytes>, message: string, code: string)
    ensures var r := Run<Bytes>(chunks, [Open(None)] + [ServerError(message, code)]);
      && r.Some? && r.value.outcome == Some(Rejected(UploadFailure(message, code)))
      && r.value.phase == Sending(0) && !Spent(r.value)
      && Payload(PullAll(r.value, chunks).sent) == Script(chunks)
  {
    RunMore<Bytes>(chunks, [], Open(None));
    var start: seq<Event<Bytes>> := [Open(None)];
    assert [] + start == start;
    RunMore<Bytes>(chunks, [Open(None)], ServerError(message, code));
    RunKeeps<Bytes>(chunks, [Open(None)] + [ServerError(message, code)]);
    UnabortedSendsAll(Run<Bytes>(chunks, [Open(None)] + [ServerError(message, code)]).value, chunks);
  }

  /** Sending goes on whatever the server says: unless the upload is aborted, chunks that arrive
      without an error are all sent and followed by `end`, even after the promise is settled. */
  lemma {:induction false} UnabortedSendsAll<F>(s: State<F>, chunks: seq<Bytes>)
    requires s.phase.Sending? && !s.aborted && Progressed(s, chunks)
    ensures Payload(PullAll(s, chunks).sent) == Script(chunks) && PullAll(s, chunks).outcome == s.outcome
    decreases |chunks| - s.phase.next
  {
    var next := Step(s, chunks, Pull(None));
    StepProgresses(s, chunks, Pull(None));
    if s.phase.next < |chunks| {
      UnabortedSendsAll(next, chunks);
    } else {
      PayloadNext(s.sent, End);
      assert Script(chunks)[..|chunks| + 1] + [End] == Script(chunks);
    }
  }

  /** The `open` handler runs to its end with no other event in between. */
  function PullAll<F>(s: State<F>, chunks: seq<Bytes>): State<F>
    requires s.phase.Sending? ==> s.phase.next <= |chunks|
    decreases if s.phase.Sending? then |chunks| + 1 - s.phase.next else 0
  {
    if s.phase.Sending? then PullAll(OnPull(s, chunks, None), chunks) else s
  }

  // ---- the promise -------------------------------------------------------

  /** The outcome an event stands for, whatever came before. */
  function Verdict<F>(ev: Event<F>): Option<Outcome<F>> {
    match ev
    case Open(Some(failure)) => Some(Rejected(failure))
    case Pull(Some(failure)) => Some(Rejected(failure))
    case Abort(_) => Some(Rejected(ABORTED))
    case Complete(file) => Some(Resolved(file))
    case ServerError(message, code) => Some(Rejected(UploadFailure(message, code)))
    case SocketError => Some(Rejected(UploadFailure("WebSocket error", "WS_ERROR")))
    case SocketClose(reason) => Some(Rejected(UploadFailure(CloseMessage(reason), "WS_CLOSED")))
    case _ => None
  }

  /** The place of the first event with a verdict. */
  function FirstVerdict<F>(events: seq<Event<F>>): (i: nat)
    ensures i <= |events|
    ensures forall j :: 0 <= j < i ==> Verdict(events[j]).None?
    ensures i < |events| ==> Verdict(events[i]).Some?
  {
    if events == [] then 0
    else
      var i := FirstVerdict(events[..|events| - 1]);
      if i < |events| - 1 || Verdict(events[i]).Some? then i else |events|
  }

  lemma StepOutcome<F>(s: State<F>, chunks: seq<Bytes>, ev: Event<F>)
    requires Enabled(s, chunks, ev) && Settled(s)
    ensures Step(s, chunks, ev).outcome == if s.outcome.Some? then s.outcome else Verdict(ev)
  {
  }

  /** The promise is settled by the first event with a verdict, and by nothing after it. */
  lemma {:induction false} FirstVerdictSettles<F>(chunks: seq<Bytes>, events: seq<Event<F>>)
    requires Run(chunks, events).Some?
    ensures var i := FirstVerdict(events);
      Run(chunks, events).value.outcome == if i < |events| then Verdict(events[i]) else None
  {
    if events != [] {
      var front := events[..|events| - 1];
      FirstVerdictSettles(chunks, front);
      RunKeeps(chunks, front);
      StepOutcome(Run(chunks, front).value, chunks, events[|events| - 1]);
    }
  }

  /** `cancel` goes out only on an upload that is rejected as aborted: an abort that comes after
      the promise was settled otherwise is not heard. */
  lemma CancelMeansAborted<F>(chunks: seq<Bytes>, events: seq<Event<F>>)
    requires Run(chunks, events).Some? && Cancel in Run(chunks, events).value.sent
    ensures Run(chunks, events).value.aborted && Run(chunks, events).value.outcome == Some(Rejected(ABORTED))
  {
    RunKeeps(chunks, events);
  }

  // ---- what else a run leaves behind -------------------------------------

  predicate HasAbort<F>(events: seq<Event<F>>) { exists i :: 0 <= i < |events| && events[i].Abort? }

  /** The event is an exception of the iterator or of `send`. */
  function Thrown<F>(ev: Event<F>): bool {
    match ev
    case Open(throws) => throws.Some?
    case Pull(throws) => throws.Some?
    case _ => false
  }

  /** Something other than an abort has decided the upload. */
  predicate IsDecided<F>(events: seq<Event<F>>) {
    if events == [] then false
    else
      var front, ev := events[..|events| - 1], events[|events| - 1];
      || IsDecided(front) || ev.Complete? || ev.ServerError? || ev.SocketError? || Thrown(ev)
      || (ev.SocketClose? && !HasAbort(front))
  }

  /** One close request for every abort, completion and error from the server, and one for an
      exception unless the upload was decided before. */
  function CloseRequest<F>(ev: Event<F>, decided: bool): seq<string> {
    if ev.Abort? then ["Aborted by user"]
    else if ev.Complete? then ["Upload complete"]
    else if ev.ServerError? then ["Error received"]
    else if Thrown(ev) && !decided then ["Error during upload"]
    else []
  }

  function CloseRequests<F>(events: seq<Event<F>>): seq<string> {
    if events == [] then []
    else
      var front := events[..|events| - 1];
      CloseRequests(front) + CloseRequest(events[|events| - 1], IsDecided(front))
  }

  function Report<F>(ev: Event<F>): seq<nat> { if ev.Progress? then [ev.bytesReceived] else [] }

  function Reported<F>(events: seq<Event<F>>): seq<nat> {
    if events == [] then [] else Reported(events[..|events| - 1]) + Report(events[|events| - 1])
  }

  function Cancels(sent: seq<Frame>): nat {
    if sent == [] then 0 else Cancels(sent[..|sent| - 1]) + if sent[|sent| - 1].Cancel? then 1 else 0
  }

  /** The aborts that find a working socket. */
  function HeardAborts<F>(events: seq<Event<F>>): nat {
    if events == [] then 0
    else
      var ev := events[|events| - 1];
      HeardAborts(events[..|events| - 1]) + if ev.Abort? && !ev.cancelFails then 1 else 0
  }

  lemma CancelsNext(sent: seq<Frame>, f: Frame)
    ensures Cancels(sent + [f]) == Cancels(sent) + if f.Cancel? then 1 else 0
  {
    assert (sent + [f])[..|sent|] == sent;
  }

  lemma HasAbortNext<F>(events: seq<Event<F>>)
    requires events != []
    ensures HasAbort(events) <==> HasAbort(events[..|events| - 1]) || events[|events| - 1].Abort?
  {
    var front := events[..|events| - 1];
    if HasAbort(front) {
      var i :| 0 <= i < |front| && front[i].Abort?;
      assert events[i].Abort?;
    }
    if HasAbort(events) && !events[|events| - 1].Abort? {
      var i :| 0 <= i < |events| && events[i].Abort?;
      assert front[i].Abort?;
    }
  }

  lemma StepCancels<F>(s: State<F>, chunks: seq<Bytes>, ev: Event<F>)
    requires Enabled(s, chunks, ev) && Settled(s)
    ensures Cancels(Step(s, chunks, ev).sent) == Cancels(s.sent) + if ev.Abort? && !ev.cancelFails then 1 else 0
  {
    CancelsNext(s.sent, Cancel);
    CancelsNext(s.sent, Start);
    if ev.Pull? { CancelsNext(s.sent, NextFrame(chunks, s.phase.next)); }
  }

  /** The flags say what happened: aborted and decided. */
  lemma {:induction false} FlagsTell<F>(chunks: seq<Bytes>, events: seq<Event<F>>)
    requires Run(chunks, events).Some?
    ensures var s := Run(chunks, events).value; s.aborted == HasAbort(events) && s.resolved == IsDecided(events)
  {
    if events != [] {
      var front := events[..|events| - 1];
      FlagsTell(chunks, front);
      RunKeeps(chunks, front);
      HasAbortNext(events);
    }
  }

  lemma StepCloses<F>(s: State<F>, chunks: seq<Bytes>, ev: Event<F>)
    requires Enabled(s, chunks, ev) && Settled(s)
    ensures Step(s, chunks, ev).closes == s.closes + CloseRequest(ev, s.resolved)
  {
  }

  lemma StepReports<F>(s: State<F>, chunks: seq<Bytes>, ev: Event<F>)
    requires Enabled(s, chunks, ev) && Settled(s)
    ensures Step(s, chunks, ev).progress == s.progress + Report(ev)
  {
  }

  /** After every run: the close requests, the progress reports, and one `cancel` for every abort
      that found a working socket. */
  lemma {:induction false} RunLeaves<F>(chunks: seq<Bytes>, events: seq<Event<F>>)
    requires Run(chunks, events).Some?
    ensures var s := Run(chunks, events).value;
      s.closes == CloseRequests(events) && s.progress == Reported(events) && Cancels(s.sent) == HeardAborts(events)
  {
    if events != [] {
      var front, ev := events[..|events| - 1], events[|events| - 1];
      var s := Run(chunks, front).value;
      RunLeaves(chunks, front);
      RunKeeps(chunks, front);
      FlagsTell(chunks, front);
      StepCloses(s, chunks, ev);
      StepReports(s, chunks, ev);
      StepCancels(s, chunks, ev);
    }
  }

  /** Event `i` asks the socket to close: an abort, a completion or refusal by the server, or an
      exception before anything else decided the upload. */
  predicate AsksAt<F>(events: seq<Event<F>>, i: nat)
    requires i < |events|
  {
    var ev := events[i];
    ev.Abort? || ev.Complete? || ev.ServerError? || (Thrown(ev) && !IsDecided(events[..i]))
  }

  lemma AsksInFront<F>(events: seq<Event<F>>, i: nat)
    requires i + 1 < |events|
    ensures AsksAt(events[..|events| - 1], i) == AsksAt(events, i)
  {
    assert events[..|events| - 1][..i] == events[..i];
  }

  /** The socket is asked to close exactly if some event asks it to. */
  lemma {:induction false} AskedToCloseExactly<F>(events: seq<Event<F>>)
    ensures CloseRequests(events) != [] <==> exists i :: 0 <= i < |events| && AsksAt(events, i)
  {
    if events != [] {
      var front := events[..|events| - 1];
      AskedToCloseExactly(front);
      forall i | 0 <= i < |front| ensures AsksAt(front, i) == AsksAt(events, i) {
        AsksInFront(events, i);
      }
      assert CloseRequests(events) != [] <==> CloseRequests(front) != [] || AsksAt(events, |front|);
    }
  }
}
