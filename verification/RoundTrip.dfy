/** What the reference encoder sends is what the observer reports, whatever noise is interleaved. */
module RoundTrip {
  import opened Bytes
  import opened SdoMessages
  import opened SdoObserver
  import opened SdoRuns
  import opened SdoEncoding

  // ---------------------------------------------------------------------
  // Noise
  // ---------------------------------------------------------------------

  /** Messages that a transfer `op` of object `a` must not be disturbed by. */
  predicate Noise(op: Operation, a: Address, m: Message) {
    match m
    case Empty | Truncated(_) | Undirected | Other => true
    case UploadResponse(i, s, _) => op != Upload || a != Address(i, s)
    case Segment(d, _, _, _) => d != DirectionOf(op)
    case UploadRequest(_, _) | DownloadExpedited(_, _, _) | DownloadInitiate(_, _) | ServerAbort(_, _, _) => false
  }

  /** The inputs that are not noise. */
  function Relevant(op: Operation, a: Address, run: seq<Input>): seq<Input> {
    if run == [] then []
    else if Noise(op, a, run[0].message) then Relevant(op, a, run[1..])
    else [run[0]] + Relevant(op, a, run[1..])
  }

  predicate Opens(m: Message) {
    m.UploadRequest? || m.DownloadInitiate?
  }

  /** The channel is idle or holds the transfer in question. */
  predicate Tracks(ch: Channel, op: Operation, a: Address) {
    ch.Some? ==>
      && ch.value.operation == op && ch.value.direction == DirectionOf(op)
      && Address(ch.value.index, ch.value.subIndex) == a
  }

  lemma NoiseStep(ch: Channel, op: Operation, a: Address, i: Input)
    requires Tracks(ch, op, a)
    ensures Noise(op, a, i.message) ==> Next(ch, i) == ch && !OutcomeOf(ch, i).Emitted?
    ensures !Opens(i.message) ==> Tracks(Next(ch, i), op, a)
  {
  }

  /** Noise anywhere in a run changes neither its events nor its final state. */
  lemma {:induction false} NoiseInvisible(ch: Channel, op: Operation, a: Address, run: seq<Input>)
    requires Tracks(ch, op, a)
    requires forall i :: i in Relevant(op, a, run) ==> !Opens(i.message)
    ensures Events(ch, run) == Events(ch, Relevant(op, a, run))
    ensures After(ch, run) == After(ch, Relevant(op, a, run))
    decreases |run|
  {
    if run != [] {
      var relevant := Relevant(op, a, run);
      NoiseStep(ch, op, a, run[0]);
      if Noise(op, a, run[0].message) {
        NoiseInvisible(ch, op, a, run[1..]);
      } else {
        assert relevant[0] == run[0] && relevant[1..] == Relevant(op, a, run[1..]);
        NoiseInvisible(Next(ch, run[0]), op, a, run[1..]);
      }
    }
  }

  lemma {:induction false} RelevantConcat(op: Operation, a: Address, x: seq<Input>, y: seq<Input>)
    ensures Relevant(op, a, x + y) == Relevant(op, a, x) + Relevant(op, a, y)
    decreases |x|
  {
    if x == [] {
      assert x + y == y;
    } else {
      assert (x + y)[1..] == x[1..] + y;
      RelevantConcat(op, a, x[1..], y);
    }
  }

  // ---------------------------------------------------------------------
  // Segments
  // ---------------------------------------------------------------------

  /** What the observer reads in the data segments of a transfer; `last` marks the final one. */
  function SegmentInputs(op: Operation, nodeID: Byte, toggle: bool, chunks: seq<seq<Byte>>): (r: seq<Input>)
    requires forall k :: 0 <= k < |chunks| ==> |chunks[k]| <= SEGMENT_BYTES
    ensures |r| == |chunks|
    decreases |chunks|
  {
    if chunks == [] then []
    else
      var last := |chunks| == 1;
      [Input(nodeID, Segment(DirectionOf(op), toggle, last, Taken(last, chunks[0])))]
      + SegmentInputs(op, nodeID, !toggle, chunks[1..])
  }

  /** The frames that are not noise for the transfer, after its opening frame. */
  function Core(op: Operation, nodeID: Byte, a: Address, chunks: seq<seq<Byte>>): seq<Input>
    requires ValidChunks(chunks)
  {
    InitiateInputs(op, nodeID, a) + SegmentInputs(op, nodeID, false, chunks)
  }

  function InitiateInputs(op: Operation, nodeID: Byte, a: Address): seq<Input> {
    if op == Upload then [Input(nodeID, UploadResponse(a.index, a.subIndex, None))] else []
  }

  lemma {:induction false} SegmentDialogueCore(
      op: Operation, nodeID: Byte, a: Address, toggle: bool, chunks: seq<seq<Byte>>)
    requires op != Abort
    requires forall k :: 0 <= k < |chunks| ==> |chunks[k]| <= SEGMENT_BYTES
    ensures Relevant(op, a, ReadAll(SegmentDialogue(op, nodeID, toggle, chunks)))
         == SegmentInputs(op, nodeID, toggle, chunks)
    decreases |chunks|
  {
    if chunks != [] {
      var pair := SegmentExchange(op, nodeID, toggle, |chunks| == 1, chunks[0]);
      var rest := SegmentDialogue(op, nodeID, !toggle, chunks[1..]);
      assert ReadAll(pair + rest) == ReadAll(pair) + ReadAll(rest);
      RelevantConcat(op, a, ReadAll(pair), ReadAll(rest));
      SegmentDialogueCore(op, nodeID, a, !toggle, chunks[1..]);
      ExchangeCore(op, nodeID, a, toggle, |chunks| == 1, chunks[0]);
    }
  }

  lemma ExchangeCore(op: Operation, nodeID: Byte, a: Address, toggle: bool, last: bool, chunk: seq<Byte>)
    requires op != Abort && |chunk| <= SEGMENT_BYTES
    ensures Relevant(op, a, ReadAll(SegmentExchange(op, nodeID, toggle, last, chunk)))
         == [Input(nodeID, Segment(DirectionOf(op), toggle, last, Taken(last, chunk)))]
  {
    var run := ReadAll(SegmentExchange(op, nodeID, toggle, last, chunk));
    ReadSegment(DirectionOf(op), toggle, last, chunk);
    ReadSideTraffic(toggle, a);
    var segment := Input(nodeID, Segment(DirectionOf(op), toggle, last, Taken(last, chunk)));
    RelevantOfTwo(op, a, run, if op == Upload then 1 else 0, segment);
  }

  lemma RelevantOfTwo(op: Operation, a: Address, run: seq<Input>, k: nat, kept: Input)
    requires |run| == 2 && k < 2 && run[k] == kept && !Noise(op, a, kept.message) && Noise(op, a, run[1 - k].message)
    ensures Relevant(op, a, run) == [kept]
  {
    var tail := run[1..];
    assert tail == [run[1]] && tail[1..] == [];
    assert Relevant(op, a, tail) == if k == 1 then [kept] else [];
  }

  /** The encoder's own dialogue is one of the runs the round trip below speaks of. */
  lemma DialogueCore(
      op: Operation, nodeID: Byte, sized: bool, a: Address, size: nat, chunks: seq<seq<Byte>>)
    requires op != Abort && ValidChunks(chunks)
    ensures Relevant(op, a, ReadAll(SegmentedDialogue(op, nodeID, sized, a, size, chunks)))
         == Core(op, nodeID, a, chunks)
  {
    var all := SegmentedDialogue(op, nodeID, sized, a, size, chunks);
    var rest := SegmentDialogue(op, nodeID, false, chunks);
    assert ReadAll(all) == ReadAll(all[..1]) + ReadAll(rest);
    RelevantConcat(op, a, ReadAll(all[..1]), ReadAll(rest));
    SegmentDialogueCore(op, nodeID, a, false, chunks);
    ReadInitiate(Upload, sized, a, size);
    ReadSideTraffic(false, a);
    assert ReadAll(all[..1])[1..] == [];
  }

  /** The transfer is consistent and its segments may follow. */
  predicate Ready(t: Transfer) {
    t.operation != Abort && t.direction == DirectionOf(t.operation) && t.Accepting(t.direction)
  }

  /** A transfer that accepts segments takes all the chunks and completes. */
  lemma {:induction false} SegmentsComplete(t: Transfer, nodeID: Byte, chunks: seq<seq<Byte>>)
    requires Ready(t)
    requires ValidChunks(chunks)
    ensures var run := SegmentInputs(t.operation, nodeID, t.toggle, chunks);
      && Events(Some(t), run) == [t.Complete(t.data + Rebuilt(chunks, true))]
      && After(Some(t), run) == None
    decreases |chunks|
  {
    var run := SegmentInputs(t.operation, nodeID, t.toggle, chunks);
    var last := |chunks| == 1;
    assert run[1..] == SegmentInputs(t.operation, nodeID, !t.toggle, chunks[1..]);
    if last {
      assert Rebuilt(chunks, true) == chunks[0] + [];
      assert chunks[0] + [] == chunks[0];
      assert run == [run[0]];
    } else {
      var t' := t.(data := t.data + Taken(false, chunks[0]), toggle := !t.toggle);
      assert Next(Some(t), run[0]) == Some(t');
      SegmentsComplete(t', nodeID, chunks[1..]);
      assert t.data + Rebuilt(chunks, true) == t'.data + Rebuilt(chunks[1..], true);
      assert t.Complete(t.data + Rebuilt(chunks, true)) == t'.Complete(t'.data + Rebuilt(chunks[1..], true));
    }
  }

  // ---------------------------------------------------------------------
  // Round trips
  // ---------------------------------------------------------------------

  /** The transfer that the opening frame of `op` leaves on the channel, once a segment may follow. */
  function Started(op: Operation, nodeID: Byte, a: Address): Transfer {
    if op == Upload then NewUpload(nodeID, a.index, a.subIndex).(uploadInitiated := true)
    else NewDownload(nodeID, a.index, a.subIndex)
  }

  /** The opening frame starts the transfer from any state; noise cannot hide what follows. */
  lemma OpeningStarts(
      ch: Channel, op: Operation, nodeID: Byte, sized: bool, a: Address, size: nat,
      rest: seq<Input>, segments: seq<Input>)
    requires (op == Upload || op == Download)
    requires Relevant(op, a, rest) == InitiateInputs(op, nodeID, a) + segments
    requires forall i :: i in segments ==> !Opens(i.message)
    ensures var run := [Read(Opening(op, nodeID, sized, a, size))] + rest;
      && Events(ch, run) == Events(Some(Started(op, nodeID, a)), segments)
      && After(ch, run) == After(Some(Started(op, nodeID, a)), segments)
  {
    var run := [Read(Opening(op, nodeID, sized, a, size))] + rest;
    assert run[1..] == rest;
    var ch1 := Next(ch, run[0]);
    OpeningRead(ch, op, nodeID, sized, a, size);
    NoiseInvisible(ch1, op, a, rest);
    RunConcat(ch1, InitiateInputs(op, nodeID, a), segments);
    if op == Upload {
      assert InitiateInputs(op, nodeID, a)[1..] == [];
    }
  }

  lemma OpeningRead(ch: Channel, op: Operation, nodeID: Byte, sized: bool, a: Address, size: nat)
    requires (op == Upload || op == Download)
    ensures var i := Read(Opening(op, nodeID, sized, a, size));
      && Next(ch, i) == Some(if op == Upload then NewUpload(nodeID, a.index, a.subIndex) else Started(op, nodeID, a))
      && OutcomeOf(ch, i) == Quiet
  {
    ReadUploadRequest(a);
    ReadInitiate(op, sized, a, size);
  }

  /**
   * Segmented transfers: from any state of the channel, the opening frame
   * followed by any run whose non-noise frames are the transfer's yields one
   * event, with the transfer's operation and address. Its data is the sender's
   * exactly when every segment but the last is full.
   */
  lemma SegmentedRoundTrip(
      ch: Channel, op: Operation, nodeID: Byte, sized: bool, a: Address, size: nat,
      chunks: seq<seq<Byte>>, rest: seq<Observation>)
    requires (op == Upload || op == Download) && ValidChunks(chunks)
    requires Relevant(op, a, ReadAll(rest)) == Core(op, nodeID, a, chunks)
    ensures var run := [Read(Opening(op, nodeID, sized, a, size))] + ReadAll(rest);
      var events := Events(ch, run);
      && After(ch, run) == None
      && |events| == 1
      && events[0] == Event(nodeID, DirectionOf(op), op, a.index, a.subIndex, events[0].data, None)
      && (events[0].data == Flatten(chunks) <==> FullUntilLast(chunks))
  {
    var segments := SegmentInputs(op, nodeID, false, chunks);
    SegmentsOnly(op, nodeID, false, chunks);
    OpeningStarts(ch, op, nodeID, sized, a, size, ReadAll(rest), segments);
    SegmentsComplete(Started(op, nodeID, a), nodeID, chunks);
    assert [] + Rebuilt(chunks, true) == Rebuilt(chunks, true);
    RebuiltExactly(chunks);
  }

  lemma {:induction false} SegmentsOnly(op: Operation, nodeID: Byte, toggle: bool, chunks: seq<seq<Byte>>)
    requires forall k :: 0 <= k < |chunks| ==> |chunks[k]| <= SEGMENT_BYTES
    ensures forall i :: i in SegmentInputs(op, nodeID, toggle, chunks) ==> i.nodeID == nodeID && i.message.Segment?
    decreases |chunks|
  {
    if chunks != [] {
      SegmentsOnly(op, nodeID, !toggle, chunks[1..]);
    }
  }

  /** ... so every payload, of any length, comes back unchanged. */
  lemma PayloadRoundTrip(
      ch: Channel, op: Operation, nodeID: Byte, sized: bool, a: Address, data: seq<Byte>, rest: seq<Observation>)
    requires (op == Upload || op == Download)
    requires Relevant(op, a, ReadAll(rest)) == Core(op, nodeID, a, Chunks(data))
    ensures var run := [Read(Opening(op, nodeID, sized, a, |data|))] + ReadAll(rest);
      && Events(ch, run) == [Event(nodeID, DirectionOf(op), op, a.index, a.subIndex, data, None)]
      && After(ch, run) == None
  {
    SegmentedRoundTrip(ch, op, nodeID, sized, a, |data|, Chunks(data), rest);
  }

  /** Expedited uploads: request, noise, response. */
  lemma ExpeditedUploadRoundTrip(
      ch: Channel, nodeID: Byte, sized: bool, a: Address, data: seq<Byte>, rest: seq<Observation>)
    requires 1 <= |data| <= 4 && (sized || |data| == 4)
    requires Relevant(Upload, a, ReadAll(rest))
          == [Read(Observation(nodeID, ServerToClient, ExpeditedFrame(Upload, sized, a, data)))]
    ensures var run := [Read(Observation(nodeID, ClientToServer, UploadRequestBytes(a.index, a.subIndex)))] + ReadAll(rest);
      && Events(ch, run) == [Event(nodeID, ServerToClient, Upload, a.index, a.subIndex, data, None)]
      && After(ch, run) == None
  {
    var run := [Read(Observation(nodeID, ClientToServer, UploadRequestBytes(a.index, a.subIndex)))] + ReadAll(rest);
    ReadUploadRequest(a);
    ReadExpedited(Upload, sized, a, data);
    assert run[1..] == ReadAll(rest);
    var relevant := Relevant(Upload, a, ReadAll(rest));
    NoiseInvisible(Next(ch, run[0]), Upload, a, ReadAll(rest));
    assert relevant[1..] == [];
  }

  /** Expedited downloads are reported at once and leave the channel as it was. */
  lemma ExpeditedDownloadRoundTrip(ch: Channel, nodeID: Byte, sized: bool, a: Address, data: seq<Byte>)
    requires 1 <= |data| <= 4 && (sized || |data| == 4)
    ensures var i := Read(Observation(nodeID, ClientToServer, ExpeditedFrame(Download, sized, a, data)));
      && OutcomeOf(ch, i) == Emitted(Event(nodeID, ClientToServer, Download, a.index, a.subIndex, data, None))
      && Next(ch, i) == ch
  {
    ReadExpedited(Download, sized, a, data);
  }
}
