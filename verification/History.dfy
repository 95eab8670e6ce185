/** Every completed transfer is accounted for by the frames before it. */
module History {
  import opened Bytes
  import opened SdoMessages
  import opened SdoObserver
  import opened SdoRuns
  import opened SdoEncoding
  import opened RoundTrip
  import opened LossDetection

  /** The segments of a run that travel in direction `d`. */
  function SegmentsIn(run: seq<Input>, d: Direction): seq<Message> {
    if run == [] then [] else SegmentOf(run[0], d) + SegmentsIn(run[1..], d)
  }

  function SegmentOf(i: Input, d: Direction): seq<Message> {
    if i.message.Segment? && i.message.direction == d then [i.message] else []
  }

  function Joined(segments: seq<Message>): seq<Byte> {
    if segments == [] then []
    else (if segments[0].Segment? then segments[0].data else []) + Joined(segments[1..])
  }

  /** Toggle bits alternate from 0 and only the final segment, if any, says that it is last. */
  predicate InSequence(segments: seq<Message>, finished: bool) {
    && (finished ==> |segments| > 0)
    && forall k :: 0 <= k < |segments| ==>
         && segments[k].Segment? && segments[k].toggle == Odd(k)
         && (segments[k].last <==> finished && k == |segments| - 1)
  }

  /** Only a last segment may leave bytes of its frame unused. */
  predicate FromFrames(run: seq<Input>) {
    forall i :: i in run && i.message.Segment? && !i.message.last ==> |i.message.data| == SEGMENT_BYTES
  }

  lemma FramesAreFromFrames(os: seq<Observation>)
    ensures FromFrames(ReadAll(os))
  {
  }

  /** What the observer says at position `j` of a run that starts idle. */
  function OutcomeAt(run: seq<Input>, j: nat): Outcome
    requires j < |run|
  {
    OutcomeOf(After(None, run[..j]), run[j])
  }

  /** No frame at `j` begins a transfer, aborts one, or breaks the toggle sequence. */
  predicate Undisturbed(run: seq<Input>, j: nat)
    requires j < |run|
  {
    && !Opens(run[j].message) && !run[j].message.ServerAbort?
    && !(OutcomeAt(run, j).Rejected? && OutcomeAt(run, j).error.UnexpectedToggle?)
  }

  function OpeningMessage(op: Operation, a: Address): Message {
    if op == Upload then UploadRequest(a.index, a.subIndex) else DownloadInitiate(a.index, a.subIndex)
  }

  /** `op` of object `a` was opened for `nodeID` at `i` and nothing disturbed it before `n`. */
  predicate OpenedAt(run: seq<Input>, i: nat, n: nat, op: Operation, nodeID: Byte, a: Address)
    requires n <= |run|
  {
    && i < n && run[i] == Input(nodeID, OpeningMessage(op, a))
    && forall j :: i < j < n ==> Undisturbed(run, j)
  }

  /** Segments count from `p` on: the matching initiation response, or the download's own opening. */
  predicate SegmentsFollow(run: seq<Input>, i: nat, p: nat, op: Operation, a: Address) {
    i <= p < |run| &&
    if op == Upload then i < p && run[p].message == UploadResponse(a.index, a.subIndex, None)
    else p == i
  }

  // ---------------------------------------------------------------------
  // One more frame
  // ---------------------------------------------------------------------

  lemma AfterSnoc(ch: Channel, run: seq<Input>, x: Input)
    ensures After(ch, run + [x]) == Next(After(ch, run), x)
  {
    RunConcat(ch, run, [x]);
    assert [x][1..] == [];
  }

  lemma {:induction false} SegmentsInSnoc(run: seq<Input>, x: Input, d: Direction)
    ensures SegmentsIn(run + [x], d) == SegmentsIn(run, d) + SegmentOf(x, d)
  {
    var all := run + [x];
    if run == [] {
      assert all[1..] == [];
    } else {
      assert all[0] == run[0] && all[1..] == run[1..] + [x];
      SegmentsInSnoc(run[1..], x, d);
      assert SegmentsIn(all, d) == SegmentOf(run[0], d) + SegmentsIn(all[1..], d);
    }
  }

  lemma {:induction false} JoinedSnoc(segments: seq<Message>, m: Message)
    requires m.Segment?
    ensures Joined(segments + [m]) == Joined(segments) + m.data
  {
    if segments == [] {
      assert [m][1..] == [];
    } else {
      var first := if segments[0].Segment? then segments[0].data else [];
      assert (segments + [m])[1..] == segments[1..] + [m];
      JoinedSnoc(segments[1..], m);
      Associative(first, Joined(segments[1..]), m.data);
    }
  }

  lemma OpenedSnoc(run: seq<Input>, x: Input, i: nat, op: Operation, nodeID: Byte, a: Address)
    requires OpenedAt(run, i, |run|, op, nodeID, a)
    requires !Opens(x.message) && !x.message.ServerAbort?
    requires var out := OutcomeOf(After(None, run), x); !(out.Rejected? && out.error.UnexpectedToggle?)
    ensures OpenedAt(run + [x], i, |run| + 1, op, nodeID, a)
  {
    var run' := run + [x];
    forall j | i < j < |run'| ensures Undisturbed(run', j) {
      if j < |run| {
        assert run'[..j] == run[..j];
        assert Undisturbed(run, j);
      } else {
        assert run'[..j] == run;
      }
    }
  }

  /** What the frames so far say about a pending transfer. */
  ghost predicate Accounts(run: seq<Input>, t: Transfer, i: nat, p: nat) {
    var a := Address(t.index, t.subIndex);
    && (t.operation == Upload || t.operation == Download) && t.direction == DirectionOf(t.operation)
    && OpenedAt(run, i, |run|, t.operation, t.nodeID, a)
    && (t.operation == Download ==> !t.uploadInitiated)
    && if t.operation == Upload && !t.uploadInitiated then t.data == [] && !t.toggle
       else
         && SegmentsFollow(run, i, p, t.operation, a)
         && Collected(t, SegmentsIn(run[p + 1..], t.direction))
  }

  /** A record holds the data of `segments`, all full, and expects the next toggle bit. */
  predicate Collected(t: Transfer, segments: seq<Message>) {
    && InSequence(segments, false)
    && t.data == Joined(segments) && t.toggle == Odd(|segments|)
    && |t.data| == SEGMENT_BYTES * |segments|
  }

  lemma CollectedSnoc(t: Transfer, segments: seq<Message>, m: Message)
    requires Collected(t, segments) && m.Segment? && !m.last && m.toggle == t.toggle && |m.data| == SEGMENT_BYTES
    ensures Collected(t.(data := t.data + m.data, toggle := !t.toggle), segments + [m])
  {
    JoinedSnoc(segments, m);
  }

  lemma SequenceFinished(segments: seq<Message>, m: Message)
    requires InSequence(segments, false) && m.Segment? && m.last && m.toggle == Odd(|segments|)
    ensures InSequence(segments + [m], true)
  {
  }

  /** The invariant of every run: a pending transfer is exactly what its frames since the opening say. */
  lemma {:induction false} PendingAccounted(run: seq<Input>) returns (i: nat, p: nat)
    requires FromFrames(run) && After(None, run).Some?
    ensures Accounts(run, After(None, run).value, i, p)
    decreases |run|
  {
    assert run != [];
    var prev, x := run[..|run| - 1], run[|run| - 1];
    assert run == prev + [x];
    AfterSnoc(None, prev, x);
    if Opens(x.message) {
      i, p := |prev|, |prev|;
      assert run[p + 1..] == [];
    } else {
      i, p := PendingAccounted(prev);
      var t0 := After(None, prev).value;
      OpenedSnoc(prev, x, i, t0.operation, t0.nodeID, Address(t0.index, t0.subIndex));
      p := StillAccounted(prev, x, t0, i, p);
    }
  }

  /** Where the transfer was opened is not affected by the next frame. */
  predicate StillOpened(prev: seq<Input>, x: Input, t: Transfer, i: nat) {
    OpenedAt(prev + [x], i, |prev| + 1, t.operation, t.nodeID, Address(t.index, t.subIndex))
  }

  lemma IgnoredAccounted(prev: seq<Input>, x: Input, t: Transfer, i: nat, p: nat)
    requires Accounts(prev, t, i, p) && StillOpened(prev, x, t, i)
    requires SegmentOf(x, t.direction) == [] || (t.operation == Upload && !t.uploadInitiated)
    ensures Accounts(prev + [x], t, i, p)
  {
    if t.operation != Upload || t.uploadInitiated {
      var segments := SegmentsIn(prev[p + 1..], t.direction);
      SegmentsInSnoc(prev[p + 1..], x, t.direction);
      assert (prev + [x])[p + 1..] == prev[p + 1..] + [x];
      assert segments + [] == segments;
    }
  }

  lemma InitiationAccounted(prev: seq<Input>, x: Input, t: Transfer, i: nat, p: nat)
    requires Accounts(prev, t, i, p) && StillOpened(prev, x, t, i)
    requires t.operation == Upload && !t.uploadInitiated
    requires x.message == UploadResponse(t.index, t.subIndex, None)
    ensures Accounts(prev + [x], t.(uploadInitiated := true), i, |prev|)
  {
    assert (prev + [x])[|prev| + 1..] == [];
  }

  lemma SegmentAccounted(prev: seq<Input>, x: Input, t: Transfer, i: nat, p: nat)
    requires Accounts(prev, t, i, p) && StillOpened(prev, x, t, i)
    requires t.Accepting(t.direction)
    requires x.message.Segment? && x.message.direction == t.direction && x.message.toggle == t.toggle
    requires !x.message.last && |x.message.data| == SEGMENT_BYTES
    ensures Accounts(prev + [x], t.(data := t.data + x.message.data, toggle := !t.toggle), i, p)
  {
    SegmentsInSnoc(prev[p + 1..], x, t.direction);
    assert (prev + [x])[p + 1..] == prev[p + 1..] + [x];
    CollectedSnoc(t, SegmentsIn(prev[p + 1..], t.direction), x.message);
  }

  lemma StillAccounted(prev: seq<Input>, x: Input, t: Transfer, i: nat, p: nat) returns (p': nat)
    requires Accounts(prev, t, i, p) && StillOpened(prev, x, t, i)
    requires x.message.Segment? && !x.message.last ==> |x.message.data| == SEGMENT_BYTES
    requires !Opens(x.message) && Next(Some(t), x).Some?
    ensures Accounts(prev + [x], Next(Some(t), x).value, i, p')
  {
    p' := p;
    if x.message.Segment? && t.Accepting(x.message.direction) {
      SegmentAccounted(prev, x, t, i, p);
    } else if Next(Some(t), x).value == t {
      IgnoredAccounted(prev, x, t, i, p);
    } else {
      p' := |prev|;
      InitiationAccounted(prev, x, t, i, p);
    }
  }

  // ---------------------------------------------------------------------
  // Completions
  // ---------------------------------------------------------------------

  /** A run's completions, other than expedited downloads, which need no history. */
  predicate CompletedAt(run: seq<Input>, n: nat)
    requires n < |run|
  {
    Outcomes(None, run)[n].Emitted? && !run[n].message.ServerAbort? && !run[n].message.DownloadExpedited?
  }

  /**
   * The event at `n` was opened, at `i`, for its node and object with nothing
   * disturbing it since, and its data is the expedited bytes of a matching
   * response or the concatenation of all the segments that travelled since the
   * initiation, at `p`, in sequence.
   */
  predicate Justified(run: seq<Input>, n: nat, i: nat, p: nat)
    requires n < |run| && CompletedAt(run, n)
  {
    var e := Outcomes(None, run)[n].event;
    var a := Address(e.index, e.subIndex);
    && e.abortCode == None
    && (e.operation == Upload || e.operation == Download) && e.direction == DirectionOf(e.operation)
    && OpenedAt(run, i, n, e.operation, e.nodeID, a)
    && if run[n].message.UploadResponse? then
         e.operation == Upload && run[n].message == UploadResponse(e.index, e.subIndex, Some(e.data))
       else
         && SegmentsFollow(run[..n], i, p, e.operation, a)
         && InSequence(SegmentsIn(run[p + 1..n + 1], e.direction), true)
         && e.data == Joined(SegmentsIn(run[p + 1..n + 1], e.direction))
  }

  /** Soundness of every completed event, in every run. */
  lemma CompletionJustified(run: seq<Input>, n: nat) returns (i: nat, p: nat)
    requires FromFrames(run) && n < |run| && CompletedAt(run, n)
    ensures Justified(run, n, i, p)
  {
    RunAt(None, run, n);
    var prev, x := run[..n], run[n];
    i, p := PendingAccounted(prev);
    var t := After(None, prev).value;
    var a := Address(t.index, t.subIndex);
    forall j | i < j < n ensures Undisturbed(run, j) {
      assert Undisturbed(prev, j);
      assert prev[..j] == run[..j];
    }
    if x.message.Segment? {
      assert run[..n + 1] == prev + [x];
      LastSegmentAccounted(prev, x, t, i, p);
      assert run[p + 1..n + 1] == (prev + [x])[p + 1..];
    }
  }

  lemma LastSegmentAccounted(prev: seq<Input>, x: Input, t: Transfer, i: nat, p: nat)
    requires Accounts(prev, t, i, p) && t.Accepting(t.direction)
    requires x.message.Segment? && x.message.direction == t.direction && x.message.toggle == t.toggle && x.message.last
    ensures p < |prev|
    ensures var segments := SegmentsIn((prev + [x])[p + 1..], t.direction);
      InSequence(segments, true) && t.data + x.message.data == Joined(segments)
  {
    var segments := SegmentsIn(prev[p + 1..], t.direction);
    assert (prev + [x])[p + 1..] == prev[p + 1..] + [x];
    SegmentsInSnoc(prev[p + 1..], x, t.direction);
    JoinedSnoc(segments, x.message);
    SequenceFinished(segments, x.message);
  }

  /** In particular for whatever the observer is shown. */
  lemma ReportedCompletionJustified(os: seq<Observation>, n: nat) returns (i: nat, p: nat)
    requires n < |os| && CompletedAt(ReadAll(os), n)
    ensures Justified(ReadAll(os), n, i, p)
  {
    FramesAreFromFrames(os);
    i, p := CompletionJustified(ReadAll(os), n);
  }
}
