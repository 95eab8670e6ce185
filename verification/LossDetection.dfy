/** Which lost or repeated segments the toggle bit reveals. */
module LossDetection {
  import opened Bytes
  import opened SdoMessages
  import opened SdoObserver
  import opened SdoRuns
  import opened SdoEncoding
  import opened RoundTrip


  /** The toggle bit that segment `k` carries. */
  function ToggleAt(toggle: bool, k: nat): bool {
    toggle != Odd(k)
  }

  /** Chunks `..a` followed by chunks `b..`: `a < b` loses a block, `a > b` repeats one. */
  function Spliced<T>(xs: seq<T>, a: nat, b: nat): seq<T>
    requires a <= |xs| && b <= |xs|
  {
    xs[..a] + xs[b..]
  }

  lemma {:induction false} SegmentsFrom(op: Operation, nodeID: Byte, toggle: bool, chunks: seq<seq<Byte>>, k: nat)
    requires ValidChunks(chunks) && k <= |chunks|
    ensures SegmentInputs(op, nodeID, toggle, chunks)[k..]
         == SegmentInputs(op, nodeID, ToggleAt(toggle, k), chunks[k..])
    decreases k
  {
    if k > 0 {
      var run := SegmentInputs(op, nodeID, toggle, chunks);
      assert run[1..] == SegmentInputs(op, nodeID, !toggle, chunks[1..]);
      assert chunks[1..][k - 1..] == chunks[k..];
      assert run[1..][k - 1..] == run[k..];
      if k == 1 {
        assert ToggleAt(toggle, 1) == !toggle;
      } else {
        SegmentsFrom(op, nodeID, !toggle, chunks[1..], k - 1);
        assert ToggleAt(!toggle, k - 1) == ToggleAt(toggle, k);
      }
    } else {
      assert chunks[0..] == chunks;
    }
  }

  /** Segments short of the last one are taken silently. */
  lemma {:induction false} PrefixTaken(t: Transfer, nodeID: Byte, chunks: seq<seq<Byte>>, k: nat)
    requires Ready(t)
    requires ValidChunks(chunks) && k < |chunks|
    ensures var run := SegmentInputs(t.operation, nodeID, t.toggle, chunks)[..k];
      && Events(Some(t), run) == []
      && After(Some(t), run)
         == Some(t.(data := t.data + Rebuilt(chunks[..k], false), toggle := ToggleAt(t.toggle, k)))
    decreases k
  {
    var run := SegmentInputs(t.operation, nodeID, t.toggle, chunks);
    var prefix := run[..k];
    if k == 0 {
      assert t.data + Rebuilt(chunks[..0], false) == t.data;
    } else {
      var t' := t.(data := t.data + Taken(false, chunks[0]), toggle := !t.toggle);
      assert prefix[0] == run[0] && Next(Some(t), run[0]) == Some(t');
      assert prefix[1..] == SegmentInputs(t.operation, nodeID, !t.toggle, chunks[1..])[..k - 1];
      PrefixTaken(t', nodeID, chunks[1..], k - 1);
      RebuiltPrefix(t.data, chunks, k);
    }
  }

  lemma RebuiltPrefix(data: seq<Byte>, chunks: seq<seq<Byte>>, k: nat)
    requires ValidChunks(chunks) && 0 < k < |chunks|
    ensures (data + Taken(false, chunks[0])) + Rebuilt(chunks[1..][..k - 1], false) == data + Rebuilt(chunks[..k], false)
  {
    assert chunks[1..][..k - 1] == chunks[..k][1..];
  }

  /** Segments on an idle channel are ignored. */
  lemma {:induction false} SegmentsOnIdle(run: seq<Input>)
    requires forall i :: i in run ==> i.message.Segment?
    ensures Events(None, run) == [] && After(None, run) == None
    decreases |run|
  {
    if run != [] {
      SegmentsOnIdle(run[1..]);
    }
  }

  /** A first segment with the wrong toggle bit ends the transfer without an event. */
  lemma WrongToggle(t: Transfer, nodeID: Byte, toggle: bool, chunks: seq<seq<Byte>>)
    requires Ready(t)
    requires ValidChunks(chunks) && toggle != t.toggle
    ensures var run := SegmentInputs(t.operation, nodeID, toggle, chunks);
      Events(Some(t), run) == [] && After(Some(t), run) == None
  {
    var run := SegmentInputs(t.operation, nodeID, toggle, chunks);
    SegmentsOnly(t.operation, nodeID, toggle, chunks);
    SegmentsOnIdle(run[1..]);
  }

  lemma {:induction false} RebuiltConcat(a: seq<seq<Byte>>, b: seq<seq<Byte>>)
    requires forall k :: 0 <= k < |a| ==> |a[k]| <= SEGMENT_BYTES
    requires ValidChunks(b)
    ensures forall k :: 0 <= k < |a + b| ==> |(a + b)[k]| <= SEGMENT_BYTES
    ensures Rebuilt(a, false) + Rebuilt(b, true) == Rebuilt(a + b, true)
    decreases |a|
  {
    if a == [] {
      assert a + b == b;
    } else {
      assert a + b == [a[0]] + (a[1..] + b);
      RebuiltConcat(a[1..], b);
      RebuiltCons(a[0], a[1..] + b);
      Associative(Taken(false, a[0]), Rebuilt(a[1..], false), Rebuilt(b, true));
    }
  }

  lemma RebuiltCons(x: seq<Byte>, rest: seq<seq<Byte>>)
    requires |x| <= SEGMENT_BYTES && ValidChunks(rest)
    ensures Rebuilt([x] + rest, true) == Taken(false, x) + Rebuilt(rest, true)
  {
    assert ([x] + rest)[1..] == rest;
  }

  /**
   * A started transfer fed segments `..a` and then segments `b..` of one
   * payload: complete when the first part already is, and otherwise exactly
   * when the final segment comes and the splice keeps the toggle's parity - so
   * a block of even length can vanish, or be repeated, unnoticed.
   */
  lemma SpliceOutcome(t: Transfer, nodeID: Byte, chunks: seq<seq<Byte>>, a: nat, b: nat)
    requires Ready(t)
    requires !t.toggle && t.data == [] && ValidChunks(chunks) && a <= |chunks| && b <= |chunks|
    ensures Events(Some(t), Spliced(SegmentInputs(t.operation, nodeID, false, chunks), a, b))
         == if a == |chunks| then [t.Complete(Rebuilt(chunks, true))]
            else if b < |chunks| && !Odd(a - b) then [t.Complete(Rebuilt(Spliced(chunks, a, b), true))]
            else []
  {
    var run := SegmentInputs(t.operation, nodeID, false, chunks);
    RunConcat(Some(t), run[..a], run[b..]);
    if a == |chunks| {
      assert run[..a] == run;
      SegmentsComplete(t, nodeID, chunks);
      assert t.data + Rebuilt(chunks, true) == Rebuilt(chunks, true);
      SegmentsOnly(t.operation, nodeID, false, chunks);
      SegmentsOnIdle(run[b..]);
    } else {
      PrefixTaken(t, nodeID, chunks, a);
      SegmentsFrom(t.operation, nodeID, false, chunks, b);
      if b < |chunks| {
        TailOutcome(t, nodeID, chunks, a, b);
      }
    }
  }

  lemma TailOutcome(t: Transfer, nodeID: Byte, chunks: seq<seq<Byte>>, a: nat, b: nat)
    requires Ready(t) && !t.toggle && t.data == [] && ValidChunks(chunks) && a < |chunks| && b < |chunks|
    ensures var t' := t.(data := t.data + Rebuilt(chunks[..a], false), toggle := ToggleAt(false, a));
      Events(Some(t'), SegmentInputs(t.operation, nodeID, ToggleAt(false, b), chunks[b..]))
         == if Odd(a - b) then [] else [t.Complete(Rebuilt(Spliced(chunks, a, b), true))]
  {
    var t' := t.(data := t.data + Rebuilt(chunks[..a], false), toggle := ToggleAt(false, a));
    if Odd(a - b) {
      WrongToggle(t', nodeID, ToggleAt(false, b), chunks[b..]);
    } else {
      var tail := chunks[b..];
      assert ToggleAt(false, b) == t'.toggle;
      SegmentsComplete(t', nodeID, tail);
      SplicedData(t.data, chunks, a, b);
    }
  }

  lemma SplicedData(data: seq<Byte>, chunks: seq<seq<Byte>>, a: nat, b: nat)
    requires ValidChunks(chunks) && a < |chunks| && b < |chunks| && data == []
    ensures (data + Rebuilt(chunks[..a], false)) + Rebuilt(chunks[b..], true) == Rebuilt(Spliced(chunks, a, b), true)
  {
    RebuiltConcat(chunks[..a], chunks[b..]);
    assert data + Rebuilt(chunks[..a], false) == Rebuilt(chunks[..a], false);
  }

  /** The same for a whole transfer with noise interleaved, from any state. */
  lemma SplicedTransfer(
      ch: Channel, op: Operation, nodeID: Byte, sized: bool, a: Address, data: seq<Byte>,
      x: nat, y: nat, rest: seq<Input>)
    requires (op == Upload || op == Download) && x <= |Chunks(data)| && y <= |Chunks(data)|
    requires Relevant(op, a, rest)
          == InitiateInputs(op, nodeID, a) + Spliced(SegmentInputs(op, nodeID, false, Chunks(data)), x, y)
    ensures Events(ch, [Read(Opening(op, nodeID, sized, a, |data|))] + rest)
         == if x == |Chunks(data)| then [Started(op, nodeID, a).Complete(Rebuilt(Chunks(data), true))]
            else if y < |Chunks(data)| && !Odd(x - y)
              then [Started(op, nodeID, a).Complete(Rebuilt(Spliced(Chunks(data), x, y), true))]
            else []
  {
    SegmentsOnly(op, nodeID, false, Chunks(data));
    OpeningStarts(ch, op, nodeID, sized, a, |data|, rest,
                  Spliced(SegmentInputs(op, nodeID, false, Chunks(data)), x, y));
    SpliceOutcome(Started(op, nodeID, a), nodeID, Chunks(data), x, y);
  }

  /** Losing any one segment leaves no event. */
  lemma LossDetected(
      ch: Channel, op: Operation, nodeID: Byte, sized: bool, a: Address, data: seq<Byte>, k: nat, rest: seq<Input>)
    requires (op == Upload || op == Download) && k < |Chunks(data)|
    requires Relevant(op, a, rest)
          == InitiateInputs(op, nodeID, a) + Spliced(SegmentInputs(op, nodeID, false, Chunks(data)), k, k + 1)
    ensures Events(ch, [Read(Opening(op, nodeID, sized, a, |data|))] + rest) == []
  {
    SplicedTransfer(ch, op, nodeID, sized, a, data, k, k + 1, rest);
  }

  /** Repeating any one but the last does so too; repeating the last leaves exactly the event there should be. */
  lemma RepetitionDetected(
      ch: Channel, op: Operation, nodeID: Byte, sized: bool, a: Address, data: seq<Byte>, k: nat, rest: seq<Input>)
    requires (op == Upload || op == Download) && k < |Chunks(data)|
    requires Relevant(op, a, rest)
          == InitiateInputs(op, nodeID, a) + Spliced(SegmentInputs(op, nodeID, false, Chunks(data)), k + 1, k)
    ensures Events(ch, [Read(Opening(op, nodeID, sized, a, |data|))] + rest)
         == if k == |Chunks(data)| - 1 then [Event(nodeID, DirectionOf(op), op, a.index, a.subIndex, data, None)] else []
  {
    SplicedTransfer(ch, op, nodeID, sized, a, data, k + 1, k, rest);
    RebuiltFull(Chunks(data));
  }

  /** Single errors, for a whole transfer with noise interleaved, from any state. */
  lemma SingleErrorDetected(
      ch: Channel, op: Operation, nodeID: Byte, sized: bool, a: Address, data: seq<Byte>,
      k: nat, repeated: bool, rest: seq<Observation>)
    requires (op == Upload || op == Download) && k < |Chunks(data)|
    requires var segments := SegmentInputs(op, nodeID, false, Chunks(data));
      Relevant(op, a, ReadAll(rest)) == InitiateInputs(op, nodeID, a)
        + (if repeated then Spliced(segments, k + 1, k) else Spliced(segments, k, k + 1))
    ensures Events(ch, [Read(Opening(op, nodeID, sized, a, |data|))] + ReadAll(rest))
         == if repeated && k == |Chunks(data)| - 1
            then [Event(nodeID, DirectionOf(op), op, a.index, a.subIndex, data, None)]
            else []
  {
    if repeated {
      RepetitionDetected(ch, op, nodeID, sized, a, data, k, ReadAll(rest));
    } else {
      LossDetected(ch, op, nodeID, sized, a, data, k, ReadAll(rest));
    }
  }

  /**
   * Losing a block of segments is reported as a complete transfer exactly when
   * the final segment arrives and the block is of even length; what is then
   * reported is short by the whole block.
   */
  lemma BlockLossUnnoticed(
      ch: Channel, op: Operation, nodeID: Byte, sized: bool, a: Address, data: seq<Byte>,
      x: nat, y: nat, rest: seq<Observation>)
    requires (op == Upload || op == Download) && x < y <= |Chunks(data)|
    requires Relevant(op, a, ReadAll(rest)) == InitiateInputs(op, nodeID, a)
        + Spliced(SegmentInputs(op, nodeID, false, Chunks(data)), x, y)
    ensures var events := Events(ch, [Read(Opening(op, nodeID, sized, a, |data|))] + ReadAll(rest));
      && (events != [] <==> y < |Chunks(data)| && (y - x) % 2 == 0)
      && (events != [] ==> |events| == 1 && events[0].data == data[..7 * x] + data[7 * y..])
  {
    SplicedTransfer(ch, op, nodeID, sized, a, data, x, y, ReadAll(rest));
    if y < |Chunks(data)| && (y - x) % 2 == 0 {
      SplicedFull(Chunks(data), x, y);
      RebuiltFull(Spliced(Chunks(data), x, y));
      FlattenSpliced(data, x, y);
    }
  }

  lemma SplicedFull(chunks: seq<seq<Byte>>, x: nat, y: nat)
    requires ValidChunks(chunks) && FullUntilLast(chunks) && x <= y < |chunks|
    ensures ValidChunks(Spliced(chunks, x, y)) && FullUntilLast(Spliced(chunks, x, y))
  {
  }

  lemma {:induction false} FlattenConcat(a: seq<seq<Byte>>, b: seq<seq<Byte>>)
    ensures Flatten(a + b) == Flatten(a) + Flatten(b)
    decreases |a|
  {
    if a == [] {
      assert a + b == b;
    } else {
      assert (a + b)[1..] == a[1..] + b;
      FlattenConcat(a[1..], b);
    }
  }

  lemma {:induction false} FullLength(chunks: seq<seq<Byte>>)
    requires forall k :: 0 <= k < |chunks| ==> |chunks[k]| == SEGMENT_BYTES
    ensures |Flatten(chunks)| == 7 * |chunks|
  {
    if chunks != [] {
      FullLength(chunks[1..]);
    }
  }

  lemma FlattenSpliced(data: seq<Byte>, x: nat, y: nat)
    requires x <= y < |Chunks(data)|
    ensures 7 * y <= |data|
    ensures Flatten(Spliced(Chunks(data), x, y)) == data[..7 * x] + data[7 * y..]
  {
    var chunks := Chunks(data);
    FlattenConcat(chunks[..x], chunks[y..]);
    FlattenCut(data, x);
    FlattenCut(data, y);
  }

  lemma FlattenCut(data: seq<Byte>, x: nat)
    requires x < |Chunks(data)|
    ensures 7 * x <= |data|
    ensures Flatten(Chunks(data)[..x]) == data[..7 * x] && Flatten(Chunks(data)[x..]) == data[7 * x..]
  {
    var head, tail := Chunks(data)[..x], Chunks(data)[x..];
    assert Chunks(data) == head + tail;
    FlattenConcat(head, tail);
    FullLength(head);
  }
}
