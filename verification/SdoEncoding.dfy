/** A reference encoder for SDO transfers (section 7.2.4.3 of CiA 301 v4.2.0). */
module SdoEncoding {
  import opened Bytes
  import opened SdoMessages
  import opened SdoObserver
  import opened SdoRuns

  const SEGMENT_BYTES: nat := 7

  /** The address of an object in a node's dictionary. */
  datatype Address = Address(index: Word, subIndex: Byte)

  function DirectionOf(op: Operation): Direction {
    if op == Upload then ServerToClient else ClientToServer
  }

  // ---------------------------------------------------------------------
  // Frames
  // ---------------------------------------------------------------------

  function Header(command: Byte, a: Address): (h: seq<Byte>)
    ensures |h| == 4
  {
    [command, a.index % 256, a.index / 256, a.subIndex]
  }

  /** Command specifier 1 (download) or 2 (upload response), carrying up to four bytes. */
  function ExpeditedFrame(op: Operation, sized: bool, a: Address, data: seq<Byte>): (f: seq<Byte>)
    requires 1 <= |data| <= 4 && (sized || |data| == 4)
    ensures |f| == FRAME_LENGTH
  {
    var base := if op == Upload then 0x40 else 0x20;
    Header(base + 2 + (if sized then 1 + 4 * (4 - |data|) else 0), a) + data + Zeros(4 - |data|)
  }

  /** The same specifiers announcing segments; the size is optional. */
  function InitiateFrame(op: Operation, sized: bool, a: Address, size: nat): (f: seq<Byte>)
    ensures |f| == FRAME_LENGTH
  {
    var base := if op == Upload then 0x40 else 0x20;
    Header(base + (if sized then 1 else 0), a) + (if sized then ToBytes(size, 4) else Zeros(4))
  }

  function SegmentFrame(toggle: bool, last: bool, chunk: seq<Byte>): (f: seq<Byte>)
    requires |chunk| <= SEGMENT_BYTES
    ensures |f| == FRAME_LENGTH
  {
    var unused := SEGMENT_BYTES - |chunk|;
    [BoolByte(toggle) + 2 * unused + (if last then 1 else 0)] + chunk + Zeros(unused)
  }

  function DownloadAckFrame(a: Address): seq<Byte>
  {
    Header(0x60, a) + Zeros(4)
  }

  function SegmentAckFrame(toggle: bool): seq<Byte> {
    [0x20 + BoolByte(toggle)] + Zeros(7)
  }

  // What the observer reads in these frames

  lemma ReadUploadRequest(a: Address)
    ensures Parse(ClientToServer, UploadRequestBytes(a.index, a.subIndex)) == UploadRequest(a.index, a.subIndex)
  {
  }

  lemma ReadExpedited(op: Operation, sized: bool, a: Address, data: seq<Byte>)
    requires 1 <= |data| <= 4 && (sized || |data| == 4) && op != Abort
    ensures Parse(DirectionOf(op), ExpeditedFrame(op, sized, a, data))
         == if op == Upload then UploadResponse(a.index, a.subIndex, Some(data))
            else SdoMessages.DownloadExpedited(a.index, a.subIndex, data)
  {
    var f := ExpeditedFrame(op, sized, a, data);
    var unused := if sized then ExpeditedUnused(f[0]) else 0;
    assert unused == 4 - |data|;
    assert f[4..8 - unused] == data;
  }

  lemma ReadInitiate(op: Operation, sized: bool, a: Address, size: nat)
    requires op != Abort
    ensures Parse(DirectionOf(op), InitiateFrame(op, sized, a, size))
         == if op == Upload then UploadResponse(a.index, a.subIndex, None)
            else DownloadInitiate(a.index, a.subIndex)
  {
  }

  /** A chunk as the observer takes it: unused bytes are dropped only from the last segment. */
  function Taken(last: bool, chunk: seq<Byte>): seq<Byte>
    requires |chunk| <= SEGMENT_BYTES
  {
    if last then chunk else chunk + Zeros(SEGMENT_BYTES - |chunk|)
  }

  lemma ReadSegment(d: Direction, toggle: bool, last: bool, chunk: seq<Byte>)
    requires |chunk| <= SEGMENT_BYTES && !d.UnknownDirection?
    ensures Parse(d, SegmentFrame(toggle, last, chunk)) == Segment(d, toggle, last, Taken(last, chunk))
  {
    var f := SegmentFrame(toggle, last, chunk);
    assert SegmentUnused(f[0]) == SEGMENT_BYTES - |chunk|;
    assert f[1..8] == chunk + Zeros(SEGMENT_BYTES - |chunk|);
    assert f[1..1 + |chunk|] == chunk;
  }

  lemma ReadSideTraffic(toggle: bool, a: Address)
    ensures Parse(ClientToServer, SegmentRequestBytes(toggle)) == Other
    ensures Parse(ServerToClient, SegmentAckFrame(toggle)) == Other
    ensures Parse(ServerToClient, DownloadAckFrame(a)) == Other
  {
  }

  // ---------------------------------------------------------------------
  // Cutting a payload into chunks
  // ---------------------------------------------------------------------

  predicate ValidChunks(chunks: seq<seq<Byte>>) {
    |chunks| > 0 && forall k :: 0 <= k < |chunks| ==> |chunks[k]| <= SEGMENT_BYTES
  }

  /** Every segment but the last is full. */
  predicate FullUntilLast(chunks: seq<seq<Byte>>) {
    forall k :: 0 <= k < |chunks| - 1 ==> |chunks[k]| == SEGMENT_BYTES
  }

  function Flatten(chunks: seq<seq<Byte>>): seq<Byte> {
    if chunks == [] then [] else chunks[0] + Flatten(chunks[1..])
  }

  /** What the observer rebuilds from the chunks; `last` says that the final one is marked last. */
  function Rebuilt(chunks: seq<seq<Byte>>, last: bool): seq<Byte>
    requires forall k :: 0 <= k < |chunks| ==> |chunks[k]| <= SEGMENT_BYTES
  {
    if chunks == [] then [] else Taken(last && |chunks| == 1, chunks[0]) + Rebuilt(chunks[1..], last)
  }

  function Chunks(data: seq<Byte>): (chunks: seq<seq<Byte>>)
    ensures ValidChunks(chunks) && FullUntilLast(chunks) && Flatten(chunks) == data
    ensures |data| > 0 ==> 7 * (|chunks| - 1) < |data| <= 7 * |chunks|
    ensures data == [] ==> |chunks| == 1
  {
    if |data| <= SEGMENT_BYTES then
      assert Flatten([data]) == data + Flatten([]);
      [data]
    else
      var rest := Chunks(data[7..]);
      var chunks := [data[..7]] + rest;
      assert chunks[1..] == rest;
      chunks
  }

  lemma {:induction false} FlattenLength(chunks: seq<seq<Byte>>)
    requires forall k :: 0 <= k < |chunks| ==> |chunks[k]| <= SEGMENT_BYTES
    ensures |Flatten(chunks)| <= 7 * |chunks|
    ensures |chunks| > 0 ==> |Rebuilt(chunks, true)| == 7 * (|chunks| - 1) + |chunks[|chunks| - 1]|
    ensures |chunks| > 0 ==> |Flatten(chunks)| <= 7 * (|chunks| - 1) + |chunks[|chunks| - 1]|
    ensures |chunks| > 0 && |Flatten(chunks)| == 7 * (|chunks| - 1) + |chunks[|chunks| - 1]| ==> FullUntilLast(chunks)
  {
    if |chunks| > 0 {
      FlattenLength(chunks[1..]);
      if |chunks| > 1 {
        assert chunks[1..][|chunks| - 2] == chunks[|chunks| - 1];
        if |Flatten(chunks)| == 7 * (|chunks| - 1) + |chunks[|chunks| - 1]| {
          assert |chunks[0]| == 7;
          forall k | 0 <= k < |chunks| - 1 ensures |chunks[k]| == SEGMENT_BYTES {
            if k > 0 { assert chunks[k] == chunks[1..][k - 1]; }
          }
        }
      }
    }
  }

  lemma {:induction false} RebuiltFull(chunks: seq<seq<Byte>>)
    requires ValidChunks(chunks) && FullUntilLast(chunks)
    ensures Rebuilt(chunks, true) == Flatten(chunks)
  {
    if |chunks| > 1 {
      RebuiltFull(chunks[1..]);
      assert Zeros(0) == [];
    }
  }

  /** The observer rebuilds the payload exactly when every segment but the last is full. */
  lemma RebuiltExactly(chunks: seq<seq<Byte>>)
    requires ValidChunks(chunks)
    ensures Rebuilt(chunks, true) == Flatten(chunks) <==> FullUntilLast(chunks)
  {
    FlattenLength(chunks);
    if FullUntilLast(chunks) {
      RebuiltFull(chunks);
    }
  }

  // ---------------------------------------------------------------------
  // Dialogues
  // ---------------------------------------------------------------------

  /** One segment with its request (upload) or acknowledgement (download). */
  function SegmentExchange(op: Operation, nodeID: Byte, toggle: bool, last: bool, chunk: seq<Byte>): (r: seq<Observation>)
    requires |chunk| <= SEGMENT_BYTES
    ensures |r| == 2
  {
    var segment := Observation(nodeID, DirectionOf(op), SegmentFrame(toggle, last, chunk));
    if op == Upload then [Observation(nodeID, ClientToServer, SegmentRequestBytes(toggle)), segment]
    else [segment, Observation(nodeID, ServerToClient, SegmentAckFrame(toggle))]
  }

  function SegmentDialogue(op: Operation, nodeID: Byte, toggle: bool, chunks: seq<seq<Byte>>): seq<Observation>
    requires forall k :: 0 <= k < |chunks| ==> |chunks[k]| <= SEGMENT_BYTES
    decreases |chunks|
  {
    if chunks == [] then []
    else
      SegmentExchange(op, nodeID, toggle, |chunks| == 1, chunks[0])
      + SegmentDialogue(op, nodeID, !toggle, chunks[1..])
  }

  /** The frame that opens a segmented transfer. */
  function Opening(op: Operation, nodeID: Byte, sized: bool, a: Address, size: nat): Observation
  {
    Observation(nodeID, ClientToServer, if op == Upload then UploadRequestBytes(a.index, a.subIndex) else InitiateFrame(op, sized, a, size))
  }

  /** Everything after it. */
  function SegmentedDialogue(
      op: Operation, nodeID: Byte, sized: bool, a: Address, size: nat, chunks: seq<seq<Byte>>): seq<Observation>
    requires ValidChunks(chunks)
  {
    [Observation(nodeID, ServerToClient, if op == Upload then InitiateFrame(op, sized, a, size) else DownloadAckFrame(a))]
    + SegmentDialogue(op, nodeID, false, chunks)
  }
}
