/** SDO frames as an observer of the bus reads them (section 7.2.4.3 of CiA 301 v4.2.0). */
module SdoMessages {
  import opened Bytes

  datatype Direction = ClientToServer | ServerToClient | UnknownDirection(name: string)
  datatype Operation = Upload | Download | Abort

  const FRAME_LENGTH: nat := 8

  // ---------------------------------------------------------------------
  // Command byte
  // ---------------------------------------------------------------------

  function Specifier(c: Byte): nat { c / 32 }
  predicate Toggle(c: Byte) { (c / 16) % 2 == 1 }
  predicate LastSegment(c: Byte) { c % 2 == 1 }
  function SegmentUnused(c: Byte): nat { (c / 2) % 8 }
  predicate Expedited(c: Byte) { (c / 2) % 2 == 1 }
  predicate SizeIndicated(c: Byte) { c % 2 == 1 }
  function ExpeditedUnused(c: Byte): nat { (c / 4) % 4 }

  function BoolByte(toggle: bool): Byte { if toggle then 0x10 else 0 }

  /** Bitwise conjunction. */
  function And(x: nat, y: nat): nat
    decreases y
  {
    if x == 0 || y == 0 then 0 else (if x % 2 == 1 && y % 2 == 1 then 1 else 0) + 2 * And(x / 2, y / 2)
  }

  /** The masks and shifts of the code select the fields above. */
  lemma Masks(c: Byte)
    ensures And(c, 0xE0) == 32 * Specifier(c)
    ensures And(c, 0x10) == BoolByte(Toggle(c))
    ensures And(c, 0x01) != 0 <==> LastSegment(c)
    ensures And(c, 0x02) != 0 <==> Expedited(c)
    ensures And(c / 2, 0x07) == SegmentUnused(c)
    ensures And(c / 4, 0x03) == ExpeditedUnused(c)
  {
    MaskSpecifier(c, c / 2, c / 4, c / 8, c / 16, c / 32);
    MaskToggle(c, c / 2, c / 4, c / 8, c / 16);
    AndLow(c, c / 2, c / 4);
  }

  lemma MaskSpecifier(c: nat, c1: nat, c2: nat, c3: nat, c4: nat, c5: nat)
    requires c1 == c / 2 && c2 == c1 / 2 && c3 == c2 / 2 && c4 == c3 / 2 && c5 == c4 / 2 && c5 < 8
    ensures And(c, 0xE0) == 32 * c5
  {
    AndShift(c, 0x70);
    AndShift(c1, 0x38);
    AndShift(c2, 0x1C);
    MaskTopBits(c3, c4, c5);
  }

  lemma MaskTopBits(c3: nat, c4: nat, c5: nat)
    requires c4 == c3 / 2 && c5 == c4 / 2 && c5 < 8
    ensures And(c3, 0x1C) == 4 * c5
  {
    AndShift(c3, 0x0E);
    AndShift(c4, 0x07);
    And7(c5, c5 / 2, c5 / 4);
  }

  lemma MaskToggle(c: nat, c1: nat, c2: nat, c3: nat, c4: nat)
    requires c1 == c / 2 && c2 == c1 / 2 && c3 == c2 / 2 && c4 == c3 / 2
    ensures And(c, 0x10) == 16 * (c4 % 2)
  {
    AndShift(c, 0x08);
    AndShift(c1, 0x04);
    AndShift(c2, 0x02);
    AndShift(c3, 0x01);
    And1(c4);
  }

  lemma AndLow(c: nat, c1: nat, c2: nat)
    requires c1 == c / 2 && c2 == c1 / 2
    ensures And(c, 0x01) == c % 2 && And(c, 0x02) == 2 * (c1 % 2)
    ensures And(c1, 0x07) == c1 % 8 && And(c2, 0x03) == c2 % 4
  {
    And1(c);
    AndShift(c, 0x01);
    And1(c1);
    And7(c1, c2, c2 / 2);
    And3(c2, c2 / 2);
  }

  lemma AndShift(x: nat, y: nat)
    ensures And(x, 2 * y) == 2 * And(x / 2, y)
  {
    assert (2 * y) / 2 == y;
  }

  lemma And1(x: nat)
    ensures And(x, 1) == x % 2
  {
    assert And(x / 2, 0) == 0;
  }

  lemma And3(x: nat, x1: nat)
    requires x1 == x / 2
    ensures And(x, 3) == x % 4
  {
    assert x == 2 * x1 + x % 2;
    And1(x1);
  }

  lemma And7(x: nat, x1: nat, x2: nat)
    requires x1 == x / 2 && x2 == x1 / 2
    ensures And(x, 7) == x % 8
  {
    assert x % 8 == x % 2 + 2 * (x1 % 4) by {
      var q, r := x1 / 4, x1 % 4;
      assert x == 8 * q + (2 * r + x % 2);
    }
    And3(x1, x2);
  }

  // ---------------------------------------------------------------------
  // Messages
  // ---------------------------------------------------------------------

  function Index(frame: seq<Byte>): Word
    requires |frame| >= 4
  {
    frame[1] as int + 256 * frame[2] as int
  }

  function SubIndex(frame: seq<Byte>): Byte
    requires |frame| >= 4
  {
    frame[3]
  }

  function ExpeditedData(frame: seq<Byte>): seq<Byte>
    requires |frame| >= FRAME_LENGTH
  {
    if SizeIndicated(frame[0]) then frame[4..8 - ExpeditedUnused(frame[0])] else frame[4..8]
  }

  /** Segment bytes as the observer takes them: a short count is honoured only on the last segment. */
  function SegmentData(frame: seq<Byte>): seq<Byte>
    requires |frame| >= FRAME_LENGTH
  {
    if LastSegment(frame[0]) then frame[1..8 - SegmentUnused(frame[0])] else frame[1..8]
  }

  /** What a frame says, given the direction it travels in. */
  datatype Message =
    | Empty
    | Truncated(length: nat)
    | Undirected
    | UploadRequest(index: Word, subIndex: Byte)
    | UploadResponse(index: Word, subIndex: Byte, expedited: Option<seq<Byte>>)
    | DownloadExpedited(index: Word, subIndex: Byte, data: seq<Byte>)
    | DownloadInitiate(index: Word, subIndex: Byte)
    | Segment(direction: Direction, toggle: bool, last: bool, data: seq<Byte>)
    | ServerAbort(index: Word, subIndex: Byte, code: nat)
    | Other

  function Parse(direction: Direction, frame: seq<Byte>): Message {
    if |frame| == 0 then Empty
    else if |frame| < FRAME_LENGTH then Truncated(|frame|)
    else
      var c := frame[0];
      match direction
      case UnknownDirection(_) => Undirected
      case ClientToServer =>
        if c == 0x40 then UploadRequest(Index(frame), SubIndex(frame))
        else if Specifier(c) == 1 then
          if Expedited(c) then DownloadExpedited(Index(frame), SubIndex(frame), ExpeditedData(frame))
          else DownloadInitiate(Index(frame), SubIndex(frame))
        else if Specifier(c) == 0 then Segment(direction, Toggle(c), LastSegment(c), SegmentData(frame))
        else Other
      case ServerToClient =>
        if c == 0x80 then ServerAbort(Index(frame), SubIndex(frame), LittleEndian(frame[4..8]))
        else if Specifier(c) == 2 then
          UploadResponse(Index(frame), SubIndex(frame), if Expedited(c) then Some(ExpeditedData(frame)) else None)
        else if Specifier(c) == 0 then Segment(direction, Toggle(c), LastSegment(c), SegmentData(frame))
        else Other
  }

  // ---------------------------------------------------------------------
  // Requests of an upload
  // ---------------------------------------------------------------------

  function UploadRequestBytes(index: Word, subIndex: Byte): (frame: seq<Byte>)
    ensures |frame| == FRAME_LENGTH && frame[0] == 0x40
    ensures Index(frame) == index && SubIndex(frame) == subIndex
  {
    [0x40, index % 256, index / 256, subIndex, 0, 0, 0, 0]
  }

  function SegmentRequestBytes(toggle: bool): (frame: seq<Byte>)
    ensures |frame| == FRAME_LENGTH && Specifier(frame[0]) == 3 && Toggle(frame[0]) == toggle
  {
    [0x60 + BoolByte(toggle), 0, 0, 0, 0, 0, 0, 0]
  }
}
