/** Passive reconstruction of SDO transfers (internal/sdoobserver/observer.go). */
module SdoObserver {
  import opened Bytes
  import opened SdoMessages

  // ---------------------------------------------------------------------
  // Specification: one channel as a state machine over messages
  // ---------------------------------------------------------------------

  datatype Event = Event(
    nodeID: Byte, direction: Direction, operation: Operation,
    index: Word, subIndex: Byte, data: seq<Byte>, abortCode: Option<nat>)

  datatype ObserveError = TruncatedFrame(nodeID: Byte, length: nat) | NoSuchDirection | UnexpectedToggle(nodeID: Byte)

  datatype Outcome = Quiet | Emitted(event: Event) | Rejected(error: ObserveError)

  /** The contents of one transfer record. */
  datatype Transfer = Transfer(
    nodeID: Byte, direction: Direction, operation: Operation,
    index: Word, subIndex: Byte, uploadInitiated: bool, toggle: bool, data: seq<Byte>)
  {
    function Complete(payload: seq<Byte>): Event {
      Event(nodeID, direction, operation, index, subIndex, payload, None)
    }

    /** Segments travelling in `d` belong to this transfer. */
    predicate Accepting(d: Direction) {
      direction == d && (operation == Upload ==> uploadInitiated)
    }
  }

  type Channel = Option<Transfer>

  function NewUpload(nodeID: Byte, index: Word, subIndex: Byte): Transfer {
    Transfer(nodeID, ServerToClient, Upload, index, subIndex, false, false, [])
  }

  function NewDownload(nodeID: Byte, index: Word, subIndex: Byte): Transfer {
    Transfer(nodeID, ClientToServer, Download, index, subIndex, false, false, [])
  }

  function Step(ch: Channel, nodeID: Byte, m: Message): (Channel, Outcome) {
    match m
    case Empty => (ch, Quiet)
    case Truncated(n) => (ch, Rejected(TruncatedFrame(nodeID, n)))
    case Undirected => (ch, Rejected(NoSuchDirection))
    case UploadRequest(i, s) => (Some(NewUpload(nodeID, i, s)), Quiet)
    case UploadResponse(i, s, expedited) =>
      if ch.None? || ch.value.operation != Upload || ch.value.index != i || ch.value.subIndex != s then (ch, Quiet)
      else if expedited.Some? then (None, Emitted(ch.value.Complete(expedited.value)))
      else (Some(ch.value.(uploadInitiated := true)), Quiet)
    case DownloadExpedited(i, s, data) =>
      (ch, Emitted(Event(nodeID, ClientToServer, Download, i, s, data, None)))
    case DownloadInitiate(i, s) => (Some(NewDownload(nodeID, i, s)), Quiet)
    case Segment(d, toggle, last, data) =>
      if ch.None? || !ch.value.Accepting(d) then (ch, Quiet)
      else if toggle != ch.value.toggle then (None, Rejected(UnexpectedToggle(nodeID)))
      else if last then (None, Emitted(ch.value.Complete(ch.value.data + data)))
      else (Some(ch.value.(data := ch.value.data + data, toggle := !toggle)), Quiet)
    case ServerAbort(i, s, code) =>
      (None, Emitted(Event(nodeID, ServerToClient, Abort, i, s, [], Some(code))))
    case Other => (ch, Quiet)
  }

  type ChannelKey = nat
  type Channels = map<ChannelKey, Transfer>

  function Lookup(m: Channels, key: ChannelKey): Channel {
    if key in m then Some(m[key]) else None
  }

  function Store(m: Channels, key: ChannelKey, ch: Channel): (r: Channels)
    ensures forall k :: Lookup(r, k) == if k == key then ch else Lookup(m, k)
  {
    match ch
    case None => m - {key}
    case Some(t) => m[key := t]
  }

  lemma StoreUnchanged(m: Channels, key: ChannelKey)
    ensures Store(m, key, Lookup(m, key)) == m
  {
  }

  lemma StoreTwice(m: Channels, key: ChannelKey, a: Channel, b: Channel)
    ensures Store(Store(m, key, a), key, b) == Store(m, key, b)
  {
  }

  /** One message on one of many channels. */
  function StepOn(m: Channels, key: ChannelKey, nodeID: Byte, message: Message): (Channels, Outcome) {
    var (ch, out) := Step(Lookup(m, key), nodeID, message);
    (Store(m, key, ch), out)
  }

  /** One observed frame on one of many channels. */
  function Observe(m: Channels, key: ChannelKey, nodeID: Byte, direction: Direction, frame: seq<Byte>)
    : (Channels, Outcome)
  {
    StepOn(m, key, nodeID, Parse(direction, frame))
  }

  // ---------------------------------------------------------------------
  // The code: records on the heap, shared through a map
  // ---------------------------------------------------------------------

  class TransferRecord {
    const nodeID: Byte
    const direction: Direction
    const operation: Operation
    const index: Word
    const subIndex: Byte
    var uploadInitiated: bool
    var toggle: bool
    var data: seq<Byte>

    constructor (nodeID: Byte, direction: Direction, operation: Operation, index: Word, subIndex: Byte)
      ensures Contents() == Transfer(nodeID, direction, operation, index, subIndex, false, false, [])
    {
      this.nodeID := nodeID;
      this.direction := direction;
      this.operation := operation;
      this.index := index;
      this.subIndex := subIndex;
      this.uploadInitiated := false;
      this.toggle := false;
      this.data := [];
    }

    function Contents(): Transfer
      reads this
    {
      Transfer(nodeID, direction, operation, index, subIndex, uploadInitiated, toggle, data)
    }
  }

  class Observer {
    var transfers: map<ChannelKey, TransferRecord>

    constructor ()
      ensures Valid() && State() == map[] && transfers == map[]
    {
      transfers := map[];
    }

    /** No record is shared by two channels. */
    ghost predicate Valid()
      reads this
    {
      forall j, k :: j in transfers && k in transfers && j != k ==> transfers[j] != transfers[k]
    }

    ghost function State(): Channels
      reads this, transfers.Values
    {
      map k | k in transfers :: transfers[k].Contents()
    }

    method Drop(key: ChannelKey)
      requires Valid()
      modifies this
      ensures Valid() && transfers == old(transfers) - {key}
      ensures State() == Store(old(State()), key, None)
    {
      transfers := transfers - {key};
    }

    method Begin(key: ChannelKey, nodeID: Byte, direction: Direction, operation: Operation, frame: seq<Byte>)
      requires Valid() && |frame| >= FRAME_LENGTH
      modifies this
      ensures Valid() && fresh(transfers.Values - old(transfers.Values))
      ensures State() == Store(old(State()), key,
        Some(Transfer(nodeID, direction, operation, Index(frame), SubIndex(frame), false, false, [])))
    {
      var t := new TransferRecord(nodeID, direction, operation, Index(frame), SubIndex(frame));
      transfers := transfers[key := t];
    }

    /** Takes one more segment into the record of `key`. */
    method Append(key: ChannelKey, bytes: seq<Byte>)
      requires Valid() && key in transfers
      modifies transfers[key]
      ensures Valid()
      ensures var t := old(State())[key];
        State() == Store(old(State()), key, Some(t.(data := t.data + bytes, toggle := !t.toggle)))
    {
      var transfer := transfers[key];
      transfer.data := transfer.data + bytes;
      transfer.toggle := !transfer.toggle;
    }

    method ObserveOnChannel(key: ChannelKey, nodeID: Byte, direction: Direction, frame: seq<Byte>)
      returns (out: Outcome)
      requires Valid()
      modifies this, transfers.Values
      ensures Valid() && fresh(transfers.Values - old(transfers.Values))
      ensures State() == Observe(old(State()), key, nodeID, direction, frame).0 && out == Observe(old(State()), key, nodeID, direction, frame).1
    {
      StoreUnchanged(State(), key);
      if |frame| == 0 {
        return Quiet;
      }
      if |frame| < FRAME_LENGTH {
        return Rejected(TruncatedFrame(nodeID, |frame|));
      }
      var command := frame[0];
      if direction == ServerToClient && command == 0x80 {
        var abortCode := LittleEndian(frame[4..8]);
        Drop(key);
        return Emitted(Event(nodeID, direction, Abort, Index(frame), SubIndex(frame), [], Some(abortCode)));
      }
      match direction {
        case ClientToServer => out := ObserveClient(key, nodeID, command, frame);
        case ServerToClient => out := ObserveServer(key, nodeID, command, frame);
        case UnknownDirection(_) => out := Rejected(NoSuchDirection);
      }
    }

    method ObserveClient(key: ChannelKey, nodeID: Byte, command: Byte, frame: seq<Byte>) returns (out: Outcome)
      requires Valid() && |frame| >= FRAME_LENGTH && command == frame[0]
      modifies this, transfers.Values
      ensures Valid() && fresh(transfers.Values - old(transfers.Values))
      ensures State() == Observe(old(State()), key, nodeID, ClientToServer, frame).0 && out == Observe(old(State()), key, nodeID, ClientToServer, frame).1
    {
      StoreUnchanged(State(), key);
      if command == 0x40 {
        Begin(key, nodeID, ServerToClient, Upload, frame);
        return Quiet;
      }
      if Specifier(command) == 1 {
        if Expedited(command) {
          var data := ExpeditedData(frame);
          return Emitted(Event(nodeID, ClientToServer, Download, Index(frame), SubIndex(frame), data, None));
        }
        Begin(key, nodeID, ClientToServer, Download, frame);
        return Quiet;
      }
      if Specifier(command) != 0 {
        return Quiet;
      }
      out := ObserveSegment(key, nodeID, ClientToServer, command, frame);
    }

    method ObserveServer(key: ChannelKey, nodeID: Byte, command: Byte, frame: seq<Byte>) returns (out: Outcome)
      requires Valid() && |frame| >= FRAME_LENGTH && command == frame[0] && command != 0x80
      modifies this, transfers.Values
      ensures Valid() && fresh(transfers.Values - old(transfers.Values))
      ensures State() == Observe(old(State()), key, nodeID, ServerToClient, frame).0 && out == Observe(old(State()), key, nodeID, ServerToClient, frame).1
    {
      StoreUnchanged(State(), key);
      if key !in transfers {
        return Quiet;
      }
      var transfer := transfers[key];
      if transfer.operation == Upload && Specifier(command) == 2 {
        if Index(frame) != transfer.index || SubIndex(frame) != transfer.subIndex {
          return Quiet;
        }
        if Expedited(command) {
          var data := ExpeditedData(frame);
          Drop(key);
          return Emitted(transfer.Contents().Complete(data));
        }
        transfer.uploadInitiated := true;
        return Quiet;
      }
      if transfer.operation == Download && command == 0x60 {
        return Quiet;
      }
      if Specifier(command) != 0 {
        return Quiet;
      }
      out := ObserveSegment(key, nodeID, ServerToClient, command, frame);
    }

    method ObserveSegment(key: ChannelKey, nodeID: Byte, direction: Direction, command: Byte, frame: seq<Byte>)
      returns (out: Outcome)
      requires Valid() && |frame| >= FRAME_LENGTH && command == frame[0]
      modifies this, transfers.Values
      ensures Valid() && fresh(transfers.Values - old(transfers.Values))
      ensures var segment := Segment(direction, Toggle(command), LastSegment(command), SegmentData(frame));
        && State() == StepOn(old(State()), key, nodeID, segment).0
        && out == StepOn(old(State()), key, nodeID, segment).1
    {
      StoreUnchanged(State(), key);
      if key !in transfers || transfers[key].direction != direction {
        return Quiet;
      }
      var transfer := transfers[key];
      if transfer.operation == Upload && !transfer.uploadInitiated {
        return Quiet;
      }
      var toggle := Toggle(command);
      if toggle != transfer.toggle {
        Drop(key);
        return Rejected(UnexpectedToggle(nodeID));
      }
      out := TakeSegment(key, command, frame);
    }

    /** The rest of `ObserveSegment`: an expected segment extends or completes its transfer. */
    method TakeSegment(key: ChannelKey, command: Byte, frame: seq<Byte>) returns (out: Outcome)
      requires Valid() && |frame| >= FRAME_LENGTH && command == frame[0] && key in transfers
      modifies this, transfers.Values
      ensures Valid() && fresh(transfers.Values - old(transfers.Values))
      ensures var t, data := old(State())[key], SegmentData(frame);
        if LastSegment(command) then
          State() == Store(old(State()), key, None) && out == Emitted(t.Complete(t.data + data))
        else
          State() == Store(old(State()), key, Some(t.(data := t.data + data, toggle := !t.toggle))) && out == Quiet
    {
      var transfer := transfers[key];
      var unused := SegmentUnused(command);
      var last := LastSegment(command);
      if !last {
        unused := 0;
      }
      var bytes := frame[1..8 - unused];
      assert bytes == SegmentData(frame);
      ghost var before := State();
      Append(key, bytes);
      StoreTwice(before, key, Lookup(State(), key), None);
      if !last {
        return Quiet;
      }
      Drop(key);
      return Emitted(transfer.Contents().Complete(transfer.data));
    }
  }
}
