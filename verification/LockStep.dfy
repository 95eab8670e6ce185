/** The polling client and the passive observer over the same frames. */
module LockStep {
  import opened Bytes
  import opened Bus
  import opened Config
  import opened SdoMessages
  import opened SdoObserver
  import opened SdoPoller

  /** The observer's record of the attempt's upload: same object, same phase, same toggle. */
  predicate InLock(a: Poll, ch: Channel) {
    && ch.Some? && ch.value.operation == Upload && ch.value.direction == ServerToClient
    && ch.value.index == a.target.index && ch.value.subIndex == a.target.subIndex
    && ch.value.uploadInitiated == a.segment && ch.value.toggle == a.toggle && (a.toggle ==> a.segment)
  }

  predicate Uploaded(out: Outcome) {
    out.Emitted? && out.event.operation == Upload
  }

  /** Data from the server: the poller first; its request, if any, passes the observer before the frame does. */
  function Joint(channels: NodeChannels, a: Poll, ch: Channel, nodeID: Byte, data: seq<Byte>): (Poll, Channel, Outcome) {
    var (a', request) := Deliver(channels, a, Frame(a.serverCobID, false, data));
    var ch1 := if request.Some? then Step(ch, nodeID, Parse(ClientToServer, request.value.data)).0 else ch;
    var (ch', out) := Step(ch1, nodeID, Parse(ServerToClient, data));
    (a', ch', out)
  }

  /**
   * What server data may be for the two to agree on it, attempt state in hand.
   * Short frames must leave the poller waiting or fail it; aborts must name the
   * polled object; an addressed answer must be an upload response; and within
   * the segment phase a frame that is not a segment must not be mistaken for one.
   */
  predicate InStep(a: Poll, data: seq<Byte>) {
    |data| == 0 ||
    var c := data[0];
    var addressed := Addressed(a.target, data);
    var completes := Specifier(c) == 2 && addressed && Expedited(c);
    if c == 0x80 then |data| < FRAME_LENGTH || addressed
    else if |data| < FRAME_LENGTH then if a.segment then Toggle(c) != a.toggle else !addressed
    else if !a.segment then addressed ==> Specifier(c) == 2
    else if Specifier(c) == 0 then true
    else if Toggle(c) != a.toggle then !completes
    else LastSegment(c) && completes
  }

  /** The two still agree: both wait in the same state, or the poll ended ok just as the upload was reported. */
  predicate Agreed(a: Poll, ch: Channel, out: Outcome) {
    && (a.result.None? ==> InLock(a, ch))
    && (a.result == Some(PollOk) <==> Uploaded(out))
  }

  lemma RequestUnobserved(channels: NodeChannels, o: SdoObject, toggle: bool)
    ensures Parse(ClientToServer, SegmentRequest(channels, o, toggle).data) == Other
  {
  }

  /** One frame keeps poller and observer in lock step exactly when it is in step. */
  lemma LockStepExact(channels: NodeChannels, a: Poll, ch: Channel, nodeID: Byte, data: seq<Byte>)
    requires a.result.None? && InLock(a, ch)
    ensures var (a', ch', out) := Joint(channels, a, ch, nodeID, data);
      Agreed(a', ch', out) <==> InStep(a, data)
  {
    RequestUnobserved(channels, a.target, false);
    RequestUnobserved(channels, a.target, !a.toggle);
    if !a.segment {
      WaitingExact(channels, a, ch, nodeID, data);
    } else {
      SegmentExact(channels, a, ch, nodeID, data);
    }
  }

  lemma WaitingExact(channels: NodeChannels, a: Poll, ch: Channel, nodeID: Byte, data: seq<Byte>)
    requires a.result.None? && InLock(a, ch) && !a.segment
    ensures var (a', ch', out) := Joint(channels, a, ch, nodeID, data);
      Agreed(a', ch', out) <==> InStep(a, data)
  {
    RequestUnobserved(channels, a.target, false);
  }

  lemma SegmentExact(channels: NodeChannels, a: Poll, ch: Channel, nodeID: Byte, data: seq<Byte>)
    requires a.result.None? && InLock(a, ch) && a.segment
    ensures var (a', ch', out) := Joint(channels, a, ch, nodeID, data);
      Agreed(a', ch', out) <==> InStep(a, data)
  {
    RequestUnobserved(channels, a.target, !a.toggle);
  }

  // ---------------------------------------------------------------------
  // Whole attempts
  // ---------------------------------------------------------------------

  /** Frames a conforming server sends during the attempt (section 7.2.4.3 of CiA 301). */
  predicate Conforming(a: Poll, data: seq<Byte>) {
    && |data| == FRAME_LENGTH
    && if data[0] == 0x80 then Addressed(a.target, data)
       else Specifier(data[0]) == if a.segment then 0 else 2
  }

  lemma ConformingInStep(a: Poll, data: seq<Byte>)
    requires Conforming(a, data)
    ensures InStep(a, data)
  {
  }

  /** The attempt up to its first result: final states and the uploads reported. */
  function Attempt(channels: NodeChannels, a: Poll, ch: Channel, nodeID: Byte, frames: seq<seq<Byte>>)
    : (Poll, Channel, seq<Event>)
    decreases |frames|
  {
    if frames == [] || a.result.Some? then (a, ch, [])
    else
      var (a1, ch1, out) := Joint(channels, a, ch, nodeID, frames[0]);
      var (a', ch', events) := Attempt(channels, a1, ch1, nodeID, frames[1..]);
      (a', ch', (if Uploaded(out) then [out.event] else []) + events)
  }

  /** Every frame up to the first result is in step. */
  predicate AllInStep(channels: NodeChannels, a: Poll, ch: Channel, nodeID: Byte, frames: seq<seq<Byte>>)
    decreases |frames|
  {
    frames == [] || a.result.Some? ||
    var (a1, ch1, _) := Joint(channels, a, ch, nodeID, frames[0]);
    InStep(a, frames[0]) && AllInStep(channels, a1, ch1, nodeID, frames[1..])
  }

  /**
   * Until the first result the observer holds the attempt's upload in the same
   * phase with the same toggle; the poll ends ok exactly when the observer
   * reports an upload, which is then the one polled.
   */
  lemma {:induction false} AttemptInLock(
      channels: NodeChannels, a: Poll, ch: Channel, nodeID: Byte, frames: seq<seq<Byte>>)
    requires a.result.None? && InLock(a, ch) && AllInStep(channels, a, ch, nodeID, frames)
    ensures var (a', ch', events) := Attempt(channels, a, ch, nodeID, frames);
      && (a'.result.None? ==> InLock(a', ch') && events == [])
      && (a'.result == Some(PollOk) <==> events != [])
      && (events != [] ==> |events| == 1 && events[0].index == a.target.index && events[0].subIndex == a.target.subIndex)
    decreases |frames|
  {
    if frames != [] {
      var (a1, ch1, out) := Joint(channels, a, ch, nodeID, frames[0]);
      LockStepExact(channels, a, ch, nodeID, frames[0]);
      JointAddress(channels, a, ch, nodeID, frames[0]);
      if a1.result.None? {
        AttemptInLock(channels, a1, ch1, nodeID, frames[1..]);
      } else {
        assert Attempt(channels, a1, ch1, nodeID, frames[1..]) == (a1, ch1, []);
      }
    }
  }

  lemma JointAddress(channels: NodeChannels, a: Poll, ch: Channel, nodeID: Byte, data: seq<Byte>)
    requires InLock(a, ch)
    ensures var (a', ch', out) := Joint(channels, a, ch, nodeID, data);
      && a'.target == a.target
      && (Uploaded(out) ==> out.event.index == a.target.index && out.event.subIndex == a.target.subIndex)
  {
    RequestUnobserved(channels, a.target, false);
    RequestUnobserved(channels, a.target, !a.toggle);
  }

  /** Every frame up to the first result comes from a conforming server. */
  predicate AllConforming(channels: NodeChannels, a: Poll, ch: Channel, nodeID: Byte, frames: seq<seq<Byte>>)
    decreases |frames|
  {
    frames == [] || a.result.Some? ||
    var (a1, ch1, _) := Joint(channels, a, ch, nodeID, frames[0]);
    Conforming(a, frames[0]) && AllConforming(channels, a1, ch1, nodeID, frames[1..])
  }

  lemma {:induction false} AllConformingInStep(
      channels: NodeChannels, a: Poll, ch: Channel, nodeID: Byte, frames: seq<seq<Byte>>)
    requires AllConforming(channels, a, ch, nodeID, frames)
    ensures AllInStep(channels, a, ch, nodeID, frames)
    decreases |frames|
  {
    if frames != [] && a.result.None? {
      var (a1, ch1, _) := Joint(channels, a, ch, nodeID, frames[0]);
      ConformingInStep(a, frames[0]);
      AllConformingInStep(channels, a1, ch1, nodeID, frames[1..]);
    }
  }

  /** Making an attempt active and showing its request to the observer puts the two in lock step. */
  lemma BeginInLock(channels: NodeChannels, o: SdoObject, ch: Channel, nodeID: Byte)
    ensures Parse(ClientToServer, RequestFrame(channels, o).data) == UploadRequest(o.index, o.subIndex)
    ensures InLock(NewPoll(channels, o), Step(ch, nodeID, UploadRequest(o.index, o.subIndex)).0)
  {
  }

  /** From any state of the channel, against a conforming server, a poll and the observer agree to the end. */
  lemma PollInLock(channels: NodeChannels, o: SdoObject, ch: Channel, nodeID: Byte, frames: seq<seq<Byte>>)
    requires AllConforming(channels, NewPoll(channels, o), Some(NewUpload(nodeID, o.index, o.subIndex)), nodeID, frames)
    ensures var ch0 := Step(ch, nodeID, Parse(ClientToServer, RequestFrame(channels, o).data)).0;
      var (a, ch', events) := Attempt(channels, NewPoll(channels, o), ch0, nodeID, frames);
      && (a.result.None? ==> InLock(a, ch') && events == [])
      && (a.result == Some(PollOk) <==> events != [])
      && (events != [] ==> |events| == 1 && events[0].index == o.index && events[0].subIndex == o.subIndex)
  {
    BeginInLock(channels, o, ch, nodeID);
    var ch0 := Some(NewUpload(nodeID, o.index, o.subIndex));
    AllConformingInStep(channels, NewPoll(channels, o), ch0, nodeID, frames);
    AttemptInLock(channels, NewPoll(channels, o), ch0, nodeID, frames);
  }
}
