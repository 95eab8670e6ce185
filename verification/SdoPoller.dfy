/** The active SDO client: one upload attempt at a time (sdo_poller.go). */
module SdoPoller {
  import opened Bytes
  import opened Bus
  import opened Config
  import opened SdoMessages

  datatype PollFailure = AbortedByServer | WrongToggle | SendFailed | TimedOut | Cancelled
  datatype PollResult = PollOk | PollFailed(why: PollFailure)

  /** The contents of the active attempt; `result` is its one-slot channel. */
  datatype Poll = Poll(target: SdoObject, serverCobID: nat, segment: bool, toggle: bool, result: Option<PollResult>)

  type NodeChannels = map<Byte, SdoChannel>

  /** The last configured channel of each node. */
  function ChannelsByNode(channels: seq<SdoChannel>): NodeChannels {
    if channels == [] then map[]
    else
      var n := |channels| - 1;
      ChannelsByNode(channels[..n])[channels[n].nodeID := channels[n]]
  }

  /** A node's configured channel, or the predefined one. */
  function ChannelOf(channels: NodeChannels, nodeID: Byte): SdoChannel {
    if nodeID in channels then channels[nodeID] else SdoChannel(nodeID, 0x600 + nodeID, 0x580 + nodeID)
  }

  function RequestFrame(channels: NodeChannels, o: SdoObject): Frame {
    Frame(ChannelOf(channels, o.nodeID).client, false, UploadRequestBytes(o.index, o.subIndex))
  }

  function SegmentRequest(channels: NodeChannels, o: SdoObject, toggle: bool): Frame {
    Frame(ChannelOf(channels, o.nodeID).client, false, SegmentRequestBytes(toggle))
  }

  function NewPoll(channels: NodeChannels, o: SdoObject): Poll {
    Poll(o, ChannelOf(channels, o.nodeID).server, false, false, None)
  }

  /** Only the first result stays in the slot. */
  function Finish(a: Poll, r: PollResult): Poll {
    if a.result.None? then a.(result := Some(r)) else a
  }

  /** The frame is on the attempt's server COB-ID and not empty. */
  predicate Heard(a: Poll, f: Frame) {
    !f.extended && f.id == a.serverCobID && f.data != []
  }

  predicate Addressed(o: SdoObject, data: seq<Byte>) {
    |data| >= 4 && Index(data) == o.index && SubIndex(data) == o.subIndex
  }

  /** One frame from the bus, and the request it makes the poller send. */
  function Deliver(channels: NodeChannels, a: Poll, f: Frame): (Poll, Option<Frame>) {
    if !Heard(a, f) then (a, None)
    else
      var c := f.data[0];
      if c == 0x80 then
        (if Addressed(a.target, f.data) then Finish(a, PollFailed(AbortedByServer)) else a, None)
      else if !a.segment then
        if !Addressed(a.target, f.data) then (a, None)
        else if Expedited(c) then (Finish(a, PollOk), None)
        else (a.(segment := true, toggle := false), Some(SegmentRequest(channels, a.target, false)))
      else if Toggle(c) != a.toggle then (Finish(a, PollFailed(WrongToggle)), None)
      else if LastSegment(c) then (Finish(a, PollOk), None)
      else (a.(toggle := !a.toggle), Some(SegmentRequest(channels, a.target, !a.toggle)))
  }

  // ---------------------------------------------------------------------
  // The code
  // ---------------------------------------------------------------------

  class ActivePoll {
    const target: SdoObject
    const serverCobID: nat
    var segment: bool
    var toggle: bool
    var result: Option<PollResult>

    constructor (target: SdoObject, serverCobID: nat)
      ensures Contents() == Poll(target, serverCobID, false, false, None)
    {
      this.target := target;
      this.serverCobID := serverCobID;
      this.segment := false;
      this.toggle := false;
      this.result := None;
    }

    function Contents(): Poll
      reads this
    {
      Poll(target, serverCobID, segment, toggle, result)
    }

    /** A send that gives up when the slot is full. */
    method Post(r: PollResult)
      modifies this
      ensures Contents() == Finish(old(Contents()), r)
    {
      if result.None? {
        result := Some(r);
      }
    }
  }

  /** What ends the wait of an attempt. */
  datatype Wake = ResultReady | TimerFired | ContextDone | SendError

  class SdoPoller {
    const channels: NodeChannels
    var active: ActivePoll?

    constructor (configured: seq<SdoChannel>)
      ensures channels == ChannelsByNode(configured) && active == null
    {
      var byNode: NodeChannels := map[];
      for i := 0 to |configured|
        invariant byNode == ChannelsByNode(configured[..i])
      {
        assert configured[..i + 1][..i] == configured[..i];
        byNode := byNode[configured[i].nodeID := configured[i]];
      }
      assert configured[..|configured|] == configured;
      channels := byNode;
      active := null;
    }

    function State(): Option<Poll>
      reads this, active
    {
      if active == null then None else Some(active.Contents())
    }

    /** The start of `poll`: the attempt becomes active and its request is ready to be sent. */
    method Begin(o: SdoObject) returns (request: Frame)
      modifies this
      ensures State() == Some(NewPoll(channels, o)) && fresh(active)
      ensures request == RequestFrame(channels, o)
    {
      var channel := ChannelOf(channels, o.nodeID);
      request := Frame(channel.client, false, [0x40, o.index % 256, o.index / 256, o.subIndex, 0, 0, 0, 0]);
      active := new ActivePoll(o, channel.server);
    }

    /** The end of `poll`: whatever ends the wait, no attempt stays active. */
    method End(wake: Wake) returns (result: PollResult)
      requires active != null && (wake == ResultReady ==> active.result.Some?)
      modifies this
      ensures active == null
      ensures result == match wake
        case ResultReady => old(active.result).value
        case TimerFired => PollFailed(TimedOut)
        case ContextDone => PollFailed(Cancelled)
        case SendError => PollFailed(SendFailed)
    {
      match wake {
        case ResultReady => result := active.result.value;
        case TimerFired => result := PollFailed(TimedOut);
        case ContextDone => result := PollFailed(Cancelled);
        case SendError => result := PollFailed(SendFailed);
      }
      active := null;
    }

    method HandleFrame(f: Frame) returns (request: Option<Frame>)
      modifies active
      ensures active == old(active)
      ensures old(State()).None? ==> request == None
      ensures old(State()).Some? ==>
        && State() == Some(Deliver(channels, old(State()).value, f).0)
        && request == Deliver(channels, old(State()).value, f).1
    {
      if active == null || f.extended || f.id != active.serverCobID {
        return None;
      }
      var data := f.data;
      if |data| == 0 {
        return None;
      }
      if data[0] == 0x80 {
        if |data| < 4 {
          return None;
        }
        if Index(data) != active.target.index || data[3] != active.target.subIndex {
          return None;
        }
        active.Post(PollFailed(AbortedByServer));
        return None;
      }
      if !active.segment {
        if |data| < 4 || Index(data) != active.target.index || data[3] != active.target.subIndex {
          return None;
        }
        if Expedited(data[0]) {
          active.Post(PollOk);
          return None;
        }
        active.segment := true;
        active.toggle := false;
      } else {
        if Toggle(data[0]) != active.toggle {
          active.Post(PollFailed(WrongToggle));
          return None;
        }
        if LastSegment(data[0]) {
          active.Post(PollOk);
          return None;
        }
        active.toggle := !active.toggle;
      }
      var frame := Frame(0x600 + active.target.nodeID, false, [0x60 + BoolByte(active.toggle), 0, 0, 0, 0, 0, 0, 0]);
      if active.target.nodeID in channels {
        frame := frame.(id := channels[active.target.nodeID].client);
      }
      return Some(frame);
    }
  }
}
