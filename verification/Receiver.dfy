/** The order in which pollers and sniffer see each frame (receiver.go). */
module Receiver {
  import opened Bytes
  import opened Bus
  import opened Config
  import opened SdoPoller
  import opened Sniffer
  import opened Routing
  import opened RawPoller

  // ---------------------------------------------------------------------
  // Specification
  // ---------------------------------------------------------------------

  /** What the parts are built from. */
  datatype Wiring = Wiring(cfg: SnifferConfig, channels: NodeChannels)

  function WiringOf(c: ReceiverConfig): Wiring {
    Wiring(SnifferConfigOf(c), ChannelsByNode(c.sdo.sniff.channels))
  }

  /** The whole receiver; `wire` is what it has transmitted for the SDO poller. */
  datatype Station = Station(sniffer: SnifferState, poll: Option<Poll>, raw: Shared, wire: seq<Frame>)

  /** The sniffer sees the poller's own frame first; the transmission may fail. */
  ghost function SendPoll(w: Wiring, s: Station, f: Frame, sent: bool): Station {
    var sniffer := SniffStep(w.cfg, s.sniffer, f);
    s.(sniffer := sniffer, wire := if sent && !sniffer.halted then s.wire + [f] else s.wire)
  }

  ghost function BeginStep(w: Wiring, s: Station, o: SdoObject, sent: bool): Station {
    if s.sniffer.halted then s
    else SendPoll(w, s.(poll := Some(NewPoll(w.channels, o))), RequestFrame(w.channels, o), sent)
  }

  /** The end of `poll`. */
  function EndStep(s: Station): Station {
    s.(poll := None)
  }

  /** The SDO poller takes a frame; its request, if any, goes out at once. */
  ghost function PollStep(w: Wiring, s: Station, f: Frame, sent: bool): (Station, Option<Frame>) {
    match s.poll
    case None => (s, None)
    case Some(a) =>
      var (a', request) := Deliver(w.channels, a, f);
      var s' := s.(poll := Some(a'));
      (if request.Some? then SendPoll(w, s', request.value, sent) else s', request)
  }

  /** A reply is emitted through its transaction's fields and then reported; a panic prevents that. */
  ghost function ReplyStep(w: Wiring, s: Station, raw: Shared, id: nat, f: Frame): Station
    requires id < |raw.attempts|
  {
    var t := raw.attempts[id].transaction;
    var sniffer := EmitFields(w.cfg, s.sniffer, t.response.fields, f.data, TransactionSource(f.id, t.name));
    s.(sniffer := sniffer, raw := if sniffer.halted then raw else Post(Emit(raw, id, f), id))
  }

  /** The raw poller's replies are kept from the sniffer. */
  ghost function ClaimOrSniff(w: Wiring, s: Station, f: Frame): Station
    requires s.raw.Valid()
  {
    var (raw, id) := Claim(s.raw, f);
    if id.Some? then ReplyStep(w, s, raw, id.value, f)
    else s.(sniffer := SniffStep(w.cfg, s.sniffer, f))
  }

  /**
   * One received frame: SDO poller, raw poller, and the sniffer unless the raw
   * poller claimed it. A panic ends the process: nothing happens after it.
   */
  ghost function DispatchStep(w: Wiring, s: Station, f: Frame, sent: bool): (Station, Option<Frame>)
    requires s.raw.Valid()
  {
    if s.sniffer.halted then (s, None)
    else
      var (s1, request) := PollStep(w, s, f, sent);
      if s1.sniffer.halted then (s1, None) else (ClaimOrSniff(w, s1, f), request)
  }

  /**
   * One turn of the dispatch loop - a frame, and whether what it makes the
   * poller send gets out, or a failed receive - or a step the raw poller takes
   * between two turns: an attempt begins, or the newest one ends.
   */
  datatype Received =
    | Got(frame: Frame, sent: bool) | Missed
    | RawStarted(transaction: RawTransaction) | RawEnded(ok: bool)

  function QuitRaw(raw: Shared, ok: bool): Shared {
    var id := |raw.attempts| - 1;
    if id < 0 || (ok && !raw.attempts[id].slot) then raw
    else Leave(if ok then Take(raw, id) else raw, id, ok)
  }

  ghost function Happen(w: Wiring, s: Station, r: Received): (s': Station)
    requires s.raw.Valid()
    ensures s'.raw.Valid()
  {
    match r
    case Got(f, sent) => DispatchStep(w, s, f, sent).0
    case Missed => s
    case RawStarted(t) => if s.sniffer.halted then s else s.(raw := Arm(s.raw, t))
    case RawEnded(ok) => if s.sniffer.halted then s else s.(raw := QuitRaw(s.raw, ok))
  }

  ghost function Traffic(w: Wiring, s: Station, received: seq<Received>): (s': Station)
    requires s.raw.Valid()
    ensures s'.raw.Valid()
    decreases |received|
  {
    if received == [] then s else Traffic(w, Happen(w, s, received[0]), received[1..])
  }

  // ---------------------------------------------------------------------
  // The code
  // ---------------------------------------------------------------------

  class Receiver {
    const cfg: ReceiverConfig
    const poller: SdoPoller
    const rawPoller: RawPoller
    const sniffer: Sniffer
    var wire: seq<Frame>

    ghost predicate Valid()
      reads this, rawPoller, sniffer, sniffer.observer
    {
      && rawPoller.Valid() && sniffer.Valid()
      && Wiring(sniffer.cfg, poller.channels) == WiringOf(cfg)
    }

    ghost function State(): Station
      reads this, poller, poller.active, rawPoller, rawPoller.issued
      reads sniffer, sniffer.observer, sniffer.observer.transfers.Values
    {
      Station(sniffer.State(), poller.State(), rawPoller.State(), wire)
    }

    constructor (cfg: ReceiverConfig)
      requires ValidRawSniff(cfg.raw.sniff)
      ensures Valid() && this.cfg == cfg
      ensures State() == Station(Fresh, None, Shared(None, []), [])
    {
      ValidatedReadable(cfg);
      var sniffing := BuildSnifferConfig(cfg);
      var poller := new SdoPoller(cfg.sdo.sniff.channels);
      var rawPoller := new RawPoller();
      var sniffer := new Sniffer(sniffing);
      this.cfg := cfg;
      this.poller := poller;
      this.rawPoller := rawPoller;
      this.sniffer := sniffer;
      this.wire := [];
    }

    method Sniff(f: Frame)
      requires Valid()
      modifies sniffer, sniffer.observer, sniffer.observer.transfers.Values
      ensures Valid() && fresh(sniffer.observer.transfers.Values - old(sniffer.observer.transfers.Values))
      ensures State() == old(State()).(sniffer := SniffStep(WiringOf(cfg).cfg, old(State()).sniffer, f))
    {
      sniffer.HandleFrame(f);
    }

    method SendPollFrame(f: Frame, sent: bool)
      requires Valid()
      modifies this, sniffer, sniffer.observer, sniffer.observer.transfers.Values
      ensures Valid() && fresh(sniffer.observer.transfers.Values - old(sniffer.observer.transfers.Values))
      ensures State() == SendPoll(WiringOf(cfg), old(State()), f, sent)
    {
      Sniff(f);
      if sent && !sniffer.halted {
        wire := wire + [f];
      }
    }

    method Activate(o: SdoObject) returns (request: Frame)
      requires Valid()
      modifies poller
      ensures Valid() && State() == old(State()).(poll := Some(NewPoll(WiringOf(cfg).channels, o)))
      ensures request == RequestFrame(WiringOf(cfg).channels, o)
    {
      request := poller.Begin(o);
    }

    /** The start of `poll`, up to its wait. */
    method BeginPoll(o: SdoObject, sent: bool)
      requires Valid()
      modifies this, poller, sniffer, sniffer.observer, sniffer.observer.transfers.Values
      ensures Valid() && fresh(sniffer.observer.transfers.Values - old(sniffer.observer.transfers.Values))
      ensures State() == BeginStep(WiringOf(cfg), old(State()), o, sent)
    {
      if sniffer.halted {
        return;
      }
      var request := Activate(o);
      SendPollFrame(request, sent);
    }

    /** The end of `poll`, whatever ends its wait. */
    method EndPoll(wake: Wake) returns (result: PollResult)
      requires Valid() && poller.active != null && (wake == ResultReady ==> poller.active.result.Some?)
      modifies poller
      ensures Valid() && State() == EndStep(old(State()))
      ensures wake == ResultReady ==> Some(result) == old(State()).poll.value.result
    {
      result := poller.End(wake);
    }

    /** The poller's turn: its request goes out before the frame reaches the sniffer. */
    method DispatchToPoller(f: Frame, sent: bool)
      requires Valid()
      modifies this, poller.active, sniffer, sniffer.observer, sniffer.observer.transfers.Values
      ensures Valid() && fresh(sniffer.observer.transfers.Values - old(sniffer.observer.transfers.Values))
      ensures State() == PollStep(WiringOf(cfg), old(State()), f, sent).0
    {
      var request := poller.HandleFrame(f);
      if request.Some? {
        SendPollFrame(request.value, sent);
      }
    }

    /** The raw poller's `pollOnce` makes an attempt active; its request does not pass the sniffer. */
    method BeginRaw(t: RawTransaction) returns (a: ActiveRaw)
      requires Valid() && Readable(t.response.matches) && !sniffer.halted
      modifies rawPoller
      ensures Valid() && fresh(a) && State() == Happen(WiringOf(cfg), old(State()), RawStarted(t))
    {
      a := rawPoller.Begin(t);
    }

    method ClaimReply(f: Frame) returns (claimed: ActiveRaw?)
      requires Valid()
      modifies rawPoller, rawPoller.active
      ensures Valid() && (rawPoller.active == old(rawPoller.active) || rawPoller.active == null)
      ensures claimed != null ==> claimed in rawPoller.issued && claimed == old(rawPoller.active)
      ensures rawPoller.issued == old(rawPoller.issued)
      ensures var (raw, id) := Claim(old(State()).raw, f);
        && id == (if claimed == null then None else Some(IndexOf(rawPoller.issued, claimed)))
        && State() == old(State()).(raw := raw)
    {
      claimed := rawPoller.ClaimFrame(f);
    }

    method EmitReply(a: ActiveRaw, f: Frame)
      requires Valid() && a in rawPoller.issued && !sniffer.halted
      modifies a, sniffer
      ensures Valid()
      ensures State() == ReplyStep(WiringOf(cfg), old(State()), old(State()).raw, IndexOf(rawPoller.issued, a), f)
    {
      ghost var raw := State().raw;
      assert raw.attempts[IndexOf(rawPoller.issued, a)].transaction == a.transaction;
      sniffer.EmitThrough(a.transaction.response.fields, f.data, TransactionSource(f.id, a.transaction.name));
      assert State().raw == raw;
      if !sniffer.halted {
        rawPoller.EmitAndPost(a, f);
      }
    }

    /** The raw poller's turn, then the sniffer's. */
    method DispatchToOthers(f: Frame)
      requires Valid() && !sniffer.halted
      modifies rawPoller, rawPoller.active, sniffer, sniffer.observer, sniffer.observer.transfers.Values
      ensures Valid() && (rawPoller.active == old(rawPoller.active) || rawPoller.active == null)
      ensures fresh(sniffer.observer.transfers.Values - old(sniffer.observer.transfers.Values))
      ensures State() == ClaimOrSniff(WiringOf(cfg), old(State()), f)
    {
      var claimed := ClaimReply(f);
      if claimed != null {
        EmitReply(claimed, f);
      } else {
        Sniff(f);
      }
    }

    /** The body of the dispatch loop. */
    method Dispatch(f: Frame, sent: bool)
      requires Valid()
      modifies this, poller.active, rawPoller, rawPoller.active
      modifies sniffer, sniffer.observer, sniffer.observer.transfers.Values
      ensures Valid() && (rawPoller.active == old(rawPoller.active) || rawPoller.active == null)
      ensures fresh(sniffer.observer.transfers.Values - old(sniffer.observer.transfers.Values))
      ensures State() == DispatchStep(WiringOf(cfg), old(State()), f, sent).0
    {
      if sniffer.halted {
        return;
      }
      DispatchToPoller(f, sent);
      if sniffer.halted {
        return;
      }
      DispatchToOthers(f);
    }

    /** Runs until the connection is closed or the receiver stopped, or until the raw poller takes a step of its own. */
    method DispatchLoop(received: seq<Received>)
      requires Valid() && forall r :: r in received ==> r.Got? || r.Missed?
      modifies this, poller.active, rawPoller, rawPoller.active
      modifies sniffer, sniffer.observer, sniffer.observer.transfers.Values
      ensures Valid() && State() == Traffic(WiringOf(cfg), old(State()), received)
    {
      for i := 0 to |received|
        invariant Valid() && poller.active == old(poller.active)
        invariant rawPoller.active == old(rawPoller.active) || rawPoller.active == null
        invariant fresh(sniffer.observer.transfers.Values - old(sniffer.observer.transfers.Values))
        invariant Traffic(WiringOf(cfg), State(), received[i..]) == Traffic(WiringOf(cfg), old(State()), received)
      {
        assert received[i..][1..] == received[i + 1..];
        assert received[i] in received;
        if received[i].Got? {
          Dispatch(received[i].frame, received[i].sent);
        }
      }
    }
  }
}
