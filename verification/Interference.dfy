/** What else happens on the bus does not interfere with a poll, nor a poll with it. */
module Interference {
  import opened Bytes
  import opened Bus
  import opened Config
  import opened SdoMessages
  import opened SdoObserver
  import opened SdoPoller
  import opened Sniffer
  import opened Routing
  import opened RawPoller
  import opened Receiver

  /** What else happens, one batch before each reply. */
  type Batches = seq<seq<Received>>

  function First(noise: Batches): seq<Received> { if noise == [] then [] else noise[0] }
  function Others(noise: Batches): Batches { if noise == [] then [] else noise[1..] }

  /** What `n` batches of foreign traffic alone make of the station. */
  ghost function Background(w: Wiring, s: Station, noise: Batches, n: nat): (r: Station)
    requires s.raw.Valid()
    ensures r.raw.Valid()
    decreases n
  {
    if n == 0 then s else Background(w, Traffic(w, s, First(noise)), Others(noise), n - 1)
  }

  lemma BackgroundStep(w: Wiring, s: Station, noise: Batches, n: nat)
    requires s.raw.Valid()
    ensures Background(w, s, noise, n + 1) == Background(w, Traffic(w, s, First(noise)), Others(noise), n)
  {
  }

  // ---------------------------------------------------------------------
  // Traffic on other channels does not interfere
  // ---------------------------------------------------------------------

  /** The sniffer with another transfer on channel `key`. */
  function Holding(st: SnifferState, key: ChannelKey, ch: Channel): SnifferState {
    st.(observer := Store(st.observer, key, ch))
  }

  /** The station `base`, but in the middle of attempt `a` with transfer `ch` and `sent` transmitted. */
  function Polling(base: Station, key: ChannelKey, ch: Channel, a: Poll, sent: seq<Frame>): Station {
    base.(sniffer := Holding(base.sniffer, key, ch), poll := Some(a), wire := base.wire + sent)
  }

  /** Not from the polled server, and not on the polled channel. */
  predicate Foreign(w: Wiring, key: ChannelKey, server: nat, f: Frame) {
    && (f.extended || f.id != server)
    && var r := RouteOf(w.cfg, f); r.Sdo? ==> r.key != key
  }

  predicate AllForeign(w: Wiring, key: ChannelKey, server: nat, received: seq<Received>) {
    forall r :: r in received ==>
      && (r.Got? ==> Foreign(w, key, server, r.frame))
      && (r.RawStarted? ==> r.transaction.response.cobID != server)
  }

  predicate Apart(w: Wiring, key: ChannelKey, server: nat, noise: Batches) {
    forall received :: received in noise ==> AllForeign(w, key, server, received)
  }

  /** The raw poller does not wait for a reply on `server`. */
  predicate RawElsewhere(raw: Shared, server: nat) {
    raw.Valid() &&
    (raw.active.Some? ==> raw.attempts[raw.active.value].transaction.response.cobID != server)
  }

  lemma StoreCommutes(m: Channels, j: ChannelKey, a: Channel, k: ChannelKey, b: Channel)
    requires j != k
    ensures Store(Store(m, j, a), k, b) == Store(Store(m, k, b), j, a)
  {
  }

  lemma EmissionIgnoresObserver(cfg: SnifferConfig, st: SnifferState, e: Event, m: Channels)
    ensures EmitEvent(cfg, st.(observer := m), e) == EmitEvent(cfg, st, e).(observer := m)
    ensures EmitEvent(cfg, st, e).observer == st.observer
  {
  }

  lemma ForeignSdo(cfg: SnifferConfig, st: SnifferState, key: ChannelKey, ch: Channel, r: Route, data: seq<Byte>)
    requires r.Sdo? && r.key != key
    ensures SdoStep(cfg, Holding(st, key, ch), r, data) == Holding(SdoStep(cfg, st, r, data), key, ch)
  {
    var (ch', out) := Step(Lookup(st.observer, r.key), r.nodeID, Parse(r.direction, data));
    StoreCommutes(st.observer, key, ch, r.key, ch');
    if out.Emitted? {
      var st' := st.(observer := Store(st.observer, r.key, ch'));
      EmissionIgnoresObserver(cfg, st', out.event, Store(st'.observer, key, ch));
      EmissionIgnoresObserver(cfg, st', out.event, st'.observer);
    }
  }

  lemma ForeignRaw(cfg: SnifferConfig, st: SnifferState, key: ChannelKey, ch: Channel, id: nat, data: seq<Byte>)
    ensures RawStep(cfg, Holding(st, key, ch), id, data) == Holding(RawStep(cfg, st, id, data), key, ch)
  {
  }

  lemma ForeignNode(cfg: SnifferConfig, st: SnifferState, key: ChannelKey, ch: Channel, nodeID: Byte, data: seq<Byte>)
    ensures HeartbeatStep(cfg, Holding(st, key, ch), nodeID, data) == Holding(HeartbeatStep(cfg, st, nodeID, data), key, ch)
    ensures EmergencyStep(cfg, Holding(st, key, ch), nodeID, data) == Holding(EmergencyStep(cfg, st, nodeID, data), key, ch)
  {
  }

  lemma ForeignSniff(cfg: SnifferConfig, st: SnifferState, key: ChannelKey, ch: Channel, f: Frame)
    requires var r := RouteOf(cfg, f); r.Sdo? ==> r.key != key
    ensures SniffStep(cfg, Holding(st, key, ch), f) == Holding(SniffStep(cfg, st, f), key, ch)
  {
    var r := RouteOf(cfg, f);
    match r {
      case Captured => ForeignRaw(cfg, st, key, ch, f.id, f.data);
      case Sdo(_, _, _) => ForeignSdo(cfg, st, key, ch, r, f.data);
      case Heartbeat(nodeID) => ForeignNode(cfg, st, key, ch, nodeID, f.data);
      case Emergency(nodeID) => ForeignNode(cfg, st, key, ch, nodeID, f.data);
      case Mapped(_) | Unclassified =>
    }
  }

  lemma ForeignDispatch(
      w: Wiring, base: Station, key: ChannelKey, ch: Channel, a: Poll, sent: seq<Frame>, f: Frame, out: bool)
    requires base.poll.None? && RawElsewhere(base.raw, a.serverCobID) && Foreign(w, key, a.serverCobID, f)
    ensures var base' := DispatchStep(w, base, f, out).0;
      && base'.poll.None? && RawElsewhere(base'.raw, a.serverCobID)
      && DispatchStep(w, Polling(base, key, ch, a, sent), f, out).0 == Polling(base', key, ch, a, sent)
  {
    ForeignSniff(w.cfg, base.sniffer, key, ch, f);
  }

  /** Foreign traffic during an attempt has the effect it would have had without the attempt. */
  lemma {:induction false} ForeignTraffic(
      w: Wiring, base: Station, key: ChannelKey, ch: Channel, a: Poll, sent: seq<Frame>, received: seq<Received>)
    requires base.poll.None? && RawElsewhere(base.raw, a.serverCobID) && AllForeign(w, key, a.serverCobID, received)
    ensures var base' := Traffic(w, base, received);
      && base'.poll.None? && RawElsewhere(base'.raw, a.serverCobID)
      && Traffic(w, Polling(base, key, ch, a, sent), received) == Polling(base', key, ch, a, sent)
    decreases |received|
  {
    if received != [] {
      var r := received[0];
      assert r in received;
      if r.Got? {
        ForeignDispatch(w, base, key, ch, a, sent, r.frame, r.sent);
      }
      ForeignTraffic(w, Happen(w, base, r), key, ch, a, sent, received[1..]);
    }
  }

  // ---------------------------------------------------------------------
  // A panic is final
  // ---------------------------------------------------------------------

  lemma {:induction false} HaltedStays(w: Wiring, s: Station, received: seq<Received>)
    requires s.raw.Valid() && s.sniffer.halted
    ensures Traffic(w, s, received) == s
    decreases |received|
  {
    if received != [] {
      HaltedStays(w, s, received[1..]);
    }
  }

  lemma {:induction false} HaltedBackground(w: Wiring, s: Station, noise: Batches, n: nat)
    requires s.raw.Valid() && s.sniffer.halted
    ensures Background(w, s, noise, n) == s
    decreases n
  {
    if n > 0 {
      HaltedStays(w, s, First(noise));
      HaltedBackground(w, s, Others(noise), n - 1);
    }
  }

  /** The process runs before, between and after `n` batches of foreign traffic. */
  ghost predicate Live(w: Wiring, s: Station, noise: Batches, n: nat)
    requires s.raw.Valid()
    decreases n
  {
    !s.sniffer.halted && (n > 0 ==> Live(w, Traffic(w, s, First(noise)), Others(noise), n - 1))
  }

  /** If it runs after them, it has run all along. */
  lemma {:induction false} LiveThroughout(w: Wiring, s: Station, noise: Batches, n: nat)
    requires s.raw.Valid() && !Background(w, s, noise, n).sniffer.halted
    ensures Live(w, s, noise, n)
    decreases n
  {
    if s.sniffer.halted {
      HaltedBackground(w, s, noise, n);
    } else if n > 0 {
      LiveThroughout(w, Traffic(w, s, First(noise)), Others(noise), n - 1);
    }
  }

  // ---------------------------------------------------------------------
  // What traffic leaves alone
  // ---------------------------------------------------------------------

  /** Without an attempt nothing is transmitted. */
  lemma {:induction false} TrafficKeepsWire(w: Wiring, s: Station, received: seq<Received>)
    requires s.raw.Valid() && s.poll.None?
    ensures Traffic(w, s, received).poll.None? && Traffic(w, s, received).wire == s.wire
    decreases |received|
  {
    if received != [] {
      TrafficKeepsWire(w, Happen(w, s, received[0]), received[1..]);
    }
  }

  lemma {:induction false} BackgroundKeepsWire(w: Wiring, s: Station, noise: Batches, n: nat)
    requires s.raw.Valid() && s.poll.None?
    ensures Background(w, s, noise, n).poll.None? && Background(w, s, noise, n).wire == s.wire
    decreases n
  {
    if n > 0 {
      TrafficKeepsWire(w, s, First(noise));
      BackgroundKeepsWire(w, Traffic(w, s, First(noise)), Others(noise), n - 1);
    }
  }

  /** No raw transaction begins that is answered on `server`. */
  predicate NoneStartedOn(received: seq<Received>, server: nat) {
    forall r :: r in received && r.RawStarted? ==> r.transaction.response.cobID != server
  }

  lemma {:induction false} TrafficKeepsElsewhere(w: Wiring, s: Station, received: seq<Received>, server: nat)
    requires RawElsewhere(s.raw, server) && NoneStartedOn(received, server)
    ensures RawElsewhere(Traffic(w, s, received).raw, server)
    decreases |received|
  {
    if received != [] {
      assert received[0] in received;
      TrafficKeepsElsewhere(w, Happen(w, s, received[0]), received[1..], server);
    }
  }

  lemma {:induction false} BackgroundKeepsElsewhere(w: Wiring, s: Station, noise: Batches, n: nat, server: nat)
    requires RawElsewhere(s.raw, server) && forall received :: received in noise ==> NoneStartedOn(received, server)
    ensures RawElsewhere(Background(w, s, noise, n).raw, server)
    decreases n
  {
    if n > 0 {
      if noise != [] {
        assert First(noise) in noise;
      }
      TrafficKeepsElsewhere(w, s, First(noise), server);
      BackgroundKeepsElsewhere(w, Traffic(w, s, First(noise)), Others(noise), n - 1, server);
    }
  }

  // ---------------------------------------------------------------------
  // Configurations that never panic
  // ---------------------------------------------------------------------

  /** The raw poller waits for a configured transaction, if for any. */
  predicate RawFrom(c: ReceiverConfig, raw: Shared) {
    raw.Valid() && (raw.active.Some? ==> raw.attempts[raw.active.value].transaction in c.raw.transactions)
  }

  /** The raw poller begins configured transactions only. */
  predicate Declared(c: ReceiverConfig, received: seq<Received>) {
    forall r :: r in received && r.RawStarted? ==> r.transaction in c.raw.transactions
  }

  ghost predicate Safe(c: ReceiverConfig, s: Station) {
    RawFrom(c, s.raw) && !s.sniffer.halted
  }

  lemma PollStaysSafe(c: ReceiverConfig, s: Station, f: Frame, sent: bool)
    requires ValidConfig(c) && OrdinaryConfig(c) && Safe(c, s)
    ensures Safe(c, PollStep(WiringOf(c), s, f, sent).0) && PollStep(WiringOf(c), s, f, sent).0.raw == s.raw
  {
    var w := WiringOf(c);
    OrdinaryConfigSniffer(c);
    if s.poll.Some? {
      var (_, request) := Deliver(w.channels, s.poll.value, f);
      if request.Some? {
        SniffNeverHalts(w.cfg, s.sniffer, request.value);
      }
    }
  }

  lemma OthersStaySafe(c: ReceiverConfig, s: Station, f: Frame)
    requires ValidConfig(c) && OrdinaryConfig(c) && Safe(c, s)
    ensures Safe(c, ClaimOrSniff(WiringOf(c), s, f))
  {
    OrdinaryConfigSniffer(c);
    SniffNeverHalts(WiringOf(c).cfg, s.sniffer, f);
    if s.raw.active.Some? {
      var t := s.raw.attempts[s.raw.active.value].transaction;
      assert ValidTransaction(t);
      ReachedExactly(t.response.fields, f.data);
    }
  }

  /** With ordinary fields only, no traffic ends the process. */
  lemma {:induction false} TrafficStaysSafe(c: ReceiverConfig, s: Station, received: seq<Received>)
    requires ValidConfig(c) && OrdinaryConfig(c) && Safe(c, s) && Declared(c, received)
    ensures Safe(c, Traffic(WiringOf(c), s, received))
    decreases |received|
  {
    if received != [] {
      var r := received[0];
      assert r in received;
      if r.Got? {
        PollStaysSafe(c, s, r.frame, r.sent);
        OthersStaySafe(c, PollStep(WiringOf(c), s, r.frame, r.sent).0, r.frame);
      }
      TrafficStaysSafe(c, Happen(WiringOf(c), s, r), received[1..]);
    }
  }

  lemma {:induction false} BackgroundStaysSafe(c: ReceiverConfig, s: Station, noise: Batches, n: nat)
    requires ValidConfig(c) && OrdinaryConfig(c) && Safe(c, s)
    requires forall received :: received in noise ==> Declared(c, received)
    ensures Safe(c, Background(WiringOf(c), s, noise, n))
    decreases n
  {
    if n > 0 {
      if noise != [] {
        assert First(noise) in noise;
      }
      TrafficStaysSafe(c, s, First(noise));
      BackgroundStaysSafe(c, Traffic(WiringOf(c), s, First(noise)), Others(noise), n - 1);
    }
  }
}
