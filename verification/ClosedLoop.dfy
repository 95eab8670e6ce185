/** Poller, observer and a reference server in one loop, on a busy bus. */
module ClosedLoop {
  import opened Bytes
  import opened Bus
  import opened Config
  import opened SdoMessages
  import opened SdoObserver
  import opened SdoEncoding
  import opened SdoPoller
  import opened Sniffer
  import opened Routing
  import opened RawPoller
  import opened Receiver
  import opened ReferenceServer
  import opened Interference
  import Codec
  import LockStep

  // ---------------------------------------------------------------------
  // The loop
  // ---------------------------------------------------------------------

  /** A request provoked by a reply leaves less work. */
  lemma LessWork(channels: NodeChannels, a: Poll, v: Server, request: seq<Byte>)
    requires v.Valid()
    ensures var (v', reply) := Serve(v, request);
      reply.Some? ==>
        var next := Deliver(channels, a, Frame(v.server, false, reply.value)).1;
        next.Some? ==> Work(v', next.value.data) < Work(v, request)
  {
  }

  /**
   * An exchange up to the reply that makes the poller ask for nothing more:
   * the poller has taken that reply, `last`, and the sniffer has not.
   */
  datatype Suspended = Suspended(station: Station, server: Server, last: Option<Frame>)

  /**
   * A request reaches the server; its reply comes back after whatever else
   * happened, one batch of `noise` for each reply; and so on.
   */
  ghost function Loop(w: Wiring, s: Station, v: Server, request: Frame, noise: Batches): (r: Suspended)
    requires s.raw.Valid() && v.Valid()
    ensures r.station.raw.Valid() && (r.last.Some? ==> !r.station.sniffer.halted)
    decreases Work(v, request.data)
  {
    var (v', reply) := Serve(v, request.data);
    if request.id != v.client || reply.None? then Suspended(s, v, None)
    else
      var s1 := Traffic(w, s, First(noise));
      var f := Frame(v.server, false, reply.value);
      if s1.sniffer.halted then Suspended(s1, v', None)
      else
        var (s2, next) := PollStep(w, s1, f, true);
        if s2.sniffer.halted then Suspended(s2, v', None)
        else if next.None? then Suspended(s2, v', Some(f))
        else
          LessWork(w.channels, s1.poll.value, v, request.data);
          Loop(w, ClaimOrSniff(w, s2, f), v', next.value, Others(noise))
  }

  /** The exchange of a poll that has begun. */
  ghost function ExchangeFrom(w: Wiring, begun: Station, o: SdoObject, v: Server, noise: Batches): (r: Suspended)
    requires begun.raw.Valid() && v.Valid()
    ensures r.station.raw.Valid() && (r.last.Some? ==> !r.station.sniffer.halted)
  {
    if begun.sniffer.halted then Suspended(begun, v, None) else Loop(w, begun, v, RequestFrame(w.channels, o), noise)
  }

  /** The sniffer takes the last reply. */
  ghost function Resume(w: Wiring, x: Suspended): (s: Station)
    requires x.station.raw.Valid()
    ensures s.raw.Valid()
  {
    if x.last.Some? then ClaimOrSniff(w, x.station, x.last.value) else x.station
  }

  /** A whole poll of `o` after which the sniffer gets its turn before the poller goes on. */
  ghost function Exchange(w: Wiring, s: Station, o: SdoObject, v: Server, noise: Batches): (r: (Station, Server))
    requires s.raw.Valid() && v.Valid()
    ensures r.0.raw.Valid()
  {
    var x := ExchangeFrom(w, BeginStep(w, s, o, true), o, v, noise);
    (Resume(w, x), x.server)
  }

  // ---------------------------------------------------------------------
  // One reply
  // ---------------------------------------------------------------------

  /** The server is the polled one: COB-IDs, routes and dictionary entry. */
  ghost predicate Connected(w: Wiring, o: SdoObject, key: ChannelKey, v: Server) {
    && v.Valid() && v.address == Address(o.index, o.subIndex)
    && ChannelOf(w.channels, o.nodeID).client == v.client && ChannelOf(w.channels, o.nodeID).server == v.server
    && RouteOfID(w.cfg, v.client) == Sdo(key, o.nodeID, ClientToServer)
    && RouteOfID(w.cfg, v.server) == Sdo(key, o.nodeID, ServerToClient)
    && var found := FirstObject(w.cfg.objects, KeyOf(o)); found.Some? && found.value.fields == o.fields
  }

  /** The sniffer after outcome `out` on a channel of `st`. */
  ghost function Reported(cfg: SnifferConfig, st: SnifferState, out: Outcome): SnifferState {
    if out.Emitted? then EmitEvent(cfg, st, out.event) else st
  }

  lemma SniffOnChannel(cfg: SnifferConfig, st: SnifferState, key: ChannelKey, nodeID: Byte, d: Direction, f: Frame)
    requires !f.extended && RouteOfID(cfg, f.id) == Sdo(key, nodeID, d) && !st.halted
    ensures var (ch', out) := Step(Lookup(st.observer, key), nodeID, Parse(d, f.data));
      SniffStep(cfg, st, f) == Reported(cfg, Holding(st, key, ch'), out)
  {
    assert RouteOf(cfg, f) == RouteOfID(cfg, f.id);
  }

  lemma HoldingAgain(st: SnifferState, key: ChannelKey, ch: Channel, ch': Channel)
    ensures Holding(Holding(st, key, ch), key, ch') == Holding(st, key, ch')
    ensures Lookup(Holding(st, key, ch).observer, key) == ch
    ensures Holding(st, key, Lookup(st.observer, key)) == st
  {
    StoreTwice(st.observer, key, ch, ch');
    StoreUnchanged(st.observer, key);
  }

  /** The poller's own segment requests leave the sniffer as it is. */
  lemma RequestSniffed(w: Wiring, o: SdoObject, key: ChannelKey, v: Server, st: SnifferState, toggle: bool)
    requires Connected(w, o, key, v) && !st.halted
    ensures SniffStep(w.cfg, st, SegmentRequest(w.channels, o, toggle)) == st
  {
    HoldingAgain(st, key, None, None);
    SniffOnChannel(w.cfg, st, key, o.nodeID, ClientToServer, SegmentRequest(w.channels, o, toggle));
  }

  function AsSeq(request: Option<Frame>): seq<Frame> {
    if request.Some? then [request.value] else []
  }

  /** The poller's turn on a reply; `out` says that the request it provokes, if any, gets out. */
  lemma ReplyPolled(
      w: Wiring, o: SdoObject, key: ChannelKey, v: Server, base: Station, ch: Channel, a: Poll, sent: seq<Frame>, f: Frame, out: bool)
    requires Connected(w, o, key, v) && a.target == o && !base.sniffer.halted
    ensures var (a', request) := Deliver(w.channels, a, f);
      PollStep(w, Polling(base, key, ch, a, sent), f, out)
      == (Polling(base, key, ch, a', sent + if out then AsSeq(request) else []), request)
  {
    var (a', request) := Deliver(w.channels, a, f);
    assert sent + [] == sent;
    if request.Some? {
      RequestSniffed(w, o, key, v, Holding(base.sniffer, key, ch), a'.toggle);
      Associative(base.wire, sent, [request.value]);
    }
  }

  /** The sniffer's turn on a frame from the server, whatever the station holds on the channel. */
  lemma ReplySniffed(w: Wiring, o: SdoObject, key: ChannelKey, v: Server, s: Station, f: Frame)
    requires Connected(w, o, key, v) && RawElsewhere(s.raw, v.server) && !s.sniffer.halted
    requires f.id == v.server && !f.extended
    ensures var (ch', out) := Step(Lookup(s.sniffer.observer, key), o.nodeID, Parse(ServerToClient, f.data));
      ClaimOrSniff(w, s, f) == s.(sniffer := Reported(w.cfg, Holding(s.sniffer, key, ch'), out))
  {
    SniffOnChannel(w.cfg, s.sniffer, key, o.nodeID, ServerToClient, f);
  }

  /** ... in particular during an attempt. */
  lemma ReplySniffedPolling(
      w: Wiring, o: SdoObject, key: ChannelKey, v: Server, base: Station, ch: Channel, a: Poll, sent: seq<Frame>, f: Frame)
    requires Connected(w, o, key, v) && RawElsewhere(base.raw, v.server) && !base.sniffer.halted
    requires f.id == v.server && !f.extended
    ensures var (ch', out) := Step(ch, o.nodeID, Parse(ServerToClient, f.data));
      var after := Polling(base, key, ch', a, sent);
      ClaimOrSniff(w, Polling(base, key, ch, a, sent), f) == after.(sniffer := Reported(w.cfg, after.sniffer, out))
  {
    var ch' := Step(ch, o.nodeID, Parse(ServerToClient, f.data)).0;
    HoldingAgain(base.sniffer, key, ch, ch');
    ReplySniffed(w, o, key, v, Polling(base, key, ch, a, sent), f);
  }

  /**
   * A whole turn of the dispatch loop on a frame from the polled server: the
   * attempt takes it, the request it provokes goes out, the observer advances by
   * one step, and what it reports is emitted.
   */
  lemma ReplyDispatched(
      w: Wiring, o: SdoObject, key: ChannelKey, v: Server, base: Station, ch: Channel, a: Poll, sent: seq<Frame>, f: Frame, out: bool)
    requires Connected(w, o, key, v) && a.target == o && RawElsewhere(base.raw, v.server) && !base.sniffer.halted
    requires f.id == v.server && !f.extended
    ensures var (a', request) := Deliver(w.channels, a, f);
      var (ch', outcome) := Step(ch, o.nodeID, Parse(ServerToClient, f.data));
      var after := Polling(base, key, ch', a', sent + if out then AsSeq(request) else []);
      Happen(w, Polling(base, key, ch, a, sent), Got(f, out)) == after.(sniffer := Reported(w.cfg, after.sniffer, outcome))
  {
    var (a', request) := Deliver(w.channels, a, f);
    ReplyPolled(w, o, key, v, base, ch, a, sent, f, out);
    ReplySniffedPolling(w, o, key, v, base, ch, a', sent + if out then AsSeq(request) else [], f);
  }

  // ---------------------------------------------------------------------
  // The exchange is a run of the dispatch loop
  // ---------------------------------------------------------------------

  lemma {:induction false} TrafficConcat(w: Wiring, s: Station, a: seq<Received>, b: seq<Received>)
    requires s.raw.Valid()
    ensures Traffic(w, s, a + b) == Traffic(w, Traffic(w, s, a), b)
    decreases |a|
  {
    if a == [] {
      assert a + b == b;
    } else {
      assert (a + b)[1..] == a[1..] + b;
      TrafficConcat(w, Happen(w, s, a[0]), a[1..], b);
    }
  }

  /** A turn transmits at most one frame: the request that the reply has provoked. */
  lemma TurnTransmits(w: Wiring, s: Station, f: Frame)
    requires s.raw.Valid()
    ensures var s' := Happen(w, s, Got(f, true));
      s'.wire == s.wire ||
      (s.poll.Some? && var request := Deliver(w.channels, s.poll.value, f).1;
       request.Some? && s'.wire == s.wire + [request.value])
  {
  }

  /** What happens at the receiver while the server answers each frame that reaches the wire. */
  ghost function Script(w: Wiring, s: Station, v: Server, request: Frame, noise: Batches): seq<Received>
    requires s.raw.Valid() && v.Valid()
    decreases Work(v, request.data)
  {
    var (v', reply) := Serve(v, request.data);
    if request.id != v.client || reply.None? then []
    else
      var s1 := Traffic(w, s, First(noise));
      var f := Frame(v.server, false, reply.value);
      var s2 := Happen(w, s1, Got(f, true));
      TurnTransmits(w, s1, f);
      First(noise) + [Got(f, true)] +
      if |s2.wire| == |s1.wire| then []
      else
        LessWork(w.channels, s1.poll.value, v, request.data);
        Script(w, s2, v', s2.wire[|s1.wire|], Others(noise))
  }

  lemma TurnSplits(w: Wiring, s: Station, f: Frame)
    requires s.raw.Valid() && !s.sniffer.halted
    ensures var (s2, next) := PollStep(w, s, f, true);
      var s' := Happen(w, s, Got(f, true));
      && s' == (if s2.sniffer.halted then s2 else ClaimOrSniff(w, s2, f))
      && (|s'.wire| == |s.wire| <==> s2.sniffer.halted || next.None?)
      && (|s'.wire| != |s.wire| ==> s'.wire == s.wire + [next.value])
  {
  }

  /** Running the dispatch loop over it is the exchange with the sniffer's last turn taken. */
  lemma {:induction false} LoopIsTraffic(w: Wiring, s: Station, v: Server, request: Frame, noise: Batches)
    requires s.raw.Valid() && v.Valid()
    ensures Traffic(w, s, Script(w, s, v, request, noise)) == Resume(w, Loop(w, s, v, request, noise))
    decreases Work(v, request.data)
  {
    var (v', reply) := Serve(v, request.data);
    if request.id == v.client && reply.Some? {
      var s1, f := Traffic(w, s, First(noise)), Frame(v.server, false, reply.value);
      var s2 := Happen(w, s1, Got(f, true));
      TurnTransmits(w, s1, f);
      TurnTraffic(w, s, First(noise), Got(f, true));
      if s1.sniffer.halted {
        assert s2 == s1;
        assert Script(w, s, v, request, noise) == First(noise) + [Got(f, true)] + [];
        assert First(noise) + [Got(f, true)] + [] == First(noise) + [Got(f, true)];
      } else {
        TurnSplits(w, s1, f);
        if |s2.wire| == |s1.wire| {
          assert First(noise) + [Got(f, true)] + [] == First(noise) + [Got(f, true)];
        } else {
          LessWork(w.channels, s1.poll.value, v, request.data);
          var rest := Script(w, s2, v', s2.wire[|s1.wire|], Others(noise));
          TrafficConcat(w, s, First(noise) + [Got(f, true)], rest);
          LoopIsTraffic(w, s2, v', s2.wire[|s1.wire|], Others(noise));
        }
      }
    }
  }

  lemma TurnTraffic(w: Wiring, s: Station, received: seq<Received>, r: Received)
    requires s.raw.Valid()
    ensures Traffic(w, s, received + [r]) == Happen(w, Traffic(w, s, received), r)
  {
    TrafficConcat(w, s, received, [r]);
    var s1 := Traffic(w, s, received);
    assert [r][1..] == [];
    assert Traffic(w, s1, [r]) == Traffic(w, Happen(w, s1, r), []);
  }

  // ---------------------------------------------------------------------
  // The whole exchange
  // ---------------------------------------------------------------------

  function Requests(channels: NodeChannels, o: SdoObject, toggle: bool, n: nat): (r: seq<Frame>)
    ensures |r| == n
    decreases n
  {
    if n == 0 then [] else [SegmentRequest(channels, o, toggle)] + Requests(channels, o, !toggle, n - 1)
  }

  function SourceOf(o: SdoObject): Source {
    ObjectSource(o.nodeID, o.index, o.subIndex, ServerToClient, Upload)
  }

  /** The channel idle, the attempt successful, `sent` transmitted, and the object's fields decoded once, from `payload`. */
  ghost predicate Finished(w: Wiring, o: SdoObject, key: ChannelKey, quiet: Station, sent: seq<Frame>, payload: seq<Byte>, s: Station) {
    && s.poll.Some? && s.poll.value.target == o && s.poll.value.result == Some(PollOk)
    && s.wire == quiet.wire + sent
    && s.raw == quiet.raw
    && s.sniffer == EmitFields(w.cfg, Holding(quiet.sniffer, key, None), o.fields, payload, SourceOf(o))
  }

  /**
   * What the observer holds during an attempt: the attempt's upload, or
   * nothing, if the observer has lost it - then it does not hear the attempt.
   */
  function Record(heard: bool, t: Transfer): Channel {
    if heard then Some(t) else None
  }

  /** The upload of `o` after `data`. */
  function Gathered(o: SdoObject, toggle: bool, data: seq<Byte>): Transfer {
    NewUpload(o.nodeID, o.index, o.subIndex).(uploadInitiated := true, toggle := toggle, data := data)
  }

  function UploadOf(o: SdoObject): Transfer {
    NewUpload(o.nodeID, o.index, o.subIndex)
  }

  /** What the sniffer will make of the reply that completes an upload. */
  function CompletionOf(heard: bool, o: SdoObject, payload: seq<Byte>): (Channel, Outcome) {
    (None, if heard then Emitted(UploadOf(o).Complete(payload)) else Quiet)
  }

  /** The rest of the exchange once the request for the next segment is out. */
  ghost function SegmentPhase(
      w: Wiring, o: SdoObject, key: ChannelKey, heard: bool, v: Server, base: Station,
      sent: seq<Frame>, data: seq<Byte>, noise: Batches): Suspended
    requires v.Valid() && base.raw.Valid()
  {
    var s := Polling(base, key, Record(heard, Gathered(o, v.toggle, data)), Poll(o, v.server, true, v.toggle, None), sent);
    Loop(w, s, v, SegmentRequest(w.channels, o, v.toggle), noise)
  }

  /** What one segment does to poller and observer. */
  lemma SegmentHeard(
      channels: NodeChannels, o: SdoObject, heard: bool, server: nat, toggle: bool, data: seq<Byte>, last: bool, chunk: seq<Byte>)
    requires |chunk| <= SEGMENT_BYTES
    ensures var a := Poll(o, server, true, toggle, None);
      var reply := SegmentFrame(toggle, last, chunk);
      var all := data + Taken(last, chunk);
      && Deliver(channels, a, Frame(server, false, reply))
         == (if last then (a.(result := Some(PollOk)), None)
             else (a.(toggle := !toggle), Some(SegmentRequest(channels, o, !toggle))))
      && Parse(ServerToClient, reply) == Segment(ServerToClient, toggle, last, Taken(last, chunk))
      && Step(Record(heard, Gathered(o, toggle, data)), o.nodeID, Parse(ServerToClient, reply))
         == (if last then CompletionOf(heard, o, all) else (Record(heard, Gathered(o, !toggle, all)), Quiet))
  {
    ReadSegment(ServerToClient, toggle, last, chunk);
  }

  /** An upload event of the polled object is emitted through the object's own fields. */
  lemma UploadEmitted(w: Wiring, o: SdoObject, key: ChannelKey, v: Server, st: SnifferState, payload: seq<Byte>)
    requires Connected(w, o, key, v)
    ensures Reported(w.cfg, st, Emitted(NewUpload(o.nodeID, o.index, o.subIndex).Complete(payload)))
         == EmitFields(w.cfg, st, o.fields, payload, SourceOf(o))
  {
  }

  lemma SegmentServed(channels: NodeChannels, o: SdoObject, v: Server)
    requires v.Valid() && v.rest != []
    ensures Serve(v, SegmentRequest(channels, o, v.toggle).data)
         == (v.(rest := v.rest[1..], toggle := !v.toggle), Some(SegmentFrame(v.toggle, |v.rest| == 1, v.rest[0])))
  {
  }

  /** The server has segments left, and what else is on the bus neither interferes nor ends the process. */
  ghost predicate Underway(w: Wiring, o: SdoObject, key: ChannelKey, v: Server, base: Station, noise: Batches) {
    && Connected(w, o, key, v) && v.rest != [] && Apart(w, key, v.server, noise)
    && base.poll.None? && RawElsewhere(base.raw, v.server) && Live(w, base, noise, |v.rest|)
  }

  /** What a round leaves of this. */
  lemma UnderwayNext(w: Wiring, o: SdoObject, key: ChannelKey, v: Server, base: Station, noise: Batches)
    requires Underway(w, o, key, v, base, noise)
    ensures var base1 := Traffic(w, base, First(noise));
      && base1.poll.None? && RawElsewhere(base1.raw, v.server) && Live(w, base1, Others(noise), |v.rest| - 1)
      && !base1.sniffer.halted
      && (|v.rest| > 1 ==> Underway(w, o, key, v.(rest := v.rest[1..], toggle := !v.toggle), base1, Others(noise)))
  {
    var base1 := Traffic(w, base, First(noise));
    if noise != [] {
      assert First(noise) in noise;
    }
    ForeignTraffic(w, base, key, None, Poll(o, v.server, true, v.toggle, None), [], First(noise));
    assert Live(w, base1, Others(noise), |v.rest| - 1);
  }

  /** One round of the loop in the segment phase. */
  lemma SegmentRound(
      w: Wiring, o: SdoObject, key: ChannelKey, heard: bool, v: Server, base: Station,
      sent: seq<Frame>, data: seq<Byte>, noise: Batches)
    requires Underway(w, o, key, v, base, noise)
    ensures var base1 := Traffic(w, base, First(noise));
      var last, request := |v.rest| == 1, SegmentRequest(w.channels, o, !v.toggle);
      var v' := v.(rest := v.rest[1..], toggle := !v.toggle);
      SegmentPhase(w, o, key, heard, v, base, sent, data, noise)
      == if last then
           Suspended(
             Polling(base1, key, Record(heard, Gathered(o, v.toggle, data)),
                     Poll(o, v.server, true, v.toggle, Some(PollOk)), sent),
             v', Some(Frame(v.server, false, SegmentFrame(v.toggle, true, v.rest[0]))))
         else
           SegmentPhase(w, o, key, heard, v', base1, sent + [request], data + Taken(false, v.rest[0]), Others(noise))
  {
    var a := Poll(o, v.server, true, v.toggle, None);
    var ch := Record(heard, Gathered(o, v.toggle, data));
    SegmentServed(w.channels, o, v);
    UnderwayNext(w, o, key, v, base, noise);
    if noise != [] {
      assert First(noise) in noise;
    }
    ForeignTraffic(w, base, key, ch, a, sent, First(noise));
    var base1 := Traffic(w, base, First(noise));
    var last := |v.rest| == 1;
    var f := Frame(v.server, false, SegmentFrame(v.toggle, last, v.rest[0]));
    SegmentHeard(w.channels, o, heard, v.server, v.toggle, data, last, v.rest[0]);
    ReplyPolled(w, o, key, v, base1, ch, a, sent, f, true);
    if last {
      assert sent + [] == sent;
    } else {
      var (a', request) := Deliver(w.channels, a, f);
      ReplySniffedPolling(w, o, key, v, base1, ch, a', sent + AsSeq(request), f);
    }
  }

  lemma RequestsStep(channels: NodeChannels, o: SdoObject, toggle: bool, n: nat)
    ensures Requests(channels, o, toggle, n + 1) == [SegmentRequest(channels, o, toggle)] + Requests(channels, o, !toggle, n)
  {
  }

  /** Requests and data of one round and of the rounds after it add up. */
  lemma RoundsAddUp(channels: NodeChannels, o: SdoObject, toggle: bool, rest: seq<seq<Byte>>, sent: seq<Frame>, data: seq<Byte>)
    requires |rest| > 1 && forall k :: 0 <= k < |rest| ==> |rest[k]| <= SEGMENT_BYTES
    ensures (sent + [SegmentRequest(channels, o, !toggle)]) + Requests(channels, o, toggle, |rest| - 2)
         == sent + Requests(channels, o, !toggle, |rest| - 1)
    ensures (data + Taken(false, rest[0])) + Rebuilt(rest[1..], true) == data + Rebuilt(rest, true)
  {
    RequestsStep(channels, o, !toggle, |rest| - 2);
    Associative(sent, [SegmentRequest(channels, o, !toggle)], Requests(channels, o, toggle, |rest| - 2));
    Associative(data, Taken(false, rest[0]), Rebuilt(rest[1..], true));
  }

  /** Background traffic, transmissions and payload at the end of the segment phase. */
  datatype Totals = Totals(quiet: Station, sent: seq<Frame>, payload: seq<Byte>)

  ghost function TotalsOf(
      w: Wiring, o: SdoObject, toggle: bool, rest: seq<seq<Byte>>,
      base: Station, sent: seq<Frame>, data: seq<Byte>, noise: Batches): Totals
    requires ValidChunks(rest) && base.raw.Valid()
  {
    Totals(Background(w, base, noise, |rest|),
           sent + Requests(w.channels, o, !toggle, |rest| - 1),
           data + Rebuilt(rest, true))
  }

  /**
   * The attempt has succeeded with these totals; the sniffer has yet to take
   * the last reply, which completes the upload if the attempt has been heard.
   */
  ghost predicate Answered(
      w: Wiring, o: SdoObject, key: ChannelKey, heard: bool, server: nat, inOne: bool, t: Totals, x: Suspended)
  {
    && x.server.rest == []
    && x.last.Some? && x.last.value.id == server && !x.last.value.extended
    && x.station.poll.Some?
    && var a, ch := x.station.poll.value, Lookup(x.station.sniffer.observer, key);
       var m := Parse(ServerToClient, x.last.value.data);
    && a.target == o && a.serverCobID == server && a.result == Some(PollOk)
    && x.station == Polling(t.quiet, key, ch, a, t.sent)
    && Step(ch, o.nodeID, m) == CompletionOf(heard, o, t.payload)
    && if inOne then m == UploadResponse(o.index, o.subIndex, Some(t.payload))
       else m.Segment? && m.direction == ServerToClient
  }

  lemma LastAnswered(
      w: Wiring, o: SdoObject, key: ChannelKey, heard: bool, v: Server, base: Station,
      sent: seq<Frame>, data: seq<Byte>, noise: Batches)
    requires Underway(w, o, key, v, base, noise) && |v.rest| == 1
    ensures Answered(w, o, key, heard, v.server, false, TotalsOf(w, o, v.toggle, v.rest, base, sent, data, noise),
                     SegmentPhase(w, o, key, heard, v, base, sent, data, noise))
  {
    var base1 := Traffic(w, base, First(noise));
    SegmentRound(w, o, key, heard, v, base, sent, data, noise);
    SegmentHeard(w.channels, o, heard, v.server, v.toggle, data, true, v.rest[0]);
    HoldingAgain(base1.sniffer, key, Record(heard, Gathered(o, v.toggle, data)), None);
    assert Rebuilt(v.rest, true) == Taken(true, v.rest[0]) by {
      assert Rebuilt(v.rest[1..], true) == [];
    }
    assert sent + Requests(w.channels, o, !v.toggle, 0) == sent;
    assert Background(w, base, noise, 1) == Background(w, base1, Others(noise), 0) == base1;
  }

  lemma TotalsStay(
      w: Wiring, o: SdoObject, toggle: bool, rest: seq<seq<Byte>>,
      base: Station, sent: seq<Frame>, data: seq<Byte>, noise: Batches)
    requires ValidChunks(rest) && base.raw.Valid() && |rest| > 1
    ensures TotalsOf(w, o, toggle, rest, base, sent, data, noise)
         == TotalsOf(w, o, !toggle, rest[1..], Traffic(w, base, First(noise)),
                     sent + [SegmentRequest(w.channels, o, !toggle)], data + Taken(false, rest[0]), Others(noise))
  {
    RoundsAddUp(w.channels, o, toggle, rest, sent, data);
    BackgroundStep(w, base, noise, |rest| - 1);
  }

  /** From any point of the segment phase, every chunk still to come is requested and gathered, and the attempt succeeds. */
  lemma {:induction false} SegmentsDelivered(
      w: Wiring, o: SdoObject, key: ChannelKey, heard: bool, v: Server, base: Station,
      sent: seq<Frame>, data: seq<Byte>, noise: Batches)
    requires Underway(w, o, key, v, base, noise)
    ensures Answered(w, o, key, heard, v.server, false, TotalsOf(w, o, v.toggle, v.rest, base, sent, data, noise),
                     SegmentPhase(w, o, key, heard, v, base, sent, data, noise))
    decreases |v.rest|
  {
    if |v.rest| == 1 {
      LastAnswered(w, o, key, heard, v, base, sent, data, noise);
    } else {
      var v', base' := v.(rest := v.rest[1..], toggle := !v.toggle), Traffic(w, base, First(noise));
      var sent' := sent + [SegmentRequest(w.channels, o, !v.toggle)];
      var data' := data + Taken(false, v.rest[0]);
      SegmentRound(w, o, key, heard, v, base, sent, data, noise);
      UnderwayNext(w, o, key, v, base, noise);
      SegmentsDelivered(w, o, key, heard, v', base', sent', data', Others(noise));
      TotalsStay(w, o, v.toggle, v.rest, base, sent, data, noise);
    }
  }

  // ---------------------------------------------------------------------
  // From the request to the first reply
  // ---------------------------------------------------------------------

  /** The station once a poll has begun; the observer has the request in hand if `heard`. */
  function Begun(w: Wiring, o: SdoObject, key: ChannelKey, heard: bool, base: Station): Station {
    Polling(base, key, Record(heard, UploadOf(o)), NewPoll(w.channels, o), [RequestFrame(w.channels, o)])
  }

  lemma PollBegun(w: Wiring, o: SdoObject, key: ChannelKey, v: Server, base: Station)
    requires Connected(w, o, key, v) && !base.sniffer.halted
    ensures BeginStep(w, base, o, true) == Begun(w, o, key, true, base)
  {
    LockStep.BeginInLock(w.channels, o, Lookup(base.sniffer.observer, key), o.nodeID);
    SniffOnChannel(w.cfg, base.sniffer, key, o.nodeID, ClientToServer, RequestFrame(w.channels, o));
  }

  /** What an expedited answer does to poller and observer. */
  lemma ExpeditedHeard(channels: NodeChannels, o: SdoObject, heard: bool, server: nat, sized: bool, data: seq<Byte>)
    requires 1 <= |data| <= 4 && (sized || |data| == 4)
    ensures var a := Poll(o, server, false, false, None);
      var reply := ExpeditedFrame(Upload, sized, Address(o.index, o.subIndex), data);
      && Deliver(channels, a, Frame(server, false, reply)) == (a.(result := Some(PollOk)), None)
      && Parse(ServerToClient, reply) == UploadResponse(o.index, o.subIndex, Some(data))
      && Step(Record(heard, UploadOf(o)), o.nodeID, Parse(ServerToClient, reply)) == CompletionOf(heard, o, data)
  {
    ReadExpedited(Upload, sized, Address(o.index, o.subIndex), data);
  }

  /** What the announcement of segments does to them. */
  lemma InitiateHeard(channels: NodeChannels, o: SdoObject, heard: bool, server: nat, sized: bool, size: nat)
    ensures var a := Poll(o, server, false, false, None);
      var reply := InitiateFrame(Upload, sized, Address(o.index, o.subIndex), size);
      && Deliver(channels, a, Frame(server, false, reply))
         == (a.(segment := true), Some(SegmentRequest(channels, o, false)))
      && Step(Record(heard, UploadOf(o)), o.nodeID, Parse(ServerToClient, reply))
         == (Record(heard, Gathered(o, false, [])), Quiet)
  {
    ReadInitiate(Upload, sized, Address(o.index, o.subIndex), size);
  }

  lemma RequestServed(channels: NodeChannels, o: SdoObject, v: Server)
    requires v.Valid() && v.address == Address(o.index, o.subIndex)
    ensures Serve(v, RequestFrame(channels, o).data)
         == match v.answer
            case InOne(sized, data) => (v.(rest := []), Some(ExpeditedFrame(Upload, sized, v.address, data)))
            case InSegments(sized, chunks) =>
              (v.(rest := chunks, toggle := false), Some(InitiateFrame(Upload, sized, v.address, |Flatten(chunks)|)))
  {
    assert Address(Index(RequestFrame(channels, o).data), SubIndex(RequestFrame(channels, o).data)) == v.address;
  }

  // ---------------------------------------------------------------------
  // Main results
  // ---------------------------------------------------------------------

  function SegmentCount(x: Answer): nat {
    if x.InSegments? then |x.chunks| else 0
  }

  /** What the server means to deliver. */
  function Meant(x: Answer): seq<Byte> {
    match x
    case InOne(_, data) => data
    case InSegments(_, chunks) => Flatten(chunks)
  }

  /** What the receiver makes of it. */
  function Understood(x: Answer): seq<Byte>
    requires ValidAnswer(x)
  {
    match x
    case InOne(_, data) => data
    case InSegments(_, chunks) => Rebuilt(chunks, true)
  }

  /** The two differ only if a segment other than the last is not full. */
  lemma UnderstoodExactly(x: Answer)
    requires ValidAnswer(x)
    ensures Understood(x) == Meant(x) <==> x.InOne? || FullUntilLast(x.chunks)
  {
    if x.InSegments? {
      RebuiltExactly(x.chunks);
    }
  }

  /** A polled object, its server, and a running station between polls that nothing else will stop. */
  ghost predicate Prepared(w: Wiring, o: SdoObject, key: ChannelKey, v: Server, base: Station, noise: Batches) {
    && Connected(w, o, key, v) && Apart(w, key, v.server, noise)
    && base.poll.None? && RawElsewhere(base.raw, v.server) && Live(w, base, noise, SegmentCount(v.answer) + 1)
  }

  lemma PreparedFirst(w: Wiring, o: SdoObject, key: ChannelKey, heard: bool, v: Server, base: Station, noise: Batches)
    requires Prepared(w, o, key, v, base, noise)
    ensures var base1 := Traffic(w, base, First(noise));
      && !base.sniffer.halted && !base1.sniffer.halted
      && base1.poll.None? && RawElsewhere(base1.raw, v.server) && Live(w, base1, Others(noise), SegmentCount(v.answer))
      && Traffic(w, Begun(w, o, key, heard, base), First(noise)) == Begun(w, o, key, heard, base1)
  {
    if noise != [] {
      assert First(noise) in noise;
    }
    assert Live(w, Traffic(w, base, First(noise)), Others(noise), SegmentCount(v.answer));
    ForeignTraffic(w, base, key, Record(heard, UploadOf(o)), NewPoll(w.channels, o), [RequestFrame(w.channels, o)], First(noise));
  }

  lemma ExpeditedExchange(w: Wiring, o: SdoObject, key: ChannelKey, heard: bool, v: Server, base: Station, noise: Batches)
    requires Prepared(w, o, key, v, base, noise) && v.answer.InOne?
    ensures Answered(w, o, key, heard, v.server, true,
                     Totals(Traffic(w, base, First(noise)), [RequestFrame(w.channels, o)], v.answer.data),
                     ExchangeFrom(w, Begun(w, o, key, heard, base), o, v, noise))
  {
    var a, ch := NewPoll(w.channels, o), Record(heard, UploadOf(o));
    var sent := [RequestFrame(w.channels, o)];
    var base1 := Traffic(w, base, First(noise));
    var f := Frame(v.server, false, ExpeditedFrame(Upload, v.answer.sized, v.address, v.answer.data));
    PreparedFirst(w, o, key, heard, v, base, noise);
    RequestServed(w.channels, o, v);
    ExpeditedHeard(w.channels, o, heard, v.server, v.answer.sized, v.answer.data);
    ReplyPolled(w, o, key, v, base1, ch, a, sent, f, true);
    HoldingAgain(base1.sniffer, key, ch, None);
    assert sent + [] == sent;
  }

  lemma SegmentedOpening(w: Wiring, o: SdoObject, key: ChannelKey, heard: bool, v: Server, base: Station, noise: Batches)
    requires Prepared(w, o, key, v, base, noise) && v.answer.InSegments?
    ensures var base1, v1 := Traffic(w, base, First(noise)), v.(rest := v.answer.chunks, toggle := false);
      && Underway(w, o, key, v1, base1, Others(noise))
      && ExchangeFrom(w, Begun(w, o, key, heard, base), o, v, noise)
         == SegmentPhase(w, o, key, heard, v1, base1,
                         [RequestFrame(w.channels, o)] + [SegmentRequest(w.channels, o, false)], [], Others(noise))
  {
    var a, ch := NewPoll(w.channels, o), Record(heard, UploadOf(o));
    var sent := [RequestFrame(w.channels, o)];
    var base1, size := Traffic(w, base, First(noise)), |Flatten(v.answer.chunks)|;
    var f := Frame(v.server, false, InitiateFrame(Upload, v.answer.sized, v.address, size));
    PreparedFirst(w, o, key, heard, v, base, noise);
    RequestServed(w.channels, o, v);
    InitiateHeard(w.channels, o, heard, v.server, v.answer.sized, size);
    ReplyPolled(w, o, key, v, base1, ch, a, sent, f, true);
    var (a', request) := Deliver(w.channels, a, f);
    ReplySniffedPolling(w, o, key, v, base1, ch, a', sent + AsSeq(request), f);
  }

  /** What one upload request and the segments after its announcement add up to. */
  ghost function WholeTotals(w: Wiring, o: SdoObject, base: Station, noise: Batches, n: nat, payload: seq<Byte>): Totals
    requires base.raw.Valid()
  {
    Totals(Background(w, base, noise, n + 1),
           [RequestFrame(w.channels, o)] + Requests(w.channels, o, false, n), payload)
  }

  lemma OpeningTotals(w: Wiring, o: SdoObject, base: Station, noise: Batches, chunks: seq<seq<Byte>>)
    requires ValidChunks(chunks) && base.raw.Valid()
    ensures TotalsOf(w, o, false, chunks, Traffic(w, base, First(noise)),
                     [RequestFrame(w.channels, o)] + [SegmentRequest(w.channels, o, false)], [], Others(noise))
         == WholeTotals(w, o, base, noise, |chunks|, Rebuilt(chunks, true))
  {
    var n := |chunks|;
    BackgroundStep(w, base, noise, n);
    RequestsStep(w.channels, o, false, n - 1);
    Associative([RequestFrame(w.channels, o)], [SegmentRequest(w.channels, o, false)], Requests(w.channels, o, true, n - 1));
    Associative([], [], Rebuilt(chunks, true));
  }

  /** The closed loop, for any wiring that connects the poller, the observer and the server, up to the sniffer's last turn. */
  lemma ConnectedPollAnswered(
      w: Wiring, o: SdoObject, key: ChannelKey, heard: bool, v: Server, base: Station, noise: Batches)
    requires Prepared(w, o, key, v, base, noise)
    ensures Answered(w, o, key, heard, v.server, v.answer.InOne?,
                     WholeTotals(w, o, base, noise, SegmentCount(v.answer), Understood(v.answer)),
                     ExchangeFrom(w, Begun(w, o, key, heard, base), o, v, noise))
  {
    match v.answer {
      case InOne(_, data) =>
        ExpeditedExchange(w, o, key, heard, v, base, noise);
        BackgroundStep(w, base, noise, 0);
        assert [RequestFrame(w.channels, o)] + Requests(w.channels, o, false, 0) == [RequestFrame(w.channels, o)];
      case InSegments(_, chunks) =>
        SegmentedOpening(w, o, key, heard, v, base, noise);
        SegmentsDelivered(w, o, key, heard, v.(rest := chunks, toggle := false), Traffic(w, base, First(noise)),
                          [RequestFrame(w.channels, o)] + [SegmentRequest(w.channels, o, false)], [], Others(noise));
        OpeningTotals(w, o, base, noise, chunks);
    }
  }

  /** If the sniffer takes the last reply before the poller goes on, the object is decoded, if it has been heard. */
  lemma ResumedInTurn(w: Wiring, o: SdoObject, key: ChannelKey, heard: bool, v: Server, inOne: bool, t: Totals, x: Suspended)
    requires Connected(w, o, key, v) && Answered(w, o, key, heard, v.server, inOne, t, x)
    requires RawElsewhere(t.quiet.raw, v.server) && !t.quiet.sniffer.halted
    ensures var a := x.station.poll.value;
      var after := Polling(t.quiet, key, None, a, t.sent);
      && a.result == Some(PollOk) && a.target == o
      && Resume(w, x)
         == after.(sniffer := if heard then EmitFields(w.cfg, after.sniffer, o.fields, t.payload, SourceOf(o)) else after.sniffer)
  {
    var a, ch := x.station.poll.value, Lookup(x.station.sniffer.observer, key);
    ReplySniffedPolling(w, o, key, v, t.quiet, ch, a, t.sent, x.last.value);
    UploadEmitted(w, o, key, v, Holding(t.quiet.sniffer, key, None), t.payload);
  }

  /** The server of the polled object, on the node's channel. */
  predicate Polled(c: ReceiverConfig, o: SdoObject, v: Server) {
    && v.Valid() && v.address == Address(o.index, o.subIndex)
    && v.client == PollChannel(c, o).client && v.server == PollChannel(c, o).server
  }

  /** Foreign traffic of `n` batches leaves the raw poller elsewhere. */
  lemma PreparedQuiet(w: Wiring, o: SdoObject, key: ChannelKey, v: Server, base: Station, noise: Batches)
    requires Apart(w, key, v.server, noise) && RawElsewhere(base.raw, v.server)
    ensures RawElsewhere(Background(w, base, noise, SegmentCount(v.answer) + 1).raw, v.server)
  {
    BackgroundKeepsElsewhere(w, base, noise, SegmentCount(v.answer) + 1, v.server);
  }

  /**
   * In a validated configuration whose polled COB-IDs are not claimed for
   * something else, from any state and with any other traffic in between that
   * does not itself end the process, a poll of a conforming server ends ok. It
   * transmits one upload request and one request for each segment. Once the
   * sniffer has taken the last reply, the station is as if it had seen the
   * other traffic alone, except that the object's own fields have been decoded,
   * once, from the delivered bytes, and that the channel is idle. Decoding ends
   * the process exactly if one of these fields is not ordinary. What becomes of
   * the last reply if the next poll overtakes the sniffer is the subject of
   * `HandoverExact`.
   */
  lemma PollCompletes(c: ReceiverConfig, o: SdoObject, v: Server, base: Station, noise: Batches)
    requires ValidSdo(c.sdo) && o in c.sdo.poll.objects && Unclaimed(c, o) && Polled(c, o, v)
    requires base.poll.None? && RawElsewhere(base.raw, v.server)
    requires Apart(WiringOf(c), PollKey(c, o), v.server, noise)
    requires !Background(WiringOf(c), base, noise, SegmentCount(v.answer) + 1).sniffer.halted
    ensures var w, n := WiringOf(c), SegmentCount(v.answer);
      var (s, v') := Exchange(w, base, o, v, noise);
      && v'.rest == []
      && Finished(w, o, PollKey(c, o), Background(w, base, noise, n + 1),
                  [RequestFrame(w.channels, o)] + Requests(w.channels, o, false, n), Understood(v.answer), s)
      && (OrdinaryFields(o.fields) ==> !s.sniffer.halted)
      && (8 * |Understood(v.answer)| <= MAX_INT64 && !OrdinaryFields(o.fields) ==> s.sniffer.halted)
  {
    var w, key, n := WiringOf(c), PollKey(c, o), SegmentCount(v.answer);
    PolledConnected(c, o, v);
    LiveThroughout(w, base, noise, n + 1);
    PollBegun(w, o, key, v, base);
    ConnectedPollAnswered(w, o, key, true, v, base, noise);
    PreparedQuiet(w, o, key, v, base, noise);
    ResumedInTurn(w, o, key, true, v, v.answer.InOne?, WholeTotals(w, o, base, noise, n, Understood(v.answer)),
                  ExchangeFrom(w, Begun(w, o, key, true, base), o, v, noise));
    ReachedExactly(o.fields, Understood(v.answer));
  }

  /**
   * The same of the dispatch loop: whatever it receives, while the server
   * answers each frame that reaches the wire and all else happens in between.
   */
  lemma DispatchCompletesPoll(c: ReceiverConfig, o: SdoObject, v: Server, base: Station, noise: Batches)
    requires ValidSdo(c.sdo) && o in c.sdo.poll.objects && Unclaimed(c, o) && Polled(c, o, v)
    requires base.poll.None? && RawElsewhere(base.raw, v.server)
    requires Apart(WiringOf(c), PollKey(c, o), v.server, noise)
    requires !Background(WiringOf(c), base, noise, SegmentCount(v.answer) + 1).sniffer.halted
    ensures var w, n := WiringOf(c), SegmentCount(v.answer);
      var begun := BeginStep(w, base, o, true);
      var s := Traffic(w, begun, Script(w, begun, v, RequestFrame(w.channels, o), noise));
      Finished(w, o, PollKey(c, o), Background(w, base, noise, n + 1),
               [RequestFrame(w.channels, o)] + Requests(w.channels, o, false, n), Understood(v.answer), s)
  {
    var w := WiringOf(c);
    var begun := BeginStep(w, base, o, true);
    PollCompletes(c, o, v, base, noise);
    PolledConnected(c, o, v);
    LiveThroughout(w, base, noise, SegmentCount(v.answer) + 1);
    PollBegun(w, o, PollKey(c, o), v, base);
    LoopIsTraffic(w, begun, v, RequestFrame(w.channels, o), noise);
  }

  lemma PolledConnected(c: ReceiverConfig, o: SdoObject, v: Server)
    requires ValidSdo(c.sdo) && o in c.sdo.poll.objects && Unclaimed(c, o) && Polled(c, o, v)
    ensures Connected(WiringOf(c), o, PollKey(c, o), v) && ValidFields(o.fields)
  {
    RoutingExact(c, o);
    PolledFieldsIndexed(c, o);
    assert ValidObject(o);
  }

  // ---------------------------------------------------------------------
  // Configurations that never panic
  // ---------------------------------------------------------------------

  /** A configuration whose fields are all ordinary, a polled object, its server, and a running station between polls. */
  ghost predicate Ready(c: ReceiverConfig, o: SdoObject, v: Server, base: Station, noise: Batches) {
    && ValidConfig(c) && OrdinaryConfig(c)
    && o in c.sdo.poll.objects && Unclaimed(c, o) && Polled(c, o, v)
    && base.poll.None? && Safe(c, base) && RawElsewhere(base.raw, v.server)
    && Apart(WiringOf(c), PollKey(c, o), v.server, noise)
    && forall received :: received in noise ==> Declared(c, received)
  }

  /** Then the poll completes and the process goes on. */
  lemma OrdinaryPollCompletes(c: ReceiverConfig, o: SdoObject, v: Server, base: Station, noise: Batches)
    requires Ready(c, o, v, base, noise)
    ensures var w, n := WiringOf(c), SegmentCount(v.answer);
      var s := Exchange(w, base, o, v, noise).0;
      && Finished(w, o, PollKey(c, o), Background(w, base, noise, n + 1),
                  [RequestFrame(w.channels, o)] + Requests(w.channels, o, false, n), Understood(v.answer), s)
      && Safe(c, s)
  {
    BackgroundStaysSafe(c, base, noise, SegmentCount(v.answer) + 1);
    PollCompletes(c, o, v, base, noise);
  }

  function SegmentsFor(length: nat): nat {
    if length == 0 then 1 else (length + 6) / 7
  }

  lemma FullSegments(x: Answer, payload: seq<Byte>)
    requires x.InSegments? && x.chunks == Chunks(payload)
    ensures SegmentCount(x) == SegmentsFor(|payload|) && Understood(x) == payload
  {
    RebuiltFull(x.chunks);
  }

  /** A payload cut into full segments: `max(1, ceil(n / 7))` segment requests, and the payload itself decoded. */
  lemma SegmentedPoll(c: ReceiverConfig, o: SdoObject, v: Server, base: Station, noise: Batches, payload: seq<Byte>)
    requires Ready(c, o, v, base, noise)
    requires v.answer.InSegments? && v.answer.chunks == Chunks(payload)
    ensures var w, n := WiringOf(c), SegmentsFor(|payload|);
      var s := Exchange(w, base, o, v, noise).0;
      var quiet := Background(w, base, noise, n + 1);
      && quiet.wire == base.wire && !s.sniffer.halted
      && Finished(w, o, PollKey(c, o), quiet,
                  [RequestFrame(w.channels, o)] + Requests(w.channels, o, false, n), payload, s)
  {
    OrdinaryPollCompletes(c, o, v, base, noise);
    FullSegments(v.answer, payload);
    BackgroundKeepsWire(WiringOf(c), base, noise, SegmentsFor(|payload|) + 1);
  }

  // ---------------------------------------------------------------------
  // A value set in the node reaches the metrics
  // ---------------------------------------------------------------------

  lemma {:induction false} FieldEmitted(fields: seq<FieldConfig>, data: seq<Byte>, source: Source, f: FieldConfig)
    requires f in fields && f.metrics && DecodeField(f, data).Decoded?
    ensures FieldMetric(source, f, DecodeField(f, data).value) in FieldMetrics(fields, data, source)
  {
    var n := |fields| - 1;
    if fields[n] != f {
      assert f in fields[..n];
      FieldEmitted(fields[..n], data, source, f);
    }
  }

  lemma MetricEmitted(
      cfg: SnifferConfig, st: SnifferState, fields: seq<FieldConfig>, data: seq<Byte>, source: Source, f: FieldConfig)
    requires ValidFields(fields) && OrdinaryFields(fields) && cfg.metricsOn
    requires f in fields && f.metrics && DecodeField(f, data).Decoded?
    ensures FieldMetric(source, f, DecodeField(f, data).value) in EmitFields(cfg, st, fields, data, source).metrics
  {
    AllFieldsEmitted(cfg, st, fields, data, source);
    FieldEmitted(fields, data, source, f);
  }

  /**
   * An integer that the node stores in a polled object, at any bit offset and
   * surrounded by any other data, is the value of the field's metric.
   */
  lemma ValueReachesMetrics(
      c: ReceiverConfig, o: SdoObject, v: Server, base: Station, noise: Batches,
      f: FieldConfig, others: seq<Byte>, x: int)
    requires Ready(c, o, v, base, noise)
    requires v.answer.InOne? || FullUntilLast(v.answer.chunks)
    requires f in o.fields && f.metrics && c.metricsOn && Codec.InRange(f.dataType, x)
    requires 0 <= f.bitOffset <= 8 * |others| - Codec.BitWidth(f.dataType)
    requires Meant(v.answer)
          == Codec.Insert(others, f.bitOffset, Codec.BitWidth(f.dataType), Codec.Representation(f.dataType, x))
    ensures FieldMetric(SourceOf(o), f, if Codec.SignedType(f.dataType) then Codec.IntValue(x) else Codec.UintValue(x))
            in Exchange(WiringOf(c), base, o, v, noise).0.sniffer.metrics
  {
    OrdinaryPollCompletes(c, o, v, base, noise);
    UnderstoodExactly(v.answer);
    assert ValidObject(o);
    Codec.FieldRoundTrip(others, f.dataType, f.bitOffset, x, f.byteLen);
    var quiet := Background(WiringOf(c), base, noise, SegmentCount(v.answer) + 1);
    MetricEmitted(WiringOf(c).cfg, Holding(quiet.sniffer, PollKey(c, o), None), o.fields, Meant(v.answer), SourceOf(o), f);
  }

  // ---------------------------------------------------------------------
  // A validated configuration that panics
  // ---------------------------------------------------------------------

  function Uint8At(name: string, bitOffset: Int64): FieldConfig {
    FieldConfig(name, bitOffset, Codec.Uint8, 0, 0.0, 0.0, "", true, false, DefaultType, map[])
  }

  /** One polled object whose first field lies past every payload. */
  function PanickingObject(): SdoObject {
    SdoObject(1, 0x2000, 0, [Uint8At("g", MAX_INT64), Uint8At("f", 0)])
  }

  function PanickingConfig(): ReceiverConfig {
    ReceiverConfig(
      SdoConfig(SniffConfig([], []), PollConfig(Once, 0, 0, false, 0, 0, None, [PanickingObject()])),
      RawConfig(RawSniff(false, false, [], []), []), [], EventConfig(false, false), EventConfig(false, false), true, true)
  }

  function PanickingServer(): Server {
    Server(0x601, 0x581, Address(0x2000, 0), InOne(true, [7, 9]), [], false)
  }

  lemma PanickingFieldsValid()
    ensures ValidFields(PanickingObject().fields) && Reached(PanickingObject().fields, [7, 9]) == 0
  {
    var g, f := Uint8At("g", MAX_INT64), Uint8At("f", 0);
    assert ValidField(g) && ValidField(f);
    assert g.name[0] != f.name[0];
    PanicExact(g, [7, 9]);
  }

  lemma PanickingConfigValid()
    ensures ValidConfig(PanickingConfig()) && PanickingObject() in PanickingConfig().sdo.poll.objects
    ensures Unclaimed(PanickingConfig(), PanickingObject())
    ensures Polled(PanickingConfig(), PanickingObject(), PanickingServer())
  {
    PanickingFieldsValid();
    var c, o := PanickingConfig(), PanickingObject();
    assert c.sdo.poll.objects == [o];
    assert ValidObject(o);
    assert ChannelsByNode([]) == map[];
    assert c.sdo.sniff.channels == [];
  }

  /** Its poll ends the process before the second field is decoded: a successful poll without a metric. */
  lemma PanicLosesMetric()
    ensures var base := Station(Fresh, None, Shared(None, []), []);
      var s := Exchange(WiringOf(PanickingConfig()), base, PanickingObject(), PanickingServer(), []).0;
      s.poll.Some? && s.poll.value.result == Some(PollOk) && s.sniffer.halted && s.sniffer.metrics == []
  {
    var c, o, v := PanickingConfig(), PanickingObject(), PanickingServer();
    var base := Station(Fresh, None, Shared(None, []), []);
    PanickingConfigValid();
    PanickingFieldsValid();
    BackgroundStep(WiringOf(c), base, [], 0);
    PollCompletes(c, o, v, base, []);
    assert o.fields[..0] == [];
  }
}
