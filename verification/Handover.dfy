/**
 * From one poll to the next. The poller learns of a reply before the sniffer
 * does, and runs beside the dispatch loop: when a poll ends, the next one may
 * begin, and show its request to the sniffer, before the sniffer takes the last
 * reply.
 */
module Handover {
  import opened Bytes
  import opened Bus
  import opened Config
  import opened SdoMessages
  import opened SdoObserver
  import opened SdoEncoding
  import opened SdoPoller
  import opened Sniffer
  import opened Routing
  import opened RawPoller
  import opened Receiver
  import opened ReferenceServer
  import opened Interference
  import opened ClosedLoop

  /** The poll ends and the next begins before the sniffer takes the last reply. */
  ghost function HandOver(w: Wiring, x: Suspended, next: SdoObject): (s: Station)
    requires x.station.raw.Valid() && x.last.Some?
    ensures s.raw.Valid()
  {
    var begun := BeginStep(w, EndStep(x.station), next, true);
    if begun.sniffer.halted then begun else ClaimOrSniff(w, begun, x.last.value)
  }

  // ---------------------------------------------------------------------
  // What becomes of a payload
  // ---------------------------------------------------------------------

  /** It is decoded through its own fields, not at all, or through the next object's fields. */
  datatype Fate = Decoded | Lost | Misread

  predicate SameAddress(o: SdoObject, u: SdoObject) {
    o.index == u.index && o.subIndex == u.subIndex
  }

  /**
   * `overtaken`: the next poll's request has replaced this poll's upload on the
   * channel they share before the sniffer saw the last reply.
   */
  function FateOf(o: SdoObject, inOne: bool, next: Option<SdoObject>, overtaken: bool, heard: bool): (fate: Fate)
    ensures fate.Misread? ==> next.Some?
  {
    if overtaken && next.Some? then
      if inOne && SameAddress(o, next.value) then Misread else Lost
    else if heard then Decoded else Lost
  }

  /** The sniffer once a payload has met its fate; the channel is idle. */
  ghost function Settled(
      cfg: SnifferConfig, idle: SnifferState, o: SdoObject, payload: seq<Byte>, next: Option<SdoObject>, fate: Fate): SnifferState
    requires fate.Misread? ==> next.Some?
  {
    match fate
    case Decoded => EmitFields(cfg, idle, o.fields, payload, SourceOf(o))
    case Lost => idle
    case Misread => EmitFields(cfg, idle, next.value.fields, payload, SourceOf(next.value))
  }

  /** The station after a poll: what else happened, what became of the payload, and the requests sent. */
  ghost function AfterPoll(w: Wiring, o: SdoObject, key: ChannelKey, t: Totals, next: Option<SdoObject>, fate: Fate): Station
    requires fate.Misread? ==> next.Some?
  {
    t.quiet.(sniffer := Settled(w.cfg, Holding(t.quiet.sniffer, key, None), o, t.payload, next, fate),
             wire := t.quiet.wire + t.sent)
  }

  /** What else happened has left a running station between polls. */
  predicate Undisturbed(t: Totals, server: nat) {
    t.quiet.poll.None? && !t.quiet.sniffer.halted && RawElsewhere(t.quiet.raw, server)
  }

  /** The sniffer first: an object whose poll is heard is decoded. */
  lemma InTurn(
      w: Wiring, o: SdoObject, key: ChannelKey, heard: bool, v: Server, inOne: bool, t: Totals, x: Suspended, next: Option<SdoObject>)
    requires Connected(w, o, key, v) && Answered(w, o, key, heard, v.server, inOne, t, x) && Undisturbed(t, v.server)
    ensures x.station.raw.Valid()
    ensures EndStep(Resume(w, x)) == AfterPoll(w, o, key, t, next, if heard then Decoded else Lost)
  {
    ResumedInTurn(w, o, key, heard, v, inOne, t, x);
  }

  // ---------------------------------------------------------------------
  // The next poll overtakes the sniffer
  // ---------------------------------------------------------------------

  lemma EmitFieldsIgnoresObserver(
      cfg: SnifferConfig, st: SnifferState, fields: seq<FieldConfig>, data: seq<Byte>, source: Source, key: ChannelKey, ch: Channel)
    ensures EmitFields(cfg, Holding(st, key, ch), fields, data, source) == Holding(EmitFields(cfg, st, fields, data, source), key, ch)
    ensures EmitFields(cfg, st, fields, data, source).observer == st.observer
  {
  }

  lemma HoldingElsewhere(st: SnifferState, key: ChannelKey, ch: Channel, key': ChannelKey, ch': Channel)
    requires key != key'
    ensures Lookup(Holding(Holding(st, key, ch), key', ch').observer, key) == ch
    ensures Holding(Holding(Holding(st, key, ch), key', ch'), key, None) == Holding(Holding(st, key, None), key', ch')
  {
    StoreCommutes(st.observer, key, ch, key', ch');
    StoreTwice(Store(st.observer, key', ch'), key, ch, None);
    StoreCommutes(st.observer, key, None, key', ch');
  }

  lemma HoldingThrice(st: SnifferState, key: ChannelKey, a: Channel, b: Channel, ch: Channel)
    ensures Lookup(Holding(Holding(st, key, a), key, b).observer, key) == b
    ensures Holding(Holding(Holding(st, key, a), key, b), key, ch) == Holding(Holding(st, key, None), key, ch)
  {
    HoldingAgain(Holding(st, key, a), key, b, ch);
    HoldingAgain(st, key, a, ch);
    HoldingAgain(st, key, None, ch);
  }

  /** What the observer does with the last reply, `m`, after the request for `u`. */
  lemma OvertakenReply(o: SdoObject, inOne: bool, payload: seq<Byte>, u: SdoObject, nodeID: Byte, m: Message)
    requires if inOne then m == UploadResponse(o.index, o.subIndex, Some(payload))
             else m.Segment? && m.direction == ServerToClient
    ensures Step(Some(UploadOf(u)), nodeID, m)
         == if inOne && SameAddress(o, u) then CompletionOf(true, u, payload) else (Some(UploadOf(u)), Quiet)
  {
  }

  /** Two polled objects, the first one's poll up to its last reply, and nothing in the way. */
  ghost predicate Meeting(
      w: Wiring, o: SdoObject, key: ChannelKey, heard: bool, v: Server, inOne: bool, t: Totals, x: Suspended,
      u: SdoObject, key': ChannelKey, v': Server)
  {
    && Connected(w, o, key, v) && Connected(w, u, key', v')
    && Answered(w, o, key, heard, v.server, inOne, t, x) && Undisturbed(t, v.server)
  }

  function MessageOf(x: Suspended): Message
    requires x.last.Some?
  {
    Parse(ServerToClient, x.last.value.data)
  }

  /** The sniffer's turn comes when it has seen the next request. */
  lemma HandOverBegins(
      w: Wiring, o: SdoObject, key: ChannelKey, heard: bool, v: Server, inOne: bool, t: Totals, x: Suspended,
      u: SdoObject, key': ChannelKey, v': Server)
    requires Meeting(w, o, key, heard, v, inOne, t, x, u, key', v')
    ensures x.station.raw.Valid()
    ensures var held := Holding(Holding(t.quiet.sniffer, key, Lookup(x.station.sniffer.observer, key)), key', Some(UploadOf(u)));
      var (ch', out) := Step(Lookup(held.observer, key), o.nodeID, MessageOf(x));
      HandOver(w, x, u)
      == Station(Reported(w.cfg, Holding(held, key, ch'), out), Some(NewPoll(w.channels, u)), t.quiet.raw,
                 t.quiet.wire + t.sent + [RequestFrame(w.channels, u)])
  {
    var ended := EndStep(x.station);
    PollBegun(w, u, key', v', ended);
    ReplySniffed(w, o, key, v, Begun(w, u, key', true, ended), x.last.value);
  }

  /** On different channels the order does not matter. */
  lemma HandOverApart(
      w: Wiring, o: SdoObject, key: ChannelKey, heard: bool, v: Server, inOne: bool, t: Totals, x: Suspended,
      u: SdoObject, key': ChannelKey, v': Server)
    requires Meeting(w, o, key, heard, v, inOne, t, x, u, key', v') && key != key'
    ensures HandOver(w, x, u) == Begun(w, u, key', true, AfterPoll(w, o, key, t, Some(u), if heard then Decoded else Lost))
  {
    var ch, rec, idle := Lookup(x.station.sniffer.observer, key), Some(UploadOf(u)), Holding(t.quiet.sniffer, key, None);
    HandOverBegins(w, o, key, heard, v, inOne, t, x, u, key', v');
    HoldingElsewhere(t.quiet.sniffer, key, ch, key', rec);
    UploadEmitted(w, o, key, v, Holding(idle, key', rec), t.payload);
    EmitFieldsIgnoresObserver(w.cfg, idle, o.fields, t.payload, SourceOf(o), key', rec);
  }

  /** On one channel the payload is lost, unless the next object has the same address and the answer is in one frame. */
  lemma HandOverLost(
      w: Wiring, o: SdoObject, key: ChannelKey, heard: bool, v: Server, inOne: bool, t: Totals, x: Suspended,
      u: SdoObject, v': Server)
    requires Meeting(w, o, key, heard, v, inOne, t, x, u, key, v') && !(inOne && SameAddress(o, u))
    ensures HandOver(w, x, u) == Begun(w, u, key, true, AfterPoll(w, o, key, t, Some(u), Lost))
  {
    HandOverBegins(w, o, key, heard, v, inOne, t, x, u, key, v');
    OvertakenReply(o, inOne, t.payload, u, o.nodeID, MessageOf(x));
    HoldingThrice(t.quiet.sniffer, key, Lookup(x.station.sniffer.observer, key), Some(UploadOf(u)), Some(UploadOf(u)));
  }

  /** Then it is decoded as if it were the next object's. */
  lemma HandOverMisread(
      w: Wiring, o: SdoObject, key: ChannelKey, heard: bool, v: Server, t: Totals, x: Suspended, u: SdoObject, v': Server)
    requires Meeting(w, o, key, heard, v, true, t, x, u, key, v') && SameAddress(o, u)
    ensures HandOver(w, x, u) == Begun(w, u, key, false, AfterPoll(w, o, key, t, Some(u), Misread))
  {
    var idle := Holding(t.quiet.sniffer, key, None);
    HandOverBegins(w, o, key, heard, v, true, t, x, u, key, v');
    OvertakenReply(o, true, t.payload, u, o.nodeID, MessageOf(x));
    HoldingThrice(t.quiet.sniffer, key, Lookup(x.station.sniffer.observer, key), Some(UploadOf(u)), None);
    HoldingAgain(t.quiet.sniffer, key, None, None);
    UploadEmitted(w, u, key, v', idle, t.payload);
    EmitFieldsIgnoresObserver(w.cfg, idle, u.fields, t.payload, SourceOf(u), key, None);
  }

  /**
   * If the next poll overtakes the sniffer, the payload of the poll that ended
   * meets exactly this fate, and the next poll has begun - unheard if the
   * payload has been taken for its answer.
   */
  lemma HandoverExact(
      w: Wiring, o: SdoObject, key: ChannelKey, heard: bool, v: Server, inOne: bool, t: Totals, x: Suspended,
      u: SdoObject, key': ChannelKey, v': Server)
    requires Meeting(w, o, key, heard, v, inOne, t, x, u, key', v')
    ensures var fate := FateOf(o, inOne, Some(u), key == key', heard);
      HandOver(w, x, u) == Begun(w, u, key', !fate.Misread?, AfterPoll(w, o, key, t, Some(u), fate))
  {
    if key != key' {
      HandOverApart(w, o, key, heard, v, inOne, t, x, u, key', v');
    } else if inOne && SameAddress(o, u) {
      HandOverMisread(w, o, key, heard, v, t, x, u, v');
    } else {
      HandOverLost(w, o, key, heard, v, inOne, t, x, u, v');
    }
  }
}
