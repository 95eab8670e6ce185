/** A whole pass of the SDO poller over its objects, against conforming servers, in every schedule. */
module OnceRun {
  import opened Bytes
  import opened Bus
  import opened Config
  import opened SdoMessages
  import opened SdoObserver
  import opened SdoEncoding
  import opened SdoPoller
  import opened Sniffer
  import opened Routing
  import opened RawPoller
  import opened Receiver
  import opened ReferenceServer
  import opened Interference
  import opened ClosedLoop
  import opened Handover

  /** One object's turn: its server, and what else happens during its poll. */
  datatype Turn = Turn(target: SdoObject, server: Server, noise: Batches)

  predicate Served(turns: seq<Turn>) {
    forall k :: 0 <= k < |turns| ==> turns[k].server.Valid()
  }

  function NextOf(turns: seq<Turn>): Option<Turn> {
    if |turns| > 1 then Some(turns[1]) else None
  }

  function TargetOf(next: Option<Turn>): Option<SdoObject> {
    match next
    case None => None
    case Some(t) => Some(t.target)
  }

  // ---------------------------------------------------------------------
  // The run
  // ---------------------------------------------------------------------

  /** Where one poll's exchange leaves the run: the station, the poll's result, and whether the next has begun. */
  datatype PollEnd = PollEnd(station: Station, result: Option<PollResult>, begun: bool)

  ghost function Conclude(w: Wiring, x: Suspended, next: Option<SdoObject>, early: bool): (r: PollEnd)
    requires x.station.raw.Valid()
    ensures r.station.raw.Valid()
  {
    var result := if x.station.poll.Some? then x.station.poll.value.result else None;
    var overtakes := early && next.Some? && x.last.Some? && result.Some?;
    PollEnd(if overtakes then HandOver(w, x, next.value) else EndStep(Resume(w, x)), result, overtakes)
  }

  ghost function OnePoll(w: Wiring, s: Station, t: Turn, next: Option<SdoObject>, early: bool, begun: bool): (r: PollEnd)
    requires s.raw.Valid() && t.server.Valid()
    ensures r.station.raw.Valid()
  {
    Conclude(w, ExchangeFrom(w, if begun then s else BeginStep(w, s, t.target, true), t.target, t.server, t.noise), next, early)
  }

  /**
   * The polls of a pass and what they return. `early` says after which polls
   * the next one overtakes the sniffer; `begun`, whether the first has begun.
   */
  ghost function Polls(w: Wiring, s: Station, turns: seq<Turn>, early: seq<bool>, begun: bool)
    : (r: (Station, seq<Option<PollResult>>))
    requires s.raw.Valid() && Served(turns) && |early| == |turns|
    decreases |turns|
  {
    if turns == [] then (s, [])
    else
      var first := OnePoll(w, s, turns[0], TargetOf(NextOf(turns)), early[0], begun);
      var (s', results) := Polls(w, first.station, turns[1..], early[1..], first.begun);
      (s', [first.result] + results)
  }

  // ---------------------------------------------------------------------
  // What becomes of each object
  // ---------------------------------------------------------------------

  predicate SameKey(c: ReceiverConfig, t: Turn, u: Turn) {
    PollKey(c, t.target) == PollKey(c, u.target)
  }

  /** The next poll overtakes the sniffer on the same channel. */
  predicate Overtaken(c: ReceiverConfig, t: Turn, next: Option<Turn>, early: bool) {
    early && next.Some? && SameKey(c, t, next.value)
  }

  function FateIn(c: ReceiverConfig, t: Turn, next: Option<Turn>, early: bool, heard: bool): (fate: Fate)
    ensures fate.Misread? ==> next.Some? && early
  {
    FateOf(t.target, t.server.answer.InOne?, TargetOf(next), Overtaken(c, t, next, early), heard)
  }

  /** Once a payload is misread, the next poll is not heard. */
  function Fates(c: ReceiverConfig, turns: seq<Turn>, early: seq<bool>, heard: bool): (fates: seq<Fate>)
    requires |early| == |turns|
    ensures |fates| == |turns|
    decreases |turns|
  {
    if turns == [] then []
    else
      var fate := FateIn(c, turns[0], NextOf(turns), early[0], heard);
      [fate] + Fates(c, turns[1..], early[1..], !fate.Misread?)
  }

  ghost function TotalsFor(c: ReceiverConfig, s: Station, t: Turn): (r: Totals)
    requires s.raw.Valid() && t.server.Valid()
    ensures r.quiet.raw.Valid()
  {
    WholeTotals(WiringOf(c), t.target, s, t.noise, SegmentCount(t.server.answer), Understood(t.server.answer))
  }

  ghost function AfterTurn(c: ReceiverConfig, s: Station, t: Turn, next: Option<Turn>, fate: Fate): (s': Station)
    requires s.raw.Valid() && t.server.Valid() && (fate.Misread? ==> next.Some?)
    ensures s'.raw.Valid()
  {
    AfterPoll(WiringOf(c), t.target, PollKey(c, t.target), TotalsFor(c, s, t), TargetOf(next), fate)
  }

  ghost function AfterPolls(c: ReceiverConfig, s: Station, turns: seq<Turn>, early: seq<bool>, heard: bool): Station
    requires s.raw.Valid() && Served(turns) && |early| == |turns|
    decreases |turns|
  {
    if turns == [] then s
    else
      var fate := FateIn(c, turns[0], NextOf(turns), early[0], heard);
      AfterPolls(c, AfterTurn(c, s, turns[0], NextOf(turns), fate), turns[1..], early[1..], !fate.Misread?)
  }

  // ---------------------------------------------------------------------
  // One turn
  // ---------------------------------------------------------------------

  ghost predicate TurnReady(c: ReceiverConfig, s: Station, t: Turn) {
    && t.target in c.sdo.poll.objects && Unclaimed(c, t.target) && Polled(c, t.target, t.server)
    && RawElsewhere(s.raw, t.server.server)
    && Apart(WiringOf(c), PollKey(c, t.target), t.server.server, t.noise)
    && forall received :: received in t.noise ==> Declared(c, received)
  }

  ghost predicate RunReady(c: ReceiverConfig, s: Station) {
    ValidConfig(c) && OrdinaryConfig(c) && s.poll.None? && Safe(c, s)
  }

  lemma TurnConnected(c: ReceiverConfig, s: Station, t: Turn)
    requires RunReady(c, s) && TurnReady(c, s, t)
    ensures Connected(WiringOf(c), t.target, PollKey(c, t.target), t.server)
    ensures ValidFields(t.target.fields) && OrdinaryFields(t.target.fields)
  {
    PolledConnected(c, t.target, t.server);
  }

  lemma TurnPrepared(c: ReceiverConfig, s: Station, t: Turn)
    requires RunReady(c, s) && TurnReady(c, s, t)
    ensures Prepared(WiringOf(c), t.target, PollKey(c, t.target), t.server, s, t.noise)
    ensures var totals := TotalsFor(c, s, t);
      Undisturbed(totals, t.server.server) && Safe(c, totals.quiet) && totals.quiet.wire == s.wire
  {
    var w, n := WiringOf(c), SegmentCount(t.server.answer) + 1;
    TurnConnected(c, s, t);
    BackgroundStaysSafe(c, s, t.noise, n);
    LiveThroughout(w, s, t.noise, n);
    BackgroundKeepsWire(w, s, t.noise, n);
    PreparedQuiet(w, t.target, PollKey(c, t.target), t.server, s, t.noise);
  }

  /** How a poll ends that has gone well, given the fate of its payload. */
  ghost function GoodEnd(
      w: Wiring, t: Turn, key: ChannelKey, totals: Totals, next: Option<Turn>, key': ChannelKey, overtakes: bool, fate: Fate): PollEnd
    requires (overtakes || fate.Misread?) ==> next.Some?
  {
    var after := AfterPoll(w, t.target, key, totals, TargetOf(next), fate);
    PollEnd(if overtakes then Begun(w, next.value.target, key', !fate.Misread?, after) else after, Some(PollOk), overtakes)
  }

  /** The same as `OnePollExact`, for any wiring that connects both objects to their servers. */
  lemma ConnectedPollExact(
      w: Wiring, s: Station, t: Turn, key: ChannelKey, totals: Totals, next: Option<Turn>, key': ChannelKey,
      early: bool, heard: bool, begun: bool)
    requires Prepared(w, t.target, key, t.server, s, t.noise) && (begun || heard)
    requires totals == WholeTotals(w, t.target, s, t.noise, SegmentCount(t.server.answer), Understood(t.server.answer))
    requires Undisturbed(totals, t.server.server)
    requires next.Some? ==> Connected(w, next.value.target, key', next.value.server)
    ensures var overtakes := early && next.Some?;
      var fate := FateOf(t.target, t.server.answer.InOne?, TargetOf(next), overtakes && key == key', heard);
      OnePoll(w, if begun then Begun(w, t.target, key, heard, s) else s, t, TargetOf(next), early, begun)
      == GoodEnd(w, t, key, totals, next, key', overtakes, fate)
  {
    var x := ExchangeFrom(w, Begun(w, t.target, key, heard, s), t.target, t.server, t.noise);
    PollBegun(w, t.target, key, t.server, s);
    ConnectedPollAnswered(w, t.target, key, heard, t.server, s, t.noise);
    ConcludedExactly(w, t, key, totals, next, key', early, heard, x);
  }

  lemma ConcludedExactly(
      w: Wiring, t: Turn, key: ChannelKey, totals: Totals, next: Option<Turn>, key': ChannelKey,
      early: bool, heard: bool, x: Suspended)
    requires Connected(w, t.target, key, t.server) && Undisturbed(totals, t.server.server)
    requires Answered(w, t.target, key, heard, t.server.server, t.server.answer.InOne?, totals, x)
    requires next.Some? ==> Connected(w, next.value.target, key', next.value.server)
    ensures x.station.raw.Valid()
    ensures var overtakes := early && next.Some?;
      var fate := FateOf(t.target, t.server.answer.InOne?, TargetOf(next), overtakes && key == key', heard);
      Conclude(w, x, TargetOf(next), early) == GoodEnd(w, t, key, totals, next, key', overtakes, fate)
  {
    var inOne := t.server.answer.InOne?;
    if early && next.Some? {
      HandoverExact(w, t.target, key, heard, t.server, inOne, totals, x, next.value.target, key', next.value.server);
    } else {
      InTurn(w, t.target, key, heard, t.server, inOne, totals, x, TargetOf(next));
    }
  }

  /** Where a pass stands: between polls, or with the next poll begun, heard or not. */
  function StartOf(c: ReceiverConfig, s: Station, next: Option<Turn>, heard: bool, begun: bool): Station {
    if begun && next.Some? then Begun(WiringOf(c), next.value.target, PollKey(c, next.value.target), heard, s) else s
  }

  /** One poll of a pass goes well, and its payload meets its fate. */
  ghost predicate EndsWell(c: ReceiverConfig, s: Station, t: Turn, next: Option<Turn>, early: bool, heard: bool, begun: bool)
    requires s.raw.Valid() && t.server.Valid()
  {
    var fate, overtakes := FateIn(c, t, next, early, heard), early && next.Some?;
    OnePoll(WiringOf(c), StartOf(c, s, Some(t), heard, begun), t, TargetOf(next), early, begun)
    == PollEnd(StartOf(c, AfterTurn(c, s, t, next, fate), next, !fate.Misread?, overtakes), Some(PollOk), overtakes)
  }

  /** Whether or not it has begun or is heard. */
  lemma OnePollExact(c: ReceiverConfig, s: Station, t: Turn, next: Option<Turn>, early: bool, heard: bool, begun: bool)
    requires RunReady(c, s) && TurnReady(c, s, t) && (next.Some? ==> TurnReady(c, s, next.value)) && (begun || heard)
    ensures EndsWell(c, s, t, next, early, heard, begun)
  {
    TurnLinked(c, s, t, next);
    LinkedPollExact(c, s, t, next, early, heard, begun);
  }

  lemma LinkedPollExact(c: ReceiverConfig, s: Station, t: Turn, next: Option<Turn>, early: bool, heard: bool, begun: bool)
    requires Prepared(WiringOf(c), t.target, PollKey(c, t.target), t.server, s, t.noise) && (begun || heard)
    requires Undisturbed(TotalsFor(c, s, t), t.server.server)
    requires next.Some? ==> Connected(WiringOf(c), next.value.target, KeyAfter(c, next), next.value.server)
    ensures EndsWell(c, s, t, next, early, heard, begun)
  {
    FateByKeys(c, t, next, early, heard);
    ConnectedPollExact(WiringOf(c), s, t, PollKey(c, t.target), TotalsFor(c, s, t), next, KeyAfter(c, next), early, heard, begun);
  }

  function KeyAfter(c: ReceiverConfig, next: Option<Turn>): ChannelKey {
    if next.Some? then PollKey(c, next.value.target) else 0
  }

  lemma FateByKeys(c: ReceiverConfig, t: Turn, next: Option<Turn>, early: bool, heard: bool)
    ensures FateIn(c, t, next, early, heard)
         == FateOf(t.target, t.server.answer.InOne?, TargetOf(next),
                   early && next.Some? && PollKey(c, t.target) == KeyAfter(c, next), heard)
  {
  }

  lemma TurnLinked(c: ReceiverConfig, s: Station, t: Turn, next: Option<Turn>)
    requires RunReady(c, s) && TurnReady(c, s, t) && (next.Some? ==> TurnReady(c, s, next.value))
    ensures Prepared(WiringOf(c), t.target, PollKey(c, t.target), t.server, s, t.noise)
    ensures Undisturbed(TotalsFor(c, s, t), t.server.server)
    ensures next.Some? ==> Connected(WiringOf(c), next.value.target, KeyAfter(c, next), next.value.server)
  {
    TurnPrepared(c, s, t);
    if next.Some? {
      TurnConnected(c, s, next.value);
    }
  }

  // ---------------------------------------------------------------------
  // The whole pass
  // ---------------------------------------------------------------------

  /** No transaction that begins during one poll is answered on another's server COB-ID. */
  predicate RawApart(t: Turn, u: Turn) {
    forall received :: received in t.noise ==> NoneStartedOn(received, u.server.server)
  }

  ghost predicate AllReady(c: ReceiverConfig, s: Station, turns: seq<Turn>) {
    && RunReady(c, s)
    && (forall k :: 0 <= k < |turns| ==> TurnReady(c, s, turns[k]))
    && forall j, k :: 0 <= j < |turns| && 0 <= k < |turns| ==> RawApart(turns[j], turns[k])
  }

  /** Ordinary fields never end the process, whatever payload they are given. */
  lemma SettledRuns(cfg: SnifferConfig, idle: SnifferState, o: SdoObject, payload: seq<Byte>, next: Option<SdoObject>, fate: Fate)
    requires !idle.halted && ValidFields(o.fields) && OrdinaryFields(o.fields)
    requires next.Some? ==> ValidFields(next.value.fields) && OrdinaryFields(next.value.fields)
    requires fate.Misread? ==> next.Some?
    ensures !Settled(cfg, idle, o, payload, next, fate).halted
  {
    ReachedExactly(o.fields, payload);
    if next.Some? {
      ReachedExactly(next.value.fields, payload);
    }
  }

  lemma AfterTurnReady(c: ReceiverConfig, s: Station, t: Turn, next: Option<Turn>, fate: Fate)
    requires RunReady(c, s) && TurnReady(c, s, t) && (next.Some? ==> TurnReady(c, s, next.value))
    requires fate.Misread? ==> next.Some?
    ensures RunReady(c, AfterTurn(c, s, t, next, fate))
  {
    TurnPrepared(c, s, t);
    TurnConnected(c, s, t);
    if next.Some? {
      TurnConnected(c, s, next.value);
    }
    SettledRuns(WiringOf(c).cfg, Holding(TotalsFor(c, s, t).quiet.sniffer, PollKey(c, t.target), None), t.target,
                Understood(t.server.answer), TargetOf(next), fate);
  }

  lemma OtherStaysReady(c: ReceiverConfig, s: Station, t: Turn, next: Option<Turn>, fate: Fate, u: Turn)
    requires s.raw.Valid() && t.server.Valid() && TurnReady(c, s, u) && RawApart(t, u)
    requires fate.Misread? ==> next.Some?
    ensures TurnReady(c, AfterTurn(c, s, t, next, fate), u)
  {
    BackgroundKeepsElsewhere(WiringOf(c), s, t.noise, SegmentCount(t.server.answer) + 1, u.server.server);
  }

  lemma StillReady(c: ReceiverConfig, s: Station, turns: seq<Turn>, fate: Fate)
    requires AllReady(c, s, turns) && turns != [] && (fate.Misread? ==> |turns| > 1)
    ensures AllReady(c, AfterTurn(c, s, turns[0], NextOf(turns), fate), turns[1..])
  {
    AfterTurnReady(c, s, turns[0], NextOf(turns), fate);
    forall k | 0 <= k < |turns| - 1
      ensures TurnReady(c, AfterTurn(c, s, turns[0], NextOf(turns), fate), turns[1..][k])
    {
      OtherStaysReady(c, s, turns[0], NextOf(turns), fate, turns[k + 1]);
    }
  }

  predicate AllOk(results: seq<Option<PollResult>>, n: nat) {
    |results| == n && forall k :: 0 <= k < n ==> results[k] == Some(PollOk)
  }

  lemma OneMoreOk(results: seq<Option<PollResult>>, n: nat)
    requires AllOk(results, n)
    ensures AllOk([Some(PollOk)] + results, n + 1)
  {
  }

  function HeadOf(turns: seq<Turn>): Option<Turn> {
    if turns == [] then None else Some(turns[0])
  }

  lemma FirstReady(c: ReceiverConfig, s: Station, turns: seq<Turn>)
    requires AllReady(c, s, turns) && turns != []
    ensures RunReady(c, s) && TurnReady(c, s, turns[0]) && (NextOf(turns).Some? ==> TurnReady(c, s, NextOf(turns).value))
  {
  }

  lemma FirstEndsWell(c: ReceiverConfig, s: Station, turns: seq<Turn>, early: bool, heard: bool, begun: bool)
    requires AllReady(c, s, turns) && turns != [] && (begun || heard)
    ensures EndsWell(c, s, turns[0], NextOf(turns), early, heard, begun)
  {
    FirstReady(c, s, turns);
    OnePollExact(c, s, turns[0], NextOf(turns), early, heard, begun);
  }

  lemma PollsUnfold(w: Wiring, s: Station, turns: seq<Turn>, early: seq<bool>, begun: bool, first: PollEnd)
    requires s.raw.Valid() && Served(turns) && |early| == |turns| && turns != []
    requires first == OnePoll(w, s, turns[0], TargetOf(NextOf(turns)), early[0], begun)
    ensures var rest := Polls(w, first.station, turns[1..], early[1..], first.begun);
      Polls(w, s, turns, early, begun) == (rest.0, [first.result] + rest.1)
  {
  }

  /** A pass ends as stated. */
  ghost predicate Passes(c: ReceiverConfig, s: Station, turns: seq<Turn>, early: seq<bool>, heard: bool, begun: bool)
    requires Served(turns) && |early| == |turns| && s.raw.Valid()
  {
    var end := Polls(WiringOf(c), StartOf(c, s, HeadOf(turns), heard, begun), turns, early, begun);
    end.0 == AfterPolls(c, s, turns, early, heard) && AllOk(end.1, |turns|)
  }

  /** The first poll of a pass, and the pass that is left. */
  lemma PassesStep(c: ReceiverConfig, s: Station, turns: seq<Turn>, early: seq<bool>, heard: bool, begun: bool)
    requires Served(turns) && |early| == |turns| && turns != [] && s.raw.Valid()
    requires var fate := FateIn(c, turns[0], NextOf(turns), early[0], heard);
      var overtakes := early[0] && NextOf(turns).Some?;
      var s1 := AfterTurn(c, s, turns[0], NextOf(turns), fate);
      && EndsWell(c, s, turns[0], NextOf(turns), early[0], heard, begun)
      && Passes(c, s1, turns[1..], early[1..], !fate.Misread?, overtakes)
    ensures Passes(c, s, turns, early, heard, begun)
  {
    var w, next := WiringOf(c), NextOf(turns);
    var fate, overtakes := FateIn(c, turns[0], next, early[0], heard), early[0] && next.Some?;
    var start := StartOf(c, AfterTurn(c, s, turns[0], next, fate), next, !fate.Misread?, overtakes);
    assert HeadOf(turns[1..]) == next;
    PollsUnfold(w, StartOf(c, s, HeadOf(turns), heard, begun), turns, early, begun, PollEnd(start, Some(PollOk), overtakes));
    OneMoreOk(Polls(w, start, turns[1..], early[1..], overtakes).1, |turns| - 1);
  }

  /**
   * With ordinary fields only, and a conforming server for every polled node,
   * in every schedule: every poll ends ok, and the pass leaves what the other
   * traffic leaves, plus what becomes of each payload by its fate.
   */
  lemma {:induction false} AllPollsComplete(
      c: ReceiverConfig, s: Station, turns: seq<Turn>, early: seq<bool>, heard: bool, begun: bool)
    requires AllReady(c, s, turns) && |early| == |turns| && (begun || heard)
    ensures Passes(c, s, turns, early, heard, begun)
    decreases |turns|
  {
    if turns != [] {
      var t, next := turns[0], NextOf(turns);
      var fate, overtakes := FateIn(c, t, next, early[0], heard), early[0] && next.Some?;
      FirstEndsWell(c, s, turns, early[0], heard, begun);
      StillReady(c, s, turns, fate);
      AllPollsComplete(c, AfterTurn(c, s, t, next, fate), turns[1..], early[1..], !fate.Misread?, overtakes);
      PassesStep(c, s, turns, early, heard, begun);
    }
  }

  // ---------------------------------------------------------------------
  // Which objects are decoded
  // ---------------------------------------------------------------------

  predicate OvertakenAt(c: ReceiverConfig, turns: seq<Turn>, early: seq<bool>, k: nat)
    requires |early| == |turns|
  {
    k + 1 < |turns| && early[k] && SameKey(c, turns[k], turns[k + 1])
  }

  /**
   * In every schedule, an object is decoded from its own payload exactly if its
   * poll is not overtaken on its channel and the payload before it was not
   * taken for its own.
   */
  lemma {:induction false} DecodedExactly(c: ReceiverConfig, turns: seq<Turn>, early: seq<bool>, heard: bool, k: nat)
    requires |early| == |turns| && k < |turns|
    ensures var fates := Fates(c, turns, early, heard);
      && (fates[k] == Decoded <==> !OvertakenAt(c, turns, early, k) && if k == 0 then heard else fates[k - 1] != Misread)
      && (fates[k] == Misread <==> OvertakenAt(c, turns, early, k) && turns[k].server.answer.InOne?
                                   && SameAddress(turns[k].target, turns[k + 1].target))
    decreases k
  {
    if k > 0 {
      var fate := FateIn(c, turns[0], NextOf(turns), early[0], heard);
      DecodedExactly(c, turns[1..], early[1..], !fate.Misread?, k - 1);
    }
  }

  predicate AllDecoded(fates: seq<Fate>) {
    forall k :: 0 <= k < |fates| ==> fates[k] == Decoded
  }

  predicate NeighboursApart(c: ReceiverConfig, turns: seq<Turn>) {
    forall k :: 0 <= k < |turns| - 1 ==> !SameKey(c, turns[k], turns[k + 1])
  }

  ghost predicate EveryScheduleDecodes(c: ReceiverConfig, turns: seq<Turn>) {
    forall early: seq<bool> | |early| == |turns| :: AllDecoded(Fates(c, turns, early, true))
  }

  /** Every schedule decodes every object exactly if neighbours in the list are polled on different channels. */
  lemma SchedulesExactly(c: ReceiverConfig, turns: seq<Turn>)
    ensures EveryScheduleDecodes(c, turns) <==> NeighboursApart(c, turns)
  {
    if NeighboursApart(c, turns) {
      forall early: seq<bool> | |early| == |turns| ensures AllDecoded(Fates(c, turns, early, true)) {
        forall k | 0 <= k < |turns| ensures Fates(c, turns, early, true)[k] == Decoded {
          DecodedExactly(c, turns, early, true, k);
          if k > 0 {
            DecodedExactly(c, turns, early, true, k - 1);
          }
        }
      }
    } else {
      var k :| 0 <= k < |turns| - 1 && SameKey(c, turns[k], turns[k + 1]);
      var early := seq(|turns|, i => i == k);
      DecodedExactly(c, turns, early, true, k);
      assert !AllDecoded(Fates(c, turns, early, true));
    }
  }

  /** If no channel shadows a node, objects polled on one channel belong to one node. */
  lemma OneChannelOneNode(c: ReceiverConfig, o: SdoObject, u: SdoObject)
    requires ValidSdo(c.sdo) && o in c.sdo.poll.objects && u in c.sdo.poll.objects && Unclaimed(c, o) && Unclaimed(c, u)
    requires !exists d :: d in c.sdo.sniff.channels && Shadows(SnifferConfigOf(c), d)
    requires PollKey(c, o) == PollKey(c, u)
    ensures o.nodeID == u.nodeID
  {
    var cfg := SnifferConfigOf(c);
    RoutingExact(c, o);
    RoutingExact(c, u);
    KeysExact(cfg);
    assert SameKeySameChannel(cfg, PollChannel(c, o).client, PollChannel(c, u).client);
  }

  /** Distinct polled objects, on COB-IDs of their own. */
  ghost predicate PolledOnce(c: ReceiverConfig, turns: seq<Turn>) {
    && (forall j :: 0 <= j < |turns| ==> turns[j].target in c.sdo.poll.objects && Unclaimed(c, turns[j].target))
    && forall i, j :: 0 <= i < j < |turns| ==> KeyOf(turns[i].target) != KeyOf(turns[j].target)
  }

  lemma NotMisread(c: ReceiverConfig, turns: seq<Turn>, early: seq<bool>, k: nat)
    requires ValidSdo(c.sdo) && |early| == |turns| && k < |turns| && PolledOnce(c, turns)
    requires !exists d :: d in c.sdo.sniff.channels && Shadows(SnifferConfigOf(c), d)
    ensures Fates(c, turns, early, true)[k] != Misread
  {
    DecodedExactly(c, turns, early, true, k);
    if OvertakenAt(c, turns, early, k) {
      OneChannelOneNode(c, turns[k].target, turns[k + 1].target);
      assert KeyOf(turns[k].target) != KeyOf(turns[k + 1].target);
    }
  }

  /** ... so then no payload is taken for another object's, and overtaking is all that loses one. */
  lemma UnshadowedNeverMisread(c: ReceiverConfig, turns: seq<Turn>, early: seq<bool>, k: nat)
    requires ValidSdo(c.sdo) && |early| == |turns| && k < |turns| && PolledOnce(c, turns)
    requires !exists d :: d in c.sdo.sniff.channels && Shadows(SnifferConfigOf(c), d)
    ensures Fates(c, turns, early, true)[k] == if OvertakenAt(c, turns, early, k) then Lost else Decoded
  {
    DecodedExactly(c, turns, early, true, k);
    NotMisread(c, turns, early, k);
    if k > 0 {
      NotMisread(c, turns, early, k - 1);
    }
  }

  // ---------------------------------------------------------------------
  // On an otherwise quiet bus
  // ---------------------------------------------------------------------

  /** What a payload adds to the metrics by its fate. */
  ghost function Report(c: ReceiverConfig, t: Turn, next: Option<Turn>, fate: Fate): seq<Metric>
    requires t.server.Valid() && (fate.Misread? ==> next.Some?)
  {
    if !c.metricsOn then []
    else
      match fate
      case Decoded => FieldMetrics(t.target.fields, Understood(t.server.answer), SourceOf(t.target))
      case Lost => []
      case Misread => FieldMetrics(next.value.target.fields, Understood(t.server.answer), SourceOf(next.value.target))
  }

  ghost function Reports(c: ReceiverConfig, turns: seq<Turn>, early: seq<bool>, heard: bool): seq<Metric>
    requires Served(turns) && |early| == |turns|
    decreases |turns|
  {
    if turns == [] then []
    else
      var fate := FateIn(c, turns[0], NextOf(turns), early[0], heard);
      Report(c, turns[0], NextOf(turns), fate) + Reports(c, turns[1..], early[1..], !fate.Misread?)
  }

  /** A poll's requests. */
  function RequestsOf(w: Wiring, t: Turn): seq<Frame> {
    [RequestFrame(w.channels, t.target)] + Requests(w.channels, t.target, false, SegmentCount(t.server.answer))
  }

  function AllRequests(w: Wiring, turns: seq<Turn>): seq<Frame> {
    if turns == [] then [] else RequestsOf(w, turns[0]) + AllRequests(w, turns[1..])
  }

  lemma {:induction false} QuietBackground(w: Wiring, s: Station, n: nat)
    requires s.raw.Valid()
    ensures Background(w, s, [], n) == s
    decreases n
  {
    if n > 0 {
      QuietBackground(w, s, n - 1);
    }
  }

  lemma SettledMetrics(
      cfg: SnifferConfig, idle: SnifferState, o: SdoObject, payload: seq<Byte>, next: Option<SdoObject>, fate: Fate)
    requires ValidFields(o.fields) && OrdinaryFields(o.fields)
    requires next.Some? ==> ValidFields(next.value.fields) && OrdinaryFields(next.value.fields)
    requires fate.Misread? ==> next.Some?
    ensures Settled(cfg, idle, o, payload, next, fate).metrics
         == idle.metrics +
            if !cfg.metricsOn then []
            else match fate
              case Decoded => FieldMetrics(o.fields, payload, SourceOf(o))
              case Lost => []
              case Misread => FieldMetrics(next.value.fields, payload, SourceOf(next.value))
  {
    AllFieldsEmitted(cfg, idle, o.fields, payload, SourceOf(o));
    if next.Some? {
      AllFieldsEmitted(cfg, idle, next.value.fields, payload, SourceOf(next.value));
    }
  }

  lemma QuietTurn(c: ReceiverConfig, s: Station, t: Turn, next: Option<Turn>, fate: Fate)
    requires RunReady(c, s) && TurnReady(c, s, t) && (next.Some? ==> TurnReady(c, s, next.value)) && t.noise == []
    requires fate.Misread? ==> next.Some?
    ensures AfterTurn(c, s, t, next, fate).sniffer.metrics == s.sniffer.metrics + Report(c, t, next, fate)
    ensures AfterTurn(c, s, t, next, fate).wire == s.wire + RequestsOf(WiringOf(c), t)
  {
    QuietBackground(WiringOf(c), s, SegmentCount(t.server.answer) + 1);
    TurnConnected(c, s, t);
    if next.Some? {
      TurnConnected(c, s, next.value);
    }
    SettledMetrics(WiringOf(c).cfg, Holding(s.sniffer, PollKey(c, t.target), None), t.target,
                   Understood(t.server.answer), TargetOf(next), fate);
  }

  lemma FirstQuietTurn(c: ReceiverConfig, s: Station, turns: seq<Turn>, fate: Fate)
    requires AllReady(c, s, turns) && turns != [] && turns[0].noise == [] && (fate.Misread? ==> NextOf(turns).Some?)
    ensures var s1 := AfterTurn(c, s, turns[0], NextOf(turns), fate);
      && s1.sniffer.metrics == s.sniffer.metrics + Report(c, turns[0], NextOf(turns), fate)
      && s1.wire == s.wire + RequestsOf(WiringOf(c), turns[0])
  {
    FirstReady(c, s, turns);
    QuietTurn(c, s, turns[0], NextOf(turns), fate);
  }

  /** Ready, with nothing else on the bus. */
  ghost predicate QuietlyReady(c: ReceiverConfig, s: Station, turns: seq<Turn>) {
    AllReady(c, s, turns) && forall k :: 0 <= k < |turns| ==> turns[k].noise == []
  }

  lemma StillQuiet(c: ReceiverConfig, s: Station, turns: seq<Turn>, fate: Fate)
    requires QuietlyReady(c, s, turns) && turns != [] && (fate.Misread? ==> |turns| > 1)
    ensures QuietlyReady(c, AfterTurn(c, s, turns[0], NextOf(turns), fate), turns[1..])
  {
    StillReady(c, s, turns, fate);
  }

  /** A pass adds just the reports and the requests. */
  ghost predicate Adds(c: ReceiverConfig, s: Station, turns: seq<Turn>, early: seq<bool>, heard: bool)
    requires Served(turns) && |early| == |turns| && s.raw.Valid()
  {
    var end := AfterPolls(c, s, turns, early, heard);
    && end.sniffer.metrics == s.sniffer.metrics + Reports(c, turns, early, heard)
    && end.wire == s.wire + AllRequests(WiringOf(c), turns)
  }

  lemma AddsStep(c: ReceiverConfig, s: Station, turns: seq<Turn>, early: seq<bool>, heard: bool)
    requires Served(turns) && |early| == |turns| && turns != [] && s.raw.Valid()
    requires var fate := FateIn(c, turns[0], NextOf(turns), early[0], heard);
      var s1 := AfterTurn(c, s, turns[0], NextOf(turns), fate);
      && s1.sniffer.metrics == s.sniffer.metrics + Report(c, turns[0], NextOf(turns), fate)
      && s1.wire == s.wire + RequestsOf(WiringOf(c), turns[0])
      && Adds(c, s1, turns[1..], early[1..], !fate.Misread?)
    ensures Adds(c, s, turns, early, heard)
  {
    var fate := FateIn(c, turns[0], NextOf(turns), early[0], heard);
    Associative(s.sniffer.metrics, Report(c, turns[0], NextOf(turns), fate), Reports(c, turns[1..], early[1..], !fate.Misread?));
    Associative(s.wire, RequestsOf(WiringOf(c), turns[0]), AllRequests(WiringOf(c), turns[1..]));
  }

  lemma {:induction false} QuietPolls(c: ReceiverConfig, s: Station, turns: seq<Turn>, early: seq<bool>, heard: bool)
    requires QuietlyReady(c, s, turns) && |early| == |turns|
    ensures Adds(c, s, turns, early, heard)
    decreases |turns|
  {
    if turns != [] {
      var t, next := turns[0], NextOf(turns);
      var fate := FateIn(c, t, next, early[0], heard);
      FirstQuietTurn(c, s, turns, fate);
      StillQuiet(c, s, turns, fate);
      QuietPolls(c, AfterTurn(c, s, t, next, fate), turns[1..], early[1..], !fate.Misread?);
      AddsStep(c, s, turns, early, heard);
    }
  }

  /**
   * On an otherwise quiet bus a pass over the list adds exactly what each
   * payload's fate makes of it, in list order, and each poll's requests.
   */
  lemma OnceRunReports(c: ReceiverConfig, s: Station, turns: seq<Turn>, early: seq<bool>)
    requires QuietlyReady(c, s, turns) && |early| == |turns|
    requires |turns| == |c.sdo.poll.objects| && forall k :: 0 <= k < |turns| ==> turns[k].target == c.sdo.poll.objects[k]
    ensures var (s', results) := Polls(WiringOf(c), s, turns, early, false);
      && AllOk(results, |c.sdo.poll.objects|)
      && s'.sniffer.metrics == s.sniffer.metrics + Reports(c, turns, early, true)
      && s'.wire == s.wire + AllRequests(WiringOf(c), turns)
  {
    AllPollsComplete(c, s, turns, early, true, false);
    QuietPolls(c, s, turns, early, true);
  }

  // ---------------------------------------------------------------------
  // Validated configurations that lose or misread a payload
  // ---------------------------------------------------------------------

  function ByteObject(nodeID: Byte, index: Word): SdoObject {
    SdoObject(nodeID, index, 0, [Uint8At("f", 0)])
  }

  /** Two objects polled once each. */
  function PairConfig(channels: seq<SdoChannel>, o: SdoObject, u: SdoObject): ReceiverConfig {
    ReceiverConfig(
      SdoConfig(SniffConfig(channels, []), PollConfig(Once, 0, 0, false, 0, 0, None, [o, u])),
      RawConfig(RawSniff(false, false, [], []), []), [], EventConfig(false, false), EventConfig(false, false), true, true)
  }

  /** A poll answered with one byte on an otherwise quiet bus. */
  function ByteTurn(c: ReceiverConfig, o: SdoObject, value: Byte): Turn {
    Turn(o, Server(PollChannel(c, o).client, PollChannel(c, o).server, Address(o.index, o.subIndex), InOne(true, [value]), [], false), [])
  }

  const Start: Station := Station(Fresh, None, Shared(None, []), [])

  lemma ByteFieldsValid(nodeID: Byte, index: Word)
    ensures ValidFields(ByteObject(nodeID, index).fields) && OrdinaryFields(ByteObject(nodeID, index).fields)
  {
    assert ValidField(Uint8At("f", 0));
  }

  /** Both are byte objects, and nothing else claims their COB-IDs. */
  ghost predicate PairSound(channels: seq<SdoChannel>, o: SdoObject, u: SdoObject) {
    && o == ByteObject(o.nodeID, o.index) && u == ByteObject(u.nodeID, u.index)
    && 1 <= o.nodeID <= 127 && 1 <= u.nodeID <= 127 && KeyOf(o) != KeyOf(u)
    && (forall d :: d in channels ==> ValidChannel(d)) && DistinctCobIDs(channels) && |channels| <= 1
    && Unclaimed(PairConfig(channels, o, u), o) && Unclaimed(PairConfig(channels, o, u), u)
  }

  lemma PairReady(channels: seq<SdoChannel>, o: SdoObject, u: SdoObject, x: Byte, y: Byte)
    requires PairSound(channels, o, u)
    ensures var c := PairConfig(channels, o, u);
      ValidConfig(c) && AllReady(c, Start, PairOf(c, o, u, x, y))
  {
    var c := PairConfig(channels, o, u);
    ByteFieldsValid(o.nodeID, o.index);
    ByteFieldsValid(u.nodeID, u.index);
    assert c.sdo.poll.objects == [o, u];
    assert ValidObject(o) && ValidObject(u);
  }

  lemma PairReports(c: ReceiverConfig, t: Turn, u: Turn)
    requires t.server.Valid() && u.server.Valid() && t.server.answer.InOne? && SameKey(c, t, u)
    ensures var misread := SameAddress(t.target, u.target);
      Reports(c, [t, u], [true, false], true)
      == Report(c, t, Some(u), if misread then Misread else Lost) + Report(c, u, None, if misread then Lost else Decoded)
  {
    var fate := FateIn(c, t, Some(u), true, true);
    assert [t, u][1..] == [u] && [true, false][1..] == [false];
    assert Reports(c, [u], [false], !fate.Misread?) == Report(c, u, None, if fate.Misread? then Lost else Decoded) by {
      assert [u][1..] == [] && [false][1..] == [];
    }
  }

  lemma PairMetrics(c: ReceiverConfig, o: SdoObject, u: SdoObject, x: Byte, y: Byte)
    requires c.metricsOn && PollKey(c, o) == PollKey(c, u)
    ensures Reports(c, PairOf(c, o, u, x, y), [true, false], true)
         == FieldMetrics(u.fields, if SameAddress(o, u) then [x] else [y], SourceOf(u))
  {
    PairReports(c, ByteTurn(c, o, x), ByteTurn(c, u, y));
  }

  /** From the start, a pass ends with every poll ok and with just these metrics. */
  ghost predicate Leaves(c: ReceiverConfig, turns: seq<Turn>, early: seq<bool>, metrics: seq<Metric>)
    requires Served(turns) && |early| == |turns|
  {
    var (s, results) := Polls(WiringOf(c), Start, turns, early, false);
    AllOk(results, |turns|) && s.sniffer.metrics == metrics
  }

  lemma FromStart(c: ReceiverConfig, turns: seq<Turn>, early: seq<bool>)
    requires QuietlyReady(c, Start, turns) && |early| == |turns|
    requires |turns| == |c.sdo.poll.objects| && forall k :: 0 <= k < |turns| ==> turns[k].target == c.sdo.poll.objects[k]
    ensures Leaves(c, turns, early, Reports(c, turns, early, true))
  {
    OnceRunReports(c, Start, turns, early);
    assert [] + Reports(c, turns, early, true) == Reports(c, turns, early, true);
  }

  function PairOf(c: ReceiverConfig, o: SdoObject, u: SdoObject, x: Byte, y: Byte): (turns: seq<Turn>)
    ensures |turns| == 2 && Served(turns)
  {
    [ByteTurn(c, o, x), ByteTurn(c, u, y)]
  }

  /** Two objects on one channel, the second poll overtaking the sniffer. */
  lemma PairLeaves(channels: seq<SdoChannel>, o: SdoObject, u: SdoObject, x: Byte, y: Byte)
    requires PairSound(channels, o, u) && PollKey(PairConfig(channels, o, u), o) == PollKey(PairConfig(channels, o, u), u)
    ensures var c := PairConfig(channels, o, u);
      && ValidConfig(c)
      && Leaves(c, PairOf(c, o, u, x, y), [true, false],
                FieldMetrics(u.fields, if SameAddress(o, u) then [x] else [y], SourceOf(u)))
  {
    var c := PairConfig(channels, o, u);
    PairReady(channels, o, u, x, y);
    PairMetrics(c, o, u, x, y);
    FromStart(c, PairOf(c, o, u, x, y), [true, false]);
  }

  /** Two objects of one node: both polls succeed, and the first value appears nowhere. */
  lemma OvertakenLosesMetric(x: Byte, y: Byte)
    ensures var o, u := ByteObject(1, 0x2000), ByteObject(1, 0x2001);
      var c := PairConfig([], o, u);
      ValidConfig(c) && Leaves(c, PairOf(c, o, u, x, y), [true, false], FieldMetrics(u.fields, [y], SourceOf(u)))
  {
    assert ChannelsByNode([]) == map[];
    PairLeaves([], ByteObject(1, 0x2000), ByteObject(1, 0x2001), x, y);
  }

  lemma ShadowingPair()
    ensures var channels, o, u := [SdoChannel(9, 5, 6)], ByteObject(9, 0x2000), ByteObject(5, 0x2000);
      var c := PairConfig(channels, o, u);
      PairSound(channels, o, u) && PollKey(c, o) == 5 && PollKey(c, u) == 5
  {
    var channels := [SdoChannel(9, 5, 6)];
    assert channels[..0] == [];
    assert ChannelsByNode(channels) == map[9 := SdoChannel(9, 5, 6)];
  }

  /** A node and another node's channel with that number as client COB-ID: one node's value is reported as the other's. */
  lemma OvertakenMisreadsMetric(x: Byte, y: Byte)
    ensures var o, u := ByteObject(9, 0x2000), ByteObject(5, 0x2000);
      var c := PairConfig([SdoChannel(9, 5, 6)], o, u);
      ValidConfig(c) && Leaves(c, PairOf(c, o, u, x, y), [true, false], FieldMetrics(u.fields, [x], SourceOf(u)))
  {
    ShadowingPair();
    PairLeaves([SdoChannel(9, 5, 6)], ByteObject(9, 0x2000), ByteObject(5, 0x2000), x, y);
  }
}
