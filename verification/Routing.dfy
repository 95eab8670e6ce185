/** What a validated configuration guarantees about routing, object lookup and NMT logs. */
module Routing {
  import opened Bytes
  import opened Bus
  import opened Config
  import opened SdoMessages
  import opened SdoObserver
  import opened SdoPoller
  import opened Sniffer

  /** Declared shapes by COB-ID, in order. */
  function MessagesByID(messages: seq<RawMessage>): map<nat, seq<RawMessage>> {
    if messages == [] then map[]
    else
      var n := |messages| - 1;
      var earlier, id := MessagesByID(messages[..n]), messages[n].cobID;
      earlier[id := (if id in earlier then earlier[id] else []) + [messages[n]]]
  }

  /** The last PDO declared on each COB-ID. */
  function PdosByID(pdos: seq<Pdo>): map<nat, Pdo> {
    if pdos == [] then map[]
    else
      var n := |pdos| - 1;
      PdosByID(pdos[..n])[pdos[n].cobID := pdos[n]]
  }

  function SnifferConfigOf(c: ReceiverConfig): SnifferConfig {
    var raw := c.raw.sniff;
    SnifferConfig(
      (set x | x in raw.cobIDs) + (set m | m in raw.messages :: m.cobID), MessagesByID(raw.messages), PdosByID(c.pdos),
      c.sdo.sniff.channels, c.sdo.sniff.objects + c.sdo.poll.objects,
      EventConfig(raw.metrics, raw.logs), c.heartbeat, c.emcy, c.metricsOn, c.logsOn)
  }

  method BuildSnifferConfig(c: ReceiverConfig) returns (r: SnifferConfig)
    ensures r == SnifferConfigOf(c)
  {
    var objects: seq<SdoObject> := [];
    for i := 0 to |c.sdo.sniff.objects|
      invariant objects == c.sdo.sniff.objects[..i]
    {
      objects := objects + [c.sdo.sniff.objects[i]];
    }
    for i := 0 to |c.sdo.poll.objects|
      invariant objects == c.sdo.sniff.objects + c.sdo.poll.objects[..i]
    {
      objects := objects + [c.sdo.poll.objects[i]];
    }
    var cobIDs, messages := CollectRaw(c.raw.sniff);
    var pdos := CollectPdos(c.pdos);
    r := SnifferConfig(cobIDs, messages, pdos, c.sdo.sniff.channels, objects,
                       EventConfig(c.raw.sniff.metrics, c.raw.sniff.logs), c.heartbeat, c.emcy, c.metricsOn, c.logsOn);
  }

  method CollectRaw(raw: RawSniff) returns (cobIDs: set<nat>, byID: map<nat, seq<RawMessage>>)
    ensures cobIDs == (set x | x in raw.cobIDs) + (set m | m in raw.messages :: m.cobID)
    ensures byID == MessagesByID(raw.messages)
  {
    cobIDs, byID := {}, map[];
    for i := 0 to |raw.cobIDs|
      invariant cobIDs == set k | 0 <= k < i :: raw.cobIDs[k]
    {
      cobIDs := cobIDs + {raw.cobIDs[i]};
    }
    for i := 0 to |raw.messages|
      invariant cobIDs == (set x | x in raw.cobIDs) + (set k | 0 <= k < i :: raw.messages[k].cobID)
      invariant byID == MessagesByID(raw.messages[..i])
    {
      var id := raw.messages[i].cobID;
      assert raw.messages[..i + 1][..i] == raw.messages[..i];
      byID := byID[id := (if id in byID then byID[id] else []) + [raw.messages[i]]];
      cobIDs := cobIDs + {id};
    }
    assert raw.messages[..|raw.messages|] == raw.messages;
  }

  method CollectPdos(pdos: seq<Pdo>) returns (byID: map<nat, Pdo>)
    ensures byID == PdosByID(pdos)
  {
    byID := map[];
    for i := 0 to |pdos|
      invariant byID == PdosByID(pdos[..i])
    {
      assert pdos[..i + 1][..i] == pdos[..i];
      byID := byID[pdos[i].cobID := pdos[i]];
    }
    assert pdos[..|pdos|] == pdos;
  }

  lemma {:induction false} MessagesByIDIn(messages: seq<RawMessage>)
    ensures forall id, m :: id in MessagesByID(messages) && m in MessagesByID(messages)[id] ==> m in messages && m.cobID == id
  {
    if messages != [] {
      var n := |messages| - 1;
      var earlier, byID := MessagesByID(messages[..n]), MessagesByID(messages);
      MessagesByIDIn(messages[..n]);
      forall id, m | id in byID && m in byID[id] ensures m in messages && m.cobID == id {
        if id == messages[n].cobID && m == messages[n] {
        } else {
          assert id in earlier && m in earlier[id] && m in messages[..n];
        }
      }
    }
  }

  lemma {:induction false} PdosByIDIn(pdos: seq<Pdo>)
    ensures forall id :: id in PdosByID(pdos) ==> PdosByID(pdos)[id] in pdos && PdosByID(pdos)[id].cobID == id
  {
    if pdos != [] {
      PdosByIDIn(pdos[..|pdos| - 1]);
    }
  }

  /** A validated list of raw messages gives the sniffer readable ones. */
  lemma ValidatedReadable(c: ReceiverConfig)
    requires ValidRawSniff(c.raw.sniff)
    ensures ReadableMessages(SnifferConfigOf(c))
  {
    MessagesByIDIn(c.raw.sniff.messages);
  }

  // ---------------------------------------------------------------------
  // Configurations that never panic
  // ---------------------------------------------------------------------

  ghost predicate ValidConfig(c: ReceiverConfig) {
    ValidSdo(c.sdo) && ValidRaw(c.raw) && ValidPdos(c.pdos)
  }

  /** Every field that can be decoded is ordinary. */
  predicate OrdinaryConfig(c: ReceiverConfig) {
    && (forall o :: o in c.sdo.sniff.objects ==> OrdinaryFields(o.fields))
    && (forall o :: o in c.sdo.poll.objects ==> OrdinaryFields(o.fields))
    && (forall m :: m in c.raw.sniff.messages ==> OrdinaryFields(m.fields))
    && (forall p :: p in c.pdos ==> OrdinaryFields(p.fields))
    && (forall t :: t in c.raw.transactions ==> OrdinaryFields(t.response.fields))
  }

  lemma OrdinaryConfigSniffer(c: ReceiverConfig)
    requires ValidConfig(c) && OrdinaryConfig(c)
    ensures OrdinarySniffer(SnifferConfigOf(c))
  {
    MessagesByIDIn(c.raw.sniff.messages);
    PdosByIDIn(c.pdos);
    assert forall o :: o in c.sdo.sniff.objects ==> ValidObject(o);
    assert forall o :: o in c.sdo.poll.objects ==> ValidObject(o);
    assert forall m :: m in c.raw.sniff.messages ==> ValidMessage(m);
    assert forall p :: p in c.pdos ==> ValidPdo(p);
  }

  // ---------------------------------------------------------------------
  // A polled object's frames
  // ---------------------------------------------------------------------

  lemma {:induction false} ChannelForUser(channels: seq<SdoChannel>, id: nat)
    ensures ChannelFor(channels, id).Some? <==> exists c :: c in channels && Uses(c, id)
    ensures ChannelFor(channels, id).Some? ==>
      ChannelFor(channels, id).value in channels && Uses(ChannelFor(channels, id).value, id)
  {
    if channels != [] {
      var n := |channels| - 1;
      ChannelForUser(channels[..n], id);
      assert channels == channels[..n] + [channels[n]];
    }
  }

  /** Of several channels that use a COB-ID the last one counts ... */
  lemma {:induction false} ChannelForLast(channels: seq<SdoChannel>, id: nat, i: nat)
    requires i < |channels| && Uses(channels[i], id) && forall j :: i < j < |channels| ==> !Uses(channels[j], id)
    ensures ChannelFor(channels, id) == Some(channels[i])
  {
    var n := |channels| - 1;
    if i < n {
      assert !Uses(channels[n], id);
      ChannelForLast(channels[..n], id, i);
    }
  }

  /** ... as of several channels of a node, and of several PDOs on a COB-ID ... */
  lemma {:induction false} ChannelsByNodeLast(channels: seq<SdoChannel>, nodeID: Byte, i: nat)
    requires i < |channels| && channels[i].nodeID == nodeID && forall j :: i < j < |channels| ==> channels[j].nodeID != nodeID
    ensures nodeID in ChannelsByNode(channels) && ChannelsByNode(channels)[nodeID] == channels[i]
  {
    var n := |channels| - 1;
    if i < n {
      assert channels[n].nodeID != nodeID;
      ChannelsByNodeLast(channels[..n], nodeID, i);
    }
  }

  lemma {:induction false} PdosByIDLast(pdos: seq<Pdo>, id: nat, i: nat)
    requires i < |pdos| && pdos[i].cobID == id && forall j :: i < j < |pdos| ==> pdos[j].cobID != id
    ensures id in PdosByID(pdos) && PdosByID(pdos)[id] == pdos[i]
  {
    var n := |pdos| - 1;
    if i < n {
      assert pdos[n].cobID != id;
      PdosByIDLast(pdos[..n], id, i);
    }
  }

  /** ... but of several objects with one address the first. */
  lemma {:induction false} FirstObjectIsFirst(objects: seq<SdoObject>, key: ObjectKey, i: nat)
    requires i < |objects| && KeyOf(objects[i]) == key && forall j :: 0 <= j < i ==> KeyOf(objects[j]) != key
    ensures FirstObject(objects, key) == Some(objects[i])
  {
    if i > 0 {
      assert KeyOf(objects[0]) != key;
      FirstObjectIsFirst(objects[1..], key, i - 1);
    }
  }

  /** A polled node's configured channel, if it has one, is the one it is polled on. */
  lemma PollChannelConfigured(c: ReceiverConfig, o: SdoObject, d: SdoChannel)
    requires ValidSdo(c.sdo) && o in c.sdo.poll.objects && d in c.sdo.sniff.channels && d.nodeID == o.nodeID
    ensures PollChannel(c, o) == d && PollKey(c, o) == d.client
  {
    ChannelsByNodeIn(c.sdo.sniff.channels, o.nodeID);
    var e := ChannelsByNode(c.sdo.sniff.channels)[o.nodeID];
    var i :| 0 <= i < |c.sdo.sniff.channels| && c.sdo.sniff.channels[i] == d;
    var j :| 0 <= j < |c.sdo.sniff.channels| && c.sdo.sniff.channels[j] == e;
    assert i == j;
  }

  /** ... and otherwise it is polled on its predefined COB-IDs. */
  lemma PollChannelPredefined(c: ReceiverConfig, o: SdoObject)
    requires forall d :: d in c.sdo.sniff.channels ==> d.nodeID != o.nodeID
    ensures PollChannel(c, o).client == 0x600 + o.nodeID && PollChannel(c, o).server == 0x580 + o.nodeID
    ensures PollKey(c, o) == o.nodeID
  {
    ChannelsByNodeIn(c.sdo.sniff.channels, o.nodeID);
  }

  /** With distinct COB-IDs, a channel owns its two. */
  lemma ChannelForOwner(channels: seq<SdoChannel>, c: SdoChannel, id: nat)
    requires DistinctCobIDs(channels) && c in channels && Uses(c, id)
    ensures ChannelFor(channels, id) == Some(c)
  {
    ChannelForUser(channels, id);
    var d := ChannelFor(channels, id).value;
    var i :| 0 <= i < |channels| && channels[i] == c;
    var j :| 0 <= j < |channels| && channels[j] == d;
    assert id in {c.client, c.server} && id in {d.client, d.server};
  }

  lemma {:induction false} ChannelsByNodeIn(channels: seq<SdoChannel>, nodeID: Byte)
    ensures nodeID in ChannelsByNode(channels) <==> exists c :: c in channels && c.nodeID == nodeID
    ensures nodeID in ChannelsByNode(channels) ==>
      ChannelsByNode(channels)[nodeID] in channels && ChannelsByNode(channels)[nodeID].nodeID == nodeID
  {
    if channels != [] {
      var n := |channels| - 1;
      ChannelsByNodeIn(channels[..n], nodeID);
      assert channels == channels[..n] + [channels[n]];
    }
  }

  /** The route of data frames with a standard identifier. */
  function RouteOfID(cfg: SnifferConfig, id: nat): Route {
    RouteOf(cfg, Frame(id, false, []))
  }

  function PollChannel(c: ReceiverConfig, o: SdoObject): SdoChannel {
    ChannelOf(ChannelsByNode(c.sdo.sniff.channels), o.nodeID)
  }

  /** The key of the channel a polled node is reached on. */
  function PollKey(c: ReceiverConfig, o: SdoObject): ChannelKey {
    if o.nodeID in ChannelsByNode(c.sdo.sniff.channels) then PollChannel(c, o).client else o.nodeID
  }

  /** No other use of the polled object's two COB-IDs comes first. */
  predicate Unclaimed(c: ReceiverConfig, o: SdoObject) {
    var cfg, ch := SnifferConfigOf(c), PollChannel(c, o);
    && {ch.client, ch.server} !! cfg.rawCobIDs && {ch.client, ch.server} !! cfg.pdos.Keys
    && (o.nodeID !in ChannelsByNode(cfg.channels) ==>
          forall d :: d in cfg.channels ==> !Uses(d, ch.client) && !Uses(d, ch.server))
  }

  /** The sniffer sees the poller's requests and the replies on one channel, in opposite directions. */
  predicate RoutesAgree(c: ReceiverConfig, o: SdoObject) {
    var cfg, ch, key := SnifferConfigOf(c), PollChannel(c, o), PollKey(c, o);
    && RouteOfID(cfg, ch.client) == Sdo(key, o.nodeID, ClientToServer)
    && RouteOfID(cfg, ch.server) == Sdo(key, o.nodeID, ServerToClient)
  }

  /** ... exactly when neither COB-ID is claimed for something else. */
  lemma RoutingExact(c: ReceiverConfig, o: SdoObject)
    requires ValidSdo(c.sdo) && o in c.sdo.poll.objects
    ensures RoutesAgree(c, o) <==> Unclaimed(c, o)
  {
    var cfg, ch := SnifferConfigOf(c), PollChannel(c, o);
    assert ValidObject(o);
    ChannelsByNodeIn(cfg.channels, o.nodeID);
    ChannelForUser(cfg.channels, ch.client);
    ChannelForUser(cfg.channels, ch.server);
    if o.nodeID in ChannelsByNode(cfg.channels) {
      ChannelForOwner(cfg.channels, ch, ch.client);
      ChannelForOwner(cfg.channels, ch, ch.server);
    } else {
      PredefinedID(0x600, o.nodeID);
      PredefinedID(0x580, o.nodeID);
    }
  }

  lemma PredefinedID(base: nat, nodeID: Byte)
    requires base % 128 == 0 && nodeID < 128
    ensures (base + nodeID) / 128 * 128 == base && (base + nodeID) % 128 == nodeID
  {
  }

  /** The object index holds a polled object's own fields, whichever list declared it first. */
  lemma PolledFieldsIndexed(c: ReceiverConfig, o: SdoObject)
    requires ValidSdo(c.sdo) && o in c.sdo.poll.objects
    ensures FirstObject(SnifferConfigOf(c).objects, KeyOf(o)).Some?
    ensures FirstObject(SnifferConfigOf(c).objects, KeyOf(o)).value.fields == o.fields
  {
    var objects := SnifferConfigOf(c).objects;
    FirstObjectFound(objects, o);
    var f := FirstObject(objects, KeyOf(o)).value;
    if f !in c.sdo.sniff.objects {
      var i :| 0 <= i < |c.sdo.poll.objects| && c.sdo.poll.objects[i] == f;
      var j :| 0 <= j < |c.sdo.poll.objects| && c.sdo.poll.objects[j] == o;
      assert KeyOf(c.sdo.poll.objects[i]) == KeyOf(c.sdo.poll.objects[j]);
      assert i == j;
    }
  }

  lemma {:induction false} FirstObjectFound(objects: seq<SdoObject>, o: SdoObject)
    requires o in objects
    ensures var f := FirstObject(objects, KeyOf(o)); f.Some? && f.value in objects && KeyOf(f.value) == KeyOf(o)
  {
    if KeyOf(objects[0]) != KeyOf(o) {
      FirstObjectFound(objects[1..], o);
    }
  }

  // ---------------------------------------------------------------------
  // Channel keys
  // ---------------------------------------------------------------------

  datatype SdoIdentity = Configured(channel: SdoChannel) | Predefined(nodeID: Byte)

  /** Which SDO channel a COB-ID really belongs to. */
  function IdentityOf(cfg: SnifferConfig, id: nat): SdoIdentity {
    match ChannelFor(cfg.channels, id)
    case Some(c) => Configured(c)
    case None => Predefined(id % 128)
  }

  /** Two COB-IDs share transfer state only if they belong to one channel. */
  predicate SameKeySameChannel(cfg: SnifferConfig, x: nat, y: nat) {
    var r, s := RouteOfID(cfg, x), RouteOfID(cfg, y);
    r.Sdo? && s.Sdo? && r.key == s.key ==> IdentityOf(cfg, x) == IdentityOf(cfg, y)
  }

  /** `x` is a configured channel's COB-ID and `y` the predefined one of the node its client COB-ID numbers. */
  predicate Clash(cfg: SnifferConfig, x: nat, y: nat) {
    && RouteOfID(cfg, x).Sdo? && RouteOfID(cfg, y).Sdo?
    && IdentityOf(cfg, x).Configured? && IdentityOf(cfg, y).Predefined?
    && IdentityOf(cfg, x).channel.client == IdentityOf(cfg, y).nodeID
  }

  /** Neither captured raw nor mapped to a PDO. */
  predicate Free(cfg: SnifferConfig, id: nat) {
    id !in cfg.rawCobIDs && id !in cfg.pdos
  }

  predicate Unused(cfg: SnifferConfig, id: nat) {
    forall c :: c in cfg.channels ==> !Uses(c, id)
  }

  /** The client COB-ID is a node's number, and SDO frames of both the channel and the node are observed. */
  predicate Shadows(cfg: SnifferConfig, c: SdoChannel) {
    && 1 <= c.client <= 127 && (Free(cfg, c.client) || Free(cfg, c.server))
    && ((Free(cfg, 0x580 + c.client) && Unused(cfg, 0x580 + c.client))
        || (Free(cfg, 0x600 + c.client) && Unused(cfg, 0x600 + c.client)))
  }

  /** Channel keys are unambiguous exactly when no configured channel shadows a node. */
  lemma KeysExact(cfg: SnifferConfig)
    requires (forall c :: c in cfg.channels ==> ValidChannel(c)) && DistinctCobIDs(cfg.channels)
    ensures (forall x, y :: SameKeySameChannel(cfg, x, y)) <==> !exists c :: c in cfg.channels && Shadows(cfg, c)
  {
    if c :| c in cfg.channels && Shadows(cfg, c) {
      var x, y := ShadowClashes(cfg, c);
      assert !SameKeySameChannel(cfg, x, y);
    } else {
      forall x, y ensures SameKeySameChannel(cfg, x, y) {
        if Clash(cfg, x, y) {
          ClashShadows(cfg, x, y);
          assert false;
        }
        if Clash(cfg, y, x) {
          ClashShadows(cfg, y, x);
          assert false;
        }
        KeysOfTwo(cfg, x, y);
      }
    }
  }

  lemma ShadowClashes(cfg: SnifferConfig, c: SdoChannel) returns (x: nat, y: nat)
    requires DistinctCobIDs(cfg.channels) && c in cfg.channels && Shadows(cfg, c)
    ensures Clash(cfg, x, y) && IdentityOf(cfg, x) == Configured(c) && RouteOfID(cfg, x).key == RouteOfID(cfg, y).key
  {
    x := if Free(cfg, c.client) then c.client else c.server;
    y := if Free(cfg, 0x580 + c.client) && Unused(cfg, 0x580 + c.client) then 0x580 + c.client else 0x600 + c.client;
    ChannelForOwner(cfg.channels, c, x);
    ChannelForUser(cfg.channels, y);
    PredefinedID(0x580, c.client);
    PredefinedID(0x600, c.client);
  }

  lemma ClashShadows(cfg: SnifferConfig, x: nat, y: nat)
    requires Clash(cfg, x, y)
    ensures IdentityOf(cfg, x).channel in cfg.channels && Shadows(cfg, IdentityOf(cfg, x).channel)
  {
    var c := IdentityOf(cfg, x).channel;
    ChannelForUser(cfg.channels, x);
    ChannelForUser(cfg.channels, y);
    assert y == 0x580 + c.client || y == 0x600 + c.client;
  }

  /** Validation accepts a configuration in which node 5 and a channel of node 9 share transfer state. */
  lemma ShadowAccepted(c: ReceiverConfig)
    requires c.sdo == SdoConfig(
      SniffConfig([SdoChannel(9, 5, 6)], []), PollConfig(Once, 0, 0, false, 0, 0, None, []))
    requires c.raw == RawConfig(RawSniff(false, false, [], []), []) && c.pdos == []
    ensures ValidConfig(c)
    ensures var cfg := SnifferConfigOf(c);
      && RouteOfID(cfg, 5) == Sdo(5, 9, ClientToServer) && RouteOfID(cfg, 0x605) == Sdo(5, 5, ClientToServer)
      && !SameKeySameChannel(cfg, 5, 0x605)
  {
    var cfg := SnifferConfigOf(c);
    ChannelForOwner(cfg.channels, SdoChannel(9, 5, 6), 5);
    ChannelForUser(cfg.channels, 0x605);
  }

  lemma KeysOfTwo(cfg: SnifferConfig, x: nat, y: nat)
    requires DistinctCobIDs(cfg.channels) && !Clash(cfg, x, y) && !Clash(cfg, y, x)
    ensures SameKeySameChannel(cfg, x, y)
  {
    var a, b := IdentityOf(cfg, x), IdentityOf(cfg, y);
    ChannelForUser(cfg.channels, x);
    ChannelForUser(cfg.channels, y);
    if a.Configured? && b.Configured? && a.channel.client == b.channel.client {
      ChannelForOwner(cfg.channels, a.channel, a.channel.client);
      ChannelForOwner(cfg.channels, b.channel, b.channel.client);
    }
  }

  /** So client COB-IDs above 0x7F, as in every conventional assignment, are enough. */
  lemma ConventionalKeysDistinct(cfg: SnifferConfig, x: nat, y: nat)
    requires (forall c :: c in cfg.channels ==> ValidChannel(c) && c.client > 0x7F) && DistinctCobIDs(cfg.channels)
    ensures SameKeySameChannel(cfg, x, y)
  {
    ChannelForUser(cfg.channels, x);
    ChannelForUser(cfg.channels, y);
    KeysOfTwo(cfg, x, y);
  }

  // ---------------------------------------------------------------------
  // Heartbeats
  // ---------------------------------------------------------------------

  ghost function SniffAll(cfg: SnifferConfig, st: SnifferState, frames: seq<Frame>): SnifferState {
    if frames == [] then st
    else SniffStep(cfg, SniffAll(cfg, st, frames[..|frames| - 1]), frames[|frames| - 1])
  }

  /** A standard frame on 0x700 + n that nothing else claims. */
  predicate IsHeartbeat(cfg: SnifferConfig, n: Byte, f: Frame) {
    && n < 128 && !f.extended && f.id == 0x700 + n
    && f.id !in cfg.rawCobIDs && f.id !in cfg.pdos && ChannelFor(cfg.channels, f.id).None?
  }

  lemma HeartbeatRoute(cfg: SnifferConfig, n: Byte, f: Frame)
    ensures RouteOf(cfg, f) == Heartbeat(n) <==> IsHeartbeat(cfg, n, f)
  {
  }

  /** The NMT state a frame reports for node `n`, if it does. */
  function Beat(cfg: SnifferConfig, n: Byte, f: Frame): seq<Byte> {
    if IsHeartbeat(cfg, n, f) && f.data != [] then [f.data[0]] else []
  }

  function Beats(cfg: SnifferConfig, n: Byte, frames: seq<Frame>): seq<Byte> {
    if frames == [] then []
    else Beats(cfg, n, frames[..|frames| - 1]) + Beat(cfg, n, frames[|frames| - 1])
  }

  /** A sequence with consecutive repeats removed. */
  function Compressed(xs: seq<Byte>): seq<Byte> {
    if |xs| <= 1 then xs
    else
      var n := |xs| - 1;
      Compressed(xs[..n]) + if xs[n] == xs[n - 1] then [] else [xs[n]]
  }

  function NmtLogs(n: Byte, logs: seq<LogRecord>): seq<Byte> {
    if logs == [] then []
    else
      var k := |logs| - 1;
      NmtLogs(n, logs[..k]) + if logs[k].NmtLog? && logs[k].nodeID == n then [logs[k].state] else []
  }

  function NmtMetrics(n: Byte, metrics: seq<Metric>): seq<Byte> {
    if metrics == [] then []
    else
      var k := |metrics| - 1;
      NmtMetrics(n, metrics[..k]) + if metrics[k].NmtMetric? && metrics[k].nodeID == n then [metrics[k].state] else []
  }

  lemma NmtLogsAppend(n: Byte, logs: seq<LogRecord>, more: seq<LogRecord>)
    requires |more| <= 1
    ensures NmtLogs(n, logs + more)
         == NmtLogs(n, logs) + if more != [] && more[0].NmtLog? && more[0].nodeID == n then [more[0].state] else []
  {
    if more == [] {
      assert logs + more == logs;
    } else {
      assert (logs + more)[..|logs|] == logs;
    }
  }

  lemma {:induction false} NmtMetricsAppend(n: Byte, metrics: seq<Metric>, more: seq<Metric>)
    requires forall m :: m in more ==> !m.NmtMetric?
    ensures NmtMetrics(n, metrics + more) == NmtMetrics(n, metrics)
    decreases |more|
  {
    if more == [] {
      assert metrics + more == metrics;
    } else {
      var all := metrics + more;
      assert all[..|all| - 1] == metrics + more[..|more| - 1];
      assert all[|all| - 1] == more[|more| - 1] && more[|more| - 1] in more;
      NmtMetricsAppend(n, metrics, more[..|more| - 1]);
    }
  }

  lemma NmtMetricsSnoc(n: Byte, metrics: seq<Metric>, more: seq<Metric>)
    requires |more| <= 1
    ensures NmtMetrics(n, metrics + more)
         == NmtMetrics(n, metrics) + if more != [] && more[0].NmtMetric? && more[0].nodeID == n then [more[0].state] else []
  {
    if more == [] {
      assert metrics + more == metrics;
    } else {
      assert (metrics + more)[..|metrics|] == metrics;
    }
  }

  lemma {:induction false} FieldMetricsOnly(fields: seq<FieldConfig>, data: seq<Byte>, source: Source)
    ensures forall m :: m in FieldMetrics(fields, data, source) ==> m.FieldMetric?
  {
    if fields != [] {
      FieldMetricsOnly(fields[..|fields| - 1], data, source);
    }
  }

  /** Nothing about node states has changed. */
  ghost predicate SameBeats(st: SnifferState, st': SnifferState, n: Byte) {
    && st'.nmt == st.nmt
    && NmtLogs(n, st'.logs) == NmtLogs(n, st.logs) && NmtMetrics(n, st'.metrics) == NmtMetrics(n, st.metrics)
  }

  lemma AppendQuiet(st: SnifferState, st': SnifferState, points: seq<Metric>, records: seq<LogRecord>, n: Byte)
    requires st'.nmt == st.nmt && st'.metrics == st.metrics + points && st'.logs == st.logs + records
    requires (forall m :: m in points ==> !m.NmtMetric?) && |records| <= 1 && (records != [] ==> !records[0].NmtLog?)
    ensures SameBeats(st, st', n)
  {
    NmtMetricsAppend(n, st.metrics, points);
    NmtLogsAppend(n, st.logs, records);
  }

  lemma EmitFieldsQuiet(cfg: SnifferConfig, st: SnifferState, fields: seq<FieldConfig>, data: seq<Byte>, source: Source, n: Byte)
    ensures SameBeats(st, EmitFields(cfg, st, fields, data, source), n)
  {
    var k, body := Reached(fields, data), FieldBody(fields, data);
    FieldMetricsOnly(fields[..k], data, source);
    AppendQuiet(st, EmitFields(cfg, st, fields, data, source),
                if cfg.metricsOn then FieldMetrics(fields[..k], data, source) else [],
                if k == |fields| && cfg.logsOn && body != map[]
                then [FieldsLog(source, body, FieldAttributes(fields, data))] else [], n);
  }

  lemma RawQuiet(cfg: SnifferConfig, st: SnifferState, id: nat, data: seq<Byte>, n: Byte)
    ensures SameBeats(st, RawStep(cfg, st, id, data), n)
  {
    match MessageFor(cfg, id, data) {
      case Some(m) => EmitFieldsQuiet(cfg, st, m.fields, data, MessageSource(id, m.name), n);
      case None =>
        AppendQuiet(st, RawStep(cfg, st, id, data),
                    if cfg.raw.metrics && cfg.metricsOn then [RawMetric(id, data)] else [],
                    if cfg.raw.logs && cfg.logsOn then [RawLog(id, data)] else [], n);
    }
  }

  lemma EmergencyQuiet(cfg: SnifferConfig, st: SnifferState, nodeID: Byte, data: seq<Byte>, n: Byte)
    ensures SameBeats(st, EmergencyStep(cfg, st, nodeID, data), n)
  {
    if |data| >= 3 {
      var code: Word := data[0] as int + 256 * data[1] as int;
      AppendQuiet(st, EmergencyStep(cfg, st, nodeID, data),
                  if cfg.emcy.metrics && cfg.metricsOn then [EmcyMetric(nodeID, data[2])] else [],
                  if cfg.emcy.logs && cfg.logsOn then [EmcyLog(nodeID, code, data[2])] else [], n);
    }
  }

  lemma EventQuiet(cfg: SnifferConfig, st: SnifferState, e: Event, n: Byte)
    ensures SameBeats(st, EmitEvent(cfg, st, e), n)
  {
    var o := FirstObject(cfg.objects, ObjectKey(e.nodeID, e.index, e.subIndex));
    if e.abortCode.None? && o.Some? {
      EmitFieldsQuiet(cfg, st, o.value.fields, e.data,
                      ObjectSource(e.nodeID, e.index, e.subIndex, e.direction, e.operation), n);
    }
  }

  lemma SdoQuiet(cfg: SnifferConfig, st: SnifferState, r: Route, data: seq<Byte>, n: Byte)
    requires r.Sdo?
    ensures SameBeats(st, SdoStep(cfg, st, r, data), n)
  {
    var (m, out) := Observe(st.observer, r.key, r.nodeID, r.direction, data);
    if out.Emitted? {
      EventQuiet(cfg, st.(observer := m), out.event, n);
    }
  }

  /** Only heartbeats say anything about node states. */
  lemma OthersQuiet(cfg: SnifferConfig, st: SnifferState, f: Frame, n: Byte)
    requires !RouteOf(cfg, f).Heartbeat?
    ensures SameBeats(st, SniffStep(cfg, st, f), n)
  {
    var r := RouteOf(cfg, f);
    match r {
      case Captured => RawQuiet(cfg, st, f.id, f.data, n);
      case Mapped(pdo) => EmitFieldsQuiet(cfg, st, pdo.fields, f.data, PdoSource(pdo.name), n);
      case Sdo(_, _, _) => SdoQuiet(cfg, st, r, f.data, n);
      case Emergency(nodeID) => EmergencyQuiet(cfg, st, nodeID, f.data, n);
      case Unclassified =>
    }
  }

  /** What is known and logged about node `n` after it has reported `beats`. */
  ghost predicate Tracked(cfg: SnifferConfig, st: SnifferState, n: Byte, beats: seq<Byte>) {
    && (n in st.nmt <==> beats != [])
    && (beats != [] ==> st.nmt[n] == beats[|beats| - 1])
    && NmtLogs(n, st.logs) == (if cfg.heartbeat.logs && cfg.logsOn then Compressed(beats) else [])
    && NmtMetrics(n, st.metrics) == (if cfg.heartbeat.metrics && cfg.metricsOn then beats else [])
  }

  /** What one non-empty heartbeat of `node` adds about `n`. */
  lemma HeartbeatAdds(cfg: SnifferConfig, st: SnifferState, node: Byte, data: seq<Byte>, n: Byte)
    requires data != []
    ensures var st' := HeartbeatStep(cfg, st, node, data);
      var changed := node !in st.nmt || st.nmt[node] != data[0];
      && NmtLogs(n, st'.logs)
         == NmtLogs(n, st.logs) + (if cfg.heartbeat.logs && cfg.logsOn && changed && node == n then [data[0]] else [])
      && NmtMetrics(n, st'.metrics)
         == NmtMetrics(n, st.metrics) + (if cfg.heartbeat.metrics && cfg.metricsOn && node == n then [data[0]] else [])
  {
    var changed := node !in st.nmt || st.nmt[node] != data[0];
    NmtLogsAppend(n, st.logs, if cfg.heartbeat.logs && cfg.logsOn && changed then [NmtLog(node, data[0])] else []);
    NmtMetricsSnoc(n, st.metrics, if cfg.heartbeat.metrics && cfg.metricsOn then [NmtMetric(node, data[0])] else []);
  }

  lemma HeartbeatTracked(cfg: SnifferConfig, st: SnifferState, node: Byte, data: seq<Byte>, n: Byte, beats: seq<Byte>)
    requires Tracked(cfg, st, n, beats) && data != []
    ensures Tracked(cfg, HeartbeatStep(cfg, st, node, data), n, if node == n then beats + [data[0]] else beats)
  {
    HeartbeatAdds(cfg, st, node, data, n);
    CompressedAppend(beats, data[0]);
  }

  lemma CompressedAppend(xs: seq<Byte>, x: Byte)
    ensures Compressed(xs + [x]) == Compressed(xs) + if xs != [] && xs[|xs| - 1] == x then [] else [x]
  {
    assert (xs + [x])[..|xs|] == xs;
  }

  lemma QuietTracked(cfg: SnifferConfig, st: SnifferState, st': SnifferState, n: Byte, beats: seq<Byte>)
    requires Tracked(cfg, st, n, beats) && SameBeats(st, st', n)
    ensures Tracked(cfg, st', n, beats + [])
  {
    assert beats + [] == beats;
  }

  lemma HeartbeatFrameTracked(cfg: SnifferConfig, st: SnifferState, f: Frame, n: Byte, beats: seq<Byte>)
    requires Tracked(cfg, st, n, beats) && !st.halted && RouteOf(cfg, f).Heartbeat?
    ensures Tracked(cfg, SniffStep(cfg, st, f), n, beats + Beat(cfg, n, f))
  {
    assert beats + [] == beats;
    HeartbeatRoute(cfg, n, f);
    if f.data != [] {
      HeartbeatTracked(cfg, st, RouteOf(cfg, f).nodeID, f.data, n, beats);
    }
  }

  /** One frame of any kind. */
  lemma FrameTracked(cfg: SnifferConfig, st: SnifferState, f: Frame, n: Byte, beats: seq<Byte>)
    requires Tracked(cfg, st, n, beats) && !st.halted
    ensures Tracked(cfg, SniffStep(cfg, st, f), n, beats + Beat(cfg, n, f))
  {
    HeartbeatRoute(cfg, n, f);
    if RouteOf(cfg, f).Heartbeat? {
      HeartbeatFrameTracked(cfg, st, f, n, beats);
    } else {
      OthersQuiet(cfg, st, f, n);
      QuietTracked(cfg, st, SniffStep(cfg, st, f), n, beats);
    }
  }

  /** The frames sniffed before the process ends: all of them unless one makes it panic. */
  ghost function Survived(cfg: SnifferConfig, frames: seq<Frame>): seq<Frame> {
    if frames == [] then []
    else
      var prev := frames[..|frames| - 1];
      if SniffAll(cfg, Fresh, prev).halted then Survived(cfg, prev) else frames
  }

  /**
   * Over any traffic, from any nodes interleaved, the states logged for node
   * `n` are its heartbeat states with consecutive repeats removed, and each of
   * its heartbeats adds one metric.
   */
  lemma {:induction false} HeartbeatsCompressed(cfg: SnifferConfig, frames: seq<Frame>, n: Byte)
    ensures Tracked(cfg, SniffAll(cfg, Fresh, frames), n, Beats(cfg, n, Survived(cfg, frames)))
  {
    if frames != [] {
      var prev, f := frames[..|frames| - 1], frames[|frames| - 1];
      var st := SniffAll(cfg, Fresh, prev);
      HeartbeatsCompressed(cfg, prev, n);
      if !st.halted {
        SurvivedSoFar(cfg, prev);
        FrameTracked(cfg, st, f, n, Beats(cfg, n, prev));
      }
    }
  }

  lemma {:induction false} SurvivedSoFar(cfg: SnifferConfig, frames: seq<Frame>)
    requires !SniffAll(cfg, Fresh, frames).halted
    ensures Survived(cfg, frames) == frames
  {
  }

  /** Traffic never ends the process if every declared field is ordinary. */
  lemma {:induction false} OrdinarySurvives(cfg: SnifferConfig, frames: seq<Frame>)
    requires OrdinarySniffer(cfg)
    ensures !SniffAll(cfg, Fresh, frames).halted && Survived(cfg, frames) == frames
  {
    if frames != [] {
      var prev := frames[..|frames| - 1];
      OrdinarySurvives(cfg, prev);
      SniffNeverHalts(cfg, SniffAll(cfg, Fresh, prev), frames[|frames| - 1]);
    }
  }

  /** Neighbours in a compressed sequence differ. */
  lemma {:induction false} CompressedAlternates(xs: seq<Byte>)
    ensures xs != [] ==> Compressed(xs) != [] && Compressed(xs)[|Compressed(xs)| - 1] == xs[|xs| - 1]
    ensures forall k :: 0 < k < |Compressed(xs)| ==> Compressed(xs)[k - 1] != Compressed(xs)[k]
  {
    if |xs| > 1 {
      CompressedAlternates(xs[..|xs| - 1]);
    }
  }
}
