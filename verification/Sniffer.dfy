/** Routing of received frames, SDO emission and NMT state (internal/sniffer/sniffer.go). */
module Sniffer {
  import opened Bytes
  import opened Bus
  import opened Config
  import opened SdoMessages
  import opened SdoObserver
  import Codec

  /** The sniffer's part of the configuration. */
  datatype SnifferConfig = SnifferConfig(
    rawCobIDs: set<nat>, rawMessages: map<nat, seq<RawMessage>>, pdos: map<nat, Pdo>,
    channels: seq<SdoChannel>, objects: seq<SdoObject>,
    raw: EventConfig, heartbeat: EventConfig, emcy: EventConfig, metricsOn: bool, logsOn: bool)

  /** What a group of decoded fields belongs to. */
  datatype Source =
    | ObjectSource(nodeID: Byte, index: Word, subIndex: Byte, direction: Direction, operation: Operation)
    | PdoSource(name: string)
    | MessageSource(cobID: nat, name: string)
    | TransactionSource(cobID: nat, name: string)

  /** A field's metric carries its settings and its decoded value, before scaling. */
  datatype Metric =
    | NmtMetric(nodeID: Byte, state: Byte)
    | EmcyMetric(nodeID: Byte, register: Byte)
    | RawMetric(cobID: nat, data: seq<Byte>)
    | FieldMetric(source: Source, field: FieldConfig, value: Codec.Value)

  datatype LogRecord =
    | NmtLog(nodeID: Byte, state: Byte)
    | EmcyLog(nodeID: Byte, code: Word, register: Byte)
    | RawLog(cobID: nat, data: seq<Byte>)
    | FieldsLog(source: Source, body: map<string, Codec.Value>, attributes: map<string, Attribute>)

  /** `halted`: decoding has panicked, which ends the process. */
  datatype SnifferState = SnifferState(
    observer: Channels, nmt: map<Byte, Byte>, metrics: seq<Metric>, logs: seq<LogRecord>, halted: bool)

  const Fresh: SnifferState := SnifferState(map[], map[], [], [], false)

  // ---------------------------------------------------------------------
  // Routing
  // ---------------------------------------------------------------------

  datatype Route =
    | Unclassified | Captured
    | Mapped(pdo: Pdo)
    | Sdo(key: ChannelKey, nodeID: Byte, direction: Direction)
    | Heartbeat(nodeID: Byte)
    | Emergency(nodeID: Byte)

  predicate Uses(c: SdoChannel, id: nat) {
    c.client == id || c.server == id
  }

  /** The configured channel a COB-ID belongs to: the last one that uses it. */
  function ChannelFor(channels: seq<SdoChannel>, id: nat): Option<SdoChannel> {
    if channels == [] then None
    else
      var n := |channels| - 1;
      if Uses(channels[n], id) then Some(channels[n]) else ChannelFor(channels[..n], id)
  }

  function RouteOf(cfg: SnifferConfig, f: Frame): Route {
    if f.extended then Unclassified
    else if f.id in cfg.rawCobIDs then Captured
    else if f.id in cfg.pdos then Mapped(cfg.pdos[f.id])
    else
      match ChannelFor(cfg.channels, f.id)
      case Some(c) => Sdo(c.client, c.nodeID, if f.id == c.client then ClientToServer else ServerToClient)
      case None =>
        var funcCode, nodeID := f.id / 128 * 128, f.id % 128;
        if funcCode == 0x700 then Heartbeat(nodeID)
        else if nodeID == 0 then Unclassified
        else if funcCode == 0x080 then Emergency(nodeID)
        else if funcCode == 0x580 then Sdo(nodeID, nodeID, ServerToClient)
        else if funcCode == 0x600 then Sdo(nodeID, nodeID, ClientToServer)
        else Unclassified
  }

  // ---------------------------------------------------------------------
  // Emission
  // ---------------------------------------------------------------------

  /** The first object declared under a key. */
  function FirstObject(objects: seq<SdoObject>, key: ObjectKey): Option<SdoObject> {
    if objects == [] then None
    else if KeyOf(objects[0]) == key then Some(objects[0])
    else FirstObject(objects[1..], key)
  }

  ghost function DecodeField(f: FieldConfig, data: seq<Byte>): Codec.Decoding {
    Codec.DecodeMeaning(data, f.dataType, f.bitOffset, f.byteLen)
  }

  /** How many fields are decoded before one panics. */
  ghost function Reached(fields: seq<FieldConfig>, data: seq<Byte>): (n: nat)
    ensures n <= |fields|
    ensures forall k :: 0 <= k < n ==> !DecodeField(fields[k], data).Crashed?
    ensures n < |fields| ==> DecodeField(fields[n], data).Crashed?
  {
    if fields == [] || DecodeField(fields[0], data).Crashed? then 0
    else 1 + Reached(fields[1..], data)
  }

  /** One metric for each metric field that decodes, in order. */
  ghost function FieldMetrics(fields: seq<FieldConfig>, data: seq<Byte>, source: Source): seq<Metric> {
    if fields == [] then []
    else
      var n := |fields| - 1;
      var d := DecodeField(fields[n], data);
      FieldMetrics(fields[..n], data, source)
      + if d.Decoded? && fields[n].metrics then [FieldMetric(source, fields[n], d.value)] else []
  }

  /** The values of the log fields that decode, by name. */
  ghost function FieldBody(fields: seq<FieldConfig>, data: seq<Byte>): map<string, Codec.Value> {
    if fields == [] then map[]
    else
      var n := |fields| - 1;
      var d := DecodeField(fields[n], data);
      var body := FieldBody(fields[..n], data);
      if d.Decoded? && fields[n].logs then body[fields[n].name := d.value] else body
  }

  /** Their static attributes; a later field's replace an earlier one's. */
  ghost function FieldAttributes(fields: seq<FieldConfig>, data: seq<Byte>): map<string, Attribute> {
    if fields == [] then map[]
    else
      var n := |fields| - 1;
      var attributes := FieldAttributes(fields[..n], data);
      if DecodeField(fields[n], data).Decoded? && fields[n].logs then attributes + fields[n].attributes else attributes
  }

  /** Metrics as far as decoding gets, and one log record if it gets to the end. */
  ghost function EmitFields(cfg: SnifferConfig, st: SnifferState, fields: seq<FieldConfig>, data: seq<Byte>, source: Source)
    : SnifferState
  {
    var n := Reached(fields, data);
    var body := FieldBody(fields, data);
    st.(metrics := st.metrics + (if cfg.metricsOn then FieldMetrics(fields[..n], data, source) else []),
        logs := st.logs + (if n == |fields| && cfg.logsOn && body != map[]
                           then [FieldsLog(source, body, FieldAttributes(fields, data))] else []),
        halted := n < |fields|)
  }

  ghost function EmitEvent(cfg: SnifferConfig, st: SnifferState, e: Event): SnifferState {
    if e.abortCode.Some? then st
    else
      match FirstObject(cfg.objects, ObjectKey(e.nodeID, e.index, e.subIndex))
      case None => st
      case Some(o) =>
        EmitFields(cfg, st, o.fields, e.data, ObjectSource(e.nodeID, e.index, e.subIndex, e.direction, e.operation))
  }

  /** The first declared shape that a captured frame fits. */
  function FirstMatch(messages: seq<RawMessage>, data: seq<Byte>): Option<RawMessage> {
    if messages == [] then None
    else if Matches(messages[0].matches, data) then Some(messages[0])
    else FirstMatch(messages[1..], data)
  }

  function MessageFor(cfg: SnifferConfig, id: nat, data: seq<Byte>): Option<RawMessage> {
    if id in cfg.rawMessages then FirstMatch(cfg.rawMessages[id], data) else None
  }

  /** A captured frame is decoded by its shape, or else reported as it is. */
  ghost function RawStep(cfg: SnifferConfig, st: SnifferState, id: nat, data: seq<Byte>): SnifferState {
    match MessageFor(cfg, id, data)
    case Some(m) => EmitFields(cfg, st, m.fields, data, MessageSource(id, m.name))
    case None =>
      st.(metrics := st.metrics + (if cfg.raw.metrics && cfg.metricsOn then [RawMetric(id, data)] else []),
          logs := st.logs + (if cfg.raw.logs && cfg.logsOn then [RawLog(id, data)] else []))
  }

  function EmergencyStep(cfg: SnifferConfig, st: SnifferState, nodeID: Byte, data: seq<Byte>): SnifferState {
    if |data| < 3 then st
    else
      var code: Word := data[0] as int + 256 * data[1] as int;
      st.(metrics := st.metrics + (if cfg.emcy.metrics && cfg.metricsOn then [EmcyMetric(nodeID, data[2])] else []),
          logs := st.logs + (if cfg.emcy.logs && cfg.logsOn then [EmcyLog(nodeID, code, data[2])] else []))
  }

  /** A heartbeat updates the node's state; a metric always, a log only on a change. */
  function HeartbeatStep(cfg: SnifferConfig, st: SnifferState, nodeID: Byte, data: seq<Byte>): SnifferState {
    if data == [] then st
    else
      var state := data[0];
      var changed := nodeID !in st.nmt || st.nmt[nodeID] != state;
      st.(nmt := st.nmt[nodeID := state],
          metrics := st.metrics + (if cfg.heartbeat.metrics && cfg.metricsOn then [NmtMetric(nodeID, state)] else []),
          logs := st.logs + (if cfg.heartbeat.logs && cfg.logsOn && changed then [NmtLog(nodeID, state)] else []))
  }

  ghost function SdoStep(cfg: SnifferConfig, st: SnifferState, r: Route, data: seq<Byte>): SnifferState
    requires r.Sdo?
  {
    var (m, out) := Observe(st.observer, r.key, r.nodeID, r.direction, data);
    var st' := st.(observer := m);
    if out.Emitted? then EmitEvent(cfg, st', out.event) else st'
  }

  /** One frame. */
  ghost function SniffStep(cfg: SnifferConfig, st: SnifferState, f: Frame): SnifferState {
    if st.halted then st
    else
      var r := RouteOf(cfg, f);
      match r
      case Unclassified => st
      case Captured => RawStep(cfg, st, f.id, f.data)
      case Mapped(pdo) => EmitFields(cfg, st, pdo.fields, f.data, PdoSource(pdo.name))
      case Sdo(_, _, _) => SdoStep(cfg, st, r, f.data)
      case Heartbeat(nodeID) => HeartbeatStep(cfg, st, nodeID, f.data)
      case Emergency(nodeID) => EmergencyStep(cfg, st, nodeID, f.data)
  }

  // ---------------------------------------------------------------------
  // Panics
  // ---------------------------------------------------------------------

  /** An ordinary field never panics; any other panics on every payload that fits in memory. */
  lemma PanicExact(f: FieldConfig, data: seq<Byte>)
    requires ValidField(f)
    ensures Ordinary(f) ==> !DecodeField(f, data).Crashed?
    ensures !Ordinary(f) && 8 * |data| <= MAX_INT64 ==> DecodeField(f, data).Crashed?
  {
  }

  /** Fields that can panic on some payload are exactly those that are not ordinary. */
  lemma PanicsExactly(f: FieldConfig)
    requires ValidField(f)
    ensures (exists data :: DecodeField(f, data).Crashed?) <==> !Ordinary(f)
  {
    PanicExact(f, []);
    if data :| DecodeField(f, data).Crashed? {
      PanicExact(f, data);
    }
  }

  /** All fields are decoded exactly when all are ordinary. */
  lemma ReachedExactly(fields: seq<FieldConfig>, data: seq<Byte>)
    requires ValidFields(fields)
    ensures OrdinaryFields(fields) ==> Reached(fields, data) == |fields|
    ensures 8 * |data| <= MAX_INT64 && Reached(fields, data) == |fields| ==> OrdinaryFields(fields)
  {
    forall k | 0 <= k < |fields|
      ensures Ordinary(fields[k]) ==> !DecodeField(fields[k], data).Crashed?
      ensures !Ordinary(fields[k]) && 8 * |data| <= MAX_INT64 ==> DecodeField(fields[k], data).Crashed?
    {
      assert fields[k] in fields;
      PanicExact(fields[k], data);
    }
  }

  lemma AllFieldsEmitted(cfg: SnifferConfig, st: SnifferState, fields: seq<FieldConfig>, data: seq<Byte>, source: Source)
    requires ValidFields(fields) && OrdinaryFields(fields)
    ensures EmitFields(cfg, st, fields, data, source).metrics
         == st.metrics + if cfg.metricsOn then FieldMetrics(fields, data, source) else []
  {
    ReachedExactly(fields, data);
    assert fields[..|fields|] == fields;
  }

  /** No field the sniffer decodes can panic. */
  ghost predicate OrdinarySniffer(cfg: SnifferConfig) {
    && (forall o :: o in cfg.objects ==> ValidFields(o.fields) && OrdinaryFields(o.fields))
    && (forall id :: id in cfg.pdos ==> ValidFields(cfg.pdos[id].fields) && OrdinaryFields(cfg.pdos[id].fields))
    && forall id, m :: id in cfg.rawMessages && m in cfg.rawMessages[id] ==> ValidFields(m.fields) && OrdinaryFields(m.fields)
  }

  lemma {:induction false} FirstObjectIn(objects: seq<SdoObject>, key: ObjectKey)
    ensures FirstObject(objects, key).Some? ==>
      FirstObject(objects, key).value in objects && KeyOf(FirstObject(objects, key).value) == key
  {
    if objects != [] && KeyOf(objects[0]) != key {
      FirstObjectIn(objects[1..], key);
    }
  }

  lemma {:induction false} FirstMatchIn(messages: seq<RawMessage>, data: seq<Byte>)
    ensures FirstMatch(messages, data).Some? ==>
      FirstMatch(messages, data).value in messages && Matches(FirstMatch(messages, data).value.matches, data)
  {
    if messages != [] && !Matches(messages[0].matches, data) {
      FirstMatchIn(messages[1..], data);
    }
  }

  lemma EventNeverHalts(cfg: SnifferConfig, st: SnifferState, e: Event)
    requires OrdinarySniffer(cfg) && !st.halted
    ensures !EmitEvent(cfg, st, e).halted
  {
    var key := ObjectKey(e.nodeID, e.index, e.subIndex);
    FirstObjectIn(cfg.objects, key);
    if FirstObject(cfg.objects, key).Some? {
      ReachedExactly(FirstObject(cfg.objects, key).value.fields, e.data);
    }
  }

  lemma SniffNeverHalts(cfg: SnifferConfig, st: SnifferState, f: Frame)
    requires OrdinarySniffer(cfg) && !st.halted
    ensures !SniffStep(cfg, st, f).halted
  {
    var r := RouteOf(cfg, f);
    match r {
      case Captured =>
        var m := MessageFor(cfg, f.id, f.data);
        if m.Some? {
          FirstMatchIn(cfg.rawMessages[f.id], f.data);
          ReachedExactly(m.value.fields, f.data);
        }
      case Mapped(pdo) => ReachedExactly(pdo.fields, f.data);
      case Sdo(_, _, _) =>
        var (m, out) := Observe(st.observer, r.key, r.nodeID, r.direction, f.data);
        if out.Emitted? {
          EventNeverHalts(cfg, st.(observer := m), out.event);
        }
      case Unclassified | Heartbeat(_) | Emergency(_) =>
    }
  }

  // ---------------------------------------------------------------------
  // The code
  // ---------------------------------------------------------------------

  /** An entry of the COB-ID table. */
  datatype Entry = Entry(nodeID: Byte, key: ChannelKey, clientCobID: nat)

  class Sniffer {
    const cfg: SnifferConfig
    const observer: Observer
    const byCobID: map<nat, Entry>
    const index: map<ObjectKey, SdoObject>
    var nmtState: map<Byte, Byte>
    var metrics: seq<Metric>
    var logs: seq<LogRecord>
    /** Set where the process would end. */
    var halted: bool

    ghost predicate Valid()
      reads this, observer
    {
      && observer.Valid() && ReadableMessages(cfg)
      && (forall id :: id in byCobID <==> ChannelFor(cfg.channels, id).Some?)
      && (forall id :: id in byCobID ==>
            var c := ChannelFor(cfg.channels, id).value; byCobID[id] == Entry(c.nodeID, c.client, c.client))
      && (forall k :: k in index <==> FirstObject(cfg.objects, k).Some?)
      && (forall k :: k in index ==> index[k] == FirstObject(cfg.objects, k).value)
    }

    ghost function State(): SnifferState
      reads this, observer, observer.transfers.Values
    {
      SnifferState(observer.State(), nmtState, metrics, logs, halted)
    }

    constructor (cfg: SnifferConfig)
      requires ReadableMessages(cfg)
      ensures Valid() && this.cfg == cfg && State() == Fresh
      ensures fresh(observer) && observer.transfers == map[]
    {
      var table := BuildTable(cfg.channels);
      var firsts := BuildIndex(cfg.objects);
      this.cfg := cfg;
      this.byCobID := table;
      this.index := firsts;
      this.nmtState := map[];
      this.metrics := [];
      this.logs := [];
      this.halted := false;
      this.observer := new Observer();
    }

    method HandleFrame(f: Frame)
      requires Valid()
      modifies this, observer, observer.transfers.Values
      ensures Valid() && fresh(observer.transfers.Values - old(observer.transfers.Values))
      ensures State() == SniffStep(cfg, old(State()), f)
    {
      if halted || f.extended {
        return;
      }
      if f.id in cfg.rawCobIDs {
        HandleRaw(f.id, f.data);
        return;
      }
      if f.id in cfg.pdos {
        EmitThrough(cfg.pdos[f.id].fields, f.data, PdoSource(cfg.pdos[f.id].name));
        return;
      }
      if f.id in byCobID {
        var channel := byCobID[f.id];
        var direction := if f.id == channel.clientCobID then ClientToServer else ServerToClient;
        HandleSdo(channel.key, channel.nodeID, direction, f.data);
        return;
      }
      var funcCode, nodeID := f.id / 128 * 128, f.id % 128;
      if funcCode == 0x700 {
        HandleHeartbeat(nodeID, f.data);
      } else if funcCode == 0x080 {
        if nodeID != 0 {
          HandleEmcy(nodeID, f.data);
        }
      } else if funcCode == 0x580 {
        if nodeID != 0 {
          HandleSdo(f.id - 0x580, nodeID, ServerToClient, f.data);
        }
      } else if funcCode == 0x600 {
        if nodeID != 0 {
          HandleSdo(f.id - 0x600, nodeID, ClientToServer, f.data);
        }
      }
    }

    method HandleRaw(id: nat, data: seq<Byte>)
      requires Valid() && !halted
      modifies this
      ensures Valid() && State() == RawStep(cfg, old(State()), id, data)
    {
      if id in cfg.rawMessages {
        var message := FindMessage(cfg.rawMessages[id], data);
        if message.Some? {
          EmitThrough(message.value.fields, data, MessageSource(id, message.value.name));
          return;
        }
      }
      Append(if cfg.raw.metrics && cfg.metricsOn then [RawMetric(id, data)] else [],
             if cfg.raw.logs && cfg.logsOn then [RawLog(id, data)] else []);
    }

    method HandleEmcy(nodeID: Byte, data: seq<Byte>)
      requires Valid()
      modifies this
      ensures Valid() && State() == EmergencyStep(cfg, old(State()), nodeID, data)
    {
      if |data| < 3 {
        return;
      }
      var code: Word := data[0] as int + 256 * data[1] as int;
      Append(if cfg.emcy.metrics && cfg.metricsOn then [EmcyMetric(nodeID, data[2])] else [],
             if cfg.emcy.logs && cfg.logsOn then [EmcyLog(nodeID, code, data[2])] else []);
    }

    method HandleHeartbeat(nodeID: Byte, data: seq<Byte>)
      requires Valid()
      modifies this
      ensures Valid() && State() == HeartbeatStep(cfg, old(State()), nodeID, data)
    {
      if |data| < 1 {
        return;
      }
      var state := data[0];
      var changed := nodeID !in nmtState || nmtState[nodeID] != state;
      nmtState := nmtState[nodeID := state];
      Append(if cfg.heartbeat.metrics && cfg.metricsOn then [NmtMetric(nodeID, state)] else [],
             if cfg.heartbeat.logs && cfg.logsOn && changed then [NmtLog(nodeID, state)] else []);
    }

    method HandleSdo(key: ChannelKey, nodeID: Byte, direction: Direction, data: seq<Byte>)
      requires Valid() && !halted
      modifies this, observer, observer.transfers.Values
      ensures Valid() && fresh(observer.transfers.Values - old(observer.transfers.Values))
      ensures State() == SdoStep(cfg, old(State()), Sdo(key, nodeID, direction), data)
    {
      var out := observer.ObserveOnChannel(key, nodeID, direction, data);
      if out.Emitted? {
        EmitTypedSdo(out.event);
      }
    }

    method EmitTypedSdo(e: Event)
      requires Valid() && !halted
      modifies this
      ensures Valid() && State() == EmitEvent(cfg, old(State()), e)
    {
      if e.abortCode.Some? {
        return;
      }
      var key := ObjectKey(e.nodeID, e.index, e.subIndex);
      if key !in index {
        return;
      }
      EmitThrough(index[key].fields, e.data, ObjectSource(e.nodeID, e.index, e.subIndex, e.direction, e.operation));
    }

    method EmitThrough(fields: seq<FieldConfig>, data: seq<Byte>, source: Source)
      requires Valid() && !halted
      modifies this
      ensures Valid() && State() == EmitFields(cfg, old(State()), fields, data, source)
    {
      var points, body, attributes, panicked := CollectFields(fields, data, source);
      Append(if cfg.metricsOn then points else [],
             if !panicked && cfg.logsOn && |body| > 0 then [FieldsLog(source, body, attributes)] else []);
      halted := panicked;
    }

    method Append(points: seq<Metric>, records: seq<LogRecord>)
      requires Valid()
      modifies this
      ensures Valid()
      ensures State() == old(State()).(metrics := old(metrics) + points, logs := old(logs) + records)
    {
      metrics := metrics + points;
      logs := logs + records;
    }
  }

  ghost predicate ReadableMessages(cfg: SnifferConfig) {
    forall id, m :: id in cfg.rawMessages && m in cfg.rawMessages[id] ==> Readable(m.matches)
  }

  /** The loop of `handleRaw`. */
  method FindMessage(messages: seq<RawMessage>, data: seq<Byte>) returns (r: Option<RawMessage>)
    requires forall m :: m in messages ==> Readable(m.matches)
    ensures r == FirstMatch(messages, data)
  {
    for i := 0 to |messages|
      invariant FirstMatch(messages, data) == FirstMatch(messages[i..], data)
    {
      assert messages[i..][1..] == messages[i + 1..];
      var matches := RawTransactionMatches(messages[i].matches, data);
      if matches {
        return Some(messages[i]);
      }
    }
    return None;
  }

  lemma ReachedUnique(fields: seq<FieldConfig>, data: seq<Byte>, n: nat)
    requires n <= |fields| && forall k :: 0 <= k < n ==> !DecodeField(fields[k], data).Crashed?
    requires n < |fields| ==> DecodeField(fields[n], data).Crashed?
    ensures Reached(fields, data) == n
  {
  }

  /** The field loop of `emitFields`; a panic leaves the metrics added so far. */
  method CollectFields(fields: seq<FieldConfig>, data: seq<Byte>, source: Source)
    returns (points: seq<Metric>, body: map<string, Codec.Value>, attributes: map<string, Attribute>, panicked: bool)
    ensures panicked <==> Reached(fields, data) < |fields|
    ensures points == FieldMetrics(fields[..Reached(fields, data)], data, source)
    ensures !panicked ==> body == FieldBody(fields, data) && attributes == FieldAttributes(fields, data)
  {
    points, body, attributes := [], map[], map[];
    for i := 0 to |fields|
      invariant points == FieldMetrics(fields[..i], data, source)
      invariant body == FieldBody(fields[..i], data) && attributes == FieldAttributes(fields[..i], data)
      invariant forall k :: 0 <= k < i ==> !DecodeField(fields[k], data).Crashed?
    {
      var field := fields[i];
      assert fields[..i + 1][..i] == fields[..i];
      var d := Codec.Decode(data, field.dataType, field.bitOffset, field.byteLen);
      if d.Crashed? {
        ReachedUnique(fields, data, i);
        return points, body, attributes, true;
      }
      if d.Decoded? {
        if field.metrics {
          points := points + [FieldMetric(source, field, d.value)];
        }
        if field.logs {
          body := body[field.name := d.value];
          attributes := attributes + field.attributes;
        }
      }
    }
    ReachedUnique(fields, data, |fields|);
    assert fields[..|fields|] == fields;
    panicked := false;
  }

  method BuildTable(channels: seq<SdoChannel>) returns (table: map<nat, Entry>)
    ensures forall id :: id in table <==> ChannelFor(channels, id).Some?
    ensures forall id :: id in table ==>
      var c := ChannelFor(channels, id).value; table[id] == Entry(c.nodeID, c.client, c.client)
  {
    table := map[];
    for i := 0 to |channels|
      invariant forall id :: id in table <==> ChannelFor(channels[..i], id).Some?
      invariant forall id :: id in table ==>
        var c := ChannelFor(channels[..i], id).value; table[id] == Entry(c.nodeID, c.client, c.client)
    {
      var c := channels[i];
      assert channels[..i + 1][..i] == channels[..i];
      var entry := Entry(c.nodeID, c.client, c.client);
      table := table[c.client := entry];
      table := table[c.server := entry];
    }
    assert channels[..|channels|] == channels;
  }

  lemma {:induction false} FirstObjectAppend(objects: seq<SdoObject>, o: SdoObject, key: ObjectKey)
    ensures FirstObject(objects + [o], key)
         == if FirstObject(objects, key).Some? then FirstObject(objects, key)
            else if KeyOf(o) == key then Some(o) else None
  {
    if objects == [] {
      assert ([o])[1..] == [];
      assert objects + [o] == [o];
    } else {
      assert (objects + [o])[1..] == objects[1..] + [o];
      FirstObjectAppend(objects[1..], o, key);
    }
  }

  /** The object index: a key that is already there keeps its object. */
  method BuildIndex(objects: seq<SdoObject>) returns (index: map<ObjectKey, SdoObject>)
    ensures forall k :: k in index <==> FirstObject(objects, k).Some?
    ensures forall k :: k in index ==> index[k] == FirstObject(objects, k).value
  {
    index := map[];
    for i := 0 to |objects|
      invariant forall k :: k in index <==> FirstObject(objects[..i], k).Some?
      invariant forall k :: k in index ==> index[k] == FirstObject(objects[..i], k).value
    {
      assert objects[..i + 1] == objects[..i] + [objects[i]];
      forall k ensures FirstObject(objects[..i + 1], k)
         == if FirstObject(objects[..i], k).Some? then FirstObject(objects[..i], k)
            else if KeyOf(objects[i]) == k then Some(objects[i]) else None
      {
        FirstObjectAppend(objects[..i], objects[i], k);
      }
      var key := KeyOf(objects[i]);
      if key !in index {
        index := index[key := objects[i]];
      }
    }
    assert objects[..|objects|] == objects;
  }
}
