/** What each kind of frame adds to metrics and logs, from the configuration and the frame's COB-ID. */
module Reporting {
  import opened Bytes
  import opened Bus
  import opened Config
  import opened SdoMessages
  import opened SdoObserver
  import opened SdoEncoding
  import opened SdoPoller
  import opened Sniffer
  import opened Routing
  import opened RawPoller
  import opened Receiver
  import opened Interference
  import opened ReferenceServer
  import opened ClosedLoop
  import Codec

  // ---------------------------------------------------------------------
  // What reporting a group of fields means
  // ---------------------------------------------------------------------

  ghost predicate Decodes(f: FieldConfig, data: seq<Byte>, v: Codec.Value) {
    Codec.DecodeMeaning(data, f.dataType, f.bitOffset, f.byteLen) == Codec.Decoded(v)
  }

  function PositionOf(fields: seq<FieldConfig>, f: FieldConfig): nat
    requires f in fields
  {
    if fields[0] == f then 0 else 1 + PositionOf(fields[1..], f)
  }

  /** `points` are one metric for each metric field that decodes, in the order of the fields. */
  ghost predicate MetricsOf(points: seq<Metric>, fields: seq<FieldConfig>, data: seq<Byte>, source: Source) {
    && (forall f, v :: f in fields && f.metrics && Decodes(f, data, v) ==> FieldMetric(source, f, v) in points)
    && (forall m :: m in points ==>
          m.FieldMetric? && m.source == source && m.field in fields && m.field.metrics && Decodes(m.field, data, m.value))
    && forall i, j :: 0 <= i < j < |points| ==> PositionOf(fields, points[i].field) < PositionOf(fields, points[j].field)
  }

  ghost predicate Logged(f: FieldConfig, data: seq<Byte>) {
    f.logs && exists v :: Decodes(f, data, v)
  }

  /** `body` has the values of the log fields that decode, by name. */
  ghost predicate BodyOf(body: map<string, Codec.Value>, fields: seq<FieldConfig>, data: seq<Byte>) {
    && (forall f, v :: f in fields && f.logs && Decodes(f, data, v) ==> f.name in body && body[f.name] == v)
    && forall name :: name in body ==> exists f :: f in fields && f.logs && f.name == name && Decodes(f, data, body[name])
  }

  /** `attributes` has each attribute of these fields, with the value of the last one that sets it. */
  ghost predicate AttributesOf(attributes: map<string, Attribute>, fields: seq<FieldConfig>, data: seq<Byte>) {
    && (forall i, key :: 0 <= i < |fields| && Logged(fields[i], data) && key in fields[i].attributes ==> key in attributes)
    && forall key :: key in attributes ==> exists i :: SetsLast(fields, data, key, i) && attributes[key] == fields[i].attributes[key]
  }

  ghost predicate SetsLast(fields: seq<FieldConfig>, data: seq<Byte>, key: string, i: int) {
    && 0 <= i < |fields| && Logged(fields[i], data) && key in fields[i].attributes
    && forall j :: i < j < |fields| && Logged(fields[j], data) ==> key !in fields[j].attributes
  }

  /** One record if a log field decodes, and none otherwise. */
  ghost predicate LogsOf(records: seq<LogRecord>, fields: seq<FieldConfig>, data: seq<Byte>, source: Source) {
    if exists f :: f in fields && Logged(f, data) then
      && |records| == 1 && records[0].FieldsLog? && records[0].source == source
      && BodyOf(records[0].body, fields, data) && AttributesOf(records[0].attributes, fields, data)
    else records == []
  }

  /** Between the two states the fields have been reported from `data`, where enabled, and nothing else has happened. */
  ghost predicate FieldsReported(
      c: ReceiverConfig, before: SnifferState, after: SnifferState, fields: seq<FieldConfig>, data: seq<Byte>, source: Source)
  {
    && after.observer == before.observer && after.nmt == before.nmt && !after.halted
    && before.metrics <= after.metrics && before.logs <= after.logs
    && var points, records := after.metrics[|before.metrics|..], after.logs[|before.logs|..];
    && (if c.metricsOn then MetricsOf(points, fields, data, source) else points == [])
    && (if c.logsOn then LogsOf(records, fields, data, source) else records == [])
  }

  // ---------------------------------------------------------------------
  // Why emission means that
  // ---------------------------------------------------------------------

  predicate NamesDiffer(fields: seq<FieldConfig>) {
    forall i, j :: 0 <= i < j < |fields| ==> fields[i].name != fields[j].name
  }

  lemma {:induction false} PositionAt(fields: seq<FieldConfig>, i: nat)
    requires NamesDiffer(fields) && i < |fields|
    ensures PositionOf(fields, fields[i]) == i
  {
    if i > 0 {
      assert fields[1..][i - 1] == fields[i];
      PositionAt(fields[1..], i - 1);
    }
  }

  lemma PositionInPrefix(fields: seq<FieldConfig>, n: nat, f: FieldConfig)
    requires NamesDiffer(fields) && n <= |fields| && f in fields[..n]
    ensures f in fields && PositionOf(fields, f) == PositionOf(fields[..n], f) < n
  {
    var i :| 0 <= i < n && fields[i] == f;
    PositionAt(fields, i);
    assert fields[..n][i] == f;
    PositionAt(fields[..n], i);
  }

  lemma {:induction false} MetricsEmitted(fields: seq<FieldConfig>, data: seq<Byte>, source: Source)
    requires NamesDiffer(fields)
    ensures MetricsOf(FieldMetrics(fields, data, source), fields, data, source)
  {
    if fields != [] {
      var n := |fields| - 1;
      var init, f := fields[..n], fields[n];
      MetricsEmitted(init, data, source);
      MetricsEmittedStep(fields, data, source);
    }
  }

  lemma MetricsEmittedStep(fields: seq<FieldConfig>, data: seq<Byte>, source: Source)
    requires fields != [] && NamesDiffer(fields)
    requires MetricsOf(FieldMetrics(fields[..|fields| - 1], data, source), fields[..|fields| - 1], data, source)
    ensures MetricsOf(FieldMetrics(fields, data, source), fields, data, source)
  {
    var n := |fields| - 1;
    var init, last := fields[..n], fields[n];
    var before, points := FieldMetrics(init, data, source), FieldMetrics(fields, data, source);
    assert forall f :: f in fields <==> f in init || f == last;
    forall i | 0 <= i < |before|
      ensures points[i] == before[i] && before[i].field in init && PositionOf(fields, before[i].field) < n
      ensures PositionOf(fields, before[i].field) == PositionOf(init, before[i].field)
    {
      assert before[i] in before;
      PositionInPrefix(fields, n, before[i].field);
    }
    PositionAt(fields, n);
  }

  lemma {:induction false} BodyEmitted(fields: seq<FieldConfig>, data: seq<Byte>)
    requires NamesDiffer(fields)
    ensures BodyOf(FieldBody(fields, data), fields, data)
  {
    if fields != [] {
      var n := |fields| - 1;
      var init, last := fields[..n], fields[n];
      BodyEmitted(init, data);
      var before, body := FieldBody(init, data), FieldBody(fields, data);
      assert forall f :: f in fields <==> f in init || f == last;
      forall name | name in body
        ensures exists f :: f in fields && f.logs && f.name == name && Decodes(f, data, body[name])
      {
        if last.logs && last.name == name && Decodes(last, data, body[name]) {
        } else {
          assert name in before && body[name] == before[name];
          var f :| f in init && f.logs && f.name == name && Decodes(f, data, before[name]);
          assert f in fields;
        }
      }
    }
  }

  lemma {:induction false} AttributesEmitted(fields: seq<FieldConfig>, data: seq<Byte>)
    ensures AttributesOf(FieldAttributes(fields, data), fields, data)
  {
    if fields != [] {
      var n := |fields| - 1;
      AttributesEmitted(fields[..n], data);
      AttributesEmittedStep(fields, data);
    }
  }

  lemma AttributesEmittedStep(fields: seq<FieldConfig>, data: seq<Byte>)
    requires fields != [] && AttributesOf(FieldAttributes(fields[..|fields| - 1], data), fields[..|fields| - 1], data)
    ensures AttributesOf(FieldAttributes(fields, data), fields, data)
  {
    var attributes := FieldAttributes(fields, data);
    AttributesGrow(fields, data);
    forall key | key in attributes
      ensures exists i :: SetsLast(fields, data, key, i) && attributes[key] == fields[i].attributes[key]
    {
      LastSetter(fields, data, key);
    }
  }

  lemma AttributesGrow(fields: seq<FieldConfig>, data: seq<Byte>)
    requires fields != []
    ensures var last := fields[|fields| - 1];
      FieldAttributes(fields, data)
      == FieldAttributes(fields[..|fields| - 1], data) + if Logged(last, data) then last.attributes else map[]
    ensures forall i :: 0 <= i < |fields| - 1 ==> fields[i] == fields[..|fields| - 1][i]
  {
    LoggedExactly(fields[|fields| - 1], data);
  }

  lemma LastSetter(fields: seq<FieldConfig>, data: seq<Byte>, key: string)
    requires fields != [] && AttributesOf(FieldAttributes(fields[..|fields| - 1], data), fields[..|fields| - 1], data)
    requires key in FieldAttributes(fields, data)
    ensures exists i :: SetsLast(fields, data, key, i) && FieldAttributes(fields, data)[key] == fields[i].attributes[key]
  {
    var n := |fields| - 1;
    var init, last := fields[..n], fields[n];
    AttributesGrow(fields, data);
    if Logged(last, data) && key in last.attributes {
      assert SetsLast(fields, data, key, n);
    } else {
      var before := FieldAttributes(init, data);
      assert key in before && FieldAttributes(fields, data)[key] == before[key];
      var i :| SetsLast(init, data, key, i) && before[key] == init[i].attributes[key];
      StillSetsLast(fields, data, key, i);
    }
  }

  lemma StillSetsLast(fields: seq<FieldConfig>, data: seq<Byte>, key: string, i: int)
    requires fields != [] && SetsLast(fields[..|fields| - 1], data, key, i)
    requires var last := fields[|fields| - 1]; !(Logged(last, data) && key in last.attributes)
    ensures SetsLast(fields, data, key, i) && fields[i] == fields[..|fields| - 1][i]
  {
    var init := fields[..|fields| - 1];
    forall j | i < j < |fields| && Logged(fields[j], data) ensures key !in fields[j].attributes {
      if j < |init| {
        assert init[j] == fields[j];
      }
    }
  }

  lemma LoggedExactly(f: FieldConfig, data: seq<Byte>)
    ensures Logged(f, data) <==> f.logs && DecodeField(f, data).Decoded?
  {
    if DecodeField(f, data).Decoded? {
      assert Decodes(f, data, DecodeField(f, data).value);
    }
  }

  lemma BodyExactly(fields: seq<FieldConfig>, data: seq<Byte>)
    requires NamesDiffer(fields)
    ensures FieldBody(fields, data) != map[] <==> exists f :: f in fields && Logged(f, data)
  {
    BodyEmitted(fields, data);
    var body := FieldBody(fields, data);
    if f :| f in fields && Logged(f, data) {
      var v :| Decodes(f, data, v);
      assert f.name in body;
    }
    if name :| name in body {
      var f :| f in fields && f.logs && f.name == name && Decodes(f, data, body[name]);
      assert Logged(f, data);
    }
  }

  lemma LogsEmitted(fields: seq<FieldConfig>, data: seq<Byte>, source: Source)
    requires NamesDiffer(fields)
    ensures LogsOf(if FieldBody(fields, data) != map[] then [FieldsLog(source, FieldBody(fields, data), FieldAttributes(fields, data))] else [],
                   fields, data, source)
  {
    BodyExactly(fields, data);
    BodyEmitted(fields, data);
    AttributesEmitted(fields, data);
  }

  /** Emission of ordinary fields reports them. */
  lemma EmissionReports(c: ReceiverConfig, st: SnifferState, fields: seq<FieldConfig>, data: seq<Byte>, source: Source)
    requires ValidFields(fields) && OrdinaryFields(fields) && !st.halted
    ensures FieldsReported(c, st, EmitFields(SnifferConfigOf(c), st, fields, data, source), fields, data, source)
  {
    ReachedExactly(fields, data);
    MetricsEmitted(fields, data, source);
    LogsEmitted(fields, data, source);
    var after := EmitFields(SnifferConfigOf(c), st, fields, data, source);
    assert fields[..|fields|] == fields;
    var points := if c.metricsOn then FieldMetrics(fields, data, source) else [];
    assert after.metrics == st.metrics + points && after.metrics[|st.metrics|..] == points;
    var body := FieldBody(fields, data);
    var records := if c.logsOn && body != map[] then [FieldsLog(source, body, FieldAttributes(fields, data))] else [];
    assert after.logs == st.logs + records && after.logs[|st.logs|..] == records;
  }

  // ---------------------------------------------------------------------
  // Whose frame it is
  // ---------------------------------------------------------------------

  /** Neither poller waits for the frame's COB-ID. */
  predicate Unawaited(s: Station, id: nat) {
    && s.raw.Valid() && !s.sniffer.halted
    && (s.poll.Some? ==> s.poll.value.serverCobID != id)
    && (s.raw.active.Some? ==> s.raw.attempts[s.raw.active.value].transaction.response.cobID != id)
  }

  /** Such a frame is the sniffer's alone. */
  lemma UnawaitedDispatch(w: Wiring, s: Station, f: Frame, sent: bool)
    requires Unawaited(s, f.id)
    ensures Happen(w, s, Got(f, sent)) == s.(sniffer := SniffStep(w.cfg, s.sniffer, f))
  {
  }

  predicate Captured(c: ReceiverConfig, id: nat) {
    id in c.raw.sniff.cobIDs || exists m :: m in c.raw.sniff.messages && m.cobID == id
  }

  predicate Mapped(c: ReceiverConfig, id: nat) {
    exists p :: p in c.pdos && p.cobID == id
  }

  predicate OnChannel(c: ReceiverConfig, id: nat) {
    exists d :: d in c.sdo.sniff.channels && Uses(d, id)
  }

  /** No declaration claims the COB-ID: the predefined meaning stands. */
  predicate Predefined(c: ReceiverConfig, id: nat) {
    !Captured(c, id) && !Mapped(c, id) && !OnChannel(c, id)
  }

  lemma {:induction false} PdosByIDExact(pdos: seq<Pdo>, id: nat)
    ensures id in PdosByID(pdos) <==> exists p :: p in pdos && p.cobID == id
    ensures id in PdosByID(pdos) ==> PdosByID(pdos)[id] in pdos && PdosByID(pdos)[id].cobID == id
  {
    if pdos != [] {
      var n := |pdos| - 1;
      PdosByIDExact(pdos[..n], id);
      assert pdos == pdos[..n] + [pdos[n]];
    }
  }

  lemma CapturedExact(c: ReceiverConfig, id: nat)
    ensures id in SnifferConfigOf(c).rawCobIDs <==> Captured(c, id)
  {
  }

  lemma PredefinedExact(c: ReceiverConfig, id: nat)
    ensures Predefined(c, id) <==>
      var cfg := SnifferConfigOf(c);
      id !in cfg.rawCobIDs && id !in cfg.pdos && ChannelFor(cfg.channels, id).None?
  {
    CapturedExact(c, id);
    PdosByIDExact(c.pdos, id);
    ChannelForUser(c.sdo.sniff.channels, id);
  }

  // ---------------------------------------------------------------------
  // PDOs
  // ---------------------------------------------------------------------

  /** A standard frame on a PDO's COB-ID, unless captured raw, reports the PDO's fields. */
  lemma PdoReported(c: ReceiverConfig, s: Station, p: Pdo, f: Frame, sent: bool)
    requires ValidConfig(c) && OrdinaryConfig(c) && p in c.pdos
    requires !f.extended && f.id == p.cobID && !Captured(c, f.id) && Unawaited(s, f.id)
    ensures var s' := Happen(WiringOf(c), s, Got(f, sent));
      && FieldsReported(c, s.sniffer, s'.sniffer, p.fields, f.data, PdoSource(p.name))
      && s' == s.(sniffer := s'.sniffer)
  {
    UnawaitedDispatch(WiringOf(c), s, f, sent);
    CapturedExact(c, f.id);
    PdosByIDExact(c.pdos, f.id);
    var q := PdosByID(c.pdos)[f.id];
    var i :| 0 <= i < |c.pdos| && c.pdos[i] == p;
    var j :| 0 <= j < |c.pdos| && c.pdos[j] == q;
    assert i == j;
    assert ValidPdo(p);
    EmissionReports(c, s.sniffer, p.fields, f.data, PdoSource(p.name));
  }

  // ---------------------------------------------------------------------
  // Captured frames
  // ---------------------------------------------------------------------

  predicate Fits(m: RawMessage, id: nat, data: seq<Byte>) {
    m.cobID == id && Matches(m.matches, data)
  }

  /** `m` is the first declared shape that fits, or none does. */
  ghost predicate FirstFit(messages: seq<RawMessage>, id: nat, data: seq<Byte>, m: Option<RawMessage>) {
    match m
    case None => forall i :: 0 <= i < |messages| ==> !Fits(messages[i], id, data)
    case Some(x) => exists i :: FitsFirst(messages, id, data, i) && messages[i] == x
  }

  predicate FitsFirst(messages: seq<RawMessage>, id: nat, data: seq<Byte>, i: int) {
    0 <= i < |messages| && Fits(messages[i], id, data) && forall j :: 0 <= j < i ==> !Fits(messages[j], id, data)
  }

  function Chosen(byID: map<nat, seq<RawMessage>>, id: nat, data: seq<Byte>): Option<RawMessage> {
    if id in byID then FirstMatch(byID[id], data) else None
  }

  lemma {:induction false} FirstMatchAppend(messages: seq<RawMessage>, m: RawMessage, data: seq<Byte>)
    ensures FirstMatch(messages + [m], data)
         == if FirstMatch(messages, data).Some? then FirstMatch(messages, data)
            else if Matches(m.matches, data) then Some(m) else None
  {
    if messages == [] {
      assert messages + [m] == [m] && [m][1..] == [];
    } else {
      assert (messages + [m])[1..] == messages[1..] + [m];
      FirstMatchAppend(messages[1..], m, data);
    }
  }

  /** The table by COB-ID finds what a search of the whole list would. */
  lemma {:induction false} ChosenExact(messages: seq<RawMessage>, id: nat, data: seq<Byte>)
    ensures FirstFit(messages, id, data, Chosen(MessagesByID(messages), id, data))
  {
    if messages != [] {
      var n := |messages| - 1;
      var init, last := messages[..n], messages[n];
      var earlier := MessagesByID(init);
      var before := Chosen(earlier, id, data);
      ChosenExact(init, id, data);
      if last.cobID == id {
        FirstMatchAppend(if id in earlier then earlier[id] else [], last, data);
      }
      if before.Some? {
        var i :| FitsFirst(init, id, data, i) && init[i] == before.value;
        assert FitsFirst(messages, id, data, i);
      } else if Fits(last, id, data) {
        assert forall j :: 0 <= j < n ==> messages[j] == init[j];
        assert FitsFirst(messages, id, data, n);
      } else {
        assert forall j :: 0 <= j < n ==> messages[j] == init[j];
      }
    }
  }

  lemma FirstFitUnique(messages: seq<RawMessage>, id: nat, data: seq<Byte>, i: nat)
    requires FitsFirst(messages, id, data, i)
    ensures Chosen(MessagesByID(messages), id, data) == Some(messages[i])
  {
    ChosenExact(messages, id, data);
    var chosen := Chosen(MessagesByID(messages), id, data);
    assert Fits(messages[i], id, data);
    var j :| FitsFirst(messages, id, data, j) && messages[j] == chosen.value;
    assert i == j;
  }

  /** A captured frame reports the fields of the first declared shape that it fits. */
  lemma MessageReported(c: ReceiverConfig, s: Station, i: nat, f: Frame, sent: bool)
    requires ValidConfig(c) && OrdinaryConfig(c) && Unawaited(s, f.id) && !f.extended
    requires FitsFirst(c.raw.sniff.messages, f.id, f.data, i)
    ensures var m, s' := c.raw.sniff.messages[i], Happen(WiringOf(c), s, Got(f, sent));
      && FieldsReported(c, s.sniffer, s'.sniffer, m.fields, f.data, MessageSource(f.id, m.name))
      && s' == s.(sniffer := s'.sniffer)
  {
    var m := c.raw.sniff.messages[i];
    assert m in c.raw.sniff.messages;
    UnawaitedDispatch(WiringOf(c), s, f, sent);
    CapturedExact(c, f.id);
    FirstFitUnique(c.raw.sniff.messages, f.id, f.data, i);
    assert ValidMessage(m);
    EmissionReports(c, s.sniffer, m.fields, f.data, MessageSource(f.id, m.name));
  }

  /** A captured frame that fits none is reported as it is. */
  lemma CapturedReported(c: ReceiverConfig, s: Station, f: Frame, sent: bool)
    requires Captured(c, f.id) && Unawaited(s, f.id) && !f.extended
    requires forall m :: m in c.raw.sniff.messages ==> !Fits(m, f.id, f.data)
    ensures Happen(WiringOf(c), s, Got(f, sent)) == s.(sniffer := s.sniffer.(
      metrics := s.sniffer.metrics + (if c.raw.sniff.metrics && c.metricsOn then [RawMetric(f.id, f.data)] else []),
      logs := s.sniffer.logs + (if c.raw.sniff.logs && c.logsOn then [RawLog(f.id, f.data)] else [])))
  {
    UnawaitedDispatch(WiringOf(c), s, f, sent);
    CapturedExact(c, f.id);
    ChosenExact(c.raw.sniff.messages, f.id, f.data);
  }

  // ---------------------------------------------------------------------
  // Replies to raw transactions
  // ---------------------------------------------------------------------

  /**
   * A standard frame on the response COB-ID of the active transaction that
   * satisfies its matches is claimed, reports the transaction's response fields
   * from the frame's own bytes, and is posted; the sniffer does not see it.
   */
  lemma ReplyReported(c: ReceiverConfig, s: Station, k: nat, f: Frame, sent: bool)
    requires ValidConfig(c) && OrdinaryConfig(c) && RawFrom(c, s.raw) && !s.sniffer.halted
    requires s.raw.active == Some(k) && !f.extended && f.id == s.raw.attempts[k].transaction.response.cobID
    requires s.poll.Some? ==> s.poll.value.serverCobID != f.id
    requires forall m :: m in s.raw.attempts[k].transaction.response.matches ==>
      m.byteOffset < |f.data| && f.data[m.byteOffset] == m.value
    ensures var t, s' := s.raw.attempts[k].transaction, Happen(WiringOf(c), s, Got(f, sent));
      && FieldsReported(c, s.sniffer, s'.sniffer, t.response.fields, f.data, TransactionSource(f.id, t.name))
      && s'.poll == s.poll && s'.wire == s.wire
      && s'.raw.active == None && |s'.raw.attempts| == |s.raw.attempts|
      && s'.raw.attempts[k] == s.raw.attempts[k].(
           claims := s.raw.attempts[k].claims + [f], emissions := s.raw.attempts[k].emissions + [f], slot := true)
      && forall j :: 0 <= j < |s.raw.attempts| && j != k ==> s'.raw.attempts[j] == s.raw.attempts[j]
  {
    var t := s.raw.attempts[k].transaction;
    assert ValidTransaction(t);
    EmissionReports(c, s.sniffer, t.response.fields, f.data, TransactionSource(f.id, t.name));
  }

  /** The frame the code claims is exactly such a one. */
  lemma ClaimExactly(s: Shared, f: Frame, k: nat)
    requires s.Valid()
    ensures Claim(s, f).1 == Some(k) <==>
      && s.active == Some(k) && !f.extended && f.id == s.attempts[k].transaction.response.cobID
      && forall m :: m in s.attempts[k].transaction.response.matches ==>
           0 <= m.byteOffset < |f.data| && f.data[m.byteOffset] == m.value
    ensures Claim(s, f).1.None? ==> Claim(s, f).0 == s
  {
  }

  /** An integer that a device writes into its reply, at any bit offset, is the value of the field's metric. */
  lemma ReplyValueReported(
      c: ReceiverConfig, s: Station, k: nat, f: Frame, sent: bool, field: FieldConfig,
      others: seq<Byte>, bits: nat, values: nat, signed: bool, x: int)
    requires ValidConfig(c) && OrdinaryConfig(c) && RawFrom(c, s.raw) && !s.sniffer.halted && c.metricsOn
    requires s.raw.active == Some(k) && !f.extended && f.id == s.raw.attempts[k].transaction.response.cobID
    requires s.poll.Some? ==> s.poll.value.serverCobID != f.id
    requires forall m :: m in s.raw.attempts[k].transaction.response.matches ==>
      m.byteOffset < |f.data| && f.data[m.byteOffset] == m.value
    requires field in s.raw.attempts[k].transaction.response.fields && field.metrics
    requires Codec.LiteralInteger(field.dataType, bits, values, signed) && Pow2(bits) == values
    requires if signed then 0 - values <= 2 * x < values else 0 <= x < values
    requires 0 <= field.bitOffset <= 8 * |others| - bits
    requires f.data == Codec.Insert(others, field.bitOffset, bits, if x < 0 then x + values else x)
    ensures FieldMetric(TransactionSource(f.id, s.raw.attempts[k].transaction.name), field,
                        if signed then Codec.IntValue(x) else Codec.UintValue(x))
            in Happen(WiringOf(c), s, Got(f, sent)).sniffer.metrics
  {
    var t, s' := s.raw.attempts[k].transaction, Happen(WiringOf(c), s, Got(f, sent));
    ReplyReported(c, s, k, f, sent);
    Codec.IntegerRoundTrip(others, field.dataType, bits, values, signed, field.bitOffset, x, field.byteLen);
    var v := if signed then Codec.IntValue(x) else Codec.UintValue(x);
    assert Decodes(field, f.data, v);
    var points := s'.sniffer.metrics[|s.sniffer.metrics|..];
    assert FieldMetric(TransactionSource(f.id, t.name), field, v) in points;
  }

  // ---------------------------------------------------------------------
  // Predefined COB-IDs
  // ---------------------------------------------------------------------

  /** Heartbeats are the frames on 0x700..0x77F that nothing else claims. */
  lemma HeartbeatReported(c: ReceiverConfig, s: Station, n: Byte, f: Frame, sent: bool)
    requires n < 128 && !f.extended && f.id == 0x700 + n && Predefined(c, f.id) && Unawaited(s, f.id) && f.data != []
    ensures var state, st := f.data[0], s.sniffer;
      Happen(WiringOf(c), s, Got(f, sent)) == s.(sniffer := st.(
        nmt := st.nmt[n := state],
        metrics := st.metrics + (if c.heartbeat.metrics && c.metricsOn then [NmtMetric(n, state)] else []),
        logs := st.logs + (if c.heartbeat.logs && c.logsOn && (n !in st.nmt || st.nmt[n] != state) then [NmtLog(n, state)] else [])))
  {
    UnawaitedDispatch(WiringOf(c), s, f, sent);
    PredefinedExact(c, f.id);
    PredefinedID(0x700, n);
  }

  /** Emergencies are those on 0x081..0x0FF. */
  lemma EmergencyReported(c: ReceiverConfig, s: Station, n: Byte, f: Frame, sent: bool)
    requires 1 <= n < 128 && !f.extended && f.id == 0x080 + n && Predefined(c, f.id) && Unawaited(s, f.id) && |f.data| >= 3
    ensures var st, code := s.sniffer, f.data[0] as int + 256 * f.data[1] as int;
      Happen(WiringOf(c), s, Got(f, sent)) == s.(sniffer := st.(
        metrics := st.metrics + (if c.emcy.metrics && c.metricsOn then [EmcyMetric(n, f.data[2])] else []),
        logs := st.logs + (if c.emcy.logs && c.logsOn then [EmcyLog(n, code, f.data[2])] else [])))
  {
    UnawaitedDispatch(WiringOf(c), s, f, sent);
    PredefinedExact(c, f.id);
    PredefinedID(0x080, n);
  }

  /** Extended frames, and standard ones that nothing claims, leave no trace. */
  lemma OthersIgnored(c: ReceiverConfig, s: Station, f: Frame, sent: bool)
    requires Unawaited(s, f.id)
    requires f.extended || (Predefined(c, f.id) && !(0x081 <= f.id <= 0x0FF) && !(0x581 <= f.id <= 0x5FF)
                            && !(0x601 <= f.id <= 0x67F) && !(0x700 <= f.id <= 0x77F))
    ensures Happen(WiringOf(c), s, Got(f, sent)) == s
  {
    UnawaitedDispatch(WiringOf(c), s, f, sent);
    PredefinedExact(c, f.id);
  }

  // ---------------------------------------------------------------------
  // SDO transfers of others
  // ---------------------------------------------------------------------

  /** `id` is the client's COB-ID of the channel with key `key` to node `n`: a configured one or the predefined one. */
  predicate ClientOf(c: ReceiverConfig, n: Byte, id: nat, key: ChannelKey) {
    && !Captured(c, id) && !Mapped(c, id)
    && ((exists d :: d in c.sdo.sniff.channels && d.nodeID == n && d.client == id && key == id)
        || (1 <= n < 128 && id == 0x600 + n && !OnChannel(c, id) && key == n))
  }

  predicate ServerOf(c: ReceiverConfig, n: Byte, id: nat, key: ChannelKey) {
    && !Captured(c, id) && !Mapped(c, id)
    && ((exists d :: d in c.sdo.sniff.channels && d.nodeID == n && d.server == id && key == d.client)
        || (1 <= n < 128 && id == 0x580 + n && !OnChannel(c, id) && key == n))
  }

  lemma SdoRoutes(c: ReceiverConfig, n: Byte, id: nat, key: ChannelKey)
    requires ValidSdo(c.sdo)
    ensures ClientOf(c, n, id, key) ==> RouteOfID(SnifferConfigOf(c), id) == Sdo(key, n, ClientToServer)
    ensures ServerOf(c, n, id, key) ==> RouteOfID(SnifferConfigOf(c), id) == Sdo(key, n, ServerToClient)
  {
    CapturedExact(c, id);
    PdosByIDExact(c.pdos, id);
    ChannelForUser(c.sdo.sniff.channels, id);
    if n < 128 {
      PredefinedID(0x600, n);
      PredefinedID(0x580, n);
    }
    forall d | d in c.sdo.sniff.channels && Uses(d, id) ensures ChannelFor(c.sdo.sniff.channels, id) == Some(d) {
      ChannelForOwner(c.sdo.sniff.channels, d, id);
    }
  }

  /** The fields declared for an object; sniffed and polled declarations agree. */
  predicate Declares(c: ReceiverConfig, o: SdoObject) {
    o in c.sdo.sniff.objects || o in c.sdo.poll.objects
  }

  lemma DeclaredFieldsIndexed(c: ReceiverConfig, o: SdoObject)
    requires ValidSdo(c.sdo) && Declares(c, o)
    ensures var found := FirstObject(SnifferConfigOf(c).objects, KeyOf(o)); found.Some? && found.value.fields == o.fields
    ensures ValidFields(o.fields)
  {
    assert ValidObject(o);
    if o in c.sdo.poll.objects {
      PolledFieldsIndexed(c, o);
    } else {
      FirstObjectFound(SnifferConfigOf(c).objects, o);
      var found := FirstObject(SnifferConfigOf(c).objects, KeyOf(o)).value;
      if found in c.sdo.sniff.objects {
        var i :| 0 <= i < |c.sdo.sniff.objects| && c.sdo.sniff.objects[i] == found;
        var j :| 0 <= j < |c.sdo.sniff.objects| && c.sdo.sniff.objects[j] == o;
        assert i == j;
      }
    }
  }

  lemma DeclaredEmitted(c: ReceiverConfig, st: SnifferState, o: SdoObject, payload: seq<Byte>, source: Source, e: Event)
    requires ValidConfig(c) && OrdinaryConfig(c) && Declares(c, o) && !st.halted
    requires e.abortCode.None? && e.data == payload && KeyOf(o) == ObjectKey(e.nodeID, e.index, e.subIndex)
    requires source == ObjectSource(e.nodeID, e.index, e.subIndex, e.direction, e.operation)
    ensures FieldsReported(c, st, EmitEvent(SnifferConfigOf(c), st, e), o.fields, payload, source)
  {
    DeclaredFieldsIndexed(c, o);
    EmissionReports(c, st, o.fields, payload, source);
  }

  lemma DownloadSniffed(
      cfg: SnifferConfig, st: SnifferState, key: ChannelKey, n: Byte, a: Address, sized: bool, payload: seq<Byte>, id: nat)
    requires RouteOfID(cfg, id) == Sdo(key, n, ClientToServer) && !st.halted
    requires 1 <= |payload| <= 4 && (sized || |payload| == 4)
    ensures SniffStep(cfg, st, Frame(id, false, ExpeditedFrame(Download, sized, a, payload)))
         == EmitEvent(cfg, st, Event(n, ClientToServer, Download, a.index, a.subIndex, payload, None))
  {
    ReadExpedited(Download, sized, a, payload);
    SniffOnChannel(cfg, st, key, n, ClientToServer, Frame(id, false, ExpeditedFrame(Download, sized, a, payload)));
    HoldingAgain(st, key, None, None);
  }

  lemma UploadSniffed(
      cfg: SnifferConfig, st: SnifferState, key: ChannelKey, n: Byte, a: Address, sized: bool, payload: seq<Byte>, id: nat)
    requires RouteOfID(cfg, id) == Sdo(key, n, ServerToClient) && !st.halted
    requires 1 <= |payload| <= 4 && (sized || |payload| == 4)
    requires Lookup(st.observer, key) == Some(NewUpload(n, a.index, a.subIndex))
    ensures SniffStep(cfg, st, Frame(id, false, ExpeditedFrame(Upload, sized, a, payload)))
         == EmitEvent(cfg, Holding(st, key, None), Event(n, ServerToClient, Upload, a.index, a.subIndex, payload, None))
  {
    ReadExpedited(Upload, sized, a, payload);
    SniffOnChannel(cfg, st, key, n, ServerToClient, Frame(id, false, ExpeditedFrame(Upload, sized, a, payload)));
  }

  /** An expedited download of a declared object is reported from the bytes the client sends. */
  lemma DownloadReported(
      c: ReceiverConfig, s: Station, o: SdoObject, key: ChannelKey, sized: bool, payload: seq<Byte>, id: nat, sent: bool)
    requires ValidConfig(c) && OrdinaryConfig(c) && Declares(c, o) && ClientOf(c, o.nodeID, id, key) && Unawaited(s, id)
    requires 1 <= |payload| <= 4 && (sized || |payload| == 4)
    ensures var f := Frame(id, false, ExpeditedFrame(Download, sized, Address(o.index, o.subIndex), payload));
      var s' := Happen(WiringOf(c), s, Got(f, sent));
      && FieldsReported(c, s.sniffer, s'.sniffer, o.fields, payload,
                        ObjectSource(o.nodeID, o.index, o.subIndex, ClientToServer, Download))
      && s' == s.(sniffer := s'.sniffer)
  {
    var f := Frame(id, false, ExpeditedFrame(Download, sized, Address(o.index, o.subIndex), payload));
    var source := ObjectSource(o.nodeID, o.index, o.subIndex, ClientToServer, Download);
    UnawaitedDispatch(WiringOf(c), s, f, sent);
    SdoRoutes(c, o.nodeID, id, key);
    DownloadSniffed(SnifferConfigOf(c), s.sniffer, key, o.nodeID, Address(o.index, o.subIndex), sized, payload, id);
    DeclaredEmitted(c, s.sniffer, o, payload, source, Event(o.nodeID, ClientToServer, Download, o.index, o.subIndex, payload, None));
  }

  /** An expedited upload in progress of a declared object is reported from the bytes the server sends. */
  lemma UploadReported(
      c: ReceiverConfig, s: Station, o: SdoObject, key: ChannelKey, sized: bool, payload: seq<Byte>, id: nat, sent: bool)
    requires ValidConfig(c) && OrdinaryConfig(c) && Declares(c, o) && ServerOf(c, o.nodeID, id, key) && Unawaited(s, id)
    requires 1 <= |payload| <= 4 && (sized || |payload| == 4)
    requires Lookup(s.sniffer.observer, key) == Some(NewUpload(o.nodeID, o.index, o.subIndex))
    ensures var f := Frame(id, false, ExpeditedFrame(Upload, sized, Address(o.index, o.subIndex), payload));
      var s' := Happen(WiringOf(c), s, Got(f, sent));
      && FieldsReported(c, Holding(s.sniffer, key, None), s'.sniffer, o.fields, payload,
                        ObjectSource(o.nodeID, o.index, o.subIndex, ServerToClient, Upload))
      && s' == s.(sniffer := s'.sniffer)
  {
    var f := Frame(id, false, ExpeditedFrame(Upload, sized, Address(o.index, o.subIndex), payload));
    var source := ObjectSource(o.nodeID, o.index, o.subIndex, ServerToClient, Upload);
    UnawaitedDispatch(WiringOf(c), s, f, sent);
    SdoRoutes(c, o.nodeID, id, key);
    UploadSniffed(SnifferConfigOf(c), s.sniffer, key, o.nodeID, Address(o.index, o.subIndex), sized, payload, id);
    DeclaredEmitted(c, Holding(s.sniffer, key, None), o, payload, source,
                    Event(o.nodeID, ServerToClient, Upload, o.index, o.subIndex, payload, None));
  }

  /** An abort ends the channel's transfer and is not reported. */
  lemma AbortNotReported(c: ReceiverConfig, s: Station, n: Byte, key: ChannelKey, f: Frame, sent: bool)
    requires ValidSdo(c.sdo) && ServerOf(c, n, f.id, key) && Unawaited(s, f.id)
    requires !f.extended && |f.data| == 8 && f.data[0] == 0x80
    ensures Happen(WiringOf(c), s, Got(f, sent)) == s.(sniffer := Holding(s.sniffer, key, None))
  {
    UnawaitedDispatch(WiringOf(c), s, f, sent);
    SdoRoutes(c, n, f.id, key);
  }

  lemma FourBytes(a: Byte, b: Byte, x: Byte, y: Byte)
    ensures LittleEndian([a, b, x, y]) == a as int + 0x100 * b as int + 0x1_0000 * x as int + 0x100_0000 * y as int
  {
    assert [a, b, x, y][1..] == [b, x, y] && [b, x, y][1..] == [x, y] && [x, y][1..] == [y] && [y][1..] == [];
    assert LittleEndian([y]) == y;
    assert LittleEndian([x, y]) == x as int + 256 * y as int;
    assert LittleEndian([b, x, y]) == b as int + 256 * LittleEndian([x, y]);
  }

  /** ... but the observer's event names its object and carries its code, least significant byte first. */
  lemma AbortObserved(ch: Channel, nodeID: Byte, data: seq<Byte>)
    requires |data| == 8 && data[0] == 0x80
    ensures var out := Step(ch, nodeID, Parse(ServerToClient, data)).1;
      && out.Emitted? && out.event.operation == Abort && out.event.nodeID == nodeID && out.event.data == []
      && out.event.index == data[1] as int + 256 * data[2] as int && out.event.subIndex == data[3]
      && out.event.abortCode == Some(data[4] as int + 0x100 * data[5] as int + 0x1_0000 * data[6] as int + 0x100_0000 * data[7] as int)
  {
    FourBytes(data[4], data[5], data[6], data[7]);
    assert data[4..8] == [data[4], data[5], data[6], data[7]];
  }

  // ---------------------------------------------------------------------
  // Polled objects
  // ---------------------------------------------------------------------

  /** A completed poll reports the polled object's fields from what the server delivered, over what the other traffic leaves. */
  lemma PollReported(c: ReceiverConfig, o: SdoObject, v: Server, base: Station, noise: Batches)
    requires Ready(c, o, v, base, noise)
    ensures var w, n := WiringOf(c), SegmentCount(v.answer);
      var quiet := Background(w, base, noise, n + 1);
      FieldsReported(c, Holding(quiet.sniffer, PollKey(c, o), None), Exchange(w, base, o, v, noise).0.sniffer,
                     o.fields, Understood(v.answer), ObjectSource(o.nodeID, o.index, o.subIndex, ServerToClient, Upload))
  {
    OrdinaryPollCompletes(c, o, v, base, noise);
    BackgroundStaysSafe(c, base, noise, SegmentCount(v.answer) + 1);
    var quiet := Background(WiringOf(c), base, noise, SegmentCount(v.answer) + 1);
    assert ValidObject(o);
    EmissionReports(c, Holding(quiet.sniffer, PollKey(c, o), None), o.fields, Understood(v.answer), SourceOf(o));
  }
}
