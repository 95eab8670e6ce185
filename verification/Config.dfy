/** Receiver configuration and its validation (config.go). */
module Config {
  import opened Bytes
  import Codec

  /** The `metric_type` settings; the last case stands for every string with no meaning. */
  datatype MetricType = DefaultType | Gauge | Sum | NoSuchType(text: string)

  /** A static attribute, by its dynamic type. */
  datatype Attribute =
    | StringAttribute(text: string) | BoolAttribute(flag: bool) | IntAttribute(number: Int64) | Int64Attribute(long: Int64)
    | Uint64Attribute(unsigned: nat) | Float64Attribute(fraction: real) | OtherAttribute(typeName: string)

  datatype FieldConfig = FieldConfig(
    name: string, bitOffset: Int64, dataType: Codec.DataType, byteLen: Int64, scale: real, offset: real, unit: string,
    metrics: bool, logs: bool, metricType: MetricType, attributes: map<string, Attribute>)

  datatype SdoObject = SdoObject(nodeID: Byte, index: Word, subIndex: Byte, fields: seq<FieldConfig>)

  datatype SdoChannel = SdoChannel(nodeID: Byte, client: nat, server: nat)

  datatype SniffConfig = SniffConfig(channels: seq<SdoChannel>, objects: seq<SdoObject>)

  /** The `mode` settings; the last case stands for every string with no meaning. */
  datatype Mode = Unset | Once | Interval | NoSuchMode(text: string)

  /** Durations are nanoseconds; a zero duration selects the default. */
  datatype PollConfig = PollConfig(
    mode: Mode, interval: Int64, timeout: Int64, retry: bool,
    backoff: Int64, maxBackoff: Int64, maxRetries: Option<Int64>, objects: seq<SdoObject>)

  datatype SdoConfig = SdoConfig(sniff: SniffConfig, poll: PollConfig)

  datatype Pdo = Pdo(name: string, cobID: nat, fields: seq<FieldConfig>)

  datatype MatchByte = MatchByte(byteOffset: Int64, value: Byte)

  datatype RawResponse = RawResponse(cobID: nat, matches: seq<MatchByte>, fields: seq<FieldConfig>)

  datatype RawTransaction = RawTransaction(
    name: string, cobID: nat, payload: seq<Byte>, timeout: Int64, mode: Mode, interval: Int64, retry: bool,
    backoff: Int64, maxBackoff: Int64, maxRetries: Option<Int64>, response: RawResponse)
  {
    function EffectiveMode(): Mode {
      if mode != Unset then mode else if interval > 0 then Interval else Once
    }
  }

  datatype RawMessage = RawMessage(name: string, cobID: nat, matches: seq<MatchByte>, fields: seq<FieldConfig>)

  datatype RawSniff = RawSniff(metrics: bool, logs: bool, cobIDs: seq<nat>, messages: seq<RawMessage>)

  datatype RawConfig = RawConfig(sniff: RawSniff, transactions: seq<RawTransaction>)

  /** Settings of the built-in events. */
  datatype EventConfig = EventConfig(metrics: bool, logs: bool)

  datatype ReceiverConfig = ReceiverConfig(
    sdo: SdoConfig, raw: RawConfig, pdos: seq<Pdo>, heartbeat: EventConfig, emcy: EventConfig,
    metricsOn: bool, logsOn: bool)

  // ---------------------------------------------------------------------
  // What a valid configuration is
  // ---------------------------------------------------------------------

  predicate ValidAttribute(a: Attribute) {
    !a.OtherAttribute? && (a.Uint64Attribute? ==> a.unsigned <= MAX_INT64)
  }

  predicate ValidField(f: FieldConfig) {
    && f.name != "" && f.bitOffset >= 0 && Codec.Supported(f.dataType)
    && (Codec.ByteOriented(f.dataType) ==> f.byteLen > 0 && f.bitOffset % 8 == 0 && !f.metrics)
    && !f.metricType.NoSuchType?
    && forall key :: key in f.attributes ==> ValidAttribute(f.attributes[key])
  }

  /** The field's end can be computed without wrap-around, or is never computed. */
  predicate Ordinary(f: FieldConfig) {
    if Codec.ByteOriented(f.dataType) then f.bitOffset / 8 + f.byteLen <= MAX_INT64
    else f.bitOffset % 8 == 0 || f.bitOffset + Codec.BitWidth(f.dataType) <= MAX_INT64
  }

  predicate OrdinaryFields(fields: seq<FieldConfig>) {
    forall f :: f in fields ==> Ordinary(f)
  }

  ghost predicate ValidFields(fields: seq<FieldConfig>) {
    && fields != []
    && (forall f :: f in fields ==> ValidField(f))
    && forall i, j :: 0 <= i < j < |fields| ==> fields[i].name != fields[j].name
  }

  /** What identifies an object: node, index and sub-index. */
  datatype ObjectKey = ObjectKey(nodeID: Byte, index: Word, subIndex: Byte)

  function KeyOf(o: SdoObject): ObjectKey {
    ObjectKey(o.nodeID, o.index, o.subIndex)
  }

  ghost predicate ValidObject(o: SdoObject) {
    1 <= o.nodeID <= 127 && ValidFields(o.fields)
  }

  ghost predicate ValidObjects(objects: seq<SdoObject>) {
    && (forall o :: o in objects ==> ValidObject(o))
    && forall i, j :: 0 <= i < j < |objects| ==> KeyOf(objects[i]) != KeyOf(objects[j])
  }

  predicate ValidChannel(c: SdoChannel) {
    1 <= c.nodeID <= 127 && c.client <= 0x7FF && c.server <= 0x7FF
  }

  /** No COB-ID occurs twice, neither within a channel nor across channels. */
  predicate DistinctCobIDs(channels: seq<SdoChannel>) {
    && (forall c :: c in channels ==> c.client != c.server)
    && forall i, j :: 0 <= i < j < |channels| ==>
         {channels[i].client, channels[i].server} !! {channels[j].client, channels[j].server}
  }

  ghost predicate ValidSniff(s: SniffConfig) {
    && (forall c :: c in s.channels ==> ValidChannel(c))
    && DistinctCobIDs(s.channels) && ValidObjects(s.objects)
  }

  ghost predicate ValidPoll(p: PollConfig) {
    && p.mode in {Once, Interval}
    && (p.mode == Interval ==> p.interval > 0)
    && p.timeout >= 0 && p.backoff >= 0 && p.maxBackoff >= 0
    && (p.maxBackoff > 0 ==> p.backoff <= p.maxBackoff)
    && (p.maxRetries.Some? ==> p.maxRetries.value >= 0)
    && (p.mode == Once && p.retry ==> p.maxRetries.Some?)
    && ValidObjects(p.objects)
  }

  /** A polled node has at most one configured channel. */
  predicate Unambiguous(channels: seq<SdoChannel>, objects: seq<SdoObject>) {
    forall i, j, o :: 0 <= i < j < |channels| && o in objects ==>
      !(channels[i].nodeID == o.nodeID && channels[j].nodeID == o.nodeID)
  }

  /** An object that is both sniffed and polled has the same fields in both places. */
  predicate Agreeing(passive: seq<SdoObject>, polled: seq<SdoObject>) {
    forall p, q :: p in passive && q in polled && KeyOf(p) == KeyOf(q) ==> p.fields == q.fields
  }

  ghost predicate ValidSdo(c: SdoConfig) {
    && ValidSniff(c.sniff) && ValidPoll(c.poll)
    && Unambiguous(c.sniff.channels, c.poll.objects)
    && Agreeing(c.sniff.objects, c.poll.objects)
  }

  ghost predicate ValidResponse(r: RawResponse) {
    && 0 < r.cobID <= 0x7FF && r.matches != []
    && (forall m :: m in r.matches ==> 0 <= m.byteOffset <= 7)
    && ValidFields(r.fields)
  }

  ghost predicate ValidTransaction(t: RawTransaction) {
    && t.name != "" && 0 < t.cobID <= 0x7FF && 1 <= |t.payload| <= 8
    && t.timeout > 0 && t.interval >= 0
    && (t.EffectiveMode() == Once ==> t.interval == 0)
    && (t.EffectiveMode() == Interval ==> t.interval > 0)
    && t.EffectiveMode() in {Once, Interval}
    && t.backoff >= 0 && t.maxBackoff >= 0
    && (t.maxBackoff > 0 ==> t.backoff <= t.maxBackoff)
    && (t.maxRetries.Some? ==> t.maxRetries.value >= 0)
    && (t.EffectiveMode() == Once && t.retry ==> t.maxRetries.Some?)
    && ValidResponse(t.response)
  }

  /** Two match lists name the same byte with different values. */
  predicate Conflict(left: seq<MatchByte>, right: seq<MatchByte>) {
    exists l, r :: l in left && r in right && l.byteOffset == r.byteOffset && l.value != r.value
  }

  predicate Separated(s: RawTransaction, t: RawTransaction) {
    && s.name != t.name && (s.cobID, s.payload) != (t.cobID, t.payload)
    && (s.response.cobID == t.response.cobID ==> Conflict(s.response.matches, t.response.matches))
  }

  ghost predicate ValidTransactions(ts: seq<RawTransaction>) {
    && (forall t :: t in ts ==> ValidTransaction(t))
    && forall i, j :: 0 <= i < j < |ts| ==> Separated(ts[i], ts[j])
  }

  // ---------------------------------------------------------------------
  // The validators
  // ---------------------------------------------------------------------

  method ValidateFields(fields: seq<FieldConfig>) returns (ok: bool)
    ensures ok <==> ValidFields(fields)
  {
    if |fields| == 0 {
      return false;
    }
    var seen := {};
    for i := 0 to |fields|
      invariant seen == set k | 0 <= k < i :: fields[k].name
      invariant forall k :: 0 <= k < i ==> ValidField(fields[k])
      invariant forall j, k :: 0 <= j < k < i ==> fields[j].name != fields[k].name
    {
      if !ValidField(fields[i]) {
        return false;
      }
      if fields[i].name in seen {
        return false;
      }
      seen := seen + {fields[i].name};
    }
    return true;
  }

  method ValidateObjects(objects: seq<SdoObject>) returns (ok: bool)
    ensures ok <==> ValidObjects(objects)
  {
    var seen := {};
    for i := 0 to |objects|
      invariant seen == set k | 0 <= k < i :: KeyOf(objects[k])
      invariant forall k :: 0 <= k < i ==> ValidObject(objects[k])
      invariant forall j, k :: 0 <= j < k < i ==> KeyOf(objects[j]) != KeyOf(objects[k])
    {
      var o := objects[i];
      assert o in objects;
      if o.nodeID < 1 || o.nodeID > 127 {
        return false;
      }
      var fieldsOk := ValidateFields(o.fields);
      if !fieldsOk {
        return false;
      }
      if KeyOf(objects[i]) in seen {
        return false;
      }
      seen := seen + {KeyOf(objects[i])};
    }
    return true;
  }

  method ValidateSniff(s: SniffConfig) returns (ok: bool)
    ensures ok <==> ValidSniff(s)
  {
    var seen := {};
    for i := 0 to |s.channels|
      invariant forall x :: x in seen <==> exists k :: 0 <= k < i && (x == s.channels[k].client || x == s.channels[k].server)
      invariant forall k :: 0 <= k < i ==> ValidChannel(s.channels[k])
      invariant DistinctCobIDs(s.channels[..i])
    {
      var c := s.channels[i];
      if !ValidChannel(c) {
        return false;
      }
      if c.client in seen || c.server in seen {
        ghost var x := if c.client in seen then c.client else c.server;
        ghost var k :| 0 <= k < i && (x == s.channels[k].client || x == s.channels[k].server);
        assert x in {s.channels[k].client, s.channels[k].server} * {c.client, c.server};
        return false;
      }
      if c.client == c.server {
        return false;
      }
      seen := seen + {c.client, c.server};
      assert s.channels[..i + 1] == s.channels[..i] + [c];
    }
    assert s.channels[..|s.channels|] == s.channels;
    ok := ValidateObjects(s.objects);
  }

  /** Validation also fills in the default mode. */
  method ValidatePoll(p: PollConfig) returns (ok: bool, p': PollConfig)
    ensures p' == if p.mode == Unset then p.(mode := Once) else p
    ensures ok <==> ValidPoll(p')
  {
    p' := p;
    if p'.mode == Unset {
      p' := p'.(mode := Once);
    }
    if p'.mode != Once && p'.mode != Interval {
      return false, p';
    }
    if p'.mode == Interval && p'.interval <= 0 {
      return false, p';
    }
    if p'.timeout < 0 {
      return false, p';
    }
    if p'.backoff < 0 || p'.maxBackoff < 0 {
      return false, p';
    }
    if p'.maxBackoff > 0 && p'.backoff > p'.maxBackoff {
      return false, p';
    }
    if p'.maxRetries.Some? && p'.maxRetries.value < 0 {
      return false, p';
    }
    if p'.mode == Once && p'.retry && p'.maxRetries.None? {
      return false, p';
    }
    ok := ValidateObjects(p'.objects);
  }

  function CountOf(channels: seq<SdoChannel>, nodeID: Byte): nat {
    if channels == [] then 0
    else CountOf(channels[..|channels| - 1], nodeID) + if channels[|channels| - 1].nodeID == nodeID then 1 else 0
  }

  lemma {:induction false} CountPairs(channels: seq<SdoChannel>, nodeID: Byte)
    ensures CountOf(channels, nodeID) > 0 <==> exists k :: 0 <= k < |channels| && channels[k].nodeID == nodeID
    ensures CountOf(channels, nodeID) > 1 <==>
      exists i, j :: 0 <= i < j < |channels| && channels[i].nodeID == nodeID && channels[j].nodeID == nodeID
  {
    if channels != [] {
      var n := |channels| - 1;
      var init := channels[..n];
      CountPairs(init, nodeID);
      if CountOf(init, nodeID) > 0 && channels[n].nodeID == nodeID {
        var k :| 0 <= k < |init| && init[k].nodeID == nodeID;
        assert channels[k].nodeID == nodeID;
      }
      if CountOf(init, nodeID) > 1 {
        var i, j :| 0 <= i < j < |init| && init[i].nodeID == nodeID && init[j].nodeID == nodeID;
        assert channels[i].nodeID == nodeID && channels[j].nodeID == nodeID;
      }
    }
  }

  method CheckUnambiguous(channels: seq<SdoChannel>, objects: seq<SdoObject>) returns (ok: bool)
    ensures ok <==> Unambiguous(channels, objects)
  {
    var polled: set<Byte> := {};
    for i := 0 to |objects|
      invariant polled == set k | 0 <= k < i :: objects[k].nodeID
    {
      polled := polled + {objects[i].nodeID};
    }
    var counts: map<Byte, nat> := map[];
    for i := 0 to |channels|
      invariant forall n: Byte :: (if n in counts then counts[n] else 0) == CountOf(channels[..i], n)
    {
      var n := channels[i].nodeID;
      assert channels[..i + 1][..i] == channels[..i];
      counts := counts[n := (if n in counts then counts[n] else 0) + 1];
    }
    assert channels[..|channels|] == channels;
    UnambiguousByCount(channels, objects);
    ok := forall n :: n in polled ==> n !in counts || counts[n] <= 1;
    assert forall n :: n in polled <==> exists k :: 0 <= k < |objects| && objects[k].nodeID == n;
  }

  lemma UnambiguousByCount(channels: seq<SdoChannel>, objects: seq<SdoObject>)
    ensures Unambiguous(channels, objects)
       <==> forall k :: 0 <= k < |objects| ==> CountOf(channels, objects[k].nodeID) <= 1
  {
    forall k | 0 <= k < |objects|
      ensures CountOf(channels, objects[k].nodeID) > 1 <==>
        exists i, j :: 0 <= i < j < |channels|
          && channels[i].nodeID == objects[k].nodeID && channels[j].nodeID == objects[k].nodeID
    {
      CountPairs(channels, objects[k].nodeID);
    }
  }

  method CheckAgreeing(passive: seq<SdoObject>, polled: seq<SdoObject>) returns (ok: bool)
    requires ValidObjects(passive)
    ensures ok <==> Agreeing(passive, polled)
  {
    var byKey: map<ObjectKey, SdoObject> := map[];
    for i := 0 to |passive|
      invariant forall k :: k in byKey ==> byKey[k] in passive && KeyOf(byKey[k]) == k
      invariant forall j :: 0 <= j < i ==> KeyOf(passive[j]) in byKey && byKey[KeyOf(passive[j])] == passive[j]
    {
      byKey := byKey[KeyOf(passive[i]) := passive[i]];
    }
    for i := 0 to |polled|
      invariant forall p, j :: p in passive && 0 <= j < i && KeyOf(p) == KeyOf(polled[j]) ==> p.fields == polled[j].fields
    {
      var key := KeyOf(polled[i]);
      if key in byKey && byKey[key].fields != polled[i].fields {
        return false;
      }
    }
    return true;
  }

  method ValidateSdo(c: SdoConfig) returns (ok: bool, c': SdoConfig)
    ensures c' == if ValidSniff(c.sniff) && c.poll.mode == Unset then c.(poll := c.poll.(mode := Once)) else c
    ensures ok ==> ValidSdo(c')
    ensures !ok ==> !ValidSdo(c')
  {
    c' := c;
    ok := ValidateSniff(c.sniff);
    if !ok {
      return;
    }
    var poll;
    ok, poll := ValidatePoll(c.poll);
    c' := c.(poll := poll);
    if !ok {
      return;
    }
    ok := CheckUnambiguous(c.sniff.channels, c.poll.objects);
    if !ok {
      return;
    }
    ok := CheckAgreeing(c.sniff.objects, c.poll.objects);
  }

  // ---------------------------------------------------------------------
  // Raw transactions
  // ---------------------------------------------------------------------

  method RawMatchesCanOverlap(left: seq<MatchByte>, right: seq<MatchByte>) returns (overlap: bool)
    ensures overlap <==> !Conflict(left, right)
  {
    for i := 0 to |left|
      invariant forall l, r :: l in left[..i] && r in right ==> !(l.byteOffset == r.byteOffset && l.value != r.value)
    {
      for j := 0 to |right|
        invariant forall r :: r in right[..j] ==> !(left[i].byteOffset == r.byteOffset && left[i].value != r.value)
      {
        if left[i].byteOffset == right[j].byteOffset && left[i].value != right[j].value {
          return false;
        }
      }
    }
    assert left[..|left|] == left;
    return true;
  }

  method ValidateResponse(r: RawResponse) returns (ok: bool)
    ensures ok <==> ValidResponse(r)
  {
    if r.cobID == 0 || r.cobID > 0x7FF || |r.matches| == 0 {
      return false;
    }
    ok := ValidateMatches(r.matches);
    if !ok {
      return;
    }
    ok := ValidateFields(r.fields);
  }

  method ValidateTransaction(t: RawTransaction) returns (ok: bool)
    ensures ok <==> ValidTransaction(t)
  {
    if t.name == "" || t.cobID == 0 || t.cobID > 0x7FF || |t.payload| == 0 || |t.payload| > 8 {
      return false;
    }
    if t.timeout <= 0 || t.interval < 0 {
      return false;
    }
    if t.EffectiveMode() == Once {
      if t.interval != 0 {
        return false;
      }
    } else if t.EffectiveMode() == Interval {
      if t.interval <= 0 {
        return false;
      }
    } else {
      return false;
    }
    if t.backoff < 0 || t.maxBackoff < 0 || (t.maxBackoff > 0 && t.backoff > t.maxBackoff) {
      return false;
    }
    if t.maxRetries.Some? && t.maxRetries.value < 0 {
      return false;
    }
    if t.EffectiveMode() == Once && t.retry && t.maxRetries.None? {
      return false;
    }
    ok := ValidateResponse(t.response);
  }

  method ValidateTransactions(ts: seq<RawTransaction>) returns (ok: bool)
    ensures ok <==> ValidTransactions(ts)
  {
    var seenNames: set<string> := {};
    var seenRequests: set<(nat, seq<Byte>)> := {};
    for i := 0 to |ts|
      invariant seenNames == set k | 0 <= k < i :: ts[k].name
      invariant seenRequests == set k | 0 <= k < i :: (ts[k].cobID, ts[k].payload)
      invariant forall k :: 0 <= k < i ==> ValidTransaction(ts[k])
      invariant forall j, k :: 0 <= j < k < i ==> Separated(ts[j], ts[k])
    {
      var current := ts[i];
      ok := ValidateTransaction(current);
      if !ok {
        return;
      }
      if current.name in seenNames {
        ghost var k :| 0 <= k < i && ts[k].name == current.name;
        assert !Separated(ts[k], ts[i]);
        return false;
      }
      seenNames := seenNames + {current.name};
      if (current.cobID, current.payload) in seenRequests {
        ghost var k :| 0 <= k < i && (ts[k].cobID, ts[k].payload) == (current.cobID, current.payload);
        assert !Separated(ts[k], ts[i]);
        return false;
      }
      seenRequests := seenRequests + {(current.cobID, current.payload)};
      for previous := 0 to i
        invariant forall k :: 0 <= k < previous ==> Separated(ts[k], current)
      {
        if ts[previous].response.cobID == current.response.cobID {
          var overlap := RawMatchesCanOverlap(ts[previous].response.matches, current.response.matches);
          if overlap {
            assert !Separated(ts[previous], ts[i]);
            return false;
          }
        }
      }
    }
    return true;
  }

  ghost predicate ValidMessage(m: RawMessage) {
    && m.name != "" && 0 < m.cobID <= 0x7FF
    && (forall b :: b in m.matches ==> 0 <= b.byteOffset <= 7)
    && ValidFields(m.fields)
  }

  ghost predicate ValidRawSniff(s: RawSniff) {
    && (forall id :: id in s.cobIDs ==> id <= 0x7FF)
    && (forall i, j :: 0 <= i < j < |s.cobIDs| ==> s.cobIDs[i] != s.cobIDs[j])
    && (forall m :: m in s.messages ==> ValidMessage(m))
    && forall i, j :: 0 <= i < j < |s.messages| ==> s.messages[i].name != s.messages[j].name
  }

  ghost predicate ValidRaw(r: RawConfig) {
    ValidRawSniff(r.sniff) && ValidTransactions(r.transactions)
  }

  ghost predicate ValidPdo(p: Pdo) {
    p.name != "" && 0 < p.cobID <= 0x1FFF_FFFF && ValidFields(p.fields)
  }

  ghost predicate ValidPdos(pdos: seq<Pdo>) {
    && (forall p :: p in pdos ==> ValidPdo(p))
    && forall i, j :: 0 <= i < j < |pdos| ==> pdos[i].name != pdos[j].name && pdos[i].cobID != pdos[j].cobID
  }

  method ValidateMatches(matches: seq<MatchByte>) returns (ok: bool)
    ensures ok <==> forall b :: b in matches ==> 0 <= b.byteOffset <= 7
  {
    for i := 0 to |matches|
      invariant forall k :: 0 <= k < i ==> 0 <= matches[k].byteOffset <= 7
    {
      if matches[i].byteOffset < 0 || matches[i].byteOffset > 7 {
        return false;
      }
    }
    return true;
  }

  method ValidateMessage(m: RawMessage) returns (ok: bool)
    ensures ok <==> ValidMessage(m)
  {
    if m.name == "" || m.cobID == 0 || m.cobID > 0x7FF {
      return false;
    }
    ok := ValidateMatches(m.matches);
    if ok {
      ok := ValidateFields(m.fields);
    }
  }

  method ValidateRawSniff(s: RawSniff) returns (ok: bool)
    ensures ok <==> ValidRawSniff(s)
  {
    var seen: set<nat> := {};
    for i := 0 to |s.cobIDs|
      invariant seen == set k | 0 <= k < i :: s.cobIDs[k]
      invariant forall k :: 0 <= k < i ==> s.cobIDs[k] <= 0x7FF
      invariant forall j, k :: 0 <= j < k < i ==> s.cobIDs[j] != s.cobIDs[k]
    {
      if s.cobIDs[i] > 0x7FF {
        assert s.cobIDs[i] in s.cobIDs;
        return false;
      }
      if s.cobIDs[i] in seen {
        ghost var k :| 0 <= k < i && s.cobIDs[k] == s.cobIDs[i];
        assert !ValidRawSniff(s);
        return false;
      }
      seen := seen + {s.cobIDs[i]};
    }
    var names: set<string> := {};
    for i := 0 to |s.messages|
      invariant names == set k | 0 <= k < i :: s.messages[k].name
      invariant forall k :: 0 <= k < i ==> ValidMessage(s.messages[k])
      invariant forall j, k :: 0 <= j < k < i ==> s.messages[j].name != s.messages[k].name
    {
      ok := ValidateMessage(s.messages[i]);
      if !ok {
        return;
      }
      if s.messages[i].name in names {
        return false;
      }
      names := names + {s.messages[i].name};
    }
    return true;
  }

  method ValidateRaw(r: RawConfig) returns (ok: bool)
    ensures ok <==> ValidRaw(r)
  {
    ok := ValidateRawSniff(r.sniff);
    if ok {
      ok := ValidateTransactions(r.transactions);
    }
  }

  method ValidatePdos(pdos: seq<Pdo>) returns (ok: bool)
    ensures ok <==> ValidPdos(pdos)
  {
    var names: set<string>, cobIDs: set<nat> := {}, {};
    for i := 0 to |pdos|
      invariant names == set k | 0 <= k < i :: pdos[k].name
      invariant cobIDs == set k | 0 <= k < i :: pdos[k].cobID
      invariant forall k :: 0 <= k < i ==> ValidPdo(pdos[k])
      invariant forall j, k :: 0 <= j < k < i ==> pdos[j].name != pdos[k].name && pdos[j].cobID != pdos[k].cobID
    {
      var p := pdos[i];
      assert p in pdos;
      if p.name == "" || p.cobID == 0 || p.cobID > 0x1FFF_FFFF {
        return false;
      }
      ok := ValidateFields(p.fields);
      if !ok {
        return;
      }
      if p.name in names {
        ghost var k :| 0 <= k < i && pdos[k].name == pdos[i].name;
        assert !ValidPdos(pdos);
        return false;
      }
      if p.cobID in cobIDs {
        ghost var k :| 0 <= k < i && pdos[k].cobID == pdos[i].cobID;
        assert !ValidPdos(pdos);
        return false;
      }
      names := names + {p.name};
      cobIDs := cobIDs + {p.cobID};
    }
    return true;
  }

  /** A payload satisfies all the byte conditions of a match list. */
  predicate Matches(matches: seq<MatchByte>, data: seq<Byte>) {
    forall m :: m in matches ==> 0 <= m.byteOffset < |data| && data[m.byteOffset] == m.value
  }

  /** Matching never looks before the start of a frame; validation guarantees it. */
  predicate Readable(matches: seq<MatchByte>) {
    forall m :: m in matches ==> m.byteOffset >= 0
  }

  method RawTransactionMatches(matches: seq<MatchByte>, data: seq<Byte>) returns (r: bool)
    requires Readable(matches)
    ensures r <==> Matches(matches, data)
  {
    for i := 0 to |matches|
      invariant forall k :: 0 <= k < i ==> matches[k].byteOffset < |data| && data[matches[k].byteOffset] == matches[k].value
    {
      if matches[i].byteOffset >= |data| || data[matches[i].byteOffset] != matches[i].value {
        return false;
      }
    }
    return true;
  }

  /** The value the lists ask for at byte `k`, if any. */
  function Wanted(matches: seq<MatchByte>, k: nat): Byte {
    if matches == [] then 0 else if matches[0].byteOffset == k then matches[0].value else Wanted(matches[1..], k)
  }

  lemma {:induction false} WantedIsConsistent(matches: seq<MatchByte>, m: MatchByte)
    requires !Conflict(matches, matches) && m in matches && m.byteOffset >= 0
    ensures Wanted(matches, m.byteOffset) == m.value
  {
    if matches[0].byteOffset != m.byteOffset {
      WantedIsConsistent(matches[1..], m);
    }
  }

  /**
   * The overlap check is exact: two lists with offsets 0..7, each satisfiable by
   * itself, have a common 8-byte payload exactly when they do not conflict.
   */
  lemma OverlapExact(left: seq<MatchByte>, right: seq<MatchByte>)
    requires forall m :: m in left || m in right ==> 0 <= m.byteOffset <= 7
    ensures (exists data: seq<Byte> :: |data| == 8 && Matches(left, data) && Matches(right, data))
       <==> !Conflict(left, right) && !Conflict(left, left) && !Conflict(right, right)
  {
    if !Conflict(left, right) && !Conflict(left, left) && !Conflict(right, right) {
      var both := left + right;
      var data: seq<Byte> := seq(8, (k: nat) => Wanted(both, k));
      forall m | m in both ensures data[m.byteOffset] == m.value {
        WantedIsConsistent(both, m);
      }
      assert |data| == 8 && Matches(left, data) && Matches(right, data);
    }
  }

  /** ... and lists that conflict share no payload of any length. */
  lemma ConflictExcludes(left: seq<MatchByte>, right: seq<MatchByte>, data: seq<Byte>)
    requires Conflict(left, right)
    ensures !(Matches(left, data) && Matches(right, data))
  {
  }

  /** Which transaction a response frame can belong to. */
  predicate Answers(t: RawTransaction, cobID: nat, data: seq<Byte>) {
    cobID == t.response.cobID && Matches(t.response.matches, data)
  }

  /** In an accepted configuration every frame is the reply of at most one transaction. */
  lemma UnambiguousAttribution(ts: seq<RawTransaction>, i: nat, j: nat, cobID: nat, data: seq<Byte>)
    requires ValidTransactions(ts) && i < |ts| && j < |ts|
    requires Answers(ts[i], cobID, data) && Answers(ts[j], cobID, data)
    ensures i == j
  {
    if i != j {
      var x, y := if i < j then i else j, if i < j then j else i;
      assert Separated(ts[x], ts[y]);
      ConflictExcludes(ts[x].response.matches, ts[y].response.matches, data);
    }
  }

  // ---------------------------------------------------------------------
  // Acceptance in plain numbers
  // ---------------------------------------------------------------------

  /** A negative or contradictory backoff is refused, and so is a once-mode poll that may retry forever. */
  predicate PlainRetry(once: bool, retry: bool, backoff: Int64, maxBackoff: Int64, maxRetries: Option<Int64>) {
    && backoff >= 0 && (maxBackoff == 0 || maxBackoff >= backoff) && maxBackoff >= 0
    && match maxRetries case None => !(once && retry) case Some(m) => m >= 0
  }

  /** Polling settings: an interval if and only if one is needed, then the retry settings. */
  lemma AcceptedPoll(p: PollConfig)
    ensures ValidPoll(p) <==>
      && (p.mode == Once || (p.mode == Interval && p.interval >= 1)) && p.timeout >= 0
      && PlainRetry(p.mode == Once, p.retry, p.backoff, p.maxBackoff, p.maxRetries)
      && ValidObjects(p.objects)
  {
  }

  /** A raw transaction is one-shot or periodic by its interval; a written mode must say the same. */
  lemma AcceptedTransaction(t: RawTransaction)
    ensures ValidTransaction(t) <==>
      && t.name != "" && 1 <= t.cobID < 0x800 && 1 <= |t.payload| < 9 && t.timeout >= 1
      && (t.interval == 0 || t.interval >= 1) && t.mode in {Unset, if t.interval == 0 then Once else Interval}
      && PlainRetry(t.interval == 0, t.retry, t.backoff, t.maxBackoff, t.maxRetries)
      && 1 <= t.response.cobID < 0x800 && t.response.matches != []
      && (forall m :: m in t.response.matches ==> m.byteOffset in {0, 1, 2, 3, 4, 5, 6, 7})
      && ValidFields(t.response.fields)
  {
  }

  /** Identifiers: nodes 1..127, standard COB-IDs for channels and captured frames, 29 bits for PDOs. */
  lemma AcceptedIdentifiers(c: SdoChannel, o: SdoObject, m: RawMessage, p: Pdo)
    ensures ValidChannel(c) <==> 0 < c.nodeID < 0x80 && c.client < 0x800 && c.server < 0x800
    ensures ValidObject(o) <==> 0 < o.nodeID < 0x80 && ValidFields(o.fields)
    ensures ValidMessage(m) <==>
      && m.name != "" && 0 < m.cobID < 0x800 && ValidFields(m.fields)
      && forall b :: b in m.matches ==> b.byteOffset in {0, 1, 2, 3, 4, 5, 6, 7}
    ensures ValidPdo(p) <==> p.name != "" && 0 < p.cobID < 0x2000_0000 && ValidFields(p.fields)
  {
  }

  /** Fields: byte ranges must be aligned, non-empty and without metrics; numbers may lie anywhere. */
  lemma AcceptedField(f: FieldConfig)
    ensures ValidField(f) <==>
      && f.name != "" && f.bitOffset >= 0 && !f.dataType.Unsupported? && !f.metricType.NoSuchType?
      && (f.dataType in {Codec.ByteArray, Codec.VisibleString} ==> f.bitOffset % 8 == 0 && f.byteLen >= 1 && !f.metrics)
      && forall key :: key in f.attributes ==>
           match f.attributes[key]
           case Uint64Attribute(x) => x < 0x8000_0000_0000_0000
           case OtherAttribute(_) => false
           case _ => true
  {
  }
}
