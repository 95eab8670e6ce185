/** Whole runs of the observer, on one channel and on many. */
module SdoRuns {
  import opened Bytes
  import opened SdoMessages
  import opened SdoObserver

  /** A frame seen on a channel, and what is read from it. */
  datatype Observation = Observation(nodeID: Byte, direction: Direction, frame: seq<Byte>)
  datatype Input = Input(nodeID: Byte, message: Message)

  function Read(o: Observation): Input {
    Input(o.nodeID, Parse(o.direction, o.frame))
  }

  function ReadAll(os: seq<Observation>): (r: seq<Input>)
    ensures |r| == |os| && forall k :: 0 <= k < |os| ==> r[k] == Read(os[k])
  {
    seq(|os|, k requires 0 <= k < |os| => Read(os[k]))
  }

  function Next(ch: Channel, i: Input): Channel { Step(ch, i.nodeID, i.message).0 }
  function OutcomeOf(ch: Channel, i: Input): Outcome { Step(ch, i.nodeID, i.message).1 }

  function After(ch: Channel, run: seq<Input>): Channel
    decreases |run|
  {
    if run == [] then ch else After(Next(ch, run[0]), run[1..])
  }

  function Outcomes(ch: Channel, run: seq<Input>): (r: seq<Outcome>)
    ensures |r| == |run|
    decreases |run|
  {
    if run == [] then [] else [OutcomeOf(ch, run[0])] + Outcomes(Next(ch, run[0]), run[1..])
  }

  function EventOf(o: Outcome): seq<Event> {
    if o.Emitted? then [o.event] else []
  }

  /** The events of a run, in order. */
  function Events(ch: Channel, run: seq<Input>): seq<Event>
    decreases |run|
  {
    if run == [] then [] else EventOf(OutcomeOf(ch, run[0])) + Events(Next(ch, run[0]), run[1..])
  }

  lemma {:induction false} RunConcat(ch: Channel, a: seq<Input>, b: seq<Input>)
    ensures After(ch, a + b) == After(After(ch, a), b)
    ensures Events(ch, a + b) == Events(ch, a) + Events(After(ch, a), b)
    decreases |a|
  {
    if a == [] {
      assert a + b == b;
    } else {
      assert (a + b)[1..] == a[1..] + b;
      RunConcat(Next(ch, a[0]), a[1..], b);
    }
  }

  /** The channel's state before step `n` decides that step's outcome and the next state. */
  lemma {:induction false} RunAt(ch: Channel, run: seq<Input>, n: nat)
    requires n < |run|
    ensures Outcomes(ch, run)[n] == OutcomeOf(After(ch, run[..n]), run[n])
    ensures After(ch, run[..n + 1]) == Next(After(ch, run[..n]), run[n])
    decreases n
  {
    if n == 0 {
      assert run[..1][1..] == [];
    } else {
      RunAt(Next(ch, run[0]), run[1..], n - 1);
      assert run[..n][1..] == run[1..][..n - 1];
      assert run[..n + 1][1..] == run[1..][..n];
    }
  }

  // ---------------------------------------------------------------------
  // Channel independence
  // ---------------------------------------------------------------------

  type Trace = seq<(ChannelKey, Input)>

  function Select<T>(key: ChannelKey, xs: seq<(ChannelKey, T)>): seq<T> {
    if xs == [] then []
    else if xs[0].0 == key then [xs[0].1] + Select(key, xs[1..])
    else Select(key, xs[1..])
  }

  function AfterAll(m: Channels, trace: Trace): Channels
    decreases |trace|
  {
    if trace == [] then m
    else AfterAll(StepOn(m, trace[0].0, trace[0].1.nodeID, trace[0].1.message).0, trace[1..])
  }

  function OutcomesAll(m: Channels, trace: Trace): seq<(ChannelKey, Outcome)>
    decreases |trace|
  {
    if trace == [] then []
    else
      var (m', out) := StepOn(m, trace[0].0, trace[0].1.nodeID, trace[0].1.message);
      [(trace[0].0, out)] + OutcomesAll(m', trace[1..])
  }

  /**
   * Whatever else is on the bus, a channel's events, errors and state are those
   * of an observer that sees that channel's frames only.
   */
  lemma {:induction false} ChannelIndependence(m: Channels, trace: Trace, key: ChannelKey)
    ensures Select(key, OutcomesAll(m, trace)) == Outcomes(Lookup(m, key), Select(key, trace))
    ensures Lookup(AfterAll(m, trace), key) == After(Lookup(m, key), Select(key, trace))
    decreases |trace|
  {
    if trace != [] {
      var i := trace[0].1;
      var (m', out) := StepOn(m, trace[0].0, i.nodeID, i.message);
      ChannelIndependence(m', trace[1..], key);
      var rest := OutcomesAll(m', trace[1..]);
      assert OutcomesAll(m, trace)[1..] == rest;
      if trace[0].0 == key {
        var mine := Select(key, trace);
        assert mine[1..] == Select(key, trace[1..]);
      }
    }
  }
}
