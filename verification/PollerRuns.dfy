/** An upload attempt under arbitrary bus traffic. */
module PollerRuns {
  import opened Bytes
  import opened Bus
  import opened Config
  import opened SdoMessages
  import opened SdoPoller

  function After(channels: NodeChannels, a: Poll, frames: seq<Frame>): Poll {
    if frames == [] then a
    else Deliver(channels, After(channels, a, frames[..|frames| - 1]), frames[|frames| - 1]).0
  }

  /** The segment requests an attempt sends, in order. */
  function Sent(channels: NodeChannels, a: Poll, frames: seq<Frame>): seq<Frame> {
    if frames == [] then []
    else
      var n := |frames| - 1;
      var request := Deliver(channels, After(channels, a, frames[..n]), frames[n]).1;
      Sent(channels, a, frames[..n]) + if request.Some? then [request.value] else []
  }

  /** The state of an attempt at `o` that has sent `k` segment requests. */
  predicate Phase(channels: NodeChannels, o: SdoObject, a: Poll, k: nat) {
    && a.target == o && a.serverCobID == ChannelOf(channels, o.nodeID).server
    && (a.segment <==> k > 0)
    && a.toggle == (a.segment && !Odd(k))
  }

  lemma RequestStep(channels: NodeChannels, o: SdoObject, a: Poll, k: nat, f: Frame)
    requires Phase(channels, o, a, k)
    ensures var (a', request) := Deliver(channels, a, f);
      match request
      case None => Phase(channels, o, a', k)
      case Some(r) => r == SegmentRequest(channels, o, Odd(k)) && Phase(channels, o, a', k + 1)
  {
  }

  /** The `k`-th segment request of an attempt carries toggle bit `k mod 2`, on the node's client COB-ID. */
  lemma {:induction false} RequestsAlternate(channels: NodeChannels, o: SdoObject, frames: seq<Frame>)
    ensures var sent := Sent(channels, NewPoll(channels, o), frames);
      && Phase(channels, o, After(channels, NewPoll(channels, o), frames), |sent|)
      && forall k :: 0 <= k < |sent| ==> sent[k] == SegmentRequest(channels, o, Odd(k))
  {
    if frames != [] {
      var n := |frames| - 1;
      RequestsAlternate(channels, o, frames[..n]);
      RequestStep(channels, o, After(channels, NewPoll(channels, o), frames[..n]),
                  |Sent(channels, NewPoll(channels, o), frames[..n])|, frames[n]);
    }
  }

  /** The first result posted is the one that stays. */
  lemma {:induction false} FirstResultStays(channels: NodeChannels, a: Poll, frames: seq<Frame>, more: seq<Frame>)
    requires After(channels, a, frames).result.Some?
    ensures After(channels, a, frames + more).result == After(channels, a, frames).result
    decreases |more|
  {
    if more == [] {
      assert frames + more == frames;
    } else {
      var all := frames + more;
      assert all[..|all| - 1] == frames + more[..|more| - 1];
      FirstResultStays(channels, a, frames, more[..|more| - 1]);
    }
  }

  // ---------------------------------------------------------------------
  // What a successful attempt has heard
  // ---------------------------------------------------------------------

  predicate Abort(a: Poll, f: Frame) {
    Heard(a, f) && f.data[0] == 0x80 && Addressed(a.target, f.data)
  }

  /** An address-matching frame that is not an abort. */
  predicate Response(a: Poll, f: Frame) {
    Heard(a, f) && f.data[0] != 0x80 && Addressed(a.target, f.data)
  }

  /** Command bytes heard, other than aborts. */
  function Commands(a: Poll, frames: seq<Frame>): seq<Byte> {
    if frames == [] then []
    else
      var n := |frames| - 1;
      Commands(a, frames[..n]) + if Heard(a, frames[n]) && frames[n].data[0] != 0x80 then [frames[n].data[0]] else []
  }

  /** Toggle bits alternate from 0; only the final command, if any, marks the last segment. */
  predicate InSequence(commands: seq<Byte>, finished: bool) {
    && (finished ==> |commands| > 0)
    && forall k :: 0 <= k < |commands| ==>
         && Toggle(commands[k]) == Odd(k)
         && (LastSegment(commands[k]) <==> finished && k == |commands| - 1)
  }

  /** The first response is at `i`, with no abort up to `n`. */
  predicate AnsweredAt(a: Poll, frames: seq<Frame>, i: nat, n: nat) {
    && i < n <= |frames| && Response(a, frames[i])
    && (forall j :: 0 <= j < i ==> !Response(a, frames[j]))
    && (forall j :: 0 <= j < n ==> !Abort(a, frames[j]))
  }

  /** The frames before `n` complete an upload answered at `i`. */
  predicate CompletesAt(a: Poll, frames: seq<Frame>, i: nat, n: nat) {
    && AnsweredAt(a, frames, i, n)
    && if Expedited(frames[i].data[0]) then n == i + 1 else InSequence(Commands(a, frames[i + 1..n]), true)
  }

  /** The frames open a segmented upload at `i` and do not complete it. */
  predicate UnderwayAt(a: Poll, frames: seq<Frame>, i: nat, toggle: bool) {
    && AnsweredAt(a, frames, i, |frames|) && !Expedited(frames[i].data[0])
    && var heard := Commands(a, frames[i + 1..]);
    && InSequence(heard, false) && toggle == Odd(|heard|)
  }

  /** Nothing decisive has been heard. */
  predicate Unanswered(a: Poll, frames: seq<Frame>) {
    forall j :: 0 <= j < |frames| ==> !Response(a, frames[j]) && !Abort(a, frames[j])
  }

  ghost predicate Underway(a: Poll, frames: seq<Frame>) {
    exists i: nat, toggle: bool :: UnderwayAt(a, frames, i, toggle)
  }

  predicate Mistoggled(a: Poll, f: Frame, toggle: bool) {
    Heard(a, f) && f.data[0] != 0x80 && Toggle(f.data[0]) != toggle
  }

  /** The attempt is still open before frame `n`, which fails it. */
  ghost predicate FailsAt(a: Poll, frames: seq<Frame>, n: nat, why: PollFailure) {
    && n < |frames|
    && match why
       case AbortedByServer =>
         (Unanswered(a, frames[..n]) || Underway(a, frames[..n])) && Abort(a, frames[n])
       case WrongToggle =>
         exists i: nat, toggle: bool :: UnderwayAt(a, frames[..n], i, toggle) && Mistoggled(a, frames[n], toggle)
       case SendFailed | TimedOut | Cancelled => false
  }

  ghost predicate Completes(a: Poll, frames: seq<Frame>) {
    exists i: nat, n: nat :: CompletesAt(a, frames, i, n)
  }

  ghost predicate Fails(a: Poll, frames: seq<Frame>, why: PollFailure) {
    exists n: nat :: FailsAt(a, frames, n, why)
  }

  /** What has been heard accounts for an attempt's state. */
  ghost predicate Explained(start: Poll, frames: seq<Frame>, a: Poll) {
    && a.target == start.target && a.serverCobID == start.serverCobID
    && match a.result
       case None =>
         if a.segment then exists i: nat :: UnderwayAt(start, frames, i, a.toggle) else Unanswered(start, frames)
       case Some(PollOk) => Completes(start, frames)
       case Some(PollFailed(why)) => Fails(start, frames, why)
  }

  lemma CommandsSnoc(a: Poll, frames: seq<Frame>, f: Frame)
    ensures Commands(a, frames + [f])
         == Commands(a, frames) + if Heard(a, f) && f.data[0] != 0x80 then [f.data[0]] else []
  {
    var all := frames + [f];
    assert all[..|all| - 1] == frames;
  }

  lemma CompletesStays(a: Poll, frames: seq<Frame>, f: Frame, i: nat, n: nat)
    requires CompletesAt(a, frames, i, n)
    ensures CompletesAt(a, frames + [f], i, n)
  {
    assert (frames + [f])[i + 1..n] == frames[i + 1..n];
  }

  lemma AnsweredStill(a: Poll, frames: seq<Frame>, f: Frame, i: nat)
    requires AnsweredAt(a, frames, i, |frames|) && !Abort(a, f)
    ensures AnsweredAt(a, frames + [f], i, |frames| + 1)
    ensures (frames + [f])[i + 1..] == frames[i + 1..] + [f]
  {
  }

  lemma SequenceStep(heard: seq<Byte>, c: Byte)
    requires InSequence(heard, false) && Toggle(c) == Odd(|heard|)
    ensures InSequence(heard + [c], LastSegment(c))
  {
  }

  lemma UnderwayOn(start: Poll, frames: seq<Frame>, i: nat, toggle: bool, f: Frame)
    requires UnderwayAt(start, frames, i, toggle) && !Abort(start, f)
    ensures !Heard(start, f) || f.data[0] == 0x80 ==> UnderwayAt(start, frames + [f], i, toggle)
    ensures Heard(start, f) && f.data[0] != 0x80 && Toggle(f.data[0]) == toggle ==>
      if LastSegment(f.data[0]) then CompletesAt(start, frames + [f], i, |frames| + 1)
      else UnderwayAt(start, frames + [f], i, !toggle)
  {
    var all := frames + [f];
    AnsweredStill(start, frames, f, i);
    var heard := Commands(start, frames[i + 1..]);
    CommandsSnoc(start, frames[i + 1..], f);
    assert all[i + 1..|all|] == all[i + 1..];
    if Heard(start, f) && f.data[0] != 0x80 && Toggle(f.data[0]) == toggle {
      SequenceStep(heard, f.data[0]);
    }
  }

  lemma FailsStays(a: Poll, frames: seq<Frame>, f: Frame, n: nat, why: PollFailure)
    requires FailsAt(a, frames, n, why)
    ensures FailsAt(a, frames + [f], n, why)
  {
    assert (frames + [f])[..n] == frames[..n];
  }

  lemma UnderwayStep(channels: NodeChannels, start: Poll, frames: seq<Frame>, i: nat, a: Poll, f: Frame)
    requires a.target == start.target && a.serverCobID == start.serverCobID
    requires a.result.None? && a.segment && UnderwayAt(start, frames, i, a.toggle)
    ensures Explained(start, frames + [f], Deliver(channels, a, f).0)
  {
    var all, n := frames + [f], |frames|;
    assert all[..n] == frames;
    if Abort(start, f) {
      assert FailsAt(start, all, n, AbortedByServer);
    } else {
      UnderwayOn(start, frames, i, a.toggle, f);
      if Mistoggled(start, f, a.toggle) {
        assert FailsAt(start, all, n, WrongToggle);
      }
    }
  }

  lemma WaitingStep(channels: NodeChannels, start: Poll, frames: seq<Frame>, a: Poll, f: Frame)
    requires Explained(start, frames, a) && a.result.None? && !a.segment
    ensures Explained(start, frames + [f], Deliver(channels, a, f).0)
  {
    var all, n := frames + [f], |frames|;
    assert all[..n] == frames;
    if Abort(start, f) {
      assert FailsAt(start, all, n, AbortedByServer);
    } else if Response(start, f) {
      assert AnsweredAt(start, all, n, |all|);
      assert all[n + 1..] == [];
      if Expedited(f.data[0]) {
        assert CompletesAt(start, all, n, |all|);
      } else {
        assert UnderwayAt(start, all, n, false);
      }
    }
  }

  lemma DecidedStep(channels: NodeChannels, start: Poll, frames: seq<Frame>, a: Poll, f: Frame)
    requires Explained(start, frames, a) && a.result.Some?
    ensures Explained(start, frames + [f], Deliver(channels, a, f).0)
  {
    match a.result.value {
      case PollOk =>
        var i: nat, k: nat :| CompletesAt(start, frames, i, k);
        CompletesStays(start, frames, f, i, k);
      case PollFailed(why) =>
        var k: nat :| FailsAt(start, frames, k, why);
        FailsStays(start, frames, f, k, why);
    }
  }

  /** Over any traffic, an attempt's state is accounted for by the frames heard. */
  lemma {:induction false} AttemptExplained(channels: NodeChannels, o: SdoObject, frames: seq<Frame>)
    ensures Explained(NewPoll(channels, o), frames, After(channels, NewPoll(channels, o), frames))
  {
    if frames != [] {
      var n := |frames| - 1;
      var start, a := NewPoll(channels, o), After(channels, NewPoll(channels, o), frames[..n]);
      AttemptExplained(channels, o, frames[..n]);
      assert frames == frames[..n] + [frames[n]];
      if a.result.Some? {
        DecidedStep(channels, start, frames[..n], a, frames[n]);
      } else if a.segment {
        var i: nat :| UnderwayAt(start, frames[..n], i, a.toggle);
        UnderwayStep(channels, start, frames[..n], i, a, frames[n]);
      } else {
        WaitingStep(channels, start, frames[..n], a, frames[n]);
      }
    }
  }

  // ---------------------------------------------------------------------
  // ... and decides it
  // ---------------------------------------------------------------------

  lemma {:induction false} UnansweredMeans(channels: NodeChannels, start: Poll, frames: seq<Frame>)
    requires !start.segment && start.result.None? && Unanswered(start, frames)
    ensures After(channels, start, frames) == start
  {
    if frames != [] {
      UnansweredMeans(channels, start, frames[..|frames| - 1]);
    }
  }

  lemma AnsweredBefore(a: Poll, frames: seq<Frame>, f: Frame, i: nat)
    requires i < |frames| && AnsweredAt(a, frames + [f], i, |frames| + 1)
    ensures AnsweredAt(a, frames, i, |frames|)
  {
    var all := frames + [f];
    forall j | 0 <= j < |frames| ensures all[j] == frames[j] && !Abort(a, frames[j]) {
    }
    forall j | 0 <= j < i ensures !Response(a, frames[j]) {
      assert all[j] == frames[j];
    }
  }

  /** Before its last frame, an upload underway was underway or unanswered. */
  lemma UnderwayBefore(start: Poll, frames: seq<Frame>, f: Frame, i: nat, toggle: bool)
    requires i < |frames| && UnderwayAt(start, frames + [f], i, toggle)
    ensures if Heard(start, f) && f.data[0] != 0x80
      then UnderwayAt(start, frames, i, !toggle) && Toggle(f.data[0]) != toggle && !LastSegment(f.data[0])
      else UnderwayAt(start, frames, i, toggle)
  {
    var all := frames + [f];
    AnsweredBefore(start, frames, f, i);
    assert all[i + 1..] == frames[i + 1..] + [f];
    CommandsSnoc(start, frames[i + 1..], f);
    var before, after := Commands(start, frames[i + 1..]), Commands(start, all[i + 1..]);
    forall k | 0 <= k < |before| ensures before[k] == after[k] {
    }
    if Heard(start, f) && f.data[0] != 0x80 {
      assert after[|before|] == f.data[0];
    }
  }

  lemma {:induction false} UnderwayMeans(channels: NodeChannels, start: Poll, frames: seq<Frame>, i: nat, toggle: bool)
    requires !start.segment && start.result.None? && UnderwayAt(start, frames, i, toggle)
    ensures After(channels, start, frames) == start.(segment := true, toggle := toggle)
    decreases |frames|
  {
    var n := |frames| - 1;
    var prev, f := frames[..n], frames[n];
    assert frames == prev + [f];
    if i == n {
      UnansweredMeans(channels, start, prev);
      assert frames[i + 1..] == [];
    } else {
      UnderwayBefore(start, prev, f, i, toggle);
      UnderwayMeans(channels, start, prev, i, if Heard(start, f) && f.data[0] != 0x80 then !toggle else toggle);
    }
  }

  lemma CompletedBefore(start: Poll, frames: seq<Frame>, f: Frame, i: nat)
    requires i < |frames| && CompletesAt(start, frames + [f], i, |frames| + 1)
    ensures if Heard(start, f) && f.data[0] != 0x80
      then UnderwayAt(start, frames, i, Toggle(f.data[0])) && LastSegment(f.data[0])
      else CompletesAt(start, frames, i, |frames|)
  {
    var all := frames + [f];
    AnsweredBefore(start, frames, f, i);
    assert all[i + 1..|frames| + 1] == frames[i + 1..] + [f];
    assert frames[i + 1..|frames|] == frames[i + 1..];
    CommandsSnoc(start, frames[i + 1..], f);
    var before, after := Commands(start, frames[i + 1..]), Commands(start, frames[i + 1..] + [f]);
    forall k | 0 <= k < |before| ensures before[k] == after[k] {
    }
    if Heard(start, f) && f.data[0] != 0x80 {
      assert after[|before|] == f.data[0];
    }
  }

  lemma {:induction false} CompletesMeans(channels: NodeChannels, start: Poll, frames: seq<Frame>, i: nat)
    requires !start.segment && start.result.None? && CompletesAt(start, frames, i, |frames|)
    ensures After(channels, start, frames).result == Some(PollOk)
    decreases |frames|
  {
    var n := |frames| - 1;
    var prev, f := frames[..n], frames[n];
    assert frames == prev + [f];
    if i == n {
      UnansweredMeans(channels, start, prev);
      assert frames[i + 1..|frames|] == [];
    } else {
      CompletedBefore(start, prev, f, i);
      if Heard(start, f) && f.data[0] != 0x80 {
        UnderwayMeans(channels, start, prev, i, Toggle(f.data[0]));
      } else {
        CompletesMeans(channels, start, prev, i);
      }
    }
  }

  lemma FailsMeans(channels: NodeChannels, start: Poll, frames: seq<Frame>, n: nat, why: PollFailure)
    requires !start.segment && start.result.None? && FailsAt(start, frames, n, why)
    ensures After(channels, start, frames[..n + 1]).result == Some(PollFailed(why))
  {
    var prev := frames[..n];
    assert frames[..n + 1][..n] == prev;
    if Unanswered(start, prev) && Abort(start, frames[n]) {
      UnansweredMeans(channels, start, prev);
    } else if why == AbortedByServer {
      var i: nat, toggle: bool :| UnderwayAt(start, prev, i, toggle);
      UnderwayMeans(channels, start, prev, i, toggle);
    } else {
      var i: nat, toggle: bool :| UnderwayAt(start, prev, i, toggle) && Mistoggled(start, frames[n], toggle);
      UnderwayMeans(channels, start, prev, i, toggle);
    }
  }

  lemma CompletionStands(channels: NodeChannels, start: Poll, frames: seq<Frame>, i: nat, n: nat)
    requires !start.segment && start.result.None? && CompletesAt(start, frames, i, n)
    ensures After(channels, start, frames).result == Some(PollOk)
  {
    var first := frames[..n];
    assert first[i + 1..n] == frames[i + 1..n];
    assert CompletesAt(start, first, i, n);
    CompletesMeans(channels, start, first, i);
    assert frames == first + frames[n..];
    FirstResultStays(channels, start, first, frames[n..]);
  }

  lemma FailureStands(channels: NodeChannels, start: Poll, frames: seq<Frame>, n: nat, why: PollFailure)
    requires !start.segment && start.result.None? && FailsAt(start, frames, n, why)
    ensures After(channels, start, frames).result == Some(PollFailed(why))
  {
    FailsMeans(channels, start, frames, n, why);
    assert frames == frames[..n + 1] + frames[n + 1..];
    FirstResultStays(channels, start, frames[..n + 1], frames[n + 1..]);
  }

  /**
   * Over any traffic, the result is `ok` exactly if an address-matching frame
   * with the expedited bit came, or an address-matching frame and then segments
   * of alternating toggle ending with the last one, with no abort before. It is
   * an abort exactly if one for the object came while the attempt was open, and
   * a toggle error exactly if a frame with the wrong toggle did during segments.
   */
  lemma OutcomeExactly(channels: NodeChannels, o: SdoObject, frames: seq<Frame>, why: PollFailure)
    ensures var result := After(channels, NewPoll(channels, o), frames).result;
      && (result == Some(PollOk) <==> Completes(NewPoll(channels, o), frames))
      && (result == Some(PollFailed(why)) <==> Fails(NewPoll(channels, o), frames, why))
  {
    var start := NewPoll(channels, o);
    AttemptExplained(channels, o, frames);
    if i: nat, n: nat :| CompletesAt(start, frames, i, n) {
      CompletionStands(channels, start, frames, i, n);
    }
    if n: nat :| FailsAt(start, frames, n, why) {
      FailureStands(channels, start, frames, n, why);
    }
  }
}
