/** Every interleaving of the raw poller with the dispatch loop. */
module RawProtocol {
  import opened Bytes
  import opened Bus
  import opened Config
  import opened RawPoller

  /** Where `pollOnce` is: between attempts, waiting, or about to run its deferred clear. */
  datatype PollerAt = Resting | Waiting(id: nat) | Leaving(id: nat, ok: bool)

  /** Where `handleFrame` is: outside, having claimed, or having emitted. */
  datatype DispatcherAt = Outside | Claimed(id: nat, frame: Frame) | HasEmitted(id: nat)

  datatype System = System(shared: Shared, poller: PollerAt, dispatcher: DispatcherAt)

  /** The atomic steps. `GiveUp` covers a failed send, the timeout and cancellation. */
  datatype Label =
    | Start(transaction: RawTransaction) | Receive | GiveUp | Clear
    | Arrive(frame: Frame) | EmitIt | PostIt

  const Initial := System(Shared(None, []), Resting, Outside)

  /** The next state, if the step is possible. */
  function Next(s: System, l: Label): Option<System> {
    var n := |s.shared.attempts|;
    match l
    case Start(t) =>
      if s.poller == Resting then Some(System(Arm(s.shared, t), Waiting(n), s.dispatcher)) else None
    case Receive =>
      if s.poller.Waiting? && s.poller.id < n && s.shared.attempts[s.poller.id].slot then
        Some(System(Take(s.shared, s.poller.id), Leaving(s.poller.id, true), s.dispatcher))
      else None
    case GiveUp =>
      if s.poller.Waiting? then Some(s.(poller := Leaving(s.poller.id, false))) else None
    case Clear =>
      if s.poller.Leaving? && s.poller.id < n then
        Some(System(Leave(s.shared, s.poller.id, s.poller.ok), Resting, s.dispatcher))
      else None
    case Arrive(f) =>
      if s.dispatcher == Outside && s.shared.Valid() then
        var (shared, id) := Claim(s.shared, f);
        Some(System(shared, s.poller, if id.Some? then Claimed(id.value, f) else Outside))
      else None
    case EmitIt =>
      if s.dispatcher.Claimed? && s.dispatcher.id < n then
        Some(System(Emit(s.shared, s.dispatcher.id, s.dispatcher.frame), s.poller, HasEmitted(s.dispatcher.id)))
      else None
    case PostIt =>
      if s.dispatcher.HasEmitted? && s.dispatcher.id < n then
        Some(System(Post(s.shared, s.dispatcher.id), s.poller, Outside))
      else None
  }

  function Run(s: System, labels: seq<Label>): Option<System>
    decreases |labels|
  {
    if labels == [] then Some(s)
    else
      match Next(s, labels[0])
      case None => None
      case Some(s') => Run(s', labels[1..])
  }

  // ---------------------------------------------------------------------
  // Invariant
  // ---------------------------------------------------------------------

  /** At most one claim, of an accepted frame; it is emitted before a result is posted or nil returned. */
  predicate Orderly(a: Attempt) {
    && |a.claims| <= 1 && (a.claims != [] ==> Accepts(a.transaction, a.claims[0]))
    && (a.emissions == [] || a.emissions == a.claims)
    && (a.slot || a.returned == Some(true) ==> a.claims != [] && a.emissions == a.claims)
  }

  predicate PollerOrderly(s: System) {
    var attempts := s.shared.attempts;
    match s.poller
    case Resting => s.shared.active.None? && forall k :: 0 <= k < |attempts| ==> attempts[k].returned.Some?
    case Waiting(id) => Current(s, id)
    case Leaving(id, ok) => Current(s, id) && (ok ==> attempts[id].claims != [] && attempts[id].emissions == attempts[id].claims)
  }

  /** `id` is the newest attempt and the only one not returned. */
  predicate Current(s: System, id: nat) {
    var attempts := s.shared.attempts;
    && id == |attempts| - 1 && (s.shared.active.Some? ==> s.shared.active.value == id)
    && forall k :: 0 <= k < |attempts| ==> (attempts[k].returned.None? <==> k == id)
  }

  predicate DispatcherOrderly(s: System) {
    var attempts := s.shared.attempts;
    match s.dispatcher
    case Outside => forall k :: 0 <= k < |attempts| ==> attempts[k].emissions == attempts[k].claims
    case Claimed(id, f) =>
      && id < |attempts| && attempts[id].claims == [f] && attempts[id].emissions == []
      && forall k :: 0 <= k < |attempts| && k != id ==> attempts[k].emissions == attempts[k].claims
    case HasEmitted(id) =>
      && id < |attempts| && attempts[id].claims != []
      && forall k :: 0 <= k < |attempts| ==> attempts[k].emissions == attempts[k].claims
  }

  predicate SharedOrderly(s: Shared) {
    && s.Valid()
    && (s.active.Some? ==> s.attempts[s.active.value].claims == [])
    && forall k :: 0 <= k < |s.attempts| ==> Orderly(s.attempts[k])
  }

  predicate Inv(s: System) {
    SharedOrderly(s.shared) && PollerOrderly(s) && DispatcherOrderly(s)
  }

  lemma SharedStep(s: System, l: Label)
    requires Inv(s) && Next(s, l).Some?
    ensures SharedOrderly(Next(s, l).value.shared)
  {
  }

  lemma PollerStep(s: System, l: Label)
    requires Inv(s) && Next(s, l).Some?
    ensures PollerOrderly(Next(s, l).value)
  {
    if l.Receive? {
      assert Orderly(s.shared.attempts[s.poller.id]);
    }
  }

  lemma DispatcherStep(s: System, l: Label)
    requires Inv(s) && Next(s, l).Some?
    ensures DispatcherOrderly(Next(s, l).value)
  {
  }

  lemma InvStep(s: System, l: Label)
    requires Inv(s) && Next(s, l).Some?
    ensures Inv(Next(s, l).value)
  {
    SharedStep(s, l);
    PollerStep(s, l);
    DispatcherStep(s, l);
  }

  lemma {:induction false} InvRun(s: System, labels: seq<Label>)
    requires Inv(s) && Run(s, labels).Some?
    ensures Inv(Run(s, labels).value)
    decreases |labels|
  {
    if labels != [] {
      InvStep(s, labels[0]);
      InvRun(Next(s, labels[0]).value, labels[1..]);
    }
  }

  // ---------------------------------------------------------------------
  // What it means for the receiver
  // ---------------------------------------------------------------------

  /**
   * In every run, each attempt claims at most one frame and emits at most once;
   * an attempt that returned nil has claimed exactly one frame, an accepted
   * one, and fully emitted it.
   */
  lemma AttemptsOrderly(labels: seq<Label>, k: nat)
    requires Run(Initial, labels).Some? && k < |Run(Initial, labels).value.shared.attempts|
    ensures var a := Run(Initial, labels).value.shared.attempts[k];
      && |a.claims| <= 1 && |a.emissions| <= |a.claims|
      && (a.returned == Some(true) ==>
            |a.claims| == 1 && a.emissions == a.claims && Accepts(a.transaction, a.claims[0]))
  {
    InvRun(Initial, labels);
    assert Orderly(Run(Initial, labels).value.shared.attempts[k]);
  }

  /** The attempt a step belongs to. */
  function ActorOf(s: System, l: Label): Option<nat> {
    match l
    case Start(_) => Some(|s.shared.attempts|)
    case Receive | GiveUp => if s.poller.Waiting? then Some(s.poller.id) else None
    case Clear => if s.poller.Leaving? then Some(s.poller.id) else None
    case Arrive(_) => s.shared.active
    case EmitIt => if s.dispatcher.Claimed? then Some(s.dispatcher.id) else None
    case PostIt => if s.dispatcher.HasEmitted? then Some(s.dispatcher.id) else None
  }

  /** A step of one attempt changes no other attempt, and never ends another's activity. */
  lemma StepsAreLocal(s: System, l: Label, k: nat)
    requires Inv(s) && Next(s, l).Some? && k < |s.shared.attempts| && ActorOf(s, l) != Some(k)
    ensures Next(s, l).value.shared.attempts[k] == s.shared.attempts[k]
    ensures s.shared.active == Some(k) ==> Next(s, l).value.shared.active == Some(k) || l.Start?
    ensures s.shared.active == Some(k) ==> !l.Start?
  {
  }

  /** What a later state keeps of an attempt that has returned. */
  predicate Settled(s: System, s': System, k: nat)
    requires k < |s.shared.attempts|
  {
    && k < |s'.shared.attempts|
    && s'.shared.attempts[k].returned == s.shared.attempts[k].returned
    && s'.shared.attempts[k].claims == s.shared.attempts[k].claims
    && s'.shared.active != Some(k)
  }

  lemma ReturnedStep(s: System, l: Label, k: nat)
    requires Inv(s) && Next(s, l).Some? && k < |s.shared.attempts| && s.shared.attempts[k].returned.Some?
    ensures Settled(s, Next(s, l).value, k)
  {
    match s.poller {
      case Resting =>
      case Waiting(id) => assert id != k;
      case Leaving(id, _) => assert id != k;
    }
  }

  /** Once an attempt has returned, it claims no further frame, never becomes active again and keeps its result. */
  lemma {:induction false} ReturnedAttemptsSettle(s: System, labels: seq<Label>, k: nat)
    requires Inv(s) && Run(s, labels).Some? && k < |s.shared.attempts| && s.shared.attempts[k].returned.Some?
    ensures Settled(s, Run(s, labels).value, k)
    decreases |labels|
  {
    if labels != [] {
      InvStep(s, labels[0]);
      ReturnedStep(s, labels[0], k);
      ReturnedAttemptsSettle(Next(s, labels[0]).value, labels[1..], k);
    }
  }

  lemma {:induction false} RunSnoc(s: System, labels: seq<Label>, l: Label)
    ensures Run(s, labels + [l])
         == match Run(s, labels) case None => None case Some(s') => Next(s', l)
    decreases |labels|
  {
    if labels == [] {
      assert [l][1..] == [];
    } else {
      assert (labels + [l])[1..] == labels[1..] + [l];
      if Next(s, labels[0]).Some? {
        RunSnoc(Next(s, labels[0]).value, labels[1..], l);
      }
    }
  }

  /** Step `j` of the run is the failed send, timeout or cancellation of attempt `k`. */
  predicate GivesUpAt(labels: seq<Label>, k: nat, j: nat) {
    j < |labels| && labels[j].GiveUp? && Run(Initial, labels[..j]).Some? && Run(Initial, labels[..j]).value.poller == Waiting(k)
  }

  ghost predicate GaveUp(labels: seq<Label>, k: nat) {
    exists j: nat :: GivesUpAt(labels, k, j)
  }

  lemma GaveUpSnoc(labels: seq<Label>, l: Label, k: nat)
    requires Run(Initial, labels).Some?
    ensures GaveUp(labels + [l], k)
       <==> GaveUp(labels, k) || (l.GiveUp? && Run(Initial, labels).value.poller == Waiting(k))
  {
    var all, n := labels + [l], |labels|;
    assert all[..n] == labels;
    if j: nat :| GivesUpAt(all, k, j) {
      if j < n {
        assert all[..j] == labels[..j];
        assert GivesUpAt(labels, k, j);
      }
    }
    if j: nat :| GivesUpAt(labels, k, j) {
      assert all[..j] == labels[..j];
      assert GivesUpAt(all, k, j);
    }
    if l.GiveUp? && Run(Initial, labels).value.poller == Waiting(k) {
      assert GivesUpAt(all, k, n);
    }
  }

  /** How an attempt ended, or will once its deferred clear has run. */
  predicate EndKnown(s: System, k: nat, gaveUp: bool)
    requires k < |s.shared.attempts|
  {
    match s.shared.attempts[k].returned
    case Some(ok) => ok == !gaveUp
    case None =>
      match s.poller
      case Leaving(_, ok) => ok == !gaveUp
      case Waiting(_) | Resting => !gaveUp
  }

  lemma EndStep(s: System, l: Label, k: nat, gaveUp: bool)
    requires Inv(s) && Next(s, l).Some? && k < |s.shared.attempts| && EndKnown(s, k, gaveUp)
    ensures k < |Next(s, l).value.shared.attempts|
    ensures EndKnown(Next(s, l).value, k, gaveUp || (l.GiveUp? && s.poller == Waiting(k)))
  {
  }

  lemma {:induction false} EndsAsGivenUp(labels: seq<Label>, k: nat)
    requires Run(Initial, labels).Some?
    ensures var s := Run(Initial, labels).value;
      if k < |s.shared.attempts| then EndKnown(s, k, GaveUp(labels, k)) else !GaveUp(labels, k)
    decreases |labels|
  {
    if labels != [] {
      var n := |labels| - 1;
      var prev, l := labels[..n], labels[n];
      assert labels == prev + [l];
      RunSnoc(Initial, prev, l);
      var s := Run(Initial, prev).value;
      InvRun(Initial, prev);
      EndsAsGivenUp(prev, k);
      GaveUpSnoc(prev, l, k);
      if k < |s.shared.attempts| {
        EndStep(s, l, k, GaveUp(prev, k));
      }
    }
  }

  /**
   * In every run, an attempt that has returned reports success exactly if it
   * was never given up while waiting - whatever was claimed or emitted for it
   * meanwhile.
   */
  lemma SuccessExactly(labels: seq<Label>, k: nat)
    requires Run(Initial, labels).Some? && k < |Run(Initial, labels).value.shared.attempts|
    requires Run(Initial, labels).value.shared.attempts[k].returned.Some?
    ensures Run(Initial, labels).value.shared.attempts[k].returned == Some(true) <==> !GaveUp(labels, k)
  {
    EndsAsGivenUp(labels, k);
  }

  /** So a reply can be emitted for an attempt that reports a timeout. */
  lemma TimedOutYetEmitted(t: RawTransaction, f: Frame)
    requires Accepts(t, f)
    ensures var labels := [Start(t), Arrive(f), GiveUp, Clear, EmitIt, PostIt];
      && Run(Initial, labels).Some?
      && Run(Initial, labels).value.shared.attempts == [Attempt(t, [f], [f], true, Some(false))]
  {
    var s1 := Next(Initial, Start(t)).value;
    assert s1 == System(Shared(Some(0), [Attempt(t, [], [], false, None)]), Waiting(0), Outside);
    var s2 := Next(s1, Arrive(f)).value;
    assert [] + [f] == [f];
    assert s2 == System(Shared(None, [Attempt(t, [f], [], false, None)]), Waiting(0), Claimed(0, f));
    var s3 := Next(s2, GiveUp).value;
    var s4 := Next(s3, Clear).value;
    assert s4 == System(Shared(None, [Attempt(t, [f], [], false, Some(false))]), Resting, Claimed(0, f));
    var s5 := Next(s4, EmitIt).value;
    var s6 := Next(s5, PostIt).value;
    assert s6 == System(Shared(None, [Attempt(t, [f], [f], true, Some(false))]), Resting, Outside);
    RunCons(s5, PostIt, []);
    RunCons(s4, EmitIt, [PostIt]);
    RunCons(s3, Clear, [EmitIt, PostIt]);
    RunCons(s2, GiveUp, [Clear, EmitIt, PostIt]);
    RunCons(s1, Arrive(f), [GiveUp, Clear, EmitIt, PostIt]);
    RunCons(Initial, Start(t), [Arrive(f), GiveUp, Clear, EmitIt, PostIt]);
    assert [Start(t)] + [Arrive(f), GiveUp, Clear, EmitIt, PostIt]
        == [Start(t), Arrive(f), GiveUp, Clear, EmitIt, PostIt];
  }

  lemma RunCons(s: System, l: Label, rest: seq<Label>)
    requires Next(s, l).Some?
    ensures Run(s, [l] + rest) == Run(Next(s, l).value, rest)
  {
    assert ([l] + rest)[1..] == rest;
  }

  /** In an accepted configuration, a frame an attempt claimed is the reply of no other transaction. */
  lemma ClaimsUnambiguous(ts: seq<RawTransaction>, labels: seq<Label>, k: nat, i: nat, j: nat)
    requires ValidTransactions(ts) && i < |ts| && j < |ts|
    requires Run(Initial, labels).Some? && k < |Run(Initial, labels).value.shared.attempts|
    requires var a := Run(Initial, labels).value.shared.attempts[k];
      a.transaction == ts[i] && a.claims != [] && Accepts(ts[j], a.claims[0])
    ensures i == j
  {
    InvRun(Initial, labels);
    var a := Run(Initial, labels).value.shared.attempts[k];
    assert Orderly(a);
    UnambiguousAttribution(ts, i, j, a.claims[0].id, a.claims[0].data);
  }
}
