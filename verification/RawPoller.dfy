/** The single-slot request/response correlator for raw transactions (raw_poller.go). */
module RawPoller {
  import opened Bytes
  import opened Bus
  import opened Config

  // ---------------------------------------------------------------------
  // Specification: what poller and dispatcher share
  // ---------------------------------------------------------------------

  /**
   * One attempt: the frames claimed and fully emitted for it, whether a result
   * waits in its one-slot channel, and what `pollOnce` returned (true for nil).
   */
  datatype Attempt = Attempt(
    transaction: RawTransaction, claims: seq<Frame>, emissions: seq<Frame>, slot: bool, returned: Option<bool>)

  datatype Shared = Shared(active: Option<nat>, attempts: seq<Attempt>)
  {
    predicate Valid() {
      active.Some? ==> active.value < |attempts|
    }
  }

  predicate Accepts(t: RawTransaction, f: Frame) {
    !f.extended && Answers(t, f.id, f.data)
  }

  function Arm(s: Shared, t: RawTransaction): Shared {
    Shared(Some(|s.attempts|), s.attempts + [Attempt(t, [], [], false, None)])
  }

  /** The first critical section of `handleFrame`: the active attempt takes its reply and stops being active. */
  function Claim(s: Shared, f: Frame): (Shared, Option<nat>)
    requires s.Valid()
  {
    if s.active.Some? && Accepts(s.attempts[s.active.value].transaction, f) then
      var id := s.active.value;
      (Shared(None, s.attempts[id := s.attempts[id].(claims := s.attempts[id].claims + [f])]), Some(id))
    else
      (s, None)
  }

  function Emit(s: Shared, id: nat, f: Frame): Shared
    requires id < |s.attempts|
  {
    s.(attempts := s.attempts[id := s.attempts[id].(emissions := s.attempts[id].emissions + [f])])
  }

  function Post(s: Shared, id: nat): Shared
    requires id < |s.attempts|
  {
    s.(attempts := s.attempts[id := s.attempts[id].(slot := true)])
  }

  function Take(s: Shared, id: nat): Shared
    requires id < |s.attempts|
  {
    s.(attempts := s.attempts[id := s.attempts[id].(slot := false)])
  }

  /** The deferred clear, which leaves a later attempt's activity alone. */
  function Leave(s: Shared, id: nat, ok: bool): Shared
    requires id < |s.attempts|
  {
    Shared(if s.active == Some(id) then None else s.active,
           s.attempts[id := s.attempts[id].(returned := Some(ok))])
  }

  /** Even if attempts overlapped, the deferred clear of one would leave another active. */
  lemma ClearsOnlyItsOwn(s: Shared, id: nat, ok: bool, other: nat)
    requires id < |s.attempts| && s.active == Some(other) && other != id
    ensures Leave(s, id, ok).active == Some(other)
    ensures forall k :: 0 <= k < |s.attempts| && k != id ==> Leave(s, id, ok).attempts[k] == s.attempts[k]
  {
  }

  // ---------------------------------------------------------------------
  // The code
  // ---------------------------------------------------------------------

  class ActiveRaw {
    const transaction: RawTransaction
    var slot: bool
    ghost var claims: seq<Frame>
    ghost var emissions: seq<Frame>
    ghost var returned: Option<bool>

    constructor (transaction: RawTransaction)
      ensures Contents() == Attempt(transaction, [], [], false, None)
    {
      this.transaction := transaction;
      this.slot := false;
      this.claims := [];
      this.emissions := [];
      this.returned := None;
    }

    ghost function Contents(): Attempt
      reads this
    {
      Attempt(transaction, claims, emissions, slot, returned)
    }
  }

  class RawPoller {
    var active: ActiveRaw?
    ghost var issued: seq<ActiveRaw>

    ghost predicate Valid()
      reads this
    {
      && (active != null ==> active in issued && Readable(active.transaction.response.matches))
      && forall i, j :: 0 <= i < j < |issued| ==> issued[i] != issued[j]
    }

    ghost function State(): (s: Shared)
      reads this, issued
      ensures s.Valid()
    {
      Shared(
        if active != null && active in issued then Some(IndexOf(issued, active)) else None,
        seq(|issued|, (i: nat) requires i < |issued| reads this, issued => issued[i].Contents()))
    }

    constructor ()
      ensures Valid() && issued == [] && State() == Shared(None, [])
    {
      active := null;
      issued := [];
    }

    /** `pollOnce` makes a new attempt active. */
    method Begin(t: RawTransaction) returns (a: ActiveRaw)
      requires Valid() && Readable(t.response.matches)
      modifies this
      ensures Valid() && fresh(a) && issued == old(issued) + [a]
      ensures State() == Arm(old(State()), t)
    {
      a := new ActiveRaw(t);
      active := a;
      issued := issued + [a];
      IndexOfElement(issued, |issued| - 1);
    }

    /** `pollOnce` ends; `ok` says that it took a result from its slot. */
    method End(a: ActiveRaw, ok: bool)
      requires Valid() && a in issued && (ok ==> a.slot)
      modifies this, a
      ensures Valid() && issued == old(issued)
      ensures var id := IndexOf(issued, a);
        State() == Leave(if ok then Take(old(State()), id) else old(State()), id, ok)
    {
      ghost var id := IndexOf(issued, a);
      Distinctness();
      if ok {
        a.slot := false;
      }
      a.returned := Some(ok);
      if active == a {
        active := null;
      }
    }

    lemma Distinctness()
      requires Valid()
      ensures forall i :: 0 <= i < |issued| ==> IndexOf(issued, issued[i]) == i
    {
      forall i | 0 <= i < |issued| ensures IndexOf(issued, issued[i]) == i {
        IndexOfElement(issued, i);
      }
    }

    /** The locked part of `handleFrame`. */
    method ClaimFrame(f: Frame) returns (claimed: ActiveRaw?)
      requires Valid()
      modifies this, active
      ensures Valid() && issued == old(issued)
      ensures claimed != null ==> claimed == old(active) && claimed in issued && active == null
      ensures claimed == null ==> active == old(active)
      ensures State() == Claim(old(State()), f).0
      ensures Claim(old(State()), f).1 == if claimed == null then None else Some(IndexOf(issued, claimed))
    {
      Distinctness();
      if active == null || f.extended || f.id != active.transaction.response.cobID {
        return null;
      }
      var matches := RawTransactionMatches(active.transaction.response.matches, f.data);
      if !matches {
        return null;
      }
      claimed := active;
      active := null;
      claimed.claims := claimed.claims + [f];
    }

    /** The rest of `handleFrame`, outside the lock: emission, then a send that gives up on a full slot. */
    method EmitAndPost(a: ActiveRaw, f: Frame)
      requires Valid() && a in issued
      modifies a
      ensures Valid() && State() == Post(Emit(old(State()), IndexOf(issued, a), f), IndexOf(issued, a))
    {
      Distinctness();
      a.emissions := a.emissions + [f];
      if !a.slot {
        a.slot := true;
      }
    }
  }

  ghost function IndexOf(xs: seq<ActiveRaw>, a: ActiveRaw): (i: nat)
    requires a in xs
    ensures i < |xs| && xs[i] == a
  {
    if xs[0] == a then 0 else 1 + IndexOf(xs[1..], a)
  }

  lemma IndexOfElement(xs: seq<ActiveRaw>, i: nat)
    requires i < |xs| && forall j, k :: 0 <= j < k < |xs| ==> xs[j] != xs[k]
    ensures IndexOf(xs, xs[i]) == i
  {
  }
}
