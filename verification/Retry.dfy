/** Retry loops, backoff and polling schedules (sdo_poller.go, raw_poller.go). */
module Retry {
  import opened Bytes
  import opened Config

  const SECOND: Int64 := 1_000_000_000
  const DEFAULT_BACKOFF: Int64 := SECOND
  const DEFAULT_MAX_BACKOFF: Int64 := 60 * SECOND

  /** Durations from here on double past the largest 64-bit one. */
  const HALF_RANGE: int := 0x4000_0000_0000_0000

  // ---------------------------------------------------------------------
  // Backoff
  // ---------------------------------------------------------------------

  /** `backoff *= 2`, clamped, in 64-bit arithmetic. */
  function NextDelay(delay: Int64, maxBackoff: Int64): Int64 {
    var doubled := Wrap64(2 * delay);
    if doubled > maxBackoff then maxBackoff else doubled
  }

  /** The delay before retry `k + 1`. */
  function Delay(initial: Int64, maxBackoff: Int64, k: nat): Int64 {
    if k == 0 then initial else NextDelay(Delay(initial, maxBackoff, k - 1), maxBackoff)
  }

  /** Exponential growth up to the cap. */
  ghost function Exponential(initial: Int64, maxBackoff: Int64, k: nat): int {
    Min(initial * Pow2(k), maxBackoff)
  }

  lemma {:induction false} DelayIsExponential(initial: Int64, maxBackoff: Int64, k: nat)
    requires 0 < initial < HALF_RANGE && 0 < maxBackoff < HALF_RANGE
    ensures k > 0 || initial <= maxBackoff ==> Delay(initial, maxBackoff, k) == Exponential(initial, maxBackoff, k)
    ensures 0 < Delay(initial, maxBackoff, k) < HALF_RANGE
  {
    if k > 0 {
      DelayIsExponential(initial, maxBackoff, k - 1);
      TwiceProduct(initial, Pow2(k - 1));
      if k == 1 {
        assert Pow2(0) == 1;
      }
    }
  }

  lemma Pow2Of63()
    ensures Pow2(63) == 2 * HALF_RANGE
  {
    Pow2Of8();
    Pow2Add(8, 8);
    Pow2Add(16, 16);
    Pow2Add(32, 32);
    assert Pow2(64) == 2 * Pow2(63);
  }

  /**
   * After the first delay, backoff is exponential up to the cap exactly when
   * both settings are below 2^62 ns: from there on doubling wraps around.
   */
  lemma BackoffExact(initial: Int64, maxBackoff: Int64)
    requires initial > 0 && maxBackoff > 0
    ensures (forall k: nat :: k >= 1 ==> Delay(initial, maxBackoff, k) == Exponential(initial, maxBackoff, k))
       <==> initial < HALF_RANGE && maxBackoff < HALF_RANGE
  {
    if initial < HALF_RANGE && maxBackoff < HALF_RANGE {
      forall k: nat | k >= 1 ensures Delay(initial, maxBackoff, k) == Exponential(initial, maxBackoff, k) {
        DelayIsExponential(initial, maxBackoff, k);
      }
    } else if initial >= HALF_RANGE {
      assert Pow2(1) == 2;
      assert Delay(initial, maxBackoff, 1) == NextDelay(initial, maxBackoff);
      assert Delay(initial, maxBackoff, 1) < 0 < Exponential(initial, maxBackoff, 1);
    } else {
      Pow2Of63();
      assert Pow2(64) == 2 * Pow2(63);
      AtLeast(initial, Pow2(63));
      AtLeast(initial, Pow2(64));
      assert Exponential(initial, maxBackoff, 63) == maxBackoff == Exponential(initial, maxBackoff, 64);
      if Delay(initial, maxBackoff, 63) == maxBackoff {
        assert Delay(initial, maxBackoff, 64) == NextDelay(maxBackoff, maxBackoff) < 0;
      }
    }
  }

  lemma AtLeast(x: int, y: int)
    requires x >= 1 && y >= 0
    ensures x * y >= y
  {
    assert (x - 1) * y >= 0;
  }

  /** Validation accepts such settings; the second delay is then negative. */
  lemma ExtremeBackoffAccepted(p: PollConfig)
    requires p == PollConfig(Once, 0, 0, true, HALF_RANGE, HALF_RANGE, Some(2), [])
    ensures ValidPoll(p) && Delay(p.backoff, p.maxBackoff, 1) < 0
  {
    assert Delay(p.backoff, p.maxBackoff, 1) == NextDelay(p.backoff, p.maxBackoff);
  }

  function OrDefault(setting: Int64, default: Int64): Int64 {
    if setting == 0 then default else setting
  }

  /** The SDO poller takes its first delay as configured ... */
  function SdoInitial(p: PollConfig): Int64 {
    OrDefault(p.backoff, DEFAULT_BACKOFF)
  }

  function SdoMax(p: PollConfig): Int64 {
    OrDefault(p.maxBackoff, DEFAULT_MAX_BACKOFF)
  }

  /** ... the raw poller clamps it first. */
  function RawInitial(t: RawTransaction): Int64 {
    Min(OrDefault(t.backoff, DEFAULT_BACKOFF), RawMax(t))
  }

  function RawMax(t: RawTransaction): Int64 {
    OrDefault(t.maxBackoff, DEFAULT_MAX_BACKOFF)
  }

  /** Raw delays are exponential from the first on, never exceed the cap, and stay at it. */
  lemma RawDelays(t: RawTransaction, k: nat)
    requires ValidTransaction(t) && RawMax(t) < HALF_RANGE
    ensures Delay(RawInitial(t), RawMax(t), k) == Exponential(RawInitial(t), RawMax(t), k) <= RawMax(t)
    ensures Delay(RawInitial(t), RawMax(t), k) == RawMax(t)
        ==> Delay(RawInitial(t), RawMax(t), k + 1) == RawMax(t)
  {
    DelayIsExponential(RawInitial(t), RawMax(t), k);
  }

  /** The delay before retry `k + 1` respects the cap. */
  predicate Capped(initial: Int64, maxBackoff: Int64, k: nat) {
    Delay(initial, maxBackoff, k) <= maxBackoff
  }

  /** SDO delays respect the cap exactly when the first one does. */
  lemma SdoDelays(p: PollConfig)
    ensures (forall k: nat :: Capped(SdoInitial(p), SdoMax(p), k)) <==> SdoInitial(p) <= SdoMax(p)
  {
    var initial, cap := SdoInitial(p), SdoMax(p);
    assert Capped(initial, cap, 0) <==> initial <= cap;
    if initial <= cap {
      forall k: nat ensures Capped(initial, cap, k) {
        if k > 0 {
          assert Delay(initial, cap, k) == NextDelay(Delay(initial, cap, k - 1), cap);
        }
      }
    }
  }

  /** Validation does not ensure it: a cap below the default backoff is accepted. */
  lemma SdoFirstDelayCanExceedCap(p: PollConfig)
    requires p == PollConfig(Once, 0, 0, true, 0, SECOND / 2, Some(1), [])
    ensures ValidPoll(p) && Delay(SdoInitial(p), SdoMax(p), 0) > SdoMax(p)
  {
  }

  // ---------------------------------------------------------------------
  // The retry loop
  // ---------------------------------------------------------------------

  /** What the environment does with one attempt: its result, cancellation, and the wait after it. */
  datatype Attempt = Attempt(ok: bool, cancelled: bool, waited: bool)

  /** `Unfinished`: the loop is still going when the recorded environment ends. */
  datatype Ending = Succeeded | Stopped | GaveUp | Unfinished

  predicate RetryAllowed(retry: bool, maxRetries: Option<Int64>, attempt: nat) {
    retry && (maxRetries.None? || attempt - 1 < maxRetries.value)
  }

  /** Attempt number `k + 1` fails and is followed by another. */
  predicate Continues(retry: bool, maxRetries: Option<Int64>, script: seq<Attempt>, k: nat)
    requires k < |script|
  {
    !script[k].ok && !script[k].cancelled && RetryAllowed(retry, maxRetries, k + 1) && script[k].waited
  }

  /** Attempt number `k + 1` is the last one, and why. */
  function EndingAt(retry: bool, maxRetries: Option<Int64>, script: seq<Attempt>, k: nat): Ending
    requires k < |script|
  {
    if script[k].ok then Succeeded
    else if script[k].cancelled then Stopped
    else if !RetryAllowed(retry, maxRetries, k + 1) then GaveUp
    else if !script[k].waited then Stopped
    else Unfinished
  }

  /** The first delay is `initial`, and each later one follows from the one before. */
  predicate BackedOff(initial: Int64, maxBackoff: Int64, delays: seq<Int64>) {
    && (|delays| > 0 ==> delays[0] == initial)
    && forall k :: 0 < k < |delays| ==> delays[k] == NextDelay(delays[k - 1], maxBackoff)
  }

  /** The waits of a retry loop are the delays the theorems above speak of. */
  lemma {:induction false} BackedOffDelays(initial: Int64, maxBackoff: Int64, delays: seq<Int64>, k: nat)
    requires BackedOff(initial, maxBackoff, delays) && k < |delays|
    ensures delays[k] == Delay(initial, maxBackoff, k)
  {
    if k > 0 {
      BackedOffDelays(initial, maxBackoff, delays, k - 1);
    }
  }

  /** One poll of the retry loop against a recorded environment. */
  predicate Ran(
      initial: Int64, maxBackoff: Int64, retry: bool, maxRetries: Option<Int64>, script: seq<Attempt>,
      attempts: nat, delays: seq<Int64>, ending: Ending)
  {
    && attempts <= |script| && (attempts == 0 <==> script == [])
    && (forall k :: 0 <= k < attempts - 1 ==> Continues(retry, maxRetries, script, k))
    && (if script == [] then ending == Unfinished else ending == EndingAt(retry, maxRetries, script, attempts - 1))
    && (ending == Unfinished ==> attempts == |script|)
    && BackedOff(initial, maxBackoff, delays)
    && |delays| == if attempts > 0 && Waits(script[attempts - 1], ending) then attempts else if attempts > 0 then attempts - 1 else 0
  }

  /** The last attempt was followed by a wait: the record or the wait itself ends there. */
  predicate Waits(last: Attempt, ending: Ending) {
    ending == Unfinished || (ending == Stopped && !last.cancelled)
  }

  method RetryLoop(initial: Int64, maxBackoff: Int64, retry: bool, maxRetries: Option<Int64>, script: seq<Attempt>)
    returns (attempts: nat, delays: seq<Int64>, ending: Ending)
    ensures Ran(initial, maxBackoff, retry, maxRetries, script, attempts, delays, ending)
  {
    attempts := 0;
    delays := [];
    var backoff := initial;
    while attempts < |script|
      invariant 0 <= attempts <= |script|
      invariant forall k :: 0 <= k < attempts ==> Continues(retry, maxRetries, script, k)
      invariant |delays| == attempts && BackedOff(initial, maxBackoff, delays + [backoff])
    {
      var result := script[attempts];
      attempts := attempts + 1;
      assert forall k :: 0 <= k < |delays| ==> (delays + [backoff])[k] == delays[k];
      if result.ok {
        return attempts, delays, Succeeded;
      }
      if result.cancelled {
        return attempts, delays, Stopped;
      }
      var retriesRemain := maxRetries.None? || attempts - 1 < maxRetries.value;
      if !retry || !retriesRemain {
        return attempts, delays, GaveUp;
      }
      delays := delays + [backoff];
      if !result.waited {
        return attempts, delays, Stopped;
      }
      backoff := NextDelay(backoff, maxBackoff);
    }
    assert forall k :: 0 <= k < |delays| ==> (delays + [backoff])[k] == delays[k];
    assert script != [] ==> Continues(retry, maxRetries, script, attempts - 1);
    ending := Unfinished;
  }

  /** The attempt fails, is not cancelled, and the wait after it is not either. */
  predicate FailsAndWaits(a: Attempt) {
    !a.ok && !a.cancelled && a.waited
  }

  /** With `m` retries allowed and nothing but failures, exactly `m + 1` attempts and `m` waits are made. */
  lemma BudgetUsedUp(
      initial: Int64, maxBackoff: Int64, m: Int64, script: seq<Attempt>, attempts: nat, delays: seq<Int64>, ending: Ending)
    requires Ran(initial, maxBackoff, true, Some(m), script, attempts, delays, ending)
    requires 0 <= m < |script| && forall k :: 0 <= k <= m ==> FailsAndWaits(script[k])
    ensures attempts == m + 1 && |delays| == m && ending == GaveUp
  {
    assert attempts > m + 1 ==> Continues(true, Some(m), script, m);
  }

  /** The first success within the budget ends the poll. */
  lemma FirstSuccess(
      initial: Int64, maxBackoff: Int64, retry: bool, maxRetries: Option<Int64>, script: seq<Attempt>, k: nat,
      attempts: nat, delays: seq<Int64>, ending: Ending)
    requires Ran(initial, maxBackoff, retry, maxRetries, script, attempts, delays, ending)
    requires k < |script| && script[k].ok && forall j :: 0 <= j < k ==> FailsAndWaits(script[j])
    requires k > 0 ==> retry && (maxRetries.Some? ==> k <= maxRetries.value)
    ensures attempts == k + 1 && |delays| == k && ending == Succeeded
  {
    var longer := Continues(retry, maxRetries, script, k);
    var shorter := FailsAndWaits(script[if attempts > 0 then attempts - 1 else 0]);
  }

  /** Without a limit only success and cancellation end a poll. */
  lemma UnlimitedGoesOn(
      initial: Int64, maxBackoff: Int64, script: seq<Attempt>, attempts: nat, delays: seq<Int64>, ending: Ending)
    requires Ran(initial, maxBackoff, true, None, script, attempts, delays, ending)
    ensures ending != GaveUp
    ensures (forall k :: 0 <= k < |script| ==> FailsAndWaits(script[k])) ==> attempts == |script| && ending == Unfinished
  {
    assert script != [] && FailsAndWaits(script[attempts - 1]) ==> ending == Unfinished;
  }

  /** With retrying off there is one attempt. */
  lemma SingleAttempt(
      initial: Int64, maxBackoff: Int64, maxRetries: Option<Int64>, script: seq<Attempt>,
      attempts: nat, delays: seq<Int64>, ending: Ending)
    requires Ran(initial, maxBackoff, false, maxRetries, script, attempts, delays, ending) && script != []
    ensures attempts == 1 && delays == []
    ensures ending == if script[0].ok then Succeeded else if script[0].cancelled then Stopped else GaveUp
  {
    var longer := Continues(false, maxRetries, script, 0);
  }

  /** The defaults: one second, and one minute at most. */
  lemma DefaultDelays(p: PollConfig, t: RawTransaction)
    ensures p.backoff == 0 ==> SdoInitial(p) == 1_000_000_000
    ensures p.backoff != 0 ==> SdoInitial(p) == p.backoff
    ensures SdoMax(p) == if p.maxBackoff == 0 then 60_000_000_000 else p.maxBackoff
    ensures RawMax(t) == if t.maxBackoff == 0 then 60_000_000_000 else t.maxBackoff
    ensures RawInitial(t) <= RawMax(t)
    ensures t.backoff == 0 && t.maxBackoff == 0 ==> RawInitial(t) == 1_000_000_000
    ensures 0 < t.backoff <= RawMax(t) ==> RawInitial(t) == t.backoff
  {
  }

  /** Retrying is off, or limited. */
  predicate Limited(retry: bool, maxRetries: Option<Int64>) {
    retry ==> maxRetries.Some? && maxRetries.value >= 0
  }

  /** The most attempts one poll can then make. */
  function MaxAttempts(retry: bool, maxRetries: Option<Int64>): nat
    requires Limited(retry, maxRetries)
  {
    if retry then maxRetries.value + 1 else 1
  }

  /** The recorded environment lasts until a poll comes to an end by itself. */
  predicate Ample(retry: bool, maxRetries: Option<Int64>, turn: Turn) {
    Limited(retry, maxRetries) && |turn.script| >= MaxAttempts(retry, maxRetries)
  }

  // ---------------------------------------------------------------------
  // The SDO schedule
  // ---------------------------------------------------------------------

  /** The environment's part in one poll: its attempts, and the interval wait after it. */
  datatype Turn = Turn(script: seq<Attempt>, waited: bool)

  /** The first attempt of the poll ends ok. */
  predicate FirstOk(turn: Turn) {
    turn.script != [] && turn.script[0].ok
  }

  /** The polls so far: the object list, over and over, each by the retry loop with the configured settings. */
  predicate SdoRecord(p: PollConfig, turns: seq<Turn>, polled: seq<nat>, done: seq<Done>)
    requires p.objects != []
  {
    && |done| == |polled| <= |turns|
    && forall k :: 0 <= k < |polled| ==>
         && polled[k] == k % |p.objects|
         && RanTo(SdoInitial(p), SdoMax(p), p.retry, p.maxRetries, turns[k], done[k])
  }

  /** Every poll comes to an end by itself. */
  predicate AllEnd(p: PollConfig, turns: seq<Turn>) {
    forall k :: 0 <= k < |turns| ==> FirstOk(turns[k]) || Ample(p.retry, p.maxRetries, turns[k])
  }

  predicate AllFirstOk(turns: seq<Turn>) {
    forall k :: 0 <= k < |turns| ==> FirstOk(turns[k])
  }

  predicate AllWaited(turns: seq<Turn>) {
    forall k :: 0 <= k < |turns| ==> turns[k].waited
  }

  method SdoRun(p: PollConfig, turns: seq<Turn>)
    returns (polled: seq<nat>, done: seq<Done>, attempts: nat, finished: bool)
    requires ValidPoll(p) && p.objects != []
    ensures SdoRecord(p, turns, polled, done)
    // once mode: every object exactly once, within the retry budget
    ensures p.mode == Once ==> |polled| <= |p.objects|
    ensures p.mode == Once ==> attempts <= |polled| * MaxAttempts(p.retry, p.maxRetries)
    ensures p.mode == Once && |turns| >= |p.objects| && AllEnd(p, turns) ==> finished && |polled| == |p.objects|
    // ... in a single attempt each, if every first attempt ends ok
    ensures p.mode == Once && |turns| >= |p.objects| && AllFirstOk(turns)
      ==> finished && polled == Range(|p.objects|) && attempts == |p.objects|
    // interval mode: for as long as no poll is endless and no wait is cancelled
    ensures p.mode == Interval && AllEnd(p, turns) && AllWaited(turns) ==> !finished && |polled| == |turns|
  {
    polled, done, attempts := [], [], 0;
    ghost var n := |p.objects|;
    while true
      invariant SdoRecord(p, turns, polled, done) && |polled| % n == 0
      invariant p.mode == Once ==> polled == [] && attempts == 0
      decreases |turns| - |polled|
    {
      var running, passAttempts;
      polled, done, passAttempts, running := SdoPass(p, turns, polled, done);
      attempts := attempts + passAttempts;
      if !running {
        return polled, done, attempts, false;
      }
      if p.mode == Once {
        FirstCycle(polled, n);
      }
      if p.mode != Interval {
        return polled, done, attempts, true;
      }
      if !turns[|polled| - 1].waited {
        return polled, done, attempts, true;
      }
    }
  }

  /** One pass over the list. `running` is false when the recorded environment ends within it. */
  method SdoPass(p: PollConfig, turns: seq<Turn>, before: seq<nat>, doneBefore: seq<Done>)
    returns (polled: seq<nat>, done: seq<Done>, attempts: nat, running: bool)
    requires ValidPoll(p) && p.objects != [] && SdoRecord(p, turns, before, doneBefore) && |before| % |p.objects| == 0
    ensures SdoRecord(p, turns, polled, done) && |before| <= |polled| <= |before| + |p.objects|
    ensures running ==> |polled| == |before| + |p.objects| && |polled| % |p.objects| == 0
    ensures !running && AllEnd(p, turns) ==> |polled| == |turns| < |before| + |p.objects|
    ensures p.mode == Once ==> attempts <= (|polled| - |before|) * MaxAttempts(p.retry, p.maxRetries)
    ensures AllFirstOk(turns) ==> attempts == |polled| - |before|
  {
    polled, done, attempts := before, doneBefore, 0;
    ghost var n := |p.objects|;
    for i := 0 to |p.objects|
      invariant |polled| == |before| + i && SdoRecord(p, turns, polled, done)
      invariant p.mode == Once ==> attempts <= i * MaxAttempts(p.retry, p.maxRetries)
      invariant AllFirstOk(turns) ==> attempts == i
    {
      if |polled| == |turns| {
        return polled, done, attempts, false;
      }
      var d := PollWithin(SdoInitial(p), SdoMax(p), p.retry, p.maxRetries, turns[|polled|]);
      if p.mode == Once {
        OneMore(i, MaxAttempts(p.retry, p.maxRetries));
      }
      CycleIndex(|before|, i, n);
      polled, done := polled + [i], done + [d];
      attempts := attempts + d.attempts;
      if d.ending == Unfinished {
        return polled, done, attempts, false;
      }
    }
    NextCycle(|before|, n);
    running := true;
  }

  lemma CycleIndex(start: nat, i: nat, n: nat)
    requires i < n && start % n == 0
    ensures (start + i) % n == i
  {
    DivModUnique(start + i, n, start / n, i);
  }

  lemma FirstCycle(polled: seq<nat>, n: nat)
    requires |polled| == n && forall k :: 0 <= k < n ==> polled[k] == k % n
    ensures polled == Range(n)
  {
    forall k | 0 <= k < n ensures polled[k] == k {
      DivModUnique(k, n, 0, k);
    }
  }

  lemma NextCycle(start: nat, n: nat)
    requires n > 0 && start % n == 0
    ensures (start + n) % n == 0
  {
    assert (start / n + 1) * n == (start / n) * n + n;
    DivModUnique(start + n, n, start / n + 1, 0);
  }

  lemma OneMore(k: nat, m: nat)
    ensures (k + 1) * m == k * m + m
  {
  }

  /** A poll stays within its budget, and ends by itself when the environment plays along. */
  lemma BudgetKept(retry: bool, maxRetries: Option<Int64>, script: seq<Attempt>, attempts: nat)
    requires Limited(retry, maxRetries)
    requires attempts <= |script| && (attempts == 0 <==> script == [])
    requires forall k :: 0 <= k < attempts - 1 ==> Continues(retry, maxRetries, script, k)
    ensures attempts <= MaxAttempts(retry, maxRetries)
    ensures attempts == MaxAttempts(retry, maxRetries) ==> EndingAt(retry, maxRetries, script, attempts - 1) != Unfinished
  {
    if attempts > 1 {
      assert Continues(retry, maxRetries, script, attempts - 2);
    }
  }

  /** What a poll came to: attempts, waits and ending. */
  datatype Done = Done(attempts: nat, delays: seq<Int64>, ending: Ending)

  predicate RanTo(initial: Int64, maxBackoff: Int64, retry: bool, maxRetries: Option<Int64>, turn: Turn, d: Done) {
    Ran(initial, maxBackoff, retry, maxRetries, turn.script, d.attempts, d.delays, d.ending)
  }

  /** One poll: within its budget, and ending by itself when the environment plays along. */
  method PollWithin(initial: Int64, maxBackoff: Int64, retry: bool, maxRetries: Option<Int64>, turn: Turn) returns (d: Done)
    ensures RanTo(initial, maxBackoff, retry, maxRetries, turn, d)
    ensures Limited(retry, maxRetries) ==> d.attempts <= MaxAttempts(retry, maxRetries)
    ensures Ample(retry, maxRetries, turn) ==> d.ending != Unfinished
    ensures FirstOk(turn) ==> d.attempts == 1 && d.ending == Succeeded
  {
    var attempts, delays, ending := RetryLoop(initial, maxBackoff, retry, maxRetries, turn.script);
    d := Done(attempts, delays, ending);
    if FirstOk(turn) {
      FirstSuccess(initial, maxBackoff, retry, maxRetries, turn.script, 0, attempts, delays, ending);
    }
    if Limited(retry, maxRetries) {
      BudgetKept(retry, maxRetries, turn.script, attempts);
    }
  }

  // ---------------------------------------------------------------------
  // The raw schedule
  // ---------------------------------------------------------------------

  predicate Recurs(t: RawTransaction) {
    t.EffectiveMode() != Once
  }

  /** An accepted transaction recurs exactly if it has an interval. */
  lemma RecursWithInterval(t: RawTransaction)
    requires ValidTransaction(t)
    ensures Recurs(t) <==> t.interval > 0
  {
  }

  /** An accepted mode need not be written: the interval implies it. */
  lemma ImpliedMode(t: RawTransaction)
    requires ValidTransaction(t)
    ensures ValidTransaction(t.(mode := Unset)) && t.(mode := Unset).EffectiveMode() == t.EffectiveMode()
  {
  }

  /** Which transactions recur. */
  function Recurrence(ts: seq<RawTransaction>): (r: seq<bool>)
    ensures |r| == |ts|
  {
    seq(|ts|, (k: nat) requires k < |ts| => Recurs(ts[k]))
  }

  /** Indices of the recurring transactions, in list order. */
  function Recurring(recurs: seq<bool>): (r: seq<nat>)
    ensures |r| <= |recurs|
  {
    if recurs == [] then []
    else
      var n := |recurs| - 1;
      Recurring(recurs[..n]) + if recurs[n] then [n] else []
  }

  lemma {:induction false} RecurringPrefix(recurs: seq<bool>, i: nat)
    requires i <= |recurs|
    ensures Recurring(recurs[..i]) <= Recurring(recurs)
    decreases |recurs| - i
  {
    if i < |recurs| {
      RecurringPrefix(recurs, i + 1);
      assert recurs[..i + 1][..i] == recurs[..i];
    } else {
      assert recurs[..i] == recurs;
    }
  }

  function Range(n: nat): seq<nat> {
    seq(n, (k: nat) => k)
  }

  /** The polls of the first `passes` passes: the whole list once, then the recurring ones again and again. */
  function Schedule(recurs: seq<bool>, passes: nat): seq<nat> {
    if passes == 0 then [] else Schedule(recurs, passes - 1) + PassPolls(recurs, passes - 1, |recurs|)
  }

  /** The polls of pass `pass` (from 0) before transaction `i`. */
  function PassPolls(recurs: seq<bool>, pass: nat, i: nat): seq<nat>
    requires i <= |recurs|
  {
    if pass == 0 then Range(i) else Recurring(recurs[..i])
  }

  /** First every transaction in list order; after that only recurring ones. */
  lemma {:induction false} ScheduleShape(recurs: seq<bool>, passes: nat, k: nat)
    requires k < |Schedule(recurs, passes)|
    ensures var x := Schedule(recurs, passes)[k];
      x < |recurs| && (k < |recurs| ==> x == k) && (k >= |recurs| ==> recurs[x])
  {
    var earlier, polls := Schedule(recurs, passes - 1), PassPolls(recurs, passes - 1, |recurs|);
    assert Schedule(recurs, passes) == earlier + polls;
    if k < |earlier| {
      ScheduleShape(recurs, passes - 1, k);
    } else if passes == 1 {
      assert earlier == [] && polls == Range(|recurs|);
    } else {
      ScheduleLength(recurs, passes - 1);
      RecurringRecur(recurs);
      assert recurs[..|recurs|] == recurs;
      assert polls == Recurring(recurs);
      assert polls[k - |earlier|] in Recurring(recurs);
    }
  }

  lemma {:induction false} ScheduleLength(recurs: seq<bool>, passes: nat)
    ensures passes > 0 ==> |Schedule(recurs, passes)| >= |recurs|
  {
    if passes > 1 {
      ScheduleLength(recurs, passes - 1);
    }
  }

  lemma {:induction false} RecurringRecur(recurs: seq<bool>)
    ensures forall x :: x in Recurring(recurs) ==> x < |recurs| && recurs[x]
  {
    if recurs != [] {
      RecurringRecur(recurs[..|recurs| - 1]);
    }
  }

  /** `run` has marked the completed once-mode transactions, up to `i` in pass `pass`. */
  predicate Marked(recurs: seq<bool>, done: array<bool>, pass: nat, i: nat)
    reads done
  {
    && done.Length == |recurs|
    && (forall k :: 0 <= k < |recurs| && k < i ==> (done[k] <==> !recurs[k]))
    && (forall k :: 0 <= k < |recurs| && k >= i ==> (done[k] <==> pass > 0 && !recurs[k]))
  }

  lemma FirstPass(recurs: seq<bool>, i: nat)
    requires i <= |recurs|
    ensures Schedule(recurs, 0) + PassPolls(recurs, 0, i) == Range(i)
  {
  }

  lemma OnceOnly(ts: seq<RawTransaction>)
    ensures AnyRecurs(Recurrence(ts), |ts|) <==> !NoneRecurs(ts)
    ensures Schedule(Recurrence(ts), 1) == Range(|ts|)
  {
    AnyRecursExactly(Recurrence(ts), |ts|);
    forall k | 0 <= k < |ts| ensures Recurrence(ts)[k] == Recurs(ts[k]) && ts[k] in ts {
    }
    assert [] + Range(|ts|) == Range(|ts|);
    assert Schedule(Recurrence(ts), 1) == Schedule(Recurrence(ts), 0) + PassPolls(Recurrence(ts), 0, |ts|);
  }

  /** A poll of transaction `x` by the retry loop, with its own settings. */
  predicate RawRanTo(ts: seq<RawTransaction>, x: nat, turn: Turn, d: Done) {
    x < |ts| && RanTo(RawInitial(ts[x]), RawMax(ts[x]), ts[x].retry, ts[x].maxRetries, turn, d)
  }

  predicate RawRecord(ts: seq<RawTransaction>, turns: seq<Turn>, polled: seq<nat>, done: seq<Done>) {
    && |done| == |polled| <= |turns|
    && forall k :: 0 <= k < |polled| ==> RawRanTo(ts, polled[k], turns[k], done[k])
  }

  /** No poll is endless, whatever transaction it is of, and no wait is cancelled. */
  predicate Smooth(ts: seq<RawTransaction>, turns: seq<Turn>) {
    forall x, k :: 0 <= x < |ts| && 0 <= k < |turns| ==> turns[k].waited && Ample(ts[x].retry, ts[x].maxRetries, turns[k])
  }

  /** With one poll each, none is endless. */
  predicate EachEnds(ts: seq<RawTransaction>, turns: seq<Turn>) {
    |turns| >= |ts| && forall k :: 0 <= k < |ts| ==> Ample(ts[k].retry, ts[k].maxRetries, turns[k])
  }

  method RawRun(ts: seq<RawTransaction>, turns: seq<Turn>) returns (polled: seq<nat>, done: seq<Done>, finished: bool)
    ensures RawRecord(ts, turns, polled, done)
    ensures exists passes :: polled <= Schedule(Recurrence(ts), passes)
    ensures NoneRecurs(ts) ==> |polled| <= |ts|
    ensures NoneRecurs(ts) && EachEnds(ts, turns) ==> finished && |polled| == |ts|
    // with recurring transactions, for as long as nothing is endless or cancelled
    ensures !NoneRecurs(ts) && Smooth(ts, turns) ==> !finished && |polled| == |turns|
  {
    var onceCompleted := new bool[|ts|](_ => false);
    ghost var recurs := Recurrence(ts);
    OnceOnly(ts);
    polled, done := [], [];
    ghost var pass := 0;
    while true
      invariant fresh(onceCompleted) && Marked(recurs, onceCompleted, pass, 0)
      invariant polled == Schedule(recurs, pass) && RawRecord(ts, turns, polled, done)
      invariant pass > 0 ==> AnyRecurs(recurs, |recurs|)
      decreases |turns| - |polled|
    {
      var hasRecurring, running;
      ghost var reached;
      ghost var before := polled;
      polled, done, hasRecurring, running, finished, reached := RawPass(ts, onceCompleted, turns, polled, done, recurs, pass);
      PassPrefix(before, recurs, pass, reached);
      assert recurs[..|recurs|] == recurs;
      assert polled <= Schedule(recurs, pass + 1);
      if !running {
        RunEnds(ts, turns, before, polled, done, reached, finished, pass);
        return;
      }
      if !hasRecurring {
        return polled, done, true;
      }
      PassNonempty(recurs, pass);
      pass := pass + 1;
    }
  }

  /** `run` has returned, or the record ends: a wait was cancelled, nothing is left of the record, or a poll is endless. */
  predicate Ended(
      ts: seq<RawTransaction>, turns: seq<Turn>, before: seq<nat>, polled: seq<nat>, done: seq<Done>, reached: nat, finished: bool)
    requires RawRecord(ts, turns, polled, done)
  {
    var n := |polled| - 1;
    if finished then n >= |before| && Recurs(ts[polled[n]]) && !turns[n].waited
    else (|polled| == |turns| && reached < |ts|) || (n >= |before| && done[n].ending == Unfinished)
  }

  lemma EndedSmoothly(
      ts: seq<RawTransaction>, turns: seq<Turn>, before: seq<nat>, polled: seq<nat>, done: seq<Done>, reached: nat, finished: bool)
    requires RawRecord(ts, turns, polled, done) && Ended(ts, turns, before, polled, done, reached, finished)
    ensures Smooth(ts, turns) ==> !finished && |polled| == |turns|
  {
    var n := |polled| - 1;
    if Smooth(ts, turns) && n >= 0 {
      assert RawRanTo(ts, polled[n], turns[n], done[n]);
      EndsByItself(ts[polled[n]], turns[n], done[n]);
    }
  }

  /** The first pass over transactions that do not recur goes through. */
  lemma GoesThrough(
      ts: seq<RawTransaction>, turns: seq<Turn>, polled: seq<nat>, done: seq<Done>, reached: nat, finished: bool)
    requires RawRecord(ts, turns, polled, done) && EachEnds(ts, turns) && NoneRecurs(ts)
    requires polled == Range(reached) && reached <= |ts|
    ensures !Ended(ts, turns, [], polled, done, reached, finished)
  {
    var n := |polled| - 1;
    if n >= 0 {
      assert RawRanTo(ts, polled[n], turns[n], done[n]) && ts[polled[n]] in ts;
      EndsByItself(ts[polled[n]], turns[n], done[n]);
    }
  }

  /** What `run` promises when it ends within a pass. */
  lemma RunEnds(
      ts: seq<RawTransaction>, turns: seq<Turn>, before: seq<nat>, polled: seq<nat>, done: seq<Done>,
      reached: nat, finished: bool, pass: nat)
    requires RawRecord(ts, turns, polled, done) && Ended(ts, turns, before, polled, done, reached, finished)
    requires before == Schedule(Recurrence(ts), pass) && reached <= |ts|
    requires polled == before + PassPolls(Recurrence(ts), pass, reached)
    ensures Smooth(ts, turns) ==> !finished && |polled| == |turns|
    ensures pass == 0 && NoneRecurs(ts) ==> !EachEnds(ts, turns) && |polled| <= |ts|
  {
    EndedSmoothly(ts, turns, before, polled, done, reached, finished);
    if pass == 0 && NoneRecurs(ts) {
      FirstPass(Recurrence(ts), reached);
      if EachEnds(ts, turns) {
        GoesThrough(ts, turns, polled, done, reached, finished);
      }
    }
  }

  predicate NoneRecurs(ts: seq<RawTransaction>) {
    forall t :: t in ts ==> !Recurs(t)
  }

  lemma EndsByItself(t: RawTransaction, turn: Turn, d: Done)
    requires RanTo(RawInitial(t), RawMax(t), t.retry, t.maxRetries, turn, d) && Ample(t.retry, t.maxRetries, turn)
    ensures d.ending != Unfinished
  {
    BudgetKept(t.retry, t.maxRetries, turn.script, d.attempts);
  }

  /** One pass over the list. `running` is false when `run` returned within it. */
  method RawPass(
      ts: seq<RawTransaction>, onceCompleted: array<bool>, turns: seq<Turn>, before: seq<nat>, doneBefore: seq<Done>,
      ghost recurs: seq<bool>, ghost pass: nat)
    returns (polled: seq<nat>, done: seq<Done>, hasRecurring: bool, running: bool, finished: bool, ghost reached: nat)
    requires recurs == Recurrence(ts) && Marked(recurs, onceCompleted, pass, 0) && RawRecord(ts, turns, before, doneBefore)
    modifies onceCompleted
    ensures RawRecord(ts, turns, polled, done)
    ensures reached <= |recurs| && polled == before + PassPolls(recurs, pass, reached)
    ensures running ==> reached == |recurs| && Marked(recurs, onceCompleted, pass + 1, 0)
    ensures running ==> (hasRecurring <==> AnyRecurs(recurs, |recurs|))
    ensures !running ==> Ended(ts, turns, before, polled, done, reached, finished)
  {
    polled, done, hasRecurring, finished, reached := before, doneBefore, false, false, 0;
    for i := 0 to |ts|
      invariant polled == before + PassPolls(recurs, pass, i) && RawRecord(ts, turns, polled, done)
      invariant hasRecurring <==> AnyRecurs(recurs, i)
      invariant Marked(recurs, onceCompleted, pass, i)
    {
      PassStep(before, recurs, pass, i);
      var t := ts[i];
      assert recurs[i] <==> t.EffectiveMode() != Once;
      if t.EffectiveMode() == Once && onceCompleted[i] {
        continue;
      }
      if |polled| == |turns| {
        return polled, done, hasRecurring, false, false, i;
      }
      var turn := turns[|polled|];
      var ending;
      polled, done, ending := RawPoll(ts, i, turns, polled, done);
      if ending == Unfinished {
        return polled, done, hasRecurring, false, false, i + 1;
      }
      if t.EffectiveMode() == Once {
        onceCompleted[i] := true;
        continue;
      }
      hasRecurring := true;
      if !turn.waited {
        return polled, done, hasRecurring, false, true, i + 1;
      }
    }
    running, reached := true, |recurs|;
  }

  /** The poll of one transaction. */
  method RawPoll(ts: seq<RawTransaction>, x: nat, turns: seq<Turn>, before: seq<nat>, doneBefore: seq<Done>)
    returns (polled: seq<nat>, done: seq<Done>, ending: Ending)
    requires RawRecord(ts, turns, before, doneBefore) && |before| < |turns| && x < |ts|
    ensures polled == before + [x] && RawRecord(ts, turns, polled, done) && done[|before|].ending == ending
  {
    var t := ts[x];
    var d := PollWithin(RawInitial(t), RawMax(t), t.retry, t.maxRetries, turns[|before|]);
    RecordOneMore(ts, turns, before, doneBefore, x, d);
    polled, done, ending := before + [x], doneBefore + [d], d.ending;
  }

  lemma RecordOneMore(ts: seq<RawTransaction>, turns: seq<Turn>, polled: seq<nat>, done: seq<Done>, x: nat, d: Done)
    requires RawRecord(ts, turns, polled, done) && |polled| < |turns| && RawRanTo(ts, x, turns[|polled|], d)
    ensures RawRecord(ts, turns, polled + [x], done + [d])
  {
  }

  lemma PassStep(before: seq<nat>, recurs: seq<bool>, pass: nat, i: nat)
    requires i < |recurs|
    ensures before + PassPolls(recurs, pass, i + 1)
         == before + PassPolls(recurs, pass, i) + if pass == 0 || recurs[i] then [i] else []
  {
    if pass == 0 {
      assert Range(i + 1) == Range(i) + [i];
    } else {
      var init := recurs[..i];
      assert recurs[..i + 1] == init + [recurs[i]];
      RecurringAppend(init, recurs[i]);
    }
  }

  /** One of the first `i` transactions recurs. */
  predicate AnyRecurs(recurs: seq<bool>, i: nat)
    requires i <= |recurs|
  {
    i > 0 && (recurs[i - 1] || AnyRecurs(recurs, i - 1))
  }

  lemma {:induction false} AnyRecursExactly(recurs: seq<bool>, i: nat)
    requires i <= |recurs|
    ensures AnyRecurs(recurs, i) <==> exists k :: 0 <= k < i && recurs[k]
  {
    if i > 0 {
      AnyRecursExactly(recurs, i - 1);
    }
  }

  lemma RecurringAppend(init: seq<bool>, last: bool)
    ensures Recurring(init + [last]) == Recurring(init) + if last then [|init|] else []
  {
    var all := init + [last];
    assert all[..|all| - 1] == init;
  }

  lemma {:induction false} RecurringSome(recurs: seq<bool>)
    ensures Recurring(recurs) != [] <==> exists k :: 0 <= k < |recurs| && recurs[k]
  {
    if recurs != [] {
      var n := |recurs| - 1;
      RecurringSome(recurs[..n]);
      assert forall k :: 0 <= k < n ==> recurs[..n][k] == recurs[k];
    }
  }

  lemma PassNonempty(recurs: seq<bool>, pass: nat)
    requires AnyRecurs(recurs, |recurs|)
    ensures PassPolls(recurs, pass, |recurs|) != []
  {
    AnyRecursExactly(recurs, |recurs|);
    RecurringSome(recurs);
    assert recurs[..|recurs|] == recurs;
  }

  lemma PassPrefix(before: seq<nat>, recurs: seq<bool>, pass: nat, i: nat)
    requires i <= |recurs|
    ensures before + PassPolls(recurs, pass, i) <= before + PassPolls(recurs, pass, |recurs|)
  {
    RecurringPrefix(recurs, i);
    assert recurs[..|recurs|] == recurs;
  }
}
