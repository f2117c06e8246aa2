/**
 A circuit breaker under many concurrent callers.

 A caller's `Execute` is two atomic steps, `Begin` (beforeExecution) and `End` (afterExecution),
 with any number of other callers' steps between them.  The system keeps, next to the breaker's
 own fields, the executions in flight and a history of what happened.  `epoch` numbers the
 generations without wrapping; the breaker itself only has the wrapped number.
 */
module BreakerRuns {
  import opened Breaker

  datatype Entry =
    | Admit(epoch: nat, at: nat)       // an execution let through
    | Outcome(epoch: nat, ok: bool)    // a completion whose generation was still current
    | Stale(epoch: nat)                // a completion from an older generation
    | Trip(at: nat)                    // the breaker entered Tripped

  datatype Sys = Sys(
    core: Core,
    epoch: nat,
    inFlight: multiset<nat>,   // the epochs in which the running executions were admitted
    history: seq<Entry>,
    clock: nat,                // last reading of the clock
    trippedFires: nat,
    standbyFires: nat)

  datatype Step = Begin(now: nat) | End(epoch: nat, ok: bool, now: nat)

  function Start(cfg: Config, now: nat): Sys {
    Sys(Fresh(cfg, now), 1, multiset{}, [], now, 0, 0)
  }

  /** No execution has been running for 2^64 generations, so wrapped numbers do not collide. */
  predicate Prompt(s: Sys) {
    forall e :: e in s.inFlight ==> s.epoch - e < UINT64 - 1
  }

  predicate Enabled(s: Sys, step: Step) {
    && s.clock <= step.now
    && Prompt(s)
    && (step.End? ==> step.epoch in s.inFlight)
  }

  function Bumps(c: Core, d: Core): nat {
    if c.generation == d.generation then 0 else 1
  }

  function ApplyBegin(cfg: Config, s: Sys, now: nat): Sys {
    var c := Enter(cfg, s.core, now);
    var e := s.epoch + Bumps(s.core, c);
    if c.state.Tripped? then s.(core := c, epoch := e, clock := now)
    else s.(core := c, epoch := e, clock := now,
            inFlight := s.inFlight + multiset{e}, history := s.history + [Admit(e, now)])
  }

  predicate IsCurrent(cfg: Config, s: Sys, e: nat, now: nat) {
    CurrentState(cfg, s.core, now).generation == e % UINT64
  }

  function Completion(cfg: Config, s: Sys, step: Step): Entry
    requires step.End?
  {
    if IsCurrent(cfg, s, step.epoch, step.now) then Outcome(step.epoch, step.ok) else Stale(step.epoch)
  }

  function ApplyEnd(cfg: Config, s: Sys, step: Step): Sys
    requires step.End?
  {
    var (c, fired) := Leave(cfg, s.core, step.epoch % UINT64, step.ok, step.now);
    Sys(c, s.epoch + Bumps(s.core, c), s.inFlight - multiset{step.epoch},
        s.history + [Completion(cfg, s, step)]
        + (if c.state.Tripped? && !s.core.state.Tripped? then [Trip(step.now)] else []),
        step.now,
        s.trippedFires + (if fired.OnTripped? then 1 else 0),
        s.standbyFires + (if fired.OnStandBy? then 1 else 0))
  }

  function Apply(cfg: Config, s: Sys, step: Step): Sys {
    if step.Begin? then ApplyBegin(cfg, s, step.now) else ApplyEnd(cfg, s, step)
  }

  ghost predicate Run(cfg: Config, s: Sys, steps: seq<Step>, t: Sys)
    decreases |steps|
  {
    if steps == [] then s == t
    else Enabled(s, steps[0]) && Run(cfg, Apply(cfg, s, steps[0]), steps[1..], t)
  }

  /** `s` is the system after some interleaving of callers, from a new breaker. */
  ghost predicate Reachable(cfg: Config, now: nat, steps: seq<Step>, s: Sys) {
    cfg.Valid() && Run(cfg, Start(cfg, now), steps, s)
  }

  // ---------- Reading the history ----------

  function Admissions(h: seq<Entry>, e: nat): nat {
    if h == [] then 0
    else
      var x := h[|h| - 1];
      Admissions(h[..|h| - 1], e) + (if x.Admit? && x.epoch == e then 1 else 0)
  }

  /** The outcomes counted in generation e, oldest first. */
  function Outcomes(h: seq<Entry>, e: nat): seq<bool> {
    if h == [] then []
    else
      var x := h[|h| - 1];
      Outcomes(h[..|h| - 1], e) + (if x.Outcome? && x.epoch == e then [x.ok] else [])
  }

  function StaleEnds(h: seq<Entry>, e: nat): nat {
    if h == [] then 0
    else
      var x := h[|h| - 1];
      StaleEnds(h[..|h| - 1], e) + (if x.Stale? && x.epoch == e then 1 else 0)
  }

  function Count(os: seq<bool>, b: bool): nat {
    if os == [] then 0 else Count(os[..|os| - 1], b) + (if os[|os| - 1] == b then 1 else 0)
  }

  /** Length of the longest suffix of outcomes all equal to b. */
  function Streak(os: seq<bool>, b: bool): nat {
    if os == [] || os[|os| - 1] != b then 0 else Streak(os[..|os| - 1], b) + 1
  }

  predicate WindowAt(os: seq<bool>, b: bool, n: nat, i: int) {
    0 <= i <= |os| - n && forall k :: i <= k < i + n ==> os[k] == b
  }

  /** n outcomes in a row, all equal to b, anywhere. */
  ghost predicate HasWindow(os: seq<bool>, b: bool, n: nat) {
    exists i :: WindowAt(os, b, n, i)
  }

  /** The five counters that a generation's log calls for. */
  function Tally(admitted: nat, os: seq<bool>): Metrics {
    Metrics(admitted % UINT32, Count(os, true) % UINT32, Count(os, false) % UINT32,
            Streak(os, true) % UINT32, Streak(os, false) % UINT32)
  }

  lemma Snoc(h: seq<Entry>, x: Entry, e: nat)
    ensures Admissions(h + [x], e) == Admissions(h, e) + (if x.Admit? && x.epoch == e then 1 else 0)
    ensures Outcomes(h + [x], e) == Outcomes(h, e) + (if x.Outcome? && x.epoch == e then [x.ok] else [])
    ensures StaleEnds(h + [x], e) == StaleEnds(h, e) + (if x.Stale? && x.epoch == e then 1 else 0)
  {
    assert (h + [x])[..|h|] == h;
  }

  lemma Inc32Mod(n: nat)
    ensures Inc32(n % UINT32) == (n + 1) % UINT32
  {}

  lemma CountSnoc(os: seq<bool>, x: bool, b: bool)
    ensures Count(os + [x], b) == Count(os, b) + (if x == b then 1 else 0)
    ensures Streak(os + [x], b) == (if x == b then Streak(os, b) + 1 else 0)
  {
    assert (os + [x])[..|os|] == os;
  }

  lemma TallySnoc(n: nat, os: seq<bool>, x: bool)
    ensures Tally(n, os + [x]) == (if x then WithSuccess(Tally(n, os)) else WithFailure(Tally(n, os)))
  {
    CountSnoc(os, x, true);
    CountSnoc(os, x, false);
    if x {
      Inc32Mod(Count(os, true));
      Inc32Mod(Streak(os, true));
    } else {
      Inc32Mod(Count(os, false));
      Inc32Mod(Streak(os, false));
    }
  }

  lemma TallyAdmit(n: nat, os: seq<bool>)
    ensures Tally(n + 1, os) == WithExecution(Tally(n, os))
  {
    Inc32Mod(n);
  }

  lemma {:induction false} CountsAddUp(os: seq<bool>)
    ensures Count(os, true) + Count(os, false) == |os|
  {
    if os != [] { CountsAddUp(os[..|os| - 1]); }
  }

  lemma {:induction false} StreakIsSuffix(os: seq<bool>, b: bool)
    ensures Streak(os, b) <= |os|
    ensures forall k :: |os| - Streak(os, b) <= k < |os| ==> os[k] == b
    ensures Streak(os, b) < |os| ==> os[|os| - Streak(os, b) - 1] != b
  {
    if os != [] && os[|os| - 1] == b {
      StreakIsSuffix(os[..|os| - 1], b);
    }
  }

  /** A new outcome completes a window exactly when it brings the streak to n. */
  lemma WindowSnoc(os: seq<bool>, x: bool, b: bool, n: nat)
    requires n > 0
    ensures HasWindow(os + [x], b, n) <==> HasWindow(os, b, n) || Streak(os + [x], b) >= n
  {
    var all := os + [x];
    StreakIsSuffix(all, b);
    if i :| WindowAt(os, b, n, i) {
      assert WindowAt(all, b, n, i);
    } else if Streak(all, b) >= n {
      assert WindowAt(all, b, n, |all| - n);
    } else {
      forall i | WindowAt(all, b, n, i) ensures WindowAt(os, b, n, i) {
        assert all[|all| - Streak(all, b) - 1] != b;
      }
    }
  }

  // ---------- The invariant ----------

  predicate Numbered(s: Sys) {
    && s.core.generation == s.epoch % UINT64
    && (forall e :: e in s.inFlight ==> e <= s.epoch)
  }

  /** Every admission is accounted for: counted, stale or still running. */
  ghost predicate Ledger(s: Sys) {
    && (forall e: nat :: Admissions(s.history, e)
          == |Outcomes(s.history, e)| + StaleEnds(s.history, e) + s.inFlight[e])
    && (forall e: nat :: e >= s.epoch ==> StaleEnds(s.history, e) == 0)
    && (forall e: nat :: e > s.epoch ==> Admissions(s.history, e) == 0)
  }

  predicate Tallied(s: Sys) {
    s.core.metrics == Tally(Admissions(s.history, s.epoch), Outcomes(s.history, s.epoch))
  }

  predicate Expiries(s: Sys) {
    && (s.core.state.Standby? ==> s.core.expiry > ZERO_TIME)
    && (s.core.state.Recovering? ==> s.core.expiry == ZERO_TIME)
  }

  predicate TrippedIdle(s: Sys) {
    s.core.state.Tripped? ==> Admissions(s.history, s.epoch) == 0
  }

  /** All trips so far have run their period by the given time. */
  predicate TripsOverBy(h: seq<Entry>, period: nat, latest: int) {
    forall i :: 0 <= i < |h| && h[i].Trip? ==> h[i].at + period <= latest
  }

  /** Nothing is admitted between a trip and the first reading past its period. */
  predicate NoAdmitInPeriod(h: seq<Entry>, period: nat) {
    forall i, j :: 0 <= i < j < |h| && h[i].Trip? && h[j].Admit? ==> h[i].at + period < h[j].at
  }

  predicate Windows(cfg: Config, s: Sys) {
    && TripsOverBy(s.history, cfg.trippedPeriod, if s.core.state.Tripped? then s.core.expiry else s.clock - 1)
    && NoAdmitInPeriod(s.history, cfg.trippedPeriod)
  }

  /** Index i holds the last trip. */
  predicate LastTrip(h: seq<Entry>, i: int) {
    0 <= i < |h| && h[i].Trip? && forall j :: i < j < |h| ==> !h[j].Trip?
  }

  /** A Standby generation counts one Interval; a Tripped one ends TrippedPeriod after its trip. */
  ghost predicate Periods(cfg: Config, s: Sys) {
    && (s.core.state.Standby? ==> s.core.expiry - cfg.interval <= s.clock)
    && (s.core.state.Standby? ==>
          forall i :: 0 <= i < |s.history| && s.history[i].Admit? && s.history[i].epoch == s.epoch ==>
            s.core.expiry - cfg.interval <= s.history[i].at <= s.core.expiry)
    && (s.core.state.Tripped? ==>
          exists i :: LastTrip(s.history, i) && s.core.expiry == s.history[i].at + cfg.trippedPeriod)
  }

  predicate Alternating(s: Sys) {
    s.trippedFires == s.standbyFires + (if s.core.state.Standby? then 0 else 1)
  }

  ghost predicate NotYetRecovered(cfg: Config, s: Sys) {
    var os := Outcomes(s.history, s.epoch);
    s.core.state.Recovering? ==>
      !HasWindow(os, true, cfg.recoveryLimit) && Streak(os, true) < cfg.recoveryLimit
  }

  ghost predicate Books(s: Sys) {
    Numbered(s) && Ledger(s) && TrippedIdle(s)
  }

  ghost predicate Inv(cfg: Config, s: Sys) {
    && cfg.Valid()
    && Books(s)
    && Tallied(s)
    && Expiries(s)
    && Windows(cfg, s)
    && Periods(cfg, s)
    && Alternating(s)
    && NotYetRecovered(cfg, s)
  }

  // ---------- Every step keeps the invariant ----------

  lemma NoWrapBetween(a: nat, b: nat)
    requires b <= a < b + UINT64 && a % UINT64 == b % UINT64
    ensures a == b
  {}

  lemma NextNumber(n: nat)
    ensures (n % UINT64 + 1) % UINT64 == (n + 1) % UINT64
    ensures (n + 1) % UINT64 != n % UINT64
  {}

  /** Looking at the clock either changes nothing or opens one new, empty generation. */
  lemma RefreshCases(cfg: Config, s: Sys, now: nat)
    requires Numbered(s)
    ensures var d := CurrentState(cfg, s.core, now);
      || d == s.core
      || (&& d.generation == (s.epoch + 1) % UINT64 != s.core.generation
          && d.metrics == NO_METRICS
          && (if s.core.state.Standby? then d.state.Standby? else s.core.state.Tripped? && d.state.Recovering?))
  {
    NextNumber(s.epoch);
  }

  /** A completion is counted exactly when it was admitted in the current epoch and that has not just ended. */
  lemma CurrentMeansSameEpoch(cfg: Config, s: Sys, e: nat, now: nat)
    requires Numbered(s) && Prompt(s) && e in s.inFlight
    ensures IsCurrent(cfg, s, e, now) <==> e == s.epoch && CurrentState(cfg, s.core, now) == s.core
  {
    RefreshCases(cfg, s, now);
    NextNumber(s.epoch);
    if e % UINT64 == s.epoch % UINT64 { NoWrapBetween(s.epoch, e); }
    if e % UINT64 == (s.epoch + 1) % UINT64 { NoWrapBetween(s.epoch + 1, e); }
  }

  /** The shape of a completion step: refresh only, or an outcome counted in the current generation. */
  lemma EndCases(cfg: Config, s: Sys, step: Step)
    requires Books(s) && step.End? && Enabled(s, step)
    ensures var t := Apply(cfg, s, step);
      && (Completion(cfg, s, step).Stale? ==>
            && t.core == CurrentState(cfg, s.core, step.now)
            && (step.epoch < t.epoch)
            && t.history == s.history + [Stale(step.epoch)]
            && t.trippedFires == s.trippedFires && t.standbyFires == s.standbyFires)
      && (Completion(cfg, s, step).Outcome? ==>
            && step.epoch == s.epoch
            && !s.core.state.Tripped?
            && (t.core, t.trippedFires - s.trippedFires, t.standbyFires - s.standbyFires)
               == (var (c, f) := if step.ok then Succeed(cfg, s.core, step.now) else Fail(cfg, s.core, step.now);
                   (c, if f.OnTripped? then 1 else 0, if f.OnStandBy? then 1 else 0)))
  {
    CurrentMeansSameEpoch(cfg, s, step.epoch, step.now);
    RefreshCases(cfg, s, step.now);
  }

  lemma NumberedKept(cfg: Config, s: Sys, step: Step)
    requires Books(s) && Enabled(s, step)
    ensures Numbered(Apply(cfg, s, step))
    ensures s.epoch <= Apply(cfg, s, step).epoch <= s.epoch + 1
  {
    var t := Apply(cfg, s, step);
    NextNumber(s.epoch);
    if step.Begin? {
      RefreshCases(cfg, s, step.now);
    } else {
      EndOpensAtMostOne(cfg, s, step, t);
    }
  }

  lemma EndOpensAtMostOne(cfg: Config, s: Sys, step: Step, t: Sys)
    requires Books(s) && Enabled(s, step) && step.End? && t == Apply(cfg, s, step)
    ensures t.core.generation == s.core.generation || t.core.generation == (s.core.generation + 1) % UINT64
    ensures t.inFlight <= s.inFlight
  {
    CurrentMeansSameEpoch(cfg, s, step.epoch, step.now);
    RefreshCases(cfg, s, step.now);
    NextNumber(s.epoch);
  }

  lemma HistoryGrows(cfg: Config, s: Sys, step: Step, e: nat)
    ensures var h, t := s.history, Apply(cfg, s, step).history;
      if step.Begin? then
        var c := Enter(cfg, s.core, step.now);
        var now := s.epoch + Bumps(s.core, c);
        && Outcomes(t, e) == Outcomes(h, e) && StaleEnds(t, e) == StaleEnds(h, e)
        && Admissions(t, e) == Admissions(h, e) + (if !c.state.Tripped? && e == now then 1 else 0)
      else
        var x := Completion(cfg, s, step);
        && Admissions(t, e) == Admissions(h, e)
        && Outcomes(t, e) == Outcomes(h, e) + (if x.Outcome? && e == step.epoch then [step.ok] else [])
        && StaleEnds(t, e) == StaleEnds(h, e) + (if x.Stale? && e == step.epoch then 1 else 0)
  {
    var t := Apply(cfg, s, step);
    if step.Begin? {
      if !t.core.state.Tripped? {
        Snoc(s.history, Admit(t.epoch, step.now), e);
      }
    } else {
      var x := Completion(cfg, s, step);
      Snoc(s.history, x, e);
      Snoc(s.history + [x], Trip(step.now), e);
      assert s.history + [x] + [] == s.history + [x];
    }
  }

  lemma LedgerKeptAt(cfg: Config, s: Sys, step: Step, t: Sys, e: nat)
    requires Books(s) && Enabled(s, step) && t == Apply(cfg, s, step)
    ensures Admissions(t.history, e) == |Outcomes(t.history, e)| + StaleEnds(t.history, e) + t.inFlight[e]
    ensures e >= t.epoch ==> StaleEnds(t.history, e) == 0
    ensures e > t.epoch ==> Admissions(t.history, e) == 0
  {
    NumberedKept(cfg, s, step);
    if step.Begin? {
      LedgerAfterBegin(cfg, s, step, t, e);
    } else {
      LedgerAfterEnd(cfg, s, step, t, e);
    }
  }

  lemma LedgerAfterBegin(cfg: Config, s: Sys, step: Step, t: Sys, e: nat)
    requires Ledger(s) && step.Begin? && t == Apply(cfg, s, step) && s.epoch <= t.epoch
    ensures Admissions(t.history, e) == |Outcomes(t.history, e)| + StaleEnds(t.history, e) + t.inFlight[e]
    ensures e >= t.epoch ==> StaleEnds(t.history, e) == 0
    ensures e > t.epoch ==> Admissions(t.history, e) == 0
  {
    BeginAdmitsOne(cfg, s, step, t);
    if t.history != s.history { AdmissionBalances(s, t, step.now, e); }
  }

  lemma BeginAdmitsOne(cfg: Config, s: Sys, step: Step, t: Sys)
    requires step.Begin? && t == Apply(cfg, s, step)
    ensures || (t.history == s.history && t.inFlight == s.inFlight)
            || (&& t.history == s.history + [Admit(t.epoch, step.now)]
                && t.inFlight == s.inFlight + multiset{t.epoch})
  {}

  lemma AdmissionBalances(s: Sys, t: Sys, now: nat, e: nat)
    requires Ledger(s) && s.epoch <= t.epoch
    requires t.history == s.history + [Admit(t.epoch, now)] && t.inFlight == s.inFlight + multiset{t.epoch}
    ensures Admissions(t.history, e) == |Outcomes(t.history, e)| + StaleEnds(t.history, e) + t.inFlight[e]
    ensures e >= t.epoch ==> StaleEnds(t.history, e) == 0
    ensures e > t.epoch ==> Admissions(t.history, e) == 0
  {
    Snoc(s.history, Admit(t.epoch, now), e);
  }

  lemma LedgerAfterEnd(cfg: Config, s: Sys, step: Step, t: Sys, e: nat)
    requires Books(s) && Enabled(s, step) && step.End? && t == Apply(cfg, s, step)
    ensures Admissions(t.history, e) == |Outcomes(t.history, e)| + StaleEnds(t.history, e) + t.inFlight[e]
    ensures e >= t.epoch ==> StaleEnds(t.history, e) == 0
    ensures e > t.epoch ==> Admissions(t.history, e) == 0
  {
    EndedInItsEpoch(cfg, s, step, t);
    HistoryGrows(cfg, s, step, e);
  }

  lemma EndedInItsEpoch(cfg: Config, s: Sys, step: Step, t: Sys)
    requires Books(s) && Enabled(s, step) && step.End? && t == Apply(cfg, s, step)
    ensures t.inFlight == s.inFlight - multiset{step.epoch} && step.epoch <= s.epoch <= t.epoch
    ensures Completion(cfg, s, step).Stale? ==> step.epoch < t.epoch
  {
    EndCases(cfg, s, step);
    assert Admissions(s.history, step.epoch) > 0;
  }

  lemma LedgerKept(cfg: Config, s: Sys, step: Step)
    requires Books(s) && Enabled(s, step)
    ensures Ledger(Apply(cfg, s, step))
  {
    var t := Apply(cfg, s, step);
    forall e: nat
      ensures Admissions(t.history, e) == |Outcomes(t.history, e)| + StaleEnds(t.history, e) + t.inFlight[e]
      ensures e >= t.epoch ==> StaleEnds(t.history, e) == 0
      ensures e > t.epoch ==> Admissions(t.history, e) == 0
    {
      LedgerKeptAt(cfg, s, step, t, e);
    }
  }

  lemma NewEpochIsEmpty(s: Sys)
    requires Ledger(s)
    ensures Admissions(s.history, s.epoch + 1) == 0 && Outcomes(s.history, s.epoch + 1) == []
    ensures Tally(0, []) == NO_METRICS
  {}

  lemma TalliedKeptByBegin(cfg: Config, s: Sys, step: Step)
    requires Books(s) && Tallied(s) && Enabled(s, step) && step.Begin?
    ensures Tallied(Apply(cfg, s, step))
  {
    var t := Apply(cfg, s, step);
    NewEpochIsEmpty(s);
    RefreshCases(cfg, s, step.now);
    HistoryGrows(cfg, s, step, t.epoch);
    TallyAdmit(Admissions(s.history, t.epoch), Outcomes(s.history, t.epoch));
  }

  /** A stale completion leaves the generation alone, or finds a new, empty one just opened. */
  predicate StaleEnd(s: Sys, step: Step, t: Sys) {
    && step.End? && step.epoch < t.epoch
    && (|| (t.epoch == s.epoch && t.core == s.core)
        || (t.epoch == s.epoch + 1 && t.core.metrics == NO_METRICS))
  }

  /** A counted completion adds to the tallies, or moves the breaker into a new, empty generation. */
  predicate CountedEnd(cfg: Config, s: Sys, step: Step, t: Sys) {
    && step.End? && step.epoch == s.epoch
    && (|| (&& t.epoch == s.epoch
            && t.core == s.core.(metrics :=
                 if step.ok then WithSuccess(s.core.metrics) else WithFailure(s.core.metrics))
            && (s.core.state.Recovering? && step.ok ==> t.core.metrics.consecutiveSuccesses < cfg.recoveryLimit))
        || (t.epoch == s.epoch + 1 && t.core.metrics == NO_METRICS))
  }

  lemma EndShape(cfg: Config, s: Sys, step: Step)
    requires Books(s) && step.End? && Enabled(s, step)
    ensures var t := Apply(cfg, s, step);
      if Completion(cfg, s, step).Stale? then StaleEnd(s, step, t) else CountedEnd(cfg, s, step, t)
  {
    EndCases(cfg, s, step);
    RefreshCases(cfg, s, step.now);
    NextNumber(s.epoch);
  }

  lemma EndOutcomes(cfg: Config, s: Sys, step: Step)
    requires Books(s) && step.End? && Enabled(s, step)
    ensures var t := Apply(cfg, s, step);
      && (t.epoch > s.epoch ==> Admissions(t.history, t.epoch) == 0 && Outcomes(t.history, t.epoch) == [])
      && (t.epoch == s.epoch ==>
            && Admissions(t.history, t.epoch) == Admissions(s.history, s.epoch)
            && Outcomes(t.history, t.epoch) == (if CountedEnd(cfg, s, step, t)
                 then Outcomes(s.history, s.epoch) + [step.ok] else Outcomes(s.history, s.epoch)))
  {
    var t := Apply(cfg, s, step);
    EndShape(cfg, s, step);
    HistoryGrows(cfg, s, step, t.epoch);
    NewEpochIsEmpty(s);
  }

  lemma TalliedAfterEnd(cfg: Config, s: Sys, step: Step, t: Sys)
    requires Tallied(s) && (StaleEnd(s, step, t) || CountedEnd(cfg, s, step, t))
    requires t.epoch > s.epoch ==> Admissions(t.history, t.epoch) == 0 && Outcomes(t.history, t.epoch) == []
    requires t.epoch == s.epoch ==>
      && Admissions(t.history, t.epoch) == Admissions(s.history, s.epoch)
      && Outcomes(t.history, t.epoch) == (if CountedEnd(cfg, s, step, t)
           then Outcomes(s.history, s.epoch) + [step.ok] else Outcomes(s.history, s.epoch))
    ensures Tallied(t)
  {
    TallySnoc(Admissions(s.history, s.epoch), Outcomes(s.history, s.epoch), step.ok);
    assert Tally(0, []) == NO_METRICS;
  }

  lemma ExpiriesKept(cfg: Config, s: Sys, step: Step)
    requires cfg.Valid() && Books(s) && Expiries(s) && Enabled(s, step)
    ensures Expiries(Apply(cfg, s, step))
  {
    if step.End? { EndCases(cfg, s, step); }
  }

  lemma TrippedIdleKept(cfg: Config, s: Sys, step: Step)
    requires Books(s) && Enabled(s, step)
    ensures TrippedIdle(Apply(cfg, s, step))
  {
    var t := Apply(cfg, s, step);
    if step.End? {
      EndStaysIdle(cfg, s, step, t);
    } else if t.core.state.Tripped? {
      BeginStaysTripped(cfg, s, step, t);
    }
  }

  lemma BeginStaysTripped(cfg: Config, s: Sys, step: Step, t: Sys)
    requires Numbered(s) && step.Begin? && t == Apply(cfg, s, step) && t.core.state.Tripped?
    ensures s.core.state.Tripped? && t.history == s.history && t.epoch == s.epoch
  {
    RefreshCases(cfg, s, step.now);
  }

  lemma EndStaysIdle(cfg: Config, s: Sys, step: Step, t: Sys)
    requires Books(s) && Enabled(s, step) && step.End? && t == Apply(cfg, s, step)
    ensures TrippedIdle(t)
  {
    if t.core.state.Tripped? {
      EndTripped(cfg, s, step, t);
      NewEpochIsEmpty(s);
      HistoryGrows(cfg, s, step, t.epoch);
    }
  }

  lemma EndTripped(cfg: Config, s: Sys, step: Step, t: Sys)
    requires Books(s) && Enabled(s, step) && step.End? && t == Apply(cfg, s, step) && t.core.state.Tripped?
    ensures (s.core.state.Tripped? && t.epoch == s.epoch) || t.epoch == s.epoch + 1
  {
    NextNumber(s.epoch);
    EndCases(cfg, s, step);
  }

  lemma TripsAppend(h: seq<Entry>, x: Entry, period: nat, latest: int)
    requires NoAdmitInPeriod(h, period) && TripsOverBy(h, period, latest)
    requires x.Admit? ==> latest < x.at
    ensures NoAdmitInPeriod(h + [x], period)
    ensures TripsOverBy(h + [x], period, if x.Trip? && latest < x.at + period then x.at + period else latest)
  {}

  lemma WindowsKeptByBegin(cfg: Config, s: Sys, step: Step)
    requires Windows(cfg, s) && Enabled(s, step) && step.Begin?
    ensures Windows(cfg, Apply(cfg, s, step))
  {
    var t := Apply(cfg, s, step);
    var latest := if s.core.state.Tripped? then s.core.expiry else s.clock - 1;
    if !t.core.state.Tripped? {
      TripsAppend(s.history, Admit(t.epoch, step.now), cfg.trippedPeriod, latest);
    }
  }

  lemma WindowsKeptByEnd(cfg: Config, s: Sys, step: Step)
    requires cfg.Valid() && Books(s) && Windows(cfg, s) && Enabled(s, step) && step.End?
    ensures Windows(cfg, Apply(cfg, s, step))
  {
    var t, x := Apply(cfg, s, step), Completion(cfg, s, step);
    var latest := if s.core.state.Tripped? then s.core.expiry else s.clock - 1;
    EndCases(cfg, s, step);
    TripsAppend(s.history, x, cfg.trippedPeriod, latest);
    if t.core.state.Tripped? && !s.core.state.Tripped? {
      assert t.core.expiry == step.now + cfg.trippedPeriod;
      TripsAppend(s.history + [x], Trip(step.now), cfg.trippedPeriod, latest);
    } else {
      assert t.history == s.history + [x];
    }
  }

  lemma {:induction false} AdmittedShows(h: seq<Entry>, i: nat)
    requires i < |h| && h[i].Admit?
    ensures Admissions(h, h[i].epoch) > 0
  {
    if i < |h| - 1 { AdmittedShows(h[..|h| - 1], i); }
  }

  lemma NoAdmitYet(s: Sys, e: nat)
    requires Admissions(s.history, e) == 0
    ensures forall i :: 0 <= i < |s.history| && s.history[i].Admit? ==> s.history[i].epoch != e
  {
    forall i | 0 <= i < |s.history| && s.history[i].Admit? ensures s.history[i].epoch != e {
      AdmittedShows(s.history, i);
    }
  }

  lemma PeriodsKeptByBegin(cfg: Config, s: Sys, step: Step)
    requires Books(s) && Expiries(s) && Periods(cfg, s) && Enabled(s, step) && step.Begin?
    ensures Periods(cfg, Apply(cfg, s, step))
  {
    var t := Apply(cfg, s, step);
    NewEpochIsEmpty(s);
    NoAdmitYet(s, s.epoch + 1);
    BeginAdmitsOne(cfg, s, step, t);
    BeginKeepsOrRenews(cfg, s, step, t);
  }

  /** Beginning leaves state, expiry and generation alone, or opens a generation at this very time. */
  lemma BeginKeepsOrRenews(cfg: Config, s: Sys, step: Step, t: Sys)
    requires Numbered(s) && step.Begin? && t == Apply(cfg, s, step)
    ensures t.clock == step.now
    ensures || (&& t.epoch == s.epoch && t.core.state == s.core.state && t.core.expiry == s.core.expiry
                && CurrentState(cfg, s.core, step.now) == s.core)
            || (&& t.epoch == s.epoch + 1 && !t.core.state.Tripped?
                && (t.core.state.Standby? ==> t.core.expiry == step.now + cfg.interval))
    ensures t.core.state.Tripped? ==> t.history == s.history
  {
    NextNumber(s.epoch);
    RefreshCases(cfg, s, step.now);
  }

  lemma TripIsLast(cfg: Config, s: Sys, step: Step, t: Sys)
    requires Books(s) && Periods(cfg, s) && Enabled(s, step) && step.End?
    requires t == Apply(cfg, s, step) && t.core.state.Tripped?
    ensures exists i :: LastTrip(t.history, i) && t.core.expiry == t.history[i].at + cfg.trippedPeriod
  {
    EndCases(cfg, s, step);
    if s.core.state.Tripped? {
      var i :| LastTrip(s.history, i) && s.core.expiry == s.history[i].at + cfg.trippedPeriod;
      assert LastTrip(t.history, i);
    } else {
      assert LastTrip(t.history, |s.history| + 1);
    }
  }

  lemma PeriodsKeptByEnd(cfg: Config, s: Sys, step: Step)
    requires Books(s) && Periods(cfg, s) && Enabled(s, step) && step.End?
    ensures Periods(cfg, Apply(cfg, s, step))
  {
    var t := Apply(cfg, s, step);
    NewEpochIsEmpty(s);
    NoAdmitYet(s, s.epoch + 1);
    NextNumber(s.epoch);
    EndCases(cfg, s, step);
    if t.core.state.Tripped? { TripIsLast(cfg, s, step, t); }
  }

  lemma AlternatingKept(cfg: Config, s: Sys, step: Step)
    requires Books(s) && Alternating(s) && Enabled(s, step)
    ensures Alternating(Apply(cfg, s, step))
  {
    RefreshCases(cfg, s, step.now);
    if step.End? { EndCases(cfg, s, step); }
  }

  lemma SmallInc32(n: nat)
    requires n + 1 < UINT32
    ensures Inc32(n % UINT32) == n + 1
  {}

  lemma NextSuccessCount(cfg: Config, s: Sys)
    requires cfg.Valid() && Tallied(s) && NotYetRecovered(cfg, s) && s.core.state.Recovering?
    ensures WithSuccess(s.core.metrics).consecutiveSuccesses == Streak(Outcomes(s.history, s.epoch), true) + 1
  {
    SmallInc32(Streak(Outcomes(s.history, s.epoch), true));
  }

  lemma StreakStaysShort(cfg: Config, s: Sys, ok: bool)
    requires cfg.Valid() && Tallied(s) && NotYetRecovered(cfg, s) && s.core.state.Recovering?
    requires ok ==> WithSuccess(s.core.metrics).consecutiveSuccesses < cfg.recoveryLimit
    ensures var os := Outcomes(s.history, s.epoch) + [ok];
      !HasWindow(os, true, cfg.recoveryLimit) && Streak(os, true) < cfg.recoveryLimit
  {
    var os := Outcomes(s.history, s.epoch);
    NextSuccessCount(cfg, s);
    CountSnoc(os, ok, true);
    WindowSnoc(os, ok, true, cfg.recoveryLimit);
  }

  lemma NotYetRecoveredKept(cfg: Config, s: Sys, step: Step)
    requires cfg.Valid() && Books(s) && Tallied(s) && NotYetRecovered(cfg, s) && Enabled(s, step)
    ensures NotYetRecovered(cfg, Apply(cfg, s, step))
  {
    var t := Apply(cfg, s, step);
    if step.Begin? {
      HistoryGrows(cfg, s, step, t.epoch);
      NewEpochIsEmpty(s);
      RefreshCases(cfg, s, step.now);
    } else {
      EndShape(cfg, s, step);
      EndOutcomes(cfg, s, step);
      if t.epoch == s.epoch && CountedEnd(cfg, s, step, t) && s.core.state.Recovering? {
        StreakStaysShort(cfg, s, step.ok);
      }
    }
  }

  lemma InvKept(cfg: Config, s: Sys, step: Step)
    requires Inv(cfg, s) && Enabled(s, step)
    ensures Inv(cfg, Apply(cfg, s, step))
  {
    NumberedKept(cfg, s, step);
    LedgerKept(cfg, s, step);
    if step.Begin? { TalliedKeptByBegin(cfg, s, step); } else {
      EndShape(cfg, s, step);
      EndOutcomes(cfg, s, step);
      TalliedAfterEnd(cfg, s, step, Apply(cfg, s, step));
    }
    ExpiriesKept(cfg, s, step);
    TrippedIdleKept(cfg, s, step);
    if step.Begin? { WindowsKeptByBegin(cfg, s, step); } else { WindowsKeptByEnd(cfg, s, step); }
    if step.Begin? { PeriodsKeptByBegin(cfg, s, step); } else { PeriodsKeptByEnd(cfg, s, step); }
    AlternatingKept(cfg, s, step);
    NotYetRecoveredKept(cfg, s, step);
  }

  lemma StartInv(cfg: Config, now: nat)
    requires cfg.Valid()
    ensures Inv(cfg, Start(cfg, now))
  {
    assert Tally(0, []) == NO_METRICS;
  }

  lemma {:induction false} RunKeepsInv(cfg: Config, s: Sys, steps: seq<Step>, t: Sys)
    requires Inv(cfg, s) && Run(cfg, s, steps, t)
    ensures Inv(cfg, t)
    decreases |steps|
  {
    if steps != [] {
      InvKept(cfg, s, steps[0]);
      RunKeepsInv(cfg, Apply(cfg, s, steps[0]), steps[1..], t);
    }
  }

  lemma ReachableInv(cfg: Config, now: nat, steps: seq<Step>, s: Sys)
    requires Reachable(cfg, now, steps, s)
    ensures Inv(cfg, s)
  {
    StartInv(cfg, now);
    RunKeepsInv(cfg, Start(cfg, now), steps, s);
  }

  // ---------- Conservation and the log ----------

  lemma SumMod(a: nat, b: nat, c: nat)
    ensures (a % UINT32 + b % UINT32 + c) % UINT32 == (a + b + c) % UINT32
  {}

  /** In every reachable state: executions = successes + failures + executions in flight, as uint32. */
  lemma Conservation(cfg: Config, now: nat, steps: seq<Step>, s: Sys)
    requires Reachable(cfg, now, steps, s)
    ensures var m := s.core.metrics;
      m.executions == (m.successes + m.failures + s.inFlight[s.epoch]) % UINT32
    ensures Admissions(s.history, s.epoch) == |Outcomes(s.history, s.epoch)| + s.inFlight[s.epoch]
  {
    ReachableInv(cfg, now, steps, s);
    var os := Outcomes(s.history, s.epoch);
    CountsAddUp(os);
    SumMod(Count(os, true), Count(os, false), s.inFlight[s.epoch]);
  }

  /** All five counters are a fold of the current generation's log. */
  lemma TalliesRefineLog(cfg: Config, now: nat, steps: seq<Step>, s: Sys)
    requires Reachable(cfg, now, steps, s)
    ensures s.core.metrics == Tally(Admissions(s.history, s.epoch), Outcomes(s.history, s.epoch))
  {
    ReachableInv(cfg, now, steps, s);
  }

  /**
   Completing an execution of an older generation, or of one that the clock has just ended, does
   what looking at the clock does, and no more.
   */
  lemma StaleChangesNothing(cfg: Config, now: nat, steps: seq<Step>, s: Sys, step: Step)
    requires Reachable(cfg, now, steps, s) && Enabled(s, step) && step.End?
    requires step.epoch != s.epoch || CurrentState(cfg, s.core, step.now) != s.core
    ensures var t := Apply(cfg, s, step);
      && t.core == CurrentState(cfg, s.core, step.now)
      && t.trippedFires == s.trippedFires && t.standbyFires == s.standbyFires
      && forall e: nat :: Outcomes(t.history, e) == Outcomes(s.history, e)
  {
    ReachableInv(cfg, now, steps, s);
    CurrentMeansSameEpoch(cfg, s, step.epoch, step.now);
    RefreshCases(cfg, s, step.now);
    EndCases(cfg, s, step);
    forall e: nat ensures Outcomes(Apply(cfg, s, step).history, e) == Outcomes(s.history, e) {
      HistoryGrows(cfg, s, step, e);
    }
  }

  // ---------- Recovery ----------

  lemma RecoveryStep(cfg: Config, s: Sys, step: Step)
    requires cfg.Valid() && Books(s) && Tallied(s) && NotYetRecovered(cfg, s) && s.core.state.Recovering?
    requires Enabled(s, step) && step.End? && step.epoch == s.epoch
    ensures Apply(cfg, s, step).core.state.Standby?
        <==> step.ok && Streak(Outcomes(s.history, s.epoch), true) + 1 >= cfg.recoveryLimit
  {
    CurrentMeansSameEpoch(cfg, s, step.epoch, step.now);
    EndCases(cfg, s, step);
    NextSuccessCount(cfg, s);
    OutcomeWhileRecovering(cfg, s.core, step.ok, step.now);
  }

  lemma OutcomeWhileRecovering(cfg: Config, c: Core, ok: bool, now: nat)
    requires c.state.Recovering?
    ensures (if ok then Succeed(cfg, c, now) else Fail(cfg, c, now)).0.state.Standby?
        <==> ok && WithSuccess(c.metrics).consecutiveSuccesses >= cfg.recoveryLimit
  {}

  /** While Recovering, a step whose outcome is not counted leaves the state alone. */
  lemma UncountedStaysRecovering(cfg: Config, s: Sys, step: Step)
    requires Books(s) && s.core.state.Recovering? && Enabled(s, step)
    requires step.Begin? || step.epoch != s.epoch
    ensures Apply(cfg, s, step).core.state.Recovering?
  {
    if step.End? {
      CurrentMeansSameEpoch(cfg, s, step.epoch, step.now);
      EndCases(cfg, s, step);
    }
  }

  /**
   Over all steps, Recovering ends in Standby exactly when the last RecoveryLimit outcomes are, for
   the first time, all successes.
   */
  lemma RecoversExactly(cfg: Config, now: nat, steps: seq<Step>, s: Sys, step: Step)
    requires Reachable(cfg, now, steps, s) && s.core.state.Recovering? && Enabled(s, step)
    ensures !HasWindow(Outcomes(s.history, s.epoch), true, cfg.recoveryLimit)
    ensures Apply(cfg, s, step).core.state.Standby?
        <==> && step.End? && step.epoch == s.epoch
             && HasWindow(Outcomes(s.history, s.epoch) + [step.ok], true, cfg.recoveryLimit)
  {
    ReachableInv(cfg, now, steps, s);
    if step.End? && step.epoch == s.epoch {
      RecoveryStep(cfg, s, step);
      var os := Outcomes(s.history, s.epoch);
      CountSnoc(os, step.ok, true);
      WindowSnoc(os, step.ok, true, cfg.recoveryLimit);
    } else {
      UncountedStaysRecovering(cfg, s, step);
    }
  }

  // ---------- The tripped window ----------

  /** After a trip at time t nothing is admitted until a reading strictly after t + TrippedPeriod. */
  lemma TrippedWindow(cfg: Config, now: nat, steps: seq<Step>, s: Sys, i: nat, j: nat)
    requires Reachable(cfg, now, steps, s)
    requires i < j < |s.history| && s.history[i].Trip? && s.history[j].Admit?
    ensures s.history[i].at + cfg.trippedPeriod < s.history[j].at
  {
    ReachableInv(cfg, now, steps, s);
  }

  /** While Tripped, the next execution is admitted exactly if its reading is past the period of the last trip. */
  lemma TrippedEndsOnTime(cfg: Config, now: nat, steps: seq<Step>, s: Sys, step: Step, i: nat)
    requires Reachable(cfg, now, steps, s) && s.core.state.Tripped? && LastTrip(s.history, i)
    requires Enabled(s, step) && step.Begin?
    ensures var t := Apply(cfg, s, step);
      if s.history[i].at + cfg.trippedPeriod < step.now
      then t.core.state.Recovering? && t.history == s.history + [Admit(t.epoch, step.now)]
      else t.core.state.Tripped? && t.history == s.history
  {
    ReachableInv(cfg, now, steps, s);
  }

  /** A Standby generation only tallies executions admitted within one Interval. */
  lemma StandbyCountsOneInterval(cfg: Config, now: nat, steps: seq<Step>, s: Sys, i: nat, j: nat)
    requires Reachable(cfg, now, steps, s) && s.core.state.Standby? && i < |s.history| && j < |s.history|
    requires s.history[i].Admit? && s.history[i].epoch == s.epoch
    requires s.history[j].Admit? && s.history[j].epoch == s.epoch
    ensures s.history[j].at - s.history[i].at <= cfg.interval
  {
    ReachableInv(cfg, now, steps, s);
  }

  /** The reading that opened the generation a run ends in, `since` being that of its first state. */
  ghost function OpenedAt(cfg: Config, s: Sys, steps: seq<Step>, since: nat): nat
    decreases |steps|
  {
    if steps == [] then since
    else
      var t := Apply(cfg, s, steps[0]);
      OpenedAt(cfg, t, steps[1..], if t.epoch == s.epoch then since else steps[0].now)
  }

  /** A generation opened at this reading lasts an Interval, a TrippedPeriod, or until it recovers. */
  predicate Lasts(cfg: Config, c: Core, since: nat) {
    c.expiry == match c.state
                case Standby => since + cfg.interval
                case Tripped => since + cfg.trippedPeriod
                case Recovering => ZERO_TIME
  }

  lemma RefreshLasts(cfg: Config, s: Sys, since: nat, now: nat)
    requires Numbered(s) && Lasts(cfg, s.core, since)
    ensures var d := CurrentState(cfg, s.core, now);
      Lasts(cfg, d, if d.generation == s.core.generation then since else now)
  {
    NextNumber(s.epoch);
  }

  lemma OutcomeLasts(cfg: Config, s: Sys, since: nat, ok: bool, now: nat)
    requires Numbered(s) && Lasts(cfg, s.core, since) && !s.core.state.Tripped?
    ensures var d := (if ok then Succeed(cfg, s.core, now) else Fail(cfg, s.core, now)).0;
      Lasts(cfg, d, if d.generation == s.core.generation then since else now)
  {
    NextNumber(s.epoch);
  }

  lemma LastsKept(cfg: Config, s: Sys, step: Step, since: nat)
    requires Books(s) && Enabled(s, step) && Lasts(cfg, s.core, since)
    ensures var t := Apply(cfg, s, step); Lasts(cfg, t.core, if t.epoch == s.epoch then since else step.now)
  {
    RefreshLasts(cfg, s, since, step.now);
    if step.End? {
      EndCases(cfg, s, step);
      if Completion(cfg, s, step).Outcome? { OutcomeLasts(cfg, s, since, step.ok, step.now); }
    }
  }

  lemma {:induction false} RunLasts(cfg: Config, s: Sys, steps: seq<Step>, t: Sys, since: nat)
    requires Inv(cfg, s) && Run(cfg, s, steps, t) && Lasts(cfg, s.core, since)
    ensures Lasts(cfg, t.core, OpenedAt(cfg, s, steps, since))
    decreases |steps|
  {
    if steps != [] {
      var u := Apply(cfg, s, steps[0]);
      InvKept(cfg, s, steps[0]);
      LastsKept(cfg, s, steps[0], since);
      RunLasts(cfg, u, steps[1..], t, if u.epoch == s.epoch then since else steps[0].now);
    }
  }

  /** Every generation expires exactly its own period after the reading that opened it. */
  lemma ExpiryIsExact(cfg: Config, now: nat, steps: seq<Step>, s: Sys, since: nat)
    requires Reachable(cfg, now, steps, s) && since == OpenedAt(cfg, Start(cfg, now), steps, now)
    ensures s.core.state.Standby? ==> s.core.expiry == since + cfg.interval
    ensures s.core.state.Tripped? ==> s.core.expiry == since + cfg.trippedPeriod
    ensures s.core.state.Recovering? ==> s.core.expiry == ZERO_TIME
  {
    StartInv(cfg, now);
    RunLasts(cfg, Start(cfg, now), steps, s, now);
  }

  /** In Standby an execution starts a new count exactly if its reading is past the Interval of this one. */
  lemma StandbyRenewsExactly(cfg: Config, now: nat, steps: seq<Step>, s: Sys, step: Step, since: nat)
    requires Reachable(cfg, now, steps, s) && since == OpenedAt(cfg, Start(cfg, now), steps, now)
    requires s.core.state.Standby? && Enabled(s, step) && step.Begin?
    ensures var t := Apply(cfg, s, step);
      && t.core.state.Standby? && t.epoch == (if since + cfg.interval < step.now then s.epoch + 1 else s.epoch)
      && t.core.metrics == WithExecution(if since + cfg.interval < step.now then NO_METRICS else s.core.metrics)
  {
    ReachableInv(cfg, now, steps, s);
    ExpiryIsExact(cfg, now, steps, s, since);
    NextNumber(s.epoch);
  }

  /** While Tripped no running execution has the current generation, so no outcome is counted then. */
  lemma NoTokenFromTripped(cfg: Config, now: nat, steps: seq<Step>, s: Sys, e: nat, at: nat)
    requires Reachable(cfg, now, steps, s) && e in s.inFlight && Prompt(s)
    ensures s.core.state.Tripped? ==> e != s.epoch
    ensures IsCurrent(cfg, s, e, at) ==> !CurrentState(cfg, s.core, at).state.Tripped?
  {
    ReachableInv(cfg, now, steps, s);
    CurrentMeansSameEpoch(cfg, s, e, at);
  }

  // ---------- Callbacks and transitions ----------

  /** OnTripped and OnStandBy alternate, starting with OnTripped. */
  lemma CallbacksAlternate(cfg: Config, now: nat, steps: seq<Step>, s: Sys)
    requires Reachable(cfg, now, steps, s)
    ensures s.trippedFires - s.standbyFires == (if s.core.state.Standby? then 0 else 1)
  {
    ReachableInv(cfg, now, steps, s);
  }

  /** Standby never goes straight to Recovering, Tripped never straight to Standby; every move opens a generation. */
  lemma LegalMoves(cfg: Config, now: nat, steps: seq<Step>, s: Sys, step: Step)
    requires Reachable(cfg, now, steps, s) && Enabled(s, step)
    ensures var t := Apply(cfg, s, step);
      && (s.core.state.Standby? ==> !t.core.state.Recovering?)
      && (s.core.state.Tripped? ==> !t.core.state.Standby?)
      && (s.core.state != t.core.state ==> t.epoch == s.epoch + 1)
      && (s.core.state.Tripped? && !t.core.state.Tripped? ==> s.core.expiry < step.now)
  {
    ReachableInv(cfg, now, steps, s);
    NextNumber(s.epoch);
    RefreshCases(cfg, s, step.now);
    if step.End? { EndCases(cfg, s, step); }
  }

  // ---------- Trip functions ----------

  /** The function that decides on a counted failure: Trip in Standby, Recover while Recovering. */
  function Decides(cfg: Config, c: Core): Metrics -> bool {
    if c.state.Standby? then cfg.trip else cfg.recover
  }

  /** The step reports a failure that the current generation counts. */
  predicate CountedFailure(s: Sys, step: Step) {
    step.End? && step.epoch == s.epoch && !step.ok && (s.core.state.Standby? ==> step.now <= s.core.expiry)
  }

  lemma OutcomeTrips(cfg: Config, c: Core, ok: bool, now: nat)
    requires !c.state.Tripped?
    ensures (if ok then Succeed(cfg, c, now) else Fail(cfg, c, now)).0.state.Tripped?
        <==> !ok && Decides(cfg, c)(WithFailure(c.metrics))
  {}

  lemma BeginDoesNotTrip(cfg: Config, s: Sys, step: Step)
    requires Numbered(s) && !s.core.state.Tripped? && step.Begin?
    ensures !Apply(cfg, s, step).core.state.Tripped?
  {
    RefreshCases(cfg, s, step.now);
  }

  /** Over all steps, the breaker trips exactly on a counted failure that the deciding function takes badly. */
  lemma TripsIff(cfg: Config, s: Sys, step: Step)
    requires Books(s) && Expiries(s) && !s.core.state.Tripped? && Enabled(s, step)
    ensures Apply(cfg, s, step).core.state.Tripped?
        <==> CountedFailure(s, step) && Decides(cfg, s.core)(WithFailure(s.core.metrics))
  {
    if step.Begin? {
      BeginDoesNotTrip(cfg, s, step);
    } else {
      CurrentMeansSameEpoch(cfg, s, step.epoch, step.now);
      RefreshCases(cfg, s, step.now);
      EndCases(cfg, s, step);
      OutcomeTrips(cfg, s.core, step.ok, step.now);
    }
  }

  /** With the consecutive-failure tripper, Standby holds no run of more than `max` failures. */
  ghost predicate NotYetTripped(s: Sys, max: nat) {
    var os := Outcomes(s.history, s.epoch);
    s.core.state.Standby? ==> !HasWindow(os, false, max + 1) && Streak(os, false) <= max
  }

  lemma NextFailureCount(s: Sys, max: nat)
    requires Tallied(s) && NotYetTripped(s, max) && s.core.state.Standby? && max + 1 < UINT32
    ensures WithFailure(s.core.metrics).consecutiveFailures == Streak(Outcomes(s.history, s.epoch), false) + 1
  {
    SmallInc32(Streak(Outcomes(s.history, s.epoch), false));
  }

  /** The failure that is one too many is the one that completes a run of max + 1. */
  lemma OneTooMany(s: Sys, max: nat, ok: bool)
    requires Tallied(s) && NotYetTripped(s, max) && s.core.state.Standby? && max + 1 < UINT32
    ensures var os := Outcomes(s.history, s.epoch);
      && (HasWindow(os + [ok], false, max + 1) <==>
            !ok && ConsecutiveFailureTripper(max)(WithFailure(s.core.metrics)))
      && (!HasWindow(os + [ok], false, max + 1) ==> Streak(os + [ok], false) <= max)
  {
    var os := Outcomes(s.history, s.epoch);
    NextFailureCount(s, max);
    CountSnoc(os, ok, false);
    WindowSnoc(os, ok, false, max + 1);
  }

  lemma NotYetTrippedByBegin(cfg: Config, max: nat, s: Sys, step: Step)
    requires Books(s) && Enabled(s, step) && step.Begin? && NotYetTripped(s, max)
    ensures NotYetTripped(Apply(cfg, s, step), max)
  {
    var t := Apply(cfg, s, step);
    NewEpochIsEmpty(s);
    HistoryGrows(cfg, s, step, t.epoch);
    RefreshCases(cfg, s, step.now);
  }

  lemma NotYetTrippedByEnd(cfg: Config, max: nat, s: Sys, step: Step)
    requires Books(s) && Tallied(s) && Expiries(s) && Enabled(s, step) && step.End? && NotYetTripped(s, max)
    requires cfg.trip == ConsecutiveFailureTripper(max) && max + 1 < UINT32
    ensures NotYetTripped(Apply(cfg, s, step), max)
  {
    var t := Apply(cfg, s, step);
    EndShape(cfg, s, step);
    EndOutcomes(cfg, s, step);
    if t.epoch == s.epoch && CountedEnd(cfg, s, step, t) && s.core.state.Standby? {
      TripsIff(cfg, s, step);
      OneTooMany(s, max, step.ok);
    }
  }

  lemma {:induction false} RunNotYetTripped(cfg: Config, max: nat, s: Sys, steps: seq<Step>, t: Sys)
    requires Inv(cfg, s) && NotYetTripped(s, max) && Run(cfg, s, steps, t)
    requires cfg.trip == ConsecutiveFailureTripper(max) && max + 1 < UINT32
    ensures NotYetTripped(t, max)
    decreases |steps|
  {
    if steps != [] {
      InvKept(cfg, s, steps[0]);
      if steps[0].Begin? {
        NotYetTrippedByBegin(cfg, max, s, steps[0]);
      } else {
        NotYetTrippedByEnd(cfg, max, s, steps[0]);
      }
      RunNotYetTripped(cfg, max, Apply(cfg, s, steps[0]), steps[1..], t);
    }
  }

  lemma ReachableNotYetTripped(cfg: Config, max: nat, now: nat, steps: seq<Step>, s: Sys)
    requires Reachable(cfg, now, steps, s) && cfg.trip == ConsecutiveFailureTripper(max) && max + 1 < UINT32
    ensures NotYetTripped(s, max)
  {
    StartInv(cfg, now);
    RunNotYetTripped(cfg, max, Start(cfg, now), steps, s);
  }

  /**
   Over all steps, the consecutive-failure tripper trips Standby exactly on the first run of max + 1
   failures within a generation; never, if max is the largest value the 32-bit count can have.
   */
  lemma TripsExactly(cfg: Config, max: nat, now: nat, steps: seq<Step>, s: Sys, step: Step)
    requires Reachable(cfg, now, steps, s) && s.core.state.Standby? && Enabled(s, step)
    requires cfg.trip == ConsecutiveFailureTripper(max) && max < UINT32
    ensures max + 1 < UINT32 ==> !HasWindow(Outcomes(s.history, s.epoch), false, max + 1)
    ensures Apply(cfg, s, step).core.state.Tripped?
        <==> && step.End? && step.epoch == s.epoch && step.now <= s.core.expiry
             && max + 1 < UINT32 && HasWindow(Outcomes(s.history, s.epoch) + [step.ok], false, max + 1)
  {
    ReachableInv(cfg, now, steps, s);
    TripsIff(cfg, s, step);
    if max + 1 < UINT32 {
      ReachableNotYetTripped(cfg, max, now, steps, s);
      if step.End? { OneTooMany(s, max, step.ok); }
    }
  }

  lemma QuotientAtLeast(f: real, n: real, ratio: real)
    requires n > 0.0
    ensures f / n >= ratio <==> f >= ratio * n
  {
    var q := f / n;
    assert f == q * n;
    assert (q - ratio) * n == f - ratio * n;
  }

  lemma RatioOnCounts(ratio: real, least: nat, m: Metrics, failures: nat, executions: nat)
    requires m.failures == failures && m.executions == executions > 0
    ensures RatioTripper(ratio, least)(m)
        <==> executions >= least && failures as real >= ratio * executions as real
  {
    QuotientAtLeast(failures as real, executions as real, ratio);
  }

  lemma UnwrappedCounts(cfg: Config, now: nat, steps: seq<Step>, s: Sys, admitted: nat)
    requires Reachable(cfg, now, steps, s)
    requires admitted == |Outcomes(s.history, s.epoch)| + s.inFlight[s.epoch] < UINT32
    ensures s.core.metrics.executions == admitted
    ensures s.core.metrics.failures == Count(Outcomes(s.history, s.epoch), false) <= |Outcomes(s.history, s.epoch)|
  {
    Conservation(cfg, now, steps, s);
    TalliesRefineLog(cfg, now, steps, s);
    CountsAddUp(Outcomes(s.history, s.epoch));
  }

  lemma RatioAfterFailure(m: Metrics, ratio: real, least: nat, failed: nat, admitted: nat)
    requires m.failures == failed && m.executions == admitted && failed < admitted < UINT32
    ensures RatioTripper(ratio, least)(WithFailure(m))
        <==> admitted >= least && (failed + 1) as real >= ratio * admitted as real
  {
    RatioOnCounts(ratio, least, WithFailure(m), failed + 1, admitted);
  }

  /**
   Over all steps, the ratio tripper, as Trip in Standby or as Recover while Recovering, trips exactly
   on a counted failure that brings the failures to the given share of everything admitted in the
   generation, executions still running included, once enough have been admitted.
   */
  lemma RatioTripsExactly(cfg: Config, now: nat, steps: seq<Step>, s: Sys, step: Step,
                          ratio: real, least: nat, failed: nat, admitted: nat)
    requires Reachable(cfg, now, steps, s) && !s.core.state.Tripped? && Enabled(s, step)
    requires Decides(cfg, s.core) == RatioTripper(ratio, least)
    requires failed == Count(Outcomes(s.history, s.epoch), false)
    requires admitted == |Outcomes(s.history, s.epoch)| + s.inFlight[s.epoch] < UINT32
    ensures Apply(cfg, s, step).core.state.Tripped?
        <==> CountedFailure(s, step) && admitted >= least && (failed + 1) as real >= ratio * admitted as real
  {
    ReachableInv(cfg, now, steps, s);
    TripsIff(cfg, s, step);
    UnwrappedCounts(cfg, now, steps, s, admitted);
    if CountedFailure(s, step) {
      assert s.inFlight[s.epoch] > 0;
      RatioAfterFailure(s.core.metrics, ratio, least, failed, admitted);
    }
  }

  /** Generations open at most once a step, so runs shorter than 2^64 - 2 steps are always prompt. */
  lemma {:induction false} EpochGrowsSlowly(cfg: Config, s: Sys, steps: seq<Step>, t: Sys)
    requires Inv(cfg, s) && Run(cfg, s, steps, t)
    ensures s.epoch <= t.epoch <= s.epoch + |steps|
    ensures t.epoch < UINT64 - 1 ==> Prompt(t)
    decreases |steps|
  {
    if steps != [] {
      NumberedKept(cfg, s, steps[0]);
      InvKept(cfg, s, steps[0]);
      EpochGrowsSlowly(cfg, Apply(cfg, s, steps[0]), steps[1..], t);
    }
  }
}
