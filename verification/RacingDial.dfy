/**
 The racing dial of the API client: `connect` in api/client/client.go.

 One spawner goroutine walks the plan of attempts and starts dial workers, a waiter closes
 the error channel when the wait group drains, the main goroutine selects between the client
 channel and the error channel, and a drainer takes over the error channel once a client has
 won.  All channels are unbuffered, so a send and its receive are one step.  The caller's
 context may be cancelled at any point.
 */
module RacingDial {

  // ---------- State ----------

  /** One thing the spawner does: send a credential error, or start a dial worker. */
  datatype Attempt = Report | Dial(via: Route)

  datatype Route =
    | ConfigDialer(creds: nat)
    | CredsDialer(creds: nat)
    | Auth(creds: nat, addr: string)
    | Proxy(creds: nat, addr: string)
    | Tunnel(creds: nat, addr: string)
    | TlsRouting(creds: nat, addr: string)

  /** What `connect` works on: the plan, and whether the config names any address or dialer. */
  datatype Job = Job(plan: seq<Attempt>, hasTargets: bool)

  datatype Fate = Failed | HandedOver | Abandoned

  datatype Worker =
    | Dialing          // inside the connect function
    | Reporting        // blocked sending its error
    | Offering         // blocked in the select on cltChan and ctx.Done
    | Closing          // took the ctx.Done branch, about to close its client
    | Leaving(fate: Fate)   // about to run the deferred wg.Done
    | Gone(fate: Fate)

  datatype Waiter = Waiting | Woken | Finished

  datatype Source = FromPlan(step: nat) | FromWorker(id: nat)

  datatype Outcome =
    | Connected(client: nat)
    | NeedDialerOrAddrs
    | NoMethods
    | AllFailed(errs: seq<Source>, ctxErr: bool)

  datatype MainPhase = Selecting | Won(client: nat) | Lost | Returned(outcome: Outcome)

  datatype Drainer = Idle | Draining | Stopped

  datatype State = State(
    pc: nat,                 // next step of the plan
    spawning: bool,          // the spawner has not yet run its wg.Done
    workers: seq<Worker>,
    wg: int,                 // wait group counter
    waiter: Waiter,
    errClosed: bool,
    callerCancelled: bool,   // the caller's context
    cancelled: bool,         // the derived context
    main: MainPhase,
    drainer: Drainer,
    errs: seq<Source>,       // errors collected by the main loop
    drained: seq<Source>,    // errors thrown away by the drainer
    open: set<nat>)          // clients dialled and not closed, by worker

  function Init(): State {
    State(0, true, [], 1, Waiting, false, false, false, Selecting, Idle, [], [], {})
  }

  // ---------- Steps ----------

  datatype Step =
    | CancelByCaller
    | StartWorker
    | SpawnerReports
    | SpawnerLeaves
    | DialFails(id: nat)
    | DialSucceeds(id: nat)
    | WorkerReports(id: nat)
    | HandOver(id: nat)
    | SeeCancel(id: nat)
    | CloseClient(id: nat)
    | WorkerLeaves(id: nat)
    | WakeWaiter
    | CloseErrChan
    | MainSeesClosed
    | MainReturns
    | DrainerStops

  predicate WorkerIs(s: State, id: nat, w: Worker) {
    id < |s.workers| && s.workers[id] == w
  }

  /** Some goroutine is ready to receive on the error channel. */
  predicate ErrReceiver(s: State) {
    s.main.Selecting? || s.drainer.Draining?
  }

  predicate SpawnerAt(job: Job, s: State, report: bool) {
    s.spawning && s.pc < |job.plan| && job.plan[s.pc].Report? == report
  }

  predicate Enabled(job: Job, s: State, step: Step) {
    match step
    case CancelByCaller => !s.callerCancelled
    case StartWorker => SpawnerAt(job, s, false)
    case SpawnerReports => SpawnerAt(job, s, true) && !s.errClosed && ErrReceiver(s)
    case SpawnerLeaves => s.spawning && s.pc == |job.plan|
    case DialFails(id) => WorkerIs(s, id, Dialing)
    case DialSucceeds(id) => WorkerIs(s, id, Dialing)
    case WorkerReports(id) => WorkerIs(s, id, Reporting) && !s.errClosed && ErrReceiver(s)
    case HandOver(id) => WorkerIs(s, id, Offering) && s.main.Selecting?
    case SeeCancel(id) => WorkerIs(s, id, Offering) && s.cancelled
    case CloseClient(id) => WorkerIs(s, id, Closing)
    case WorkerLeaves(id) => id < |s.workers| && s.workers[id].Leaving?
    case WakeWaiter => s.waiter.Waiting? && s.wg == 0
    case CloseErrChan => s.waiter.Woken?
    case MainSeesClosed => s.main.Selecting? && s.errClosed
    case MainReturns => s.main.Won? || s.main.Lost?
    case DrainerStops => s.drainer.Draining? && s.errClosed
  }

  function Move(s: State, id: nat, w: Worker): State
    requires id < |s.workers|
  {
    s.(workers := s.workers[id := w])
  }

  /** The main loop keeps the error; the drainer drops it. */
  function Receive(s: State, from: Source): State {
    if s.main.Selecting? then s.(errs := s.errs + [from]) else s.(drained := s.drained + [from])
  }

  function Result(job: Job, s: State): Outcome {
    if s.main.Won? then Connected(s.main.client)
    else if s.errs != [] then AllFailed(s.errs, s.cancelled)
    else if !job.hasTargets then NeedDialerOrAddrs
    else NoMethods
  }

  function Apply(job: Job, s: State, step: Step): State
    requires Enabled(job, s, step)
  {
    match step
    case CancelByCaller => s.(callerCancelled := true, cancelled := true)
    case StartWorker => s.(pc := s.pc + 1, workers := s.workers + [Dialing], wg := s.wg + 1)
    case SpawnerReports => Receive(s, FromPlan(s.pc)).(pc := s.pc + 1)
    case SpawnerLeaves => s.(spawning := false, wg := s.wg - 1)
    case DialFails(id) => Move(s, id, Reporting)
    case DialSucceeds(id) => Move(s, id, Offering).(open := s.open + {id})
    case WorkerReports(id) => Move(Receive(s, FromWorker(id)), id, Leaving(Failed))
    case HandOver(id) => Move(s, id, Leaving(HandedOver)).(main := Won(id), drainer := Draining)
    case SeeCancel(id) => Move(s, id, Closing)
    case CloseClient(id) => Move(s, id, Leaving(Abandoned)).(open := s.open - {id})
    case WorkerLeaves(id) => Move(s, id, Gone(s.workers[id].fate)).(wg := s.wg - 1)
    case WakeWaiter => s.(waiter := Woken)
    case CloseErrChan => s.(waiter := Finished, errClosed := true)
    case MainSeesClosed => s.(main := Lost)
    case MainReturns => s.(main := Returned(Result(job, s)), cancelled := true)
    case DrainerStops => s.(drainer := Stopped)
  }

  /** The state after a sequence of steps, if every one of them was possible. */
  datatype Reach = Stuck | Reached(state: State)

  function After(job: Job, s: State, steps: seq<Step>): Reach
    decreases |steps|
  {
    if steps == [] then Reached(s)
    else if Enabled(job, s, steps[0]) then After(job, Apply(job, s, steps[0]), steps[1..])
    else Stuck
  }

  /** Every state of every run: `connect` has got this far under some interleaving. */
  ghost predicate Reachable(job: Job, steps: seq<Step>, s: State) {
    After(job, Init(), steps) == Reached(s)
  }

  // ---------- Counting workers ----------

  function Live(w: Worker): nat { if w.Gone? then 0 else 1 }

  function Rank(w: Worker): nat {
    match w
    case Dialing => 4
    case Offering => 3
    case Closing => 2
    case Reporting => 2
    case Leaving(_) => 1
    case Gone(_) => 0
  }

  function Sum(ws: seq<Worker>, f: Worker -> nat): nat {
    if ws == [] then 0 else Sum(ws[..|ws| - 1], f) + f(ws[|ws| - 1])
  }

  lemma {:induction false} SumUpdate(ws: seq<Worker>, f: Worker -> nat, k: nat, w: Worker)
    requires k < |ws|
    ensures Sum(ws[k := w], f) == Sum(ws, f) - f(ws[k]) + f(w)
    ensures f(ws[k]) <= Sum(ws, f)
  {
    var n := |ws| - 1;
    if k < n {
      assert ws[k := w][..n] == ws[..n][k := w];
      SumUpdate(ws[..n], f, k, w);
    } else {
      assert ws[k := w][..n] == ws[..n];
    }
  }

  lemma {:induction false} SumZero(ws: seq<Worker>, f: Worker -> nat)
    ensures Sum(ws, f) == 0 <==> forall k :: 0 <= k < |ws| ==> f(ws[k]) == 0
  {
    if ws != [] {
      SumZero(ws[..|ws| - 1], f);
      assert ws == ws[..|ws| - 1] + [ws[|ws| - 1]];
    }
  }

  lemma SumAppend(ws: seq<Worker>, f: Worker -> nat, w: Worker)
    ensures Sum(ws + [w], f) == Sum(ws, f) + f(w)
  {
    assert (ws + [w])[..|ws|] == ws;
  }

  predicate MovesWorker(step: Step) {
    step.DialFails? || step.DialSucceeds? || step.WorkerReports? || step.HandOver?
    || step.SeeCancel? || step.CloseClient? || step.WorkerLeaves?
  }

  // ---------- The invariant ----------

  predicate HoldsClient(w: Worker) {
    w.Offering? || w.Closing? || w == Leaving(HandedOver) || w == Gone(HandedOver)
  }

  predicate PastReport(w: Worker) {
    w == Leaving(Failed) || w == Gone(Failed)
  }

  predicate IsHandedOver(w: Worker) {
    w == Leaving(HandedOver) || w == Gone(HandedOver)
  }

  /** The wait group counts the live goroutines that can still send, so the channel closes last. */
  predicate Counted(job: Job, s: State) {
    && s.pc <= |job.plan|
    && (!s.spawning ==> s.pc == |job.plan|)
    && s.wg == Sum(s.workers, Live) + (if s.spawning then 1 else 0)
    && (s.waiter != Waiting ==> s.wg == 0)
    && s.errClosed == s.waiter.Finished?
  }

  /** At most one worker hands its client over, and that client is the one returned. */
  predicate OneWinner(s: State) {
    && (forall k :: 0 <= k < |s.workers| && IsHandedOver(s.workers[k]) ==>
          s.main == Won(k) || s.main == Returned(Connected(k)))
    && (s.main.Won? ==> s.main.client < |s.workers| && IsHandedOver(s.workers[s.main.client]))
    && (s.main.Returned? && s.main.outcome.Connected? ==>
          s.main.outcome.client < |s.workers| && IsHandedOver(s.workers[s.main.outcome.client]))
  }

  predicate LostRace(m: MainPhase) {
    m.Lost? || (m.Returned? && !m.outcome.Connected?)
  }

  /** Someone reads the error channel for as long as it is open. */
  predicate Settled(s: State) {
    && (s.drainer.Idle? <==> s.main.Selecting? || LostRace(s.main))
    && (s.drainer.Stopped? || LostRace(s.main) ==> s.errClosed)
  }

  predicate GaveUp(w: Worker) {
    w.Closing? || w == Leaving(Abandoned) || w == Gone(Abandoned)
  }

  /** A client is given up only because the caller cancelled or another client won. */
  predicate Cancels(s: State) {
    && s.cancelled == (s.callerCancelled || s.main.Returned?)
    && (forall k :: 0 <= k < |s.workers| && GaveUp(s.workers[k]) ==>
          s.callerCancelled || (s.main.Returned? && s.main.outcome.Connected?))
  }

  ghost predicate OpenClients(s: State) {
    forall k: nat :: k in s.open <==> k < |s.workers| && HoldsClient(s.workers[k])
  }

  /** A source has handed its error over. */
  predicate Reported(job: Job, s: State, src: Source) {
    match src
    case FromPlan(i) => i < s.pc && i < |job.plan| && job.plan[i].Report?
    case FromWorker(k) => k < |s.workers| && PastReport(s.workers[k])
  }

  predicate NoDuplicates(xs: seq<Source>) {
    forall i, j :: 0 <= i < j < |xs| ==> xs[i] != xs[j]
  }

  /** Every error handed over so far was received exactly once. */
  ghost predicate ErrorsKept(job: Job, s: State) {
    && NoDuplicates(s.errs + s.drained)
    && (forall src :: src in s.errs + s.drained <==> Reported(job, s, src))
  }

  /** What `connect` returned is what the main loop had collected. */
  predicate Faithful(job: Job, s: State) {
    && (s.drainer.Idle? ==> s.drained == [])
    && (s.main.Returned? ==>
          match s.main.outcome
          case Connected(_) => true
          case AllFailed(errs, ctxErr) => errs == s.errs && s.errs != [] && (ctxErr ==> s.callerCancelled)
          case NoMethods => s.errs == [] && job.hasTargets
          case NeedDialerOrAddrs => s.errs == [] && !job.hasTargets)
  }

  /** Workers are exactly the dials of the plan steps already taken. */
  function Dials(plan: seq<Attempt>): nat {
    if plan == [] then 0 else Dials(plan[..|plan| - 1]) + (if plan[|plan| - 1].Dial? then 1 else 0)
  }

  function ErrorsFrom(w: Worker): nat { if PastReport(w) then 1 else 0 }

  /** Errors received: one per reporting plan step, one per worker that failed. */
  predicate Tallied(s: State) {
    && |s.workers| <= s.pc
    && |s.errs| + |s.drained| == s.pc - |s.workers| + Sum(s.workers, ErrorsFrom)
  }

  ghost predicate Inv(job: Job, s: State) {
    && Counted(job, s)
    && Tallied(s)
    && |s.workers| == Dials(job.plan[..s.pc])
    && OneWinner(s)
    && Settled(s)
    && Cancels(s)
    && OpenClients(s)
    && ErrorsKept(job, s)
    && Faithful(job, s)
  }

  // ---------- Every step keeps the invariant ----------

  /** A worker goes on from s to t. */
  predicate WorkerGoesOn(job: Job, s: State, step: Step, t: State) {
    Enabled(job, s, step) && MovesWorker(step) && t == Apply(job, s, step)
  }

  /** Any other goroutine, or the caller, goes from s to t. */
  predicate OtherGoesOn(job: Job, s: State, step: Step, t: State) {
    Enabled(job, s, step) && !MovesWorker(step) && t == Apply(job, s, step)
  }

  // What a worker's step keeps.

  /** Worker k alone moves, and the counters follow it. */
  predicate OneMoves(s: State, t: State, k: nat) {
    && k < |s.workers| == |t.workers| && t.workers == s.workers[k := t.workers[k]]
    && t.pc == s.pc && t.spawning == s.spawning && t.waiter == s.waiter && t.errClosed == s.errClosed
    && t.wg == s.wg - Live(s.workers[k]) + Live(t.workers[k])
    && |t.errs| + |t.drained| == |s.errs| + |s.drained| - ErrorsFrom(s.workers[k]) + ErrorsFrom(t.workers[k])
    && !s.workers[k].Gone?
  }

  lemma WorkerMovesAlone(job: Job, s: State, step: Step, t: State)
    requires WorkerGoesOn(job, s, step, t)
    ensures OneMoves(s, t, step.id)
  {}

  lemma CountedByWorker(job: Job, s: State, t: State, k: nat)
    requires Counted(job, s) && OneMoves(s, t, k)
    ensures Counted(job, t)
  {
    SumUpdate(s.workers, Live, k, t.workers[k]);
  }

  lemma TalliedByWorker(s: State, t: State, k: nat)
    requires Tallied(s) && OneMoves(s, t, k)
    ensures Tallied(t)
  {
    SumUpdate(s.workers, ErrorsFrom, k, t.workers[k]);
  }

  lemma OneWinnerByWorker(job: Job, s: State, step: Step, t: State)
    requires OneWinner(s) && WorkerGoesOn(job, s, step, t)
    ensures OneWinner(t)
  {
    forall k | 0 <= k < |t.workers| && IsHandedOver(t.workers[k])
      ensures t.main == Won(k) || t.main == Returned(Connected(k))
    {
      HandedOverOnce(job, s, step, t, k);
    }
  }

  lemma HandedOverOnce(job: Job, s: State, step: Step, t: State, k: nat)
    requires OneWinner(s) && WorkerGoesOn(job, s, step, t) && k < |t.workers| && IsHandedOver(t.workers[k])
    ensures t.main == Won(k) || t.main == Returned(Connected(k))
  {}

  lemma SettledByWorker(job: Job, s: State, step: Step, t: State)
    requires Settled(s) && WorkerGoesOn(job, s, step, t)
    ensures Settled(t)
  {}

  lemma CancelsByWorker(job: Job, s: State, step: Step, t: State)
    requires Counted(job, s) && Settled(s) && Cancels(s) && WorkerGoesOn(job, s, step, t)
    ensures Cancels(t)
  {
    SumZero(s.workers, Live);
  }

  lemma OpenClientsByWorker(job: Job, s: State, step: Step, t: State)
    requires OpenClients(s) && WorkerGoesOn(job, s, step, t)
    ensures OpenClients(t)
  {}

  lemma FaithfulByWorker(job: Job, s: State, step: Step, t: State)
    requires Settled(s) && Faithful(job, s) && WorkerGoesOn(job, s, step, t)
    ensures Faithful(job, t)
  {}

  /** Only a reporting worker changes what has been reported or received. */
  lemma ReportedByWorker(job: Job, s: State, step: Step, t: State, src: Source)
    requires WorkerGoesOn(job, s, step, t)
    ensures Reported(job, t, src)
       <==> Reported(job, s, src) || (step.WorkerReports? && src == FromWorker(step.id))
  {}

  /** One error more, not reported before, is received. */
  lemma ErrorReceived(job: Job, s: State, t: State, src: Source)
    requires ErrorsKept(job, s) && t.errs + t.drained == s.errs + s.drained + [src] && !Reported(job, s, src)
    requires forall other :: Reported(job, t, other) <==> Reported(job, s, other) || other == src
    ensures ErrorsKept(job, t)
  {}

  lemma ErrorsByWorker(job: Job, s: State, step: Step, t: State)
    requires Settled(s) && Faithful(job, s) && ErrorsKept(job, s) && WorkerGoesOn(job, s, step, t)
    ensures ErrorsKept(job, t)
  {
    forall src
      ensures Reported(job, t, src)
         <==> Reported(job, s, src) || (step.WorkerReports? && src == FromWorker(step.id))
    {
      ReportedByWorker(job, s, step, t, src);
    }
    if step.WorkerReports? {
      ReceivedIsLast(s, FromWorker(step.id));
      ErrorReceived(job, s, t, FromWorker(step.id));
    }
  }

  lemma ReceivedIsLast(s: State, src: Source)
    requires s.main.Selecting? ==> s.drained == []
    ensures Receive(s, src).errs + Receive(s, src).drained == s.errs + s.drained + [src]
  {}

  lemma InvByWorker(job: Job, s: State, step: Step, t: State)
    requires Inv(job, s) && WorkerGoesOn(job, s, step, t)
    ensures Inv(job, t)
  {
    WorkerMovesAlone(job, s, step, t);
    CountedByWorker(job, s, t, step.id);
    TalliedByWorker(s, t, step.id);
    OneWinnerByWorker(job, s, step, t);
    SettledByWorker(job, s, step, t);
    CancelsByWorker(job, s, step, t);
    OpenClientsByWorker(job, s, step, t);
    ErrorsByWorker(job, s, step, t);
    FaithfulByWorker(job, s, step, t);
  }

  // What any other step keeps.

  /** No worker moves, but one may be started; each plan step taken starts one or yields an error. */
  predicate NoneMoves(s: State, t: State) {
    && (t.workers == s.workers || (t.workers == s.workers + [Dialing] && t.pc == s.pc + 1))
    && t.pc >= s.pc
    && |t.errs| + |t.drained| + |t.workers| - t.pc == |s.errs| + |s.drained| + |s.workers| - s.pc
  }

  lemma NoWorkerMoves(job: Job, s: State, step: Step, t: State)
    requires OtherGoesOn(job, s, step, t)
    ensures NoneMoves(s, t)
  {}

  lemma SumAfterOther(s: State, t: State, f: Worker -> nat)
    requires NoneMoves(s, t)
    ensures Sum(t.workers, f) == Sum(s.workers, f) + (|t.workers| - |s.workers|) * f(Dialing)
  {
    if t.workers != s.workers { SumAppend(s.workers, f, Dialing); }
  }

  lemma CountedByOther(job: Job, s: State, step: Step, t: State)
    requires Counted(job, s) && OtherGoesOn(job, s, step, t)
    ensures Counted(job, t)
  {
    NoWorkerMoves(job, s, step, t);
    SumAfterOther(s, t, Live);
  }

  lemma TalliedByOther(s: State, t: State)
    requires Tallied(s) && NoneMoves(s, t)
    ensures Tallied(t)
  {
    SumAfterOther(s, t, ErrorsFrom);
  }

  lemma OneWinnerByOther(job: Job, s: State, step: Step, t: State)
    requires OneWinner(s) && OtherGoesOn(job, s, step, t)
    ensures OneWinner(t)
  {}

  lemma SettledByOther(job: Job, s: State, step: Step, t: State)
    requires Settled(s) && OtherGoesOn(job, s, step, t)
    ensures Settled(t)
  {}

  lemma CancelsByOther(job: Job, s: State, step: Step, t: State)
    requires Counted(job, s) && Settled(s) && Cancels(s) && OtherGoesOn(job, s, step, t)
    ensures Cancels(t)
  {
    SumZero(s.workers, Live);
  }

  lemma OpenClientsByOther(job: Job, s: State, step: Step, t: State)
    requires OpenClients(s) && OtherGoesOn(job, s, step, t)
    ensures OpenClients(t)
  {}

  lemma FaithfulByOther(job: Job, s: State, step: Step, t: State)
    requires Settled(s) && Cancels(s) && Faithful(job, s) && OtherGoesOn(job, s, step, t)
    ensures Faithful(job, t)
  {}

  lemma ReportedByOther(job: Job, s: State, step: Step, t: State, src: Source)
    requires OtherGoesOn(job, s, step, t)
    ensures Reported(job, t, src)
       <==> Reported(job, s, src) || (step.SpawnerReports? && src == FromPlan(s.pc))
  {}

  lemma ErrorsByOther(job: Job, s: State, step: Step, t: State)
    requires Settled(s) && Faithful(job, s) && ErrorsKept(job, s) && OtherGoesOn(job, s, step, t)
    ensures ErrorsKept(job, t)
  {
    forall src
      ensures Reported(job, t, src)
         <==> Reported(job, s, src) || (step.SpawnerReports? && src == FromPlan(s.pc))
    {
      ReportedByOther(job, s, step, t, src);
    }
    if step.SpawnerReports? {
      ReceivedIsLast(s, FromPlan(s.pc));
      ErrorReceived(job, s, t, FromPlan(s.pc));
    }
  }

  lemma WorkersMatchPlan(job: Job, s: State, step: Step, t: State)
    requires Counted(job, s) && |s.workers| == Dials(job.plan[..s.pc]) && OtherGoesOn(job, s, step, t)
    ensures t.pc <= |job.plan| && |t.workers| == Dials(job.plan[..t.pc])
  {
    if s.pc < |job.plan| {
      assert job.plan[..s.pc + 1][..s.pc] == job.plan[..s.pc];
    }
  }

  lemma InvByOther(job: Job, s: State, step: Step, t: State)
    requires Inv(job, s) && OtherGoesOn(job, s, step, t)
    ensures Inv(job, t)
  {
    CountedByOther(job, s, step, t);
    NoWorkerMoves(job, s, step, t);
    TalliedByOther(s, t);
    OneWinnerByOther(job, s, step, t);
    SettledByOther(job, s, step, t);
    CancelsByOther(job, s, step, t);
    OpenClientsByOther(job, s, step, t);
    ErrorsByOther(job, s, step, t);
    FaithfulByOther(job, s, step, t);
    WorkersMatchPlan(job, s, step, t);
  }

  lemma InvKept(job: Job, s: State, step: Step)
    requires Inv(job, s) && Enabled(job, s, step)
    ensures Inv(job, Apply(job, s, step))
  {
    var t := Apply(job, s, step);
    if MovesWorker(step) {
      InvByWorker(job, s, step, t);
    } else {
      InvByOther(job, s, step, t);
    }
  }

  lemma {:induction false} RunKeepsInv(job: Job, s: State, steps: seq<Step>)
    requires Inv(job, s) && After(job, s, steps).Reached?
    ensures Inv(job, After(job, s, steps).state)
    decreases |steps|
  {
    if steps != [] {
      InvKept(job, s, steps[0]);
      RunKeepsInv(job, Apply(job, s, steps[0]), steps[1..]);
    }
  }

  lemma InitInv(job: Job)
    ensures Inv(job, Init())
    ensures Fuel(job, Init()) == 5 * |job.plan| + 7
  {
    assert job.plan[..0] == [];
  }

  lemma ReachableInv(job: Job, steps: seq<Step>, s: State)
    requires Reachable(job, steps, s)
    ensures Inv(job, s)
  {
    InitInv(job);
    RunKeepsInv(job, Init(), steps);
  }

  // ---------- Channel safety ----------

  /** A goroutine that is counted by the wait group and may still send on the error channel. */
  predicate MaySend(s: State, src: Source) {
    match src
    case FromPlan(_) => s.spawning
    case FromWorker(k) => k < |s.workers| && !s.workers[k].Gone?
  }

  /** The error channel is never closed while anyone can still send on it, and never closed twice. */
  lemma ChannelSafe(job: Job, steps: seq<Step>, s: State)
    requires Reachable(job, steps, s)
    ensures s.wg == Sum(s.workers, Live) + (if s.spawning then 1 else 0)
    ensures s.errClosed || s.waiter.Woken? ==> forall src :: !MaySend(s, src)
    ensures !(s.errClosed && s.waiter.Woken?)
  {
    ReachableInv(job, steps, s);
    SumZero(s.workers, Live);
  }

  // ---------- Survivors ----------

  predicate AllEnded(s: State) {
    && !s.spawning
    && (forall k :: 0 <= k < |s.workers| ==> s.workers[k].Gone?)
    && s.waiter.Finished?
    && s.main.Returned?
    && !s.drainer.Draining?
  }

  /** When every goroutine has ended, the only client left open is the one that was returned. */
  lemma Survivors(job: Job, steps: seq<Step>, s: State)
    requires Reachable(job, steps, s) && AllEnded(s)
    ensures s.open == (if s.main.outcome.Connected? then {s.main.outcome.client} else {})
  {
    ReachableInv(job, steps, s);
  }

  // ---------- Progress ----------

  function WaiterFuel(w: Waiter): nat { match w case Waiting => 2 case Woken => 1 case Finished => 0 }

  function MainFuel(m: MainPhase): nat { if m.Selecting? then 2 else if m.Returned? then 0 else 1 }

  function Bit(b: bool): nat { if b then 1 else 0 }

  /** What the goroutines other than the workers have left to do. */
  function OtherFuel(job: Job, s: State): int {
    5 * (|job.plan| - s.pc) + Bit(s.spawning) + WaiterFuel(s.waiter)
    + MainFuel(s.main) + Bit(!s.drainer.Stopped?) + Bit(!s.callerCancelled)
  }

  function Fuel(job: Job, s: State): int {
    Sum(s.workers, Rank) + OtherFuel(job, s)
  }

  lemma StepBurnsFuel(job: Job, s: State, step: Step)
    requires Enabled(job, s, step)
    ensures Fuel(job, Apply(job, s, step)) < Fuel(job, s)
  {
    var t := Apply(job, s, step);
    if MovesWorker(step) {
      WorkerBurnsFuel(job, s, step, t);
    } else {
      OtherBurnsFuel(job, s, step, t);
    }
  }

  lemma WorkerBurnsFuel(job: Job, s: State, step: Step, t: State)
    requires WorkerGoesOn(job, s, step, t)
    ensures Fuel(job, t) < Fuel(job, s)
  {
    WorkerMovesAlone(job, s, step, t);
    WorkerRankFalls(job, s, step, t);
    OthersWait(job, s, step, t);
    SumUpdate(s.workers, Rank, step.id, t.workers[step.id]);
  }

  lemma WorkerRankFalls(job: Job, s: State, step: Step, t: State)
    requires WorkerGoesOn(job, s, step, t)
    ensures step.id < |s.workers| == |t.workers| && Rank(t.workers[step.id]) < Rank(s.workers[step.id])
  {}

  lemma OthersWait(job: Job, s: State, step: Step, t: State)
    requires WorkerGoesOn(job, s, step, t)
    ensures OtherFuel(job, t) <= OtherFuel(job, s)
  {}

  lemma OtherBurnsFuel(job: Job, s: State, step: Step, t: State)
    requires OtherGoesOn(job, s, step, t)
    ensures Fuel(job, t) < Fuel(job, s)
  {
    NoWorkerMoves(job, s, step, t);
    OtherFuelFalls(job, s, step, t);
    SumAfterOther(s, t, Rank);
  }

  lemma OtherFuelFalls(job: Job, s: State, step: Step, t: State)
    requires OtherGoesOn(job, s, step, t)
    ensures OtherFuel(job, t) + 4 * (|t.workers| - |s.workers|) < OtherFuel(job, s)
  {}

  lemma {:induction false} RunBurnsFuel(job: Job, s: State, steps: seq<Step>)
    requires Inv(job, s) && After(job, s, steps).Reached?
    ensures |steps| + Fuel(job, After(job, s, steps).state) <= Fuel(job, s)
    ensures |steps| <= Fuel(job, s)
    decreases |steps|
  {
    if steps != [] {
      StepBurnsFuel(job, s, steps[0]);
      InvKept(job, s, steps[0]);
      RunBurnsFuel(job, Apply(job, s, steps[0]), steps[1..]);
    }
  }

  /** No run is longer than five steps per attempt plus seven. */
  lemma RunsAreBounded(job: Job, steps: seq<Step>, s: State)
    requires Reachable(job, steps, s)
    ensures |steps| <= 5 * |job.plan| + 7
  {
    InitInv(job);
    RunBurnsFuel(job, Init(), steps);
  }

  lemma SenderCanSend(job: Job, s: State)
    requires Inv(job, s) && s.wg > 0
    ensures !s.errClosed && ErrReceiver(s)
  {}

  lemma WorkerCanMove(job: Job, s: State, k: nat) returns (step: Step)
    requires Inv(job, s) && k < |s.workers| && !s.workers[k].Gone?
    ensures Enabled(job, s, step) && step != CancelByCaller
  {
    SumZero(s.workers, Live);
    SenderCanSend(job, s);
    match s.workers[k] {
      case Dialing => step := DialFails(k);
      case Reporting => step := WorkerReports(k);
      case Offering =>
        step := if s.main.Selecting? then HandOver(k) else if s.main.Won? then MainReturns else SeeCancel(k);
      case Closing => step := CloseClient(k);
      case Leaving(_) => step := WorkerLeaves(k);
    }
  }

  /** Until all goroutines have ended, one of them can step without help from the caller. */
  lemma SomeoneCanMove(job: Job, s: State) returns (step: Step)
    requires Inv(job, s) && !AllEnded(s)
    ensures Enabled(job, s, step) && step != CancelByCaller
  {
    SumZero(s.workers, Live);
    if s.spawning {
      SenderCanSend(job, s);
      step := if s.pc == |job.plan| then SpawnerLeaves
              else if job.plan[s.pc].Report? then SpawnerReports else StartWorker;
    } else if k :| 0 <= k < |s.workers| && !s.workers[k].Gone? {
      step := WorkerCanMove(job, s, k);
    } else {
      step := match s.waiter
        case Waiting => WakeWaiter
        case Woken => CloseErrChan
        case Finished =>
          if s.main.Selecting? then MainSeesClosed
          else if s.drainer.Draining? then DrainerStops else MainReturns;
    }
  }

  lemma {:induction false} Finish(job: Job, s: State) returns (more: seq<Step>)
    requires Inv(job, s)
    ensures After(job, s, more).Reached? && AllEnded(After(job, s, more).state)
    ensures CancelByCaller !in more
    decreases Fuel(job, s)
  {
    if AllEnded(s) {
      more := [];
    } else {
      var step := SomeoneCanMove(job, s);
      StepBurnsFuel(job, s, step);
      InvKept(job, s, step);
      var rest := Finish(job, Apply(job, s, step));
      more := [step] + rest;
      assert more[1..] == rest;
    }
  }

  lemma {:induction false} AfterConcat(job: Job, s: State, steps: seq<Step>, more: seq<Step>)
    requires After(job, s, steps).Reached?
    ensures After(job, s, steps + more) == After(job, After(job, s, steps).state, more)
    decreases |steps|
  {
    if steps == [] {
      assert steps + more == more;
    } else {
      assert (steps + more)[1..] == steps[1..] + more;
      AfterConcat(job, Apply(job, s, steps[0]), steps[1..], more);
    }
  }

  /** Every run can be carried on, without the caller's help, to the end of all goroutines. */
  lemma RunsCanFinish(job: Job, steps: seq<Step>, s: State) returns (more: seq<Step>, end: State)
    requires Reachable(job, steps, s)
    ensures Reachable(job, steps + more, end) && AllEnded(end) && CancelByCaller !in more
  {
    ReachableInv(job, steps, s);
    more := Finish(job, s);
    AfterConcat(job, Init(), steps, more);
    end := After(job, s, more).state;
  }

  /** Every schedule ends well: when nobody but the caller can step, all goroutines have ended. */
  lemma QuietMeansEnded(job: Job, steps: seq<Step>, s: State)
    requires Reachable(job, steps, s)
    requires forall step :: Enabled(job, s, step) ==> step == CancelByCaller
    ensures AllEnded(s)
  {
    ReachableInv(job, steps, s);
    if !AllEnded(s) {
      var step := SomeoneCanMove(job, s);
    }
  }

  // ---------- What the caller is told ----------

  lemma {:induction false} SumOfOnes(ws: seq<Worker>, f: Worker -> nat)
    requires forall k :: 0 <= k < |ws| ==> f(ws[k]) == 1
    ensures Sum(ws, f) == |ws|
  {
    if ws != [] { SumOfOnes(ws[..|ws| - 1], f); }
  }

  lemma FateCases(w: Worker)
    ensures w.Gone? ==> w == Gone(Failed) || w == Gone(HandedOver) || w == Gone(Abandoned)
  {
    if w.Gone? {
      match w.fate { case Failed => case HandedOver => case Abandoned => }
    }
  }

  /**
   An error tells of every failed attempt exactly once, and of nothing else but the caller's own
   cancellation.
   */
  lemma FailureIsComplete(job: Job, steps: seq<Step>, s: State)
    requires Reachable(job, steps, s) && s.main.Returned? && !s.main.outcome.Connected?
    ensures NoDuplicates(s.errs)
    ensures forall i: nat :: FromPlan(i) in s.errs <==> i < |job.plan| && job.plan[i].Report?
    ensures |s.workers| == Dials(job.plan)
    ensures forall k: nat :: FromWorker(k) in s.errs <==> k < |s.workers| && s.workers[k] == Gone(Failed)
    ensures s.main.outcome.AllFailed? <==> s.errs != []
    ensures s.main.outcome.AllFailed? ==> s.main.outcome.errs == s.errs
    ensures s.main.outcome.AllFailed? && s.main.outcome.ctxErr ==> s.callerCancelled
  {
    ReachableInv(job, steps, s);
    SumZero(s.workers, Live);
    assert s.errs + s.drained == s.errs;
    assert job.plan[..s.pc] == job.plan;
    forall src ensures src in s.errs <==> Reported(job, s, src) {}
  }

  /** The context error is added exactly if the caller has cancelled by the time `connect` returns. */
  lemma ContextErrorIff(job: Job, steps: seq<Step>, s: State)
    requires Reachable(job, steps, s) && s.main.Lost? && s.errs != []
    ensures Enabled(job, s, MainReturns)
    ensures Apply(job, s, MainReturns).main == Returned(AllFailed(s.errs, s.callerCancelled))
  {
    ReachableInv(job, steps, s);
  }

  /**
   If the caller does not cancel, the race is lost only when every attempt of the plan failed:
   there is one error per attempt.
   */
  lemma LostOnlyIfAllFailed(job: Job, steps: seq<Step>, s: State)
    requires Reachable(job, steps, s) && s.main.Returned? && !s.main.outcome.Connected?
    requires !s.callerCancelled
    ensures forall k :: 0 <= k < |s.workers| ==> s.workers[k] == Gone(Failed)
    ensures |s.errs| == |job.plan|
    ensures s.main.outcome.AllFailed? <==> job.plan != []
  {
    ReachableInv(job, steps, s);
    SumZero(s.workers, Live);
    forall k | 0 <= k < |s.workers| ensures s.workers[k] == Gone(Failed) {
      var w := s.workers[k];
      assert Live(w) == 0 && !IsHandedOver(w) && !GaveUp(w);
      FateCases(w);
    }
    SumOfOnes(s.workers, ErrorsFrom);
  }

  // ---------- The branch that "should never be reached" ----------

  predicate OnlyDials(plan: seq<Attempt>) {
    forall i :: 0 <= i < |plan| ==> plan[i].Dial?
  }

  /** The race with the first n attempts dialled with success and then given up on cancellation. */
  function GivenUp(n: nat): State {
    State(n, true, seq(n, _ => Gone(Abandoned)), 1, Waiting, false, true, true, Selecting, Idle, [], [], {})
  }

  lemma GiveUpOne(job: Job, n: nat)
    requires n < |job.plan| && job.plan[n].Dial?
    ensures After(job, GivenUp(n), [StartWorker, DialSucceeds(n), SeeCancel(n), CloseClient(n), WorkerLeaves(n)])
         == Reached(GivenUp(n + 1))
  {
    var s0 := GivenUp(n);
    var s1 := Apply(job, s0, StartWorker);
    var s2 := Apply(job, s1, DialSucceeds(n));
    var s3 := Apply(job, s2, SeeCancel(n));
    var s4 := Apply(job, s3, CloseClient(n));
    var s5 := Apply(job, s4, WorkerLeaves(n));
    assert s5.open == {};
    assert s5.workers == GivenUp(n + 1).workers;
    assert After(job, s4, [WorkerLeaves(n)]) == Reached(s5);
    assert After(job, s3, [CloseClient(n), WorkerLeaves(n)]) == Reached(s5);
    assert After(job, s2, [SeeCancel(n), CloseClient(n), WorkerLeaves(n)]) == Reached(s5);
    assert After(job, s1, [DialSucceeds(n), SeeCancel(n), CloseClient(n), WorkerLeaves(n)]) == Reached(s5);
  }

  lemma {:induction false} GiveUpAll(job: Job, n: nat) returns (steps: seq<Step>)
    requires n <= |job.plan| && OnlyDials(job.plan)
    ensures After(job, GivenUp(0), steps) == Reached(GivenUp(n))
  {
    if n == 0 {
      steps := [];
    } else {
      var first := GiveUpAll(job, n - 1);
      GiveUpOne(job, n - 1);
      var last := [StartWorker, DialSucceeds(n - 1), SeeCancel(n - 1), CloseClient(n - 1), WorkerLeaves(n - 1)];
      AfterConcat(job, GivenUp(0), first, last);
      steps := first + last;
    }
  }

  lemma NoMethodsRun(job: Job) returns (steps: seq<Step>, s: State)
    requires job.hasTargets && OnlyDials(job.plan)
    ensures Reachable(job, steps, s) && s.main == Returned(NoMethods)
  {
    var all := GiveUpAll(job, |job.plan|);
    AfterConcat(job, Init(), [CancelByCaller], all);
    var s0 := GivenUp(|job.plan|);
    var tail := [SpawnerLeaves, WakeWaiter, CloseErrChan, MainSeesClosed, MainReturns];
    var s1 := Apply(job, s0, SpawnerLeaves);
    var s2 := Apply(job, s1, WakeWaiter);
    var s3 := Apply(job, s2, CloseErrChan);
    var s4 := Apply(job, s3, MainSeesClosed);
    s := Apply(job, s4, MainReturns);
    assert After(job, s4, tail[4..]) == Reached(s);
    assert After(job, s3, tail[3..]) == Reached(s);
    assert After(job, s2, tail[2..]) == Reached(s);
    assert After(job, s1, tail[1..]) == Reached(s);
    AfterConcat(job, Init(), [CancelByCaller] + all, tail);
    steps := [CancelByCaller] + all + tail;
  }

  /** That branch is taken only when every single dial had succeeded and the caller cancelled. */
  lemma NoMethodsMeansGivenUp(job: Job, steps: seq<Step>, s: State)
    requires Reachable(job, steps, s) && s.main == Returned(NoMethods)
    ensures job.hasTargets && OnlyDials(job.plan)
    ensures |s.workers| == |job.plan|
    ensures forall k :: 0 <= k < |s.workers| ==> s.workers[k] == Gone(Abandoned)
    ensures job.plan != [] ==> s.callerCancelled
  {
    ReachableInv(job, steps, s);
    FailureIsComplete(job, steps, s);
    SumZero(s.workers, Live);
    SumZero(s.workers, ErrorsFrom);
    forall i | 0 <= i < |job.plan| ensures job.plan[i].Dial? {
      assert FromPlan(i) !in s.errs;
    }
    forall k | 0 <= k < |s.workers| ensures s.workers[k] == Gone(Abandoned) {
      var w := s.workers[k];
      assert Live(w) == 0 && ErrorsFrom(w) == 0 && !IsHandedOver(w);
      FateCases(w);
    }
    if job.plan != [] {
      assert GaveUp(s.workers[0]);
    }
  }

  /**
   The comment at the final "no connection methods found" says it is never reached once the
   config is validated.  It is reached, under some interleaving and cancellation, exactly when
   the config names a target and no credential reports an error of its own.
   */
  lemma NoMethodsReachedIff(job: Job)
    ensures (exists steps, s :: Reachable(job, steps, s) && s.main == Returned(NoMethods))
        <==> job.hasTargets && OnlyDials(job.plan)
  {
    if job.hasTargets && OnlyDials(job.plan) {
      var steps, s := NoMethodsRun(job);
    }
    forall steps, s | Reachable(job, steps, s) && s.main == Returned(NoMethods)
      ensures job.hasTargets && OnlyDials(job.plan)
    {
      NoMethodsMeansGivenUp(job, steps, s);
    }
  }

  // ---------- The order of the errors ----------

  /** The error that a step taken at plan position pc hands over, if any. */
  function HandedBy(step: Step, pc: nat): seq<Source> {
    match step
    case SpawnerReports => [FromPlan(pc)]
    case WorkerReports(k) => [FromWorker(k)]
    case _ => []
  }

  /** The errors that a run hands over, in the order of its steps. */
  function HandedOn(steps: seq<Step>, pc: nat): seq<Source>
    decreases |steps|
  {
    if steps == [] then []
    else
      var next := if steps[0].SpawnerReports? || steps[0].StartWorker? then pc + 1 else pc;
      HandedBy(steps[0], pc) + HandedOn(steps[1..], next)
  }

  lemma OneStepHandsOn(job: Job, s: State, step: Step, t: State)
    requires Settled(s) && Faithful(job, s) && Enabled(job, s, step) && t == Apply(job, s, step)
    ensures t.errs + t.drained == s.errs + s.drained + HandedBy(step, s.pc)
    ensures t.pc == (if step.SpawnerReports? || step.StartWorker? then s.pc + 1 else s.pc)
  {
    if step.SpawnerReports? {
      ReceivedIsLast(s, FromPlan(s.pc));
    } else if step.WorkerReports? {
      ReceivedIsLast(s, FromWorker(step.id));
    } else {
      assert s.errs + s.drained + [] == s.errs + s.drained;
    }
  }

  /** All errors received so far, whoever received them. */
  function Received(s: State): seq<Source> { s.errs + s.drained }

  lemma StepReceives(job: Job, s: State, step: Step, t: State)
    requires Inv(job, s) && Enabled(job, s, step) && t == Apply(job, s, step)
    ensures Inv(job, t) && Received(t) == Received(s) + HandedBy(step, s.pc)
    ensures t.pc == (if step.SpawnerReports? || step.StartWorker? then s.pc + 1 else s.pc)
  {
    InvKept(job, s, step);
    OneStepHandsOn(job, s, step, t);
  }

  lemma Joined(a: seq<Source>, b: seq<Source>, c: seq<Source>)
    ensures a + b + c == a + (b + c)
  {}

  lemma {:induction false} RunReceives(job: Job, s: State, steps: seq<Step>, t: State)
    requires Inv(job, s) && After(job, s, steps) == Reached(t)
    ensures Received(t) == Received(s) + HandedOn(steps, s.pc)
    decreases |steps|
  {
    if steps == [] {
      assert Received(s) + [] == Received(s);
    } else {
      var u := Apply(job, s, steps[0]);
      var rest := steps[1..];
      StepReceives(job, s, steps[0], u);
      RunReceives(job, u, rest, t);
      Joined(Received(s), HandedBy(steps[0], s.pc), HandedOn(rest, u.pc));
      assert HandedOn(steps, s.pc) == HandedBy(steps[0], s.pc) + HandedOn(rest, u.pc);
    }
  }

  /** A returned error lists its causes in the order in which they were handed over. */
  lemma ErrorsInOrder(job: Job, steps: seq<Step>, s: State)
    requires Reachable(job, steps, s) && s.main.Returned? && s.main.outcome.AllFailed?
    ensures s.main.outcome.errs == HandedOn(steps, 0)
  {
    ReachableInv(job, steps, s);
    InitInv(job);
    RunReceives(job, Init(), steps, s);
    assert s.errs + s.drained == s.errs;
  }
}
