/**
 The one-slot cursor I/O worker of src/cursor_manager.rs as interleaved atomic
 steps of one client thread and one worker thread.  Atomic loads, stores and
 swaps, channel sends and receives are single steps; anything may happen
 between two of them.
 */
module CursorWorker {
  import opened Common

  datatype Job = Job(id: nat)

  datatype Client =
    | Idle
    | Checked(job: Job)            // submit saw available == true
    | Holding(job: Job)            // submit won busy
    | Undoing(disconnected: bool)  // try_send failed; busy not yet released
    | Closing                      // ... and available not yet cleared
    | Waiting                      // receive_completion spins until busy is released
    | Gone                         // the handle was dropped

  datatype Worker =
    | Receiving
    | Executing(job: Job)
    | Sending(job: Job, panicked: bool)
    | Releasing(delivered: bool, panicked: bool)
    | Notifying(panicked: bool)
    | MarkingDown                  // available = false before leaving the loop
    | Leaving                      // available = false after the loop
    | Dropping                     // the channel ends are about to be dropped
    | Exited

  /** Shared variables and program counters, with what was accepted and what became of it. */
  datatype State = State(
    client: Client,
    worker: Worker,
    busy: bool,
    available: bool,
    jobSlot: Option<Job>,
    completionSlot: Option<Job>,
    accepted: seq<Job>,
    received: seq<Job>,
    undelivered: seq<Job>,         // completed after the handle was dropped
    lost: seq<Job>,                // still in the job slot when the worker exited
    late: bool)                    // the last accepted job came after a busy release

  const INITIAL := State(Idle, Receiving, false, true, None, None, [], [], [], [], false)

  datatype Step =
    // client
    | CheckAvailable(job: Job)
    | SwapBusy
    | TrySend
    | UndoBusy
    | CloseAvailable
    | TryReceive
    | Receive
    | Spin
    | DropHandle
    // worker
    | Take
    | Execute(panics: bool)
    | Send
    | Release
    | Notify(ok: bool)
    | MarkDown
    | Leave
    | Exit

  predicate Enabled(s: State, step: Step) {
    match step
    case CheckAvailable(_) => s.client.Idle?
    case SwapBusy => s.client.Checked?
    case TrySend => s.client.Holding?
    case UndoBusy => s.client.Undoing?
    case CloseAvailable => s.client.Closing?
    case TryReceive => s.client.Idle?
    case Receive => s.client.Idle? && (s.completionSlot.Some? || s.worker.Exited?)
    case Spin => s.client.Waiting?
    case DropHandle => s.client.Idle?
    case Take => s.worker.Receiving? && (s.jobSlot.Some? || s.client.Gone?)
    case Execute(_) => s.worker.Executing?
    case Send => s.worker.Sending? && (s.client.Gone? || s.completionSlot.None?)
    case Release => s.worker.Releasing?
    case Notify(_) => s.worker.Notifying?
    case MarkDown => s.worker.MarkingDown?
    case Leave => s.worker.Leaving?
    case Exit => s.worker.Dropping?
  }

  function Apply(s: State, step: Step): State
    requires Enabled(s, step)
  {
    match step
    case CheckAvailable(job) => if s.available then s.(client := Checked(job)) else s
    case SwapBusy => if s.busy then s.(client := Idle) else s.(busy := true, client := Holding(s.client.job))
    case TrySend =>
      if s.worker.Exited? then s.(client := Undoing(true))
      else if s.jobSlot.Some? then s.(client := Undoing(false))
      else s.(client := Idle, jobSlot := Some(s.client.job), accepted := s.accepted + [s.client.job], late := !s.worker.Receiving?)
    case UndoBusy => s.(busy := false, client := if s.client.disconnected then Closing else Idle)
    case CloseAvailable => s.(available := false, client := Idle)
    case TryReceive => if s.completionSlot.Some? then Collected(s).(client := Idle) else s
    case Receive => if s.completionSlot.Some? then Collected(s).(client := Waiting) else s
    case Spin => if s.busy then s else s.(client := Idle)
    case DropHandle => s.(client := Gone, undelivered := s.undelivered + Held(s.completionSlot), completionSlot := None)
    case Take =>
      if s.jobSlot.Some? then s.(worker := Executing(s.jobSlot.value), jobSlot := None) else s.(worker := Leaving)
    case Execute(panics) => s.(worker := Sending(s.worker.job, panics))
    case Send =>
      if s.client.Gone? then s.(worker := Releasing(false, s.worker.panicked), undelivered := s.undelivered + [s.worker.job])
      else s.(worker := Releasing(true, s.worker.panicked), completionSlot := Some(s.worker.job))
    case Release => s.(busy := false, worker := if s.worker.delivered then Notifying(s.worker.panicked) else MarkingDown)
    case Notify(ok) => s.(worker := if ok && !s.worker.panicked then Receiving else MarkingDown)
    case MarkDown => s.(available := false, worker := Leaving)
    case Leave => s.(available := false, worker := Dropping)
    case Exit => s.(worker := Exited, lost := s.lost + Held(s.jobSlot), jobSlot := None)
  }

  function Collected(s: State): State
    requires s.completionSlot.Some?
  {
    s.(received := s.received + [s.completionSlot.value], completionSlot := None)
  }

  function Held(slot: Option<Job>): seq<Job> {
    if slot.Some? then [slot.value] else []
  }

  /** The job the worker has taken and not yet turned into a completion. */
  function InWorker(s: State): seq<Job> {
    match s.worker
    case Executing(job) => [job]
    case Sending(job, _) => [job]
    case _ => []
  }

  // ----- runs -----

  predicate Legal(s: State, steps: seq<Step>)
    decreases |steps|
  {
    steps == [] || (Enabled(s, steps[0]) && Legal(Apply(s, steps[0]), steps[1..]))
  }

  function Run(s: State, steps: seq<Step>): State
    requires Legal(s, steps)
    decreases |steps|
  {
    if steps == [] then s else Run(Apply(s, steps[0]), steps[1..])
  }

  // ----- the invariant -----

  /** Holders of the admission token: the submitting client, the job slot, the worker until it releases, a lost job. */
  function Tokens(s: State): nat {
    (if s.client.Holding? || s.client.Undoing? then 1 else 0)
    + |Held(s.jobSlot)|
    + (if s.worker.Executing? || s.worker.Sending? || s.worker.Releasing? then 1 else 0)
    + |s.lost|
  }

  /** Every accepted job, in the order of acceptance, is in exactly one place. */
  predicate Conserved(s: State) {
    s.accepted == s.received + s.undelivered + Held(s.completionSlot) + Behind(s)
  }

  /** Accepted jobs that have no completion yet. */
  function Behind(s: State): seq<Job> {
    InWorker(s) + Held(s.jobSlot) + s.lost
  }

  predicate Finishing(w: Worker) { w.Notifying? || w.MarkingDown? || w.Leaving? || w.Dropping? }

  predicate Inv(s: State) {
    Conserved(s) && Discipline(s)
  }

  /** Everything but the order of the jobs. */
  predicate Discipline(s: State) {
    && Tokens(s) == (if s.busy then 1 else 0)
    && (s.undelivered != [] || (s.worker.Releasing? && !s.worker.delivered) ==> s.client.Gone?)
    && (s.client.Gone? ==> s.completionSlot.None?)
    && (s.lost != [] ==> s.worker.Exited? && s.late)
    && (s.worker.Exited? ==> s.jobSlot.None?)
    && (s.worker.Exited? || s.worker.Dropping? ==> !s.available)
    && (s.client.Undoing? ==> s.client.disconnected && s.worker.Exited?)
    && (s.jobSlot.Some? && Finishing(s.worker) ==> s.late)
    && (s.client.Waiting? && (InWorker(s) != [] || s.jobSlot.Some?) ==> s.completionSlot.None?)
  }

  predicate ByClient(step: Step) {
    match step
    case CheckAvailable(_) | SwapBusy | TrySend | UndoBusy | CloseAvailable | TryReceive | Receive | Spin | DropHandle => true
    case _ => false
  }

  lemma {:induction false} ClientKeepsDiscipline(s: State, step: Step)
    requires Discipline(s) && Enabled(s, step) && ByClient(step)
    ensures Discipline(Apply(s, step))
  {
  }

  lemma {:induction false} WorkerKeepsDiscipline(s: State, step: Step)
    requires Discipline(s) && Enabled(s, step) && !ByClient(step)
    ensures Discipline(Apply(s, step))
  {
  }

  lemma {:induction false} SubmitConserves(s: State)
    requires Inv(s) && s.client.Holding?
    ensures Conserved(Apply(s, TrySend))
  {
    var t := Apply(s, TrySend);
    var job := s.client.job;
    var ahead := s.received + s.undelivered + Held(s.completionSlot);
    if t.accepted != s.accepted {
      assert s.lost == [] && s.jobSlot.None?;
      assert Behind(t) == Behind(s) + [job];
      assert ahead + (Behind(s) + [job]) == (ahead + Behind(s)) + [job];
    }
  }

  lemma {:induction false} CollectConserves(s: State)
    requires Inv(s) && s.completionSlot.Some? && !s.client.Gone?
    ensures Conserved(Collected(s))
  {
    assert s.undelivered == [];
    assert Behind(Collected(s)) == Behind(s);
    assert s.received + [] + [s.completionSlot.value] == s.received + [s.completionSlot.value] + [] + [];
  }

  lemma {:induction false} ClientConserves(s: State, step: Step)
    requires Inv(s) && Enabled(s, step) && ByClient(step)
    ensures Conserved(Apply(s, step))
  {
    match step {
      case TrySend => SubmitConserves(s);
      case TryReceive | Receive => if s.completionSlot.Some? { CollectConserves(s); }
      case DropHandle =>
        assert s.received + (s.undelivered + Held(s.completionSlot)) + [] == s.received + s.undelivered + Held(s.completionSlot);
      case _ =>
    }
  }

  lemma {:induction false} WorkerConserves(s: State, step: Step)
    requires Inv(s) && Enabled(s, step) && !ByClient(step)
    ensures Conserved(Apply(s, step))
  {
    var t := Apply(s, step);
    var ahead := s.received + s.undelivered;
    if step.Send? {
      assert Held(s.completionSlot) == [] && Behind(s) == [s.worker.job] + Behind(t);
      assert t.received + t.undelivered + Held(t.completionSlot) == ahead + [s.worker.job];
    } else {
      assert step.Exit? ==> s.lost == [];
      assert Behind(t) == Behind(s);
    }
  }

  lemma {:induction false} StepKeepsInv(s: State, step: Step)
    requires Inv(s) && Enabled(s, step)
    ensures Inv(Apply(s, step))
  {
    if ByClient(step) {
      ClientKeepsDiscipline(s, step);
      ClientConserves(s, step);
    } else {
      WorkerKeepsDiscipline(s, step);
      WorkerConserves(s, step);
    }
  }

  lemma {:induction false} RunKeepsInv(s: State, steps: seq<Step>)
    requires Inv(s) && Legal(s, steps)
    ensures Inv(Run(s, steps))
    decreases |steps|
  {
    if steps != [] {
      StepKeepsInv(s, steps[0]);
      RunKeepsInv(Apply(s, steps[0]), steps[1..]);
    }
  }

  /**
   Over every interleaving: a free token means nothing is in flight, a client
   that won the token finds the job slot empty, jobs are neither reordered nor
   duplicated, and the only job that can be lost is one accepted after a busy
   release, by a worker that has exited.
   */
  lemma {:induction false} Protocol(steps: seq<Step>)
    requires Legal(INITIAL, steps)
    ensures var s := Run(INITIAL, steps);
            && (!s.busy ==> s.jobSlot.None? && InWorker(s) == [] && s.lost == [])
            && (s.client.Holding? ==> s.jobSlot.None?)
            && s.accepted == s.received + s.undelivered + Held(s.completionSlot) + InWorker(s) + Held(s.jobSlot) + s.lost
            && |s.lost| <= 1
            && (s.lost != [] ==> s.worker.Exited? && s.late && !s.available)
            && (s.undelivered != [] ==> s.client.Gone?)
  {
    RunKeepsInv(INITIAL, steps);
    var s := Run(INITIAL, steps);
    var ahead := s.received + s.undelivered + Held(s.completionSlot);
    assert ahead + Behind(s) == ahead + InWorker(s) + Held(s.jobSlot) + s.lost;
  }

  /** A submission that finds the worker gone marks it unavailable, which it was already, and leaves no other trace. */
  lemma {:induction false} RefusedSubmission(steps: seq<Step>)
    requires Legal(INITIAL, steps) && Run(INITIAL, steps).client.Undoing?
    ensures var s := Run(INITIAL, steps);
            && s.worker.Exited? && !s.available && Apply(s, UndoBusy).client.Closing?
            && Apply(Apply(s, UndoBusy), CloseAvailable) == s.(busy := false, client := Idle)
  {
    RunKeepsInv(INITIAL, steps);
  }

  // ----- what the available flag is for -----

  /** The flag is down and no submission is under way that saw it up. */
  predicate Closed(s: State) { !s.available && !s.client.Checked? && !s.client.Holding? }

  /** Once closed, a worker accepts nothing more, in any continuation. */
  lemma {:induction false} NothingAfterClosing(s: State, steps: seq<Step>)
    requires Closed(s) && Legal(s, steps)
    ensures Closed(Run(s, steps)) && Run(s, steps).accepted == s.accepted
    decreases |steps|
  {
    if steps != [] { NothingAfterClosing(Apply(s, steps[0]), steps[1..]); }
  }

  /** The job was offered by a call that saw the flag up. */
  ghost predicate SawFlag(steps: seq<Step>, job: Job) {
    exists k :: 0 <= k < |steps| && SawFlagAt(steps, job, k)
  }

  ghost predicate SawFlagAt(steps: seq<Step>, job: Job, k: int)
    requires 0 <= k < |steps|
  {
    steps[k] == CheckAvailable(job) && Legal(INITIAL, steps[..k]) && Run(INITIAL, steps[..k]).available
  }

  lemma {:induction false} LastStep(s: State, steps: seq<Step>)
    requires Legal(s, steps) && steps != []
    ensures var n := |steps| - 1;
            Legal(s, steps[..n]) && Enabled(Run(s, steps[..n]), steps[n]) && Run(s, steps) == Apply(Run(s, steps[..n]), steps[n])
    decreases |steps|
  {
    if |steps| > 1 {
      LastStep(Apply(s, steps[0]), steps[1..]);
      assert steps[..|steps| - 1][1..] == steps[1..][..|steps| - 2];
    }
  }

  lemma SawFlagStill(steps: seq<Step>, job: Job)
    requires steps != [] && SawFlag(steps[..|steps| - 1], job)
    ensures SawFlag(steps, job)
  {
    var before := steps[..|steps| - 1];
    var k :| 0 <= k < |before| && SawFlagAt(before, job, k);
    assert before[..k] == steps[..k];
    assert SawFlagAt(steps, job, k);
  }

  /** Every job that is accepted, and so every one that is lost, was submitted by a call that saw the flag up. */
  lemma {:induction false} AcceptedSawFlag(steps: seq<Step>)
    requires Legal(INITIAL, steps)
    ensures var s := Run(INITIAL, steps);
            && (forall i :: 0 <= i < |s.accepted| ==> SawFlag(steps, s.accepted[i]))
            && (s.client.Checked? || s.client.Holding? ==> SawFlag(steps, s.client.job))
    decreases |steps|
  {
    if steps != [] {
      var n := |steps| - 1;
      LastStep(INITIAL, steps);
      AcceptedSawFlag(steps[..n]);
      var before, s := Run(INITIAL, steps[..n]), Run(INITIAL, steps);
      forall job | SawFlag(steps[..n], job) ensures SawFlag(steps, job) { SawFlagStill(steps, job); }
      if steps[n].CheckAvailable? && before.available { assert SawFlagAt(steps, steps[n].job, n); }
      assert s.accepted == before.accepted
             || (before.client.Holding? && s.accepted == before.accepted + [before.client.job]);
    }
  }

  // ----- does receive_completion return? -----

  /** A job waits in the slot of a worker that will not take it, or is already lost. */
  predicate Doomed(s: State) {
    || s.lost != []
    || (s.jobSlot.Some?
          && (s.worker.MarkingDown? || s.worker.Leaving? || s.worker.Dropping? || s.worker == Notifying(true)))
  }

  lemma {:induction false} DoomedStays(s: State, steps: seq<Step>)
    requires Inv(s) && s.client.Waiting? && Doomed(s) && Legal(s, steps)
    ensures Run(s, steps).busy && Run(s, steps).client.Waiting?
    decreases |steps|
  {
    if steps != [] {
      var t := Apply(s, steps[0]);
      StepKeepsInv(s, steps[0]);
      assert s.busy;
      assert t.client.Waiting? && Doomed(t);
      DoomedStays(t, steps[1..]);
    }
  }

  /** Steps taken during one wait: the client spins, the worker does what it likes. */
  predicate Waits(s: State, steps: seq<Step>): (r: bool)
    ensures r ==> Legal(s, steps)
    decreases |steps|
  {
    s.client.Waiting? && (steps == [] || (Enabled(s, steps[0]) && Waits(Apply(s, steps[0]), steps[1..])))
  }

  /** The wait is stranded already, or the notification that comes next may strand it. */
  predicate AtRisk(s: State) {
    Doomed(s) || (s.jobSlot.Some? && s.worker.Notifying?)
  }

  /** A course of the wait that leaves the client stranded. */
  predicate StrandedBy(s: State, steps: seq<Step>) { Waits(s, steps) && Doomed(Run(s, steps)) }

  /** Worker steps until the token is released. */
  function Distance(s: State): (d: nat)
    ensures d <= 4
  {
    if !s.busy then 0
    else match s.worker
      case Receiving => 4
      case Executing(_) => 3
      case Sending(_, _) => 2
      case _ => 1
  }

  function WorkerSteps(steps: seq<Step>): nat {
    if steps == [] then 0 else (if ByClient(steps[0]) then 0 else 1) + WorkerSteps(steps[1..])
  }

  /** During a wait without risk every worker step comes nearer to the release, and there is one until then. */
  lemma {:induction false} StepApproaches(s: State, step: Step)
    requires Inv(s) && s.client.Waiting? && !AtRisk(s) && Enabled(s, step)
    ensures var t := Apply(s, step);
            && Inv(t) && !AtRisk(t)
            && Distance(t) <= Distance(s) - (if ByClient(step) || !s.busy then 0 else 1)
            && (t.client.Waiting? || !t.busy)
  {
    StepKeepsInv(s, step);
  }

  lemma {:induction false} WorkerIsNotBlocked(s: State) returns (step: Step)
    requires Inv(s) && s.client.Waiting? && !AtRisk(s) && s.busy
    ensures !ByClient(step) && Enabled(s, step)
  {
    step := match s.worker
      case Receiving => Take
      case Executing(_) => Execute(false)
      case Sending(_, _) => Send
      case _ => Release;
  }

  /** Whatever happens during a wait without risk, nothing is stranded and four worker steps release the token. */
  lemma {:induction false} ReleaseFollows(s: State, steps: seq<Step>)
    requires Inv(s) && !AtRisk(s) && Waits(s, steps)
    ensures !Doomed(Run(s, steps)) && Inv(Run(s, steps))
    ensures WorkerSteps(steps) >= Distance(s) ==> !Run(s, steps).busy
    decreases |steps|
  {
    if steps != [] {
      StepApproaches(s, steps[0]);
      ReleaseFollows(Apply(s, steps[0]), steps[1..]);
    }
  }

  /**
   No course of the wait is ever stranded if and only if no job sits behind a
   worker that is leaving or still has to notify.
   */
  lemma {:induction false} WaitEndsIff(s: State)
    requires Inv(s) && s.client.Waiting?
    ensures (forall steps :: !StrandedBy(s, steps)) <==> !AtRisk(s)
  {
    if Doomed(s) {
      assert StrandedBy(s, []);
    } else if AtRisk(s) {
      var refused := [Notify(false)];
      var t := Apply(s, refused[0]);
      assert refused[1..] == [] && Waits(t, []) && Doomed(t);
      assert Waits(s, refused) && Run(s, refused) == t;
      assert StrandedBy(s, refused);
    } else {
      forall steps | Waits(s, steps) ensures !StrandedBy(s, steps) { ReleaseFollows(s, steps); }
    }
  }

  // ----- the whole call -----

  /** Submitted and not collected; the client can count it. */
  function Outstanding(s: State): int { |s.accepted| - |s.received| }

  /** `recv` has something to return: a completion, or the end of the channel. */
  predicate Served(s: State) { s.completionSlot.Some? || s.worker.Exited? }

  /** The worker can go on. */
  ghost predicate CanStep(s: State) { exists step :: !ByClient(step) && Enabled(s, step) }

  /** What may happen while the client sits in `recv`. */
  predicate Course(s: State, steps: seq<Step>) { Legal(s, steps) && WorkerSteps(steps) == |steps| }

  /**
   However the worker goes on, the client is served after `n` of its steps at
   the latest, and the worker does not stop before.
   */
  ghost predicate ServedWithin(s: State, n: nat) {
    forall steps :: Course(s, steps) && (|steps| >= n || !CanStep(Run(s, steps))) ==> Served(Run(s, steps))
  }

  /**
   However a wait goes on, the token is free after `n` worker steps at the
   latest, and the worker does not stop before.
   */
  ghost predicate ReleasedWithin(s: State, n: nat) {
    forall wait :: Waits(s, wait) && (WorkerSteps(wait) >= n || !CanStep(Run(s, wait))) ==> !Run(s, wait).busy
  }

  /**
   The two halves of receive_completion come to their end, whatever happens:
   served within five worker steps, released within four more.
   */
  ghost predicate CallReturns(s: State) {
    && ServedWithin(s, 5)
    && forall steps :: Course(s, steps) && CollectsAfter(s, steps) ==> ReleasedWithin(Apply(Run(s, steps), Receive), 4)
  }

  predicate CollectsAfter(s: State, steps: seq<Step>)
    requires Legal(s, steps)
  {
    Run(s, steps).client.Idle? && Run(s, steps).completionSlot.Some?
  }

  /** The worker will leave its loop, whatever happens. */
  predicate BoundToExit(w: Worker) {
    w.MarkingDown? || w.Leaving? || w.Dropping? || w.Exited? || ((w.Notifying? || w.Releasing?) && w.panicked)
  }

  /**
   A completion is there and nothing is at risk behind it; or none is, and one
   will come or the channel will close.
   */
  predicate Returning(s: State) {
    if s.completionSlot.Some? then !AtRisk(s) else Behind(s) != [] || BoundToExit(s.worker)
  }

  /** Worker steps until the client is served. */
  function ToServe(s: State): (d: nat)
    ensures d <= 5
  {
    if Served(s) then 0
    else match s.worker
      case Releasing(_, _) => 5
      case Notifying(_) => 4
      case Receiving | MarkingDown => 3
      case Executing(_) | Leaving => 2
      case _ => 1
  }

  lemma {:induction false} ServiceApproaches(s: State, step: Step)
    requires Inv(s) && s.client.Idle? && Returning(s) && !ByClient(step) && Enabled(s, step)
    ensures var t := Apply(s, step);
            && Inv(t) && t.client.Idle? && Returning(t)
            && ToServe(t) <= ToServe(s) - (if Served(s) then 0 else 1)
  {
    StepKeepsInv(s, step);
  }

  lemma {:induction false} ServiceIsNotBlocked(s: State)
    requires Inv(s) && s.client.Idle? && Returning(s) && !Served(s)
    ensures CanStep(s)
  {
    var step := match s.worker
      case Receiving => Take
      case Executing(_) => Execute(false)
      case Sending(_, _) => Send
      case Releasing(_, _) => Release
      case Notifying(_) => Notify(true)
      case MarkingDown => MarkDown
      case Leaving => Leave
      case _ => Exit;
    assert !ByClient(step) && Enabled(s, step);
  }

  lemma {:induction false} WorkerStepsBound(steps: seq<Step>)
    ensures WorkerSteps(steps) <= |steps|
  {
    if steps != [] { WorkerStepsBound(steps[1..]); }
  }

  lemma {:induction false} ServiceFollows(s: State, steps: seq<Step>)
    requires Inv(s) && s.client.Idle? && Returning(s) && Course(s, steps)
    ensures var t := Run(s, steps); Inv(t) && t.client.Idle? && Returning(t) && (|steps| >= ToServe(s) ==> Served(t))
    decreases |steps|
  {
    if steps != [] {
      WorkerStepsBound(steps[1..]);
      ServiceApproaches(s, steps[0]);
      ServiceFollows(Apply(s, steps[0]), steps[1..]);
    }
  }

  lemma {:induction false} WaitIsBounded(s: State)
    requires Inv(s) && s.client.Waiting? && !AtRisk(s)
    ensures ReleasedWithin(s, 4)
  {
    forall wait | Waits(s, wait) && (WorkerSteps(wait) >= 4 || !CanStep(Run(s, wait))) ensures !Run(s, wait).busy {
      ReleaseFollows(s, wait);
      var t := Run(s, wait);
      WaitsOn(s, wait);
      if t.busy {
        RiskStaysAway(s, wait);
        var step := WorkerIsNotBlocked(t);
      }
    }
  }

  lemma {:induction false} WaitsOn(s: State, wait: seq<Step>)
    requires Waits(s, wait)
    ensures Run(s, wait).client.Waiting?
    decreases |wait|
  {
    if wait != [] { WaitsOn(Apply(s, wait[0]), wait[1..]); }
  }

  lemma {:induction false} RiskStaysAway(s: State, wait: seq<Step>)
    requires Inv(s) && !AtRisk(s) && Waits(s, wait)
    ensures Inv(Run(s, wait)) && !AtRisk(Run(s, wait))
    decreases |wait|
  {
    if wait != [] {
      StepApproaches(s, wait[0]);
      RiskStaysAway(Apply(s, wait[0]), wait[1..]);
    }
  }

  /** A wait at risk may end with the worker gone and the token held. */
  lemma {:induction false} RiskStrands(s: State) returns (wait: seq<Step>)
    requires Inv(s) && s.client.Waiting? && AtRisk(s)
    ensures Waits(s, wait) && Run(s, wait).busy && Run(s, wait).worker.Exited?
    decreases match s.worker case Notifying(_) => 4 case MarkingDown => 3 case Leaving => 2 case Dropping => 1 case _ => 0
  {
    if s.worker.Exited? {
      wait := [];
    } else {
      var step := match s.worker
        case Notifying(_) => Notify(false)
        case MarkingDown => MarkDown
        case Leaving => Leave
        case _ => Exit;
      StepKeepsInv(s, step);
      var rest := RiskStrands(Apply(s, step));
      wait := [step] + rest;
      assert wait[1..] == rest;
    }
  }

  /** With nothing outstanding and a worker that stays, the worker ends up waiting for a job, and nobody can move. */
  lemma {:induction false} NothingComes(s: State) returns (steps: seq<Step>)
    requires Inv(s) && s.client.Idle? && s.completionSlot.None? && Behind(s) == [] && !BoundToExit(s.worker)
    ensures Course(s, steps) && !Served(Run(s, steps)) && !CanStep(Run(s, steps))
    decreases match s.worker case Releasing(_, _) => 2 case Notifying(_) => 1 case _ => 0
  {
    assert s.jobSlot.None?
           && InWorker(s) == [] by { assert |Behind(s)| == |InWorker(s)| + |Held(s.jobSlot)| + |s.lost|; }
    if s.worker.Receiving? {
      steps := [];
    } else {
      var step := if s.worker.Releasing? then Release else Notify(true);
      StepKeepsInv(s, step);
      var rest := NothingComes(Apply(s, step));
      steps := [step] + rest;
      assert steps[1..] == rest;
    }
  }

  /**
   A call of receive_completion returns in every course of events if and only
   if a completion is there with nothing at risk behind it, or a job is on its
   way, or the worker is bound to exit.
   */
  lemma {:induction false} CallReturnsIff(s: State)
    requires Inv(s) && s.client.Idle?
    ensures CallReturns(s) <==> Returning(s)
  {
    if Returning(s) {
      ReturningReturns(s);
    } else if s.completionSlot.Some? {
      var u := Apply(s, Receive);
      StepKeepsInv(s, Receive);
      assert Course(s, []) && Run(s, []) == s && CollectsAfter(s, []);
      var wait := RiskStrands(u);
      assert !CanStep(Run(u, wait));
      assert !ReleasedWithin(u, 4);
    } else {
      var steps := NothingComes(s);
      assert !ServedWithin(s, 5);
    }
  }

  lemma {:induction false} ReturningReturns(s: State)
    requires Inv(s) && s.client.Idle? && Returning(s)
    ensures CallReturns(s)
  {
    forall steps | Course(s, steps) && (|steps| >= 5 || !CanStep(Run(s, steps))) ensures Served(Run(s, steps)) {
      ServiceFollows(s, steps);
      if !Served(Run(s, steps)) { ServiceIsNotBlocked(Run(s, steps)); }
    }
    forall steps | Course(s, steps) && CollectsAfter(s, steps) ensures ReleasedWithin(Apply(Run(s, steps), Receive), 4) {
      ServiceFollows(s, steps);
      StepKeepsInv(Run(s, steps), Receive);
      WaitIsBounded(Apply(Run(s, steps), Receive));
    }
  }

  // ----- what the caller can know -----

  lemma {:induction false} OutstandingIs(s: State)
    requires Inv(s) && !s.client.Gone?
    ensures Outstanding(s) == |Held(s.completionSlot)| + |Behind(s)| <= 2
    ensures |Behind(s)| == |InWorker(s)| + |Held(s.jobSlot)| + |s.lost| <= 1
  {
    assert |s.accepted| == |s.received| + |s.undelivered| + |Held(s.completionSlot)| + |Behind(s)|;
  }

  /** With one job outstanding every course of the call returns. */
  lemma {:induction false} CollectedBeforeWaiting(s: State)
    requires Inv(s) && s.client.Idle? && Outstanding(s) == 1
    ensures CallReturns(s)
  {
    OutstandingIs(s);
    ReturningReturns(s);
  }

  /** A client that knows it has `n` jobs outstanding can call receive_completion whatever else has happened. */
  ghost predicate SafeCall(n: nat) {
    forall steps :: Legal(INITIAL, steps) && Run(INITIAL, steps).client.Idle? && Outstanding(Run(INITIAL, steps)) == n ==>
      CallReturns(Run(INITIAL, steps))
  }

  /**
   What the caller has to observe: with none outstanding the call may block in
   `recv`, with two it may spin for good, with exactly one it returns; more
   than two there never are.
   */
  lemma {:induction false} SafeCallIff(n: nat)
    ensures n <= 2 ==> (SafeCall(n) <==> n == 1)
    ensures n > 2 ==>
              forall steps :: Legal(INITIAL, steps) && Run(INITIAL, steps).client.Idle? ==> Outstanding(Run(INITIAL, steps)) != n
  {
    forall steps | Legal(INITIAL, steps) && Run(INITIAL, steps).client.Idle?
      ensures var s := Run(INITIAL, steps); Outstanding(s) <= 2 && (Outstanding(s) == 1 ==> CallReturns(s))
    {
      RunKeepsInv(INITIAL, steps);
      OutstandingIs(Run(INITIAL, steps));
      if Outstanding(Run(INITIAL, steps)) == 1 { CollectedBeforeWaiting(Run(INITIAL, steps)); }
    }
    if n == 0 {
      var steps := BlockedRun(Job(0));
    } else if n == 2 {
      var steps := StrandedRun(Job(0), Job(1));
    }
  }

  lemma {:induction false} Then(s: State, steps: seq<Step>, step: Step)
    requires Legal(s, steps) && Enabled(Run(s, steps), step)
    ensures Legal(s, steps + [step]) && Run(s, steps + [step]) == Apply(Run(s, steps), step)
    decreases |steps|
  {
    var all := steps + [step];
    if steps == [] {
      assert all[1..] == [];
    } else {
      assert all[1..] == steps[1..] + [step];
      Then(Apply(s, steps[0]), steps[1..], step);
    }
  }

  /** A submission that meets a free token and an empty slot is accepted. */
  lemma {:induction false} Submit(s: State, steps: seq<Step>, job: Job) returns (longer: seq<Step>)
    requires Legal(s, steps)
    requires var t := Run(s, steps); t.client.Idle? && t.available && !t.busy && !t.worker.Exited? && t.jobSlot.None?
    ensures Legal(s, longer)
    ensures var t := Run(s, steps);
            Run(s, longer) == t.(busy := true, jobSlot := Some(job), accepted := t.accepted + [job], late := !t.worker.Receiving?)
  {
    Then(s, steps, CheckAvailable(job));
    longer := steps + [CheckAvailable(job)];
    Then(s, longer, SwapBusy);
    longer := longer + [SwapBusy];
    Then(s, longer, TrySend);
    longer := longer + [TrySend];
  }

  /** A job is done and released, and its completion not yet collected. */
  lemma {:induction false} ServeOne(a: Job, panics: bool) returns (steps: seq<Step>)
    ensures Legal(INITIAL, steps)
    ensures Run(INITIAL, steps) == State(Idle, Notifying(panics), false, true, None, Some(a), [a], [], [], [], false)
  {
    steps := Submit(INITIAL, [], a);
    assert Run(INITIAL, []) == INITIAL;
    Then(INITIAL, steps, Take);
    steps := steps + [Take];
    Then(INITIAL, steps, Execute(panics));
    steps := steps + [Execute(panics)];
    Then(INITIAL, steps, Send);
    steps := steps + [Send];
    Then(INITIAL, steps, Release);
    steps := steps + [Release];
  }

  /** Its completion is not collected when the second one is submitted. */
  lemma {:induction false} SubmitTwice(a: Job, b: Job, panics: bool) returns (steps: seq<Step>)
    ensures Legal(INITIAL, steps)
    ensures Run(INITIAL, steps) == State(Idle, Notifying(panics), true, true, Some(b), Some(a), [a, b], [], [], [], true)
  {
    steps := ServeOne(a, panics);
    steps := Submit(INITIAL, steps, b);
  }

  /** Submitting again before collecting a panicked job's completion strands the call for good. */
  lemma {:induction false} StrandedRun(a: Job, b: Job) returns (steps: seq<Step>)
    ensures Legal(INITIAL, steps)
    ensures var s := Run(INITIAL, steps);
            && s.client.Idle? && s.completionSlot.Some? && s.accepted == [a, b] && s.received == []
            && Doomed(Apply(s, Receive)) && !CallReturns(s)
  {
    steps := SubmitTwice(a, b, true);
    RunKeepsInv(INITIAL, steps);
    CallReturnsIff(Run(INITIAL, steps));
  }

  /** The same without a panic: the call begins unstranded, then the notification of the first job fails. */
  lemma {:induction false} UnnotifiedRun(a: Job, b: Job) returns (steps: seq<Step>, wait: seq<Step>)
    ensures Legal(INITIAL, steps)
    ensures var s := Run(INITIAL, steps);
            && s.client.Idle? && s.completionSlot.Some? && s.accepted == [a, b]
            && var u := Apply(s, Receive); !Doomed(u) && StrandedBy(u, wait) && Run(u, wait).received == [a]
  {
    steps := SubmitTwice(a, b, false);
    wait := [Notify(false)];
    var u := Apply(Run(INITIAL, steps), Receive);
    var t := Apply(u, wait[0]);
    assert wait[1..] == [] && Waits(t, []);
    assert Waits(u, wait) && Run(u, wait) == t;
  }

  /**
   A job is done and its completion collected; a further call blocks for good:
   no worker step is ever possible again.
   */
  lemma {:induction false} BlockedRun(a: Job) returns (steps: seq<Step>)
    ensures Legal(INITIAL, steps)
    ensures var s := Run(INITIAL, steps);
            && s.client.Idle? && s.accepted == s.received == [a] && !Served(s) && !CanStep(s)
            && !CallReturns(s)
  {
    steps := ServeOne(a, false);
    Then(INITIAL, steps, Notify(true));
    steps := steps + [Notify(true)];
    Then(INITIAL, steps, TryReceive);
    steps := steps + [TryReceive];
    RunKeepsInv(INITIAL, steps);
    CallReturnsIff(Run(INITIAL, steps));
  }
}
