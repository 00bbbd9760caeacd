/** One attempt of a worker at a claimed job. Every remote call may fail in any way;
    an automaton over the calls says what an attempt may do, the worker's code is
    verified against it, and its guarantees are derived from it. */
module Lifecycle {
  import opened Wrappers

  const RUNNING := "running"
  const STEP_STARTED := "agent_run_lifecycle_step_started"
  const RECOVERY := "execution_recovery_checkpoint_committed"
  const DEAD_LETTERED := "agent_run_lifecycle_dead_lettered"
  const STEP_FAILED := "runtime_step_failed"
  const LEASE_LOST := "agent_run_lifecycle_lease_lost"

  const RUNTIME_JOB_WAIT_RECHECK_MS := 5 * 60 * 1000

  datatype Kind = Lifecycle | Noop | Unknown

  /** `bindingOk` says whether the job's identifiers name one run and one digest. */
  datatype Job = Job(kind: Kind, bindingOk: bool, retryCount: int, maxRetries: int, recheckMs: nat)

  datatype Call =
    | Start
    | Resolve
    | Transition(state: string, reason: string)
    | Step
    | Teardown
    | Complete
    | Yield(at: int, runAt: int, reason: string, measured: int)  // `measured` is not sent
    | Fail(reason: string, retryable: bool)
    | Lookup

  /** Bodies of replies, as far as the worker looks at them. */
  datatype Body =
    | Ready
    | Terminal(terminalState: string)
    | StepWaiting(waitReason: string, retryAt: int)
    | StepTerminal(stepState: string)
    | Moved(state: string)
    | Removed
    | Disposition(disposition: string)
    | Status(status: string)
    | Otherwise

  /** Exceptions: four classes the worker tells apart, and everything else. */
  datatype Exn =
    | Cancelled(reason: string)
    | Unavailable(reason: string)
    | StepFailure(reason: string, retryable: bool)
    | Plain(reason: string)
    | Foreign

  datatype Reply = Got(body: Body) | Threw(exn: Exn)

  /** A call, and the body of its reply when the worker accepted it. */
  datatype Entry = Entry(call: Call, reply: Option<Body>)

  const TERMINAL_STATES := {"completed", "failed", "cancelled"}
  const WAITING_REASONS := {RECOVERY, "question_wait", "runtime_job_wait",
                            "session_workspace_commit_unavailable", "session_workspace_resolve_unavailable"}

  predicate ValidRetries(job: Job) {
    0 <= job.retryCount <= job.maxRetries <= 10
  }

  predicate LastTry(job: Job, retryable: bool) {
    !retryable || job.retryCount + 1 > job.maxRetries
  }

  function ExpectedDisposition(job: Job, retryable: bool): string {
    if !retryable then "failed" else if LastTry(job, retryable) then "dead_lettered" else "retry_scheduled"
  }

  /** A job is tried once more than its retries allow: the last try is the one with all of them
      used, and only a failure not worth another try ends it earlier. */
  lemma TriesAllowed(job: Job, retryable: bool)
    requires ValidRetries(job)
    ensures LastTry(job, retryable) <==> (retryable ==> job.retryCount == job.maxRetries)
    ensures ExpectedDisposition(job, retryable) == "retry_scheduled" <==> !LastTry(job, retryable)
    ensures ExpectedDisposition(job, retryable) == "failed" <==> !retryable
  {
  }

  /** The replies the worker accepts. */
  predicate Accepts(job: Job, call: Call, body: Body) {
    match call
    case Resolve => body.Ready? || (body.Terminal? && body.terminalState in TERMINAL_STATES)
    case Step => || (body.StepWaiting? && body.waitReason in WAITING_REASONS
                     && (body.waitReason == RECOVERY ==> body.retryAt >= 0))
                 || (body.StepTerminal? && body.stepState in TERMINAL_STATES)
    case Transition(state, reason) =>
      || body == Moved(state)
      || (state == "failed" && reason == DEAD_LETTERED && body == Moved("completed"))
    case Teardown => body == Removed
    case Fail(_, retryable) => body == Disposition(ExpectedDisposition(job, retryable))
    case Start => true
    case Complete => true
    case Yield(_, _, _, _) => true
    case Lookup => true
  }

  /** What an accepted reply confirms: that the run is in the state asked for, or had completed
      when it was to be given up; that the job will be tried again exactly when a try is left;
      that the session is gone; a known state or a known reason to wait. */
  lemma AcceptedMeans(job: Job, call: Call, body: Body)
    ensures call.Transition? ==>
              (Accepts(job, call, body) <==>
                 && body.Moved?
                 && (body.state != call.state ==>
                       call.state == "failed" && call.reason == DEAD_LETTERED && body.state == "completed"))
    ensures call.Fail? ==>
              (Accepts(job, call, body) <==>
                 && body.Disposition? && body.disposition in {"retry_scheduled", "dead_lettered", "failed"}
                 && (body.disposition == "retry_scheduled" <==> !LastTry(job, call.retryable))
                 && (body.disposition == "failed" <==> !call.retryable))
    ensures call.Resolve? ==>
              (Accepts(job, call, body) <==>
                 body == Ready || exists state :: state in TERMINAL_STATES && body == Terminal(state))
    ensures call.Step? && Accepts(job, call, body) ==>
              if body.StepWaiting? then body.waitReason in WAITING_REASONS
              else body.StepTerminal? && body.stepState in TERMINAL_STATES
    ensures call.Teardown? ==> (Accepts(job, call, body) <==> body == Removed)
  {
  }

  // ---------------------------------------------------------------- the automaton

  datatype Phase =
    | Idle
    | Started
    | MayRun
    | MustClose(state: string)     // the run has ended; its job must be closed
    | Running
    | MustWait(reason: string, retryAt: int)
    | MayYield(reason: string, retryAt: int)
    | Closing
    | TornDown
    | Done
    | Broken                       // a call was not acknowledged
    | GaveUp(retryable: bool)      // a terminal failure was acknowledged
    | Over
    | Bad

  predicate Final(p: Phase) {
    p.Done? || p.GaveUp? || p.Over? || p.Bad?
  }

  function ClosingReason(state: string): string {
    if state == "cancelled" then "agent_run_cancelled" else "runtime_session_terminal_committed"
  }

  function FailureReason(retryable: bool): string {
    if retryable then DEAD_LETTERED else STEP_FAILED
  }

  /** When a yielded job is due: not before the clock reading it is computed from, nor before
      the deadline the runtime asked for, and no later than one of them demands; without a
      deadline, after a fixed pause. */
  predicate Due(job: Job, reason: string, retryAt: int, measured: int, runAt: int) {
    if reason == RECOVERY then measured <= runAt && retryAt <= runAt && (runAt == measured || runAt == retryAt)
    else runAt - measured == if reason == "runtime_job_wait" then RUNTIME_JOB_WAIT_RECHECK_MS else job.recheckMs
  }

  /** What an unacknowledged or acknowledged call leads to. */
  function Acknowledged(e: Entry, p: Phase): Phase {
    if e.reply.Some? then p else Broken
  }

  function Next(job: Job, p: Phase, e: Entry): Phase {
    if e.reply.Some? && !Accepts(job, e.call, e.reply.value) then Bad
    else match e.call
    case Start => if p.Idle? then Acknowledged(e, Started) else Bad
    case Resolve =>
      if !(p.Started? && job.kind.Lifecycle?) then Bad
      else if e.reply.None? then Broken
      else if e.reply.value.Ready? then MayRun
      else MustClose(e.reply.value.terminalState)
    case Transition(state, reason) =>
      if p.MayRun? && state == RUNNING && reason == STEP_STARTED then Acknowledged(e, Running)
      else if p.MustWait? && state == RUNNING && reason == p.reason then Acknowledged(e, MayYield(p.reason, p.retryAt))
      else if p.MustClose? && state == p.state && reason == ClosingReason(state) then Acknowledged(e, Closing)
      else if p.GaveUp? && state == "failed" && reason == FailureReason(p.retryable) then Over
      else Bad
    case Step =>
      if !p.Running? then Bad
      else if e.reply.None? then Broken
      else if e.reply.value.StepWaiting? then MustWait(e.reply.value.waitReason, e.reply.value.retryAt)
      else MustClose(e.reply.value.stepState)
    case Yield(_, runAt, reason, measured) =>
      if p.MayYield? && reason == p.reason && Due(job, reason, p.retryAt, measured, runAt)
      then Acknowledged(e, Done) else Bad
    case Teardown => if p.Closing? then Acknowledged(e, TornDown) else Bad
    case Complete =>
      if p.TornDown? || (p.Started? && job.kind.Noop?) then Acknowledged(e, Done) else Bad
    case Lookup => if p.Broken? then Broken else Bad
    case Fail(_, retryable) =>
      if Final(p) then Bad
      else if e.reply.Some? && LastTry(job, retryable) && job.kind.Lifecycle? then GaveUp(retryable)
      else Over
  }

  function PhaseOf(job: Job, log: seq<Entry>): Phase {
    if log == [] then Idle else Next(job, PhaseOf(job, log[..|log| - 1]), log[|log| - 1])
  }

  lemma NothingSent(job: Job)
    ensures PhaseOf(job, []).Idle?
  {
  }

  lemma PhaseAppend(job: Job, log: seq<Entry>, e: Entry)
    ensures PhaseOf(job, log + [e]) == Next(job, PhaseOf(job, log), e)
  {
    assert (log + [e])[..|log|] == log;
  }

  // ---------------------------------------------------------------- the worker

  datatype Ending =
    | Finished                       // the job was completed or yielded
    | Stopped                        // cancelled, or the lease was lost
    | Reported(terminal: bool)       // a failure was acknowledged
    | Escaped                        // an exception left the attempt

  const REJECTIONS := {"job_start_rejected", "job_complete_rejected", "job_yield_rejected"}

  predicate Rejection(exn: Exn) {
    !exn.Foreign? && exn.reason in REJECTIONS
  }

  /** Exceptions the worker raises itself, about a job or a reply that is not in order. */
  predicate OwnError(job: Job, exn: Exn) {
    && exn.Plain?
    && exn.reason in {"response_invalid", "agent_run_step_response_invalid", "unknown_job_kind",
                      "agent_run_lifecycle_binding_invalid"}
    && (exn.reason == "unknown_job_kind" ==> job.kind.Unknown?)
    && (exn.reason == "agent_run_lifecycle_binding_invalid" ==> !job.bindingOk)
  }

  /** What is raised, if anything, after calls and lease checks have thrown `thrown`: nothing
      is swallowed, and only a rejected call is looked into before it is raised. */
  predicate Raises(job: Job, thrown: seq<Exn>, e: Option<Exn>) {
    match e
    case None => thrown == []
    case Some(exn) =>
      || (thrown == [] && OwnError(job, exn))
      || thrown == [exn]
      || (|thrown| == 2 && Rejection(thrown[0]) && thrown[1] == exn)
      || (|thrown| == 1 && Rejection(thrown[0])
          && exn in {Cancelled("job_cancelled_during_worker_lease"), Plain("runtime_job_state_invalid")})
  }

  /** The same, from `before` on. */
  predicate RaisesSince(job: Job, before: seq<Exn>, thrown: seq<Exn>, e: Option<Exn>) {
    before <= thrown && Raises(job, thrown[|before|..], e)
  }

  lemma Raising(job: Job, before: seq<Exn>, thrown: seq<Exn>, e: Option<Exn>)
    ensures e.None? && RaisesSince(job, before, thrown, e) ==> thrown == before
    ensures e.None? ==> RaisesSince(job, before, before, e)
    ensures e.Some? ==> RaisesSince(job, before, before + [e.value], e)
    ensures e.Some? && OwnError(job, e.value) ==> RaisesSince(job, before, before, e)
    ensures RaisesSince(job, [], thrown, e) ==> Raises(job, thrown, e)
  {
    assert thrown[0..] == thrown && before[|before|..] == [];
    assert e.Some? ==> (before + [e.value])[|before|..] == [e.value];
    assert before <= thrown && thrown[|before|..] == [] ==> thrown == before;
  }

  /** The failure is worth another try. */
  predicate Passing(exn: Exn) {
    exn.Unavailable? || (exn.StepFailure? && exn.retryable)
  }

  /** The attempt ends without a word about the job: it was cancelled, or it is no longer
      this worker's, or nobody knows what happened. */
  predicate Silent(job: Job, exn: Exn) {
    exn.Cancelled? || exn.Foreign? || (exn.Plain? && (!job.kind.Lifecycle? || exn.reason == LEASE_LOST))
  }

  predicate FailsRun(call: Call) {
    call.Transition? && call.reason in {DEAD_LETTERED, STEP_FAILED}
  }

  /** Calls that are made only right after a lease check that raised nothing. */
  predicate NeedsLease(job: Job, call: Call) {
    || call.Step? || call.Yield? || (call.Complete? && job.kind.Noop?)
    || (call.Transition? && call.state != RUNNING && !FailsRun(call))
  }

  /** `guards` are the points of the log at which the lease was checked. */
  predicate Guarded(job: Job, log: seq<Entry>, guards: set<nat>) {
    forall i :: 0 <= i < |log| && NeedsLease(job, log[i].call) ==> i in guards
  }

  /** Calls made without a check. */
  lemma Unguarded(job: Job)
    ensures forall reason :: !NeedsLease(job, Transition(RUNNING, reason))
    ensures !NeedsLease(job, Resolve) && !NeedsLease(job, Start) && !NeedsLease(job, Teardown)
    ensures !NeedsLease(job, Lookup) && (job.kind.Lifecycle? ==> !NeedsLease(job, Complete))
    ensures forall reason, retryable :: !NeedsLease(job, Fail(reason, retryable))
    ensures forall retryable :: !NeedsLease(job, Transition("failed", FailureReason(retryable)))
  {
  }

  lemma FailureReasonFails(retryable: bool)
    ensures FailsRun(Transition("failed", FailureReason(retryable)))
  {
  }

  class Attempt {
    const job: Job
    const replies: nat -> Reply
    const lease: nat -> Option<Exn>  // what each lease check raises, if anything
    const clock: nat -> int
    var turn: nat
    ghost var log: seq<Entry>
    ghost var thrown: seq<Exn>       // by calls and lease checks
    ghost var guards: set<nat>

    ghost function Phase(): Phase
      reads this
    {
      PhaseOf(job, log)
    }

    constructor (job: Job, replies: nat -> Reply, lease: nat -> Option<Exn>, clock: nat -> int)
      ensures this.job == job && log == [] && thrown == [] && guards == {}
    {
      this.job, this.replies, this.lease, this.clock := job, replies, lease, clock;
      turn, log, thrown, guards := 0, [], [], {};
    }

    /** One request and its reply, whatever it is. */
    method Post(call: Call) returns (r: Reply, accepted: bool)
      requires NeedsLease(job, call) ==> |log| in guards
      modifies this`turn, this`log, this`thrown
      ensures old(Guarded(job, log, guards)) ==> Guarded(job, log, guards)
      ensures turn == old(turn) + 1 && r == replies(old(turn)) && (accepted <==> r.Got? && Accepts(job, call, r.body))
      ensures log == old(log) + [Entry(call, if accepted then Some(r.body) else None)]
      ensures Phase() == Next(job, old(Phase()), log[|log| - 1])
      ensures thrown == if r.Threw? then old(thrown) + [r.exn] else old(thrown)
    {
      r := replies(turn);
      turn := turn + 1;
      if r.Threw? { thrown := thrown + [r.exn]; }
      accepted := r.Got? && Accepts(job, call, r.body);
      ghost var entry := Entry(call, if accepted then Some(r.body) else None);
      PhaseAppend(job, log, entry);
      log := log + [entry];
    }

    /** A request whose reply is checked at once: nothing, or the exception raised. */
    method Send(call: Call) returns (e: Option<Exn>, body: Body)
      requires NeedsLease(job, call) ==> |log| in guards
      modifies this`turn, this`log, this`thrown
      ensures old(Guarded(job, log, guards)) ==> Guarded(job, log, guards)
      ensures e.None? ==> Accepts(job, call, body)
      ensures log == old(log) + [Entry(call, if e.None? then Some(body) else None)]
      ensures Phase() == Next(job, old(Phase()), log[|log| - 1])
      ensures RaisesSince(job, old(thrown), thrown, e)
      ensures match replies(old(turn))
              case Threw(exn) => e == Some(exn) && thrown == old(thrown) + [exn]
              case Got(b) => b == body && (e.None? <==> Accepts(job, call, b)) && thrown == old(thrown)
    {
      var r, accepted := Post(call);
      body := Otherwise;
      match r {
        case Threw(exn) => e := Some(exn);
        case Got(b) =>
          body := b;
          e := if accepted then None else Some(Plain("response_invalid"));
      }
      Raising(job, old(thrown), thrown, e);
    }

    method RequireHealthyLease() returns (e: Option<Exn>)
      modifies this`turn, this`thrown, this`guards
      ensures guards == if e.None? then old(guards) + {|log|} else old(guards)
      ensures old(Guarded(job, log, guards)) ==> Guarded(job, log, guards)
      ensures turn == old(turn) + 1 && e == lease(old(turn))
      ensures thrown == if e.Some? then old(thrown) + [e.value] else old(thrown)
      ensures RaisesSince(job, old(thrown), thrown, e)
    {
      e := lease(turn);
      turn := turn + 1;
      if e.Some? { thrown := thrown + [e.value]; } else { guards := guards + {|log|}; }
      Raising(job, old(thrown), thrown, e);
    }

    /** `raise_if_job_cancelled`: a rejected call may mean that the job was cancelled. */
    method RaiseIfCancelled(exn: Exn, rejected: string) returns (e: Exn)
      requires Phase().Broken?
      modifies this`turn, this`log, this`thrown
      ensures old(Guarded(job, log, guards)) ==> Guarded(job, log, guards)
      ensures Phase().Broken? && old(thrown) <= thrown
      ensures exn.Foreign? || exn.reason != rejected ==> 
                e == exn && log == old(log) && thrown == old(thrown)
      ensures !exn.Foreign? && exn.reason == rejected ==>
                match replies(old(turn))
                case Threw(other) =>
                  e == other && log == old(log) + [Entry(Lookup, None)] && thrown == old(thrown) + [other]
                case Got(body) =>
                  && log == old(log) + [Entry(Lookup, Some(body))] && thrown == old(thrown)
                  && (body == Status("cancelled") ==> e == Cancelled("job_cancelled_during_worker_lease"))
                  && (body.Status? && body.status != "cancelled" ==> e == exn)
                  && (!body.Status? ==> e == Plain("runtime_job_state_invalid"))
    {
      if exn.Foreign? || exn.reason != rejected { return exn; }
      var r, _ := Post(Lookup);
      match r {
        case Threw(other) => return other;
        case Got(body) =>
          if !body.Status? { return Plain("runtime_job_state_invalid"); }
          return if body.status == "cancelled" then Cancelled("job_cancelled_during_worker_lease") else exn;
      }
    }

    /** A call that a cancelled job rejects: start, complete or yield. */
    method SendForJob(call: Call, rejected: string) returns (e: Option<Exn>)
      requires (call.Start? || call.Complete? || call.Yield?) && rejected in REJECTIONS
      requires !Next(job, Phase(), Entry(call, None)).Bad?
      requires NeedsLease(job, call) ==> |log| in guards
      modifies this`turn, this`log, this`thrown
      ensures old(Guarded(job, log, guards)) ==> Guarded(job, log, guards)
      ensures old(log) <= log
      ensures e.None? ==> exists body :: log == old(log) + [Entry(call, Some(body))]
      ensures e.None? ==> Phase() == Next(job, old(Phase()), Entry(call, Some(Otherwise)))
      ensures e.Some? ==> Phase().Broken?
      ensures RaisesSince(job, old(thrown), thrown, e)
    {
      var body;
      e, body := Send(call);
      if e.Some? {
        var exn := RaiseIfCancelled(e.value, rejected);
        e := Some(exn);
      }
    }

    method FinishLifecycle(state: string) returns (e: Option<Exn>)
      requires Phase() == MustClose(state) && state in TERMINAL_STATES && job.kind.Lifecycle?
      requires Guarded(job, log, guards) && |log| in guards
      modifies this`turn, this`log, this`thrown
      ensures Guarded(job, log, guards)
      ensures old(log) <= log
      ensures e.None? ==> Phase().Done?
      ensures e.Some? ==> !Final(Phase())
      ensures RaisesSince(job, old(thrown), thrown, e)
    {
      hide ClosingReason, FailureReason, PhaseOf, RaisesSince;
      var body;
      e, body := Send(Transition(state, ClosingReason(state)));
      if e.Some? { return; }
      Raising(job, old(thrown), thrown, None);
      e, body := Send(Teardown);
      if e.Some? { return; }
      Raising(job, old(thrown), thrown, None);
      e := SendForJob(Complete, "job_complete_rejected");
    }

    method YieldAfter(reason: string, retryAt: int) returns (e: Option<Exn>)
      requires Phase() == MustWait(reason, retryAt) && Guarded(job, log, guards)
      modifies this
      ensures Guarded(job, log, guards)
      ensures old(log) <= log
      ensures e.None? ==> Phase().Done?
      ensures e.Some? ==> !Final(Phase())
      ensures RaisesSince(job, old(thrown), thrown, e)
    {
      hide RaisesSince, ClosingReason, FailureReason, PhaseOf;
      var body;
      e, body := Send(Transition(RUNNING, reason));
      if e.Some? { return; }
      Raising(job, old(thrown), thrown, None);
      e := RequireHealthyLease();
      if e.Some? { return; }
      var yieldedAt := clock(turn);
      var runAt :=
        if reason == RECOVERY then (if yieldedAt < retryAt then retryAt else yieldedAt)
        else if reason == "runtime_job_wait" then yieldedAt + RUNTIME_JOB_WAIT_RECHECK_MS
        else yieldedAt + job.recheckMs;
      turn := turn + 1;
      e := SendForJob(Yield(clock(turn), runAt, reason, yieldedAt), "job_yield_rejected");
    }

    /** `execute_agent_run_lifecycle_job`. */
    method ExecuteLifecycle() returns (e: Option<Exn>)
      requires Phase().Started? && job.kind.Lifecycle? && Guarded(job, log, guards)
      modifies this
      ensures old(log) <= log && Guarded(job, log, guards)
      ensures e.None? ==> Phase().Done?
      ensures e.Some? ==> !Final(Phase())
      ensures RaisesSince(job, old(thrown), thrown, e)
    {
      hide ClosingReason, FailureReason, PhaseOf, RaisesSince, Guarded, NeedsLease;
      Unguarded(job);
      if !job.bindingOk {
        e := Some(Plain("agent_run_lifecycle_binding_invalid"));
        Raising(job, thrown, thrown, e);
        return;
      }
      var body;
      e, body := Send(Resolve);
      if e.Some? { return; }
      Raising(job, old(thrown), thrown, None);
      if body.Terminal? {
        e := RequireHealthyLease();
          if e.Some? { return; }
        e := FinishLifecycle(body.terminalState);
        return;
      }
      e := RunStep();
    }

    /** The part after the run was found ready: one step, and what it asks for. */
    method RunStep() returns (e: Option<Exn>)
      requires Phase().MayRun? && job.kind.Lifecycle? && Guarded(job, log, guards)
      modifies this
      ensures old(log) <= log && Guarded(job, log, guards)
      ensures e.None? ==> Phase().Done?
      ensures e.Some? ==> !Final(Phase())
      ensures RaisesSince(job, old(thrown), thrown, e)
    {
      hide ClosingReason, FailureReason, PhaseOf, RaisesSince, Guarded, NeedsLease;
      Unguarded(job);
      var body;
      e, body := Send(Transition(RUNNING, STEP_STARTED));
      if e.Some? { return; }
      Raising(job, old(thrown), thrown, None);
      e := RequireHealthyLease();
      if e.Some? { return; }
      e := AskStep();
    }

    method AskStep() returns (e: Option<Exn>)
      requires Phase().Running? && job.kind.Lifecycle? && Guarded(job, log, guards) && |log| in guards
      modifies this
      ensures old(log) <= log && Guarded(job, log, guards)
      ensures e.None? ==> Phase().Done?
      ensures e.Some? ==> !Final(Phase())
      ensures RaisesSince(job, old(thrown), thrown, e)
    {
      hide ClosingReason, FailureReason, PhaseOf, RaisesSince, Guarded, NeedsLease;
      var r, accepted := Post(Step);
      if r.Threw? {
        Raising(job, old(thrown), thrown, Some(r.exn));
        return Some(r.exn);
      }
      e := RequireHealthyLease();
      if e.Some? { return; }
      if !accepted {
        e := Some(Plain("agent_run_step_response_invalid"));
        Raising(job, thrown, thrown, e);
        return;
      }
      if r.body.StepWaiting? {
        e := YieldAfter(r.body.waitReason, r.body.retryAt);
        return;
      }
      e := RequireHealthyLease();
      if e.Some? { return; }
      e := FinishLifecycle(r.body.stepState);
    }

    /** `fail_claimed_job`: report the failure, and end the run if it was the last try. */
    method FailClaimed(reason: string, retryable: bool) returns (r: Ending)
      requires !Final(Phase()) && Guarded(job, log, guards)
      modifies this`turn, this`log, this`thrown
      ensures Guarded(job, log, guards)
      ensures old(log) <= log && old(thrown) <= thrown && !Phase().Bad? && !Phase().Done?
      ensures Appends(job, old(log), log, reason, retryable) && !r.Stopped? && !r.Finished?
      ensures r.Reported? && !(r.terminal && job.kind.Lifecycle?) ==> Phase().Over?
      ensures r.Escaped? || r == Reported(LastTry(job, retryable))
      ensures r.Reported? ==> exists body :: Entry(Fail(reason, retryable), Some(body)) in log
      ensures r.Reported? && r.terminal && job.kind.Lifecycle? ==>
                && |log| >= |old(log)| + 2
                && log[|log| - 1].call == Transition("failed", FailureReason(retryable)) && log[|log| - 1].reply.Some?
    {
      hide ClosingReason, FailureReason, PhaseOf;
      if !ValidRetries(job) { return Escaped; }
      var terminal := LastTry(job, retryable);
      var e, body := Send(Fail(reason, retryable));
      if e.Some? { return Escaped; }
      assert log[|log| - 1] == Entry(Fail(reason, retryable), Some(body));
      if terminal && job.kind.Lifecycle? {
        if !job.bindingOk { return Escaped; }
        FailureReasonFails(retryable);
        e, body := Send(Transition("failed", FailureReason(retryable)));
        if e.Some? { return Escaped; }
      }
      r := Reported(terminal);
    }

    /** Everything before the exception handlers. */
    method Work() returns (e: Option<Exn>)
      requires log == [] && thrown == []
      modifies this
      ensures Guarded(job, log, guards)
      ensures e.None? ==> Phase().Done?
      ensures e.Some? ==> !Final(Phase())
      ensures RaisesSince(job, [], thrown, e)
    {
      hide ClosingReason, FailureReason, PhaseOf, RaisesSince;
      NothingSent(job);
      e := SendForJob(Start, "job_start_rejected");
      if e.Some? { return; }
      Raising(job, [], thrown, None);
      if job.kind.Unknown? {
        e := Some(Plain("unknown_job_kind"));
        Raising(job, thrown, thrown, e);
        return;
      }
      e := RequireHealthyLease();
      if e.Some? { return; }
      if job.kind.Noop? {
        e := RequireHealthyLease();
        if e.Some? { return; }
        e := SendForJob(Complete, "job_complete_rejected");
      } else {
        e := ExecuteLifecycle();
      }
    }

    /** `_execute_claimed_job`: however calls and lease checks fail, the attempt stays
        within the automaton, and its ending says which state it left the job in. `raised`
        is the exception that ended the work, `met` what had been thrown by then. What is
        reported of the job is decided by that exception alone. */
    method Execute() returns (r: Ending, ghost raised: Option<Exn>, ghost met: seq<Exn>)
      requires log == [] && thrown == []
      modifies this
      ensures !Phase().Bad? && Guarded(job, log, guards)
      ensures r.Finished? <==> Phase().Done?
      ensures r.Stopped? ==> !Final(Phase())
      ensures r.Reported? ==>
              exists e :: e in log && e.call.Fail? && e.reply.Some? && r.terminal == LastTry(job, e.call.retryable)
      ensures r.Reported? && job.kind.Lifecycle? ==>
                if r.terminal then log != [] && log[|log| - 1].call.Transition? && log[|log| - 1].call.state == "failed"
                                   && log[|log| - 1].reply.Some?
                else Phase().Over?
      ensures met <= thrown && Raises(job, met, raised) && (raised.None? <==> r.Finished?)
      ensures raised.Some? ==> Tells(job, log, r, raised.value)
      ensures raised.None? ==> NothingFailed(log)
      ensures met != [] && (forall x :: x in met ==> x.Unavailable? && !Rejection(x)) && !LastTry(job, true) ==>
                forall e :: e in log ==> !FailsRun(e.call)
    {
      hide Next, PhaseOf, Accepts, FailureReason, ClosingReason, ValidRetries, Raises, RaisesSince, OwnError, LastTry,
           Guarded, Rejection;
      var e := Work();
      raised, met := e, thrown;
      Raising(job, [], thrown, e);
      NothingReported(job, log);
      OutageRaises(job, met, raised);
      if e.None? { return Finished, raised, met; }
      r := Handle(e.value);
    }

    /** The exception handlers. */
    method Handle(exn: Exn) returns (r: Ending)
      requires !Final(Phase()) && Guarded(job, log, guards)
      requires NothingFailed(log)
      modifies this`turn, this`log, this`thrown
      ensures !Phase().Bad? && !Phase().Done? && Guarded(job, log, guards) && !r.Finished? && old(thrown) <= thrown
      ensures r.Stopped? ==> !Final(Phase())
      ensures r.Reported? ==>
              exists e :: e in log && e.call.Fail? && e.reply.Some? && r.terminal == LastTry(job, e.call.retryable)
      ensures r.Reported? && job.kind.Lifecycle? ==>
                if r.terminal then log != [] && log[|log| - 1].call.Transition? && log[|log| - 1].call.state == "failed"
                                   && log[|log| - 1].reply.Some?
                else Phase().Over?
      ensures Tells(job, log, r, exn)
    {
      hide Next, PhaseOf, Accepts, FailureReason, ClosingReason, ValidRetries, LastTry, Guarded, Appends, Tells,
           NothingFailed;
      ghost var before := log;
      match exn {
        case Cancelled(_) => r := Stopped;
        case Unavailable(_) =>
          r := FailClaimed("dependency_unavailable", true);
          TellsByReport(job, before, log, r, exn, "dependency_unavailable", true);
          return;
        case StepFailure(reason, retryable) =>
          r := FailClaimed(reason, retryable);
          TellsByReport(job, before, log, r, exn, reason, retryable);
          return;
        case Plain(reason) =>
          if !job.kind.Lifecycle? {
            r := Escaped;
          } else if reason == LEASE_LOST {
            r := Stopped;
          } else {
            r := FailClaimed("agent_run_lifecycle_failed", false);
            TellsByReport(job, before, log, r, exn, "agent_run_lifecycle_failed", false);
            return;
          }
        case Foreign => r := Escaped;
      }
      TellsBySilence(job, log, r, exn);
    }
  }

  lemma TellsByReport(job: Job, before: seq<Entry>, log: seq<Entry>, r: Ending, exn: Exn,
                      reason: string, retryable: bool)
    requires NothingFailed(before) && Appends(job, before, log, reason, retryable)
    requires Reports(exn, Fail(reason, retryable)) && !Silent(job, exn) && !r.Stopped?
    ensures Tells(job, log, r, exn)
  {
    hide ValidRetries, LastTry;
    forall i | 0 <= i < |log|
      ensures log[i].call.Fail? ==> log[i].call == Fail(reason, retryable) && i == |before|
      ensures FailsRun(log[i].call) ==> i == |before| + 1
    {
      if i < |before| { assert log[i] == before[i] && before[i] in before; }
    }
    if ValidRetries(job) {
      assert log[|before|] in log;
      if |log| == |before| + 2 { assert log[|before| + 1] in log; }
    }
  }

  lemma TellsBySilence(job: Job, log: seq<Entry>, r: Ending, exn: Exn)
    requires NothingFailed(log) && Silent(job, exn)
    requires r.Stopped? <==> exn.Cancelled? || (exn == Plain(LEASE_LOST) && job.kind.Lifecycle?)
    ensures Tells(job, log, r, exn)
  {
  }

  /** A report of this failure, if the job's retries are in order, and then at most the
      transition that fails the run, on the last try. */
  predicate Appends(job: Job, before: seq<Entry>, log: seq<Entry>, reason: string, retryable: bool) {
    && before <= log
    && (if !ValidRetries(job) then log == before
        else && |log| > |before| && log[|before|].call == Fail(reason, retryable)
             && |log| <= |before| + 2
             && (|log| == |before| + 2 <==>
                   log[|before|].reply.Some? && LastTry(job, retryable) && job.kind.Lifecycle? && job.bindingOk)
             && (|log| == |before| + 2 ==> FailsRun(log[|before| + 1].call)))
  }

  predicate NothingFailed(log: seq<Entry>) {
    forall e :: e in log ==> !e.call.Fail? && !FailsRun(e.call)
  }

  predicate Reports(exn: Exn, call: Call) {
    && call.Fail? && (call.retryable <==> Passing(exn))
    && call.reason == match exn
                      case Unavailable(_) => "dependency_unavailable"
                      case StepFailure(reason, _) => reason
                      case _ => "agent_run_lifecycle_failed"
  }

  /** What the log and the ending of an attempt say of the exception that ended it: a report
      is made exactly when there is something to report, it repeats the exception and calls
      it worth another try exactly when it is; the run is failed exactly when the last try has
      been reported and acknowledged. */
  predicate Tells(job: Job, log: seq<Entry>, r: Ending, exn: Exn) {
    && (forall e :: e in log && e.call.Fail? ==> Reports(exn, e.call) && !Silent(job, exn))
    && (!Silent(job, exn) && ValidRetries(job) ==> exists e :: e in log && e.call.Fail?)
    && ((exists e :: e in log && FailsRun(e.call)) <==>
          && (exists e :: e in log && e.call.Fail? && e.reply.Some?)
          && LastTry(job, Passing(exn)) && job.kind.Lifecycle? && job.bindingOk)
    && (r.Stopped? <==> exn.Cancelled? || (exn == Plain(LEASE_LOST) && job.kind.Lifecycle?))
  }

  /** If everything that went wrong is that something could not be reached, that is what is
      raised. */
  lemma OutageRaises(job: Job, met: seq<Exn>, raised: Option<Exn>)
    requires Raises(job, met, raised)
    ensures met != [] && (forall x :: x in met ==> x.Unavailable? && !Rejection(x)) ==>
              raised.Some? && raised.value.Unavailable?
  {
    hide OwnError, Rejection;
    assert forall i :: 0 <= i < |met| ==> met[i] in met;
  }

  /** While the job is not settled by a report, there was none, and the run was not failed. */
  lemma {:induction false} NothingReported(job: Job, log: seq<Entry>)
    ensures var p := PhaseOf(job, log);
            !p.Bad? && !p.GaveUp? && !p.Over? ==> NothingFailed(log)
    decreases |log|
  {
    if log != [] {
      NothingReported(job, log[..|log| - 1]);
      WaitsForKnownReason(job, log, |log| - 1);
      assert log == log[..|log| - 1] + [log[|log| - 1]];
      FinalIsFinal(job, PhaseOf(job, log[..|log| - 1]), log[|log| - 1]);
    }
  }

  lemma FinalIsFinal(job: Job, p: Phase, e: Entry)
    requires p.MustWait? ==> p.reason in WAITING_REASONS
    ensures p.Bad? || p.GaveUp? || p.Over? || e.call.Fail? || FailsRun(e.call) ==>
              Next(job, p, e).Bad? || Next(job, p, e).Over? || Next(job, p, e).GaveUp?
  {
  }

  // ---------------------------------------------------------------- what the automaton guarantees

  predicate Settles(e: Entry) {
    e.reply.Some? && (e.call.Complete? || e.call.Yield? || e.call.Fail?)
  }

  predicate Lawful(job: Job, log: seq<Entry>) {
    !PhaseOf(job, log).Bad?
  }

  lemma LawfulPrefix(job: Job, log: seq<Entry>, n: nat)
    requires Lawful(job, log) && n <= |log|
    ensures Lawful(job, log[..n])
    decreases |log|
  {
    if n < |log| {
      assert log[..|log| - 1][..n] == log[..n];
      LawfulPrefix(job, log[..|log| - 1], n);
    } else {
      assert log[..n] == log;
    }
  }

  lemma SettledPhase(job: Job, p: Phase, e: Entry)
    requires Settles(e) && !Next(job, p, e).Bad?
    ensures Final(Next(job, p, e))
    ensures Next(job, p, e).GaveUp? ==> e.call.Fail?
  {
  }

  lemma FinalStays(job: Job, p: Phase, e: Entry)
    requires Final(p) && !Next(job, p, e).Bad?
    ensures p.GaveUp? && e.call.Transition? && Next(job, p, e).Over?
  {
  }

  /** After a settling call only the transition after a terminal failure is left. */
  lemma {:induction false} AfterSettling(job: Job, log: seq<Entry>, i: nat, j: nat)
    requires Lawful(job, log) && i < j < |log| && Settles(log[i])
    ensures log[i].call.Fail? && log[j].call.Transition? && j == i + 1
    ensures PhaseOf(job, log[..j + 1]).Over?
    decreases j
  {
    hide Next, PhaseOf, Settles, Final;
    LawfulPrefix(job, log, j + 1);
    LawfulPrefix(job, log, i + 1);
    PhaseStep(job, log, i);
    PhaseStep(job, log, j);
    SettledPhase(job, PhaseOf(job, log[..i]), log[i]);
    if i + 1 < j { AfterSettling(job, log, i, j - 1); }
    assert Final(PhaseOf(job, log[..j])) by { OverIsFinal(); }
    FinalStays(job, PhaseOf(job, log[..j]), log[j]);
  }

  lemma OverIsFinal()
    ensures Final(Over)
  {
  }

  lemma PhaseStep(job: Job, log: seq<Entry>, i: nat)
    requires i < |log|
    ensures PhaseOf(job, log[..i + 1]) == Next(job, PhaseOf(job, log[..i]), log[i])
  {
    assert log[..i + 1][..i] == log[..i];
  }

  /** At most one of complete, yield and fail is acknowledged in an attempt. */
  lemma SettledOnce(job: Job, log: seq<Entry>, i: nat, j: nat)
    requires Lawful(job, log) && i < |log| && j < |log| && Settles(log[i]) && Settles(log[j])
    ensures i == j
  {
    if i < j { AfterSettling(job, log, i, j); }
    if j < i { AfterSettling(job, log, j, i); }
  }

  /** Nothing at all is sent after an acknowledged complete or yield. */
  lemma NothingAfterDone(job: Job, log: seq<Entry>, i: nat)
    requires Lawful(job, log) && i < |log| && log[i].reply.Some? && (log[i].call.Complete? || log[i].call.Yield?)
    ensures i == |log| - 1
  {
    if i < |log| - 1 { AfterSettling(job, log, i, i + 1); }
  }

  /** The run is moved to `failed` for a failed attempt only directly after an
      acknowledged failure report that was the last try. */
  lemma FailedOnlyAfterReport(job: Job, log: seq<Entry>, j: nat)
    requires Lawful(job, log) && j < |log| && log[j].call.Transition?
    requires log[j].call.reason == DEAD_LETTERED || log[j].call.reason == STEP_FAILED
    ensures j > 0 && log[j - 1].call.Fail? && log[j - 1].reply.Some? && LastTry(job, log[j - 1].call.retryable)
    ensures log[j].call.state == "failed" && (log[j].call.reason == DEAD_LETTERED <==> log[j - 1].call.retryable)
  {
    hide Next, PhaseOf, LastTry;
    LawfulPrefix(job, log, j + 1);
    PhaseStep(job, log, j);
    WaitsForKnownReason(job, log, j);
    OnlyGivingUpMoves(job, PhaseOf(job, log[..j]), log[j]);
    if j > 0 {
      PhaseStep(job, log, j - 1);
      GaveUpBy(job, PhaseOf(job, log[..j - 1]), log[j - 1]);
    } else {
      assert PhaseOf(job, log[..0]).Idle? by { NothingSent(job); }
    }
  }

  lemma OnlyGivingUpMoves(job: Job, p: Phase, e: Entry)
    requires p.MustWait? ==> p.reason in WAITING_REASONS
    requires e.call.Transition? && (e.call.reason == DEAD_LETTERED || e.call.reason == STEP_FAILED)
    ensures Next(job, p, e).Bad? || p.GaveUp?
    ensures Next(job, p, e).Bad? || (e.call.state == "failed" && (e.call.reason == DEAD_LETTERED <==> p.retryable))
  {
  }

  lemma GaveUpBy(job: Job, p: Phase, e: Entry)
    ensures Next(job, p, e).GaveUp? ==> e.call.Fail? && e.reply.Some? && LastTry(job, e.call.retryable)
    ensures Next(job, p, e).GaveUp? ==> Next(job, p, e).retryable == e.call.retryable
  {
  }

  lemma {:induction false} WaitsForKnownReason(job: Job, log: seq<Entry>, n: nat)
    requires n <= |log|
    ensures var p := PhaseOf(job, log[..n]); p.MustWait? || p.MayYield? ==> p.reason in WAITING_REASONS
  {
    if n > 0 {
      WaitsForKnownReason(job, log, n - 1);
      PhaseStep(job, log, n - 1);
    }
  }

  /** What the runtime has asked for last. */
  predicate Asked(p: Phase, log: seq<Entry>) {
    match p
    case MustClose(state) =>
      log != [] && (log[|log| - 1].reply == Some(Terminal(state)) || log[|log| - 1].reply == Some(StepTerminal(state)))
    case MustWait(reason, retryAt) => log != [] && log[|log| - 1].reply == Some(StepWaiting(reason, retryAt))
    case MayYield(reason, retryAt) => |log| > 1 && log[|log| - 2].reply == Some(StepWaiting(reason, retryAt))
    case _ => true
  }

  lemma {:induction false} PhaseIsAsked(job: Job, log: seq<Entry>)
    ensures Asked(PhaseOf(job, log), log)
  {
    if log != [] { PhaseIsAsked(job, log[..|log| - 1]); }
  }

  /** The worker does what it was told: a run is closed in the state that was reported for it,
      and a job is yielded for the reason and the deadline the step has returned. */
  lemma DoesAsAsked(job: Job, log: seq<Entry>, j: nat)
    requires Lawful(job, log) && j < |log|
    ensures var c := log[j].call;
            && (c.Transition? && c.state != RUNNING && !FailsRun(c) ==>
                  && j > 0 && (c.reason == "agent_run_cancelled" <==> c.state == "cancelled")
                  && (log[j - 1].reply == Some(Terminal(c.state)) || log[j - 1].reply == Some(StepTerminal(c.state))))
            && (c.Yield? ==>
                  && j > 1 && log[j - 2].reply.Some? && log[j - 2].reply.value.StepWaiting?
                  && log[j - 2].reply.value.waitReason == c.reason
                  && Due(job, c.reason, log[j - 2].reply.value.retryAt, c.measured, c.runAt))
  {
    hide PhaseOf, Due;
    LawfulPrefix(job, log, j + 1);
    PhaseStep(job, log, j);
    PhaseIsAsked(job, log[..j]);
    GivenUpFails(job, PhaseOf(job, log[..j]), log[j]);
  }

  lemma GivenUpFails(job: Job, p: Phase, e: Entry)
    ensures p.GaveUp? && e.call.Transition? && !Next(job, p, e).Bad? ==> FailsRun(e.call)
  {
  }

  // ---------------------------------------------------------------- the shape of a finished attempt

  datatype Verb = VStart | VResolve | VTransition | VStep | VTeardown | VComplete | VYield | VFail | VLookup

  function VerbOf(c: Call): Verb {
    match c
    case Start => VStart
    case Resolve => VResolve
    case Transition(_, _) => VTransition
    case Step => VStep
    case Teardown => VTeardown
    case Complete => VComplete
    case Yield(_, _, _, _) => VYield
    case Fail(_, _) => VFail
    case Lookup => VLookup
  }

  function Verbs(log: seq<Entry>): (vs: seq<Verb>)
    ensures |vs| == |log|
  {
    seq(|log|, i requires 0 <= i < |log| => VerbOf(log[i].call))
  }

  const STEPPED := [VStart, VResolve, VTransition, VStep]

  /** The calls that lead to a phase, all acknowledged. */
  predicate LeadsTo(job: Job, p: Phase, vs: seq<Verb>) {
    match p
    case Idle => vs == []
    case Started => vs == [VStart]
    case MayRun => vs == [VStart, VResolve]
    case MustClose(_) => vs == [VStart, VResolve] || vs == STEPPED
    case Running => vs == [VStart, VResolve, VTransition]
    case MustWait(_, _) => vs == STEPPED
    case MayYield(_, _) => vs == STEPPED + [VTransition]
    case Closing => vs == [VStart, VResolve, VTransition] || vs == STEPPED + [VTransition]
    case TornDown => vs == [VStart, VResolve, VTransition, VTeardown] || vs == STEPPED + [VTransition, VTeardown]
    case Done =>
      || vs == STEPPED + [VTransition, VYield]
      || vs == [VStart, VResolve, VTransition, VTeardown, VComplete]
      || vs == STEPPED + [VTransition, VTeardown, VComplete]
      || (job.kind.Noop? && vs == [VStart, VComplete])
    case _ => true
  }

  /** An attempt that finished made exactly the calls of one of four paths: step and
      yield, close at once, step and close, or a job with nothing to do. */
  lemma {:induction false} ShapeOfAttempt(job: Job, log: seq<Entry>)
    ensures LeadsTo(job, PhaseOf(job, log), Verbs(log))
  {
    if log != [] {
      var front, last := log[..|log| - 1], log[|log| - 1];
      ShapeOfAttempt(job, front);
      assert Verbs(log) == Verbs(front) + [VerbOf(last.call)];
    }
  }

  /** And each of them was acknowledged. */
  lemma {:induction false} FinishedIsAcknowledged(job: Job, log: seq<Entry>, i: nat)
    requires var p := PhaseOf(job, log); !(p.Broken? || p.GaveUp? || p.Over? || p.Bad?)
    requires i < |log|
    ensures log[i].reply.Some?
  {
    var front, last := log[..|log| - 1], log[|log| - 1];
    if i < |log| - 1 {
      FinishedIsAcknowledged(job, front, i);
      assert front[i] == log[i];
    }
  }
}
