/**
  SubmitCmd and ResetAllCmd hold the submission lock, but CompleteCmd takes no lock: what goes wrong for that reason,
  and exactly when.  The request SubmitCmd goes to evict, or ResetAllCmd to complete, may be gone when it gets
  there, and a null pointer is used; a request completed by a reset may be completed again; and a reset
  that sets the counter in the middle of a completion leaves it below zero, with the throttle closed.
  QueueRuns.dfy has runs that get there.
*/
module QueueRace {
  import opened NvmeTypes
  import opened Ring
  import opened QueueModel
  import opened QueueProtocol
  import opened QueueRings
  import opened QueueRequests
  import opened QueueTheorems
  import opened QueueRefinement

  // ---- Between two accesses to a slot ----

  /** In the course of the run CompleteCmd takes out what is in slot `i`. */
  ghost predicate TakesOut<R>(s: State<R>, steps: seq<Step<R>>, i: nat)
    requires WellFormed(s) && ValidRun(s, steps)
    decreases |steps|
  {
    steps != [] && (
      || (steps[0].PopStep? && s.cpc.cpl.cid == i)
      || (ApplyWellFormed(s, steps[0]); TakesOut(Apply(s, steps[0]), steps[1..], i)))
  }

  /** The slot the holder of the lock comes back to: to evict, to complete or to clear. */
  function Awaited<R>(pc: SubmitPc<R>): Option<nat> {
    match pc
    case SRefused(_, cmd) => Some(cmd.cid)
    case RTell(i) => Some(i)
    case RClear(i) => Some(i)
    case _ => None
  }

  ghost predicate Waits<R>(s: State<R>)
    requires WellFormed(s)
  {
    Awaited(s.spc).Some? && Awaited(s.spc).value < |s.drv.history|
  }

  predicate ComesBack<R>(step: Step<R>) {
    step.EvictStep? || step.TellStep? || step.ClearStep?
  }

  ghost predicate NotYetBack<R>(steps: seq<Step<R>>) {
    forall i :: 0 <= i < |steps| ==> !ComesBack(steps[i])
  }

  /** Until the holder of the lock comes back, nothing but CompleteCmd touches the slot. */
  lemma WaitingStep<R>(s: State<R>, step: Step<R>)
    requires WellFormed(s) && Waits(s) && Enabled(s, step) && !ComesBack(step)
    ensures WellFormed(Apply(s, step)) && Apply(s, step).spc == s.spc
    ensures |Apply(s, step).drv.history| == |s.drv.history|
    ensures var i := Awaited(s.spc).value;
            Apply(s, step).drv.history[i] == if step.PopStep? && s.cpc.cpl.cid == i then None else s.drv.history[i]
  {
    ApplyWellFormed(s, step);
  }

  lemma {:induction false} WaitingRun<R>(s: State<R>, steps: seq<Step<R>>)
    requires WellFormed(s) && Waits(s) && ValidRun(s, steps) && NotYetBack(steps)
    ensures var s', i := After(s, steps), Awaited(s.spc).value;
            && s'.spc == s.spc && |s'.drv.history| == |s.drv.history|
            && s'.drv.history[i] == if TakesOut(s, steps, i) then None else s.drv.history[i]
    decreases |steps|
  {
    if steps != [] {
      WaitingStep(s, steps[0]);
      assert forall i :: 0 <= i < |steps[1..]| ==> steps[1..][i] == steps[i + 1];
      WaitingRun(Apply(s, steps[0]), steps[1..]);
    }
  }

  /**
    Whatever the queue went through before: when a push is refused, the eviction that follows uses a null pointer
    exactly when CompleteCmd takes the request out of that slot in between, and otherwise evicts the
    request that refused it.
   */
  lemma EvictionRaceTheorem<R>(s: State<R>, between: seq<Step<R>>)
    requires WellFormed(s) && Enabled<R>(s, PushStep) && Apply(s, PushStep).spc.SRefused?
    requires WellFormed(Apply(s, PushStep)) && ValidRun(Apply(s, PushStep), between) && NotYetBack(between)
    ensures var s1, cid := Apply(s, PushStep), s.spc.cmd.cid;
            var s2 := After(s1, between);
            && cid < |s.drv.history| && s.drv.history[cid].Some?
            && Enabled(s2, EvictStep)
            && Apply(s2, EvictStep).spc
               == if TakesOut(s1, between, cid) then SCrashed
                  else SEvicted(s.spc.req, s.spc.cmd, s.drv.history[cid].value)
  {
    WaitingRun(Apply(s, PushStep), between);
  }

  /** When a reset finds a slot occupied, its completion uses a null pointer exactly when CompleteCmd was faster. */
  lemma TellRaceTheorem<R>(s: State<R>, between: seq<Step<R>>)
    requires WellFormed(s) && Enabled<R>(s, LookStep) && Apply(s, LookStep).spc.RTell?
    requires WellFormed(Apply(s, LookStep)) && ValidRun(Apply(s, LookStep), between) && NotYetBack(between)
    ensures var s1, i := Apply(s, LookStep), s.spc.i;
            var s2 := After(s1, between);
            && i < |s.drv.history| && s.drv.history[i].Some?
            && Enabled(s2, TellStep)
            && (TakesOut(s1, between, i) ==> Apply(s2, TellStep).spc.RCrashed?)
            && (!TakesOut(s1, between, i) ==>
                  && Apply(s2, TellStep).spc == RClear(i)
                  && Apply(s2, TellStep).log.notes == s2.log.notes + [Note(s.drv.history[i].value, SrbBusReset)])
  {
    WaitingRun(Apply(s, LookStep), between);
  }

  /** A slot that is empty cannot be taken out of again. */
  lemma {:induction false} EmptyWaits<R>(s: State<R>, steps: seq<Step<R>>, req: R)
    requires WellFormed(s) && s.spc.RClear? && Waits(s) && s.drv.history[s.spc.i].None?
    requires ValidRun(s, steps) && NotYetBack(steps)
    ensures !Overlaps(s, steps, req)
    decreases |steps|
  {
    if steps != [] {
      WaitingStep(s, steps[0]);
      assert forall i :: 0 <= i < |steps[1..]| ==> steps[1..][i] == steps[i + 1];
      EmptyWaits(Apply(s, steps[0]), steps[1..], req);
    }
  }

  lemma {:induction false} ClearWaits<R>(s: State<R>, steps: seq<Step<R>>, req: R)
    requires WellFormed(s) && s.spc.RClear? && Waits(s) && s.drv.history[s.spc.i] == Some(req)
    requires ValidRun(s, steps) && NotYetBack(steps)
    ensures Overlaps(s, steps, req) <==> TakesOut(s, steps, s.spc.i)
    decreases |steps|
  {
    if steps != [] {
      WaitingStep(s, steps[0]);
      assert forall i :: 0 <= i < |steps[1..]| ==> steps[1..][i] == steps[i + 1];
      var s1 := Apply(s, steps[0]);
      if s1.drv.history[s1.spc.i].Some? {
        ClearWaits(s1, steps[1..], req);
      } else {
        EmptyWaits(s1, steps[1..], req);
      }
    }
  }

  /**
    Between the completion of a request by a reset and the store of null in its slot, the request is completed
    once too often exactly when CompleteCmd takes it out of that slot.
   */
  lemma ClearRaceTheorem<R>(s: State<R>, between: seq<Step<R>>)
    requires WellFormed(s) && Enabled<R>(s, TellStep) && Apply(s, TellStep).spc.RClear?
    requires WellFormed(Apply(s, TellStep)) && ValidRun(Apply(s, TellStep), between) && NotYetBack(between)
    ensures var s1, i := Apply(s, TellStep), s.spc.i;
            && i < |s.drv.history| && s.drv.history[i].Some?
            && var req, s2 := s.drv.history[i].value, After(s1, between);
               && (Times(s2.log.twice, req) > Times(s.log.twice, req) <==> TakesOut(s1, between, i))
               && Enabled(s2, ClearStep)
               && |s2.drv.history| == |s.drv.history|
               && (s2.drv.history[i].None? <==> TakesOut(s1, between, i))
  {
    var s1 := Apply(s, TellStep);
    WaitingRun(s1, between);
    ClearWaits(s1, between, s.drv.history[s.spc.i].value);
    TwiceRun(s1, between, s.drv.history[s.spc.i].value);
  }

  // ---- Small queues ----

  lemma EmptySlots<R>(history: seq<Option<R>>, i: nat)
    requires i < |history| && Occupied(history) == 0
    ensures history[i] == None
  {
    OccupiedUpdate(history, i, None);
  }

  ghost predicate NeverEvicts<R>(s: State<R>) {
    StillCounted(s.log.caught) == 0 ==> !Replacing(s.spc) && !s.spc.SCrashed?
  }

  lemma SmallPush<R>(s: State<R>)
    requires CoreInv(s) && Throttled(s) && s.drv.depth <= SAFE_SUBMIT_THRESHOLD + 1
    requires NeverEvicts(s) && Enabled<R>(s, PushStep)
    ensures NeverEvicts(Apply(s, PushStep))
  {
    if StillCounted(s.log.caught) == 0 && s.spc.cmd.cid < |s.drv.history| {
      EmptySlots(s.drv.history, s.spc.cmd.cid);
    }
  }

  lemma SmallQuiet<R>(s: State<R>, step: Step<R>)
    requires WellFormed(s) && NeverEvicts(s) && Enabled(s, step) && !step.PushStep?
    ensures NeverEvicts(Apply(s, step))
  {
  }

  lemma SmallStep<R>(s: State<R>, step: Step<R>)
    requires CoreInv(s) && Throttled(s) && s.drv.depth <= SAFE_SUBMIT_THRESHOLD + 1
    requires NeverEvicts(s) && Enabled(s, step)
    ensures NeverEvicts(Apply(s, step))
  {
    if step.PushStep? {
      SmallPush(s);
    } else {
      SmallQuiet(s, step);
    }
  }

  lemma {:induction false} SmallRun<R>(s: State<R>, steps: seq<Step<R>>)
    requires CoreInv(s) && Throttled(s) && s.drv.depth <= SAFE_SUBMIT_THRESHOLD + 1
    requires NeverEvicts(s) && ValidRun(s, steps)
    ensures NeverEvicts(After(s, steps))
    decreases |steps|
  {
    if steps != [] {
      SmallStep(s, steps[0]);
      StepKeepsCore(s, steps[0]);
      ApplyWellFormed(s, steps[0]);
      SmallRun(Apply(s, steps[0]), steps[1..]);
    }
  }

  /**
    With 8 or 9 entries there is never a second request for a push to meet: nothing is evicted, unless the last reset
    came when a completion had taken its request out and not uncounted it.  With ten there can be
    (`NullPointerRace` in QueueRuns.dfy).
   */
  lemma SmallQueuesTheorem<R>(s0: State<R>, steps: seq<Step<R>>)
    requires Init(s0) && Throttled(s0) && s0.drv.depth <= SAFE_SUBMIT_THRESHOLD + 1 && ValidRun(s0, steps)
    ensures NeverEvicts(After(s0, steps))
  {
    InitCore(s0);
    SmallRun(s0, steps);
  }

  // ---- A reset in the middle of a completion ----

  ghost function ResetAndCount<R>(): seq<Step<R>> {
    [ResetStep, DecrementStep]
  }

  /** Between the completion of a request and its decrement a reset takes the counter to -1. */
  lemma ResetInCompletion<R>(s: State<R>)
    requires WellFormed(s) && s.spc.SIdle? && s.cpc.CNotified?
    ensures ValidRun(s, ResetAndCount())
    ensures var s' := After(s, ResetAndCount());
            && s'.drv.inflight == -1 && s'.spc.SIdle?
            && (s.drv.depth >= SAFE_SUBMIT_THRESHOLD ==> !IsSafeForSubmit(s'.drv.depth, s'.drv.inflight))
  {
    RunOne<R>(s, ResetStep);
    ResetFrame(s);
    RunMore(s, [ResetStep], DecrementStep);
    assert ResetAndCount<R>() == [ResetStep] + [DecrementStep];
    if s.drv.depth >= SAFE_SUBMIT_THRESHOLD {
      ThrottleMeans(s.drv.depth, -1);
    }
  }

  /** The throttle is closed with nothing in the table. */
  ghost predicate Stuck<R>(s: State<R>) {
    CoreInv(s) && Throttled(s) && s.spc.SIdle? && s.drv.inflight == -1
  }

  lemma StuckStep<R>(s: State<R>, step: Step<R>)
    requires Stuck(s) && Enabled(s, step) && !step.ResetStep? && !IsCut(step)
    ensures Stuck(Apply(s, step))
  {
    StepKeepsCore(s, step);
    ThrottleMeans(s.drv.depth, s.drv.inflight);
  }

  /** From there on every SubmitCmd is refused as busy, until the next reset. */
  lemma {:induction false} StuckForever<R>(s: State<R>, steps: seq<Step<R>>, req: R, cmd: Command)
    requires Stuck(s) && ValidRun(s, steps) && NoReset(steps)
    ensures var s' := After(s, steps);
            Stuck(s') && (s'.drv.ready ==> Submit(s'.drv, req, cmd).status == StatusDeviceBusy)
    decreases |steps|
  {
    if steps == [] {
      ThrottleMeans(s.drv.depth, s.drv.inflight);
    } else {
      NoResetTail(steps);
      StuckStep(s, steps[0]);
      StuckForever(Apply(s, steps[0]), steps[1..], req, cmd);
    }
  }

  lemma ResetOnTail<R>(s: State<R>)
    requires WellFormed(s) && RingInv(s) && Enabled<R>(s, ResetStep)
    requires s.log.submitted - s.log.consumed < s.drv.depth
    ensures var s' := Apply(s, ResetStep);
            && WellFormed(s') && s'.cpc == s.cpc && s'.drv.depth == s.drv.depth
            && s'.drv.cplHead == s'.drv.subTail == Slot(s.log.submitted, s.drv.depth)
  {
    ApplyWellFormed<R>(s, ResetStep);
    ResetLands(s);
    ResetFrame(s);
  }

  lemma HeadMoves<R>(s: State<R>, position: nat)
    requires WellFormed(s) && Enabled<R>(s, AdvanceStep) && s.drv.cplHead == Slot(position, s.drv.depth)
    ensures Apply(s, AdvanceStep).drv.cplHead == Slot(position + 1, s.drv.depth)
    ensures Apply(s, AdvanceStep).drv.subTail == s.drv.subTail
  {
    Next(position, s.drv.depth);
  }

  /** Between the decrement and the step of the head a reset takes the head one entry beyond the tail. */
  lemma ResetBeforeHead<R>(s: State<R>)
    requires WellFormed(s) && RingInv(s) && s.spc.SIdle? && s.cpc.CCounted?
    requires s.log.submitted - s.log.consumed < s.drv.depth
    ensures var s1 := Apply(s, ResetStep);
            && WellFormed(s1) && Enabled(s1, AdvanceStep)
            && s1.drv.cplHead == s1.drv.subTail == Slot(s.log.submitted, s.drv.depth)
            && Apply(s1, AdvanceStep).drv.cplHead == Slot(s.log.submitted + 1, s.drv.depth)
  {
    ResetOnTail(s);
    HeadMoves(Apply(s, ResetStep), s.log.submitted);
  }
}
