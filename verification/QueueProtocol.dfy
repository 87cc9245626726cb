/**
  A queue pair as a transition system: the driver's operations cut into their accesses to shared
  state, interleaved with each other and with a controller (NVMe 1.3, sections 4.1, 4.6 and 7.2).

  SubmitCmd runs under the submission lock and CompleteCmd takes no lock, so the steps of one may
  fall between the steps of the other.  ResetAllCmd runs under the submission lock too and is cut the same
  way: a look at each slot, the completion of its request, the store of null, then the store to the counter and
  the steps of the head.  `ResetStep` is a reset that nothing interrupts, in one step.  The controller fetches
  from the submission ring, finishes fetched commands in any order and posts.  What a well-behaved controller
  and a careful caller of ResetAllCmd do besides is a predicate on steps, `Orderly`; only the properties
  that need it ask for it.  Every index, doorbell and phase tag is kept as the machine keeps it, modulo the
  depth; the log beside them counts without wrapping and is only read by the properties.
*/
module QueueProtocol {
  import opened NvmeTypes
  import opened Ring
  import opened QueueModel

  /** Where the holder of the submission lock is: SubmitCmd, or ResetAllCmd. */
  datatype SubmitPc<R> =
    | SIdle
    | SChecked(req: R, cmd: Command)           // the throttle let it pass
    | SRefused(req: R, cmd: Command)           // the slot of its tag was taken
    | SEvicted(req: R, cmd: Command, out: R)   // the request that had the slot is taken out
    | SReplacing(req: R, cmd: Command)         // and completed
    | SPushed(cmd: Command)                    // the request is in the table
    | SCopied                                  // the entry is in the ring
    | SCounted                                 // InflightCmds is incremented
    | SCrashed                                 // the slot to evict from was empty: a null pointer is used
    | RLook(i: nat)                            // slot `i` is looked at next
    | RTell(i: nat)                            // slot `i` was seen occupied
    | RClear(i: nat)                           // the request in it is completed
    | RStore                                   // all slots are empty, the counter is set next
    | RHead                                    // the head is on its way to the tail
    | RCrashed                                 // the slot seen occupied was empty: a null pointer is used

  /** Where CompleteCmd is, with `n` entries consumed so far. */
  datatype CompletePc<R> =
    | CIdle
    | CLoop(n: nat, max: nat, held: Option<R>)
    | CSeen(n: nat, max: nat, held: Option<R>, cpl: Completion)       // NewCplArrived was true
    | CPopped(n: nat, max: nat, cpl: Completion, found: Option<R>)    // the slot is empty
    | CNotified(n: nat, max: nat, req: R)                             // the SRB is completed
    | CCounted(n: nat, max: nat, req: R)                              // InflightCmds is decremented

  /**
    The controller.  Commands it has fetched and not completed are kept under the number of the
    fetch that brought them in.
   */
  datatype Device = Device(sqHead: nat, cqTail: nat, phase: nat, pending: map<nat, Command>)

  datatype Accepted<R> = Accepted(req: R, cmd: Command)

  /** A request was handed the completion entry that the controller posted at `position`. */
  datatype Delivery<R> = Delivery(req: R, cpl: Completion, position: nat)

  datatype Log<R> = Log(
    accepted: seq<Accepted<R>>,   // requests put in the table, in order
    submitted: nat,               // S: tail doorbells rung
    fetched: seq<Command>,        // what the controller read from the ring, in order
    posts: seq<nat>,              // the fetch number each posted entry answers
    stream: seq<Completion>,      // the posted entries
    seen: seq<Completion>,        // the entries CompleteCmd accepted, in order
    consumed: nat,                // C: the position of CplHead, moved to S when a reset sets the counter
    belled: nat,                  // Cd: the position last written to the head doorbell
    base: nat,                    // S at the last reset
    owner: seq<Option<nat>>,      // for each slot of the table, the submission that filled it
    evictions: nat,               // requests pushed out by a reused tag, since the last reset
    evicted: set<nat>,            // their tags
    misses: nat,                  // entries consumed whose slot was empty, since the last reset
    notes: seq<Note<R>>,          // all calls of CompleteSrb
    deliveries: seq<Delivery<R>>,
    overrun: bool,                // an entry not yet fetched was overwritten
    resets: nat,
    caught: CompletePc<R>,        // where CompleteCmd was when the last reset set the counter
    cleared: nat,                 // requests the reset under way has removed from the table
    twice: seq<R>                 // requests CompleteCmd took out after a reset had completed them
  )

  datatype State<R> = State(
    drv: Driver<R>,
    cq: seq<Completion>,
    dev: Device,
    spc: SubmitPc<R>,
    cpc: CompletePc<R>,
    log: Log<R>
  )

  datatype Step<R> =
    | StartSubmit(req: R, cmd: Command)
    | PushStep
    | EvictStep
    | NotifyEvictedStep
    | RepushStep
    | CopyStep
    | CountStep
    | RingStep
    | StartComplete(maxCount: nat)
    | ObserveStep
    | PopStep
    | NotifyStep
    | DecrementStep
    | AdvanceStep
    | FinishComplete
    | ResetStep
    | StartReset
    | LookStep
    | TellStep
    | ClearStep
    | StoreStep
    | MoveHeadStep
    | FetchStep
    | PostStep(command: nat, status: NvmeStatus)

  ghost predicate Init<R>(s: State<R>) {
    && s == Fresh(s.drv, s.cq)
    && s.drv.Valid()
    && s.drv.sq == seq(s.drv.depth, _ => ZERO_COMMAND)
    && s.drv.subTail == s.drv.subHead == s.drv.cplHead == s.drv.sqDbl == s.drv.cqDbl == 0
    && s.drv.phaseTag == 1
    && s.drv.inflight == 0
    && s.drv.history == Emptied(s.drv.history)
    && s.cq == seq(s.drv.depth, _ => ZERO_COMPLETION)
  }

  /** A driver nobody is using yet, and a controller that has done nothing. */
  ghost function Fresh<R>(drv: Driver<R>, cq: seq<Completion>): State<R> {
    State(drv, cq, Device(0, 0, 1, map[]), SIdle, CIdle,
          Log([], 0, [], [], [], [], 0, 0, 0, Nobody(|drv.history|), 0, {}, 0, [], [], false, 0, CIdle, 0, []))
  }

  ghost function Nobody(size: nat): (owner: seq<Option<nat>>)
    ensures |owner| == size
    ensures forall i :: 0 <= i < size ==> owner[i] == None
  {
    seq(size, _ => None)
  }

  /** The sizes that make every step defined. */
  ghost predicate WellFormed<R>(s: State<R>) {
    && s.drv.Valid()
    && |s.cq| == s.drv.depth
    && |s.log.owner| == |s.drv.history|
    && s.dev.sqHead < s.drv.depth
    && s.dev.cqTail < s.drv.depth
  }

  ghost predicate Arrived<R>(s: State<R>)
    requires WellFormed(s)
  {
    NewCplArrived(s.cq[s.drv.cplHead], s.drv.phaseTag)
  }

  ghost predicate CqFull<R>(s: State<R>)
    requires WellFormed(s)
  {
    (s.dev.cqTail + 1) % s.drv.depth == s.drv.cqDbl
  }

  ghost predicate Enabled<R>(s: State<R>, step: Step<R>)
    requires WellFormed(s)
  {
    match step
    case StartSubmit(_, _) => s.spc.SIdle? && s.drv.ready && IsSafeForSubmit(s.drv.depth, s.drv.inflight)
    case PushStep => s.spc.SChecked?
    case EvictStep => s.spc.SRefused?
    case NotifyEvictedStep => s.spc.SEvicted?
    case RepushStep => s.spc.SReplacing?
    case CopyStep => s.spc.SPushed?
    case CountStep => s.spc.SCopied?
    case RingStep => s.spc.SCounted?
    case StartComplete(_) => s.cpc.CIdle?
    case ObserveStep => s.cpc.CLoop? && s.cpc.n < s.cpc.max && Arrived(s)
    case PopStep => s.cpc.CSeen?
    case NotifyStep => s.cpc.CPopped? && s.cpc.found.Some?
    case DecrementStep => s.cpc.CNotified?
    case AdvanceStep => s.cpc.CCounted? || (s.cpc.CPopped? && s.cpc.found.None?)
    case FinishComplete => s.cpc.CLoop? && (s.cpc.max <= s.cpc.n || !Arrived(s))
    case ResetStep => s.spc.SIdle?
    case StartReset => s.spc.SIdle?
    case LookStep => s.spc.RLook?
    case TellStep => s.spc.RTell?
    case ClearStep => s.spc.RClear?
    case StoreStep => s.spc.RStore?
    case MoveHeadStep => s.spc.RHead?
    // The submission queue is empty when head and tail doorbell are equal.
    case FetchStep => s.dev.sqHead != s.drv.sqDbl
    case PostStep(i, _) => i in s.dev.pending
  }

  // ---- Whose steps they are ----

  predicate BeforeDoorbell<R>(step: Step<R>) {
    || step.StartSubmit? || step.PushStep? || step.EvictStep? || step.NotifyEvictedStep? || step.RepushStep?
    || step.CopyStep? || step.CountStep?
  }

  predicate OfComplete<R>(step: Step<R>) {
    || step.StartComplete? || step.ObserveStep? || step.PopStep? || step.NotifyStep? || step.DecrementStep?
    || step.AdvanceStep? || step.FinishComplete?
  }

  predicate OfController<R>(step: Step<R>) {
    step.FetchStep? || step.PostStep?
  }

  /** A step of a reset cut into its accesses. */
  predicate IsCut<R>(step: Step<R>) {
    || step.StartReset? || step.LookStep? || step.TellStep? || step.ClearStep? || step.StoreStep?
    || step.MoveHeadStep?
  }

  /**
    What the rings rely on and the driver has no way to enforce.  The controller does not post to a full
    completion ring, and what it owes from before a reset it posts before anything else.  A reset finds no
    completion routine running, and the controller owing fewer completions than the ring has slots; it is
  then one step, whatever the controller does meanwhile (`ResetMeanwhile` in QueueReset.dfy).
   */
  ghost predicate Orderly<R>(s: State<R>, step: Step<R>)
    requires WellFormed(s)
  {
    match step
    case PostStep(i, _) => !CqFull(s) && (|s.log.stream| < s.log.base ==> i < s.log.base)
    case ResetStep => s.cpc.CIdle? && s.log.submitted - |s.log.stream| < s.drv.depth
    case _ => !IsCut(step)
  }

  ghost function Apply<R>(s: State<R>, step: Step<R>): State<R>
    requires WellFormed(s) && Enabled(s, step)
  {
    match step
    case StartSubmit(req, cmd) => s.(spc := SChecked(req, cmd))
    case PushStep =>
      var status := Push(s.drv.history, s.spc.cmd.cid, s.spc.req).status;
      if status == StatusAlreadyCommitted then s.(spc := SRefused(s.spc.req, s.spc.cmd))
      else if status != StatusSuccess then s.(spc := SIdle)
      else ApplyPush(s)
    case EvictStep => ApplyEvict(s)
    case NotifyEvictedStep =>
      s.(spc := SReplacing(s.spc.req, s.spc.cmd),
      log := s.log.(notes := s.log.notes + [Note(s.spc.out, SrbBusy)]))
    case RepushStep => ApplyPush(s)
    case CopyStep =>
      s.(drv := CopyToRing(s.drv, s.spc.cmd), spc := SCopied,
      log := s.log.(overrun := s.log.overrun || s.log.submitted - |s.log.fetched| >= s.drv.depth))
    case CountStep => s.(drv := Count(s.drv), spc := SCounted)
    case RingStep => s.(drv := RingTail(s.drv), spc := SIdle, log := s.log.(submitted := s.log.submitted + 1))
    case StartComplete(maxCount) => s.(cpc := CLoop(0, if maxCount == 0 then s.drv.depth else maxCount, None))
    case ObserveStep =>
      s.(cpc := CSeen(s.cpc.n, s.cpc.max, s.cpc.held, s.cq[s.drv.cplHead]),
      log := s.log.(seen := s.log.seen + [s.cq[s.drv.cplHead]]))
    case PopStep => ApplyPop(s)
    case NotifyStep =>
      s.(cpc := CNotified(s.cpc.n, s.cpc.max, s.cpc.found.value),
      log := s.log.(notes := s.log.notes + [Note(s.cpc.found.value, SrbFromNvme(s.cpc.cpl.status))],
      deliveries := s.log.deliveries + [Delivery(s.cpc.found.value, s.cpc.cpl, s.log.consumed)]))
    case DecrementStep =>
      s.(drv := s.drv.(inflight := s.drv.inflight - 1), cpc := CCounted(s.cpc.n, s.cpc.max, s.cpc.req))
    case AdvanceStep =>
      s.(drv := AdvanceHead(s.drv),
      cpc := CLoop(s.cpc.n + 1, s.cpc.max, if s.cpc.CCounted? then Some(s.cpc.req) else None),
      log := s.log.(consumed := s.log.consumed + 1, misses := s.log.misses + if s.cpc.CPopped? then 1 else 0))
    case FinishComplete =>
      if s.cpc.n == 0 then s.(cpc := CIdle)
      else s.(cpc := CIdle, drv := s.drv.(cqDbl := s.drv.cplHead), log := s.log.(belled := s.log.consumed))
    case ResetStep =>
      s.(drv := ResetAll(s.drv),
      log := s.log.(consumed := s.log.submitted, base := s.log.submitted, owner := Nobody(|s.drv.history|),
      evictions := 0, evicted := {}, misses := 0, notes := s.log.notes + ResetNotes(s.drv.history),
      resets := s.log.resets + 1, caught := s.cpc))
    case StartReset => s.(spc := RLook(0))
    case LookStep =>
      var i := s.spc.i;
      if i >= |s.drv.history| then s.(spc := RStore)
      else if s.drv.history[i].None? then s.(spc := RLook(i + 1))
      else s.(spc := RTell(i))
    case TellStep => ApplyTell(s)
    case ClearStep => ApplyClear(s)
    case StoreStep =>
      s.(drv := s.drv.(inflight := 0), spc := RHead,
      log := s.log.(consumed := s.log.submitted, base := s.log.submitted, owner := Nobody(|s.drv.history|),
      evictions := 0, evicted := {}, misses := 0, resets := s.log.resets + 1, caught := s.cpc, cleared := 0))
    case MoveHeadStep =>
      if s.drv.cplHead == s.drv.subTail then s.(spc := SIdle) else s.(drv := AdvanceHead(s.drv))
    case FetchStep =>
      var cmd := s.drv.sq[s.dev.sqHead];
      s.(dev := s.dev.(sqHead := (s.dev.sqHead + 1) % s.drv.depth, pending := s.dev.pending[|s.log.fetched| := cmd]),
      log := s.log.(fetched := s.log.fetched + [cmd]))
    case PostStep(i, status) => ApplyPost(s, i, status)
  }

  /** The status of the second push is not looked at. */
  ghost function ApplyPush<R>(s: State<R>): State<R>
    requires WellFormed(s) && (s.spc.SChecked? || s.spc.SReplacing?)
  {
    var cid := s.spc.cmd.cid;
    s.(drv := s.drv.(history := Push(s.drv.history, cid, s.spc.req).history), spc := SPushed(s.spc.cmd),
    log := s.log.(accepted := s.log.accepted + [Accepted(s.spc.req, s.spc.cmd)],
    owner := if cid < |s.log.owner| then s.log.owner[cid := Some(s.log.submitted)] else s.log.owner))
  }

  ghost function ApplyEvict<R>(s: State<R>): State<R>
    requires WellFormed(s) && s.spc.SRefused?
  {
    var cid := s.spc.cmd.cid;
    var popped := Pop(s.drv.history, cid, None);
    match popped.req
    case None => s.(spc := SCrashed)
    case Some(out) =>
      s.(drv := s.drv.(history := popped.history), spc := SEvicted(s.spc.req, s.spc.cmd, out),
      log := s.log.(owner := if cid < |s.log.owner| then s.log.owner[cid := None] else s.log.owner,
      evictions := s.log.evictions + 1, evicted := s.log.evicted + {cid}))
  }

  /** CCmdHistory::Reset reads the slot again to complete the request in it. */
  ghost function ApplyTell<R>(s: State<R>): State<R>
    requires WellFormed(s) && s.spc.RTell?
  {
    var i := s.spc.i;
    if i < |s.drv.history| && s.drv.history[i].Some? then
      s.(spc := RClear(i), log := s.log.(notes := s.log.notes + [Note(s.drv.history[i].value, SrbBusReset)]))
    else s.(spc := RCrashed)
  }

  ghost function ApplyClear<R>(s: State<R>): State<R>
    requires WellFormed(s) && s.spc.RClear?
  {
    var i := s.spc.i;
    if i < |s.drv.history| then
      s.(spc := RLook(i + 1), drv := s.drv.(history := s.drv.history[i := None]),
      log := s.log.(cleared := s.log.cleared + if s.drv.history[i].Some? then 1 else 0))
    else s.(spc := RLook(i + 1))
  }

  /** CompleteCmd is about to take out the request that a reset has completed and not yet cleared. */
  ghost predicate TakesCompleted<R>(s: State<R>, step: Step<R>)
    requires WellFormed(s) && Enabled(s, step)
  {
    && step.PopStep? && s.spc.RClear? && s.cpc.cpl.cid == s.spc.i < |s.drv.history|
    && s.drv.history[s.spc.i].Some?
  }

  ghost function ApplyPop<R>(s: State<R>): State<R>
    requires WellFormed(s) && s.cpc.CSeen?
  {
    var cid := s.cpc.cpl.cid;
    var popped := Pop(s.drv.history, cid, s.cpc.held);
    s.(drv := s.drv.(history := popped.history, subHead := s.cpc.cpl.sqhd),
    cpc := CPopped(s.cpc.n, s.cpc.max, s.cpc.cpl, popped.req),
    log := s.log.(owner := if cid < |s.log.owner| then s.log.owner[cid := None] else s.log.owner,
    twice := if TakesCompleted(s, PopStep) then s.log.twice + [s.drv.history[cid].value] else s.log.twice))
  }

  ghost function ApplyPost<R>(s: State<R>, i: nat, status: NvmeStatus): State<R>
    requires WellFormed(s) && i in s.dev.pending
  {
    var cpl := Completion(s.dev.pending[i].cid, s.dev.sqHead, s.dev.phase, status);
    var tail := (s.dev.cqTail + 1) % s.drv.depth;
    s.(cq := s.cq[s.dev.cqTail := cpl],
    dev := s.dev.(cqTail := tail,
    phase := if tail != 0 then s.dev.phase else if s.dev.phase == 0 then 1 else 0,
    pending := s.dev.pending - {i}),
    log := s.log.(posts := s.log.posts + [i], stream := s.log.stream + [cpl]))
  }

  ghost predicate SameSizes<R>(s: State<R>, s': State<R>) {
    WellFormed(s') && s'.drv.depth == s.drv.depth && |s'.drv.history| == |s.drv.history|
  }

  lemma SubmitWellFormed<R>(s: State<R>, step: Step<R>)
    requires WellFormed(s) && Enabled(s, step) && (BeforeDoorbell(step) || step.RingStep?)
    ensures SameSizes(s, Apply(s, step))
  {
  }

  lemma CompleteWellFormed<R>(s: State<R>, step: Step<R>)
    requires WellFormed(s) && Enabled(s, step) && OfComplete(step)
    ensures SameSizes(s, Apply(s, step))
  {
  }

  lemma CutWellFormed<R>(s: State<R>, step: Step<R>)
    requires WellFormed(s) && Enabled(s, step) && IsCut(step)
    ensures SameSizes(s, Apply(s, step))
  {
  }

  lemma ResetWellFormed<R>(s: State<R>)
    requires WellFormed(s) && Enabled<R>(s, ResetStep)
    ensures SameSizes(s, Apply(s, ResetStep))
  {
    FastForwardKeeps(s.drv.(history := Emptied(s.drv.history), inflight := 0),
    FastForwardSteps(s.drv.cplHead, s.drv.subTail, s.drv.depth));
  }

  lemma ApplyWellFormed<R>(s: State<R>, step: Step<R>)
    requires WellFormed(s) && Enabled(s, step)
    ensures WellFormed(Apply(s, step))
    ensures Apply(s, step).drv.depth == s.drv.depth
    ensures |Apply(s, step).drv.history| == |s.drv.history|
  {
    if BeforeDoorbell(step) || step.RingStep? {
      SubmitWellFormed(s, step);
    } else if OfComplete(step) {
      CompleteWellFormed(s, step);
    } else if IsCut(step) {
      CutWellFormed(s, step);
    } else if step.ResetStep? {
      ResetWellFormed(s);
    }
  }

  /** The driver's steps leave the controller and what it has done alone. */
  lemma ControllerStays<R>(s: State<R>, step: Step<R>)
    requires WellFormed(s) && Enabled(s, step) && !OfController(step)
    ensures var s' := Apply(s, step);
            && s'.dev == s.dev && s'.cq == s.cq
            && s'.log.fetched == s.log.fetched && s'.log.posts == s.log.posts && s'.log.stream == s.log.stream
  {
  }

  lemma FastForwardKeeps<R>(d: Driver<R>, steps: nat)
    requires d.Valid()
    ensures FastForward(d, steps) == d.(cplHead := FastForward(d, steps).cplHead,
            phaseTag := FastForward(d, steps).phaseTag)
    decreases steps
  {
  }

  // ---- Runs ----

  /** The run is possible: every step is enabled where it is taken. */
  ghost predicate ValidRun<R>(s: State<R>, steps: seq<Step<R>>)
    requires WellFormed(s)
    decreases |steps|
  {
    steps == [] || (
      && Enabled(s, steps[0])
      && (ApplyWellFormed(s, steps[0]); ValidRun(Apply(s, steps[0]), steps[1..])))
  }

  ghost predicate OrderlyRun<R>(s: State<R>, steps: seq<Step<R>>)
    requires WellFormed(s) && ValidRun(s, steps)
    decreases |steps|
  {
    steps == [] || (
      && Orderly(s, steps[0])
      && (ApplyWellFormed(s, steps[0]); OrderlyRun(Apply(s, steps[0]), steps[1..])))
  }

  ghost function After<R>(s: State<R>, steps: seq<Step<R>>): (s': State<R>)
    requires WellFormed(s) && ValidRun(s, steps)
    ensures WellFormed(s') && s'.drv.depth == s.drv.depth
    decreases |steps|
  {
    if steps == [] then s
    else (ApplyWellFormed(s, steps[0]); After(Apply(s, steps[0]), steps[1..]))
  }
}
