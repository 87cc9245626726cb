/**
  What holds after every run of the driver and the controller.

  `s0` is a freshly set up queue pair of any depth and table size, and `steps` is any interleaving of
  steps that is possible from there.  What concerns the table and the counter holds after every run.  What
  concerns the rings holds after every orderly run; without a reset that only asks the controller not
  to post to a full ring (`RoomIsOrder`).
*/
module QueueTheorems {
  import opened NvmeTypes
  import opened Ring
  import opened QueueModel
  import opened QueueProtocol
  import opened QueueRings
  import opened QueueRequests
  import opened QueueTable

  /** What no controller and no reset can break. */
  ghost predicate CoreInv<R>(s: State<R>) {
    && WellFormed(s)
    && TagsInRange(s) && ReplaceInv(s) && ResetInv(s) && CounterInv(s)
    && (Throttled(s) ==> ThrottleInv(s))
  }

  /** What holds besides as long as the run is orderly. */
  ghost predicate Inv<R>(s: State<R>) {
    && CoreInv(s)
    && RingsInv(s)
    && RequestsInv(s)
    && s.log.caught.CIdle?
    && (Throttled(s) ==> OverrunInv(s))
  }

  ghost predicate RingsInv<R>(s: State<R>)
    requires WellFormed(s)
  {
    RingInv(s) && PendingInv(s) && CqInv(s) && SeenInv(s)
  }

  ghost predicate RequestsInv<R>(s: State<R>)
    requires WellFormed(s)
  {
    SqInv(s) && PostInv(s) && TableInv(s) && DeliveryInv(s) && PositionInv(s) && DeliveredInv(s)
  }

  /** The depth leaves the throttle something to subtract from. */
  ghost predicate Throttled<R>(s: State<R>) {
    s.drv.depth >= SAFE_SUBMIT_THRESHOLD
  }

  lemma InitCore<R>(s: State<R>)
    requires Init(s)
    ensures CoreInv(s)
  {
    CountersInit(s);
  }

  lemma InitInv<R>(s: State<R>)
    requires Init(s)
    ensures Inv(s)
  {
    InitCore(s);
    RingInit(s);
    TableInit(s);
  }

  /** The throttle leaves less than a lap outstanding, so a reset lands on the tail. */
  lemma Outstandings<R>(s: State<R>)
    requires Inv(s) && Throttled(s)
    ensures s.log.submitted - s.log.consumed <= s.drv.depth - SAFE_SUBMIT_THRESHOLD + Unmoved(s.cpc)
  {
    assert s.log.misses >= 0;
  }

  /** What was fetched is at most what was submitted, and as long as there was no reset at least what was consumed. */
  lemma Unfetched<R>(s: State<R>)
    requires Inv(s) && Throttled(s) && s.log.base <= |s.log.stream|
    ensures s.log.consumed <= |s.log.stream| <= |s.log.fetched| <= s.log.submitted
    ensures s.log.submitted - |s.log.stream| <= s.drv.depth - SAFE_SUBMIT_THRESHOLD
    ensures !s.cpc.CCounted? ==> |s.log.stream| - s.log.consumed <= s.drv.depth - SAFE_SUBMIT_THRESHOLD
  {
    Outstandings(s);
  }

  lemma StepKeepsRings<R>(s: State<R>, step: Step<R>)
    requires WellFormed(s) && RingsInv(s) && Enabled(s, step) && Orderly(s, step)
    requires step.ResetStep? ==> s.log.submitted - s.log.consumed < s.drv.depth
    ensures WellFormed(Apply(s, step)) && RingsInv(Apply(s, step))
  {
    ApplyWellFormed(s, step);
    if step.ResetStep? {
      RingResetStep(s);
    } else if step.FetchStep? {
      RingFetchStep(s);
    } else if step.PostStep? {
      RingPostStep(s, step.command, step.status);
    } else if step.RingStep? {
      RingDoorbell(s);
    } else if step.AdvanceStep? {
      RingAdvance(s);
    } else if step.FinishComplete? {
      RingFinish(s);
    } else if BeforeDoorbell(step) {
      RingSubmitStep(s, step);
    } else {
      RingEntryStep(s, step);
    }
    PendingStep(s, step);
    CqStep(s, step);
    SeenStep(s, step);
  }

  lemma StepKeepsCore<R>(s: State<R>, step: Step<R>)
    requires CoreInv(s) && Enabled(s, step)
    ensures CoreInv(Apply(s, step))
    ensures Throttled(Apply(s, step)) <==> Throttled(s)
  {
    TagsStep(s, step);
    ReplaceStep(s, step);
    ResetInvStep(s, step);
    CounterStep(s, step);
    ApplyWellFormed(s, step);
    if Throttled(s) {
      ThrottleStep(s, step);
    }
  }

  lemma StepKeepsRequests<R>(s: State<R>, step: Step<R>)
    requires CoreInv(s) && RingsInv(s) && RequestsInv(s) && Enabled(s, step) && Orderly(s, step)
    requires WellFormed(Apply(s, step))
    ensures RequestsInv(Apply(s, step))
  {
    SqStep(s, step);
    PostInvStep(s, step);
    TableStep(s, step);
    DeliveryStep(s, step);
    PositionStep(s, step);
    DeliveredStep(s, step);
  }

  lemma StepKeepsInv<R>(s: State<R>, step: Step<R>)
    requires Inv(s) && Enabled(s, step) && Orderly(s, step)
    requires step.ResetStep? ==> Throttled(s)
    ensures Inv(Apply(s, step))
    ensures Throttled(Apply(s, step)) <==> Throttled(s)
    ensures !step.ResetStep? ==> Apply(s, step).log.resets == s.log.resets
  {
    if step.ResetStep? {
      Outstandings(s);
    }
    StepKeepsCore(s, step);
    StepKeepsRings(s, step);
    StepKeepsRequests(s, step);
    if Throttled(s) {
      OverrunStep(s, step);
    }
    StepKeepsMarks(s, step);
  }

  lemma StepKeepsMarks<R>(s: State<R>, step: Step<R>)
    requires WellFormed(s) && Enabled(s, step) && Orderly(s, step)
    ensures s.log.caught.CIdle? ==> Apply(s, step).log.caught.CIdle?
    ensures !step.ResetStep? ==> Apply(s, step).log.resets == s.log.resets
  {
  }

  ghost predicate NoReset<R>(steps: seq<Step<R>>) {
    forall i :: 0 <= i < |steps| ==> !steps[i].ResetStep? && !IsCut(steps[i])
  }

  lemma NoResetTail<R>(steps: seq<Step<R>>)
    requires steps != [] && NoReset(steps)
    ensures !steps[0].ResetStep? && !IsCut(steps[0]) && NoReset(steps[1..])
  {
  }

  lemma {:induction false} RunKeepsInv<R>(s: State<R>, steps: seq<Step<R>>)
    requires Inv(s) && ValidRun(s, steps) && OrderlyRun(s, steps)
    requires Throttled(s) || NoReset(steps)
    ensures Inv(After(s, steps))
    ensures NoReset(steps) ==> After(s, steps).log.resets == s.log.resets
    decreases |steps|
  {
    if steps != [] {
      if NoReset(steps) {
        NoResetTail(steps);
      }
      StepKeepsInv(s, steps[0]);
      var s1 := Apply(s, steps[0]);
      RunKeepsInv(s1, steps[1..]);
      assert After(s, steps) == After(s1, steps[1..]);
    }
  }

  lemma {:induction false} RunKeepsCore<R>(s: State<R>, steps: seq<Step<R>>)
    requires CoreInv(s) && ValidRun(s, steps)
    ensures CoreInv(After(s, steps))
    decreases |steps|
  {
    if steps != [] {
      StepKeepsCore(s, steps[0]);
      RunKeepsCore(Apply(s, steps[0]), steps[1..]);
    }
  }

  lemma {:induction false} RunKeepsRequest<R>(s: State<R>, steps: seq<Step<R>>, req: R)
    requires CoreInv(s) && ValidRun(s, steps) && RequestInv(s, req)
    ensures RequestInv(After(s, steps), req)
    decreases |steps|
  {
    if steps != [] {
      StepKeepsCore(s, steps[0]);
      RequestStep(s, steps[0], req);
      RunKeepsRequest(Apply(s, steps[0]), steps[1..], req);
    }
  }

  /** The controller never posts to a full ring. */
  ghost predicate NeverPostsToFull<R>(s: State<R>, steps: seq<Step<R>>)
    requires WellFormed(s) && ValidRun(s, steps)
    decreases |steps|
  {
    steps == [] || (
      && (steps[0].PostStep? ==> !CqFull(s))
      && (ApplyWellFormed(s, steps[0]); NeverPostsToFull(Apply(s, steps[0]), steps[1..])))
  }

  /** Until the first reset that is all there is to being orderly. */
  lemma {:induction false} RoomIsOrder<R>(s: State<R>, steps: seq<Step<R>>)
    requires WellFormed(s) && s.log.base == 0 && ValidRun(s, steps) && NoReset(steps)
    ensures OrderlyRun(s, steps) <==> NeverPostsToFull(s, steps)
    decreases |steps|
  {
    if steps != [] {
      NoResetTail(steps);
      ApplyWellFormed(s, steps[0]);
      RoomIsOrder(Apply(s, steps[0]), steps[1..]);
    }
  }

  /** The invariants after a run without resets, from the start. */
  lemma ResetFreeRun<R>(s0: State<R>, steps: seq<Step<R>>)
    requires Init(s0) && ValidRun(s0, steps) && NoReset(steps) && NeverPostsToFull(s0, steps)
    ensures Inv(After(s0, steps)) && After(s0, steps).log.resets == 0
  {
    InitInv(s0);
    RoomIsOrder(s0, steps);
    RunKeepsInv(s0, steps);
  }

  // ---- The completion ring ----

  /**
    The phase tag is sound and complete, for every depth: the entry at the head looks new exactly
    when the controller has posted an entry that is not consumed.  What CompleteCmd accepts is the
    posted stream from its beginning, in order, without gaps, repetitions or stale entries.
   */
  lemma PhaseTagTheorem<R>(s0: State<R>, steps: seq<Step<R>>)
    requires Init(s0) && ValidRun(s0, steps) && NoReset(steps) && NeverPostsToFull(s0, steps)
    ensures var s := After(s0, steps);
            && (Arrived(s) <==> s.log.consumed < |s.log.stream|)
            && (Arrived(s) ==> s.cq[s.drv.cplHead] == s.log.stream[s.log.consumed])
            && s.log.seen <= s.log.stream
            && |s.log.seen| == s.log.consumed + if AtEntry(s.cpc) then 1 else 0
  {
    ResetFreeRun(s0, steps);
    HeadEntry(After(s0, steps));
  }

  // ---- The submission ring ----

  /**
    Without a reset the submission ring is a FIFO: the controller has fetched the submitted
    commands in order, the others wait in their slots, and neither ring ever fills up.
   */
  lemma SubmissionFifoTheorem<R>(s0: State<R>, steps: seq<Step<R>>)
    requires Init(s0) && Throttled(s0) && ValidRun(s0, steps) && NoReset(steps) && NeverPostsToFull(s0, steps)
    ensures var s := After(s0, steps);
            var S, F, P, C := s.log.submitted, |s.log.fetched|, |s.log.stream|, s.log.consumed;
            && C <= P <= F <= S <= |s.log.accepted|
            && (forall i :: 0 <= i < F ==> s.log.fetched[i] == s.log.accepted[i].cmd)
            && (forall i :: F <= i < S ==> s.drv.sq[Slot(i, s.drv.depth)] == s.log.accepted[i].cmd)
            && S - F <= s.drv.depth - SAFE_SUBMIT_THRESHOLD
            && S - C <= s.drv.depth - SAFE_SUBMIT_THRESHOLD + Unmoved(s.cpc)
            && (!s.cpc.CCounted? ==> P - C <= s.drv.depth - SAFE_SUBMIT_THRESHOLD)
            && (s.cpc.CIdle? ==> s.log.belled == C && !CqFull(s))
  {
    ResetFreeRun(s0, steps);
    var s := After(s0, steps);
    Outstandings(s);
    Unfetched(s);
    NotFull(s);
  }

  // ---- The counter ----

  /**
    Conservation of InflightCmds, at every step of every interleaving, whatever the controller posts and whenever
    a reset comes: it is what is in the table, what a reset under way has cleared, and the evictions; and also what is
    between the two rings plus the entries that found nothing; up to the operation under way and to what was
    under way in CompleteCmd when the last reset set the counter.
   */
  lemma InflightTheorem<R>(s0: State<R>, steps: seq<Step<R>>)
    requires Init(s0) && ValidRun(s0, steps)
    ensures var s := After(s0, steps);
            && s.drv.inflight == Occupied(s.drv.history) + s.log.cleared + s.log.evictions - Uncounted(s.spc)
                                 + StillCounted(s.cpc) - StillCounted(s.log.caught)
            && s.drv.inflight == s.log.submitted - s.log.consumed + s.log.misses + Unrung(s.spc) - Unmoved(s.cpc)
                                 + Unmoved(s.log.caught)
  {
    InitCore(s0);
    RunKeepsCore(s0, steps);
  }

  /**
    With a depth of 8 or more the counter stays below the throttle, in every run.  It goes below zero by at
    most one for a request that is taken out before it is counted and one for a reset in the middle of a
    completion.  The throttle is open exactly for a counter from 0 to depth - 9.
   */
  lemma ThrottleTheorem<R>(s0: State<R>, steps: seq<Step<R>>)
    requires Init(s0) && Throttled(s0) && ValidRun(s0, steps)
    ensures var s := After(s0, steps);
            && 0 <= s.drv.inflight + Uncounted(s.spc) + StillCounted(s.log.caught)
            && s.drv.inflight <= s.drv.depth - SAFE_SUBMIT_THRESHOLD
            && (IsSafeForSubmit(s.drv.depth, s.drv.inflight)
                <==> 0 <= s.drv.inflight < s.drv.depth - SAFE_SUBMIT_THRESHOLD)
  {
    InitCore(s0);
    RunKeepsCore(s0, steps);
    RunKeepsDepth(s0, steps);
    var s := After(s0, steps);
    ThrottleMeans(s.drv.depth, s.drv.inflight);
  }

  lemma RunKeepsDepth<R>(s: State<R>, steps: seq<Step<R>>)
    requires WellFormed(s) && ValidRun(s, steps)
    ensures Throttled(After(s, steps)) <==> Throttled(s)
  {
  }

  /** In an orderly run the counter is never below zero, and so the 16-bit cast changes nothing. */
  lemma OrderlyCounterTheorem<R>(s0: State<R>, steps: seq<Step<R>>)
    requires Init(s0) && Throttled(s0) && ValidRun(s0, steps) && OrderlyRun(s0, steps)
    ensures var s := After(s0, steps);
            && 0 <= s.drv.inflight <= s.drv.depth - SAFE_SUBMIT_THRESHOLD
            && s.drv.inflight % TWO_TO_THE_16 == s.drv.inflight
            && s.log.submitted - s.log.consumed <= s.drv.inflight + Unmoved(s.cpc)
  {
    InitInv(s0);
    RunKeepsInv(s0, steps);
    RunKeepsDepth(s0, steps);
    NotNegative(After(s0, steps));
  }

  lemma NotNegative<R>(s: State<R>)
    requires Inv(s) && Throttled(s)
    ensures 0 <= s.drv.inflight <= s.drv.depth - SAFE_SUBMIT_THRESHOLD
    ensures s.drv.inflight % TWO_TO_THE_16 == s.drv.inflight
    ensures s.log.submitted - s.log.consumed <= s.drv.inflight + Unmoved(s.cpc)
  {
    assert AtEntry(s.cpc) ==> s.log.consumed < s.log.submitted;
    CastKeeps(s.drv.inflight);
  }

  /** The cast to USHORT leaves a number of 16 bits as it is. */
  lemma CastKeeps(counter: nat)
    requires counter < TWO_TO_THE_16
    ensures counter % TWO_TO_THE_16 == counter
  {
  }

  /**
    A reset keeps the counter right exactly when it does not set it between the two halves of a completion: the
    count of the table when no request is taken out and still counted, the count of the rings when none is
    no longer counted with the head still to move.  What decides is the store to the counter, after the
    table is empty; a completion that is over by then does no harm to the count.
   */
  lemma ResetCountsTheorem<R>(s0: State<R>, steps: seq<Step<R>>, step: Step<R>)
    requires Init(s0) && ValidRun(s0, steps) && Enabled(After(s0, steps), step)
    requires step.StoreStep? || step.ResetStep?
    ensures var s := After(s0, steps);
            var s' := Apply(s, step);
            && (s'.drv.inflight == Occupied(s'.drv.history) + s'.log.evictions + StillCounted(s'.cpc)
                <==> StillCounted(s.cpc) == 0)
            && (s'.drv.inflight == s'.log.submitted - s'.log.consumed + s'.log.misses - Unmoved(s'.cpc)
                <==> Unmoved(s.cpc) == 0)
  {
    InitCore(s0);
    RunKeepsCore(s0, steps);
    StepKeepsCore(After(s0, steps), step);
  }

  /** Each eviction costs an entry until the next reset: the throttle leaves that much less room in the table. */
  lemma EvictionsCostTheorem<R>(s0: State<R>, steps: seq<Step<R>>)
    requires Init(s0) && Throttled(s0) && ValidRun(s0, steps) && StillCounted(After(s0, steps).log.caught) == 0
    ensures var s := After(s0, steps);
            var room := s.drv.depth - SAFE_SUBMIT_THRESHOLD;
            && Occupied(s.drv.history) + s.log.evictions <= room + Uncounted(s.spc)
            && (s.spc.SIdle? ==>
                  (IsSafeForSubmit(s.drv.depth, s.drv.inflight)
                   <==> Occupied(s.drv.history) + StillCounted(s.cpc) < room - s.log.evictions))
            && (s.log.evictions == 0 || s.log.evictions < room)
  {
    InitCore(s0);
    RunKeepsCore(s0, steps);
    RunKeepsDepth(s0, steps);
    RunKeepsRoom(s0, steps);
    var s := After(s0, steps);
    if s.spc.SIdle? {
      ThrottleMeans(s.drv.depth, s.drv.inflight);
    }
  }

  /** An eviction needs a request to evict, which is counted like the evictions before it. */
  ghost predicate RoomInv<R>(s: State<R>) {
    StillCounted(s.log.caught) == 0 ==>
      s.log.evictions == 0 || s.log.evictions < s.drv.depth - SAFE_SUBMIT_THRESHOLD
  }

  lemma RoomEvict<R>(s: State<R>)
    requires CoreInv(s) && Throttled(s) && RoomInv(s) && Enabled(s, EvictStep)
    ensures RoomInv(Apply(s, EvictStep))
  {
    OccupiedUpdate(s.drv.history, s.spc.cmd.cid, None);
  }

  lemma RoomQuiet<R>(s: State<R>, step: Step<R>)
    requires WellFormed(s) && RoomInv(s) && Enabled(s, step) && !step.EvictStep?
    ensures RoomInv(Apply(s, step))
  {
    ApplyWellFormed(s, step);
  }

  lemma RoomStep<R>(s: State<R>, step: Step<R>)
    requires CoreInv(s) && Throttled(s) && RoomInv(s) && Enabled(s, step)
    ensures RoomInv(Apply(s, step))
  {
    if step.EvictStep? {
      RoomEvict(s);
    } else {
      RoomQuiet(s, step);
    }
  }

  lemma {:induction false} RunKeepsRoom<R>(s: State<R>, steps: seq<Step<R>>)
    requires CoreInv(s) && Throttled(s) && RoomInv(s) && ValidRun(s, steps)
    ensures RoomInv(After(s, steps))
    decreases |steps|
  {
    if steps != [] {
      RoomStep(s, steps[0]);
      StepKeepsCore(s, steps[0]);
      RunKeepsRoom(Apply(s, steps[0]), steps[1..]);
    }
  }

  // ---- Exactly once ----

  /** In the course of the run CompleteCmd takes out `req` between its completion by a reset and the store of null. */
  ghost predicate Overlaps<R>(s: State<R>, steps: seq<Step<R>>, req: R)
    requires WellFormed(s) && ValidRun(s, steps)
    decreases |steps|
  {
    steps != [] && (
      || (TakesCompleted(s, steps[0]) && s.drv.history[s.spc.i] == Some(req))
      || (ApplyWellFormed(s, steps[0]); Overlaps(Apply(s, steps[0]), steps[1..], req)))
  }

  lemma TwiceStep<R>(s: State<R>, step: Step<R>, req: R)
    requires WellFormed(s) && Enabled(s, step)
    ensures Times(Apply(s, step).log.twice, req)
         == Times(s.log.twice, req)
            + if TakesCompleted(s, step) && s.drv.history[s.spc.i] == Some(req) then 1 else 0
  {
    if TakesCompleted(s, step) {
      TimesMore(s.log.twice, s.drv.history[s.spc.i].value, req);
    }
  }

  lemma {:induction false} TwiceRun<R>(s: State<R>, steps: seq<Step<R>>, req: R)
    requires WellFormed(s) && ValidRun(s, steps)
    ensures Times(After(s, steps).log.twice, req) >= Times(s.log.twice, req)
    ensures Times(After(s, steps).log.twice, req) > Times(s.log.twice, req) <==> Overlaps(s, steps, req)
    decreases |steps|
  {
    if steps != [] {
      ApplyWellFormed(s, steps[0]);
      TwiceStep(s, steps[0], req);
      TwiceRun(Apply(s, steps[0]), steps[1..], req);
    }
  }

  /**
    Over any mix of submissions, completions, evictions and resets, for every depth and in whatever order the
    controller answers: a request is completed as often as it was accepted, except for the times it is still in
    the table or in the hands of CompleteCmd or of the SubmitCmd that evicts it, if and only if CompleteCmd
    did not take it out between its completion by a reset and the store of null in its slot.  Each time it
    did, the request is completed once too often.  (While a reset stands before that store, its request is
    completed and in the table.)
   */
  lemma ExactlyOnceTheorem<R>(s0: State<R>, steps: seq<Step<R>>, req: R)
    requires Init(s0) && ValidRun(s0, steps)
    ensures var s := After(s0, steps);
            var accounted := Completed(s.log.notes, req) + Held(s.drv.history, req) + InHand(s.cpc, req)
                             + OnItsWayOut(s.spc, req);
            && accounted == TimesAccepted(s.log.accepted, req) + ToldAndHeld(s, req) + Times(s.log.twice, req)
            && (accounted == TimesAccepted(s.log.accepted, req) + ToldAndHeld(s, req)
                <==> !Overlaps(s0, steps, req))
  {
    InitCore(s0);
    RequestsInit(s0, req);
    RunKeepsRequest(s0, steps, req);
    TwiceRun(s0, steps, req);
  }

  // ---- Attribution ----

  /**
    Tag by tag, as long as the tag was not reused while outstanding since the last reset and no entry was
    overwritten: its slot holds exactly its outstanding submission; and every completion entry with that
    tag was handed to the request whose command it answers.  With all tags clean no entry found its slot empty.
   */
  lemma AttributionTheorem<R>(s0: State<R>, steps: seq<Step<R>>)
    requires Init(s0) && Throttled(s0) && ValidRun(s0, steps) && OrderlyRun(s0, steps)
    ensures var s := After(s0, steps);
            && (forall c: nat :: c < |s.drv.history| && CleanTag(s, c) ==> OwnerRight(s, c))
            && (forall i: nat :: Outstanding(s, i) && CleanTag(s, s.log.accepted[i].cmd.cid) ==> InItsSlot(s, i))
            && (forall j :: 0 <= j < |s.log.deliveries| && s.log.base <= s.log.deliveries[j].position
                            && CleanTag(s, s.log.deliveries[j].cpl.cid)
                 ==> Attributed(s.log, s.log.deliveries[j]))
            && (Clean(s) ==> s.log.misses == 0)
  {
    InitInv(s0);
    RunKeepsInv(s0, steps);
    var s := After(s0, steps);
    forall j | 0 <= j < |s.log.deliveries| && s.log.base <= s.log.deliveries[j].position
               && CleanTag(s, s.log.deliveries[j].cpl.cid)
      ensures Attributed(s.log, s.log.deliveries[j])
    {
      assert Judged(s, s.log.deliveries[j]);
    }
  }

  lemma SameTagRefused<R>(s: State<R>, i: nat)
    requires Inv(s) && Enabled(s, PushStep) && CleanTag(s, s.spc.cmd.cid)
    requires Outstanding(s, i) && s.log.accepted[i].cmd.cid == s.spc.cmd.cid
    ensures Apply(s, PushStep).spc.SRefused?
  {
    assert InItsSlot(s, i);
    assert OwnerRight(s, s.spc.cmd.cid);
  }

  lemma RefusedHasSameTag<R>(s: State<R>)
    requires Inv(s) && Enabled(s, PushStep) && CleanTag(s, s.spc.cmd.cid) && Apply(s, PushStep).spc.SRefused?
    ensures exists i: nat :: Outstanding(s, i) && s.log.accepted[i].cmd.cid == s.spc.cmd.cid
  {
    var cid := s.spc.cmd.cid;
    assert OwnerRight(s, cid);
    assert Outstanding(s, s.log.owner[cid].value);
  }

  /** A push is refused exactly when a submission with the same tag is outstanding. */
  lemma RefusalTheorem<R>(s0: State<R>, steps: seq<Step<R>>)
    requires Init(s0) && Throttled(s0) && ValidRun(s0, steps) && OrderlyRun(s0, steps)
    requires After(s0, steps).spc.SChecked? && CleanTag(After(s0, steps), After(s0, steps).spc.cmd.cid)
    ensures var s := After(s0, steps);
            Apply(s, PushStep).spc.SRefused? <==>
              exists i: nat :: Outstanding(s, i) && s.log.accepted[i].cmd.cid == s.spc.cmd.cid
  {
    InitInv(s0);
    RunKeepsInv(s0, steps);
    var s := After(s0, steps);
    if Apply(s, PushStep).spc.SRefused? {
      RefusedHasSameTag(s);
    }
    forall i: nat | Outstanding(s, i) && s.log.accepted[i].cmd.cid == s.spc.cmd.cid
      ensures Apply(s, PushStep).spc.SRefused?
    {
      SameTagRefused(s, i);
    }
  }

  /**
    The eviction that follows a refused push takes out the request of the outstanding submission with that
    tag; it uses a null pointer exactly when there is none any more, because CompleteCmd, which takes no
    lock, has taken the request out in between.
   */
  lemma EvictionTheorem<R>(s0: State<R>, steps: seq<Step<R>>)
    requires Init(s0) && Throttled(s0) && ValidRun(s0, steps) && OrderlyRun(s0, steps)
    requires After(s0, steps).spc.SRefused? && CleanTag(After(s0, steps), After(s0, steps).spc.cmd.cid)
    ensures var s := After(s0, steps);
            && (Apply(s, EvictStep).spc.SCrashed? <==>
                  forall i: nat :: Outstanding(s, i) ==> s.log.accepted[i].cmd.cid != s.spc.cmd.cid)
            && (forall i: nat :: Outstanding(s, i) && s.log.accepted[i].cmd.cid == s.spc.cmd.cid ==>
                  Apply(s, EvictStep).spc == SEvicted(s.spc.req, s.spc.cmd, s.log.accepted[i].req))
  {
    InitInv(s0);
    RunKeepsInv(s0, steps);
    var s := After(s0, steps);
    var cid := s.spc.cmd.cid;
    assert OwnerRight(s, cid);
    if s.log.owner[cid].Some? {
      assert Outstanding(s, s.log.owner[cid].value);
    }
    forall i: nat | Outstanding(s, i) && s.log.accepted[i].cmd.cid == cid
      ensures Apply(s, EvictStep).spc == SEvicted(s.spc.req, s.spc.cmd, s.log.accepted[i].req)
    {
      assert InItsSlot(s, i);
    }
  }

  /** The second push of an eviction is never refused, so not looking at its status loses nothing. */
  lemma RepushTheorem<R>(s0: State<R>, steps: seq<Step<R>>)
    requires Init(s0) && ValidRun(s0, steps) && After(s0, steps).spc.SReplacing?
    ensures var s := After(s0, steps);
            Push(s.drv.history, s.spc.cmd.cid, s.spc.req).status == StatusSuccess
  {
    InitCore(s0);
    RunKeepsCore(s0, steps);
  }

  /** Storport hands out a tag again only after the request that had it was taken from the table. */
  ghost predicate FreshTags<R>(s: State<R>, steps: seq<Step<R>>)
    requires WellFormed(s) && ValidRun(s, steps)
    decreases |steps|
  {
    steps == [] || (
      && (steps[0].PushStep? ==>
            forall i: nat :: Outstanding(s, i) ==> s.log.accepted[i].cmd.cid != s.spc.cmd.cid)
      && (ApplyWellFormed(s, steps[0]); FreshTags(Apply(s, steps[0]), steps[1..])))
  }

  /** No request is being evicted. */
  ghost predicate Undisturbed<R>(s: State<R>) {
    Clean(s) && !Replacing(s.spc) && !s.spc.SCrashed?
  }

  lemma FreshPush<R>(s: State<R>)
    requires Inv(s) && Undisturbed(s) && Enabled(s, PushStep)
    requires forall i: nat :: Outstanding(s, i) ==> s.log.accepted[i].cmd.cid != s.spc.cmd.cid
    ensures Undisturbed(Apply(s, PushStep))
  {
    if Apply(s, PushStep).spc.SRefused? {
      RefusedHasSameTag(s);
    }
  }

  lemma FreshStep<R>(s: State<R>, step: Step<R>)
    requires Inv(s) && Undisturbed(s) && Enabled(s, step) && !step.PushStep? && !step.ResetStep? && !IsCut(step)
    requires !Apply(s, step).log.overrun
    ensures Undisturbed(Apply(s, step))
  {
  }

  lemma {:induction false} FreshRun<R>(s: State<R>, steps: seq<Step<R>>)
    requires Inv(s) && Throttled(s) && Undisturbed(s) && s.log.resets == 0
    requires ValidRun(s, steps) && OrderlyRun(s, steps) && NoReset(steps) && FreshTags(s, steps)
    ensures Undisturbed(After(s, steps))
    decreases |steps|
  {
    if steps != [] {
      NoResetTail(steps);
      StepKeepsInv(s, steps[0]);
      if steps[0].PushStep? {
        FreshPush(s);
      } else {
        FreshStep(s, steps[0]);
      }
      FreshRun(Apply(s, steps[0]), steps[1..]);
    }
  }

  /**
    Without resets, tags that are not reused while outstanding are all that attribution needs, and all that
    keeps SubmitCmd from evicting and from the null pointer.
   */
  lemma FreshTagsTheorem<R>(s0: State<R>, steps: seq<Step<R>>)
    requires Init(s0) && Throttled(s0) && ValidRun(s0, steps) && NoReset(steps)
    requires NeverPostsToFull(s0, steps) && FreshTags(s0, steps)
    ensures Undisturbed(After(s0, steps))
    ensures var s := After(s0, steps);
            && s.log.base == 0
            && (forall j :: 0 <= j < |s.log.deliveries| ==> Attributed(s.log, s.log.deliveries[j]))
  {
    InitInv(s0);
    RoomIsOrder(s0, steps);
    FreshRun(s0, steps);
    RunKeepsInv(s0, steps);
  }

  /** Without a reset no entry is ever overwritten before the controller has read it. */
  lemma NoOverrunTheorem<R>(s0: State<R>, steps: seq<Step<R>>)
    requires Init(s0) && Throttled(s0) && ValidRun(s0, steps) && NoReset(steps) && NeverPostsToFull(s0, steps)
    ensures !After(s0, steps).log.overrun
  {
    ResetFreeRun(s0, steps);
    RunKeepsDepth(s0, steps);
  }

  // ---- Reset ----

  /**
    In every state an orderly run can reach, the loop of ResetAllCmd runs once for each outstanding command and leaves
    the head on the tail with the phase of that position, as if all completions had been consumed.
   */
  lemma FastForwardTheorem<R>(s0: State<R>, steps: seq<Step<R>>)
    requires Init(s0) && Throttled(s0) && ValidRun(s0, steps) && OrderlyRun(s0, steps)
    requires After(s0, steps).spc.SIdle? && After(s0, steps).cpc.CIdle?
    ensures var s := After(s0, steps);
            && FastForwardSteps(s.drv.cplHead, s.drv.subTail, s.drv.depth) == s.log.submitted - s.log.consumed
            && ResetAll(s.drv) == s.drv.(history := Emptied(s.drv.history), inflight := 0,
                                  cplHead := s.drv.subTail, phaseTag := Phase(s.log.submitted, s.drv.depth))
  {
    InitInv(s0);
    RunKeepsInv(s0, steps);
    var s := After(s0, steps);
    Outstandings(s);
    ResetLands(s);
    ResetFrame(s);
  }

  /**
    The throttle bounds what the controller owes: once it has answered what was submitted before an earlier
    reset, it owes at most depth - 8 completions, and a reset between two calls of CompleteCmd is orderly.
   */
  lemma OwedTheorem<R>(s0: State<R>, steps: seq<Step<R>>)
    requires Init(s0) && Throttled(s0) && ValidRun(s0, steps) && OrderlyRun(s0, steps)
    requires After(s0, steps).log.base <= |After(s0, steps).log.stream|
    ensures var s := After(s0, steps);
            && s.log.submitted - |s.log.stream| <= s.drv.depth - SAFE_SUBMIT_THRESHOLD
            && (s.cpc.CIdle? ==> Orderly(s, ResetStep))
  {
    InitInv(s0);
    RunKeepsInv(s0, steps);
    Unfetched(After(s0, steps));
  }

  /**
    Completions owed from before a reset never pass the phase test: whatever the head takes for a
    new entry answers a command submitted after the last reset.
   */
  lemma LateCompletionsTheorem<R>(s0: State<R>, steps: seq<Step<R>>)
    requires Init(s0) && Throttled(s0) && ValidRun(s0, steps) && OrderlyRun(s0, steps)
    ensures var s := After(s0, steps);
            && (Arrived(s) <==> s.log.consumed < |s.log.stream|)
            && (Arrived(s) || AtEntry(s.cpc) ==>
                  s.log.base <= s.log.consumed < |s.log.posts| && s.log.base <= s.log.posts[s.log.consumed])
  {
    InitInv(s0);
    RunKeepsInv(s0, steps);
    var s := After(s0, steps);
    HeadEntry(s);
    if s.log.consumed < |s.log.posts| {
      LateOnes(s, s.log.consumed);
    }
  }
}
