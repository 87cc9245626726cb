/**
  The table of outstanding requests: what the in-flight counter counts, and why every accepted
  request is completed once.
*/
module QueueRequests {
  import opened NvmeTypes
  import opened Ring
  import opened QueueModel
  import opened QueueProtocol
  import opened QueueRings

  // ---- Counting ----

  function Occupies<R>(slot: Option<R>): nat {
    if slot.Some? then 1 else 0
  }

  /** The number of occupied slots. */
  ghost function Occupied<R>(history: seq<Option<R>>): nat {
    if history == [] then 0 else Occupies(history[0]) + Occupied(history[1..])
  }

  ghost function Is<R>(slot: Option<R>, req: R): nat {
    if slot == Some(req) then 1 else 0
  }

  /** How many slots hold `req`. */
  ghost function Held<R>(history: seq<Option<R>>, req: R): nat {
    if history == [] then 0 else Is(history[0], req) + Held(history[1..], req)
  }

  /** How often `req` is completed in a list of notifications. */
  ghost function Completed<R>(notes: seq<Note<R>>, req: R): nat {
    if notes == [] then 0
    else Completed(notes[..|notes| - 1], req) + Is(Some(notes[|notes| - 1].req), req)
  }

  /** How often `req` was accepted. */
  ghost function TimesAccepted<R>(accepted: seq<Accepted<R>>, req: R): nat {
    if accepted == [] then 0
    else TimesAccepted(accepted[..|accepted| - 1], req) + Is(Some(accepted[|accepted| - 1].req), req)
  }

  lemma {:induction false} OccupiedUpdate<R>(history: seq<Option<R>>, i: nat, slot: Option<R>)
    requires i < |history|
    ensures Occupied(history[i := slot]) + Occupies(history[i]) == Occupied(history) + Occupies(slot)
  {
    if i == 0 {
      assert history[i := slot][1..] == history[1..];
    } else {
      OccupiedUpdate(history[1..], i - 1, slot);
      assert history[i := slot][1..] == history[1..][i - 1 := slot];
    }
  }

  lemma {:induction false} HeldUpdate<R>(history: seq<Option<R>>, i: nat, slot: Option<R>, req: R)
    requires i < |history|
    ensures Held(history[i := slot], req) + Is(history[i], req) == Held(history, req) + Is(slot, req)
  {
    if i == 0 {
      assert history[i := slot][1..] == history[1..];
    } else {
      HeldUpdate(history[1..], i - 1, slot, req);
      assert history[i := slot][1..] == history[1..][i - 1 := slot];
    }
  }

  lemma {:induction false} EmptyTable<R>(history: seq<Option<R>>)
    requires forall i :: 0 <= i < |history| ==> history[i] == None
    ensures Occupied(history) == 0
  {
    if history != [] {
      EmptyTable(history[1..]);
    }
  }

  lemma {:induction false} EmptyHolds<R>(history: seq<Option<R>>, req: R)
    requires forall i :: 0 <= i < |history| ==> history[i] == None
    ensures Held(history, req) == 0
  {
    if history != [] {
      EmptyHolds(history[1..], req);
    }
  }

  lemma {:induction false} CompletedConcat<R>(a: seq<Note<R>>, b: seq<Note<R>>, req: R)
    ensures Completed(a + b, req) == Completed(a, req) + Completed(b, req)
  {
    if b == [] {
      assert a + b == a;
    } else {
      assert (a + b)[..|a + b| - 1] == a + b[..|b| - 1];
      CompletedConcat(a, b[..|b| - 1], req);
    }
  }

  lemma CompletedMore<R>(notes: seq<Note<R>>, note: Note<R>, req: R)
    ensures Completed(notes + [note], req) == Completed(notes, req) + Is(Some(note.req), req)
  {
    assert (notes + [note])[..|notes|] == notes;
  }

  lemma AcceptedMore<R>(accepted: seq<Accepted<R>>, a: Accepted<R>, req: R)
    ensures TimesAccepted(accepted + [a], req) == TimesAccepted(accepted, req) + Is(Some(a.req), req)
  {
    assert (accepted + [a])[..|accepted|] == accepted;
  }

  lemma CompletedOne<R>(note: Note<R>, req: R)
    ensures Completed([note], req) == Is(Some(note.req), req)
  {
    assert [note][..0] == [];
  }

  /** A reset completes exactly the requests in the table. */
  lemma {:induction false} ResetCompletesHeld<R>(history: seq<Option<R>>, req: R)
    ensures Completed(ResetNotes(history), req) == Held(history, req)
    ensures forall i :: 0 <= i < |ResetNotes(history)| ==> ResetNotes(history)[i].status == SrbBusReset
  {
    if history != [] {
      var note := if history[0].Some? then [Note(history[0].value, SrbBusReset)] else [];
      CompletedConcat(note, ResetNotes(history[1..]), req);
      ResetCompletesHeld(history[1..], req);
      if history[0].Some? {
        CompletedOne(note[0], req);
      }
    }
  }

  /** Filling an empty slot. */
  lemma PushBalance<R>(history: seq<Option<R>>, cid: nat, req: R, r: R)
    requires cid < |history| && history[cid].None?
    ensures var pushed := Push(history, cid, req);
            && pushed.history == history[cid := Some(req)]
            && Occupied(pushed.history) == Occupied(history) + 1
            && Held(pushed.history, r) == Held(history, r) + Is(Some(req), r)
  {
    OccupiedUpdate(history, cid, Some(req));
    HeldUpdate(history, cid, Some(req), r);
  }

  /**
    SubmitCmd's way to put a request in the table, in one go: the slot changes hands, and the request it held
    is completed.
   */
  lemma PutMeans<R>(history: seq<Option<R>>, req: R, cid: nat)
    requires cid < |history|
    ensures var put := PutInTable(history, req, cid);
            && put.status == StatusSuccess
            && put.history == history[cid := Some(req)]
            && put.notes == if history[cid].Some? then [Note(history[cid].value, SrbBusy)] else []
  {
  }

  lemma PutBalance<R>(history: seq<Option<R>>, req: R, cid: nat, r: R)
    requires cid < |history|
    ensures var put := PutInTable(history, req, cid);
            && Occupied(put.history) + |put.notes| == Occupied(history) + 1
            && Held(put.history, r) + Completed(put.notes, r) == Held(history, r) + Is(Some(req), r)
  {
    PutMeans(history, req, cid);
    OccupiedUpdate(history, cid, Some(req));
    HeldUpdate(history, cid, Some(req), r);
    if history[cid].Some? {
      CompletedOne(Note(history[cid].value, SrbBusy), r);
    }
  }

  /** Emptying a slot. */
  lemma PopBalance<R>(history: seq<Option<R>>, cid: nat, held: Option<R>, r: R)
    requires cid < |history|
    ensures var popped := Pop(history, cid, held);
            && popped.req == history[cid]
            && Occupied(popped.history) + Occupies(popped.req) == Occupied(history)
            && Held(popped.history, r) + Is(popped.req, r) == Held(history, r)
  {
    OccupiedUpdate(history, cid, None);
    HeldUpdate(history, cid, None, r);
  }

  /**
    A pass of the loop in CompleteCmd keeps every request completed or in the table, exactly when the entry's
    tag is in the table's range or nothing is left in `srbext` from the pass before: a tag out of
    range leaves that variable alone, and the request in it is completed again.
   */
  lemma ConsumeBalance<R>(d: Driver<R>, cpl: Completion, held: Option<R>, req: R)
    requires d.Valid()
    ensures var r := Consume(d, cpl, held);
            Completed(r.notes, req) + Held(r.driver.history, req) == Held(d.history, req)
            <==> cpl.cid < |d.history| || held != Some(req)
  {
    var popped := Pop(d.history, cpl.cid, held);
    if cpl.cid < |d.history| {
      PopBalance(d.history, cpl.cid, held, req);
    }
    if popped.req.Some? {
      CompletedOne(Note(popped.req.value, SrbFromNvme(cpl.status)), req);
    }
  }

  /** With all tags in range a whole call of CompleteCmd completes what it takes out of the table, once each. */
  lemma {:induction false} CompleteBalance<R>(d: Driver<R>, cq: seq<Completion>, held: Option<R>,
                                              n: nat, max: nat, req: R)
    requires d.Valid() && |cq| == d.depth
    requires forall i :: 0 <= i < |cq| ==> cq[i].cid < |d.history|
    ensures var r := CompleteLoop(d, cq, held, n, max);
            Completed(r.notes, req) + Held(r.driver.history, req) == Held(d.history, req)
    decreases max - n
  {
    if n < max && NewCplArrived(cq[d.cplHead], d.phaseTag) {
      var one := Consume(d, cq[d.cplHead], held);
      ConsumeValid(d, cq[d.cplHead], held);
      ConsumeBalance(d, cq[d.cplHead], held, req);
      CompleteBalance(one.driver, cq, one.held, n + 1, max, req);
      CompletedConcat(one.notes, CompleteLoop(one.driver, cq, one.held, n + 1, max).notes, req);
    }
  }

  // ---- Conservation of the counter ----

  /** In the table but not counted yet. */
  function Uncounted<R>(pc: SubmitPc<R>): nat {
    if pc.SPushed? || pc.SCopied? then 1 else 0
  }

  /** Out of the table but still counted. */
  function StillCounted<R>(pc: CompletePc<R>): nat {
    if (pc.CPopped? && pc.found.Some?) || pc.CNotified? then 1 else 0
  }

  /** Counted, with the tail doorbell still to ring. */
  function Unrung<R>(pc: SubmitPc<R>): nat {
    if pc.SCounted? then 1 else 0
  }

  /** No longer counted, with the head still to move. */
  function Unmoved<R>(pc: CompletePc<R>): nat {
    if pc.CCounted? then 1 else 0
  }

  /**
    InflightCmds counts the occupied slots, the evictions and what a reset has cleared and not yet taken off; seen
    from the rings it counts the submissions not yet consumed and the entries that found their slot empty.
    Each count is off by what the last reset found under way in CompleteCmd when it set the counter.
   */
  ghost predicate CounterInv<R>(s: State<R>)
    requires WellFormed(s)
  {
    var d, l := s.drv, s.log;
    && d.inflight == Occupied(d.history) + l.evictions + l.cleared - Uncounted(s.spc) + StillCounted(s.cpc)
                     - StillCounted(l.caught)
    && d.inflight == l.submitted - l.consumed + l.misses + Unrung(s.spc) - Unmoved(s.cpc) + Unmoved(l.caught)
  }

  /** The throttle let the request pass and it is not counted yet. */
  ghost predicate BeforeCount<R>(pc: SubmitPc<R>) {
    pc.SChecked? || Replacing(pc) || pc.SPushed? || pc.SCopied?
  }

  /** The throttle leaves eight entries free. */
  ghost predicate ThrottleInv<R>(s: State<R>)
    requires WellFormed(s)
  {
    && s.drv.inflight <= s.drv.depth - SAFE_SUBMIT_THRESHOLD
    && (BeforeCount(s.spc) ==> s.drv.inflight < s.drv.depth - SAFE_SUBMIT_THRESHOLD)
  }

  /**
    With a depth of 8 or more the 32-bit difference changes nothing, and the 16-bit cast closes the throttle
    for a counter below zero.
   */
  lemma ThrottleMeans(depth: nat, inflight: int)
    requires SAFE_SUBMIT_THRESHOLD <= depth < TWO_TO_THE_16
    requires depth - SAFE_SUBMIT_THRESHOLD - TWO_TO_THE_16 <= inflight < TWO_TO_THE_16
    ensures IsSafeForSubmit(depth, inflight) <==> 0 <= inflight < depth - SAFE_SUBMIT_THRESHOLD
    ensures IsSafeForSubmit(depth, inflight) <==> 0 <= inflight < depth - 8
  {
    if inflight < 0 {
      assert inflight % TWO_TO_THE_16 == inflight + TWO_TO_THE_16;
    }
  }

  /** With a smaller depth the difference wraps, and the throttle never holds a command back. */
  lemma ThrottleWraps(depth: nat, inflight: int)
    requires depth < SAFE_SUBMIT_THRESHOLD
    ensures IsSafeForSubmit(depth, inflight)
  {
  }

  /** The first push found the slot taken. */
  ghost predicate Replacing<R>(pc: SubmitPc<R>) {
    pc.SRefused? || pc.SEvicted? || pc.SReplacing?
  }

  /** Between the eviction and the second push the slot stays empty: the second push cannot be refused. */
  ghost predicate ReplaceInv<R>(s: State<R>)
    requires WellFormed(s)
  {
    s.spc.SEvicted? || s.spc.SReplacing? ==>
      && s.spc.cmd.cid in s.log.evicted
      && s.spc.cmd.cid < |s.drv.history|
      && s.drv.history[s.spc.cmd.cid].None?
  }

  /** A reset has emptied the slots behind it; before the store to the counter is all that it clears. */
  ghost predicate ResetInv<R>(s: State<R>)
    requires WellFormed(s)
  {
    var h := s.drv.history;
    && (s.spc.RLook? ==> s.spc.i <= |h| && EmptyBelow(h, s.spc.i))
    && (s.spc.RTell? || s.spc.RClear? ==> s.spc.i < |h| && EmptyBelow(h, s.spc.i))
    && (s.spc.RStore? ==> EmptyBelow(h, |h|))
    && (Clearing(s.spc) || s.log.cleared == 0)
  }

  ghost predicate EmptyBelow<R>(history: seq<Option<R>>, n: nat) {
    forall j :: 0 <= j < n && j < |history| ==> history[j].None?
  }

  ghost predicate Clearing<R>(pc: SubmitPc<R>) {
    pc.RLook? || pc.RTell? || pc.RClear? || pc.RStore? || pc.RCrashed?
  }

  lemma ResetInvStep<R>(s: State<R>, step: Step<R>)
    requires WellFormed(s) && ResetInv(s) && Enabled(s, step)
    ensures WellFormed(Apply(s, step)) && ResetInv(Apply(s, step))
  {
    ApplyWellFormed(s, step);
    if step.ResetStep? {
      ResetFrame(s);
    }
  }

  /** Every tag the driver is going to look up lies inside the table. */
  ghost predicate TagsInRange<R>(s: State<R>)
    requires WellFormed(s)
  {
    var size := |s.drv.history|;
    && (forall i :: 0 <= i < |s.drv.sq| ==> s.drv.sq[i].cid < size)
    && (Replacing(s.spc) || s.spc.SPushed? ==> s.spc.cmd.cid < size)
    && (forall i :: i in s.dev.pending ==> s.dev.pending[i].cid < size)
    && (forall k :: 0 <= k < |s.cq| ==> s.cq[k].cid < size)
    && (s.cpc.CSeen? ==> s.cpc.cpl.cid < size)
  }

  lemma TagsDriver<R>(s: State<R>, step: Step<R>)
    requires WellFormed(s) && TagsInRange(s) && Enabled(s, step)
    requires BeforeDoorbell(step) || step.RingStep? || OfComplete(step)
    ensures WellFormed(Apply(s, step)) && TagsInRange(Apply(s, step))
  {
    ApplyWellFormed(s, step);
  }

  lemma TagsController<R>(s: State<R>, step: Step<R>)
    requires WellFormed(s) && TagsInRange(s) && Enabled(s, step) && OfController(step)
    ensures WellFormed(Apply(s, step)) && TagsInRange(Apply(s, step))
  {
  }

  lemma TagsCut<R>(s: State<R>, step: Step<R>)
    requires WellFormed(s) && TagsInRange(s) && Enabled(s, step) && IsCut(step)
    ensures WellFormed(Apply(s, step)) && TagsInRange(Apply(s, step))
  {
    ApplyWellFormed(s, step);
  }

  lemma TagsReset<R>(s: State<R>)
    requires WellFormed(s) && TagsInRange(s) && Enabled(s, ResetStep)
    ensures WellFormed(Apply(s, ResetStep)) && TagsInRange(Apply(s, ResetStep))
  {
    ApplyWellFormed<R>(s, ResetStep);
    ResetFrame(s);
  }

  lemma TagsStep<R>(s: State<R>, step: Step<R>)
    requires WellFormed(s) && TagsInRange(s) && Enabled(s, step)
    ensures WellFormed(Apply(s, step)) && TagsInRange(Apply(s, step))
  {
    if OfController(step) {
      TagsController(s, step);
    } else if step.ResetStep? {
      TagsReset(s);
    } else if IsCut(step) {
      TagsCut(s, step);
    } else {
      TagsDriver(s, step);
    }
  }

  lemma ReplaceStep<R>(s: State<R>, step: Step<R>)
    requires WellFormed(s) && TagsInRange(s) && ReplaceInv(s) && Enabled(s, step)
    ensures WellFormed(Apply(s, step)) && ReplaceInv(Apply(s, step))
  {
    ApplyWellFormed(s, step);
  }

  lemma CounterPush<R>(s: State<R>, step: Step<R>)
    requires WellFormed(s) && ReplaceInv(s) && CounterInv(s) && Enabled(s, step)
    requires step.PushStep? || step.RepushStep?
    ensures WellFormed(Apply(s, step)) && CounterInv(Apply(s, step))
  {
    if Apply(s, step).spc.SPushed? {
      PushBalance(s.drv.history, s.spc.cmd.cid, s.spc.req, s.spc.req);
    }
  }

  lemma CounterEvict<R>(s: State<R>)
    requires WellFormed(s) && TagsInRange(s) && CounterInv(s) && Enabled(s, EvictStep)
    ensures WellFormed(Apply(s, EvictStep)) && CounterInv(Apply(s, EvictStep))
  {
    PopBalance(s.drv.history, s.spc.cmd.cid, None, s.spc.req);
  }

  lemma CounterPop<R>(s: State<R>)
    requires WellFormed(s) && TagsInRange(s) && CounterInv(s) && Enabled(s, PopStep)
    ensures WellFormed(Apply(s, PopStep)) && CounterInv(Apply(s, PopStep))
  {
    OccupiedUpdate(s.drv.history, s.cpc.cpl.cid, None);
  }

  lemma CounterClear<R>(s: State<R>)
    requires WellFormed(s) && ResetInv(s) && CounterInv(s) && Enabled(s, ClearStep)
    ensures WellFormed(Apply(s, ClearStep)) && CounterInv(Apply(s, ClearStep))
  {
    OccupiedUpdate(s.drv.history, s.spc.i, None);
  }

  lemma CounterStore<R>(s: State<R>)
    requires WellFormed(s) && ResetInv(s) && Enabled(s, StoreStep)
    ensures WellFormed(Apply(s, StoreStep)) && CounterInv(Apply(s, StoreStep))
  {
    EmptyTable(s.drv.history);
  }

  lemma CounterReset<R>(s: State<R>)
    requires WellFormed(s) && ResetInv(s) && Enabled(s, ResetStep)
    ensures WellFormed(Apply(s, ResetStep)) && CounterInv(Apply(s, ResetStep))
  {
    ApplyWellFormed<R>(s, ResetStep);
    ResetFrame(s);
    EmptyTable(Emptied(s.drv.history));
  }

  /** Steps that change neither the table nor the counter, nor what the two equations correct it by. */
  lemma CounterQuiet<R>(s: State<R>, step: Step<R>)
    requires WellFormed(s) && CounterInv(s) && Enabled(s, step)
    requires OfController(step) || step.StartSubmit? || step.NotifyEvictedStep? || step.CopyStep?
    ensures WellFormed(Apply(s, step)) && CounterInv(Apply(s, step))
  {
    ApplyWellFormed(s, step);
    CounterFrame(s, Apply(s, step));
  }

  lemma CounterCut<R>(s: State<R>, step: Step<R>)
    requires WellFormed(s) && CounterInv(s) && Enabled(s, step)
    requires IsCut(step) && !step.ClearStep? && !step.StoreStep?
    ensures WellFormed(Apply(s, step)) && CounterInv(Apply(s, step))
  {
    ApplyWellFormed(s, step);
    CounterFrame(s, Apply(s, step));
  }

  lemma CounterFrame<R>(s: State<R>, s': State<R>)
    requires WellFormed(s) && WellFormed(s') && CounterInv(s)
    requires s'.drv.inflight == s.drv.inflight && s'.drv.history == s.drv.history
    requires s'.log.evictions == s.log.evictions && s'.log.cleared == s.log.cleared && s'.log.misses == s.log.misses
    requires s'.log.submitted == s.log.submitted && s'.log.consumed == s.log.consumed
    requires s'.log.caught == s.log.caught && s'.cpc == s.cpc
    requires Uncounted(s'.spc) == Uncounted(s.spc) && Unrung(s'.spc) == Unrung(s.spc)
    ensures CounterInv(s')
  {
  }

  /** Steps that move a request from one term of the equations to another. */
  lemma CounterMoves<R>(s: State<R>, step: Step<R>)
    requires WellFormed(s) && CounterInv(s) && Enabled(s, step)
    requires step.CountStep? || step.RingStep? || (OfComplete(step) && !step.PopStep?)
    ensures WellFormed(Apply(s, step)) && CounterInv(Apply(s, step))
  {
    ApplyWellFormed(s, step);
  }

  lemma CounterStep<R>(s: State<R>, step: Step<R>)
    requires WellFormed(s) && TagsInRange(s) && ReplaceInv(s) && ResetInv(s) && CounterInv(s)
    requires Enabled(s, step)
    ensures WellFormed(Apply(s, step)) && CounterInv(Apply(s, step))
  {
    if step.PushStep? || step.RepushStep? {
      CounterPush(s, step);
    } else if step.EvictStep? {
      CounterEvict(s);
    } else if step.PopStep? {
      CounterPop(s);
    } else if step.ResetStep? {
      CounterReset(s);
    } else if step.ClearStep? {
      CounterClear(s);
    } else if step.StoreStep? {
      CounterStore(s);
    } else if step.CountStep? || step.RingStep? || OfComplete(step) {
      CounterMoves(s, step);
    } else if IsCut(step) {
      CounterCut(s, step);
    } else {
      CounterQuiet(s, step);
    }
  }

  lemma ThrottleStep<R>(s: State<R>, step: Step<R>)
    requires WellFormed(s) && s.drv.depth >= SAFE_SUBMIT_THRESHOLD
    requires CounterInv(s) && ThrottleInv(s) && Enabled(s, step)
    ensures WellFormed(Apply(s, step)) && ThrottleInv(Apply(s, step))
  {
    ApplyWellFormed(s, step);
    if step.StartSubmit? {
      ThrottleMeans(s.drv.depth, s.drv.inflight);
    } else if step.ResetStep? {
      ResetFrame(s);
    }
  }

  // ---- Exactly once ----

  /** CompleteCmd has taken `req` from the table and not completed it yet. */
  ghost function InHand<R>(pc: CompletePc<R>, req: R): nat {
    if pc.CPopped? then Is(pc.found, req) else 0
  }

  /** SubmitCmd has evicted `req` from the table and not completed it yet. */
  ghost function OnItsWayOut<R>(pc: SubmitPc<R>, req: R): nat {
    if pc.SEvicted? then Is(Some(pc.out), req) else 0
  }

  /** A reset has completed `req` and not yet cleared its slot. */
  ghost function ToldAndHeld<R>(s: State<R>, req: R): nat
    requires WellFormed(s)
  {
    if s.spc.RClear? && s.spc.i < |s.drv.history| then Is(s.drv.history[s.spc.i], req) else 0
  }

  /** How often `req` is in a list. */
  ghost function Times<R>(reqs: seq<R>, req: R): nat {
    if reqs == [] then 0 else Times(reqs[..|reqs| - 1], req) + Is(Some(reqs[|reqs| - 1]), req)
  }

  lemma TimesMore<R>(reqs: seq<R>, r: R, req: R)
    ensures Times(reqs + [r], req) == Times(reqs, req) + Is(Some(r), req)
  {
    assert (reqs + [r])[..|reqs|] == reqs;
  }

  /**
    Every accepted request is completed, or in the table, or in the hands of CompleteCmd or SubmitCmd; what CompleteCmd
    took out after a reset had completed it is there once too often.
   */
  ghost predicate RequestInv<R>(s: State<R>, req: R)
    requires WellFormed(s)
  {
    TimesAccepted(s.log.accepted, req) + Times(s.log.twice, req) + ToldAndHeld(s, req)
    == Completed(s.log.notes, req) + Held(s.drv.history, req) + InHand(s.cpc, req) + OnItsWayOut(s.spc, req)
  }

  lemma RequestFills<R>(s: State<R>, s': State<R>, cid: nat, a: Accepted<R>, req: R)
    requires WellFormed(s) && WellFormed(s') && RequestInv(s, req)
    requires cid < |s.drv.history| && s.drv.history[cid].None?
    requires s'.drv.history == s.drv.history[cid := Some(a.req)] && s'.log.accepted == s.log.accepted + [a]
    requires s'.log.notes == s.log.notes && s'.log.twice == s.log.twice && s'.cpc == s.cpc
    requires !s.spc.SEvicted? && !s'.spc.SEvicted? && !s.spc.RClear? && !s'.spc.RClear?
    ensures RequestInv(s', req)
  {
    HeldUpdate(s.drv.history, cid, Some(a.req), req);
    AcceptedMore(s.log.accepted, a, req);
  }

  lemma RequestPush<R>(s: State<R>, step: Step<R>, req: R)
    requires WellFormed(s) && ReplaceInv(s) && RequestInv(s, req) && Enabled(s, step)
    requires step.PushStep? || step.RepushStep?
    ensures WellFormed(Apply(s, step)) && RequestInv(Apply(s, step), req)
  {
    ApplyWellFormed(s, step);
    if Apply(s, step).spc.SPushed? {
      RequestFills(s, Apply(s, step), s.spc.cmd.cid, Accepted(s.spc.req, s.spc.cmd), req);
    } else {
      RequestFrame(s, Apply(s, step), req);
    }
  }

  lemma RequestLeaves<R>(s: State<R>, s': State<R>, cid: nat, req: R)
    requires WellFormed(s) && WellFormed(s') && RequestInv(s, req)
    requires cid < |s.drv.history| && s'.drv.history == s.drv.history[cid := None]
    requires s'.log.accepted == s.log.accepted && s'.log.notes == s.log.notes && s'.log.twice == s.log.twice
    requires s'.cpc == s.cpc && !s.spc.RClear? && !s'.spc.RClear?
    requires OnItsWayOut(s'.spc, req) == OnItsWayOut(s.spc, req) + Is(s.drv.history[cid], req)
    ensures RequestInv(s', req)
  {
    HeldUpdate(s.drv.history, cid, None, req);
  }

  lemma RequestEvict<R>(s: State<R>, req: R)
    requires WellFormed(s) && TagsInRange(s) && RequestInv(s, req) && Enabled(s, EvictStep)
    ensures WellFormed(Apply(s, EvictStep)) && RequestInv(Apply(s, EvictStep), req)
  {
    ApplyWellFormed<R>(s, EvictStep);
    if Apply(s, EvictStep).spc.SEvicted? {
      RequestLeaves(s, Apply(s, EvictStep), s.spc.cmd.cid, req);
    } else {
      RequestFrame(s, Apply(s, EvictStep), req);
    }
  }

  lemma RequestPop<R>(s: State<R>, req: R)
    requires WellFormed(s) && TagsInRange(s) && RequestInv(s, req) && Enabled(s, PopStep)
    ensures WellFormed(Apply(s, PopStep)) && RequestInv(Apply(s, PopStep), req)
  {
    PopBalance(s.drv.history, s.cpc.cpl.cid, s.cpc.held, req);
    if TakesCompleted(s, PopStep) {
      TimesMore(s.log.twice, s.drv.history[s.cpc.cpl.cid].value, req);
    }
  }

  lemma RequestTell<R>(s: State<R>, req: R)
    requires WellFormed(s) && ResetInv(s) && RequestInv(s, req) && Enabled(s, TellStep)
    ensures WellFormed(Apply(s, TellStep)) && RequestInv(Apply(s, TellStep), req)
  {
    if s.drv.history[s.spc.i].Some? {
      CompletedMore(s.log.notes, Note(s.drv.history[s.spc.i].value, SrbBusReset), req);
    }
  }

  lemma RequestClear<R>(s: State<R>, req: R)
    requires WellFormed(s) && ResetInv(s) && RequestInv(s, req) && Enabled(s, ClearStep)
    ensures WellFormed(Apply(s, ClearStep)) && RequestInv(Apply(s, ClearStep), req)
  {
    HeldUpdate(s.drv.history, s.spc.i, None, req);
  }

  lemma RequestReset<R>(s: State<R>, req: R)
    requires WellFormed(s) && RequestInv(s, req) && Enabled(s, ResetStep)
    ensures WellFormed(Apply(s, ResetStep)) && RequestInv(Apply(s, ResetStep), req)
  {
    ApplyWellFormed<R>(s, ResetStep);
    ResetFrame(s);
    EmptyHolds(Emptied(s.drv.history), req);
    CompletedConcat(s.log.notes, ResetNotes(s.drv.history), req);
    ResetCompletesHeld(s.drv.history, req);
  }

  lemma RequestNotify<R>(s: State<R>, step: Step<R>, req: R)
    requires WellFormed(s) && RequestInv(s, req) && Enabled(s, step)
    requires step.NotifyStep? || step.NotifyEvictedStep?
    ensures WellFormed(Apply(s, step)) && RequestInv(Apply(s, step), req)
  {
    var note := if step.NotifyStep? then Note(s.cpc.found.value, SrbFromNvme(s.cpc.cpl.status))
                else Note(s.spc.out, SrbBusy);
    CompletedMore(s.log.notes, note, req);
  }

  lemma RequestFrame<R>(s: State<R>, s': State<R>, req: R)
    requires WellFormed(s) && WellFormed(s') && RequestInv(s, req)
    requires s'.log.accepted == s.log.accepted && s'.log.notes == s.log.notes && s'.log.twice == s.log.twice
    requires s'.drv.history == s.drv.history
    requires InHand(s'.cpc, req) == InHand(s.cpc, req) && OnItsWayOut(s'.spc, req) == OnItsWayOut(s.spc, req)
    requires ToldAndHeld(s', req) == ToldAndHeld(s, req)
    ensures RequestInv(s', req)
  {
  }

  lemma RequestSubmitQuiet<R>(s: State<R>, step: Step<R>, req: R)
    requires WellFormed(s) && RequestInv(s, req) && Enabled(s, step)
    requires step.StartSubmit? || step.CopyStep? || step.CountStep? || step.RingStep? || OfController(step)
             || (IsCut(step) && !step.TellStep? && !step.ClearStep?)
    ensures WellFormed(Apply(s, step)) && RequestInv(Apply(s, step), req)
  {
    ApplyWellFormed(s, step);
    RequestFrame(s, Apply(s, step), req);
  }

  lemma RequestCompleteQuiet<R>(s: State<R>, step: Step<R>, req: R)
    requires WellFormed(s) && RequestInv(s, req) && Enabled(s, step)
    requires OfComplete(step) && !step.PopStep? && !step.NotifyStep?
    ensures WellFormed(Apply(s, step)) && RequestInv(Apply(s, step), req)
  {
    ApplyWellFormed(s, step);
    RequestFrame(s, Apply(s, step), req);
  }

  lemma RequestStep<R>(s: State<R>, step: Step<R>, req: R)
    requires WellFormed(s) && TagsInRange(s) && ReplaceInv(s) && ResetInv(s) && RequestInv(s, req)
    requires Enabled(s, step)
    ensures WellFormed(Apply(s, step)) && RequestInv(Apply(s, step), req)
  {
    if step.PushStep? || step.RepushStep? {
      RequestPush(s, step, req);
    } else if step.EvictStep? {
      RequestEvict(s, req);
    } else if step.PopStep? {
      RequestPop(s, req);
    } else if step.ResetStep? {
      RequestReset(s, req);
    } else if step.TellStep? {
      RequestTell(s, req);
    } else if step.ClearStep? {
      RequestClear(s, req);
    } else if step.NotifyStep? || step.NotifyEvictedStep? {
      RequestNotify(s, step, req);
    } else if OfComplete(step) {
      RequestCompleteQuiet(s, step, req);
    } else {
      RequestSubmitQuiet(s, step, req);
    }
  }

  lemma CountersInit<R>(s: State<R>)
    requires Init(s)
    ensures WellFormed(s) && CounterInv(s) && TagsInRange(s) && ReplaceInv(s) && ResetInv(s)
    ensures s.drv.depth >= SAFE_SUBMIT_THRESHOLD ==> ThrottleInv(s)
  {
    EmptyTable(s.drv.history);
  }

  lemma RequestsInit<R>(s: State<R>, req: R)
    requires Init(s)
    ensures WellFormed(s) && RequestInv(s, req)
  {
    EmptyHolds(s.drv.history, req);
  }
}
