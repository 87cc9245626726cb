/**
  The two rings of the protocol: every wrapped index stands for the free-running position in the
  log, and the completion ring holds the posted stream.
*/
module QueueRings {
  import opened NvmeTypes
  import opened Ring
  import opened QueueModel
  import opened QueueProtocol

  /** Entries consumed by the running CompleteCmd whose head doorbell is not yet rung. */
  function Unbelled<R>(pc: CompletePc<R>): nat {
    if pc.CIdle? then 0 else pc.n
  }

  /** Between accepting an entry and moving the head past it. */
  ghost predicate AtEntry<R>(pc: CompletePc<R>) {
    pc.CSeen? || pc.CPopped? || pc.CNotified? || pc.CCounted?
  }

  ghost predicate RingInv<R>(s: State<R>)
    requires WellFormed(s)
  {
    var d, l, P, F := s.drv, s.log, |s.log.stream|, |s.log.fetched|;
    && d.subTail == d.sqDbl == Slot(l.submitted, d.depth)
    && s.dev.sqHead == Slot(F, d.depth)
    && d.cplHead == Slot(l.consumed, d.depth)
    && d.phaseTag == Phase(l.consumed, d.depth)
    && s.dev.cqTail == Slot(P, d.depth)
    && s.dev.phase == Phase(P, d.depth)
    && d.cqDbl == Slot(l.belled, d.depth)
    && l.base <= l.consumed <= l.submitted
    && P <= F <= l.submitted
    && |l.posts| == P
    && l.belled <= P && l.belled <= l.consumed
    && P - l.belled < d.depth
    && l.consumed < P + d.depth
    && (l.base < l.consumed ==> l.consumed <= P)
    && (l.resets == 0 ==> l.base == 0 && l.consumed - l.belled == Unbelled(s.cpc))
    && l.base + Unbelled(s.cpc) <= l.consumed
    && (AtEntry(s.cpc) ==> l.consumed < P)
  }

  /** Commands the controller has fetched are posted or pending, each once. */
  ghost predicate PendingInv<R>(s: State<R>)
    requires WellFormed(s)
  {
    && |s.dev.pending| + |s.log.stream| == |s.log.fetched|
    && (forall i :: i in s.dev.pending ==> i < |s.log.fetched|)
  }

  /** What the ring remembers of position `k`: the entry posted there, or the zeroes before position 0. */
  ghost function EntryAt(stream: seq<Completion>, k: int): Completion
    requires k < |stream|
  {
    if k < 0 then ZERO_COMPLETION else stream[k]
  }

  /** The ring holds the last lap of the stream, and the phase of an entry tells its lap. */
  ghost predicate CqInv<R>(s: State<R>)
    requires WellFormed(s)
  {
    var depth, stream := s.drv.depth, s.log.stream;
    && (forall k :: |stream| - depth <= k < |stream| ==> s.cq[Slot(k, depth)] == EntryAt(stream, k))
    && (forall k :: |stream| - depth <= k < |stream| ==> EntryAt(stream, k).phase == Phase(k, depth))
  }

  /** What the completion routine took in is the entry at its position. */
  ghost predicate SeenInv<R>(s: State<R>)
    requires WellFormed(s)
  {
    && (s.cpc.CSeen? ==> s.log.consumed < |s.log.stream| && s.cpc.cpl == s.log.stream[s.log.consumed])
    && (s.cpc.CPopped? ==> s.log.consumed < |s.log.stream| && s.cpc.cpl == s.log.stream[s.log.consumed])
    && (s.log.resets == 0 ==> s.log.seen == Firsts(s.log.stream, s.log.consumed + if AtEntry(s.cpc) then 1 else 0))
  }

  /**
    The entry at the head carries the current phase tag exactly when the controller has posted an
    entry there that has not been consumed, and then it is that entry.
   */
  lemma HeadEntry<R>(s: State<R>)
    requires WellFormed(s) && RingInv(s) && CqInv(s)
    ensures Arrived(s) <==> s.log.consumed < |s.log.stream|
    ensures Arrived(s) ==> s.cq[s.drv.cplHead] == s.log.stream[s.log.consumed]
  {
    var C, depth := s.log.consumed, s.drv.depth;
    if C < |s.log.stream| {
      assert s.cq[Slot(C, depth)] == EntryAt(s.log.stream, C);
    } else {
      Lap(C, depth);
      assert s.cq[Slot(C - depth, depth)] == EntryAt(s.log.stream, C - depth);
    }
  }

  lemma RingInit<R>(s: State<R>)
    requires Init(s)
    ensures WellFormed(s) && RingInv(s) && CqInv(s) && PendingInv(s) && SeenInv(s)
  {
    Start(s.drv.depth);
    forall k | -(s.drv.depth as int) <= k < 0
      ensures ZERO_COMPLETION.phase == Phase(k, s.drv.depth)
    {
      ZeroLap(k, s.drv.depth);
    }
  }

  /** The fast-forward loop moves the head by the number of outstanding commands. */
  lemma FastForwardMoves<R>(d: Driver<R>, position: nat, steps: nat)
    requires d.Valid()
    requires d.cplHead == Slot(position, d.depth) && d.phaseTag == Phase(position, d.depth)
    ensures FastForward(d, steps).cplHead == Slot(position + steps, d.depth)
    ensures FastForward(d, steps).phaseTag == Phase(position + steps, d.depth)
    decreases steps
  {
    if steps > 0 {
      Next(position, d.depth);
      FastForwardMoves(AdvanceHead(d), position + 1, steps - 1);
    }
  }

  /** With less than a lap outstanding the loop runs once for each outstanding command. */
  lemma FastForwardCount(head: nat, tail: nat, depth: nat)
    requires 0 < depth && head <= tail < head + depth
    ensures FastForwardSteps(Slot(head, depth), Slot(tail, depth), depth) == tail - head
  {
    var h := Slot(head, depth);
    var q := head / depth;
    assert head == q * depth + h;
    if h + (tail - head) < depth {
      DivModUnique(tail, depth, q, h + (tail - head));
    } else {
      assert tail == (q + 1) * depth + (h + (tail - head) - depth) by {
        assert (q + 1) * depth == q * depth + depth;
      }
      DivModUnique(tail, depth, q + 1, h + (tail - head) - depth);
    }
  }

  lemma ResetLands<R>(s: State<R>)
    requires WellFormed(s) && RingInv(s)
    requires s.log.submitted - s.log.consumed < s.drv.depth
    ensures FastForwardSteps(s.drv.cplHead, s.drv.subTail, s.drv.depth) == s.log.submitted - s.log.consumed
    ensures ResetAll(s.drv).cplHead == s.drv.subTail
    ensures ResetAll(s.drv).phaseTag == Phase(s.log.submitted, s.drv.depth)
  {
    var d1 := s.drv.(history := Emptied(s.drv.history), inflight := 0);
    FastForwardCount(s.log.consumed, s.log.submitted, s.drv.depth);
    FastForwardMoves(d1, s.log.consumed, s.log.submitted - s.log.consumed);
  }

  /** The controller's comparison of wrapped indices finds a full ring exactly one entry early. */
  lemma NotFull<R>(s: State<R>)
    requires WellFormed(s) && RingInv(s)
    ensures CqFull(s) <==> |s.log.stream| - s.log.belled == s.drv.depth - 1
  {
    var P, B, depth := |s.log.stream|, s.log.belled, s.drv.depth;
    Next(P, depth);
    if P + 1 - B == depth {
      Lap(P + 1, depth);
    } else {
      Distinct(B, P + 1, depth);
    }
  }

  /** The steps of SubmitCmd before the doorbell leave the rings' indices alone. */
  lemma RingSubmitStep<R>(s: State<R>, step: Step<R>)
    requires WellFormed(s) && RingInv(s) && Enabled(s, step)
    requires BeforeDoorbell(step)
    ensures WellFormed(Apply(s, step)) && RingInv(Apply(s, step))
  {
    var s' := Apply(s, step);
    assert s'.drv == s.drv.(history := s'.drv.history, sq := s'.drv.sq, inflight := s'.drv.inflight);
    assert s'.dev == s.dev && s'.cpc == s.cpc;
    assert s'.log == s.log.(accepted := s'.log.accepted, owner := s'.log.owner, evictions := s'.log.evictions,
                            evicted := s'.log.evicted,
                            notes := s'.log.notes, overrun := s'.log.overrun);
  }

  /** And so do the steps of CompleteCmd that work on an entry. */
  lemma RingEntryStep<R>(s: State<R>, step: Step<R>)
    requires WellFormed(s) && RingInv(s) && CqInv(s) && Enabled(s, step)
    requires step.StartComplete? || step.ObserveStep? || step.PopStep? || step.NotifyStep? || step.DecrementStep?
    ensures WellFormed(Apply(s, step)) && RingInv(Apply(s, step))
  {
    if step.ObserveStep? {
      HeadEntry(s);
    }
  }

  lemma RingDoorbell<R>(s: State<R>)
    requires WellFormed(s) && RingInv(s) && Enabled(s, RingStep)
    ensures WellFormed(Apply(s, RingStep)) && RingInv(Apply(s, RingStep))
  {
    Next(s.log.submitted, s.drv.depth);
  }

  lemma RingAdvance<R>(s: State<R>)
    requires WellFormed(s) && RingInv(s) && Enabled(s, AdvanceStep)
    ensures WellFormed(Apply(s, AdvanceStep)) && RingInv(Apply(s, AdvanceStep))
  {
    Next(s.log.consumed, s.drv.depth);
  }

  lemma RingFinish<R>(s: State<R>)
    requires WellFormed(s) && RingInv(s) && Enabled(s, FinishComplete)
    ensures WellFormed(Apply(s, FinishComplete)) && RingInv(Apply(s, FinishComplete))
  {
  }

  lemma RingResetStep<R>(s: State<R>)
    requires WellFormed(s) && RingInv(s) && Enabled(s, ResetStep) && Orderly(s, ResetStep)
    requires s.log.submitted - s.log.consumed < s.drv.depth
    ensures WellFormed(Apply(s, ResetStep)) && RingInv(Apply(s, ResetStep))
  {
    ApplyWellFormed<R>(s, ResetStep);
    ResetLands(s);
    ResetFrame(s);
  }

  /** A reset touches the head, its phase, the table and the counter. */
  lemma ResetFrame<R>(s: State<R>)
    requires WellFormed(s)
    ensures var d := ResetAll(s.drv);
            d == s.drv.(history := Emptied(s.drv.history), inflight := 0, cplHead := d.cplHead, phaseTag := d.phaseTag)
  {
    var d1 := s.drv.(history := Emptied(s.drv.history), inflight := 0);
    FastForwardKeeps(d1, FastForwardSteps(d1.cplHead, d1.subTail, d1.depth));
  }

  lemma RingFetchStep<R>(s: State<R>)
    requires WellFormed(s) && RingInv(s) && Enabled(s, FetchStep)
    ensures WellFormed(Apply(s, FetchStep)) && RingInv(Apply(s, FetchStep))
  {
    Next(|s.log.fetched|, s.drv.depth);
  }

  lemma RingPostStep<R>(s: State<R>, i: nat, status: NvmeStatus)
    requires WellFormed(s) && RingInv(s) && PendingInv(s) && Enabled(s, PostStep(i, status))
    requires Orderly(s, PostStep(i, status))
    ensures WellFormed(Apply(s, PostStep(i, status))) && RingInv(Apply(s, PostStep(i, status)))
  {
    Next(|s.log.stream|, s.drv.depth);
    NotFull(s);
    assert |s.dev.pending| > 0;
  }

  lemma PendingPost<R>(s: State<R>, i: nat, status: NvmeStatus)
    requires WellFormed(s) && PendingInv(s) && Enabled(s, PostStep(i, status))
    ensures WellFormed(Apply(s, PostStep(i, status))) && PendingInv(Apply(s, PostStep(i, status)))
  {
    assert (s.dev.pending - {i}).Keys == s.dev.pending.Keys - {i};
  }

  lemma PendingFetch<R>(s: State<R>)
    requires WellFormed(s) && PendingInv(s) && Enabled(s, FetchStep)
    ensures WellFormed(Apply(s, FetchStep)) && PendingInv(Apply(s, FetchStep))
  {
  }

  lemma PendingStep<R>(s: State<R>, step: Step<R>)
    requires WellFormed(s) && PendingInv(s) && Enabled(s, step)
    ensures WellFormed(Apply(s, step)) && PendingInv(Apply(s, step))
  {
    if step.PostStep? {
      PendingPost(s, step.command, step.status);
    } else if step.FetchStep? {
      PendingFetch(s);
    } else {
      ApplyWellFormed(s, step);
      ControllerStays(s, step);
    }
  }

  lemma CqPost<R>(s: State<R>, i: nat, status: NvmeStatus)
    requires WellFormed(s) && RingInv(s) && CqInv(s) && Enabled(s, PostStep(i, status))
    ensures WellFormed(Apply(s, PostStep(i, status))) && CqInv(Apply(s, PostStep(i, status)))
  {
    var s', P, depth := Apply(s, PostStep(i, status)), |s.log.stream|, s.drv.depth;
    forall k | P + 1 - depth <= k < P + 1
      ensures s'.cq[Slot(k, depth)] == EntryAt(s'.log.stream, k)
      ensures EntryAt(s'.log.stream, k).phase == Phase(k, depth)
    {
      if k < P {
        Distinct(k, P, depth);
        assert s.cq[Slot(k, depth)] == EntryAt(s.log.stream, k);
      }
    }
  }

  lemma CqFrame<R>(s: State<R>, s': State<R>)
    requires WellFormed(s) && WellFormed(s') && CqInv(s)
    requires s'.cq == s.cq && s'.log.stream == s.log.stream && s'.drv.depth == s.drv.depth
    ensures CqInv(s')
  {
  }

  lemma CqStep<R>(s: State<R>, step: Step<R>)
    requires WellFormed(s) && RingInv(s) && CqInv(s) && Enabled(s, step)
    ensures WellFormed(Apply(s, step)) && CqInv(Apply(s, step))
  {
    ApplyWellFormed(s, step);
    if step.PostStep? {
      CqPost(s, step.command, step.status);
    } else if step.FetchStep? {
      CqFrame(s, Apply<R>(s, FetchStep));
    } else {
      ControllerStays(s, step);
      CqFrame(s, Apply(s, step));
    }
  }

  lemma SeenObserve<R>(s: State<R>)
    requires WellFormed(s) && RingInv(s) && CqInv(s) && SeenInv(s) && Enabled(s, ObserveStep)
    ensures WellFormed(Apply(s, ObserveStep)) && SeenInv(Apply(s, ObserveStep))
  {
    HeadEntry(s);
  }

  /** The other steps of CompleteCmd, and a reset. */
  lemma SeenEntry<R>(s: State<R>, step: Step<R>)
    requires WellFormed(s) && RingInv(s) && SeenInv(s) && Enabled(s, step)
    requires step.StartComplete? || step.PopStep? || step.NotifyStep? || step.DecrementStep? || step.AdvanceStep?
             || step.FinishComplete? || (step.ResetStep? && Orderly(s, step))
    ensures WellFormed(Apply(s, step)) && SeenInv(Apply(s, step))
  {
    ApplyWellFormed(s, step);
  }

  /** SubmitCmd and the controller leave CompleteCmd alone; the stream only grows. */
  lemma SeenQuiet<R>(s: State<R>, step: Step<R>)
    requires WellFormed(s) && RingInv(s) && SeenInv(s) && Enabled(s, step)
    requires BeforeDoorbell(step) || step.RingStep? || step.FetchStep? || step.PostStep?
    ensures WellFormed(Apply(s, step)) && SeenInv(Apply(s, step))
  {
    ApplyWellFormed(s, step);
    var s' := Apply(s, step);
    assert s'.cpc == s.cpc && s'.log.consumed == s.log.consumed && s'.log.seen == s.log.seen;
    assert s'.log.resets == s.log.resets && s.log.stream <= s'.log.stream;
  }

  lemma SeenStep<R>(s: State<R>, step: Step<R>)
    requires WellFormed(s) && RingInv(s) && CqInv(s) && SeenInv(s) && Enabled(s, step) && Orderly(s, step)
    ensures WellFormed(Apply(s, step)) && SeenInv(Apply(s, step))
  {
    if step.ObserveStep? {
      SeenObserve(s);
    } else if BeforeDoorbell(step) || step.RingStep? || step.FetchStep? || step.PostStep? {
      SeenQuiet(s, step);
    } else {
      SeenEntry(s, step);
    }
  }
}
