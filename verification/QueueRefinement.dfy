/**
  SubmitCmd, CompleteCmd and ResetAllCmd as wholes are runs of the protocol, so what holds after
  every run holds after every sequence of calls, whatever the controller does in between.
 */
module QueueRefinement {
  import opened NvmeTypes
  import opened QueueModel
  import opened QueueProtocol

  lemma {:induction false} RunConcat<R>(s: State<R>, first: seq<Step<R>>, second: seq<Step<R>>)
    requires WellFormed(s) && ValidRun(s, first) && ValidRun(After(s, first), second)
    ensures ValidRun(s, first + second)
    ensures After(s, first + second) == After(After(s, first), second)
    decreases |first|
  {
    if first == [] {
      assert first + second == second;
    } else {
      ApplyWellFormed(s, first[0]);
      var all := first + second;
      assert all[0] == first[0] && all[1..] == first[1..] + second;
      RunConcat(Apply(s, first[0]), first[1..], second);
    }
  }

  lemma RunOne<R>(s: State<R>, step: Step<R>)
    requires WellFormed(s) && Enabled(s, step)
    ensures WellFormed(Apply(s, step)) && ValidRun(s, [step]) && After(s, [step]) == Apply(s, step)
  {
    ApplyWellFormed(s, step);
    assert [step][1..] == [];
    assert ValidRun(Apply(s, step), []);
  }

  /** A run with one more step at its end. */
  lemma RunMore<R>(s: State<R>, steps: seq<Step<R>>, step: Step<R>)
    requires WellFormed(s) && ValidRun(s, steps) && Enabled(After(s, steps), step)
    ensures WellFormed(Apply(After(s, steps), step))
    ensures ValidRun(s, steps + [step]) && After(s, steps + [step]) == Apply(After(s, steps), step)
  {
    RunOne(After(s, steps), step);
    RunConcat(s, steps, [step]);
  }

  /** A rejected SubmitCmd leaves the queue as it was and completes nothing. */
  lemma RejectedSubmit<R>(d: Driver<R>, req: R, cmd: Command)
    requires d.Valid()
    ensures var r := Submit(d, req, cmd); r.status != StatusSuccess ==> r.driver == d && r.notes == []
    ensures Submit(d, req, cmd).status == StatusSuccess <==>
            d.ready && IsSafeForSubmit(d.depth, d.inflight) && cmd.cid < |d.history|
    ensures Submit(d, req, cmd).status == if !d.ready then StatusDeviceNotReady
                                          else if !IsSafeForSubmit(d.depth, d.inflight) then StatusDeviceBusy
                                          else if cmd.cid >= |d.history| then StatusUnsuccessful
                                          else StatusSuccess
  {
  }

  /** The accesses of SubmitCmd when nothing comes between them. */
  ghost function SubmitSteps<R>(d: Driver<R>, req: R, cmd: Command): seq<Step<R>> {
    PutSteps(d, req, cmd) + TailSteps()
  }

  ghost function EvictionSteps<R>(): seq<Step<R>> {
    [EvictStep, NotifyEvictedStep, RepushStep]
  }

  ghost function TailSteps<R>(): seq<Step<R>> {
    [CopyStep, CountStep, RingStep]
  }

  /** From the request put in the table to the doorbell. */
  lemma TailOfSubmit<R>(s: State<R>)
    requires WellFormed(s) && s.spc.SPushed?
    ensures ValidRun(s, TailSteps())
    ensures var s' := After(s, TailSteps());
            && s'.drv == RingTail(Count(CopyToRing(s.drv, s.spc.cmd)))
            && s'.log == s.log.(submitted := s.log.submitted + 1,
                                overrun := s.log.overrun || s.log.submitted - |s.log.fetched| >= s.drv.depth)
            && s'.spc == SIdle && s'.cpc == s.cpc && s'.dev == s.dev && s'.cq == s.cq
  {
    RunOne<R>(s, CopyStep);
    RunMore(s, [CopyStep], CountStep);
    RunMore(s, [CopyStep] + [CountStep], RingStep);
    assert TailSteps<R>() == [CopyStep] + [CountStep] + [RingStep];
  }

  /** From the push that finds the slot taken to the one that does not. */
  lemma EvictionIsARun<R>(s: State<R>)
    requires WellFormed(s) && s.spc.SRefused? && s.spc.cmd.cid < |s.drv.history|
    requires s.drv.history[s.spc.cmd.cid].Some?
    ensures ValidRun(s, EvictionSteps())
    ensures var s' := After(s, EvictionSteps());
            Put(s, s', s.spc.req, s.spc.cmd)
  {
    RunOne<R>(s, EvictStep);
    RunMore(s, [EvictStep], NotifyEvictedStep);
    RunMore(s, [EvictStep] + [NotifyEvictedStep], RepushStep);
    assert EvictionSteps<R>() == [EvictStep] + [NotifyEvictedStep] + [RepushStep];
  }

  /** The request is in the table, with its completions, and nothing else has changed. */
  ghost predicate Put<R>(s: State<R>, s': State<R>, req: R, cmd: Command) {
    var put := PutInTable(s.drv.history, req, cmd.cid);
    && s'.drv == s.drv.(history := put.history)
    && s'.log == s.log.(notes := s.log.notes + put.notes, accepted := s.log.accepted + [Accepted(req, cmd)],
                        owner := s'.log.owner, evictions := s'.log.evictions, evicted := s'.log.evicted)
    && s'.spc == SPushed(cmd) && s'.cpc == s.cpc && s'.dev == s.dev && s'.cq == s.cq
  }

  ghost function PutSteps<R>(d: Driver<R>, req: R, cmd: Command): seq<Step<R>> {
    [StartSubmit(req, cmd), PushStep] +
    (if Push(d.history, cmd.cid, req).status == StatusAlreadyCommitted then EvictionSteps() else [])
  }

  lemma PutIsARun<R>(s: State<R>, req: R, cmd: Command)
    requires WellFormed(s) && s.spc.SIdle? && Submit(s.drv, req, cmd).status == StatusSuccess
    ensures ValidRun(s, PutSteps(s.drv, req, cmd)) && Put(s, After(s, PutSteps(s.drv, req, cmd)), req, cmd)
  {
    var steps: seq<Step<R>> := [StartSubmit(req, cmd), PushStep];
    RunOne(s, StartSubmit(req, cmd));
    RunMore(s, [StartSubmit(req, cmd)], PushStep);
    assert steps == [StartSubmit(req, cmd)] + [PushStep];
    if After(s, steps).spc.SRefused? {
      EvictionIsARun(After(s, steps));
      RunConcat(s, steps, EvictionSteps());
      assert PutSteps(s.drv, req, cmd) == steps + EvictionSteps();
    } else {
      assert PutSteps(s.drv, req, cmd) == steps;
    }
  }

  lemma SubmitIsARun<R>(s: State<R>, req: R, cmd: Command)
    requires WellFormed(s) && s.spc.SIdle? && Submit(s.drv, req, cmd).status == StatusSuccess
    ensures ValidRun(s, SubmitSteps(s.drv, req, cmd))
    ensures var r, s' := Submit(s.drv, req, cmd), After(s, SubmitSteps(s.drv, req, cmd));
            && s'.drv == r.driver
            && s'.log == s.log.(notes := s.log.notes + r.notes, accepted := s.log.accepted + [Accepted(req, cmd)],
                                submitted := s.log.submitted + 1,
                                overrun := s.log.overrun || s.log.submitted - |s.log.fetched| >= s.drv.depth,
                                owner := s'.log.owner, evictions := s'.log.evictions, evicted := s'.log.evicted)
            && s'.spc == SIdle && s'.cpc == s.cpc && s'.dev == s.dev && s'.cq == s.cq
  {
    PutIsARun(s, req, cmd);
    TailOfSubmit(After(s, PutSteps(s.drv, req, cmd)));
    RunConcat(s, PutSteps(s.drv, req, cmd), TailSteps());
  }

  /** One pass of the loop in CompleteCmd, when the slot of the entry holds a request. */
  lemma HitIsARun<R>(s: State<R>) returns (steps: seq<Step<R>>)
    requires WellFormed(s) && s.cpc.CSeen? && Pop(s.drv.history, s.cpc.cpl.cid, s.cpc.held).req.Some?
    ensures ValidRun(s, steps) && AllOfComplete(steps) && Passed(s, After(s, steps))
  {
    RunOne<R>(s, PopStep);
    RunMore(s, [PopStep], NotifyStep);
    RunMore(s, [PopStep] + [NotifyStep], DecrementStep);
    steps := [PopStep] + [NotifyStep] + [DecrementStep] + [AdvanceStep];
    RunMore(s, [PopStep] + [NotifyStep] + [DecrementStep], AdvanceStep);
  }

  lemma MissIsARun<R>(s: State<R>) returns (steps: seq<Step<R>>)
    requires WellFormed(s) && s.cpc.CSeen? && Pop(s.drv.history, s.cpc.cpl.cid, s.cpc.held).req.None?
    ensures ValidRun(s, steps) && AllOfComplete(steps) && Passed(s, After(s, steps))
  {
    RunOne<R>(s, PopStep);
    steps := [PopStep] + [AdvanceStep];
    RunMore(s, [PopStep], AdvanceStep);
  }

  ghost predicate AllOfComplete<R>(steps: seq<Step<R>>) {
    forall i :: 0 <= i < |steps| ==> OfComplete(steps[i])
  }

  /** What CompleteCmd leaves alone. */
  ghost predicate OnlyCompletes<R>(s: State<R>, s': State<R>) {
    && s'.spc == s.spc && s'.dev == s.dev && s'.cq == s.cq
    && s'.log.accepted == s.log.accepted && s'.log.submitted == s.log.submitted
    && s'.log.fetched == s.log.fetched && s'.log.posts == s.log.posts && s'.log.stream == s.log.stream
    && s'.log.caught == s.log.caught && s'.log.cleared == s.log.cleared && s'.log.base == s.log.base
    && s'.log.evicted == s.log.evicted && s'.log.overrun == s.log.overrun && s'.log.resets == s.log.resets
    && (s.spc.RClear? || s'.log.twice == s.log.twice)
  }

  /** `s'` is `s` after the rest of the pass that accepted the entry in `s`. */
  ghost predicate Passed<R>(s: State<R>, s': State<R>)
    requires WellFormed(s) && s.cpc.CSeen?
  {
    var r := Consume(s.drv, s.cpc.cpl, s.cpc.held);
    && s'.drv == r.driver
    && s'.log.notes == s.log.notes + r.notes
    && s'.cpc == CLoop(s.cpc.n + 1, s.cpc.max, r.held)
    && s'.log.consumed == s.log.consumed + 1
    && OnlyCompletes(s, s')
  }

  /** `s'` is `s` after the loop has run to its end. */
  ghost predicate Looped<R>(s: State<R>, s': State<R>)
    requires WellFormed(s) && s.cpc.CLoop?
  {
    var r := CompleteLoop(s.drv, s.cq, s.cpc.held, s.cpc.n, s.cpc.max);
    && s'.drv == r.driver
    && s'.log.notes == s.log.notes + r.notes
    && s'.cpc.CLoop? && s'.cpc.n == r.count && s'.cpc.max == s.cpc.max
    && s'.log.consumed == s.log.consumed + r.count - s.cpc.n
    && OnlyCompletes(s, s')
    && WellFormed(s')
    && (s'.cpc.max <= s'.cpc.n || !Arrived(s'))
  }

  lemma LoopUnfolds<R>(s: State<R>, seen: State<R>, s1: State<R>, s': State<R>)
    requires WellFormed(s) && s.cpc.CLoop? && s.cpc.n < s.cpc.max && Arrived(s)
    requires WellFormed(seen) && seen.cpc == CSeen(s.cpc.n, s.cpc.max, s.cpc.held, s.cq[s.drv.cplHead])
    requires seen.drv == s.drv && seen.log.notes == s.log.notes && seen.log.consumed == s.log.consumed
    requires OnlyCompletes(s, seen)
    requires WellFormed(s1) && s1.cpc.CLoop? && Passed(seen, s1) && Looped(s1, s')
    ensures Looped(s, s')
  {
    var one := Consume(s.drv, s.cq[s.drv.cplHead], s.cpc.held);
    var rest := CompleteLoop(one.driver, s.cq, one.held, s.cpc.n + 1, s.cpc.max);
    assert s.log.notes + one.notes + rest.notes == s.log.notes + (one.notes + rest.notes);
  }

  lemma {:induction false} LoopIsARun<R>(s: State<R>) returns (steps: seq<Step<R>>)
    requires WellFormed(s) && s.cpc.CLoop?
    ensures ValidRun(s, steps) && AllOfComplete(steps) && Looped(s, After(s, steps))
    decreases s.cpc.max - s.cpc.n
  {
    steps := [];
    if s.cpc.n < s.cpc.max && Arrived(s) {
      RunOne<R>(s, ObserveStep);
      var seen := Apply(s, ObserveStep);
      var pass: seq<Step<R>>;
      if Pop(seen.drv.history, seen.cpc.cpl.cid, seen.cpc.held).req.Some? {
        pass := HitIsARun(seen);
      } else {
        pass := MissIsARun(seen);
      }
      var s1 := After(seen, pass);
      var rest := LoopIsARun(s1);
      RunConcat(seen, pass, rest);
      RunConcat(s, [ObserveStep], pass + rest);
      steps := [ObserveStep] + (pass + rest);
      LoopUnfolds(s, seen, s1, After(s1, rest));
    }
  }

  lemma CompleteIsARun<R>(s: State<R>, maxCount: nat) returns (steps: seq<Step<R>>)
    requires WellFormed(s) && s.cpc.CIdle?
    ensures ValidRun(s, steps) && AllOfComplete(steps)
    ensures var r, s' := Complete(s.drv, s.cq, maxCount), After(s, steps);
            && s'.drv == r.driver
            && s'.log.notes == s.log.notes + r.notes
            && s'.log.consumed == s.log.consumed + r.count
            && s'.cpc == CIdle && OnlyCompletes(s, s')
  {
    RunOne<R>(s, StartComplete(maxCount));
    var s1 := Apply(s, StartComplete(maxCount));
    var loop := LoopIsARun(s1);
    RunMore(s1, loop, FinishComplete);
    RunConcat(s, [StartComplete(maxCount)], loop + [FinishComplete]);
    steps := [StartComplete(maxCount)] + (loop + [FinishComplete]);
  }
}
