/**
  Runs from a queue pair that was just set up, for every depth and table that allows them: what QueueTheorems and
  QueueRace exclude or give a condition for does happen.
*/
module QueueRuns {
  import opened NvmeTypes
  import opened Ring
  import opened QueueModel
  import opened QueueProtocol
  import opened QueueRequests
  import opened QueueTable
  import opened QueueTheorems
  import opened QueueRefinement
  import opened QueueRace

  // ---- What several runs have in common ----

  /** SubmitCmd on a free slot, without interruption. */
  lemma Submits<R>(s: State<R>, req: R, cmd: Command)
    requires WellFormed(s) && s.spc.SIdle? && s.drv.ready && IsSafeForSubmit(s.drv.depth, s.drv.inflight)
    requires cmd.cid < |s.drv.history| && s.drv.history[cmd.cid].None?
    ensures var steps := [StartSubmit(req, cmd), PushStep] + TailSteps();
            ValidRun(s, steps) && Submitted(s, After(s, steps), req, cmd)
  {
    var begin := [StartSubmit(req, cmd), PushStep];
    RunOne(s, StartSubmit(req, cmd));
    RunMore(s, [StartSubmit(req, cmd)], PushStep);
    assert begin == [StartSubmit(req, cmd)] + [PushStep];
    TailOfSubmit(After(s, begin));
    RunConcat(s, begin, TailSteps());
  }

  ghost predicate Submitted<R>(s: State<R>, s': State<R>, req: R, cmd: Command)
    requires WellFormed(s) && cmd.cid < |s.drv.history|
  {
    && s'.drv == RingTail(Count(CopyToRing(s.drv.(history := s.drv.history[cmd.cid := Some(req)]), cmd)))
    && s'.spc == SIdle && s'.cpc == s.cpc && s'.dev == s.dev && s'.cq == s.cq
    && s'.log == s.log.(accepted := s.log.accepted + [Accepted(req, cmd)], submitted := s.log.submitted + 1,
                        owner := s'.log.owner, overrun := s'.log.overrun)
  }

  /** The controller fetches the next command and answers it. */
  lemma Answers<R>(s: State<R>, status: NvmeStatus)
    requires WellFormed(s) && s.dev.sqHead != s.drv.sqDbl
    ensures var steps := [FetchStep] + [PostStep(|s.log.fetched|, status)];
            ValidRun(s, steps) && Answered(s, After(s, steps), status)
  {
    RunOne<R>(s, FetchStep);
    RunMore(s, [FetchStep], PostStep(|s.log.fetched|, status));
  }

  ghost predicate Answered<R>(s: State<R>, s': State<R>, status: NvmeStatus)
    requires WellFormed(s)
  {
    var cmd, i := s.drv.sq[s.dev.sqHead], |s.log.fetched|;
    var head, tail := (s.dev.sqHead + 1) % s.drv.depth, (s.dev.cqTail + 1) % s.drv.depth;
    var cpl := Completion(cmd.cid, head, s.dev.phase, status);
    && s'.drv == s.drv && s'.spc == s.spc && s'.cpc == s.cpc
    && s'.cq == s.cq[s.dev.cqTail := cpl]
    && s'.dev.sqHead == head && s'.dev.cqTail == tail && s'.dev.pending == s.dev.pending[i := cmd] - {i}
    && s'.dev.phase == (if tail != 0 then s.dev.phase else if s.dev.phase == 0 then 1 else 0)
    && s'.log == s.log.(fetched := s.log.fetched + [cmd], posts := s.log.posts + [i], stream := s.log.stream + [cpl])
  }

  /** CompleteCmd sees the next entry. */
  lemma Sees<R>(s: State<R>)
    requires WellFormed(s) && s.cpc.CIdle? && Arrived(s)
    ensures var steps := [StartComplete(0)] + [ObserveStep];
            && ValidRun(s, steps)
            && After(s, steps) == s.(cpc := CSeen(0, s.drv.depth, None, s.cq[s.drv.cplHead]),
               log := s.log.(seen := s.log.seen + [s.cq[s.drv.cplHead]]))
  {
    RunOne<R>(s, StartComplete(0));
    RunMore(s, [StartComplete(0)], ObserveStep);
  }

  /** CompleteCmd takes the request out and completes it. */
  lemma TakesAndTells<R>(s: State<R>)
    requires WellFormed(s) && s.cpc.CSeen? && s.cpc.cpl.cid < |s.drv.history|
    requires s.drv.history[s.cpc.cpl.cid].Some?
    ensures var steps: seq<Step<R>> := [PopStep] + [NotifyStep];
            && ValidRun(s, steps)
            && var s', cpl, req := After(s, steps), s.cpc.cpl, s.drv.history[s.cpc.cpl.cid].value;
               && s'.drv == s.drv.(history := s.drv.history[cpl.cid := None], subHead := cpl.sqhd)
               && s'.spc == s.spc && s'.cpc == CNotified(s.cpc.n, s.cpc.max, req)
               && s'.dev == s.dev && s'.cq == s.cq
               && s'.log == s.log.(owner := s'.log.owner, twice := s'.log.twice,
                                   notes := s.log.notes + [Note(req, SrbFromNvme(cpl.status))],
                                   deliveries := s.log.deliveries + [Delivery(req, cpl, s.log.consumed)])
  {
    RunOne<R>(s, PopStep);
    RunMore(s, [PopStep], NotifyStep);
  }

  /** One request was submitted, and its completion is waiting in the ring. */
  ghost predicate OneAnswered<R>(s: State<R>, req: R, cmd: Command, status: NvmeStatus) {
    && WellFormed(s) && s.spc.SIdle? && s.cpc.CIdle?
    && s.drv.ready && s.drv.inflight == 1 && s.drv.depth > SAFE_SUBMIT_THRESHOLD
    && s.drv.subTail == s.drv.sqDbl == 1 && s.drv.cplHead == 0 && s.drv.phaseTag == 1
    && cmd.cid < |s.drv.history| && s.drv.history == Emptied(s.drv.history)[cmd.cid := Some(req)]
    && s.dev == Device(1, 1, 1, map[])
    && s.cq[0] == Completion(cmd.cid, 1, 1, status) && (forall k :: 0 < k < |s.cq| ==> s.cq[k] == ZERO_COMPLETION)
    && s.log.accepted == [Accepted(req, cmd)] && s.log.notes == [] && s.log.deliveries == []
    && s.log.fetched == [cmd] && s.log.posts == [0] && s.log.stream == [s.cq[0]]
    && s.log.submitted == 1 && s.log.consumed == 0 && s.log.cleared == 0
  }

  lemma First<R>(s0: State<R>, req: R, cmd: Command)
    requires Init(s0) && s0.drv.ready && s0.drv.depth > SAFE_SUBMIT_THRESHOLD && cmd.cid < |s0.drv.history|
    ensures var steps := [StartSubmit(req, cmd), PushStep] + TailSteps();
            && ValidRun(s0, steps)
            && var s := After(s0, steps);
               && Submitted(s0, s, req, cmd) && s.dev.sqHead != s.drv.sqDbl
               && s.drv.subTail == 1
  {
    Submits(s0, req, cmd);
    DivModUnique(1, s0.drv.depth, 0, 1);
  }

  lemma OneAnsweredRun<R>(s0: State<R>, req: R, cmd: Command, status: NvmeStatus) returns (steps: seq<Step<R>>)
    requires Init(s0) && s0.drv.ready && s0.drv.depth > SAFE_SUBMIT_THRESHOLD && cmd.cid < |s0.drv.history|
    ensures ValidRun(s0, steps) && OneAnswered(After(s0, steps), req, cmd, status)
    ensures After(s0, steps).drv.depth == s0.drv.depth && |After(s0, steps).drv.history| == |s0.drv.history|
  {
    steps := [StartSubmit(req, cmd), PushStep] + TailSteps();
    First(s0, req, cmd);
    var s1 := After(s0, steps);
    assert s1.drv.sq[0] == cmd;
    DivModUnique(1, s0.drv.depth, 0, 1);
    Answers(s1, status);
    var answer: seq<Step<R>> := [FetchStep] + [PostStep(|s1.log.fetched|, status)];
    RunConcat(s0, steps, answer);
    steps := steps + answer;
    assert map[0 := cmd] - {0} == map[];
  }

  // ---- Reused tags ----

  /** The second submission of a tag finds the slot taken. */
  lemma Refused<R>(s: State<R>, req: R, cmd: Command)
    requires WellFormed(s) && s.spc.SIdle? && s.drv.ready && IsSafeForSubmit(s.drv.depth, s.drv.inflight)
    requires cmd.cid < |s.drv.history| && s.drv.history[cmd.cid].Some?
    ensures var steps := [StartSubmit(req, cmd)] + [PushStep];
            ValidRun(s, steps) && After(s, steps) == s.(spc := SRefused(req, cmd))
  {
    RunOne(s, StartSubmit(req, cmd));
    RunMore(s, [StartSubmit(req, cmd)], PushStep);
  }

  /** CompleteCmd takes the request out, and SubmitCmd goes to evict it. */
  lemma EvictsNothing<R>(s: State<R>)
    requires WellFormed(s) && s.spc.SRefused? && s.cpc.CSeen?
    requires s.cpc.cpl.cid == s.spc.cmd.cid < |s.drv.history|
    ensures var steps: seq<Step<R>> := [PopStep] + [EvictStep];
            ValidRun(s, steps) && After(s, steps).spc.SCrashed?
  {
    RunOne<R>(s, PopStep);
    RunMore(s, [PopStep], EvictStep);
  }

  /** Whenever SubmitCmd is about to evict the request whose completion is next in the ring, it can lose the race. */
  lemma RaceLost<R>(s: State<R>) returns (steps: seq<Step<R>>)
    requires WellFormed(s) && s.spc.SRefused? && s.spc.cmd.cid < |s.drv.history|
    requires s.cpc.CIdle? && Arrived(s) && s.cq[s.drv.cplHead].cid == s.spc.cmd.cid
    ensures ValidRun(s, steps) && After(s, steps).spc.SCrashed?
  {
    steps := [StartComplete(0)] + [ObserveStep];
    Sees(s);
    EvictsNothing(After(s, steps));
    RunConcat(s, steps, [PopStep] + [EvictStep]);
    steps := steps + ([PopStep] + [EvictStep]);
  }

  /**
    In every ready queue pair of ten or more entries, two requests with the same tag, the second submitted while the
    completion of the first is waiting in the ring, can make SubmitCmd use a null pointer.
   */
  lemma NullPointerRace<R>(s0: State<R>, a: R, b: R, cmd: Command, status: NvmeStatus) returns (steps: seq<Step<R>>)
    requires Init(s0) && s0.drv.ready && s0.drv.depth > SAFE_SUBMIT_THRESHOLD + 1 && cmd.cid < |s0.drv.history|
    ensures ValidRun(s0, steps) && After(s0, steps).spc.SCrashed?
  {
    steps := OneAnsweredRun(s0, a, cmd, status);
    var s1 := After(s0, steps);
    Refused(s1, b, cmd);
    var reuse := [StartSubmit(b, cmd)] + [PushStep];
    var race := RaceLost(After(s1, reuse));
    RunConcat(s1, reuse, race);
    RunConcat(s0, steps, reuse + race);
    steps := steps + (reuse + race);
  }

  /** Entry `k` of the stream answers a command of `a`, and was handed to `b`. */
  ghost predicate Misattributed<R>(l: Log<R>, k: nat, a: R, b: R) {
    && k < |l.stream| && k < |l.posts| && l.posts[k] < |l.accepted|
    && l.accepted[l.posts[k]].req == a
    && Delivery(b, l.stream[k], k) in l.deliveries
  }

  lemma SecondAccepted<R>(s: State<R>, a: R, b: R, cmd: Command, status: NvmeStatus)
    requires OneAnswered(s, a, cmd, status) && s.drv.depth > SAFE_SUBMIT_THRESHOLD + 1
    ensures Submit(s.drv, b, cmd).status == StatusSuccess
    ensures var d := Submit(s.drv, b, cmd).driver;
            && d.history == s.drv.history[cmd.cid := Some(b)]
            && d.depth == s.drv.depth && d.cplHead == s.drv.cplHead && d.phaseTag == s.drv.phaseTag
    ensures Submit(s.drv, b, cmd).notes == [Note(a, SrbBusy)]
  {
    ThrottleMeans(s.drv.depth, s.drv.inflight);
    PutMeans(s.drv.history, b, cmd.cid);
  }

  /**
    After an eviction the completion of the old command is handed to the new request: `a` ends as busy although
    its command was carried out, and `b` ends with the status of that command, its own not even fetched.
   */
  lemma MisattributionRun<R>(s0: State<R>, a: R, b: R, cmd: Command, status: NvmeStatus) returns (steps: seq<Step<R>>)
    requires Init(s0) && s0.drv.ready && s0.drv.depth > SAFE_SUBMIT_THRESHOLD + 1 && cmd.cid < |s0.drv.history|
    ensures ValidRun(s0, steps)
    ensures var s := After(s0, steps);
            && Misattributed(s.log, 0, a, b)
            && s.log.notes == [Note(a, SrbBusy), Note(b, SrbFromNvme(status))]
            && |s.log.fetched| == 1 && s.log.submitted == 2
  {
    steps := OneAnsweredRun(s0, a, cmd, status);
    var s1 := After(s0, steps);
    SecondAccepted(s1, a, b, cmd, status);
    var submit := SubmitSteps(s1.drv, b, cmd);
    SubmitIsARun(s1, b, cmd);
    var s2 := After(s1, submit);
    var see, take: seq<Step<R>> := [StartComplete(0)] + [ObserveStep], [PopStep] + [NotifyStep];
    Sees(s2);
    TakesAndTells(After(s2, see));
    RunConcat(s2, see, take);
    RunConcat(s1, submit, see + take);
    RunConcat(s0, steps, submit + (see + take));
    steps := steps + (submit + (see + take));
    var s := After(s0, steps);
    assert s.log.deliveries == [Delivery(b, s.log.stream[0], 0)];
  }

  // ---- Resets in the middle of a completion ----

  /** The completion of the request by CompleteCmd, up to the decrement. */
  lemma HalfCompleted<R>(s: State<R>, req: R, cmd: Command, status: NvmeStatus)
    requires OneAnswered(s, req, cmd, status)
    ensures var steps := [StartComplete(0)] + [ObserveStep] + ([PopStep] + [NotifyStep]);
            && ValidRun(s, steps)
            && var s' := After(s, steps);
               && s'.drv == s.drv.(history := Emptied(s.drv.history), subHead := 1)
               && s'.spc.SIdle? && s'.cpc == CNotified(0, s.drv.depth, req) && s'.dev == s.dev && s'.cq == s.cq
               && s'.log.submitted == 1 && s'.log.fetched == s.log.fetched && s'.log.stream == s.log.stream
  {
    var see, take: seq<Step<R>> := [StartComplete(0)] + [ObserveStep], [PopStep] + [NotifyStep];
    Sees(s);
    TakesAndTells(After(s, see));
    RunConcat(s, see, take);
    assert s.drv.history[cmd.cid := None] == Emptied(s.drv.history);
  }

  /**
    In every ready queue pair of nine or more entries one request and one reset can be enough to close the throttle:
    the run ends with the counter at -1, and `StuckForever` says what follows.
   */
  lemma ResetRace<R>(s0: State<R>, req: R, cmd: Command, status: NvmeStatus) returns (steps: seq<Step<R>>)
    requires Init(s0) && s0.drv.ready && s0.drv.depth > SAFE_SUBMIT_THRESHOLD && cmd.cid < |s0.drv.history|
    ensures ValidRun(s0, steps) && Stuck(After(s0, steps))
  {
    steps := OneAnsweredRun(s0, req, cmd, status);
    var s1 := After(s0, steps);
    var half := [StartComplete(0)] + [ObserveStep] + ([PopStep] + [NotifyStep]);
    HalfCompleted(s1, req, cmd, status);
    ResetInCompletion(After(s1, half));
    RunConcat(s1, half, ResetAndCount());
    RunConcat(s0, steps, half + ResetAndCount());
    steps := steps + (half + ResetAndCount());
    InitCore(s0);
    RunKeepsCore(s0, steps);
  }

  // ---- Resets in the middle of a slot ----

  /** A reset looks at empty slots until it comes to slot `n`. */
  lemma {:induction false} LooksUpTo<R>(s: State<R>, n: nat) returns (steps: seq<Step<R>>)
    requires WellFormed(s) && s.spc.RLook? && s.spc.i <= n < |s.drv.history| && s.drv.history[n].Some?
    requires forall j :: s.spc.i <= j < n ==> s.drv.history[j].None?
    ensures ValidRun(s, steps) && After(s, steps) == s.(spc := RTell(n))
    decreases n - s.spc.i
  {
    RunOne<R>(s, LookStep);
    steps := [LookStep];
    if s.spc.i < n {
      var rest := LooksUpTo(Apply<R>(s, LookStep), n);
      RunConcat(s, steps, rest);
      steps := steps + rest;
    }
  }

  lemma FindsIt<R>(s: State<R>, req: R, cmd: Command, status: NvmeStatus) returns (steps: seq<Step<R>>)
    requires OneAnswered(s, req, cmd, status)
    ensures ValidRun(s, steps) && After(s, steps) == s.(spc := RTell(cmd.cid))
  {
    RunOne<R>(s, StartReset);
    var looks := LooksUpTo(Apply<R>(s, StartReset), cmd.cid);
    RunConcat(s, [StartReset], looks);
    steps := [StartReset] + looks;
  }

  /** From the look at the occupied slot to the second completion. */
  lemma CompletesTwice<R>(s: State<R>, req: R, cpl: Completion)
    requires WellFormed(s) && s.spc.RTell? && s.cpc.CIdle? && Arrived(s) && s.cq[s.drv.cplHead] == cpl
    requires cpl.cid == s.spc.i < |s.drv.history| && s.drv.history[s.spc.i] == Some(req)
    ensures var steps: seq<Step<R>> := [TellStep] + ([StartComplete(0)] + [ObserveStep] + ([PopStep] + [NotifyStep]));
            && ValidRun(s, steps)
            && After(s, steps).log.accepted == s.log.accepted
            && After(s, steps).log.notes
               == s.log.notes + [Note(req, SrbBusReset)] + [Note(req, SrbFromNvme(cpl.status))]
  {
    RunOne<R>(s, TellStep);
    var s1 := After(s, [TellStep]);
    var see, take: seq<Step<R>> := [StartComplete(0)] + [ObserveStep], [PopStep] + [NotifyStep];
    Sees(s1);
    TakesAndTells(After(s1, see));
    RunConcat(s1, see, take);
    RunConcat(s, [TellStep], see + take);
  }

  lemma TwoNotes<R>(accepted: seq<Accepted<R>>, req: R, cmd: Command, first: SrbStatus, second: SrbStatus)
    requires accepted == [Accepted(req, cmd)]
    ensures TimesAccepted(accepted, req) == 1
    ensures Completed([Note(req, first)] + [Note(req, second)], req) == 2
  {
    CompletedMore([], Note(req, first), req);
    CompletedMore([Note(req, first)], Note(req, second), req);
    AcceptedMore([], Accepted(req, cmd), req);
  }

  /**
    In every ready queue pair of nine or more entries a reset can complete a request that CompleteCmd then completes
    again: one request, accepted once, ends twice.
   */
  lemma DoubleCompletionRun<R>(s0: State<R>, req: R, cmd: Command, status: NvmeStatus) returns (steps: seq<Step<R>>)
    requires Init(s0) && s0.drv.ready && s0.drv.depth > SAFE_SUBMIT_THRESHOLD && cmd.cid < |s0.drv.history|
    ensures ValidRun(s0, steps)
    ensures var s := After(s0, steps);
            && s.log.notes == [Note(req, SrbBusReset), Note(req, SrbFromNvme(status))]
            && TimesAccepted(s.log.accepted, req) == 1 && Completed(s.log.notes, req) == 2
  {
    steps := OneAnsweredRun(s0, req, cmd, status);
    var s1 := After(s0, steps);
    var find := FindsIt(s1, req, cmd, status);
    var twice := [TellStep] + ([StartComplete(0)] + [ObserveStep] + ([PopStep] + [NotifyStep]));
    CompletesTwice(After(s1, find), req, s1.cq[0]);
    RunConcat(s1, find, twice);
    RunConcat(s0, steps, find + twice);
    steps := steps + (find + twice);
    var s := After(s0, steps);
    TwoNotes(s.log.accepted, req, cmd, SrbBusReset, SrbFromNvme(status));
    assert s.log.notes == [Note(req, SrbBusReset)] + [Note(req, SrbFromNvme(status))];
  }

  lemma TellsNothing<R>(s: State<R>)
    requires WellFormed(s) && s.spc.RTell? && s.cpc.CSeen? && s.cpc.cpl.cid == s.spc.i < |s.drv.history|
    ensures var steps: seq<Step<R>> := [PopStep] + [TellStep];
            ValidRun(s, steps) && After(s, steps).spc.RCrashed?
  {
    RunOne<R>(s, PopStep);
    RunMore(s, [PopStep], TellStep);
  }

  /** And when CompleteCmd comes between the look and the completion, the reset uses a null pointer. */
  lemma ResetNullPointerRun<R>(s0: State<R>, req: R, cmd: Command, status: NvmeStatus) returns (steps: seq<Step<R>>)
    requires Init(s0) && s0.drv.ready && s0.drv.depth > SAFE_SUBMIT_THRESHOLD && cmd.cid < |s0.drv.history|
    ensures ValidRun(s0, steps) && After(s0, steps).spc.RCrashed?
  {
    steps := OneAnsweredRun(s0, req, cmd, status);
    var s1 := After(s0, steps);
    var find := FindsIt(s1, req, cmd, status);
    var s2 := After(s1, find);
    var see, take: seq<Step<R>> := [StartComplete(0)] + [ObserveStep], [PopStep] + [TellStep];
    Sees(s2);
    TellsNothing(After(s2, see));
    RunConcat(s2, see, take);
    RunConcat(s1, find, see + take);
    RunConcat(s0, steps, find + (see + take));
    steps := steps + (find + (see + take));
  }

  // ---- A head beyond the tail ----

  /** The head stands one entry beyond the next one the controller posts. */
  ghost predicate HeadBeyond<R>(s: State<R>) {
    && WellFormed(s) && s.spc.SIdle? && s.cpc.CIdle? && s.drv.ready && s.drv.depth > SAFE_SUBMIT_THRESHOLD
    && s.drv.inflight == 0 && s.drv.history == Emptied(s.drv.history)
    && s.dev == Device(1, 1, 1, map[]) && s.drv.subTail == s.drv.sqDbl == 1
    && s.drv.cplHead == 2 && s.drv.phaseTag == 1 && s.cq[2] == ZERO_COMPLETION
    && s.log.submitted == 1 && |s.log.fetched| == 1 && |s.log.stream| == 1
  }

  ghost function RestOfCompletion<R>(): seq<Step<R>> {
    ([DecrementStep] + [ResetStep]) + ([AdvanceStep] + [FinishComplete])
  }

  lemma ResetMovesTo<R>(d: Driver<R>)
    requires d.Valid() && d.cplHead == 0 && d.subTail == 1 && d.phaseTag == 1 && d.depth > 2
    requires d.history == Emptied(d.history)
    ensures ResetAll(d) == d.(inflight := 0, cplHead := 1)
  {
    var d1 := d.(history := Emptied(d.history), inflight := 0);
    DivModUnique(1, d.depth, 0, 1);
    assert FastForward(d1, 1) == FastForward(AdvanceHead(d1), 0);
  }

  lemma ResetFirst<R>(s: State<R>)
    requires WellFormed(s) && s.spc.SIdle? && s.cpc.CNotified? && s.drv.depth > 2
    requires s.drv.history == Emptied(s.drv.history)
    requires s.drv.subTail == 1 && s.drv.cplHead == 0 && s.drv.phaseTag == 1
    ensures ValidRun(s, [DecrementStep] + [ResetStep])
    ensures var s' := After(s, [DecrementStep] + [ResetStep]);
            && s'.drv == s.drv.(inflight := 0, cplHead := 1)
            && s'.spc.SIdle? && s'.cpc == CCounted(s.cpc.n, s.cpc.max, s.cpc.req) && s'.dev == s.dev && s'.cq == s.cq
            && s'.log.submitted == s.log.submitted && s'.log.fetched == s.log.fetched && s'.log.stream == s.log.stream
  {
    RunOne<R>(s, DecrementStep);
    ResetMovesTo(After(s, [DecrementStep]).drv);
    RunMore(s, [DecrementStep], ResetStep);
  }

  lemma ThenTheHead<R>(s: State<R>)
    requires WellFormed(s) && s.cpc.CCounted? && s.drv.depth > 2 && s.drv.cplHead == 1
    requires s.cpc.max == s.drv.depth && s.cpc.n == 0
    requires s.cq[2] == ZERO_COMPLETION && s.drv.phaseTag == 1
    ensures ValidRun(s, [AdvanceStep] + [FinishComplete])
    ensures var s' := After(s, [AdvanceStep] + [FinishComplete]);
            && s'.drv == s.drv.(cplHead := 2, cqDbl := 2)
            && s'.spc == s.spc && s'.cpc.CIdle? && s'.dev == s.dev && s'.cq == s.cq
            && s'.log.submitted == s.log.submitted && s'.log.fetched == s.log.fetched && s'.log.stream == s.log.stream
  {
    DivModUnique(2, s.drv.depth, 0, 2);
    RunOne<R>(s, AdvanceStep);
    RunMore(s, [AdvanceStep], FinishComplete);
  }

  lemma GoesBeyond<R>(s: State<R>, req: R)
    requires WellFormed(s) && s.drv.ready && s.drv.depth > SAFE_SUBMIT_THRESHOLD
    requires s.spc.SIdle? && s.cpc == CNotified(0, s.drv.depth, req)
    requires s.drv.history == Emptied(s.drv.history) && s.dev == Device(1, 1, 1, map[])
    requires s.drv.subTail == s.drv.sqDbl == 1 && s.drv.cplHead == 0 && s.drv.phaseTag == 1
    requires s.cq[2] == ZERO_COMPLETION
    requires s.log.submitted == 1 && |s.log.fetched| == 1 && |s.log.stream| == 1
    ensures ValidRun(s, RestOfCompletion()) && HeadBeyond(After(s, RestOfCompletion()))
    ensures |After(s, RestOfCompletion()).drv.history| == |s.drv.history|
  {
    ResetFirst(s);
    var s1 := After(s, [DecrementStep] + [ResetStep]);
    ThenTheHead(s1);
    RunConcat(s, [DecrementStep] + [ResetStep], [AdvanceStep] + [FinishComplete]);
  }

  /** Then the next command is fetched and answered, and CompleteCmd does not see the answer. */
  lemma AnswerMissed<R>(s: State<R>, req: R, cmd: Command, status: NvmeStatus) returns (steps: seq<Step<R>>)
    requires HeadBeyond(s) && cmd.cid < |s.drv.history|
    ensures ValidRun(s, steps)
    ensures var s' := After(s, steps);
            && s'.spc.SIdle? && s'.cpc.CIdle? && !Arrived(s')
            && cmd.cid < |s'.drv.history| && s'.drv.history[cmd.cid] == Some(req)
            && |s'.log.stream| == s'.log.submitted == 2
  {
    steps := [StartSubmit(req, cmd), PushStep] + TailSteps();
    Submits(s, req, cmd);
    DivModUnique(2, s.drv.depth, 0, 2);
    var s1 := After(s, steps);
    Answers(s1, status);
    var answer: seq<Step<R>> := [FetchStep] + [PostStep(|s1.log.fetched|, status)];
    RunConcat(s, steps, answer);
    steps := steps + answer;
  }

  /**
    In every ready queue pair of nine or more entries a reset between the decrement and the step of the head can
    leave the next completion unseen: the controller has answered both commands, the second request is
    still in the table, and the head stands at an entry that is not new.
   */
  lemma UnseenCompletionRun<R>(s0: State<R>, a: R, b: R, cmd: Command, status: NvmeStatus) returns (steps: seq<Step<R>>)
    requires Init(s0) && s0.drv.ready && s0.drv.depth > SAFE_SUBMIT_THRESHOLD && cmd.cid < |s0.drv.history|
    ensures ValidRun(s0, steps)
    ensures var s := After(s0, steps);
            && s.spc.SIdle? && s.cpc.CIdle? && !Arrived(s)
            && cmd.cid < |s.drv.history| && s.drv.history[cmd.cid] == Some(b)
            && |s.log.stream| == s.log.submitted == 2
  {
    steps := OneAnsweredRun(s0, a, cmd, status);
    var s1 := After(s0, steps);
    var half := [StartComplete(0)] + [ObserveStep] + ([PopStep] + [NotifyStep]);
    HalfCompleted(s1, a, cmd, status);
    var s2 := After(s1, half);
    GoesBeyond(s2, a);
    var s3 := After(s2, RestOfCompletion());
    var miss := AnswerMissed(s3, b, cmd, status);
    RunConcat(s2, RestOfCompletion(), miss);
    RunConcat(s1, half, RestOfCompletion() + miss);
    RunConcat(s0, steps, half + (RestOfCompletion() + miss));
    steps := steps + (half + (RestOfCompletion() + miss));
  }

  // ---- Evictions ----

  /** `n` calls of SubmitCmd with one tag: each evicts the request of the one before. */
  lemma {:induction false} SubmitSame<R>(s: State<R>, n: nat, req: R, cmd: Command) returns (steps: seq<Step<R>>)
    requires WellFormed(s) && s.spc.SIdle? && s.drv.ready && Throttled(s) && cmd.cid < |s.drv.history|
    requires 0 <= s.drv.inflight && s.drv.inflight + n <= s.drv.depth - SAFE_SUBMIT_THRESHOLD
    ensures ValidRun(s, steps)
    ensures var s' := After(s, steps);
            && s'.drv.depth == s.drv.depth && s'.drv.inflight == s.drv.inflight + n
            && s'.drv.history == if n == 0 then s.drv.history else s.drv.history[cmd.cid := Some(req)]
    decreases n
  {
    steps := [];
    if n > 0 {
      SameTaken(s.drv, req, cmd);
      SubmitIsARun(s, req, cmd);
      var first := SubmitSteps(s.drv, req, cmd);
      var rest := SubmitSame(After(s, first), n - 1, req, cmd);
      RunConcat(s, first, rest);
      steps := first + rest;
    }
  }

  lemma SameTaken<R>(d: Driver<R>, req: R, cmd: Command)
    requires d.Valid() && d.ready && cmd.cid < |d.history|
    requires 0 <= d.inflight < d.depth - SAFE_SUBMIT_THRESHOLD
    ensures var r := Submit(d, req, cmd);
            && r.status == StatusSuccess
            && r.driver.ready && r.driver.depth == d.depth && r.driver.inflight == d.inflight + 1
            && r.driver.history == d.history[cmd.cid := Some(req)]
  {
    ThrottleMeans(d.depth, d.inflight);
    PutMeans(d.history, req, cmd.cid);
  }

  /** One request in the table can be all it takes to close the throttle: the evictions before it take up the rest. */
  lemma EvictionsFillTheQueue<R>(s0: State<R>, req: R, cmd: Command) returns (steps: seq<Step<R>>)
    requires Init(s0) && s0.drv.ready && s0.drv.depth > SAFE_SUBMIT_THRESHOLD && cmd.cid < |s0.drv.history|
    ensures ValidRun(s0, steps)
    ensures var s := After(s0, steps);
            && Occupied(s.drv.history) == 1 && !IsSafeForSubmit(s.drv.depth, s.drv.inflight)
  {
    steps := SubmitSame(s0, s0.drv.depth - SAFE_SUBMIT_THRESHOLD, req, cmd);
    ThrottleMeans(s0.drv.depth, After(s0, steps).drv.inflight);
    EmptyTable(s0.drv.history);
    OccupiedUpdate(s0.drv.history, cmd.cid, Some(req));
  }

  // ---- Queues without a throttle ----

  /** Below eight entries a ready queue takes every command whose tag is in the table. */
  lemma AlwaysTaken<R>(d: Driver<R>, req: R, cmd: Command)
    requires d.Valid() && d.ready && d.depth < SAFE_SUBMIT_THRESHOLD && cmd.cid < |d.history|
    ensures var r := Submit(d, req, cmd);
            && r.status == StatusSuccess
            && r.driver.ready && r.driver.depth == d.depth && |r.driver.history| == |d.history|
  {
    ThrottleWraps(d.depth, d.inflight);
  }

  /** `n` calls of SubmitCmd with one and the same command, one after the other. */
  lemma {:induction false} SubmitMany<R>(s: State<R>, n: nat, req: R, cmd: Command) returns (steps: seq<Step<R>>)
    requires WellFormed(s) && s.spc.SIdle? && s.drv.ready && s.drv.depth < SAFE_SUBMIT_THRESHOLD
    requires cmd.cid < |s.drv.history|
    ensures ValidRun(s, steps)
    ensures var s' := After(s, steps);
            && s'.log.submitted == s.log.submitted + n && s'.log.fetched == s.log.fetched
            && (s.log.overrun ==> s'.log.overrun)
            && (n > 0 && s.log.submitted + n > |s.log.fetched| + s.drv.depth ==> s'.log.overrun)
    decreases n
  {
    steps := [];
    if n > 0 {
      AlwaysTaken(s.drv, req, cmd);
      SubmitIsARun(s, req, cmd);
      var first := SubmitSteps(s.drv, req, cmd);
      var s1 := After(s, first);
      var rest := SubmitMany(s1, n - 1, req, cmd);
      RunConcat(s, first, rest);
      steps := first + rest;
    }
  }

  /** With fewer than eight entries, one more command than there are entries overwrites one that was not fetched. */
  lemma OverrunBelowEight<R>(s0: State<R>, req: R, cmd: Command) returns (steps: seq<Step<R>>)
    requires Init(s0) && s0.drv.ready && s0.drv.depth < SAFE_SUBMIT_THRESHOLD && cmd.cid < |s0.drv.history|
    ensures ValidRun(s0, steps) && After(s0, steps).log.overrun
    ensures After(s0, steps).log.submitted == s0.drv.depth + 1
  {
    steps := SubmitMany(s0, s0.drv.depth + 1, req, cmd);
  }
}
