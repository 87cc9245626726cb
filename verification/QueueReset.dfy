/**
  A reset cut into its accesses, and what makes it one step: nothing of CompleteCmd between them.
*/
module QueueReset {
  import opened NvmeTypes
  import opened QueueModel
  import opened QueueProtocol
  import opened QueueRefinement

  // ---- Uninterrupted ----

  /** A step of a reset that has begun. */
  predicate GoesOn<R>(step: Step<R>) {
    IsCut(step) && !step.StartReset?
  }

  ghost predicate AllGoOn<R>(steps: seq<Step<R>>) {
    forall i :: 0 <= i < |steps| ==> GoesOn(steps[i])
  }

  /** The slots from `i` on are empty. */
  ghost function EmptiedFrom<R>(history: seq<Option<R>>, i: nat): (result: seq<Option<R>>)
    ensures |result| == |history|
    ensures forall j :: 0 <= j < |history| ==> result[j] == if j < i then history[j] else None
  {
    seq(|history|, j requires 0 <= j < |history| => if j < i then history[j] else None)
  }

  /** The loop over the slots, from slot `spc.i` on. */
  ghost predicate SlotsDone<R>(s: State<R>, s': State<R>)
    requires s.spc.RLook? && s.spc.i <= |s.drv.history|
  {
    s' == s.(spc := RStore,
    drv := s.drv.(history := EmptiedFrom(s.drv.history, s.spc.i)),
    log := s.log.(notes := s.log.notes + ResetNotes(s.drv.history[s.spc.i..]), cleared := s'.log.cleared))
  }

  lemma EmptySlotRun<R>(s: State<R>)
    requires WellFormed(s) && s.spc.RLook? && s.spc.i < |s.drv.history| && s.drv.history[s.spc.i].None?
    ensures ValidRun(s, [LookStep]) && After(s, [LookStep]) == s.(spc := RLook(s.spc.i + 1))
  {
    RunOne<R>(s, LookStep);
  }

  lemma FullSlotRun<R>(s: State<R>)
    requires WellFormed(s) && s.spc.RLook? && s.spc.i < |s.drv.history| && s.drv.history[s.spc.i].Some?
    ensures var steps := [LookStep] + [TellStep] + [ClearStep];
            && ValidRun(s, steps)
            && After(s, steps) == s.(spc := RLook(s.spc.i + 1),
               drv := s.drv.(history := s.drv.history[s.spc.i := None]),
               log := s.log.(notes := s.log.notes + [Note(s.drv.history[s.spc.i].value, SrbBusReset)],
                             cleared := s.log.cleared + 1))
  {
    RunOne<R>(s, LookStep);
    RunMore(s, [LookStep], TellStep);
    RunMore(s, [LookStep] + [TellStep], ClearStep);
  }

  lemma SlotsDoneMore<R>(s: State<R>, s1: State<R>, s': State<R>)
    requires s.spc.RLook? && s.spc.i < |s.drv.history|
    requires s1 == s.(spc := RLook(s.spc.i + 1), drv := s.drv.(history := s.drv.history[s.spc.i := None]),
                      log := s.log.(notes := s1.log.notes, cleared := s1.log.cleared))
    requires s1.log.notes == s.log.notes + if s.drv.history[s.spc.i].None? then []
                                           else [Note(s.drv.history[s.spc.i].value, SrbBusReset)]
    requires SlotsDone(s1, s')
    ensures SlotsDone(s, s')
  {
    var i, h := s.spc.i, s.drv.history;
    assert h[i..][1..] == h[i := None][i + 1..];
    assert EmptiedFrom(h[i := None], i + 1) == EmptiedFrom(h, i);
    assert s'.log.notes == s.log.notes + ResetNotes(h[i..]);
  }

  lemma {:induction false} SlotsRun<R>(s: State<R>) returns (steps: seq<Step<R>>)
    requires WellFormed(s) && s.spc.RLook? && s.spc.i <= |s.drv.history|
    ensures ValidRun(s, steps) && AllGoOn(steps) && SlotsDone(s, After(s, steps))
    decreases |s.drv.history| - s.spc.i
  {
    var first: seq<Step<R>>;
    if s.spc.i == |s.drv.history| {
      RunOne<R>(s, LookStep);
      steps := [LookStep];
      assert EmptiedFrom(s.drv.history, s.spc.i) == s.drv.history;
      return;
    } else if s.drv.history[s.spc.i].None? {
      EmptySlotRun(s);
      first := [LookStep];
      assert s.drv.history[s.spc.i := None] == s.drv.history;
    } else {
      FullSlotRun(s);
      first := [LookStep] + [TellStep] + [ClearStep];
    }
    var s1 := After(s, first);
    var rest := SlotsRun(s1);
    RunConcat(s, first, rest);
    steps := first + rest;
    SlotsDoneMore(s, s1, After(s1, rest));
  }

  /** The loop of the head ends in `end`, with `n` entries to go. */
  ghost predicate HeadedFor<R>(d: Driver<R>, end: Driver<R>, n: nat) {
    d.Valid() && n == FastForwardSteps(d.cplHead, d.subTail, d.depth) && end == FastForward(d, n)
  }

  lemma HeadStep<R>(s: State<R>, end: Driver<R>, n: nat)
    requires WellFormed(s) && s.spc.RHead? && s.drv.cplHead != s.drv.subTail && HeadedFor(s.drv, end, n)
    ensures var s' := Apply(s, MoveHeadStep);
            && WellFormed(s') && s' == s.(drv := s'.drv)
            && n > 0 && HeadedFor(s'.drv, end, n - 1)
  {
    FastForwardShrinks(s.drv.cplHead, s.drv.subTail, s.drv.depth);
  }

  lemma HeadArrives<R>(s: State<R>, end: Driver<R>, n: nat)
    requires WellFormed(s) && s.spc.RHead? && s.drv.cplHead == s.drv.subTail && HeadedFor(s.drv, end, n)
    ensures ValidRun(s, [MoveHeadStep]) && After(s, [MoveHeadStep]) == s.(spc := SIdle, drv := end)
  {
    RunOne<R>(s, MoveHeadStep);
  }

  /** The loop of the head. */
  lemma {:induction false} HeadRun<R>(s: State<R>, end: Driver<R>, n: nat) returns (steps: seq<Step<R>>)
    requires WellFormed(s) && s.spc.RHead? && HeadedFor(s.drv, end, n)
    ensures ValidRun(s, steps) && AllGoOn(steps)
    ensures After(s, steps) == s.(spc := SIdle, drv := end)
    decreases n
  {
    if s.drv.cplHead == s.drv.subTail {
      HeadArrives(s, end, n);
      steps := [MoveHeadStep];
    } else {
      HeadStep(s, end, n);
      RunOne<R>(s, MoveHeadStep);
      var rest := HeadRun(Apply<R>(s, MoveHeadStep), end, n - 1);
      RunConcat(s, [MoveHeadStep], rest);
      steps := [MoveHeadStep] + rest;
    }
  }

  /** The counter is set when all slots are empty. */
  lemma StoreRun<R>(s: State<R>, s1: State<R>)
    requires WellFormed(s) && s.spc.SIdle? && WellFormed(s1) && s1.spc.RStore?
    requires s1 == s.(spc := RStore, drv := s.drv.(history := Emptied(s.drv.history)),
                      log := s.log.(notes := s.log.notes + ResetNotes(s.drv.history), cleared := s1.log.cleared))
    ensures ValidRun(s1, [StoreStep])
    ensures var s2 := After(s1, [StoreStep]);
            && s2.spc.RHead?
            && s2.drv == s.drv.(history := Emptied(s.drv.history), inflight := 0)
            && s2.(spc := SIdle, drv := ResetAll(s.drv)) == Apply(s, ResetStep).(log := s2.log)
            && s2.log == Apply(s, ResetStep).log.(cleared := 0)
  {
    RunOne<R>(s1, StoreStep);
  }

  lemma StoreAndHeadRun<R>(s: State<R>, s1: State<R>) returns (steps: seq<Step<R>>)
    requires WellFormed(s) && s.spc.SIdle? && s.log.cleared == 0 && WellFormed(s1) && s1.spc.RStore?
    requires s1 == s.(spc := RStore, drv := s.drv.(history := Emptied(s.drv.history)),
                      log := s.log.(notes := s.log.notes + ResetNotes(s.drv.history), cleared := s1.log.cleared))
    ensures ValidRun(s1, steps) && AllGoOn(steps) && After(s1, steps) == Apply(s, ResetStep)
  {
    StoreRun(s, s1);
    var d := s.drv.(history := Emptied(s.drv.history), inflight := 0);
    var head := HeadRun(After(s1, [StoreStep]), ResetAll(s.drv), FastForwardSteps(d.cplHead, d.subTail, d.depth));
    RunConcat(s1, [StoreStep], head);
    steps := [StoreStep] + head;
  }

  /** Uninterrupted, the accesses of a reset come to `ResetStep`. */
  lemma ResetIsItsSteps<R>(s: State<R>) returns (steps: seq<Step<R>>)
    requires WellFormed(s) && s.spc.SIdle? && s.log.cleared == 0
    ensures ValidRun(s, [StartReset] + steps) && AllGoOn(steps)
    ensures After(s, [StartReset] + steps) == Apply(s, ResetStep)
  {
    RunOne<R>(s, StartReset);
    var s0 := Apply<R>(s, StartReset);
    var slots := SlotsRun(s0);
    var s1 := After(s0, slots);
    assert s.drv.history[0..] == s.drv.history;
    assert EmptiedFrom(s.drv.history, 0) == Emptied(s.drv.history);
    var last := StoreAndHeadRun(s, s1);
    RunConcat(s0, slots, last);
    steps := slots + last;
    RunConcat(s, [StartReset], steps);
  }

  // ---- With a controller at work ----

  /** From its start to its end, nothing but the reset and the controller takes a step. */
  ghost predicate ResetAndController<R>(steps: seq<Step<R>>) {
    forall i :: 0 <= i < |steps| ==> GoesOn(steps[i]) || OfController(steps[i])
  }

  ghost function OfReset<R>(steps: seq<Step<R>>): seq<Step<R>> {
    if steps == [] then [] else (if GoesOn(steps[0]) then [steps[0]] else []) + OfReset(steps[1..])
  }

  ghost function OfTheController<R>(steps: seq<Step<R>>): seq<Step<R>> {
    if steps == [] then [] else (if GoesOn(steps[0]) then [] else [steps[0]]) + OfTheController(steps[1..])
  }

  /** What the controller changes. */
  datatype Part = Part(dev: Device, cq: seq<Completion>, fetched: seq<Command>, posts: seq<nat>,
                       stream: seq<Completion>)

  ghost function PartOf<R>(s: State<R>): Part {
    Part(s.dev, s.cq, s.log.fetched, s.log.posts, s.log.stream)
  }

  ghost function With<R>(s: State<R>, p: Part): State<R> {
    s.(dev := p.dev, cq := p.cq, log := s.log.(fetched := p.fetched, posts := p.posts, stream := p.stream))
  }

  lemma ControllerChanges<R>(s: State<R>, control: Step<R>)
    requires WellFormed(s) && OfController(control) && Enabled(s, control)
    ensures Apply(s, control) == With(s, PartOf(Apply(s, control)))
  {
  }

  lemma ControllerSees<R>(s: State<R>, s': State<R>, control: Step<R>)
    requires WellFormed(s) && WellFormed(s') && OfController(control) && Enabled(s, control)
    requires PartOf(s') == PartOf(s)
    requires s'.drv.sq == s.drv.sq && s'.drv.sqDbl == s.drv.sqDbl && s'.drv.depth == s.drv.depth
    ensures Enabled(s', control) && PartOf(Apply(s', control)) == PartOf(Apply(s, control))
  {
  }

  lemma ResetChanges<R>(s: State<R>, cut: Step<R>)
    requires WellFormed(s) && GoesOn(cut) && Enabled(s, cut)
    ensures var s' := Apply(s, cut);
            && PartOf(s') == PartOf(s)
            && s'.drv.sq == s.drv.sq && s'.drv.sqDbl == s.drv.sqDbl && s'.drv.depth == s.drv.depth
  {
  }

  lemma ResetSees<R>(s: State<R>, p: Part, cut: Step<R>)
    requires WellFormed(s) && WellFormed(With(s, p)) && GoesOn(cut) && Enabled(With(s, p), cut)
    ensures Enabled(s, cut) && Apply(With(s, p), cut) == With(Apply(s, cut), p)
  {
  }

  /** A reset and the controller have nothing in common that either changes. */
  lemma Commute<R>(s: State<R>, control: Step<R>, cut: Step<R>)
    requires WellFormed(s) && OfController(control) && GoesOn(cut)
    requires Enabled(s, control) && WellFormed(Apply(s, control)) && Enabled(Apply(s, control), cut)
    ensures Enabled(s, cut) && WellFormed(Apply(s, cut)) && Enabled(Apply(s, cut), control)
    ensures Apply(Apply(s, cut), control) == Apply(Apply(s, control), cut)
  {
    var p := PartOf(Apply(s, control));
    ControllerChanges(s, control);
    ResetSees(s, p, cut);
    ApplyWellFormed(s, cut);
    ResetChanges(s, cut);
    ControllerSees(s, Apply(s, cut), control);
    ControllerChanges(Apply(s, cut), control);
  }

  /** So a step of the controller can wait until the reset is over. */
  lemma {:induction false} MovePast<R>(s: State<R>, control: Step<R>, cuts: seq<Step<R>>)
    requires WellFormed(s) && OfController(control) && AllGoOn(cuts)
    requires Enabled(s, control) && WellFormed(Apply(s, control)) && ValidRun(Apply(s, control), cuts)
    ensures ValidRun(s, cuts) && Enabled(After(s, cuts), control)
    ensures Apply(After(s, cuts), control) == After(Apply(s, control), cuts)
    decreases |cuts|
  {
    if cuts != [] {
      var s1 := Apply(s, control);
      ApplyWellFormed(s1, cuts[0]);
      Commute(s, control, cuts[0]);
      assert AllGoOn(cuts[1..]);
      MovePast(Apply(s, cuts[0]), control, cuts[1..]);
    }
  }

  lemma {:induction false} Sorted<R>(s: State<R>, steps: seq<Step<R>>)
    requires WellFormed(s) && ValidRun(s, steps) && ResetAndController(steps)
    ensures AllGoOn(OfReset(steps)) && ValidRun(s, OfReset(steps))
    ensures ValidRun(After(s, OfReset(steps)), OfTheController(steps))
    ensures After(s, steps) == After(After(s, OfReset(steps)), OfTheController(steps))
    decreases |steps|
  {
    if steps != [] {
      ApplyWellFormed(s, steps[0]);
      var s1, rest := Apply(s, steps[0]), steps[1..];
      Sorted(s1, rest);
      if GoesOn(steps[0]) {
        assert OfReset(steps) == [steps[0]] + OfReset(rest) && OfTheController(steps) == OfTheController(rest);
        RunOne(s, steps[0]);
        RunConcat(s, [steps[0]], OfReset(rest));
      } else {
        assert OfReset(steps) == OfReset(rest) && OfTheController(steps) == [steps[0]] + OfTheController(rest);
        MovePast(s, steps[0], OfReset(rest));
        var s2 := After(s, OfReset(rest));
        RunOne(s2, steps[0]);
        RunConcat(s2, [steps[0]], OfTheController(rest));
      }
    }
  }

  lemma NextIsGiven<R>(s: State<R>, a: Step<R>, b: Step<R>)
    requires WellFormed(s) && GoesOn(a) && GoesOn(b) && Enabled(s, a) && Enabled(s, b)
    ensures a == b && !s.spc.SIdle?
  {
  }

  /** A reset has one way to go on, and none when it is over. */
  lemma {:induction false} OneWay<R>(s: State<R>, a: seq<Step<R>>, b: seq<Step<R>>)
    requires WellFormed(s) && AllGoOn(a) && AllGoOn(b) && ValidRun(s, a) && ValidRun(s, b)
    requires After(s, a).spc.SIdle? && After(s, b).spc.SIdle?
    ensures a == b
    decreases |a|
  {
    if a != [] && b != [] {
      NextIsGiven(s, a[0], b[0]);
      ApplyWellFormed(s, a[0]);
      assert AllGoOn(a[1..]) && AllGoOn(b[1..]);
      OneWay(Apply(s, a[0]), a[1..], b[1..]);
      assert a == [a[0]] + a[1..] && b == [b[0]] + b[1..];
    }
  }

  lemma AnyWholeReset<R>(s: State<R>, s0: State<R>, cuts: seq<Step<R>>)
    requires WellFormed(s) && s.spc.SIdle? && s.log.cleared == 0
    requires s0 == Apply(s, StartReset) && WellFormed(s0)
    requires AllGoOn(cuts) && ValidRun(s0, cuts) && After(s0, cuts).spc.SIdle?
    ensures After(s0, cuts) == Apply(s, ResetStep)
  {
    var whole := ResetIsItsSteps(s);
    RunOne<R>(s, StartReset);
    FirstStep(s, StartReset, whole);
    OneWay(s0, cuts, whole);
  }

  lemma FirstStep<R>(s: State<R>, step: Step<R>, rest: seq<Step<R>>)
    requires WellFormed(s) && ValidRun(s, [step] + rest)
    ensures Enabled(s, step) && WellFormed(Apply(s, step)) && ValidRun(Apply(s, step), rest)
    ensures After(s, [step] + rest) == After(Apply(s, step), rest)
  {
    ApplyWellFormed(s, step);
    assert ([step] + rest)[1..] == rest;
  }

  /**
    A reset between two calls of CompleteCmd is one step, whatever the controller does meanwhile: the run is the
    same as the whole reset at once, and then the steps of the controller in their order.
   */
  lemma ResetMeanwhile<R>(s: State<R>, steps: seq<Step<R>>)
    requires WellFormed(s) && s.spc.SIdle? && s.log.cleared == 0 && ResetAndController(steps)
    requires ValidRun(s, [StartReset] + steps) && After(s, [StartReset] + steps).spc.SIdle?
    ensures WellFormed(Apply(s, ResetStep)) && ValidRun(Apply(s, ResetStep), OfTheController(steps))
    ensures After(s, [StartReset] + steps) == After(Apply(s, ResetStep), OfTheController(steps))
  {
    FirstStep(s, StartReset, steps);
    var s0, cuts := Apply<R>(s, StartReset), OfReset(steps);
    Sorted(s0, steps);
    OnlyTheController(steps);
    ControllerKeepsPc(After(s0, cuts), OfTheController(steps));
    AnyWholeReset(s, s0, cuts);
  }

  lemma {:induction false} OnlyTheController<R>(steps: seq<Step<R>>)
    requires ResetAndController(steps)
    ensures forall i :: 0 <= i < |OfTheController(steps)| ==> OfController(OfTheController(steps)[i])
  {
    if steps != [] {
      assert ResetAndController(steps[1..]);
      OnlyTheController(steps[1..]);
    }
  }

  lemma {:induction false} ControllerKeepsPc<R>(s: State<R>, steps: seq<Step<R>>)
    requires WellFormed(s) && ValidRun(s, steps) && forall i :: 0 <= i < |steps| ==> OfController(steps[i])
    ensures After(s, steps).spc == s.spc
    decreases |steps|
  {
    if steps != [] {
      ApplyWellFormed(s, steps[0]);
      ControllerKeepsPc(Apply(s, steps[0]), steps[1..]);
    }
  }
}
