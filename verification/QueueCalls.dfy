/**
  A queue pair used by whole calls: any sequence of SubmitCmd, CompleteCmd and ResetAllCmd, with a controller that
  works between them.  The methods of NvmeQueue.dfy do to their object what `Do` does here.
*/
module QueueCalls {
  import opened NvmeTypes
  import opened QueueModel
  import opened QueueProtocol
  import opened QueueRequests
  import opened QueueRefinement
  import opened QueueReset
  import opened QueueTheorems

  datatype Call<R> =
    | SubmitCall(req: R, cmd: Command)
    | CompleteCall(maxCount: nat)
    | ResetCall
    | Fetch
    | Post(command: nat, status: NvmeStatus)

  /** What can be seen between two calls: the driver, the rings, the controller, and who was told what. */
  datatype World<R> = World(
    drv: Driver<R>,
    cq: seq<Completion>,
    dev: Device,
    fetched: nat,                 // commands the controller has read
    accepted: seq<Accepted<R>>,   // calls of SubmitCmd that succeeded
    notes: seq<Note<R>>           // calls of CompleteSrb
  ) {
    ghost predicate Valid() {
      drv.Valid() && |cq| == drv.depth && dev.sqHead < drv.depth && dev.cqTail < drv.depth
    }
  }

  ghost function Do<R>(w: World<R>, call: Call<R>): World<R>
    requires w.Valid()
  {
    match call
    case SubmitCall(req, cmd) =>
      var r := Submit(w.drv, req, cmd);
      w.(drv := r.driver, notes := w.notes + r.notes,
      accepted := if r.status == StatusSuccess then w.accepted + [Accepted(req, cmd)] else w.accepted)
    case CompleteCall(maxCount) =>
      var r := Complete(w.drv, w.cq, maxCount);
      w.(drv := r.driver, notes := w.notes + r.notes)
    case ResetCall => w.(drv := ResetAll(w.drv), notes := w.notes + ResetNotes(w.drv.history))
    case Fetch =>
      if w.dev.sqHead == w.drv.sqDbl then w
      else
        w.(dev := w.dev.(sqHead := (w.dev.sqHead + 1) % w.drv.depth,
        pending := w.dev.pending[w.fetched := w.drv.sq[w.dev.sqHead]]),
        fetched := w.fetched + 1)
    case Post(i, status) =>
      if i !in w.dev.pending then w
      else
        var tail := (w.dev.cqTail + 1) % w.drv.depth;
        w.(cq := w.cq[w.dev.cqTail := Completion(w.dev.pending[i].cid, w.dev.sqHead, w.dev.phase, status)],
        dev := w.dev.(cqTail := tail, pending := w.dev.pending - {i},
        phase := if tail != 0 then w.dev.phase else if w.dev.phase == 0 then 1 else 0))
  }

  ghost function View<R>(s: State<R>): World<R> {
    World(s.drv, s.cq, s.dev, |s.log.fetched|, s.log.accepted, s.log.notes)
  }

  /** Between two calls, none of which has overlapped another. */
  ghost predicate AtRest<R>(s: State<R>) {
    && WellFormed(s) && s.spc.SIdle? && s.cpc.CIdle?
    && s.log.caught.CIdle? && s.log.cleared == 0 && s.log.twice == []
  }

  /** A step by itself does what the call does. */
  lemma StepIsACall<R>(s: State<R>, step: Step<R>, call: Call<R>)
    requires AtRest(s) && Enabled(s, step)
    requires (step.ResetStep? && call.ResetCall?) || (step.FetchStep? && call.Fetch?)
             || (step.PostStep? && call == Post(step.command, step.status))
    ensures AtRest(Apply(s, step))
    ensures View(Apply(s, step)) == Do(View(s), call)
  {
    ApplyWellFormed(s, step);
  }

  ghost predicate Refused<R>(s: State<R>, call: Call<R>)
    requires AtRest(s)
  {
    match call
    case SubmitCall(req, cmd) => Submit(s.drv, req, cmd).status != StatusSuccess
    case Fetch => !Enabled<R>(s, FetchStep)
    case Post(i, status) => !Enabled(s, PostStep(i, status))
    case _ => false
  }

  lemma CallIsARun<R>(s: State<R>, call: Call<R>) returns (steps: seq<Step<R>>)
    requires AtRest(s)
    ensures ValidRun(s, steps)
    ensures AtRest(After(s, steps))
    ensures View(After(s, steps)) == Do(View(s), call)
  {
    steps := [];
    if !Refused(s, call) {
      match call
      case SubmitCall(req, cmd) =>
        SubmitIsARun(s, req, cmd);
        steps := SubmitSteps(s.drv, req, cmd);
      case CompleteCall(maxCount) => steps := CompleteIsARun(s, maxCount);
      case ResetCall =>
        StepIsACall(s, ResetStep, call);
        var cuts := ResetIsItsSteps(s);
        steps := [StartReset] + cuts;
      case Fetch =>
        StepIsACall(s, FetchStep, call);
        RunOne<R>(s, FetchStep);
        steps := [FetchStep];
      case Post(i, status) =>
        StepIsACall(s, PostStep(i, status), call);
        RunOne<R>(s, PostStep(i, status));
        steps := [PostStep(i, status)];
    }
  }

  lemma DoKeepsValid<R>(w: World<R>, call: Call<R>)
    requires w.Valid()
    ensures Do(w, call).Valid() && Do(w, call).drv.depth == w.drv.depth
  {
  }

  ghost function DoAll<R>(w: World<R>, calls: seq<Call<R>>): (w': World<R>)
    requires w.Valid()
    ensures w'.Valid() && w'.drv.depth == w.drv.depth
    decreases |calls|
  {
    if calls == [] then w else (DoKeepsValid(w, calls[0]); DoAll(Do(w, calls[0]), calls[1..]))
  }

  lemma {:induction false} CallsAreARun<R>(s: State<R>, calls: seq<Call<R>>) returns (steps: seq<Step<R>>)
    requires AtRest(s)
    ensures ValidRun(s, steps)
    ensures AtRest(After(s, steps))
    ensures View(After(s, steps)) == DoAll(View(s), calls)
    decreases |calls|
  {
    steps := [];
    if calls != [] {
      var first := CallIsARun(s, calls[0]);
      var rest := CallsAreARun(After(s, first), calls[1..]);
      RunConcat(s, first, rest);
      steps := first + rest;
    }
  }

  /**
    From a queue that was just set up, over every sequence of whole calls and whatever the controller does
    between them: each request was completed as often as SubmitCmd accepted it, less the times it is in the
    table; and with a depth of 8 or more the counter is at least what is in the table, and leaves eight entries.
   */
  lemma WholeCallsTheorem<R>(d: Driver<R>, cq: seq<Completion>, calls: seq<Call<R>>, req: R)
    requires Init(Fresh(d, cq))
    ensures var w := DoAll(View(Fresh(d, cq)), calls);
            && TimesAccepted(w.accepted, req) == Completed(w.notes, req) + Held(w.drv.history, req)
            && Occupied(w.drv.history) <= w.drv.inflight
            && (d.depth >= SAFE_SUBMIT_THRESHOLD ==> w.drv.inflight <= d.depth - SAFE_SUBMIT_THRESHOLD)
  {
    var s0 := Fresh(d, cq);
    var steps := CallsAreARun(s0, calls);
    ExactlyOnceTheorem(s0, steps, req);
    InflightTheorem(s0, steps);
    if Throttled(s0) {
      ThrottleTheorem(s0, steps);
    }
  }
}
