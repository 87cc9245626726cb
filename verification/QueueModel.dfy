/**
  The driver's half of a queue pair as a value, and what each operation of CNvmeQueue and
  CCmdHistory makes of it.  `R` is the type of the requests (the SRB extensions).

  The classes in NvmeQueue.dfy are proved against these functions, and QueueProtocol.dfy proves
  what the functions promise when a controller works on the other end of the rings.
*/
module QueueModel {
  import opened NvmeTypes
  import opened Ring

  const SAFE_SUBMIT_THRESHOLD: int := 8

  /** One call of CompleteSrb: the request and the status it was completed with. */
  datatype Note<R> = Note(req: R, status: SrbStatus)

  /**
    The fields of CNvmeQueue, the SQ memory, the table of CCmdHistory and the values last written to the
    two doorbells.
   */
  datatype Driver<R> = Driver(
    depth: nat,
    ready: bool,
    sq: seq<Command>,
    subTail: nat,
    subHead: nat,
    cplHead: nat,
    phaseTag: nat,
    inflight: int,
    history: seq<Option<R>>,
    sqDbl: nat,
    cqDbl: nat
  ) {
    ghost predicate Valid() {
      && 0 < depth < TWO_TO_THE_16
      && |sq| == depth
      && subTail < depth
      && cplHead < depth
      && phaseTag <= 1
      && 0 < |history|
    }
  }

  // ---- CCmdHistory ----

  datatype PushResult<R> = PushResult(status: NtStatus, history: seq<Option<R>>)

  function Push<R>(history: seq<Option<R>>, index: nat, req: R): PushResult<R> {
    if index >= |history| then PushResult(StatusUnsuccessful, history)
    else if history[index].Some? then PushResult(StatusAlreadyCommitted, history)
    else PushResult(StatusSuccess, history[index := Some(req)])
  }

  datatype PopResult<R> = PopResult(status: NtStatus, history: seq<Option<R>>, req: Option<R>)

  /** `held` is what the caller's variable holds before the call: an index out of range leaves it alone. */
  function Pop<R>(history: seq<Option<R>>, index: nat, held: Option<R>): PopResult<R> {
    if index >= |history| then PopResult(StatusUnsuccessful, history, held)
    else if history[index].None? then PopResult(StatusInvalidDeviceState, history[index := None], None)
    else PopResult(StatusSuccess, history[index := None], history[index])
  }

  /** The notifications of CCmdHistory::Reset, in slot order. */
  ghost function ResetNotes<R>(history: seq<Option<R>>): seq<Note<R>> {
    if history == [] then []
    else
      (if history[0].Some? then [Note(history[0].value, SrbBusReset)] else []) + ResetNotes(history[1..])
  }

  ghost function Emptied<R>(history: seq<Option<R>>): (empty: seq<Option<R>>)
    ensures |empty| == |history|
    ensures forall i :: 0 <= i < |history| ==> empty[i] == None
  {
    seq(|history|, _ => None)
  }

  // ---- SubmitCmd ----

  /**
    The throttle as it is computed: `Depth - 8` is a 32-bit unsigned difference, and the
    counter is cut to 16 bits.
   */
  predicate IsSafeForSubmit(depth: nat, inflight: int) {
    (depth - SAFE_SUBMIT_THRESHOLD) % TWO_TO_THE_32 > inflight % TWO_TO_THE_16
  }

  datatype SubmitResult<R> = SubmitResult(status: NtStatus, driver: Driver<R>, notes: seq<Note<R>>)

  ghost function Submit<R>(d: Driver<R>, req: R, cmd: Command): SubmitResult<R>
    requires d.Valid()
  {
    if !d.ready then SubmitResult(StatusDeviceNotReady, d, [])
    else if !IsSafeForSubmit(d.depth, d.inflight) then SubmitResult(StatusDeviceBusy, d, [])
    else
      var put := PutInTable(d.history, req, cmd.cid);
      if put.status == StatusUnsuccessful then SubmitResult(StatusUnsuccessful, d, [])
      else
        SubmitResult(StatusSuccess, RingTail(Count(CopyToRing(d.(history := put.history), cmd))), put.notes)
  }

  datatype PutResult<R> = PutResult(status: NtStatus, history: seq<Option<R>>, notes: seq<Note<R>>)

  /** Push, and when the slot is taken: complete the old request as busy and push again. */
  ghost function PutInTable<R>(history: seq<Option<R>>, req: R, cid: nat): PutResult<R> {
    var first := Push(history, cid, req);
    if first.status == StatusAlreadyCommitted then
      var evicted := Pop(history, cid, None);
      var second := Push(evicted.history, cid, req);
      PutResult(StatusSuccess, second.history, [Note(evicted.req.value, SrbBusy)])
    else
      PutResult(first.status, first.history, [])
  }

  ghost function CopyToRing<R>(d: Driver<R>, cmd: Command): Driver<R>
    requires d.subTail < |d.sq|
  {
    d.(sq := d.sq[d.subTail := cmd])
  }

  ghost function Count<R>(d: Driver<R>): Driver<R> {
    d.(inflight := d.inflight + 1)
  }

  ghost function RingTail<R>(d: Driver<R>): Driver<R>
    requires 0 < d.depth
  {
    var tail := (d.subTail + 1) % d.depth;
    d.(subTail := tail, sqDbl := tail)
  }

  // ---- CompleteCmd ----

  predicate NewCplArrived(cpl: Completion, tag: nat) {
    cpl.phase == tag
  }

  ghost function AdvanceHead<R>(d: Driver<R>): Driver<R>
    requires 0 < d.depth
  {
    var head := (d.cplHead + 1) % d.depth;
    d.(cplHead := head, phaseTag := if head != 0 then d.phaseTag else if d.phaseTag == 0 then 1 else 0)
  }

  datatype ConsumeResult<R> = ConsumeResult(driver: Driver<R>, held: Option<R>, notes: seq<Note<R>>)

  /** One pass of the loop body.  `held` is the variable `srbext`, which lives outside the loop. */
  ghost function Consume<R>(d: Driver<R>, cpl: Completion, held: Option<R>): ConsumeResult<R>
    requires d.Valid()
  {
    var popped := Pop(d.history, cpl.cid, held);
    var d1 := d.(history := popped.history, subHead := cpl.sqhd);
    match popped.req
    case Some(req) =>
      ConsumeResult(AdvanceHead(d1.(inflight := d1.inflight - 1)), popped.req, [Note(req, SrbFromNvme(cpl.status))])
    case None =>
      ConsumeResult(AdvanceHead(d1), popped.req, [])
  }

  lemma ConsumeValid<R>(d: Driver<R>, cpl: Completion, held: Option<R>)
    requires d.Valid()
    ensures Consume(d, cpl, held).driver.Valid()
    ensures Consume(d, cpl, held).driver.depth == d.depth
  {
  }

  datatype CompleteResult<R> = CompleteResult(driver: Driver<R>, notes: seq<Note<R>>, count: nat)

  /** The loop of CompleteCmd, with `n` entries already consumed and at most `max` in all. */
  ghost function CompleteLoop<R>(d: Driver<R>, cq: seq<Completion>, held: Option<R>, n: nat, max: nat)
    : (r: CompleteResult<R>)
    requires d.Valid() && |cq| == d.depth
    ensures r.driver.Valid() && r.driver.depth == d.depth
    decreases max - n
  {
    if n < max && NewCplArrived(cq[d.cplHead], d.phaseTag) then
      var one := Consume(d, cq[d.cplHead], held);
      ConsumeValid(d, cq[d.cplHead], held);
      var rest := CompleteLoop(one.driver, cq, one.held, n + 1, max);
      CompleteResult(rest.driver, one.notes + rest.notes, rest.count)
    else
      CompleteResult(d, [], n)
  }

  /** After `n` passes with `notes`, the rest of the loop makes up `whole`. */
  ghost predicate LeadsTo<R>(whole: CompleteResult<R>, d: Driver<R>, cq: seq<Completion>, held: Option<R>,
                             n: nat, max: nat, notes: seq<Note<R>>)
  {
    && d.Valid() && |cq| == d.depth
    && var rest := CompleteLoop(d, cq, held, n, max);
       whole == CompleteResult(rest.driver, notes + rest.notes, rest.count)
  }

  lemma LoopPass<R>(whole: CompleteResult<R>, d: Driver<R>, cq: seq<Completion>, held: Option<R>,
                    n: nat, max: nat, notes: seq<Note<R>>)
    requires LeadsTo(whole, d, cq, held, n, max, notes)
    requires n < max && NewCplArrived(cq[d.cplHead], d.phaseTag)
    ensures var one := Consume(d, cq[d.cplHead], held);
            LeadsTo(whole, one.driver, cq, one.held, n + 1, max, notes + one.notes)
  {
    var one := Consume(d, cq[d.cplHead], held);
    ConsumeValid(d, cq[d.cplHead], held);
    var rest := CompleteLoop(one.driver, cq, one.held, n + 1, max);
    assert notes + (one.notes + rest.notes) == notes + one.notes + rest.notes;
  }

  lemma LoopEnd<R>(whole: CompleteResult<R>, d: Driver<R>, cq: seq<Completion>, held: Option<R>,
                   n: nat, max: nat, notes: seq<Note<R>>)
    requires LeadsTo(whole, d, cq, held, n, max, notes)
    requires max <= n || !NewCplArrived(cq[d.cplHead], d.phaseTag)
    ensures whole == CompleteResult(d, notes, n)
  {
    assert notes + [] == notes;
  }

  lemma LoopStart<R>(d: Driver<R>, cq: seq<Completion>, max: nat)
    requires d.Valid() && |cq| == d.depth
    ensures LeadsTo(CompleteLoop(d, cq, None, 0, max), d, cq, None, 0, max, [])
  {
    var rest := CompleteLoop(d, cq, None, 0, max);
    assert [] + rest.notes == rest.notes;
  }

  ghost function Complete<R>(d: Driver<R>, cq: seq<Completion>, maxCount: nat): CompleteResult<R>
    requires d.Valid() && |cq| == d.depth
  {
    var r := CompleteLoop(d, cq, None, 0, if maxCount == 0 then d.depth else maxCount);
    if r.count == 0 then r else r.(driver := r.driver.(cqDbl := r.driver.cplHead))
  }

  // ---- ResetAllCmd ----

  /** How often the loop of ResetAllCmd runs. */
  function FastForwardSteps(head: nat, tail: nat, depth: nat): (steps: nat)
    requires head < depth && tail < depth
    ensures steps < depth
  {
    if head <= tail then tail - head else depth - head + tail
  }

  lemma FastForwardShrinks(head: nat, tail: nat, depth: nat)
    requires head < depth && tail < depth && head != tail
    ensures FastForwardSteps((head + 1) % depth, tail, depth) == FastForwardSteps(head, tail, depth) - 1
  {
    if head + 1 == depth {
      DivModUnique(head + 1, depth, 1, 0);
    } else {
      DivModUnique(head + 1, depth, 0, head + 1);
    }
  }

  ghost function FastForward<R>(d: Driver<R>, steps: nat): (d': Driver<R>)
    requires d.Valid()
    ensures d'.Valid() && d'.depth == d.depth
    decreases steps
  {
    if steps == 0 then d else FastForward(AdvanceHead(d), steps - 1)
  }

  ghost function ResetAll<R>(d: Driver<R>): Driver<R>
    requires d.Valid()
  {
    var d1 := d.(history := Emptied(d.history), inflight := 0);
    FastForward(d1, FastForwardSteps(d1.cplHead, d1.subTail, d1.depth))
  }
}
