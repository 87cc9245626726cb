/**
  What a whole CompleteCmd takes in: as many entries as are new, up to its bound, each handed to the request in
  the slot of its tag.
*/
module QueueConsume {
  import opened NvmeTypes
  import opened Ring
  import opened QueueModel
  import opened QueueProtocol
  import opened QueueRings
  import opened QueueRequests
  import opened QueueTable
  import opened QueueTheorems
  import opened QueueRefinement

  // ---- The loop ----

  /** The table after the entries have emptied the slots of their tags. */
  ghost function Drained<R>(history: seq<Option<R>>, entries: seq<Completion>): (result: seq<Option<R>>)
    ensures |result| == |history|
  {
    if entries == [] then history
    else
      var last := entries[|entries| - 1].cid;
      var rest := Drained(history, entries[..|entries| - 1]);
      if last < |history| then rest[last := None] else rest
  }

  /** The completions, in order: of the request an entry finds in its slot, with the entry's status. */
  ghost function DrainNotes<R>(history: seq<Option<R>>, entries: seq<Completion>): seq<Note<R>> {
    if entries == [] then []
    else
      var before, last := entries[..|entries| - 1], entries[|entries| - 1];
      var found := if last.cid < |history| then Drained(history, before)[last.cid] else None;
      DrainNotes(history, before) + if found.Some? then [Note(found.value, SrbFromNvme(last.status))] else []
  }

  lemma {:induction false} DrainFirst<R>(history: seq<Option<R>>, entries: seq<Completion>)
    requires entries != [] && entries[0].cid < |history|
    ensures var h, e := history, entries[0];
            && Drained(h, entries) == Drained(h[e.cid := None], entries[1..])
            && DrainNotes(h, entries)
               == (if h[e.cid].Some? then [Note(h[e.cid].value, SrbFromNvme(e.status))] else [])
                  + DrainNotes(h[e.cid := None], entries[1..])
    decreases |entries|
  {
    var before := entries[..|entries| - 1];
    if |entries| == 1 {
      assert before == [] && entries[1..] == [];
    } else {
      DrainFirst(history, before);
      assert before[1..] == entries[1..][..|entries| - 2];
    }
  }

  /** The ring holds the last lap of the stream, in the phases of its laps. */
  ghost predicate HoldsLap(cq: seq<Completion>, stream: seq<Completion>, depth: nat)
    requires 0 < depth && |cq| == depth
  {
    && (forall k :: |stream| - depth <= k < |stream| ==> cq[Slot(k, depth)] == EntryAt(stream, k))
    && (forall k :: |stream| - depth <= k < |stream| ==> EntryAt(stream, k).phase == Phase(k, depth))
  }

  /** The head stands at position `k`. */
  ghost predicate HeadAt<R>(d: Driver<R>, k: nat) {
    d.Valid() && d.cplHead == Slot(k, d.depth) && d.phaseTag == Phase(k, d.depth)
  }

  lemma NewAt<R>(d: Driver<R>, cq: seq<Completion>, stream: seq<Completion>, k: nat)
    requires HeadAt(d, k) && |cq| == d.depth && HoldsLap(cq, stream, d.depth)
    requires k <= |stream| < k + d.depth
    ensures NewCplArrived(cq[d.cplHead], d.phaseTag) <==> k < |stream|
    ensures k < |stream| ==> cq[d.cplHead] == stream[k]
  {
    if k < |stream| {
      assert cq[Slot(k, d.depth)] == EntryAt(stream, k);
    } else {
      Lap(k, d.depth);
      assert cq[Slot(k - d.depth, d.depth)] == EntryAt(stream, k - d.depth);
    }
  }

  /** `m` entries of the stream from position `k` on were taken in. */
  ghost predicate TookIn<R>(d: Driver<R>, d': Driver<R>, notes: seq<Note<R>>, stream: seq<Completion>, k: nat, m: nat)
    requires k + m <= |stream|
  {
    && HeadAt(d', k + m)
    && notes == DrainNotes(d.history, stream[k..k + m])
    && d' == d.(cplHead := d'.cplHead, phaseTag := d'.phaseTag, history := Drained(d.history, stream[k..k + m]),
                inflight := d.inflight - |notes|, subHead := if m == 0 then d.subHead else stream[k + m - 1].sqhd)
  }

  lemma TookOne<R>(d: Driver<R>, cpl: Completion, held: Option<R>, k: nat)
    requires HeadAt(d, k) && cpl.cid < |d.history|
    ensures var one := Consume(d, cpl, held);
            && HeadAt(one.driver, k + 1)
            && one.notes == (if d.history[cpl.cid].Some?
                             then [Note(d.history[cpl.cid].value, SrbFromNvme(cpl.status))] else [])
            && one.driver == d.(cplHead := one.driver.cplHead, phaseTag := one.driver.phaseTag,
                                history := d.history[cpl.cid := None], inflight := d.inflight - |one.notes|,
                                subHead := cpl.sqhd)
  {
    Next(k, d.depth);
  }

  lemma TookMore<R>(d: Driver<R>, d1: Driver<R>, d': Driver<R>, first: seq<Note<R>>, rest: seq<Note<R>>,
                    stream: seq<Completion>, k: nat, m: nat)
    requires k < |stream| && stream[k].cid < |d.history| && k + 1 + m <= |stream|
    requires first == (if d.history[stream[k].cid].Some?
                       then [Note(d.history[stream[k].cid].value, SrbFromNvme(stream[k].status))] else [])
    requires d1 == d.(cplHead := d1.cplHead, phaseTag := d1.phaseTag, history := d.history[stream[k].cid := None],
                      inflight := d.inflight - |first|, subHead := stream[k].sqhd)
    requires TookIn(d1, d', rest, stream, k + 1, m)
    ensures TookIn(d, d', first + rest, stream, k, m + 1)
  {
    var entries := stream[k..k + (m + 1)];
    assert entries[0] == stream[k] && entries[1..] == stream[k + 1..k + 1 + m];
    DrainFirst(d.history, entries);
  }

  /** The loop takes in what is new, up to its bound, and nothing else. */
  ghost predicate TakesIn<R>(d: Driver<R>, cq: seq<Completion>, stream: seq<Completion>, k: nat, held: Option<R>,
                             n: nat, max: nat)
    requires d.Valid() && |cq| == d.depth && k <= |stream| && n <= max
  {
    var r, m := CompleteLoop(d, cq, held, n, max), Min(|stream| - k, max - n);
    r.count == n + m && TookIn(d, r.driver, r.notes, stream, k, m)
  }

  lemma TakesInMore<R>(d: Driver<R>, cq: seq<Completion>, stream: seq<Completion>, k: nat, held: Option<R>,
                       n: nat, max: nat)
    requires HeadAt(d, k) && |cq| == d.depth && n < max && k < |stream| && stream[k].cid < |d.history|
    requires NewCplArrived(cq[d.cplHead], d.phaseTag) && cq[d.cplHead] == stream[k]
    requires var one := Consume(d, stream[k], held);
             && one.driver.Valid() && one.driver.depth == d.depth
             && TakesIn(one.driver, cq, stream, k + 1, one.held, n + 1, max)
    ensures TakesIn(d, cq, stream, k, held, n, max)
  {
    var one := Consume(d, stream[k], held);
    var rest := CompleteLoop(one.driver, cq, one.held, n + 1, max);
    TookOne(d, stream[k], held, k);
    LoopGoesOn(d, cq, held, n, max);
    TookMore(d, one.driver, rest.driver, one.notes, rest.notes, stream, k, Min(|stream| - (k + 1), max - (n + 1)));
  }

  lemma TakesInNothing<R>(d: Driver<R>, cq: seq<Completion>, stream: seq<Completion>, k: nat, held: Option<R>,
                          n: nat, max: nat)
    requires HeadAt(d, k) && |cq| == d.depth && n <= max && k <= |stream|
    requires n == max || (k == |stream| && !NewCplArrived(cq[d.cplHead], d.phaseTag))
    ensures TakesIn(d, cq, stream, k, held, n, max)
  {
    assert stream[k..k] == [];
  }

  lemma {:induction false} LoopTakesIn<R>(d: Driver<R>, cq: seq<Completion>, stream: seq<Completion>, k: nat,
                                          held: Option<R>, n: nat, max: nat)
    requires HeadAt(d, k) && |cq| == d.depth && HoldsLap(cq, stream, d.depth)
    requires k <= |stream| < k + d.depth && n <= max
    requires forall i :: k <= i < |stream| ==> stream[i].cid < |d.history|
    ensures TakesIn(d, cq, stream, k, held, n, max)
    decreases max - n
  {
    NewAt(d, cq, stream, k);
    if n < max && k < |stream| {
      var one := Consume(d, stream[k], held);
      TookOne(d, stream[k], held, k);
      LoopTakesIn(one.driver, cq, stream, k + 1, one.held, n + 1, max);
      TakesInMore(d, cq, stream, k, held, n, max);
    } else {
      TakesInNothing(d, cq, stream, k, held, n, max);
    }
  }

  lemma LoopGoesOn<R>(d: Driver<R>, cq: seq<Completion>, held: Option<R>, n: nat, max: nat)
    requires d.Valid() && |cq| == d.depth && n < max && NewCplArrived(cq[d.cplHead], d.phaseTag)
    ensures var one := Consume(d, cq[d.cplHead], held);
            && one.driver.Valid() && one.driver.depth == d.depth
            && var r, rest := CompleteLoop(d, cq, held, n, max), CompleteLoop(one.driver, cq, one.held, n + 1, max);
               r.driver == rest.driver && r.notes == one.notes + rest.notes && r.count == rest.count
  {
    ConsumeValid(d, cq[d.cplHead], held);
  }

  // ---- The call ----

  function Bound(maxCount: nat, depth: nat): nat {
    if maxCount == 0 then depth else maxCount
  }

  /**
    CompleteCmd takes in every posted entry that is not consumed, or as many as its bound allows, in order; each empties
    the slot of its tag and completes the request in it with its status; the counter goes down by the requests
    found, and the doorbell is rung with the new head if anything was taken in.
   */
  lemma CompleteTakesIn<R>(s: State<R>, maxCount: nat)
    requires WellFormed(s) && RingInv(s) && CqInv(s) && TagsInRange(s) && s.log.consumed <= |s.log.stream|
    ensures var r, C := Complete(s.drv, s.cq, maxCount), s.log.consumed;
            var m := Min(|s.log.stream| - C, Bound(maxCount, s.drv.depth));
            && r.count == m
            && TookIn(s.drv, r.driver.(cqDbl := s.drv.cqDbl), r.notes, s.log.stream, C, m)
            && r.driver.cqDbl == if m > 0 then r.driver.cplHead else s.drv.cqDbl
  {
    var stream, C, depth := s.log.stream, s.log.consumed, s.drv.depth;
    forall i | C <= i < |stream|
      ensures stream[i].cid < |s.drv.history|
    {
      assert s.cq[Slot(i, depth)] == EntryAt(stream, i);
    }
    LoopTakesIn(s.drv, s.cq, stream, C, None, 0, Bound(maxCount, depth));
  }

  // ---- After a run ----

  lemma {:induction false} CompleteIsOrderly<R>(s: State<R>, steps: seq<Step<R>>)
    requires WellFormed(s) && ValidRun(s, steps) && AllOfComplete(steps)
    ensures OrderlyRun(s, steps) && NoReset(steps)
    decreases |steps|
  {
    if steps != [] {
      ApplyWellFormed(s, steps[0]);
      assert AllOfComplete(steps[1..]);
      CompleteIsOrderly(Apply(s, steps[0]), steps[1..]);
    }
  }

  /** A delivery completes its request with the status of the entry. */
  ghost predicate Noted<R>(l: Log<R>) {
    forall d :: d in l.deliveries ==> Note(d.req, SrbFromNvme(d.cpl.status)) in l.notes
  }

  lemma NotedMore<R>(l: Log<R>, l': Log<R>)
    requires Noted(l) && l'.deliveries == l.deliveries && l.notes <= l'.notes
    ensures Noted(l')
  {
    forall d | d in l'.deliveries
      ensures Note(d.req, SrbFromNvme(d.cpl.status)) in l'.notes
    {
      assert Note(d.req, SrbFromNvme(d.cpl.status)) in l.notes;
    }
  }

  lemma NotedNotify<R>(s: State<R>)
    requires WellFormed(s) && Noted(s.log) && Enabled(s, NotifyStep)
    ensures Noted(Apply(s, NotifyStep).log)
  {
    var l, l' := s.log, Apply(s, NotifyStep).log;
    assert l'.notes[|l.notes|] == Note(s.cpc.found.value, SrbFromNvme(s.cpc.cpl.status));
    forall d | d in l'.deliveries
      ensures Note(d.req, SrbFromNvme(d.cpl.status)) in l'.notes
    {
      if d in l.deliveries {
        assert Note(d.req, SrbFromNvme(d.cpl.status)) in l.notes;
      } else {
        assert d == Delivery(s.cpc.found.value, s.cpc.cpl, l.consumed);
      }
    }
  }

  lemma NotedStep<R>(s: State<R>, step: Step<R>)
    requires WellFormed(s) && Noted(s.log) && Enabled(s, step)
    ensures Noted(Apply(s, step).log)
  {
    if step.NotifyStep? {
      NotedNotify(s);
    } else {
      NotedMore(s.log, Apply(s, step).log);
    }
  }

  lemma {:induction false} RunKeepsNoted<R>(s: State<R>, steps: seq<Step<R>>)
    requires WellFormed(s) && ValidRun(s, steps) && Noted(s.log)
    ensures Noted(After(s, steps).log)
    decreases |steps|
  {
    if steps != [] {
      ApplyWellFormed(s, steps[0]);
      NotedStep(s, steps[0]);
      RunKeepsNoted(Apply(s, steps[0]), steps[1..]);
    }
  }

  /** Every answer posted since the last reset under a clean tag has completed its request, with its status. */
  ghost predicate AllAnswered<R>(s: State<R>) {
    var l := s.log;
    forall k :: l.base <= k < |l.stream| && CleanTag(s, l.stream[k].cid) ==>
      && k < |l.posts| && l.posts[k] < |l.accepted|
      && Note(l.accepted[l.posts[k]].req, SrbFromNvme(l.stream[k].status)) in l.notes
  }

  lemma EverythingNoted<R>(s: State<R>)
    requires Inv(s) && Noted(s.log) && s.log.consumed == |s.log.stream|
    ensures AllAnswered(s)
  {
    forall k | s.log.base <= k < |s.log.stream| && CleanTag(s, s.log.stream[k].cid)
      ensures Delivered(s.log, k)
    {
    }
  }

  /** `s'` is `s` after a `CompleteCmd(0)` that has left no new entry. */
  ghost predicate NothingLeft<R>(s: State<R>, s': State<R>)
    requires WellFormed(s)
  {
    var l := s'.log;
    && WellFormed(s') && s'.cpc.CIdle?
    && s'.drv == Complete(s.drv, s.cq, 0).driver && s'.cq == s.cq && s'.dev == s.dev
    && l.stream == s.log.stream && l.posts == s.log.posts && l.accepted == s.log.accepted
    && l.consumed == |l.stream| && s'.drv.cplHead == Slot(|l.stream|, s'.drv.depth)
    && s'.drv.cqDbl == (if l.consumed > s.log.consumed then s'.drv.cplHead else s.drv.cqDbl)
    && AllAnswered(s')
  }

  lemma CompletesAll<R>(s: State<R>) returns (more: seq<Step<R>>)
    requires Inv(s) && Noted(s.log) && s.cpc.CIdle? && s.log.consumed <= |s.log.stream|
    ensures ValidRun(s, more) && AllOfComplete(more) && NothingLeft(s, After(s, more))
  {
    more := CompleteIsARun(s, 0);
    CompleteTakesIn(s, 0);
    CompleteIsOrderly(s, more);
    RunKeepsInv(s, more);
    RunKeepsNoted(s, more);
    EverythingNoted(After(s, more));
  }

  /**
    A whole `CompleteCmd(0)` leaves nothing behind: after it every posted entry is consumed, and every request whose
    answer was posted since the last reset, under a tag that is clean, is completed with the status of that answer.
    (Until the controller has posted what it owes from before a reset, there is nothing new to consume.)
   */
  lemma NothingLeftTheorem<R>(s0: State<R>, steps: seq<Step<R>>) returns (more: seq<Step<R>>)
    requires Init(s0) && ValidRun(s0, steps) && OrderlyRun(s0, steps) && (Throttled(s0) || NoReset(steps))
    requires After(s0, steps).cpc.CIdle? && After(s0, steps).log.base <= |After(s0, steps).log.stream|
    ensures ValidRun(After(s0, steps), more) && AllOfComplete(more)
    ensures NothingLeft(After(s0, steps), After(After(s0, steps), more))
  {
    InitInv(s0);
    RunKeepsInv(s0, steps);
    RunKeepsNoted(s0, steps);
    more := CompletesAll(After(s0, steps));
  }
}
