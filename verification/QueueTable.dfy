/**
  From the rings to the requests: the controller reads what was submitted, and the table leads
  each completion entry back to the request that asked for it.
*/
module QueueTable {
  import opened NvmeTypes
  import opened Ring
  import opened QueueModel
  import opened QueueProtocol
  import opened QueueRings
  import opened QueueRequests

  // ---- The submission ring ----

  function InSubmit<R>(pc: SubmitPc<R>): nat {
    if pc.SPushed? || pc.SCopied? || pc.SCounted? then 1 else 0
  }

  function Copied<R>(pc: SubmitPc<R>): nat {
    if pc.SCopied? || pc.SCounted? then 1 else 0
  }

  /** Unless an entry was overwritten too early, the controller has read and will read what was submitted. */
  ghost predicate SqInv<R>(s: State<R>)
    requires WellFormed(s)
  {
    var d, l, F := s.drv, s.log, |s.log.fetched|;
    && |l.accepted| == l.submitted + InSubmit(s.spc)
    && (s.spc.SPushed? ==> s.spc.cmd == l.accepted[l.submitted].cmd)
    && (!l.overrun ==>
          && F <= l.submitted
          && l.submitted + Copied(s.spc) - F <= d.depth
          && (forall i :: 0 <= i < F ==> l.fetched[i] == l.accepted[i].cmd)
          && (forall i :: F <= i < l.submitted + Copied(s.spc) ==> d.sq[Slot(i, d.depth)] == l.accepted[i].cmd))
  }

  lemma SqCopy<R>(s: State<R>)
    requires WellFormed(s) && RingInv(s) && SqInv(s) && Enabled(s, CopyStep)
    ensures WellFormed(Apply(s, CopyStep)) && SqInv(Apply(s, CopyStep))
  {
    var s', S, F, depth := Apply(s, CopyStep), s.log.submitted, |s.log.fetched|, s.drv.depth;
    if !s'.log.overrun {
      forall i | F <= i < S + 1
        ensures s'.drv.sq[Slot(i, depth)] == s'.log.accepted[i].cmd
      {
        if i < S {
          Distinct(i, S, depth);
        }
      }
    }
  }

  lemma SqFetch<R>(s: State<R>)
    requires WellFormed(s) && RingInv(s) && SqInv(s) && Enabled(s, FetchStep)
    ensures WellFormed(Apply(s, FetchStep)) && SqInv(Apply(s, FetchStep))
  {
  }

  /** The steps of SubmitCmd up to the request in the table. */
  lemma SqPush<R>(s: State<R>, step: Step<R>)
    requires WellFormed(s) && RingInv(s) && SqInv(s) && Enabled(s, step)
    requires BeforeDoorbell(step) && !step.CopyStep? && !step.CountStep?
    ensures WellFormed(Apply(s, step)) && SqInv(Apply(s, step))
  {
    var s' := Apply(s, step);
    assert s'.drv.sq == s.drv.sq && s'.drv.depth == s.drv.depth && s.log.accepted <= s'.log.accepted;
    assert s'.log == s.log.(accepted := s'.log.accepted, owner := s'.log.owner, evictions := s'.log.evictions,
                            evicted := s'.log.evicted, notes := s'.log.notes);
  }

  /** And the two that follow the copy. */
  lemma SqRing<R>(s: State<R>, step: Step<R>)
    requires WellFormed(s) && RingInv(s) && SqInv(s) && Enabled(s, step)
    requires step.CountStep? || step.RingStep?
    ensures WellFormed(Apply(s, step)) && SqInv(Apply(s, step))
  {
  }

  /** No other step touches the submission ring. */
  lemma SqQuiet<R>(s: State<R>, step: Step<R>)
    requires WellFormed(s) && SqInv(s) && Enabled(s, step)
    requires OfComplete(step) || step.PostStep? || step.ResetStep?
    ensures WellFormed(Apply(s, step)) && SqInv(Apply(s, step))
  {
    ApplyWellFormed(s, step);
    if step.ResetStep? {
      ResetFrame(s);
    }
    var s' := Apply(s, step);
    assert s'.drv.sq == s.drv.sq && s'.drv.depth == s.drv.depth && s'.spc == s.spc;
    assert s'.log.accepted == s.log.accepted && s'.log.fetched == s.log.fetched;
    assert s'.log.submitted == s.log.submitted && s'.log.overrun == s.log.overrun;
  }

  lemma SqStep<R>(s: State<R>, step: Step<R>)
    requires WellFormed(s) && RingInv(s) && SqInv(s) && Enabled(s, step) && Orderly(s, step)
    ensures WellFormed(Apply(s, step)) && SqInv(Apply(s, step))
  {
    if step.CopyStep? {
      SqCopy(s);
    } else if step.FetchStep? {
      SqFetch(s);
    } else if step.CountStep? || step.RingStep? {
      SqRing(s, step);
    } else if BeforeDoorbell(step) {
      SqPush(s, step);
    } else {
      SqQuiet(s, step);
    }
  }

  /** The throttle keeps unfetched entries from being overwritten as long as there was no reset. */
  ghost predicate OverrunInv<R>(s: State<R>)
    requires WellFormed(s)
  {
    s.log.resets == 0 ==> !s.log.overrun
  }

  lemma OverrunStep<R>(s: State<R>, step: Step<R>)
    requires WellFormed(s) && s.drv.depth >= SAFE_SUBMIT_THRESHOLD && Enabled(s, step)
    requires RingInv(s) && CounterInv(s) && ThrottleInv(s) && OverrunInv(s) && s.log.caught.CIdle?
    ensures WellFormed(Apply(s, step)) && OverrunInv(Apply(s, step))
  {
    ApplyWellFormed(s, step);
  }

  // ---- What the controller answers ----

  ghost predicate PostInv<R>(s: State<R>)
    requires WellFormed(s)
  {
    var l, F, P := s.log, |s.log.fetched|, |s.log.posts|;
    && P == |l.stream|
    && (forall i :: i in s.dev.pending ==> i < F && s.dev.pending[i] == l.fetched[i])
    && (forall k :: 0 <= k < P ==> l.posts[k] < F && l.posts[k] !in s.dev.pending)
    && (forall j, k :: 0 <= j < k < P ==> l.posts[j] != l.posts[k])
    && (forall k :: 0 <= k < P ==> l.stream[k].cid == l.fetched[l.posts[k]].cid)
    && (forall k :: 0 <= k < P && k < l.base ==> l.posts[k] < l.base)
  }

  lemma PostInvPost<R>(s: State<R>, i: nat, status: NvmeStatus)
    requires WellFormed(s) && PostInv(s) && Enabled(s, PostStep(i, status)) && Orderly(s, PostStep(i, status))
    ensures WellFormed(Apply(s, PostStep(i, status))) && PostInv(Apply(s, PostStep(i, status)))
  {
  }

  lemma PostInvFetch<R>(s: State<R>)
    requires WellFormed(s) && PostInv(s) && Enabled(s, FetchStep)
    ensures WellFormed(Apply(s, FetchStep)) && PostInv(Apply(s, FetchStep))
  {
  }

  lemma PostInvReset<R>(s: State<R>)
    requires WellFormed(s) && RingInv(s) && PostInv(s) && Enabled(s, ResetStep) && Orderly(s, ResetStep)
    ensures WellFormed(Apply(s, ResetStep)) && PostInv(Apply(s, ResetStep))
  {
    ApplyWellFormed<R>(s, ResetStep);
  }

  lemma PostInvQuiet<R>(s: State<R>, step: Step<R>)
    requires WellFormed(s) && PostInv(s) && Enabled(s, step)
    requires BeforeDoorbell(step) || step.RingStep? || OfComplete(step)
    ensures WellFormed(Apply(s, step)) && PostInv(Apply(s, step))
  {
    var s' := Apply(s, step);
    assert s'.dev == s.dev && s'.log.fetched == s.log.fetched && s'.log.posts == s.log.posts;
    assert s'.log.stream == s.log.stream && s'.log.base == s.log.base;
  }

  lemma PostInvStep<R>(s: State<R>, step: Step<R>)
    requires WellFormed(s) && RingInv(s) && PostInv(s) && Enabled(s, step) && Orderly(s, step)
    ensures WellFormed(Apply(s, step)) && PostInv(Apply(s, step))
  {
    if step.PostStep? {
      PostInvPost(s, step.command, step.status);
    } else if step.FetchStep? {
      PostInvFetch(s);
    } else if step.ResetStep? {
      PostInvReset(s);
    } else {
      PostInvQuiet(s, step);
    }
  }

  function Below(bound: nat): (numbers: set<nat>)
    ensures |numbers| == bound
    ensures forall n :: n in numbers <==> 0 <= n < bound
  {
    if bound == 0 then {} else Below(bound - 1) + {bound - 1}
  }

  ghost function Elements(numbers: seq<nat>): (elements: set<nat>)
    ensures forall n :: n in elements <==> n in numbers
  {
    if numbers == [] then {} else Elements(numbers[1..]) + {numbers[0]}
  }

  lemma {:induction false} DistinctCount(numbers: seq<nat>)
    requires forall j, k :: 0 <= j < k < |numbers| ==> numbers[j] != numbers[k]
    ensures |Elements(numbers)| == |numbers|
  {
    if numbers != [] {
      DistinctCount(numbers[1..]);
      assert numbers[0] !in numbers[1..];
      assert numbers[0] !in Elements(numbers[1..]);
    }
  }

  lemma {:induction false} SubsetCount(a: set<nat>, b: set<nat>)
    requires a <= b
    ensures |a| <= |b|
    decreases b
  {
    if a != {} {
      var e :| e in a;
      SubsetCount(a - {e}, b - {e});
    }
  }

  /** Different numbers below `bound`: when there are `bound` of them, none is missing. */
  lemma AllBelow(numbers: seq<nat>, bound: nat, n: nat)
    requires |numbers| == bound && n < bound
    requires forall k :: 0 <= k < bound ==> numbers[k] < bound
    requires forall j, k :: 0 <= j < k < bound ==> numbers[j] != numbers[k]
    ensures n in numbers
  {
    DistinctCount(numbers);
    if n !in numbers {
      SubsetCount(Elements(numbers), Below(bound) - {n});
    }
  }

  /** Entries from the position of the last reset on answer commands submitted after it. */
  lemma LateOnes<R>(s: State<R>, k: nat)
    requires WellFormed(s) && PostInv(s)
    requires s.log.base <= k < |s.log.posts|
    ensures s.log.posts[k] >= s.log.base
  {
    var base := s.log.base;
    if s.log.posts[k] < base {
      AllBelow(s.log.posts[..base], base, s.log.posts[k]);
    }
  }

  // ---- The table ----

  /** Tag `c` was not reused while outstanding since the last reset, and no entry was overwritten. */
  ghost predicate CleanTag<R>(s: State<R>, c: nat) {
    c !in s.log.evicted && !s.log.overrun
  }

  /** No tag was. */
  ghost predicate Clean<R>(s: State<R>) {
    s.log.evicted == {} && !s.log.overrun
  }

  /** The first position whose request is still to be taken from the table. */
  function Taken<R>(s: State<R>): nat {
    s.log.consumed + if s.cpc.CPopped? || s.cpc.CNotified? || s.cpc.CCounted? then 1 else 0
  }

  /** Submission `i` was made since the last reset, and its completion is not taken in. */
  ghost predicate Outstanding<R>(s: State<R>, i: nat) {
    && s.log.base <= i < |s.log.accepted|
    && (forall k :: s.log.base <= k < Taken(s) && k < |s.log.posts| ==> s.log.posts[k] != i)
  }

  /** Slot `c` names the outstanding submission with that tag, and holds its request. */
  ghost predicate OwnerRight<R>(s: State<R>, c: nat)
    requires WellFormed(s) && c < |s.drv.history|
  {
    match s.log.owner[c]
    case None => s.drv.history[c].None?
    case Some(i) =>
      && Outstanding(s, i)
      && s.log.accepted[i].cmd.cid == c
      && s.drv.history[c] == Some(s.log.accepted[i].req)
  }

  /** Outstanding submission `i` is in the slot of its tag. */
  ghost predicate InItsSlot<R>(s: State<R>, i: nat)
    requires WellFormed(s) && i < |s.log.accepted|
  {
    var cid := s.log.accepted[i].cmd.cid;
    cid < |s.drv.history| && s.log.owner[cid] == Some(i)
  }

  /** Tag by tag: the occupied slots are the outstanding submissions, one for one. */
  ghost predicate TableInv<R>(s: State<R>)
    requires WellFormed(s)
  {
    && (forall c: nat :: c < |s.drv.history| && CleanTag(s, c) ==> OwnerRight(s, c))
    && (forall i: nat :: Outstanding(s, i) && CleanTag(s, s.log.accepted[i].cmd.cid) ==> InItsSlot(s, i))
  }

  /** What CompleteCmd took out belongs to the entry it is working on, and it always found something. */
  ghost predicate DeliveryInv<R>(s: State<R>)
    requires WellFormed(s)
  {
    var l := s.log;
    && |l.posts| == |l.stream|
    && (Clean(s) ==> l.misses == 0)
    && (s.cpc.CPopped? && CleanTag(s, s.cpc.cpl.cid) ==>
          && l.consumed < |l.posts| && l.posts[l.consumed] < |l.accepted|
          && s.cpc.cpl == l.stream[l.consumed]
          && s.cpc.found == Some(l.accepted[l.posts[l.consumed]].req))
    && (forall j :: 0 <= j < |l.deliveries| && Judged(s, l.deliveries[j]) ==> Attributed(l, l.deliveries[j]))
  }

  /** Made since the last reset, under a tag that has been clean since. */
  ghost predicate Judged<R>(s: State<R>, delivery: Delivery<R>) {
    s.log.base <= delivery.position && CleanTag(s, delivery.cpl.cid)
  }

  /** The delivered entry is the one posted at its position, and answers a command of that very request. */
  ghost predicate Attributed<R>(l: Log<R>, delivery: Delivery<R>) {
    && delivery.position < |l.stream| == |l.posts|
    && l.posts[delivery.position] < |l.accepted|
    && delivery.cpl == l.stream[delivery.position]
    && delivery.req == l.accepted[l.posts[delivery.position]].req
    && delivery.cpl.cid == l.accepted[l.posts[delivery.position]].cmd.cid
  }

  /** The entry at the head answers an outstanding submission, whose request is in the slot it names. */
  lemma HeadOwner<R>(s: State<R>)
    requires WellFormed(s) && RingInv(s) && SqInv(s) && PostInv(s) && TableInv(s)
    requires s.log.consumed < |s.log.stream| && Taken(s) == s.log.consumed
    requires CleanTag(s, s.log.stream[s.log.consumed].cid)
    ensures var i, cid := s.log.posts[s.log.consumed], s.log.stream[s.log.consumed].cid;
            && i < |s.log.accepted|
            && Outstanding(s, i)
            && cid == s.log.accepted[i].cmd.cid
            && cid < |s.drv.history|
            && s.log.owner[cid] == Some(i)
            && s.drv.history[cid] == Some(s.log.accepted[i].req)
  {
    LateOnes(s, s.log.consumed);
    assert Outstanding(s, s.log.posts[s.log.consumed]);
    assert InItsSlot(s, s.log.posts[s.log.consumed]);
    assert OwnerRight(s, s.log.stream[s.log.consumed].cid);
  }

  /** Slots, owners and clean tags as they were, or fewer of them: what is outstanding decides. */
  lemma TableFrame<R>(s: State<R>, s': State<R>)
    requires WellFormed(s) && WellFormed(s') && TableInv(s)
    requires s'.drv.history == s.drv.history && s'.log.owner == s.log.owner
    requires s'.log.accepted == s.log.accepted && s'.log.base == s.log.base
    requires s.log.posts <= s'.log.posts
    requires s.log.evicted <= s'.log.evicted && (s.log.overrun ==> s'.log.overrun)
    requires Taken(s') == Taken(s) <= |s.log.posts| || Taken(s') == Taken(s) == s.log.base
    ensures TableInv(s')
  {
    assert forall i: nat :: Outstanding(s', i) <==> Outstanding(s, i);
    forall c: nat | c < |s'.drv.history| && CleanTag(s', c)
      ensures OwnerRight(s', c)
    {
      assert CleanTag(s, c) && OwnerRight(s, c);
    }
    forall i: nat | Outstanding(s', i) && CleanTag(s', s'.log.accepted[i].cmd.cid)
      ensures InItsSlot(s', i)
    {
      assert CleanTag(s, s.log.accepted[i].cmd.cid) && InItsSlot(s, i);
    }
  }

  /** A push that fills its slot: the new submission becomes outstanding, and nothing else changes. */
  ghost predicate Fills<R>(s: State<R>, step: Step<R>)
    requires WellFormed(s) && Enabled(s, step)
  {
    (step.PushStep? || step.RepushStep?) && Apply(s, step).spc.SPushed?
  }

  lemma PushOutstanding<R>(s: State<R>, step: Step<R>, i: nat)
    requires WellFormed(s) && RingInv(s) && SqInv(s) && PostInv(s) && Enabled(s, step) && Fills(s, step)
    ensures Outstanding(Apply(s, step), i) <==> Outstanding(s, i) || i == s.log.submitted
  {
  }

  lemma PushSlot<R>(s: State<R>, step: Step<R>)
    requires WellFormed(s) && ReplaceInv(s) && Enabled(s, step) && Fills(s, step)
    ensures var cid, s' := s.spc.cmd.cid, Apply(s, step);
            && cid < |s.drv.history| && s.drv.history[cid].None?
            && s'.drv.history == s.drv.history[cid := Some(s.spc.req)]
            && s'.log.owner == s.log.owner[cid := Some(s.log.submitted)]
            && s'.log.evicted == s.log.evicted && s'.log.overrun == s.log.overrun
            && s'.log.accepted == s.log.accepted + [Accepted(s.spc.req, s.spc.cmd)]
  {
  }

  lemma TablePushOwner<R>(s: State<R>, step: Step<R>, c: nat)
    requires WellFormed(s) && RingInv(s) && SqInv(s) && PostInv(s) && TableInv(s) && ReplaceInv(s)
    requires Enabled(s, step) && Fills(s, step) && c < |s.drv.history| && CleanTag(s, c)
    requires WellFormed(Apply(s, step))
    ensures OwnerRight(Apply(s, step), c)
  {
    PushSlot(s, step);
    assert OwnerRight(s, c);
    PushOutstanding(s, step,
                    if c == s.spc.cmd.cid || s.log.owner[c].None? then s.log.submitted else s.log.owner[c].value);
  }

  lemma TablePushSlot<R>(s: State<R>, step: Step<R>, i: nat)
    requires WellFormed(s) && RingInv(s) && SqInv(s) && PostInv(s) && TableInv(s) && ReplaceInv(s)
    requires Enabled(s, step) && Fills(s, step) && WellFormed(Apply(s, step))
    requires Outstanding(Apply(s, step), i) && CleanTag(s, Apply(s, step).log.accepted[i].cmd.cid)
    ensures InItsSlot(Apply(s, step), i)
  {
    PushSlot(s, step);
    PushOutstanding(s, step, i);
    if i != s.log.submitted {
      assert InItsSlot(s, i);
      assert OwnerRight(s, s.log.accepted[i].cmd.cid);
    }
  }

  lemma TablePush<R>(s: State<R>, step: Step<R>)
    requires WellFormed(s) && RingInv(s) && SqInv(s) && PostInv(s) && TableInv(s) && ReplaceInv(s)
    requires Enabled(s, step) && Fills(s, step)
    ensures WellFormed(Apply(s, step)) && TableInv(Apply(s, step))
  {
    ApplyWellFormed(s, step);
    PushSlot(s, step);
    var s' := Apply(s, step);
    forall c: nat | c < |s'.drv.history| && CleanTag(s', c)
      ensures OwnerRight(s', c)
    {
      TablePushOwner(s, step, c);
    }
    forall i: nat | Outstanding(s', i) && CleanTag(s', s'.log.accepted[i].cmd.cid)
      ensures InItsSlot(s', i)
    {
      TablePushSlot(s, step, i);
    }
  }

  /** The tag of an evicted request is not clean any more; the other slots are as they were. */
  lemma TableEvict<R>(s: State<R>)
    requires WellFormed(s) && RingInv(s) && TableInv(s) && TagsInRange(s)
    requires Enabled(s, EvictStep) && Apply(s, EvictStep).spc.SEvicted?
    ensures WellFormed(Apply(s, EvictStep)) && TableInv(Apply(s, EvictStep))
  {
    var s' := Apply(s, EvictStep);
    assert forall i: nat :: Outstanding(s', i) <==> Outstanding(s, i);
    forall c: nat | c < |s'.drv.history| && CleanTag(s', c)
      ensures OwnerRight(s', c)
    {
      assert CleanTag(s, c) && OwnerRight(s, c);
    }
    forall i: nat | Outstanding(s', i) && CleanTag(s', s'.log.accepted[i].cmd.cid)
      ensures InItsSlot(s', i)
    {
      assert CleanTag(s, s.log.accepted[i].cmd.cid) && InItsSlot(s, i);
    }
  }

  /** The command an entry answers has the tag of the entry. */
  lemma EntryTag<R>(s: State<R>, k: nat)
    requires WellFormed(s) && SqInv(s) && PostInv(s) && !s.log.overrun && k < |s.log.stream|
    ensures s.log.posts[k] < |s.log.accepted|
    ensures s.log.stream[k].cid == s.log.accepted[s.log.posts[k]].cmd.cid
  {
  }

  lemma PopOutstanding<R>(s: State<R>, i: nat)
    requires WellFormed(s) && RingInv(s) && PostInv(s) && SeenInv(s) && Enabled(s, PopStep)
    ensures s.log.consumed < |s.log.posts|
    ensures Outstanding(Apply(s, PopStep), i) <==> Outstanding(s, i) && i != s.log.posts[s.log.consumed]
  {
  }

  lemma TablePopOwner<R>(s: State<R>, c: nat)
    requires WellFormed(s) && RingInv(s) && SqInv(s) && PostInv(s) && SeenInv(s) && TableInv(s)
    requires Enabled(s, PopStep) && WellFormed(Apply(s, PopStep)) && c < |s.drv.history| && CleanTag(s, c)
    ensures OwnerRight(Apply(s, PopStep), c)
  {
    EntryTag(s, s.log.consumed);
    assert OwnerRight(s, c);
    if c == s.cpc.cpl.cid {
      HeadOwner(s);
    } else if s.log.owner[c].Some? {
      PopOutstanding(s, s.log.owner[c].value);
    }
  }

  lemma TablePopSlot<R>(s: State<R>, i: nat)
    requires WellFormed(s) && RingInv(s) && SqInv(s) && PostInv(s) && SeenInv(s) && TableInv(s)
    requires Enabled(s, PopStep) && WellFormed(Apply(s, PopStep))
    requires Outstanding(Apply(s, PopStep), i) && CleanTag(s, s.log.accepted[i].cmd.cid)
    ensures InItsSlot(Apply(s, PopStep), i)
  {
    PopOutstanding(s, i);
    assert InItsSlot(s, i);
    if s.log.accepted[i].cmd.cid == s.cpc.cpl.cid {
      HeadOwner(s);
    }
  }

  lemma TablePop<R>(s: State<R>)
    requires WellFormed(s) && RingInv(s) && SqInv(s) && PostInv(s) && SeenInv(s) && TableInv(s) && Enabled(s, PopStep)
    ensures WellFormed(Apply(s, PopStep)) && TableInv(Apply(s, PopStep))
  {
    ApplyWellFormed<R>(s, PopStep);
    var s' := Apply(s, PopStep);
    forall c: nat | c < |s'.drv.history| && CleanTag(s', c)
      ensures OwnerRight(s', c)
    {
      TablePopOwner(s, c);
    }
    forall i: nat | Outstanding(s', i) && CleanTag(s', s'.log.accepted[i].cmd.cid)
      ensures InItsSlot(s', i)
    {
      TablePopSlot(s, i);
    }
  }

  lemma TableReset<R>(s: State<R>)
    requires WellFormed(s) && SqInv(s) && Enabled(s, ResetStep) && Orderly(s, ResetStep)
    ensures WellFormed(Apply(s, ResetStep)) && TableInv(Apply(s, ResetStep))
  {
    ApplyWellFormed<R>(s, ResetStep);
    ResetFrame(s);
  }

  /** Every other step leaves the table and what is outstanding as they are. */
  lemma TableSubmitQuiet<R>(s: State<R>, step: Step<R>)
    requires WellFormed(s) && RingInv(s) && PostInv(s) && TableInv(s) && Enabled(s, step)
    requires BeforeDoorbell(step) || step.RingStep? || OfController(step)
    requires !Fills(s, step) && !(step.EvictStep? && Apply(s, step).spc.SEvicted?)
    ensures WellFormed(Apply(s, step)) && TableInv(Apply(s, step))
  {
    ApplyWellFormed(s, step);
    TableFrame(s, Apply(s, step));
  }

  lemma TableCompleteQuiet<R>(s: State<R>, step: Step<R>)
    requires WellFormed(s) && RingInv(s) && PostInv(s) && TableInv(s) && Enabled(s, step)
    requires OfComplete(step) && !step.PopStep?
    ensures WellFormed(Apply(s, step)) && TableInv(Apply(s, step))
  {
    ApplyWellFormed(s, step);
    TableFrame(s, Apply(s, step));
  }

  lemma TableStep<R>(s: State<R>, step: Step<R>)
    requires WellFormed(s) && RingInv(s) && SqInv(s) && PostInv(s) && SeenInv(s)
    requires TableInv(s) && ReplaceInv(s) && TagsInRange(s) && Enabled(s, step) && Orderly(s, step)
    ensures WellFormed(Apply(s, step)) && TableInv(Apply(s, step))
  {
    if step.ResetStep? {
      TableReset(s);
    } else if step.PopStep? {
      TablePop(s);
    } else if Fills(s, step) {
      TablePush(s, step);
    } else if step.EvictStep? && Apply(s, step).spc.SEvicted? {
      TableEvict(s);
    } else if OfComplete(step) {
      TableCompleteQuiet(s, step);
    } else {
      TableSubmitQuiet(s, step);
    }
  }

  lemma DeliveryPop<R>(s: State<R>)
    requires WellFormed(s) && RingInv(s) && SqInv(s) && PostInv(s) && SeenInv(s) && TableInv(s)
    requires DeliveryInv(s) && Enabled(s, PopStep)
    ensures WellFormed(Apply(s, PopStep)) && DeliveryInv(Apply(s, PopStep))
  {
    if CleanTag(s, s.cpc.cpl.cid) {
      HeadOwner(s);
    }
    DeliveriesKept(s, Apply(s, PopStep));
  }

  lemma DeliveryNotify<R>(s: State<R>)
    requires WellFormed(s) && RingInv(s) && SqInv(s) && PostInv(s) && DeliveryInv(s) && Enabled(s, NotifyStep)
    ensures WellFormed(Apply(s, NotifyStep)) && DeliveryInv(Apply(s, NotifyStep))
  {
    var l, delivery := s.log, Delivery(s.cpc.found.value, s.cpc.cpl, s.log.consumed);
    var s' := Apply(s, NotifyStep);
    if CleanTag(s, s.cpc.cpl.cid) {
      EntryTag(s, l.consumed);
      assert Attributed(l, delivery);
    }
    forall j | 0 <= j < |s'.log.deliveries| && Judged(s', s'.log.deliveries[j])
      ensures Attributed(s'.log, s'.log.deliveries[j])
    {
      if j < |l.deliveries| {
        assert Judged(s, l.deliveries[j]);
        AttributedStays(l, s'.log, l.deliveries[j]);
      } else {
        AttributedStays(l, s'.log, delivery);
      }
    }
  }

  /** What was delivered stays right as the logs grow. */
  lemma AttributedStays<R>(l: Log<R>, l': Log<R>, delivery: Delivery<R>)
    requires Attributed(l, delivery) && |l'.stream| == |l'.posts|
    requires l.posts <= l'.posts && l.stream <= l'.stream && l.accepted <= l'.accepted
    ensures Attributed(l', delivery)
  {
  }

  /** With the same deliveries, longer logs and no more clean tags, the deliveries stay right. */
  lemma DeliveriesKept<R>(s: State<R>, s': State<R>)
    requires WellFormed(s) && DeliveryInv(s) && |s'.log.stream| == |s'.log.posts|
    requires s'.log.deliveries == s.log.deliveries && s'.log.base == s.log.base
    requires s.log.evicted <= s'.log.evicted && (s.log.overrun ==> s'.log.overrun)
    requires s.log.posts <= s'.log.posts && s.log.stream <= s'.log.stream && s.log.accepted <= s'.log.accepted
    ensures forall j :: 0 <= j < |s'.log.deliveries| && Judged(s', s'.log.deliveries[j]) ==>
              Attributed(s'.log, s'.log.deliveries[j])
  {
    forall j | 0 <= j < |s'.log.deliveries| && Judged(s', s'.log.deliveries[j])
      ensures Attributed(s'.log, s'.log.deliveries[j])
    {
      assert Judged(s, s.log.deliveries[j]);
      AttributedStays(s.log, s'.log, s.log.deliveries[j]);
    }
  }

  /** What a step that delivers nothing leaves of the invariant, as long as CompleteCmd is not at a popped entry. */
  lemma DeliveryFrame<R>(s: State<R>, s': State<R>)
    requires WellFormed(s) && WellFormed(s') && DeliveryInv(s) && |s'.log.stream| == |s'.log.posts|
    requires s'.log.deliveries == s.log.deliveries && s'.log.base == s.log.base
    requires s.log.evicted <= s'.log.evicted && (s.log.overrun ==> s'.log.overrun)
    requires s.log.posts <= s'.log.posts && s.log.stream <= s'.log.stream && s.log.accepted <= s'.log.accepted
    requires Clean(s') ==> s'.log.misses == s.log.misses
    requires s'.cpc.CPopped? ==> s'.cpc == s.cpc && s'.log.consumed == s.log.consumed
    ensures DeliveryInv(s')
  {
    DeliveriesKept(s, s');
    if s'.cpc.CPopped? && CleanTag(s', s'.cpc.cpl.cid) {
      assert CleanTag(s, s.cpc.cpl.cid);
    }
  }

  /** Steps of SubmitCmd and of the controller: the logs only grow. */
  lemma DeliveryOther<R>(s: State<R>, step: Step<R>)
    requires WellFormed(s) && DeliveryInv(s) && Enabled(s, step)
    requires BeforeDoorbell(step) || step.RingStep? || OfController(step)
    ensures WellFormed(Apply(s, step)) && DeliveryInv(Apply(s, step))
  {
    ApplyWellFormed(s, step);
    DeliveryFrame(s, Apply(s, step));
  }

  /** Steps of CompleteCmd that deliver nothing: the logs stay, and an entry that found nothing would be a miss. */
  lemma DeliveryQuiet<R>(s: State<R>, step: Step<R>)
    requires WellFormed(s) && DeliveryInv(s) && Enabled(s, step)
    requires OfComplete(step) && !step.PopStep? && !step.NotifyStep?
    ensures WellFormed(Apply(s, step)) && DeliveryInv(Apply(s, step))
  {
    ApplyWellFormed(s, step);
    DeliveryFrame(s, Apply(s, step));
  }

  /** Deliveries were made at positions the head has reached. */
  ghost predicate PositionInv<R>(s: State<R>)
    requires WellFormed(s)
  {
    && (forall j :: 0 <= j < |s.log.deliveries| ==> s.log.deliveries[j].position < Taken(s))
  }

  lemma PositionStep<R>(s: State<R>, step: Step<R>)
    requires WellFormed(s) && RingInv(s) && PositionInv(s) && Enabled(s, step) && Orderly(s, step)
    ensures WellFormed(Apply(s, step)) && PositionInv(Apply(s, step))
  {
    ApplyWellFormed(s, step);
  }

  /** Position `k` was delivered: the request of the command it answers got the entry. */
  ghost predicate Delivered<R>(l: Log<R>, k: nat) {
    && k < |l.stream| && k < |l.posts| && l.posts[k] < |l.accepted|
    && Delivery(l.accepted[l.posts[k]].req, l.stream[k], k) in l.deliveries
  }

  /** The first position that is not delivered yet. */
  function Undelivered<R>(s: State<R>): nat {
    s.log.consumed + if s.cpc.CNotified? || s.cpc.CCounted? then 1 else 0
  }

  /** Every consumed entry with a clean tag was delivered. */
  ghost predicate DeliveredInv<R>(s: State<R>)
    requires WellFormed(s)
  {
    forall k :: s.log.base <= k < Undelivered(s) && k < |s.log.stream| && CleanTag(s, s.log.stream[k].cid) ==>
      Delivered(s.log, k)
  }

  lemma DeliveredFrame<R>(s: State<R>, s': State<R>)
    requires WellFormed(s) && WellFormed(s') && DeliveredInv(s)
    requires s'.log.base == s.log.base && s.log.evicted <= s'.log.evicted && (s.log.overrun ==> s'.log.overrun)
    requires s.log.posts <= s'.log.posts && s.log.stream <= s'.log.stream && s.log.accepted <= s'.log.accepted
    requires s.log.deliveries <= s'.log.deliveries
    requires Undelivered(s') == Undelivered(s) && (Undelivered(s) <= |s.log.stream| || Undelivered(s) == s.log.base)
    ensures DeliveredInv(s')
  {
    forall k | s'.log.base <= k < Undelivered(s') && k < |s'.log.stream| && CleanTag(s', s'.log.stream[k].cid)
      ensures Delivered(s'.log, k)
    {
      assert CleanTag(s, s.log.stream[k].cid) && Delivered(s.log, k);
    }
  }

  lemma DeliveredNotify<R>(s: State<R>)
    requires WellFormed(s) && RingInv(s) && DeliveryInv(s) && DeliveredInv(s) && SeenInv(s) && Enabled(s, NotifyStep)
    ensures WellFormed(Apply(s, NotifyStep)) && DeliveredInv(Apply(s, NotifyStep))
  {
    var s' := Apply(s, NotifyStep);
    forall k | s'.log.base <= k < Undelivered(s') && k < |s'.log.stream| && CleanTag(s', s'.log.stream[k].cid)
      ensures Delivered(s'.log, k)
    {
      if k < s.log.consumed {
        assert CleanTag(s, s.log.stream[k].cid) && Delivered(s.log, k);
      } else {
        assert s'.log.deliveries[|s.log.deliveries|] == Delivery(s.cpc.found.value, s.cpc.cpl, k);
      }
    }
  }

  lemma DeliveredAdvance<R>(s: State<R>)
    requires WellFormed(s) && RingInv(s) && DeliveryInv(s) && DeliveredInv(s) && SeenInv(s) && Enabled(s, AdvanceStep)
    ensures WellFormed(Apply(s, AdvanceStep)) && DeliveredInv(Apply(s, AdvanceStep))
  {
    var s' := Apply(s, AdvanceStep);
    forall k | s'.log.base <= k < Undelivered(s') && k < |s'.log.stream| && CleanTag(s', s'.log.stream[k].cid)
      ensures Delivered(s'.log, k)
    {
      assert CleanTag(s, s.log.stream[k].cid) && Delivered(s.log, k);
    }
  }

  lemma DeliveredComplete<R>(s: State<R>, step: Step<R>)
    requires WellFormed(s) && RingInv(s) && DeliveredInv(s) && Enabled(s, step)
    requires OfComplete(step) && !step.NotifyStep? && !step.AdvanceStep?
    ensures WellFormed(Apply(s, step)) && DeliveredInv(Apply(s, step))
  {
    ApplyWellFormed(s, step);
    DeliveredFrame(s, Apply(s, step));
  }

  lemma DeliveredSubmit<R>(s: State<R>, step: Step<R>)
    requires WellFormed(s) && RingInv(s) && DeliveredInv(s) && Enabled(s, step)
    requires BeforeDoorbell(step) || step.RingStep?
    ensures WellFormed(Apply(s, step)) && DeliveredInv(Apply(s, step))
  {
    ApplyWellFormed(s, step);
    DeliveredFrame(s, Apply(s, step));
  }

  lemma DeliveredController<R>(s: State<R>, step: Step<R>)
    requires WellFormed(s) && RingInv(s) && PostInv(s) && DeliveredInv(s) && Enabled(s, step) && OfController(step)
    ensures WellFormed(Apply(s, step)) && DeliveredInv(Apply(s, step))
  {
    ApplyWellFormed(s, step);
    DeliveredFrame(s, Apply(s, step));
  }

  lemma DeliveredReset<R>(s: State<R>)
    requires WellFormed(s) && Enabled(s, ResetStep) && Orderly(s, ResetStep)
    ensures WellFormed(Apply(s, ResetStep)) && DeliveredInv(Apply(s, ResetStep))
  {
    ApplyWellFormed<R>(s, ResetStep);
  }

  lemma DeliveredStep<R>(s: State<R>, step: Step<R>)
    requires WellFormed(s) && RingInv(s) && PostInv(s) && SeenInv(s) && DeliveryInv(s) && DeliveredInv(s)
    requires Enabled(s, step) && Orderly(s, step)
    ensures WellFormed(Apply(s, step)) && DeliveredInv(Apply(s, step))
  {
    if step.NotifyStep? {
      DeliveredNotify(s);
    } else if step.AdvanceStep? {
      DeliveredAdvance(s);
    } else if step.ResetStep? {
      DeliveredReset(s);
    } else if OfComplete(step) {
      DeliveredComplete(s, step);
    } else if OfController(step) {
      DeliveredController(s, step);
    } else {
      DeliveredSubmit(s, step);
    }
  }

  lemma DeliveryReset<R>(s: State<R>)
    requires WellFormed(s) && RingInv(s) && DeliveryInv(s) && PositionInv(s) && Enabled(s, ResetStep)
    requires Orderly(s, ResetStep)
    ensures WellFormed(Apply(s, ResetStep)) && DeliveryInv(Apply(s, ResetStep))
  {
    ApplyWellFormed<R>(s, ResetStep);
    ResetFrame(s);
  }

  lemma DeliveryStep<R>(s: State<R>, step: Step<R>)
    requires WellFormed(s) && RingInv(s) && SqInv(s) && PostInv(s) && SeenInv(s)
    requires TableInv(s) && DeliveryInv(s) && PositionInv(s) && Enabled(s, step) && Orderly(s, step)
    ensures WellFormed(Apply(s, step)) && DeliveryInv(Apply(s, step))
  {
    if step.PopStep? {
      DeliveryPop(s);
    } else if step.NotifyStep? {
      DeliveryNotify(s);
    } else if step.ResetStep? {
      DeliveryReset(s);
    } else if OfComplete(step) {
      DeliveryQuiet(s, step);
    } else {
      DeliveryOther(s, step);
    }
  }

  lemma TableInit<R>(s: State<R>)
    requires Init(s)
    ensures WellFormed(s) && SqInv(s) && OverrunInv(s) && PostInv(s) && TableInv(s) && DeliveryInv(s) && PositionInv(s)
    ensures DeliveredInv(s)
  {
  }
}
