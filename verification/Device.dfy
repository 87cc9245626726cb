/** CNvmeDevice: its queues, how they are registered, and how an I/O command finds one. */
module NvmeDevices {
  import opened NvmeTypes
  import opened NvmeQueueObjects
  import opened Controllers
  import Model = QueueModel

  const MAX_IO_QUEUE_COUNT: nat := 64
  const MAX_IO_PER_LU: nat := 512
  const SUPPORT_NAMESPACES: nat := 4

  const OPC_CREATE_IO_SQ: uint8 := 0x01
  const OPC_CREATE_IO_CQ: uint8 := 0x05
  const PRIORITY_HIGH: nat := 1
  const PHYSICALLY_CONTIGUOUS: nat := 1
  const INTERRUPTS_ENABLED: nat := 2

  datatype DeviceState = Stop | Running | SetupState | TeardownState | ResetBus | Shutdown

  // ---- Create I/O queue commands ----

  function LowWord(dword: uint32): uint16 {
    dword % 0x1_0000
  }

  function HighWord(dword: uint32): uint16 {
    dword / 0x1_0000
  }

  function Dword(low: uint16, high: uint16): (dword: uint32)
    ensures LowWord(dword) == low && HighWord(dword) == high
  {
    low + 0x1_0000 * high
  }

  /** The interrupt vector of a completion queue. */
  function CplVector(q: NvmeQueue): uint16 {
    if q.isAdmin then 0 else q.queueID
  }

  /** A Create I/O Completion Queue command for the pair `q` (NVMe 1.3, section 5.3). */
  predicate CreatesCplQueue(cmd: Command, q: NvmeQueue) {
    && cmd.opc == OPC_CREATE_IO_CQ
    && cmd.prp1 == q.cplQPa
    && LowWord(cmd.cdw10) == q.queueID && HighWord(cmd.cdw10) + 1 == q.depth
    && LowWord(cmd.cdw11) == PHYSICALLY_CONTIGUOUS + INTERRUPTS_ENABLED
    && HighWord(cmd.cdw11) == CplVector(q)
  }

  /** A Create I/O Submission Queue command for the pair `q`, completing to the CQ of the same pair (section 5.4). */
  predicate CreatesSubQueue(cmd: Command, q: NvmeQueue) {
    && cmd.opc == OPC_CREATE_IO_SQ
    && cmd.prp1 == q.subQPa
    && LowWord(cmd.cdw10) == q.queueID && HighWord(cmd.cdw10) + 1 == q.depth
    && LowWord(cmd.cdw11) == PHYSICALLY_CONTIGUOUS + 2 * PRIORITY_HIGH
    && HighWord(cmd.cdw11) == q.queueID
  }

  method BuildCmdRegIoCplQ(srbext: SrbExt, queue: NvmeQueue)
    requires 0 < queue.depth
    modifies srbext`nvmeCmd
    ensures CreatesCplQueue(srbext.nvmeCmd, queue)
    ensures srbext.nvmeCmd.cid == if srbext.srb.None? then LowWord(0) else LowWord(srbext.srb.value.tag)
  {
    srbext.nvmeCmd := ZERO_COMMAND;
    srbext.nvmeCmd := srbext.nvmeCmd.(opc := OPC_CREATE_IO_CQ, cid := LowWord(srbext.ScsiQTag()));
    srbext.nvmeCmd := srbext.nvmeCmd.(prp1 := queue.cplQPa);
    srbext.nvmeCmd := srbext.nvmeCmd.(cdw10 := Dword(queue.queueID, queue.depth - 1));
    srbext.nvmeCmd := srbext.nvmeCmd.(cdw11 := Dword(PHYSICALLY_CONTIGUOUS + INTERRUPTS_ENABLED, CplVector(queue)));
  }

  method BuildCmdRegIoSubQ(srbext: SrbExt, queue: NvmeQueue)
    requires 0 < queue.depth
    modifies srbext`nvmeCmd
    ensures CreatesSubQueue(srbext.nvmeCmd, queue)
    ensures srbext.nvmeCmd.cid == if srbext.srb.None? then LowWord(0) else LowWord(srbext.srb.value.tag)
  {
    srbext.nvmeCmd := ZERO_COMMAND;
    srbext.nvmeCmd := srbext.nvmeCmd.(opc := OPC_CREATE_IO_SQ, cid := LowWord(srbext.ScsiQTag()));
    srbext.nvmeCmd := srbext.nvmeCmd.(prp1 := queue.subQPa);
    srbext.nvmeCmd := srbext.nvmeCmd.(cdw10 := Dword(queue.queueID, queue.depth - 1));
    srbext.nvmeCmd := srbext.nvmeCmd.(cdw11 := Dword(PHYSICALLY_CONTIGUOUS + 2 * PRIORITY_HIGH, queue.queueID));
  }

  /**
    The admin queue as the registration sees it: the `n`-th command is taken or not, and when it is, the
    driver waits until its status is no longer pending.
   */
  class AdminPath {
    const accept: nat -> NtStatus
    const answer: nat -> SrbStatus
    var attempts: nat
    var issued: seq<(Command, SrbStatus)>

    constructor (accept: nat -> NtStatus, answer: nat -> SrbStatus)
      ensures this.accept == accept && this.answer == answer && attempts == 0 && issued == []
    {
      this.accept, this.answer, attempts, issued := accept, answer, 0, [];
    }

    method Issue(srbext: SrbExt) returns (status: NtStatus)
      modifies this, srbext`srbStatus
      ensures status == accept(old(attempts)) && attempts == old(attempts) + 1
      ensures status != StatusSuccess ==> issued == old(issued)
      ensures status == StatusSuccess ==>
                && srbext.srbStatus == answer(old(attempts))
                && issued == old(issued) + [(srbext.nvmeCmd, srbext.srbStatus)]
    {
      status := accept(attempts);
      if status == StatusSuccess {
        srbext.srbStatus := answer(attempts);
        issued := issued + [(srbext.nvmeCmd, srbext.srbStatus)];
      }
      attempts := attempts + 1;
    }
  }

  /** The admin queue takes the command of attempt `attempt`, and the controller carries it out. */
  predicate Acknowledged(admin: AdminPath, attempt: nat) {
    admin.accept(attempt) == StatusSuccess && admin.answer(attempt) == SrbSuccess
  }

  predicate PairAcknowledged(admin: AdminPath, attempt: nat) {
    Acknowledged(admin, attempt) && Acknowledged(admin, attempt + 1)
  }

  /** The status of the registration of a pair: only what the admin queue does not take is reported. */
  function PairStatus(admin: AdminPath, attempt: nat): NtStatus {
    if admin.accept(attempt) != StatusSuccess then StatusRequestAborted
    else if admin.answer(attempt) != SrbSuccess then StatusSuccess
    else if admin.accept(attempt + 1) != StatusSuccess then StatusRequestAborted
    else StatusSuccess
  }

  /** The commands of a pair the admin queue takes: the second is only tried when the first is acknowledged. */
  function PairIssued(admin: AdminPath, attempt: nat): nat {
    if admin.accept(attempt) != StatusSuccess then 0
    else if admin.answer(attempt) != SrbSuccess || admin.accept(attempt + 1) != StatusSuccess then 1
    else 2
  }

  /** How many of `n` pairs, tried in turn from `attempt` on, come before the first that is not acknowledged. */
  function AcknowledgedPairs(admin: AdminPath, attempt: nat, n: nat): (k: nat)
    ensures k <= n
    decreases n
  {
    if n == 0 || !PairAcknowledged(admin, attempt) then 0 else 1 + AcknowledgedPairs(admin, attempt + 2, n - 1)
  }

  lemma {:induction false} FirstPairs(admin: AdminPath, attempt: nat, n: nat)
    ensures var k := AcknowledgedPairs(admin, attempt, n);
            && (forall i :: 0 <= i < k ==> PairAcknowledged(admin, attempt + 2 * i))
            && (k < n ==> !PairAcknowledged(admin, attempt + 2 * k))
    decreases n
  {
    if n > 0 && PairAcknowledged(admin, attempt) {
      FirstPairs(admin, attempt + 2, n - 1);
      forall i | 0 <= i < AcknowledgedPairs(admin, attempt, n)
        ensures PairAcknowledged(admin, attempt + 2 * i)
      {
        if i > 0 {
          assert PairAcknowledged(admin, attempt + 2 + 2 * (i - 1));
        }
      }
    }
  }

  /** When every one of the pairs is acknowledged, all of them are counted. */
  lemma {:induction false} AllPairs(admin: AdminPath, attempt: nat, n: nat)
    requires forall i :: 0 <= i < n ==> PairAcknowledged(admin, attempt + 2 * i)
    ensures AcknowledgedPairs(admin, attempt, n) == n
    decreases n
  {
    if n > 0 {
      assert PairAcknowledged(admin, attempt + 2 * 0);
      forall i | 0 <= i < n - 1
        ensures PairAcknowledged(admin, attempt + 2 + 2 * i)
      {
        assert PairAcknowledged(admin, attempt + 2 * (i + 1));
      }
      AllPairs(admin, attempt + 2, n - 1);
    }
  }

  /** The status of the loop in RegisterIoQueues. */
  function PairsStatus(admin: AdminPath, attempt: nat, n: nat): NtStatus
    decreases n
  {
    if n == 0 then StatusSuccess
    else if PairAcknowledged(admin, attempt) then PairsStatus(admin, attempt + 2, n - 1)
    else PairStatus(admin, attempt)
  }

  /** Entries `at` and `at + 1` are the acknowledged Create-CQ and Create-SQ commands of `q`. */
  predicate PairRegistered(issued: seq<(Command, SrbStatus)>, at: nat, q: NvmeQueue) {
    && at + 1 < |issued|
    && CreatesCplQueue(issued[at].0, q) && issued[at].1 == SrbSuccess
    && CreatesSubQueue(issued[at + 1].0, q) && issued[at + 1].1 == SrbSuccess
  }

  /**
    The pair with identifier `id` was announced at the two addresses: opcode 5 for the ring of completions at `pa.1`, in
    contiguous memory, with interrupts on vector `id`; opcode 1 for the ring of commands at `pa.0`, in
    contiguous memory, with high priority, completing to queue `id`.
   */
  predicate Announced(issued: seq<(Command, SrbStatus)>, at: nat, id: nat, depth: nat, pa: (nat, nat)) {
    && at + 1 < |issued|
    && var (cpl, sub) := (issued[at].0, issued[at + 1].0);
       && cpl.opc == 0x05 && cpl.prp1 == pa.1
       && LowWord(cpl.cdw10) == id && HighWord(cpl.cdw10) + 1 == depth
       && LowWord(cpl.cdw11) == 0x3 && HighWord(cpl.cdw11) == id
       && sub.opc == 0x01 && sub.prp1 == pa.0
       && LowWord(sub.cdw10) == id && HighWord(sub.cdw10) + 1 == depth
       && LowWord(sub.cdw11) == 0x3 && HighWord(sub.cdw11) == id
  }

  /** After the first `i` of `n` pairs, what is left of the loop starts with attempt `next`. */
  ghost predicate Leaves(admin: AdminPath, attempt: nat, n: nat, next: nat, i: nat) {
    && i <= n
    && AcknowledgedPairs(admin, attempt, n) == i + AcknowledgedPairs(admin, next, n - i)
    && PairsStatus(admin, attempt, n) == PairsStatus(admin, next, n - i)
  }

  lemma LeavesLess(admin: AdminPath, attempt: nat, n: nat, next: nat, i: nat)
    requires Leaves(admin, attempt, n, next, i) && i < n && PairAcknowledged(admin, next)
    ensures Leaves(admin, attempt, n, next + 2, i + 1)
  {
  }

  /** The loop ends with the first pair that is not acknowledged, or the last. */
  lemma LeavesNone(admin: AdminPath, attempt: nat, n: nat, next: nat, i: nat)
    requires Leaves(admin, attempt, n, next, i) && (i == n || !PairAcknowledged(admin, next))
    ensures AcknowledgedPairs(admin, attempt, n) == i
    ensures PairsStatus(admin, attempt, n) == if i == n then StatusSuccess else PairStatus(admin, next)
  {
  }

  /** The log from `at` on is the acknowledged registration of the first `k` queues, one after the other. */
  ghost predicate AllRegistered(issued: seq<(Command, SrbStatus)>, at: nat, queues: seq<NvmeQueue?>, k: nat) {
    k <= |queues| && forall i :: 0 <= i < k ==> queues[i] != null && PairRegistered(issued, at + 2 * i, queues[i])
  }

  lemma RegisteredStay(issued: seq<(Command, SrbStatus)>, issued': seq<(Command, SrbStatus)>, at: nat,
                       queues: seq<NvmeQueue?>, k: nat)
    requires AllRegistered(issued, at, queues, k) && issued <= issued'
    ensures AllRegistered(issued', at, queues, k)
  {
    forall i | 0 <= i < k
      ensures queues[i] != null && PairRegistered(issued', at + 2 * i, queues[i])
    {
      assert PairRegistered(issued, at + 2 * i, queues[i]);
    }
  }

  lemma RegisteredMore(issued: seq<(Command, SrbStatus)>, issued': seq<(Command, SrbStatus)>, at: nat,
                       queues: seq<NvmeQueue?>, k: nat)
    requires AllRegistered(issued, at, queues, k) && issued <= issued'
    requires k < |queues| && queues[k] != null && PairRegistered(issued', at + 2 * k, queues[k])
    ensures AllRegistered(issued', at, queues, k + 1)
  {
    RegisteredStay(issued, issued', at, queues, k);
  }

  /** From `at` on the log holds at most a started registration of `q`: no SQ before the CQ is acknowledged. */
  predicate PairStarted(issued: seq<(Command, SrbStatus)>, at: nat, q: NvmeQueue) {
    && |issued| <= at + 2
    && (at < |issued| ==> CreatesCplQueue(issued[at].0, q))
    && (at + 1 < |issued| ==> issued[at].1 == SrbSuccess && CreatesSubQueue(issued[at + 1].0, q))
  }

  /** The registration of `n` queues went through the first `k`, and stopped with the next one, if there is one. */
  ghost predicate Ended(issued: seq<(Command, SrbStatus)>, at: nat, queues: seq<NvmeQueue?>, k: nat, n: nat) {
    && k <= n <= |queues|
    && AllRegistered(issued, at, queues, k)
    && (k == n ==> |issued| == at + 2 * k)
    && (k < n ==>
          && queues[k] != null
          && PairStarted(issued, at + 2 * k, queues[k])
          && !PairRegistered(issued, at + 2 * k, queues[k]))
  }

  // ---- The range check ----

  /** The comparison IsInValidIoRange makes, in 64-bit unsigned arithmetic. */
  predicate RangeCheck(offset: uint64, len: uint32, totalBlocks: uint64) {
    (offset + len - 1) % TWO_TO_THE_64 <= (totalBlocks - 1) % TWO_TO_THE_64
  }

  /**
    For at least one block of a namespace that is not empty, the check says what it is for exactly
    when the sum does not wrap around, or wraps so far that it is refused all the same.
   */
  lemma RangeCheckExact(offset: uint64, len: uint32, totalBlocks: uint64)
    requires 0 < len && 0 < totalBlocks
    ensures (RangeCheck(offset, len, totalBlocks) <==> offset + len <= totalBlocks)
       <==> (offset + len <= TWO_TO_THE_64 || offset + len - TWO_TO_THE_64 > totalBlocks)
  {
  }

  /** Without a block to transfer, the check accepts offsets up to and including the end, except 0. */
  lemma RangeCheckNoBlocks(offset: uint64, totalBlocks: uint64)
    requires 0 < totalBlocks
    ensures RangeCheck(offset, 0, totalBlocks) <==> 0 < offset <= totalBlocks
  {
  }

  class NvmeDevice {
    const port: Storport
    const regs: RegisterAccess
    const ioQueue: array<NvmeQueue?>
    var admQueue: NvmeQueue?
    var state: DeviceState
    var registeredIoQ: nat
    var allocatedIoQ: nat
    var desiredIoQ: nat
    var ioDepth: uint16
    var namespaceCount: nat
    var nsze: seq<uint64>               // size of each namespace in blocks
    var readCacheEnabled: bool
    var writeCacheEnabled: bool

    constructor (port: Storport, regs: RegisterAccess, desiredIoQ: nat, ioDepth: uint16)
      ensures this.port == port && this.regs == regs && this.desiredIoQ == desiredIoQ && this.ioDepth == ioDepth
      ensures fresh(ioQueue) && Prefix() && allocatedIoQ == registeredIoQ == 0 && state == Stop && admQueue == null
      ensures |nsze| == SUPPORT_NAMESPACES && namespaceCount == 0
    {
      this.port, this.regs, this.desiredIoQ, this.ioDepth := port, regs, desiredIoQ, ioDepth;
      ioQueue := new NvmeQueue?[MAX_IO_QUEUE_COUNT](_ => null);
      admQueue, state, registeredIoQ, allocatedIoQ, namespaceCount := null, Stop, 0, 0, 0;
      nsze := [0xFFFF_FFFF_FFFF_FFFF, 0xFFFF_FFFF_FFFF_FFFF, 0xFFFF_FFFF_FFFF_FFFF, 0xFFFF_FFFF_FFFF_FFFF];
      readCacheEnabled, writeCacheEnabled := false, false;
    }

    predicate IsWorking()
      reads this
    {
      state == Running
    }

    /** The queues are the first `allocatedIoQ` slots, and the queue in slot `i` has identifier `i + 1`. */
    ghost predicate Prefix()
      reads this, ioQueue
    {
      && ioQueue.Length == MAX_IO_QUEUE_COUNT
      && allocatedIoQ <= MAX_IO_QUEUE_COUNT
      && (forall i :: 0 <= i < allocatedIoQ ==> ioQueue[i] != null)
      && (forall i :: 0 <= i < allocatedIoQ ==>
            && ioQueue[i].queueID == i + 1 && !ioQueue[i].isAdmin
            && ioQueue[i].port == port && 0 < ioQueue[i].depth)
      && (forall i :: allocatedIoQ <= i < ioQueue.Length ==> ioQueue[i] == null)
    }

    /** A queue nothing was submitted to yet. */
    ghost predicate NewAndEmpty(queue: NvmeQueue)
      reads queue, queue.history
    {
      && queue.isReady && queue.inflightCmds == 0
      && queue.history.members == {} && queue.history.slots.Length == MAX_IO_PER_LU
    }

    /** Queue `k` is an empty queue with its submission and completion ring at these addresses. */
    ghost predicate Made(k: nat, subPa: nat, cplPa: nat)
      requires k < ioQueue.Length
      reads this, ioQueue, ioQueue[k], if ioQueue[k] == null then {} else {ioQueue[k].history, ioQueue[k].history.slots}
    {
      var q := ioQueue[k];
      && q != null && q.Valid() && NewAndEmpty(q) && q.depth == ioDepth && q.port == port && q.queueID == k + 1
      && q.subQPa == subPa && q.cplQPa == cplPa
    }

    /** And all its objects are new. */
    twostate predicate MadeNew(k: nat)
      requires k < ioQueue.Length
      reads this, ioQueue, ioQueue[k], if ioQueue[k] == null then {} else {ioQueue[k].history}
    {
      var q := ioQueue[k];
      q != null && fresh(q) && fresh(q.subQ) && fresh(q.history) && fresh(q.history.slots)
    }

    method NewIoQueue(index: nat, subq: nat, cplq: nat) returns (queue: NvmeQueue)
      requires index < MAX_IO_QUEUE_COUNT && 0 < ioDepth
      ensures fresh(queue) && fresh(queue.history) && fresh(queue.history.slots)
      ensures queue.queueID == index + 1 && !queue.isAdmin && queue.port == port && queue.depth == ioDepth
      ensures queue.Valid() && NewAndEmpty(queue)
      ensures fresh(queue.subQ) && queue.subQPa == subq && queue.cplQPa == cplq
    {
      queue := new NvmeQueue.Setup(port, index + 1, false, ioDepth, MAX_IO_PER_LU, subq, cplq);
    }

    /** `setupOk(i)` says whether the memory for queue `i` can be had, `pa(i)` where it is. */
    method CreateIoQ(setupOk: nat -> bool, pa: nat -> (nat, nat)) returns (status: NtStatus)
      requires Prefix() && desiredIoQ <= MAX_IO_QUEUE_COUNT && 0 < ioDepth
      modifies this`allocatedIoQ, ioQueue
      ensures Prefix() && allocatedIoQ >= old(allocatedIoQ)
      ensures status == StatusSuccess <==> forall i :: old(allocatedIoQ) <= i < desiredIoQ ==> setupOk(i)
      ensures if status == StatusSuccess then allocatedIoQ == Max(old(allocatedIoQ), desiredIoQ)
              else allocatedIoQ < desiredIoQ && !setupOk(allocatedIoQ)
      ensures forall i :: old(allocatedIoQ) <= i < allocatedIoQ ==>
                setupOk(i) && Made(i, pa(i).0, pa(i).1) && MadeNew(i)
      ensures status in {StatusSuccess, StatusMemoryNotAllocated}
      ensures forall i :: 0 <= i < old(allocatedIoQ) ==> ioQueue[i] == old(ioQueue[i])
    {
      var i := 0;
      while i < desiredIoQ
        invariant 0 <= i <= desiredIoQ
        invariant Prefix() && allocatedIoQ == Max(old(allocatedIoQ), i)
        invariant forall j :: old(allocatedIoQ) <= j < allocatedIoQ ==>
                    setupOk(j) && Made(j, pa(j).0, pa(j).1) && MadeNew(j)
        invariant forall j :: 0 <= j < old(allocatedIoQ) ==> ioQueue[j] == old(ioQueue[j])
      {
        if ioQueue[i] == null {
          if !setupOk(i) {
            return StatusMemoryNotAllocated;
          }
          var (subq, cplq) := pa(i);
          ioQueue[i] := NewIoQueue(i, subq, cplq);
          allocatedIoQ := allocatedIoQ + 1;
        }
        i := i + 1;
      }
      return StatusSuccess;
    }

    method DeleteIoQ()
      requires Prefix()
      modifies this`allocatedIoQ, ioQueue
      ensures Prefix() && allocatedIoQ == 0
    {
      for i := 0 to ioQueue.Length
        invariant forall j :: 0 <= j < ioQueue.Length ==> ioQueue[j] == old(ioQueue[j])
        invariant allocatedIoQ == if i <= old(allocatedIoQ) then old(allocatedIoQ) - i else 0
      {
        if ioQueue[i] != null {
          allocatedIoQ := allocatedIoQ - 1;
        }
      }
      forall i | 0 <= i < ioQueue.Length {
        ioQueue[i] := null;
      }
    }

    /**
      Registers the allocated queues one after the other, up to the first whose two commands are not both taken and
      acknowledged, and counts them; nothing is issued for a queue after that one.  A refusal by the controller
      is not reported: the status only tells of commands the admin queue did not take.
     */
    method RegisterIoQueues(admin: AdminPath) returns (status: NtStatus)
      requires Prefix()
      modifies this`registeredIoQ, admin
      ensures Prefix() && registeredIoQ >= old(registeredIoQ) && old(admin.issued) <= admin.issued
      ensures IsWorking() ==>
                Ended(admin.issued, |old(admin.issued)|, ioQueue[..], registeredIoQ - old(registeredIoQ), allocatedIoQ)
      ensures !IsWorking() ==> registeredIoQ == old(registeredIoQ) && admin.issued == old(admin.issued)
      ensures old(registeredIoQ) == 0 && IsWorking() && 0 < registeredIoQ ==>
                && Dispatches()
                && forall cpu: nat :: Picked(cpu) != null
                     && PairRegistered(admin.issued, |old(admin.issued)| + 2 * (cpu % registeredIoQ), Picked(cpu))
      ensures IsWorking() ==>
                registeredIoQ == old(registeredIoQ) + AcknowledgedPairs(admin, old(admin.attempts), allocatedIoQ)
      ensures status == if registeredIoQ == desiredIoQ then StatusSuccess
                        else if !IsWorking() then StatusInvalidDeviceState
                        else PairsStatus(admin, old(admin.attempts), allocatedIoQ)
    {
      status := StatusInvalidDeviceState;
      if IsWorking() {
        status := RegisterPairs(admin);
      }
      if registeredIoQ == desiredIoQ {
        status := StatusSuccess;
      }
    }

    /** The commands for one pair: first the completion queue, then the submission queue. */
    method RegisterPair(admin: AdminPath, queue: NvmeQueue) returns (status: NtStatus, done: bool)
      requires 0 < queue.depth
      modifies admin
      ensures old(admin.issued) <= admin.issued
      ensures done <==> PairRegistered(admin.issued, |old(admin.issued)|, queue)
      ensures done ==> |admin.issued| == |old(admin.issued)| + 2 && admin.attempts == old(admin.attempts) + 2
      ensures !done ==> PairStarted(admin.issued, |old(admin.issued)|, queue)
      ensures done <==> PairAcknowledged(admin, old(admin.attempts))
      ensures status == PairStatus(admin, old(admin.attempts))
      ensures |admin.issued| == |old(admin.issued)| + PairIssued(admin, old(admin.attempts))
      ensures var n, a := |old(admin.issued)|, old(admin.attempts);
              && (n < |admin.issued| ==> admin.issued[n].1 == admin.answer(a))
              && (n + 1 < |admin.issued| ==> admin.issued[n + 1].1 == admin.answer(a + 1))
    {
      status, done := StatusSuccess, false;
      var temp := new SrbExt.Init(port, None);
      BuildCmdRegIoCplQ(temp, queue);
      status := admin.Issue(temp);
      if status != StatusSuccess {
        return StatusRequestAborted, false;
      }
      if temp.srbStatus != SrbSuccess {
        return;
      }
      temp := new SrbExt.Init(port, None);
      BuildCmdRegIoSubQ(temp, queue);
      status := admin.Issue(temp);
      if status != StatusSuccess {
        return StatusRequestAborted, false;
      }
      done := temp.srbStatus == SrbSuccess;
    }

    /** The loop of RegisterIoQueues. */
    method RegisterPairs(admin: AdminPath) returns (status: NtStatus)
      requires Prefix()
      modifies this`registeredIoQ, admin
      ensures Prefix() && registeredIoQ >= old(registeredIoQ) && old(admin.issued) <= admin.issued
      ensures Ended(admin.issued, |old(admin.issued)|, ioQueue[..], registeredIoQ - old(registeredIoQ), allocatedIoQ)
      ensures registeredIoQ == old(registeredIoQ) + AcknowledgedPairs(admin, old(admin.attempts), allocatedIoQ)
      ensures status == PairsStatus(admin, old(admin.attempts), allocatedIoQ)
    {
      ghost var n, attempt := |admin.issued|, admin.attempts;
      var i := 0;
      assert Leaves(admin, attempt, allocatedIoQ, attempt, 0);
      while i < allocatedIoQ
        invariant 0 <= i <= allocatedIoQ && registeredIoQ == old(registeredIoQ) + i
        invariant old(admin.issued) <= admin.issued && Registering(admin, n, attempt, i)
      {
        var done;
        status, done := RegisterNext(admin, i, n, attempt);
        if !done {
          return;
        }
        i := i + 1;
      }
      LeavesNone(admin, attempt, allocatedIoQ, admin.attempts, i);
      return StatusSuccess;
    }

    /** The first `i` queues are registered, and the next attempt is for the next one. */
    ghost predicate Registering(admin: AdminPath, n: nat, attempt: nat, i: nat)
      reads this, ioQueue, admin
    {
      && |admin.issued| == n + 2 * i
      && AllRegistered(admin.issued, n, ioQueue[..], i)
      && Leaves(admin, attempt, allocatedIoQ, admin.attempts, i)
    }

    /** A pass of that loop. */
    method RegisterNext(admin: AdminPath, i: nat, ghost n: nat, ghost attempt: nat)
      returns (status: NtStatus, done: bool)
      requires Prefix() && i < allocatedIoQ && Registering(admin, n, attempt, i)
      modifies this`registeredIoQ, admin
      ensures old(admin.issued) <= admin.issued
      ensures registeredIoQ == old(registeredIoQ) + if done then 1 else 0
      ensures done ==> Registering(admin, n, attempt, i + 1)
      ensures !done ==>
                && Ended(admin.issued, n, ioQueue[..], i, allocatedIoQ)
                && AcknowledgedPairs(admin, attempt, allocatedIoQ) == i
                && status == PairsStatus(admin, attempt, allocatedIoQ)
    {
      ghost var before, next, queues := admin.issued, admin.attempts, ioQueue[..];
      status, done := RegisterPair(admin, ioQueue[i]);
      if done {
        RegisteredMore(before, admin.issued, n, queues, i);
        LeavesLess(admin, attempt, allocatedIoQ, next, i);
        registeredIoQ := registeredIoQ + 1;
      } else {
        RegisteredStay(before, admin.issued, n, queues, i);
        LeavesNone(admin, attempt, allocatedIoQ, next, i);
      }
    }

    /** The queue an I/O command from processor `cpu` goes to. */
    function Picked(cpu: nat): NvmeQueue?
      reads this, ioQueue
    {
      if IsWorking() && 0 < registeredIoQ <= ioQueue.Length then ioQueue[cpu % registeredIoQ] else null
    }

    ghost function PickedObjects(cpu: nat): set<object>
      reads this, ioQueue, Picked(cpu), if Picked(cpu) == null then {} else {Picked(cpu).history}
    {
      if Picked(cpu) == null then {} else Picked(cpu).Footprint()
    }

    /**
      While the device works it has registered queues, and no more than were created: what RegisterIoQueues
      establishes when the controller acknowledges a pair.
     */
    ghost predicate Dispatches()
      reads this, ioQueue
    {
      Prefix() && (IsWorking() ==> 0 < registeredIoQ <= allocatedIoQ)
    }

    /** Every processor finds a queue, and it is a registered one. */
    lemma PicksRegistered(cpu: nat)
      requires Dispatches() && IsWorking()
      ensures Picked(cpu) != null && 1 <= Picked(cpu).queueID <= registeredIoQ
      ensures Picked(cpu).queueID == cpu % registeredIoQ + 1
    {
    }

    /** No more queues are registered than were created. */
    ghost predicate Counted()
      reads this, ioQueue
    {
      Prefix() && (IsWorking() ==> registeredIoQ <= allocatedIoQ)
    }

    /** A working device without a registered queue divides by zero here. */
    method SubmitIoCmd(srbext: SrbExt, cmd: Command, cpu: nat) returns (outcome: Outcome<NtStatus>)
      requires Counted() && srbext.port == port
      requires Picked(cpu) != null ==> Picked(cpu).Valid()
      modifies srbext, PickedObjects(cpu)
      ensures !IsWorking() ==> outcome == Returned(StatusDeviceNotReady) && port.completed == old(port.completed)
      ensures IsWorking() && registeredIoQ == 0 ==> outcome == BugCheck && port.completed == old(port.completed)
      ensures IsWorking() && registeredIoQ > 0 ==> Picked(cpu) != null
      ensures var q := Picked(cpu);
              q != null ==>
                && q.Valid()
                && var r := Model.Submit(old(Picked(cpu).Driver()), srbext, cmd);
                   && outcome == Returned(r.status)
                   && q.Driver() == r.driver
                   && q.history.members
                      == old(Picked(cpu).history.members) + (if r.status == StatusSuccess then {srbext} else {})
                   && port.completed == old(port.completed) + Notified(r.notes)
      ensures srbext.nvmeCmd == old(srbext.nvmeCmd) && srbext.prp2 == old(srbext.prp2)
      ensures srbext.prp2 != null ==> unchanged(srbext.prp2.entries)
    {
      if !IsWorking() {
        return Returned(StatusDeviceNotReady);
      }
      if registeredIoQ == 0 {
        return BugCheck;
      }
      var status := ioQueue[cpu % registeredIoQ].SubmitCmd(srbext, cmd);
      return Returned(status);
    }

    /** The two steps that give a running device its queues. */
    method BringUpQueues(setupOk: nat -> bool, pa: nat -> (nat, nat), admin: AdminPath)
      requires Prefix() && IsWorking() && allocatedIoQ == registeredIoQ == 0
      requires desiredIoQ <= MAX_IO_QUEUE_COUNT && 0 < ioDepth
      modifies this`allocatedIoQ, this`registeredIoQ, ioQueue, admin
      ensures Counted() && registeredIoQ <= MAX_IO_QUEUE_COUNT
      ensures registeredIoQ == AcknowledgedPairs(admin, old(admin.attempts), allocatedIoQ)
      ensures (forall i :: 0 <= i < desiredIoQ ==> setupOk(i)) ==> allocatedIoQ == desiredIoQ
      ensures allocatedIoQ == 0 <==> desiredIoQ == 0 || !setupOk(0)
      ensures forall k :: 0 <= k < registeredIoQ ==> Made(k, pa(k).0, pa(k).1) && MadeNew(k)
      ensures old(admin.issued) <= admin.issued
      ensures AllRegistered(admin.issued, |old(admin.issued)|, ioQueue[..], registeredIoQ)
    {
      var _ := CreateIoQ(setupOk, pa);
      var _ := RegisterIoQueues(admin);
    }

    /**
      What follows for the queue a processor is given: there is one exactly when the first pair was made and
      acknowledged, and the two commands that announced it name the addresses of its own rings, each the right one.
     */
    lemma PicksMade(setupOk: nat -> bool, pa: nat -> (nat, nat), admin: AdminPath, attempt: nat, n: nat, cpu: nat)
      requires Counted() && IsWorking() && registeredIoQ <= MAX_IO_QUEUE_COUNT
      requires registeredIoQ == AcknowledgedPairs(admin, attempt, allocatedIoQ)
      requires allocatedIoQ == 0 <==> desiredIoQ == 0 || !setupOk(0)
      requires forall k :: 0 <= k < registeredIoQ ==> Made(k, pa(k).0, pa(k).1)
      requires AllRegistered(admin.issued, n, ioQueue[..], registeredIoQ)
      ensures Picked(cpu) != null <==> 0 < desiredIoQ && setupOk(0) && PairAcknowledged(admin, attempt)
      ensures Picked(cpu) != null ==>
                var k := cpu % registeredIoQ;
                && Picked(cpu) == ioQueue[k] && Made(k, pa(k).0, pa(k).1)
                && Announced(admin.issued, n + 2 * k, k + 1, ioDepth, pa(k))
    {
      if Picked(cpu) != null {
        var k := cpu % registeredIoQ;
        assert Made(k, pa(k).0, pa(k).1);
        assert ioQueue[..][k] == ioQueue[k];
        assert PairRegistered(admin.issued, n + 2 * k, ioQueue[..][k]);
      }
    }

    /** The same, seen from one processor. */
    method BringUpFor(setupOk: nat -> bool, pa: nat -> (nat, nat), admin: AdminPath, ghost cpu: nat)
      requires Prefix() && IsWorking() && allocatedIoQ == registeredIoQ == 0
      requires desiredIoQ <= MAX_IO_QUEUE_COUNT && 0 < ioDepth
      modifies this`allocatedIoQ, this`registeredIoQ, ioQueue, admin
      ensures Counted() && (Picked(cpu) == null <==> registeredIoQ == 0)
      ensures Picked(cpu) != null <==> 0 < desiredIoQ && setupOk(0) && PairAcknowledged(admin, old(admin.attempts))
      ensures Picked(cpu) != null ==>
                && Picked(cpu).Valid() && NewAndEmpty(Picked(cpu)) && Picked(cpu).depth == ioDepth
      ensures fresh(PickedObjects(cpu) - {port})
    {
      ghost var attempt, n := admin.attempts, |admin.issued|;
      BringUpQueues(setupOk, pa, admin);
      PicksMade(setupOk, pa, admin, attempt, n, cpu);
      assert Picked(cpu) != null ==> MadeNew(cpu % registeredIoQ);
    }

    /** Namespace identifiers start at 1; the table of namespaces has four entries. */
    predicate IsInValidIoRange(nsid: uint32, offset: uint64, len: uint32)
      requires nsid <= |nsze|
      reads this
    {
      nsid != 0 && namespaceCount != 0 && RangeCheck(offset, len, nsze[nsid - 1])
    }

    /**
      Brings the controller up.  Against a controller without a fatal status that moves RDY only towards EN: no
      register write on the way was forbidden, and the machine was not stopped, exactly when EN was clear or the
      first look found the controller ready.  The code takes "not ready" for "disabled": with EN set and RDY
      behind, it writes the admin queue registers of an enabled controller, or stops the machine when
      RDY comes up just then (`InitWhileEnabled` is such a controller).  Against a controller that follows
      EN at once the call succeeds.
     */
    method InitController(admDepth: nat, queues: Option<(nat, nat)>) returns (outcome: Outcome<NtStatus>)
      requires regs.Valid() && 0 < admDepth
      modifies this`registeredIoQ, regs`stalls, regs.ctrl
      ensures !IsWorking() ==> outcome == Returned(StatusInvalidDeviceState) && registeredIoQ == old(registeredIoQ)
      ensures IsWorking() ==> registeredIoQ == 0 && |regs.ctrl.samples| > |old(regs.ctrl.samples)|
      ensures old(regs.ctrl.writes) <= regs.ctrl.writes
      ensures regs.ctrl.WellBehaved() && StartsClean(old(regs.ctrl.en), old(regs.ctrl.csts)) ==>
                && AllAllowed(regs.ctrl.writes[|old(regs.ctrl.writes)|..])
                && (queues.Some? ==> outcome != BugCheck)
                && (outcome == Returned(StatusSuccess) ==> On(regs.ctrl.en, regs.ctrl.csts))
                && (outcome == Returned(StatusSuccess) ==>
                      && queues.Some?
                      && AdminQueueWritten(regs.ctrl.writes[|old(regs.ctrl.writes)|..], admDepth, queues.value))
      ensures IsWorking() && regs.ctrl.Follows() && queues.Some? && queues.value.0 != 0 && queues.value.1 != 0 ==>
                && outcome == Returned(StatusSuccess) && On(regs.ctrl.en, regs.ctrl.csts)
                && AdminQueueWritten(regs.ctrl.writes[|old(regs.ctrl.writes)|..], admDepth, queues.value)
      ensures IsWorking() ==> regs.ctrl.samples[|old(regs.ctrl.samples)|]
                              == regs.ctrl.behaviour(old(regs.ctrl.clock), old(regs.ctrl.en), old(regs.ctrl.csts))
      ensures IsWorking() && !Ready(regs.ctrl.samples[|old(regs.ctrl.samples)|])
              && queues.Some? && queues.value.0 != 0 && queues.value.1 != 0 ==>
                (outcome == BugCheck
                 <==> Ready(regs.ctrl.behaviour(old(regs.ctrl.clock) + 1, old(regs.ctrl.en),
                                                regs.ctrl.samples[|old(regs.ctrl.samples)|])))
      ensures IsWorking() && regs.ctrl.WellBehaved() && !old(regs.ctrl.csts).cfs
              && queues.Some? && queues.value.0 != 0 && queues.value.1 != 0 ==>
                (outcome != BugCheck && AllAllowed(regs.ctrl.writes[|old(regs.ctrl.writes)|..])
                 <==> (old(regs.ctrl.en) ==> Ready(regs.ctrl.samples[|old(regs.ctrl.samples)|])))
    {
      if !IsWorking() {
        return Returned(StatusInvalidDeviceState);
      }
      var status := regs.DisableController();
      registeredIoQ := 0;
      if status != StatusSuccess {
        return Returned(status);
      }
      ghost var start, at := |old(regs.ctrl.writes)|, |regs.ctrl.writes|;
      ghost var disabling := regs.ctrl.writes[start..];
      outcome := regs.RegisterAdmQ(queues, admDepth);
      if outcome != Returned(StatusSuccess) {
        return;
      }
      ghost var register := regs.ctrl.writes[at];
      assert IsAdminQueueWrite(register, admDepth, queues.value);
      status := regs.EnableController();
      outcome := Returned(status);
      ghost var enabling := regs.ctrl.writes[at + 1..];
      assert regs.ctrl.writes[start..] == disabling + [register] + enabling;
      assert regs.ctrl.writes[start..][at - start] == register;
      AllAllowedInTurn(disabling, register, enabling);
    }
  }

  lemma AllAllowedInTurn(a: seq<Write>, w: Write, b: seq<Write>)
    ensures AllAllowed(a + [w] + b) <==> AllAllowed(a) && Allowed(w) && AllAllowed(b)
  {
    var all := a + [w] + b;
    if AllAllowed(all) {
      assert forall i :: 0 <= i < |a| ==> a[i] == all[i];
      assert w == all[|a|];
      assert forall i :: 0 <= i < |b| ==> b[i] == all[|a| + 1 + i];
    }
  }

  /** A controller that was just enabled and never gets ready: its admin queue registers are written all the same. */
  method InitWhileEnabled(port: Storport, admDepth: nat, subq: nat, cplq: nat)
    returns (ctrl: Controller, outcome: Outcome<NtStatus>)
    requires 0 < admDepth && subq != 0 && cplq != 0
    ensures ctrl.WellBehaved() && outcome != BugCheck && !AllAllowed(ctrl.writes)
  {
    ctrl := new Controller((_, _, csts) => csts, true, Csts(false, false, 0));
    var regs := new RegisterAccess(ctrl, 1, 0);
    var dev := new NvmeDevice(port, regs, 1, 2);
    dev.state := Running;
    outcome := dev.InitController(admDepth, Some((subq, cplq)));
    assert ctrl.writes[0..] == ctrl.writes;
  }

  /** The depth, from 0, and the addresses of the admin queue are in the registers. */
  ghost predicate AdminQueueWritten(writes: seq<Write>, depth: nat, queues: (nat, nat)) {
    exists i :: 0 <= i < |writes| && IsAdminQueueWrite(writes[i], depth, queues)
  }

  predicate IsAdminQueueWrite(w: Write, depth: nat, queues: (nat, nat)) {
    w.WriteAdminQueue? && w.asqs == w.acqs == depth - 1 && (w.asq, w.acq) == queues
  }

  /** EN is clear, or RDY has followed it; no fatal status. */
  predicate StartsClean(en: bool, csts: Csts) {
    (en ==> csts.rdy) && !csts.cfs
  }

  function Max(a: nat, b: nat): nat {
    if a <= b then b else a
  }
}
