/**
  CNvmeQueue, CCmdHistory and the SRB extension as objects, proved against QueueModel.
 */
module NvmeQueueObjects {
  import opened NvmeTypes
  import Model = QueueModel
  import Protocol = QueueProtocol

  /** What the driver reads of an SRB. */
  datatype Srb = Srb(
    func: SrbFunction,
    path: uint8,
    target: uint8,
    lun: uint8,
    tag: uint32,
    dataBuf: nat,
    dataLen: uint32,
    cdb: seq<uint8>
  )

  /** The SRB functions HwBuildIo tells apart. */
  datatype SrbFunction =
    | AbortCommand | ResetLogicalUnit | ResetDevice | ResetBus
    | Power | Pnp | ExecuteScsi | IoControl | OtherFunction

  /** Storport, as the receiver of RequestComplete notifications. */
  class Storport {
    var completed: seq<(SrbExt, SrbStatus)>

    constructor ()
      ensures completed == []
    {
      completed := [];
    }
  }

  /** A page of PRP entries from the nonpaged pool. */
  class ListPage {
    const va: nat
    const entries: array<nat>

    constructor (va: nat)
      ensures this.va == va && entries.Length == 512 && fresh(entries)
    {
      this.va := va;
      entries := new nat[512](_ => 0);
    }
  }

  class SrbExt {
    const port: Storport
    const srb: Option<Srb>      // None for the commands the driver issues itself
    var srbStatus: SrbStatus
    var nvmeCmd: Command
    var nvmeCpl: Completion
    var prp2: ListPage?
    var freePrp2List: bool
    var extBuf: nat             // address of the buffer of an ioctl, 0 for none
    var subIndex: nat

    constructor Init(port: Storport, srb: Option<Srb>)
      ensures this.port == port && this.srb == srb
      ensures srbStatus == SrbPending && prp2 == null && extBuf == 0 && nvmeCmd == ZERO_COMMAND
    {
      this.port := port;
      this.srb := srb;
      srbStatus := SrbPending;
      nvmeCmd := ZERO_COMMAND;
      nvmeCpl := ZERO_COMPLETION;
      prp2 := null;
      freePrp2List := false;
      extBuf := 0;
      subIndex := 0;
    }

    function ScsiQTag(): uint32 {
      if srb.None? then 0 else srb.value.tag
    }

    function Lun(): uint8 {
      if srb.None? then 0xFF else srb.value.lun
    }

    function DataBuf(): nat {
      if srb.None? then 0 else srb.value.dataBuf
    }

    function DataBufLen(): uint32 {
      if srb.None? then 0 else srb.value.dataLen
    }

    method CompleteSrb(status: SrbStatus)
      modifies this`srbStatus, port
      ensures srbStatus == status
      ensures port.completed == old(port.completed) + Notified([Model.Note(this, status)])
    {
      srbStatus := status;
      if srb.Some? {
        port.completed := port.completed + [(this, status)];
      }
    }

    /** `freed` are the buffers that are given back. */
    method CleanUp() returns (ghost freed: (nat, ListPage?))
      modifies this`prp2, this`extBuf
      ensures prp2 == null && extBuf == 0
      ensures freed == (old(extBuf), old(prp2))
    {
      freed := (extBuf, prp2);
      extBuf := 0;
      prp2 := null;
    }

    /** Completed with the status of its completion entry, and its buffers are given back. */
    ghost predicate Answered()
      reads this
    {
      srbStatus == SrbFromNvme(nvmeCpl.status) && prp2 == null && extBuf == 0
    }

    /** What CompleteCmd does with the request it finds for an entry. */
    method Answer(cpl: Completion)
      modifies this, port
      ensures nvmeCpl == cpl && Answered()
      ensures nvmeCmd == old(nvmeCmd) && freePrp2List == old(freePrp2List) && subIndex == old(subIndex)
      ensures port.completed == old(port.completed) + Notified([Model.Note(this, SrbFromNvme(cpl.status))])
    {
      nvmeCpl := cpl;
      CompleteSrb(SrbFromNvme(nvmeCpl.status));
      var _ := CleanUp();
    }
  }

  /** The notifications Storport receives for a list of CompleteSrb calls: those with an SRB behind them. */
  function Notified(notes: seq<Model.Note<SrbExt>>): seq<(SrbExt, SrbStatus)> {
    if notes == [] then []
    else
      Notified(notes[..|notes| - 1]) +
      (var last := notes[|notes| - 1]; if last.req.srb.Some? then [(last.req, last.status)] else [])
  }

  lemma {:induction false} NotifiedConcat(a: seq<Model.Note<SrbExt>>, b: seq<Model.Note<SrbExt>>)
    ensures Notified(a + b) == Notified(a) + Notified(b)
  {
    if b == [] {
      assert a + b == a;
    } else {
      assert (a + b)[..|a + b| - 1] == a + b[..|b| - 1];
      NotifiedConcat(a, b[..|b| - 1]);
    }
  }

  /** What a reset does with one slot. */
  function SlotNotes(slot: Option<SrbExt>): seq<Model.Note<SrbExt>> {
    if slot.Some? then [Model.Note(slot.value, SrbBusReset)] else []
  }

  lemma ResetNotesStep(table: seq<Option<SrbExt>>, i: nat)
    requires i < |table|
    ensures Notified(Model.ResetNotes(table[i..]))
         == Notified(SlotNotes(table[i])) + Notified(Model.ResetNotes(table[i + 1..]))
  {
    assert table[i..][1..] == table[i + 1..];
    NotifiedConcat(SlotNotes(table[i]), Model.ResetNotes(table[i + 1..]));
  }

  /** CCmdHistory: the requests by command identifier. */
  class CmdHistory {
    const slots: array<SrbExt?>
    ghost var members: set<SrbExt>   // the requests that have been in the table

    ghost predicate Valid()
      reads this, slots
    {
      forall i :: 0 <= i < slots.Length && slots[i] != null ==> slots[i] in members
    }

    constructor (depth: nat)
      ensures slots.Length == depth && fresh(slots)
      ensures Valid() && members == {}
      ensures Table() == Model.Emptied(Table())
    {
      slots := new SrbExt?[depth](_ => null);
      members := {};
    }

    ghost function Table(): (table: seq<Option<SrbExt>>)
      reads this, slots
      ensures |table| == slots.Length
      ensures forall i :: 0 <= i < slots.Length ==> table[i] == Opt(slots[i])
    {
      seq(slots.Length, i requires 0 <= i < slots.Length reads slots => Opt(slots[i]))
    }

    method Push(index: nat, srbext: SrbExt) returns (status: NtStatus)
      requires Valid()
      modifies this, slots
      ensures Valid() && members == old(members) + if status == StatusSuccess then {srbext} else {}
      ensures status == Model.Push(old(Table()), index, srbext).status
      ensures Table() == Model.Push(old(Table()), index, srbext).history
    {
      if index >= slots.Length {
        return StatusUnsuccessful;
      }
      var oldPtr := slots[index];
      if oldPtr == null {
        slots[index] := srbext;
        members := members + {srbext};
      }
      if oldPtr != null {
        return StatusAlreadyCommitted;
      }
      return StatusSuccess;
    }

    /** `held` is what the caller's reference parameter holds before the call. */
    method Pop(index: nat, held: SrbExt?) returns (status: NtStatus, srbext: SrbExt?)
      requires Valid() && (held != null ==> held in members)
      modifies slots
      ensures Valid() && (srbext != null ==> srbext in members)
      ensures var popped := Model.Pop(old(Table()), index, Opt(held));
              && status == popped.status
              && Table() == popped.history
              && Opt(srbext) == popped.req
    {
      if index >= slots.Length {
        return StatusUnsuccessful, held;
      }
      srbext := slots[index];
      slots[index] := null;
      if srbext == null {
        return StatusInvalidDeviceState, srbext;
      }
      return StatusSuccess, srbext;
    }

    method ResetSlot(i: nat, port: Storport)
      requires i < slots.Length && (slots[i] != null ==> slots[i].port == port)
      modifies slots, slots[i], port
      ensures old(slots[i]) != null ==> old(slots[i]).srbStatus == SrbBusReset
      ensures slots[..] == old(slots[..])[i := null]
      ensures port.completed == old(port.completed) + Notified(SlotNotes(Opt(old(slots[i]))))
    {
      if slots[i] != null {
        slots[i].CompleteSrb(SrbBusReset);
        slots[i] := null;
      }
    }

    method Reset(port: Storport)
      requires Valid() && forall r :: r in members ==> r.port == port
      modifies slots, members, port
      ensures Valid()
      ensures Table() == Model.Emptied(old(Table()))
      ensures port.completed == old(port.completed) + Notified(Model.ResetNotes(old(Table())))
      ensures forall i :: 0 <= i < slots.Length && old(slots[i]) != null ==> old(slots[i]).srbStatus == SrbBusReset
    {
      ghost var table := Table();
      ghost var all := Model.ResetNotes(table);
      assert table[0..] == table;
      for i := 0 to slots.Length
        invariant forall j :: 0 <= j < i ==> slots[j] == null
        invariant forall j :: i <= j < slots.Length ==> slots[j] == old(slots[j])
        invariant port.completed + Notified(Model.ResetNotes(table[i..])) == old(port.completed) + Notified(all)
        invariant forall j :: 0 <= j < i && old(slots[j]) != null ==> old(slots[j]).srbStatus == SrbBusReset
      {
        ResetNotesStep(table, i);
        ghost var before := slots[..];
        ResetSlot(i, port);
        assert forall j :: 0 <= j < slots.Length ==> slots[j] == before[i := null][j];
      }
      assert table[slots.Length..] == [];
    }
  }

  /** The status of request `r` after a push: a request that had the slot is busy, all others keep theirs. */
  ghost function Evicted(status: NtStatus, table: seq<Option<SrbExt>>, cid: nat, r: SrbExt, was: SrbStatus): SrbStatus {
    if status == StatusSuccess && cid < |table| && table[cid] == Some(r) then SrbBusy else was
  }

  function Opt(srbext: SrbExt?): Option<SrbExt> {
    if srbext == null then None else Some(srbext)
  }

  /** CNvmeQueue.  The controller reads `subQ` and `subDbl`, and writes `cplQ`. */
  class NvmeQueue {
    const port: Storport
    const queueID: uint16
    const isAdmin: bool         // the type of the queue
    const depth: uint16
    const subQPa: nat           // physical addresses of the two rings
    const cplQPa: nat
    const subQ: array<Command>
    const cplQ: array<Completion>
    const history: CmdHistory
    var isReady: bool
    var inflightCmds: int
    var subTail: nat
    var subHead: nat
    var cplHead: nat
    var phaseTag: nat
    var subDbl: nat
    var cplDbl: nat

    ghost predicate Valid()
      reads this, history, history.slots
    {
      && 0 < depth
      && subQ.Length == cplQ.Length == depth
      && subTail < depth
      && cplHead < depth
      && phaseTag <= 1
      && 0 < history.slots.Length
      && subQ as object != history.slots
      && history.Valid()
      && (forall r :: r in history.members ==> r.port == port)
    }

    /** The queue as the protocol sees it. */
    ghost function Driver(): (d: Model.Driver<SrbExt>)
      requires Valid()
      reads this, subQ, history, history.slots
      ensures d.Valid()
    {
      Model.Driver(depth, isReady, subQ[..], subTail, subHead, cplHead, phaseTag, inflightCmds, history.Table(),
                   subDbl, cplDbl)
    }

    /** Everything the queue may change. */
    ghost function Footprint(): set<object>
      reads this, history
    {
      {this, subQ, history, history.slots, port} + history.members
    }

    /** A queue that is set up is where every run of the protocol starts. */
    constructor Setup(port: Storport, queueID: uint16, isAdmin: bool, depth: uint16, historyDepth: uint16,
                      subQPa: nat, cplQPa: nat)
      requires 0 < depth && 0 < historyDepth
      ensures this.port == port && this.queueID == queueID && this.depth == depth
      ensures this.isAdmin == isAdmin && this.subQPa == subQPa && this.cplQPa == cplQPa
      ensures history.slots.Length == historyDepth
      ensures fresh(subQ) && fresh(cplQ) && fresh(history) && fresh(history.slots)
      ensures Valid() && isReady && history.members == {}
      ensures Protocol.Init(Protocol.Fresh(Driver(), cplQ[..]))
    {
      this.port, this.queueID, this.depth := port, queueID, depth;
      this.isAdmin, this.subQPa, this.cplQPa := isAdmin, subQPa, cplQPa;
      subQ := new Command[depth](_ => ZERO_COMMAND);
      cplQ := new Completion[depth](_ => ZERO_COMPLETION);
      history := new CmdHistory(historyDepth);
      isReady, inflightCmds := true, 0;
      subTail, subHead, cplHead, phaseTag, subDbl, cplDbl := 0, 0, 0, 1, 0, 0;
    }

    predicate IsSafeForSubmit()
      reads this
    {
      Model.IsSafeForSubmit(depth, inflightCmds)
    }

    /** The push at the start of SubmitCmd: a request whose tag is reused is completed as busy. */
    method PushRequest(srbext: SrbExt, cid: nat) returns (status: NtStatus)
      requires Valid() && srbext.port == port
      modifies history, history.slots, history.members, port
      ensures Valid() && history.members == old(history.members) + if status == StatusSuccess then {srbext} else {}
      ensures var put := Model.PutInTable(old(history.Table()), srbext, cid);
              && status == put.status
              && history.Table() == put.history
              && port.completed == old(port.completed) + Notified(put.notes)
      ensures forall r :: r in old(history.members) ==>
                r.srbStatus == Evicted(status, old(history.Table()), cid, r, old(r.srbStatus))
      ensures forall r :: r in old(history.members) ==>
                unchanged(r`nvmeCmd) && unchanged(r`prp2) && unchanged(r`nvmeCpl) && unchanged(r`subIndex)
    {
      status := history.Push(cid, srbext);
      if status == StatusAlreadyCommitted {
        var _, evicted := history.Pop(cid, null);
        evicted.CompleteSrb(SrbBusy);
        var _ := history.Push(cid, srbext);
        status := StatusSuccess;
      }
    }

    /** The end of SubmitCmd: copy, count, move the tail and ring the doorbell. */
    method EnterRing(srbext: SrbExt, cmd: Command)
      requires Valid()
      modifies this`inflightCmds, this`subTail, this`subDbl, subQ, srbext`subIndex
      ensures Valid()
      ensures Driver() == Model.RingTail(Model.Count(Model.CopyToRing(old(Driver()), cmd)))
      ensures srbext.subIndex == old(subTail)
    {
      srbext.subIndex := subTail;
      subQ[subTail] := cmd;
      inflightCmds := inflightCmds + 1;
      subTail := (subTail + 1) % depth;
      subDbl := subTail;
    }

    method SubmitCmd(srbext: SrbExt, cmd: Command) returns (status: NtStatus)
      requires Valid() && srbext.port == port
      modifies this, subQ, history, history.slots, history.members, srbext, port
      ensures Valid() && history.members == old(history.members) + if status == StatusSuccess then {srbext} else {}
      ensures var r := Model.Submit(old(Driver()), srbext, cmd);
              && status == r.status
              && Driver() == r.driver
              && port.completed == old(port.completed) + Notified(r.notes)
      ensures status == StatusSuccess ==> srbext.subIndex == old(subTail)
      ensures srbext.nvmeCmd == old(srbext.nvmeCmd) && srbext.prp2 == old(srbext.prp2)
    {
      if !isReady {
        return StatusDeviceNotReady;
      }
      if !IsSafeForSubmit() {
        return StatusDeviceBusy;
      }
      status := PushRequest(srbext, cmd.cid);
      if status != StatusSuccess {
        return status;
      }
      EnterRing(srbext, cmd);
      return StatusSuccess;
    }

    method UpdateCplHeadAndPhase()
      requires Valid()
      modifies this`cplHead, this`phaseTag
      ensures Valid()
      ensures Driver() == Model.AdvanceHead(old(Driver()))
    {
      cplHead := (cplHead + 1) % depth;
      if cplHead == 0 {
        phaseTag := if phaseTag == 0 then 1 else 0;
      }
    }

    /** What the loop in CompleteCmd does with a request it found. */
    method AnswerRequest(srbext: SrbExt, cpl: Completion)
      requires Valid() && srbext.port == port
      modifies this`inflightCmds, srbext, port
      ensures Valid() && Driver() == old(Driver()).(inflight := old(inflightCmds) - 1)
      ensures srbext.nvmeCpl == cpl && srbext.Answered()
      ensures port.completed
           == old(port.completed) + Notified([Model.Note(srbext, SrbFromNvme(cpl.status))])
    {
      srbext.Answer(cpl);
      inflightCmds := inflightCmds - 1;
    }

    /** The body of the loop in CompleteCmd; `held` is the value `srbext` has from the pass before. */
    method ConsumeEntry(cpl: Completion, held: SrbExt?) returns (srbext: SrbExt?)
      requires Valid() && (held != null ==> held in history.members)
      modifies this, history.slots, history.members, port
      ensures Valid() && (srbext != null ==> srbext in history.members)
      ensures var r := Model.Consume(old(Driver()), cpl, Opt(held));
              && Driver() == r.driver
              && Opt(srbext) == r.held
              && port.completed == old(port.completed) + Notified(r.notes)
      ensures forall r :: r in history.members ==>
                if r == srbext then r.nvmeCpl == cpl && r.Answered() else unchanged(r)
    {
      ghost var d := Driver();
      subHead := cpl.sqhd;
      var _, popped := history.Pop(cpl.cid, held);
      srbext := popped;
      d := d.(history := Model.Pop(d.history, cpl.cid, Opt(held)).history, subHead := cpl.sqhd);
      assert Driver() == d;
      if srbext != null {
        AnswerRequest(srbext, cpl);
      }
      UpdateCplHeadAndPhase();
    }

    /** A pass of the loop, which is to end in `whole`; `notes` are the completions of the passes before. */
    method Pass(cpl: Completion, held: SrbExt?, ghost whole: Model.CompleteResult<SrbExt>, ghost n: nat, ghost max: nat,
                ghost notes: seq<Model.Note<SrbExt>>, ghost start: seq<(SrbExt, SrbStatus)>)
      returns (srbext: SrbExt?, ghost notes': seq<Model.Note<SrbExt>>)
      requires Valid() && (held != null ==> held in history.members)
      requires n < max && cpl == cplQ[cplHead] && Model.NewCplArrived(cpl, phaseTag)
      requires Model.LeadsTo(whole, Driver(), cplQ[..], Opt(held), n, max, notes)
      requires port.completed == start + Notified(notes)
      modifies this, history.slots, history.members, port
      ensures Valid() && (srbext != null ==> srbext in history.members)
      ensures Model.LeadsTo(whole, Driver(), cplQ[..], Opt(srbext), n + 1, max, notes')
      ensures port.completed == start + Notified(notes')
    {
      ghost var one := Model.Consume(Driver(), cpl, Opt(held));
      Model.LoopPass(whole, Driver(), cplQ[..], Opt(held), n, max, notes);
      NotifiedConcat(notes, one.notes);
      notes' := notes + one.notes;
      srbext := ConsumeEntry(cpl, held);
    }

    /** The loop of CompleteCmd. */
    method ConsumeArrived(max: nat) returns (updateCount: nat, ghost notes: seq<Model.Note<SrbExt>>)
      requires Valid() && 0 < max
      modifies this, history.slots, history.members, port
      ensures Valid()
      ensures Model.CompleteLoop(old(Driver()), cplQ[..], None, 0, max)
           == Model.CompleteResult(Driver(), notes, updateCount)
      ensures port.completed == old(port.completed) + Notified(notes)
    {
      var cpl := cplQ[cplHead];
      var srbext: SrbExt? := null;
      updateCount, notes := 0, [];
      ghost var whole := Model.CompleteLoop(Driver(), cplQ[..], None, 0, max);
      Model.LoopStart(Driver(), cplQ[..], max);
      while Model.NewCplArrived(cpl, phaseTag)
        invariant Valid() && cpl == cplQ[cplHead]
        invariant updateCount < max
        invariant srbext != null ==> srbext in history.members
        invariant port.completed == old(port.completed) + Notified(notes)
        invariant Model.LeadsTo(whole, Driver(), cplQ[..], Opt(srbext), updateCount, max, notes)
        decreases max - updateCount
      {
        srbext, notes := Pass(cpl, srbext, whole, updateCount, max, notes, old(port.completed));
        updateCount := updateCount + 1;
        cpl := cplQ[cplHead];
        if max <= updateCount {
          break;
        }
      }
      Model.LoopEnd(whole, Driver(), cplQ[..], Opt(srbext), updateCount, max, notes);
    }

    method CompleteCmd(maxCount: nat)
      requires Valid()
      modifies this, history.slots, history.members, port
      ensures Valid()
      ensures var r := Model.Complete(old(Driver()), cplQ[..], maxCount);
              && Driver() == r.driver
              && port.completed == old(port.completed) + Notified(r.notes)
    {
      var updateCount, notes := ConsumeArrived(if maxCount == 0 then depth else maxCount);
      if updateCount != 0 {
        cplDbl := cplHead;
      }
    }

    /** The loop of ResetAllCmd. */
    method MoveHeadToTail()
      requires Valid()
      modifies this`cplHead, this`phaseTag
      ensures Valid() && cplHead == subTail
      ensures Driver() == Model.FastForward(old(Driver()), Model.FastForwardSteps(old(cplHead), subTail, depth))
    {
      ghost var end := Model.FastForward(Driver(), Model.FastForwardSteps(cplHead, subTail, depth));
      while cplHead != subTail
        invariant Valid()
        invariant Model.FastForward(Driver(), Model.FastForwardSteps(cplHead, subTail, depth)) == end
        decreases Model.FastForwardSteps(cplHead, subTail, depth)
      {
        Model.FastForwardShrinks(cplHead, subTail, depth);
        UpdateCplHeadAndPhase();
      }
    }

    method ResetAllCmd()
      requires Valid()
      modifies this, history.slots, history.members, port
      ensures Valid()
      ensures Driver() == Model.ResetAll(old(Driver()))
      ensures port.completed == old(port.completed) + Notified(Model.ResetNotes(old(history.Table())))
      ensures forall i :: 0 <= i < history.slots.Length && old(history.slots[i]) != null ==>
                old(history.slots[i]).srbStatus == SrbBusReset
    {
      ghost var d := Driver();
      history.Reset(port);
      inflightCmds := 0;
      assert Driver() == d.(history := Model.Emptied(d.history), inflight := 0);
      MoveHeadToTail();
    }
  }
}
