/** From a SCSI READ or WRITE to an NVMe command over the same blocks, and into a queue. */
module ReadWrite {
  import opened NvmeTypes
  import opened NvmeQueueObjects
  import opened Controllers
  import opened NvmeDevices
  import opened PrpBuilder
  import Model = QueueModel

  const NVME_NVM_COMMAND_WRITE: uint8 := 0x01
  const NVME_NVM_COMMAND_READ: uint8 := 0x02

  const MAX_BLOCKS: int := 65536

  // ---- Big-endian fields ----

  function Power256(n: nat): nat {
    if n == 0 then 1 else 0x100 * Power256(n - 1)
  }

  /** The number in a big-endian field; REVERSE_BYTES_n stores it the other way round. */
  function ReverseBytes(field: seq<uint8>): (value: nat)
    ensures value < Power256(|field|)
  {
    if field == [] then 0 else ReverseBytes(field[..|field| - 1]) * 0x100 + field[|field| - 1]
  }

  /** The big-endian field of `n` bytes for a number. */
  function Field(value: nat, n: nat): (field: seq<uint8>)
    ensures |field| == n
  {
    if n == 0 then [] else Field(value / 0x100, n - 1) + [value % 0x100]
  }

  lemma {:induction false} FieldOfReverse(field: seq<uint8>)
    ensures Field(ReverseBytes(field), |field|) == field
  {
    if field != [] {
      FieldOfReverse(field[..|field| - 1]);
    }
  }

  lemma {:induction false} ReverseOfField(value: nat, n: nat)
    requires value < Power256(n)
    ensures ReverseBytes(Field(value, n)) == value
  {
    if n > 0 {
      ReverseOfField(value / 0x100, n - 1);
      assert Field(value, n)[..n - 1] == Field(value / 0x100, n - 1);
    }
  }

  lemma Powers()
    ensures Power256(1) == 0x100 && Power256(2) == 0x1_0000
    ensures Power256(4) == 0x1_0000_0000 && Power256(8) == 0x1_0000_0000_0000_0000
  {
    assert Power256(3) == 0x100_0000;
    assert Power256(5) == 0x100_0000_0000;
    assert Power256(6) == 0x1_0000_0000_0000;
    assert Power256(7) == 0x100_0000_0000_0000;
  }

  // ---- Command descriptor blocks ----

  datatype Form = Cdb6 | Cdb10 | Cdb12 | Cdb16

  function FormOf(opcode: uint8): Option<Form> {
    match opcode
    case 0x08 => Some(Cdb6)   // READ(6)
    case 0x0A => Some(Cdb6)   // WRITE(6)
    case 0x28 => Some(Cdb10)
    case 0x2A => Some(Cdb10)
    case 0xA8 => Some(Cdb12)
    case 0xAA => Some(Cdb12)
    case 0x88 => Some(Cdb16)
    case 0x8A => Some(Cdb16)
    case _ => None
  }

  predicate IsWrite(opcode: uint8) {
    opcode in {0x0A, 0x2A, 0xAA, 0x8A}
  }

  /** What each form has room for; READ(6) and WRITE(6) have no way to ask for no blocks. */
  predicate Encodable(form: Form, lba: nat, blocks: nat) {
    match form
    case Cdb6 => lba < 0x20_0000 && 1 <= blocks <= 0x100
    case Cdb10 => lba < 0x1_0000_0000 && blocks < 0x1_0000
    case Cdb12 => lba < 0x1_0000_0000 && blocks < 0x1_0000_0000
    case Cdb16 => lba < 0x1_0000_0000_0000_0000 && blocks < 0x1_0000_0000
  }

  /** `cdb` asks for `blocks` blocks from `lba` on; flag, group and control bits may be anything. */
  predicate Encodes(form: Form, cdb: seq<uint8>, lba: nat, blocks: nat) {
    && |cdb| == 16
    && Encodable(form, lba, blocks)
    && match form
       case Cdb6 => cdb[1] % 0x20 == lba / 0x1_0000 && cdb[2..4] == Field(lba % 0x1_0000, 2) && cdb[4] == blocks % 0x100
       case Cdb10 => cdb[2..6] == Field(lba, 4) && cdb[7..9] == Field(blocks, 2)
       case Cdb12 => cdb[2..6] == Field(lba, 4) && cdb[6..10] == Field(blocks, 4)
       case Cdb16 => cdb[2..10] == Field(lba, 8) && cdb[10..14] == Field(blocks, 4)
  }

  lemma EncodesOnce6(cdb: seq<uint8>, lba: nat, blocks: nat, lba': nat, blocks': nat)
    requires Encodes(Cdb6, cdb, lba, blocks) && Encodes(Cdb6, cdb, lba', blocks')
    ensures lba == lba' && blocks == blocks'
  {
    Powers();
    var (high, low, high', low') := (lba / 0x1_0000, lba % 0x1_0000, lba' / 0x1_0000, lba' % 0x1_0000);
    ReverseOfField(low, 2);
    ReverseOfField(low', 2);
    assert high == high' && low == low';
    assert lba == high * 0x1_0000 + low && lba' == high' * 0x1_0000 + low';
  }

  /** A CDB asks for one thing only. */
  lemma EncodesOnce(form: Form, cdb: seq<uint8>, lba: nat, blocks: nat, lba': nat, blocks': nat)
    requires Encodes(form, cdb, lba, blocks) && Encodes(form, cdb, lba', blocks')
    ensures lba == lba' && blocks == blocks'
  {
    Powers();
    match form
    case Cdb6 => EncodesOnce6(cdb, lba, blocks, lba', blocks');
    case Cdb10 =>
      ReverseOfField(lba, 4); ReverseOfField(lba', 4);
      ReverseOfField(blocks, 2); ReverseOfField(blocks', 2);
    case Cdb12 =>
      ReverseOfField(lba, 4); ReverseOfField(lba', 4);
      ReverseOfField(blocks, 4); ReverseOfField(blocks', 4);
    case Cdb16 =>
      ReverseOfField(lba, 8); ReverseOfField(lba', 8);
      ReverseOfField(blocks, 4); ReverseOfField(blocks', 4);
  }

  /** `bytes` is the field of `value`. */
  predicate IsField(value: nat, bytes: seq<uint8>) {
    bytes == Field(value, |bytes|)
  }

  lemma OneByteMore(value: nat, bytes: seq<uint8>, low: uint8, more: nat)
    requires IsField(value, bytes) && more == value * 0x100 + low
    ensures IsField(more, bytes + [low])
  {
    assert more / 0x100 == value && more % 0x100 == low;
  }

  lemma TwoBytes(bytes: seq<uint8>)
    requires |bytes| == 2
    ensures IsField(bytes[0] as int * 0x100 + bytes[1], bytes)
  {
    OneByteMore(0, [], bytes[0], bytes[0]);
    OneByteMore(bytes[0], [bytes[0]], bytes[1], bytes[0] as int * 0x100 + bytes[1]);
    assert [bytes[0]] + [bytes[1]] == bytes;
  }

  /** Two bytes behind the field of `value`. */
  lemma TwoBytesMore(value: nat, bytes: seq<uint8>, a: uint8, b: uint8)
    requires IsField(value, bytes)
    ensures IsField(value * 0x1_0000 + a * 0x100 + b, bytes + [a, b])
  {
    OneByteMore(value, bytes, a, value * 0x100 + a);
    OneByteMore(value * 0x100 + a, bytes + [a], b, value * 0x1_0000 + a * 0x100 + b);
    assert bytes + [a] + [b] == bytes + [a, b];
  }

  lemma Known4(a: uint8, b: uint8, c: uint8, d: uint8, value: nat)
    requires value == (a * 0x100 + b) * 0x1_0000 + c * 0x100 + d
    ensures IsField(value, [a, b, c, d])
  {
    TwoBytes([a, b]);
    TwoBytesMore(a * 0x100 + b, [a, b], c, d);
    assert [a, b] + [c, d] == [a, b, c, d];
  }

  lemma Known8(a: uint8, b: uint8, c: uint8, d: uint8, value: nat)
    requires value == (a * 0x100 + b) * 0x1_0000 + c * 0x100 + d
    ensures IsField(value, [0, 0, 0, 0, a, b, c, d])
  {
    Known4(0, 0, 0, 0, 0);
    TwoBytesMore(0, [0, 0, 0, 0], a, b);
    TwoBytesMore(a * 0x100 + b, [0, 0, 0, 0] + [a, b], c, d);
    assert [0, 0, 0, 0] + [a, b] + [c, d] == [0, 0, 0, 0, a, b, c, d];
  }

  /** One CDB of each kind, byte by byte. */
  lemma Known6()
    ensures Encodes(Cdb6, [0x08, 0x12, 0x34, 0x56, 0x08, 0, 0, 0, 0, 0, 0, 0, 0, 0, 0, 0], 0x12_3456, 8)
  {
    TwoBytes([0x34, 0x56]);
  }

  lemma Known10()
    ensures Encodes(Cdb10, [0x28, 0, 0x12, 0x34, 0x56, 0x78, 0, 0x01, 0x02, 0, 0, 0, 0, 0, 0, 0], 0x1234_5678, 0x102)
  {
    var cdb: seq<uint8> := [0x28, 0, 0x12, 0x34, 0x56, 0x78, 0, 0x01, 0x02, 0, 0, 0, 0, 0, 0, 0];
    Known4(0x12, 0x34, 0x56, 0x78, 0x1234_5678);
    TwoBytes([0x01, 0x02]);
    assert cdb[2..6] == [0x12, 0x34, 0x56, 0x78] && cdb[7..9] == [0x01, 0x02];
  }

  lemma Known12()
    ensures Encodes(Cdb12, [0xAA, 0, 0x12, 0x34, 0x56, 0x78, 0, 0, 0x01, 0x02, 0, 0, 0, 0, 0, 0], 0x1234_5678, 0x102)
  {
    var cdb: seq<uint8> := [0xAA, 0, 0x12, 0x34, 0x56, 0x78, 0, 0, 0x01, 0x02, 0, 0, 0, 0, 0, 0];
    Known4(0x12, 0x34, 0x56, 0x78, 0x1234_5678);
    Known4(0, 0, 0x01, 0x02, 0x102);
    assert cdb[2..6] == [0x12, 0x34, 0x56, 0x78] && cdb[6..10] == [0, 0, 0x01, 0x02];
  }

  lemma Known16()
    ensures Encodes(Cdb16, [0x8A, 0, 0, 0, 0, 0, 0x12, 0x34, 0x56, 0x78, 0, 0, 0x01, 0x02, 0, 0], 0x1234_5678, 0x102)
  {
    var cdb: seq<uint8> := [0x8A, 0, 0, 0, 0, 0, 0x12, 0x34, 0x56, 0x78, 0, 0, 0x01, 0x02, 0, 0];
    Known8(0x12, 0x34, 0x56, 0x78, 0x1234_5678);
    Known4(0, 0, 0x01, 0x02, 0x102);
    assert cdb[2..10] == [0, 0, 0, 0, 0x12, 0x34, 0x56, 0x78] && cdb[10..14] == [0, 0, 0x01, 0x02];
  }

  method Parse6(cdb: seq<uint8>) returns (offset: uint64, len: uint32)
    requires |cdb| == 16
    ensures Encodes(Cdb6, cdb, offset, len)
  {
    offset := cdb[1] as int % 0x20 * 0x1_0000 + cdb[2] as int * 0x100 + cdb[3];
    len := cdb[4];
    if len == 0 {
      len := 256;
    }
    var low: nat := cdb[2] as int * 0x100 + cdb[3];
    assert offset % 0x1_0000 == low && offset / 0x1_0000 == cdb[1] % 0x20;
    assert Field(low / 0x100, 1) == [cdb[2]] by {
      assert Field(low / 0x100 / 0x100, 0) == [];
    }
  }

  method Parse10(cdb: seq<uint8>) returns (offset: uint64, len: uint32)
    requires |cdb| == 16
    ensures Encodes(Cdb10, cdb, offset, len)
  {
    Powers();
    offset := ReverseBytes(cdb[2..6]);
    len := ReverseBytes(cdb[7..9]);
    FieldOfReverse(cdb[2..6]);
    FieldOfReverse(cdb[7..9]);
  }

  method Parse12(cdb: seq<uint8>) returns (offset: uint64, len: uint32)
    requires |cdb| == 16
    ensures Encodes(Cdb12, cdb, offset, len)
  {
    Powers();
    offset := ReverseBytes(cdb[2..6]);
    len := ReverseBytes(cdb[6..10]);
    FieldOfReverse(cdb[2..6]);
    FieldOfReverse(cdb[6..10]);
  }

  method Parse16(cdb: seq<uint8>) returns (offset: uint64, len: uint32)
    requires |cdb| == 16
    ensures Encodes(Cdb16, cdb, offset, len)
  {
    Powers();
    offset := ReverseBytes(cdb[2..10]);
    len := ReverseBytes(cdb[10..14]);
    FieldOfReverse(cdb[2..10]);
    FieldOfReverse(cdb[10..14]);
  }

  /** The dispatch on the operation code. */
  method ParseReadWriteOffsetAndLen(cdb: seq<uint8>) returns (ok: bool, offset: uint64, len: uint32)
    requires |cdb| == 16
    ensures ok <==> FormOf(cdb[0]).Some?
    ensures ok ==> Encodes(FormOf(cdb[0]).value, cdb, offset, len)
    ensures cdb[0] in {0x08, 0x0A} ==> ok && Encodes(Cdb6, cdb, offset, len)
    ensures cdb[0] in {0x28, 0x2A} ==> ok && Encodes(Cdb10, cdb, offset, len)
    ensures cdb[0] in {0xA8, 0xAA} ==> ok && Encodes(Cdb12, cdb, offset, len)
    ensures cdb[0] in {0x88, 0x8A} ==> ok && Encodes(Cdb16, cdb, offset, len)
  {
    ok, offset, len := true, 0, 0;
    match FormOf(cdb[0])
    case Some(Cdb6) => offset, len := Parse6(cdb);
    case Some(Cdb10) => offset, len := Parse10(cdb);
    case Some(Cdb12) => offset, len := Parse12(cdb);
    case Some(Cdb16) => offset, len := Parse16(cdb);
    case None => ok := false;
  }

  // ---- The NVMe command ----

  datatype Transfer = Transfer(write: bool, nsid: nat, lba: nat, blocks: nat)

  /** What a controller does with a Read or Write command (NVMe 1.3, sections 6.9 and 6.15): NLB counts from 0. */
  function Meaning(cmd: Command): Option<Transfer> {
    if cmd.opc == NVME_NVM_COMMAND_READ || cmd.opc == NVME_NVM_COMMAND_WRITE then
      Some(Transfer(cmd.opc == NVME_NVM_COMMAND_WRITE, cmd.nsid, cmd.cdw11 * 0x1_0000_0000 + cmd.cdw10,
                    LowWord(cmd.cdw12) + 1))
    else
      None
  }

  /** The number of blocks that is left of `blocks` in the 16-bit field. */
  function BlocksKept(blocks: nat): nat {
    (blocks - 1) % 0x1_0000 + 1
  }

  /** The field is wide enough exactly for 1 to 65536 blocks; no block at all becomes 65536. */
  lemma BlocksKeptExact(blocks: nat)
    ensures BlocksKept(blocks) == blocks <==> 1 <= blocks <= MAX_BLOCKS
    ensures BlocksKept(0) == MAX_BLOCKS
  {
  }

  /** The entries of the request's PRP list. */
  function ListEntries(srbext: SrbExt): seq<nat>
    reads srbext, srbext.prp2, if srbext.prp2 == null then {} else {srbext.prp2.entries}
  {
    if srbext.prp2 == null then [] else srbext.prp2.entries[..]
  }

  /** The data pointer of the request's command leads the controller over the request's buffer. */
  ghost predicate PointsAtBuffer(srbext: SrbExt, pageMap: nat -> nat)
    reads srbext, srbext.prp2, if srbext.prp2 == null then {} else {srbext.prp2.entries}
  {
    LeadsOver(srbext.nvmeCmd, ListEntries(srbext), srbext.DataBuf(), srbext.DataBufLen(), pageMap)
  }

  ghost predicate LeadsOver(cmd: Command, list: seq<nat>, buf: nat, len: nat, pageMap: nat -> nat) {
    Walk(cmd.prp1, cmd.prp2, list, len) == Image(pageMap, buf, len)
  }

  /** The buffer needs a list, and there was no memory for one. */
  predicate ListMissing(srbext: SrbExt, pool: ListPage?) {
    NeedsList(srbext.DataBuf(), srbext.DataBufLen()) && pool == null
  }

  /** The request's command has the tag, the unit and, unless the list is missing, the data buffer of its SRB. */
  ghost predicate Carries(srbext: SrbExt, pageMap: nat -> nat, pool: ListPage?)
    reads srbext, srbext.prp2, if srbext.prp2 == null then {} else {srbext.prp2.entries}
  {
    srbext.srb.Some? ==>
      var srb, cmd := srbext.srb.value, srbext.nvmeCmd;
      && cmd.cid == srb.tag % 0x1_0000 && cmd.nsid == srb.lun + 1
      && ((NeedsList(srb.dataBuf, srb.dataLen) && pool == null)
          || LeadsOver(cmd, ListEntries(srbext), srb.dataBuf, srb.dataLen, pageMap))
  }

  /** The result of BuildPrp is not looked at: without memory for a list that is needed, PRP2 stays 0. */
  method BuildCmdReadWrite(srbext: SrbExt, offset: uint64, blocks: uint32, isWrite: bool,
                           pageMap: nat -> nat, pool: ListPage?)
    requires ListFits(srbext.DataBuf(), srbext.DataBufLen())
    requires pool != null ==> pool.entries.Length == LIST_ENTRIES && pool.va % PAGE_SIZE == 0
    requires srbext.prp2 == null
    modifies srbext`nvmeCmd, srbext`prp2, srbext`freePrp2List, if pool == null then {} else {pool.entries}
    ensures Meaning(srbext.nvmeCmd) == Some(Transfer(isWrite, srbext.Lun() + 1, offset, BlocksKept(blocks)))
    ensures srbext.nvmeCmd.cid == LowWord(srbext.ScsiQTag())
    ensures Carries(srbext, pageMap, pool)
    ensures srbext.nvmeCmd.cdw10 == offset % 0x1_0000_0000 && srbext.nvmeCmd.cdw11 == offset / 0x1_0000_0000
    ensures 1 <= blocks <= 0x1_0000 ==> srbext.nvmeCmd.cdw12 == blocks - 1
    ensures if ListMissing(srbext, pool) then srbext.nvmeCmd.prp2 == 0 && srbext.prp2 == null
            else PointsAtBuffer(srbext, pageMap)
  {
    srbext.nvmeCmd := ZERO_COMMAND;
    var nsid := srbext.Lun() + 1;
    srbext.nvmeCmd := srbext.nvmeCmd.(opc := if isWrite then NVME_NVM_COMMAND_WRITE else NVME_NVM_COMMAND_READ);
    srbext.nvmeCmd := srbext.nvmeCmd.(cid := LowWord(srbext.ScsiQTag()), nsid := nsid);
    var _ := BuildPrp(srbext, srbext.DataBuf(), srbext.DataBufLen(), pageMap, pool);
    srbext.nvmeCmd := srbext.nvmeCmd.(cdw10 := offset % 0x1_0000_0000, cdw11 := offset / 0x1_0000_0000);
    srbext.nvmeCmd := srbext.nvmeCmd.(cdw12 := (blocks - 1) % 0x1_0000);
  }

  // ---- The request ----

  /** The request can be built: its list fits one page, and its LUN is in the table of namespaces. */
  ghost predicate Buildable(dev: NvmeDevice, srbext: SrbExt, pool: ListPage?)
    reads dev, srbext
  {
    && srbext.srb.Some? && srbext.port == dev.port && srbext.prp2 == null
    && srbext.Lun() < |dev.nsze|
    && ListFits(srbext.DataBuf(), srbext.DataBufLen())
    && (pool != null ==> pool.entries.Length == LIST_ENTRIES && pool.va % PAGE_SIZE == 0)
  }

  /** What SubmitCmd makes of a command with tag `cid`, as the SRB status it ends in. */
  function QueueAnswer<R>(d: Model.Driver<R>, cid: nat): SrbStatus {
    if !d.ready then SrbError
    else if !Model.IsSafeForSubmit(d.depth, d.inflight) then SrbBusy
    else if cid >= |d.history| then SrbError
    else SrbPending
  }

  /** The status SubmitCmd returns, as the SRB status it becomes. */
  function AsSrbStatus(status: NtStatus): SrbStatus {
    match status
    case StatusSuccess => SrbPending
    case StatusDeviceBusy => SrbBusy
    case _ => SrbError
  }

  /** The queue's answer is the status of SubmitCmd; when it is not taken, nothing changes. */
  lemma AnswerIsStatus<R>(d: Model.Driver<R>, req: R, cmd: Command)
    requires d.Valid()
    ensures var r := Model.Submit(d, req, cmd);
            && QueueAnswer(d, cmd.cid) == AsSrbStatus(r.status)
            && (r.status != StatusSuccess ==> r.driver == d && r.notes == [])
  {
  }

  /** What the device makes of a request for blocks that pass the check. */
  ghost function DeviceAnswer(dev: NvmeDevice, srbext: SrbExt, cpu: nat): Outcome<SrbStatus>
    requires dev.Picked(cpu) != null ==> dev.Picked(cpu).Valid()
    reads dev, dev.ioQueue, srbext
    reads var q := dev.Picked(cpu); if q == null then {} else {q, q.subQ, q.history, q.history.slots}
  {
    if dev.namespaceCount == 0 || !dev.IsWorking() then Returned(SrbError)
    else if dev.Picked(cpu) == null then BugCheck
    else Returned(QueueAnswer(dev.Picked(cpu).Driver(), LowWord(srbext.ScsiQTag())))
  }

  /** READ and WRITE, by their operation codes in SCSI and in NVMe. */
  predicate SameOperation(scsi: uint8, nvme: uint8) {
    (scsi in {0x08, 0x28, 0xA8, 0x88} && nvme == 0x02) || (scsi in {0x0A, 0x2A, 0xAA, 0x8A} && nvme == 0x01)
  }

  /** What an accepted request leaves behind: its command is in the ring, and the request in the table. */
  twostate predicate Submitted(dev: NvmeDevice, srbext: SrbExt, cpu: nat)
    reads dev, dev.ioQueue, dev.PickedObjects(cpu), srbext, dev.port
  {
    var q, q' := old(dev.Picked(cpu)), dev.Picked(cpu);
    && q != null && q == q' && old(q.Valid()) && q.Valid()
    && var r := Model.Submit(old(q.Driver()), srbext, srbext.nvmeCmd);
       && r.status == StatusSuccess
       && q.Driver() == r.driver
       && q.history.members == old(q.history.members) + {srbext}
       && dev.port.completed == old(dev.port.completed) + Notified(r.notes)
  }

  /** What a refused request leaves behind: the queue as it was. */
  twostate predicate Untouched(dev: NvmeDevice, cpu: nat)
    reads dev, dev.ioQueue, dev.PickedObjects(cpu)
  {
    var q, q' := old(dev.Picked(cpu)), dev.Picked(cpu);
    && q == q'
    && (q != null ==> old(q.Valid()) && q.Valid() && q.Driver() == old(q.Driver()))
  }

  /** Namespace check, command, submission. */
  method ScsiReadWrite(dev: NvmeDevice, srbext: SrbExt, offset: uint64, len: uint32, isWrite: bool, cpu: nat,
                       pageMap: nat -> nat, pool: ListPage?)
    returns (outcome: Outcome<SrbStatus>)
    requires Buildable(dev, srbext, pool) && dev.Counted()
    requires dev.Picked(cpu) != null ==> dev.Picked(cpu).Valid()
    modifies srbext, dev.PickedObjects(cpu), if pool == null then {} else {pool.entries}
    ensures outcome in {Returned(SrbPending), Returned(SrbBusy), Returned(SrbError), BugCheck}
    ensures outcome == Returned(SrbPending) ==> Submitted(dev, srbext, cpu)
    ensures outcome == Returned(SrbPending) ==>
              && Meaning(srbext.nvmeCmd) == Some(Transfer(isWrite, srbext.Lun() + 1, offset, BlocksKept(len)))
              && srbext.nvmeCmd.cid == LowWord(srbext.ScsiQTag())
              && (!ListMissing(srbext, pool) ==> PointsAtBuffer(srbext, pageMap))
              && Carries(srbext, pageMap, pool)
    ensures outcome != Returned(SrbPending) ==> Untouched(dev, cpu) && dev.port.completed == old(dev.port.completed)
    ensures outcome == if !RangeCheck(offset, len, old(dev.nsze[srbext.Lun()])) then Returned(SrbError)
                         else old(DeviceAnswer(dev, srbext, cpu))
  {
    if !dev.IsInValidIoRange(srbext.Lun() + 1, offset, len) {
      return Returned(SrbError);
    }
    BuildCmdReadWrite(srbext, offset, len, isWrite, pageMap, pool);
    assert dev.Picked(cpu) != null ==> dev.Picked(cpu).Driver() == old(dev.Picked(cpu).Driver());
    outcome := SubmitReadWrite(dev, srbext, cpu);
  }

  method SubmitReadWrite(dev: NvmeDevice, srbext: SrbExt, cpu: nat) returns (outcome: Outcome<SrbStatus>)
    requires dev.Counted() && srbext.port == dev.port
    requires dev.Picked(cpu) != null ==> dev.Picked(cpu).Valid()
    modifies srbext, dev.PickedObjects(cpu)
    ensures outcome in {Returned(SrbPending), Returned(SrbBusy), Returned(SrbError), BugCheck}
    ensures srbext.nvmeCmd == old(srbext.nvmeCmd) && srbext.prp2 == old(srbext.prp2)
    ensures ListEntries(srbext) == old(ListEntries(srbext))
    ensures outcome == Returned(SrbPending) ==> Submitted(dev, srbext, cpu)
    ensures outcome != Returned(SrbPending) ==> Untouched(dev, cpu) && dev.port.completed == old(dev.port.completed)
    ensures outcome == if !dev.IsWorking() then Returned(SrbError)
                       else if dev.Picked(cpu) == null then BugCheck
                       else Returned(QueueAnswer(old(dev.Picked(cpu).Driver()), srbext.nvmeCmd.cid))
  {
    if dev.Picked(cpu) != null {
      AnswerIsStatus(dev.Picked(cpu).Driver(), srbext, srbext.nvmeCmd);
    }
    var submitted := dev.SubmitIoCmd(srbext, srbext.nvmeCmd, cpu);
    if submitted.BugCheck? {
      return BugCheck;
    }
    if submitted.status != StatusSuccess {
      return Returned(if submitted.status == StatusDeviceBusy then SrbBusy else SrbError);
    }
    return Returned(SrbPending);
  }

  /**
    Whatever blocks the CDB asks for: blocks outside the namespace are refused, and for blocks inside it the request
    ends as `answer` says; a pending request has a command for exactly those blocks, in the same direction.
    (1 to 65536 blocks, not beyond 2^64, of a namespace that is not empty.)
   */
  ghost predicate SameBlocks(outcome: Outcome<SrbStatus>, answer: Outcome<SrbStatus>, cmd: Command,
                             cdb: seq<uint8>, lun: nat, total: nat)
  {
    forall lba: nat, blocks: nat ::
      |cdb| == 16 && FormOf(cdb[0]).Some? && Encodes(FormOf(cdb[0]).value, cdb, lba, blocks)
      && 1 <= blocks <= MAX_BLOCKS && lba + blocks <= TWO_TO_THE_64 && 0 < total ==>
        && outcome == (if lba + blocks <= total then answer else Returned(SrbError))
        && (outcome == Returned(SrbPending) ==> Meaning(cmd) == Some(Transfer(IsWrite(cdb[0]), lun + 1, lba, blocks)))
  }

  /** `offset` and `len` were read from the CDB, and the request ends as the check and `answer` say. */
  predicate Translated(outcome: Outcome<SrbStatus>, answer: Outcome<SrbStatus>, cmd: Command, cdb: seq<uint8>,
                       lun: nat, total: uint64, offset: uint64, len: uint32)
  {
    && |cdb| == 16 && FormOf(cdb[0]).Some? && Encodes(FormOf(cdb[0]).value, cdb, offset, len)
    && (outcome == Returned(SrbPending) ==>
          Meaning(cmd) == Some(Transfer(IsWrite(cdb[0]), lun + 1, offset, BlocksKept(len))))
    && outcome == if RangeCheck(offset, len, total) then answer else Returned(SrbError)
  }

  lemma SameBlocksHolds(outcome: Outcome<SrbStatus>, answer: Outcome<SrbStatus>, cmd: Command, cdb: seq<uint8>,
                        lun: nat, total: uint64, offset: uint64, len: uint32)
    requires Translated(outcome, answer, cmd, cdb, lun, total, offset, len)
    ensures SameBlocks(outcome, answer, cmd, cdb, lun, total)
  {
    forall lba: nat, blocks: nat | Encodes(FormOf(cdb[0]).value, cdb, lba, blocks)
      ensures lba == offset && blocks == len
    {
      EncodesOnce(FormOf(cdb[0]).value, cdb, lba, blocks, offset, len);
    }
    if 1 <= len <= MAX_BLOCKS && offset + len <= TWO_TO_THE_64 && 0 < total {
      BlocksKeptExact(len);
      RangeCheckExact(offset, len, total);
    }
  }

  /** StartIo_ScsiHandler for the READ and WRITE commands: `offset` and `len` are what the CDB asks for. */
  method StartIoScsi(dev: NvmeDevice, srbext: SrbExt, cpu: nat, pageMap: nat -> nat, pool: ListPage?)
    returns (outcome: Outcome<SrbStatus>, ghost offset: uint64, ghost len: uint32)
    requires Buildable(dev, srbext, pool) && dev.Counted()
    requires dev.Picked(cpu) != null ==> dev.Picked(cpu).Valid()
    requires |srbext.srb.value.cdb| == 16 && FormOf(srbext.srb.value.cdb[0]).Some?
    modifies srbext, dev.PickedObjects(cpu), if pool == null then {} else {pool.entries}
    ensures outcome == Returned(SrbPending) ==> Submitted(dev, srbext, cpu)
    ensures outcome != Returned(SrbPending) ==> Untouched(dev, cpu) && dev.port.completed == old(dev.port.completed)
    ensures Translated(outcome, old(DeviceAnswer(dev, srbext, cpu)), srbext.nvmeCmd, srbext.srb.value.cdb,
                       srbext.Lun(), old(dev.nsze[srbext.Lun()]), offset, len)
    ensures outcome == Returned(SrbPending) ==>
              Carries(srbext, pageMap, pool) && SameOperation(srbext.srb.value.cdb[0], srbext.nvmeCmd.opc)
  {
    var cdb := srbext.srb.value.cdb;
    var _, first, blocks := ParseReadWriteOffsetAndLen(cdb);
    outcome := ScsiReadWrite(dev, srbext, first, blocks, IsWrite(cdb[0]), cpu, pageMap, pool);
    offset, len := first, blocks;
  }

  /**
    HwBuildIo: a request that is not to go on to HwStartIo is completed here, once; one that goes on is not
    completed.  `pnpStatus` is what the plug and play handler decides.
   */
  method HwBuildIo(srbext: SrbExt, pnpStatus: SrbStatus) returns (needStartIo: bool)
    requires srbext.srb.Some?
    modifies srbext`srbStatus, srbext.port
    ensures needStartIo <==>
              || srbext.srb.value.func == IoControl
              || (srbext.srb.value.func == ExecuteScsi
                  && srbext.srb.value.path == srbext.srb.value.target == srbext.srb.value.lun == 0)
    ensures if needStartIo
            then srbext.port.completed == old(srbext.port.completed) && srbext.srbStatus == old(srbext.srbStatus)
            else srbext.port.completed == old(srbext.port.completed) + [(srbext, srbext.srbStatus)]
    ensures !needStartIo ==>
              srbext.srbStatus == if srbext.srb.value.func == ExecuteScsi then SrbInvalidLun
                                  else if srbext.srb.value.func == Pnp then pnpStatus
                                  else SrbInvalidRequest
  {
    var srb := srbext.srb.value;
    match srb.func
    case AbortCommand | ResetLogicalUnit | ResetDevice | ResetBus =>
      srbext.CompleteSrb(SrbInvalidRequest);
      return false;
    case Power =>
      srbext.CompleteSrb(SrbInvalidRequest);
      return false;
    case ExecuteScsi =>
      if !(srb.path == 0 && srb.target == 0 && srb.lun == 0) {
        srbext.CompleteSrb(SrbInvalidLun);
        return false;
      }
      return true;
    case IoControl =>
      return true;
    case Pnp =>
      srbext.CompleteSrb(pnpStatus);
      return false;
    case OtherFunction =>
      srbext.CompleteSrb(SrbInvalidRequest);
      return false;
  }

  /**
    HwStartIo for the READ and WRITE commands.  Either the request is in the queue, with a command for exactly
    the blocks its CDB asks for and a data pointer that covers its buffer, and it is not completed; or the
    queue is as it was and the request is completed once.  Which of the two, `SameBlocks` says.  (With no registered
    queue the machine stops, with the request not completed.)
   */
  method HwStartIo(dev: NvmeDevice, srbext: SrbExt, cpu: nat, pageMap: nat -> nat, pool: ListPage?)
    returns (handled: bool, ghost outcome: Outcome<SrbStatus>, ghost offset: uint64, ghost len: uint32)
    requires Buildable(dev, srbext, pool) && dev.Counted()
    requires dev.Picked(cpu) != null ==> dev.Picked(cpu).Valid()
    requires |srbext.srb.value.cdb| == 16 && FormOf(srbext.srb.value.cdb[0]).Some?
    modifies srbext, dev.PickedObjects(cpu), dev.port, if pool == null then {} else {pool.entries}
    ensures handled
    ensures outcome == Returned(SrbPending) ==> Submitted(dev, srbext, cpu)
    ensures outcome != Returned(SrbPending) ==>
              && Untouched(dev, cpu)
              && dev.port.completed
                 == old(dev.port.completed) + if outcome.BugCheck? then [] else [(srbext, outcome.status)]
    ensures Translated(outcome, old(DeviceAnswer(dev, srbext, cpu)), srbext.nvmeCmd, srbext.srb.value.cdb,
                       srbext.Lun(), old(dev.nsze[srbext.Lun()]), offset, len)
    ensures SameBlocks(outcome, old(DeviceAnswer(dev, srbext, cpu)), srbext.nvmeCmd, srbext.srb.value.cdb,
                       srbext.Lun(), old(dev.nsze[srbext.Lun()]))
    ensures outcome == Returned(SrbPending) ==>
              Carries(srbext, pageMap, pool) && SameOperation(srbext.srb.value.cdb[0], srbext.nvmeCmd.opc)
  {
    ghost var answer, total := DeviceAnswer(dev, srbext, cpu), dev.nsze[srbext.Lun()];
    var ended;
    ended, offset, len := StartIoScsi(dev, srbext, cpu, pageMap, pool);
    SameBlocksHolds(ended, answer, srbext.nvmeCmd, srbext.srb.value.cdb, srbext.Lun(), total, offset, len);
    if ended.Returned? && ended.status != SrbPending {
      srbext.CompleteSrb(ended.status);
    }
    return true, ended, offset, len;
  }

  /**
    From a running device without I/O queues to its first READ or WRITE: create the queues, register them, and
    hand the request to HwStartIo.  When a queue was registered, the request is pending exactly when the range
    check accepts its blocks, the depth lets one command through, and its tag is in the table.
   */
  method FirstReadWrite(dev: NvmeDevice, admin: AdminPath, setupOk: nat -> bool, pa: nat -> (nat, nat),
                        srbext: SrbExt, cpu: nat, pageMap: nat -> nat, pool: ListPage?)
    returns (ghost outcome: Outcome<SrbStatus>, ghost offset: uint64, ghost len: uint32)
    requires dev.Prefix() && dev.IsWorking() && dev.allocatedIoQ == dev.registeredIoQ == 0
    requires dev.desiredIoQ <= MAX_IO_QUEUE_COUNT && 0 < dev.ioDepth && 0 < dev.namespaceCount
    requires Buildable(dev, srbext, pool)
    requires |srbext.srb.value.cdb| == 16 && FormOf(srbext.srb.value.cdb[0]).Some?
    modifies dev`allocatedIoQ, dev`registeredIoQ, dev.ioQueue, admin, srbext, dev.port
    modifies if pool == null then {} else {pool.entries}
    ensures dev.Counted() && |srbext.srb.value.cdb| == 16
    ensures FormOf(srbext.srb.value.cdb[0]).Some?
    ensures Encodes(FormOf(srbext.srb.value.cdb[0]).value, srbext.srb.value.cdb, offset, len)
    ensures dev.registeredIoQ == 0 <==>
              dev.desiredIoQ == 0 || !setupOk(0) || !PairAcknowledged(admin, old(admin.attempts))
    ensures RangeCheck(offset, len, dev.nsze[srbext.Lun()]) ==>
              (dev.registeredIoQ == 0 <==> outcome == BugCheck)
    ensures 0 < dev.registeredIoQ ==>
              (outcome == Returned(SrbPending)
               <==> && RangeCheck(offset, len, dev.nsze[srbext.Lun()])
                    && Model.IsSafeForSubmit(dev.ioDepth, 0)
                    && srbext.srb.value.tag % 0x1_0000 < MAX_IO_PER_LU)
    ensures outcome == Returned(SrbPending) ==>
              Carries(srbext, pageMap, pool) && SameOperation(srbext.srb.value.cdb[0], srbext.nvmeCmd.opc)
  {
    dev.BringUpFor(setupOk, pa, admin, cpu);
    assert DeviceAnswer(dev, srbext, cpu) == if dev.Picked(cpu) == null then BugCheck
                                             else Returned(QueueAnswer(dev.Picked(cpu).Driver(),
                                                                       LowWord(srbext.ScsiQTag())));
    var handled;
    handled, outcome, offset, len := HwStartIo(dev, srbext, cpu, pageMap, pool);
  }

  // ---- Two requests ----

  /** A submission whose slot is free, with room in the throttle: nothing is completed and only that slot changes. */
  lemma FreeSubmission<R>(d: Model.Driver<R>, req: R, cmd: Command)
    requires d.Valid() && d.ready && 0 <= d.inflight < d.depth - Model.SAFE_SUBMIT_THRESHOLD
    requires cmd.cid < |d.history| && d.history[cmd.cid].None?
    ensures QueueAnswer(d, cmd.cid) == SrbPending
    ensures var r := Model.Submit(d, req, cmd);
            && r.notes == [] && r.driver.history == d.history[cmd.cid := Some(req)]
            && r.driver.ready && r.driver.depth == d.depth && r.driver.inflight == d.inflight + 1
  {
  }

  /** The queue has room for `n` more commands, and the slot of `tag` is free. */
  ghost predicate Room(q: NvmeQueue, n: nat, tag: uint32)
    requires q.Valid()
    reads q, q.history, q.history.slots
  {
    && q.isReady && 0 <= q.inflightCmds && q.inflightCmds + n <= q.depth - Model.SAFE_SUBMIT_THRESHOLD
    && tag % 0x1_0000 < q.history.slots.Length && q.history.slots[tag % 0x1_0000] == null
  }

  /** The SRB asks for `blocks` blocks from `lba` on, inside the namespace. */
  ghost predicate AsksInside(dev: NvmeDevice, srbext: SrbExt, lba: nat, blocks: nat)
    requires srbext.srb.Some? && srbext.Lun() < |dev.nsze|
    reads dev
  {
    var cdb := srbext.srb.value.cdb;
    && |cdb| == 16 && FormOf(cdb[0]).Some? && Encodes(FormOf(cdb[0]).value, cdb, lba, blocks)
    && 0 < dev.namespaceCount && 1 <= blocks <= MAX_BLOCKS && lba + blocks <= dev.nsze[srbext.Lun()]
  }

  /** A request inside its namespace, with room in its queue: it is pending in the slot of its own tag. */
  method StartsPending(dev: NvmeDevice, srbext: SrbExt, cpu: nat, pageMap: nat -> nat, pool: ListPage?,
                       ghost lba: nat, ghost blocks: nat)
    returns (ghost outcome: Outcome<SrbStatus>)
    requires Buildable(dev, srbext, pool) && dev.Counted() && dev.Picked(cpu) != null && dev.Picked(cpu).Valid()
    requires AsksInside(dev, srbext, lba, blocks) && Room(dev.Picked(cpu), 1, srbext.srb.value.tag)
    modifies srbext, dev.PickedObjects(cpu), dev.port, if pool == null then {} else {pool.entries}
    ensures outcome == Returned(SrbPending) && dev.port.completed == old(dev.port.completed)
    ensures dev.Picked(cpu) == old(dev.Picked(cpu)) && dev.Picked(cpu).Valid()
    ensures dev.Picked(cpu).history.members == old(dev.Picked(cpu).history.members) + {srbext}
    ensures dev.Picked(cpu).history.slots[..]
         == old(dev.Picked(cpu).history.slots[..])[srbext.srb.value.tag % 0x1_0000 := srbext]
    ensures dev.Picked(cpu).isReady && dev.Picked(cpu).inflightCmds == old(dev.Picked(cpu).inflightCmds) + 1
    ensures Carries(srbext, pageMap, pool) && SameOperation(srbext.srb.value.cdb[0], srbext.nvmeCmd.opc)
  {
    ghost var q, d := dev.Picked(cpu), dev.Picked(cpu).Driver();
    FreeSubmission(d, srbext, ZERO_COMMAND.(cid := LowWord(srbext.ScsiQTag())));
    assert DeviceAnswer(dev, srbext, cpu) == Returned(SrbPending);
    var handled;
    ghost var offset, len;
    handled, outcome, offset, len := HwStartIo(dev, srbext, cpu, pageMap, pool);
    assert outcome == Returned(SrbPending);
    FreeSubmission(d, srbext, srbext.nvmeCmd);
    var tag: nat := srbext.srb.value.tag % 0x1_0000;
    assert q.history.Table() == d.history[tag := Some(srbext)];
    forall k | 0 <= k < q.history.slots.Length
      ensures q.history.slots[k] == if k == tag then srbext else old(q.history.slots[k])
    {
      assert Opt(q.history.slots[k]) == q.history.Table()[k];
    }
  }

  /** Two requests with different tags do not get in each other's way: both are pending, each in the slot of its tag. */
  method TwoPending(dev: NvmeDevice, a: SrbExt, b: SrbExt, cpu: nat, pageMap: nat -> nat, poolA: ListPage?,
                    poolB: ListPage?, ghost lbaA: nat, ghost blocksA: nat, ghost lbaB: nat, ghost blocksB: nat)
    requires Buildable(dev, a, poolA) && Buildable(dev, b, poolB) && a != b
    requires dev.Counted() && dev.Picked(cpu) != null && dev.Picked(cpu).Valid()
    requires AsksInside(dev, a, lbaA, blocksA) && AsksInside(dev, b, lbaB, blocksB)
    requires Room(dev.Picked(cpu), 2, a.srb.value.tag) && Room(dev.Picked(cpu), 2, b.srb.value.tag)
    requires a.srb.value.tag % 0x1_0000 != b.srb.value.tag % 0x1_0000
    requires b !in dev.Picked(cpu).history.members
    modifies a, b, dev.PickedObjects(cpu), dev.port
    modifies if poolA == null then {} else {poolA.entries}, if poolB == null then {} else {poolB.entries}
    ensures dev.port.completed == old(dev.port.completed)
    ensures dev.Picked(cpu) != null && dev.Picked(cpu).Valid()
    ensures dev.Picked(cpu).history.slots[..]
         == old(dev.Picked(cpu).history.slots[..])[a.srb.value.tag % 0x1_0000 := a][b.srb.value.tag % 0x1_0000 := b]
  {
    ghost var q := dev.Picked(cpu);
    ghost var _ := StartsPending(dev, a, cpu, pageMap, poolA, lbaA, blocksA);
    assert unchanged(b) && unchanged(dev) && unchanged(dev.ioQueue);
    ghost var _ := StartsPending(dev, b, cpu, pageMap, poolB, lbaB, blocksB);
  }
}
