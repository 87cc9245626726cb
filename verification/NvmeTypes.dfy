/** Values shared by the whole driver: machine words, status codes, NVMe commands and completions. */
module NvmeTypes {

  type uint8 = x: int | 0 <= x < 0x100
  type uint16 = x: int | 0 <= x < 0x1_0000
  type uint32 = x: int | 0 <= x < 0x1_0000_0000
  type uint64 = x: int | 0 <= x < 0x1_0000_0000_0000_0000

  const TWO_TO_THE_16: int := 0x1_0000
  const TWO_TO_THE_32: int := 0x1_0000_0000
  const TWO_TO_THE_64: int := 0x1_0000_0000_0000_0000

  const PAGE_SIZE: nat := 4096

  datatype Option<+T> = None | Some(value: T)

  function Min(a: nat, b: nat): nat {
    if a <= b then a else b
  }

  /** The first `n` elements, or all there are. */
  function Firsts<T>(s: seq<T>, n: nat): seq<T> {
    s[..Min(n, |s|)]
  }

  /** The NTSTATUS values the modelled functions return. */
  datatype NtStatus =
    | StatusSuccess
    | StatusUnsuccessful
    | StatusDeviceNotReady
    | StatusDeviceBusy
    | StatusAlreadyCommitted
    | StatusInvalidDeviceState
    | StatusInternalError
    | StatusMemoryNotAllocated
    | StatusRequestAborted

  /** Status code type and status code of a completion. */
  datatype NvmeStatus = NvmeStatus(sct: uint8, sc: uint8)

  /**
    The SRB_STATUS_xxx codes.  `SrbFromNvme` stands for the code that NvmeToSrbStatus chooses for
    an NVMe status; the translation tables are not part of this model.
   */
  datatype SrbStatus =
    | SrbPending
    | SrbSuccess
    | SrbError
    | SrbBusy
    | SrbBusReset
    | SrbInvalidRequest
    | SrbInvalidLun
    | SrbDataOverrun
    | SrbFromNvme(status: NvmeStatus)

  /** A submission queue entry; the dwords 10 to 12 are the command specific union. */
  datatype Command = Command(
    opc: uint8,
    cid: uint16,
    nsid: uint32,
    prp1: nat,
    prp2: nat,
    cdw10: uint32,
    cdw11: uint32,
    cdw12: uint32
  )

  const ZERO_COMMAND := Command(0, 0, 0, 0, 0, 0, 0, 0)

  /** A completion queue entry. */
  datatype Completion = Completion(cid: uint16, sqhd: nat, phase: nat, status: NvmeStatus)

  const ZERO_COMPLETION := Completion(0, 0, 0, NvmeStatus(0, 0))
}
