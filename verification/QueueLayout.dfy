/** How the memory block of a queue pair is divided between the two rings. */
module QueueLayout {
  import opened NvmeTypes

  const COMMAND_SIZE: nat := 64
  const COMPLETION_SIZE: nat := 16

  /** BYTES_TO_PAGES. */
  function BytesToPages(size: nat): nat {
    size / PAGE_SIZE + if size % PAGE_SIZE != 0 then 1 else 0
  }

  /** ROUND_TO_PAGES. */
  function RoundToPages(address: nat): (rounded: nat)
    ensures rounded % PAGE_SIZE == 0 && address <= rounded < address + PAGE_SIZE
  {
    (address + PAGE_SIZE - 1) / PAGE_SIZE * PAGE_SIZE
  }

  function CalcQueueBufferSize(depth: uint16): nat {
    (BytesToPages(depth * COMMAND_SIZE) + BytesToPages(depth * COMPLETION_SIZE)) * PAGE_SIZE
  }

  /** What InitQueueBuffer checks: room for both rings, without the rounding. */
  predicate Passes(depth: nat, bufferSize: nat) {
    depth * (COMMAND_SIZE + COMPLETION_SIZE) <= bufferSize
  }

  /** Room for both rings, each starting on a page. */
  predicate Fits(depth: nat, bufferSize: nat) {
    RoundToPages(depth * COMMAND_SIZE) + depth * COMPLETION_SIZE <= bufferSize
  }

  class QueueBuffer {
    const depth: uint16
    const buffer: nat
    const bufferSize: nat
    var subQVa: nat
    var subQSize: nat
    var cplQVa: nat
    var cplQSize: nat

    constructor (depth: uint16, buffer: nat, bufferSize: nat)
      ensures this.depth == depth && this.buffer == buffer && this.bufferSize == bufferSize
    {
      this.depth, this.buffer, this.bufferSize := depth, buffer, bufferSize;
      subQVa, subQSize, cplQVa, cplQSize := 0, 0, 0, 0;
    }

    /** Both rings start on a page, hold `depth` entries, do not overlap and lie in the block. */
    predicate LaidOut()
      reads this
    {
      && subQVa % PAGE_SIZE == 0 && cplQVa % PAGE_SIZE == 0
      && subQSize == depth * COMMAND_SIZE && cplQSize == depth * COMPLETION_SIZE
      && buffer <= subQVa && subQVa + subQSize <= cplQVa
      && cplQVa + cplQSize <= buffer + bufferSize
    }

    /** On a page-aligned block a ring pair that passes the check is laid out exactly when the block has
        room for the rounding as well, which the check leaves out. */
    method InitQueueBuffer() returns (ok: bool)
      modifies this
      ensures ok <==> Passes(depth, bufferSize)
      ensures ok && buffer % PAGE_SIZE == 0 ==> (LaidOut() <==> Fits(depth, bufferSize))
      ensures buffer % PAGE_SIZE == 0 && bufferSize == CalcQueueBufferSize(depth) ==> ok && LaidOut()
      ensures !ok ==> subQVa == subQSize == cplQVa == cplQSize == 0
    {
      CalculatedSizeFits(depth);
      if buffer % PAGE_SIZE == 0 {
        RoundShift(buffer, 0);
        RoundShift(buffer, depth * COMMAND_SIZE);
      }
      subQSize := depth * COMMAND_SIZE;
      cplQSize := depth * COMPLETION_SIZE;
      var cursor := buffer;
      subQVa := RoundToPages(cursor);
      cursor := cursor + subQSize;
      cplQVa := RoundToPages(cursor);
      if cursor + cplQSize > buffer + bufferSize {
        subQSize, subQVa, cplQSize, cplQVa := 0, 0, 0, 0;
        return false;
      }
      return true;
    }
  }

  /** Rounding starts over on every page. */
  lemma RoundShift(page: nat, size: nat)
    requires page % PAGE_SIZE == 0
    ensures RoundToPages(page + size) == page + RoundToPages(size)
  {
    var n := page / PAGE_SIZE;
    assert (page + size + PAGE_SIZE - 1) / PAGE_SIZE == n + (size + PAGE_SIZE - 1) / PAGE_SIZE;
  }

  /** The block CalcQueueBufferSize asks for has room for both rings after rounding. */
  lemma CalculatedSizeFits(depth: uint16)
    ensures Fits(depth, CalcQueueBufferSize(depth)) && Passes(depth, CalcQueueBufferSize(depth))
    ensures CalcQueueBufferSize(depth) == RoundToPages(depth * COMMAND_SIZE) + RoundToPages(depth * COMPLETION_SIZE)
  {
    assert RoundToPages(depth * COMMAND_SIZE) == BytesToPages(depth * COMMAND_SIZE) * PAGE_SIZE;
    assert RoundToPages(depth * COMPLETION_SIZE) == BytesToPages(depth * COMPLETION_SIZE) * PAGE_SIZE;
  }

  /**
    A block with room for the rings passes the check.  The check is right for every size exactly when the commands
    fill whole pages; for every other depth a block of just the size of the rings passes and is too small.
   */
  lemma UnroundedCheck(depth: nat, bufferSize: nat)
    ensures Fits(depth, bufferSize) ==> Passes(depth, bufferSize)
    ensures depth % 64 == 0 ==> (Fits(depth, bufferSize) <==> Passes(depth, bufferSize))
    ensures depth % 64 != 0 ==>
              var size := depth * (COMMAND_SIZE + COMPLETION_SIZE); Passes(depth, size) && !Fits(depth, size)
  {
    assert depth * COMMAND_SIZE == depth / 64 * PAGE_SIZE + depth % 64 * COMMAND_SIZE;
  }
}
