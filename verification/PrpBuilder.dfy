/**
  The PRP builder against the walk a controller makes over PRP1, PRP2 and the list (NVMe 1.3, section 4.3).
 */
module PrpBuilder {
  import opened NvmeTypes
  import opened NvmeQueueObjects

  const LIST_ENTRIES: nat := 512
  const TX_PAGES: nat := 512
  const TX_SIZE: nat := PAGE_SIZE * TX_PAGES

  /** MmGetPhysicalAddress for a page map: pages move, offsets inside a page stay. */
  function Translate(pageMap: nat -> nat, va: nat): (pa: nat)
    ensures pa % PAGE_SIZE == va % PAGE_SIZE
  {
    pageMap(va / PAGE_SIZE) * PAGE_SIZE + va % PAGE_SIZE
  }

  function GetDistanceToNextPage(va: nat): (distance: nat)
    ensures 0 < distance <= PAGE_SIZE && (va + distance) % PAGE_SIZE == 0
  {
    va / PAGE_SIZE * PAGE_SIZE + PAGE_SIZE - va
  }

  /** Entries of a list that covers `size` bytes from a page boundary. */
  function EntriesFor(size: nat): nat {
    (size + PAGE_SIZE - 1) / PAGE_SIZE
  }

  /** Bytes of the buffer beyond its first page. */
  function BeyondFirst(buffer: nat, size: nat): nat {
    if size <= GetDistanceToNextPage(buffer) then 0 else size - GetDistanceToNextPage(buffer)
  }

  predicate NeedsList(buffer: nat, size: nat) {
    BeyondFirst(buffer, size) > PAGE_SIZE
  }

  /** The list page holds all the entries that are going to be written. */
  predicate ListFits(buffer: nat, size: nat) {
    NeedsList(buffer, size) ==> EntriesFor(BeyondFirst(buffer, size)) <= LIST_ENTRIES
  }

  // ---- The controller's side ----

  /** The addresses a controller touches from `pa` on, in this page and for at most `len` bytes. */
  ghost function Touch(pa: nat, len: nat): seq<int> {
    seq(Min(len, PAGE_SIZE - pa % PAGE_SIZE), k => pa + k)
  }

  ghost function WalkList(list: seq<nat>, len: nat): seq<int> {
    if len == 0 || list == [] then []
    else Touch(list[0], len) + WalkList(list[1..], len - |Touch(list[0], len)|)
  }

  /** All addresses touched for a transfer of `len` bytes, in order; `list` is the memory PRP2 points to. */
  ghost function Walk(prp1: nat, prp2: nat, list: seq<nat>, len: nat): seq<int> {
    var first := Touch(prp1, len);
    var rest := len - |first|;
    if rest == 0 then first
    else if rest <= PAGE_SIZE then first + Touch(prp2, rest)
    else first + WalkList(list, rest)
  }

  /** Where the bytes of a buffer are. */
  ghost function Image(pageMap: nat -> nat, va: nat, len: nat): seq<int> {
    seq(len, (k: nat) => Translate(pageMap, va + k))
  }

  // ---- Both sides agree ----

  lemma SamePage(pageMap: nat -> nat, va: nat, k: nat)
    requires k < GetDistanceToNextPage(va)
    ensures Translate(pageMap, va + k) == Translate(pageMap, va) + k
  {
    assert (va + k) / PAGE_SIZE == va / PAGE_SIZE;
  }

  lemma TouchIsImage(pageMap: nat -> nat, va: nat, len: nat)
    ensures var n := Min(len, GetDistanceToNextPage(va));
            Touch(Translate(pageMap, va), len) == Image(pageMap, va, n)
  {
    var n := Min(len, GetDistanceToNextPage(va));
    assert |Touch(Translate(pageMap, va), len)| == n;
    forall k | 0 <= k < n
      ensures Touch(Translate(pageMap, va), len)[k] == Image(pageMap, va, n)[k]
    {
      SamePage(pageMap, va, k);
    }
  }

  lemma ImageSplit(pageMap: nat -> nat, va: nat, first: nat, rest: nat)
    ensures Image(pageMap, va, first + rest) == Image(pageMap, va, first) + Image(pageMap, va + first, rest)
  {
  }

  /** Entry `i` translates page `i` of the buffer part the list is for. */
  ghost predicate ListOf(pageMap: nat -> nat, va: nat, list: seq<nat>) {
    forall i :: 0 <= i < |list| ==> list[i] == Translate(pageMap, va + i * PAGE_SIZE)
  }

  lemma EntriesStep(len: nat)
    requires 0 < len
    ensures EntriesFor(len) > 0 && EntriesFor(len - Min(len, PAGE_SIZE)) == EntriesFor(len) - 1
  {
  }

  /** The list without its first entry is the list of the next page on. */
  lemma ListTail(pageMap: nat -> nat, va: nat, list: seq<nat>, n: nat)
    requires 0 < n <= |list| && ListOf(pageMap, va, list[..n])
    ensures list[0] == Translate(pageMap, va)
    ensures ListOf(pageMap, va + PAGE_SIZE, list[1..][..n - 1])
  {
    assert list[..n][0] == Translate(pageMap, va + 0 * PAGE_SIZE);
    forall i | 0 <= i < n - 1
      ensures list[1..][..n - 1][i] == Translate(pageMap, va + PAGE_SIZE + i * PAGE_SIZE)
    {
      assert list[1..][..n - 1][i] == list[..n][i + 1];
    }
  }

  lemma {:induction false} WalkListIsImage(pageMap: nat -> nat, va: nat, list: seq<nat>, len: nat)
    requires va % PAGE_SIZE == 0
    requires EntriesFor(len) <= |list| && ListOf(pageMap, va, list[..EntriesFor(len)])
    ensures WalkList(list, len) == Image(pageMap, va, len)
    decreases len
  {
    if len > 0 {
      var n := Min(len, PAGE_SIZE);
      EntriesStep(len);
      ListTail(pageMap, va, list, EntriesFor(len));
      TouchIsImage(pageMap, va, len);
      assert Touch(list[0], len) == Image(pageMap, va, n);
      if len > n {
        WalkListIsImage(pageMap, va + n, list[1..], len - n);
      }
      assert WalkList(list[1..], len - n) == Image(pageMap, va + n, len - n);
      ImageSplit(pageMap, va, n, len - n);
    }
  }

  /** PRP1, PRP2 and the list, filled in as they have to be, lead the controller over the whole buffer. */
  lemma PrpCoverage(pageMap: nat -> nat, buffer: nat, size: nat, prp2: nat, list: seq<nat>)
    requires var beyond := BeyondFirst(buffer, size);
             var next := buffer + GetDistanceToNextPage(buffer);
             && (0 < beyond <= PAGE_SIZE ==> prp2 == Translate(pageMap, next))
             && (beyond > PAGE_SIZE ==>
                   EntriesFor(beyond) <= |list| && ListOf(pageMap, next, list[..EntriesFor(beyond)]))
    ensures Walk(Translate(pageMap, buffer), prp2, list, size) == Image(pageMap, buffer, size)
  {
    var distance := GetDistanceToNextPage(buffer);
    var beyond := BeyondFirst(buffer, size);
    TouchIsImage(pageMap, buffer, size);
    ImageSplit(pageMap, buffer, size - beyond, beyond);
    if 0 < beyond <= PAGE_SIZE {
      TouchIsImage(pageMap, buffer + distance, beyond);
    } else if beyond > PAGE_SIZE {
      WalkListIsImage(pageMap, buffer + distance, list, beyond);
    }
  }

  /**
    One list page is enough for every buffer of `size` bytes exactly up to one byte more than
    TX_SIZE.
   */
  lemma ListBound(size: nat)
    ensures size <= TX_SIZE + 1 <==> forall buffer: nat :: ListFits(buffer, size)
  {
    if size > TX_SIZE + 1 {
      assert !ListFits(PAGE_SIZE - 1, size);
    }
  }

  // ---- The driver's side ----

  method BuildPrp2List(list: array<nat>, ptr: nat, size: nat, pageMap: nat -> nat)
    requires EntriesFor(size) <= list.Length
    modifies list
    ensures ListOf(pageMap, ptr, list[..EntriesFor(size)])
    ensures list[EntriesFor(size)..] == old(list[EntriesFor(size)..])
  {
    var cursor: nat, sizeLeft: nat, index: nat := ptr, size, 0;
    while sizeLeft > 0
      invariant index + EntriesFor(sizeLeft) == EntriesFor(size)
      invariant sizeLeft > 0 ==> cursor == ptr + index * PAGE_SIZE
      invariant forall i :: 0 <= i < index ==> list[i] == Translate(pageMap, ptr + i * PAGE_SIZE)
      invariant forall i :: index <= i < list.Length ==> list[i] == old(list[i])
    {
      list[index] := Translate(pageMap, cursor);
      if sizeLeft <= PAGE_SIZE {
        sizeLeft := 0;
      } else {
        sizeLeft := sizeLeft - PAGE_SIZE;
        cursor := cursor + PAGE_SIZE;
      }
      index := index + 1;
    }
  }

  /** Zero the list page and write the list. */
  method FillListPage(list: array<nat>, ptr: nat, size: nat, pageMap: nat -> nat)
    requires EntriesFor(size) <= list.Length && ptr % PAGE_SIZE == 0
    modifies list
    ensures ListOf(pageMap, ptr, list[..][..EntriesFor(size)])
    ensures forall i :: 0 <= i < list.Length ==> list[i] % PAGE_SIZE == 0
    ensures forall i :: EntriesFor(size) <= i < list.Length ==> list[i] == 0
  {
    forall i | 0 <= i < list.Length {
      list[i] := 0;
    }
    BuildPrp2List(list, ptr, size, pageMap);
    assert list[..][..EntriesFor(size)] == list[..EntriesFor(size)];
    forall i | 0 <= i < list.Length
      ensures list[i] % PAGE_SIZE == 0 && (EntriesFor(size) <= i ==> list[i] == 0)
    {
      if i < EntriesFor(size) {
        assert list[i] == list[..EntriesFor(size)][i];
      } else {
        assert list[i] == list[EntriesFor(size)..][i - EntriesFor(size)];
      }
    }
  }

  /** `pool` is the page ExAllocatePoolWithTag returns, or null. */
  method BuildPrp(srbext: SrbExt, buffer: nat, size: nat, pageMap: nat -> nat, pool: ListPage?) returns (ok: bool)
    requires ListFits(buffer, size)
    requires pool != null ==> pool.entries.Length == LIST_ENTRIES && pool.va % PAGE_SIZE == 0
    modifies srbext`nvmeCmd, srbext`prp2, srbext`freePrp2List, if pool == null then {} else {pool.entries}
    ensures ok <==> NeedsList(buffer, size) ==> pool != null
    ensures srbext.nvmeCmd == old(srbext.nvmeCmd).(prp1 := srbext.nvmeCmd.prp1, prp2 := srbext.nvmeCmd.prp2)
    ensures ok && NeedsList(buffer, size) ==>
              && srbext.prp2 == pool && srbext.freePrp2List
              && srbext.nvmeCmd.prp2 == Translate(pageMap, pool.va)
              && (forall i :: 0 <= i < LIST_ENTRIES ==> pool.entries[i] % PAGE_SIZE == 0)
              && Walk(srbext.nvmeCmd.prp1, srbext.nvmeCmd.prp2, pool.entries[..], size) == Image(pageMap, buffer, size)
    ensures !NeedsList(buffer, size) ==>
              && srbext.prp2 == old(srbext.prp2)
              && (BeyondFirst(buffer, size) > 0 ==> srbext.nvmeCmd.prp2 % PAGE_SIZE == 0)
              && Walk(srbext.nvmeCmd.prp1, srbext.nvmeCmd.prp2, [], size) == Image(pageMap, buffer, size)
    ensures !ok ==> srbext.nvmeCmd.prp2 == old(srbext.nvmeCmd.prp2) && srbext.prp2 == old(srbext.prp2)
  {
    var cursor, sizeLeft := buffer, size;
    srbext.nvmeCmd := srbext.nvmeCmd.(prp1 := Translate(pageMap, cursor));
    var distance := GetDistanceToNextPage(cursor);
    if distance > sizeLeft {
      PrpCoverage(pageMap, buffer, size, srbext.nvmeCmd.prp2, []);
      return true;
    }
    sizeLeft := sizeLeft - distance;
    cursor := cursor + distance;
    if sizeLeft <= PAGE_SIZE {
      srbext.nvmeCmd := srbext.nvmeCmd.(prp2 := Translate(pageMap, cursor));
      PrpCoverage(pageMap, buffer, size, srbext.nvmeCmd.prp2, []);
      return true;
    }
    if pool == null {
      return false;
    }
    srbext.prp2 := pool;
    srbext.freePrp2List := true;
    FillListPage(pool.entries, cursor, sizeLeft, pageMap);
    srbext.nvmeCmd := srbext.nvmeCmd.(prp2 := Translate(pageMap, pool.va));
    PrpCoverage(pageMap, buffer, size, srbext.nvmeCmd.prp2, pool.entries[..]);
    return true;
  }
}
