/** MODE SELECT(6) and MODE SENSE(6): the cache flags in and out. */
module ModePages {
  import opened NvmeTypes
  import opened NvmeDevices

  const HEADER_SIZE: nat := 4
  const MODE_PAGE_CACHING: int := 0x08
  const MODE_PAGE_CONTROL: int := 0x0A
  const MODE_PAGE_FAULT_REPORTING: int := 0x1C
  const MODE_SENSE_RETURN_ALL: int := 0x3F

  /** All three pages are 12 bytes: two bytes of page header and 10 bytes of parameters. */
  const PARAMETER_SIZE: nat := 10

  /** A mode page: the byte with its code (and the PS bit), and its parameters. */
  datatype Page = Page(first: uint8, params: seq<uint8>)

  datatype Flags = Flags(read: bool, write: bool)

  predicate Sized(page: Page) {
    1 <= |page.params| <= 0xFF
  }

  function Encode(page: Page): seq<uint8>
    requires Sized(page)
  {
    [page.first, |page.params|] + page.params
  }

  function EncodeAll(pages: seq<Page>): seq<uint8>
    requires forall i :: 0 <= i < |pages| ==> Sized(pages[i])
  {
    if pages == [] then [] else Encode(pages[0]) + EncodeAll(pages[1..])
  }

  predicate IsCaching(page: Page) {
    page.first % 0x40 == MODE_PAGE_CACHING && |page.params| == PARAMETER_SIZE
  }

  /** RCD is bit 0 and WCE bit 2 of the first parameter byte. */
  function FlagsOf(bits: uint8): Flags {
    Flags(bits % 2 == 0, bits / 4 % 2 == 1)
  }

  /** The flags a list of pages leaves: those of its last caching page, if it has one. */
  function LastCaching(pages: seq<Page>, flags: Flags): Flags {
    if pages == [] then flags
    else
      var last := pages[|pages| - 1];
      if IsCaching(last) then FlagsOf(last.params[0]) else LastCaching(pages[..|pages| - 1], flags)
  }

  /** What may follow the pages: nothing, or a page without parameters, at which the parser stops. */
  predicate Tail(rest: seq<uint8>) {
    rest == [] || (2 <= |rest| && rest[1] == 0)
  }

  /**
    `pages` and `rest` are what the parameter data after header and block descriptor consists of.  On other data the
    loop would run past the end of the buffer.
   */
  method ScsiModeSelect6(dev: NvmeDevice, buffer: array<uint8>, pfBit: bool,
                         ghost pages: seq<Page>, ghost rest: seq<uint8>)
    returns (srbStatus: SrbStatus)
    requires HEADER_SIZE <= buffer.Length && HEADER_SIZE + buffer[3] <= buffer.Length
    requires forall i :: 0 <= i < |pages| ==> Sized(pages[i])
    requires pfBit ==> Tail(rest) && buffer[HEADER_SIZE + buffer[3]..] == EncodeAll(pages) + rest
    modifies dev`readCacheEnabled, dev`writeCacheEnabled
    ensures srbStatus == if pfBit then SrbSuccess else SrbInvalidRequest
    ensures CacheFlags(dev) == if pfBit then LastCaching(pages, old(CacheFlags(dev))) else old(CacheFlags(dev))
    ensures pfBit ==> forall i :: IsLast(pages, i) ==> EnabledBy(dev, pages[i].params[0])
  {
    if !pfBit {
      return SrbInvalidRequest;
    }
    ghost var before := CacheFlags(dev);
    SelectPages(dev, buffer, HEADER_SIZE + buffer[3], pages, rest);
    forall i | IsLast(pages, i)
      ensures EnabledBy(dev, pages[i].params[0])
    {
      LastOne(pages, i, before);
    }
    return SrbSuccess;
  }

  /** Page `i` is the last page with code 0x08 and 10 parameter bytes. */
  predicate IsLast(pages: seq<Page>, i: int) {
    && 0 <= i < |pages| && pages[i].first % 0x40 == 0x08 && |pages[i].params| == 10
    && forall j :: i < j < |pages| ==> !(pages[j].first % 0x40 == 0x08 && |pages[j].params| == 10)
  }

  /** RCD, bit 0, disables the read cache; WCE, bit 2, enables the write cache. */
  predicate EnabledBy(dev: NvmeDevice, bits: uint8)
    reads dev
  {
    (dev.readCacheEnabled <==> bits % 2 == 0) && (dev.writeCacheEnabled <==> bits / 4 % 2 == 1)
  }

  function CacheFlags(dev: NvmeDevice): Flags
    reads dev
  {
    Flags(dev.readCacheEnabled, dev.writeCacheEnabled)
  }

  /** What the loop does with a page that starts at `at`. */
  method SelectPage(dev: NvmeDevice, buffer: array<uint8>, at: nat, ghost page: Page)
    requires at + 2 < buffer.Length && 0 < |page.params|
    requires buffer[at] == page.first && buffer[at + 1] == |page.params| && buffer[at + 2] == page.params[0]
    modifies dev`readCacheEnabled, dev`writeCacheEnabled
    ensures CacheFlags(dev) == if IsCaching(page) then FlagsOf(page.params[0]) else old(CacheFlags(dev))
  {
    if buffer[at] % 0x40 != MODE_PAGE_CACHING || buffer[at + 1] != PARAMETER_SIZE {
      return;
    }
    dev.readCacheEnabled := buffer[at + 2] % 2 == 0;
    dev.writeCacheEnabled := buffer[at + 2] / 4 % 2 == 1;
  }

  /** The loop of Scsi_ModeSelect6. */
  method SelectPages(dev: NvmeDevice, buffer: array<uint8>, cursor: nat, ghost pages: seq<Page>, ghost rest: seq<uint8>)
    requires forall i :: 0 <= i < |pages| ==> Sized(pages[i])
    requires cursor <= buffer.Length && Tail(rest) && buffer[cursor..] == EncodeAll(pages) + rest
    modifies dev`readCacheEnabled, dev`writeCacheEnabled
    ensures CacheFlags(dev) == LastCaching(pages, old(CacheFlags(dev)))
  {
    var modeDataSize: nat, offset: nat := buffer.Length - cursor, 0;
    ghost var k, before := 0, CacheFlags(dev);
    assert pages[0..] == pages;
    while modeDataSize > 0
      invariant 0 <= k <= |pages| && 0 <= offset
      invariant modeDataSize + offset == buffer.Length - cursor
      invariant buffer[cursor + offset..] == EncodeAll(pages[k..]) + rest
      invariant CacheFlags(dev) == LastCaching(pages[..k], before)
    {
      ghost var data := buffer[cursor + offset..];
      NextPage(data, pages[k..], rest);
      var page := cursor + offset;
      var length: nat := buffer[page + 1];
      modeDataSize := modeDataSize - (length + 2);
      offset := offset + (length + 2);
      if length == 0 {
        assert pages[..k] == pages;
        return;
      }
      LastCachingMore(pages, k, before);
      k := k + 1;
      assert buffer[cursor + offset..] == data[2 + length..];
      SelectPage(dev, buffer, page, pages[k - 1]);
    }
    assert |EncodeAll(pages[k..]) + rest| == 0;
    assert pages[..k] == pages;
  }

  /** The bytes at the front of the data are the first page, or the end. */
  lemma NextPage(data: seq<uint8>, pages: seq<Page>, rest: seq<uint8>)
    requires forall i :: 0 <= i < |pages| ==> Sized(pages[i])
    requires Tail(rest) && data == EncodeAll(pages) + rest != []
    ensures 2 <= |data|
    ensures pages == [] ==> data[1] == 0
    ensures pages != [] ==>
              && data[0] == pages[0].first && data[1] == |pages[0].params| && 2 + data[1] <= |data|
              && data[2] == pages[0].params[0]
              && data[2 + data[1]..] == EncodeAll(pages[1..]) + rest
  {
    if pages != [] {
      var page, more := Encode(pages[0]), EncodeAll(pages[1..]) + rest;
      assert data == page + more;
      assert page[2..] == pages[0].params;
    }
  }

  /** One more page of the list. */
  lemma LastCachingMore(pages: seq<Page>, k: nat, flags: Flags)
    requires k < |pages|
    ensures pages[k..][1..] == pages[k + 1..] && pages[k..][0] == pages[k]
    ensures LastCaching(pages[..k + 1], flags)
         == if IsCaching(pages[k]) then FlagsOf(pages[k].params[0]) else LastCaching(pages[..k], flags)
  {
    assert pages[..k + 1][..k] == pages[..k];
  }

  // ---- MODE SENSE ----

  function Zeros(n: nat): seq<uint8> {
    seq(n, _ => 0)
  }

  /** FillModePage_Caching: savable, RCD and WCE from the device. */
  function CachingPage(flags: Flags): seq<uint8> {
    var bits := (if flags.read then 0 else 1) + (if flags.write then 4 else 0);
    [0x80 + MODE_PAGE_CACHING, PARAMETER_SIZE, bits] + Zeros(9)
  }

  function ControlPage(): seq<uint8> {
    [MODE_PAGE_CONTROL, PARAMETER_SIZE] + Zeros(10)
  }

  /** FillModePage_InfoException: report method 5. */
  function InfoExceptionPage(): seq<uint8> {
    [MODE_PAGE_FAULT_REPORTING, PARAMETER_SIZE, 0, 5] + Zeros(8)
  }

  /** The pages a page code asks for. */
  function Requested(pageCode: int, flags: Flags): (pages: Option<seq<uint8>>)
    ensures pages.Some? ==> |pages.value| <= 36
  {
    if pageCode == MODE_PAGE_CACHING then Some(CachingPage(flags))
    else if pageCode == MODE_PAGE_CONTROL then Some(ControlPage())
    else if pageCode == MODE_PAGE_FAULT_REPORTING then Some(InfoExceptionPage())
    else if pageCode == MODE_SENSE_RETURN_ALL then Some(CachingPage(flags) + ControlPage() + InfoExceptionPage())
    else None
  }

  /** `buffer` with `data` in place from `position` on. */
  function Written(buffer: seq<uint8>, position: nat, data: seq<uint8>): (result: seq<uint8>)
    requires position + |data| <= |buffer|
    ensures |result| == |buffer|
  {
    buffer[..position] + data + buffer[position + |data|..]
  }

  /** A page behind what is already there, and ModeDataLength, the first byte, moved on. */
  function Replied(buffer: seq<uint8>, position: nat, data: seq<uint8>): (result: seq<uint8>)
    requires HEADER_SIZE <= position && position + |data| <= |buffer| && buffer[0] + |data| < 0x100
    ensures |result| == |buffer| && result[0] == buffer[0] + |data|
  {
    Written(buffer, position, data)[0 := buffer[0] + |data|]
  }

  lemma RepliedTwice(buffer: seq<uint8>, position: nat, a: seq<uint8>, b: seq<uint8>)
    requires HEADER_SIZE <= position && position + |a| + |b| <= |buffer| && buffer[0] + |a| + |b| < 0x100
    ensures Replied(Replied(buffer, position, a), position + |a|, b) == Replied(buffer, position, a + b)
  {
  }

  lemma RepliedNothing(buffer: seq<uint8>, position: nat)
    requires HEADER_SIZE <= position <= |buffer|
    ensures Replied(buffer, position, []) == buffer
  {
  }

  /** Cutting two pieces one after the other is cutting the whole. */
  lemma PrefixConcat(a: seq<uint8>, b: seq<uint8>, n: nat)
    ensures Firsts(a + b, n) == Firsts(a, n) + Firsts(b, n - |Firsts(a, n)|)
  {
  }

  /** Copies what there is room for; `position`, `left` and `returned` move on together. */
  method CopyToCdbBuffer(buffer: array<uint8>, position: nat, left: nat, page: seq<uint8>, returned: nat)
    returns (position': nat, left': nat, returned': nat, copied: nat)
    requires position + left == buffer.Length
    modifies buffer
    ensures copied == |Firsts(page, left)|
    ensures position' == position + copied && left' == left - copied && returned' == returned + copied
    ensures buffer[..] == Written(old(buffer[..]), position, Firsts(page, left))
  {
    copied := |page|;
    if copied > left {
      copied := left;
    }
    forall i | 0 <= i < copied {
      buffer[position + i] := page[i];
    }
    left' := left - copied;
    position' := position + copied;
    returned' := returned + copied;
  }

  /** One ReplyModePageXxx, with what the caller adds to ModeDataLength. */
  method ReplyModePage(buffer: array<uint8>, position: nat, left: nat, page: seq<uint8>, returned: nat)
    returns (position': nat, left': nat, returned': nat)
    requires HEADER_SIZE <= position && position + left == buffer.Length && buffer[0] + |page| < 0x100
    modifies buffer
    ensures var data := Firsts(page, left);
            && position' == position + |data| && left' == left - |data| && returned' == returned + |data|
            && buffer[..] == Replied(old(buffer[..]), position, data)
  {
    var copied;
    position', left', returned', copied := CopyToCdbBuffer(buffer, position, left, page, returned);
    buffer[0] := buffer[0] + copied;
  }

  /** In MODE_SENSE_RETURN_ALL a page is only started while there is room. */
  method ReplyIfRoom(buffer: array<uint8>, position: nat, left: nat, page: seq<uint8>, returned: nat)
    returns (position': nat, left': nat, returned': nat)
    requires HEADER_SIZE <= position && position + left == buffer.Length && buffer[0] + |page| < 0x100
    modifies buffer
    ensures var data := Firsts(page, left);
            && position' == position + |data| && left' == left - |data| && returned' == returned + |data|
            && buffer[..] == Replied(old(buffer[..]), position, data)
  {
    position', left', returned' := position, left, returned;
    if left > 0 {
      position', left', returned' := ReplyModePage(buffer, position, left, page, returned);
    } else {
      RepliedNothing(buffer[..], position);
    }
  }

  lemma TwoPages(before: seq<uint8>, position: nat, left: nat, a: seq<uint8>, b: seq<uint8>)
    requires HEADER_SIZE <= position && position + left == |before| && before[0] + |a| + |b| < 0x100
    ensures var x, y := Firsts(a, left), Firsts(b, left - |Firsts(a, left)|);
            && |Firsts(a + b, left)| == |x| + |y|
            && Replied(Replied(before, position, x), position + |x|, y)
               == Replied(before, position, Firsts(a + b, left))
  {
    PrefixConcat(a, b, left);
    RepliedTwice(before, position, Firsts(a, left), Firsts(b, left - |Firsts(a, left)|));
  }

  /** The three pages of MODE_SENSE_RETURN_ALL, as long as there is room. */
  method ReplyAllPages(buffer: array<uint8>, position: nat, left: nat, a: seq<uint8>, b: seq<uint8>, c: seq<uint8>,
                       returned: nat)
    returns (position': nat, left': nat, returned': nat)
    requires HEADER_SIZE <= position && position + left == buffer.Length && buffer[0] + |a| + |b| + |c| < 0x100
    modifies buffer
    ensures var data := Firsts(a + b + c, left);
            && position' == position + |data| && left' == left - |data| && returned' == returned + |data|
            && buffer[..] == Replied(old(buffer[..]), position, data)
  {
    ghost var before := buffer[..];
    TwoPages(before, position, left, a, b);
    TwoPages(before, position, left, a + b, c);
    position', left', returned' := ReplyIfRoom(buffer, position, left, a, returned);
    position', left', returned' := ReplyIfRoom(buffer, position', left', b, returned');
    assert buffer[..] == Replied(before, position, Firsts(a + b, left));
    position', left', returned' := ReplyIfRoom(buffer, position', left', c, returned');
  }

  /** The switch on the page code. */
  method ReplyPages(buffer: array<uint8>, pageCode: int, flags: Flags) returns (srbStatus: SrbStatus, retSize: nat)
    requires buffer.Length >= HEADER_SIZE && buffer[0] < HEADER_SIZE
    modifies buffer
    ensures var data := Firsts(PagesFor(pageCode, flags), buffer.Length - HEADER_SIZE);
            && srbStatus == (if Requested(pageCode, flags).Some? then SrbSuccess else SrbInvalidRequest)
            && retSize == HEADER_SIZE + |data|
            && buffer[..] == Replied(old(buffer[..]), HEADER_SIZE, data)
  {
    var position, left := HEADER_SIZE, buffer.Length - HEADER_SIZE;
    retSize, srbStatus := HEADER_SIZE, SrbSuccess;
    if pageCode == MODE_PAGE_CACHING {
      position, left, retSize := ReplyModePage(buffer, position, left, CachingPage(flags), retSize);
    } else if pageCode == MODE_PAGE_CONTROL {
      position, left, retSize := ReplyModePage(buffer, position, left, ControlPage(), retSize);
    } else if pageCode == MODE_PAGE_FAULT_REPORTING {
      position, left, retSize := ReplyModePage(buffer, position, left, InfoExceptionPage(), retSize);
    } else if pageCode == MODE_SENSE_RETURN_ALL {
      position, left, retSize := ReplyAllPages(buffer, position, left, CachingPage(flags), ControlPage(),
                                               InfoExceptionPage(), retSize);
    } else {
      RepliedNothing(buffer[..], HEADER_SIZE);
      srbStatus := SrbInvalidRequest;
    }
  }

  function PagesFor(pageCode: int, flags: Flags): seq<uint8> {
    var requested := Requested(pageCode, flags);
    if requested.Some? then requested.value else []
  }

  lemma WholeReply(before: seq<uint8>, data: seq<uint8>)
    requires HEADER_SIZE + |data| <= |before| && |data| < 0x80
    ensures var header := [HEADER_SIZE - 1, 0, 0, 0] + before[HEADER_SIZE..];
            Replied(header, HEADER_SIZE, data)
            == [HEADER_SIZE + |data| - 1, 0, 0, 0] + data + before[HEADER_SIZE + |data|..]
  {
  }

  /** Header and pages. */
  method Reply(buffer: array<uint8>, pageCode: int, flags: Flags) returns (srbStatus: SrbStatus, retSize: nat)
    requires buffer.Length >= HEADER_SIZE
    modifies buffer
    ensures srbStatus == (if Requested(pageCode, flags).Some? then SrbSuccess else SrbInvalidRequest)
    ensures retSize == ReturnedSize(pageCode, flags, buffer.Length)
    ensures buffer[..] == Sensed(pageCode, flags, old(buffer[..]))
  {
    ghost var before := buffer[..];
    buffer[0], buffer[1], buffer[2], buffer[3] := HEADER_SIZE - 1, 0, 0, 0;
    assert buffer[..] == [HEADER_SIZE - 1, 0, 0, 0] + before[HEADER_SIZE..];
    WholeReply(before, Firsts(PagesFor(pageCode, flags), buffer.Length - HEADER_SIZE));
    srbStatus, retSize := ReplyPages(buffer, pageCode, flags);
  }

  /** The size MODE SENSE returns for a buffer of `room` bytes. */
  function ReturnedSize(pageCode: int, flags: Flags, room: nat): nat {
    Min(room, HEADER_SIZE + |PagesFor(pageCode, flags)|)
  }

  /** What is in the buffer after MODE SENSE. */
  function Sensed(pageCode: int, flags: Flags, before: seq<uint8>): (after: seq<uint8>)
    requires |before| >= HEADER_SIZE
    ensures |after| == |before|
  {
    var size := ReturnedSize(pageCode, flags, |before|);
    [size - 1, 0, 0, 0] + Firsts(PagesFor(pageCode, flags), |before| - HEADER_SIZE) + before[size..]
  }

  /**
    The header, and behind it as much of the requested pages as there is room for; ModeDataLength counts what
    follows it, and the returned size all of it.
   */
  method ScsiModeSense6(dev: NvmeDevice, buffer: array<uint8>, pageCode: int)
    returns (srbStatus: SrbStatus, retSize: nat)
    modifies buffer
    ensures buffer.Length < HEADER_SIZE ==>
              srbStatus == SrbDataOverrun && retSize == HEADER_SIZE && buffer[..] == old(buffer[..])
    ensures buffer.Length >= HEADER_SIZE ==>
              && srbStatus == (if Requested(pageCode, CacheFlags(dev)).Some? then SrbSuccess else SrbInvalidRequest)
              && retSize == ReturnedSize(pageCode, CacheFlags(dev), buffer.Length)
              && buffer[..] == Sensed(pageCode, CacheFlags(dev), old(buffer[..]))
    ensures buffer.Length >= HEADER_SIZE + 36 ==>
              Reports(pageCode, dev.readCacheEnabled, dev.writeCacheEnabled, buffer[..])
  {
    if buffer.Length < HEADER_SIZE {
      return SrbDataOverrun, HEADER_SIZE;
    }
    ghost var before := buffer[..];
    srbStatus, retSize := Reply(buffer, pageCode, CacheFlags(dev));
    if buffer.Length >= HEADER_SIZE + 36 {
      SensedReports(pageCode, CacheFlags(dev), before);
    }
  }

  /**
    The page of the code asked for is there, or all three in this order; the caching page shows the caches of the
    device, and the one on exceptions report method 5.  Each has 10 bytes after its header.
   */
  predicate Reports(pageCode: int, readCache: bool, writeCache: bool, data: seq<uint8>)
    requires |data| >= 40
  {
    && (pageCode in {0x08, 0x0A, 0x1C} ==> data[4] % 0x40 == pageCode && data[5] == 10)
    && (pageCode == 0x3F ==> data[4] % 0x40 == 0x08 && data[16] % 0x40 == 0x0A && data[28] % 0x40 == 0x1C
                             && data[5] == data[17] == data[29] == 10 && data[31] == 5)
    && (pageCode in {0x08, 0x3F} ==> data[6] % 2 == (if readCache then 0 else 1)
                                     && data[6] / 4 % 2 == (if writeCache then 1 else 0))
    && (pageCode == 0x1C ==> data[7] == 5)
  }

  lemma SensedBytes(pageCode: int, flags: Flags, before: seq<uint8>)
    requires |before| >= 40
    ensures var data, all := Sensed(pageCode, flags, before), PagesFor(pageCode, flags);
            forall i :: 4 <= i < 4 + |all| ==> data[i] == all[i - 4]
  {
    var all := PagesFor(pageCode, flags);
    assert Firsts(all, |before| - HEADER_SIZE) == all;
  }

  lemma SensedReports(pageCode: int, flags: Flags, before: seq<uint8>)
    requires |before| >= 40
    ensures Reports(pageCode, flags.read, flags.write, Sensed(pageCode, flags, before))
  {
    SensedBytes(pageCode, flags, before);
    var data, all := Sensed(pageCode, flags, before), PagesFor(pageCode, flags);
    if pageCode == 0x3F {
      assert all == CachingPage(flags) + ControlPage() + InfoExceptionPage() && |all| == 36;
      assert data[16] == all[12] == ControlPage()[0] && data[17] == all[13] == ControlPage()[1];
      assert data[28] == all[24] == InfoExceptionPage()[0] && data[29] == all[25] == InfoExceptionPage()[1];
      assert data[31] == all[27] == InfoExceptionPage()[3];
    }
  }

  // ---- Round trip ----

  lemma {:induction false} LastOne(pages: seq<Page>, i: nat, flags: Flags)
    requires i < |pages| && IsCaching(pages[i])
    requires forall j :: i < j < |pages| ==> !IsCaching(pages[j])
    ensures LastCaching(pages, flags) == FlagsOf(pages[i].params[0])
  {
    if i < |pages| - 1 {
      LastOne(pages[..|pages| - 1], i, flags);
    }
  }

  /** The page codes whose answer starts with the caching page. */
  predicate AsksForCaching(pageCode: int) {
    pageCode == MODE_PAGE_CACHING || pageCode == MODE_SENSE_RETURN_ALL
  }

  /** With room for the caching page, it is what follows the header, and its flags are the device's. */
  lemma SensedCaching(pageCode: int, flags: Flags, before: seq<uint8>)
    requires AsksForCaching(pageCode) && |before| >= HEADER_SIZE + 2 + PARAMETER_SIZE
    ensures Sensed(pageCode, flags, before)[HEADER_SIZE..HEADER_SIZE + 2 + PARAMETER_SIZE] == CachingPage(flags)
    ensures FlagsOf(Sensed(pageCode, flags, before)[HEADER_SIZE + 2]) == flags
  {
    var all := PagesFor(pageCode, flags);
    assert all[..2 + PARAMETER_SIZE] == CachingPage(flags);
    assert Firsts(all, |before| - HEADER_SIZE)[..2 + PARAMETER_SIZE] == CachingPage(flags);
  }

  /**
    After a MODE SELECT whose last caching page is page `i`, a MODE SENSE with room for the caching page
    reports the RCD and WCE bits of that page.
   */
  lemma SelectThenSense(pages: seq<Page>, i: nat, flags: Flags, pageCode: int, before: seq<uint8>)
    requires i < |pages| && IsCaching(pages[i])
    requires forall j :: i < j < |pages| ==> !IsCaching(pages[j])
    requires AsksForCaching(pageCode) && |before| >= HEADER_SIZE + 2 + PARAMETER_SIZE
    ensures var reported := Sensed(pageCode, LastCaching(pages, flags), before)[HEADER_SIZE + 2];
            && reported % 2 == pages[i].params[0] % 2
            && reported / 4 % 2 == pages[i].params[0] / 4 % 2
  {
    LastOne(pages, i, flags);
    SensedCaching(pageCode, LastCaching(pages, flags), before);
  }

  /** The two commands one after the other, on the buffers they come with. */
  method SelectAndSense(dev: NvmeDevice, selected: array<uint8>, ghost pages: seq<Page>, ghost rest: seq<uint8>,
                        ghost i: nat, sensed: array<uint8>, pageCode: int)
    requires HEADER_SIZE <= selected.Length && HEADER_SIZE + selected[3] <= selected.Length && selected != sensed
    requires forall j :: 0 <= j < |pages| ==> Sized(pages[j])
    requires Tail(rest) && selected[HEADER_SIZE + selected[3]..] == EncodeAll(pages) + rest
    requires i < |pages| && IsCaching(pages[i]) && forall j :: i < j < |pages| ==> !IsCaching(pages[j])
    requires AsksForCaching(pageCode) && sensed.Length >= HEADER_SIZE + 2 + PARAMETER_SIZE
    modifies dev`readCacheEnabled, dev`writeCacheEnabled, sensed
    ensures sensed[HEADER_SIZE + 2] % 2 == pages[i].params[0] % 2
    ensures sensed[HEADER_SIZE + 2] / 4 % 2 == pages[i].params[0] / 4 % 2
  {
    ghost var flags, before := CacheFlags(dev), sensed[..];
    var _ := ScsiModeSelect6(dev, selected, true, pages, rest);
    var _, _ := ScsiModeSense6(dev, sensed, pageCode);
    SelectThenSense(pages, i, flags, pageCode, before);
    assert sensed[HEADER_SIZE + 2] == sensed[..][HEADER_SIZE + 2];
  }

  /** The pages MODE SENSE reports, as MODE SELECT reads them. */
  function ReportedPages(pageCode: int, flags: Flags): seq<Page> {
    var caching := Page(CachingPage(flags)[0], CachingPage(flags)[2..]);
    if pageCode == MODE_PAGE_CACHING then [caching]
    else [caching, Page(ControlPage()[0], ControlPage()[2..]), Page(InfoExceptionPage()[0], InfoExceptionPage()[2..])]
  }

  lemma ReportedPagesAre(pageCode: int, flags: Flags)
    requires AsksForCaching(pageCode)
    ensures forall i :: 0 <= i < |ReportedPages(pageCode, flags)| ==> Sized(ReportedPages(pageCode, flags)[i])
    ensures EncodeAll(ReportedPages(pageCode, flags)) == PagesFor(pageCode, flags)
  {
    var pages := ReportedPages(pageCode, flags);
    assert Encode(pages[0]) == CachingPage(flags);
    if pageCode == MODE_SENSE_RETURN_ALL {
      assert Encode(pages[1]) == ControlPage() && Encode(pages[2]) == InfoExceptionPage();
      assert pages[1..][0] == pages[1] && pages[1..][1..] == [pages[2]];
      assert EncodeAll([pages[2]]) == Encode(pages[2]);
      assert EncodeAll(pages[1..]) == ControlPage() + InfoExceptionPage();
    }
  }

  /** A MODE SELECT of what a MODE SENSE reported sets the flags it reported, whatever they were. */
  lemma SenseThenSelect(pageCode: int, flags: Flags, before: Flags)
    requires AsksForCaching(pageCode)
    ensures LastCaching(ReportedPages(pageCode, flags), before) == flags
  {
    var pages := ReportedPages(pageCode, flags);
    assert IsCaching(pages[0]);
    LastOne(pages, 0, before);
  }

  /** The whole answer of a MODE SENSE handed to a MODE SELECT, perhaps of another device. */
  method SenseAndSelect(dev: NvmeDevice, other: NvmeDevice, pageCode: int) returns (buffer: array<uint8>)
    requires AsksForCaching(pageCode)
    modifies other`readCacheEnabled, other`writeCacheEnabled
    ensures CacheFlags(other) == old(CacheFlags(dev))
  {
    ghost var flags := CacheFlags(dev);
    buffer := new uint8[HEADER_SIZE + if pageCode == MODE_PAGE_CACHING then 12 else 36](_ => 0);
    ghost var before := buffer[..];
    var _, _ := ScsiModeSense6(dev, buffer, pageCode);
    ReportedPagesAre(pageCode, flags);
    SenseThenSelect(pageCode, flags, CacheFlags(other));
    assert buffer[..] == [buffer.Length - 1, 0, 0, 0] + PagesFor(pageCode, flags);
    assert buffer[3] == buffer[..][3] == 0;
    assert buffer[HEADER_SIZE..] == PagesFor(pageCode, flags) + [];
    var _ := ScsiModeSelect6(other, buffer, true, ReportedPages(pageCode, flags), []);
  }

  /** Without a caching page of the right size a MODE SELECT changes nothing. */
  lemma {:induction false} NoCachingPage(pages: seq<Page>, flags: Flags)
    requires forall j :: 0 <= j < |pages| ==> !IsCaching(pages[j])
    ensures LastCaching(pages, flags) == flags
  {
    if pages != [] {
      NoCachingPage(pages[..|pages| - 1], flags);
    }
  }
}
