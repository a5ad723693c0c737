/** The size checks hbloader makes before it maps a homebrew, and the heap it leaves to it
    (hbl/source/main.c, loadNro). */
module LoadNro {
  import opened Common
  import opened HeapRange

  const HEADER_SIZE := 0x80 // sizeof(NroStart) + sizeof(NroHeader)

  datatype Segment = Segment(fileOff: U32, size: U32)

  /** The NRO header as read from the file: text, rodata and data segments. */
  datatype NroHeader = NroHeader(size: U32, bssSize: U32, text: Segment, rodata: Segment, data: Segment)

  datatype Sizes = Sizes(rwSize: U64, totalSize: U64)

  /** Round up to a page, with the wrap of the u64 addition. */
  function AlignPage(n: U64): U64 {
    Add64(n, PAGE - 1) / PAGE * PAGE
  }

  /** n rounded up to a page, as a number. */
  function PagesOf(n: nat): nat {
    (n + PAGE - 1) / PAGE * PAGE
  }

  predicate SegmentInside(seg: Segment, size: nat) {
    seg.fileOff < size && seg.fileOff + seg.size <= size
  }

  /** The image fits: what the checks are there for, in plain numbers. */
  predicate Fits(h: NroHeader, heapSize: U64) {
    && HEADER_SIZE <= h.size
    && SegmentInside(h.text, h.size) && SegmentInside(h.rodata, h.size) && SegmentInside(h.data, h.size)
    && h.data.fileOff + PagesOf(h.data.size + h.bssSize) <= heapSize
    && PagesOf(h.size + h.bssSize) <= heapSize
  }

  method CheckSegment(seg: Segment, nroSize: U64) returns (ok: bool)
    requires nroSize < U32_LIMIT
    ensures ok <==> SegmentInside(seg, nroSize)
  {
    ok := !(seg.fileOff >= nroSize || seg.size > nroSize
            || Add64(seg.fileOff, seg.size) < seg.fileOff || Add64(seg.fileOff, seg.size) > nroSize);
  }

  lemma AlignedUp(n: U64)
    requires n < 2 * U32_LIMIT
    ensures AlignPage(n) == PagesOf(n) >= n && PagesOf(n) < n + PAGE && PagesOf(n) % PAGE == 0
  {
  }

  /** The validation of loadNro; None is diagAbortWithResult. It accepts exactly the images that fit, and no
      addition wraps on the way. */
  method CheckSizes(h: NroHeader, heapSize: U64) returns (r: Option<Sizes>)
    ensures r.Some? <==> Fits(h, heapSize)
    // each segment begins and ends in the file, and what is mapped of it fits the heap
    ensures r.Some? <==>
              && h.size >= 0x80
              && h.text.fileOff < h.size && h.text.fileOff + h.text.size <= h.size
              && h.rodata.fileOff < h.size && h.rodata.fileOff + h.rodata.size <= h.size
              && h.data.fileOff < h.size && h.data.fileOff + h.data.size <= h.size
              && h.data.fileOff + (h.data.size + h.bssSize + 0xFFF) / 0x1000 * 0x1000 <= heapSize
              && (h.size + h.bssSize + 0xFFF) / 0x1000 * 0x1000 <= heapSize
    ensures r.Some? ==> r.value.rwSize == PagesOf(h.data.size + h.bssSize) && r.value.totalSize == PagesOf(h.size + h.bssSize)
  {
    var nroSize: U64, bssSize: U64 := h.size, h.bssSize;
    if nroSize < HEADER_SIZE || nroSize > heapSize {
      AlignedUp(h.size + h.bssSize);
      return None;
    }
    var text := CheckSegment(h.text, nroSize);
    var rodata := CheckSegment(h.rodata, nroSize);
    var data := CheckSegment(h.data, nroSize);
    if !text || !rodata || !data {
      return None;
    }
    var seg2Off: U64, seg2Size: U64 := h.data.fileOff, h.data.size;
    var rwRaw := Add64(seg2Size, bssSize);
    if rwRaw < seg2Size {
      return None;
    }
    AlignedUp(rwRaw);
    var rwSize := AlignPage(rwRaw);
    if rwSize < rwRaw {
      return None;
    }
    if Add64(seg2Off, rwSize) < seg2Off || Add64(seg2Off, rwSize) > heapSize {
      return None;
    }
    var totalRaw := Add64(nroSize, bssSize);
    if totalRaw < nroSize {
      return None;
    }
    AlignedUp(totalRaw);
    var totalSize := AlignPage(totalRaw);
    if totalSize < totalRaw || totalSize > heapSize {
      return None;
    }
    return Some(Sizes(rwSize, totalSize));
  }

  /** Where .data + .bss ends in the heap: the image is [heapAddr, heapAddr + ImageEnd). */
  function ImageEnd(h: NroHeader): nat {
    h.data.fileOff + PagesOf(h.data.size + h.bssSize)
  }

  /** loadNro from the header to the override heap of the homebrew. The heap handed over lies inside
      hbloader's own heap, behind the image, is page-aligned, and is the longest run the map has there. */
  method OverrideHeap(h: NroHeader, heapAddr: U64, heapSize: U64, query: Query) returns (r: Option<Range>)
    requires heapAddr > 0 && heapAddr + heapSize < U64_LIMIT
    ensures r.Some? ==> Fits(h, heapSize) && Aligned(r.value) && r.value.size > 0
    ensures r.Some? ==> heapAddr + ImageEnd(h) <= r.value.start && r.value.End() <= heapAddr + heapSize
    ensures !Fits(h, heapSize) || ImageEnd(h) == heapSize ==> r.None?
    ensures Fits(h, heapSize) && ImageEnd(h) < heapSize
            && Consistent(query, heapAddr + ImageEnd(h), heapAddr + heapSize) ==>
              && (r.Some? <==> SomeGood(query, heapAddr + ImageEnd(h), heapAddr + heapSize))
              && (r.Some? ==> IsLongestRun(query, heapAddr + ImageEnd(h), heapAddr + heapSize, r.value))
  {
    var sizes := CheckSizes(h, heapSize);
    if sizes.None? {
      return None;
    }
    var nroSize: U64 := h.data.fileOff + sizes.value.rwSize;
    var rawHeapStart := Add64(heapAddr, nroSize);
    var rawHeapSize: U64 := Add64(heapSize, heapAddr) - rawHeapStart;
    r := FindUsableHeapRange(rawHeapStart, rawHeapSize, query);
  }

  /** The checks alone do not put the scan for the heap, which starts at ImageEnd, behind the whole mapped image: it
      starts there exactly when the pages of .data and .bss, counted from the start of .data, reach its last page. */
  lemma HeapClearsMapping(h: NroHeader, heapSize: U64)
    requires Fits(h, heapSize)
    ensures ImageEnd(h) >= PagesOf(h.size + h.bssSize)
            <==> PagesOf(h.data.fileOff / PAGE * PAGE + h.data.size + h.bssSize) == PagesOf(h.size + h.bssSize)
  {
    var base := h.data.fileOff / PAGE * PAGE;
    PagesShift(base, h.data.size + h.bssSize);
  }

  lemma PagesShift(base: nat, n: nat)
    requires base % PAGE == 0
    ensures base + PagesOf(n) == PagesOf(base + n)
  {
  }

  /** An accepted image whose data segment comes first: the scan starts inside the mapped file. */
  lemma HeapInsideMapping()
    ensures exists h: NroHeader, heapSize: U64 :: Fits(h, heapSize) && ImageEnd(h) < PagesOf(h.size + h.bssSize)
  {
    var h := NroHeader(0x3000, 0, Segment(0x1000, 0x1000), Segment(0x2000, 0x1000), Segment(0, 0x1000));
    assert Fits(h, 0x10000) && ImageEnd(h) < PagesOf(h.size + h.bssSize);
  }
}
