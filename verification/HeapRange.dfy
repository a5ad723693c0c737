/** The heap hbloader gives to a homebrew. */
module HeapRange {
  import opened Common

  // hbl/source/env.c, findUsableHeapRange: the longest usable run of a kernel memory map.

  const PAGE := 0x1000

  /** What svcQueryMemory says of the block around an address. */
  datatype MemoryInfo = MemoryInfo(addr: U64, size: U64, isHeap: bool, isRw: bool, attr: nat) {
    predicate Usable() {
      isHeap && isRw && attr == 0
    }

    predicate Covers(x: U64) {
      addr <= x < addr + size
    }
  }

  datatype Range = Range(start: U64, size: U64) {
    function End(): nat {
      start + size
    }
  }

  /** svcQueryMemory; None is a failed call. */
  type Query = U64 -> Option<MemoryInfo>

  /** The map is a fixed partition of [lo, hi): each address lies in its block, and the block is the same one
      wherever it is asked for. */
  ghost predicate Consistent(query: Query, lo: U64, hi: U64) {
    forall x: U64 :: lo <= x < hi ==> IsBlockOf(query, lo, hi, x)
  }

  ghost predicate IsBlockOf(query: Query, lo: U64, hi: U64, x: U64) {
    && query(x).Some?
    && query(x).value.Covers(x)
    && query(x).value.addr + query(x).value.size < U64_LIMIT
    && forall y: U64 :: lo <= y < hi && query(x).value.Covers(y) ==> query(y) == query(x)
  }

  predicate UsableBlock(info: MemoryInfo, lo: U64, hi: U64) {
    var start, end := Max(info.addr, lo), Min(info.addr + info.size, hi);
    info.Usable() && start % PAGE == 0 && (end - start) % PAGE == 0
  }

  /** The address lies in a block that is usable and, clipped to [lo, hi), page-aligned. */
  predicate Good(query: Query, lo: U64, hi: U64, x: int) {
    && lo <= x < hi
    && query(x).Some?
    && UsableBlock(query(x).value, lo, hi)
  }

  /** Every address of [a, b) is good: a contiguous usable run, whatever blocks it is made of. */
  ghost predicate Run(query: Query, lo: U64, hi: U64, a: int, b: int) {
    lo <= a < b <= hi && forall x :: a <= x < b ==> Good(query, lo, hi, x)
  }

  /** r is a longest run, and the first of that length. */
  ghost predicate IsLongestRun(query: Query, lo: U64, hi: U64, r: Range) {
    && Run(query, lo, hi, r.start, r.End())
    && forall a, b :: Run(query, lo, hi, a, b) ==> NoBetter(r, a, b)
  }

  predicate NoBetter(r: Range, a: int, b: int) {
    b - a < r.size || (b - a == r.size && r.start <= a)
  }

  // the scan's state before `cur`: every run that ends by `cur` is no better than `best` or lies in the run
  // that is still open
  ghost predicate Scanned(query: Query, lo: U64, hi: U64, cur: int, best: Range, open: Range) {
    && (best.size > 0 ==> Run(query, lo, hi, best.start, best.End()) && best.End() <= if open.size > 0 then open.start else cur)
    && (open.size > 0 ==> Run(query, lo, hi, open.start, open.End()) && open.End() == cur)
    && (open.size == 0 && cur > lo ==> !Good(query, lo, hi, cur - 1))
    && (open.size > 0 && open.start > lo ==> !Good(query, lo, hi, open.start - 1))
    && forall a, b :: Run(query, lo, hi, a, b) && b <= cur ==> NoBetter(best, a, b) || (open.size > 0 && open.start <= a)
  }

  predicate Aligned(r: Range) {
    r.start % PAGE == 0 && r.size % PAGE == 0
  }

  // the run that was open is closed at `cur`: the better of the two is kept
  function Better(best: Range, open: Range): Range {
    if open.size > best.size then open else best
  }

  lemma CloseRun(query: Query, lo: U64, hi: U64, cur: int, best: Range, open: Range)
    requires Scanned(query, lo, hi, cur, best, open)
    ensures forall a, b :: Run(query, lo, hi, a, b) && b <= cur ==> NoBetter(Better(best, open), a, b)
  {
  }

  // a whole block is good or none of it is, and the next block begins where this one ends
  lemma BlockIsUniform(query: Query, lo: U64, hi: U64, cur: U64)
    requires Consistent(query, lo, hi) && lo <= cur < hi
    ensures query(cur).Some? && query(cur).value.Covers(cur) && query(cur).value.addr + query(cur).value.size < U64_LIMIT
    ensures var info := query(cur).value; forall x :: Max(info.addr, lo) <= x < Min(info.addr + info.size, hi) ==>
              (Good(query, lo, hi, x) <==> UsableBlock(info, lo, hi))
    ensures var end: U64 := query(cur).value.addr + query(cur).value.size;
            end < hi ==> query(end).Some? && query(end).value.addr == end
  {
    assert IsBlockOf(query, lo, hi, cur);
    var info := query(cur).value;
    var end: U64 := info.addr + info.size;
    if end < hi {
      assert IsBlockOf(query, lo, hi, end);
      assert info.Covers(end - 1) && query(end - 1) == query(cur);
    }
  }

  /** An address of read-write heap memory without attributes, in whole pages of [lo, hi). */
  predicate IsHeapPage(query: Query, lo: U64, hi: U64, x: int) {
    && lo <= x < hi && query(x).Some?
    && var info := query(x).value; var start, end := Max(info.addr, lo), Min(info.addr + info.size, hi);
    && info.isHeap && info.isRw && info.attr == 0 && start % 0x1000 == 0 && (end - start) % 0x1000 == 0
  }

  /** The run that is found is such memory throughout, and the longest of it; one is found exactly where there is some. */
  lemma FoundIsHeap(query: Query, lo: U64, hi: U64, r: Range)
    ensures SomeGood(query, lo, hi) <==> exists x :: IsHeapPage(query, lo, hi, x)
    ensures IsLongestRun(query, lo, hi, r) ==>
              && r.size > 0 && (forall x :: r.start <= x < r.End() ==> IsHeapPage(query, lo, hi, x))
              && forall a, b :: lo <= a < b <= hi && (forall x :: a <= x < b ==> IsHeapPage(query, lo, hi, x)) ==> NoBetter(r, a, b)
  {
    forall x
      ensures Good(query, lo, hi, x) <==> IsHeapPage(query, lo, hi, x)
    {
    }
    hide Good, IsHeapPage;
    forall a, b | lo <= a < b <= hi && (forall x :: a <= x < b ==> IsHeapPage(query, lo, hi, x))
      ensures Run(query, lo, hi, a, b)
    {
    }
  }

  // a good address is a run of one byte
  lemma RunsAreWhereGood(query: Query, lo: U64, hi: U64)
    ensures forall x :: Good(query, lo, hi, x) ==> Run(query, lo, hi, x, x + 1)
  {
  }

  ghost predicate SomeGood(query: Query, lo: U64, hi: U64) {
    exists x :: Good(query, lo, hi, x)
  }

  /** The range with a block added to it: the run that is open grows when it ends there, or a new one begins. */
  function Grown(open: Range, start: U64, end: U64): Range
    requires start <= end
  {
    if open.size > 0 && open.End() == start then Range(open.start, end - open.start) else Range(start, end - start)
  }

  /** The best and the open run after the block [start, end). */
  function Step(best: Range, open: Range, usable: bool, start: U64, end: U64): (Range, Range)
    requires start <= end
  {
    if !usable then (Better(best, open), Range(0, 0))
    else (if open.size > 0 && open.End() == start then best else Better(best, open), Grown(open, start, end))
  }

  lemma ScanGoodBlock(query: Query, lo: U64, hi: U64, cur: U64, end: U64, best: Range, open: Range)
    requires Scanned(query, lo, hi, cur, best, open) && lo <= cur < end <= hi
    requires forall x :: cur <= x < end ==> Good(query, lo, hi, x)
    ensures Scanned(query, lo, hi, end, best, Grown(open, cur, end))
  {
    var grown := Grown(open, cur, end);
    assert Run(query, lo, hi, grown.start, end);
    forall a, b | Run(query, lo, hi, a, b) && b <= end
      ensures NoBetter(best, a, b) || grown.start <= a
    {
      assert a <= grown.start - 1 < b ==> Good(query, lo, hi, grown.start - 1);
    }
  }

  lemma ScanBadBlock(query: Query, lo: U64, hi: U64, cur: U64, end: U64, best: Range, open: Range)
    requires Scanned(query, lo, hi, cur, best, open) && lo <= cur < end <= hi
    requires forall x :: cur <= x < end ==> !Good(query, lo, hi, x)
    ensures Scanned(query, lo, hi, end, Better(best, open), Range(0, 0))
  {
    CloseRun(query, lo, hi, cur, best, open);
    forall a, b | Run(query, lo, hi, a, b) && b <= end
      ensures b <= cur
    {
      assert Good(query, lo, hi, b - 1);
    }
  }

  // the scan stands at `cur`, the beginning of a block
  ghost predicate Reached(query: Query, lo: U64, hi: U64, cur: U64, best: Range, open: Range) {
    && Scanned(query, lo, hi, Min(cur, hi), best, open)
    && (lo < cur < hi ==> query(cur).Some? && query(cur).value.addr == cur)
  }

  lemma ScanBlock(query: Query, lo: U64, hi: U64, cur: U64, info: MemoryInfo, best: Range, open: Range)
    requires Consistent(query, lo, hi) && lo <= cur < hi && query(cur) == Some(info)
    requires Reached(query, lo, hi, cur, best, open)
    ensures info.Covers(cur) && info.addr + info.size < U64_LIMIT
    ensures var start, end := Max(info.addr, lo), Min(info.addr + info.size, hi);
            var next := Step(best, open, UsableBlock(info, lo, hi), start, end);
            Reached(query, lo, hi, info.addr + info.size, next.0, next.1)
  {
    BlockIsUniform(query, lo, hi, cur);
    var end: U64 := Min(info.addr + info.size, hi);
    if UsableBlock(info, lo, hi) {
      if open.size == 0 {
        CloseRun(query, lo, hi, cur, best, open);
      }
      ScanGoodBlock(query, lo, hi, cur, end, best, open);
    } else {
      ScanBadBlock(query, lo, hi, cur, end, best, open);
    }
  }

  lemma ZeroAligned()
    ensures Aligned(Range(0, 0))
  {
  }

  lemma ScanStarts(query: Query, lo: U64, hi: U64)
    requires lo <= hi
    ensures Reached(query, lo, hi, lo, Range(0, 0), Range(0, 0))
  {
  }

  lemma ScanEnds(query: Query, lo: U64, hi: U64, cur: U64, best: Range, open: Range)
    requires Reached(query, lo, hi, cur, best, open) && cur >= hi
    ensures var r := Better(best, open);
            (r.size > 0 <==> SomeGood(query, lo, hi)) && (r.size > 0 ==> IsLongestRun(query, lo, hi, r))
  {
    CloseRun(query, lo, hi, hi, best, open);
    RunsAreWhereGood(query, lo, hi);
    var r := Better(best, open);
    if r.size > 0 {
      assert Good(query, lo, hi, r.start);
    }
  }

  predicate InRange(r: Range, lo: U64, hi: U64) {
    r.size > 0 ==> lo <= r.start && r.End() <= hi
  }

  /** The bookkeeping of one block in findUsableHeapRange's loop. */
  method AddBlock(oldBest: Range, oldOpen: Range, usable: bool, blockStart: U64, blockSize: U64) returns (best: Range, open: Range)
    requires blockStart + blockSize < U64_LIMIT && oldOpen.End() < U64_LIMIT
    ensures (best, open) == Step(oldBest, oldOpen, usable, blockStart, blockStart + blockSize)
    ensures Aligned(oldBest) && Aligned(oldOpen) && (usable ==> blockStart % PAGE == 0 && blockSize % PAGE == 0) ==>
              Aligned(best) && Aligned(open)
    ensures forall lo: U64, hi: U64 ::
              InRange(oldBest, lo, hi) && InRange(oldOpen, lo, hi) && lo <= blockStart && blockStart + blockSize <= hi ==>
                InRange(best, lo, hi) && InRange(open, lo, hi)
  {
    best, open := oldBest, oldOpen;
    if usable {
      if open.size > 0 && Add64(open.start, open.size) == blockStart {
        open := Range(open.start, open.size + blockSize);
      } else {
        if open.size > best.size {
          best := open;
        }
        open := Range(blockStart, blockSize);
      }
    } else {
      if open.size > best.size {
        best := open;
      }
      open := Range(0, 0);
    }
  }

  /** One svcQueryMemory of the loop; None where the loop aborts: the call fails, or the answer is empty, wraps
      around or does not cover the address asked for. */
  method BlockAt(query: Query, curAddr: U64) returns (block: Option<MemoryInfo>)
    ensures block.Some? <==> query(curAddr).Some? && query(curAddr).value.Covers(curAddr)
                             && query(curAddr).value.addr + query(curAddr).value.size < U64_LIMIT
    ensures block.Some? ==> block == query(curAddr)
  {
    block := query(curAddr);
    if block.None? {
      return;
    }
    var info, memEnd := block.value, Add64(block.value.addr, block.value.size);
    if info.size == 0 || memEnd <= info.addr || curAddr < info.addr || curAddr >= memEnd || memEnd <= curAddr {
      return None;
    }
  }

  /** findUsableHeapRange; None is diagAbortWithResult. */
  method FindUsableHeapRange(overrideAddr: U64, overrideSize: U64, query: Query) returns (r: Option<Range>)
    ensures overrideSize == 0 || overrideAddr == 0 || overrideAddr + overrideSize >= U64_LIMIT ==> r.None?
    ensures r.Some? ==> r.value.size > 0 && Aligned(r.value)
                        && overrideAddr <= r.value.start && r.value.End() <= overrideAddr + overrideSize
    ensures 0 < overrideAddr && 0 < overrideSize && overrideAddr + overrideSize < U64_LIMIT
            && Consistent(query, overrideAddr, overrideAddr + overrideSize) ==>
              && (r.Some? <==> SomeGood(query, overrideAddr, overrideAddr + overrideSize))
              && (r.Some? ==> IsLongestRun(query, overrideAddr, overrideAddr + overrideSize, r.value))
  {
    hide Reached, Aligned, Step, Consistent, IsLongestRun, SomeGood;
    if overrideSize == 0 || overrideAddr == 0 || Add64(overrideAddr, overrideSize) <= overrideAddr {
      return None;
    }
    var overrideEnd: U64 := overrideAddr + overrideSize;
    var curAddr: U64 := overrideAddr;
    var best, open := Range(0, 0), Range(0, 0);
    ghost var consistent := Consistent(query, overrideAddr, overrideEnd);
    ScanStarts(query, overrideAddr, overrideEnd);
    assert Aligned(Range(0, 0)) by { ZeroAligned(); }
    while curAddr < overrideEnd
      invariant overrideAddr <= curAddr
      invariant Aligned(best) && Aligned(open)
      invariant InRange(best, overrideAddr, overrideEnd) && InRange(open, overrideAddr, overrideEnd)
      invariant consistent ==> Reached(query, overrideAddr, overrideEnd, curAddr, best, open)
      decreases overrideEnd - curAddr
    {
      if consistent {
        BlockIsUniform(query, overrideAddr, overrideEnd, curAddr);
      }
      var block := BlockAt(query, curAddr);
      if block.None? {
        return None;
      }
      var info, memEnd := block.value, Add64(block.value.addr, block.value.size);
      var blockStart: U64 := if info.addr < overrideAddr then overrideAddr else info.addr;
      var blockEnd: U64 := if memEnd > overrideEnd then overrideEnd else memEnd;
      var blockSize: U64 := blockEnd - blockStart;
      var usable := info.Usable() && blockStart % PAGE == 0 && blockSize % PAGE == 0;
      if consistent {
        assert usable == UsableBlock(info, overrideAddr, overrideEnd);
        ScanBlock(query, overrideAddr, overrideEnd, curAddr, info, best, open);
      }
      best, open := AddBlock(best, open, usable, blockStart, blockSize);
      curAddr := memEnd;
    }
    if consistent {
      ScanEnds(query, overrideAddr, overrideEnd, curAddr, best, open);
    }
    if open.size > best.size {
      best := open;
    }
    if best.size == 0 {
      return None;
    }
    return Some(best);
  }
}
