/** The IVFC hash tree of a Control NCA, and its repair in place. */
module HashTree {
  import opened Common

  // sphaira/include/nacp_patch.hpp, Rehash. Level k is a byte range of the section, cut into blocks; level k-1
  // holds one 32-byte digest (a slot) per block of level k, and the master digest covers level 0.

  type Digest = s: seq<Byte> | |s| == 32 witness seq(32, _ => 0)

  datatype Level = Level(offset: nat, size: nat, blockLog2: nat) {
    function BlockSize(): (bs: nat)
      ensures bs > 0
    {
      Pow2(blockLog2)
    }

    function End(): nat {
      offset + size
    }

    // block b begins inside the level
    predicate HasBlock(b: nat) {
      b * BlockSize() < size
    }
  }

  /** A byte range of a level. */
  datatype Span = Span(off: nat, len: nat) {
    predicate Within(size: nat) {
      len > 0 && off + len <= size
    }

    predicate Has(i: int) {
      off <= i < off + len
    }

    function FirstBlock(bs: nat): nat
      requires bs > 0
    {
      off / bs
    }

    function LastBlock(bs: nat): nat
      requires bs > 0 && len > 0
    {
      (off + len - 1) / bs
    }
  }

  // ---- what the tree means ----

  predicate InBounds(sec: seq<Byte>, lv: Level) {
    lv.End() <= |sec|
  }

  function LevelBytes(sec: seq<Byte>, lv: Level): (bytes: seq<Byte>)
    requires InBounds(sec, lv)
    ensures |bytes| == lv.size
  {
    sec[lv.offset..lv.End()]
  }

  /** Block b of a level, padded with zeros to the block size. */
  function Block(bytes: seq<Byte>, bs: nat, b: nat): (block: seq<Byte>)
    requires b * bs < |bytes|
    ensures |block| == bs
  {
    Padded(bytes, b * bs, bs)
  }

  function Padded(bytes: seq<Byte>, start: nat, bs: nat): (block: seq<Byte>)
    requires start < |bytes|
    ensures |block| == bs
    ensures forall i :: 0 <= i < bs ==> block[i] == if start + i < |bytes| then bytes[start + i] else 0
  {
    var stop := Min(start + bs, |bytes|);
    bytes[start..stop] + seq(bs - (stop - start), _ => 0)
  }

  /** Where the digest of block b of level k is stored: in level k-1. */
  function SlotAt(levels: seq<Level>, k: nat, b: nat): nat
    requires 1 <= k < |levels|
  {
    levels[k - 1].offset + b * 32
  }

  function DigestOf(hash: seq<Byte> -> Digest, sec: seq<Byte>, lv: Level, b: nat): Digest
    requires InBounds(sec, lv) && lv.HasBlock(b)
  {
    hash(Block(LevelBytes(sec, lv), lv.BlockSize(), b))
  }

  /** Block b of a level, byte by byte: its bytes of the section, and zeros behind the level's end. */
  predicate IsBlock(sec: seq<Byte>, lv: Level, b: nat, block: seq<Byte>) {
    var start := b * lv.BlockSize();
    && start < lv.size && lv.offset + lv.size <= |sec| && |block| == lv.BlockSize()
    && forall i :: 0 <= i < |block| ==> block[i] == if start + i < lv.size then sec[lv.offset + start + i] else 0
  }

  // the digest of a block is the hash of those bytes
  lemma DigestMeans(hash: seq<Byte> -> Digest, sec: seq<Byte>, lv: Level, b: nat, block: seq<Byte>)
    requires IsBlock(sec, lv, b, block)
    ensures InBounds(sec, lv) && lv.HasBlock(b) && DigestOf(hash, sec, lv, b) == hash(block)
  {
    var bytes, start := LevelBytes(sec, lv), b * lv.BlockSize();
    assert forall i :: 0 <= i < |block| ==> block[i] == Padded(bytes, start, |block|)[i];
    assert block == Block(bytes, lv.BlockSize(), b);
  }

  lemma BlockMeans(hash: seq<Byte> -> Digest, sec: seq<Byte>, lv: Level, b: nat)
    ensures forall block :: IsBlock(sec, lv, b, block) ==>
              InBounds(sec, lv) && lv.HasBlock(b) && DigestOf(hash, sec, lv, b) == hash(block)
  {
    hide DigestOf, IsBlock;
    forall block | IsBlock(sec, lv, b, block)
      ensures InBounds(sec, lv) && lv.HasBlock(b) && DigestOf(hash, sec, lv, b) == hash(block)
    {
      DigestMeans(hash, sec, lv, b, block);
    }
  }

  lemma BlockExists(sec: seq<Byte>, lv: Level, b: nat)
    requires InBounds(sec, lv) && lv.HasBlock(b)
    ensures IsBlock(sec, lv, b, Block(LevelBytes(sec, lv), lv.BlockSize(), b))
  {
    var block, start := Block(LevelBytes(sec, lv), lv.BlockSize(), b), b * lv.BlockSize();
    forall i | 0 <= i < |block|
      ensures block[i] == if start + i < lv.size then sec[lv.offset + start + i] else 0
    {
    }
  }

  /** Block b of level k exists, and its parent has a slot for it. */
  predicate StepExists(levels: seq<Level>, length: nat, k: nat, b: nat)
    requires 1 <= k < |levels|
  {
    levels[k].HasBlock(b) && levels[k].End() <= length && (b + 1) * 32 <= levels[k - 1].size
  }

  /** The bytes of that slot are bytes of the section. */
  predicate SlotThere(levels: seq<Level>, length: nat, k: nat, b: nat)
    requires 1 <= k < |levels|
  {
    SlotAt(levels, k, b) + 32 <= length
  }

  /** The stored digest of block b of level k is the digest of that block. */
  ghost predicate SlotOkAt(hash: seq<Byte> -> Digest, sec: seq<Byte>, levels: seq<Level>, k: nat, b: nat)
    requires 1 <= k < |levels|
  {
    && StepExists(levels, |sec|, k, b) && SlotThere(levels, |sec|, k, b)
    && sec[SlotAt(levels, k, b)..SlotAt(levels, k, b) + 32] == DigestOf(hash, sec, levels[k], b)
  }

  /** Every stored hash of every level matches, and so does the master. */
  ghost predicate TreeValid(hash: seq<Byte> -> Digest, sec: seq<Byte>, levels: seq<Level>, master: seq<Byte>, exact: bool)
    requires Layout(levels, |sec|)
  {
    && (forall k, b: nat :: 1 <= k < |levels| && levels[k].HasBlock(b) ==> SlotOkAt(hash, sec, levels, k, b))
    && MasterOk(hash, sec, levels, master, exact)
  }

  // section byte i belongs to the level
  predicate InLevel(lv: Level, i: int) {
    lv.offset <= i < lv.End()
  }

  predicate Apart(a: Level, b: Level) {
    a.End() <= b.offset || b.End() <= a.offset
  }

  ghost predicate LevelsApart(levels: seq<Level>) {
    forall i, j :: 0 <= i < j < |levels| ==> Apart(levels[i], levels[j])
  }

  /** A tree that can be valid: levels in bounds and apart, none empty, a slot for every block. */
  ghost predicate Layout(levels: seq<Level>, length: nat) {
    && |levels| >= 2
    && LevelsApart(levels)
    && (forall k :: 0 <= k < |levels| ==> levels[k].End() <= length && levels[k].size > 0)
    && (forall k, b: nat :: 1 <= k < |levels| && levels[k].HasBlock(b) ==> (b + 1) * 32 <= levels[k - 1].size)
  }

  // ---- what a dirty range reaches ----

  /** The bytes of level k that a change of `dirty` in the data level makes stale: `dirty` itself at the
      bottom, and above it the slots of the dirty blocks of the level below. */
  function Dirty(levels: seq<Level>, dirty: Span, k: nat): (sp: Span)
    requires k < |levels| && dirty.len > 0
    ensures sp.len > 0
    decreases |levels| - k
  {
    if k == |levels| - 1 then dirty else
    var below := Dirty(levels, dirty, k + 1);
    var bs := levels[k + 1].BlockSize();
    var first, last := below.FirstBlock(bs), below.LastBlock(bs);
    DivMonotone(below.off, below.off + below.len - 1, bs);
    Span(first * 32, (last - first + 1) * 32)
  }

  ghost predicate IsDirty(levels: seq<Level>, dirty: Span, k: nat, b: nat)
    requires k < |levels| && dirty.len > 0
  {
    var sp := Dirty(levels, dirty, k);
    sp.FirstBlock(levels[k].BlockSize()) <= b <= sp.LastBlock(levels[k].BlockSize())
  }

  /** Section byte i is a slot above a dirty block. */
  ghost predicate Stale(levels: seq<Level>, dirty: Span, i: int)
    requires dirty.len > 0
  {
    exists k :: StaleIn(levels, dirty, k, i)
  }

  ghost predicate StaleIn(levels: seq<Level>, dirty: Span, k: nat, i: int)
    requires dirty.len > 0
  {
    k < |levels| - 1 && Dirty(levels, dirty, k).Has(i - levels[k].offset)
  }

  /** Every block and slot on the way from the dirty range to the master exists. */
  ghost predicate Climbable(levels: seq<Level>, length: nat, dirty: Span) {
    && |levels| >= 2 && dirty.len > 0
    && (forall k, b: nat :: 1 <= k < |levels| && IsDirty(levels, dirty, k, b) ==> StepExists(levels, length, k, b))
    && levels[0].size > 0 && levels[0].End() <= length
  }

  /** What Rehash takes for granted: the slots it reads or writes are bytes of the section. */
  ghost predicate SlotsThere(levels: seq<Level>, length: nat, dirty: Span) {
    dirty.len > 0 ==> forall k, b: nat ::
      1 <= k < |levels| && IsDirty(levels, dirty, k, b) && StepExists(levels, length, k, b) ==> SlotThere(levels, length, k, b)
  }

  /** `after` is `before` with exactly the slots above the dirty blocks made right. */
  ghost predicate Rehashed(hash: seq<Byte> -> Digest, before: seq<Byte>, after: seq<Byte>, levels: seq<Level>, dirty: Span)
    requires dirty.len > 0
  {
    && |after| == |before|
    && (forall i :: 0 <= i < |before| && !Stale(levels, dirty, i) ==> after[i] == before[i])
    && (forall k, b: nat :: 1 <= k < |levels| && IsDirty(levels, dirty, k, b) ==> SlotOkAt(hash, after, levels, k, b))
  }

  // ---- arithmetic ----

  lemma DivMonotone(a: nat, b: nat, d: nat)
    requires d > 0 && a <= b
    ensures 0 <= a / d <= b / d
  {
    var p, q := a / d, b / d;
    var r, s := a % d, b % d;
    assert a == d * p + r && b == d * q + s;
    assert d * (q + 1) == d * q + d;
    if p > q {
      Bigger(d, q + 1, p);
    }
  }

  lemma Bigger(d: nat, m: nat, n: nat)
    requires m <= n
    ensures d * m <= d * n
  {
    assert d * n == d * m + d * (n - m);
  }

  lemma BlocksInOrder(sp: Span, bs: nat)
    requires bs > 0 && sp.len > 0
    ensures sp.FirstBlock(bs) <= sp.LastBlock(bs)
  {
    DivMonotone(sp.off, sp.off + sp.len - 1, bs);
  }

  // byte i lies in block b exactly when i / bs == b
  lemma BlockOf(i: nat, bs: nat, b: nat)
    requires bs > 0
    ensures b * bs <= i < b * bs + bs <==> i / bs == b
  {
    assert i == bs * (i / bs) + i % bs;
    assert i / bs + 1 <= b ==> bs * (i / bs + 1) <= bs * b;
    assert i / bs >= b + 1 ==> bs * (i / bs) >= bs * (b + 1);
  }

  // a block that overlaps no byte of the span is not between the span's first and last block
  lemma CleanBlockMisses(sp: Span, bs: nat, b: nat, i: nat)
    requires bs > 0 && sp.len > 0
    requires !(sp.FirstBlock(bs) <= b <= sp.LastBlock(bs))
    requires b * bs <= i < b * bs + bs
    ensures !sp.Has(i)
  {
    BlockOf(i, bs, b);
    if sp.Has(i) {
      DivMonotone(sp.off, i, bs);
      DivMonotone(i, sp.off + sp.len - 1, bs);
    }
  }

  // ---- the repair ----

  /** HashBlock's digest: hash_block of the source. None: the block does not exist. */
  method HashBlock(section: array<Byte>, lv: Level, b: nat, hash: seq<Byte> -> Digest) returns (digest: Option<Digest>)
    ensures digest.Some? <==> lv.HasBlock(b) && InBounds(section[..], lv)
    ensures digest.Some? ==> digest.value == DigestOf(hash, section[..], lv, b)
    ensures digest.Some? ==> exists block :: IsBlock(section[..], lv, b, block) && digest.value == hash(block)
  {
    var bs := lv.BlockSize();
    var start := b * bs;
    if start >= lv.size || lv.End() > section.Length {
      return None;
    }
    var block := new Byte[bs](_ => 0);
    var count := Min(bs, lv.size - start);
    forall i | 0 <= i < count {
      block[i] := section[lv.offset + start + i];
    }
    assert IsBlock(section[..], lv, b, block[..]);
    DigestMeans(hash, section[..], lv, b, block[..]);
    return Some(hash(block[..]));
  }

  function Splice(s: seq<Byte>, at: nat, d: seq<Byte>): seq<Byte>
    requires at + |d| <= |s|
  {
    s[..at] + d + s[at + |d|..]
  }

  method StoreDigest(section: array<Byte>, at: nat, digest: Digest)
    requires at + 32 <= section.Length
    modifies section
    ensures section[..] == Splice(old(section[..]), at, digest)
  {
    forall i | 0 <= i < 32 {
      section[at + i] := digest[i];
    }
  }

  /** The section with block b's digest stored. */
  function StoredOne(hash: seq<Byte> -> Digest, sec: seq<Byte>, levels: seq<Level>, k: nat, b: nat): (sec': seq<Byte>)
    requires 1 <= k < |levels| && StepExists(levels, |sec|, k, b) && SlotThere(levels, |sec|, k, b)
    ensures |sec'| == |sec|
  {
    Splice(sec, SlotAt(levels, k, b), DigestOf(hash, sec, levels[k], b))
  }

  // only bytes of the level changed
  ghost predicate OnlyIn(before: seq<Byte>, after: seq<Byte>, lv: Level) {
    |after| == |before| && forall i :: 0 <= i < |before| && !InLevel(lv, i) ==> after[i] == before[i]
  }

  // what storing block b's digest changes: the bytes of its slot
  ghost predicate OnlySlotStored(before: seq<Byte>, after: seq<Byte>, levels: seq<Level>, k: nat, b: nat)
    requires 1 <= k < |levels|
  {
    && OnlyIn(before, after, levels[k - 1])
    && forall i :: 0 <= i < |before| && !(0 <= i - SlotAt(levels, k, b) < 32) ==> after[i] == before[i]
  }

  lemma StoredOneOnly(hash: seq<Byte> -> Digest, sec: seq<Byte>, levels: seq<Level>, k: nat, b: nat)
    requires 1 <= k < |levels| && StepExists(levels, |sec|, k, b) && SlotThere(levels, |sec|, k, b)
    ensures var sec' := StoredOne(hash, sec, levels, k, b);
      && OnlySlotStored(sec, sec', levels, k, b)
      && sec'[SlotAt(levels, k, b)..SlotAt(levels, k, b) + 32] == DigestOf(hash, sec, levels[k], b)
  {
  }

  // where neither the block nor its slot changes, the slot stays right
  lemma SlotStays(hash: seq<Byte> -> Digest, before: seq<Byte>, after: seq<Byte>, levels: seq<Level>, k: nat, b: nat)
    requires 1 <= k < |levels| && |after| == |before| && SlotOkAt(hash, before, levels, k, b)
    requires forall i :: 0 <= i < |before| && InLevel(levels[k], i) ==> after[i] == before[i]
    requires forall i :: 0 <= i - SlotAt(levels, k, b) < 32 ==> after[i] == before[i]
    ensures SlotOkAt(hash, after, levels, k, b)
  {
    assert LevelBytes(after, levels[k]) == LevelBytes(before, levels[k]);
    var at := SlotAt(levels, k, b);
    assert after[at..at + 32] == before[at..at + 32];
  }

  // levels that are apart: changes inside level j leave the slots of all levels but j and j + 1 alone
  lemma SlotStaysElsewhere(hash: seq<Byte> -> Digest, before: seq<Byte>, after: seq<Byte>, levels: seq<Level>, k: nat, b: nat, j: nat)
    requires 1 <= k < |levels| && j < |levels| && j != k && j != k - 1 && LevelsApart(levels)
    requires OnlyIn(before, after, levels[j]) && SlotOkAt(hash, before, levels, k, b)
    ensures SlotOkAt(hash, after, levels, k, b)
  {
    assert if j < k then Apart(levels[j], levels[k]) else Apart(levels[k], levels[j]);
    assert if j < k - 1 then Apart(levels[j], levels[k - 1]) else Apart(levels[k - 1], levels[j]);
    hide Block, DigestOf;
    SlotStays(hash, before, after, levels, k, b);
  }

  // storing block b's digest in a level that is apart from the block's own: the slot is right, and so stay the others
  lemma StoredSlot(hash: seq<Byte> -> Digest, sec: seq<Byte>, levels: seq<Level>, k: nat, b: nat)
    requires 1 <= k < |levels| && StepExists(levels, |sec|, k, b) && SlotThere(levels, |sec|, k, b)
    requires Apart(levels[k - 1], levels[k])
    ensures var sec' := StoredOne(hash, sec, levels, k, b);
      && SlotOkAt(hash, sec', levels, k, b)
      && forall c: nat :: c != b && SlotOkAt(hash, sec, levels, k, c) ==> SlotOkAt(hash, sec', levels, k, c)
  {
    var sec' := StoredOne(hash, sec, levels, k, b);
    StoredOneOnly(hash, sec, levels, k, b);
    hide StoredOne, Block;
    assert LevelBytes(sec', levels[k]) == LevelBytes(sec, levels[k]);
    forall c: nat | c != b && SlotOkAt(hash, sec, levels, k, c)
      ensures SlotOkAt(hash, sec', levels, k, c)
    {
      assert c < b ==> c * 32 + 32 <= b * 32;
      assert c > b ==> b * 32 + 32 <= c * 32;
      SlotStays(hash, sec, sec', levels, k, c);
    }
  }

  /** The body of Rehash's inner loop: block b of level k, its digest compared or stored in level k-1. */
  method RehashBlock(section: array<Byte>, levels: seq<Level>, k: nat, b: nat, hash: seq<Byte> -> Digest, verify: bool)
    returns (ok: bool)
    requires 1 <= k < |levels|
    requires StepExists(levels, section.Length, k, b) ==> SlotThere(levels, section.Length, k, b)
    modifies section
    ensures ok <==> StepExists(levels, section.Length, k, b) && (verify ==> SlotOkAt(hash, old(section[..]), levels, k, b))
    ensures verify || !ok ==> section[..] == old(section[..])
    ensures !verify && ok ==> section[..] == StoredOne(hash, old(section[..]), levels, k, b)
    // the block's hash, at its place in the parent
    ensures forall block :: StepExists(levels, section.Length, k, b) && IsBlock(old(section[..]), levels[k], b, block) ==>
              var at := levels[k - 1].offset + b * 32;
              && (verify ==> (ok <==> section[at..at + 32] == hash(block)))
              && (!verify ==> section[at..at + 32] == hash(block))
    ensures OnlySlotStored(old(section[..]), section[..], levels, k, b)
    ensures ok && Apart(levels[k - 1], levels[k]) ==>
              && SlotOkAt(hash, section[..], levels, k, b)
              && forall c: nat :: SlotOkAt(hash, old(section[..]), levels, k, c) ==> SlotOkAt(hash, section[..], levels, k, c)
  {
    ghost var was := section[..];
    hide Block, Splice, Apart, DigestOf, IsBlock;
    BlockMeans(hash, was, levels[k], b);
    var digest := HashBlock(section, levels[k], b, hash);
    if digest.None? || (b + 1) * 32 > levels[k - 1].size {
      return false;
    }
    var at := levels[k - 1].offset + b * 32;
    if verify {
      return section[at..at + 32] == digest.value;
    }
    StoredOneOnly(hash, was, levels, k, b);
    if Apart(levels[k - 1], levels[k]) {
      StoredSlot(hash, was, levels, k, b);
    }
    StoreDigest(section, at, digest.value);
    return true;
  }

  // the slot of a dirty block lies in the parent's stale range
  lemma DirtySlotIsStale(levels: seq<Level>, dirty: Span, k: nat, b: nat, i: int)
    requires 1 <= k < |levels| && dirty.len > 0 && IsDirty(levels, dirty, k, b)
    requires 0 <= i - SlotAt(levels, k, b) < 32
    ensures StaleIn(levels, dirty, k - 1, i)
  {
  }

  // every block of the pass exists and, with `verify`, matches
  ghost predicate LevelPasses(hash: seq<Byte> -> Digest, sec: seq<Byte>, levels: seq<Level>, dirty: Span, k: nat, verify: bool)
    requires 1 <= k < |levels| && dirty.len > 0
  {
    forall b: nat :: IsDirty(levels, dirty, k, b) ==>
      StepExists(levels, |sec|, k, b) && (verify ==> SlotOkAt(hash, sec, levels, k, b))
  }

  ghost predicate StaleInOnly(before: seq<Byte>, after: seq<Byte>, levels: seq<Level>, dirty: Span, k: nat)
    requires dirty.len > 0
  {
    |after| == |before| && forall i :: 0 <= i < |before| && !StaleIn(levels, dirty, k, i) ==> after[i] == before[i]
  }

  /** The section with the digests of the blocks from b to last of level k stored, one after the other, up to the
      first that does not exist. */
  function Stored(hash: seq<Byte> -> Digest, sec: seq<Byte>, levels: seq<Level>, k: nat, b: nat, last: nat): (sec': seq<Byte>)
    requires 1 <= k < |levels|
    ensures |sec'| == |sec|
    decreases last + 1 - b
  {
    if b > last || !StepExists(levels, |sec|, k, b) || !SlotThere(levels, |sec|, k, b) then sec
    else Stored(hash, StoredOne(hash, sec, levels, k, b), levels, k, b + 1, last)
  }

  /** The same for the dirty blocks of level k. */
  function LevelStored(hash: seq<Byte> -> Digest, sec: seq<Byte>, levels: seq<Level>, dirty: Span, k: nat): (sec': seq<Byte>)
    requires 1 <= k < |levels| && dirty.len > 0
    ensures |sec'| == |sec|
  {
    var sp, bs := Dirty(levels, dirty, k), levels[k].BlockSize();
    Stored(hash, sec, levels, k, sp.FirstBlock(bs), sp.LastBlock(bs))
  }

  // RehashLevel's loop has taken the dirty blocks of level k below b
  ghost predicate LevelDone(hash: seq<Byte> -> Digest, before: seq<Byte>, sec: seq<Byte>, levels: seq<Level>, dirty: Span, k: nat,
                            b: nat, verify: bool)
    requires 1 <= k < |levels| && dirty.len > 0
  {
    var sp, bs := Dirty(levels, dirty, k), levels[k].BlockSize();
    && sp.FirstBlock(bs) <= b <= sp.LastBlock(bs) + 1
    && OnlyIn(before, sec, levels[k - 1]) && StaleInOnly(before, sec, levels, dirty, k - 1)
    && (forall c: nat :: c < b && IsDirty(levels, dirty, k, c) ==>
          StepExists(levels, |sec|, k, c) && (verify || Apart(levels[k - 1], levels[k]) ==> SlotOkAt(hash, sec, levels, k, c)))
    && (if verify then sec == before
        else Stored(hash, sec, levels, k, b, sp.LastBlock(bs)) == LevelStored(hash, before, levels, dirty, k))
  }

  lemma LevelStarts(hash: seq<Byte> -> Digest, sec: seq<Byte>, levels: seq<Level>, dirty: Span, k: nat, verify: bool)
    requires 1 <= k < |levels| && dirty.len > 0
    ensures LevelDone(hash, sec, sec, levels, dirty, k, Dirty(levels, dirty, k).FirstBlock(levels[k].BlockSize()), verify)
  {
    var sp := Dirty(levels, dirty, k);
    DivMonotone(sp.off, sp.off + sp.len - 1, levels[k].BlockSize());
    hide Dirty, SlotOkAt, StepExists, StoredOne, Stored;
  }

  lemma BlockTaken(hash: seq<Byte> -> Digest, before: seq<Byte>, was: seq<Byte>, sec: seq<Byte>, levels: seq<Level>, dirty: Span,
                   k: nat, b: nat, verify: bool)
    requires 1 <= k < |levels| && dirty.len > 0 && IsDirty(levels, dirty, k, b)
    requires LevelDone(hash, before, was, levels, dirty, k, b, verify)
    requires StepExists(levels, |was|, k, b) && SlotThere(levels, |was|, k, b) && OnlySlotStored(was, sec, levels, k, b)
    requires if verify then sec == was && SlotOkAt(hash, was, levels, k, b) else sec == StoredOne(hash, was, levels, k, b)
    requires Apart(levels[k - 1], levels[k]) ==>
               && SlotOkAt(hash, sec, levels, k, b)
               && forall c: nat :: SlotOkAt(hash, was, levels, k, c) ==> SlotOkAt(hash, sec, levels, k, c)
    ensures LevelDone(hash, before, sec, levels, dirty, k, b + 1, verify)
  {
    OnlyStaleStored(was, sec, levels, dirty, k, b);
    hide SlotOkAt, StoredOne, StepExists, SlotThere, Apart, Dirty, LevelStored, StaleIn;
  }

  lemma OnlyStaleStored(was: seq<Byte>, sec: seq<Byte>, levels: seq<Level>, dirty: Span, k: nat, b: nat)
    requires 1 <= k < |levels| && dirty.len > 0 && IsDirty(levels, dirty, k, b) && OnlySlotStored(was, sec, levels, k, b)
    ensures StaleInOnly(was, sec, levels, dirty, k - 1)
  {
    hide IsDirty, StaleIn, SlotAt;
    forall i | 0 <= i < |was| && !StaleIn(levels, dirty, k - 1, i)
      ensures sec[i] == was[i]
    {
      if 0 <= i - SlotAt(levels, k, b) < 32 {
        DirtySlotIsStale(levels, dirty, k, b, i);
      }
    }
  }

  lemma LevelFails(hash: seq<Byte> -> Digest, before: seq<Byte>, sec: seq<Byte>, levels: seq<Level>, dirty: Span, k: nat, b: nat, verify: bool)
    requires 1 <= k < |levels| && dirty.len > 0 && IsDirty(levels, dirty, k, b)
    requires LevelDone(hash, before, sec, levels, dirty, k, b, verify)
    requires !StepExists(levels, |sec|, k, b) || (verify && !SlotOkAt(hash, sec, levels, k, b))
    ensures !LevelPasses(hash, before, levels, dirty, k, verify)
    ensures OnlyIn(before, sec, levels[k - 1]) && StaleInOnly(before, sec, levels, dirty, k - 1)
    ensures if verify then sec == before else sec == LevelStored(hash, before, levels, dirty, k)
  {
    hide SlotOkAt, StoredOne, StepExists, SlotThere, LevelStored, Apart, StaleInOnly, OnlyIn;
  }

  lemma LevelEnds(hash: seq<Byte> -> Digest, before: seq<Byte>, sec: seq<Byte>, levels: seq<Level>, dirty: Span, k: nat, b: nat, verify: bool)
    requires 1 <= k < |levels| && dirty.len > 0 && b == Dirty(levels, dirty, k).LastBlock(levels[k].BlockSize()) + 1
    requires LevelDone(hash, before, sec, levels, dirty, k, b, verify)
    ensures LevelPasses(hash, before, levels, dirty, k, verify)
    ensures OnlyIn(before, sec, levels[k - 1]) && StaleInOnly(before, sec, levels, dirty, k - 1)
    ensures if verify then sec == before else sec == LevelStored(hash, before, levels, dirty, k)
    ensures verify || Apart(levels[k - 1], levels[k]) ==>
              forall c: nat :: IsDirty(levels, dirty, k, c) ==> SlotOkAt(hash, sec, levels, k, c)
  {
    hide SlotOkAt, StoredOne, StepExists, SlotThere, LevelStored, Dirty, Apart, StaleInOnly, OnlyIn;
  }

  lemma DirtySlotThere(levels: seq<Level>, length: nat, dirty: Span, k: nat, b: nat)
    requires 1 <= k < |levels| && dirty.len > 0 && SlotsThere(levels, length, dirty)
    requires Dirty(levels, dirty, k).FirstBlock(levels[k].BlockSize()) <= b <= Dirty(levels, dirty, k).LastBlock(levels[k].BlockSize())
    ensures IsDirty(levels, dirty, k, b)
    ensures StepExists(levels, length, k, b) ==> SlotThere(levels, length, k, b)
  {
    assert IsDirty(levels, dirty, k, b);
  }

  /** One pass of Rehash's outer loop: the dirty blocks of level k. */
  method RehashLevel(section: array<Byte>, levels: seq<Level>, ghost dirty: Span, k: nat, sp: Span,
                     hash: seq<Byte> -> Digest, verify: bool) returns (ok: bool)
    requires 1 <= k < |levels| && dirty.len > 0 && sp == Dirty(levels, dirty, k)
    requires SlotsThere(levels, section.Length, dirty)
    modifies section
    ensures ok <==> LevelPasses(hash, old(section[..]), levels, dirty, k, verify)
    ensures verify ==> section[..] == old(section[..])
    ensures !verify ==> section[..] == LevelStored(hash, old(section[..]), levels, dirty, k)
    ensures OnlyIn(old(section[..]), section[..], levels[k - 1])
    ensures StaleInOnly(old(section[..]), section[..], levels, dirty, k - 1)
    ensures ok && (verify || Apart(levels[k - 1], levels[k])) ==>
              forall b: nat :: IsDirty(levels, dirty, k, b) ==> SlotOkAt(hash, section[..], levels, k, b)
  {
    hide *;
    ghost var before := section[..];
    var bs := levels[k].BlockSize();
    var first, last := sp.FirstBlock(bs), sp.LastBlock(bs);
    BlocksInOrder(sp, bs);
    LevelStarts(hash, before, levels, dirty, k, verify);
    var b := first;
    while b <= last
      invariant first <= b <= last + 1
      invariant LevelDone(hash, before, section[..], levels, dirty, k, b, verify)
      decreases last + 1 - b
    {
      DirtySlotThere(levels, section.Length, dirty, k, b);
      ghost var was := section[..];
      ok := RehashBlock(section, levels, k, b, hash, verify);
      if !ok {
        LevelFails(hash, before, was, levels, dirty, k, b, verify);
        return;
      }
      BlockTaken(hash, before, was, section[..], levels, dirty, k, b, verify);
      b := b + 1;
    }
    LevelEnds(hash, before, section[..], levels, dirty, k, b, verify);
    ok := true;
  }

  // every slot above a dirty block matches already
  ghost predicate DirtyOk(hash: seq<Byte> -> Digest, sec: seq<Byte>, levels: seq<Level>, dirty: Span)
    requires dirty.len > 0
  {
    forall k, b: nat :: 1 <= k < |levels| && IsDirty(levels, dirty, k, b) ==> SlotOkAt(hash, sec, levels, k, b)
  }

  /** Every block above the dirty range exists and its stored digest matches. */
  ghost predicate PathOk(hash: seq<Byte> -> Digest, sec: seq<Byte>, levels: seq<Level>, dirty: Span) {
    Climbable(levels, |sec|, dirty) && DirtyOk(hash, sec, levels, dirty)
  }

  // Rehash's outer loop has finished the levels above `k`; sure: nothing is written, or the levels are apart
  ghost predicate DoneDown(hash: seq<Byte> -> Digest, before: seq<Byte>, sec: seq<Byte>, levels: seq<Level>, dirty: Span, k: nat,
                           sure: bool)
    requires dirty.len > 0
  {
    && |sec| == |before|
    && (forall j, b: nat :: k < j < |levels| && j >= 1 && IsDirty(levels, dirty, j, b) ==>
          StepExists(levels, |sec|, j, b) && (sure ==> SlotOkAt(hash, sec, levels, j, b)))
    && (forall i :: 0 <= i < |sec| && !Stale(levels, dirty, i) ==> sec[i] == before[i])
  }

  // nothing but stale bytes changed
  ghost predicate StaleOnly(before: seq<Byte>, after: seq<Byte>, levels: seq<Level>, dirty: Span)
    requires dirty.len > 0
  {
    |after| == |before| && forall i :: 0 <= i < |before| && !Stale(levels, dirty, i) ==> after[i] == before[i]
  }

  /** What Rehash makes of the levels from k up, writing as far as the blocks exist: for any layout. */
  ghost function Repaired(hash: seq<Byte> -> Digest, sec: seq<Byte>, levels: seq<Level>, dirty: Span, k: nat): (sec': seq<Byte>)
    requires k < |levels| && dirty.len > 0
    ensures |sec'| == |sec|
    decreases k
  {
    if k == 0 then sec else
    var stored := LevelStored(hash, sec, levels, dirty, k);
    if LevelPasses(hash, sec, levels, dirty, k, false) then Repaired(hash, stored, levels, dirty, k - 1) else stored
  }

  lemma RepairedNext(hash: seq<Byte> -> Digest, sec: seq<Byte>, levels: seq<Level>, dirty: Span, k: nat)
    requires k < |levels| && dirty.len > 0
    ensures Repaired(hash, sec, levels, dirty, k)
            == if k == 0 then sec
               else if LevelPasses(hash, sec, levels, dirty, k, false)
               then Repaired(hash, LevelStored(hash, sec, levels, dirty, k), levels, dirty, k - 1)
               else LevelStored(hash, sec, levels, dirty, k)
  {
    hide LevelPasses, LevelStored;
  }

  lemma NothingToClimb(hash: seq<Byte> -> Digest, sec: seq<Byte>, levels: seq<Level>, dirty: Span)
    ensures |levels| < 2 || dirty.len == 0 ==> !PathOk(hash, sec, levels, dirty) && !Climbable(levels, |sec|, dirty)
    ensures dirty.len > 0 ==> StaleOnly(sec, sec, levels, dirty)
  {
  }

  lemma NeighboursApart(levels: seq<Level>)
    ensures LevelsApart(levels) ==> forall k :: 1 <= k < |levels| ==> Apart(levels[k - 1], levels[k])
  {
  }

  lemma DoneStarts(hash: seq<Byte> -> Digest, sec: seq<Byte>, levels: seq<Level>, dirty: Span, sure: bool)
    requires dirty.len > 0 && |levels| >= 2
    ensures Dirty(levels, dirty, |levels| - 1) == dirty
    ensures DoneDown(hash, sec, sec, levels, dirty, |levels| - 1, sure)
  {
  }

  lemma PassKeepsDone(hash: seq<Byte> -> Digest, before: seq<Byte>, sec: seq<Byte>, sec': seq<Byte>, levels: seq<Level>,
                      dirty: Span, k: nat, verify: bool)
    requires dirty.len > 0 && 1 <= k < |levels|
    requires DoneDown(hash, before, sec, levels, dirty, k, verify || LevelsApart(levels))
    requires LevelPasses(hash, sec, levels, dirty, k, verify)
    requires OnlyIn(sec, sec', levels[k - 1]) && StaleInOnly(sec, sec', levels, dirty, k - 1) && (verify ==> sec' == sec)
    requires verify || LevelsApart(levels) ==> forall b: nat :: IsDirty(levels, dirty, k, b) ==> SlotOkAt(hash, sec', levels, k, b)
    ensures DoneDown(hash, before, sec', levels, dirty, k - 1, verify || LevelsApart(levels))
  {
    hide StepExists, SlotOkAt, LevelsApart, IsDirty;
    forall j, b: nat | k < j < |levels| && IsDirty(levels, dirty, j, b)
      ensures StepExists(levels, |sec'|, j, b) && (verify || LevelsApart(levels) ==> SlotOkAt(hash, sec', levels, j, b))
    {
      if !verify && LevelsApart(levels) {
        SlotStaysElsewhere(hash, sec, sec', levels, j, b, k - 1);
      }
    }
  }

  lemma PassFails(hash: seq<Byte> -> Digest, before: seq<Byte>, sec: seq<Byte>, sec': seq<Byte>, levels: seq<Level>,
                  dirty: Span, k: nat, verify: bool, sure: bool)
    requires dirty.len > 0 && 1 <= k < |levels|
    requires DoneDown(hash, before, sec, levels, dirty, k, sure) && !LevelPasses(hash, sec, levels, dirty, k, verify)
    requires StaleInOnly(sec, sec', levels, dirty, k - 1)
    ensures StaleOnly(before, sec', levels, dirty)
    ensures if verify then !PathOk(hash, sec, levels, dirty) else !Climbable(levels, |sec|, dirty)
  {
  }

  lemma DoneEnds(hash: seq<Byte> -> Digest, before: seq<Byte>, sec: seq<Byte>, levels: seq<Level>, dirty: Span, sure: bool)
    requires dirty.len > 0 && |levels| >= 2 && DoneDown(hash, before, sec, levels, dirty, 0, sure)
    ensures StaleOnly(before, sec, levels, dirty)
    ensures sure ==> DirtyOk(hash, sec, levels, dirty) && Rehashed(hash, before, sec, levels, dirty)
    ensures Climbable(levels, |sec|, dirty) <==> levels[0].size > 0 && InBounds(sec, levels[0])
    ensures sure ==> (PathOk(hash, sec, levels, dirty) <==> levels[0].size > 0 && InBounds(sec, levels[0]))
  {
  }

  /** The end of Rehash: the master digest, over the whole of level 0 or over its padded first block. */
  method RehashMaster(section: array<Byte>, levels: seq<Level>, master: array<Byte>,
                      hash: seq<Byte> -> Digest, verify: bool, masterExact: bool) returns (ok: bool, exact: bool)
    requires master.Length == 32 && master != section && |levels| > 0
    modifies master
    ensures verify ==> master[..] == old(master[..])
    ensures verify ==> (ok <==> MasterOk(hash, section[..], levels, master[..], true) || MasterOk(hash, section[..], levels, master[..], false))
    ensures verify && levels[0].size > 0 && InBounds(section[..], levels[0]) ==>
              exact == MasterOk(hash, section[..], levels, master[..], true)
    ensures !verify || !(levels[0].size > 0 && InBounds(section[..], levels[0])) ==> exact == masterExact
    ensures !verify ==> (ok <==> levels[0].size > 0 && InBounds(section[..], levels[0]))
    ensures !verify && ok ==> MasterOk(hash, section[..], levels, master[..], exact)
    ensures ok ==> levels[0].size > 0 && InBounds(section[..], levels[0])
    ensures !ok ==> master[..] == old(master[..])
  {
    ok, exact := false, masterExact;
    ghost var was := section[..];
    var padded := HashBlock(section, levels[0], 0, hash);
    if padded.None? {
      return;
    }
    var top := section[levels[0].offset..levels[0].End()];
    assert top == LevelBytes(section[..], levels[0]);
    var whole := hash(top);
    if verify {
      exact := master[..] == whole;
      ok := exact || master[..] == padded.value;
    } else {
      var digest := if exact then whole else padded.value;
      forall i | 0 <= i < 32 {
        master[i] := digest[i];
      }
      ok := true;
      assert master[..] == digest && section[..] == was;
    }
  }

  // cur_off and cur_len for the level above
  method SpanAbove(levels: seq<Level>, ghost dirty: Span, k: nat, sp: Span) returns (above: Span)
    requires 1 <= k < |levels| && dirty.len > 0 && sp == Dirty(levels, dirty, k)
    ensures above == Dirty(levels, dirty, k - 1)
  {
    var bs := levels[k].BlockSize();
    var first, last := sp.FirstBlock(bs), sp.LastBlock(bs);
    DivMonotone(sp.off, sp.off + sp.len - 1, bs);
    above := Span(first * 32, (last - first + 1) * 32);
  }

  /** Rehash: with `verify`, compare every stored hash above the dirty range, up to the master; otherwise make
      them right in place. `exact` is master_exact after the call. For any levels; where they are apart, the repair
      leaves every slot above the dirty range right. */
  method Rehash(section: array<Byte>, levels: seq<Level>, master: array<Byte>, dirty: Span,
                hash: seq<Byte> -> Digest, verify: bool, masterExact: bool) returns (ok: bool, exact: bool)
    requires master.Length == 32 && master != section
    requires SlotsThere(levels, section.Length, dirty)
    modifies section, master
    ensures verify ==> section[..] == old(section[..]) && master[..] == old(master[..])
    ensures verify ==> (ok <==>
              && PathOk(hash, section[..], levels, dirty)
              && (MasterOk(hash, section[..], levels, master[..], true) || MasterOk(hash, section[..], levels, master[..], false)))
    ensures verify && PathOk(hash, section[..], levels, dirty) ==> exact == MasterOk(hash, section[..], levels, master[..], true)
    ensures verify && !PathOk(hash, section[..], levels, dirty) ==> exact == masterExact
    ensures !verify ==> exact == masterExact && (ok <==> Climbable(levels, section.Length, dirty))
    ensures !verify && |levels| >= 2 && dirty.len > 0 ==>
              section[..] == Repaired(hash, old(section[..]), levels, dirty, |levels| - 1)
    ensures !verify && ok ==> MasterOk(hash, section[..], levels, master[..], exact)
    ensures !verify && ok && LevelsApart(levels) ==> Rehashed(hash, old(section[..]), section[..], levels, dirty)
    // the master over the top level as it is, or over its first block padded with zeros
    ensures (verify && PathOk(hash, section[..], levels, dirty)) || (!verify && ok) ==> exists block :: IsBlock(section[..], levels[0], 0, block)
    ensures forall block :: verify && |levels| > 0 && IsBlock(section[..], levels[0], 0, block) ==>
              var top := section[levels[0].offset..levels[0].offset + levels[0].size];
              && (ok <==> PathOk(hash, section[..], levels, dirty) && (master[..] == hash(top) || master[..] == hash(block)))
              && (PathOk(hash, section[..], levels, dirty) ==> (exact <==> master[..] == hash(top)))
    ensures forall block :: !verify && ok && IsBlock(section[..], levels[0], 0, block) ==>
              var top := section[levels[0].offset..levels[0].offset + levels[0].size];
              master[..] == hash(if masterExact then top else block)
    ensures !ok ==> master[..] == old(master[..])
    ensures |levels| < 2 || dirty.len == 0 ==> section[..] == old(section[..])
    ensures dirty.len > 0 ==> StaleOnly(old(section[..]), section[..], levels, dirty)
  {
    hide *;
    ok, exact := false, masterExact;
    NothingToClimb(hash, section[..], levels, dirty);
    TopExists(hash, section[..], levels, dirty);
    MasterMeans(hash, section[..], levels, master[..]);
    if |levels| < 2 || dirty.len == 0 {
      return;
    }
    ghost var before, sure := section[..], verify || LevelsApart(levels);
    NeighboursApart(levels);
    DoneStarts(hash, before, levels, dirty, sure);
    var k, sp := |levels| - 1, dirty;
    while k >= 1
      invariant 0 <= k < |levels| && sp == Dirty(levels, dirty, k)
      invariant DoneDown(hash, before, section[..], levels, dirty, k, sure)
      invariant verify ==> section[..] == before
      invariant !verify ==> Repaired(hash, section[..], levels, dirty, k) == Repaired(hash, before, levels, dirty, |levels| - 1)
      invariant master[..] == old(master[..])
      decreases k
    {
      ghost var was := section[..];
      RepairedNext(hash, was, levels, dirty, k);
      var passed := RehashLevel(section, levels, dirty, k, sp, hash, verify);
      if !passed {
        PassFails(hash, before, was, section[..], levels, dirty, k, verify, sure);
        return;
      }
      PassKeepsDone(hash, before, was, section[..], levels, dirty, k, verify);
      sp := SpanAbove(levels, dirty, k, sp);
      k := k - 1;
    }
    RepairedNext(hash, section[..], levels, dirty, 0);
    DoneEnds(hash, before, section[..], levels, dirty, sure);
    ok, exact := RehashMaster(section, levels, master, hash, verify, masterExact);
    TopExists(hash, section[..], levels, dirty);
    MasterMeans(hash, section[..], levels, master[..]);
  }

  lemma MasterMeans(hash: seq<Byte> -> Digest, sec: seq<Byte>, levels: seq<Level>, master: seq<Byte>)
    ensures forall block :: |levels| > 0 && IsBlock(sec, levels[0], 0, block) ==>
              && (MasterOk(hash, sec, levels, master, true)
                  <==> master == hash(sec[levels[0].offset..levels[0].offset + levels[0].size]))
              && (MasterOk(hash, sec, levels, master, false) <==> master == hash(block))
  {
    if |levels| > 0 {
      BlockMeans(hash, sec, levels[0], 0);
    }
    hide DigestOf, IsBlock;
  }

  lemma TopExists(hash: seq<Byte> -> Digest, sec: seq<Byte>, levels: seq<Level>, dirty: Span)
    ensures PathOk(hash, sec, levels, dirty) || Climbable(levels, |sec|, dirty) ==>
              |levels| > 0 && exists block :: IsBlock(sec, levels[0], 0, block)
  {
    if Climbable(levels, |sec|, dirty) {
      BlockExists(sec, levels[0], 0);
    }
  }

  ghost predicate MasterOk(hash: seq<Byte> -> Digest, sec: seq<Byte>, levels: seq<Level>, master: seq<Byte>, exact: bool) {
    && |levels| > 0 && levels[0].size > 0 && InBounds(sec, levels[0])
    && master == if exact then hash(LevelBytes(sec, levels[0])) else DigestOf(hash, sec, levels[0], 0)
  }

  // ---- the theorems ----

  function DataLevel(levels: seq<Level>): Level
    requires |levels| > 0
  {
    levels[|levels| - 1]
  }

  // a dirty block of a level exists when the dirty bytes lie inside the level
  lemma DirtyBlockExists(sp: Span, size: nat, bs: nat, b: nat)
    requires bs > 0 && sp.Within(size) && b <= sp.LastBlock(bs)
    ensures b * bs < size
  {
    var i := sp.off + sp.len - 1;
    var q := i / bs;
    assert i == bs * q + i % bs;
    assert b * bs <= q * bs;
  }

  // in a sound layout the stale bytes of every level lie inside it
  lemma {:induction false} DirtyWithin(levels: seq<Level>, length: nat, dirty: Span, k: nat)
    requires Layout(levels, length) && k < |levels| && dirty.Within(DataLevel(levels).size)
    ensures Dirty(levels, dirty, k).Within(levels[k].size)
    decreases |levels| - k
  {
    if k < |levels| - 1 {
      DirtyWithin(levels, length, dirty, k + 1);
      var below := Dirty(levels, dirty, k + 1);
      var bs := levels[k + 1].BlockSize();
      DirtyBlockExists(below, levels[k + 1].size, bs, below.LastBlock(bs));
      assert levels[k + 1].HasBlock(below.LastBlock(bs));
    }
  }

  /** In a sound layout Rehash touches bytes of the section only, and never gives up on a range inside the data level. */
  lemma LayoutIsClimbable(levels: seq<Level>, length: nat, dirty: Span)
    requires Layout(levels, length) && dirty.Within(DataLevel(levels).size)
    ensures Climbable(levels, length, dirty) && SlotsThere(levels, length, dirty)
  {
    forall k, b: nat | 1 <= k < |levels| && IsDirty(levels, dirty, k, b)
      ensures StepExists(levels, length, k, b)
    {
      DirtyWithin(levels, length, dirty, k);
      DirtyBlockExists(Dirty(levels, dirty, k), levels[k].size, levels[k].BlockSize(), b);
      assert levels[k].HasBlock(b);
    }
  }

  // a stale byte of one level is not in the data level nor stale in another
  lemma StaleOnlyInItsLevel(levels: seq<Level>, length: nat, dirty: Span, j: nat, k: nat, i: int)
    requires Layout(levels, length) && dirty.Within(DataLevel(levels).size)
    requires k < |levels| && InLevel(levels[k], i) && StaleIn(levels, dirty, j, i)
    ensures j == k
  {
    DirtyWithin(levels, length, dirty, j);
    assert InLevel(levels[j], i);
  }

  // a clean block has the same bytes before and after
  lemma CleanBlockKept(before: seq<Byte>, after: seq<Byte>, size: nat, sp: Span, bs: nat, b: nat)
    requires |before| == |after| == size && bs > 0 && sp.len > 0 && b * bs < size
    requires forall i :: 0 <= i < size && !sp.Has(i) ==> after[i] == before[i]
    requires !(sp.FirstBlock(bs) <= b <= sp.LastBlock(bs))
    ensures Block(after, bs, b) == Block(before, bs, b)
  {
    var start, stop := b * bs, Min(b * bs + bs, size);
    forall i | start <= i < stop
      ensures after[i] == before[i]
    {
      CleanBlockMisses(sp, bs, b, i);
    }
    assert after[start..stop] == before[start..stop];
  }

  lemma SliceOfSlice(s: seq<Byte>, lo: nat, hi: nat, a: nat, b: nat)
    requires lo <= hi <= |s| && a <= b <= hi - lo
    ensures s[lo..hi][a..b] == s[lo + a..lo + b]
  {
    var left, right := s[lo..hi][a..b], s[lo + a..lo + b];
    assert forall i :: 0 <= i < b - a ==> left[i] == s[lo + (a + i)] == right[i];
  }

  // the stale bytes are all that may differ inside level k, at every level
  lemma LevelChangesAreStale(good: seq<Byte>, before: seq<Byte>, after: seq<Byte>, levels: seq<Level>, dirty: Span, k: nat)
    requires Layout(levels, |good|) && dirty.Within(DataLevel(levels).size) && k < |levels|
    requires EditedInside(good, before, levels, dirty)
    requires |after| == |before| && forall i :: 0 <= i < |before| && !Stale(levels, dirty, i) ==> after[i] == before[i]
    ensures forall i :: 0 <= i < levels[k].size && !Dirty(levels, dirty, k).Has(i) ==>
              LevelBytes(after, levels[k])[i] == LevelBytes(good, levels[k])[i]
  {
    forall i | 0 <= i < levels[k].size && !Dirty(levels, dirty, k).Has(i)
      ensures LevelBytes(after, levels[k])[i] == LevelBytes(good, levels[k])[i]
    {
      var at := levels[k].offset + i;
      if j: nat :| StaleIn(levels, dirty, j, at) {
        StaleOnlyInItsLevel(levels, |good|, dirty, j, k, at);
      }
      assert !Stale(levels, dirty, at);
      if k != |levels| - 1 {
        assert Apart(levels[k], DataLevel(levels));
      }
    }
  }

  /** `before` is `good` with nothing changed but the dirty bytes of the data level. */
  ghost predicate EditedInside(good: seq<Byte>, before: seq<Byte>, levels: seq<Level>, dirty: Span)
    requires |levels| > 0
  {
    && |before| == |good|
    && forall i :: 0 <= i < |good| && !dirty.Has(i - DataLevel(levels).offset) ==> before[i] == good[i]
  }

  /** The repair: a tree that was valid before an edit inside the dirty range is valid again after Rehash. */
  lemma RepairRestoresTree(hash: seq<Byte> -> Digest, good: seq<Byte>, before: seq<Byte>, after: seq<Byte>,
                           levels: seq<Level>, dirty: Span, goodMaster: seq<Byte>, master: seq<Byte>, exact: bool)
    requires Layout(levels, |good|) && dirty.Within(DataLevel(levels).size)
    requires TreeValid(hash, good, levels, goodMaster, exact)
    requires EditedInside(good, before, levels, dirty)
    requires Rehashed(hash, before, after, levels, dirty) && MasterOk(hash, after, levels, master, exact)
    ensures TreeValid(hash, after, levels, master, exact)
  {
    forall k, b: nat | 1 <= k < |levels| && levels[k].HasBlock(b)
      ensures SlotOkAt(hash, after, levels, k, b)
    {
      if !IsDirty(levels, dirty, k, b) {
        CleanSlotKept(hash, good, before, after, levels, dirty, k, b);
      }
    }
  }

  lemma CleanSlotKept(hash: seq<Byte> -> Digest, good: seq<Byte>, before: seq<Byte>, after: seq<Byte>,
                      levels: seq<Level>, dirty: Span, k: nat, b: nat)
    requires Layout(levels, |good|) && dirty.Within(DataLevel(levels).size)
    requires 1 <= k < |levels| && levels[k].HasBlock(b) && SlotOkAt(hash, good, levels, k, b)
    requires EditedInside(good, before, levels, dirty)
    requires Rehashed(hash, before, after, levels, dirty) && !IsDirty(levels, dirty, k, b)
    ensures SlotOkAt(hash, after, levels, k, b)
  {
    CleanDigestKept(hash, good, before, after, levels, dirty, k, b);
    LevelChangesAreStale(good, before, after, levels, dirty, k - 1);
    var stale := Dirty(levels, dirty, k - 1);
    assert stale.off + stale.len <= b * 32 || b * 32 + 32 <= stale.off;
    hide Layout, Rehashed, EditedInside, Dirty, DigestOf, IsDirty;
    CleanBytesKept(good, after, levels[k - 1], stale, b * 32);
  }

  // a clean block has the digest it had
  lemma CleanDigestKept(hash: seq<Byte> -> Digest, good: seq<Byte>, before: seq<Byte>, after: seq<Byte>,
                        levels: seq<Level>, dirty: Span, k: nat, b: nat)
    requires Layout(levels, |good|) && dirty.Within(DataLevel(levels).size)
    requires 1 <= k < |levels| && levels[k].HasBlock(b) && !IsDirty(levels, dirty, k, b)
    requires EditedInside(good, before, levels, dirty) && Rehashed(hash, before, after, levels, dirty)
    ensures |after| == |good| && DigestOf(hash, after, levels[k], b) == DigestOf(hash, good, levels[k], b)
  {
    LevelChangesAreStale(good, before, after, levels, dirty, k);
    var sp := Dirty(levels, dirty, k);
    assert |after| == |good| && InBounds(good, levels[k]);
    hide Layout, Rehashed, EditedInside, Dirty, LevelBytes, Block;
    CleanBlockKept(LevelBytes(good, levels[k]), LevelBytes(after, levels[k]), levels[k].size, sp, levels[k].BlockSize(), b);
  }

  lemma CleanBytesKept(good: seq<Byte>, after: seq<Byte>, lv: Level, stale: Span, at: nat)
    requires |good| == |after| && InBounds(good, lv) && at + 32 <= lv.size
    requires forall i :: 0 <= i < lv.size && !stale.Has(i) ==> LevelBytes(after, lv)[i] == LevelBytes(good, lv)[i]
    requires stale.off + stale.len <= at || at + 32 <= stale.off
    ensures after[lv.offset + at..lv.offset + at + 32] == good[lv.offset + at..lv.offset + at + 32]
  {
    assert forall i :: at <= i < at + 32 ==> LevelBytes(after, lv)[i] == LevelBytes(good, lv)[i];
    SliceOfSlice(good, lv.offset, lv.End(), at, at + 32);
    SliceOfSlice(after, lv.offset, lv.End(), at, at + 32);
    assert LevelBytes(after, lv)[at..at + 32] == LevelBytes(good, lv)[at..at + 32];
  }

  // section byte i belongs to the slot of block c of level k
  predicate SlotByteOf(levels: seq<Level>, k: nat, c: nat, i: int) {
    1 <= k < |levels| && levels[k].HasBlock(c) && 0 <= i - SlotAt(levels, k, c) < 32
  }

  ghost predicate IsSlotByte(levels: seq<Level>, i: int) {
    exists k: nat, c: nat :: SlotByteOf(levels, k, c, i)
  }

  lemma SlotByteInLevel(levels: seq<Level>, length: nat, k: nat, c: nat, i: int)
    requires Layout(levels, length) && SlotByteOf(levels, k, c, i)
    ensures InLevel(levels[k - 1], i)
  {
  }

  // a byte lies in one level only
  lemma OneLevel(levels: seq<Level>, length: nat, j: nat, k: nat, i: int)
    requires Layout(levels, length) && j < |levels| && k < |levels|
    requires InLevel(levels[j], i) && InLevel(levels[k], i)
    ensures j == k
  {
  }

  // where two valid trees agree on level k, they agree on the slots above it
  lemma SlotsAgree(hash: seq<Byte> -> Digest, a: seq<Byte>, b: seq<Byte>, levels: seq<Level>,
                   masterA: seq<Byte>, masterB: seq<Byte>, exact: bool, k: nat, c: nat, i: int)
    requires |a| == |b| && Layout(levels, |a|) && SlotByteOf(levels, k, c, i)
    requires TreeValid(hash, a, levels, masterA, exact) && TreeValid(hash, b, levels, masterB, exact)
    requires LevelBytes(a, levels[k]) == LevelBytes(b, levels[k])
    ensures 0 <= i < |a| && a[i] == b[i]
  {
    hide LevelBytes, Block;
    assert SlotOkAt(hash, a, levels, k, c) && SlotOkAt(hash, b, levels, k, c);
    var at := SlotAt(levels, k, c);
    assert a[at..at + 32][i - at] == b[at..at + 32][i - at];
  }

  // from the data level up, the levels of two valid trees agree
  lemma {:induction false} LevelsAgree(hash: seq<Byte> -> Digest, a: seq<Byte>, b: seq<Byte>, levels: seq<Level>,
                                       masterA: seq<Byte>, masterB: seq<Byte>, exact: bool, k: nat)
    requires |a| == |b| && Layout(levels, |a|) && k < |levels|
    requires TreeValid(hash, a, levels, masterA, exact) && TreeValid(hash, b, levels, masterB, exact)
    requires forall i :: 0 <= i < |a| && !IsSlotByte(levels, i) ==> a[i] == b[i]
    ensures LevelBytes(a, levels[k]) == LevelBytes(b, levels[k])
    decreases |levels| - k
  {
    hide TreeValid, SlotByteOf;
    if k < |levels| - 1 {
      LevelsAgree(hash, a, b, levels, masterA, masterB, exact, k + 1);
    }
    forall i | InLevel(levels[k], i)
      ensures a[i] == b[i]
    {
      if j: nat, c: nat :| SlotByteOf(levels, j, c, i) {
        SlotByteLevel(levels, |a|, j, c, i, k);
        SlotsAgree(hash, a, b, levels, masterA, masterB, exact, j, c, i);
      } else {
        assert !IsSlotByte(levels, i);
      }
    }
  }

  lemma SlotByteLevel(levels: seq<Level>, length: nat, j: nat, c: nat, i: int, k: nat)
    requires Layout(levels, length) && SlotByteOf(levels, j, c, i) && k < |levels| && InLevel(levels[k], i)
    ensures 1 <= j < |levels| && j == k + 1
  {
    SlotByteInLevel(levels, length, j, c, i);
    OneLevel(levels, length, j - 1, k, i);
  }

  /** A valid tree is determined by the bytes that are not slots: above them every byte follows. */
  lemma TreeUnique(hash: seq<Byte> -> Digest, a: seq<Byte>, b: seq<Byte>, levels: seq<Level>,
                   masterA: seq<Byte>, masterB: seq<Byte>, exact: bool)
    requires |a| == |b| && Layout(levels, |a|)
    requires TreeValid(hash, a, levels, masterA, exact) && TreeValid(hash, b, levels, masterB, exact)
    requires forall i :: 0 <= i < |a| && !IsSlotByte(levels, i) ==> a[i] == b[i]
    ensures a == b && masterA == masterB
  {
    forall i | 0 <= i < |a|
      ensures a[i] == b[i]
    {
      if k: nat, c: nat :| SlotByteOf(levels, k, c, i) {
        LevelsAgree(hash, a, b, levels, masterA, masterB, exact, k);
        SlotsAgree(hash, a, b, levels, masterA, masterB, exact, k, c, i);
      }
    }
    assert a == b;
  }

  // a slot above a dirty block is a slot
  lemma {:induction false} StaleIsSlot(levels: seq<Level>, length: nat, dirty: Span, i: int)
    requires Layout(levels, length) && dirty.Within(DataLevel(levels).size) && Stale(levels, dirty, i)
    ensures IsSlotByte(levels, i)
  {
    var k: nat :| StaleIn(levels, dirty, k, i);
    DirtyWithin(levels, length, dirty, k + 1);
    var at := i - levels[k].offset;
    var below := Dirty(levels, dirty, k + 1);
    var bs := levels[k + 1].BlockSize();
    DirtyBlockExists(below, levels[k + 1].size, bs, at / 32);
    assert SlotByteOf(levels, k + 1, at / 32, i);
  }

  /** Repairing only what the edit made stale ends in the very bytes, and the master, of rehashing a larger
      range (the whole data level, say). */
  lemma PartialEqualsFull(hash: seq<Byte> -> Digest, good: seq<Byte>, before: seq<Byte>, levels: seq<Level>, goodMaster: seq<Byte>,
                          exact: bool, dirty: Span, wide: Span, partial: seq<Byte>, partialMaster: seq<Byte>,
                          full: seq<Byte>, fullMaster: seq<Byte>)
    requires Layout(levels, |good|) && TreeValid(hash, good, levels, goodMaster, exact)
    requires dirty.Within(DataLevel(levels).size) && wide.Within(DataLevel(levels).size)
    requires wide.off <= dirty.off && dirty.off + dirty.len <= wide.off + wide.len
    requires EditedInside(good, before, levels, dirty)
    requires Rehashed(hash, before, partial, levels, dirty) && MasterOk(hash, partial, levels, partialMaster, exact)
    requires Rehashed(hash, before, full, levels, wide) && MasterOk(hash, full, levels, fullMaster, exact)
    ensures partial == full && partialMaster == fullMaster
  {
    RepairRestoresTree(hash, good, before, partial, levels, dirty, goodMaster, partialMaster, exact);
    RepairRestoresTree(hash, good, before, full, levels, wide, goodMaster, fullMaster, exact);
    forall i | 0 <= i < |partial| && !IsSlotByte(levels, i)
      ensures partial[i] == full[i]
    {
      if Stale(levels, dirty, i) {
        StaleIsSlot(levels, |good|, dirty, i);
      }
      if Stale(levels, wide, i) {
        StaleIsSlot(levels, |good|, wide, i);
      }
    }
    TreeUnique(hash, partial, full, levels, partialMaster, fullMaster, exact);
  }

  /** A valid tree passes the verify pass over any range inside the data level. */
  lemma ValidTreeVerifies(hash: seq<Byte> -> Digest, sec: seq<Byte>, levels: seq<Level>, master: seq<Byte>, exact: bool, dirty: Span)
    requires Layout(levels, |sec|) && TreeValid(hash, sec, levels, master, exact)
    requires dirty.Within(DataLevel(levels).size)
    ensures PathOk(hash, sec, levels, dirty) && MasterOk(hash, sec, levels, master, exact)
  {
    LayoutIsClimbable(levels, |sec|, dirty);
  }

  /** What a verify pass learns of a valid tree: whether its master is the exact one. */
  lemma ValidAsVerified(hash: seq<Byte> -> Digest, sec: seq<Byte>, levels: seq<Level>, master: seq<Byte>, exact: bool)
    requires Layout(levels, |sec|) && TreeValid(hash, sec, levels, master, exact)
    ensures TreeValid(hash, sec, levels, master, MasterOk(hash, sec, levels, master, true))
  {
  }

  /** Every slot of the layout is used: level k-1 holds the digests of level k and nothing else. */
  ghost predicate Tight(levels: seq<Level>) {
    forall k :: 1 <= k < |levels| ==>
      levels[k - 1].size == 32 * ((levels[k].size + levels[k].BlockSize() - 1) / levels[k].BlockSize())
  }

  // rehashing the whole data level makes every block of every level dirty
  lemma {:induction false} WholeIsDirty(levels: seq<Level>, length: nat, k: nat)
    requires Layout(levels, length) && Tight(levels) && k < |levels|
    ensures Dirty(levels, Span(0, DataLevel(levels).size), k) == Span(0, levels[k].size)
    decreases |levels| - k
  {
    if k < |levels| - 1 {
      WholeIsDirty(levels, length, k + 1);
      var size, bs := levels[k + 1].size, levels[k + 1].BlockSize();
      assert size > 0 && levels[k].size == 32 * ((size + bs - 1) / bs);
      hide Layout, Tight, Level.BlockSize;
      CeilDiv(size, bs);
      assert 0 / bs == 0;
    }
  }

  lemma CeilDiv(n: nat, d: nat)
    requires n > 0 && d > 0
    ensures (n + d - 1) / d == (n - 1) / d + 1
  {
    var m := n - 1;
    var q := m / d;
    assert m == d * q + m % d;
    assert m + d == d * (q + 1) + m % d;
    BlockOf(m + d, d, q + 1);
  }

  lemma BlockInWhole(size: nat, bs: nat, b: nat)
    requires bs > 0 && b * bs < size
    ensures b <= Span(0, size).LastBlock(bs)
  {
    BlockOf(b * bs, bs, b);
    DivMonotone(b * bs, size - 1, bs);
  }

  /** From any bytes at all, rehashing the whole data level of a tight layout builds a valid tree. */
  lemma FullRehashBuildsTree(hash: seq<Byte> -> Digest, before: seq<Byte>, after: seq<Byte>, levels: seq<Level>, master: seq<Byte>, exact: bool)
    requires Layout(levels, |before|) && Tight(levels)
    requires Rehashed(hash, before, after, levels, Span(0, DataLevel(levels).size)) && MasterOk(hash, after, levels, master, exact)
    ensures TreeValid(hash, after, levels, master, exact)
  {
    hide SlotOkAt, MasterOk;
    var whole := Span(0, DataLevel(levels).size);
    forall k, b: nat | 1 <= k < |levels| && levels[k].HasBlock(b)
      ensures SlotOkAt(hash, after, levels, k, b)
    {
      WholeIsDirty(levels, |before|, k);
      var bs := levels[k].BlockSize();
      BlockInWhole(levels[k].size, bs, b);
      assert IsDirty(levels, whole, k, b);
    }
  }
}