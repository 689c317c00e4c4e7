/**
 * The layout mkfs computes and the bitmap it writes (mkfs_common.c).
 */
module Mkfs {
  import opened Wrappers
  import opened Extents
  import opened Bitmaps

  const BLOCK_SIZE: nat := 4096
  const BITS_PER_BLOCK: nat := 32768
  const MIN_SIZE: nat := 409600
  const INODES_PER_BLOCK: nat := 39
  const JOURNAL_BLOCKS: nat := 1024
  const U32: nat := 0x1_0000_0000

  datatype Layout = Layout(
    nrBlocks: nat, nrInodes: nat, istore: nat, ifree: nat, bfree: nat,
    journal: nat, journalStart: nat, data: nat, firstData: nat)

  /** Assignment to a uint32_t. */
  function Word(x: int): nat {
    x % U32
  }

  function CeilDiv(a: nat, b: nat): nat
    requires b > 0
  {
    a / b + if a % b != 0 then 1 else 0
  }

  /** The inode count, rounded up to whole inode-store blocks; nothing if that overflows. */
  function InodeCount(wanted: nat): Option<nat> {
    var inodes := if wanted < 2 then 2 else wanted;
    var over := inodes % INODES_PER_BLOCK;
    if over == 0 then Some(inodes)
    else if inodes > U32 - 1 - (INODES_PER_BLOCK - over) then None
    else Some(Word(inodes + INODES_PER_BLOCK - over))
  }

  function LayoutFor(nrBlocks: nat, nrInodes: nat): Layout {
    var istore := Word(CeilDiv(nrInodes, INODES_PER_BLOCK));
    var ifree := Word(CeilDiv(nrInodes, BITS_PER_BLOCK));
    var bfree := Word(CeilDiv(nrBlocks, BITS_PER_BLOCK));
    var fixed := Word(1 + istore + ifree + bfree);
    var journal := if nrBlocks > Word(fixed + JOURNAL_BLOCKS) then JOURNAL_BLOCKS else 0;
    Layout(nrBlocks, nrInodes, istore, ifree, bfree, journal, Word(nrBlocks - journal),
           Word(nrBlocks - 1 - istore - ifree - bfree - journal), Word(1 + istore + ifree + bfree))
  }

  /** mkfs_calculate_layout, with the wrap-around of each 32-bit assignment. */
  function CalculateLayout(imageSize: nat, bytesPerInode: nat): Result<Layout> {
    if imageSize <= MIN_SIZE then Err(E2BIG)
    else if bytesPerInode < BLOCK_SIZE || bytesPerInode % BLOCK_SIZE != 0 || imageSize / BLOCK_SIZE > U32 - 1 then Err(EINVAL)
    else match InodeCount(Word(imageSize / bytesPerInode))
      case None => Err(EFBIG)
      case Some(nrInodes) => Ok(LayoutFor(Word(imageSize / BLOCK_SIZE), nrInodes))
  }

  /** mkfs_validate_layout */
  predicate ValidateLayout(l: Layout) {
    && l.nrBlocks != 0 && l.nrInodes != 0 && l.data != 0
    && Word(1 + l.istore + l.ifree + l.bfree) < l.nrBlocks
    && Word(l.istore * INODES_PER_BLOCK) >= l.nrInodes
  }

  /** The regions tile the device: superblock, inode store, two bitmaps, data, journal. */
  predicate Tiles(l: Layout) {
    && l.nrBlocks < U32 && l.firstData == 1 + l.istore + l.ifree + l.bfree
    && l.data > 0 && l.firstData + l.data == l.journalStart && l.journalStart + l.journal == l.nrBlocks
    && l.istore * INODES_PER_BLOCK == l.nrInodes && l.nrInodes <= l.ifree * BITS_PER_BLOCK
    && l.nrBlocks <= l.bfree * BITS_PER_BLOCK
  }

  lemma InodeCountBound(imageSize: nat, bytesPerInode: nat)
    requires bytesPerInode >= BLOCK_SIZE
    ensures imageSize / bytesPerInode <= imageSize / BLOCK_SIZE
  {
    var q := imageSize / bytesPerInode;
    QuotientTimes(imageSize, bytesPerInode);
    ProductGrows(q, BLOCK_SIZE, bytesPerInode);
    QuotientAtLeast(imageSize, q);
  }

  lemma QuotientTimes(x: nat, y: nat)
    requires y > 0
    ensures (x / y) * y <= x
  {
  }

  lemma ProductGrows(q: nat, a: nat, b: nat)
    requires a <= b
    ensures q * a <= q * b
  {
  }

  lemma QuotientAtLeast(x: nat, q: nat)
    requires q * BLOCK_SIZE <= x
    ensures q <= x / BLOCK_SIZE
  {
  }

  lemma NoWrap(x: int)
    requires 0 <= x < U32
    ensures Word(x) == x
  {
  }

  lemma InodeCountAligned(wanted: nat)
    requires wanted < U32 && InodeCount(wanted).Some?
    ensures var ni := InodeCount(wanted).value;
      ni % INODES_PER_BLOCK == 0 && 0 < ni < U32 && ni < (if wanted < 2 then 2 else wanted) + INODES_PER_BLOCK
  {
  }

  lemma LayoutForTiles(nb: nat, ni: nat)
    requires 100 <= nb < U32 && ni % INODES_PER_BLOCK == 0 && 0 < ni < nb + INODES_PER_BLOCK && ni < U32
    ensures Tiles(LayoutFor(nb, ni)) && ValidateLayout(LayoutFor(nb, ni))
  {
    hide Word, CeilDiv;
    SmallMetadata(nb, ni);
    var istore, ifree, bfree := CeilDiv(ni, INODES_PER_BLOCK), CeilDiv(ni, BITS_PER_BLOCK), CeilDiv(nb, BITS_PER_BLOCK);
    NoWrap(istore);
    NoWrap(ifree);
    NoWrap(bfree);
    var fixed := 1 + istore + ifree + bfree;
    NoWrap(fixed);
    NoWrap(fixed + JOURNAL_BLOCKS);
    NoWrap(ni);
    var journal := if nb > fixed + JOURNAL_BLOCKS then JOURNAL_BLOCKS else 0;
    NoWrap(nb - journal);
    NoWrap(nb - fixed - journal);
    assert nb - 1 - istore - ifree - bfree - journal == nb - fixed - journal;
  }

  /** No 32-bit assignment wraps: every accepted size gives a layout that tiles and validates. */
  lemma LayoutTiles(imageSize: nat, bytesPerInode: nat)
    requires CalculateLayout(imageSize, bytesPerInode).Ok?
    ensures Tiles(CalculateLayout(imageSize, bytesPerInode).value)
    ensures ValidateLayout(CalculateLayout(imageSize, bytesPerInode).value)
  {
    hide LayoutFor, InodeCount, Tiles, ValidateLayout, Word;
    InodeCountBound(imageSize, bytesPerInode);
    NoWrap(imageSize / BLOCK_SIZE);
    NoWrap(imageSize / bytesPerInode);
    InodeCountAligned(imageSize / bytesPerInode);
    LayoutForTiles(imageSize / BLOCK_SIZE, InodeCount(imageSize / bytesPerInode).value);
  }

  /** The fixed metadata takes well under half of the device. */
  lemma SmallMetadata(nb: nat, ni: nat)
    requires 100 <= nb < U32 && ni % INODES_PER_BLOCK == 0 && ni < nb + INODES_PER_BLOCK && ni < U32
    ensures var istore := CeilDiv(ni, INODES_PER_BLOCK);
      var fixed := 1 + istore + CeilDiv(ni, BITS_PER_BLOCK) + CeilDiv(nb, BITS_PER_BLOCK);
      istore * INODES_PER_BLOCK == ni && fixed < nb && fixed + JOURNAL_BLOCKS < U32
    ensures ni <= CeilDiv(ni, BITS_PER_BLOCK) * BITS_PER_BLOCK && nb <= CeilDiv(nb, BITS_PER_BLOCK) * BITS_PER_BLOCK
  {
  }

  /** The bit mkfs leaves set: a data block after the root directory's, before the journal. */
  predicate FreeAtMkfs(l: Layout, b: nat) {
    l.firstData + 1 <= b && !(l.journal > 0 && b >= l.journalStart)
  }

  /** mkfs_write_bfree_bitmap: whole bitmap blocks of ones, cleared where a block is in use. */
  method WriteBfreeBitmap(l: Layout) returns (bits: array<bool>)
    requires Tiles(l)
    ensures bits.Length == l.bfree * BITS_PER_BLOCK
    ensures forall b :: 0 <= b < l.nrBlocks ==> (bits[b] <==> FreeAtMkfs(l, b))
    ensures forall b :: l.nrBlocks <= b < bits.Length ==> bits[b]
    ensures BitSet(bits[..l.nrBlocks]) == RunSet(l.firstData + 1, l.data - 1)
    ensures |BitSet(bits[..l.nrBlocks])| == l.data - 1
  {
    var nrUsed := 1 + l.istore + l.ifree + l.bfree + 1;
    bits := new bool[l.bfree * BITS_PER_BLOCK](_ => true);
    var i := 0;
    while i < l.bfree
      invariant 0 <= i <= l.bfree && bits.Length == l.bfree * BITS_PER_BLOCK
      invariant forall b :: 0 <= b < i * BITS_PER_BLOCK && b < l.nrBlocks ==> (bits[b] <==> FreeAtMkfs(l, b))
      invariant forall b :: i * BITS_PER_BLOCK <= b < bits.Length || l.nrBlocks <= b < bits.Length ==> bits[b]
    {
      var start := i * BITS_PER_BLOCK;
      var bit := 0;
      while bit < BITS_PER_BLOCK && start + bit < l.nrBlocks
        invariant 0 <= bit <= BITS_PER_BLOCK && start + bit <= bits.Length
        invariant bits.Length == l.bfree * BITS_PER_BLOCK
        invariant forall b :: 0 <= b < start + bit && b < l.nrBlocks ==> (bits[b] <==> FreeAtMkfs(l, b))
        invariant forall b :: start + bit <= b < bits.Length || l.nrBlocks <= b < bits.Length ==> bits[b]
      {
        var b := start + bit;
        if b < nrUsed || (l.journal > 0 && b >= l.journalStart) {
          bits[b] := false;
        }
        bit := bit + 1;
      }
      i := i + 1;
    }
    assert BitSet(bits[..l.nrBlocks]) == RunSet(l.firstData + 1, l.data - 1);
    RunSetSize(l.firstData + 1, l.data - 1);
  }
}
