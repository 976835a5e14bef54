/**
 * The sparse voxel store `VoxelDataStorage<TValue>` (Document/Models/VoxelDataStorage.cs):
 * a list of 8x8x8 blocks, each with a dense data array and a presence bitmap of 16-bit
 * `char` entries, and the explicit enumerator `VDSEnumerator` over the present cells.
 *
 * The heap state (blocks holding arrays) is mirrored by a ghost `view`: a sequence of block
 * snapshots. Every operation is specified by a pure function on views, and the facts about
 * cells (presence, values, enumeration order) are lemmas about those functions.
 */
module VoxelStorage {
  import opened Wrappers

  /** `BlockSize`: the edge length of a block. */
  const BlockSize: int := 8
  /** Cells per block: the length of a block's `Data` array. */
  const BlockCells: int := 512
  /** Length of a block's `Bitmap`: `BlockSize * BlockSize * BlockSize / 8 + 1`. */
  const BitmapLength: int := 65
  /** `int.MaxValue`, which the enumerator uses as its "exhausted" mark. */
  const IntMax: int := 0x7fff_ffff

  datatype Cell = Cell(x: int, y: int, z: int)

  /** C#'s integer division, which truncates toward zero. */
  function TruncDiv(a: int, b: int): int
    requires b > 0
  {
    if a >= 0 then a / b else -((-a) / b)
  }

  /** `GetBlockCoord`: the block holding a coordinate is floor(c / 8), negatives included. */
  function BlockCoord(c: int): (b: int)
    ensures 8 * b <= c < 8 * b + 8
  {
    if c < 0 then TruncDiv(c - BlockSize + 1, BlockSize) else c / BlockSize
  }

  /** A C# `int`. */
  predicate Int32(n: int)
  {
    -0x8000_0000 <= n < 0x8000_0000
  }

  /** 32-bit two's-complement wrap-around of C#'s unchecked `int` arithmetic. */
  function Wrap32(n: int): (r: int)
    ensures Int32(r) && (r - n) % 0x1_0000_0000 == 0
    ensures Int32(n) ==> r == n
  {
    (n + 0x8000_0000) % 0x1_0000_0000 - 0x8000_0000
  }

  /** `GetBlockCoord` exactly as compiled: `c - BlockSize + 1` is 32-bit arithmetic. */
  function BlockCoordAsWritten(c: int): int
    requires Int32(c)
  {
    if c < 0 then TruncDiv(Wrap32(c - BlockSize + 1), BlockSize) else c / BlockSize
  }

  /** For every `int` from `int.MinValue + 7` up, the compiled `GetBlockCoord` is floor(c / 8). */
  lemma BlockCoordAsWrittenAgrees(c: int)
    requires Int32(c) && c >= -0x8000_0000 + 7
    ensures BlockCoordAsWritten(c) == BlockCoord(c)
  {
  }

  /**
   * Below `int.MinValue + 7` the subtraction wraps to a large positive number: `int.MinValue`
   * lands in block 268435455 instead of -268435456, so its local offset is far outside [0, 8).
   */
  lemma BlockCoordAsWrittenOverflows()
    ensures BlockCoordAsWritten(-0x8000_0000) == 0x0fff_ffff
    ensures BlockCoord(-0x8000_0000) == -0x1000_0000
    ensures -0x8000_0000 - 8 * BlockCoordAsWritten(-0x8000_0000) < 0
  {
  }

  /** The local index `ix + (iy + iz * 8) * 8` of a cell inside its block. */
  function LocalIndex(c: Cell): (i: int)
    ensures 0 <= i < BlockCells && 0 <= i / 8 < BitmapLength
  {
    var ix := c.x - BlockCoord(c.x) * 8;
    var iy := c.y - BlockCoord(c.y) * 8;
    var iz := c.z - BlockCoord(c.z) * 8;
    ix + (iy + iz * 8) * 8
  }

  /** The cell at local index `i` of the block at (blockX, blockY, blockZ), decoded as `Current` does. */
  function CellAt(blockX: int, blockY: int, blockZ: int, i: int): (c: Cell)
    requires 0 <= i < BlockCells
    ensures BlockCoord(c.x) == blockX && BlockCoord(c.y) == blockY && BlockCoord(c.z) == blockZ
    ensures LocalIndex(c) == i
  {
    Cell(blockX * 8 + i % 8, blockY * 8 + (i / 8) % 8, blockZ * 8 + (i / 8) / 8)
  }

  /** Decoding a cell's own block and local index gives the cell back. */
  lemma CellAtLocalIndex(c: Cell)
    ensures CellAt(BlockCoord(c.x), BlockCoord(c.y), BlockCoord(c.z), LocalIndex(c)) == c
  {
  }

  /** The bit of local index `i` inside its bitmap entry: `(char)(1 << (i % 8))`. */
  function Mask(i: int): bv16
    requires 0 <= i < BlockCells
  {
    (1 as bv16) << (i % 8)
  }

  /** Presence test `0 != (Bitmap[i / 8] & (1 << (i % 8)))`. */
  predicate BitSet(bitmap: seq<bv16>, i: int)
    requires |bitmap| == BitmapLength && 0 <= i < BlockCells
  {
    bitmap[i / 8] & Mask(i) != 0
  }

  lemma MaskOr(b: bv16, p: int, q: int)
    requires 0 <= p < 8 && 0 <= q < 8
    ensures ((b | ((1 as bv16) << p)) & ((1 as bv16) << q) != 0) == (p == q || b & ((1 as bv16) << q) != 0)
  {
  }

  lemma MaskAndNot(b: bv16, p: int, q: int)
    requires 0 <= p < 8 && 0 <= q < 8
    ensures ((b & (0xFF ^ ((1 as bv16) << p))) & ((1 as bv16) << q) != 0) == (p != q && b & ((1 as bv16) << q) != 0)
  {
  }

  /** `Bitmap[i / 8] |= (char)(1 << (i % 8))`. */
  function SetBit(bitmap: seq<bv16>, i: int): (r: seq<bv16>)
    requires |bitmap| == BitmapLength && 0 <= i < BlockCells
    ensures |r| == BitmapLength
  {
    bitmap[i / 8 := bitmap[i / 8] | Mask(i)]
  }

  /** `Bitmap[i / 8] &= (char)(255 ^ (1 << (i % 8)))`. */
  function ClearBit(bitmap: seq<bv16>, i: int): (r: seq<bv16>)
    requires |bitmap| == BitmapLength && 0 <= i < BlockCells
    ensures |r| == BitmapLength
  {
    bitmap[i / 8 := bitmap[i / 8] & (0xFF ^ Mask(i))]
  }

  /** Setting bit i sets exactly that bit. */
  lemma SetBitSpec(bitmap: seq<bv16>, i: int, j: int)
    requires |bitmap| == BitmapLength && 0 <= i < BlockCells && 0 <= j < BlockCells
    ensures BitSet(SetBit(bitmap, i), j) == (j == i || BitSet(bitmap, j))
  {
    if j / 8 == i / 8 {
      MaskOr(bitmap[i / 8], i % 8, j % 8);
    }
  }

  /** Clearing bit i clears exactly that bit. */
  lemma ClearBitSpec(bitmap: seq<bv16>, i: int, j: int)
    requires |bitmap| == BitmapLength && 0 <= i < BlockCells && 0 <= j < BlockCells
    ensures BitSet(ClearBit(bitmap, i), j) == (j != i && BitSet(bitmap, j))
  {
    if j / 8 == i / 8 {
      MaskAndNot(bitmap[i / 8], i % 8, j % 8);
    }
  }

  // ---------------------------------------------------------------------------------------
  // Block snapshots and the store as a sequence of them

  /** A block's coordinates (not multiplied by 8), its `Data` and its `Bitmap`. */
  datatype BlockView<V> = BlockView(x: int, y: int, z: int, data: seq<V>, bitmap: seq<bv16>)

  /** One yielded item of the enumeration: a present cell and its value. */
  datatype KeyValuePair<V> = KeyValuePair(x: int, y: int, z: int, value: V)

  function CellOf<V>(kv: KeyValuePair<V>): Cell
  {
    Cell(kv.x, kv.y, kv.z)
  }

  predicate HasCoords<V>(b: BlockView<V>, x: int, y: int, z: int)
  {
    b.x == x && b.y == y && b.z == z
  }

  /** Every block has a full `Data` array and a full `Bitmap`. */
  ghost predicate Sized<V>(view: seq<BlockView<V>>)
  {
    forall k :: 0 <= k < |view| ==> |view[k].data| == BlockCells && |view[k].bitmap| == BitmapLength
  }

  /** Every block is full-sized and no two blocks share block coordinates. */
  ghost predicate WellFormed<V>(view: seq<BlockView<V>>)
  {
    && Sized(view)
    && (forall k, l :: 0 <= k < l < |view| ==> !HasCoords(view[l], view[k].x, view[k].y, view[k].z))
  }

  /** Rewriting one block's contents in place keeps the view well formed. */
  lemma WellFormedReplace<V>(view: seq<BlockView<V>>, k: int, b: BlockView<V>)
    requires WellFormed(view) && 0 <= k < |view|
    requires HasCoords(b, view[k].x, view[k].y, view[k].z)
    requires |b.data| == BlockCells && |b.bitmap| == BitmapLength
    ensures WellFormed(view[k := b])
  {
  }

  /** A freshly allocated block: default data, every presence bit clear. */
  function EmptyBlock<V>(x: int, y: int, z: int, dflt: V): BlockView<V>
  {
    BlockView(x, y, z, seq(BlockCells, _ => dflt), seq(BitmapLength, _ => 0 as bv16))
  }

  /** The linear scan of `GetBlock`: the first block with the given coordinates, or -1. */
  ghost function FindBlock<V>(view: seq<BlockView<V>>, x: int, y: int, z: int): (k: int)
    ensures -1 <= k < |view|
    ensures k >= 0 ==> HasCoords(view[k], x, y, z)
    ensures forall j :: 0 <= j < |view| && (k == -1 || j < k) ==> !HasCoords(view[j], x, y, z)
    decreases |view|
  {
    if |view| == 0 then -1
    else if HasCoords(view[0], x, y, z) then 0
    else
      var r := FindBlock(view[1..], x, y, z);
      if r == -1 then -1 else r + 1
  }

  /** In a well-formed view a block is found exactly at its own index. */
  lemma FindBlockAt<V>(view: seq<BlockView<V>>, k: int)
    requires WellFormed(view) && 0 <= k < |view|
    ensures FindBlock(view, view[k].x, view[k].y, view[k].z) == k
  {
  }

  /** The block a cell belongs to, or -1 when the store has none. */
  ghost function BlockOf<V>(view: seq<BlockView<V>>, c: Cell): int
  {
    FindBlock(view, BlockCoord(c.x), BlockCoord(c.y), BlockCoord(c.z))
  }

  /** The value stored at a cell when its presence bit is set (`TryGet`), else None. */
  ghost function Lookup<V>(view: seq<BlockView<V>>, c: Cell): Option<V>
    requires WellFormed(view)
  {
    var k := BlockOf(view, c);
    if k >= 0 && BitSet(view[k].bitmap, LocalIndex(c)) then Some(view[k].data[LocalIndex(c)]) else None
  }

  /** The raw data slot of a cell, present or not, when its block exists. */
  ghost function Slot<V>(view: seq<BlockView<V>>, c: Cell): Option<V>
    requires WellFormed(view)
  {
    var k := BlockOf(view, c);
    if k >= 0 then Some(view[k].data[LocalIndex(c)]) else None
  }

  /** `GetBlock` on views: the matching block, or exactly one new empty block appended. */
  ghost function EnsureBlock<V>(view: seq<BlockView<V>>, x: int, y: int, z: int, dflt: V): (r: seq<BlockView<V>>)
    requires WellFormed(view)
    ensures WellFormed(r)
    ensures 0 <= FindBlock(r, x, y, z) < |r|
    ensures r == view || r == view + [EmptyBlock(x, y, z, dflt)]
    ensures forall c :: Lookup(r, c) == Lookup(view, c)
  {
    if FindBlock(view, x, y, z) >= 0 then view
    else
      var r := view + [EmptyBlock(x, y, z, dflt)];
      assert FindBlock(r, x, y, z) == |view| by { FindBlockAt(r, |view|); }
      forall c ensures Lookup(r, c) == Lookup(view, c) {
        LookupAppendEmpty(view, x, y, z, dflt, c);
      }
      r
  }

  /** When no block has the coordinates, `GetBlock` appends exactly one empty block. */
  lemma EnsureBlockAppends<V>(view: seq<BlockView<V>>, x: int, y: int, z: int, dflt: V)
    requires WellFormed(view)
    requires forall j :: 0 <= j < |view| ==> !HasCoords(view[j], x, y, z)
    ensures EnsureBlock(view, x, y, z, dflt) == view + [EmptyBlock(x, y, z, dflt)]
    ensures FindBlock(view + [EmptyBlock(x, y, z, dflt)], x, y, z) == |view|
  {
    FindBlockAt(view + [EmptyBlock(x, y, z, dflt)], |view|);
  }

  lemma LookupAppendEmpty<V>(view: seq<BlockView<V>>, x: int, y: int, z: int, dflt: V, c: Cell)
    requires WellFormed(view) && FindBlock(view, x, y, z) == -1
    requires WellFormed(view + [EmptyBlock(x, y, z, dflt)])
    ensures Lookup(view + [EmptyBlock(x, y, z, dflt)], c) == Lookup(view, c)
  {
    var r := view + [EmptyBlock(x, y, z, dflt)];
    var k := BlockOf(view, c);
    if k >= 0 {
      FindBlockAt(r, k);
    } else {
      var k' := BlockOf(r, c);
      if k' >= 0 {
        assert k' == |view|;
        assert !BitSet(r[k'].bitmap, LocalIndex(c));
      }
    }
  }

  /** Sets the presence bit and the data of one cell, creating its block when needed. */
  ghost function SetCell<V>(view: seq<BlockView<V>>, c: Cell, v: V, dflt: V): (r: seq<BlockView<V>>)
    requires WellFormed(view)
    ensures WellFormed(r)
  {
    var w := EnsureBlock(view, BlockCoord(c.x), BlockCoord(c.y), BlockCoord(c.z), dflt);
    var k := BlockOf(w, c);
    var i := LocalIndex(c);
    w[k := BlockView(w[k].x, w[k].y, w[k].z, w[k].data[i := v], SetBit(w[k].bitmap, i))]
  }

  /** Clears the presence bit of one cell, creating its block when needed; data is kept. */
  ghost function ClearCell<V>(view: seq<BlockView<V>>, c: Cell, dflt: V): (r: seq<BlockView<V>>)
    requires WellFormed(view)
    ensures WellFormed(r)
  {
    var w := EnsureBlock(view, BlockCoord(c.x), BlockCoord(c.y), BlockCoord(c.z), dflt);
    var k := BlockOf(w, c);
    var i := LocalIndex(c);
    w[k := BlockView(w[k].x, w[k].y, w[k].z, w[k].data, ClearBit(w[k].bitmap, i))]
  }

  /** Two different cells of the same block have different local indices. */
  lemma LocalIndexInjective(c: Cell, d: Cell)
    requires BlockCoord(c.x) == BlockCoord(d.x) && BlockCoord(c.y) == BlockCoord(d.y)
    requires BlockCoord(c.z) == BlockCoord(d.z)
    requires LocalIndex(c) == LocalIndex(d)
    ensures c == d
  {
    CellAtLocalIndex(c);
    CellAtLocalIndex(d);
  }

  /** After writing v at c, c holds v and every other cell is as before. */
  lemma {:induction false} LookupSetCell<V>(view: seq<BlockView<V>>, c: Cell, v: V, dflt: V, d: Cell)
    requires WellFormed(view)
    ensures Lookup(SetCell(view, c, v, dflt), d) == if d == c then Some(v) else Lookup(view, d)
  {
    var w := EnsureBlock(view, BlockCoord(c.x), BlockCoord(c.y), BlockCoord(c.z), dflt);
    var k := BlockOf(w, c);
    var r := SetCell(view, c, v, dflt);
    var kd := BlockOf(w, d);
    if kd >= 0 {
      FindBlockAt(r, kd);
      if kd == k {
        SetBitSpec(w[k].bitmap, LocalIndex(c), LocalIndex(d));
        if d != c && LocalIndex(d) == LocalIndex(c) {
          LocalIndexInjective(c, d);
        }
      }
    } else {
      var kr := BlockOf(r, d);
      if kr >= 0 {
        FindBlockAt(w, kr);
      }
    }
  }

  /** After removing c, c is absent and every other cell is as before. */
  lemma {:induction false} LookupClearCell<V>(view: seq<BlockView<V>>, c: Cell, dflt: V, d: Cell)
    requires WellFormed(view)
    ensures Lookup(ClearCell(view, c, dflt), d) == if d == c then None else Lookup(view, d)
  {
    var w := EnsureBlock(view, BlockCoord(c.x), BlockCoord(c.y), BlockCoord(c.z), dflt);
    var k := BlockOf(w, c);
    var r := ClearCell(view, c, dflt);
    var kd := BlockOf(w, d);
    if kd >= 0 {
      FindBlockAt(r, kd);
      if kd == k {
        ClearBitSpec(w[k].bitmap, LocalIndex(c), LocalIndex(d));
        if d != c && LocalIndex(d) == LocalIndex(c) {
          LocalIndexInjective(c, d);
        }
      }
    } else {
      var kr := BlockOf(r, d);
      if kr >= 0 {
        FindBlockAt(w, kr);
      }
    }
  }

  /** Removal only clears a bit: every data slot keeps its value. */
  lemma {:induction false} SlotClearCell<V>(view: seq<BlockView<V>>, c: Cell, dflt: V, d: Cell)
    requires WellFormed(view)
    ensures Slot(ClearCell(view, c, dflt), d)
         == Slot(EnsureBlock(view, BlockCoord(c.x), BlockCoord(c.y), BlockCoord(c.z), dflt), d)
  {
    var w := EnsureBlock(view, BlockCoord(c.x), BlockCoord(c.y), BlockCoord(c.z), dflt);
    var r := ClearCell(view, c, dflt);
    var kd := BlockOf(w, d);
    if kd >= 0 {
      FindBlockAt(r, kd);
    } else {
      var kr := BlockOf(r, d);
      if kr >= 0 {
        FindBlockAt(w, kr);
      }
    }
  }

  // ---------------------------------------------------------------------------------------
  // Enumeration order: position (k, i) is local index i of block k; positions are visited in
  // lexicographic order

  ghost predicate PresentAt<V>(view: seq<BlockView<V>>, k: int, i: int)
    requires Sized(view) && 0 <= k < |view| && 0 <= i < BlockCells
  {
    BitSet(view[k].bitmap, i)
  }

  /** The item `Current` builds at position (k, i): `block * 8 + offset` and `Data[i]`. */
  ghost function ItemAt<V>(view: seq<BlockView<V>>, k: int, i: int): KeyValuePair<V>
    requires Sized(view) && 0 <= k < |view| && 0 <= i < BlockCells
  {
    var c := CellAt(view[k].x, view[k].y, view[k].z, i);
    KeyValuePair(c.x, c.y, c.z, view[k].data[i])
  }

  /** Position (k, i) comes no later than (k', i'). */
  predicate NotAfter(k: int, i: int, k': int, i': int)
  {
    k < k' || (k == k' && i <= i')
  }

  /**
   * The items at present positions from (k, i) on, in order. Index 512 stands for the start
   * of the next block, and (-1, 512), where `MoveNext` starts, for the start of block 0.
   */
  ghost function ItemsFrom<V>(view: seq<BlockView<V>>, k: int, i: int): seq<KeyValuePair<V>>
    requires Sized(view) && -1 <= k <= |view| && 0 <= i <= BlockCells
    requires k == -1 ==> i == BlockCells
    decreases |view| - k, BlockCells - i
  {
    if k == |view| then []
    else if i == BlockCells then ItemsFrom(view, k + 1, 0)
    else (if PresentAt(view, k, i) then [ItemAt(view, k, i)] else []) + ItemsFrom(view, k, i + 1)
  }

  /**
   * One step of the scan: (k', i') is the position after (k, i), and the items from just after
   * (k, i) start with the item at (k', i') when that position is present.
   */
  lemma ItemsFromAdvance<V>(view: seq<BlockView<V>>, k: int, i: int, k': int, i': int)
    requires Sized(view) && -1 <= k < |view| && 0 <= i < BlockCells && (k == -1 ==> i == BlockCells - 1)
    requires if i + 1 == BlockCells then k' == k + 1 && i' == 0 else k' == k && i' == i + 1
    ensures k' == |view| ==> ItemsFrom(view, k, i + 1) == []
    ensures k' < |view| ==>
              ItemsFrom(view, k, i + 1)
              == (if PresentAt(view, k', i') then [ItemAt(view, k', i')] else []) + ItemsFrom(view, k', i' + 1)
  {
  }

  /** Where a scan may start: just before block 0, or on a local index of an existing block. */
  predicate ScanStart<V>(view: seq<BlockView<V>>, k: int, i: int)
  {
    -1 <= k < |view| && 0 <= i < BlockCells && (k == -1 ==> i == BlockCells - 1)
  }

  /**
   * The outcome of scanning forward from just after (k, i): either no present position is
   * left (k' == |view|), or (k', i') is the first one, and the items from just after (k, i)
   * are its item followed by those from just after (k', i').
   */
  ghost predicate ScanStop<V>(view: seq<BlockView<V>>, k: int, i: int, k': int, i': int)
    requires Sized(view) && ScanStart(view, k, i)
  {
    if k' == |view| then i' == 0 && ItemsFrom(view, k, i + 1) == []
    else
      && NotAfter(k, i + 1, k', i') && 0 <= k' < |view| && 0 <= i' < BlockCells
      && PresentAt(view, k', i')
      && ItemsFrom(view, k, i + 1) == [ItemAt(view, k', i')] + ItemsFrom(view, k', i' + 1)
  }

  /** Scanning from (k, i) has reached (k', i') without passing a present position. */
  ghost predicate ScanSkipped<V>(view: seq<BlockView<V>>, k: int, i: int, k': int, i': int)
    requires Sized(view) && ScanStart(view, k, i)
  {
    ScanStart(view, k', i') && NotAfter(k, i, k', i')
    && ItemsFrom(view, k', i' + 1) == ItemsFrom(view, k, i + 1)
  }

  /** One step of the scan keeps it skipping, or stops it, as the next position dictates. */
  lemma ScanAdvance<V>(view: seq<BlockView<V>>, k: int, i: int, k0: int, i0: int, k': int, i': int)
    requires Sized(view) && ScanStart(view, k, i) && ScanSkipped(view, k, i, k0, i0)
    requires if i0 + 1 == BlockCells then k' == k0 + 1 && i' == 0 else k' == k0 && i' == i0 + 1
    ensures k' == |view| ==> ScanStop(view, k, i, k', i')
    ensures k' < |view| && PresentAt(view, k', i') ==> ScanStop(view, k, i, k', i')
    ensures k' < |view| && !PresentAt(view, k', i') ==> ScanSkipped(view, k, i, k', i')
  {
    ItemsFromAdvance(view, k0, i0, k', i');
  }

  /** What a full enumeration yields: block-list order, then ascending local index. */
  ghost function Enumerate<V>(view: seq<BlockView<V>>): seq<KeyValuePair<V>>
    requires Sized(view)
  {
    ItemsFrom(view, 0, 0)
  }

  /** A present position yields its cell together with the cell's stored value. */
  lemma LookupItemAt<V>(view: seq<BlockView<V>>, k: int, i: int)
    requires WellFormed(view) && 0 <= k < |view| && 0 <= i < BlockCells
    ensures Lookup(view, CellOf(ItemAt(view, k, i))).Some? <==> PresentAt(view, k, i)
    ensures PresentAt(view, k, i) ==> Lookup(view, CellOf(ItemAt(view, k, i))) == Some(ItemAt(view, k, i).value)
  {
    FindBlockAt(view, k);
  }

  /** Different positions yield different cells. */
  lemma ItemAtInjective<V>(view: seq<BlockView<V>>, k: int, i: int, k': int, i': int)
    requires WellFormed(view) && 0 <= k < |view| && 0 <= i < BlockCells
    requires 0 <= k' < |view| && 0 <= i' < BlockCells
    requires CellOf(ItemAt(view, k, i)) == CellOf(ItemAt(view, k', i'))
    ensures k == k' && i == i'
  {
    FindBlockAt(view, k);
    FindBlockAt(view, k');
  }

  /** The position that the n-th item from (k, i) comes from. */
  lemma {:induction false} ItemPosition<V>(view: seq<BlockView<V>>, k: int, i: int, n: int) returns (k': int, i': int)
    requires Sized(view) && -1 <= k <= |view| && 0 <= i <= BlockCells && (k == -1 ==> i == BlockCells)
    requires 0 <= n < |ItemsFrom(view, k, i)|
    ensures 0 <= k' < |view| && 0 <= i' < BlockCells && NotAfter(k, i, k', i') && PresentAt(view, k', i')
    ensures ItemsFrom(view, k, i)[n] == ItemAt(view, k', i')
    decreases |view| - k, BlockCells - i
  {
    if i == BlockCells {
      k', i' := ItemPosition(view, k + 1, 0, n);
    } else if PresentAt(view, k, i) && n == 0 {
      k', i' := k, i;
    } else {
      k', i' := ItemPosition(view, k, i + 1, if PresentAt(view, k, i) then n - 1 else n);
    }
  }

  /** Every present position from (k, i) on is yielded. */
  lemma {:induction false} ItemsFromContains<V>(view: seq<BlockView<V>>, k: int, i: int, k': int, i': int)
    requires Sized(view) && -1 <= k <= |view| && 0 <= i <= BlockCells && (k == -1 ==> i == BlockCells)
    requires 0 <= k' < |view| && 0 <= i' < BlockCells && NotAfter(k, i, k', i') && PresentAt(view, k', i')
    ensures ItemAt(view, k', i') in ItemsFrom(view, k, i)
    decreases |view| - k, BlockCells - i
  {
    if i == BlockCells {
      ItemsFromContains(view, k + 1, 0, k', i');
      assert ItemsFrom(view, k, i) == ItemsFrom(view, k + 1, 0);
    } else {
      var head := if PresentAt(view, k, i) then [ItemAt(view, k, i)] else [];
      assert ItemsFrom(view, k, i) == head + ItemsFrom(view, k, i + 1);
      if k != k' || i != i' {
        ItemsFromContains(view, k, i + 1, k', i');
        InAppend(ItemAt(view, k', i'), head, ItemsFrom(view, k, i + 1));
      } else {
        assert head[0] == ItemAt(view, k', i');
        InAppend(ItemAt(view, k', i'), ItemsFrom(view, k, i + 1), head);
      }
    }
  }

  /** Membership survives concatenation on either side. */
  lemma InAppend<T>(x: T, a: seq<T>, b: seq<T>)
    requires x in b
    ensures x in a + b && x in b + a
  {
    var j :| 0 <= j < |b| && b[j] == x;
    assert (a + b)[|a| + j] == x;
    assert (b + a)[j] == x;
  }

  /** No two entries of `s` share a cell, stated from the head. */
  ghost predicate DistinctCells<V>(s: seq<KeyValuePair<V>>)
    decreases |s|
  {
    || |s| == 0
    || (&& (forall b :: 1 <= b < |s| ==> CellOf(s[0]) != CellOf(s[b]))
        && DistinctCells(s[1..]))
  }

  /** A cell that none of `t` has may go in front of a distinct `t`. */
  lemma DistinctCellsCons<V>(x: KeyValuePair<V>, t: seq<KeyValuePair<V>>)
    requires DistinctCells(t) && forall b :: 0 <= b < |t| ==> CellOf(x) != CellOf(t[b])
    ensures DistinctCells([x] + t)
  {
    var s := [x] + t;
    assert s[1..] == t;
    forall b | 1 <= b < |s|
      ensures CellOf(s[0]) != CellOf(s[b])
    {
      assert s[b] == t[b - 1];
    }
  }

  /** `DistinctCells` means pairwise distinct cells. */
  lemma {:induction false} DistinctCellsPairwise<V>(s: seq<KeyValuePair<V>>)
    requires DistinctCells(s)
    ensures forall a, b :: 0 <= a < b < |s| ==> CellOf(s[a]) != CellOf(s[b])
    decreases |s|
  {
    if |s| > 0 {
      DistinctCellsPairwise(s[1..]);
      forall a, b | 0 <= a < b < |s|
        ensures CellOf(s[a]) != CellOf(s[b])
      {
        if a > 0 {
          assert s[a] == s[1..][a - 1] && s[b] == s[1..][b - 1];
        }
      }
    }
  }

  /** The cell at a present position is not yielded again later in the scan. */
  lemma NotYieldedLater<V>(view: seq<BlockView<V>>, k: int, i: int, later: seq<KeyValuePair<V>>)
    requires WellFormed(view) && 0 <= k < |view| && 0 <= i < BlockCells
    requires later == ItemsFrom(view, k, i + 1)
    ensures forall b :: 0 <= b < |later| ==> CellOf(ItemAt(view, k, i)) != CellOf(later[b])
  {
    forall b | 0 <= b < |later|
      ensures CellOf(ItemAt(view, k, i)) != CellOf(later[b])
    {
      var k', i' := ItemPosition(view, k, i + 1, b);
      if CellOf(ItemAt(view, k, i)) == CellOf(ItemAt(view, k', i')) {
        ItemAtInjective(view, k, i, k', i');
      }
    }
  }

  /** One step of `ItemsFromDistinct`: the item at (k, i), if any, differs from all later ones. */
  lemma DistinctStep<V>(view: seq<BlockView<V>>, k: int, i: int)
    requires WellFormed(view) && 0 <= k < |view| && 0 <= i < BlockCells
    requires DistinctCells(ItemsFrom(view, k, i + 1))
    ensures DistinctCells(ItemsFrom(view, k, i))
  {
    if PresentAt(view, k, i) {
      NotYieldedLater(view, k, i, ItemsFrom(view, k, i + 1));
      DistinctCellsCons(ItemAt(view, k, i), ItemsFrom(view, k, i + 1));
    } else {
      assert ItemsFrom(view, k, i) == [] + ItemsFrom(view, k, i + 1) == ItemsFrom(view, k, i + 1);
    }
  }

  /** No cell is yielded twice. */
  lemma {:induction false} ItemsFromDistinct<V>(view: seq<BlockView<V>>, k: int, i: int)
    requires WellFormed(view) && -1 <= k <= |view| && 0 <= i <= BlockCells && (k == -1 ==> i == BlockCells)
    ensures DistinctCells(ItemsFrom(view, k, i))
    decreases |view| - k, BlockCells - i
  {
    if k == |view| {
      assert ItemsFrom(view, k, i) == [];
    } else if i == BlockCells {
      ItemsFromDistinct(view, k + 1, 0);
      assert ItemsFrom(view, k, i) == ItemsFrom(view, k + 1, 0);
    } else {
      ItemsFromDistinct(view, k, i + 1);
      DistinctStep(view, k, i);
    }
  }

  /**
   * The enumeration yields exactly the present cells with their values, each exactly once.
   */
  lemma EnumerateExact<V>(view: seq<BlockView<V>>)
    requires WellFormed(view)
    ensures forall kv :: kv in Enumerate(view) <==> Lookup(view, CellOf(kv)) == Some(kv.value)
    ensures forall a, b :: 0 <= a < b < |Enumerate(view)| ==>
              CellOf(Enumerate(view)[a]) != CellOf(Enumerate(view)[b])
  {
    ItemsFromDistinct(view, 0, 0);
    DistinctCellsPairwise(Enumerate(view));
    forall kv | kv in Enumerate(view)
      ensures Lookup(view, CellOf(kv)) == Some(kv.value)
    {
      var n :| 0 <= n < |Enumerate(view)| && Enumerate(view)[n] == kv;
      var k, i := ItemPosition(view, 0, 0, n);
      LookupItemAt(view, k, i);
    }
    forall kv | Lookup(view, CellOf(kv)) == Some(kv.value)
      ensures kv in Enumerate(view)
    {
      var c := CellOf(kv);
      CellAtLocalIndex(c);
      ItemsFromContains(view, 0, 0, BlockOf(view, c), LocalIndex(c));
    }
  }

  lemma {:induction false} ItemsFromNone<V>(view: seq<BlockView<V>>, k: int, i: int)
    requires Sized(view) && 0 <= k <= |view| && 0 <= i <= BlockCells
    requires forall k', i' :: 0 <= k' < |view| && 0 <= i' < BlockCells && NotAfter(k, i, k', i') ==>
               !PresentAt(view, k', i')
    ensures ItemsFrom(view, k, i) == []
    decreases |view| - k, BlockCells - i
  {
    if k == |view| {
    } else if i == BlockCells {
      ItemsFromNone(view, k + 1, 0);
    } else {
      ItemsFromNone(view, k, i + 1);
    }
  }

  /** Blocks added after the last one, with nothing present in them, add nothing to the scan. */
  lemma {:induction false} ItemsFromExtend<V>(view: seq<BlockView<V>>, w: seq<BlockView<V>>, k: int, i: int)
    requires Sized(view) && Sized(w) && |view| <= |w|
    requires forall j :: 0 <= j < |view| ==> w[j] == view[j]
    requires forall j, c :: |view| <= j < |w| && 0 <= c < BlockCells ==> !PresentAt(w, j, c)
    requires -1 <= k <= |view| && 0 <= i <= BlockCells && (k == -1 ==> i == BlockCells)
    ensures ItemsFrom(w, k, i) == ItemsFrom(view, k, i)
    decreases |view| - k, BlockCells - i
  {
    if k == |view| {
      ItemsFromNone(w, k, i);
    } else if i == BlockCells {
      ItemsFromExtend(view, w, k + 1, 0);
    } else {
      ItemsFromExtend(view, w, k, i + 1);
      assert w[k] == view[k];
      assert PresentAt(w, k, i) == PresentAt(view, k, i) && ItemAt(w, k, i) == ItemAt(view, k, i);
    }
  }

  /** Appending an empty block leaves the scan unchanged. */
  lemma ItemsFromAppendEmpty<V>(view: seq<BlockView<V>>, x: int, y: int, z: int, dflt: V, k: int, i: int)
    requires Sized(view)
    requires -1 <= k <= |view| && 0 <= i <= BlockCells && (k == -1 ==> i == BlockCells)
    ensures ItemsFrom(view + [EmptyBlock(x, y, z, dflt)], k, i) == ItemsFrom(view, k, i)
  {
    var w := view + [EmptyBlock(x, y, z, dflt)];
    forall j, c | |view| <= j < |w| && 0 <= c < BlockCells
      ensures !PresentAt(w, j, c)
    {
      assert w[j].bitmap[c / 8] == 0;
    }
    ItemsFromExtend(view, w, k, i);
  }

  /** A block appended by `GetBlock` adds nothing to the enumeration. */
  lemma ItemsFromEnsureBlock<V>(view: seq<BlockView<V>>, x: int, y: int, z: int, dflt: V, k: int, i: int)
    requires WellFormed(view) && -1 <= k <= |view| && 0 <= i <= BlockCells && (k == -1 ==> i == BlockCells)
    ensures ItemsFrom(EnsureBlock(view, x, y, z, dflt), k, i) == ItemsFrom(view, k, i)
  {
    if EnsureBlock(view, x, y, z, dflt) != view {
      ItemsFromAppendEmpty(view, x, y, z, dflt, k, i);
    }
  }

  /**
   * What an enumerator at (blockIndex, bitIndex) has still to yield: everything before the
   * first `MoveNext` (blockIndex == -1), nothing once exhausted (blockIndex == int.MaxValue),
   * and otherwise the items after its current position.
   */
  ghost function RestFrom<V>(view: seq<BlockView<V>>, blockIndex: int, bitIndex: int): seq<KeyValuePair<V>>
    requires Sized(view) && |view| < IntMax
    requires blockIndex == -1 || blockIndex == IntMax || (0 <= blockIndex < |view| && 0 <= bitIndex < BlockCells)
  {
    if blockIndex == IntMax then []
    else if blockIndex == -1 then Enumerate(view)
    else ItemsFrom(view, blockIndex, bitIndex + 1)
  }

  /**
   * The scan `MoveNext` runs from (blockIndex, bitIndex) stops at the next item still to be
   * yielded, or past the last block when none is left.
   */
  lemma MoveNextStep<V>(view: seq<BlockView<V>>, blockIndex: int, bitIndex: int, k: int, i: int)
    requires Sized(view) && |view| < IntMax
    requires blockIndex == -1 || (0 <= blockIndex < |view| && 0 <= bitIndex < BlockCells)
    requires ScanStop(view, blockIndex, if blockIndex == -1 then BlockCells - 1 else bitIndex, k, i)
    ensures k >= |view| ==> RestFrom(view, blockIndex, bitIndex) == []
    ensures k < |view| ==>
              && 0 <= k && 0 <= i < BlockCells && PresentAt(view, k, i)
              && RestFrom(view, blockIndex, bitIndex) == [ItemAt(view, k, i)] + RestFrom(view, k, i)
  {
    if blockIndex == -1 {
      assert ItemsFrom(view, -1, BlockCells) == ItemsFrom(view, 0, 0);
    }
  }

  /**
   * `w` is `view` with blocks appended that hold no present cell: what any number of
   * `GetBlock` calls from `HasDataAt`, `TryGet` or the enumeration's neighbours can do.
   */
  ghost predicate Extends<V>(view: seq<BlockView<V>>, w: seq<BlockView<V>>)
  {
    && Sized(view) && Sized(w) && |view| <= |w|
    && (forall j :: 0 <= j < |view| ==> w[j] == view[j])
    && (forall j, i :: |view| <= j < |w| && 0 <= i < BlockCells ==> !PresentAt(w, j, i))
  }

  /** Writing a cell after `GetBlock` has run on any block reads as writing it directly. */
  lemma SetCellEnsured<V>(view: seq<BlockView<V>>, x: int, y: int, z: int, c: Cell, v: V, dflt: V)
    requires WellFormed(view)
    ensures forall d :: Lookup(SetCell(EnsureBlock(view, x, y, z, dflt), c, v, dflt), d) == Lookup(SetCell(view, c, v, dflt), d)
  {
    var w := EnsureBlock(view, x, y, z, dflt);
    forall d ensures Lookup(SetCell(w, c, v, dflt), d) == Lookup(SetCell(view, c, v, dflt), d) {
      LookupSetCell(w, c, v, dflt, d);
      LookupSetCell(view, c, v, dflt, d);
    }
  }

  /** Clearing a cell after `GetBlock` has run on any block reads as clearing it directly. */
  lemma ClearCellEnsured<V>(view: seq<BlockView<V>>, x: int, y: int, z: int, c: Cell, dflt: V)
    requires WellFormed(view)
    ensures forall d :: Lookup(ClearCell(EnsureBlock(view, x, y, z, dflt), c, dflt), d) == Lookup(ClearCell(view, c, dflt), d)
  {
    var w := EnsureBlock(view, x, y, z, dflt);
    forall d ensures Lookup(ClearCell(w, c, dflt), d) == Lookup(ClearCell(view, c, dflt), d) {
      LookupClearCell(w, c, dflt, d);
      LookupClearCell(view, c, dflt, d);
    }
  }

  /** Each block yields at most `BlockCells` items. */
  lemma {:induction false} ItemsFromCount<V>(view: seq<BlockView<V>>, k: int, i: int)
    requires Sized(view) && 0 <= k <= |view| && 0 <= i <= BlockCells
    ensures |ItemsFrom(view, k, i)| <= (|view| - k) * BlockCells - i + (if k == |view| then i else 0)
    decreases |view| - k, BlockCells - i
  {
    if k < |view| {
      if i == BlockCells {
        ItemsFromCount(view, k + 1, 0);
      } else {
        ItemsFromCount(view, k, i + 1);
      }
    }
  }

  /** The store enumerates at most `BlockCells` cells per block. */
  lemma EnumerateCount<V>(view: seq<BlockView<V>>)
    requires Sized(view)
    ensures |Enumerate(view)| <= |view| * BlockCells
  {
    ItemsFromCount(view, 0, 0);
  }

  /** `GetBlock` only ever extends the view. */
  lemma EnsureBlockExtends<V>(view: seq<BlockView<V>>, x: int, y: int, z: int, dflt: V)
    requires WellFormed(view)
    ensures Extends(view, EnsureBlock(view, x, y, z, dflt))
  {
    var w := EnsureBlock(view, x, y, z, dflt);
    forall j, i | |view| <= j < |w| && 0 <= i < BlockCells
      ensures !PresentAt(w, j, i)
    {
      assert w[j].bitmap[i / 8] == 0;
    }
  }

  lemma ExtendsTrans<V>(a: seq<BlockView<V>>, b: seq<BlockView<V>>, c: seq<BlockView<V>>)
    requires Extends(a, b) && Extends(b, c)
    ensures Extends(a, c)
  {
    forall j, i | |a| <= j < |c| && 0 <= i < BlockCells
      ensures !PresentAt(c, j, i)
    {
      if j < |b| {
        assert c[j] == b[j];
        assert !PresentAt(b, j, i);
      }
    }
  }

  /** An extension holds the same cells with the same values. */
  lemma ExtendsLookup<V>(view: seq<BlockView<V>>, w: seq<BlockView<V>>, c: Cell)
    requires WellFormed(view) && WellFormed(w) && Extends(view, w)
    ensures Lookup(w, c) == Lookup(view, c)
  {
    var k := BlockOf(view, c);
    if k >= 0 {
      FindBlockAt(w, k);
      assert w[k] == view[k];
    } else {
      var k' := BlockOf(w, c);
      if k' >= 0 {
        assert !PresentAt(w, k', LocalIndex(c));
      }
    }
  }

  /** An extension enumerates the same items, from any position of the original. */
  lemma ExtendsRest<V>(view: seq<BlockView<V>>, w: seq<BlockView<V>>, blockIndex: int, bitIndex: int)
    requires Extends(view, w) && |w| < IntMax
    requires blockIndex == -1 || blockIndex == IntMax || (0 <= blockIndex < |view| && 0 <= bitIndex < BlockCells)
    ensures Enumerate(w) == Enumerate(view)
    ensures RestFrom(w, blockIndex, bitIndex) == RestFrom(view, blockIndex, bitIndex)
  {
    ItemsFromExtend(view, w, 0, 0);
    if 0 <= blockIndex < |view| {
      ItemsFromExtend(view, w, blockIndex, bitIndex + 1);
    }
  }

  // ---------------------------------------------------------------------------------------
  // The heap structures

  /** A block: coordinates, a 512-entry `Data` array and a 65-entry `Bitmap` of `char`. */
  class Block<V> {
    const x: int
    const y: int
    const z: int
    const data: array<V>
    const bitmap: array<bv16>

    constructor (x: int, y: int, z: int, dflt: V)
      ensures fresh(data) && fresh(bitmap)
      ensures data.Length == BlockCells && bitmap.Length == BitmapLength
      ensures Snapshot() == EmptyBlock(x, y, z, dflt)
    {
      this.x, this.y, this.z := x, y, z;
      data := new V[BlockCells](_ => dflt);
      bitmap := new bv16[BitmapLength](_ => 0);
      new;
      assert data[..] == seq(BlockCells, _ => dflt);
      assert bitmap[..] == seq(BitmapLength, _ => 0 as bv16);
    }

    ghost function Snapshot(): BlockView<V>
      reads data, bitmap
    {
      BlockView(x, y, z, data[..], bitmap[..])
    }

    /** The writes of `AddAndGetRef` and its caller: set bit i, then store the value. */
    method Put(i: int, value: V)
      requires data.Length == BlockCells && bitmap.Length == BitmapLength && 0 <= i < BlockCells
      requires data as object != bitmap
      modifies data, bitmap
      ensures Snapshot() == BlockView(x, y, z, old(data[..])[i := value], SetBit(old(bitmap[..]), i))
    {
      bitmap[i / 8] := bitmap[i / 8] | Mask(i);
      data[i] := value;
    }

    /** The presence test `0 != (Bitmap[i / 8] & (char)(1 << (i % 8)))`. */
    method Has(i: int) returns (b: bool)
      requires bitmap.Length == BitmapLength && 0 <= i < BlockCells
      ensures b == BitSet(Snapshot().bitmap, i)
    {
      b := 0 != bitmap[i / 8] & Mask(i);
    }

    /** The write of `RemoveAt`: clear bit i, leaving the data in place. */
    method Remove(i: int)
      requires bitmap.Length == BitmapLength && 0 <= i < BlockCells
      requires data as object != bitmap
      modifies bitmap
      ensures Snapshot() == BlockView(x, y, z, old(data[..]), ClearBit(old(bitmap[..]), i))
    {
      bitmap[i / 8] := bitmap[i / 8] & (0xFF ^ Mask(i));
    }
  }

  /**
   * `VoxelDataStorage<TValue>`: the list `_blocks`; `defaultValue` stands for C#'s
   * `default(TValue)`, which fills new data arrays and is what `TryGet` reports when absent.
   */
  class VoxelDataStorage<V> {
    const defaultValue: V
    var blocks: seq<Block<V>>
    ghost var view: seq<BlockView<V>>
    ghost var Repr: set<object>

    ghost predicate Valid()
      reads this, Repr
    {
      && this in Repr
      && |view| == |blocks|
      && WellFormed(view)
      && (forall k :: 0 <= k < |blocks| ==>
            && blocks[k].data in Repr && blocks[k].bitmap in Repr
            && blocks[k].data.Length == BlockCells && blocks[k].bitmap.Length == BitmapLength
            && view[k] == blocks[k].Snapshot())
      && (forall k, l :: 0 <= k < l < |blocks| ==>
            blocks[k].data != blocks[l].data && blocks[k].bitmap != blocks[l].bitmap)
      && (forall k, l :: 0 <= k < |blocks| && 0 <= l < |blocks| ==>
            blocks[k].data as object != blocks[l].bitmap as object)
    }

    constructor (defaultValue: V)
      ensures Valid() && fresh(Repr)
      ensures this.defaultValue == defaultValue && view == []
    {
      this.defaultValue := defaultValue;
      blocks := [];
      view := [];
      Repr := {this};
    }

    /** Finds the block (bx, by, bz) by a linear scan, appending a new empty one if absent. */
    method GetBlock(bx: int, bY: int, bz: int) returns (b: Block<V>, ghost k: int)
      requires Valid()
      modifies this
      ensures Valid() && fresh(Repr - old(Repr))
      ensures view == EnsureBlock(old(view), bx, bY, bz, defaultValue)
      ensures k == FindBlock(view, bx, bY, bz) && 0 <= k < |blocks| && b == blocks[k]
    {
      var i := 0;
      while i < |blocks|
        invariant 0 <= i <= |blocks|
        invariant forall j :: 0 <= j < i ==> !HasCoords(view[j], bx, bY, bz)
        modifies {}
      {
        if blocks[i].x == bx && blocks[i].y == bY && blocks[i].z == bz {
          FindBlockAt(view, i);
          return blocks[i], i;
        }
        i := i + 1;
      }
      EnsureBlockAppends(view, bx, bY, bz, defaultValue);
      b := AppendBlock(bx, bY, bz);
      k := |blocks| - 1;
    }

    /** The tail of `GetBlock`: `blocks.Add(new Block(x, y, z))` for coordinates not yet present. */
    method AppendBlock(bx: int, bY: int, bz: int) returns (nb: Block<V>)
      requires Valid() && forall j :: 0 <= j < |view| ==> !HasCoords(view[j], bx, bY, bz)
      modifies this
      ensures Valid() && fresh(Repr - old(Repr))
      ensures view == old(view) + [EmptyBlock(bx, bY, bz, defaultValue)]
      ensures blocks == old(blocks) + [nb]
    {
      nb := new Block(bx, bY, bz, defaultValue);
      blocks := blocks + [nb];
      view := view + [EmptyBlock(bx, bY, bz, defaultValue)];
      Repr := Repr + {nb, nb.data, nb.bitmap};
    }

    /**
     * `AddAndGetRef(x, y, z) = value`: every caller writes through the returned reference at
     * once, so the reference and the write are one operation here.
     */
    method AddAndSet(x: int, y: int, z: int, value: V)
      requires Valid()
      modifies Repr
      ensures Valid() && fresh(Repr - old(Repr))
      ensures view == SetCell(old(view), Cell(x, y, z), value, defaultValue)
    {
      var bx := BlockCoord(x);
      var bY := BlockCoord(y);
      var bz := BlockCoord(z);
      var ix := x - bx * 8;
      var iy := y - bY * 8;
      var iz := z - bz * 8;
      var bl, k := GetBlock(bx, bY, bz);
      var i := ix + (iy + iz * 8) * 8;
      assert i == LocalIndex(Cell(x, y, z));
      bl.Put(i, value);
      WellFormedReplace(view, k, bl.Snapshot());
      view := view[k := bl.Snapshot()];
    }

    /** `RemoveAt`: clears the cell's presence bit and nothing else. */
    method RemoveAt(x: int, y: int, z: int)
      requires Valid()
      modifies Repr
      ensures Valid() && fresh(Repr - old(Repr))
      ensures view == ClearCell(old(view), Cell(x, y, z), defaultValue)
    {
      var bx := BlockCoord(x);
      var bY := BlockCoord(y);
      var bz := BlockCoord(z);
      var ix := x - bx * 8;
      var iy := y - bY * 8;
      var iz := z - bz * 8;
      var bl, k := GetBlock(bx, bY, bz);
      var i := ix + (iy + iz * 8) * 8;
      assert i == LocalIndex(Cell(x, y, z));
      bl.Remove(i);
      WellFormedReplace(view, k, bl.Snapshot());
      view := view[k := bl.Snapshot()];
    }

    /** `HasDataAt`: the presence test; it may append an empty block but changes no cell. */
    method HasDataAt(x: int, y: int, z: int) returns (b: bool)
      requires Valid()
      modifies this
      ensures Valid() && fresh(Repr - old(Repr))
      ensures view == EnsureBlock(old(view), BlockCoord(x), BlockCoord(y), BlockCoord(z), defaultValue)
      ensures b <==> Lookup(old(view), Cell(x, y, z)).Some?
    {
      var bx := BlockCoord(x);
      var bY := BlockCoord(y);
      var bz := BlockCoord(z);
      var ix := x - bx * 8;
      var iy := y - bY * 8;
      var iz := z - bz * 8;
      var bl, k := GetBlock(bx, bY, bz);
      var i := ix + (iy + iz * 8) * 8;
      assert i == LocalIndex(Cell(x, y, z));
      b := 0 != bl.bitmap[i / 8] & Mask(i);
    }

    /**
     * The scan loop of `MoveNext`: from position (k, i) it steps to the next local index,
     * moving to the next block after index 511, until it reaches a present cell (`CheckCurrent`)
     * or runs past the last block (k' == |blocks|).
     */
    method NextPresent(k: int, i: int) returns (k': int, i': int)
      requires Valid() && ScanStart(view, k, i)
      ensures ScanStop(view, k, i, k', i')
    {
      k', i' := k, i;
      var n := |blocks|;
      assert n == |view|;
      while true
        invariant ScanSkipped(view, k, i, k', i')
        decreases n - k', BlockCells - i'
      {
        ghost var k0, i0 := k', i';
        i' := i' + 1;
        if i' == BlockCells {
          i' := 0;
          k' := k' + 1;
          if k' >= n {
            ScanAdvance(view, k, i, k0, i0, k', i');
            return;
          }
        }
        ScanAdvance(view, k, i, k0, i0, k', i');
        var present := IsPresent(k', i');
        if present {
          return;
        }
      }
    }

    /** Tests the bitmap bit of local index `i` in block `k`. */
    method IsPresent(k: int, i: int) returns (present: bool)
      requires Valid() && 0 <= k < |view| && 0 <= i < BlockCells
      ensures present == PresentAt(view, k, i)
    {
      present := blocks[k].Has(i);
      assert view[k] == blocks[k].Snapshot();
    }

    /** `TryGet`: (true, value) for a present cell, (false, default) otherwise. */
    method TryGet(x: int, y: int, z: int) returns (found: bool, result: V)
      requires Valid()
      modifies this
      ensures Valid() && fresh(Repr - old(Repr))
      ensures view == EnsureBlock(old(view), BlockCoord(x), BlockCoord(y), BlockCoord(z), defaultValue)
      ensures found <==> Lookup(old(view), Cell(x, y, z)).Some?
      ensures result == if found then Lookup(old(view), Cell(x, y, z)).value else defaultValue
    {
      var bx := BlockCoord(x);
      var bY := BlockCoord(y);
      var bz := BlockCoord(z);
      var ix := x - bx * 8;
      var iy := y - bY * 8;
      var iz := z - bz * 8;
      var bl, k := GetBlock(bx, bY, bz);
      var i := ix + (iy + iz * 8) * 8;
      assert i == LocalIndex(Cell(x, y, z));
      if 0 == bl.bitmap[i / 8] & Mask(i) {
        return false, defaultValue;
      }
      return true, bl.data[i];
    }

    /** `Clear`: drops every block, so no cell is present afterwards. */
    method Clear()
      requires Valid()
      modifies this
      ensures Valid() && fresh(Repr - old(Repr))
      ensures view == [] && Enumerate(view) == []
      ensures forall c :: Lookup(view, c) == None
    {
      blocks := [];
      view := [];
      Repr := {this};
    }

    /** `GetEnumerator`: a fresh enumerator positioned before the first cell. */
    method GetEnumerator() returns (e: Enumerator<V>)
      requires Valid() && |blocks| < IntMax
      ensures fresh(e) && e.parent == this && e.Valid()
      ensures e.Rest() == Enumerate(view) && e.Current().Fail? && e.blockIndex == -1
    {
      e := new Enumerator(this);
    }
  }

  /**
   * `VDSEnumerator`: `blockIndex` is -1 before the first `MoveNext`, `int.MaxValue` once the
   * blocks are exhausted, and otherwise names the block of the current cell.
   */
  class Enumerator<V> {
    const parent: VoxelDataStorage<V>
    var blockIndex: int
    var bitIndex: int

    constructor (parent: VoxelDataStorage<V>)
      ensures this.parent == parent && blockIndex == -1 && bitIndex == 0
    {
      this.parent := parent;
      blockIndex := -1;
      bitIndex := 0;
    }

    /** Before start, exhausted, or on a present cell of an existing block. */
    ghost predicate Valid()
      reads this, parent, parent.Repr
    {
      && parent.Valid()
      && this !in parent.Repr
      && |parent.blocks| < IntMax
      && (|| blockIndex == -1
          || blockIndex == IntMax
          || (&& 0 <= blockIndex < |parent.blocks| && 0 <= bitIndex < BlockCells
              && PresentAt(parent.view, blockIndex, bitIndex)))
    }

    /** The items still to be yielded after the current one. */
    ghost function Rest(): seq<KeyValuePair<V>>
      reads this, parent, parent.Repr
      requires Valid()
    {
      RestFrom(parent.view, blockIndex, bitIndex)
    }

    /** `Current`: throws before the first `MoveNext` and after exhaustion. */
    function Current(): (r: Result<KeyValuePair<V>>)
      reads this, parent, parent.Repr
      requires Valid()
      ensures r.Fail? <==> blockIndex == -1 || blockIndex == IntMax
      ensures r.Ok? ==> r.value == ItemAt(parent.view, blockIndex, bitIndex)
      ensures r.Ok? ==> Lookup(parent.view, CellOf(r.value)) == Some(r.value.value)
    {
      if blockIndex == -1 || blockIndex == IntMax then Fail(InvalidOperationException)
      else
        var i := bitIndex;
        var ix := i % 8;
        var iy := (i / 8) % 8;
        var iz := (i / 8) / 8;
        var bl := parent.blocks[blockIndex];
        var kv := KeyValuePair(bl.x * 8 + ix, bl.y * 8 + iy, bl.z * 8 + iz, bl.data[bitIndex]);
        assert kv == ItemAt(parent.view, blockIndex, bitIndex);
        LookupItemAt(parent.view, blockIndex, bitIndex);
        Ok(kv)
    }

    /** `CheckCurrent`: whether the cell at the current position is present in the store. */
    function CheckCurrent(): (r: bool)
      reads this, parent, parent.Repr
      requires parent.Valid() && 0 <= blockIndex < |parent.blocks| && 0 <= bitIndex < BlockCells
      ensures r <==> PresentAt(parent.view, blockIndex, bitIndex)
      ensures r <==> Lookup(parent.view, CellOf(ItemAt(parent.view, blockIndex, bitIndex))).Some?
    {
      var i := bitIndex;
      var bl := parent.blocks[blockIndex];
      LookupItemAt(parent.view, blockIndex, bitIndex);
      0 != bl.bitmap[i / 8] & Mask(i)
    }

    /**
     * `MoveNext`: advances to the next present cell. It throws once exhausted; otherwise it
     * reports whether a cell was left, and that cell becomes `Current`.
     */
    method MoveNext() returns (r: Result<bool>)
      requires Valid()
      modifies this
      ensures Valid()
      ensures old(blockIndex) == IntMax ==> r == Fail(InvalidOperationException) && blockIndex == IntMax
      ensures old(blockIndex) != IntMax ==> r.Ok? && (r.value <==> old(Rest()) != [])
      ensures r == Ok(true) ==>
                && 0 <= blockIndex < |parent.blocks|
                && old(Rest()) == [ItemAt(parent.view, blockIndex, bitIndex)] + Rest()
      ensures r == Ok(false) ==> blockIndex == IntMax
    {
      if blockIndex == IntMax {
        return Fail(InvalidOperationException);
      }
      var k, i := blockIndex, bitIndex;
      if k == -1 {
        i := BlockCells - 1;
      }
      k, i := parent.NextPresent(k, i);
      MoveNextStep(parent.view, blockIndex, bitIndex, k, i);
      if k >= |parent.blocks| {
        blockIndex, bitIndex := IntMax, i;
        return Ok(false);
      }
      blockIndex, bitIndex := k, i;
      return Ok(true);
    }

    /** `Reset`: back to before the first cell. */
    method Reset()
      requires Valid()
      modifies this
      ensures Valid() && Rest() == Enumerate(parent.view) && Current().Fail?
    {
      blockIndex := -1;
    }
  }

  /**
   * An enumerator position stays on a present cell, with the same items ahead, while its store
   * only gains empty blocks (the `HasDataAt` calls made between two `MoveNext`s): both
   * stores extend a common `base`.
   */
  lemma EnumeratorSurvives<V>(before: seq<BlockView<V>>, after: seq<BlockView<V>>, base: seq<BlockView<V>>,
                              blockIndex: int, bitIndex: int)
    requires Extends(base, before) && Extends(base, after) && |before| < IntMax && |after| < IntMax
    requires 0 <= blockIndex < |before| && 0 <= bitIndex < BlockCells && PresentAt(before, blockIndex, bitIndex)
    ensures blockIndex < |after| && PresentAt(after, blockIndex, bitIndex)
    ensures RestFrom(after, blockIndex, bitIndex) == RestFrom(before, blockIndex, bitIndex)
  {
    assert blockIndex < |base|;
    ExtendsRest(base, before, blockIndex, bitIndex);
    ExtendsRest(base, after, blockIndex, bitIndex);
  }
}
