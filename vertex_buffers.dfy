/**
 * The chunked vertex list `VertexBufferList<TVertex>` (Document/Models/VertexBufferList.cs):
 * a list of `BufferInfo` chunks of 1024 slots each, filled front to back, with a running
 * count `_emptySlots` of the free slots.
 *
 * The chunks live on the heap (a `Data` array plus the mutable `Length` and `Dirty` fields);
 * a ghost `view` holds one `Chunk` snapshot per buffer. The operations are specified by pure
 * functions on views, and what they promise (the items seen in order, the free-slot count,
 * the front-to-back filling) is proved about those functions.
 */
module VertexBuffers {

  /** `BufferSize`: the number of vertices one chunk holds. */
  const BufferSize: int := 1024

  /** A snapshot of one `BufferInfo`: its `Data` contents, `Length` and `Dirty` flag. */
  datatype Chunk<T> = Chunk(data: seq<T>, length: int, dirty: bool)

  /** A chunk has a full-sized `Data` array and a `Length` within it. */
  predicate ChunkOk<T>(c: Chunk<T>)
  {
    |c.data| == BufferSize && 0 <= c.length <= BufferSize
  }

  predicate Shaped<T>(view: seq<Chunk<T>>)
  {
    forall k :: 0 <= k < |view| ==> ChunkOk(view[k])
  }

  /**
   * Chunks fill front to back: a chunk holding anything comes after full chunks only, so the
   * chunks before the first non-full one are full and those after it are empty.
   */
  predicate PrefixFilled<T>(view: seq<Chunk<T>>)
  {
    forall k, l :: 0 <= k < l < |view| && view[l].length > 0 ==> view[k].length == BufferSize
  }

  /**
   * The pure half of the list's invariant: the chunks are well shaped and fill front to back,
   * and `emptySlots` is their number of free slots.
   */
  ghost predicate Counted<T>(view: seq<Chunk<T>>, emptySlots: int)
  {
    Shaped(view) && PrefixFilled(view) && emptySlots == Free(view)
  }

  /** A chunk as `NewBuffer` creates it: `new TVertex[BufferSize]`, `Length = 0`, not dirty. */
  function EmptyChunk<T>(dflt: T): (c: Chunk<T>)
    ensures ChunkOk(c) && c.length == 0
  {
    Chunk(seq(BufferSize, _ => dflt), 0, false)
  }

  /** The free slots of all chunks, Σ (BufferSize − Length): what `_emptySlots` counts. */
  function Free<T>(view: seq<Chunk<T>>): int
  {
    if |view| == 0 then 0 else Free(view[..|view| - 1]) + (BufferSize - view[|view| - 1].length)
  }

  /** The vertices held: `Data[0..Length)` of every chunk, concatenated in list order. */
  function Items<T>(view: seq<Chunk<T>>): seq<T>
    requires Shaped(view)
  {
    if |view| == 0 then []
    else Items(view[..|view| - 1]) + view[|view| - 1].data[..view[|view| - 1].length]
  }

  /** Every vertex slot is either used (an item) or free. */
  lemma {:induction false} ItemsAndFree<T>(view: seq<Chunk<T>>)
    requires Shaped(view)
    ensures |Items(view)| + Free(view) == |view| * BufferSize
    ensures 0 <= Free(view) <= |view| * BufferSize
  {
    if |view| > 0 {
      ItemsAndFree(view[..|view| - 1]);
    }
  }

  /** No free slot is left exactly when every chunk is full. */
  lemma {:induction false} FreeZero<T>(view: seq<Chunk<T>>)
    requires Shaped(view)
    ensures Free(view) == 0 <==> forall k :: 0 <= k < |view| ==> view[k].length == BufferSize
  {
    if |view| > 0 {
      var init := view[..|view| - 1];
      FreeZero(init);
      ItemsAndFree(init);
      assert forall k :: 0 <= k < |init| ==> init[k] == view[k];
    }
  }

  /** The index of the first chunk that is not full, or |view| when all are full. */
  function FirstOpen<T>(view: seq<Chunk<T>>): (k: int)
    ensures 0 <= k <= |view|
    ensures forall j :: 0 <= j < k ==> view[j].length >= BufferSize
    ensures k < |view| ==> view[k].length < BufferSize
    decreases |view|
  {
    if |view| == 0 || view[0].length < BufferSize then 0 else 1 + FirstOpen(view[1..])
  }

  /** `b.Data[b.Length++] = data; b.Dirty = true;` on one chunk. */
  function PushChunk<T>(c: Chunk<T>, item: T): Chunk<T>
    requires ChunkOk(c) && c.length < BufferSize
  {
    Chunk(c.data[c.length := item], c.length + 1, true)
  }

  /**
   * The chunks after `Add(item)`: one new empty chunk first when no slot was free, then the
   * item goes into the first chunk that is not full.
   */
  function Added<T>(view: seq<Chunk<T>>, item: T, dflt: T): seq<Chunk<T>>
    requires Shaped(view)
  {
    var grown := if Free(view) == 0 then view + [EmptyChunk(dflt)] else view;
    var k := FirstOpen(grown);
    if k < |grown| then grown[k := PushChunk(grown[k], item)] else grown
  }

  /** The chunks after `Clear`: every `Length` reset to 0 and every chunk marked dirty. */
  function Cleared<T>(view: seq<Chunk<T>>): seq<Chunk<T>>
  {
    seq(|view|, j requires 0 <= j < |view| => Chunk(view[j].data, 0, true))
  }

  /** Chunks holding nothing at the end contribute no items. */
  lemma {:induction false} ItemsUpTo<T>(view: seq<Chunk<T>>, k: int)
    requires Shaped(view) && 0 <= k < |view|
    requires forall j :: k < j < |view| ==> view[j].length == 0
    ensures Items(view) == Items(view[..k]) + view[k].data[..view[k].length]
    decreases |view|
  {
    var init := view[..|view| - 1];
    if k < |view| - 1 {
      ItemsUpTo(init, k);
      assert init[..k] == view[..k];
      assert view[|view| - 1].data[..0] == [];
    } else {
      assert init == view[..k];
    }
  }

  /** Changing one chunk changes the free slots by the change in its `Length`. */
  lemma {:induction false} FreeUpdate<T>(view: seq<Chunk<T>>, k: int, c: Chunk<T>)
    requires 0 <= k < |view|
    ensures Free(view[k := c]) == Free(view) - (c.length - view[k].length)
    decreases |view|
  {
    var after := view[k := c];
    var init := view[..|view| - 1];
    if k < |view| - 1 {
      FreeUpdate(init, k, c);
      assert after[..|after| - 1] == init[k := c];
    } else {
      assert after[..|after| - 1] == init;
    }
  }

  /** Filling one more slot of the first non-full chunk keeps the chunks filled front to back. */
  lemma PushKeepsPrefix<T>(view: seq<Chunk<T>>, k: int, c: Chunk<T>)
    requires Shaped(view) && PrefixFilled(view) && 0 <= k < |view|
    requires forall j :: 0 <= j < k ==> view[j].length >= BufferSize
    requires view[k].length < BufferSize && ChunkOk(c) && c.length > 0
    ensures Shaped(view[k := c]) && PrefixFilled(view[k := c])
  {
  }

  /** Filling one more slot of the last non-empty chunk appends exactly that item. */
  lemma PushItems<T>(view: seq<Chunk<T>>, k: int, item: T)
    requires Shaped(view) && 0 <= k < |view| && view[k].length < BufferSize
    requires forall j :: k < j < |view| ==> view[j].length == 0
    ensures Shaped(view[k := PushChunk(view[k], item)])
    ensures Items(view[k := PushChunk(view[k], item)]) == Items(view) + [item]
  {
    var c := PushChunk(view[k], item);
    var after := view[k := c];
    ItemsUpTo(view, k);
    ItemsUpTo(after, k);
    assert after[..k] == view[..k];
    assert c.data[..c.length] == view[k].data[..view[k].length] + [item];
  }

  /**
   * Filling one more slot of the first non-full chunk takes one free slot and keeps the
   * chunks filled front to back.
   */
  lemma PushFirstOpen<T>(view: seq<Chunk<T>>, item: T)
    requires Shaped(view) && PrefixFilled(view) && FirstOpen(view) < |view|
    ensures var k := FirstOpen(view);
      Counted(view[k := PushChunk(view[k], item)], Free(view) - 1)
  {
    var k := FirstOpen(view);
    var c := PushChunk(view[k], item);
    PushKeepsPrefix(view, k, c);
    FreeUpdate(view, k, c);
  }

  /** Appending an empty chunk adds `BufferSize` free slots and no items. */
  lemma AppendEmpty<T>(view: seq<Chunk<T>>, dflt: T)
    requires Shaped(view) && PrefixFilled(view)
    ensures Counted(view + [EmptyChunk(dflt)], Free(view) + BufferSize)
    ensures Items(view + [EmptyChunk(dflt)]) == Items(view)
  {
    var grown := view + [EmptyChunk(dflt)];
    assert grown[..|grown| - 1] == view;
  }

  /**
   * `Add` appends the item to the vertices, allocates a chunk exactly when no slot was free,
   * and keeps the chunks filled front to back; the "should never get here" fall-through of
   * its search cannot be reached.
   */
  lemma AddedSpec<T>(view: seq<Chunk<T>>, item: T, dflt: T)
    requires Shaped(view) && PrefixFilled(view)
    ensures var after := Added(view, item, dflt);
      && Shaped(after) && PrefixFilled(after)
      && Items(after) == Items(view) + [item]
      && |after| == |view| + (if Free(view) == 0 then 1 else 0)
      && Free(after) == Free(view) + (if Free(view) == 0 then BufferSize else 0) - 1
  {
    var grown := if Free(view) == 0 then view + [EmptyChunk(dflt)] else view;
    if Free(view) == 0 {
      AppendEmpty(view, dflt);
    }
    ItemsAndFree(grown);
    FreeZero(grown);
    PushFirstOpen(grown, item);
    var k := FirstOpen(grown);
    assert forall j :: k < j < |grown| ==> grown[j].length == 0;
    PushItems(grown, k, item);
  }

  /** `Added` in the two steps `Add` takes: grow when full, then push into the first open chunk. */
  lemma AddedStep<T>(view: seq<Chunk<T>>, item: T, dflt: T, grown: seq<Chunk<T>>)
    requires Shaped(view)
    requires grown == if Free(view) == 0 then view + [EmptyChunk(dflt)] else view
    requires FirstOpen(grown) < |grown|
    ensures grown[FirstOpen(grown) := PushChunk(grown[FirstOpen(grown)], item)] == Added(view, item, dflt)
  {
  }

  /** After `Clear` nothing is held and every slot of every chunk is free. */
  lemma {:induction false} ClearedSpec<T>(view: seq<Chunk<T>>)
    requires Shaped(view)
    ensures |Cleared(view)| == |view| && Counted(Cleared(view), |view| * BufferSize)
    ensures Items(Cleared(view)) == []
  {
    var c := Cleared(view);
    if |view| > 0 {
      ClearedSpec(view[..|view| - 1]);
      assert c[..|c| - 1] == Cleared(view[..|view| - 1]);
    }
  }

  /** One `BufferInfo`: its vertex array and the mutable `Length` and `Dirty` fields. */
  class BufferInfo<T> {
    const data: array<T>
    var length: int
    var dirty: bool

    /** `new BufferInfo { Data = new TVertex[BufferSize], Length = 0, Dirty = false }`. */
    constructor (dflt: T)
      ensures fresh(data) && data.Length == BufferSize
      ensures Snapshot() == EmptyChunk(dflt)
    {
      var a := new T[BufferSize](_ => dflt);
      assert a[..] == seq(BufferSize, _ => dflt);
      data := a;
      length := 0;
      dirty := false;
    }

    ghost function Snapshot(): Chunk<T>
      reads this, data
    {
      Chunk(data[..], length, dirty)
    }

    /** `b.Data[b.Length++] = data; b.Dirty = true;` */
    method Push(item: T)
      requires data.Length == BufferSize && 0 <= length < BufferSize
      modifies this, data
      ensures Snapshot() == PushChunk(old(Snapshot()), item)
    {
      data[length] := item;
      length := length + 1;
      dirty := true;
    }

    /** `b.Length = 0; b.Dirty = true;` */
    method Reset()
      modifies this
      ensures Snapshot() == Chunk(old(data[..]), 0, true)
    {
      length := 0;
      dirty := true;
    }
  }

  class VertexBufferList<T> {
    /** `default(TVertex)`: the contents of a freshly allocated `Data` array. */
    const dflt: T
    var buffers: seq<BufferInfo<T>>
    var emptySlots: int
    ghost var view: seq<Chunk<T>>
    ghost var Repr: set<object>

    /** Each buffer mirrored by `view`, buffers and arrays unshared, chunks within bounds. */
    ghost predicate Coupled()
      reads this`buffers, this`view, this`Repr, Repr - {this}
    {
      && this in Repr
      && |view| == |buffers|
      && (forall k :: 0 <= k < |buffers| ==>
            && buffers[k] in Repr && buffers[k].data in Repr
            && buffers[k].data.Length == BufferSize
            && view[k] == buffers[k].Snapshot())
      && (forall k, l :: 0 <= k < l < |buffers| ==>
            buffers[k] != buffers[l] && buffers[k].data != buffers[l].data)
    }

    /** The class invariant: the chunks fill front to back and `_emptySlots` counts the free slots. */
    ghost predicate Valid()
      reads this, Repr
    {
      && Coupled()
      && Counted(view, emptySlots)
    }

    /** A new list has no buffers (the buffer factory is not modelled). */
    constructor (dflt: T)
      ensures Valid() && fresh(Repr)
      ensures this.dflt == dflt && view == [] && emptySlots == 0
    {
      this.dflt := dflt;
      buffers := [];
      emptySlots := 0;
      view := [];
      Repr := {this};
    }

    /** `NewBuffer`: appends an empty chunk and adds its `BufferSize` slots to `_emptySlots`. */
    method NewBuffer()
      requires Valid()
      modifies this
      ensures Valid() && fresh(Repr - old(Repr))
      ensures view == old(view) + [EmptyChunk(dflt)]
      ensures emptySlots == old(emptySlots) + BufferSize
    {
      ghost var v0 := view;
      var b := new BufferInfo(dflt);
      buffers := buffers + [b];
      view := view + [EmptyChunk(dflt)];
      Repr := Repr + {b, b.data};
      emptySlots := emptySlots + BufferSize;
      AppendEmpty(v0, dflt);
    }

    /**
     * `Add`: allocates a chunk when `_emptySlots == 0`, then writes the vertex into the first
     * chunk that is not full.
     */
    method Add(item: T)
      requires Valid()
      modifies Repr
      ensures Valid() && fresh(Repr - old(Repr))
      ensures view == Added(old(view), item, dflt)
    {
      ghost var v0 := view;
      ItemsAndFree(v0);
      if emptySlots == 0 {
        NewBuffer();
      }
      ghost var grown := view;
      FillFirstOpen(item);
      AddedStep(v0, item, dflt, grown);
    }

    /** The `foreach` of `Add`: the item goes into the first chunk that is not full. */
    method FillFirstOpen(item: T)
      requires Valid() && emptySlots > 0
      modifies Repr
      ensures Valid() && Repr == old(Repr)
      ensures FirstOpen(old(view)) < |old(view)|
      ensures view == old(view)[FirstOpen(old(view)) := PushChunk(old(view)[FirstOpen(old(view))], item)]
    {
      var k := FindOpen();
      PushFirstOpen(view, item);
      emptySlots := emptySlots - 1;
      PushAt(k, item);
    }

    /**
     * The search of `Add`'s `foreach`: the first buffer with `Length < BufferSize`. It always
     * finds one, so the "should never get here" fall-through is unreachable.
     */
    method FindOpen() returns (k: int)
      requires Valid() && emptySlots > 0
      ensures k == FirstOpen(view) && k < |buffers| && 0 <= buffers[k].length < BufferSize
    {
      FreeZero(view);
      k := 0;
      while k < |buffers| && buffers[k].length >= BufferSize
        invariant 0 <= k <= FirstOpen(view) < |buffers|
      {
        assert view[k] == buffers[k].Snapshot();
        k := k + 1;
      }
      if k == |buffers| {
        assert false;
      }
      assert view[k] == buffers[k].Snapshot();
    }

    /** The body of `Add`'s search on the chunk it found: `b.Data[b.Length++] = data`. */
    method PushAt(k: int, item: T)
      requires Coupled() && 0 <= k < |buffers| && 0 <= buffers[k].length < BufferSize
      modifies buffers[k], buffers[k].data, this`view
      ensures Coupled() && buffers == old(buffers) && Repr == old(Repr)
      ensures view == old(view)[k := PushChunk(old(view)[k], item)]
    {
      var b := buffers[k];
      b.Push(item);
      view := view[k := b.Snapshot()];
    }

    /** `Clear`: keeps every buffer, empties it and marks it dirty; all slots become free. */
    method Clear()
      requires Valid()
      modifies Repr
      ensures Valid() && Repr == old(Repr)
      ensures view == Cleared(old(view)) && buffers == old(buffers)
    {
      ghost var v0 := view;
      var k := 0;
      while k < |buffers|
        invariant 0 <= k <= |buffers| && buffers == old(buffers) && Repr == old(Repr)
        invariant Coupled() && |view| == |v0|
        invariant forall j :: 0 <= j < k ==> view[j] == Chunk(v0[j].data, 0, true)
        invariant forall j :: k <= j < |view| ==> view[j] == v0[j]
      {
        ResetAt(k);
        k := k + 1;
      }
      assert view == Cleared(v0);
      ClearedSpec(v0);
      emptySlots := |buffers| * BufferSize;
    }

    /** One step of `Clear`'s loop: `b.Length = 0; b.Dirty = true;`. */
    method ResetAt(k: int)
      requires Coupled() && 0 <= k < |buffers|
      modifies buffers[k], this`view
      ensures Coupled() && buffers == old(buffers) && Repr == old(Repr)
      ensures view == old(view)[k := Chunk(old(view)[k].data, 0, true)]
    {
      var b := buffers[k];
      b.Reset();
      view := view[k := b.Snapshot()];
    }
  }
}
