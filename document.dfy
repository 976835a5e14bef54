/**
 * The editable document (Document/Models/EditablePalette.cs, EditableVoxelList.cs and
 * EditableModel.cs): a palette, the parts of a model, and the undo history they record into.
 *
 * Every undo delegate of the source is a `Command` value here. Invoking a command mutates the
 * object it names and returns the opposite command, as each delegate assigns its `redo`.
 * `UndoManager` itself is not part of this model beyond `AddModification`, which appends to
 * a history log.
 */
module Document {
  import opened Wrappers
  import opened VoxelStorage
  import VertexBuffers
  import opened Mesh
  import opened TagRuns
  import opened VoxelBatches

  /** A `System.Numerics.Vector3`; only assignment and equality of these are modelled. */
  datatype Vector3 = Vector3(x: real, y: real, z: real)

  /** The zero vector, `default(Vector3)`. */
  const Zero: Vector3 := Vector3(0.0, 0.0, 0.0)

  /** The value a part-field action puts back, by field. */
  datatype FieldValue =
    | ParentValue(parent: EditableVoxelList?)
    | BondNameValue(name: Option<string>)
    | BasePointValue(point: Vector3)
    | TranslationValue(translation: Vector3)

  /** Which field a value belongs to: parent, bond name, base point, translation. */
  function FieldIndex(v: FieldValue): (k: int)
    ensures 0 <= k < 4
  {
    match v
    case ParentValue(_) => 0
    case BondNameValue(_) => 1
    case BasePointValue(_) => 2
    case TranslationValue(_) => 3
  }

  /** `EditableModelMetadata`: three C# strings, each possibly null. */
  datatype Metadata = Metadata(name: Option<string>, author: Option<string>, comments: Option<string>)

  /** The undo delegates of the document, one variant per `CreateUndo*` of the source. */
  datatype Command =
    | SetField(part: EditableVoxelList, value: FieldValue)
    | VoxelBatch(owner: EditableVoxelList, data: seq<UndoData>, isUndo: bool)
    | PaletteSlot(palette: EditablePalette, index: int, color: Color)
    | PaletteGrow(grown: EditablePalette, oldSize: int)
    | PaletteShrink(shrunk: EditablePalette, backup: seq<Color>)
    | PartInsert(model: EditableModel, index: int)
    | PartRemove(from: EditableModel, at: int, removed: EditableVoxelList)
    | ModelMeta(edited: EditableModel, metadata: Metadata)

  /** One history entry: the description and the undo action passed to `AddModification`. */
  datatype Modification = Modification(description: string, action: Command)

  /** The history log that `AddModification` appends to. */
  class UndoManager {
    var history: seq<Modification>

    constructor ()
      ensures history == []
    {
      history := [];
    }

    method AddModification(description: string, action: Command)
      modifies this`history
      ensures history == old(history) + [Modification(description, action)]
    {
      history := history + [Modification(description, action)];
    }
  }

  // ---------------------------------------------------------------------------------------
  // EditablePalette

  /** `default(Color)`, which fills a freshly allocated colour array. */
  const EmptyColor: Color := Color(0, 0, 0, 0)

  /** `Take(n)`: the first `n` colours, none at all when `n` is not positive. */
  function Take(s: seq<Color>, n: int): (r: seq<Color>)
    ensures |r| == if n <= 0 then 0 else if n >= |s| then |s| else n
    ensures r == s[..|r|]
  {
    if n <= 0 then [] else if n >= |s| then s else s[..n]
  }

  /** `Concat(Repeat(Color.Transparent, n - |s|))`: `s` padded with transparent up to `n`. */
  function GrowTo(s: seq<Color>, n: int): (r: seq<Color>)
    requires n >= |s|
    ensures |r| == n && r[..|s|] == s
    ensures forall i :: |s| <= i < n ==> r[i] == Transparent
  {
    s + seq(n - |s|, _ => Transparent)
  }

  /** `Skip(n)`: the colours after the first `n`, all of them when `n` is not positive. */
  function Skip(s: seq<Color>, n: int): (r: seq<Color>)
    ensures |r| == if n <= 0 then |s| else if n >= |s| then 0 else |s| - n
    ensures r == s[|s| - |r|..]
  {
    if n <= 0 then s else if n >= |s| then [] else s[n..]
  }

  /**
   * Undoing a grow truncates back to the old length and restores the colours exactly. Its
   * redo is a shrink action whose backup is `Skip` of the grown colours by their own length,
   * which is empty, so redoing appends nothing and does not grow again.
   */
  lemma GrowUndoRedo(s: seq<Color>, n: int)
    requires n > |s|
    ensures Take(GrowTo(s, n), |s|) == s
    ensures var grown := GrowTo(s, n);
            Take(grown, |s|) + Skip(grown, |grown|) == s != grown
  {
    assert |GrowTo(s, n)| != |s|;
  }

  /**
   * `Take(n)` followed by `Skip(n)` gives back the colours, so a backup of `Skip(newSize)` would
   * undo a shrink. The backup recorded is `Skip(oldSize)`, which is empty: appending it to the
   * shrunk colours does not give them back.
   */
  lemma ShrinkUndoLosesColors(s: seq<Color>, n: int)
    requires n < |s| && s != []
    ensures Take(s, n) + Skip(s, n) == s
    ensures Skip(s, |s|) == [] && Take(s, n) + Skip(s, |s|) != s
  {
    assert |Take(s, n)| < |s|;
  }

  /** One palette list of a loaded model: `ColorList { Tags, Colors }`. */
  datatype ColorList = ColorList(tags: Option<string>, colors: seq<Color>)

  /** All colours of the lists, concatenated in order. */
  function Flatten(lists: seq<ColorList>): seq<Color>
    decreases |lists|
  {
    if |lists| == 0 then [] else Flatten(lists[..|lists| - 1]) + lists[|lists| - 1].colors
  }

  /** One run per list, covering that list's colours with its tags. */
  function RunsOf(lists: seq<ColorList>): (runs: seq<ColorMetadata>)
    ensures |runs| == |lists|
    ensures forall j :: 0 <= j < |lists| ==> runs[j] == ColorMetadata(|lists[j].colors|, lists[j].tags)
  {
    seq(|lists|, j requires 0 <= j < |lists| => ColorMetadata(|lists[j].colors|, lists[j].tags))
  }

  /** After loading, the runs cover exactly the colours: their counts sum to the colour count. */
  lemma {:induction false} RunsCoverColors(lists: seq<ColorList>)
    ensures Sum(RunsOf(lists)) == |Flatten(lists)|
    decreases |lists|
  {
    if |lists| > 0 {
      var init := lists[..|lists| - 1];
      RunsCoverColors(init);
      assert RunsOf(lists)[..|lists| - 1] == RunsOf(init);
    }
  }

  /** `EditablePalette`: the colour array `_colors` and the tag runs `_metadata`. */
  class EditablePalette {
    const undo: UndoManager
    var colors: array<Color>
    var metadata: seq<ColorMetadata>

    constructor (undo: UndoManager)
      ensures this.undo == undo && fresh(colors) && colors.Length == 0 && metadata == []
    {
      this.undo := undo;
      colors := new Color[0];
      metadata := [];
    }

    /** `GetColor`: indices past the end read as transparent; only the upper bound is checked. */
    function GetColor(index: int): (c: Color)
      reads this, colors
      requires index >= 0
      ensures index < colors.Length ==> c == colors[index]
      ensures index >= colors.Length ==> c == Transparent
    {
      PaletteColor(colors[..], index)
    }

    /**
     * `SetColor`: records "Modify palette." with the slot's old colour, even when it equals the
     * new one, then stores the new colour. An index outside the array throws before anything
     * is recorded.
     */
    method SetColor(index: int, newValue: Color) returns (r: Result<()>)
      modifies colors, undo`history
      ensures r.Fail? <==> !(0 <= index < colors.Length)
      ensures r.Fail? ==> r.error == IndexOutOfRangeException
                          && colors[..] == old(colors[..]) && undo.history == old(undo.history)
      ensures r.Ok? ==> && colors[..] == old(colors[..])[index := newValue]
                        && undo.history == old(undo.history)
                                           + [Modification("Modify palette.", PaletteSlot(this, index, old(colors[index])))]
    {
      if !(0 <= index < colors.Length) {
        return Fail(IndexOutOfRangeException);
      }
      undo.AddModification("Modify palette.", PaletteSlot(this, index, colors[index]));
      colors[index] := newValue;
      return Ok(());
    }

    /** The slot action: puts `color` back at `index`; its redo puts back the colour it replaced. */
    method InvokeSlot(index: int, color: Color) returns (r: Result<Command>)
      modifies colors
      ensures r.Fail? <==> !(0 <= index < colors.Length)
      ensures r.Fail? ==> r.error == IndexOutOfRangeException && colors[..] == old(colors[..])
      ensures r.Ok? ==> && colors[..] == old(colors[..])[index := color]
                        && r.value == PaletteSlot(this, index, old(colors[index]))
    {
      if !(0 <= index < colors.Length) {
        return Fail(IndexOutOfRangeException);
      }
      r := Ok(PaletteSlot(this, index, colors[index]));
      colors[index] := color;
    }

    /** `CreateUndoShink`: its backup is `Skip(oldSize)` of an array of length `oldSize`, always empty. */
    function ShrinkAction(): (c: Command)
      reads this, colors
      ensures c == PaletteShrink(this, [])
    {
      PaletteShrink(this, Skip(colors[..], colors.Length))
    }

    /**
     * `Resize`: nothing happens for the current length. Growing records "Resize palette."
     * with a grow action for the old length and pads with transparent; shrinking records a
     * shrink action and keeps the first `newSize` colours (none for a negative size).
     */
    method Resize(newSize: int)
      modifies this`colors, undo`history
      ensures newSize == old(colors.Length) ==> colors == old(colors) && undo.history == old(undo.history)
      ensures newSize > old(colors.Length) ==>
                && fresh(colors) && colors[..] == GrowTo(old(colors[..]), newSize)
                && undo.history == old(undo.history)
                                   + [Modification("Resize palette.", PaletteGrow(this, old(colors.Length)))]
      ensures newSize < old(colors.Length) ==>
                && fresh(colors) && colors[..] == Take(old(colors[..]), newSize)
                && undo.history == old(undo.history) + [Modification("Resize palette.", PaletteShrink(this, []))]
    {
      if newSize == colors.Length {
        return;
      }
      if newSize > colors.Length {
        undo.AddModification("Resize palette.", PaletteGrow(this, colors.Length));
        colors := FromSeq(GrowTo(colors[..], newSize));
      } else {
        undo.AddModification("Resize palette.", ShrinkAction());
        colors := FromSeq(Take(colors[..], newSize));
      }
    }

    /** The grow action: truncates to the length before the grow; its redo is a shrink action. */
    method InvokeGrow(oldSize: int) returns (redo: Command)
      modifies this`colors
      ensures fresh(colors) && colors[..] == Take(old(colors[..]), oldSize)
      ensures redo == PaletteShrink(this, [])
    {
      redo := ShrinkAction();
      colors := FromSeq(Take(colors[..], oldSize));
    }

    /** The shrink action: re-appends its backup; its redo is a grow action for the current length. */
    method InvokeShrink(backup: seq<Color>) returns (redo: Command)
      modifies this`colors
      ensures fresh(colors) && colors[..] == old(colors[..]) + backup
      ensures redo == PaletteGrow(this, old(colors.Length))
    {
      redo := PaletteGrow(this, colors.Length);
      colors := FromSeq(colors[..] + backup);
    }

    /**
     * `SetMetadata(start, end, tags)`: the single pass `SetMetadataPass` over the runs, in
     * place. The undo action it builds is dropped, so nothing is recorded.
     */
    method SetMetadata(start: int, end: int, tags: Option<string>) returns (r: Result<()>)
      modifies this`metadata
      ensures metadata == SetMetadataPass(old(metadata), start, end, tags).runs
      ensures r.Fail? <==> SetMetadataPass(old(metadata), start, end, tags).thrown
      ensures r.Fail? ==> r.error == ArgumentOutOfRangeException
    {
      var i, ci := 0, 0;
      while i < |metadata|
        invariant 0 <= i <= |metadata|
        invariant TagPass(metadata, i, ci, start, end, tags) == SetMetadataPass(old(metadata), start, end, tags)
        decreases |metadata| - i
      {
        if ci + metadata[i].count >= start {
          if ci + metadata[i].count >= end {
            if ci + metadata[i].count > end {
              metadata := metadata[i := ColorMetadata(ci + metadata[i].count - end, metadata[i].tags)];
            }
            metadata := metadata[..i] + [ColorMetadata(end - start, tags)] + metadata[i..];
            return Ok(());
          }
          if ci < start {
            metadata := metadata[i := ColorMetadata(start - ci, metadata[i].tags)];
          } else {
            metadata := metadata[..i] + metadata[i + 1..];
          }
        }
        if i >= |metadata| {
          return Fail(ArgumentOutOfRangeException);
        }
        ci := ci + metadata[i].count;
        i := i + 1;
      }
      return Ok(());
    }

    /**
     * `LoadFromModel`: the colours of all lists in order, and one run per list. The runs then
     * cover exactly the colours (`RunsCoverColors`). Nothing is recorded.
     */
    method LoadFromModel(lists: seq<ColorList>)
      modifies this
      ensures fresh(colors) && colors[..] == Flatten(lists)
      ensures metadata == RunsOf(lists)
    {
      var total := TotalLength(lists);
      colors := new Color[total](_ => EmptyColor);
      metadata := [];
      var p := 0;
      for li := 0 to |lists|
        invariant fresh(colors) && colors.Length == total
        invariant p == |Flatten(lists[..li])| <= total
        invariant colors[..p] == Flatten(lists[..li])
        invariant metadata == RunsOf(lists[..li])
      {
        FlattenPrefix(lists, li);
        CopyInto(colors, p, lists[li].colors);
        p := p + |lists[li].colors|;
        metadata := metadata + [ColorMetadata(|lists[li].colors|, lists[li].tags)];
      }
      assert lists[..|lists|] == lists;
      assert colors[..] == colors[..p];
    }
  }

  lemma AppendAssoc<T>(a: seq<T>, b: seq<T>, c: seq<T>)
    ensures a + b + c == a + (b + c)
  {
  }

  /** A fresh array holding `s`. */
  method FromSeq(s: seq<Color>) returns (a: array<Color>)
    ensures fresh(a) && a[..] == s
  {
    a := new Color[|s|](i requires 0 <= i < |s| => s[i]);
  }

  /** `colorLists.Sum(l => l.Colors.Length)`. */
  function TotalLength(lists: seq<ColorList>): (n: int)
    ensures n == |Flatten(lists)|
    decreases |lists|
  {
    if |lists| == 0 then 0 else TotalLength(lists[..|lists| - 1]) + |lists[|lists| - 1].colors|
  }

  /** One more list adds its colours after the earlier ones, and fits in the total. */
  lemma FlattenPrefix(lists: seq<ColorList>, li: int)
    requires 0 <= li < |lists|
    ensures Flatten(lists[..li + 1]) == Flatten(lists[..li]) + lists[li].colors
    ensures |Flatten(lists[..li + 1])| <= |Flatten(lists)|
  {
    assert lists[..li + 1][..li] == lists[..li];
    FlattenMonotone(lists, li + 1);
  }

  lemma {:induction false} FlattenMonotone(lists: seq<ColorList>, k: int)
    requires 0 <= k <= |lists|
    ensures |Flatten(lists[..k])| <= |Flatten(lists)|
    decreases |lists| - k
  {
    if k < |lists| {
      FlattenMonotone(lists, k + 1);
      assert lists[..k + 1][..k] == lists[..k];
    } else {
      assert lists[..k] == lists;
    }
  }

  /** The inner `foreach` of `LoadFromModel`: copies `src` into `a` from position `p` on. */
  method CopyInto(a: array<Color>, p: int, src: seq<Color>)
    requires 0 <= p && p + |src| <= a.Length
    modifies a
    ensures a[..p + |src|] == old(a[..p]) + src
  {
    var q := p;
    for ci := 0 to |src|
      invariant q == p + ci
      invariant a[..q] == old(a[..p]) + src[..ci]
    {
      a[q] := src[ci];
      q := q + 1;
    }
  }

  // ---------------------------------------------------------------------------------------
  // EditableVoxelList

  /** `default(Voxel)`: the contents of freshly allocated vertex arrays. */
  const NoFace: Face := Face(0, 0, 0, 0, FaceColor(0, 0, 0))

  /** Whether a cell holds a voxel in the store `view`. */
  ghost function Occupancy(view: seq<BlockView<int>>): Cell -> bool
  {
    c => WellFormed(view) && Lookup(view, c).Some?
  }

  /**
   * The mesh `UpdateAll` rebuilds from a store holds exactly the visible faces: face `d` of
   * every stored voxel `c` whose neighbour in direction `d` holds no voxel, in the palette colour
   * of `c`'s value.
   */
  lemma VisibleFaces(view: seq<BlockView<int>>, colors: seq<Color>)
    requires WellFormed(view)
    requires forall j :: 0 <= j < |Enumerate(view)| ==> Enumerate(view)[j].value >= 0
    ensures forall f :: f in AllFaces(Occupancy(view), colors, Enumerate(view)) <==>
              exists c, v :: Lookup(view, c) == Some(v) && v >= 0 && 0 <= f.dir < 6
                          && Lookup(view, Neighbour(c, f.dir)) == None
                          && f == FaceAt(c, f.dir, Opaque(PaletteColor(colors, v)))
  {
    forall f | f in AllFaces(Occupancy(view), colors, Enumerate(view))
      ensures exists c, v :: Lookup(view, c) == Some(v) && v >= 0 && 0 <= f.dir < 6
                          && Lookup(view, Neighbour(c, f.dir)) == None
                          && f == FaceAt(c, f.dir, Opaque(PaletteColor(colors, v)))
    {
      var c, v := VisibleFaceSource(view, colors, f);
    }
    forall f: Face, c: Cell, v: int | Lookup(view, c) == Some(v) && v >= 0 && 0 <= f.dir < 6
                     && Lookup(view, Neighbour(c, f.dir)) == None
                     && f == FaceAt(c, f.dir, Opaque(PaletteColor(colors, v)))
      ensures f in AllFaces(Occupancy(view), colors, Enumerate(view))
    {
      VisibleFaceIn(view, colors, c, v, f.dir);
    }
  }

  /** Each face of the rebuilt mesh is face `f.dir` of a stored voxel with no voxel beyond it. */
  lemma VisibleFaceSource(view: seq<BlockView<int>>, colors: seq<Color>, f: Face) returns (c: Cell, v: int)
    requires WellFormed(view)
    requires forall j :: 0 <= j < |Enumerate(view)| ==> Enumerate(view)[j].value >= 0
    requires f in AllFaces(Occupancy(view), colors, Enumerate(view))
    ensures Lookup(view, c) == Some(v) && v >= 0 && 0 <= f.dir < 6 && Lookup(view, Neighbour(c, f.dir)) == None
    ensures f == FaceAt(c, f.dir, Opaque(PaletteColor(colors, v)))
  {
    var items := Enumerate(view);
    var j := AllFacesSource(Occupancy(view), colors, items, f);
    c, v := CellOf(items[j]), items[j].value;
    EnumerateExact(view);
    assert items[j] in items;
  }

  /** Face `d` of a stored voxel with no voxel beyond it is in the rebuilt mesh. */
  lemma VisibleFaceIn(view: seq<BlockView<int>>, colors: seq<Color>, c: Cell, v: int, d: int)
    requires WellFormed(view)
    requires forall j :: 0 <= j < |Enumerate(view)| ==> Enumerate(view)[j].value >= 0
    requires Lookup(view, c) == Some(v) && v >= 0 && 0 <= d < 6 && Lookup(view, Neighbour(c, d)) == None
    ensures FaceAt(c, d, Opaque(PaletteColor(colors, v))) in AllFaces(Occupancy(view), colors, Enumerate(view))
  {
    var items := Enumerate(view);
    var kv := KeyValuePair(c.x, c.y, c.z, v);
    EnumerateExact(view);
    assert CellOf(kv) == c && kv in items;
    var j :| 0 <= j < |items| && items[j] == kv;
    AllFacesVisible(Occupancy(view), colors, items, j, d);
  }

  /**
   * Rebuilding the mesh of a store that only gained empty blocks gives the same faces: a second
   * `UpdateAll` right after the first leaves the mesh as it was.
   */
  lemma RebuildSame(view: seq<BlockView<int>>, w: seq<BlockView<int>>, colors: seq<Color>)
    requires WellFormed(view) && WellFormed(w) && Extends(view, w) && |w| < IntMax
    requires forall j :: 0 <= j < |Enumerate(view)| ==> Enumerate(view)[j].value >= 0
    ensures Enumerate(w) == Enumerate(view)
    ensures AllFaces(Occupancy(w), colors, Enumerate(w)) == AllFaces(Occupancy(view), colors, Enumerate(view))
  {
    ExtendsRest(view, w, -1, 0);
    var items := Enumerate(view);
    forall j, d | 0 <= j < |items| && 0 <= d < 6
      ensures Occupancy(view)(Neighbour(CellOf(items[j]), d)) == Occupancy(w)(Neighbour(CellOf(items[j]), d))
    {
      ExtendsLookup(view, w, Neighbour(CellOf(items[j]), d));
    }
    AllFacesSame(Occupancy(view), Occupancy(w), colors, items);
  }

  /** One voxel of a loaded part: `VoxelData { X, Y, Z, Color }`. */
  datatype VoxelData = VoxelData(x: int, y: int, z: int, color: int)

  /** A part of a loaded model: `VoxelModelPart`. */
  datatype VoxelModelPart = VoxelModelPart(
    parentId: int, boneName: Option<string>, voxels: seq<VoxelData>, basePoint: Vector3, translation: Vector3)

  /** The store after `LoadFromModel`'s loop: each voxel written in turn into an empty store. */
  ghost function LoadedView(voxels: seq<VoxelData>): (r: seq<BlockView<int>>)
    ensures WellFormed(r) && |r| <= |voxels|
    decreases |voxels|
  {
    if |voxels| == 0 then []
    else
      var d := voxels[|voxels| - 1];
      SetCell(LoadedView(voxels[..|voxels| - 1]), Cell(d.x, d.y, d.z), d.color, 0)
  }

  /** The first `k + 1` elements are the first `k` and element `k`. */
  lemma PrefixMembers<T>(s: seq<T>, k: int)
    requires 0 <= k < |s|
    ensures forall x :: x in s[..k + 1] <==> x in s[..k] || x == s[k]
  {
    assert s[..k + 1] == s[..k] + [s[k]];
  }

  /** A sequence is its own longest prefix. */
  lemma WholePrefix<T>(s: seq<T>)
    ensures s[..|s|] == s
  {
  }

  /** One more listed voxel is one more `SetCell` on the view loaded so far. */
  lemma LoadedViewStep(voxels: seq<VoxelData>, j: int)
    requires 0 <= j < |voxels|
    ensures LoadedView(voxels[..j + 1])
         == SetCell(LoadedView(voxels[..j]), Cell(voxels[j].x, voxels[j].y, voxels[j].z), voxels[j].color, 0)
  {
    assert voxels[..j + 1][..j] == voxels[..j];
  }

  /** The colour of the last voxel listed at `c`, if any. */
  function LastColor(voxels: seq<VoxelData>, c: Cell): Option<int>
    decreases |voxels|
  {
    if |voxels| == 0 then None
    else if Cell(voxels[|voxels| - 1].x, voxels[|voxels| - 1].y, voxels[|voxels| - 1].z) == c then Some(voxels[|voxels| - 1].color)
    else LastColor(voxels[..|voxels| - 1], c)
  }

  /** A loaded part holds at each cell the colour of the last voxel listed there, and only those cells. */
  lemma {:induction false} LoadedLookup(voxels: seq<VoxelData>, c: Cell)
    ensures Lookup(LoadedView(voxels), c) == LastColor(voxels, c)
    decreases |voxels|
  {
    if |voxels| > 0 {
      var d := voxels[|voxels| - 1];
      LoadedLookup(voxels[..|voxels| - 1], c);
      LookupSetCell(LoadedView(voxels[..|voxels| - 1]), Cell(d.x, d.y, d.z), d.color, 0, c);
    }
  }

  /** The last colour listed at a cell is one of the listed colours. */
  lemma {:induction false} LastColorListed(voxels: seq<VoxelData>, c: Cell)
    ensures LastColor(voxels, c).Some? ==> exists j :: 0 <= j < |voxels| && voxels[j].color == LastColor(voxels, c).value
    decreases |voxels|
  {
    if |voxels| > 0 && Cell(voxels[|voxels| - 1].x, voxels[|voxels| - 1].y, voxels[|voxels| - 1].z) != c {
      LastColorListed(voxels[..|voxels| - 1], c);
      if LastColor(voxels, c).Some? {
        var j :| 0 <= j < |voxels| - 1 && voxels[..|voxels| - 1][j].color == LastColor(voxels, c).value;
        assert voxels[j].color == LastColor(voxels, c).value;
      }
    }
  }

  /** The enumeration of a loaded part only yields listed colours, so none is negative. */
  lemma LoadedColorsNonNegative(voxels: seq<VoxelData>)
    requires forall j :: 0 <= j < |voxels| ==> voxels[j].color >= 0
    ensures forall j :: 0 <= j < |Enumerate(LoadedView(voxels))| ==> Enumerate(LoadedView(voxels))[j].value >= 0
  {
    var items := Enumerate(LoadedView(voxels));
    EnumerateExact(LoadedView(voxels));
    forall j | 0 <= j < |items| ensures items[j].value >= 0 {
      assert items[j] in items;
      LoadedLookup(voxels, CellOf(items[j]));
      LastColorListed(voxels, CellOf(items[j]));
    }
  }

  /** The cells the voxel list names. */
  ghost function ListedCells(voxels: seq<VoxelData>): set<Cell>
    decreases |voxels|
  {
    if |voxels| == 0 then {}
    else ListedCells(voxels[..|voxels| - 1]) + {Cell(voxels[|voxels| - 1].x, voxels[|voxels| - 1].y, voxels[|voxels| - 1].z)}
  }

  /** A list of n voxels names at most n cells, and every cell with a listed colour is named. */
  lemma {:induction false} ListedCellsCount(voxels: seq<VoxelData>, c: Cell)
    ensures |ListedCells(voxels)| <= |voxels|
    ensures LastColor(voxels, c).Some? ==> c in ListedCells(voxels)
    decreases |voxels|
  {
    if |voxels| > 0 {
      ListedCellsCount(voxels[..|voxels| - 1], c);
    }
  }

  /** Items whose cells are distinct and all in `cells` are at most as many as `cells`. */
  lemma {:induction false} DistinctItemsBound(items: seq<KeyValuePair<int>>, cells: set<Cell>)
    requires forall a, b :: 0 <= a < b < |items| ==> CellOf(items[a]) != CellOf(items[b])
    requires forall j :: 0 <= j < |items| ==> CellOf(items[j]) in cells
    ensures |items| <= |cells|
    decreases |items|
  {
    if |items| > 0 {
      var last := CellOf(items[|items| - 1]);
      var rest := items[..|items| - 1];
      forall j | 0 <= j < |rest| ensures CellOf(rest[j]) in cells - {last} {
        assert rest[j] == items[j];
      }
      DistinctItemsBound(rest, cells - {last});
    }
  }

  /** A loaded part holds at most one voxel per listed voxel. */
  lemma LoadedCount(voxels: seq<VoxelData>)
    ensures |Enumerate(LoadedView(voxels))| <= |voxels|
  {
    var items := Enumerate(LoadedView(voxels));
    EnumerateExact(LoadedView(voxels));
    forall j | 0 <= j < |items| ensures CellOf(items[j]) in ListedCells(voxels) {
      assert items[j] in items;
      LoadedLookup(voxels, CellOf(items[j]));
      ListedCellsCount(voxels, CellOf(items[j]));
    }
    DistinctItemsBound(items, ListedCells(voxels));
    ListedCellsCount(voxels, Cell(0, 0, 0));
  }

  /**
   * `EditableVoxelList`: one part. `store` holds the colour index of each voxel, `buffers` the
   * visible faces; `undoBuffer` collects the edits of the batch not yet flushed.
   */
  class EditableVoxelList {
    const undo: UndoManager
    const palette: EditablePalette?
    const store: VoxelDataStorage<int>
    const buffers: VertexBuffers.VertexBufferList<Face>
    var parent: EditableVoxelList?
    var bondName: Option<string>
    var basePoint: Vector3
    var translation: Vector3
    var minX: int
    var maxX: int
    var minY: int
    var maxY: int
    var minZ: int
    var maxZ: int
    var boundInitialized: bool
    var undoBuffer: seq<UndoData>

    /** The store and the buffers are valid, unshared, and own neither this part nor its history. */
    ghost predicate Valid()
      reads store, store.Repr, buffers, buffers.Repr
    {
      && store.Valid() && buffers.Valid()
      && store.Repr !! buffers.Repr
      && this !in store.Repr && this !in buffers.Repr
      && undo !in store.Repr && undo !in buffers.Repr
      && store.defaultValue == 0
    }

    /** The palette is there, and updating the mesh cannot change it. */
    ghost predicate Apart()
      reads store, buffers, palette
    {
      && palette != null
      && palette !in store.Repr && palette !in buffers.Repr
      && palette.colors !in store.Repr && palette.colors !in buffers.Repr
    }

    /** The objects this part owns. */
    ghost function Footprint(): set<object>
      reads store, buffers
    {
      {this} + store.Repr + buffers.Repr
    }

    /** The faces in the vertex buffers, in the order they were added. */
    ghost function Faces(): seq<Face>
      reads store, store.Repr, buffers, buffers.Repr
      requires Valid()
    {
      VertexBuffers.Items(buffers.view)
    }

    /** `MinX` … `MaxZ`, once `_boundInitialized`. */
    ghost function Bound(): Option<Box>
      reads this`boundInitialized, this`minX, this`maxX, this`minY, this`maxY, this`minZ, this`maxZ
    {
      if boundInitialized then Some(Box(minX, maxX, minY, maxY, minZ, maxZ)) else None
    }

    /** `MinX` … `MaxZ` as they stand, initialised or not. */
    function Extents(): Box
      reads this`minX, this`maxX, this`minY, this`maxY, this`minZ, this`maxZ
    {
      Box(minX, maxX, minY, maxY, minZ, maxZ)
    }

    /** Everything of the part's own state except its parent. */
    function Unparented(): OtherFields
      reads this`bondName, this`basePoint, this`translation, this`boundInitialized, this`undoBuffer
      reads this`minX, this`maxX, this`minY, this`maxY, this`minZ, this`maxZ
    {
      (bondName, basePoint, translation, Extents(), boundInitialized, undoBuffer)
    }

    /** The four recorded fields, in the order of `FieldIndex`. */
    function Fields(): (f: seq<FieldValue>)
      reads this
      ensures |f| == 4 && forall k :: 0 <= k < 4 ==> FieldIndex(f[k]) == k
    {
      [ParentValue(parent), BondNameValue(bondName), BasePointValue(basePoint), TranslationValue(translation)]
    }

    constructor (undo: UndoManager, palette: EditablePalette?)
      ensures Valid() && fresh(store) && fresh(store.Repr) && fresh(buffers) && fresh(buffers.Repr)
      ensures this.undo == undo && this.palette == palette
      ensures Fields() == [ParentValue(null), BondNameValue(None), BasePointValue(Zero), TranslationValue(Zero)]
      ensures Bound() == None && undoBuffer == []
      ensures store.view == [] && Faces() == []
    {
      this.undo := undo;
      this.palette := palette;
      store := new VoxelDataStorage(0);
      buffers := new VertexBuffers.VertexBufferList(NoFace);
      parent := null;
      bondName := None;
      basePoint := Zero;
      translation := Zero;
      minX, maxX, minY, maxY, minZ, maxZ := 0, 0, 0, 0, 0, 0;
      boundInitialized := false;
      undoBuffer := [];
    }

    /** The `Parent` setter: records "Change parent." with the old parent, only on a change. */
    method SetParent(value: EditableVoxelList?)
      modifies this`parent, undo`history
      ensures Fields() == old(Fields())[0 := ParentValue(value)]
      ensures undo.history == old(undo.history)
                + (if old(parent) == value then []
                   else [Modification("Change parent.", SetField(this, ParentValue(old(parent))))])
    {
      if parent != value {
        undo.AddModification("Change parent.", SetField(this, ParentValue(parent)));
        parent := value;
      }
    }

    /** The `BondName` setter: records "Modify bond name." with the old name, only on a change. */
    method SetBondName(value: Option<string>)
      modifies this`bondName, undo`history
      ensures Fields() == old(Fields())[1 := BondNameValue(value)]
      ensures undo.history == old(undo.history)
                + (if old(bondName) == value then []
                   else [Modification("Modify bond name.", SetField(this, BondNameValue(old(bondName))))])
    {
      if bondName != value {
        undo.AddModification("Modify bond name.", SetField(this, BondNameValue(bondName)));
        bondName := value;
      }
    }

    /** The `BasePoint` setter: records "Modify base point." with the old point, only on a change. */
    method SetBasePoint(value: Vector3)
      modifies this`basePoint, undo`history
      ensures Fields() == old(Fields())[2 := BasePointValue(value)]
      ensures undo.history == old(undo.history)
                + (if old(basePoint) == value then []
                   else [Modification("Modify base point.", SetField(this, BasePointValue(old(basePoint))))])
    {
      if basePoint != value {
        undo.AddModification("Modify base point.", SetField(this, BasePointValue(basePoint)));
        basePoint := value;
      }
    }

    /** The `Translation` setter: records "Modify translation." with the old value, only on a change. */
    method SetTranslation(value: Vector3)
      modifies this`translation, undo`history
      ensures Fields() == old(Fields())[3 := TranslationValue(value)]
      ensures undo.history == old(undo.history)
                + (if old(translation) == value then []
                   else [Modification("Modify translation.", SetField(this, TranslationValue(old(translation))))])
    {
      if translation != value {
        undo.AddModification("Modify translation.", SetField(this, TranslationValue(translation)));
        translation := value;
      }
    }

    /**
     * A field action: puts `value` back into its field and returns the action that restores
     * the value it replaced. Nothing is recorded.
     */
    method InvokeField(value: FieldValue) returns (redo: Command)
      modifies this`parent, this`bondName, this`basePoint, this`translation
      ensures Fields() == old(Fields())[FieldIndex(value) := value]
      ensures redo == SetField(this, old(Fields())[FieldIndex(value)])
    {
      redo := SetField(this, Fields()[FieldIndex(value)]);
      match value
      case ParentValue(p) => parent := p;
      case BondNameValue(n) => bondName := n;
      case BasePointValue(b) => basePoint := b;
      case TranslationValue(t) => translation := t;
    }

    /**
     * `AddVoxel`: the edit, logged in the batch, then `UpdateVoxel`. The new voxel's faces are
     * appended; faces it now hides, and the faces of a voxel it overwrites, stay in the buffers.
     */
    method AddVoxel(x: int, y: int, z: int, c: int)
      requires Valid() && Apart() && c >= 0
      modifies this`undoBuffer, store.Repr, buffers.Repr
      modifies this`minX, this`maxX, this`minY, this`maxY, this`minZ, this`maxZ, this`boundInitialized
      ensures Valid() && Apart() && (forall o :: o in store.Repr ==> o in old(store.Repr) || fresh(o)) && (forall o :: o in buffers.Repr ==> o in old(buffers.Repr) || fresh(o))
      ensures undoBuffer == old(undoBuffer) + [UndoData(x, y, z, Lookup(old(store.view), Cell(x, y, z)), Some(c))]
      ensures forall d :: Lookup(store.view, d) == Lookup(SetCell(old(store.view), Cell(x, y, z), c, 0), d)
      ensures Bound() == Some(Widen(old(Bound()), Cell(x, y, z)))
      ensures Faces() == old(Faces()) + FaceList(Cell(x, y, z), Opaque(palette.GetColor(c)),
                                                  Around(Cell(x, y, z), Occupancy(SetCell(old(store.view), Cell(x, y, z), c, 0))))
    {
      ghost var v0 := store.view;
      AddVoxelWithoutUpdating(x, y, z, c);
      ghost var mid := store.view;
      UpdateVoxel(x, y, z, c, mid);
      ghost var written := SetCell(v0, Cell(x, y, z), c, 0);
      forall d ensures Lookup(store.view, d) == Lookup(written, d) {
        ExtendsLookup(mid, store.view, d);
      }
      assert WellFormed(mid) && WellFormed(written);
      assert forall d :: Occupancy(mid)(d) == Occupancy(written)(d);
      AroundSame(Cell(x, y, z), Occupancy(mid), Occupancy(written));
    }

    /** `CreateUndoData`: the cell's colour before the edit (via `TryGet`) and after it. */
    method CreateUndoData(x: int, y: int, z: int, c: Option<int>) returns (d: UndoData)
      requires Valid()
      modifies store
      ensures Valid() && (forall o :: o in store.Repr ==> o in old(store.Repr) || fresh(o))
      ensures store.view == EnsureBlock(old(store.view), BlockCoord(x), BlockCoord(y), BlockCoord(z), 0)
      ensures d == UndoData(x, y, z, Lookup(old(store.view), Cell(x, y, z)), c)
    {
      var found, oldC := store.TryGet(x, y, z);
      d := UndoData(x, y, z, if found then Some(oldC) else None, c);
    }

    /** The first statement of the two edits: `_undoBuffer.Add(CreateUndoData(...))`. */
    method LogEdit(x: int, y: int, z: int, c: Option<int>)
      requires Valid()
      modifies this`undoBuffer, store
      ensures Valid() && (forall o :: o in store.Repr ==> o in old(store.Repr) || fresh(o))
      ensures store.view == EnsureBlock(old(store.view), BlockCoord(x), BlockCoord(y), BlockCoord(z), 0)
      ensures undoBuffer == old(undoBuffer) + [UndoData(x, y, z, Lookup(old(store.view), Cell(x, y, z)), c)]
    {
      var e := CreateUndoData(x, y, z, c);
      undoBuffer := undoBuffer + [e];
    }

    /** `AddVoxelWithoutUpdating`: logs the edit in the batch, then stores the colour. */
    method AddVoxelWithoutUpdating(x: int, y: int, z: int, c: int)
      requires Valid()
      modifies this`undoBuffer, store.Repr
      ensures Valid() && (forall o :: o in store.Repr ==> o in old(store.Repr) || fresh(o))
      ensures undoBuffer == old(undoBuffer) + [UndoData(x, y, z, Lookup(old(store.view), Cell(x, y, z)), Some(c))]
      ensures forall d :: Lookup(store.view, d) == Lookup(SetCell(old(store.view), Cell(x, y, z), c, 0), d)
    {
      ghost var v0 := store.view;
      LogEdit(x, y, z, Some(c));
      store.AddAndSet(x, y, z, c);
      SetCellEnsured(v0, BlockCoord(x), BlockCoord(y), BlockCoord(z), Cell(x, y, z), c, 0);
    }

    /** `RemoveVoxelWithoutUpdating`: logs the edit in the batch, then clears the cell. */
    method RemoveVoxelWithoutUpdating(x: int, y: int, z: int)
      requires Valid()
      modifies this`undoBuffer, store.Repr
      ensures Valid() && (forall o :: o in store.Repr ==> o in old(store.Repr) || fresh(o))
      ensures undoBuffer == old(undoBuffer) + [UndoData(x, y, z, Lookup(old(store.view), Cell(x, y, z)), None)]
      ensures forall d :: Lookup(store.view, d) == Lookup(ClearCell(old(store.view), Cell(x, y, z), 0), d)
    {
      ghost var v0 := store.view;
      LogEdit(x, y, z, None);
      store.RemoveAt(x, y, z);
      ClearCellEnsured(v0, BlockCoord(x), BlockCoord(y), BlockCoord(z), Cell(x, y, z), 0);
    }

    /** `FlushUndoAction`: records the batch as one "Modify voxel." undo action and empties it. */
    method FlushUndoAction()
      modifies this`undoBuffer, undo`history
      ensures undo.history == old(undo.history) + [Modification("Modify voxel.", VoxelBatch(this, old(undoBuffer), true))]
      ensures undoBuffer == []
    {
      undo.AddModification("Modify voxel.", VoxelBatch(this, undoBuffer, true));
      undoBuffer := [];
    }

    /**
     * A batch action: writes each entry's old colour (`isUndo`) or new colour, first entry
     * first, and returns the same batch in the other direction. The mesh is not updated.
     */
    method InvokeBatch(data: seq<UndoData>, isUndo: bool) returns (redo: Command)
      requires Valid()
      modifies store.Repr
      ensures Valid() && (forall o :: o in store.Repr ==> o in old(store.Repr) || fresh(o))
      ensures store.view == Replay(old(store.view), data, isUndo, 0)
      ensures redo == VoxelBatch(this, data, !isUndo)
    {
      redo := VoxelBatch(this, data, !isUndo);
      ghost var v0 := store.view;
      for j := 0 to |data|
        invariant Valid() && (forall o :: o in store.Repr ==> o in old(store.Repr) || fresh(o))
        invariant store.view == Replay(v0, data[..j], isUndo, 0)
      {
        ApplyEntryAt(data[j], isUndo);
        ReplayStep(v0, data, j, isUndo, 0);
      }
      assert data[..|data|] == data;
    }

    /** The body of the batch action's `foreach`: write the chosen colour, or remove the cell. */
    method ApplyEntryAt(d: UndoData, isUndo: bool)
      requires Valid()
      modifies store.Repr
      ensures Valid() && (forall o :: o in store.Repr ==> o in old(store.Repr) || fresh(o))
      ensures store.view == ApplyEntry(old(store.view), d, isUndo, 0)
    {
      var c := if isUndo then d.c1 else d.c2;
      if c.Some? {
        store.AddAndSet(d.x, d.y, d.z, c.value);
      } else {
        store.RemoveAt(d.x, d.y, d.z);
      }
    }

    /**
     * `UpdateAll`: empties the vertex buffers, forgets the bounds, and runs `UpdateVoxel` on each
     * cell the store enumerates, in enumeration order. When the store is empty the bounds stay
     * as they were but are no longer initialised.
     */
    method UpdateAll()
      requires Valid() && Apart()
      requires forall j :: 0 <= j < |Enumerate(store.view)| ==> Enumerate(store.view)[j].value >= 0
      requires |store.blocks| + 6 * |Enumerate(store.view)| < IntMax
      modifies this`minX, this`maxX, this`minY, this`maxY, this`minZ, this`maxZ, this`boundInitialized
      modifies store, buffers.Repr
      ensures Valid() && Apart() && (forall o :: o in store.Repr ==> o in old(store.Repr) || fresh(o)) && (forall o :: o in buffers.Repr ==> o in old(buffers.Repr) || fresh(o))
      ensures Extends(old(store.view), store.view)
      ensures Faces() == AllFaces(Occupancy(old(store.view)), palette.colors[..], Enumerate(old(store.view)))
      ensures Bound() == Bounds(None, Enumerate(old(store.view)))
      ensures Bound() == None ==> (minX, maxX, minY, maxY, minZ, maxZ) == old((minX, maxX, minY, maxY, minZ, maxZ))
    {
      ghost var v0 := store.view;
      ghost var colors := palette.colors[..];
      var e := StartScan();
      ghost var done: seq<KeyValuePair<int>> := [];
      var more := true;
      while more
        invariant forall o :: o in store.Repr ==> o in old(store.Repr) || fresh(o)
        invariant forall o :: o in buffers.Repr ==> o in old(buffers.Repr) || fresh(o)
        invariant Scanning(v0, colors, done) && Tracks(e)
        invariant forall j :: 0 <= j < |Enumerate(v0)| ==> Enumerate(v0)[j].value >= 0
        invariant more ==> && e.blockIndex != IntMax && done + e.Rest() == Enumerate(v0)
                           && |store.blocks| + 6 * |e.Rest()| < IntMax
        invariant !more ==> done == Enumerate(v0)
        invariant done == [] ==> (minX, maxX, minY, maxY, minZ, maxZ) == old((minX, maxX, minY, maxY, minZ, maxZ))
        decreases if more then |e.Rest()| + 1 else 0
      {
        more, done := ScanStep(e, v0, colors, done);
      }
    }

    /** The start of `UpdateAll`: empty buffers, no bounds, and an enumerator before the first cell. */
    method StartScan() returns (e: Enumerator<int>)
      requires Valid() && Apart() && |store.blocks| < IntMax
      modifies this`boundInitialized, buffers.Repr
      ensures (forall o :: o in buffers.Repr ==> o in old(buffers.Repr) || fresh(o)) && store.Repr == old(store.Repr)
      ensures Scanning(store.view, palette.colors[..], []) && Tracks(e)
      ensures store.view == old(store.view) && fresh(e) && e.blockIndex == -1 && e.Rest() == Enumerate(store.view)
    {
      ghost var w := buffers.view;
      buffers.Clear();
      VertexBuffers.ClearedSpec(w);
      boundInitialized := false;
      e := store.GetEnumerator();
    }

    /** One turn of the `UpdateAll` loop: `MoveNext`, then `UpdateVoxel` on the current cell. */
    method ScanStep(e: Enumerator<int>, ghost v0: seq<BlockView<int>>, ghost colors: seq<Color>,
                    ghost done: seq<KeyValuePair<int>>) returns (more: bool, ghost done': seq<KeyValuePair<int>>)
      requires Scanning(v0, colors, done) && Tracks(e) && e.blockIndex != IntMax
      requires done + e.Rest() == Enumerate(v0) && |store.blocks| + 6 * |e.Rest()| < IntMax
      requires forall j :: 0 <= j < |Enumerate(v0)| ==> Enumerate(v0)[j].value >= 0
      modifies this`minX, this`maxX, this`minY, this`maxY, this`minZ, this`maxZ, this`boundInitialized
      modifies store, buffers.Repr, e
      ensures (forall o :: o in store.Repr ==> o in old(store.Repr) || fresh(o)) && (forall o :: o in buffers.Repr ==> o in old(buffers.Repr) || fresh(o))
      ensures Scanning(v0, colors, done') && Tracks(e)
      ensures more ==> && e.blockIndex != IntMax && |e.Rest()| < old(|e.Rest()|) && done' != []
                       && done' + e.Rest() == Enumerate(v0) && |store.blocks| + 6 * |e.Rest()| < IntMax
      ensures !more ==> done' == done == Enumerate(v0)
      ensures !more ==> (minX, maxX, minY, maxY, minZ, maxZ) == old((minX, maxX, minY, maxY, minZ, maxZ))
    {
      ghost var rest := e.Rest();
      more := Advance(e, v0, colors, done);
      if !more {
        return false, done;
      }
      var kv := e.Current().value;
      NextVisited(done, kv, rest, e.Rest(), Enumerate(v0));
      VisitVoxel(e, kv, v0, colors, done);
      more, done' := true, done + [kv];
    }

    /** The cell `MoveNext` stepped onto is the next one after those visited. */
    static lemma NextVisited<T>(done: seq<T>, kv: T, rest: seq<T>, rest': seq<T>, all: seq<T>)
      requires done + rest == all && rest == [kv] + rest'
      ensures done + [kv] + rest' == all && |done| < |all| && kv == all[|done|]
    {
      assert done + [kv] + rest' == done + ([kv] + rest');
    }

    /** `MoveNext` inside the `UpdateAll` loop: it moves only the enumerator. */
    method Advance(e: Enumerator<int>, ghost v0: seq<BlockView<int>>, ghost colors: seq<Color>,
                   ghost done: seq<KeyValuePair<int>>) returns (more: bool)
      requires Scanning(v0, colors, done) && Tracks(e) && e.blockIndex != IntMax
      requires done + e.Rest() == Enumerate(v0)
      modifies e
      ensures Scanning(v0, colors, done) && Tracks(e)
      ensures more ==> && 0 <= e.blockIndex < |store.blocks| && e.blockIndex != IntMax
                       && old(e.Rest()) == [ItemAt(store.view, e.blockIndex, e.bitIndex)] + e.Rest()
      ensures !more ==> done == Enumerate(v0)
    {
      var r := e.MoveNext();
      more := r == Ok(true);
    }

    /**
     * The `UpdateAll` loop so far: of the cells of `v0`, `done` have been visited, and the
     * buffers and bounds hold what `UpdateVoxel` made of them.
     */
    ghost predicate Scanning(v0: seq<BlockView<int>>, colors: seq<Color>, done: seq<KeyValuePair<int>>)
      reads store, store.Repr, buffers, buffers.Repr, this
      reads if palette != null then {palette, palette.colors} else {}
    {
      && Valid() && Apart() && palette.colors[..] == colors
      && WellFormed(v0) && Extends(v0, store.view)
      && (forall j :: 0 <= j < |done| ==> done[j].value >= 0)
      && Faces() == AllFaces(Occupancy(v0), colors, done)
      && Bound() == Bounds(None, done)
    }

    /** The enumerator `e` walks this list's store and lies outside the buffers. */
    ghost predicate Tracks(e: Enumerator<int>)
      reads store, store.Repr, buffers, e
    {
      e.parent == store && e.Valid() && e !in buffers.Repr
    }

    /** The body of the `UpdateAll` loop after `MoveNext`: `UpdateVoxel` on the current cell `kv`. */
    method VisitVoxel(e: Enumerator<int>, kv: KeyValuePair<int>, ghost v0: seq<BlockView<int>>,
                      ghost colors: seq<Color>, ghost done: seq<KeyValuePair<int>>)
      requires Scanning(v0, colors, done) && Tracks(e) && kv.value >= 0
      requires 0 <= e.blockIndex < |store.blocks| && |store.blocks| + 6 < IntMax
      modifies this`minX, this`maxX, this`minY, this`maxY, this`minZ, this`maxZ, this`boundInitialized
      modifies store, buffers.Repr
      ensures (forall o :: o in store.Repr ==> o in old(store.Repr) || fresh(o)) && (forall o :: o in buffers.Repr ==> o in old(buffers.Repr) || fresh(o))
      ensures Scanning(v0, colors, done + [kv]) && Tracks(e) && e.Rest() == old(e.Rest())
      ensures |store.blocks| <= old(|store.blocks|) + 6
    {
      ghost var before := store.view;
      UpdateVoxel(kv.x, kv.y, kv.z, kv.value, v0);
      EnumeratorSurvives(before, store.view, v0, e.blockIndex, e.bitIndex);
      assert (done + [kv])[..|done|] == done;
    }

    /**
     * `UpdateVoxel`: widens the bounds to the voxel, then adds a face on each of its six sides
     * whose neighbour is empty, in the direction order +x, -x, +y, -y, +z, -z. The store only
     * gains empty blocks from the neighbour queries, so occupancy is that of `v0`.
     */
    method UpdateVoxel(x: int, y: int, z: int, c: int, ghost v0: seq<BlockView<int>>)
      requires Valid() && Apart() && c >= 0
      requires WellFormed(v0) && Extends(v0, store.view)
      modifies this`minX, this`maxX, this`minY, this`maxY, this`minZ, this`maxZ, this`boundInitialized
      modifies store, buffers.Repr
      ensures Valid() && Apart() && (forall o :: o in store.Repr ==> o in old(store.Repr) || fresh(o)) && (forall o :: o in buffers.Repr ==> o in old(buffers.Repr) || fresh(o))
      ensures Extends(v0, store.view) && |store.blocks| <= old(|store.blocks|) + 6
      ensures Bound() == Some(Widen(old(Bound()), Cell(x, y, z)))
      ensures Faces() == old(Faces()) + FaceList(Cell(x, y, z), Opaque(palette.GetColor(c)), Around(Cell(x, y, z), Occupancy(v0)))
    {
      WidenBound(x, y, z);
      AddVisibleFaces(Cell(x, y, z), c, v0);
    }

    /** The bounds half of `UpdateVoxel`: the first voxel sets them, later ones widen them. */
    method WidenBound(x: int, y: int, z: int)
      modifies this`minX, this`maxX, this`minY, this`maxY, this`minZ, this`maxZ, this`boundInitialized
      ensures Bound() == Some(Widen(old(Bound()), Cell(x, y, z)))
    {
      if !boundInitialized {
        minX, maxX := x, x;
        minY, maxY := y, y;
        minZ, maxZ := z, z;
        boundInitialized := true;
      } else {
        minX := Min(minX, x);
        maxX := Max(maxX, x);
        minY := Min(minY, y);
        maxY := Max(maxY, y);
        minZ := Min(minZ, z);
        maxZ := Max(maxZ, z);
      }
    }

    /** The face half of `UpdateVoxel`: the six `HasDataAt` tests in direction order. */
    method AddVisibleFaces(cell: Cell, c: int, ghost v0: seq<BlockView<int>>)
      requires Valid() && Apart() && c >= 0
      requires WellFormed(v0) && Extends(v0, store.view)
      modifies store, buffers.Repr
      ensures Valid() && Apart() && (forall o :: o in store.Repr ==> o in old(store.Repr) || fresh(o)) && (forall o :: o in buffers.Repr ==> o in old(buffers.Repr) || fresh(o))
      ensures Extends(v0, store.view) && |store.blocks| <= old(|store.blocks|) + 6
      ensures Faces() == old(Faces()) + FaceList(cell, Opaque(palette.GetColor(c)), Around(cell, Occupancy(v0)))
    {
      CullFrom(cell, 0, c, v0, Opaque(palette.GetColor(c)), Around(cell, Occupancy(v0)));
    }

    /** The face tests of `UpdateVoxel` from direction `dir` on, in order. */
    method CullFrom(cell: Cell, dir: int, c: int, ghost v0: seq<BlockView<int>>,
                    ghost color: FaceColor, ghost present: seq<bool>)
      requires Valid() && Apart() && c >= 0 && 0 <= dir <= 6
      requires WellFormed(v0) && Extends(v0, store.view)
      requires color == Opaque(palette.GetColor(c)) && present == Around(cell, Occupancy(v0))
      modifies store, buffers.Repr
      ensures Valid() && Apart() && (forall o :: o in store.Repr ==> o in old(store.Repr) || fresh(o)) && (forall o :: o in buffers.Repr ==> o in old(buffers.Repr) || fresh(o))
      ensures Extends(v0, store.view) && |store.blocks| <= old(|store.blocks|) + (6 - dir)
      ensures color == Opaque(palette.GetColor(c))
      ensures Faces() == old(Faces()) + FacesFrom(cell, color, present, dir)
      decreases 6 - dir
    {
      if dir < 6 {
        ghost var f0 := Faces();
        CullFace(cell, dir, c, v0, color, present);
        ghost var f1 := Faces();
        CullFrom(cell, dir + 1, c, v0, color, present);
        AppendAssoc(f0, FaceIf(cell, color, present[dir], dir), FacesFrom(cell, color, present, dir + 1));
      }
    }

    /**
     * One face test of `UpdateVoxel`: `HasDataAt` on the neighbour in direction `dir`, and a
     * face when it is empty. Occupancy is judged on `v0`, which the store only extends.
     */
    method CullFace(cell: Cell, dir: int, c: int, ghost v0: seq<BlockView<int>>,
                    ghost color: FaceColor, ghost present: seq<bool>)
      requires Valid() && Apart() && c >= 0 && 0 <= dir < 6
      requires WellFormed(v0) && Extends(v0, store.view)
      requires color == Opaque(palette.GetColor(c)) && present == Around(cell, Occupancy(v0))
      modifies store, buffers.Repr
      ensures Valid() && Apart() && (forall o :: o in store.Repr ==> o in old(store.Repr) || fresh(o)) && (forall o :: o in buffers.Repr ==> o in old(buffers.Repr) || fresh(o))
      ensures Extends(v0, store.view) && |store.blocks| <= old(|store.blocks|) + 1
      ensures color == Opaque(palette.GetColor(c))
      ensures Faces() == old(Faces()) + FaceIf(cell, color, present[dir], dir)
    {
      var n := Neighbour(cell, dir);
      ExtendsLookup(v0, store.view, n);
      ghost var before := store.view;
      var occupied := store.HasDataAt(n.x, n.y, n.z);
      AroundAt(cell, Occupancy(v0), dir);
      EnsureBlockExtends(before, BlockCoord(n.x), BlockCoord(n.y), BlockCoord(n.z), 0);
      ExtendsTrans(v0, before, store.view);
      if !occupied {
        AddFace(cell, dir, c);
      }
    }

    /** `AddFace`: one face of the voxel at `cell`, opaque in the palette colour `c`. */
    method AddFace(cell: Cell, dir: int, c: int)
      requires Valid() && Apart() && c >= 0 && 0 <= dir < 6
      modifies buffers.Repr
      ensures Valid() && Apart() && (forall o :: o in buffers.Repr ==> o in old(buffers.Repr) || fresh(o))
      ensures Faces() == old(Faces()) + [FaceAt(cell, dir, Opaque(palette.GetColor(c)))]
    {
      var f := FaceAt(cell, dir, Opaque(palette.GetColor(c)));
      ghost var w := buffers.view;
      buffers.Add(f);
      VertexBuffers.AddedSpec(w, f, buffers.dflt);
    }

    /** The first half of `LoadFromModel`: `Clear`, then `AddAndGetRef` for each listed voxel. */
    method LoadVoxels(voxels: seq<VoxelData>)
      requires Valid() && Apart()
      modifies store.Repr
      ensures Valid() && Apart() && (forall o :: o in store.Repr ==> o in old(store.Repr) || fresh(o))
      ensures store.view == LoadedView(voxels)
    {
      ClearStore();
      StoreVoxels(store, voxels);
    }

    /** The start of the loading loop: the store's `Clear`. */
    method ClearStore()
      requires Valid() && Apart()
      modifies store
      ensures Valid() && Apart() && fresh(store.Repr - old(store.Repr))
      ensures store.view == []
    {
      store.Clear();
    }

    /** One turn of the loading loop: `AddAndGetRef(d.X, d.Y, d.Z) = d.Color` for `d` = `voxels[j]`. */
    static method StoreVoxel(store: VoxelDataStorage<int>, voxels: seq<VoxelData>, j: int)
      requires store.Valid() && store.defaultValue == 0 && 0 <= j < |voxels|
      requires store.view == LoadedView(voxels[..j])
      modifies store.Repr
      ensures store.Valid() && fresh(store.Repr - old(store.Repr))
      ensures store.view == LoadedView(voxels[..j + 1])
    {
      var d := voxels[j];
      LoadedViewStep(voxels, j);
      store.AddAndSet(d.x, d.y, d.z, d.color);
    }

    /** The loading loop: `AddAndGetRef(d.X, d.Y, d.Z) = d.Color` for each listed voxel `d`. */
    static method StoreVoxels(store: VoxelDataStorage<int>, voxels: seq<VoxelData>)
      requires store.Valid() && store.defaultValue == 0 && store.view == []
      modifies store.Repr
      ensures store.Valid() && fresh(store.Repr - old(store.Repr))
      ensures store.view == LoadedView(voxels)
    {
      for j := 0 to |voxels|
        invariant store.Valid() && fresh(store.Repr - old(store.Repr))
        invariant store.view == LoadedView(voxels[..j])
      {
        StoreVoxel(store, voxels, j);
      }
      WholePrefix(voxels);
    }

    /** `LoadFromModel` up to `UpdateAll`: the store holds the listed voxels and the mesh is rebuilt. */
    method LoadMesh(voxels: seq<VoxelData>)
      requires Valid() && Apart()
      requires forall j :: 0 <= j < |voxels| ==> voxels[j].color >= 0
      requires 7 * |voxels| < IntMax
      modifies this`minX, this`maxX, this`minY, this`maxY, this`minZ, this`maxZ, this`boundInitialized
      modifies store.Repr, buffers.Repr
      ensures Valid() && Apart() && (forall o :: o in store.Repr ==> o in old(store.Repr) || fresh(o)) && (forall o :: o in buffers.Repr ==> o in old(buffers.Repr) || fresh(o))
      ensures forall c :: Lookup(store.view, c) == LastColor(voxels, c)
      ensures forall j :: 0 <= j < |Enumerate(LoadedView(voxels))| ==> Enumerate(LoadedView(voxels))[j].value >= 0
      ensures Faces() == AllFaces(Occupancy(LoadedView(voxels)), palette.colors[..], Enumerate(LoadedView(voxels)))
      ensures Bound() == Bounds(None, Enumerate(LoadedView(voxels)))
    {
      LoadVoxels(voxels);
      ghost var loaded := store.view;
      LoadedColorsNonNegative(voxels);
      LoadedCount(voxels);
      UpdateAll();
      forall c ensures Lookup(store.view, c) == LastColor(voxels, c) {
        ExtendsLookup(loaded, store.view, c);
        LoadedLookup(voxels, c);
      }
    }

    /**
     * `LoadFromModel` (no undo): the part's voxels replace the store, the mesh and bounds are
     * rebuilt by `UpdateAll`, the recorded fields are overwritten, and the parent is looked up
     * in `allParts`. A parent index other than -1 outside `allParts` throws, after all the
     * rest has been done.
     */
    method LoadFromModel(allParts: seq<EditableVoxelList>, part: VoxelModelPart) returns (r: Result<()>)
      requires Valid() && Apart()
      requires forall j :: 0 <= j < |part.voxels| ==> part.voxels[j].color >= 0
      requires 7 * |part.voxels| < IntMax
      modifies this`parent, this`bondName, this`basePoint, this`translation
      modifies this`minX, this`maxX, this`minY, this`maxY, this`minZ, this`maxZ, this`boundInitialized
      modifies store.Repr, buffers.Repr
      ensures Valid() && Apart() && (forall o :: o in store.Repr ==> o in old(store.Repr) || fresh(o)) && (forall o :: o in buffers.Repr ==> o in old(buffers.Repr) || fresh(o))
      ensures forall c :: Lookup(store.view, c) == LastColor(part.voxels, c)
      ensures forall j :: 0 <= j < |Enumerate(LoadedView(part.voxels))| ==> Enumerate(LoadedView(part.voxels))[j].value >= 0
      ensures Faces() == AllFaces(Occupancy(LoadedView(part.voxels)), palette.colors[..], Enumerate(LoadedView(part.voxels)))
      ensures Bound() == Bounds(None, Enumerate(LoadedView(part.voxels)))
      ensures basePoint == part.basePoint && translation == part.translation && bondName == part.boneName
      ensures part.parentId == -1 ==> r == Ok(()) && parent == null
      ensures 0 <= part.parentId < |allParts| ==> r == Ok(()) && parent == allParts[part.parentId]
      ensures part.parentId != -1 && !(0 <= part.parentId < |allParts|) ==>
                r == Fail(ArgumentOutOfRangeException) && parent == old(parent)
    {
      LoadMesh(part.voxels);
      r := LoadFields(allParts, part);
    }

    /** The end of `LoadFromModel`: the recorded fields, then the parent looked up by index. */
    method LoadFields(allParts: seq<EditableVoxelList>, part: VoxelModelPart) returns (r: Result<()>)
      modifies this`parent, this`bondName, this`basePoint, this`translation
      ensures basePoint == part.basePoint && translation == part.translation && bondName == part.boneName
      ensures part.parentId == -1 ==> r == Ok(()) && parent == null
      ensures 0 <= part.parentId < |allParts| ==> r == Ok(()) && parent == allParts[part.parentId]
      ensures part.parentId != -1 && !(0 <= part.parentId < |allParts|) ==>
                r == Fail(ArgumentOutOfRangeException) && parent == old(parent)
    {
      basePoint := part.basePoint;
      translation := part.translation;
      bondName := part.boneName;
      if part.parentId == -1 {
        parent := null;
        r := Ok(());
      } else if 0 <= part.parentId < |allParts| {
        parent := allParts[part.parentId];
        r := Ok(());
      } else {
        r := Fail(ArgumentOutOfRangeException);
      }
    }
  }

  // ---------------------------------------------------------------------------------------
  // EditableModel

  /** `_parts.Insert(i, p)`. */
  function Inserted<T>(ps: seq<T>, i: int, p: T): (r: seq<T>)
    requires 0 <= i <= |ps|
    ensures |r| == |ps| + 1
  {
    ps[..i] + [p] + ps[i..]
  }

  /** `_parts.RemoveAt(i)`. */
  function Removed<T>(ps: seq<T>, i: int): (r: seq<T>)
    requires 0 <= i < |ps|
    ensures |r| == |ps| - 1
  {
    ps[..i] + ps[i + 1..]
  }

  /** Removing what was just inserted gives the list back, and the inserted element sat at `i`. */
  lemma RemoveInserted<T>(ps: seq<T>, i: int, p: T)
    requires 0 <= i <= |ps|
    ensures Inserted(ps, i, p)[i] == p && Removed(Inserted(ps, i, p), i) == ps
  {
    assert Inserted(ps, i, p)[..i] == ps[..i];
    assert Inserted(ps, i, p)[i + 1..] == ps[i..];
  }

  /** Inserting the removed element where it was gives the list back. */
  lemma InsertRemoved<T>(ps: seq<T>, i: int)
    requires 0 <= i < |ps|
    ensures Inserted(Removed(ps, i), i, ps[i]) == ps
  {
    assert Removed(ps, i)[..i] == ps[..i];
    assert Removed(ps, i)[i..] == ps[i + 1..];
  }

  /** A parent after `BreakPartDependent`: the removed part is replaced by no parent. */
  function Unlink(parent: EditableVoxelList?, removed: EditableVoxelList): (r: EditableVoxelList?)
  {
    if parent == removed then null else parent
  }

  /** A part's own state apart from its parent: bone name, base point, translation, extents, bound flag, undo buffer. */
  type OtherFields = (Option<string>, Vector3, Vector3, Box, bool, seq<UndoData>)

  /** The state of each of `ps` apart from its parent, in order. */
  ghost function OthersOf(ps: seq<EditableVoxelList>): (r: seq<OtherFields>)
    reads ps
    ensures |r| == |ps| && forall k :: 0 <= k < |ps| ==> r[k] == ps[k].Unparented()
  {
    seq(|ps|, k requires 0 <= k < |ps| reads ps => ps[k].Unparented())
  }

  /** The parents of `ps`, in order. */
  ghost function ParentsOf(ps: seq<EditableVoxelList>): (r: seq<EditableVoxelList?>)
    reads ps
    ensures |r| == |ps| && forall k :: 0 <= k < |ps| ==> r[k] == ps[k].parent
  {
    seq(|ps|, k requires 0 <= k < |ps| reads ps => ps[k].parent)
  }

  /**
   * The "Change parent." entries `BreakPartDependent` records over `ps`, whose parents were
   * `parents`: one per part whose parent was `removed`, the first time the part is met.
   */
  ghost function Unlinks(ps: seq<EditableVoxelList>, parents: seq<EditableVoxelList?>, removed: EditableVoxelList): seq<Modification>
    requires |ps| == |parents|
    decreases |ps|
  {
    if |ps| == 0 then []
    else
      var k := |ps| - 1;
      Unlinks(ps[..k], parents[..k], removed)
        + (if parents[k] == removed && ps[k] !in ps[..k] then [Modification("Change parent.", SetField(ps[k], ParentValue(removed)))] else [])
  }

  /** The entries over one more part: that part adds its entry if it is met for the first time. */
  lemma UnlinksStep(ps: seq<EditableVoxelList>, parents: seq<EditableVoxelList?>, removed: EditableVoxelList, k: int)
    requires |ps| == |parents| && 0 <= k < |ps|
    ensures Unlinks(ps[..k + 1], parents[..k + 1], removed) == Unlinks(ps[..k], parents[..k], removed)
              + (if parents[k] == removed && ps[k] !in ps[..k] then [Modification("Change parent.", SetField(ps[k], ParentValue(removed)))] else [])
  {
    assert ps[..k + 1][..k] == ps[..k];
    assert parents[..k + 1][..k] == parents[..k];
  }

  /** A `VoxelModel` as loaded: the metadata strings, the palette lists and the parts. */
  datatype VoxelModel = VoxelModel(
    name: Option<string>, author: Option<string>, comments: Option<string>,
    palette: seq<ColorList>, parts: seq<VoxelModelPart>)

  /** A parent index that `EditableVoxelList.LoadFromModel` accepts among `n` parts. */
  predicate ParentResolves(parentId: int, n: int)
  {
    parentId == -1 || 0 <= parentId < n
  }

  /** What loading sets in a part: the recorded fields, the bounds and the store's blocks. */
  datatype PartState = PartState(
    parent: EditableVoxelList?, bondName: Option<string>, basePoint: Vector3, translation: Vector3,
    bound: Option<Box>, view: seq<BlockView<int>>)

  /** The state of part `p` that loading sets. */
  ghost function StateOf(p: EditableVoxelList): PartState
    reads p, p.store
  {
    PartState(p.parent, p.bondName, p.basePoint, p.translation, p.Bound(), p.store.view)
  }

  /**
   * `s` is what `mp` describes, its parent resolved in `ps`: the recorded fields, the voxels,
   * and the bounds `UpdateAll` computes over them.
   */
  ghost predicate Describes(s: PartState, mp: VoxelModelPart, ps: seq<EditableVoxelList>)
  {
    && ParentResolves(mp.parentId, |ps|)
    && s.parent == (if mp.parentId == -1 then null else ps[mp.parentId])
    && s.basePoint == mp.basePoint && s.translation == mp.translation && s.bondName == mp.boneName
    && s.bound == Bounds(None, Enumerate(LoadedView(mp.voxels)))
    && WellFormed(s.view) && forall c :: Lookup(s.view, c) == LastColor(mp.voxels, c)
  }

  /** One more part described: the first `|states| + 1` parts are described. */
  lemma DescribesStep(states: seq<PartState>, s: PartState, model: seq<VoxelModelPart>, ps: seq<EditableVoxelList>)
    requires |states| < |model|
    requires forall k :: 0 <= k < |states| ==> Describes(states[k], model[k], ps)
    requires Describes(s, model[|states|], ps)
    ensures forall k :: 0 <= k < |states| + 1 ==> Describes((states + [s])[k], model[k], ps)
  {
  }

  /** Part `p` holds what `mp` describes, its parent resolved in `ps`. */
  ghost predicate PartLoaded(p: EditableVoxelList, mp: VoxelModelPart, ps: seq<EditableVoxelList>)
    reads p, p.store
  {
    Describes(StateOf(p), mp, ps)
  }

  /** Part `p` is ready to be loaded, and owns exactly `footprint`. */
  ghost predicate Unloaded(p: EditableVoxelList, footprint: set<object>)
    reads footprint, p.palette
  {
    && p.store in footprint && p.buffers in footprint && p.Footprint() == footprint
    && p.Valid() && p.Apart()
  }

  /** The `MinX` … `MaxZ` of each part. */
  function ExtentsOf(ps: seq<EditableVoxelList>): (r: seq<Box>)
    reads ps
    ensures |r| == |ps| && forall k :: 0 <= k < |ps| ==> r[k] == ps[k].Extents()
  {
    seq(|ps|, k requires 0 <= k < |ps| reads ps => ps[k].Extents())
  }

  /** `v` is the componentwise minimum of the boxes' minimum corners. */
  predicate Lowest(v: Vector3, bs: seq<Box>)
  {
    && (forall k :: 0 <= k < |bs| ==> v.x <= bs[k].minX as real && v.y <= bs[k].minY as real && v.z <= bs[k].minZ as real)
    && (exists k :: 0 <= k < |bs| && v.x == bs[k].minX as real)
    && (exists k :: 0 <= k < |bs| && v.y == bs[k].minY as real)
    && (exists k :: 0 <= k < |bs| && v.z == bs[k].minZ as real)
  }

  /** `v` is the componentwise maximum of the boxes' maximum corners. */
  predicate Highest(v: Vector3, bs: seq<Box>)
  {
    && (forall k :: 0 <= k < |bs| ==> v.x >= bs[k].maxX as real && v.y >= bs[k].maxY as real && v.z >= bs[k].maxZ as real)
    && (exists k :: 0 <= k < |bs| && v.x == bs[k].maxX as real)
    && (exists k :: 0 <= k < |bs| && v.y == bs[k].maxY as real)
    && (exists k :: 0 <= k < |bs| && v.z == bs[k].maxZ as real)
  }

  /** `EditableModel`: the metadata, the palette and the ordered list of parts. */
  class EditableModel {
    const undo: UndoManager
    var metadata: Metadata
    var palette: EditablePalette?
    var parts: seq<EditableVoxelList>

    /** Every part records into the model's undo manager, as every part is built with it. */
    ghost predicate Shares()
      reads this
    {
      forall k :: 0 <= k < |parts| ==> parts[k].undo == undo
    }

    /** A new model: its own undo manager, null metadata strings, no palette, no parts. */
    constructor ()
      ensures fresh(undo) && undo.history == []
      ensures metadata == Metadata(None, None, None) && palette == null && parts == []
    {
      undo := new UndoManager();
      metadata := Metadata(None, None, None);
      palette := null;
      parts := [];
    }

    /**
     * The `Metadata` setter: on a change of any of the three strings, records "Edit model
     * metadata." with the old value; an equal value records nothing.
     */
    method SetMetadata(value: Metadata)
      modifies this`metadata, undo`history
      ensures metadata == value
      ensures old(metadata) != value ==>
                undo.history == old(undo.history) + [Modification("Edit model metadata.", ModelMeta(this, old(metadata)))]
      ensures old(metadata) == value ==> undo.history == old(undo.history)
    {
      if metadata != value {
        undo.AddModification("Edit model metadata.", ModelMeta(this, metadata));
        metadata := value;
      }
    }

    /** A metadata action: puts `m` back and returns the action restoring the value it replaced. */
    method InvokeMeta(m: Metadata) returns (redo: Command)
      modifies this`metadata
      ensures metadata == m && redo == ModelMeta(this, old(metadata))
    {
      redo := ModelMeta(this, metadata);
      metadata := m;
    }

    /**
     * `InsertPart`: records "Insert part." first; then a new empty part is inserted at
     * `index`, or, with `index` outside 0..PartCount, `List.Insert` throws.
     */
    method InsertPart(index: int) returns (r: Result<()>)
      modifies this`parts, undo`history
      ensures undo.history == old(undo.history) + [Modification("Insert part.", PartInsert(this, index))]
      ensures 0 <= index <= old(|parts|) ==>
                && r == Ok(()) && |parts| == old(|parts|) + 1 && parts == Inserted(old(parts), index, parts[index])
                && fresh(parts[index]) && parts[index].undo == undo && parts[index].palette == palette
                && parts[index].Valid() && parts[index].store.view == []
                && parts[index].Fields() == [ParentValue(null), BondNameValue(None), BasePointValue(Zero), TranslationValue(Zero)]
      ensures !(0 <= index <= old(|parts|)) ==> r == Fail(ArgumentOutOfRangeException) && parts == old(parts)
    {
      undo.AddModification("Insert part.", PartInsert(this, index));
      if 0 <= index <= |parts| {
        var p := new EditableVoxelList(undo, palette);
        parts := Inserted(parts, index, p);
        r := Ok(());
      } else {
        r := Fail(ArgumentOutOfRangeException);
      }
    }

    /**
     * An insert action (`CreateUndoInsert`): removes the part at `index` and returns the remove
     * action holding that same part, read before the removal.
     */
    method InvokeInsert(index: int) returns (r: Result<Command>)
      modifies this`parts
      ensures 0 <= index < old(|parts|) ==> r == Ok(PartRemove(this, index, old(parts)[index])) && parts == Removed(old(parts), index)
      ensures !(0 <= index < old(|parts|)) ==> r == Fail(ArgumentOutOfRangeException) && parts == old(parts)
    {
      if 0 <= index < |parts| {
        r := Ok(PartRemove(this, index, parts[index]));
        parts := Removed(parts, index);
      } else {
        r := Fail(ArgumentOutOfRangeException);
      }
    }

    /** A remove action (`CreateUndoRemove`): puts `part` back at `at` and returns the insert action. */
    method InvokeRemove(at: int, part: EditableVoxelList) returns (r: Result<Command>)
      modifies this`parts
      ensures 0 <= at <= old(|parts|) ==> r == Ok(PartInsert(this, at)) && parts == Inserted(old(parts), at, part)
      ensures !(0 <= at <= old(|parts|)) ==> r == Fail(ArgumentOutOfRangeException) && parts == old(parts)
    {
      if 0 <= at <= |parts| {
        r := Ok(PartInsert(this, at));
        parts := Inserted(parts, at, part);
      } else {
        r := Fail(ArgumentOutOfRangeException);
      }
    }

    /**
     * `RemovePart`: every part whose parent is the part at `index` loses its parent through the
     * recording setter, then "Remove part." is recorded with the part, then it is removed. An
     * index outside the list throws before anything changes.
     */
    method RemovePart(index: int) returns (r: Result<()>)
      requires Shares()
      modifies this`parts, parts, undo`history
      ensures forall k :: 0 <= k < |old(parts)| ==> old(parts)[k].Unparented() == old(parts[k].Unparented())
      ensures !(0 <= index < old(|parts|)) ==>
                && r == Fail(ArgumentOutOfRangeException) && parts == old(parts) && undo.history == old(undo.history)
                && forall k :: 0 <= k < |parts| ==> parts[k].parent == old(parts[k].parent)
      ensures 0 <= index < old(|parts|) ==>
                && r == Ok(()) && parts == Removed(old(parts), index)
                && (forall k :: 0 <= k < |old(parts)| ==> old(parts)[k].parent == Unlink(old(parts[k].parent), old(parts[index])))
                && undo.history == old(undo.history) + Unlinks(old(parts), old(ParentsOf(parts)), old(parts[index]))
                                     + [Modification("Remove part.", PartRemove(this, index, old(parts[index])))]
      ensures 0 <= index < old(|parts|) ==> forall k :: 0 <= k < |parts| ==> parts[k].parent != old(parts[index])
    {
      if 0 <= index < |parts| {
        BreakPartDependent(index);
        undo.AddModification("Remove part.", PartRemove(this, index, parts[index]));
        parts := Removed(parts, index);
        r := Ok(());
      } else {
        r := Fail(ArgumentOutOfRangeException);
      }
    }

    /** `BreakPartDependent`: the parent of every part whose parent is the part at `index` is set to null. */
    method BreakPartDependent(index: int)
      requires 0 <= index < |parts| && Shares()
      modifies parts, undo`history
      ensures forall k :: 0 <= k < |parts| ==> parts[k].Unparented() == old(parts[k].Unparented())
      ensures forall k :: 0 <= k < |parts| ==> parts[k].parent == Unlink(old(parts[k].parent), parts[index])
      ensures undo.history == old(undo.history) + Unlinks(parts, old(ParentsOf(parts)), parts[index])
    {
      var removed := parts[index];
      ghost var olds, others := ParentsOf(parts), OthersOf(parts);
      for k := 0 to |parts|
        invariant Unlinked(olds, others, removed, k)
        invariant undo.history == old(undo.history) + Unlinks(parts[..k], olds[..k], removed)
      {
        UnlinkAt(parts[k], k, removed, olds, others, old(undo.history));
      }
      WholePrefix(parts);
      WholePrefix(olds);
      UnlinkedDone(olds, others, removed);
    }

    /**
     * Parts `0..k` have been visited: each part met so far has lost `removed` as its parent,
     * and the others keep the parents `olds` they had; nothing else of any part has changed
     * from `others`.
     */
    ghost predicate Unlinked(olds: seq<EditableVoxelList?>, others: seq<OtherFields>, removed: EditableVoxelList, k: int)
      reads this, parts
    {
      && |olds| == |parts| && |others| == |parts| && 0 <= k <= |parts|
      && forall j :: 0 <= j < |parts| ==>
           && parts[j].parent == (if parts[j] in parts[..k] then Unlink(olds[j], removed) else olds[j])
           && parts[j].Unparented() == others[j]
    }

    /** Once every part has been visited, each has lost `removed` as its parent, and only that. */
    lemma UnlinkedDone(olds: seq<EditableVoxelList?>, others: seq<OtherFields>, removed: EditableVoxelList)
      requires Unlinked(olds, others, removed, |parts|)
      ensures forall j :: 0 <= j < |parts| ==> parts[j].parent == Unlink(olds[j], removed) && parts[j].Unparented() == others[j]
    {
      WholePrefix(parts);
    }

    /** One step of `BreakPartDependent`: part `k` loses its parent if that is `removed`, through the recording setter. */
    method UnlinkAt(p: EditableVoxelList, k: int, removed: EditableVoxelList,
                    ghost olds: seq<EditableVoxelList?>, ghost others: seq<OtherFields>, ghost h0: seq<Modification>)
      requires 0 <= k < |parts| && p == parts[k] && p.undo == undo && Unlinked(olds, others, removed, k)
      requires undo.history == h0 + Unlinks(parts[..k], olds[..k], removed)
      modifies p`parent, undo`history
      ensures Unlinked(olds, others, removed, k + 1)
      ensures undo.history == h0 + Unlinks(parts[..k + 1], olds[..k + 1], removed)
    {
      UnlinksStep(parts, olds, removed, k);
      PrefixMembers(parts, k);
      ghost var h1 := undo.history;
      if p.parent == removed {
        p.SetParent(null);
        assert p.Fields()[0] == ParentValue(null);
      }
      AppendAssoc(h0, Unlinks(parts[..k], olds[..k], removed), undo.history[|h1|..]);
    }

    /**
     * `LoadFromModel` (no undo): the metadata is copied, a new palette is loaded, one new part
     * is created per model part, and only then is each part loaded in order, so that a parent
     * index may name any part. A parent index no part has throws, and the later parts stay
     * unloaded.
     */
    method LoadFromModel(model: VoxelModel) returns (r: Result<()>)
      requires forall k, j :: 0 <= k < |model.parts| && 0 <= j < |model.parts[k].voxels| ==> model.parts[k].voxels[j].color >= 0
      requires forall k :: 0 <= k < |model.parts| ==> 7 * |model.parts[k].voxels| < IntMax
      modifies this`metadata, this`palette, this`parts
      ensures undo.history == old(undo.history)
      ensures metadata == Metadata(model.name, model.author, model.comments)
      ensures palette != null && fresh(palette) && palette.undo == undo
      ensures palette.colors[..] == Flatten(model.palette) && palette.metadata == RunsOf(model.palette)
      ensures |parts| == |model.parts| && Shares()
      ensures forall k :: 0 <= k < |parts| ==> fresh(parts[k]) && parts[k].palette == palette
      ensures forall k, l :: 0 <= k < l < |parts| ==> parts[k] != parts[l]
      ensures r.Ok? <==> forall k :: 0 <= k < |model.parts| ==> ParentResolves(model.parts[k].parentId, |model.parts|)
      ensures r.Ok? ==> forall k :: 0 <= k < |parts| ==> PartLoaded(parts[k], model.parts[k], parts)
      ensures r.Fail? ==> && r.error == ArgumentOutOfRangeException
                          && exists i :: && 0 <= i < |parts| && !ParentResolves(model.parts[i].parentId, |parts|)
                                         && forall k :: 0 <= k < i ==> PartLoaded(parts[k], model.parts[k], parts)
    {
      metadata := Metadata(model.name, model.author, model.comments);
      var pal := new EditablePalette(undo);
      pal.LoadFromModel(model.palette);
      palette := pal;
      var ps;
      ghost var owned, all;
      ps, owned, all := CreateParts(|model.parts|);
      parts := ps;
      r := LoadParts(model.parts, owned, all);
    }

    /** The loop adding `count` new parts; each owns fresh objects that no other part shares. */
    method CreateParts(count: nat) returns (ps: seq<EditableVoxelList>, ghost owned: seq<set<object>>, ghost all: set<object>)
      requires palette != null
      ensures |ps| == count && |owned| == count && fresh(all)
      ensures forall k :: 0 <= k < count ==>
                && owned[k] <= all && ps[k] in owned[k] && ps[k].store in owned[k]
                && ps[k].undo == undo && ps[k].palette == palette && Unloaded(ps[k], owned[k])
      ensures forall k, l :: 0 <= k < l < count ==> owned[k] !! owned[l]
    {
      ps, owned, all := [], [], {};
      for i := 0 to count
        invariant |ps| == |owned| == i && fresh(all)
        invariant forall k :: 0 <= k < |ps| ==>
                    && owned[k] <= all && ps[k] in owned[k] && ps[k].store in owned[k]
                    && ps[k].undo == undo && ps[k].palette == palette && Unloaded(ps[k], owned[k])
        invariant forall k, l :: 0 <= k < l < |ps| ==> owned[k] !! owned[l]
      {
        var p := new EditableVoxelList(undo, palette);
        ghost var fp := p.Footprint();
        assert Unloaded(p, fp) && fresh(fp);
        assert forall k :: 0 <= k < |ps| ==> owned[k] !! fp;
        ps, owned, all := ps + [p], owned + [fp], all + fp;
      }
    }

    /**
     * The loop loading part `i` from `model[i]`, in order, until one throws. `owned[k]` is what
     * part `k` owns before loading; these are disjoint, so loading one part leaves the others.
     */
    method LoadParts(model: seq<VoxelModelPart>, ghost owned: seq<set<object>>, ghost all: set<object>) returns (r: Result<()>)
      requires |parts| == |model| == |owned|
      requires forall k, j :: 0 <= k < |model| && 0 <= j < |model[k].voxels| ==> model[k].voxels[j].color >= 0
      requires forall k :: 0 <= k < |model| ==> 7 * |model[k].voxels| < IntMax
      requires forall k :: 0 <= k < |parts| ==>
                 && owned[k] <= all && parts[k] in owned[k] && parts[k].store in owned[k] && parts[k].palette !in all
                 && Unloaded(parts[k], owned[k])
      requires forall k, l :: 0 <= k < l < |owned| ==> owned[k] !! owned[l]
      requires this !in all
      modifies all
      ensures r.Ok? <==> forall k :: 0 <= k < |model| ==> ParentResolves(model[k].parentId, |model|)
      ensures r.Ok? ==> forall k :: 0 <= k < |parts| ==> PartLoaded(parts[k], model[k], parts)
      ensures r.Fail? ==> && r.error == ArgumentOutOfRangeException
                          && exists i :: && 0 <= i < |parts| && !ParentResolves(model[i].parentId, |parts|)
                                         && forall k :: 0 <= k < i ==> PartLoaded(parts[k], model[k], parts)
    {
      var ps := parts;
      r := Ok(());
      var i := 0;
      ghost var states: seq<PartState> := [];
      while i < |ps| && r.Ok?
        invariant 0 <= i <= |ps| && |states| == (if r.Ok? then i else i - 1)
        invariant forall k :: i <= k < |ps| ==> Unloaded(ps[k], owned[k])
        invariant forall k :: 0 <= k < |states| ==> StateOf(ps[k]) == states[k]
        invariant forall k :: 0 <= k < |states| ==> Describes(states[k], model[k], ps)
        invariant r.Fail? ==> 0 < i && r.error == ArgumentOutOfRangeException && !ParentResolves(model[i - 1].parentId, |ps|)
      {
        r := LoadAt(ps, i, model, owned, states);
        if r.Ok? {
          DescribesStep(states, StateOf(ps[i]), model, ps);
          states := states + [StateOf(ps[i])];
        }
        i := i + 1;
      }
    }

    /**
     * Loading part `i` touches only what it owns, so the parts loaded before keep their
     * `states`; it is loaded as `Describes` says unless its parent index throws.
     */
    static method LoadAt(ps: seq<EditableVoxelList>, i: int, model: seq<VoxelModelPart>, ghost owned: seq<set<object>>,
                         ghost states: seq<PartState>)
      returns (r: Result<()>)
      requires 0 <= i < |ps| == |model| == |owned| && |states| == i
      requires forall k :: i <= k < |ps| ==> Unloaded(ps[k], owned[k])
      requires forall k :: i < k < |ps| ==> owned[i] !! owned[k] && ps[k].palette !in owned[i]
      requires forall j :: 0 <= j < |model[i].voxels| ==> model[i].voxels[j].color >= 0
      requires 7 * |model[i].voxels| < IntMax
      requires forall k :: 0 <= k < i ==> ps[k] !in owned[i] && ps[k].store !in owned[i] && StateOf(ps[k]) == states[k]
      modifies owned[i]
      ensures r.Ok? <==> ParentResolves(model[i].parentId, |ps|)
      ensures forall k :: 0 <= k < i ==> StateOf(ps[k]) == states[k]
      ensures forall k :: i < k < |ps| ==> Unloaded(ps[k], owned[k])
      ensures r.Ok? ==> Describes(StateOf(ps[i]), model[i], ps)
      ensures r.Fail? ==> r.error == ArgumentOutOfRangeException
    {
      r := LoadOne(ps[i], model[i], ps, owned[i]);
    }

    /** One part loaded from `mp`, its parent looked up in `ps`; nothing but what it owns changes. */
    static method LoadOne(p: EditableVoxelList, mp: VoxelModelPart, ps: seq<EditableVoxelList>, ghost owned: set<object>)
      returns (r: Result<()>)
      requires Unloaded(p, owned)
      requires forall j :: 0 <= j < |mp.voxels| ==> mp.voxels[j].color >= 0
      requires 7 * |mp.voxels| < IntMax
      modifies owned
      ensures r.Ok? <==> ParentResolves(mp.parentId, |ps|)
      ensures r.Ok? ==> PartLoaded(p, mp, ps)
      ensures r.Fail? ==> r.error == ArgumentOutOfRangeException
    {
      r := p.LoadFromModel(ps, mp);
    }

    /**
     * `CalculateBound`: the origin for both corners when there are no parts; otherwise the
     * componentwise minimum of the parts' `MinX`, `MinY`, `MinZ` and maximum of their `MaxX`,
     * `MaxY`, `MaxZ`.
     */
    method CalculateBound() returns (min: Vector3, max: Vector3)
      ensures |parts| == 0 ==> min == Zero && max == Zero
      ensures |parts| > 0 ==> Lowest(min, ExtentsOf(parts)) && Highest(max, ExtentsOf(parts))
    {
      if |parts| == 0 {
        min, max := Zero, Zero;
      } else {
        ghost var bs := ExtentsOf(parts);
        // The first part's corners replace the float.MaxValue and float.MinValue starting
        // corners, and taking the first part a second time changes nothing.
        var b := parts[0].Extents();
        min, max := MinCorner(b), MaxCorner(b);
        BoundStart(bs);
        for k := 1 to |parts|
          invariant Lowest(min, bs[..k]) && Highest(max, bs[..k])
        {
          b := parts[k].Extents();
          BoundStep(min, max, bs, k);
          min, max := Lower(min, b), Upper(max, b);
        }
        WholePrefix(bs);
      }
    }
  }

  /** `Math.Min` on the float coordinates. */
  function MinReal(a: real, b: real): real
  {
    if a <= b then a else b
  }

  /** `Math.Max` on the float coordinates. */
  function MaxReal(a: real, b: real): real
  {
    if a >= b then a else b
  }

  /** A box's minimum corner, as floats. */
  function MinCorner(b: Box): Vector3
  {
    Vector3(b.minX as real, b.minY as real, b.minZ as real)
  }

  /** A box's maximum corner, as floats. */
  function MaxCorner(b: Box): Vector3
  {
    Vector3(b.maxX as real, b.maxY as real, b.maxZ as real)
  }

  /** One turn of `CalculateBound`'s loop on the minimum corner: `Math.Min` per coordinate. */
  function Lower(v: Vector3, b: Box): Vector3
  {
    Vector3(MinReal(v.x, b.minX as real), MinReal(v.y, b.minY as real), MinReal(v.z, b.minZ as real))
  }

  /** One turn of `CalculateBound`'s loop on the maximum corner: `Math.Max` per coordinate. */
  function Upper(v: Vector3, b: Box): Vector3
  {
    Vector3(MaxReal(v.x, b.maxX as real), MaxReal(v.y, b.maxY as real), MaxReal(v.z, b.maxZ as real))
  }

  /** The first box's corners are the bounds of the first box alone. */
  lemma BoundStart(bs: seq<Box>)
    requires |bs| > 0
    ensures Lowest(MinCorner(bs[0]), bs[..1]) && Highest(MaxCorner(bs[0]), bs[..1])
  {
    assert bs[..1][0] == bs[0];
  }

  /** Taking box `k` into the corners of boxes `0..k` gives the corners of boxes `0..k+1`. */
  lemma BoundStep(min: Vector3, max: Vector3, bs: seq<Box>, k: int)
    requires 0 <= k < |bs| && Lowest(min, bs[..k]) && Highest(max, bs[..k])
    ensures Lowest(Lower(min, bs[k]), bs[..k + 1]) && Highest(Upper(max, bs[k]), bs[..k + 1])
  {
    assert bs[..k + 1] == bs[..k] + [bs[k]];
    LowestStep(min, bs[..k], bs[k]);
    HighestStep(max, bs[..k], bs[k]);
  }

  /** Taking one more box into the minimum corner keeps it the minimum. */
  lemma LowestStep(v: Vector3, bs: seq<Box>, b: Box)
    requires Lowest(v, bs)
    ensures Lowest(Lower(v, b), bs + [b])
  {
    assert (bs + [b])[|bs|] == b;
    assert forall k :: 0 <= k < |bs| ==> (bs + [b])[k] == bs[k];
  }

  /** Taking one more box into the maximum corner keeps it the maximum. */
  lemma HighestStep(v: Vector3, bs: seq<Box>, b: Box)
    requires Highest(v, bs)
    ensures Highest(Upper(v, b), bs + [b])
  {
    assert (bs + [b])[|bs|] == b;
    assert forall k :: 0 <= k < |bs| ==> (bs + [b])[k] == bs[k];
  }
}
