/**
 * The voxel undo batch of Document/Models/EditableVoxelList.cs: the `UndoData` entries that
 * `AddVoxelWithoutUpdating` / `RemoveVoxelWithoutUpdating` record, and the batch action that
 * `CreateUndoAction(UndoData[], bool)` builds, which replays the entries in array order
 * using `C1` when undoing and `C2` when redoing.
 */
module VoxelBatches {
  import opened Wrappers
  import opened VoxelStorage

  /** `UndoData`: a cell with its colour before (`C1`) and after (`C2`) one edit; None is "absent". */
  datatype UndoData = UndoData(x: int, y: int, z: int, c1: Option<int>, c2: Option<int>)

  function EntryCell(d: UndoData): Cell
  {
    Cell(d.x, d.y, d.z)
  }

  /** The colour an entry restores: `C1` when undoing, `C2` when redoing. */
  function Chosen(d: UndoData, isUndo: bool): Option<int>
  {
    if isUndo then d.c1 else d.c2
  }

  /** One step of the batch action: write the chosen colour, or remove the cell when there is none. */
  ghost function ApplyEntry(view: seq<BlockView<int>>, d: UndoData, isUndo: bool, dflt: int): (r: seq<BlockView<int>>)
    requires WellFormed(view)
    ensures WellFormed(r)
  {
    var c := Chosen(d, isUndo);
    if c.Some? then SetCell(view, EntryCell(d), c.value, dflt) else ClearCell(view, EntryCell(d), dflt)
  }

  /** The batch action: every entry applied, in array order (the `foreach` of the action). */
  ghost function Replay(view: seq<BlockView<int>>, data: seq<UndoData>, isUndo: bool, dflt: int): (r: seq<BlockView<int>>)
    requires WellFormed(view)
    ensures WellFormed(r)
    decreases |data|
  {
    if |data| == 0 then view
    else ApplyEntry(Replay(view, data[..|data| - 1], isUndo, dflt), data[|data| - 1], isUndo, dflt)
  }

  /** Replaying one more entry applies it to the replay of the entries before it. */
  lemma ReplayStep(view: seq<BlockView<int>>, data: seq<UndoData>, j: int, isUndo: bool, dflt: int)
    requires WellFormed(view) && 0 <= j < |data|
    ensures Replay(view, data[..j + 1], isUndo, dflt) == ApplyEntry(Replay(view, data[..j], isUndo, dflt), data[j], isUndo, dflt)
  {
    assert data[..j + 1][..j] == data[..j];
  }

  /** What a cell holds after a replay: the chosen colour of the last entry for it, else `before`. */
  function LastWrite(data: seq<UndoData>, isUndo: bool, c: Cell, before: Option<int>): Option<int>
    decreases |data|
  {
    if |data| == 0 then before
    else if EntryCell(data[|data| - 1]) == c then Chosen(data[|data| - 1], isUndo)
    else LastWrite(data[..|data| - 1], isUndo, c, before)
  }

  /** Some entry of `data` is about cell `c`. */
  predicate Touches(data: seq<UndoData>, c: Cell)
  {
    exists j :: 0 <= j < |data| && EntryCell(data[j]) == c
  }

  /** Replaying a batch leaves each cell with its last write, and untouched cells as they were. */
  lemma {:induction false} ReplayLookup(view: seq<BlockView<int>>, data: seq<UndoData>, isUndo: bool, dflt: int, c: Cell)
    requires WellFormed(view)
    ensures Lookup(Replay(view, data, isUndo, dflt), c) == LastWrite(data, isUndo, c, Lookup(view, c))
    decreases |data|
  {
    if |data| > 0 {
      var d := data[|data| - 1];
      var before := Replay(view, data[..|data| - 1], isUndo, dflt);
      ReplayLookup(view, data[..|data| - 1], isUndo, dflt, c);
      if Chosen(d, isUndo).Some? {
        LookupSetCell(before, EntryCell(d), Chosen(d, isUndo).value, dflt, c);
      } else {
        LookupClearCell(before, EntryCell(d), dflt, c);
      }
    }
  }

  /** The last write to an untouched cell is what it held before. */
  lemma {:induction false} LastWriteUntouched(data: seq<UndoData>, isUndo: bool, c: Cell, before: Option<int>)
    requires !Touches(data, c)
    ensures LastWrite(data, isUndo, c, before) == before
    decreases |data|
  {
    if |data| > 0 {
      var init := data[..|data| - 1];
      assert !Touches(init, c) by {
        forall j | 0 <= j < |init| ensures EntryCell(init[j]) != c {
          assert init[j] == data[j];
        }
      }
      LastWriteUntouched(init, isUndo, c, before);
    }
  }

  /** The last write to a touched cell does not depend on what it held before. */
  lemma {:induction false} LastWriteTouched(data: seq<UndoData>, isUndo: bool, c: Cell, before: Option<int>, before': Option<int>)
    requires Touches(data, c)
    ensures LastWrite(data, isUndo, c, before) == LastWrite(data, isUndo, c, before')
    decreases |data|
  {
    var n := |data|;
    if EntryCell(data[n - 1]) != c {
      var init := data[..n - 1];
      var j :| 0 <= j < n && EntryCell(data[j]) == c;
      assert init[j] == data[j];
      LastWriteTouched(init, isUndo, c, before, before');
    }
  }

  /** With cells pairwise distinct, the last write to the cell of entry `j` is that entry's. */
  lemma {:induction false} LastWriteDistinct(data: seq<UndoData>, isUndo: bool, j: int, before: Option<int>)
    requires 0 <= j < |data| && Distinct(data)
    ensures LastWrite(data, isUndo, EntryCell(data[j]), before) == Chosen(data[j], isUndo)
    decreases |data|
  {
    var n := |data|;
    if j < n - 1 {
      var init := data[..n - 1];
      assert init[j] == data[j];
      assert Distinct(init) by {
        forall a, b | 0 <= a < b < |init| ensures EntryCell(init[a]) != EntryCell(init[b]) {
          assert init[a] == data[a] && init[b] == data[b];
        }
      }
      LastWriteDistinct(init, isUndo, j, before);
    }
  }

  /** No two entries are about the same cell. */
  predicate Distinct(data: seq<UndoData>)
  {
    forall a, b :: 0 <= a < b < |data| ==> EntryCell(data[a]) != EntryCell(data[b])
  }

  /**
   * `data` is what the unbuffered edits recorded starting from `view`: each entry's `C1` is
   * the cell's colour (`TryGet`) just before that edit, and the edit wrote `C2`.
   */
  ghost predicate Recorded(view: seq<BlockView<int>>, data: seq<UndoData>, dflt: int)
    requires WellFormed(view)
  {
    forall j :: 0 <= j < |data| ==>
      data[j].c1 == Lookup(Replay(view, data[..j], false, dflt), EntryCell(data[j]))
  }

  /**
   * Recording one more edit: if the store `now` agrees cell by cell with the redo of `data`,
   * then the entry `CreateUndoData` makes from `now` extends the recording, and the store
   * after the edit agrees with the redo of the longer batch.
   */
  lemma RecordStep(view: seq<BlockView<int>>, data: seq<UndoData>, dflt: int,
                   now: seq<BlockView<int>>, c: Cell, value: Option<int>)
    requires WellFormed(view) && WellFormed(now) && Recorded(view, data, dflt)
    requires forall d :: Lookup(now, d) == Lookup(Replay(view, data, false, dflt), d)
    ensures var e := UndoData(c.x, c.y, c.z, Lookup(now, c), value);
            && Recorded(view, data + [e], dflt)
            && forall d :: Lookup(ApplyEntry(now, e, false, dflt), d)
                           == Lookup(Replay(view, data + [e], false, dflt), d)
  {
    var e := UndoData(c.x, c.y, c.z, Lookup(now, c), value);
    var data' := data + [e];
    assert data'[..|data|] == data;
    forall j | 0 <= j < |data'|
      ensures data'[j].c1 == Lookup(Replay(view, data'[..j], false, dflt), EntryCell(data'[j]))
    {
      if j < |data| {
        assert data'[..j] == data[..j];
      }
    }
    forall d
      ensures Lookup(ApplyEntry(now, e, false, dflt), d) == Lookup(Replay(view, data', false, dflt), d)
    {
      var before := Replay(view, data, false, dflt);
      if value.Some? {
        LookupSetCell(now, c, value.value, dflt, d);
        LookupSetCell(before, c, value.value, dflt, d);
      } else {
        LookupClearCell(now, c, dflt, d);
        LookupClearCell(before, c, dflt, d);
      }
    }
  }

  /**
   * Undo of a recorded batch whose cells are pairwise distinct restores every cell to what it
   * held before the batch.
   */
  lemma UndoRestores(view: seq<BlockView<int>>, data: seq<UndoData>, dflt: int, c: Cell)
    requires WellFormed(view) && Recorded(view, data, dflt) && Distinct(data)
    ensures Lookup(Replay(Replay(view, data, false, dflt), data, true, dflt), c) == Lookup(view, c)
  {
    var after := Replay(view, data, false, dflt);
    ReplayLookup(after, data, true, dflt, c);
    if Touches(data, c) {
      var j :| 0 <= j < |data| && EntryCell(data[j]) == c;
      LastWriteDistinct(data, true, j, Lookup(after, c));
      ReplayLookup(view, data[..j], false, dflt, c);
      assert !Touches(data[..j], c) by {
        forall a | 0 <= a < j ensures EntryCell(data[..j][a]) != c {
          assert data[..j][a] == data[a];
        }
      }
      LastWriteUntouched(data[..j], false, c, Lookup(view, c));
    } else {
      LastWriteUntouched(data, true, c, Lookup(after, c));
      ReplayLookup(view, data, false, dflt, c);
      LastWriteUntouched(data, false, c, Lookup(view, c));
    }
  }

  /** Redo after undo always brings back the state after the batch, repeated cells or not. */
  lemma RedoRestores(view: seq<BlockView<int>>, data: seq<UndoData>, dflt: int, c: Cell)
    requires WellFormed(view)
    ensures var after := Replay(view, data, false, dflt);
            Lookup(Replay(Replay(after, data, true, dflt), data, false, dflt), c) == Lookup(after, c)
  {
    var after := Replay(view, data, false, dflt);
    var undone := Replay(after, data, true, dflt);
    ReplayLookup(undone, data, false, dflt, c);
    ReplayLookup(view, data, false, dflt, c);
    if Touches(data, c) {
      LastWriteTouched(data, false, c, Lookup(undone, c), Lookup(view, c));
    } else {
      ReplayLookup(after, data, true, dflt, c);
      LastWriteUntouched(data, true, c, Lookup(after, c));
      LastWriteUntouched(data, false, c, Lookup(undone, c));
      LastWriteUntouched(data, false, c, Lookup(view, c));
    }
  }

  /**
   * With a repeated cell the forward undo does not restore: a cell first added with colour 1
   * and then recoloured 2 in one batch comes back as 1 instead of absent.
   */
  lemma UndoRepeatedCell(dflt: int)
    ensures var view: seq<BlockView<int>> := [];
            var c := Cell(0, 0, 0);
            var data := [UndoData(0, 0, 0, None, Some(1)), UndoData(0, 0, 0, Some(1), Some(2))];
            && Recorded(view, data, dflt)
            && Lookup(view, c) == None
            && Lookup(Replay(Replay(view, data, false, dflt), data, true, dflt), c) == Some(1)
  {
    var view: seq<BlockView<int>> := [];
    var c := Cell(0, 0, 0);
    var data := [UndoData(0, 0, 0, None, Some(1)), UndoData(0, 0, 0, Some(1), Some(2))];
    ReplayLookup(view, data[..1], false, dflt, c);
    assert data[..1][..0] == [];
    assert Lookup(Replay(view, data[..0], false, dflt), c) == None;
    assert Recorded(view, data, dflt);
    var after := Replay(view, data, false, dflt);
    ReplayLookup(after, data, true, dflt, c);
    assert data[..1] == [data[0]];
  }
}
