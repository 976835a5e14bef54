/**
 * The palette's tag runs (`ColorMetadata` in Document/Models/EditablePalette.cs): a list of
 * (Count, Tags) pairs, each tagging the next `Count` colours, and the single pass that
 * `SetMetadata` makes over that list to tag the colour range [start, end).
 */
module TagRuns {
  import opened Wrappers

  /** One run: `Count` consecutive colours carrying `Tags` (a C# string, possibly null). */
  datatype ColorMetadata = ColorMetadata(count: int, tags: Option<string>)

  /** The run list after the pass, and whether the pass threw. */
  datatype PassOutcome = PassOutcome(runs: seq<ColorMetadata>, thrown: bool)

  /** The colours covered by `runs`: the sum of their counts. */
  function Sum(runs: seq<ColorMetadata>): int
    decreases |runs|
  {
    if |runs| == 0 then 0 else Sum(runs[..|runs| - 1]) + runs[|runs| - 1].count
  }

  lemma {:induction false} SumAppend(a: seq<ColorMetadata>, b: seq<ColorMetadata>)
    ensures Sum(a + b) == Sum(a) + Sum(b)
    decreases |b|
  {
    if |b| > 0 {
      var ab := a + b;
      SumAppend(a, b[..|b| - 1]);
      assert ab[..|ab| - 1] == a + b[..|b| - 1];
      assert ab[|ab| - 1] == b[|b| - 1];
      assert Sum(ab) == Sum(ab[..|ab| - 1]) + ab[|ab| - 1].count;
    } else {
      assert a + b == a;
    }
  }

  /** A sum of a prefix grows by the next run's count. */
  lemma SumStep(runs: seq<ColorMetadata>, j: int)
    requires 0 <= j < |runs|
    ensures Sum(runs[..j + 1]) == Sum(runs[..j]) + runs[j].count
    ensures EndOf(runs, j) == Sum(runs[..j]) + runs[j].count
  {
    assert runs[..j + 1][..j] == runs[..j];
  }

  /** The colour index just past run `j`. */
  function EndOf(runs: seq<ColorMetadata>, j: int): int
    requires 0 <= j < |runs|
  {
    Sum(runs[..j + 1])
  }

  /**
   * The `for` loop of `SetMetadata` from index `i`, with `ci` the running colour index it has
   * computed so far. At the first run reaching `start` it either truncates that run to end at
   * `start` (when it begins before `start`) or removes it, and the loop then steps past the run
   * that now sits at `i`; at the first run reaching `end` it cuts that run down to its part
   * after `end`, inserts the new run `(end - start, tags)` before it and stops. Stepping past
   * the end of the list after a removal reads `_metadata[Count]`, which throws.
   */
  function TagPass(runs: seq<ColorMetadata>, i: int, ci: int, start: int, end: int, tags: Option<string>): PassOutcome
    requires 0 <= i <= |runs|
    decreases |runs| - i
  {
    if i == |runs| then PassOutcome(runs, false)
    else
      var r := runs[i];
      if ci + r.count < start then TagPass(runs, i + 1, ci + r.count, start, end, tags)
      else if ci + r.count >= end then
        var cut := if ci + r.count > end then runs[i := ColorMetadata(ci + r.count - end, r.tags)] else runs;
        PassOutcome(cut[..i] + [ColorMetadata(end - start, tags)] + cut[i..], false)
      else if ci < start then
        var t := runs[i := ColorMetadata(start - ci, r.tags)];
        TagPass(t, i + 1, ci + (start - ci), start, end, tags)
      else
        var t := runs[..i] + runs[i + 1..];
        if i >= |t| then PassOutcome(t, true)
        else TagPass(t, i + 1, ci + t[i].count, start, end, tags)
  }

  /** What `SetMetadata(start, end, tags)` does to the run list. */
  function SetMetadataPass(runs: seq<ColorMetadata>, start: int, end: int, tags: Option<string>): PassOutcome
  {
    TagPass(runs, 0, 0, start, end, tags)
  }

  /** The pass never touches the runs before the index it starts from. */
  lemma {:induction false} TagPassKeepsPrefix(runs: seq<ColorMetadata>, i: int, ci: int, start: int, end: int, tags: Option<string>)
    requires 0 <= i <= |runs|
    ensures var out := TagPass(runs, i, ci, start, end, tags).runs;
            i <= |out| && out[..i] == runs[..i]
    decreases |runs| - i
  {
    if i < |runs| {
      var r := runs[i];
      if ci + r.count < start {
        TagPassKeepsPrefix(runs, i + 1, ci + r.count, start, end, tags);
        var out := TagPass(runs, i + 1, ci + r.count, start, end, tags).runs;
        assert out[..i] == out[..i + 1][..i] == runs[..i + 1][..i] == runs[..i];
      } else if ci + r.count >= end {
      } else if ci < start {
        var t := runs[i := ColorMetadata(start - ci, r.tags)];
        TagPassKeepsPrefix(t, i + 1, ci + (start - ci), start, end, tags);
        var out := TagPass(t, i + 1, ci + (start - ci), start, end, tags).runs;
        assert TagPass(runs, i, ci, start, end, tags).runs == out;
        assert out[..i] == out[..i + 1][..i] == t[..i + 1][..i] == runs[..i];
      } else {
        var t := runs[..i] + runs[i + 1..];
        if i < |t| {
          TagPassKeepsPrefix(t, i + 1, ci + t[i].count, start, end, tags);
          var out := TagPass(t, i + 1, ci + t[i].count, start, end, tags).runs;
          assert TagPass(runs, i, ci, start, end, tags).runs == out;
          assert out[..i] == out[..i + 1][..i] == t[..i + 1][..i] == runs[..i];
        }
      }
    }
  }

  /** Runs that end before `start` are stepped over one by one. */
  lemma {:induction false} TagPassSkips(runs: seq<ColorMetadata>, i: int, p: int, start: int, end: int, tags: Option<string>)
    requires 0 <= i <= p <= |runs|
    requires forall j :: i <= j < p ==> EndOf(runs, j) < start
    ensures TagPass(runs, i, Sum(runs[..i]), start, end, tags) == TagPass(runs, p, Sum(runs[..p]), start, end, tags)
    decreases p - i
  {
    if i < p {
      SumStep(runs, i);
      TagPassSkips(runs, i + 1, p, start, end, tags);
    }
  }

  /**
   * `SetMetadata` leaves untouched every leading run that ends before `start`; on an empty
   * list it changes nothing and does not throw.
   */
  lemma SetMetadataKeepsLeadingRuns(runs: seq<ColorMetadata>, p: int, start: int, end: int, tags: Option<string>)
    requires 0 <= p <= |runs|
    requires forall j :: 0 <= j < p ==> EndOf(runs, j) < start
    ensures var out := SetMetadataPass(runs, start, end, tags).runs;
            p <= |out| && out[..p] == runs[..p]
    ensures runs == [] ==> SetMetadataPass(runs, start, end, tags) == PassOutcome([], false)
  {
    assert runs[..0] == [];
    TagPassSkips(runs, 0, p, start, end, tags);
    TagPassKeepsPrefix(runs, p, Sum(runs[..p]), start, end, tags);
  }

  /** Positive counts after `j` make the whole list cover more colours than its first `j + 1` runs. */
  lemma {:induction false} SumPrefixBelow(a: seq<ColorMetadata>, j: int)
    requires 0 <= j < |a| && forall k :: 0 <= k < |a| ==> a[k].count > 0
    ensures j + 1 < |a| ==> Sum(a[..j + 1]) < Sum(a)
    ensures Sum(a[..j + 1]) <= Sum(a)
    decreases |a| - j
  {
    if j + 1 < |a| {
      SumPrefixBelow(a, j + 1);
      SumStep(a, j + 1);
    } else {
      assert a[..j + 1] == a;
    }
  }

  /**
   * Tagging exactly the colours of an existing run `r` (all counts positive) does not retag
   * it: the new run is inserted in front of `r`, `r` stays, and the list covers `r.count`
   * more colours than before.
   */
  lemma SetMetadataOnWholeRun(a: seq<ColorMetadata>, r: ColorMetadata, b: seq<ColorMetadata>, tags: Option<string>)
    requires forall k :: 0 <= k < |a| ==> a[k].count > 0
    requires r.count > 0
    ensures var runs := a + [r] + b;
            var out := SetMetadataPass(runs, Sum(a), Sum(a) + r.count, tags);
            && out == PassOutcome(a + [ColorMetadata(r.count, tags), r] + b, false)
            && Sum(out.runs) == Sum(runs) + r.count
  {
    var runs := a + [r] + b;
    PassReachesRun(a, r, b, tags);
    InsertBeforeRun(runs, |a|, Sum(a), Sum(a) + r.count, tags);
    WholeRunShape(a, r, b, ColorMetadata(r.count, tags));
    SumInsert(a, ColorMetadata(r.count, tags), [r] + b);
  }

  /** How the lists of `SetMetadataOnWholeRun` split around position `|a|`. */
  lemma WholeRunShape(a: seq<ColorMetadata>, r: ColorMetadata, b: seq<ColorMetadata>, x: ColorMetadata)
    ensures var runs := a + [r] + b;
            && runs[..|a|] + [x] + runs[|a|..] == a + [x, r] + b
            && a + [x, r] + b == a + [x] + ([r] + b)
            && runs == a + ([r] + b)
  {
    var runs := a + [r] + b;
    assert runs[..|a|] == a;
    assert runs[|a|..] == [r] + b;
  }

  /** A run that reaches exactly `end` gets the new run inserted in front of it, whole. */
  lemma InsertBeforeRun(runs: seq<ColorMetadata>, i: int, start: int, end: int, tags: Option<string>)
    requires 0 <= i < |runs| && start < end && runs[i].count == end - start
    ensures TagPass(runs, i, start, start, end, tags)
            == PassOutcome(runs[..i] + [ColorMetadata(end - start, tags)] + runs[i..], false)
  {
  }

  /** Inserting one run adds its count to the sum. */
  lemma SumInsert(a: seq<ColorMetadata>, x: ColorMetadata, b: seq<ColorMetadata>)
    ensures Sum(a + [x] + b) == Sum(a + b) + x.count
  {
    SumAppend(a + [x], b);
    SumAppend(a, [x]);
    SumAppend(a, b);
  }

  /** The pass of `SetMetadataOnWholeRun` arrives at `r` with `ci == start` and the list intact. */
  lemma PassReachesRun(a: seq<ColorMetadata>, r: ColorMetadata, b: seq<ColorMetadata>, tags: Option<string>)
    requires forall k :: 0 <= k < |a| ==> a[k].count > 0
    requires r.count > 0
    ensures var runs := a + [r] + b;
            SetMetadataPass(runs, Sum(a), Sum(a) + r.count, tags)
            == TagPass(runs, |a|, Sum(a), Sum(a), Sum(a) + r.count, tags)
  {
    var runs := a + [r] + b;
    var start, end := Sum(a), Sum(a) + r.count;
    var n := |a|;
    assert runs[..0] == [];
    if n > 0 {
      forall j | 0 <= j < n - 1
        ensures EndOf(runs, j) < start
      {
        SumPrefixBelow(a, j);
        assert runs[..j + 1] == a[..j + 1];
      }
      TagPassSkips(runs, 0, n - 1, start, end, tags);
      LastLeadingRun(a, r, b, tags);
    }
  }

  /** At the last run of `a` the pass "truncates" it to its own length and steps on. */
  lemma LastLeadingRun(a: seq<ColorMetadata>, r: ColorMetadata, b: seq<ColorMetadata>, tags: Option<string>)
    requires |a| > 0 && a[|a| - 1].count > 0 && r.count > 0
    ensures var runs := a + [r] + b;
            TagPass(runs, |a| - 1, Sum(runs[..|a| - 1]), Sum(a), Sum(a) + r.count, tags)
            == TagPass(runs, |a|, Sum(a), Sum(a), Sum(a) + r.count, tags)
  {
    var runs := a + [r] + b;
    var n := |a|;
    assert runs[..n - 1] == a[..n - 1];
    assert runs[n - 1] == a[n - 1];
    SumStep(a, n - 1);
    assert a[..n] == a;
    var ci := Sum(runs[..n - 1]);
    assert runs[n - 1 := ColorMetadata(Sum(a) - ci, runs[n - 1].tags)] == runs;
  }

  /**
   * A range that starts at a run and ends past it removes that run; when it was the last run,
   * stepping past it throws. For example, one run of 5 colours tagged over [0, 10).
   */
  lemma SetMetadataRemovingLastRunThrows(t: Option<string>, tags: Option<string>)
    ensures SetMetadataPass([ColorMetadata(5, t)], 0, 10, tags) == PassOutcome([], true)
  {
  }

  /**
   * Removing a run inside the range also steps over the run after it. When that run is the one
   * reaching `end`, the loop ends without inserting the new run: [2, 8) over runs of 3, 3 and 4
   * colours truncates the first, removes the second and passes the third, so no colour gets
   * the new tags and the runs cover 6 colours instead of 10.
   */
  lemma SetMetadataRemovingSkipsEnd(a: Option<string>, b: Option<string>, c: Option<string>, tags: Option<string>)
    requires tags != a && tags != c
    ensures var runs := [ColorMetadata(3, a), ColorMetadata(3, b), ColorMetadata(4, c)];
            var out := SetMetadataPass(runs, 2, 8, tags);
            out == PassOutcome([ColorMetadata(2, a), ColorMetadata(4, c)], false) &&
            Sum(runs) == 10 && Sum(out.runs) == 6 &&
            TagsOf(out.runs) == [a, a, c, c, c, c] && tags !in TagsOf(out.runs)
  {
    var r0 := [ColorMetadata(3, a), ColorMetadata(3, b), ColorMetadata(4, c)];
    var r1 := r0[0 := ColorMetadata(2, a)];
    var r2 := r1[..1] + r1[2..];
    assert r2 == [ColorMetadata(2, a), ColorMetadata(4, c)];
    assert TagPass(r0, 0, 0, 2, 8, tags) == TagPass(r1, 1, 2, 2, 8, tags);
    assert TagPass(r1, 1, 2, 2, 8, tags) == TagPass(r2, 2, 6, 2, 8, tags);
    assert TagPass(r2, 2, 6, 2, 8, tags) == PassOutcome(r2, false);
    TagsOfAppend([ColorMetadata(2, a)], [ColorMetadata(4, c)]);
    assert [ColorMetadata(2, a)] + [ColorMetadata(4, c)] == r2;
    assert TagsOf([ColorMetadata(2, a)]) == [a, a];
    assert TagsOf([ColorMetadata(4, c)]) == [c, c, c, c];
    assert r0[..2][..1] == [ColorMetadata(3, a)] && [ColorMetadata(3, a)][..0] == [];
    assert Sum([ColorMetadata(3, a)]) == 3;
    assert Sum(r0[..2]) == Sum(r0[..2][..1]) + 3 == 6;
    assert Sum(r0) == Sum(r0[..2]) + 4 == 10;
    assert r2[..1] == [ColorMetadata(2, a)] && [ColorMetadata(2, a)][..0] == [];
    assert Sum(r2[..1]) == 2;
    assert Sum(r2) == Sum(r2[..1]) + 4 == 6;
  }

  /**
   * A range strictly inside one run `r`, which begins at colour `ci` (all counts positive),
   * loses the part of `r` before `start`: the new run and the part of `r` after `end` replace
   * `r`, so the runs cover `start - ci` colours fewer than before.
   */
  lemma SetMetadataInsideRun(a: seq<ColorMetadata>, r: ColorMetadata, b: seq<ColorMetadata>,
                             ci: int, start: int, end: int, tags: Option<string>)
    requires forall k :: 0 <= k < |a| ==> a[k].count > 0
    requires ci == Sum(a) && ci < start < end < ci + r.count
    ensures var runs := a + [r] + b;
            var out := SetMetadataPass(runs, start, end, tags);
            && out == PassOutcome(a + [ColorMetadata(end - start, tags), ColorMetadata(ci + r.count - end, r.tags)] + b, false)
            && Sum(out.runs) == Sum(runs) - (start - ci)
  {
    var x, y := ColorMetadata(end - start, tags), ColorMetadata(ci + r.count - end, r.tags);
    PassReachesInside(a, r, b, start, end, tags);
    CutInside(a, r, b, ci, start, end, tags);
    SumPieces(a, [x, y], b);
    SumPieces(a, [r], b);
    assert [x, y][..1] == [x];
    assert [r][..0] == [x][..0] == [];
  }

  /** The sum over `a + m + b` is the sum of the three sums. */
  lemma SumPieces(a: seq<ColorMetadata>, m: seq<ColorMetadata>, b: seq<ColorMetadata>)
    ensures Sum(a + m + b) == Sum(a) + Sum(m) + Sum(b)
  {
    SumAppend(a + m, b);
    SumAppend(a, m);
  }

  /** At `r`, which reaches past `end`, the pass cuts `r` down to its part after `end` and inserts the new run. */
  lemma CutInside(a: seq<ColorMetadata>, r: ColorMetadata, b: seq<ColorMetadata>, ci: int, start: int, end: int, tags: Option<string>)
    requires ci + r.count > end && ci + r.count >= start
    ensures TagPass(a + [r] + b, |a|, ci, start, end, tags)
            == PassOutcome(a + [ColorMetadata(end - start, tags), ColorMetadata(ci + r.count - end, r.tags)] + b, false)
  {
    var runs := a + [r] + b;
    assert runs[|a|] == r;
    InsideShape(a, r, b, ColorMetadata(end - start, tags), ColorMetadata(ci + r.count - end, r.tags));
  }

  /** How the lists of `SetMetadataInsideRun` split around position `|a|`. */
  lemma InsideShape(a: seq<ColorMetadata>, r: ColorMetadata, b: seq<ColorMetadata>, x: ColorMetadata, y: ColorMetadata)
    ensures var cut := (a + [r] + b)[|a| := y];
            && cut[..|a|] + [x] + cut[|a|..] == a + [x, y] + b
            && a + ([y] + b) == a + [y] + b
  {
    var cut := (a + [r] + b)[|a| := y];
    assert cut[..|a|] == a;
    assert cut[|a|..] == [y] + b;
  }

  /** The pass of `SetMetadataInsideRun` steps over `a` and arrives at `r` with `ci == Sum(a)`. */
  lemma PassReachesInside(a: seq<ColorMetadata>, r: ColorMetadata, b: seq<ColorMetadata>,
                          start: int, end: int, tags: Option<string>)
    requires forall k :: 0 <= k < |a| ==> a[k].count > 0
    requires Sum(a) < start
    ensures var runs := a + [r] + b;
            SetMetadataPass(runs, start, end, tags) == TagPass(runs, |a|, Sum(a), start, end, tags)
  {
    var runs := a + [r] + b;
    assert runs[..0] == [];
    forall j | 0 <= j < |a|
      ensures EndOf(runs, j) < start
    {
      SumPrefixBelow(a, j);
      assert runs[..j + 1] == a[..j + 1];
    }
    TagPassSkips(runs, 0, |a|, start, end, tags);
    assert runs[..|a|] == a;
  }

  /**
   * For example, one run of 10 colours tagged `t` and the range [2, 5): the runs become 3
   * colours of `tags` and 5 of `t`. Colour 0 now carries `tags`, and colours 8 and 9 are gone.
   */
  lemma SetMetadataLosesHead(t: Option<string>, tags: Option<string>)
    ensures var out := SetMetadataPass([ColorMetadata(10, t)], 2, 5, tags);
            && out == PassOutcome([ColorMetadata(3, tags), ColorMetadata(5, t)], false)
            && |TagsOf(out.runs)| == 8 && TagsOf(out.runs)[0] == tags
  {
    var out := [ColorMetadata(3, tags), ColorMetadata(5, t)];
    assert out[..1] == [ColorMetadata(3, tags)];
    assert [ColorMetadata(3, tags)][..0] == [];
    assert TagsOf(out[..1]) == Repeat(tags, 3);
    assert TagsOf(out) == Repeat(tags, 3) + Repeat(t, 5);
  }

  /** `n` copies of `t`, none when `n` is not positive. */
  function Repeat(t: Option<string>, n: int): (s: seq<Option<string>>)
    ensures |s| == if n > 0 then n else 0
    ensures forall k :: 0 <= k < |s| ==> s[k] == t
  {
    if n <= 0 then [] else seq(n, _ => t)
  }

  /** The tags of each colour in turn: `count` copies of each run's tags. */
  function TagsOf(runs: seq<ColorMetadata>): seq<Option<string>>
    decreases |runs|
  {
    if |runs| == 0 then [] else TagsOf(runs[..|runs| - 1]) + Repeat(runs[|runs| - 1].tags, runs[|runs| - 1].count)
  }

  lemma {:induction false} TagsOfAppend(a: seq<ColorMetadata>, b: seq<ColorMetadata>)
    ensures TagsOf(a + b) == TagsOf(a) + TagsOf(b)
    decreases |b|
  {
    if |b| > 0 {
      var ab := a + b;
      TagsOfAppend(a, b[..|b| - 1]);
      assert ab[..|ab| - 1] == a + b[..|b| - 1];
      assert ab[|ab| - 1] == b[|b| - 1];
    } else {
      assert a + b == a;
    }
  }

  /** With no negative count, a list of runs tags `Sum(runs)` colours. */
  lemma {:induction false} TagsOfLength(runs: seq<ColorMetadata>)
    requires forall k :: 0 <= k < |runs| ==> runs[k].count >= 0
    ensures |TagsOf(runs)| == Sum(runs)
    decreases |runs|
  {
    if |runs| > 0 {
      TagsOfLength(runs[..|runs| - 1]);
    }
  }

  /** A run of `n` colours, or no run when `n` is not positive. */
  function Part(n: int, t: Option<string>): seq<ColorMetadata>
  {
    if n > 0 then [ColorMetadata(n, t)] else []
  }

  /**
   * What the branch for the run `r` that reaches `end` evidently means to leave in place of `r`,
   * which begins at colour `ci`: the part of `r` before `start`, the new run, and the part of `r`
   * after `end`.
   */
  function SplitRun(r: ColorMetadata, ci: int, start: int, end: int, tags: Option<string>): seq<ColorMetadata>
  {
    Part(start - ci, r.tags) + [ColorMetadata(end - start, tags)] + Part(ci + r.count - end, r.tags)
  }

  /**
   * Splitting the run `r`, which begins at colour `ci` and holds the range [start, end),
   * retags exactly the colours of the range and keeps every other colour's tags and the
   * number of colours.
   */
  lemma SplitRunRetags(a: seq<ColorMetadata>, r: ColorMetadata, b: seq<ColorMetadata>,
                       ci: int, start: int, end: int, tags: Option<string>)
    requires forall k :: 0 <= k < |a| ==> a[k].count >= 0
    requires ci == Sum(a) && ci <= start <= end <= ci + r.count
    ensures var runs, out := a + [r] + b, a + SplitRun(r, ci, start, end, tags) + b;
            && |TagsOf(out)| == |TagsOf(runs)|
            && forall k :: 0 <= k < |TagsOf(runs)| ==>
                 TagsOf(out)[k] == if start <= k < end then tags else TagsOf(runs)[k]
  {
    TagsOfLength(a);
    TagsOfAround(a, r, b);
    TagsOfSplit(a, r, b, ci, start, end, tags);
    assert TagsOf(a + [r] + b) == TagsOf(a) + Repeat(r.tags, r.count) + TagsOf(b);
    assert TagsOf(a + SplitRun(r, ci, start, end, tags) + b) == TagsOf(a) + (Repeat(r.tags, start - ci) + Repeat(tags, end - start) + Repeat(r.tags, ci + r.count - end)) + TagsOf(b);
    RetagPieces(TagsOf(a + [r] + b), TagsOf(a + SplitRun(r, ci, start, end, tags) + b), TagsOf(a), TagsOf(b),
                r.tags, tags, r.count, start - ci, end - start, ci + r.count - end);
  }

  /** The colours of `a + [r] + b`: those of `a`, `r.count` copies of `r.tags`, those of `b`. */
  lemma TagsOfAround(a: seq<ColorMetadata>, r: ColorMetadata, b: seq<ColorMetadata>)
    ensures TagsOf(a + [r] + b) == TagsOf(a) + Repeat(r.tags, r.count) + TagsOf(b)
  {
    TagsOfAppend(a + [r], b);
    TagsOfAppend(a, [r]);
    assert [r][..0] == [];
  }

  /** The colours of `a + SplitRun(..) + b`, piece by piece. */
  lemma TagsOfSplit(a: seq<ColorMetadata>, r: ColorMetadata, b: seq<ColorMetadata>,
                    ci: int, start: int, end: int, tags: Option<string>)
    requires start <= end
    ensures TagsOf(a + SplitRun(r, ci, start, end, tags) + b)
            == TagsOf(a) + (Repeat(r.tags, start - ci) + Repeat(tags, end - start) + Repeat(r.tags, ci + r.count - end)) + TagsOf(b)
  {
    var head, mid, tail := Part(start - ci, r.tags), [ColorMetadata(end - start, tags)], Part(ci + r.count - end, r.tags);
    var split := SplitRun(r, ci, start, end, tags);
    TagsOfAppend(a + split, b);
    TagsOfAppend(a, split);
    TagsOfAppend(head + mid, tail);
    TagsOfAppend(head, mid);
    TagsOfPart(start - ci, r.tags);
    TagsOfPart(ci + r.count - end, r.tags);
    assert mid[..0] == [];
  }

  /**
   * Replacing the middle `n` of `count == m + n + p` copies of `t` by copies of `u` changes exactly the
   * entries from `|pre| + m` to `|pre| + m + n`.
   */
  lemma RetagPieces(before: seq<Option<string>>, after: seq<Option<string>>, pre: seq<Option<string>>,
                    post: seq<Option<string>>, t: Option<string>, u: Option<string>, count: int, m: int, n: int, p: int)
    requires 0 <= m && 0 <= n && 0 <= p && count == m + n + p
    requires before == pre + Repeat(t, count) + post
    requires after == pre + (Repeat(t, m) + Repeat(u, n) + Repeat(t, p)) + post
    ensures |after| == |before|
    ensures forall k :: 0 <= k < |before| ==> after[k] == if |pre| + m <= k < |pre| + m + n then u else before[k]
  {
  }

  /** A run of `n` colours tags `n` colours. */
  lemma TagsOfPart(n: int, t: Option<string>)
    ensures TagsOf(Part(n, t)) == Repeat(t, n)
  {
    if n > 0 {
      assert [ColorMetadata(n, t)][..0] == [];
    }
  }
}
