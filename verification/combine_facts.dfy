/** What the outer join of `process_coverage_data` guarantees: every output row comes from
    a Facebook row, an ITU row or a matching pair of both, its school id is one of theirs
    and never missing, and each generation's flag is the OR of the partners' flags, a
    missing partner counting as false. */
module CombineFacts {
  import opened Strings
  import opened Tables
  import opened Coverage
  import opened CoverageFacts

  // ---------------------------------------------------------------------------------
  // Labels.
  // ---------------------------------------------------------------------------------

  /** The label an ITU column gets in the merge: a flag both partners have gets `_itu`. */
  function ItuLabel(c: string): string {
    if c in FB_KEEP && c != KEY then c + ITU_SUFFIX else c
  }

  /** Among the Facebook labels exactly generation `g` starts with `g`. */
  lemma FacebookLabelPrefix(c: string, g: string)
    requires c in FB_KEEP && IsGeneration(g)
    ensures StartsWith(c, g) <==> c == g
  {
    if StartsWith(c, g) {
      assert c[0] == g[0];
      assert c[..|g|] == c;
    }
  }

  /** Among the merged ITU labels exactly the copies of generation `g` start with `g`. */
  lemma ItuLabelPrefix(c: string, g: string)
    requires c in ITU_KEEP && IsGeneration(g)
    ensures StartsWith(ItuLabel(c), g) <==> c == g
  {
    ItuKeepInitials();
    LabelPrefix(c, g);
  }

  /** A generation, or a label that does not start with a generation's digit. */
  predicate GenerationOrOther(c: string) {
    IsGeneration(c) || (|c| > 0 && c[0] != '2' && c[0] != '3' && c[0] != '4')
  }

  lemma LabelPrefix(c: string, g: string)
    requires GenerationOrOther(c) && IsGeneration(g)
    ensures StartsWith(ItuLabel(c), g) <==> c == g
  {
    if c == g {
      assert ItuLabel(c) == g + ITU_SUFFIX;
      assert (g + ITU_SUFFIX)[..|g|] == g;
    } else if IsGeneration(c) {
      assert ItuLabel(c)[0] == c[0];
    } else {
      assert ItuLabel(c) == c;
      assert g[0] == '2' || g[0] == '3' || g[0] == '4';
    }
  }

  /** The ITU labels other than the generations do not start with a digit of one. */
  lemma ItuKeepInitials()
    ensures forall c :: c in ITU_KEEP ==> GenerationOrOther(c)
  {
  }

  /** The labels of the outer merge of the Facebook selection with an ITU selection whose
      first label is the school id. */
  lemma MergedCoverageColumns(p: seq<string>)
    requires |p| > 0 && p[0] == KEY
    ensures MergedColumns(FB_KEEP, p, 0, "", ITU_SUFFIX) ==
            FB_KEEP + seq(|p| - 1, j requires 0 <= j < |p| - 1 => ItuLabel(p[j + 1]))
  {
    var rest := RemoveAt(p, 0);
    assert forall c: string :: c + "" == c;
    assert seq(|FB_KEEP|, j requires 0 <= j < |FB_KEEP| =>
             if FB_KEEP[j] != KEY && FB_KEEP[j] in rest then FB_KEEP[j] + "" else FB_KEEP[j]) == FB_KEEP;
  }

  // ---------------------------------------------------------------------------------
  // Where the selected rows come from.
  // ---------------------------------------------------------------------------------

  /** Lower-casing the listed ITU labels leaves the school id and the flags where they were. */
  lemma LowerItuKeeps(t: Table, c: string)
    requires WellFormed(t) && (c == KEY || IsGeneration(c))
    ensures WellFormed(LowerItuColumns(t))
    ensures c in LowerItuColumns(t).columns <==> c in t.columns
    ensures c in t.columns ==> IndexOf(LowerItuColumns(t).columns, c) == IndexOf(t.columns, c)
  {
    var l := LowerItuColumns(t);
    assert forall j :: 0 <= j < |t.columns| ==> (l.columns[j] == c <==> t.columns[j] == c) by {
      forall j | 0 <= j < |t.columns| ensures l.columns[j] == c <==> t.columns[j] == c {
        if t.columns[j] in ITU_RENAME {
          assert |l.columns[j]| == |t.columns[j]|;
        }
      }
    }
    if c in t.columns {
      var k := IndexOf(t.columns, c);
      assert c !in l.columns[..k] by {
        forall x | 0 <= x < k ensures l.columns[x] != c {
          assert t.columns[x] in t.columns[..k];
        }
      }
      IndexOfUnique(l.columns, c, k);
    }
  }

  /** A row of the Facebook selection is a row of the flagged table with a school id,
      restricted to the Facebook labels. */
  lemma FacebookRow(f: Table, a: nat) returns (a0: nat)
    requires WellFormed(f) && FacebookSelection(f).Ok? && a < |FbSel(f).rows|
    ensures FbMatch(f, a, a0) && Get(f, a0, KEY) != Null
  {
    var d := DropMissing(f, KEY).value;
    assert forall k :: 0 <= k < |FB_KEEP| ==> FB_KEEP[k] in d.columns;
    a0 :| 0 <= a0 < |f.rows| && f.rows[a0] == d.rows[a];
  }

  /** The ITU selection starts with the school id, holds it once, holds only allowed labels,
      and holds a flag exactly when the ITU table has it. */
  lemma ItuSelectionColumns(it: Table)
    requires WellFormed(it) && ItuSelection(LowerItuColumns(it)).Ok?
    ensures var p := ItuSelection(LowerItuColumns(it)).value.columns;
      |p| > 0 && p[0] == KEY && KEY !in p[1..] && KEY in it.columns &&
      (forall c :: c in p ==> c in ITU_KEEP) &&
      (forall g :: IsGeneration(g) ==> (g in p <==> g in it.columns))
  {
    var l := LowerItuColumns(it);
    LowerItuKeeps(it, KEY);
    LowerItuKeeps(it, COVERAGE_2G);
    LowerItuKeeps(it, COVERAGE_3G);
    LowerItuKeeps(it, COVERAGE_4G);
    var d := DropMissing(l, KEY).value;
    KeyOnceInItuKeep();
    PresentFirst(ITU_KEEP, d.columns);
  }

  lemma KeyOnceInItuKeep()
    ensures |ITU_KEEP| > 0 && ITU_KEEP[0] == KEY && KEY !in ITU_KEEP[1..]
  {
  }

  /** A first name that is present, and not repeated, comes first and only there. */
  lemma PresentFirst(names: seq<string>, cols: seq<string>)
    requires names != [] && names[0] in cols && names[0] !in names[1..]
    ensures var p := Present(names, cols); |p| > 0 && p[0] == names[0] && names[0] !in p[1..]
  {
    assert Present(names, cols) == [names[0]] + Present(names[1..], cols);
  }

  /** A row of the ITU selection is a row of the flagged ITU table with a school id: its
      school id and flag cells are that row's. */
  lemma ItuRow(it: Table, b: nat) returns (b0: nat)
    requires WellFormed(it) && ItuSelection(LowerItuColumns(it)).Ok? && b < |ItuSel(it).rows|
    ensures ItuMatch(it, b, b0) && KEY in it.columns && Get(it, b0, KEY) != Null
  {
    var l := LowerItuColumns(it);
    var d := DropMissing(l, KEY).value;
    var its := ItuSel(it);
    LowerItuKeeps(it, KEY);
    b0 :| 0 <= b0 < |l.rows| && l.rows[b0] == d.rows[b];
    forall k | 0 <= k < |its.columns| && (its.columns[k] == KEY || IsGeneration(its.columns[k]))
      ensures its.columns[k] in it.columns && its.rows[b][k] == Get(it, b0, its.columns[k])
    {
      LowerItuKeeps(it, its.columns[k]);
    }
  }

  // ---------------------------------------------------------------------------------
  // The outer merge of the two selections.
  // ---------------------------------------------------------------------------------

  /** The shape of the two selections that the merge facts rely on. */
  predicate Selections(fs: Table, its: Table) {
    && WellFormed(fs) && WellFormed(its) && fs.columns == FB_KEEP
    && |its.columns| > 0 && its.columns[0] == KEY && KEY !in its.columns[1..]
    && (forall c :: c in its.columns ==> c in ITU_KEEP)
    && (forall b, k :: 0 <= b < |its.rows| && 0 <= k < |its.columns| && IsGeneration(its.columns[k]) ==>
          its.rows[b][k] == Get(its, b, its.columns[k]))
  }

  function Pairs(fs: Table, its: Table): seq<Pair>
    requires Selections(fs, its)
  {
    MergePairs(fs, its, 0, 0, true)
  }

  /** The merged labels. */
  function MergedLabels(p: seq<string>): (cs: seq<string>)
    requires |p| > 0
    ensures |cs| == |FB_KEEP| + |p| - 1
  {
    FB_KEEP + seq(|p| - 1, j requires 0 <= j < |p| - 1 => ItuLabel(p[j + 1]))
  }

  /** The merged table: the Facebook labels, then the ITU labels after the school id; each
      row the Facebook cells (or the ITU school id and nulls), then the ITU cells after the
      school id (or nulls). */
  lemma MergeView(fs: Table, its: Table)
    requires Selections(fs, its)
    ensures Merge(fs, its, KEY, "", ITU_SUFFIX, true).Ok?
    ensures var m := Merge(fs, its, KEY, "", ITU_SUFFIX, true).value;
      && m.columns == MergedLabels(its.columns)
      && |m.rows| == |Pairs(fs, its)|
      && (forall p :: p in Pairs(fs, its) ==> ValidPair(fs, its, 0, 0, p))
      && forall x :: 0 <= x < |m.rows| ==> m.rows[x] == MergedRow(fs, its, 0, 0, Pairs(fs, its)[x])
  {
    assert IndexOf(its.columns, KEY) == 0;
    assert IndexOf(fs.columns, KEY) == 0;
    MergedCoverageColumns(its.columns);
    MergePairsValid(fs, its, 0, 0, true);
  }

  /** Whether either side of a merge pair flags generation `g`; a missing side, or an ITU
      selection without that flag, counts as false. */
  predicate PairFlag(fs: Table, its: Table, p: Pair, g: string)
    requires Selections(fs, its) && ValidPair(fs, its, 0, 0, p) && IsGeneration(g)
  {
    || (p.left.Some? && Truthy(Get(fs, p.left.value, g)))
    || (p.right.Some? && g in its.columns && Truthy(Get(its, p.right.value, g)))
  }

  /** A true cell under `g` in a merged row comes from a partner that flags `g`. */
  lemma RowAnyOnlyIf(fs: Table, its: Table, p: Pair, g: string)
    requires Selections(fs, its) && ValidPair(fs, its, 0, 0, p) && IsGeneration(g)
    requires RowHasPrefix(MergedLabels(its.columns), MergedRow(fs, its, 0, 0, p), g)
    ensures PairFlag(fs, its, p, g)
  {
    var cs := MergedLabels(its.columns);
    var row := MergedRow(fs, its, 0, 0, p);
    var j :| 0 <= j < |cs| && StartsWith(cs[j], g) && Truthy(row[j]);
    if j < |FB_KEEP| {
      LeftCellFlag(fs, its, p, g, j);
    } else {
      var k := j - |FB_KEEP| + 1;
      SelectedItuColumn(fs, its, p, k);
      RightCellFlag(fs, its, p, g, j);
    }
  }

  /** What the selections promise about one ITU column of a valid pair. */
  lemma SelectedItuColumn(fs: Table, its: Table, p: Pair, k: nat)
    requires Selections(fs, its) && ValidPair(fs, its, 0, 0, p) && k < |its.columns|
    ensures GenerationOrOther(its.columns[k])
    ensures p.right.Some? && IsGeneration(its.columns[k]) ==>
      its.rows[p.right.value][k] == Get(its, p.right.value, its.columns[k])
  {
    assert its.columns[k] in its.columns;
    ItuKeepInitials();
  }

  /** The labels and cells of a merged row on the ITU side, after the Facebook four. */
  lemma MergedRightCell(fs: Table, its: Table, p: Pair, j: nat)
    requires KeyAt(fs, 0) && KeyAt(its, 0) && fs.columns == FB_KEEP && ValidPair(fs, its, 0, 0, p)
    requires |FB_KEEP| <= j < |MergedLabels(its.columns)|
    ensures MergedLabels(its.columns)[j] == ItuLabel(its.columns[j - |FB_KEEP| + 1])
    ensures MergedRow(fs, its, 0, 0, p)[j] ==
      if p.right.Some? then its.rows[p.right.value][j - |FB_KEEP| + 1] else Null
  {
    MergedRightLabel(its.columns, j);
    var row := MergedRow(fs, its, 0, 0, p);
    var right := if p.right.Some? then RemoveAt(its.rows[p.right.value], 0) else Nulls(|its.columns| - 1);
    assert row[|FB_KEEP|..] == right;
    assert row[j] == right[j - |FB_KEEP|];
  }

  lemma MergedRightLabel(cs: seq<string>, j: nat)
    requires |cs| > 0 && |FB_KEEP| <= j < |MergedLabels(cs)|
    ensures MergedLabels(cs)[j] == ItuLabel(cs[j - |FB_KEEP| + 1])
  {
    TailLabel(FB_KEEP, cs, j);
  }

  lemma TailLabel(head: seq<string>, cs: seq<string>, j: nat)
    requires |cs| > 0 && |head| <= j < |head| + |cs| - 1
    ensures (head + seq(|cs| - 1, i requires 0 <= i < |cs| - 1 => ItuLabel(cs[i + 1])))[j] == ItuLabel(cs[j - |head| + 1])
  {
    var tail := seq(|cs| - 1, i requires 0 <= i < |cs| - 1 => ItuLabel(cs[i + 1]));
    assert (head + tail)[j] == tail[j - |head|];
  }

  /** The cells of a merged row on the Facebook side. */
  lemma MergedLeftCell(fs: Table, its: Table, p: Pair, j: nat)
    requires KeyAt(fs, 0) && KeyAt(its, 0) && fs.columns == FB_KEEP && ValidPair(fs, its, 0, 0, p)
    requires p.left.Some? && j < |FB_KEEP|
    ensures MergedLabels(its.columns)[j] == FB_KEEP[j]
    ensures MergedRow(fs, its, 0, 0, p)[j] == fs.rows[p.left.value][j]
  {
  }

  lemma LeftCellFlag(fs: Table, its: Table, p: Pair, g: string, j: nat)
    requires Selections(fs, its) && ValidPair(fs, its, 0, 0, p) && IsGeneration(g) && j < |FB_KEEP|
    requires StartsWith(MergedLabels(its.columns)[j], g) && Truthy(MergedRow(fs, its, 0, 0, p)[j])
    ensures p.left.Some? && Truthy(Get(fs, p.left.value, g))
  {
    FacebookLabelPrefix(FB_KEEP[j], g);
    assert j == IndexOf(FB_KEEP, g);
  }

  lemma RightCellFlag(fs: Table, its: Table, p: Pair, g: string, j: nat)
    requires KeyAt(fs, 0) && KeyAt(its, 0) && fs.columns == FB_KEEP && ValidPair(fs, its, 0, 0, p) && IsGeneration(g)
    requires |FB_KEEP| <= j < |MergedLabels(its.columns)| && GenerationOrOther(its.columns[j - |FB_KEEP| + 1])
    requires p.right.Some? && IsGeneration(its.columns[j - |FB_KEEP| + 1]) ==>
      its.rows[p.right.value][j - |FB_KEEP| + 1] == Get(its, p.right.value, its.columns[j - |FB_KEEP| + 1])
    requires StartsWith(MergedLabels(its.columns)[j], g) && Truthy(MergedRow(fs, its, 0, 0, p)[j])
    ensures p.right.Some? && g in its.columns && Truthy(Get(its, p.right.value, g))
  {
    var k := j - |FB_KEEP| + 1;
    var c := its.columns[k];
    MergedRightCell(fs, its, p, j);
    LabelPrefix(c, g);
    assert c == g;
    assert p.right.Some? by {
      assert !Truthy(Null);
    }
  }

  /** A partner that flags `g` puts a true cell under a label starting with `g`. */
  lemma RowAnyIf(fs: Table, its: Table, p: Pair, g: string)
    requires Selections(fs, its) && ValidPair(fs, its, 0, 0, p) && IsGeneration(g)
    requires PairFlag(fs, its, p, g)
    ensures RowHasPrefix(MergedLabels(its.columns), MergedRow(fs, its, 0, 0, p), g)
  {
    if p.left.Some? && Truthy(Get(fs, p.left.value, g)) {
      LeftCellTrue(fs, its, p, g);
    } else {
      assert its.columns[0] == KEY;
      RightCellTrue(fs, its, p, g);
    }
  }

  lemma LeftCellTrue(fs: Table, its: Table, p: Pair, g: string)
    requires KeyAt(fs, 0) && KeyAt(its, 0) && fs.columns == FB_KEEP && ValidPair(fs, its, 0, 0, p) && IsGeneration(g)
    requires p.left.Some? && Truthy(Get(fs, p.left.value, g))
    ensures RowHasPrefix(MergedLabels(its.columns), MergedRow(fs, its, 0, 0, p), g)
  {
    var kg := IndexOf(FB_KEEP, g);
    MergedLeftCell(fs, its, p, kg);
    assert StartsWith(MergedLabels(its.columns)[kg], g) by {
      assert MergedLabels(its.columns)[kg] == g;
    }
  }

  lemma RightCellTrue(fs: Table, its: Table, p: Pair, g: string)
    requires KeyAt(fs, 0) && KeyAt(its, 0) && fs.columns == FB_KEEP && ValidPair(fs, its, 0, 0, p) && IsGeneration(g)
    requires its.columns[0] == KEY
    requires p.right.Some? && g in its.columns && Truthy(Get(its, p.right.value, g))
    ensures RowHasPrefix(MergedLabels(its.columns), MergedRow(fs, its, 0, 0, p), g)
  {
    var k := IndexOf(its.columns, g);
    var j := k - 1 + |FB_KEEP|;
    MergedRightCell(fs, its, p, j);
    LabelPrefix(g, g);
    assert StartsWith(MergedLabels(its.columns)[j], g);
  }

  /** In a merged row some label starting with `g` holds a true cell exactly when one of
      the two partners flags `g`: the harmonize step computes an OR over the join. */
  lemma MergedAny(fs: Table, its: Table, x: nat, g: string)
    requires Selections(fs, its) && IsGeneration(g) && x < |Pairs(fs, its)|
    ensures Merge(fs, its, KEY, "", ITU_SUFFIX, true).Ok?
    ensures var m := Merge(fs, its, KEY, "", ITU_SUFFIX, true).value;
      x < |m.rows| && ValidPair(fs, its, 0, 0, Pairs(fs, its)[x]) &&
      Any(m, x, g) == PairFlag(fs, its, Pairs(fs, its)[x], g)
  {
    MergeView(fs, its);
    var p := Pairs(fs, its)[x];
    assert p in Pairs(fs, its);
    if RowHasPrefix(MergedLabels(its.columns), MergedRow(fs, its, 0, 0, p), g) {
      RowAnyOnlyIf(fs, its, p, g);
    }
    if PairFlag(fs, its, p, g) {
      RowAnyIf(fs, its, p, g);
    }
  }

  /** The school id of a merged row: the Facebook one, or for an ITU-only row the ITU one. */
  lemma MergedKey(fs: Table, its: Table, x: nat)
    requires Selections(fs, its) && x < |Pairs(fs, its)|
    ensures Merge(fs, its, KEY, "", ITU_SUFFIX, true).Ok?
    ensures var m := Merge(fs, its, KEY, "", ITU_SUFFIX, true).value;
      var p := Pairs(fs, its)[x];
      x < |m.rows| && KEY in m.columns && ValidPair(fs, its, 0, 0, p) &&
      Get(m, x, KEY) == if p.left.Some? then fs.rows[p.left.value][0] else its.rows[p.right.value][0]
  {
    MergeView(fs, its);
    var p := Pairs(fs, its)[x];
    assert p in Pairs(fs, its);
    assert MergedLabels(its.columns)[0] == KEY;
  }

  // ---------------------------------------------------------------------------------
  // Selected rows and the rows they come from.
  // ---------------------------------------------------------------------------------

  function FbSel(f: Table): Table
    requires WellFormed(f) && FacebookSelection(f).Ok?
  {
    FacebookSelection(f).value
  }

  function ItuSel(it: Table): Table
    requires WellFormed(it) && ItuSelection(LowerItuColumns(it)).Ok?
  {
    ItuSelection(LowerItuColumns(it)).value
  }

  /** Row `a` of the Facebook selection holds the school id and flags of row `a0`. */
  predicate FbMatch(f: Table, a: nat, a0: nat)
    requires WellFormed(f) && FacebookSelection(f).Ok?
  {
    && a < |FbSel(f).rows| && a0 < |f.rows|
    && (forall c :: c in FB_KEEP ==> c in f.columns)
    && forall k :: 0 <= k < |FB_KEEP| ==> FbSel(f).rows[a][k] == Get(f, a0, FB_KEEP[k])
  }

  /** Row `b` of the ITU selection holds the school id and flags of row `b0`. */
  predicate ItuMatch(it: Table, b: nat, b0: nat)
    requires WellFormed(it) && ItuSelection(LowerItuColumns(it)).Ok?
  {
    && b < |ItuSel(it).rows| && b0 < |it.rows|
    && forall k :: 0 <= k < |ItuSel(it).columns| && (ItuSel(it).columns[k] == KEY || IsGeneration(ItuSel(it).columns[k])) ==>
         ItuSel(it).columns[k] in it.columns && ItuSel(it).rows[b][k] == Get(it, b0, ItuSel(it).columns[k])
  }

  /** Every Facebook row with a school id is selected. */
  lemma FacebookRowKept(f: Table, a0: nat) returns (a: nat)
    requires WellFormed(f) && FacebookSelection(f).Ok?
    requires a0 < |f.rows| && KEY in f.columns && Get(f, a0, KEY) != Null
    ensures FbMatch(f, a, a0)
  {
    var d := DropMissing(f, KEY).value;
    assert forall k :: 0 <= k < |FB_KEEP| ==> FB_KEEP[k] in d.columns;
    assert f.rows[a0] in d.rows;
    a :| 0 <= a < |d.rows| && d.rows[a] == f.rows[a0];
  }

  /** Every ITU row with a school id is selected. */
  lemma ItuRowKept(it: Table, b0: nat) returns (b: nat)
    requires WellFormed(it) && ItuSelection(LowerItuColumns(it)).Ok?
    requires b0 < |it.rows| && KEY in it.columns && Get(it, b0, KEY) != Null
    ensures ItuMatch(it, b, b0)
  {
    var l := LowerItuColumns(it);
    var d := DropMissing(l, KEY).value;
    var its := ItuSel(it);
    LowerItuKeeps(it, KEY);
    assert l.rows[b0] in d.rows;
    b :| 0 <= b < |d.rows| && d.rows[b] == l.rows[b0];
    forall k | 0 <= k < |its.columns| && (its.columns[k] == KEY || IsGeneration(its.columns[k]))
      ensures its.columns[k] in it.columns && its.rows[b][k] == Get(it, b0, its.columns[k])
    {
      LowerItuKeeps(it, its.columns[k]);
    }
  }

  // ---------------------------------------------------------------------------------
  // The reconciled rows.
  // ---------------------------------------------------------------------------------

  /** A successful reconciliation is the finished outer merge of the two selections. */
  lemma CombineView(f: Table, it: Table)
    requires WellFormed(f) && WellFormed(it) && Combine(f, it).Ok?
    ensures FacebookSelection(f).Ok? && ItuSelection(LowerItuColumns(it)).Ok?
    ensures Selections(FbSel(f), ItuSel(it))
    ensures var m := Merge(FbSel(f), ItuSel(it), KEY, "", ITU_SUFFIX, true);
      m.Ok? && COVERAGE_2G in m.value.columns && COVERAGE_3G in m.value.columns && COVERAGE_4G in m.value.columns &&
      Combine(f, it).value == Finish(m.value)
  {
    var fs := FbSel(f);
    var its := ItuSel(it);
    ItuSelectionColumns(it);
    forall b, k | 0 <= b < |its.rows| && 0 <= k < |its.columns| && IsGeneration(its.columns[k])
      ensures its.rows[b][k] == Get(its, b, its.columns[k])
    {
      var b0 := ItuRow(it, b);
      var k' := IndexOf(its.columns, its.columns[k]);
    }
    MergeView(fs, its);
    assert forall c :: c in FB_KEEP ==> c in MergedLabels(its.columns);
  }

  /** Whether row `a` of a table flags generation `g`; no row, or no such column, is false. */
  predicate FlagOf(t: Table, a: Option<nat>, g: string) {
    a.Some? && WellFormed(t) && a.value < |t.rows| && g in t.columns && Truthy(Get(t, a.value, g))
  }

  /** The OR of the two partners' flags for generation `g`. */
  predicate Flag(f: Table, it: Table, a: Option<nat>, b: Option<nat>, g: string) {
    FlagOf(f, a, g) || FlagOf(it, b, g)
  }

  /** The rows an output row comes from: a Facebook row, an ITU row or both, each with a
      school id, sharing it when both are there; a row on its own has no row with its
      school id on the other side. */
  predicate Origin(f: Table, it: Table, a: Option<nat>, b: Option<nat>) {
    && WellFormed(f) && WellFormed(it) && KEY in f.columns && KEY in it.columns
    && (a.Some? || b.Some?)
    && (a.Some? ==> a.value < |f.rows| && Get(f, a.value, KEY) != Null)
    && (b.Some? ==> b.value < |it.rows| && Get(it, b.value, KEY) != Null)
    && (a.Some? && b.Some? ==> Get(f, a.value, KEY) == Get(it, b.value, KEY))
    && (a.Some? && b.None? ==> forall b' :: 0 <= b' < |it.rows| ==> Get(it, b', KEY) != Get(f, a.value, KEY))
    && (a.None? ==> forall a' :: 0 <= a' < |f.rows| ==> Get(f, a', KEY) != Get(it, b.value, KEY))
  }

  function OriginKey(f: Table, it: Table, a: Option<nat>, b: Option<nat>): Value
    requires Origin(f, it, a, b)
  {
    if a.Some? then Get(f, a.value, KEY) else Get(it, b.value, KEY)
  }

  /** Output row `x` is what its origin makes it: its school id, a YES/NO flag per
      generation that is the OR of the partners' flags, the best generation flagged as
      its type, and availability YES exactly when some generation is flagged. */
  predicate Explains(f: Table, it: Table, r: Table, x: nat, a: Option<nat>, b: Option<nat>) {
    && Origin(f, it, a, b) && WellFormed(r) && x < |r.rows|
    && KEY in r.columns && COVERAGE_2G in r.columns && COVERAGE_3G in r.columns && COVERAGE_4G in r.columns
    && COVERAGE_TYPE in r.columns && COVERAGE_AVAILABILITY in r.columns
    && Get(r, x, KEY) == OriginKey(f, it, a, b)
    && Get(r, x, COVERAGE_2G) == YesNoOf(Flag(f, it, a, b, COVERAGE_2G))
    && Get(r, x, COVERAGE_3G) == YesNoOf(Flag(f, it, a, b, COVERAGE_3G))
    && Get(r, x, COVERAGE_4G) == YesNoOf(Flag(f, it, a, b, COVERAGE_4G))
    && Get(r, x, COVERAGE_TYPE) ==
         BestGeneration(Flag(f, it, a, b, COVERAGE_2G), Flag(f, it, a, b, COVERAGE_3G), Flag(f, it, a, b, COVERAGE_4G))
    && Get(r, x, COVERAGE_AVAILABILITY) ==
         YesNoOf(Flag(f, it, a, b, COVERAGE_2G) || Flag(f, it, a, b, COVERAGE_3G) || Flag(f, it, a, b, COVERAGE_4G))
  }

  /** Merge pair `p` stands for the rows `a0` and `b0` of the flagged tables. */
  predicate Stands(f: Table, it: Table, p: Pair, a0: Option<nat>, b0: Option<nat>)
    requires WellFormed(f) && FacebookSelection(f).Ok?
    requires WellFormed(it) && ItuSelection(LowerItuColumns(it)).Ok?
  {
    && (p.left.Some? <==> a0.Some?) && (p.left.Some? ==> FbMatch(f, p.left.value, a0.value))
    && (p.right.Some? <==> b0.Some?) && (p.right.Some? ==> ItuMatch(it, p.right.value, b0.value))
  }

  /** A pair flags what the rows it stands for flag. */
  lemma PairFlagOfRows(f: Table, it: Table, p: Pair, a0: Option<nat>, b0: Option<nat>, g: string)
    requires WellFormed(f) && FacebookSelection(f).Ok?
    requires WellFormed(it) && ItuSelection(LowerItuColumns(it)).Ok?
    requires Selections(FbSel(f), ItuSel(it)) && ValidPair(FbSel(f), ItuSel(it), 0, 0, p)
    requires Stands(f, it, p, a0, b0) && IsGeneration(g)
    ensures PairFlag(FbSel(f), ItuSel(it), p, g) == Flag(f, it, a0, b0, g)
  {
    if p.left.Some? {
      FacebookFlagOfRow(f, p.left.value, a0.value, g);
    }
    if p.right.Some? {
      ItuFlagOfRow(it, p.right.value, b0.value, g);
    }
  }

  lemma FacebookFlagOfRow(f: Table, a: nat, a0: nat, g: string)
    requires WellFormed(f) && FacebookSelection(f).Ok? && FbMatch(f, a, a0) && IsGeneration(g)
    ensures g in f.columns && Get(FbSel(f), a, g) == Get(f, a0, g)
  {
    assert FB_KEEP[IndexOf(FB_KEEP, g)] == g;
  }

  lemma ItuFlagOfRow(it: Table, b: nat, b0: nat, g: string)
    requires WellFormed(it) && ItuSelection(LowerItuColumns(it)).Ok? && ItuMatch(it, b, b0) && IsGeneration(g)
    ensures g in ItuSel(it).columns <==> g in it.columns
    ensures g in ItuSel(it).columns ==> Get(ItuSel(it), b, g) == Get(it, b0, g)
  {
    ItuSelectionColumns(it);
    if g in ItuSel(it).columns {
      assert ItuSel(it).columns[IndexOf(ItuSel(it).columns, g)] == g;
    }
  }

  /** The rows a pair stands for are an origin, and the merged school id is theirs. */
  lemma PairOrigin(f: Table, it: Table, p: Pair, a0: Option<nat>, b0: Option<nat>)
    requires WellFormed(f) && FacebookSelection(f).Ok?
    requires WellFormed(it) && ItuSelection(LowerItuColumns(it)).Ok?
    requires Selections(FbSel(f), ItuSel(it)) && ValidPair(FbSel(f), ItuSel(it), 0, 0, p)
    requires Stands(f, it, p, a0, b0)
    ensures Origin(f, it, a0, b0)
    ensures OriginKey(f, it, a0, b0) ==
      if p.left.Some? then FbSel(f).rows[p.left.value][0] else ItuSel(it).rows[p.right.value][0]
  {
    var fs, its := FbSel(f), ItuSel(it);
    ItuSelectionColumns(it);
    if p.left.Some? {
      var a1 := FacebookRow(f, p.left.value);
      if p.right.None? {
        var key := fs.rows[p.left.value][0];
        forall b' | 0 <= b' < |it.rows| ensures Get(it, b', KEY) != key {
          if Get(it, b', KEY) == key {
            var b := ItuRowKept(it, b');
          }
        }
      }
    }
    if p.right.Some? {
      var b1 := ItuRow(it, p.right.value);
      if p.left.None? {
        var key := its.rows[p.right.value][0];
        forall a' | 0 <= a' < |f.rows| ensures Get(f, a', KEY) != key {
          if Get(f, a', KEY) == key {
            var a := FacebookRowKept(f, a');
          }
        }
      }
    }
  }

  /** The merged flags of row `x` are the flags of the rows its pair stands for. */
  lemma PairAny(f: Table, it: Table, x: nat, a0: Option<nat>, b0: Option<nat>, g: string)
    requires WellFormed(f) && FacebookSelection(f).Ok?
    requires WellFormed(it) && ItuSelection(LowerItuColumns(it)).Ok?
    requires Selections(FbSel(f), ItuSel(it)) && x < |Pairs(FbSel(f), ItuSel(it))|
    requires Stands(f, it, Pairs(FbSel(f), ItuSel(it))[x], a0, b0) && IsGeneration(g)
    ensures var m := Merge(FbSel(f), ItuSel(it), KEY, "", ITU_SUFFIX, true);
      m.Ok? && x < |m.value.rows| && Any(m.value, x, g) == Flag(f, it, a0, b0, g)
  {
    MergedAny(FbSel(f), ItuSel(it), x, g);
    PairFlagOfRows(f, it, Pairs(FbSel(f), ItuSel(it))[x], a0, b0, g);
  }

  /** A merged row with the school id and flags of an origin finishes into a row that
      origin explains. */
  lemma FinishExplains(f: Table, it: Table, m: Table, x: nat, a0: Option<nat>, b0: Option<nat>)
    requires WellFormed(m) && COVERAGE_2G in m.columns && COVERAGE_3G in m.columns && COVERAGE_4G in m.columns
    requires x < |m.rows| && KEY in m.columns && Origin(f, it, a0, b0)
    requires Get(m, x, KEY) == OriginKey(f, it, a0, b0)
    requires Any(m, x, COVERAGE_2G) == Flag(f, it, a0, b0, COVERAGE_2G)
    requires Any(m, x, COVERAGE_3G) == Flag(f, it, a0, b0, COVERAGE_3G)
    requires Any(m, x, COVERAGE_4G) == Flag(f, it, a0, b0, COVERAGE_4G)
    ensures Explains(f, it, Finish(m), x, a0, b0)
  {
    FinishKeeps(m, x, KEY);
    FinishFlag(m, x, COVERAGE_2G);
    FinishFlag(m, x, COVERAGE_3G);
    FinishFlag(m, x, COVERAGE_4G);
    FinishType(m, x);
    FinishAvailability(m, x);
  }

  /** Output row `x` is explained by the rows its merge pair stands for. */
  lemma PairExplains(f: Table, it: Table, x: nat, a0: Option<nat>, b0: Option<nat>)
    requires WellFormed(f) && WellFormed(it) && Combine(f, it).Ok?
    requires FacebookSelection(f).Ok? && ItuSelection(LowerItuColumns(it)).Ok?
    requires Selections(FbSel(f), ItuSel(it)) && x < |Pairs(FbSel(f), ItuSel(it))|
    requires Stands(f, it, Pairs(FbSel(f), ItuSel(it))[x], a0, b0)
    ensures Explains(f, it, Combine(f, it).value, x, a0, b0)
  {
    CombineView(f, it);
    var fs, its := FbSel(f), ItuSel(it);
    var m := Merge(fs, its, KEY, "", ITU_SUFFIX, true).value;
    MergedKey(fs, its, x);
    PairOrigin(f, it, Pairs(fs, its)[x], a0, b0);
    PairAny(f, it, x, a0, b0, COVERAGE_2G);
    PairAny(f, it, x, a0, b0, COVERAGE_3G);
    PairAny(f, it, x, a0, b0, COVERAGE_4G);
    FinishExplains(f, it, m, x, a0, b0);
  }

  /** Every row `process_coverage_data` returns is explained by a Facebook row, an ITU row
      or a matching pair of both: its school id is theirs and not missing, each generation
      is YES exactly when one of them flags it, and type and availability follow. */
  lemma CombineRows(f: Table, it: Table, x: nat)
    requires WellFormed(f) && WellFormed(it) && Combine(f, it).Ok? && x < |Combine(f, it).value.rows|
    ensures exists a: Option<nat>, b: Option<nat> :: Explains(f, it, Combine(f, it).value, x, a, b)
  {
    CombineView(f, it);
    var fs, its := FbSel(f), ItuSel(it);
    assert x < |Pairs(fs, its)| && ValidPair(fs, its, 0, 0, Pairs(fs, its)[x]) by {
      MergeView(fs, its);
      assert Pairs(fs, its)[x] in Pairs(fs, its);
    }
    var a0, b0 := PairRows(f, it, Pairs(fs, its)[x]);
    PairExplains(f, it, x, a0, b0);
  }

  /** The rows of the flagged tables that a merge pair's selected rows come from. */
  lemma PairRows(f: Table, it: Table, p: Pair) returns (a0: Option<nat>, b0: Option<nat>)
    requires WellFormed(f) && FacebookSelection(f).Ok? && WellFormed(it) && ItuSelection(LowerItuColumns(it)).Ok?
    requires p.left.Some? ==> p.left.value < |FbSel(f).rows|
    requires p.right.Some? ==> p.right.value < |ItuSel(it).rows|
    ensures Stands(f, it, p, a0, b0)
  {
    a0, b0 := None, None;
    if p.left.Some? {
      var a1 := FacebookRow(f, p.left.value);
      a0 := Some(a1);
    }
    if p.right.Some? {
      var b1 := ItuRow(it, p.right.value);
      b0 := Some(b1);
    }
  }

  /** A Facebook row whose school id no ITU row has is selected with no ITU match. */
  lemma FacebookLoneKept(f: Table, it: Table, a0: nat) returns (a: nat)
    requires WellFormed(f) && WellFormed(it) && FacebookSelection(f).Ok? && ItuSelection(LowerItuColumns(it)).Ok?
    requires Selections(FbSel(f), ItuSel(it))
    requires KEY in f.columns && a0 < |f.rows| && Get(f, a0, KEY) != Null
    requires forall b' :: 0 <= b' < |it.rows| ==> Get(it, b', KEY) != Get(f, a0, KEY)
    ensures FbMatch(f, a, a0) && !HasKey(ItuSel(it), 0, FbSel(f).rows[a][0])
  {
    a := FacebookRowKept(f, a0);
    forall b | 0 <= b < |ItuSel(it).rows| ensures ItuSel(it).rows[b][0] != FbSel(f).rows[a][0] {
      var b1 := ItuRow(it, b);
    }
  }

  /** An ITU row whose school id no Facebook row has is selected with no Facebook match. */
  lemma ItuLoneKept(f: Table, it: Table, b0: nat) returns (b: nat)
    requires WellFormed(f) && WellFormed(it) && FacebookSelection(f).Ok? && ItuSelection(LowerItuColumns(it)).Ok?
    requires Selections(FbSel(f), ItuSel(it))
    requires KEY in it.columns && b0 < |it.rows| && Get(it, b0, KEY) != Null
    requires forall a' :: 0 <= a' < |f.rows| ==> Get(f, a', KEY) != Get(it, b0, KEY)
    ensures ItuMatch(it, b, b0) && !HasKey(FbSel(f), 0, ItuSel(it).rows[b][0])
  {
    b := ItuRowKept(it, b0);
    forall a | 0 <= a < |FbSel(f).rows| ensures FbSel(f).rows[a][0] != ItuSel(it).rows[b][0] {
      var a1 := FacebookRow(f, a);
    }
  }

  /** The place of a merge pair. */
  lemma PairIndex(fs: Table, its: Table, p: Pair) returns (x: nat)
    requires Selections(fs, its) && p in Pairs(fs, its)
    ensures x < |Pairs(fs, its)| && Pairs(fs, its)[x] == p
  {
    x :| 0 <= x < |Pairs(fs, its)| && Pairs(fs, its)[x] == p;
  }

  /** A Facebook row and an ITU row with the same school id give an output row together. */
  lemma CombineKeepsMatches(f: Table, it: Table, a0: nat, b0: nat)
    requires WellFormed(f) && WellFormed(it) && Combine(f, it).Ok?
    requires KEY in f.columns && KEY in it.columns && a0 < |f.rows| && b0 < |it.rows|
    requires Get(f, a0, KEY) != Null && Get(f, a0, KEY) == Get(it, b0, KEY)
    ensures exists x :: 0 <= x < |Combine(f, it).value.rows| && Explains(f, it, Combine(f, it).value, x, Some(a0), Some(b0))
  {
    CombineView(f, it);
    var fs, its := FbSel(f), ItuSel(it);
    var a := FacebookRowKept(f, a0);
    var b := ItuRowKept(it, b0);
    assert Pair(Some(a), Some(b)) in Pairs(fs, its) by {
      MergeKeepsMatches(fs, its, 0, 0, true, a, b);
    }
    var x := PairIndex(fs, its, Pair(Some(a), Some(b)));
    PairExplains(f, it, x, Some(a0), Some(b0));
  }

  /** A Facebook row with a school id no ITU row has gives an output row on its own. */
  lemma CombineKeepsFacebookOnly(f: Table, it: Table, a0: nat)
    requires WellFormed(f) && WellFormed(it) && Combine(f, it).Ok?
    requires KEY in f.columns && KEY in it.columns && a0 < |f.rows| && Get(f, a0, KEY) != Null
    requires forall b' :: 0 <= b' < |it.rows| ==> Get(it, b', KEY) != Get(f, a0, KEY)
    ensures exists x :: 0 <= x < |Combine(f, it).value.rows| && Explains(f, it, Combine(f, it).value, x, Some(a0), None)
  {
    CombineView(f, it);
    var fs, its := FbSel(f), ItuSel(it);
    var a := FacebookLoneKept(f, it, a0);
    assert Pair(Some(a), None) in Pairs(fs, its) by {
      MergeKeepsLoneLeft(fs, its, 0, 0, true, a);
    }
    var x := PairIndex(fs, its, Pair(Some(a), None));
    PairExplains(f, it, x, Some(a0), None);
  }

  /** An ITU row with a school id no Facebook row has gives an output row on its own. */
  lemma CombineKeepsItuOnly(f: Table, it: Table, b0: nat)
    requires WellFormed(f) && WellFormed(it) && Combine(f, it).Ok?
    requires KEY in f.columns && KEY in it.columns && b0 < |it.rows| && Get(it, b0, KEY) != Null
    requires forall a' :: 0 <= a' < |f.rows| ==> Get(f, a', KEY) != Get(it, b0, KEY)
    ensures exists x :: 0 <= x < |Combine(f, it).value.rows| && Explains(f, it, Combine(f, it).value, x, None, Some(b0))
  {
    CombineView(f, it);
    var fs, its := FbSel(f), ItuSel(it);
    var b := ItuLoneKept(f, it, b0);
    assert Pair(None, Some(b)) in Pairs(fs, its) by {
      OuterKeepsLoneRight(fs, its, 0, 0, b);
    }
    var x := PairIndex(fs, its, Pair(None, Some(b)));
    PairExplains(f, it, x, None, Some(b0));
  }

  /** Both partners list the same schools, each once and with a school id, in the same
      order. */
  predicate SameSchools(f: Table, it: Table) {
    && WellFormed(f) && WellFormed(it) && KEY in f.columns && KEY in it.columns && |f.rows| == |it.rows|
    && (forall a :: 0 <= a < |f.rows| ==> Get(f, a, KEY) != Null && Get(f, a, KEY) == Get(it, a, KEY))
    && (forall a, a' :: 0 <= a < a' < |f.rows| ==> Get(f, a, KEY) != Get(f, a', KEY))
  }

  /** Flag rules that do not write the school id keep it in every row. */
  lemma FlagsKeepKey(t: Table, rules: seq<FlagRule>)
    requires WellFormed(t) && ApplyFlags(t, rules).failure.None? && KEY in t.columns
    requires forall k :: 0 <= k < |rules| ==> rules[k].target != KEY
    ensures KEY in ApplyFlags(t, rules).table.columns
    ensures forall x :: 0 <= x < |t.rows| ==> Get(ApplyFlags(t, rules).table, x, KEY) == Get(t, x, KEY)
  {
    if |t.rows| > 0 {
      ApplyFlagsKeeps(t, rules, 0, KEY);
    }
    assert KEY in ApplyFlags(t, rules).table.columns by {
      ApplyFlagsColumns(t, rules, KEY);
    }
    forall x | 0 <= x < |t.rows| ensures Get(ApplyFlags(t, rules).table, x, KEY) == Get(t, x, KEY) {
      ApplyFlagsKeeps(t, rules, x, KEY);
    }
  }

  /** Flag rules that do not write the school id keep both partners' school lists. */
  lemma RulesKeepSchools(fb: Table, itu: Table, fr: seq<FlagRule>, ir: seq<FlagRule>)
    requires SameSchools(fb, itu)
    requires ApplyFlags(fb, fr).failure.None? && ApplyFlags(itu, ir).failure.None?
    requires RuleFor(fr, KEY).None? && RuleFor(ir, KEY).None?
    ensures SameSchools(ApplyFlags(fb, fr).table, ApplyFlags(itu, ir).table)
  {
    FlagsKeepKey(fb, fr);
    FlagsKeepKey(itu, ir);
  }

  /** The partners' flags keep the school ids in place. */
  lemma FlagsKeepSchools(fb: Table, itu: Table)
    requires SameSchools(fb, itu)
    requires ApplyFlags(fb, FB_FLAGS).failure.None? && ApplyFlags(itu, ITU_FLAGS).failure.None?
    ensures SameSchools(ApplyFlags(fb, FB_FLAGS).table, ApplyFlags(itu, ITU_FLAGS).table)
  {
    PartnerRulesIndependent();
    RulesKeepSchools(fb, itu, FB_FLAGS, ITU_FLAGS);
  }

  /** When every Facebook row has a school id, the selection keeps every row in place. */
  lemma FacebookSelectionAll(f: Table)
    requires WellFormed(f) && FacebookSelection(f).Ok? && KEY in f.columns
    requires forall a :: 0 <= a < |f.rows| ==> Get(f, a, KEY) != Null
    ensures |FbSel(f).rows| == |f.rows|
    ensures forall a :: 0 <= a < |f.rows| ==> FbMatch(f, a, a)
  {
    DropMissingAll(f, KEY);
    assert forall k :: 0 <= k < |FB_KEEP| ==> FB_KEEP[k] in f.columns;
  }

  /** When every ITU row has a school id, the selection keeps every row in place. */
  lemma ItuSelectionAll(it: Table)
    requires WellFormed(it) && ItuSelection(LowerItuColumns(it)).Ok? && KEY in it.columns
    requires forall b :: 0 <= b < |it.rows| ==> Get(it, b, KEY) != Null
    ensures ItuSel(it) == Select(LowerItuColumns(it), Present(ITU_KEEP, LowerItuColumns(it).columns)).value
    ensures |ItuSel(it).rows| == |it.rows|
  {
    var l := LowerItuColumns(it);
    LowerItuKeeps(it, KEY);
    assert forall b :: 0 <= b < |l.rows| ==> Get(l, b, KEY) == Get(it, b, KEY);
    DropMissingAll(l, KEY);
  }

  /** ... and row `b` of the selection is row `b` of the ITU table. */
  lemma ItuRowInPlace(it: Table, b: nat)
    requires WellFormed(it) && ItuSelection(LowerItuColumns(it)).Ok? && KEY in it.columns
    requires forall b :: 0 <= b < |it.rows| ==> Get(it, b, KEY) != Null
    requires b < |it.rows|
    ensures ItuMatch(it, b, b)
  {
    ItuSelectionAll(it);
    var l := LowerItuColumns(it);
    var its := ItuSel(it);
    forall k | 0 <= k < |its.columns| && (its.columns[k] == KEY || IsGeneration(its.columns[k]))
      ensures its.columns[k] in it.columns && its.rows[b][k] == Get(it, b, its.columns[k])
    {
      LowerItuKeeps(it, its.columns[k]);
      assert its.rows[b][k] == Get(l, b, its.columns[k]);
    }
  }

  /** The school id of row `a` of the Facebook selection, when every row has one. */
  lemma FacebookKeyInPlace(f: Table, a: nat)
    requires WellFormed(f) && FacebookSelection(f).Ok? && KEY in f.columns
    requires forall a :: 0 <= a < |f.rows| ==> Get(f, a, KEY) != Null
    requires a < |f.rows|
    ensures a < |FbSel(f).rows| && FbSel(f).rows[a][0] == Get(f, a, KEY)
  {
    FacebookSelectionAll(f);
    assert FbMatch(f, a, a);
  }

  /** The school id of row `b` of the ITU selection, when every row has one. */
  lemma ItuKeyInPlace(it: Table, b: nat)
    requires WellFormed(it) && ItuSelection(LowerItuColumns(it)).Ok? && KEY in it.columns
    requires forall b :: 0 <= b < |it.rows| ==> Get(it, b, KEY) != Null
    requires b < |it.rows|
    ensures b < |ItuSel(it).rows| && ItuSel(it).rows[b][0] == Get(it, b, KEY)
  {
    ItuSelectionAll(it);
    ItuSelectionColumns(it);
    ItuRowInPlace(it, b);
    assert ItuSel(it).columns[0] == KEY;
  }

  /** Partners listing the same schools in the same order keep their school ids in
      place in the selections. */
  lemma SelectionsInPlace(f: Table, it: Table)
    requires SameSchools(f, it) && FacebookSelection(f).Ok? && ItuSelection(LowerItuColumns(it)).Ok?
    ensures |FbSel(f).rows| == |f.rows| && |ItuSel(it).rows| == |f.rows|
    ensures forall a :: 0 <= a < |f.rows| ==> FbSel(f).rows[a][0] == Get(f, a, KEY) && ItuSel(it).rows[a][0] == Get(it, a, KEY)
  {
    FacebookSelectionAll(f);
    ItuSelectionAll(it);
    forall a | 0 <= a < |f.rows| ensures FbSel(f).rows[a][0] == Get(f, a, KEY) && ItuSel(it).rows[a][0] == Get(it, a, KEY) {
      FacebookKeyInPlace(f, a);
      ItuKeyInPlace(it, a);
    }
  }

  /** The selections of a successful combination. */
  lemma CombineSelections(f: Table, it: Table)
    requires WellFormed(f) && WellFormed(it) && Combine(f, it).Ok?
    ensures FacebookSelection(f).Ok? && ItuSelection(LowerItuColumns(it)).Ok? && Selections(FbSel(f), ItuSel(it))
  {
    CombineView(f, it);
  }

  /** ... so the selections are aligned. */
  lemma AlignedSelections(f: Table, it: Table)
    requires SameSchools(f, it) && FacebookSelection(f).Ok? && ItuSelection(LowerItuColumns(it)).Ok?
    requires Selections(FbSel(f), ItuSel(it))
    ensures Aligned(FbSel(f), ItuSel(it), 0, 0)
  {
    SelectionsInPlace(f, it);
  }

  /** Row `a` of the Facebook selection is row `a` of the Facebook table. */
  lemma FacebookRowInPlace(f: Table, a: nat)
    requires WellFormed(f) && FacebookSelection(f).Ok? && KEY in f.columns
    requires forall a :: 0 <= a < |f.rows| ==> Get(f, a, KEY) != Null
    requires a < |f.rows|
    ensures |FbSel(f).rows| == |f.rows| && FbMatch(f, a, a)
  {
    FacebookSelectionAll(f);
  }

  /** ... so merge pair `x` pairs row `x` of both selections. */
  lemma PairsInPlace(f: Table, it: Table, x: nat)
    requires SameSchools(f, it) && FacebookSelection(f).Ok? && ItuSelection(LowerItuColumns(it)).Ok?
    requires Selections(FbSel(f), ItuSel(it)) && x < |f.rows| && |FbSel(f).rows| == |f.rows|
    ensures x < |Pairs(FbSel(f), ItuSel(it))| && Pairs(FbSel(f), ItuSel(it))[x] == Pair(Some(x), Some(x))
  {
    AlignedSelections(f, it);
    MergeAligned(FbSel(f), ItuSel(it), 0, 0);
  }

  /** ... and stands for row `x` of both tables. */
  lemma StandsInPlace(f: Table, it: Table, x: nat)
    requires SameSchools(f, it) && FacebookSelection(f).Ok? && ItuSelection(LowerItuColumns(it)).Ok?
    requires Selections(FbSel(f), ItuSel(it)) && x < |f.rows|
    ensures x < |Pairs(FbSel(f), ItuSel(it))| && Stands(f, it, Pairs(FbSel(f), ItuSel(it))[x], Some(x), Some(x))
  {
    FacebookRowInPlace(f, x);
    PairsInPlace(f, it, x);
    ItuRowInPlace(it, x);
  }

  /** ... and row `x` of the output comes from row `x` of both. */
  lemma AlignedRow(f: Table, it: Table, x: nat)
    requires SameSchools(f, it) && Combine(f, it).Ok? && x < |f.rows|
    ensures Explains(f, it, Combine(f, it).value, x, Some(x), Some(x))
  {
    CombineSelections(f, it);
    StandsInPlace(f, it, x);
    PairExplains(f, it, x, Some(x), Some(x));
  }

  /** When both partners list the same schools in the same order, the output has one row
      per school, in that order, each explained by the two partners' rows at its place. */
  lemma CombineAligned(f: Table, it: Table)
    requires SameSchools(f, it) && Combine(f, it).Ok?
    ensures |Combine(f, it).value.rows| == |f.rows|
    ensures forall x :: 0 <= x < |f.rows| ==> Explains(f, it, Combine(f, it).value, x, Some(x), Some(x))
  {
    AlignedLength(f, it);
    forall x | 0 <= x < |f.rows| ensures Explains(f, it, Combine(f, it).value, x, Some(x), Some(x)) {
      AlignedRow(f, it, x);
    }
  }

  lemma AlignedLength(f: Table, it: Table)
    requires SameSchools(f, it) && Combine(f, it).Ok?
    ensures |Combine(f, it).value.rows| == |f.rows|
  {
    CombineView(f, it);
    var fs, its := FbSel(f), ItuSel(it);
    AlignedSelections(f, it);
    SelectionsInPlace(f, it);
    assert |Pairs(fs, its)| == |fs.rows| by {
      MergeAligned(fs, its, 0, 0);
    }
    MergeView(fs, its);
  }

  // ---------------------------------------------------------------------------------
  // The flag rules, generation by generation.
  // ---------------------------------------------------------------------------------

  lemma FacebookRuleFlag(fb: Table, i: nat, k: nat)
    requires WellFormed(fb) && i < |fb.rows| && ApplyFlags(fb, FB_FLAGS).failure.None? && k < |FB_FLAGS|
    ensures FB_FLAGS[k].source in fb.columns && Compare(FB_FLAGS[k].test, Get(fb, i, FB_FLAGS[k].source)).Ok?
    ensures FlagOf(ApplyFlags(fb, FB_FLAGS).table, Some(i), FB_FLAGS[k].target) ==
      Compare(FB_FLAGS[k].test, Get(fb, i, FB_FLAGS[k].source)).value
  {
    FacebookFlagged(fb, i);
  }

  lemma ItuRuleFlag(itu: Table, i: nat, k: nat)
    requires WellFormed(itu) && i < |itu.rows| && ApplyFlags(itu, ITU_FLAGS).failure.None? && k < |ITU_FLAGS|
    ensures ITU_FLAGS[k].source in itu.columns && Compare(ITU_FLAGS[k].test, Get(itu, i, ITU_FLAGS[k].source)).Ok?
    ensures FlagOf(ApplyFlags(itu, ITU_FLAGS).table, Some(i), ITU_FLAGS[k].target) ==
      Compare(ITU_FLAGS[k].test, Get(itu, i, ITU_FLAGS[k].source)).value
  {
    ItuFlagged(itu, i);
  }

  lemma FacebookFlag2G(fb: Table, i: nat)
    requires WellFormed(fb) && i < |fb.rows| && ApplyFlags(fb, FB_FLAGS).failure.None?
    ensures "percent_2G" in fb.columns && Compare(Positive, Get(fb, i, "percent_2G")).Ok?
    ensures FlagOf(ApplyFlags(fb, FB_FLAGS).table, Some(i), COVERAGE_2G) == Compare(Positive, Get(fb, i, "percent_2G")).value
  {
    FacebookRuleFlag(fb, i, 0);
    assert FB_FLAGS[0] == FlagRule("percent_2G", COVERAGE_2G, Positive);
  }

  lemma FacebookFlag3G(fb: Table, i: nat)
    requires WellFormed(fb) && i < |fb.rows| && ApplyFlags(fb, FB_FLAGS).failure.None?
    ensures "percent_3G" in fb.columns && Compare(Positive, Get(fb, i, "percent_3G")).Ok?
    ensures FlagOf(ApplyFlags(fb, FB_FLAGS).table, Some(i), COVERAGE_3G) == Compare(Positive, Get(fb, i, "percent_3G")).value
  {
    FacebookRuleFlag(fb, i, 1);
    assert FB_FLAGS[1] == FlagRule("percent_3G", COVERAGE_3G, Positive);
  }

  lemma FacebookFlag4G(fb: Table, i: nat)
    requires WellFormed(fb) && i < |fb.rows| && ApplyFlags(fb, FB_FLAGS).failure.None?
    ensures "percent_4G" in fb.columns && Compare(Positive, Get(fb, i, "percent_4G")).Ok?
    ensures FlagOf(ApplyFlags(fb, FB_FLAGS).table, Some(i), COVERAGE_4G) == Compare(Positive, Get(fb, i, "percent_4G")).value
  {
    FacebookRuleFlag(fb, i, 2);
    assert FB_FLAGS[2] == FlagRule("percent_4G", COVERAGE_4G, Positive);
  }

  lemma ItuFlag2G(itu: Table, i: nat)
    requires WellFormed(itu) && i < |itu.rows| && ApplyFlags(itu, ITU_FLAGS).failure.None?
    ensures "2G" in itu.columns && Compare(AtLeastOne, Get(itu, i, "2G")).Ok?
    ensures FlagOf(ApplyFlags(itu, ITU_FLAGS).table, Some(i), COVERAGE_2G) == Compare(AtLeastOne, Get(itu, i, "2G")).value
  {
    ItuRuleFlag(itu, i, 0);
    assert ITU_FLAGS[0] == FlagRule("2G", COVERAGE_2G, AtLeastOne);
  }

  lemma ItuFlag3G(itu: Table, i: nat)
    requires WellFormed(itu) && i < |itu.rows| && ApplyFlags(itu, ITU_FLAGS).failure.None?
    ensures "3G" in itu.columns
    ensures FlagOf(ApplyFlags(itu, ITU_FLAGS).table, Some(i), COVERAGE_3G) == Compare(EqualsOne, Get(itu, i, "3G")).value
  {
    ItuRuleFlag(itu, i, 1);
    assert ITU_FLAGS[1] == FlagRule("3G", COVERAGE_3G, EqualsOne);
  }

  lemma ItuFlag4G(itu: Table, i: nat)
    requires WellFormed(itu) && i < |itu.rows| && ApplyFlags(itu, ITU_FLAGS).failure.None?
    ensures "4G" in itu.columns
    ensures FlagOf(ApplyFlags(itu, ITU_FLAGS).table, Some(i), COVERAGE_4G) == Compare(EqualsOne, Get(itu, i, "4G")).value
  {
    ItuRuleFlag(itu, i, 2);
    assert ITU_FLAGS[2] == FlagRule("4G", COVERAGE_4G, EqualsOne);
  }

  /** The three Facebook flags of row `i`. */
  lemma FacebookFlagsOf(fb: Table, i: nat)
    requires WellFormed(fb) && i < |fb.rows| && ApplyFlags(fb, FB_FLAGS).failure.None?
    ensures "percent_2G" in fb.columns && "percent_3G" in fb.columns && "percent_4G" in fb.columns
    ensures var f := ApplyFlags(fb, FB_FLAGS).table;
      && Compare(Positive, Get(fb, i, "percent_2G")).Ok? && Compare(Positive, Get(fb, i, "percent_3G")).Ok?
      && Compare(Positive, Get(fb, i, "percent_4G")).Ok?
      && FlagOf(f, Some(i), COVERAGE_2G) == Compare(Positive, Get(fb, i, "percent_2G")).value
      && FlagOf(f, Some(i), COVERAGE_3G) == Compare(Positive, Get(fb, i, "percent_3G")).value
      && FlagOf(f, Some(i), COVERAGE_4G) == Compare(Positive, Get(fb, i, "percent_4G")).value
  {
    FacebookFlag2G(fb, i);
    FacebookFlag3G(fb, i);
    FacebookFlag4G(fb, i);
  }

  /** The three ITU flags of row `i`. */
  lemma ItuFlagsOf(itu: Table, i: nat)
    requires WellFormed(itu) && i < |itu.rows| && ApplyFlags(itu, ITU_FLAGS).failure.None?
    ensures "2G" in itu.columns && "3G" in itu.columns && "4G" in itu.columns
    ensures var t := ApplyFlags(itu, ITU_FLAGS).table;
      && Compare(AtLeastOne, Get(itu, i, "2G")).Ok?
      && FlagOf(t, Some(i), COVERAGE_2G) == Compare(AtLeastOne, Get(itu, i, "2G")).value
      && FlagOf(t, Some(i), COVERAGE_3G) == Compare(EqualsOne, Get(itu, i, "3G")).value
      && FlagOf(t, Some(i), COVERAGE_4G) == Compare(EqualsOne, Get(itu, i, "4G")).value
  {
    ItuFlag2G(itu, i);
    ItuFlag3G(itu, i);
    ItuFlag4G(itu, i);
  }

  // ---------------------------------------------------------------------------------
  // `process_coverage_data` as a whole.
  // ---------------------------------------------------------------------------------

  lemma FacebookSelectionFails(f: Table)
    requires WellFormed(f)
    ensures FacebookSelection(f).Err? <==> exists k :: 0 <= k < |FB_KEEP| && FB_KEEP[k] !in f.columns
  {
    assert FB_KEEP[0] == KEY;
  }

  lemma ItuSelectionFails(it: Table)
    requires WellFormed(it)
    ensures ItuSelection(LowerItuColumns(it)).Err? <==> KEY !in it.columns
    ensures ItuSelection(LowerItuColumns(it)).Ok? ==> KEY in ItuSelection(LowerItuColumns(it)).value.columns
  {
    LowerItuKeeps(it, KEY);
    var l := LowerItuColumns(it);
    if KEY in l.columns {
      var d := DropMissing(l, KEY).value;
      var p := Present(ITU_KEEP, d.columns);
      assert forall k :: 0 <= k < |p| ==> p[k] in d.columns;
      assert KEY in p;
    }
  }

  /** Combining fails exactly when a Facebook allow-listed label or the ITU school id is
      missing. */
  lemma CombineFails(f: Table, it: Table)
    requires WellFormed(f) && WellFormed(it)
    ensures Combine(f, it).Err? <==>
      (exists k :: 0 <= k < |FB_KEEP| && FB_KEEP[k] !in f.columns) || KEY !in it.columns
  {
    FacebookSelectionFails(f);
    ItuSelectionFails(it);
  }

  /** The reconciliation fails exactly when a partner's flags fail or a partner has no
      school id column. */
  lemma ReconcileFails(fb: Table, itu: Table)
    requires WellFormed(fb) && WellFormed(itu)
    ensures Reconcile(fb, itu).Err? <==>
      || ApplyFlags(fb, FB_FLAGS).failure.Some? || ApplyFlags(itu, ITU_FLAGS).failure.Some?
      || KEY !in fb.columns || KEY !in itu.columns
  {
    var f := ApplyFlags(fb, FB_FLAGS);
    var i := ApplyFlags(itu, ITU_FLAGS);
    if f.failure.None? && i.failure.None? {
      assert Reconcile(fb, itu) == Combine(f.table, i.table);
      CombineFails(f.table, i.table);
      FlaggedFacebookKeeps(fb);
      PartnerRulesIndependent();
      RulesKeepKeyColumn(itu, ITU_FLAGS);
    }
  }

  /** After the Facebook flags, the kept columns are all there exactly when the school id
      was. */
  lemma FlaggedFacebookKeeps(fb: Table)
    requires WellFormed(fb) && ApplyFlags(fb, FB_FLAGS).failure.None?
    ensures (exists k :: 0 <= k < |FB_KEEP| && FB_KEEP[k] !in ApplyFlags(fb, FB_FLAGS).table.columns) <==> KEY !in fb.columns
  {
    PartnerRulesIndependent();
    FacebookKeepsTargets();
    KeptAfterRules(fb, FB_FLAGS, FB_KEEP);
  }

  /** The Facebook allow-list is the school id, then the targets of the Facebook flags. */
  lemma FacebookKeepsTargets()
    ensures |FB_KEEP| == |FB_FLAGS| + 1 && FB_KEEP[0] == KEY
    ensures forall k :: 1 <= k < |FB_KEEP| ==> FB_KEEP[k] == FB_FLAGS[k - 1].target
  {
  }

  /** An allow-list made of the school id and the targets of rules that succeed is all
      there exactly when the school id was. */
  lemma KeptAfterRules(t: Table, rules: seq<FlagRule>, keep: seq<string>)
    requires WellFormed(t) && ApplyFlags(t, rules).failure.None? && RuleFor(rules, KEY).None?
    requires |keep| == |rules| + 1 && keep[0] == KEY
    requires forall k :: 1 <= k < |keep| ==> keep[k] == rules[k - 1].target
    ensures (exists k :: 0 <= k < |keep| && keep[k] !in ApplyFlags(t, rules).table.columns) <==> KEY !in t.columns
  {
    var f := ApplyFlags(t, rules).table;
    ApplyFlagsColumns(t, rules, KEY);
    FlagTargetsPresent(t, rules);
    if KEY in t.columns {
      forall k | 0 <= k < |keep| ensures keep[k] in f.columns {
        if k > 0 { assert keep[k] == rules[k - 1].target; }
      }
    } else {
      assert keep[0] !in f.columns;
    }
  }

  /** Rules that do not write the school id keep it exactly when it was there. */
  lemma RulesKeepKeyColumn(t: Table, rules: seq<FlagRule>)
    requires WellFormed(t) && ApplyFlags(t, rules).failure.None? && RuleFor(rules, KEY).None?
    ensures KEY in ApplyFlags(t, rules).table.columns <==> KEY in t.columns
  {
    ApplyFlagsColumns(t, rules, KEY);
  }

  /** Flag rules that succeed leave every target among the labels. */
  lemma FlagTargetsPresent(t: Table, rules: seq<FlagRule>)
    requires WellFormed(t) && ApplyFlags(t, rules).failure.None?
    ensures forall k :: 0 <= k < |rules| ==> rules[k].target in ApplyFlags(t, rules).table.columns
  {
    forall k | 0 <= k < |rules| ensures rules[k].target in ApplyFlags(t, rules).table.columns {
      ApplyFlagsColumns(t, rules, rules[k].target);
    }
  }

  /** Every row of the canonical table is explained by a flagged Facebook row, a flagged
      ITU row or a matching pair of both. */
  lemma ReconcileRows(fb: Table, itu: Table, x: nat)
    requires WellFormed(fb) && WellFormed(itu) && Reconcile(fb, itu).Ok? && x < |Reconcile(fb, itu).value.rows|
    ensures exists a: Option<nat>, b: Option<nat> ::
      Explains(ApplyFlags(fb, FB_FLAGS).table, ApplyFlags(itu, ITU_FLAGS).table, Reconcile(fb, itu).value, x, a, b)
  {
    CombineRows(ApplyFlags(fb, FB_FLAGS).table, ApplyFlags(itu, ITU_FLAGS).table, x);
  }
}
