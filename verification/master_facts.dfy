/** What `merge_coverage_and_master` promises: the master rows stay, in order, with their
    own cells, the coverage cells of the matching school join them, and the result has
    exactly the master schema. */
module MasterFacts {
  import opened Strings
  import opened Tables
  import opened Coverage
  import opened MasterMerge

  /** A label that no suffixed label of the merge can equal. */
  predicate Plain(c: string) {
    |c| < 2 || c[|c| - 2] != '_' || (c[|c| - 1] != 'x' && c[|c| - 1] != 'y')
  }

  lemma PlainSuffixes(c: string)
    requires Plain(c)
    ensures !EndsWith(c, "_x") && !EndsWith(c, "_y")
  {
  }

  lemma MainColsPlain()
    ensures forall k :: 0 <= k < |MAIN_COLS| ==> Plain(MAIN_COLS[k])
    ensures KEY in MAIN_COLS
  {
    MainColsPlainBelow();
    MainColsPlainAbove();
  }

  lemma MainColsPlainBelow()
    ensures |MAIN_COLS| == 45 && MAIN_COLS[0] == KEY
    ensures forall k :: 0 <= k < 23 ==> Plain(MAIN_COLS[k])
  {
    assert |MAIN_COLS| == 45;
    assert MAIN_COLS[0] == KEY;
    assert MAIN_COLS[1] == "school_id";
    assert MAIN_COLS[2] == "name";
    assert MAIN_COLS[3] == "lat";
    assert MAIN_COLS[4] == "lon";
    assert MAIN_COLS[5] == "education_level";
    assert MAIN_COLS[6] == "education_level_regional";
    assert MAIN_COLS[7] == "school_type";
    assert MAIN_COLS[8] == "connectivity";
    assert MAIN_COLS[9] == "connectivity_speed";
    assert MAIN_COLS[10] == "type_connectivity";
    assert MAIN_COLS[11] == "coverage_availability";
    assert MAIN_COLS[12] == "coverage_type";
    assert MAIN_COLS[13] == "latency_connectivity";
    assert MAIN_COLS[14] == "admin1";
    assert MAIN_COLS[15] == "admin2";
    assert MAIN_COLS[16] == "admin3";
    assert MAIN_COLS[17] == "admin4";
    assert MAIN_COLS[18] == "school_region";
    assert MAIN_COLS[19] == "num_computers";
    assert MAIN_COLS[20] == "num_teachers";
    assert MAIN_COLS[21] == "num_students";
    assert MAIN_COLS[22] == "num_classroom";
  }

  lemma MainColsPlainAbove()
    ensures |MAIN_COLS| == 45
    ensures forall k :: 23 <= k < 45 ==> Plain(MAIN_COLS[k])
  {
    assert |MAIN_COLS| == 45;
    assert MAIN_COLS[23] == "computer_availability";
    assert MAIN_COLS[24] == "computer_lab";
    assert MAIN_COLS[25] == "electricity";
    assert MAIN_COLS[26] == "water";
    assert MAIN_COLS[27] == "address";
    assert MAIN_COLS[28] == "fiber_node_distance";
    assert MAIN_COLS[29] == "microwave_node_distance";
    assert MAIN_COLS[30] == "nearest_school_distance";
    assert MAIN_COLS[31] == "schools_within_1km";
    assert MAIN_COLS[32] == "schools_within_2km";
    assert MAIN_COLS[33] == "schools_within_3km";
    assert MAIN_COLS[34] == "schools_within_10km";
    assert MAIN_COLS[35] == "nearest_LTE_id";
    assert MAIN_COLS[36] == "nearest_LTE_distance";
    assert MAIN_COLS[37] == "nearest_UMTS_id";
    assert MAIN_COLS[38] == "nearest_UMTS_distance";
    assert MAIN_COLS[39] == "nearest_GSM_id";
    assert MAIN_COLS[40] == "nearest_GSM_distance";
    assert MAIN_COLS[41] == "pop_within_1km";
    assert MAIN_COLS[42] == "pop_within_2km";
    assert MAIN_COLS[43] == "pop_within_3km";
    assert MAIN_COLS[44] == "pop_within_10km";
  }

  /** Both tables can be merged on the school id. */
  predicate Joinable(master: Table, coverage: Table) {
    WellFormed(master) && WellFormed(coverage) && KEY in master.columns && KEY in coverage.columns
  }

  /** No two coverage rows share a school id. */
  predicate UniqueSchools(coverage: Table)
    requires WellFormed(coverage) && KEY in coverage.columns
  {
    UniqueKeys(coverage, IndexOf(coverage.columns, KEY))
  }

  /** The first coverage row from position `b` on whose school id is `v`. */
  function MatchRow(coverage: Table, v: Value, b: nat): (r: Option<nat>)
    requires WellFormed(coverage) && KEY in coverage.columns && b <= |coverage.rows|
    ensures r.Some? ==> b <= r.value < |coverage.rows| && Get(coverage, r.value, KEY) == v
    ensures r.Some? ==> forall j :: b <= j < r.value ==> Get(coverage, j, KEY) != v
    ensures r.None? ==> forall j :: b <= j < |coverage.rows| ==> Get(coverage, j, KEY) != v
    decreases |coverage.rows| - b
  {
    if b == |coverage.rows| then None
    else if Get(coverage, b, KEY) == v then Some(b)
    else MatchRow(coverage, v, b + 1)
  }

  /** What the merged master table holds in row `x` under a label of the schema: the
      school id, the master's own cell, the matching coverage school's cell, or a missing
      cell (for a label both tables have, which the merge suffixes away, or neither has). */
  function MasterCell(master: Table, coverage: Table, x: nat, c: string): Value
    requires Joinable(master, coverage) && x < |master.rows|
  {
    if c == KEY then Get(master, x, KEY)
    else if c in master.columns && c in coverage.columns then Null
    else if c in master.columns then Get(master, x, c)
    else if c in coverage.columns then
      match MatchRow(coverage, Get(master, x, KEY), 0)
      case Some(b) => Get(coverage, b, c)
      case None => Null
    else Null
  }

  // ---------------------------------------------------------------------------------
  // Adding the missing columns.
  // ---------------------------------------------------------------------------------

  /** The labels after adding the missing ones are the old ones and the added ones. */
  lemma {:induction false} AddMissingLabel(t: Table, cs: seq<string>, c: string)
    requires WellFormed(t)
    ensures c in AddMissing(t, cs).columns <==> c in t.columns || c in cs
  {
    if cs != [] {
      var init := cs[..|cs| - 1];
      AddMissingLabel(t, init, c);
      assert cs == init + [cs[|cs| - 1]];
    }
  }

  /** Adding the missing columns keeps every existing cell and fills the added columns
      with missing cells. */
  lemma {:induction false} GetAddMissing(t: Table, cs: seq<string>, i: nat, c: string)
    requires WellFormed(t) && i < |t.rows| && (c in t.columns || c in cs)
    ensures c in AddMissing(t, cs).columns
    ensures Get(AddMissing(t, cs), i, c) == if c in t.columns then Get(t, i, c) else Null
  {
    if cs != [] {
      var init := cs[..|cs| - 1];
      var d := cs[|cs| - 1];
      var a := AddMissing(t, init);
      assert cs == init + [d];
      AddMissingLabel(t, init, c);
      if c in t.columns || c in init {
        GetAddMissing(t, init, i, c);
      }
      if d !in a.columns {
        GetSetColumn(a, d, Nulls(|a.rows|), i, c);
        if c == d {
          assert c !in t.columns;
        }
      }
    }
  }

  // ---------------------------------------------------------------------------------
  // The merge with the master table.
  // ---------------------------------------------------------------------------------

  /** The merge fails exactly when one of the tables has no school id column. */
  lemma MasterFails(master: Table, coverage: Table)
    requires WellFormed(master) && WellFormed(coverage)
    ensures MergeWithMaster(master, coverage).Err? <==> KEY !in master.columns || KEY !in coverage.columns
  {
    if KEY in master.columns && KEY in coverage.columns {
      var m := Merge(master, coverage, KEY, "_x", "_y", false).value;
      assert forall k :: 0 <= k < |MAIN_COLS| ==> MAIN_COLS[k] in AddMissing(m, MAIN_COLS).columns;
    }
  }

  /** With unique coverage school ids the left merge pairs master row `x` with at most one
      coverage row, in master order. */
  lemma MasterPairs(master: Table, coverage: Table)
    requires Joinable(master, coverage) && UniqueSchools(coverage)
    ensures |MergePairsOn(master, coverage, KEY, false)| == |master.rows|
    ensures forall x :: 0 <= x < |master.rows| ==> MergePairsOn(master, coverage, KEY, false)[x].left == Some(x)
  {
    LeftPairsOnePerRow(master, coverage, IndexOf(master.columns, KEY), IndexOf(coverage.columns, KEY), |master.rows|);
  }

  /** With unique coverage school ids the merged table has exactly the master's rows. */
  lemma MasterRows(master: Table, coverage: Table)
    requires Joinable(master, coverage) && UniqueSchools(coverage)
    ensures MergeWithMaster(master, coverage).Ok?
    ensures |MergeWithMaster(master, coverage).value.rows| == |master.rows|
  {
    MasterFails(master, coverage);
    MasterPairs(master, coverage);
    MergeRows(master, coverage, KEY, "_x", "_y", false);
  }

  /** A coverage school id shared by two coverage rows duplicates the master rows of that
      school, so the merged table has more rows than the master. */
  lemma MasterRowsGrow(master: Table, coverage: Table, a: nat, b1: nat, b2: nat)
    requires Joinable(master, coverage) && a < |master.rows|
    requires b1 < |coverage.rows| && b2 < |coverage.rows| && b1 != b2
    requires Get(coverage, b1, KEY) == Get(master, a, KEY) && Get(coverage, b2, KEY) == Get(master, a, KEY)
    ensures MergeWithMaster(master, coverage).Ok?
    ensures |MergeWithMaster(master, coverage).value.rows| > |master.rows|
  {
    var kl, kr := IndexOf(master.columns, KEY), IndexOf(coverage.columns, KEY);
    MasterFails(master, coverage);
    MergeRows(master, coverage, KEY, "_x", "_y", false);
    PairsOfTwo(master, coverage, kl, kr, a, b1, b2);
    LeftPairsAtLeast(master, coverage, kl, kr, |master.rows|, a);
  }

  /** With unique school ids the matching coverage row is the one with that id. */
  lemma MatchRowFound(coverage: Table, v: Value, b: nat)
    requires WellFormed(coverage) && KEY in coverage.columns && UniqueSchools(coverage)
    requires b < |coverage.rows| && Get(coverage, b, KEY) == v
    ensures MatchRow(coverage, v, 0) == Some(b)
  {
  }

  lemma MatchRowMissing(coverage: Table, v: Value)
    requires WellFormed(coverage) && KEY in coverage.columns
    requires !HasKey(coverage, IndexOf(coverage.columns, KEY), v)
    ensures MatchRow(coverage, v, 0).None?
  {
  }

  /** Row `x` of the merge, under a label of the master side that keeps its name. */
  lemma MergedMasterCell(master: Table, coverage: Table, x: nat, c: string)
    requires Joinable(master, coverage) && UniqueSchools(coverage) && x < |master.rows| && Plain(c)
    requires c in master.columns && (c == KEY || c !in coverage.columns)
    ensures x < |Merge(master, coverage, KEY, "_x", "_y", false).value.rows|
    ensures c in Merge(master, coverage, KEY, "_x", "_y", false).value.columns
    ensures Get(Merge(master, coverage, KEY, "_x", "_y", false).value, x, c) == MasterCell(master, coverage, x, c)
  {
    MasterPairs(master, coverage);
    PlainSuffixes(c);
    GetMergedLeft(master, coverage, KEY, "_x", "_y", false, x, c);
  }

  /** Row `x` of the merge, under a label only the coverage side has. */
  lemma MergedCoverageCell(master: Table, coverage: Table, x: nat, c: string)
    requires Joinable(master, coverage) && UniqueSchools(coverage) && x < |master.rows| && Plain(c)
    requires c !in master.columns && c in coverage.columns && c != KEY
    ensures x < |Merge(master, coverage, KEY, "_x", "_y", false).value.rows|
    ensures c in Merge(master, coverage, KEY, "_x", "_y", false).value.columns
    ensures Get(Merge(master, coverage, KEY, "_x", "_y", false).value, x, c) == MasterCell(master, coverage, x, c)
  {
    var kl, kr := IndexOf(master.columns, KEY), IndexOf(coverage.columns, KEY);
    MasterPairs(master, coverage);
    MergeRows(master, coverage, KEY, "_x", "_y", false);
    PlainSuffixes(c);
    GetMergedRight(master, coverage, KEY, "_x", "_y", false, x, c);
    var p := MergePairsOn(master, coverage, KEY, false)[x];
    assert ValidPair(master, coverage, kl, kr, p);
    if p.right.Some? {
      MatchRowFound(coverage, Get(master, x, KEY), p.right.value);
    } else {
      MatchRowMissing(coverage, Get(master, x, KEY));
    }
  }

  /** A non-key label on both sides, or on neither, does not survive the merge. */
  lemma MergedNoCell(master: Table, coverage: Table, x: nat, c: string)
    requires Joinable(master, coverage) && x < |master.rows| && Plain(c)
    requires c != KEY && (c in master.columns <==> c in coverage.columns)
    ensures c !in Merge(master, coverage, KEY, "_x", "_y", false).value.columns
    ensures MasterCell(master, coverage, x, c) == Null
  {
    PlainSuffixes(c);
    MergedGone(master, coverage, KEY, "_x", "_y", false, c);
  }

  /** `merge_coverage_and_master` with unique coverage school ids: the result has the
      master's rows, in order, and the master schema, and each cell is the one
      `MasterCell` names: the master's own cells are unchanged, the coverage cells are
      those of the school with the row's id, and every other label reads missing. */
  lemma MasterMergeCells(master: Table, coverage: Table, x: nat, c: string)
    requires Joinable(master, coverage) && UniqueSchools(coverage) && x < |master.rows| && c in MAIN_COLS
    ensures MergeWithMaster(master, coverage).Ok?
    ensures |MergeWithMaster(master, coverage).value.rows| == |master.rows|
    ensures MergeWithMaster(master, coverage).value.columns == MAIN_COLS
    ensures Get(MergeWithMaster(master, coverage).value, x, c) == MasterCell(master, coverage, x, c)
  {
    MainColsPlain();
    MasterRows(master, coverage);
    var m := Merge(master, coverage, KEY, "_x", "_y", false).value;
    var a := AddMissing(m, MAIN_COLS);
    GetSelect(a, MAIN_COLS, x, c);
    GetAddMissing(m, MAIN_COLS, x, c);
    if c == KEY || (c in master.columns && c !in coverage.columns) {
      MergedMasterCell(master, coverage, x, c);
    } else if c in coverage.columns && c !in master.columns {
      MergedCoverageCell(master, coverage, x, c);
    } else {
      MergedNoCell(master, coverage, x, c);
    }
  }
}
