/** `merge_coverage_and_master`: joins the canonical coverage table onto the country's
    school master table and projects the result onto the fixed master schema. */
module MasterMerge {
  import opened Strings
  import opened Tables
  import Coverage

  /** The fixed, ordered master schema. */
  const MAIN_COLS: seq<string> :=
    [Coverage.KEY, "school_id", "name", "lat", "lon", "education_level", "education_level_regional", "school_type", "connectivity"]
    + ["connectivity_speed", "type_connectivity", "coverage_availability", "coverage_type", "latency_connectivity", "admin1", "admin2", "admin3", "admin4"]
    + ["school_region", "num_computers", "num_teachers", "num_students", "num_classroom", "computer_availability", "computer_lab", "electricity", "water"]
    + ["address", "fiber_node_distance", "microwave_node_distance", "nearest_school_distance", "schools_within_1km", "schools_within_2km", "schools_within_3km", "schools_within_10km", "nearest_LTE_id"]
    + ["nearest_LTE_distance", "nearest_UMTS_id", "nearest_UMTS_distance", "nearest_GSM_id", "nearest_GSM_distance", "pop_within_1km", "pop_within_2km", "pop_within_3km", "pop_within_10km"]

  /** The loop over `cs` that adds every missing column as an all-null one, in order. */
  function AddMissing(t: Table, cs: seq<string>): (r: Table)
    requires WellFormed(t)
    ensures WellFormed(r) && |r.rows| == |t.rows|
    ensures forall c :: c in cs ==> c in r.columns
  {
    if cs == [] then t
    else
      var a := AddMissing(t, cs[..|cs| - 1]);
      var c := cs[|cs| - 1];
      if c in a.columns then a else SetColumn(a, c, Nulls(|a.rows|))
  }

  /** `merge_coverage_and_master(master_df, coverage_df)` as a function of the two tables:
      a left merge with pandas' default suffixes, the missing columns, the projection. */
  function MergeWithMaster(master: Table, coverage: Table): (r: Result<Table>)
    requires WellFormed(master) && WellFormed(coverage)
    ensures r.Ok? ==> WellFormed(r.value) && r.value.columns == MAIN_COLS
  {
    var m :- Merge(master, coverage, Coverage.KEY, "_x", "_y", false);
    Select(AddMissing(m, MAIN_COLS), MAIN_COLS)
  }

  /** The loop that adds the missing columns of `cols` to a frame. */
  method AddMissingColumns(frame: Frame, cols: seq<string>)
    requires WellFormed(frame.table)
    modifies frame
    ensures frame.table == AddMissing(old(frame.table), cols)
  {
    ghost var m := frame.table;
    var k := 0;
    while k < |cols|
      invariant 0 <= k <= |cols|
      invariant frame.table == AddMissing(m, cols[..k])
    {
      assert cols[..k + 1][..k] == cols[..k];
      if cols[k] !in frame.table.columns {
        frame.Assign(cols[k], Nulls(|frame.table.rows|));
      }
      k := k + 1;
    }
    assert cols[..k] == cols;
  }

  /** `merge_coverage_and_master`. */
  method MergeCoverageAndMaster(master: Table, coverage: Table) returns (r: Result<Table>)
    requires WellFormed(master) && WellFormed(coverage)
    ensures r == MergeWithMaster(master, coverage)
  {
    var m :- Merge(master, coverage, Coverage.KEY, "_x", "_y", false);
    var frame := new Frame(m);
    AddMissingColumns(frame, MAIN_COLS);
    r := Select(frame.table, MAIN_COLS);
  }
}
