/** The tables of the coverage and merge tests: three schools, listed in the same order
    by both partners. The CSV rows of the test are indented, so each school id keeps the
    row's leading spaces (`INDENT`); every table carries the same spaces, so the ids still
    match. The tables are functions of that indentation, and every lemma below holds
    whatever it is. */
module CoverageFixture {
  import opened Tables
  import opened Coverage
  import opened CoverageFacts
  import opened CombineFacts
  import opened MasterMerge
  import opened MasterFacts

  /** The indentation of the test's CSV rows, which `read_csv` keeps in each school id. */
  const INDENT := "    "

  const SCHOOL_1 := "aafa9d5e-7da7-4507-93e4-9f90aafd1ec5"
  const SCHOOL_2 := "308eb4aa-0fd9-4a4c-84d7-fb2d8e97c699"
  const SCHOOL_3 := "a428103f-8edd-45ae-8bad-17766f6fe887"

  /** Signal percentages per generation. */
  function FacebookFixture(pad: string): Table {
    Table([KEY, "percent_2G", "percent_3G", "percent_4G"], [
      [Str(pad + SCHOOL_1), Num(90.0), Num(40.0), Num(30.0)],
      [Str(pad + SCHOOL_2), Num(80.0), Num(30.0), Num(0.0)],
      [Str(pad + SCHOOL_3), Num(10.0), Num(0.0), Num(5.0)]])
  }

  /** Coverage tiers per generation. */
  function ItuFixture(pad: string): Table {
    Table([KEY, "2G", "3G", "4G"], [
      [Str(pad + SCHOOL_1), Num(1.0), Num(1.0), Num(1.0)],
      [Str(pad + SCHOOL_2), Num(0.0), Num(1.0), Num(0.0)],
      [Str(pad + SCHOOL_3), Num(1.0), Num(1.0), Num(0.0)]])
  }

  /** The master table of the merge test: the third school is listed twice. */
  function MasterFixture(pad: string): Table {
    Table([KEY, "school_id", "name"], [
      [Str(pad + SCHOOL_1), Num(1.0), Str("one")],
      [Str(pad + SCHOOL_2), Num(2.0), Str("two")],
      [Str(pad + SCHOOL_3), Num(3.0), Str("three")],
      [Str(pad + SCHOOL_3), Num(4.0), Str("four")]])
  }

  /** The expected coverage types, row by row. */
  const EXPECTED_TYPES: seq<Value> := [Str("4G"), Str("3G"), Str("4G")]

  // ---------------------------------------------------------------------------------
  // The cells the tests rely on. The lemmas that know the fixtures only establish these
  // facts; the lemmas that run the stages know only these facts, so that the verifier
  // reasons through the general lemmas instead of evaluating every stage.
  // ---------------------------------------------------------------------------------

  /** Three rows whose percentages are positive for 2G everywhere, for 3G except in the
      last row and for 4G except in the middle row. */
  predicate FacebookCells(fb: Table) {
    && WellFormed(fb) && |fb.rows| == 3
    && "percent_2G" in fb.columns && "percent_3G" in fb.columns && "percent_4G" in fb.columns
    && forall x :: 0 <= x < 3 ==>
         && Compare(Positive, Get(fb, x, "percent_2G")) == Ok(true)
         && Compare(Positive, Get(fb, x, "percent_3G")) == Ok(x != 2)
         && Compare(Positive, Get(fb, x, "percent_4G")) == Ok(x != 1)
  }

  /** Three rows whose 2G tier is at least one except in the middle row, whose 3G tier is
      one everywhere and whose 4G tier is one in the first row only. */
  predicate ItuCells(itu: Table) {
    && WellFormed(itu) && |itu.rows| == 3
    && "2G" in itu.columns && "3G" in itu.columns && "4G" in itu.columns
    && forall x :: 0 <= x < 3 ==>
         && Compare(AtLeastOne, Get(itu, x, "2G")) == Ok(x != 1)
         && Compare(EqualsOne, Get(itu, x, "3G")) == Ok(true)
         && Compare(EqualsOne, Get(itu, x, "4G")) == Ok(x == 0)
  }

  /** The Facebook fixture has those cells. */
  lemma FacebookFixtureCells(pad: string, fb: Table)
    requires fb == FacebookFixture(pad)
    ensures FacebookCells(fb)
  {
    assert IndexOf(fb.columns, "percent_2G") == 1;
    assert IndexOf(fb.columns, "percent_3G") == 2;
    assert IndexOf(fb.columns, "percent_4G") == 3;
  }

  /** The ITU fixture has those cells. */
  lemma ItuFixtureCells(pad: string, itu: Table)
    requires itu == ItuFixture(pad)
    ensures ItuCells(itu)
  {
    assert IndexOf(itu.columns, "2G") == 1;
    assert IndexOf(itu.columns, "3G") == 2;
    assert IndexOf(itu.columns, "4G") == 3;
  }

  /** A common indentation keeps different ids different. */
  lemma PaddedDistinct(pad: string, a: string, b: string)
    requires a != b
    ensures pad + a != pad + b
  {
    assert (pad + a)[|pad|..] == a && (pad + b)[|pad|..] == b;
  }

  /** The fixture lists three different schools, in the same order in both tables. */
  lemma FixtureSchools(pad: string, fb: Table, itu: Table)
    requires fb == FacebookFixture(pad) && itu == ItuFixture(pad)
    ensures SameSchools(fb, itu)
  {
    assert IndexOf(fb.columns, KEY) == 0 && IndexOf(itu.columns, KEY) == 0;
    PaddedDistinct(pad, SCHOOL_1, SCHOOL_2);
    PaddedDistinct(pad, SCHOOL_1, SCHOOL_3);
    PaddedDistinct(pad, SCHOOL_2, SCHOOL_3);
  }

  // ---------------------------------------------------------------------------------
  // The coverage stages on those cells.
  // ---------------------------------------------------------------------------------

  /** The Facebook flags succeed: every percentage is a number. */
  lemma FacebookCellFlags(fb: Table)
    requires FacebookCells(fb)
    ensures ApplyFlags(fb, FB_FLAGS).failure.None?
  {
    FacebookFlagsFail(fb);
    forall k | 0 <= k < |FB_FLAGS|
      ensures FB_FLAGS[k].source in fb.columns && forall j :: 0 <= j < |fb.rows| ==> !Get(fb, j, FB_FLAGS[k].source).Str?
    {
      assert FB_FLAGS[k].source in ["percent_2G", "percent_3G", "percent_4G"];
    }
  }

  /** The ITU flags succeed: every tier is a number. */
  lemma ItuCellFlags(itu: Table)
    requires ItuCells(itu)
    ensures ApplyFlags(itu, ITU_FLAGS).failure.None?
  {
    ItuFlagsFail(itu);
    forall k | 0 <= k < |ITU_FLAGS| ensures ITU_FLAGS[k].source in itu.columns {
      assert ITU_FLAGS[k].source in ["2G", "3G", "4G"];
    }
    forall j | 0 <= j < |itu.rows| ensures !Get(itu, j, "2G").Str? {
      assert Compare(AtLeastOne, Get(itu, j, "2G")).Ok?;
    }
  }

  /** Facebook's flags on row `x`: 2G everywhere, 3G on the first two rows, 4G on the
      first and last. */
  lemma FacebookCellRow(fb: Table, x: nat)
    requires FacebookCells(fb) && x < 3 && ApplyFlags(fb, FB_FLAGS).failure.None?
    ensures var f := ApplyFlags(fb, FB_FLAGS).table;
      && FlagOf(f, Some(x), COVERAGE_2G)
      && FlagOf(f, Some(x), COVERAGE_3G) == (x != 2)
      && FlagOf(f, Some(x), COVERAGE_4G) == (x != 1)
  {
    FacebookFlagsOf(fb, x);
  }

  /** ITU's flags on row `x`: 2G on the first and last rows, 3G everywhere, 4G on the
      first. */
  lemma ItuCellRow(itu: Table, x: nat)
    requires ItuCells(itu) && x < 3 && ApplyFlags(itu, ITU_FLAGS).failure.None?
    ensures var it := ApplyFlags(itu, ITU_FLAGS).table;
      && FlagOf(it, Some(x), COVERAGE_2G) == (x != 1)
      && FlagOf(it, Some(x), COVERAGE_3G)
      && FlagOf(it, Some(x), COVERAGE_4G) == (x == 0)
  {
    ItuFlagsOf(itu, x);
  }

  /** The tables reconcile into one row per school, row `x` explained by row `x` of both
      flagged tables. */
  lemma CellRows(fb: Table, itu: Table)
    requires SameSchools(fb, itu) && FacebookCells(fb) && ItuCells(itu)
    ensures Reconcile(fb, itu).Ok? && |Reconcile(fb, itu).value.rows| == 3
    ensures ApplyFlags(fb, FB_FLAGS).failure.None? && ApplyFlags(itu, ITU_FLAGS).failure.None?
    ensures forall x :: 0 <= x < 3 ==>
      Explains(ApplyFlags(fb, FB_FLAGS).table, ApplyFlags(itu, ITU_FLAGS).table, Reconcile(fb, itu).value, x, Some(x), Some(x))
  {
    FacebookCellFlags(fb);
    ItuCellFlags(itu);
    FlagsKeepSchools(fb, itu);
    ReconcileFails(fb, itu);
    CombineAligned(ApplyFlags(fb, FB_FLAGS).table, ApplyFlags(itu, ITU_FLAGS).table);
  }

  /** Row `x` of the reconciled tables has the expected type and is available. */
  lemma CellRow(fb: Table, itu: Table, x: nat)
    requires FacebookCells(fb) && ItuCells(itu) && x < 3
    requires ApplyFlags(fb, FB_FLAGS).failure.None? && ApplyFlags(itu, ITU_FLAGS).failure.None?
    requires Reconcile(fb, itu).Ok?
    requires Explains(ApplyFlags(fb, FB_FLAGS).table, ApplyFlags(itu, ITU_FLAGS).table, Reconcile(fb, itu).value, x, Some(x), Some(x))
    ensures Get(Reconcile(fb, itu).value, x, COVERAGE_TYPE) == EXPECTED_TYPES[x]
    ensures Get(Reconcile(fb, itu).value, x, COVERAGE_AVAILABILITY) == Str("YES")
  {
    FacebookCellRow(fb, x);
    ItuCellRow(itu, x);
  }

  /** The types are 4G, 3G and 4G, and every row is available. */
  lemma CellCoverage(fb: Table, itu: Table)
    requires SameSchools(fb, itu) && FacebookCells(fb) && ItuCells(itu)
    ensures Reconcile(fb, itu).Ok?
    ensures var r := Reconcile(fb, itu).value;
      && |r.rows| == 3 && COVERAGE_TYPE in r.columns && COVERAGE_AVAILABILITY in r.columns
      && (forall x :: 0 <= x < 3 ==> Get(r, x, COVERAGE_TYPE) == EXPECTED_TYPES[x])
      && (forall x :: 0 <= x < 3 ==> Get(r, x, COVERAGE_AVAILABILITY) == Str("YES"))
  {
    CellRows(fb, itu);
    var f, it, r := ApplyFlags(fb, FB_FLAGS).table, ApplyFlags(itu, ITU_FLAGS).table, Reconcile(fb, itu).value;
    assert Explains(f, it, r, 0, Some(0), Some(0));
    forall x | 0 <= x < 3
      ensures Get(r, x, COVERAGE_TYPE) == EXPECTED_TYPES[x] && Get(r, x, COVERAGE_AVAILABILITY) == Str("YES")
    {
      CellRow(fb, itu, x);
    }
  }

  /** `test_coverage_data_creation`: the fixture reconciles into three rows typed 4G, 3G
      and 4G, all available. */
  lemma FixtureCoverage(pad: string, fb: Table, itu: Table)
    requires fb == FacebookFixture(pad) && itu == ItuFixture(pad)
    ensures Reconcile(fb, itu).Ok?
    ensures var r := Reconcile(fb, itu).value;
      && |r.rows| == 3 && COVERAGE_TYPE in r.columns && COVERAGE_AVAILABILITY in r.columns
      && (forall x :: 0 <= x < 3 ==> Get(r, x, COVERAGE_TYPE) == EXPECTED_TYPES[x])
      && (forall x :: 0 <= x < 3 ==> Get(r, x, COVERAGE_AVAILABILITY) == Str("YES"))
  {
    FacebookFixtureCells(pad, fb);
    ItuFixtureCells(pad, itu);
    FixtureSchools(pad, fb, itu);
    CellCoverage(fb, itu);
  }

  /** Rows explained by the same row of flagged tables that list each school once carry
      different school ids. */
  lemma AlignedUnique(f: Table, it: Table, r: Table)
    requires SameSchools(f, it) && WellFormed(r) && KEY in r.columns && |r.rows| == |f.rows|
    requires forall x :: 0 <= x < |r.rows| ==> Explains(f, it, r, x, Some(x), Some(x))
    ensures UniqueSchools(r)
  {
    forall x, y | 0 <= x < y < |r.rows|
      ensures r.rows[x][IndexOf(r.columns, KEY)] != r.rows[y][IndexOf(r.columns, KEY)]
    {
      assert Explains(f, it, r, x, Some(x), Some(x)) && Explains(f, it, r, y, Some(y), Some(y));
    }
  }

  /** Tables with those cells reconcile into one row per school. */
  lemma CellSchools(fb: Table, itu: Table)
    requires SameSchools(fb, itu) && FacebookCells(fb) && ItuCells(itu)
    ensures Reconcile(fb, itu).Ok? && KEY in Reconcile(fb, itu).value.columns
    ensures UniqueSchools(Reconcile(fb, itu).value)
  {
    CellRows(fb, itu);
    FlagsKeepSchools(fb, itu);
    var f, it, r := ApplyFlags(fb, FB_FLAGS).table, ApplyFlags(itu, ITU_FLAGS).table, Reconcile(fb, itu).value;
    assert Explains(f, it, r, 0, Some(0), Some(0));
    AlignedUnique(f, it, r);
  }

  /** In the merge test the coverage table has one row per school. */
  lemma FixtureCoverageSchools(pad: string, fb: Table, itu: Table)
    requires fb == FacebookFixture(pad) && itu == ItuFixture(pad)
    ensures Reconcile(fb, itu).Ok? && KEY in Reconcile(fb, itu).value.columns
    ensures UniqueSchools(Reconcile(fb, itu).value)
  {
    FacebookFixtureCells(pad, fb);
    ItuFixtureCells(pad, itu);
    FixtureSchools(pad, fb, itu);
    CellSchools(fb, itu);
  }

  lemma MasterFixtureKey(pad: string, master: Table)
    requires master == MasterFixture(pad)
    ensures WellFormed(master) && KEY in master.columns && |master.rows| == 4
    ensures Get(master, 2, KEY) == Get(master, 3, KEY)
  {
    assert IndexOf(master.columns, KEY) == 0;
  }

  /** `test_master_coverage_merge`: merged with a coverage table that has one row per
      school, such as the one `FixtureCoverageSchools` gives, the master table keeps its
      four rows, the two rows of the third school among them. */
  lemma MasterFixtureRows(pad: string, master: Table, coverage: Table)
    requires master == MasterFixture(pad)
    requires WellFormed(coverage) && KEY in coverage.columns && UniqueSchools(coverage)
    ensures MergeWithMaster(master, coverage).Ok?
    ensures |MergeWithMaster(master, coverage).value.rows| == |master.rows| == 4
    ensures Get(master, 2, KEY) == Get(master, 3, KEY)
  {
    MasterFixtureKey(pad, master);
    MasterRows(master, coverage);
  }
}
