/** `process_coverage_data`: reconciles the Facebook and ITU coverage tables of one
    country into one canonical table with a YES/NO flag per generation, the best
    generation available (`coverage_type`) and whether any is (`coverage_availability`). */
module Coverage {
  import opened Strings
  import opened Tables

  const KEY := "giga_id_school"
  const COVERAGE_2G := "2G_coverage"
  const COVERAGE_3G := "3G_coverage"
  const COVERAGE_4G := "4G_coverage"
  const COVERAGE_TYPE := "coverage_type"
  const COVERAGE_AVAILABILITY := "coverage_availability"
  const NO_COVERAGE := "no coverage"
  const ITU_SUFFIX := "_itu"

  /** The Facebook allow-list. */
  const FB_KEEP: seq<string> := [KEY, COVERAGE_2G, COVERAGE_3G, COVERAGE_4G]

  /** The ITU allow-list, as written: the 2G and 3G flags are listed twice. */
  const ITU_KEEP: seq<string> := [
    KEY, COVERAGE_2G, COVERAGE_3G, "fiber_node_distance",
    "microwave_node_distance", "nearest_school_distance", "schools_within_1km", "schools_within_2km",
    "schools_within_3km", "schools_within_10km", "nearest_LTE_id", "nearest_LTE_distance",
    "nearest_UMTS_id", "nearest_UMTS_distance", "nearest_GSM_id", "nearest_GSM_distance",
    COVERAGE_2G, COVERAGE_3G, COVERAGE_4G, "pop_within_1km", "pop_within_2km",
    "pop_within_3km", "pop_within_10km"]

  /** The ITU labels that are lower-cased before selection. */
  const ITU_RENAME: seq<string> := ["Schools_within_1km", "Schools_within_2km", "Schools_within_3km", "Schools_within_10km"]

  /** The order of the two loops over the generations. */
  const HARMONIZE_ORDER: seq<string> := [COVERAGE_4G, COVERAGE_3G, COVERAGE_2G]
  const ENCODE_ORDER: seq<string> := [COVERAGE_2G, COVERAGE_3G, COVERAGE_4G]

  // ---------------------------------------------------------------------------------
  // Per-partner flags.
  // ---------------------------------------------------------------------------------

  /** The comparison that turns a partner's column into a flag: `> 0`, `>= 1` or `== 1`. */
  datatype Test = Positive | AtLeastOne | EqualsOne

  /** `df[target] = (df[source] <test>)`. */
  datatype FlagRule = FlagRule(source: string, target: string, test: Test)

  /** Facebook flags a generation whose signal percentage is positive. */
  const FB_FLAGS: seq<FlagRule> := [
    FlagRule("percent_2G", COVERAGE_2G, Positive),
    FlagRule("percent_3G", COVERAGE_3G, Positive),
    FlagRule("percent_4G", COVERAGE_4G, Positive)]

  /** ITU flags 2G from a tier of at least one and 3G and 4G from a tier of exactly one. */
  const ITU_FLAGS: seq<FlagRule> := [
    FlagRule("2G", COVERAGE_2G, AtLeastOne),
    FlagRule("3G", COVERAGE_3G, EqualsOne),
    FlagRule("4G", COVERAGE_4G, EqualsOne)]

  /** One cell compared with a number as pandas compares it: a missing cell compares
      false, a boolean compares as 0 or 1, and a string cannot be ordered against a number
      (a `TypeError`) and is never equal to one. */
  function Compare(test: Test, v: Value): (r: Result<bool>)
    ensures r.Err? <==> v.Str? && test != EqualsOne
    ensures v.Null? ==> r == Ok(false)
  {
    match v
    case Null => Ok(false)
    case Bool(b) => Ok(b)
    case Num(x) =>
      Ok(match test
         case Positive => x > 0.0
         case AtLeastOne => x >= 1.0
         case EqualsOne => x == 1.0)
    case Str(_) =>
      match test
      case Positive => Err(TypeError("'>' not supported between instances of 'str' and 'int'"))
      case AtLeastOne => Err(TypeError("'>=' not supported between instances of 'str' and 'int'"))
      case EqualsOne => Ok(false)
  }

  /** The flag cells of the rows, from the cell at position `j`: an error as soon as one
      comparison fails. */
  function FlagCells(rows: seq<Row>, j: nat, test: Test): (r: Result<seq<Value>>)
    requires forall i :: 0 <= i < |rows| ==> j < |rows[i]|
    ensures r.Ok? <==> forall i :: 0 <= i < |rows| ==> Compare(test, rows[i][j]).Ok?
    ensures r.Ok? ==> |r.value| == |rows|
    ensures r.Ok? ==> forall i :: 0 <= i < |rows| ==> r.value[i] == Bool(Compare(test, rows[i][j]).value)
  {
    if rows == [] then Ok([])
    else
      var c :- Compare(test, rows[0][j]);
      var rest :- FlagCells(rows[1..], j, test);
      Ok([Bool(c)] + rest)
  }

  /** One flag rule applied to a table: a `KeyError` when the source column is missing. */
  function DeriveFlag(t: Table, rule: FlagRule): (r: Result<Table>)
    requires WellFormed(t)
    ensures r.Ok? ==> WellFormed(r.value) && |r.value.rows| == |t.rows|
  {
    if rule.source !in t.columns then Err(KeyError(rule.source))
    else
      var cells :- FlagCells(t.rows, IndexOf(t.columns, rule.source), rule.test);
      Ok(SetColumn(t, rule.target, cells))
  }

  /** A flag rule fails exactly when its source column is missing or one of its cells
      cannot be compared; otherwise the target column holds the comparison of each row
      and every other column is kept. */
  lemma DeriveFlagSpec(t: Table, rule: FlagRule)
    requires WellFormed(t)
    ensures DeriveFlag(t, rule).Err? <==>
              rule.source !in t.columns
              || exists i :: 0 <= i < |t.rows| && Compare(rule.test, Get(t, i, rule.source)).Err?
    ensures DeriveFlag(t, rule).Ok? ==>
              var r := DeriveFlag(t, rule).value;
              && r.columns == (if rule.target in t.columns then t.columns else t.columns + [rule.target])
              && forall i, j :: 0 <= i < |r.rows| && 0 <= j < |r.columns| ==>
                   r.rows[i][j] == if r.columns[j] == rule.target then Bool(Compare(rule.test, Get(t, i, rule.source)).value)
                                   else t.rows[i][j]
  {
    if rule.source in t.columns {
      var j := IndexOf(t.columns, rule.source);
      assert forall i :: 0 <= i < |t.rows| ==> Get(t, i, rule.source) == t.rows[i][j];
    }
  }

  /** A table after some rules, and the error of the rule that failed, if one did. */
  datatype Flagged = Flagged(table: Table, failure: Option<Error>)

  /** The rules applied one after the other; the first that fails stops the others and
      leaves the table as the rules before it made it. */
  function ApplyFlags(t: Table, rules: seq<FlagRule>): (r: Flagged)
    requires WellFormed(t)
    ensures WellFormed(r.table) && |r.table.rows| == |t.rows|
    decreases |rules|
  {
    if rules == [] then Flagged(t, None)
    else
      match DeriveFlag(t, rules[0])
      case Err(e) => Flagged(t, Some(e))
      case Ok(t') => ApplyFlags(t', rules[1..])
  }

  /** A rule that succeeds hands its table on to the rest of the rules. */
  lemma ApplyFlagsStep(t: Table, rules: seq<FlagRule>)
    requires WellFormed(t) && rules != []
    ensures DeriveFlag(t, rules[0]).Err? ==> ApplyFlags(t, rules) == Flagged(t, Some(DeriveFlag(t, rules[0]).error))
    ensures DeriveFlag(t, rules[0]).Ok? ==> ApplyFlags(t, rules) == ApplyFlags(DeriveFlag(t, rules[0]).value, rules[1..])
  {
  }

  /** `df[rule.target] = (df[rule.source] <test>)` on a frame; on an error the frame is
      left as it was. */
  method AssignFlag(frame: Frame, rule: FlagRule) returns (e: Option<Error>)
    requires WellFormed(frame.table)
    modifies frame
    ensures DeriveFlag(old(frame.table), rule).Ok? ==> e.None? && frame.table == DeriveFlag(old(frame.table), rule).value
    ensures DeriveFlag(old(frame.table), rule).Err? ==>
              e == Some(DeriveFlag(old(frame.table), rule).error) && frame.table == old(frame.table)
  {
    if rule.source !in frame.table.columns {
      return Some(KeyError(rule.source));
    }
    var cells := FlagCells(frame.table.rows, IndexOf(frame.table.columns, rule.source), rule.test);
    if cells.Err? {
      return Some(cells.error);
    }
    frame.Assign(rule.target, cells.value);
    return None;
  }

  // ---------------------------------------------------------------------------------
  // Renaming and selection.
  // ---------------------------------------------------------------------------------

  /** `rename(lambda col: col.lower() if col in ITU_RENAME else col, axis='columns')`. */
  function LowerItuColumns(t: Table): (r: Table)
    ensures r.rows == t.rows && |r.columns| == |t.columns|
    ensures forall j :: 0 <= j < |t.columns| && t.columns[j] !in ITU_RENAME ==> r.columns[j] == t.columns[j]
  {
    Table(seq(|t.columns|, j requires 0 <= j < |t.columns| =>
            if t.columns[j] in ITU_RENAME then Lower(t.columns[j]) else t.columns[j]),
          t.rows)
  }

  /** `[c for c in names if c in cols]`. */
  function Present(names: seq<string>, cols: seq<string>): (r: seq<string>)
    ensures |r| <= |names|
    ensures forall c :: c in r <==> c in names && c in cols
  {
    if names == [] then []
    else (if names[0] in cols then [names[0]] else []) + Present(names[1..], cols)
  }

  /** The comprehension keeps the order of `names` and each present name as often as it
      is listed, so a name listed twice is selected twice. */
  lemma {:induction false} PresentKeeps(names: seq<string>, cols: seq<string>)
    ensures Subsequence(Present(names, cols), names)
    ensures forall c :: multiset(Present(names, cols))[c] == if c in cols then multiset(names)[c] else 0
    decreases |names|
  {
    if names != [] {
      var r := Present(names, cols);
      PresentKeeps(names[1..], cols);
      assert names == [names[0]] + names[1..];
      if names[0] in cols {
        assert r == [names[0]] + Present(names[1..], cols);
        assert r[1..] == Present(names[1..], cols);
      } else {
        assert r == Present(names[1..], cols);
        assert r != [] ==> r[0] in cols;
      }
    } else {
      assert Present(names, cols) == [];
    }
  }

  /** The Facebook rows with a school id, restricted to the Facebook allow-list. */
  function FacebookSelection(f: Table): (r: Result<Table>)
    requires WellFormed(f)
    ensures r.Ok? ==> WellFormed(r.value) && r.value.columns == FB_KEEP
  {
    var d :- DropMissing(f, KEY);
    Select(d, FB_KEEP)
  }

  /** The ITU rows with a school id, restricted to the allowed columns it has. */
  function ItuSelection(i: Table): (r: Result<Table>)
    requires WellFormed(i)
    ensures r.Ok? ==> WellFormed(r.value) && r.value.columns == Present(ITU_KEEP, i.columns)
  {
    var d :- DropMissing(i, KEY);
    Select(d, Present(ITU_KEEP, d.columns))
  }

  // ---------------------------------------------------------------------------------
  // Harmonizing, classifying and encoding the merged table.
  // ---------------------------------------------------------------------------------

  /** Whether some cell of a row under a label starting with `p` is true (a missing cell
      is skipped, as `any(axis='columns')` skips it). */
  function RowHasPrefix(cols: seq<string>, row: Row, p: string): (b: bool)
    requires |row| == |cols|
    ensures b <==> exists j :: 0 <= j < |cols| && StartsWith(cols[j], p) && Truthy(row[j])
  {
    if cols == [] then false
    else (StartsWith(cols[0], p) && Truthy(row[0])) || RowHasPrefix(cols[1..], row[1..], p)
  }

  /** `df[[c for c in df.columns if c.startswith(p)]].any(axis='columns')`. */
  function AnyWithPrefix(t: Table, p: string): (cells: seq<Value>)
    requires WellFormed(t)
    ensures |cells| == |t.rows|
  {
    seq(|t.rows|, i requires 0 <= i < |t.rows| => Bool(RowHasPrefix(t.columns, t.rows[i], p)))
  }

  /** The harmonize loop over the generations `cs`, in order. */
  function HarmonizeAll(t: Table, cs: seq<string>): (r: Table)
    requires WellFormed(t)
    ensures WellFormed(r) && |r.rows| == |t.rows|
    ensures forall c :: c in r.columns <==> c in t.columns || c in cs
  {
    if cs == [] then t
    else
      var h := HarmonizeAll(t, cs[..|cs| - 1]);
      SetColumn(h, cs[|cs| - 1], AnyWithPrefix(h, cs[|cs| - 1]))
  }

  /** `np.select` over the 4G, 3G and 2G flags, in that order, with "no coverage" last. */
  function TypeOf(t: Table, i: nat): Value
    requires WellFormed(t) && i < |t.rows|
    requires COVERAGE_2G in t.columns && COVERAGE_3G in t.columns && COVERAGE_4G in t.columns
  {
    if Get(t, i, COVERAGE_4G) == Bool(true) then Str("4G")
    else if Get(t, i, COVERAGE_3G) == Bool(true) then Str("3G")
    else if Get(t, i, COVERAGE_2G) == Bool(true) then Str("2G")
    else Str(NO_COVERAGE)
  }

  function TypeColumn(t: Table): (cells: seq<Value>)
    requires WellFormed(t)
    requires COVERAGE_2G in t.columns && COVERAGE_3G in t.columns && COVERAGE_4G in t.columns
    ensures |cells| == |t.rows|
  {
    seq(|t.rows|, i requires 0 <= i < |t.rows| => TypeOf(t, i))
  }

  /** `map({True: 'YES', False: 'NO'})`: a value the map does not hold becomes missing
      (1 and 0 are the same keys as True and False). */
  function YesNo(v: Value): Value {
    match v
    case Bool(b) => if b then Str("YES") else Str("NO")
    case Num(x) => if x == 1.0 then Str("YES") else if x == 0.0 then Str("NO") else Null
    case _ => Null
  }

  function YesNoColumn(t: Table, c: string): (cells: seq<Value>)
    requires WellFormed(t) && c in t.columns
    ensures |cells| == |t.rows|
  {
    seq(|t.rows|, i requires 0 <= i < |t.rows| => YesNo(Get(t, i, c)))
  }

  /** The encoding loop over the generations `cs`, in order. */
  function EncodeAll(t: Table, cs: seq<string>): (r: Table)
    requires WellFormed(t)
    requires forall c :: c in cs ==> c in t.columns
    ensures WellFormed(r) && |r.rows| == |t.rows| && r.columns == t.columns
  {
    if cs == [] then t
    else
      var e := EncodeAll(t, cs[..|cs| - 1]);
      SetColumn(e, cs[|cs| - 1], YesNoColumn(e, cs[|cs| - 1]))
  }

  /** `np.where(df['coverage_type'] == 'no coverage', 'NO', 'YES')`. */
  function AvailabilityColumn(t: Table): (cells: seq<Value>)
    requires WellFormed(t) && COVERAGE_TYPE in t.columns
    ensures |cells| == |t.rows|
  {
    seq(|t.rows|, i requires 0 <= i < |t.rows| =>
      if Get(t, i, COVERAGE_TYPE) == Str(NO_COVERAGE) then Str("NO") else Str("YES"))
  }

  /** The positions of the labels that do not end with `suffix`, in order. */
  function KeptPositions(cols: seq<string>, suffix: string): (idx: seq<nat>)
    ensures forall k :: 0 <= k < |idx| ==> idx[k] < |cols| && !EndsWith(cols[idx[k]], suffix)
    ensures forall j :: 0 <= j < |cols| && !EndsWith(cols[j], suffix) ==> j in idx
    ensures forall k, k' :: 0 <= k < k' < |idx| ==> idx[k] < idx[k']
  {
    if cols == [] then []
    else
      var rest := KeptPositions(cols[..|cols| - 1], suffix);
      if EndsWith(cols[|cols| - 1], suffix) then rest else rest + [|cols| - 1]
  }

  /** `df[[c for c in df.columns if not c.endswith('_itu')]]`. */
  function DropItu(t: Table): (r: Table)
    requires WellFormed(t)
    ensures WellFormed(r) && |r.rows| == |t.rows|
  {
    Project(t, KeptPositions(t.columns, ITU_SUFFIX))
  }

  /** `df['coverage_type'] = np.select(...)` on the harmonized table. */
  function Classified(h: Table): (r: Table)
    requires WellFormed(h)
    requires COVERAGE_2G in h.columns && COVERAGE_3G in h.columns && COVERAGE_4G in h.columns
    ensures WellFormed(r) && |r.rows| == |h.rows|
    ensures forall c :: c in r.columns <==> c in h.columns || c == COVERAGE_TYPE
  {
    SetColumn(h, COVERAGE_TYPE, TypeColumn(h))
  }

  /** `df['coverage_availability'] = np.where(...)` on the encoded table. */
  function WithAvailability(e: Table): (r: Table)
    requires WellFormed(e) && COVERAGE_TYPE in e.columns
    ensures WellFormed(r) && |r.rows| == |e.rows|
    ensures forall c :: c in r.columns <==> c in e.columns || c == COVERAGE_AVAILABILITY
  {
    SetColumn(e, COVERAGE_AVAILABILITY, AvailabilityColumn(e))
  }

  /** Everything after the merge: harmonize, classify, encode, derive availability and
      drop the ITU copies. */
  function Finish(m: Table): (r: Table)
    requires WellFormed(m)
    ensures WellFormed(r) && |r.rows| == |m.rows|
  {
    DropItu(WithAvailability(EncodeAll(Classified(HarmonizeAll(m, HARMONIZE_ORDER)), ENCODE_ORDER)))
  }

  /** The reconciliation of two flagged partner tables. */
  function Combine(f: Table, i: Table): (r: Result<Table>)
    requires WellFormed(f) && WellFormed(i)
    ensures r.Ok? ==> WellFormed(r.value)
  {
    var fs :- FacebookSelection(f);
    var its :- ItuSelection(LowerItuColumns(i));
    var m :- Merge(fs, its, KEY, "", ITU_SUFFIX, true);
    Ok(Finish(m))
  }

  /** `process_coverage_data(facebook_df, itu_df)` as a function of the two tables. */
  function Reconcile(fb: Table, itu: Table): (r: Result<Table>)
    requires WellFormed(fb) && WellFormed(itu)
    ensures r.Ok? ==> WellFormed(r.value)
  {
    var f := ApplyFlags(fb, FB_FLAGS);
    if f.failure.Some? then Err(f.failure.value)
    else
      var i := ApplyFlags(itu, ITU_FLAGS);
      if i.failure.Some? then Err(i.failure.value)
      else Combine(f.table, i.table)
  }

  /** The three Facebook flag assignments, one after the other. */
  method AddFacebookFlags(facebook: Frame) returns (e: Option<Error>)
    requires WellFormed(facebook.table)
    modifies facebook
    ensures e == ApplyFlags(old(facebook.table), FB_FLAGS).failure
    ensures facebook.table == ApplyFlags(old(facebook.table), FB_FLAGS).table
  {
    ghost var t0 := facebook.table;
    e := AssignFlag(facebook, FB_FLAGS[0]);
    if e.Some? { return; }
    ghost var t1 := facebook.table;
    ApplyFlagsStep(t0, FB_FLAGS);
    e := AssignFlag(facebook, FB_FLAGS[1]);
    if e.Some? { return; }
    ghost var t2 := facebook.table;
    ApplyFlagsStep(t1, FB_FLAGS[1..]);
    e := AssignFlag(facebook, FB_FLAGS[2]);
    if e.Some? { return; }
    ApplyFlagsStep(t2, FB_FLAGS[1..][1..]);
    assert FB_FLAGS[1..][1..][1..] == [];
  }

  /** The three ITU flag assignments, one after the other. */
  method AddItuFlags(itu: Frame) returns (e: Option<Error>)
    requires WellFormed(itu.table)
    modifies itu
    ensures e == ApplyFlags(old(itu.table), ITU_FLAGS).failure
    ensures itu.table == ApplyFlags(old(itu.table), ITU_FLAGS).table
  {
    ghost var t0 := itu.table;
    e := AssignFlag(itu, ITU_FLAGS[0]);
    if e.Some? { return; }
    ghost var t1 := itu.table;
    ApplyFlagsStep(t0, ITU_FLAGS);
    e := AssignFlag(itu, ITU_FLAGS[1]);
    if e.Some? { return; }
    ghost var t2 := itu.table;
    ApplyFlagsStep(t1, ITU_FLAGS[1..]);
    e := AssignFlag(itu, ITU_FLAGS[2]);
    if e.Some? { return; }
    ApplyFlagsStep(t2, ITU_FLAGS[1..][1..]);
    assert ITU_FLAGS[1..][1..][1..] == [];
  }

  /** The harmonize loop: each generation's column becomes the OR of every column whose
      label starts with it, 4G first. */
  method HarmonizeFlags(coverage: Frame)
    requires WellFormed(coverage.table)
    modifies coverage
    ensures coverage.table == HarmonizeAll(old(coverage.table), HARMONIZE_ORDER)
  {
    ghost var m := coverage.table;
    var k := 0;
    while k < |HARMONIZE_ORDER|
      invariant 0 <= k <= |HARMONIZE_ORDER|
      invariant coverage.table == HarmonizeAll(m, HARMONIZE_ORDER[..k])
    {
      var c := HARMONIZE_ORDER[k];
      assert HARMONIZE_ORDER[..k + 1][..k] == HARMONIZE_ORDER[..k];
      coverage.Assign(c, AnyWithPrefix(coverage.table, c));
      k := k + 1;
    }
    assert HARMONIZE_ORDER[..k] == HARMONIZE_ORDER;
  }

  /** The encoding loop: each generation's flag becomes "YES" or "NO", 2G first. */
  method EncodeFlags(coverage: Frame)
    requires WellFormed(coverage.table)
    requires forall c :: c in ENCODE_ORDER ==> c in coverage.table.columns
    modifies coverage
    ensures coverage.table == EncodeAll(old(coverage.table), ENCODE_ORDER)
  {
    ghost var typed := coverage.table;
    var k := 0;
    while k < |ENCODE_ORDER|
      invariant 0 <= k <= |ENCODE_ORDER|
      invariant coverage.table == EncodeAll(typed, ENCODE_ORDER[..k])
    {
      var c := ENCODE_ORDER[k];
      assert ENCODE_ORDER[..k + 1][..k] == ENCODE_ORDER[..k];
      coverage.Assign(c, YesNoColumn(coverage.table, c));
      k := k + 1;
    }
    assert ENCODE_ORDER[..k] == ENCODE_ORDER;
  }

  /** The part of `process_coverage_data` after the merge, on a frame of its own. */
  method FinishCoverage(m: Table) returns (r: Table)
    requires WellFormed(m)
    ensures r == Finish(m)
  {
    var coverage := new Frame(m);
    HarmonizeFlags(coverage);
    coverage.Assign(COVERAGE_TYPE, TypeColumn(coverage.table));
    EncodeFlags(coverage);
    coverage.Assign(COVERAGE_AVAILABILITY, AvailabilityColumn(coverage.table));
    r := DropItu(coverage.table);
  }

  /** `process_coverage_data`: adds the flag columns to both frames it is handed (the
      renaming and selection that follow work on copies) and returns the canonical table. */
  method ProcessCoverageData(facebook: Frame, itu: Frame) returns (r: Result<Table>)
    requires WellFormed(facebook.table) && WellFormed(itu.table)
    modifies facebook, itu
    ensures facebook != itu ==> r == Reconcile(old(facebook.table), old(itu.table))
    ensures facebook != itu ==> facebook.table == ApplyFlags(old(facebook.table), FB_FLAGS).table
    ensures facebook != itu ==>
              itu.table == if ApplyFlags(old(facebook.table), FB_FLAGS).failure.Some? then old(itu.table)
                           else ApplyFlags(old(itu.table), ITU_FLAGS).table
  {
    var e := AddFacebookFlags(facebook);
    if e.Some? { return Err(e.value); }
    e := AddItuFlags(itu);
    if e.Some? { return Err(e.value); }
    var renamed := LowerItuColumns(itu.table);
    var fs :- FacebookSelection(facebook.table);
    var its :- ItuSelection(renamed);
    var m :- Merge(fs, its, KEY, "", ITU_SUFFIX, true);
    var coverage := FinishCoverage(m);
    r := Ok(coverage);
  }
}
