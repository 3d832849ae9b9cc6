/** What `process_coverage_data` guarantees about the table it returns: each generation's
    flag is the OR of the partners' flags, the coverage type is the best generation
    flagged, availability follows the type, and no ITU copy survives. */
module CoverageFacts {
  import opened Strings
  import opened Tables
  import opened Coverage

  /** A flag as the output spells it. */
  function YesNoOf(b: bool): Value {
    if b then Str("YES") else Str("NO")
  }

  /** The best generation among the flags, 4G first. */
  function BestGeneration(has2: bool, has3: bool, has4: bool): Value {
    if has4 then Str("4G") else if has3 then Str("3G") else if has2 then Str("2G") else Str(NO_COVERAGE)
  }

  predicate IsGeneration(c: string) {
    c == COVERAGE_2G || c == COVERAGE_3G || c == COVERAGE_4G
  }

  /** No label starts with two different generation names. */
  lemma GenerationPrefixesDisjoint(c: string, g: string, g': string)
    requires IsGeneration(g) && IsGeneration(g') && g != g'
    requires StartsWith(c, g)
    ensures !StartsWith(c, g')
  {
    assert c[0] == g[0];
  }

  /** Whether a row has a true cell under a prefix depends only on the cells under it. */
  lemma RowHasPrefixFrame(cols: seq<string>, r1: Row, r2: Row, p: string)
    requires |r1| == |cols| && |r2| == |cols|
    requires forall j :: 0 <= j < |cols| && StartsWith(cols[j], p) ==> r1[j] == r2[j]
    ensures RowHasPrefix(cols, r1, p) == RowHasPrefix(cols, r2, p)
  {
  }

  /** One step of the harmonize loop: the generation's cells become the OR of the cells
      under its prefix, and a later generation still sees its own cells as they were. */
  lemma HarmonizeStep(t: Table, g: string, i: nat, g': string)
    requires WellFormed(t) && g in t.columns && i < |t.rows|
    requires IsGeneration(g) && IsGeneration(g') && g != g'
    ensures RowHasPrefix(t.columns, SetColumn(t, g, AnyWithPrefix(t, g)).rows[i], g') ==
            RowHasPrefix(t.columns, t.rows[i], g')
  {
    var r := SetColumn(t, g, AnyWithPrefix(t, g));
    forall j | 0 <= j < |t.columns| && StartsWith(t.columns[j], g') ensures r.rows[i][j] == t.rows[i][j] {
      if t.columns[j] == g {
        GenerationPrefixesDisjoint(t.columns[j], g, g');
      }
    }
    RowHasPrefixFrame(t.columns, r.rows[i], t.rows[i], g');
  }

  lemma HarmonizeAllSnoc(t: Table, cs: seq<string>, c: string)
    requires WellFormed(t)
    ensures HarmonizeAll(t, cs + [c]) == SetColumn(HarmonizeAll(t, cs), c, AnyWithPrefix(HarmonizeAll(t, cs), c))
  {
    assert (cs + [c])[..|cs|] == cs;
  }

  /** The harmonize loop over 4G, 3G and 2G, unrolled. */
  lemma HarmonizeUnrolled(m: Table)
    requires WellFormed(m) && COVERAGE_2G in m.columns && COVERAGE_3G in m.columns && COVERAGE_4G in m.columns
    ensures var h1 := SetColumn(m, COVERAGE_4G, AnyWithPrefix(m, COVERAGE_4G));
            var h2 := SetColumn(h1, COVERAGE_3G, AnyWithPrefix(h1, COVERAGE_3G));
            h1.columns == m.columns && h2.columns == m.columns &&
            HarmonizeAll(m, HARMONIZE_ORDER) == SetColumn(h2, COVERAGE_2G, AnyWithPrefix(h2, COVERAGE_2G))
  {
    assert HARMONIZE_ORDER == [COVERAGE_4G, COVERAGE_3G] + [COVERAGE_2G];
    assert [COVERAGE_4G, COVERAGE_3G] == [COVERAGE_4G] + [COVERAGE_3G];
    assert [COVERAGE_4G] == [] + [COVERAGE_4G];
    HarmonizeAllSnoc(m, [], COVERAGE_4G);
    HarmonizeAllSnoc(m, [COVERAGE_4G], COVERAGE_3G);
    HarmonizeAllSnoc(m, [COVERAGE_4G, COVERAGE_3G], COVERAGE_2G);
  }

  /** After the harmonize loop each generation's cell is the OR of the cells under its
      prefix in the merged table, and every other cell is as it was. */
  lemma HarmonizedCell(m: Table, i: nat, j: nat)
    requires WellFormed(m) && COVERAGE_2G in m.columns && COVERAGE_3G in m.columns && COVERAGE_4G in m.columns
    requires i < |m.rows| && j < |m.columns|
    ensures HarmonizeAll(m, HARMONIZE_ORDER).columns == m.columns
    ensures HarmonizeAll(m, HARMONIZE_ORDER).rows[i][j] ==
      if IsGeneration(m.columns[j]) then Bool(RowHasPrefix(m.columns, m.rows[i], m.columns[j])) else m.rows[i][j]
  {
    HarmonizeUnrolled(m);
    var c := m.columns[j];
    var h1 := SetColumn(m, COVERAGE_4G, AnyWithPrefix(m, COVERAGE_4G));
    var h2 := SetColumn(h1, COVERAGE_3G, AnyWithPrefix(h1, COVERAGE_3G));
    var h := SetColumn(h2, COVERAGE_2G, AnyWithPrefix(h2, COVERAGE_2G));
    assert h1.rows[i][j] == if c == COVERAGE_4G then AnyWithPrefix(m, COVERAGE_4G)[i] else m.rows[i][j];
    assert h2.rows[i][j] == if c == COVERAGE_3G then AnyWithPrefix(h1, COVERAGE_3G)[i] else h1.rows[i][j];
    assert h.rows[i][j] == if c == COVERAGE_2G then AnyWithPrefix(h2, COVERAGE_2G)[i] else h2.rows[i][j];
    HarmonizeStep(m, COVERAGE_4G, i, COVERAGE_3G);
    HarmonizeStep(m, COVERAGE_4G, i, COVERAGE_2G);
    HarmonizeStep(h1, COVERAGE_3G, i, COVERAGE_2G);
  }

  /** The harmonized cell of a row under any label. */
  lemma GetHarmonized(m: Table, i: nat, c: string)
    requires WellFormed(m) && COVERAGE_2G in m.columns && COVERAGE_3G in m.columns && COVERAGE_4G in m.columns
    requires i < |m.rows| && c in m.columns
    ensures c in HarmonizeAll(m, HARMONIZE_ORDER).columns
    ensures Get(HarmonizeAll(m, HARMONIZE_ORDER), i, c) ==
      if IsGeneration(c) then Bool(RowHasPrefix(m.columns, m.rows[i], c)) else Get(m, i, c)
  {
    HarmonizedCell(m, i, IndexOf(m.columns, c));
  }

  /** The class the harmonized flags select is the best generation any source flagged. */
  lemma TypeOfHarmonized(m: Table, i: nat)
    requires WellFormed(m) && COVERAGE_2G in m.columns && COVERAGE_3G in m.columns && COVERAGE_4G in m.columns
    requires i < |m.rows|
    ensures var h := HarmonizeAll(m, HARMONIZE_ORDER);
      COVERAGE_2G in h.columns && COVERAGE_3G in h.columns && COVERAGE_4G in h.columns &&
      TypeOf(h, i) == BestGeneration(RowHasPrefix(m.columns, m.rows[i], COVERAGE_2G),
                                     RowHasPrefix(m.columns, m.rows[i], COVERAGE_3G),
                                     RowHasPrefix(m.columns, m.rows[i], COVERAGE_4G))
  {
    GetHarmonized(m, i, COVERAGE_2G);
    GetHarmonized(m, i, COVERAGE_3G);
    GetHarmonized(m, i, COVERAGE_4G);
  }

  /** The encoding loop maps each listed column once and leaves the others alone. */
  lemma {:induction false} GetEncoded(t: Table, cs: seq<string>, i: nat, c: string)
    requires WellFormed(t) && (forall d :: d in cs ==> d in t.columns) && Distinct(cs)
    requires i < |t.rows| && c in t.columns
    ensures Get(EncodeAll(t, cs), i, c) == if c in cs then YesNo(Get(t, i, c)) else Get(t, i, c)
    decreases |cs|
  {
    if cs != [] {
      var init := cs[..|cs| - 1];
      var d := cs[|cs| - 1];
      assert Distinct(init);
      assert d !in init;
      assert forall x :: x in init ==> x in cs;
      var e := EncodeAll(t, init);
      GetEncoded(t, init, i, c);
      GetEncoded(t, init, i, d);
      GetSetColumn(e, d, YesNoColumn(e, d), i, c);
      assert c in cs <==> c in init || c == d;
    }
  }

  /** Dropping the ITU copies keeps every other column's cells. */
  lemma GetDropItu(a: Table, i: nat, c: string)
    requires WellFormed(a) && i < |a.rows| && c in a.columns && !EndsWith(c, ITU_SUFFIX)
    ensures c in DropItu(a).columns
    ensures Get(DropItu(a), i, c) == Get(a, i, c)
  {
    var idx := KeptPositions(a.columns, ITU_SUFFIX);
    var r := DropItu(a);
    var j := IndexOf(a.columns, c);
    assert j in idx;
    var k :| 0 <= k < |idx| && idx[k] == j;
    assert r.columns[k] == c;
    forall k' | 0 <= k' < k ensures r.columns[k'] != c {
      assert idx[k'] < j;
      assert a.columns[idx[k']] in a.columns[..j];
    }
    IndexOfUnique(r.columns, c, k);
  }

  /** The classified table's cells. */
  lemma GetClassified(h: Table, i: nat, c: string)
    requires WellFormed(h) && COVERAGE_2G in h.columns && COVERAGE_3G in h.columns && COVERAGE_4G in h.columns
    requires i < |h.rows| && (c in h.columns || c == COVERAGE_TYPE)
    ensures c in Classified(h).columns
    ensures Get(Classified(h), i, c) == if c == COVERAGE_TYPE then TypeOf(h, i) else Get(h, i, c)
  {
    GetSetColumn(h, COVERAGE_TYPE, TypeColumn(h), i, c);
  }

  /** The cells of the table with availability added. */
  lemma GetWithAvailability(e: Table, i: nat, c: string)
    requires WellFormed(e) && COVERAGE_TYPE in e.columns
    requires i < |e.rows| && (c in e.columns || c == COVERAGE_AVAILABILITY)
    ensures c in WithAvailability(e).columns
    ensures Get(WithAvailability(e), i, c) ==
      if c != COVERAGE_AVAILABILITY then Get(e, i, c)
      else if Get(e, i, COVERAGE_TYPE) == Str(NO_COVERAGE) then Str("NO") else Str("YES")
  {
    GetSetColumn(e, COVERAGE_AVAILABILITY, AvailabilityColumn(e), i, c);
  }

  /** Which labels the finished table has: the merged ones and the two derived ones, less
      every label ending in `_itu`. */
  lemma FinishColumns(m: Table, c: string)
    requires WellFormed(m) && COVERAGE_2G in m.columns && COVERAGE_3G in m.columns && COVERAGE_4G in m.columns
    ensures c in Finish(m).columns <==>
      (c in m.columns || c == COVERAGE_TYPE || c == COVERAGE_AVAILABILITY) && !EndsWith(c, ITU_SUFFIX)
  {
    var h := HarmonizeAll(m, HARMONIZE_ORDER);
    var a := WithAvailability(EncodeAll(Classified(h), ENCODE_ORDER));
    var idx := KeptPositions(a.columns, ITU_SUFFIX);
    if c in Finish(m).columns {
      var k :| 0 <= k < |idx| && Finish(m).columns[k] == c;
    }
  }

  /** Whether row `i` of the merged table has a true cell under a label starting with `g`. */
  function Any(m: Table, i: nat, g: string): bool
    requires WellFormed(m) && i < |m.rows|
  {
    RowHasPrefix(m.columns, m.rows[i], g)
  }

  /** A generation's flag in the finished table is YES exactly when some source flagged it
      in that row, and NO otherwise. */
  lemma FinishFlag(m: Table, i: nat, g: string)
    requires WellFormed(m) && COVERAGE_2G in m.columns && COVERAGE_3G in m.columns && COVERAGE_4G in m.columns
    requires i < |m.rows| && IsGeneration(g)
    ensures g in Finish(m).columns
    ensures Get(Finish(m), i, g) == YesNoOf(Any(m, i, g))
  {
    var h := HarmonizeAll(m, HARMONIZE_ORDER);
    var t := Classified(h);
    var e := EncodeAll(t, ENCODE_ORDER);
    assert Distinct(ENCODE_ORDER);
    GetHarmonized(m, i, g);
    GetClassified(h, i, g);
    GetEncoded(t, ENCODE_ORDER, i, g);
    GetWithAvailability(e, i, g);
    GetDropItu(WithAvailability(e), i, g);
  }

  /** The classified table's type is the best generation flagged in the merged row. */
  lemma ClassifiedType(m: Table, i: nat)
    requires WellFormed(m) && COVERAGE_2G in m.columns && COVERAGE_3G in m.columns && COVERAGE_4G in m.columns
    requires i < |m.rows|
    ensures var t := Classified(HarmonizeAll(m, HARMONIZE_ORDER));
      COVERAGE_TYPE in t.columns && (forall g :: g in ENCODE_ORDER ==> g in t.columns) &&
      Get(t, i, COVERAGE_TYPE) == BestGeneration(Any(m, i, COVERAGE_2G), Any(m, i, COVERAGE_3G), Any(m, i, COVERAGE_4G))
  {
    TypeOfHarmonized(m, i);
    GetClassified(HarmonizeAll(m, HARMONIZE_ORDER), i, COVERAGE_TYPE);
  }

  /** The coverage type is the best generation flagged, 4G over 3G over 2G. */
  lemma FinishType(m: Table, i: nat)
    requires WellFormed(m) && COVERAGE_2G in m.columns && COVERAGE_3G in m.columns && COVERAGE_4G in m.columns
    requires i < |m.rows|
    ensures COVERAGE_TYPE in Finish(m).columns
    ensures Get(Finish(m), i, COVERAGE_TYPE) ==
      BestGeneration(Any(m, i, COVERAGE_2G), Any(m, i, COVERAGE_3G), Any(m, i, COVERAGE_4G))
  {
    var e := EncodeAll(Classified(HarmonizeAll(m, HARMONIZE_ORDER)), ENCODE_ORDER);
    EncodedType(m, i);
    FinishOf(e, i, COVERAGE_TYPE);
  }

  /** Availability is YES exactly when some generation was flagged; it is NO exactly when
      the type is "no coverage". */
  lemma FinishAvailability(m: Table, i: nat)
    requires WellFormed(m) && COVERAGE_2G in m.columns && COVERAGE_3G in m.columns && COVERAGE_4G in m.columns
    requires i < |m.rows|
    ensures COVERAGE_AVAILABILITY in Finish(m).columns && COVERAGE_TYPE in Finish(m).columns
    ensures Get(Finish(m), i, COVERAGE_AVAILABILITY) ==
      YesNoOf(Any(m, i, COVERAGE_2G) || Any(m, i, COVERAGE_3G) || Any(m, i, COVERAGE_4G))
    ensures Get(Finish(m), i, COVERAGE_AVAILABILITY) == Str("NO") <==>
      Get(Finish(m), i, COVERAGE_TYPE) == Str(NO_COVERAGE)
  {
    var e := EncodeAll(Classified(HarmonizeAll(m, HARMONIZE_ORDER)), ENCODE_ORDER);
    EncodedType(m, i);
    FinishOf(e, i, COVERAGE_AVAILABILITY);
    FinishOf(e, i, COVERAGE_TYPE);
  }

  /** Every other merged column that does not end in `_itu` comes through unchanged. */
  lemma FinishKeeps(m: Table, i: nat, c: string)
    requires WellFormed(m) && COVERAGE_2G in m.columns && COVERAGE_3G in m.columns && COVERAGE_4G in m.columns
    requires i < |m.rows| && c in m.columns && !EndsWith(c, ITU_SUFFIX)
    requires !IsGeneration(c) && c != COVERAGE_TYPE && c != COVERAGE_AVAILABILITY
    ensures c in Finish(m).columns && Get(Finish(m), i, c) == Get(m, i, c)
  {
    var h := HarmonizeAll(m, HARMONIZE_ORDER);
    var t := Classified(h);
    var e := EncodeAll(t, ENCODE_ORDER);
    assert c in e.columns && Get(e, i, c) == Get(m, i, c) by {
      EncodeOrderDistinct();
      GetHarmonized(m, i, c);
      GetClassified(h, i, c);
      GetEncoded(t, ENCODE_ORDER, i, c);
    }
    FinishOf(e, i, c);
  }

  /** The type column after classification survives the encoding unchanged. */
  lemma EncodedType(m: Table, i: nat)
    requires WellFormed(m) && COVERAGE_2G in m.columns && COVERAGE_3G in m.columns && COVERAGE_4G in m.columns
    requires i < |m.rows|
    ensures var e := EncodeAll(Classified(HarmonizeAll(m, HARMONIZE_ORDER)), ENCODE_ORDER);
      WellFormed(e) && COVERAGE_TYPE in e.columns && i < |e.rows| &&
      Get(e, i, COVERAGE_TYPE) == BestGeneration(Any(m, i, COVERAGE_2G), Any(m, i, COVERAGE_3G), Any(m, i, COVERAGE_4G))
  {
    ClassifiedType(m, i);
    EncodeKeepsType(Classified(HarmonizeAll(m, HARMONIZE_ORDER)), i);
  }

  lemma EncodeKeepsType(t: Table, i: nat)
    requires WellFormed(t) && (forall g :: g in ENCODE_ORDER ==> g in t.columns)
    requires i < |t.rows| && COVERAGE_TYPE in t.columns
    ensures Get(EncodeAll(t, ENCODE_ORDER), i, COVERAGE_TYPE) == Get(t, i, COVERAGE_TYPE)
  {
    EncodeOrderDistinct();
    GetEncoded(t, ENCODE_ORDER, i, COVERAGE_TYPE);
  }

  lemma EncodeOrderDistinct()
    ensures Distinct(ENCODE_ORDER) && COVERAGE_TYPE !in ENCODE_ORDER
  {
  }

  /** The last two steps of the finish: the availability column, then the `_itu` drop. */
  lemma FinishOf(e: Table, i: nat, c: string)
    requires WellFormed(e) && COVERAGE_TYPE in e.columns && i < |e.rows|
    requires (c in e.columns && !EndsWith(c, ITU_SUFFIX)) || c == COVERAGE_AVAILABILITY
    ensures c in DropItu(WithAvailability(e)).columns
    ensures Get(DropItu(WithAvailability(e)), i, c) ==
      if c != COVERAGE_AVAILABILITY then Get(e, i, c)
      else if Get(e, i, COVERAGE_TYPE) == Str(NO_COVERAGE) then Str("NO") else Str("YES")
  {
    GetWithAvailability(e, i, c);
    assert !EndsWith(COVERAGE_AVAILABILITY, ITU_SUFFIX);
    GetDropItu(WithAvailability(e), i, c);
  }

  // ---------------------------------------------------------------------------------
  // The flag rules.
  // ---------------------------------------------------------------------------------

  /** No two rules write the same column and no rule reads a column a rule writes. */
  predicate IndependentRules(rules: seq<FlagRule>) {
    && (forall k, k' :: 0 <= k < k' < |rules| ==> rules[k].target != rules[k'].target)
    && (forall k, k' :: 0 <= k < |rules| && 0 <= k' < |rules| ==> rules[k].source != rules[k'].target)
  }

  /** The rule that writes column `c`, if one does. */
  function RuleFor(rules: seq<FlagRule>, c: string): (r: Option<FlagRule>)
    ensures r.Some? ==> r.value in rules && r.value.target == c
    ensures r.None? ==> forall k :: 0 <= k < |rules| ==> rules[k].target != c
  {
    if rules == [] then None
    else if rules[0].target == c then Some(rules[0])
    else RuleFor(rules[1..], c)
  }

  lemma IndependentTail(rules: seq<FlagRule>)
    requires rules != [] && IndependentRules(rules)
    ensures IndependentRules(rules[1..])
  {
    assert forall k :: 0 <= k < |rules[1..]| ==> rules[1..][k] == rules[k + 1];
  }

  /** The cells of a table after one rule. */
  lemma DeriveFlagGet(t: Table, rule: FlagRule, i: nat, c: string)
    requires WellFormed(t) && DeriveFlag(t, rule).Ok? && i < |t.rows|
    requires c in t.columns || c == rule.target
    ensures rule.source in t.columns && Compare(rule.test, Get(t, i, rule.source)).Ok?
    ensures c in DeriveFlag(t, rule).value.columns
    ensures Get(DeriveFlag(t, rule).value, i, c) ==
      if c == rule.target then Bool(Compare(rule.test, Get(t, i, rule.source)).value) else Get(t, i, c)
  {
    var cells := FlagCells(t.rows, IndexOf(t.columns, rule.source), rule.test).value;
    GetSetColumn(t, rule.target, cells, i, c);
  }

  /** Applying rules without failure keeps every column no rule writes. */
  lemma {:induction false} ApplyFlagsKeeps(t: Table, rules: seq<FlagRule>, i: nat, c: string)
    requires WellFormed(t) && ApplyFlags(t, rules).failure.None?
    requires i < |t.rows| && c in t.columns && RuleFor(rules, c).None?
    ensures c in ApplyFlags(t, rules).table.columns
    ensures Get(ApplyFlags(t, rules).table, i, c) == Get(t, i, c)
    decreases |rules|
  {
    if rules != [] {
      ApplyFlagsStep(t, rules);
      DeriveFlagGet(t, rules[0], i, c);
      ApplyFlagsKeeps(DeriveFlag(t, rules[0]).value, rules[1..], i, c);
    }
  }

  /** Applying independent rules without failure: a written column holds its rule's
      comparison of the original source cell. */
  lemma {:induction false} ApplyFlagsWrites(t: Table, rules: seq<FlagRule>, i: nat, c: string)
    requires WellFormed(t) && IndependentRules(rules) && ApplyFlags(t, rules).failure.None?
    requires i < |t.rows| && RuleFor(rules, c).Some?
    ensures c in ApplyFlags(t, rules).table.columns
    ensures var rule := RuleFor(rules, c).value;
      rule.source in t.columns && Compare(rule.test, Get(t, i, rule.source)).Ok? &&
      Get(ApplyFlags(t, rules).table, i, c) == Bool(Compare(rule.test, Get(t, i, rule.source)).value)
    decreases |rules|
  {
    var r0 := rules[0];
    ApplyFlagsStep(t, rules);
    var t' := DeriveFlag(t, r0).value;
    IndependentTail(rules);
    if c == r0.target {
      DeriveFlagGet(t, r0, i, c);
      ApplyFlagsKeeps(t', rules[1..], i, c);
    } else {
      var rule := RuleFor(rules[1..], c).value;
      var k :| 0 <= k < |rules[1..]| && rules[1..][k] == rule;
      assert rules[k + 1] == rule;
      assert rule.source != r0.target;
      ApplyFlagsWrites(t', rules[1..], i, c);
      DeriveFlagGet(t, r0, i, rule.source);
    }
  }

  /** Whether a rule can be applied to a table: its source is there and every cell of it
      can be compared. */
  predicate Applicable(t: Table, rule: FlagRule)
    requires WellFormed(t)
  {
    rule.source in t.columns && forall i :: 0 <= i < |t.rows| ==> Compare(rule.test, Get(t, i, rule.source)).Ok?
  }

  /** A rule whose source another rule does not write is as applicable after that rule. */
  lemma ApplicableAfter(t: Table, r0: FlagRule, rule: FlagRule)
    requires WellFormed(t) && DeriveFlag(t, r0).Ok? && rule.source != r0.target
    ensures Applicable(DeriveFlag(t, r0).value, rule) <==> Applicable(t, rule)
  {
    var t' := DeriveFlag(t, r0).value;
    DeriveFlagSpec(t, r0);
    if rule.source in t.columns {
      forall i | 0 <= i < |t.rows| ensures Get(t', i, rule.source) == Get(t, i, rule.source) {
        DeriveFlagGet(t, r0, i, rule.source);
      }
    }
  }

  /** Independent rules all succeed exactly when each of them can be applied to the
      original table. */
  lemma {:induction false} ApplyFlagsSucceeds(t: Table, rules: seq<FlagRule>)
    requires WellFormed(t) && IndependentRules(rules)
    ensures ApplyFlags(t, rules).failure.None? <==> forall k :: 0 <= k < |rules| ==> Applicable(t, rules[k])
    decreases |rules|
  {
    if rules != [] {
      var r0 := rules[0];
      ApplyFlagsStep(t, rules);
      DeriveFlagSpec(t, r0);
      assert DeriveFlag(t, r0).Ok? <==> Applicable(t, r0);
      if DeriveFlag(t, r0).Ok? {
        var t' := DeriveFlag(t, r0).value;
        IndependentTail(rules);
        ApplyFlagsSucceeds(t', rules[1..]);
        forall k | 1 <= k < |rules| ensures Applicable(t', rules[k]) <==> Applicable(t, rules[k]) {
          ApplicableAfter(t, r0, rules[k]);
        }
        assert forall k :: 1 <= k < |rules| ==> rules[1..][k - 1] == rules[k];
      }
    }
  }

  /** With distinct targets a rule is the one that writes its target. */
  lemma {:induction false} RuleForTarget(rules: seq<FlagRule>, k: nat)
    requires IndependentRules(rules) && k < |rules|
    ensures RuleFor(rules, rules[k].target) == Some(rules[k])
    decreases |rules|
  {
    if k > 0 {
      IndependentTail(rules);
      assert rules[1..][k - 1] == rules[k];
      RuleForTarget(rules[1..], k - 1);
    }
  }

  /** After independent rules that all succeed, each target holds its rule's comparison
      of the source cell of the same row. */
  lemma FlaggedTargets(t: Table, rules: seq<FlagRule>, i: nat)
    requires WellFormed(t) && IndependentRules(rules) && ApplyFlags(t, rules).failure.None? && i < |t.rows|
    ensures forall k :: 0 <= k < |rules| ==>
      var rule := rules[k];
      rule.source in t.columns && rule.target in ApplyFlags(t, rules).table.columns &&
      Compare(rule.test, Get(t, i, rule.source)).Ok? &&
      Get(ApplyFlags(t, rules).table, i, rule.target) == Bool(Compare(rule.test, Get(t, i, rule.source)).value)
  {
    forall k | 0 <= k < |rules|
      ensures var rule := rules[k];
        rule.source in t.columns && rule.target in ApplyFlags(t, rules).table.columns &&
        Compare(rule.test, Get(t, i, rule.source)).Ok? &&
        Get(ApplyFlags(t, rules).table, i, rule.target) == Bool(Compare(rule.test, Get(t, i, rule.source)).value)
    {
      RuleForTarget(rules, k);
      ApplyFlagsWrites(t, rules, i, rules[k].target);
    }
  }

  /** Neither partner's rules read a column they write, nor write one twice. */
  lemma PartnerRulesIndependent()
    ensures IndependentRules(FB_FLAGS) && IndependentRules(ITU_FLAGS)
    ensures RuleFor(FB_FLAGS, KEY).None? && RuleFor(ITU_FLAGS, KEY).None?
  {
  }

  /** Independent rules that succeed and leave the school id alone: each target holds its
      rule's comparison in row `i`, and the school id is kept. */
  lemma RulesFlagged(t: Table, rules: seq<FlagRule>, i: nat)
    requires WellFormed(t) && i < |t.rows| && IndependentRules(rules) && ApplyFlags(t, rules).failure.None?
    requires RuleFor(rules, KEY).None?
    ensures var f := ApplyFlags(t, rules).table;
      forall k :: 0 <= k < |rules| ==>
        rules[k].source in t.columns && rules[k].target in f.columns &&
        Compare(rules[k].test, Get(t, i, rules[k].source)).Ok? &&
        Get(f, i, rules[k].target) == Bool(Compare(rules[k].test, Get(t, i, rules[k].source)).value)
    ensures KEY in t.columns ==>
      KEY in ApplyFlags(t, rules).table.columns && Get(ApplyFlags(t, rules).table, i, KEY) == Get(t, i, KEY)
  {
    FlaggedTargets(t, rules, i);
    if KEY in t.columns {
      ApplyFlagsKeeps(t, rules, i, KEY);
    }
  }

  /** The Facebook flags fail exactly when a percentage column is missing or holds text. */
  lemma FacebookFlagsFail(fb: Table)
    requires WellFormed(fb)
    ensures ApplyFlags(fb, FB_FLAGS).failure.None? <==>
      forall k :: 0 <= k < |FB_FLAGS| ==>
        (FB_FLAGS[k].source in fb.columns && forall j :: 0 <= j < |fb.rows| ==> !Get(fb, j, FB_FLAGS[k].source).Str?)
  {
    PartnerRulesIndependent();
    ApplyFlagsSucceeds(fb, FB_FLAGS);
    forall k | 0 <= k < |FB_FLAGS|
      ensures Applicable(fb, FB_FLAGS[k]) <==>
        (FB_FLAGS[k].source in fb.columns && forall j :: 0 <= j < |fb.rows| ==> !Get(fb, j, FB_FLAGS[k].source).Str?)
    {
      assert FB_FLAGS[k].test == Positive;
    }
  }

  /** The Facebook flags: `2G_coverage`, `3G_coverage` and `4G_coverage` are whether
      `percent_2G`, `percent_3G` and `percent_4G` are positive; the school id is kept. */
  lemma FacebookFlagged(fb: Table, i: nat)
    requires WellFormed(fb) && i < |fb.rows| && ApplyFlags(fb, FB_FLAGS).failure.None?
    ensures var f := ApplyFlags(fb, FB_FLAGS).table;
      forall k :: 0 <= k < |FB_FLAGS| ==>
        FB_FLAGS[k].source in fb.columns && FB_FLAGS[k].target in f.columns &&
        Compare(FB_FLAGS[k].test, Get(fb, i, FB_FLAGS[k].source)).Ok? &&
        Get(f, i, FB_FLAGS[k].target) == Bool(Compare(FB_FLAGS[k].test, Get(fb, i, FB_FLAGS[k].source)).value)
    ensures KEY in fb.columns ==>
      KEY in ApplyFlags(fb, FB_FLAGS).table.columns && Get(ApplyFlags(fb, FB_FLAGS).table, i, KEY) == Get(fb, i, KEY)
  {
    PartnerRulesIndependent();
    RulesFlagged(fb, FB_FLAGS, i);
  }

  /** The ITU flags fail exactly when a tier column is missing or the `2G` tier holds text
      (only that tier is ordered against a number; the others are compared for equality). */
  lemma ItuFlagsFail(itu: Table)
    requires WellFormed(itu)
    ensures ApplyFlags(itu, ITU_FLAGS).failure.None? <==>
      (forall k :: 0 <= k < |ITU_FLAGS| ==> ITU_FLAGS[k].source in itu.columns) &&
      ("2G" in itu.columns ==> forall j :: 0 <= j < |itu.rows| ==> !Get(itu, j, "2G").Str?)
  {
    PartnerRulesIndependent();
    ApplyFlagsSucceeds(itu, ITU_FLAGS);
  }

  /** The ITU flags: `2G_coverage` is whether the `2G` tier is at least one, `3G_coverage`
      and `4G_coverage` whether the `3G` and `4G` tiers equal one; the school id is kept. */
  lemma ItuFlagged(itu: Table, i: nat)
    requires WellFormed(itu) && i < |itu.rows| && ApplyFlags(itu, ITU_FLAGS).failure.None?
    ensures var t := ApplyFlags(itu, ITU_FLAGS).table;
      forall k :: 0 <= k < |ITU_FLAGS| ==>
        ITU_FLAGS[k].source in itu.columns && ITU_FLAGS[k].target in t.columns &&
        Compare(ITU_FLAGS[k].test, Get(itu, i, ITU_FLAGS[k].source)).Ok? &&
        Get(t, i, ITU_FLAGS[k].target) == Bool(Compare(ITU_FLAGS[k].test, Get(itu, i, ITU_FLAGS[k].source)).value)
    ensures KEY in itu.columns ==>
      KEY in ApplyFlags(itu, ITU_FLAGS).table.columns && Get(ApplyFlags(itu, ITU_FLAGS).table, i, KEY) == Get(itu, i, KEY)
  {
    PartnerRulesIndependent();
    RulesFlagged(itu, ITU_FLAGS, i);
  }

  /** Rules that all succeed add exactly their targets to the labels. */
  lemma {:induction false} ApplyFlagsColumns(t: Table, rules: seq<FlagRule>, c: string)
    requires WellFormed(t) && ApplyFlags(t, rules).failure.None?
    ensures c in ApplyFlags(t, rules).table.columns <==> c in t.columns || RuleFor(rules, c).Some?
    decreases |rules|
  {
    if rules != [] {
      ApplyFlagsStep(t, rules);
      DeriveFlagSpec(t, rules[0]);
      ApplyFlagsColumns(DeriveFlag(t, rules[0]).value, rules[1..], c);
    }
  }
}
