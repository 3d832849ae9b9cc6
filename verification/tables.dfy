/** The pandas DataFrame as the trigger uses it. A table is an ordered list of column
    labels and a list of rows; a row holds one cell per column, in column order, so that
    renaming or suffixing labels never touches the cells and a label may occur twice (as
    it does after a selection whose label list repeats a name). Cells are the values a
    CSV read produces here: missing (NaN/None), booleans, numbers (integers and floats
    alike, compared by value) and strings. */
module Tables {
  import opened Strings

  datatype Value = Null | Bool(b: bool) | Num(x: real) | Str(s: string)

  type Row = seq<Value>

  datatype Table = Table(columns: seq<string>, rows: seq<Row>)

  datatype Option<T> = None | Some(value: T)

  /** The Python exceptions the modelled code can raise. */
  datatype Error =
    | KeyError(column: string)
    | TypeError(what: string)
    | ValueError(what: string)
    | AttributeError(what: string)
    | UnboundLocalError(name: string)
    | ResourceNotFound(container: string, path: string)
    | ResourceExists(container: string, path: string)

  datatype Result<T> = Ok(value: T) | Err(error: Error) {
    predicate IsFailure() {
      Err?
    }

    function PropagateFailure<U>(): Result<U>
      requires Err?
    {
      Err(error)
    }

    function Extract(): T
      requires Ok?
    {
      value
    }
  }

  /** Every row has one cell per column. */
  predicate WellFormed(t: Table) {
    forall i :: 0 <= i < |t.rows| ==> |t.rows[i]| == |t.columns|
  }

  /** No label occurs twice (what `pd.read_csv` guarantees by renaming repeated headers). */
  predicate Distinct(s: seq<string>) {
    forall j, k :: 0 <= j < k < |s| ==> s[j] != s[k]
  }

  /** Python truthiness of a cell, with a missing cell counting as false (`any(skipna=True)`). */
  predicate Truthy(v: Value) {
    match v
    case Null => false
    case Bool(b) => b
    case Num(x) => x != 0.0
    case Str(s) => s != ""
  }

  /** The position of the first column with label `x`. */
  function IndexOf(s: seq<string>, x: string): (k: nat)
    requires x in s
    ensures k < |s| && s[k] == x && x !in s[..k]
  {
    if s[0] == x then 0 else 1 + IndexOf(s[1..], x)
  }

  /** `df[c][i]`: the cell of row `i` in the (first) column labelled `c`. */
  function Get(t: Table, i: nat, c: string): Value
    requires WellFormed(t) && i < |t.rows| && c in t.columns
  {
    t.rows[i][IndexOf(t.columns, c)]
  }

  function Nulls(n: nat): (r: Row)
    ensures |r| == n && forall j :: 0 <= j < n ==> r[j] == Null
  {
    seq(n, _ => Null)
  }

  function RemoveAt<T>(s: seq<T>, k: nat): (r: seq<T>)
    requires k < |s|
    ensures |r| == |s| - 1
    ensures forall j :: 0 <= j < |r| ==> r[j] == if j < k then s[j] else s[j + 1]
  {
    s[..k] + s[k + 1..]
  }

  /** `df[c] = vals`: overwrite every column labelled `c`, or append one when there is none. */
  function SetColumn(t: Table, c: string, vals: seq<Value>): (r: Table)
    requires WellFormed(t) && |vals| == |t.rows|
    ensures WellFormed(r) && |r.rows| == |t.rows| && c in r.columns
    ensures r.columns == if c in t.columns then t.columns else t.columns + [c]
    ensures forall i, j :: 0 <= i < |r.rows| && 0 <= j < |r.columns| ==>
              r.rows[i][j] == if r.columns[j] == c then vals[i] else t.rows[i][j]
  {
    if c in t.columns then
      Table(t.columns, seq(|t.rows|, i requires 0 <= i < |t.rows| =>
        seq(|t.columns|, j requires 0 <= j < |t.columns| =>
          if t.columns[j] == c then vals[i] else t.rows[i][j])))
    else
      Table(t.columns + [c], seq(|t.rows|, i requires 0 <= i < |t.rows| => t.rows[i] + [vals[i]]))
  }

  /** The columns at positions `idx`, in that order (a column may be taken twice). */
  function Project(t: Table, idx: seq<nat>): (r: Table)
    requires WellFormed(t)
    requires forall k :: 0 <= k < |idx| ==> idx[k] < |t.columns|
    ensures WellFormed(r) && |r.columns| == |idx| && |r.rows| == |t.rows|
    ensures forall k :: 0 <= k < |idx| ==> r.columns[k] == t.columns[idx[k]]
    ensures forall i, k :: 0 <= i < |t.rows| && 0 <= k < |idx| ==> r.rows[i][k] == t.rows[i][idx[k]]
  {
    Table(seq(|idx|, k requires 0 <= k < |idx| => t.columns[idx[k]]),
          seq(|t.rows|, i requires 0 <= i < |t.rows| =>
            seq(|idx|, k requires 0 <= k < |idx| => t.rows[i][idx[k]])))
  }

  /** The first label of `names` that is not a column label. */
  function FirstMissing(names: seq<string>, cols: seq<string>): (m: Option<string>)
    ensures m.None? <==> forall k :: 0 <= k < |names| ==> names[k] in cols
    ensures m.Some? ==> m.value in names && m.value !in cols
  {
    if names == [] then None
    else if names[0] !in cols then Some(names[0])
    else FirstMissing(names[1..], cols)
  }

  /** `df.loc[:, names]`: a `KeyError` when a label is missing, otherwise the named columns
      in the order given. */
  function Select(t: Table, names: seq<string>): (r: Result<Table>)
    requires WellFormed(t)
    ensures r.Err? <==> exists k :: 0 <= k < |names| && names[k] !in t.columns
    ensures r.Err? ==> r.error.KeyError?
    ensures r.Ok? ==> WellFormed(r.value) && r.value.columns == names && |r.value.rows| == |t.rows|
    ensures r.Ok? ==> forall i, k :: 0 <= i < |t.rows| && 0 <= k < |names| ==>
                        r.value.rows[i][k] == Get(t, i, names[k])
  {
    match FirstMissing(names, t.columns)
    case Some(c) => Err(KeyError(c))
    case None =>
      Ok(Project(t, seq(|names|, k requires 0 <= k < |names| => IndexOf(t.columns, names[k]))))
  }

  /** The rows whose cell at position `k` is not missing, in their order. */
  function NotNullRows(rows: seq<Row>, k: nat): (r: seq<Row>)
    requires forall i :: 0 <= i < |rows| ==> k < |rows[i]|
    ensures |r| <= |rows|
    ensures forall i :: 0 <= i < |r| ==> r[i] in rows && r[i][k] != Null
    ensures forall i :: 0 <= i < |rows| && rows[i][k] != Null ==> rows[i] in r
  {
    if rows == [] then []
    else if rows[0][k] == Null then NotNullRows(rows[1..], k)
    else [rows[0]] + NotNullRows(rows[1..], k)
  }

  /** `df.loc[df[c].notna()]`: a `KeyError` when there is no column `c`. */
  function DropMissing(t: Table, c: string): (r: Result<Table>)
    requires WellFormed(t)
    ensures r.Err? <==> c !in t.columns
    ensures r.Ok? ==> WellFormed(r.value) && r.value.columns == t.columns
    ensures r.Ok? ==> forall i :: 0 <= i < |r.value.rows| ==>
                        r.value.rows[i] in t.rows && Get(r.value, i, c) != Null
    ensures r.Ok? ==> forall i :: 0 <= i < |t.rows| && Get(t, i, c) != Null ==>
                        t.rows[i] in r.value.rows
  {
    if c !in t.columns then Err(KeyError(c))
    else Ok(Table(t.columns, NotNullRows(t.rows, IndexOf(t.columns, c))))
  }

  /** `a` is `b` with some of its elements left out and the rest in their order. */
  predicate Subsequence<T(==)>(a: seq<T>, b: seq<T>)
    decreases |b|
  {
    a == [] || (b != [] && if a[0] == b[0] then Subsequence(a[1..], b[1..]) else Subsequence(a, b[1..]))
  }

  /** A row with a cell at position `k` that is not missing. */
  predicate HasCell(x: Row, k: nat) {
    k < |x| && x[k] != Null
  }

  /** The filter keeps the order of the rows and each row with its multiplicity: a row
      with a cell at `k` as often as in the input, any other row never. */
  lemma {:induction false} NotNullRowsKeeps(rows: seq<Row>, k: nat)
    requires forall i :: 0 <= i < |rows| ==> k < |rows[i]|
    ensures Subsequence(NotNullRows(rows, k), rows)
    ensures forall x :: multiset(NotNullRows(rows, k))[x] == if HasCell(x, k) then multiset(rows)[x] else 0
    decreases |rows|
  {
    if rows != [] {
      var r := NotNullRows(rows, k);
      NotNullRowsKeeps(rows[1..], k);
      assert rows == [rows[0]] + rows[1..];
      if rows[0][k] == Null {
        assert r == NotNullRows(rows[1..], k);
        assert r != [] ==> r[0] != rows[0];
      } else {
        assert r == [rows[0]] + NotNullRows(rows[1..], k);
        assert r[1..] == NotNullRows(rows[1..], k);
      }
    } else {
      assert NotNullRows(rows, k) == [];
    }
  }

  /** `df.loc[df[c].notna()]` keeps the order of the rows and each row with a value for
      `c` as often as it occurs, and no row without one. */
  lemma DropMissingKeeps(t: Table, c: string)
    requires WellFormed(t) && c in t.columns
    ensures var r := DropMissing(t, c).value;
      && Subsequence(r.rows, t.rows)
      && forall x :: multiset(r.rows)[x] == if HasCell(x, IndexOf(t.columns, c)) then multiset(t.rows)[x] else 0
  {
    NotNullRowsKeeps(t.rows, IndexOf(t.columns, c));
  }

  /** A DataFrame object. The trigger's functions update the frames they are handed
      (`df[c] = ...`), so a frame is a mutable cell holding a table. */
  class Frame {
    var table: Table

    constructor(t: Table)
      ensures table == t
    {
      table := t;
    }

    /** `df[c] = vals`. */
    method Assign(c: string, vals: seq<Value>)
      requires WellFormed(table) && |vals| == |table.rows|
      modifies this
      ensures table == SetColumn(old(table), c, vals)
    {
      table := SetColumn(table, c, vals);
    }
  }

  // ---------------------------------------------------------------------------------
  // Merging two tables on one key column (`DataFrame.merge(on=key, how=...)`).
  // ---------------------------------------------------------------------------------

  /** One output row of a merge: the left row it comes from, the right row, or both. */
  datatype Pair = Pair(left: Option<nat>, right: Option<nat>)

  predicate KeyAt(t: Table, k: nat) {
    WellFormed(t) && k < |t.columns|
  }

  /** Some row of `t` has key `v`. */
  predicate HasKey(t: Table, k: nat, v: Value)
    requires KeyAt(t, k)
  {
    exists j :: 0 <= j < |t.rows| && t.rows[j][k] == v
  }

  /** No two rows share a key. */
  predicate UniqueKeys(t: Table, k: nat)
    requires KeyAt(t, k)
  {
    forall i, j :: 0 <= i < j < |t.rows| ==> t.rows[i][k] != t.rows[j][k]
  }

  /** What a pair of a merge of `l` and `r` must satisfy: it names existing rows, paired
      rows share their key, and an unpaired row has no partner on the other side. */
  predicate ValidPair(l: Table, r: Table, kl: nat, kr: nat, p: Pair)
    requires KeyAt(l, kl) && KeyAt(r, kr)
  {
    && (p.left.Some? || p.right.Some?)
    && (p.left.Some? ==> p.left.value < |l.rows|)
    && (p.right.Some? ==> p.right.value < |r.rows|)
    && (p.left.Some? && p.right.Some? ==> l.rows[p.left.value][kl] == r.rows[p.right.value][kr])
    && (p.left.Some? && p.right.None? ==> !HasKey(r, kr, l.rows[p.left.value][kl]))
    && (p.left.None? ==> !HasKey(l, kl, r.rows[p.right.value][kr]))
  }

  /** Left row `a` paired with every right row from position `b` on that has its key. */
  function MatchesFrom(l: Table, r: Table, kl: nat, kr: nat, a: nat, b: nat): seq<Pair>
    requires KeyAt(l, kl) && KeyAt(r, kr) && a < |l.rows| && b <= |r.rows|
    decreases |r.rows| - b
  {
    if b == |r.rows| then []
    else
      (if r.rows[b][kr] == l.rows[a][kl] then [Pair(Some(a), Some(b))] else [])
      + MatchesFrom(l, r, kl, kr, a, b + 1)
  }

  /** The pairs of left row `a`: one per matching right row, in right order, or a lone
      left row when nothing matches. */
  function PairsOf(l: Table, r: Table, kl: nat, kr: nat, a: nat): seq<Pair>
    requires KeyAt(l, kl) && KeyAt(r, kr) && a < |l.rows|
  {
    var ms := MatchesFrom(l, r, kl, kr, a, 0);
    if ms == [] then [Pair(Some(a), None)] else ms
  }

  /** The pairs of a left merge over the first `n` left rows, in left order. */
  function LeftPairs(l: Table, r: Table, kl: nat, kr: nat, n: nat): seq<Pair>
    requires KeyAt(l, kl) && KeyAt(r, kr) && n <= |l.rows|
  {
    if n == 0 then [] else LeftPairs(l, r, kl, kr, n - 1) + PairsOf(l, r, kl, kr, n - 1)
  }

  /** The distinct keys of the first `n` rows, in order of first appearance (the order in
      which pandas numbers the keys of a merge). */
  function KeysInOrder(t: Table, k: nat, n: nat): seq<Value>
    requires KeyAt(t, k) && n <= |t.rows|
  {
    if n == 0 then []
    else
      var ks := KeysInOrder(t, k, n - 1);
      if t.rows[n - 1][k] in ks then ks else ks + [t.rows[n - 1][k]]
  }

  /** The pairs of those of the first `n` left rows whose key is `v`, in left order. */
  function LeftGroup(l: Table, r: Table, kl: nat, kr: nat, v: Value, n: nat): seq<Pair>
    requires KeyAt(l, kl) && KeyAt(r, kr) && n <= |l.rows|
  {
    if n == 0 then []
    else
      LeftGroup(l, r, kl, kr, v, n - 1)
      + (if l.rows[n - 1][kl] == v then PairsOf(l, r, kl, kr, n - 1) else [])
  }

  /** Those of the first `n` right rows whose key is `v`, each on its own. */
  function RightGroup(r: Table, kr: nat, v: Value, n: nat): seq<Pair>
    requires KeyAt(r, kr) && n <= |r.rows|
  {
    if n == 0 then []
    else RightGroup(r, kr, v, n - 1) + (if r.rows[n - 1][kr] == v then [Pair(None, Some(n - 1))] else [])
  }

  /** The left groups of the keys `vs`, one after the other. */
  function LeftGroups(l: Table, r: Table, kl: nat, kr: nat, vs: seq<Value>): seq<Pair>
    requires KeyAt(l, kl) && KeyAt(r, kr)
  {
    if vs == [] then []
    else LeftGroups(l, r, kl, kr, vs[..|vs| - 1]) + LeftGroup(l, r, kl, kr, vs[|vs| - 1], |l.rows|)
  }

  /** The right groups of those keys of `vs` that no left row has. */
  function RightOnlyGroups(l: Table, r: Table, kl: nat, kr: nat, vs: seq<Value>): seq<Pair>
    requires KeyAt(l, kl) && KeyAt(r, kr)
  {
    if vs == [] then []
    else
      RightOnlyGroups(l, r, kl, kr, vs[..|vs| - 1])
      + (if HasKey(l, kl, vs[|vs| - 1]) then [] else RightGroup(r, kr, vs[|vs| - 1], |r.rows|))
  }

  /** The pairs of a merge. A left merge keeps the left order, each left row followed by
      its matches in right order. An outer merge (as pandas did it before version 2.2,
      with `sort=False`) numbers the keys in order of first appearance, left rows first,
      and emits the rows of each key together: the left rows with that key, each with its
      matches, or, for a key only the right side has, its right rows. */
  function MergePairs(l: Table, r: Table, kl: nat, kr: nat, outer: bool): seq<Pair>
    requires KeyAt(l, kl) && KeyAt(r, kr)
  {
    if outer then
      LeftGroups(l, r, kl, kr, KeysInOrder(l, kl, |l.rows|))
      + RightOnlyGroups(l, r, kl, kr, KeysInOrder(r, kr, |r.rows|))
    else LeftPairs(l, r, kl, kr, |l.rows|)
  }

  /** The row a pair produces: the left cells (or, for a right-only row, the key and
      nulls) followed by the right cells without the key (or nulls). */
  function MergedRow(l: Table, r: Table, kl: nat, kr: nat, p: Pair): (row: Row)
    requires KeyAt(l, kl) && KeyAt(r, kr) && ValidPair(l, r, kl, kr, p)
    ensures |row| == |l.columns| + |r.columns| - 1
  {
    (if p.left.Some? then l.rows[p.left.value]
     else seq(|l.columns|, j requires 0 <= j < |l.columns| => if j == kl then r.rows[p.right.value][kr] else Null))
    + (if p.right.Some? then RemoveAt(r.rows[p.right.value], kr) else Nulls(|r.columns| - 1))
  }

  /** Labels of a merge: a non-key label present on both sides gets the side's suffix. */
  function MergedColumns(lc: seq<string>, rc: seq<string>, kr: nat, lsuf: string, rsuf: string): (cs: seq<string>)
    requires kr < |rc|
    ensures |cs| == |lc| + |rc| - 1
  {
    var key := rc[kr];
    var rest := RemoveAt(rc, kr);
    seq(|lc|, j requires 0 <= j < |lc| => if lc[j] != key && lc[j] in rest then lc[j] + lsuf else lc[j])
    + seq(|rest|, j requires 0 <= j < |rest| => if rest[j] != key && rest[j] in lc then rest[j] + rsuf else rest[j])
  }

  /** `l.merge(r, on=key, how=..., suffixes=(lsuf, rsuf))`. */
  function Merge(l: Table, r: Table, key: string, lsuf: string, rsuf: string, outer: bool): (m: Result<Table>)
    requires WellFormed(l) && WellFormed(r)
    ensures m.Err? <==> key !in l.columns || key !in r.columns
    ensures m.Ok? ==> WellFormed(m.value)
  {
    if key !in l.columns || key !in r.columns then Err(KeyError(key))
    else
      var kl, kr := IndexOf(l.columns, key), IndexOf(r.columns, key);
      var ps := MergePairs(l, r, kl, kr, outer);
      MergePairsValid(l, r, kl, kr, outer);
      Ok(Table(MergedColumns(l.columns, r.columns, kr, lsuf, rsuf),
               seq(|ps|, x requires 0 <= x < |ps| => MergedRow(l, r, kl, kr, ps[x]))))
  }

  // ---------------------------------------------------------------------------------
  // Facts about cells.
  // ---------------------------------------------------------------------------------

  /** The first position of a label is determined by its defining property. */
  lemma IndexOfUnique(s: seq<string>, x: string, k: nat)
    requires k < |s| && s[k] == x && x !in s[..k]
    ensures IndexOf(s, x) == k
  {
  }

  /** Appending a label does not move the labels before it. */
  lemma IndexOfAppend(s: seq<string>, y: string, x: string)
    requires x in s || x == y
    ensures x in s ==> IndexOf(s + [y], x) == IndexOf(s, x)
    ensures x !in s ==> IndexOf(s + [y], x) == |s|
  {
    if x in s {
      var k := IndexOf(s, x);
      assert (s + [y])[..k] == s[..k];
      IndexOfUnique(s + [y], x, k);
    } else {
      assert (s + [y])[..|s|] == s;
      IndexOfUnique(s + [y], x, |s|);
    }
  }

  /** After `df[c] = vals`, column `c` reads `vals` and every other column reads as before. */
  lemma GetSetColumn(t: Table, c: string, vals: seq<Value>, i: nat, d: string)
    requires WellFormed(t) && |vals| == |t.rows| && i < |t.rows|
    requires d == c || d in t.columns
    ensures d in SetColumn(t, c, vals).columns
    ensures Get(SetColumn(t, c, vals), i, d) == if d == c then vals[i] else Get(t, i, d)
  {
    var r := SetColumn(t, c, vals);
    if c !in t.columns {
      IndexOfAppend(t.columns, c, d);
    }
  }

  /** Selecting keeps the cells of the selected labels. */
  lemma GetSelect(t: Table, names: seq<string>, i: nat, c: string)
    requires WellFormed(t) && Select(t, names).Ok? && i < |t.rows| && c in names
    ensures c in t.columns
    ensures Get(Select(t, names).value, i, c) == Get(t, i, c)
  {
    var k := IndexOf(names, c);
  }

  // ---------------------------------------------------------------------------------
  // Facts about merge pairs.
  // ---------------------------------------------------------------------------------

  /** The matches of left row `a` from position `b` on are exactly the right rows from
      there with the same key, in increasing position. */
  lemma {:induction false} MatchesFromSpec(l: Table, r: Table, kl: nat, kr: nat, a: nat, b: nat)
    requires KeyAt(l, kl) && KeyAt(r, kr) && a < |l.rows| && b <= |r.rows|
    ensures forall x :: 0 <= x < |MatchesFrom(l, r, kl, kr, a, b)| ==>
              var p := MatchesFrom(l, r, kl, kr, a, b)[x];
              p.left == Some(a) && p.right.Some? && b <= p.right.value < |r.rows|
              && r.rows[p.right.value][kr] == l.rows[a][kl]
    ensures forall j :: b <= j < |r.rows| && r.rows[j][kr] == l.rows[a][kl] ==>
              Pair(Some(a), Some(j)) in MatchesFrom(l, r, kl, kr, a, b)
    decreases |r.rows| - b
  {
    if b < |r.rows| {
      MatchesFromSpec(l, r, kl, kr, a, b + 1);
      var head: seq<Pair> := if r.rows[b][kr] == l.rows[a][kl] then [Pair(Some(a), Some(b))] else [];
      var tail: seq<Pair> := MatchesFrom(l, r, kl, kr, a, b + 1);
      assert MatchesFrom(l, r, kl, kr, a, b) == head + tail;
      forall x | 0 <= x < |head + tail|
        ensures (head + tail)[x] == if x < |head| then head[x] else tail[x - |head|]
      {
      }
      forall j | b <= j < |r.rows| && r.rows[j][kr] == l.rows[a][kl]
        ensures Pair(Some(a), Some(j)) in head + tail
      {
        if j == b {
          assert (head + tail)[0] == Pair(Some(a), Some(b));
        } else {
          assert Pair(Some(a), Some(j)) in tail;
        }
      }
    }
  }

  /** A left row whose key no right row from position `b` on has gets no matches. */
  lemma {:induction false} MatchesFromNone(l: Table, r: Table, kl: nat, kr: nat, a: nat, b: nat)
    requires KeyAt(l, kl) && KeyAt(r, kr) && a < |l.rows| && b <= |r.rows|
    requires forall j :: b <= j < |r.rows| ==> r.rows[j][kr] != l.rows[a][kl]
    ensures MatchesFrom(l, r, kl, kr, a, b) == []
    decreases |r.rows| - b
  {
    if b < |r.rows| {
      MatchesFromNone(l, r, kl, kr, a, b + 1);
    }
  }

  /** With unique right keys a left row has at most one match. */
  lemma {:induction false} MatchesFromUnique(l: Table, r: Table, kl: nat, kr: nat, a: nat, b: nat)
    requires KeyAt(l, kl) && KeyAt(r, kr) && a < |l.rows| && b <= |r.rows|
    requires UniqueKeys(r, kr)
    ensures |MatchesFrom(l, r, kl, kr, a, b)| <= 1
    decreases |r.rows| - b
  {
    if b < |r.rows| {
      if r.rows[b][kr] == l.rows[a][kl] {
        MatchesFromNone(l, r, kl, kr, a, b + 1);
      } else {
        MatchesFromUnique(l, r, kl, kr, a, b + 1);
      }
    }
  }

  /** The pairs of left row `a` are valid, all name `a`, and include every right row with
      the same key, or the lone left row when there is none. */
  lemma PairsOfSpec(l: Table, r: Table, kl: nat, kr: nat, a: nat)
    requires KeyAt(l, kl) && KeyAt(r, kr) && a < |l.rows|
    ensures |PairsOf(l, r, kl, kr, a)| >= 1
    ensures forall p :: p in PairsOf(l, r, kl, kr, a) ==> p.left == Some(a) && ValidPair(l, r, kl, kr, p)
    ensures forall b :: 0 <= b < |r.rows| && r.rows[b][kr] == l.rows[a][kl] ==>
              Pair(Some(a), Some(b)) in PairsOf(l, r, kl, kr, a)
    ensures !HasKey(r, kr, l.rows[a][kl]) ==> PairsOf(l, r, kl, kr, a) == [Pair(Some(a), None)]
    ensures UniqueKeys(r, kr) ==> |PairsOf(l, r, kl, kr, a)| == 1
  {
    MatchesFromSpec(l, r, kl, kr, a, 0);
    var ms := MatchesFrom(l, r, kl, kr, a, 0);
    if ms == [] {
      forall j | 0 <= j < |r.rows| ensures r.rows[j][kr] != l.rows[a][kl] {
        assert Pair(Some(a), Some(j)) !in ms;
      }
    }
    if !HasKey(r, kr, l.rows[a][kl]) {
      MatchesFromNone(l, r, kl, kr, a, 0);
    }
    if UniqueKeys(r, kr) {
      MatchesFromUnique(l, r, kl, kr, a, 0);
    }
  }

  /** Every left pair names one of the first `n` left rows and is valid. */
  lemma {:induction false} LeftPairsSpec(l: Table, r: Table, kl: nat, kr: nat, n: nat)
    requires KeyAt(l, kl) && KeyAt(r, kr) && n <= |l.rows|
    ensures forall p :: p in LeftPairs(l, r, kl, kr, n) ==>
              p.left.Some? && p.left.value < n && ValidPair(l, r, kl, kr, p)
  {
    if n > 0 {
      var prev, here := LeftPairs(l, r, kl, kr, n - 1), PairsOf(l, r, kl, kr, n - 1);
      assert LeftPairs(l, r, kl, kr, n) == prev + here;
      assert forall p :: p in prev ==> p.left.Some? && p.left.value < n - 1 && ValidPair(l, r, kl, kr, p) by {
        LeftPairsSpec(l, r, kl, kr, n - 1);
      }
      assert forall p :: p in here ==> p.left == Some(n - 1) && ValidPair(l, r, kl, kr, p) by {
        PairsOfValid(l, r, kl, kr, n - 1);
      }
    }
  }

  /** The pairs of left row `a` are valid and all name `a`. */
  lemma PairsOfValid(l: Table, r: Table, kl: nat, kr: nat, a: nat)
    requires KeyAt(l, kl) && KeyAt(r, kr) && a < |l.rows|
    ensures forall p :: p in PairsOf(l, r, kl, kr, a) ==> p.left == Some(a) && ValidPair(l, r, kl, kr, p)
  {
    PairsOfSpec(l, r, kl, kr, a);
  }

  /** The pairs of every one of the first `n` left rows are among the left pairs. */
  lemma {:induction false} LeftPairsHave(l: Table, r: Table, kl: nat, kr: nat, n: nat, a: nat, p: Pair)
    requires KeyAt(l, kl) && KeyAt(r, kr) && a < n <= |l.rows|
    requires p in PairsOf(l, r, kl, kr, a)
    ensures p in LeftPairs(l, r, kl, kr, n)
  {
    var prev, here := LeftPairs(l, r, kl, kr, n - 1), PairsOf(l, r, kl, kr, n - 1);
    assert LeftPairs(l, r, kl, kr, n) == prev + here;
    if a < n - 1 {
      assert p in prev by {
        LeftPairsHave(l, r, kl, kr, n - 1, a, p);
      }
    } else {
      assert p in here;
    }
  }

  /** The keys in order are exactly the keys of the first `n` rows. */
  lemma {:induction false} KeysInOrderSpec(t: Table, k: nat, n: nat)
    requires KeyAt(t, k) && n <= |t.rows|
    ensures forall a :: 0 <= a < n ==> t.rows[a][k] in KeysInOrder(t, k, n)
    ensures forall v :: v in KeysInOrder(t, k, n) ==> exists a :: 0 <= a < n && t.rows[a][k] == v
  {
    if n > 0 {
      KeysInOrderSpec(t, k, n - 1);
    }
  }

  /** A left group holds pairs of left rows with its key only, all valid. */
  lemma {:induction false} LeftGroupSpec(l: Table, r: Table, kl: nat, kr: nat, v: Value, n: nat)
    requires KeyAt(l, kl) && KeyAt(r, kr) && n <= |l.rows|
    ensures forall p :: p in LeftGroup(l, r, kl, kr, v, n) ==>
              p.left.Some? && p.left.value < n && l.rows[p.left.value][kl] == v && ValidPair(l, r, kl, kr, p)
  {
    if n > 0 {
      LeftGroupSpec(l, r, kl, kr, v, n - 1);
      PairsOfSpec(l, r, kl, kr, n - 1);
    }
  }

  /** A left group holds the pairs of every left row with its key. */
  lemma {:induction false} LeftGroupHas(l: Table, r: Table, kl: nat, kr: nat, v: Value, n: nat, a: nat, p: Pair)
    requires KeyAt(l, kl) && KeyAt(r, kr) && a < n <= |l.rows|
    requires l.rows[a][kl] == v && p in PairsOf(l, r, kl, kr, a)
    ensures p in LeftGroup(l, r, kl, kr, v, n)
  {
    if a < n - 1 {
      LeftGroupHas(l, r, kl, kr, v, n - 1, a, p);
    }
  }

  /** Every pair of the left groups is valid and has a left row. */
  lemma {:induction false} LeftGroupsSpec(l: Table, r: Table, kl: nat, kr: nat, vs: seq<Value>)
    requires KeyAt(l, kl) && KeyAt(r, kr)
    ensures forall p :: p in LeftGroups(l, r, kl, kr, vs) ==> p.left.Some? && ValidPair(l, r, kl, kr, p)
  {
    if vs != [] {
      LeftGroupsSpec(l, r, kl, kr, vs[..|vs| - 1]);
      LeftGroupSpec(l, r, kl, kr, vs[|vs| - 1], |l.rows|);
    }
  }

  /** The left groups hold the group of each of their keys. */
  lemma {:induction false} LeftGroupsHas(l: Table, r: Table, kl: nat, kr: nat, vs: seq<Value>, v: Value, p: Pair)
    requires KeyAt(l, kl) && KeyAt(r, kr)
    requires v in vs && p in LeftGroup(l, r, kl, kr, v, |l.rows|)
    ensures p in LeftGroups(l, r, kl, kr, vs)
  {
    if vs[|vs| - 1] != v {
      assert vs == vs[..|vs| - 1] + [vs[|vs| - 1]];
      LeftGroupsHas(l, r, kl, kr, vs[..|vs| - 1], v, p);
    }
  }

  /** A right group holds right rows with its key only, each on its own. */
  lemma {:induction false} RightGroupSpec(r: Table, kr: nat, v: Value, n: nat)
    requires KeyAt(r, kr) && n <= |r.rows|
    ensures forall p :: p in RightGroup(r, kr, v, n) ==>
              p.left.None? && p.right.Some? && p.right.value < n && r.rows[p.right.value][kr] == v
  {
    if n > 0 {
      RightGroupSpec(r, kr, v, n - 1);
    }
  }

  /** A right group holds every right row with its key. */
  lemma {:induction false} RightGroupHas(r: Table, kr: nat, v: Value, n: nat, b: nat)
    requires KeyAt(r, kr) && b < n <= |r.rows| && r.rows[b][kr] == v
    ensures Pair(None, Some(b)) in RightGroup(r, kr, v, n)
  {
    if b < n - 1 {
      RightGroupHas(r, kr, v, n - 1, b);
    }
  }

  /** Every pair of the right-only groups is a valid right-only pair. */
  lemma {:induction false} RightOnlyGroupsSpec(l: Table, r: Table, kl: nat, kr: nat, vs: seq<Value>)
    requires KeyAt(l, kl) && KeyAt(r, kr)
    ensures forall p :: p in RightOnlyGroups(l, r, kl, kr, vs) ==> p.left.None? && ValidPair(l, r, kl, kr, p)
  {
    if vs != [] {
      RightOnlyGroupsSpec(l, r, kl, kr, vs[..|vs| - 1]);
      RightGroupSpec(r, kr, vs[|vs| - 1], |r.rows|);
    }
  }

  /** The right-only groups hold the group of each of their keys that the left lacks. */
  lemma {:induction false} RightOnlyGroupsHas(l: Table, r: Table, kl: nat, kr: nat, vs: seq<Value>, v: Value, p: Pair)
    requires KeyAt(l, kl) && KeyAt(r, kr)
    requires v in vs && !HasKey(l, kl, v) && p in RightGroup(r, kr, v, |r.rows|)
    ensures p in RightOnlyGroups(l, r, kl, kr, vs)
  {
    if vs[|vs| - 1] != v {
      assert vs == vs[..|vs| - 1] + [vs[|vs| - 1]];
      RightOnlyGroupsHas(l, r, kl, kr, vs[..|vs| - 1], v, p);
    }
  }

  /** Every pair of a merge is valid. */
  lemma MergePairsValid(l: Table, r: Table, kl: nat, kr: nat, outer: bool)
    requires KeyAt(l, kl) && KeyAt(r, kr)
    ensures forall p :: p in MergePairs(l, r, kl, kr, outer) ==> ValidPair(l, r, kl, kr, p)
    ensures !outer ==> forall p :: p in MergePairs(l, r, kl, kr, outer) ==> p.left.Some?
  {
    if outer {
      LeftGroupsSpec(l, r, kl, kr, KeysInOrder(l, kl, |l.rows|));
      RightOnlyGroupsSpec(l, r, kl, kr, KeysInOrder(r, kr, |r.rows|));
    } else {
      LeftPairsSpec(l, r, kl, kr, |l.rows|);
    }
  }

  /** A merge keeps every pair of rows with equal keys. */
  lemma MergeKeepsMatches(l: Table, r: Table, kl: nat, kr: nat, outer: bool, a: nat, b: nat)
    requires KeyAt(l, kl) && KeyAt(r, kr) && a < |l.rows| && b < |r.rows|
    requires l.rows[a][kl] == r.rows[b][kr]
    ensures Pair(Some(a), Some(b)) in MergePairs(l, r, kl, kr, outer)
  {
    var p := Pair(Some(a), Some(b));
    PairsOfSpec(l, r, kl, kr, a);
    if outer {
      KeysInOrderSpec(l, kl, |l.rows|);
      LeftGroupHas(l, r, kl, kr, l.rows[a][kl], |l.rows|, a, p);
      LeftGroupsHas(l, r, kl, kr, KeysInOrder(l, kl, |l.rows|), l.rows[a][kl], p);
    } else {
      LeftPairsHave(l, r, kl, kr, |l.rows|, a, p);
    }
  }

  /** A merge keeps a left row without partner, on its own. */
  lemma MergeKeepsLoneLeft(l: Table, r: Table, kl: nat, kr: nat, outer: bool, a: nat)
    requires KeyAt(l, kl) && KeyAt(r, kr) && a < |l.rows|
    requires !HasKey(r, kr, l.rows[a][kl])
    ensures Pair(Some(a), None) in MergePairs(l, r, kl, kr, outer)
  {
    var p := Pair(Some(a), None);
    PairsOfSpec(l, r, kl, kr, a);
    if outer {
      KeysInOrderSpec(l, kl, |l.rows|);
      LeftGroupHas(l, r, kl, kr, l.rows[a][kl], |l.rows|, a, p);
      LeftGroupsHas(l, r, kl, kr, KeysInOrder(l, kl, |l.rows|), l.rows[a][kl], p);
    } else {
      LeftPairsHave(l, r, kl, kr, |l.rows|, a, p);
    }
  }

  /** An outer merge keeps a right row without partner, on its own. */
  lemma OuterKeepsLoneRight(l: Table, r: Table, kl: nat, kr: nat, b: nat)
    requires KeyAt(l, kl) && KeyAt(r, kr) && b < |r.rows|
    requires !HasKey(l, kl, r.rows[b][kr])
    ensures Pair(None, Some(b)) in MergePairs(l, r, kl, kr, true)
  {
    KeysInOrderSpec(r, kr, |r.rows|);
    RightGroupHas(r, kr, r.rows[b][kr], |r.rows|, b);
    RightOnlyGroupsHas(l, r, kl, kr, KeysInOrder(r, kr, |r.rows|), r.rows[b][kr], Pair(None, Some(b)));
  }

  /** With unique right keys a left merge has exactly one row per left row, in left
      order, so it neither drops nor duplicates a left row. */
  lemma {:induction false} LeftPairsOnePerRow(l: Table, r: Table, kl: nat, kr: nat, n: nat)
    requires KeyAt(l, kl) && KeyAt(r, kr) && n <= |l.rows|
    requires UniqueKeys(r, kr)
    ensures |LeftPairs(l, r, kl, kr, n)| == n
    ensures forall a :: 0 <= a < n ==> LeftPairs(l, r, kl, kr, n)[a].left == Some(a)
  {
    if n > 0 {
      LeftPairsOnePerRow(l, r, kl, kr, n - 1);
      var prev: seq<Pair> := LeftPairs(l, r, kl, kr, n - 1);
      var q := PairsOfUnique(l, r, kl, kr, n - 1);
      var all := LeftPairs(l, r, kl, kr, n);
      assert all == prev + [q];
      assert |all| == |prev| + 1;
      forall a | 0 <= a < n ensures all[a].left == Some(a) {
        if a < n - 1 {
          assert all[a] == prev[a];
        }
      }
    } else {
      assert LeftPairs(l, r, kl, kr, n) == [];
    }
  }

  /** With unique right keys a left row has exactly one pair. */
  lemma PairsOfUnique(l: Table, r: Table, kl: nat, kr: nat, a: nat) returns (q: Pair)
    requires KeyAt(l, kl) && KeyAt(r, kr) && a < |l.rows| && UniqueKeys(r, kr)
    ensures PairsOf(l, r, kl, kr, a) == [q] && q.left == Some(a)
  {
    PairsOfSpec(l, r, kl, kr, a);
    q := PairsOf(l, r, kl, kr, a)[0];
    assert q in PairsOf(l, r, kl, kr, a);
  }

  /** With unique keys the keys in order are the keys of the rows, row by row. */
  lemma {:induction false} KeysInOrderUnique(t: Table, k: nat, n: nat)
    requires KeyAt(t, k) && n <= |t.rows| && UniqueKeys(t, k)
    ensures KeysInOrder(t, k, n) == seq(n, a requires 0 <= a < n => t.rows[a][k])
  {
    if n > 0 {
      KeysInOrderUnique(t, k, n - 1);
      var ks := KeysInOrder(t, k, n - 1);
      assert t.rows[n - 1][k] !in ks;
    }
  }

  /** A key no left row among the first `n` has gets an empty group. */
  lemma {:induction false} LeftGroupEmpty(l: Table, r: Table, kl: nat, kr: nat, v: Value, n: nat)
    requires KeyAt(l, kl) && KeyAt(r, kr) && n <= |l.rows|
    requires forall a :: 0 <= a < n ==> l.rows[a][kl] != v
    ensures LeftGroup(l, r, kl, kr, v, n) == []
  {
    if n > 0 {
      LeftGroupEmpty(l, r, kl, kr, v, n - 1);
    }
  }

  /** With unique left keys the group of a row's key is that row's pairs. */
  lemma {:induction false} LeftGroupUnique(l: Table, r: Table, kl: nat, kr: nat, a: nat, n: nat)
    requires KeyAt(l, kl) && KeyAt(r, kr) && a < n <= |l.rows| && UniqueKeys(l, kl)
    ensures LeftGroup(l, r, kl, kr, l.rows[a][kl], n) == PairsOf(l, r, kl, kr, a)
  {
    if a == n - 1 {
      LeftGroupEmpty(l, r, kl, kr, l.rows[a][kl], a);
    } else {
      LeftGroupUnique(l, r, kl, kr, a, n - 1);
    }
  }

  /** With unique left keys an outer merge lists the left rows in left order, as a left
      merge does, before the right-only rows. */
  lemma OuterLeftOrder(l: Table, r: Table, kl: nat, kr: nat)
    requires KeyAt(l, kl) && KeyAt(r, kr) && UniqueKeys(l, kl)
    ensures LeftGroups(l, r, kl, kr, KeysInOrder(l, kl, |l.rows|)) == LeftPairs(l, r, kl, kr, |l.rows|)
  {
    KeysInOrderUnique(l, kl, |l.rows|);
    LeftGroupsRowOrder(l, r, kl, kr, |l.rows|);
  }

  lemma {:induction false} LeftGroupsRowOrder(l: Table, r: Table, kl: nat, kr: nat, n: nat)
    requires KeyAt(l, kl) && KeyAt(r, kr) && n <= |l.rows| && UniqueKeys(l, kl)
    ensures LeftGroups(l, r, kl, kr, seq(n, a requires 0 <= a < n => l.rows[a][kl])) == LeftPairs(l, r, kl, kr, n)
  {
    if n > 0 {
      var vs := seq(n, a requires 0 <= a < n => l.rows[a][kl]);
      assert vs[..n - 1] == seq(n - 1, a requires 0 <= a < n - 1 => l.rows[a][kl]);
      LeftGroupsRowOrder(l, r, kl, kr, n - 1);
      LeftGroupUnique(l, r, kl, kr, n - 1, |l.rows|);
    }
  }

  /** Every row has a key in column `k`. */
  lemma {:induction false} NotNullRowsAll(rows: seq<Row>, k: nat)
    requires forall i :: 0 <= i < |rows| ==> k < |rows[i]| && rows[i][k] != Null
    ensures NotNullRows(rows, k) == rows
  {
    if rows != [] {
      NotNullRowsAll(rows[1..], k);
    }
  }

  /** Dropping the rows without a key keeps a table whose every row has one. */
  lemma DropMissingAll(t: Table, c: string)
    requires WellFormed(t) && c in t.columns
    requires forall i :: 0 <= i < |t.rows| ==> Get(t, i, c) != Null
    ensures DropMissing(t, c) == Ok(t)
  {
    var k := IndexOf(t.columns, c);
    assert forall i :: 0 <= i < |t.rows| ==> t.rows[i][k] == Get(t, i, c);
    NotNullRowsAll(t.rows, k);
  }

  /** Two tables listing the same unique keys in the same row order. */
  predicate Aligned(l: Table, r: Table, kl: nat, kr: nat) {
    && KeyAt(l, kl) && KeyAt(r, kr) && |l.rows| == |r.rows| && UniqueKeys(l, kl)
    && forall a :: 0 <= a < |l.rows| ==> l.rows[a][kl] == r.rows[a][kr]
  }

  /** Aligned tables pair row `a` with row `a`, row by row. */
  lemma {:induction false} LeftPairsAligned(l: Table, r: Table, kl: nat, kr: nat, n: nat)
    requires Aligned(l, r, kl, kr) && n <= |l.rows|
    ensures |LeftPairs(l, r, kl, kr, n)| == n
    ensures forall a :: 0 <= a < n ==> LeftPairs(l, r, kl, kr, n)[a] == Pair(Some(a), Some(a))
  {
    if n > 0 {
      LeftPairsAligned(l, r, kl, kr, n - 1);
      var prev: seq<Pair> := LeftPairs(l, r, kl, kr, n - 1);
      AlignedPairsOf(l, r, kl, kr, n - 1);
      var all := LeftPairs(l, r, kl, kr, n);
      assert all == prev + [Pair(Some(n - 1), Some(n - 1))];
      assert |all| == |prev| + 1;
      forall a | 0 <= a < n ensures all[a] == Pair(Some(a), Some(a)) {
        if a < n - 1 {
          assert all[a] == prev[a];
        }
      }
    } else {
      assert LeftPairs(l, r, kl, kr, n) == [];
    }
  }

  /** Of aligned tables, left row `a` is paired with right row `a` alone. */
  lemma AlignedPairsOf(l: Table, r: Table, kl: nat, kr: nat, a: nat)
    requires Aligned(l, r, kl, kr) && a < |l.rows|
    ensures PairsOf(l, r, kl, kr, a) == [Pair(Some(a), Some(a))]
  {
    assert UniqueKeys(r, kr) by {
      forall i, j | 0 <= i < j < |r.rows| ensures r.rows[i][kr] != r.rows[j][kr] {
        assert l.rows[i][kl] != l.rows[j][kl];
      }
    }
    PairsOfSpec(l, r, kl, kr, a);
    var last: seq<Pair> := PairsOf(l, r, kl, kr, a);
    assert Pair(Some(a), Some(a)) in last;
  }

  /** Right groups of keys the left table has are left out. */
  lemma {:induction false} RightOnlyGroupsNone(l: Table, r: Table, kl: nat, kr: nat, vs: seq<Value>)
    requires KeyAt(l, kl) && KeyAt(r, kr)
    requires forall j :: 0 <= j < |vs| ==> HasKey(l, kl, vs[j])
    ensures RightOnlyGroups(l, r, kl, kr, vs) == []
  {
    if vs != [] {
      RightOnlyGroupsNone(l, r, kl, kr, vs[..|vs| - 1]);
    }
  }

  /** An outer merge of aligned tables pairs row `a` with row `a` and adds nothing. */
  lemma MergeAligned(l: Table, r: Table, kl: nat, kr: nat)
    requires Aligned(l, r, kl, kr)
    ensures |MergePairs(l, r, kl, kr, true)| == |l.rows|
    ensures forall a :: 0 <= a < |l.rows| ==> MergePairs(l, r, kl, kr, true)[a] == Pair(Some(a), Some(a))
  {
    OuterLeftOrder(l, r, kl, kr);
    LeftPairsAligned(l, r, kl, kr, |l.rows|);
    var vs := KeysInOrder(r, kr, |r.rows|);
    KeysInOrderSpec(r, kr, |r.rows|);
    forall j | 0 <= j < |vs| ensures HasKey(l, kl, vs[j]) {
      assert vs[j] in vs;
      var a :| 0 <= a < |r.rows| && r.rows[a][kr] == vs[j];
      assert l.rows[a][kl] == vs[j];
    }
    RightOnlyGroupsNone(l, r, kl, kr, vs);
    assert MergePairs(l, r, kl, kr, true) == LeftPairs(l, r, kl, kr, |l.rows|) + [];
  }

  // ---------------------------------------------------------------------------------
  // Facts about the cells of a merge.
  // ---------------------------------------------------------------------------------

  lemma SuffixedEndsWith(s: string, x: string)
    ensures EndsWith(s + x, x)
  {
    assert (s + x)[|s + x| - |x|..] == x;
  }

  /** Dropping position `kr` moves a label other than the one there by at most one place,
      together with its cell. */
  lemma RemoveAtIndex<T>(rc: seq<string>, kr: nat, c: string, row: seq<T>)
    requires kr < |rc| && |row| == |rc| && c in rc && rc[kr] != c
    ensures c in RemoveAt(rc, kr)
    ensures RemoveAt(row, kr)[IndexOf(RemoveAt(rc, kr), c)] == row[IndexOf(rc, c)]
  {
    var p := IndexOf(rc, c);
    var rest := RemoveAt(rc, kr);
    if p < kr {
      assert rest[p] == c;
      assert rest[..p] == rc[..p];
      IndexOfUnique(rest, c, p);
    } else {
      assert rest[p - 1] == c;
      assert forall j :: 0 <= j < p - 1 ==> rest[j] == (if j < kr then rc[j] else rc[j + 1]);
      assert c !in rest[..p - 1] by {
        forall j | 0 <= j < p - 1 ensures rest[j] != c {
          assert rc[..p][j] == rc[j];
          if j < kr { assert rest[j] == rc[j]; } else { assert rest[j] == rc[j + 1] && rc[..p][j + 1] == rc[j + 1]; }
        }
      }
      IndexOfUnique(rest, c, p - 1);
    }
  }

  /** A left label that is the key, or that the right side lacks, keeps its place in a
      merge when it cannot be mistaken for a suffixed label. */
  lemma MergedLabelLeft(lc: seq<string>, rc: seq<string>, kr: nat, lsuf: string, rsuf: string, c: string)
    requires kr < |rc| && c in lc && (c == rc[kr] || c !in RemoveAt(rc, kr)) && !EndsWith(c, lsuf)
    ensures c in MergedColumns(lc, rc, kr, lsuf, rsuf)
    ensures IndexOf(MergedColumns(lc, rc, kr, lsuf, rsuf), c) == IndexOf(lc, c)
  {
    var cs := MergedColumns(lc, rc, kr, lsuf, rsuf);
    var k := IndexOf(lc, c);
    forall j | 0 <= j < k ensures cs[j] != c {
      assert lc[..k][j] == lc[j];
      SuffixedEndsWith(lc[j], lsuf);
    }
    assert c !in cs[..k];
    IndexOfUnique(cs, c, k);
  }

  /** A right label the left side lacks comes after the left labels, at its place among
      the right labels without the key. */
  lemma MergedLabelRight(lc: seq<string>, rc: seq<string>, kr: nat, lsuf: string, rsuf: string, c: string)
    requires kr < |rc| && c !in lc && c in RemoveAt(rc, kr) && c != rc[kr]
    requires !EndsWith(c, lsuf) && !EndsWith(c, rsuf)
    ensures c in MergedColumns(lc, rc, kr, lsuf, rsuf)
    ensures IndexOf(MergedColumns(lc, rc, kr, lsuf, rsuf), c) == |lc| + IndexOf(RemoveAt(rc, kr), c)
  {
    var cs := MergedColumns(lc, rc, kr, lsuf, rsuf);
    var rest := RemoveAt(rc, kr);
    var k := IndexOf(rest, c);
    forall j | 0 <= j < |lc| + k ensures cs[j] != c {
      if j < |lc| {
        SuffixedEndsWith(lc[j], lsuf);
      } else {
        assert rest[..k][j - |lc|] == rest[j - |lc|];
        SuffixedEndsWith(rest[j - |lc|], rsuf);
      }
    }
    assert c !in cs[..|lc| + k];
    IndexOfUnique(cs, c, |lc| + k);
  }

  /** A non-key label on both sides, or on neither, is not a label of the merge (both
      copies are suffixed). */
  lemma MergedLabelGone(lc: seq<string>, rc: seq<string>, kr: nat, lsuf: string, rsuf: string, c: string)
    requires kr < |rc| && c != rc[kr] && (c in lc <==> c in rc)
    requires !EndsWith(c, lsuf) && !EndsWith(c, rsuf)
    ensures c !in MergedColumns(lc, rc, kr, lsuf, rsuf)
  {
    var cs := MergedColumns(lc, rc, kr, lsuf, rsuf);
    var rest := RemoveAt(rc, kr);
    assert c in rest <==> c in rc by {
      if c in rc {
        var p := IndexOf(rc, c);
        assert rest[if p < kr then p else p - 1] == c;
      }
    }
    forall j | 0 <= j < |cs| ensures cs[j] != c {
      if j < |lc| {
        SuffixedEndsWith(lc[j], lsuf);
      } else {
        SuffixedEndsWith(rest[j - |lc|], rsuf);
      }
    }
  }

  /** The pairs behind the rows of a merge on `key`. */
  function MergePairsOn(l: Table, r: Table, key: string, outer: bool): seq<Pair>
    requires WellFormed(l) && WellFormed(r) && key in l.columns && key in r.columns
  {
    MergePairs(l, r, IndexOf(l.columns, key), IndexOf(r.columns, key), outer)
  }

  lemma MergeRows(l: Table, r: Table, key: string, lsuf: string, rsuf: string, outer: bool)
    requires WellFormed(l) && WellFormed(r) && key in l.columns && key in r.columns
    ensures |Merge(l, r, key, lsuf, rsuf, outer).value.rows| == |MergePairsOn(l, r, key, outer)|
    ensures forall x :: 0 <= x < |MergePairsOn(l, r, key, outer)| ==>
      ValidPair(l, r, IndexOf(l.columns, key), IndexOf(r.columns, key), MergePairsOn(l, r, key, outer)[x])
  {
    MergePairsValid(l, r, IndexOf(l.columns, key), IndexOf(r.columns, key), outer);
  }

  /** A row with a left side holds that left row's cell under a left label that keeps its
      place. */
  lemma GetMergedLeft(l: Table, r: Table, key: string, lsuf: string, rsuf: string, outer: bool, x: nat, c: string)
    requires WellFormed(l) && WellFormed(r) && key in l.columns && key in r.columns
    requires c in l.columns && (c == key || c !in r.columns) && !EndsWith(c, lsuf)
    requires x < |MergePairsOn(l, r, key, outer)| && MergePairsOn(l, r, key, outer)[x].left.Some?
    ensures x < |Merge(l, r, key, lsuf, rsuf, outer).value.rows|
    ensures c in Merge(l, r, key, lsuf, rsuf, outer).value.columns
    ensures MergePairsOn(l, r, key, outer)[x].left.value < |l.rows|
    ensures Get(Merge(l, r, key, lsuf, rsuf, outer).value, x, c) == Get(l, MergePairsOn(l, r, key, outer)[x].left.value, c)
  {
    var kr := IndexOf(r.columns, key);
    MergeRows(l, r, key, lsuf, rsuf, outer);
    assert c == r.columns[kr] || c !in RemoveAt(r.columns, kr);
    MergedLabelLeft(l.columns, r.columns, kr, lsuf, rsuf, c);
  }

  /** A row holds its right row's cell under a right label the left side lacks, and a
      missing cell when it has no right side. */
  lemma GetMergedRight(l: Table, r: Table, key: string, lsuf: string, rsuf: string, outer: bool, x: nat, c: string)
    requires WellFormed(l) && WellFormed(r) && key in l.columns && key in r.columns
    requires c !in l.columns && c in r.columns && c != key && !EndsWith(c, lsuf) && !EndsWith(c, rsuf)
    requires x < |MergePairsOn(l, r, key, outer)|
    ensures x < |Merge(l, r, key, lsuf, rsuf, outer).value.rows|
    ensures c in Merge(l, r, key, lsuf, rsuf, outer).value.columns
    ensures var p := MergePairsOn(l, r, key, outer)[x]; p.right.Some? ==> p.right.value < |r.rows|
    ensures var p := MergePairsOn(l, r, key, outer)[x];
      Get(Merge(l, r, key, lsuf, rsuf, outer).value, x, c) == if p.right.Some? then Get(r, p.right.value, c) else Null
  {
    var kr := IndexOf(r.columns, key);
    MergeRows(l, r, key, lsuf, rsuf, outer);
    var p := MergePairsOn(l, r, key, outer)[x];
    RemoveAtIndex(r.columns, kr, c, r.columns);
    MergedLabelRight(l.columns, r.columns, kr, lsuf, rsuf, c);
    if p.right.Some? {
      RemoveAtIndex(r.columns, kr, c, r.rows[p.right.value]);
    }
  }

  /** A non-key label on both sides, or on neither, is no label of the merge. */
  lemma MergedGone(l: Table, r: Table, key: string, lsuf: string, rsuf: string, outer: bool, c: string)
    requires WellFormed(l) && WellFormed(r) && key in l.columns && key in r.columns
    requires c != key && (c in l.columns <==> c in r.columns) && !EndsWith(c, lsuf) && !EndsWith(c, rsuf)
    ensures c !in Merge(l, r, key, lsuf, rsuf, outer).value.columns
  {
    MergedLabelGone(l.columns, r.columns, IndexOf(r.columns, key), lsuf, rsuf, c);
  }

  /** Every left row adds at least one pair, and row `a` adds all of its own. */
  lemma {:induction false} LeftPairsAtLeast(l: Table, r: Table, kl: nat, kr: nat, n: nat, a: nat)
    requires KeyAt(l, kl) && KeyAt(r, kr) && a < n <= |l.rows|
    ensures |LeftPairs(l, r, kl, kr, n)| >= n - 1 + |PairsOf(l, r, kl, kr, a)|
  {
    var prev, here := LeftPairs(l, r, kl, kr, n - 1), PairsOf(l, r, kl, kr, n - 1);
    assert |LeftPairs(l, r, kl, kr, n)| == |prev| + |here|;
    if a < n - 1 {
      assert |prev| >= n - 2 + |PairsOf(l, r, kl, kr, a)| by {
        LeftPairsAtLeast(l, r, kl, kr, n - 1, a);
      }
      assert |here| >= 1 by {
        PairsOfNonEmpty(l, r, kl, kr, n - 1);
      }
    } else {
      assert |prev| >= n - 1 by {
        LeftPairsLength(l, r, kl, kr, n - 1);
      }
    }
  }

  /** A left join has at least one pair per left row. */
  lemma {:induction false} LeftPairsLength(l: Table, r: Table, kl: nat, kr: nat, n: nat)
    requires KeyAt(l, kl) && KeyAt(r, kr) && n <= |l.rows|
    ensures |LeftPairs(l, r, kl, kr, n)| >= n
  {
    if n > 0 {
      var prev, here := LeftPairs(l, r, kl, kr, n - 1), PairsOf(l, r, kl, kr, n - 1);
      assert |LeftPairs(l, r, kl, kr, n)| == |prev| + |here|;
      assert |prev| >= n - 1 by {
        LeftPairsLength(l, r, kl, kr, n - 1);
      }
      assert |here| >= 1 by {
        PairsOfNonEmpty(l, r, kl, kr, n - 1);
      }
    }
  }

  /** A left row with two matching right rows gets two pairs. */
  lemma PairsOfTwo(l: Table, r: Table, kl: nat, kr: nat, a: nat, b1: nat, b2: nat)
    requires KeyAt(l, kl) && KeyAt(r, kr) && a < |l.rows| && b1 < |r.rows| && b2 < |r.rows| && b1 != b2
    requires r.rows[b1][kr] == l.rows[a][kl] && r.rows[b2][kr] == l.rows[a][kl]
    ensures |PairsOf(l, r, kl, kr, a)| >= 2
  {
    PairsOfSpec(l, r, kl, kr, a);
    var ps := PairsOf(l, r, kl, kr, a);
    assert Pair(Some(a), Some(b1)) in ps && Pair(Some(a), Some(b2)) in ps;
  }

  lemma PairsOfNonEmpty(l: Table, r: Table, kl: nat, kr: nat, a: nat)
    requires KeyAt(l, kl) && KeyAt(r, kr) && a < |l.rows|
    ensures |PairsOf(l, r, kl, kr, a)| >= 1
  {
  }
}
