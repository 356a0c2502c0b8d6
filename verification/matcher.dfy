/** The mass-accuracy matcher: for every theoretical mass, the experimental
    masses within a ppm tolerance, assembled into one result table per
    theoretical mass that found any. */
module Matcher {
  import opened Wrappers
  import opened Tables
  import opened Ppm
  import opened Sorting
  import opened Seqs

  datatype Error =
    | MissingColumn(name: string)             // a column name the table does not have
    | LengthMismatch(rows: nat, errors: nat)  // the error column does not fit the paired rows

  /** Which output layout a call produces; chosen by the theoretical column's name. */
  datatype Mode = MonoisotopicMode | AdductMode

  function ModeOf(theoColumnName: string): (r: Mode)
    ensures r == MonoisotopicMode <==> theoColumnName == MonoisotopicName
  {
    if theoColumnName == MonoisotopicName then MonoisotopicMode else AdductMode
  }

  // ---------------------------------------------------------------- the pool

  /** The rows that are unannotated, have fragmentation data and have a mass,
      in row order (each as often as the table holds it: EligibleRowsCount). */
  function EligibleRows(exp: seq<ExpRow>): (r: seq<ExpRow>)
    ensures |r| <= |exp|
    ensures forall x :: x in r <==> x in exp && Eligible(x)
  {
    if exp == [] then []
    else
      var rest := EligibleRows(exp[1..]);
      if Eligible(exp[0]) then [exp[0]] + rest else rest
  }

  /** The neutral mass of every row, in row order. */
  function NeutralMasses(rows: seq<ExpRow>): seq<Option<real>> {
    seq(|rows|, k requires 0 <= k < |rows| => rows[k].neutralMass)
  }

  /** The default pool: the neutral mass of each eligible row, one entry per row. */
  function EligibleMasses(exp: seq<ExpRow>): (r: seq<Option<real>>)
    ensures |r| <= |exp|
    ensures forall k :: 0 <= k < |r| ==> r[k].Some?
    ensures forall row :: row in exp && Eligible(row) ==> row.neutralMass in r
    ensures forall m :: m in r ==> exists row :: row in exp && Eligible(row) && row.neutralMass == m
  {
    var rows := EligibleRows(exp);
    var r := NeutralMasses(rows);
    assert forall k :: 0 <= k < |r| ==> r[k].Some? by {
      forall k | 0 <= k < |r|
        ensures r[k].Some?
      {
        assert rows[k] in rows;
      }
    }
    assert forall row :: row in exp && Eligible(row) ==> row.neutralMass in r by {
      forall row | row in exp && Eligible(row)
        ensures row.neutralMass in r
      {
        var k :| 0 <= k < |rows| && rows[k] == row;
        assert r[k] == row.neutralMass;
      }
    }
    assert forall m :: m in r ==> exists row :: row in exp && Eligible(row) && row.neutralMass == m by {
      forall m | m in r
        ensures exists row :: row in exp && Eligible(row) && row.neutralMass == m
      {
        var k :| 0 <= k < |r| && r[k] == m;
        assert rows[k] in rows;
      }
    }
    r
  }

  /** The whole column, nulls included, in row order. */
  function ColumnValues(exp: seq<ExpRow>, c: ExpMassColumn): (r: seq<Option<real>>)
    ensures |r| == |exp|
    ensures forall k :: 0 <= k < |r| ==> r[k] == ExpMass(exp[k], c)
  {
    seq(|exp|, k requires 0 <= k < |exp| => ExpMass(exp[k], c))
  }

  /** The experimental masses that are candidates for matching. On the default
      neutral-mass column only eligible rows take part; on any other column the
      whole column does. */
  function Pool(exp: seq<ExpRow>, expColumnName: string): (r: Result<seq<Option<real>>, Error>)
    ensures expColumnName == NeutralMassName ==>
      && r.Success?
      && |r.value| == |EligibleRows(exp)|
      && (forall k :: 0 <= k < |r.value| ==> r.value[k] == EligibleRows(exp)[k].neutralMass)
      && (forall m :: m in r.value ==> m.Some? && exists row :: row in exp && Eligible(row) && row.neutralMass == m)
      && (forall row :: row in exp && Eligible(row) ==> row.neutralMass in r.value)
    ensures expColumnName != NeutralMassName ==>
      && (r.Success? <==> ParseExpColumn(expColumnName).Some?)
      && (r.Failure? ==> r.error == MissingColumn(expColumnName))
      && (r.Success? ==>
            && |r.value| == |exp|
            && forall k :: 0 <= k < |exp| ==> r.value[k] == ExpMass(exp[k], ParseExpColumn(expColumnName).value))
  {
    if expColumnName == NeutralMassName then
      Success(EligibleMasses(exp))
    else
      match ParseExpColumn(expColumnName)
      case None => Failure(MissingColumn(expColumnName))
      case Some(c) => Success(ColumnValues(exp, c))
  }

  // ---------------------------------------------------------------- the hits

  /** The pool values within `tol` ppm of `t`, in pool order (each as often
      as the pool holds it: HitsCount). */
  function Hits(pool: seq<Option<real>>, t: real, tol: real): (r: seq<real>)
    ensures |r| <= |pool|
    ensures forall k :: 0 <= k < |r| ==> IsHit(r[k], t, tol)
    ensures forall e :: e in r <==> Some(e) in pool && IsHit(e, t, tol)
  {
    if pool == [] then []
    else
      var rest := Hits(pool[1..], t, tol);
      assert pool == [pool[0]] + pool[1..];
      if pool[0].Some? && IsHit(pool[0].value, t, tol) then [pool[0].value] + rest else rest
  }

  /** An empty theoretical cell deviates by NaN from everything, so it has no hits. */
  function HitsOf(pool: seq<Option<real>>, t: Option<real>, tol: real): (r: seq<real>)
    ensures t.None? ==> r == []
    ensures forall k :: 0 <= k < |r| ==> t.Some? && IsHit(r[k], t.value, tol)
    ensures t.Some? ==> forall e :: e in r <==> Some(e) in pool && IsHit(e, t.value, tol)
  {
    if t.Some? then Hits(pool, t.value, tol) else []
  }

  /** Deviations of the hits, rounded to two decimals, in the order of the hits. */
  function ErrorColumn(hits: seq<real>, t: real): (r: seq<real>)
    requires forall k :: 0 <= k < |hits| ==> hits[k] != 0.0
    ensures |r| == |hits|
    ensures forall k :: 0 <= k < |r| ==>
      && Abs(r[k] - Deviation(hits[k], t)) <= 1.0 / 200.0
      && (r[k] * 100.0).Floor as real == r[k] * 100.0
  {
    seq(|hits|, k requires 0 <= k < |hits| => Round2(Deviation(hits[k], t)))
  }

  // ------------------------------------------------------ the theoretical side

  /** Rows whose mass column holds exactly `t`, in table order. */
  function SelectTheo(rows: seq<TheoRow>, c: TheoMassColumn, t: real): (r: seq<TheoRow>)
    ensures forall x :: multiset(r)[x] == if TheoMass(x, c) == Some(t) then multiset(rows)[x] else 0
  {
    if rows == [] then []
    else
      assert rows == [rows[0]] + rows[1..];
      var rest := SelectTheo(rows[1..], c, t);
      if TheoMass(rows[0], c) == Some(t) then [rows[0]] + rest else rest
  }

  /** The column the theoretical side is sorted on. */
  function TheoSortColumn(mode: Mode): TheoMassColumn {
    match mode
    case MonoisotopicMode => MonoisotopicColumn
    case AdductMode => AdductMassColumn
  }

  function TheoKey(mode: Mode): TheoRow -> Option<real> {
    (row: TheoRow) => TheoMass(row, TheoSortColumn(mode))
  }

  /** The theoretical rows of one group: every row carrying the value `t`,
      sorted ascending on the mode's theoretical mass column. */
  function TheoSide(theo: seq<TheoRow>, c: TheoMassColumn, t: real, mode: Mode): (r: seq<TheoRow>)
    ensures forall k :: 0 <= k < |r| ==> TheoMass(r[k], c) == Some(t)
    ensures forall i, j :: 0 <= i < j < |r| ==>
      KeyLe(TheoMass(r[i], TheoSortColumn(mode)), TheoMass(r[j], TheoSortColumn(mode)))
    ensures forall x :: multiset(r)[x] == if TheoMass(x, c) == Some(t) then multiset(theo)[x] else 0
  {
    var sel := SelectTheo(theo, c, t);
    var r := SortByKey(sel, TheoKey(mode));
    assert forall k :: 0 <= k < |r| ==> TheoMass(r[k], c) == Some(t) by {
      forall k | 0 <= k < |r|
        ensures TheoMass(r[k], c) == Some(t)
      {
        assert r[k] in multiset(sel);
      }
    }
    assert forall i, j :: 0 <= i < j < |r| ==>
      KeyLe(TheoMass(r[i], TheoSortColumn(mode)), TheoMass(r[j], TheoSortColumn(mode))) by {
      forall i, j | 0 <= i < j < |r|
        ensures KeyLe(TheoMass(r[i], TheoSortColumn(mode)), TheoMass(r[j], TheoSortColumn(mode)))
      {
        assert KeyLe(TheoKey(mode)(r[i]), TheoKey(mode)(r[j]));
      }
    }
    r
  }

  // ----------------------------------------------------- the experimental side

  /** The row's value in column `c` is one of the hits. */
  predicate InHits(row: ExpRow, c: ExpMassColumn, hits: seq<real>) {
    ExpMass(row, c).Some? && ExpMass(row, c).value in hits
  }

  /** Rows of the whole experimental table whose value is a hit, in table order. */
  function SelectExp(rows: seq<ExpRow>, c: ExpMassColumn, hits: seq<real>): (r: seq<ExpRow>)
    ensures forall x :: multiset(r)[x] == if InHits(x, c, hits) then multiset(rows)[x] else 0
  {
    if rows == [] then []
    else
      assert rows == [rows[0]] + rows[1..];
      var rest := SelectExp(rows[1..], c, hits);
      if InHits(rows[0], c, hits) then [rows[0]] + rest else rest
  }

  /** The column the experimental side is sorted on, fixed by the mode. */
  function ExpSortColumn(mode: Mode): ExpMassColumn {
    match mode
    case MonoisotopicMode => NeutralMassColumn
    case AdductMode => MzColumn
  }

  function ExpKey(mode: Mode): ExpRow -> Option<real> {
    (row: ExpRow) => ExpMass(row, ExpSortColumn(mode))
  }

  /** The experimental rows of one group: every row of the whole table whose
      matched column holds a hit, sorted ascending on the mode's column. */
  function ExpSide(exp: seq<ExpRow>, c: ExpMassColumn, hits: seq<real>, mode: Mode): (r: seq<ExpRow>)
    ensures forall k :: 0 <= k < |r| ==> InHits(r[k], c, hits)
    ensures forall i, j :: 0 <= i < j < |r| ==>
      KeyLe(ExpMass(r[i], ExpSortColumn(mode)), ExpMass(r[j], ExpSortColumn(mode)))
    ensures forall x :: multiset(r)[x] == if InHits(x, c, hits) then multiset(exp)[x] else 0
  {
    var sel := SelectExp(exp, c, hits);
    var r := SortByKey(sel, ExpKey(mode));
    assert forall k :: 0 <= k < |r| ==> InHits(r[k], c, hits) by {
      forall k | 0 <= k < |r|
        ensures InHits(r[k], c, hits)
      {
        assert r[k] in multiset(sel);
      }
    }
    assert forall i, j :: 0 <= i < j < |r| ==>
      KeyLe(ExpMass(r[i], ExpSortColumn(mode)), ExpMass(r[j], ExpSortColumn(mode))) by {
      forall i, j | 0 <= i < j < |r|
        ensures KeyLe(ExpMass(r[i], ExpSortColumn(mode)), ExpMass(r[j], ExpSortColumn(mode)))
      {
        assert KeyLe(ExpKey(mode)(r[i]), ExpKey(mode)(r[j]));
      }
    }
    r
  }

  // ----------------------------------------------------- positional pairing

  /** One row of the side-by-side concatenation; a side is absent past its end. */
  datatype Pairing = Pairing(theo: Option<TheoRow>, exp: Option<ExpRow>)

  function Max(a: int, b: int): int {
    if a < b then b else a
  }

  function Head<T>(s: seq<T>): Option<T> {
    if s == [] then None else Some(s[0])
  }

  /** The k-th element of `s`, or nothing past its end. */
  function At<T>(s: seq<T>, k: nat): Option<T> {
    if k < |s| then Some(s[k]) else None
  }

  function Tail<T>(s: seq<T>): seq<T> {
    if s == [] then [] else s[1..]
  }

  /** Row k of the theoretical side next to row k of the experimental side, for
      as many rows as the longer side has. Nothing checks that the two rows of
      a pairing belong together. */
  function Pair(a: seq<TheoRow>, b: seq<ExpRow>): (r: seq<Pairing>)
    ensures |r| == Max(|a|, |b|)
    decreases |a| + |b|
  {
    if a == [] && b == [] then []
    else [Pairing(Head(a), Head(b))] + Pair(Tail(a), Tail(b))
  }

  /** Position k of the pairing holds exactly the k-th row of each side, or
      nothing for a side that has fewer than k + 1 rows. */
  lemma {:induction false} PairAt(a: seq<TheoRow>, b: seq<ExpRow>, k: nat)
    requires k < Max(|a|, |b|)
    ensures Pair(a, b)[k] == Pairing(At(a, k), At(b, k))
    decreases k
  {
    if k > 0 {
      PairAt(Tail(a), Tail(b), k - 1);
      assert Pair(a, b)[k] == Pair(Tail(a), Tail(b))[k - 1];
    }
  }

  // ----------------------------------------------------------- result tables

  /** The output columns of each mode: the labels first, then the mode's
      theoretical and experimental mass columns, the error column last, and no
      column twice. */
  function Columns(mode: Mode): (r: seq<string>)
    ensures |r| >= 6
    ensures r[0] == "Name" && r[1] == "Formula"
    ensures r[2] == TheoColumnName(TheoSortColumn(mode))
    ensures r[3] == ExpColumnName(ExpSortColumn(mode))
    ensures "Compound" in r
    ensures r[|r| - 1] == ErrorName
    ensures forall i, j :: 0 <= i < j < |r| ==> r[i] != r[j]
  {
    match mode
    case MonoisotopicMode =>
      ["Name", "Formula", MonoisotopicName, NeutralMassName, "Compound", ErrorName]
    case AdductMode =>
      ["Name", "Formula", AdductMassName, MzName, "adduct", "Compound", "smiles", ErrorName]
  }

  /** A column of a result table, named after the side and the field its
      cells come from. */
  datatype Field =
    | NameField | FormulaField | AdductField | SmilesField  // the theoretical row's
    | TheoMassField(tc: TheoMassColumn)
    | ExpMassField(ec: ExpMassColumn)
    | CompoundField                                         // the experimental row's
    | ErrorField

  function Label(f: Field): string {
    match f
    case NameField => "Name"
    case FormulaField => "Formula"
    case AdductField => "adduct"
    case SmilesField => "smiles"
    case TheoMassField(c) => TheoColumnName(c)
    case ExpMassField(c) => ExpColumnName(c)
    case CompoundField => "Compound"
    case ErrorField => ErrorName
  }

  /** The fields behind the mode's output columns, in column order. */
  function Fields(mode: Mode): seq<Field> {
    match mode
    case MonoisotopicMode =>
      [NameField, FormulaField, TheoMassField(MonoisotopicColumn), ExpMassField(NeutralMassColumn),
       CompoundField, ErrorField]
    case AdductMode =>
      [NameField, FormulaField, TheoMassField(AdductMassColumn), ExpMassField(MzColumn),
       AdductField, CompoundField, SmilesField, ErrorField]
  }

  /** Each output column is labelled with the name of the field behind it. */
  lemma FieldsLabelColumns(mode: Mode)
    ensures |Fields(mode)| == |Columns(mode)|
    ensures forall j :: 0 <= j < |Fields(mode)| ==> Label(Fields(mode)[j]) == Columns(mode)[j]
  {
  }

  function TheoNum(p: Pairing, c: TheoMassColumn): Option<real> {
    if p.theo.Some? then TheoMass(p.theo.value, c) else None
  }

  function ExpNum(p: Pairing, c: ExpMassColumn): Option<real> {
    if p.exp.Some? then ExpMass(p.exp.value, c) else None
  }

  /** The cell a paired row shows under field `f`. Side by side concatenation
      keeps each side's columns, so a cell is filled from the side the field
      belongs to and is empty where that side has no row; the error column
      holds the row's error. */
  function CellFor(f: Field, p: Pairing, err: real): Cell {
    match f
    case NameField => Text(if p.theo.Some? then Some(p.theo.value.name) else None)
    case FormulaField => Text(if p.theo.Some? then Some(p.theo.value.formula) else None)
    case AdductField => Text(if p.theo.Some? then p.theo.value.adduct else None)
    case SmilesField => Text(if p.theo.Some? then Some(p.theo.value.smiles) else None)
    case TheoMassField(c) => Num(TheoNum(p, c))
    case ExpMassField(c) => Num(ExpNum(p, c))
    case CompoundField => Text(if p.exp.Some? then Some(p.exp.value.compound) else None)
    case ErrorField => Num(Some(err))
  }

  /** `row` shows the pairing `p` and the error `err`, field by field. */
  predicate RowShows(fields: seq<Field>, row: seq<Cell>, p: Pairing, err: real) {
    |row| == |fields| && forall j :: 0 <= j < |row| ==> row[j] == CellFor(fields[j], p, err)
  }

  /** The cells of one output row, in the mode's column order. */
  function RowCells(mode: Mode, p: Pairing, err: real): (r: seq<Cell>)
    ensures RowShows(Fields(mode), r, p, err)
  {
    var name := Text(if p.theo.Some? then Some(p.theo.value.name) else None);
    var formula := Text(if p.theo.Some? then Some(p.theo.value.formula) else None);
    var compound := Text(if p.exp.Some? then Some(p.exp.value.compound) else None);
    match mode
    case MonoisotopicMode =>
      [name, formula, Num(TheoNum(p, MonoisotopicColumn)), Num(ExpNum(p, NeutralMassColumn)),
       compound, Num(Some(err))]
    case AdductMode =>
      [name, formula, Num(TheoNum(p, AdductMassColumn)), Num(ExpNum(p, MzColumn)),
       Text(if p.theo.Some? then p.theo.value.adduct else None), compound,
       Text(if p.theo.Some? then Some(p.theo.value.smiles) else None), Num(Some(err))]
  }

  /** A row that shows an error carries it in its last cell, under the error column. */
  lemma ErrorCellLast(mode: Mode, row: seq<Cell>, p: Pairing, err: real)
    requires RowShows(Fields(mode), row, p, err)
    ensures |row| == |Columns(mode)|
    ensures row[|row| - 1] == Num(Some(err))
  {
    FieldsLabelColumns(mode);
    assert Fields(mode)[|row| - 1] == ErrorField;
  }

  /** The paired rows with the error column attached row by row. */
  function BuildTable(mode: Mode, pairs: seq<Pairing>, errs: seq<real>): (r: Table)
    requires |pairs| == |errs|
    ensures r.columns == Columns(mode)
    ensures |r.rows| == |pairs|
    ensures forall k :: 0 <= k < |r.rows| ==> RowShows(Fields(mode), r.rows[k], pairs[k], errs[k])
  {
    Table(Columns(mode), seq(|pairs|, k requires 0 <= k < |pairs| => RowCells(mode, pairs[k], errs[k])))
  }

  // ------------------------------------------------------------ one group

  /** Everything a call fixes before it walks the theoretical masses. */
  datatype Query = Query(
    theo: seq<TheoRow>,
    exp: seq<ExpRow>,
    theoColumn: TheoMassColumn,
    expColumn: ExpMassColumn,
    mode: Mode,
    pool: seq<Option<real>>,
    tol: real)

  /** The paired rows of the group for a theoretical mass `t` with hits `hits`. */
  function GroupRows(q: Query, t: real, hits: seq<real>): seq<Pairing> {
    Pair(TheoSide(q.theo, q.theoColumn, t, q.mode), ExpSide(q.exp, q.expColumn, hits, q.mode))
  }

  /** The outcome for one theoretical mass: nothing when it has no hits, its
      table otherwise, or a failure when the error column does not fit. */
  function Group(q: Query, t: Option<real>): (r: Result<Option<Table>, Error>)
    ensures HitsOf(q.pool, t, q.tol) == [] <==> r == Success(None)
    ensures r.Failure? <==>
      var hits := HitsOf(q.pool, t, q.tol);
      hits != [] && |GroupRows(q, t.value, hits)| != |hits|
    ensures r.Failure? ==>
      var hits := HitsOf(q.pool, t, q.tol);
      && hits != []
      && r.error == LengthMismatch(|GroupRows(q, t.value, hits)|, |hits|)
      && |GroupRows(q, t.value, hits)| != |hits|
    ensures r.Success? && r.value.Some? ==>
      && r.value.value.columns == Columns(q.mode)
      && |r.value.value.rows| == |HitsOf(q.pool, t, q.tol)|
  {
    var hits := HitsOf(q.pool, t, q.tol);
    if hits == [] then Success(None)
    else
      var pairs := GroupRows(q, t.value, hits);
      var errs := ErrorColumn(hits, t.value);
      if |pairs| != |errs| then Failure(LengthMismatch(|pairs|, |errs|))
      else Success(Some(BuildTable(q.mode, pairs, errs)))
  }

  // ------------------------------------------------------------ the whole call

  /** The outcome for the mass a theoretical row carries in the matched column. */
  function RowOutcome(q: Query, row: TheoRow): (r: Result<Option<Table>, Error>)
    ensures r.Success? && r.value.Some? ==> r.value.value.columns == Columns(q.mode)
  {
    Group(q, TheoMass(row, q.theoColumn))
  }

  /** The outcome of every theoretical row, in row order. */
  function Outcomes(q: Query, rows: seq<TheoRow>): (r: seq<Result<Option<Table>, Error>>)
    ensures |r| == |rows|
    ensures forall k :: 0 <= k < |rows| ==> r[k] == RowOutcome(q, rows[k])
    ensures forall x: Table :: Success(Some(x)) in r ==> x.columns == Columns(q.mode)
  {
    seq(|rows|, k requires 0 <= k < |rows| => RowOutcome(q, rows[k]))
  }

  /** The tables among the outcomes, in order, dropping the empty ones; the
      first failure instead, if there is one. */
  function Gather(outs: seq<Result<Option<Table>, Error>>): (r: Result<seq<Table>, Error>)
    ensures r.Success? <==> forall o :: o in outs ==> o.Success?
    ensures r.Failure? ==> Failure(r.error) in outs
    ensures r.Success? ==> |r.value| <= |outs|
    ensures r.Success? ==> forall x :: x in r.value ==> Success(Some(x)) in outs
  {
    if outs == [] then Success([])
    else
      var rest := Gather(outs[1..]);
      assert forall o :: o in outs <==> o == outs[0] || o in outs[1..];
      if outs[0].Failure? then Failure(outs[0].error)
      else if rest.Failure? then rest
      else if outs[0].value.None? then rest
      else Success([outs[0].value.value] + rest.value)
  }

  /** The matcher. The experimental column is resolved first, then the
      theoretical one; each theoretical row's mass is matched in table order. */
  function MassAccuracy(theo: seq<TheoRow>, exp: seq<ExpRow>, theoColumnName: string,
                        expColumnName: string, tol: real): (r: Result<seq<Table>, Error>)
    ensures ParseExpColumn(expColumnName).None? ==> r == Failure(MissingColumn(expColumnName))
    ensures ParseExpColumn(expColumnName).Some? && ParseTheoColumn(theoColumnName).None? ==>
      r == Failure(MissingColumn(theoColumnName))
    ensures r.Success? ==> |r.value| <= |theo|
    ensures r.Success? ==> forall k :: 0 <= k < |r.value| ==>
      r.value[k].columns ==
        if theoColumnName == MonoisotopicName
        then ["Name", "Formula", "Monoisotopic_mass", "Neutral mass (Da)", "Compound", "error_ppm"]
        else ["Name", "Formula", "adduct mass", "m/z", "adduct", "Compound", "smiles", "error_ppm"]
  {
    var pool :- Pool(exp, expColumnName);
    match ParseTheoColumn(theoColumnName)
    case None => Failure(MissingColumn(theoColumnName))
    case Some(tc) =>
      var q := Query(theo, exp, tc, ParseExpColumn(expColumnName).value, ModeOf(theoColumnName), pool, tol);
      Gather(Outcomes(q, theo))
  }
}
