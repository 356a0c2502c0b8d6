# Mass-accuracy matching in Dafny

This project models `calculate_MassAccuracy` from the `chemometrics` package.
The function matches a table of theoretical compounds against a table of
experimental features. It works on each theoretical mass `t` in turn:

1. A **pool** of experimental masses is built. With the default experimental
   column "Neutral mass (Da)", the pool holds only features that are
   unannotated ("Accepted ID" empty), have fragmentation data ("MSMS info
   available" present) and have a neutral mass. With any other column, the
   pool is that whole column.
2. The **hits** are the pool values whose deviation `1e6 * |e - t| / |e|`
   lies strictly below the tolerance (5 ppm by default), kept in pool order.
3. A mass with no hits yields nothing. Otherwise a **group** table is built
   in four steps:
   - the theoretical rows whose mass equals `t` are sorted ascending;
   - the experimental rows whose mass is one of the hits are sorted ascending;
   - the two sides are put side by side position by position;
   - a column of ppm errors, rounded to two decimals, is attached.
4. The result is the list of groups, in theoretical row order.

The output columns depend on the theoretical column name. "Monoisotopic_mass"
gives `Name, Formula, Monoisotopic_mass, Neutral mass (Da), Compound, error_ppm`.
Any other name gives
`Name, Formula, adduct mass, m/z, adduct, Compound, smiles, error_ppm`.

Modelling choices:

- Masses are exact `real` numbers.
- Spreadsheet cells that may be empty are `Option`s.
- The hit test is cross-multiplied: `e != 0 && 1e6 * |e - t| < tol * |e|`.
  A zero experimental mass is never a hit. In the source its deviation is
  infinite or NaN, and the strict comparison rejects both.
- A column name the tables do not have becomes a `MissingColumn` failure. The
  experimental column is resolved first (line 123), then the theoretical one
  (line 151).
- The error column is assigned to a table whose row count is fixed by the
  pairing. When the two lengths differ, the assignment fails. This is
  modelled as `LengthMismatch`.
- The pairing is modelled exactly as written. The two sides are sorted
  independently and joined by position, so a row can show a compound next to
  a feature it was never matched with. The error column keeps pool order while
  the experimental rows are sorted. `MatcherExamples.MisalignedPairing` shows
  both effects on a concrete input.

Modules:

- `Wrappers`: `Option` and `Result`.
- `Seqs`: subsequences.
- `Sorting`: a stable ascending sort with empty cells last.
- `Tables`: the rows, column names and mass columns.
- `Ppm`: the deviation, the hit test and rounding.
- `Matcher`: the operation.
- `MatcherProperties`: lemmas that relate several calls or parts of a call.
- `MatcherExamples`: worked inputs with their proved outputs.

The model follows the code as written, apart from the differences listed
under "## Left out". The one that changes results most is the
`AttributeError` at line 129. The comment at line 119
states the intent of the default path: use only features that were not
annotated and have fragmentation data. The code applies that filter to the
pool only. It re-selects the experimental side by value from the whole
experimental table (lines 138 and 145), so an annotated feature is selected
whenever it shares a hit's mass. The model keeps that behaviour. It then proves
that on the default column, a group that is actually returned holds only
eligible features (`MatcherProperties.DefaultPathGroupRowsEligible`). Any extra
row would make the paired rows outnumber the error column, so the call fails
(`MatcherExamples.AnnotatedTwinFails`).

Inputs on the default column with at least one hit reach line 129, where the
source raises instead. So the default-column results below
(`SingleHitAtDefaults`, `AnnotatedTwinFails`, `DefaultPathGroupRowsEligible`)
describe the code with that line repaired. The m/z examples
(`MisalignedPairing`, `DuplicateMassFails`) run along lines the source really
executes.

## Model

| member | source | states |
|---|---|---|
| Matcher.EligibleRows | chemometrics/utils.py:118-121 | A row is kept iff it is in the table, unannotated, has fragmentation data and has a neutral mass. |
| MatcherProperties.EligibleRowsCount | chemometrics/utils.py:118-121 | Each eligible row is kept exactly as often as the table holds it, and no other row is kept. |
| MatcherProperties.EligibleRowsInOrder | chemometrics/utils.py:118-121 | The eligible rows keep their table order: they form a subsequence of the table. |
| Matcher.EligibleMasses | chemometrics/utils.py:118-121 | A neutral mass is in the default pool exactly when some row with that mass is unannotated, has fragmentation data and has a mass. Every pool entry is present, and the pool is no longer than the table. |
| MatcherProperties.PoolInColumnOrder | chemometrics/utils.py:118-121 | The default pool is the neutral-mass column with the ineligible rows deleted, in column order. |
| MatcherProperties.EligibleMassesCons | chemometrics/utils.py:118-121 | The default pool of a table is its first row's mass, when that row is eligible, followed by the pool of the remaining rows. |
| Matcher.Pool | chemometrics/utils.py:118-123 | On "Neutral mass (Da)" the pool always exists and holds one entry per eligible row, in the order of the eligible rows: entry k is the k-th eligible row's mass. It holds exactly the eligible rows' masses. On another name the pool exists iff the model's table has that column ("m/z"). It is then the whole column, row for row, nulls included. Otherwise the call fails with MissingColumn. |
| Ppm.Deviation | chemometrics/utils.py:126 | The ppm deviation of a nonzero experimental mass is never negative, and it is zero exactly when the two masses are equal. |
| Ppm.HitIffDeviationBelow | chemometrics/utils.py:126 | The cross-multiplied hit test holds iff the experimental mass is nonzero and its ppm deviation is strictly below the tolerance. |
| Ppm.NoHitAtNonPositiveTolerance | chemometrics/utils.py:126 | With a tolerance of zero or below, no mass is a hit, not even an exact match. |
| Ppm.HitMonotone | chemometrics/utils.py:126 | A hit at one tolerance is a hit at every larger tolerance. |
| Matcher.Hits | chemometrics/utils.py:126-129 | A value is a hit iff it is a present pool value passing the tolerance test. There are never more hits than pool entries. |
| MatcherProperties.HitsCount | chemometrics/utils.py:126-129 | A passing value occurs among the hits exactly as often as it occurs in the pool. A failing value does not occur at all. |
| Matcher.HitsOf | chemometrics/utils.py:125-126 | An empty theoretical cell (NaN) has no hits. For a present mass, every hit passes the tolerance test, and a value is a hit iff it is a present pool value that passes. |
| MatcherProperties.HitsInPoolOrder | chemometrics/utils.py:126-129 | The hits form a subsequence of the pool, so they keep pool order. |
| MatcherProperties.HitsMonotone | chemometrics/utils.py:126-129 | Raising the tolerance never removes a hit: the narrower hit list is a subsequence of the wider one. |
| MatcherProperties.NoHitsAtNonPositiveTolerance | chemometrics/utils.py:126-129 | With a tolerance of zero or below, no pool value is a hit. |
| Ppm.Round2 | chemometrics/utils.py:131-132 | Rounding to two decimals gives a multiple of 0.01 within 0.005 of the input. |
| Matcher.ErrorColumn | chemometrics/utils.py:131-132 | There is one error per hit, in hit order. Each is a two-decimal value within 0.005 of that hit's ppm deviation. |
| MatcherProperties.ErrorsWithinTolerance | chemometrics/utils.py:126-132 | Before rounding, every hit's deviation is below the tolerance, and its error entry is that deviation rounded. |
| Matcher.ModeOf | chemometrics/utils.py:135 | The Monoisotopic_mass layout is chosen exactly when the theoretical column name is "Monoisotopic_mass". |
| Sorting.SortByKey | chemometrics/utils.py:137 | The result is ascending on the key, with empty keys last, and is a permutation of the input. |
| Matcher.TheoSide | chemometrics/utils.py:136-137 | The theoretical side holds exactly the rows whose mass equals `t`, with multiplicity. It is ascending on the mode's theoretical mass column. |
| Matcher.ExpSide | chemometrics/utils.py:138-139 | The experimental side holds exactly the rows of the whole experimental table whose matched column holds a hit, with multiplicity. It is ascending on the mode's experimental column ("Neutral mass (Da)" or "m/z"). |
| Matcher.Pair | chemometrics/utils.py:140-141 | The positional pairing is as long as the longer side. |
| Matcher.PairAt | chemometrics/utils.py:140-141 | Position k of the pairing holds the k-th row of each side, or nothing once that side has run out. |
| MatcherProperties.PairKeepsTheoSide | chemometrics/utils.py:140-141 | Reading the theoretical rows back out of the pairing gives the theoretical side unchanged. |
| MatcherProperties.PairKeepsExpSide | chemometrics/utils.py:140-141 | Reading the experimental rows back out of the pairing gives the experimental side unchanged. |
| Matcher.Columns | chemometrics/utils.py:135-148 | Each layout starts with Name and Formula. Next come the name of the mode's theoretical mass column and the name of its experimental mass column. It contains Compound, ends with error_ppm, and names no column twice. |
| Tables.TheoColumnName | chemometrics/utils.py:135-144 | The name of each theoretical mass column resolves back to that column. |
| Tables.ExpColumnName | chemometrics/utils.py:138-146 | The name of each experimental mass column resolves back to that column. |
| Matcher.FieldsLabelColumns | chemometrics/utils.py:135-148 | Each output column carries the name of the field its cells come from: the theoretical row's name, formula, adduct, smiles or mass; the experimental row's compound or mass; or the error. |
| Matcher.RowCells | chemometrics/utils.py:140-149 | Every cell of an output row is filled from the side that owns its column. Name, Formula, adduct, smiles and the theoretical mass come from the theoretical row. Compound and the experimental mass come from the experimental row. A cell is empty where that side has no row, and the error column holds the row's error. |
| Matcher.BuildTable | chemometrics/utils.py:140-149 | The table has the mode's columns and one row per pairing. Row k shows pairing k and error k, cell by cell, as RowCells states. |
| Matcher.ErrorCellLast | chemometrics/utils.py:149 | A row showing an error has one cell per column, and its last cell, under error_ppm, is that error. |
| Matcher.Group | chemometrics/utils.py:125-150 | A mass yields nothing iff it has no hits. It fails iff it has hits and the paired rows and the error column differ in length, and the failure reports both lengths. A returned table has the mode's columns and one row per hit. |
| MatcherProperties.GroupTableLayout | chemometrics/utils.py:136-149 | A group has one row per hit, as many as its longer side. Row k shows the k-th sorted theoretical row and the k-th sorted experimental row, cell by cell, with the k-th error. So each Name sits next to its own theoretical mass and each Compound next to its own experimental mass, but nothing ties the two rows of a line together. |
| MatcherProperties.GroupErrorCells | chemometrics/utils.py:126-149 | Row k's error cell is, to within 0.005, the deviation of the k-th hit in pool order, and that deviation is below the tolerance. |
| MatcherProperties.DefaultPathGroupRowsEligible | chemometrics/utils.py:118-149 | On the default column, every experimental row of a returned group is unannotated, has fragmentation data and has a mass. The source raises at line 129 before building such a group. |
| Matcher.Outcomes | chemometrics/utils.py:151 | There is one outcome per theoretical row, in row order. Every table among them has the mode's columns. |
| Matcher.Gather | chemometrics/utils.py:151-152 | The gathering succeeds iff every outcome does, and otherwise fails with one of the outcomes' failures. Every table kept comes from an outcome, and there are no more tables than outcomes. |
| MatcherProperties.GatherAppend | chemometrics/utils.py:151-152 | Gathering two runs of outcomes one after the other yields the first run's tables followed by the second's, or the first failure. |
| MatcherProperties.GatherKeepsEveryTable | chemometrics/utils.py:151-152 | On success, there is exactly one table per outcome holding one, so repeated masses give repeated tables. |
| MatcherProperties.GatherNothing | chemometrics/utils.py:151-152 | Outcomes that all hold nothing gather to an empty list. |
| MatcherProperties.GroupUnchangedByNoHitRow | chemometrics/utils.py:125-150 | Adding a theoretical row whose mass has no hits changes no group. |
| MatcherProperties.NoHitRowContributesNothing | chemometrics/utils.py:125-153 | Appending a theoretical row whose mass has no hits leaves the whole result unchanged. |
| MatcherProperties.NothingAtNonPositiveTolerance | chemometrics/utils.py:109-153 | With a tolerance of zero or below and both columns known, the result is an empty list. |
| Matcher.MassAccuracy | chemometrics/utils.py:109-153 | An unknown experimental column fails first, then an unknown theoretical column. A result has at most one table per theoretical row. Every table has the Monoisotopic_mass layout when the theoretical column is "Monoisotopic_mass", and the adduct layout otherwise. |
| Tables.ParseTheoColumn | chemometrics/utils.py:135-144 | The theoretical mass column names this model's table resolves are exactly "Monoisotopic_mass" and "adduct mass". |
| Tables.ParseExpColumn | chemometrics/utils.py:138-146 | The experimental mass column names this model's table resolves are exactly "Neutral mass (Da)" and "m/z". |
| MatcherExamples.SingleHitAtDefaults | chemometrics/utils.py:109-153 | With default arguments, a mass 4 ppm from a feature yields one table with error 4.00, and a mass with no feature within 5 ppm yields nothing. The source raises at line 129 on this input. |
| MatcherExamples.MisalignedPairing | chemometrics/utils.py:131-149 | With two m/z hits, the sorted experimental rows and the pool-ordered errors disagree. The first row shows 99.9999 beside the error 4.00 of 100.0004. The second row has no theoretical row: it shows M1 at 100.0004 with the error 1.00, and its Name, Formula, adduct mass, adduct and smiles cells are empty. |
| MatcherExamples.AnnotatedTwinFails | chemometrics/utils.py:118-149 | An annotated feature sharing a hit's mass is re-selected onto the experimental side, and the call fails with two rows for one error. The source raises at line 129 on this input, before it reaches that failure. |
| MatcherExamples.DuplicateMassFails | chemometrics/utils.py:143-149 | On the adduct mass and m/z columns, two compounds with the same mass and one hit give two rows for one error. The call fails at the assignment on line 149. |

## Left out

- `ConfusionMat_viz` and `ROC_AUC_viz` (chemometrics/utils.py:10-80): they only call metric and plotting libraries.
- `Read_MetRank_xls` (chemometrics/utils.py:83-106): spreadsheet file I/O. Tables are given as sequences of rows instead.
- setup.py: packaging metadata only.
- Floating point: masses are exact reals. NaN and infinity appear only as "an empty cell, or a zero experimental mass, is never a hit". IEEE rounding in the deviation and in `np.round` is not modelled.
- Ppm.Round2: rounds half to even on the exact value. NumPy rounds the float `x * 100`, which can differ on inputs that are not exactly representable. The contract states only the precision (a multiple of 0.01 within 0.005), not the tie rule.
- The `AttributeError` on the default path: there the pool is a NumPy array, which has no `.values` (line 129), so the source raises on any hit. The model proceeds as if the hit values were read out of the array.
- Sort stability: pandas' default quicksort is not stable. The model sorts stably, so rows with equal keys keep table order. Empty keys go last, as in pandas.
- Index alignment in `pd.concat`: both sides are reset to positions 0..n-1, so the join by index is modelled as a join by position.
- Column types: a non-numeric mass column and other pandas type errors are not modelled. Mass columns hold numbers or nothing, and text columns hold text.
- Tables.ParseTheoColumn: the source reads whatever theoretical column `colTheo_mass` names (lines 136-137, 143-144, 151), so any numeric column of the theoretical table can be matched on. The model's theoretical table has a fixed set of columns, so only "Monoisotopic_mass" and "adduct mass" resolve. Any other name is a MissingColumn failure, even when the real table has that column.
- Tables.ParseExpColumn: the source reads whatever experimental column `colExp_mass` names (lines 123, 138, 145), so any numeric column of the experimental table can be matched on. The model's experimental table has a fixed set of columns, so only "Neutral mass (Da)" and "m/z" resolve. Any other name is a MissingColumn failure, even when the real table has that column. The "any other experimental column" path (lines 122-123) is therefore modelled for "m/z" only.
- Columns the matcher never reads, such as further spreadsheet columns, are absent from the row types. The theoretical "Monoisotopic_mass" column is a field of every theoretical row. The adduct branch selects it and then drops it (lines 144 and 148), so a table without it would raise there. The model's rows always have it, so that KeyError is not modelled.
