/** Worked inputs for the matcher, each checked against the model. */
module MatcherExamples {
  import opened Wrappers
  import opened Tables
  import opened Ppm
  import opened Matcher

  /** A theoretical compound whose monoisotopic and adduct masses are both `mass`. */
  function TheoCompound(name: string, mass: real): TheoRow {
    TheoRow(name, "C6H12O6", Some(mass), Some("[M+H]+"), Some(mass), "OCC1OC(O)C(O)C(O)C1O")
  }

  /** A feature that is unannotated and has fragmentation data. */
  function Feature(name: string, neutral: real): ExpRow {
    ExpRow(name, Some(neutral), None, None, Some("yes"))
  }

  // ------------------------------------------------ one hit at the defaults

  const A := TheoCompound("A", 100.0)
  const B := TheoCompound("B", 250.5)
  const F1 := Feature("F1", 100.0004)
  const F2 := Feature("F2", 300.0)
  const Pool1: seq<Option<real>> := [Some(100.0004), Some(300.0)]
  const Query1 := Query([A, B], [F1, F2], MonoisotopicColumn, NeutralMassColumn, MonoisotopicMode, Pool1, 5.0)
  const Table1 := Table(Columns(MonoisotopicMode),
    [[Text(Some("A")), Text(Some("C6H12O6")), Num(Some(100.0)), Num(Some(100.0004)), Text(Some("F1")), Num(Some(4.0))]])

  lemma Pool1Hits()
    ensures Pool([F1, F2], DefaultExpColumn) == Success(Pool1)
    ensures Hits(Pool1, 100.0, 5.0) == [100.0004]
    ensures Hits(Pool1, 250.5, 5.0) == []
  {
    assert [F1, F2][1..] == [F2];
    assert EligibleMasses([F2]) == [Some(300.0)];
    assert EligibleMasses([F1, F2]) == Pool1;
    assert Hits(Pool1[1..], 100.0, 5.0) == [];
    assert Hits(Pool1[1..], 250.5, 5.0) == [];
  }

  lemma Query1Sides()
    ensures TheoSide([A, B], MonoisotopicColumn, 100.0, MonoisotopicMode) == [A]
    ensures ExpSide([F1, F2], NeutralMassColumn, [100.0004], MonoisotopicMode) == [F1]
  {
    assert SelectTheo([B], MonoisotopicColumn, 100.0) == [];
    assert SelectTheo([A, B], MonoisotopicColumn, 100.0) == [A];
    assert SelectExp([F2], NeutralMassColumn, [100.0004]) == [];
    assert SelectExp([F1, F2], NeutralMassColumn, [100.0004]) == [F1];
  }

  /** 1e6 * 0.0004 / 100.0004 is 3.99998..., shown as 4.00. */
  lemma FourPpm()
    ensures ErrorColumn([100.0004], 100.0) == [4.0]
  {
  }

  lemma Query1Rows()
    ensures GroupRows(Query1, 100.0, [100.0004]) == [Pairing(Some(A), Some(F1))]
  {
    Query1Sides();
  }

  lemma Table1Built()
    ensures BuildTable(MonoisotopicMode, [Pairing(Some(A), Some(F1))], [4.0]) == Table1
  {
  }

  lemma Query1Hit()
    ensures Group(Query1, Some(100.0)) == Success(Some(Table1))
  {
    Pool1Hits();
    FourPpm();
    Query1Rows();
    Table1Built();
  }

  lemma Query1Miss()
    ensures Group(Query1, Some(250.5)) == Success(None)
  {
    Pool1Hits();
  }

  lemma Query1Outcomes()
    ensures Outcomes(Query1, [A, B]) == [Success(Some(Table1)), Success(None)]
  {
    Query1Hit();
    Query1Miss();
  }

  lemma Query1Gathered()
    ensures Gather([Success(Some(Table1)), Success(None)]) == Success([Table1])
  {
    var outs: seq<Result<Option<Table>, Error>> := [Success(Some(Table1)), Success(None)];
    assert outs[1..][1..] == [];
    assert Gather(outs[1..]) == Success([]);
    assert [Table1] + [] == [Table1];
  }

  lemma Query1Built()
    ensures MassAccuracy([A, B], [F1, F2], DefaultTheoColumn, DefaultExpColumn, DefaultTolerance)
         == Gather(Outcomes(Query1, [A, B]))
  {
    Pool1Hits();
  }

  /** Theoretical masses 100 and 250.5 against eligible features at 100.0004
      and 300 with the default column names and tolerance: 100.0004 is 4 ppm
      from 100, so 100 yields one table with error 4.00; 250.5 has no feature
      within 5 ppm and yields nothing. */
  lemma SingleHitAtDefaults()
    ensures MassAccuracy([A, B], [F1, F2], DefaultTheoColumn, DefaultExpColumn, DefaultTolerance)
         == Success([Table1])
  {
    Query1Built();
    Query1Outcomes();
    Query1Gathered();
  }

  // ------------------------------------ positional pairing on the m/z column

  function MzFeature(name: string, mz: real): ExpRow {
    ExpRow(name, None, Some(mz), None, None)
  }

  const C := TheoCompound("C", 100.0)
  const M1 := MzFeature("M1", 100.0004)
  const M2 := MzFeature("M2", 99.9999)
  const Pool2: seq<Option<real>> := [Some(100.0004), Some(99.9999)]
  const Query2 := Query([C], [M1, M2], AdductMassColumn, MzColumn, AdductMode, Pool2, 5.0)
  const Table2 := Table(Columns(AdductMode), [
    [Text(Some("C")), Text(Some("C6H12O6")), Num(Some(100.0)), Num(Some(99.9999)),
     Text(Some("[M+H]+")), Text(Some("M2")), Text(Some("OCC1OC(O)C(O)C(O)C1O")), Num(Some(4.0))],
    [Text(None), Text(None), Num(None), Num(Some(100.0004)),
     Text(None), Text(Some("M1")), Text(None), Num(Some(1.0))]])

  lemma Pool2Hits()
    ensures Pool([M1, M2], MzName) == Success(Pool2)
    ensures Hits(Pool2, 100.0, 5.0) == [100.0004, 99.9999]
  {
    assert ColumnValues([M1, M2], MzColumn) == Pool2;
    assert Hits(Pool2[1..][1..], 100.0, 5.0) == [];
    assert Hits(Pool2[1..], 100.0, 5.0) == [99.9999];
  }

  lemma Query2TheoSide()
    ensures TheoSide([C], AdductMassColumn, 100.0, AdductMode) == [C]
  {
  }

  lemma Query2Sorted()
    ensures Sorting.SortByKey([M1, M2], ExpKey(AdductMode)) == [M2, M1]
  {
  }

  lemma Query2ExpSide()
    ensures ExpSide([M1, M2], MzColumn, [100.0004, 99.9999], AdductMode) == [M2, M1]
  {
    assert SelectExp([M2], MzColumn, [100.0004, 99.9999]) == [M2];
    assert SelectExp([M1, M2], MzColumn, [100.0004, 99.9999]) == [M1, M2];
    Query2Sorted();
  }

  /** 1e6 * 0.0001 / 99.9999 is 1.000001..., shown as 1.00. */
  lemma OnePpm()
    ensures Round2(Deviation(99.9999, 100.0)) == 1.0
    ensures ErrorColumn([100.0004, 99.9999], 100.0) == [4.0, 1.0]
  {
    assert Round2(Deviation(100.0004, 100.0)) == 4.0;
  }

  lemma Table2Built()
    ensures BuildTable(AdductMode, [Pairing(Some(C), Some(M2)), Pairing(None, Some(M1))], [4.0, 1.0]) == Table2
  {
  }

  lemma Pair2()
    ensures Pair([C], [M2, M1]) == [Pairing(Some(C), Some(M2)), Pairing(None, Some(M1))]
  {
  }

  lemma Query2Rows()
    ensures GroupRows(Query2, 100.0, [100.0004, 99.9999]) == [Pairing(Some(C), Some(M2)), Pairing(None, Some(M1))]
  {
    Query2TheoSide();
    Query2ExpSide();
    Pair2();
  }

  lemma Query2Hit()
    ensures Group(Query2, Some(100.0)) == Success(Some(Table2))
  {
    Pool2Hits();
    OnePpm();
    Query2Rows();
    Table2Built();
  }

  lemma Query2Outcomes()
    ensures Outcomes(Query2, [C]) == [Success(Some(Table2))]
  {
    Query2Hit();
  }

  lemma Query2Gathered()
    ensures Gather([Success(Some(Table2))]) == Success([Table2])
  {
    var outs: seq<Result<Option<Table>, Error>> := [Success(Some(Table2))];
    assert outs[1..] == [];
    assert [Table2] + [] == [Table2];
  }

  lemma Query2Built()
    ensures MassAccuracy([C], [M1, M2], AdductMassName, MzName, 5.0) == Gather(Outcomes(Query2, [C]))
  {
    Pool2Hits();
  }

  /** One theoretical compound at adduct mass 100 against m/z features at
      100.0004 and 99.9999, both within 5 ppm. The experimental side is sorted
      (99.9999 first) while the errors keep pool order (100.0004 first), and
      the theoretical side has one row for two experimental rows. So the first
      row shows 99.9999, whose deviation rounds to 1.00 (OnePpm), next to the
      error 4.00 of 100.0004. The second row has no theoretical row: it shows
      M1 at 100.0004 with the error 1.00, and its Name, Formula, adduct mass,
      adduct and smiles cells are empty. */
  lemma MisalignedPairing()
    ensures MassAccuracy([C], [M1, M2], AdductMassName, MzName, 5.0) == Success([Table2])
  {
    Query2Built();
    Query2Outcomes();
    Query2Gathered();
  }

  // ------------------------------------ the length check on the error column

  /** A feature that already carries an annotation. */
  function Annotated(name: string, neutral: real): ExpRow {
    ExpRow(name, Some(neutral), None, Some("HMDB0000122"), Some("yes"))
  }

  const F3 := Annotated("F3", 100.0004)
  const Pool3: seq<Option<real>> := [Some(100.0004)]
  const Query3 := Query([A], [F1, F3], MonoisotopicColumn, NeutralMassColumn, MonoisotopicMode, Pool3, 5.0)

  lemma Pool3Hits()
    ensures Pool([F1, F3], DefaultExpColumn) == Success(Pool3)
    ensures Hits(Pool3, 100.0, 5.0) == [100.0004]
  {
    assert [F1, F3][1..] == [F3];
    assert [F3][1..] == [];
    assert EligibleMasses([F3]) == [];
    assert EligibleMasses([F1, F3]) == [F1.neutralMass] + EligibleMasses([F3]);
    assert [F1.neutralMass] + [] == Pool3;
    assert EligibleMasses([F1, F3]) == Pool3;
  }

  lemma Query3Sides()
    ensures |TheoSide([A], MonoisotopicColumn, 100.0, MonoisotopicMode)| == 1
    ensures |ExpSide([F1, F3], NeutralMassColumn, [100.0004], MonoisotopicMode)| == 2
  {
    assert SelectTheo([A], MonoisotopicColumn, 100.0) == [A];
    assert SelectExp([F3], NeutralMassColumn, [100.0004]) == [F3];
    assert SelectExp([F1, F3], NeutralMassColumn, [100.0004]) == [F1, F3];
  }

  lemma Query3Fails()
    ensures Group(Query3, Some(100.0)) == Failure(LengthMismatch(2, 1))
  {
    Pool3Hits();
    Query3Sides();
  }

  lemma Query3Outcomes()
    ensures Outcomes(Query3, [A]) == [Failure(LengthMismatch(2, 1))]
  {
    Query3Fails();
  }

  lemma Query3Built()
    ensures MassAccuracy([A], [F1, F3], DefaultTheoColumn, DefaultExpColumn, DefaultTolerance)
         == Gather(Outcomes(Query3, [A]))
  {
    Pool3Hits();
  }

  /** The annotated feature F3 is kept out of the pool, but it shares the
      hit's mass 100.0004, so the experimental side, re-selected by value from
      the whole table, holds both F1 and F3: two paired rows for one error
      value, and the call fails. */
  lemma AnnotatedTwinFails()
    ensures MassAccuracy([A], [F1, F3], DefaultTheoColumn, DefaultExpColumn, DefaultTolerance)
         == Failure(LengthMismatch(2, 1))
  {
    Query3Built();
    Query3Outcomes();
  }

  const A2 := TheoCompound("A2", 100.0)
  const M3 := MzFeature("M3", 100.0004)
  const Query4 := Query([A, A2], [M3], AdductMassColumn, MzColumn, AdductMode, Pool3, 5.0)

  lemma Query4Sides()
    ensures |TheoSide([A, A2], AdductMassColumn, 100.0, AdductMode)| == 2
    ensures |ExpSide([M3], MzColumn, [100.0004], AdductMode)| == 1
  {
    assert SelectTheo([A2], AdductMassColumn, 100.0) == [A2];
    assert SelectTheo([A, A2], AdductMassColumn, 100.0) == [A, A2];
    assert SelectExp([M3], MzColumn, [100.0004]) == [M3];
  }

  lemma Query4Fails()
    ensures Group(Query4, Some(100.0)) == Failure(LengthMismatch(2, 1))
  {
    Pool3Hits();
    Query4Sides();
  }

  lemma Query4Built()
    ensures MassAccuracy([A, A2], [M3], AdductMassName, MzName, 5.0) == Gather(Outcomes(Query4, [A, A2]))
  {
    assert ColumnValues([M3], MzColumn) == Pool3;
  }

  /** Two compounds with the same adduct mass 100 and one m/z feature within
      tolerance: the theoretical side, selected by value, holds both
      compounds, so there are two paired rows for one error value, and the
      call fails. */
  lemma DuplicateMassFails()
    ensures MassAccuracy([A, A2], [M3], AdductMassName, MzName, 5.0) == Failure(LengthMismatch(2, 1))
  {
    Query4Built();
    Query4Fails();
    assert Outcomes(Query4, [A, A2])[0] == Failure(LengthMismatch(2, 1));
  }
}
