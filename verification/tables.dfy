/** The two input tables, the names of their columns, and the cells of a
    result table. Each input table is modelled with a fixed set of columns;
    a mass column name outside that set is a missing column. */
module Tables {
  import opened Wrappers

  const NeutralMassName := "Neutral mass (Da)"
  const MzName := "m/z"
  const MonoisotopicName := "Monoisotopic_mass"
  const AdductMassName := "adduct mass"
  const ErrorName := "error_ppm"

  /** The parameter defaults of the matcher: theoretical column, experimental column, tolerance. */
  const DefaultTheoColumn := MonoisotopicName
  const DefaultExpColumn := NeutralMassName
  const DefaultTolerance: real := 5.0

  /** One row of the theoretical compound table. */
  datatype TheoRow = TheoRow(
    name: string,
    formula: string,
    monoisotopicMass: Option<real>,
    adduct: Option<string>,
    adductMass: Option<real>,
    smiles: string)

  /** One row of the experimental feature table. `acceptedId` is the
      annotation ("Accepted ID"); `msmsInfo` says whether fragmentation data
      exist ("MSMS info available"). */
  datatype ExpRow = ExpRow(
    compound: string,
    neutralMass: Option<real>,
    mz: Option<real>,
    acceptedId: Option<string>,
    msmsInfo: Option<string>)

  /** The numeric columns of each table that can be matched on. */
  datatype TheoMassColumn = MonoisotopicColumn | AdductMassColumn
  datatype ExpMassColumn = NeutralMassColumn | MzColumn

  function ParseTheoColumn(name: string): (r: Option<TheoMassColumn>)
    ensures r == Some(MonoisotopicColumn) <==> name == MonoisotopicName
    ensures r == Some(AdductMassColumn) <==> name == AdductMassName
  {
    if name == MonoisotopicName then Some(MonoisotopicColumn)
    else if name == AdductMassName then Some(AdductMassColumn)
    else None
  }

  function ParseExpColumn(name: string): (r: Option<ExpMassColumn>)
    ensures r == Some(NeutralMassColumn) <==> name == NeutralMassName
    ensures r == Some(MzColumn) <==> name == MzName
  {
    if name == NeutralMassName then Some(NeutralMassColumn)
    else if name == MzName then Some(MzColumn)
    else None
  }

  function TheoMass(row: TheoRow, c: TheoMassColumn): Option<real> {
    match c
    case MonoisotopicColumn => row.monoisotopicMass
    case AdductMassColumn => row.adductMass
  }

  /** The name a theoretical mass column goes by; it resolves back to the column. */
  function TheoColumnName(c: TheoMassColumn): (r: string)
    ensures ParseTheoColumn(r) == Some(c)
  {
    match c
    case MonoisotopicColumn => MonoisotopicName
    case AdductMassColumn => AdductMassName
  }

  /** The name an experimental mass column goes by; it resolves back to the column. */
  function ExpColumnName(c: ExpMassColumn): (r: string)
    ensures ParseExpColumn(r) == Some(c)
  {
    match c
    case NeutralMassColumn => NeutralMassName
    case MzColumn => MzName
  }

  function ExpMass(row: ExpRow, c: ExpMassColumn): Option<real> {
    match c
    case NeutralMassColumn => row.neutralMass
    case MzColumn => row.mz
  }

  /** A row that may enter the default pool: not annotated, with fragmentation
      data, with a neutral mass. */
  predicate Eligible(row: ExpRow) {
    row.acceptedId.None? && row.msmsInfo.Some? && row.neutralMass.Some?
  }

  /** A cell of a result table; cells are empty where positional pairing ran
      past the end of one side. */
  datatype Cell = Num(num: Option<real>) | Text(text: Option<string>)

  datatype Table = Table(columns: seq<string>, rows: seq<seq<Cell>>)
}
