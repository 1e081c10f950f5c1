/**
 * The rows that flow between the stages of the pipeline, one datatype per
 * table. Every table is keyed by the MSOA code `msoa`.
 */
module Records {
  import opened Base

  /** A row of black_population.csv as both census scripts write it. */
  datatype CountRow = CountRow(msoa: string, blackCount: int, population: int)

  /** Boundary geometry: passed through every stage unchanged and never inspected. */
  datatype Geometry = Geometry(wkt: string)

  /** A row of the boundary table after its code and name columns are renamed. */
  datatype Shape = Shape(msoa: string, msoaName: string, geometry: Geometry)

  /** A row of the income table; the income cell may be NaN. */
  datatype IncomeRow = IncomeRow(msoa: string, income: Option<real>)

  /** A row of the Black population table with its derived share. */
  datatype BlackRow = BlackRow(msoa: string, blackCount: int, population: int, blackShare: real)

  /** A row of the housing table after non-numeric prices are dropped. */
  datatype HousingRow = HousingRow(msoa: string, msoaFullName: string, medianHousePrice: real)

  /** A row of the merged table that has a share, an income and a price. */
  datatype AreaRecord = AreaRecord(
    msoa: string,
    msoaName: string,
    geometry: Geometry,
    income: real,
    blackCount: int,
    population: int,
    blackShare: real,
    msoaFullName: string,
    medianHousePrice: real)
}
