/**
 * The report record (Report.kt): one geotagged litter sighting.
 *
 * Six fields are read-only (`val`), so in Dafny they are fields of an immutable
 * datatype; the seventh, `status`, is a `var` in the source and is only ever changed
 * through `WithStatus`, which builds the report with a new status and the same six
 * other fields.
 */
module ReportModel {

  /**
   * A latitude or longitude. The source keeps a Kotlin `Double` and does no arithmetic,
   * rounding or range check on it, it only copies it; the model keeps the 64-bit IEEE 754
   * pattern of that Double as an integer, which is all that copying needs.
   */
  datatype Degrees = Degrees(bits: int)

  /** The coordinate a fresh report screen starts from (`0.0`, whose bit pattern is 0). */
  const Zero: Degrees := Degrees(0)

  const Pending: string := "Pending"
  const Finished: string := "Finished"

  /** The seven fields, in the order of the Kotlin primary constructor. */
  datatype Report = Report(
    id: int,
    latitude: Degrees,
    longitude: Degrees,
    photoUri: string,
    description: string,
    trashType: string,
    status: string)

  /**
   * A report built without an explicit status: Kotlin's default argument
   * `status: String = "Pending"`.
   */
  function NewReport(id: int, latitude: Degrees, longitude: Degrees,
                     photoUri: string, description: string, trashType: string): (r: Report)
    ensures r.status == Pending
    ensures r.id == id && r.latitude == latitude && r.longitude == longitude
    ensures r.photoUri == photoUri && r.description == description && r.trashType == trashType
  {
    Report(id, latitude, longitude, photoUri, description, trashType, Pending)
  }

  /** The report after `report.status = status`; nothing else about it changes. */
  function WithStatus(r: Report, status: string): (r': Report)
    ensures r'.status == status
    ensures r'.id == r.id && r'.latitude == r.latitude && r'.longitude == r.longitude
    ensures r'.photoUri == r.photoUri && r'.description == r.description
    ensures r'.trashType == r.trashType
  {
    r.(status := status)
  }

  /** Setting the status the report already has changes nothing. */
  lemma WithSameStatus(r: Report)
    ensures WithStatus(r, r.status) == r
  {
  }

  /**
   * Data-class equality: two reports are equal exactly when all seven fields are.
   * `MutableList.remove(report)` relies on this.
   */
  lemma ReportEquality(a: Report, b: Report)
    ensures a == b <==>
      a.id == b.id && a.latitude == b.latitude && a.longitude == b.longitude &&
      a.photoUri == b.photoUri && a.description == b.description &&
      a.trashType == b.trashType && a.status == b.status
  {
  }
}
