/** The stored vaccination record of the backend, with its dates as
    millisecond timestamps. */
module VaccineModel {
  import opened Common

  /** A point in time: milliseconds since the Unix epoch, as `Date.getTime()` returns. */
  type Millis = int

  /** The three states a stored record can be in. */
  datatype VaccineStatus = Completed | Pending | Overdue

  /** One vaccination of one user. */
  datatype VaccineRecord = VaccineRecord(
    userId: string,
    name: string,
    date: Millis,
    status: VaccineStatus,
    certificate: Option<string>,
    nextDueDate: Option<Millis>,
    provider: Option<string>,
    batchNumber: Option<string>,
    createdAt: Millis,
    updatedAt: Millis)
}
