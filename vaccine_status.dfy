/** The status rule of the frontend vaccine service: a record is completed
    when it names no next due date, overdue when that date lies before today,
    and pending otherwise. Dates arrive as strings; `parse` stands for
    `new Date(string)` and returns `None` for an invalid date. */
module VaccineStatusRule {
  import opened Common
  import opened VaccineModel

  /** A vaccination as the frontend receives it, with dates as strings. */
  datatype VaccineData = VaccineData(
    name: string,
    date: string,
    provider: Option<string>,
    batchNumber: Option<string>,
    nextDueDate: Option<string>)

  /** `!vaccine.nextDueDate`: the property is missing or the empty string. */
  predicate NoDueDate(vaccine: VaccineData) {
    vaccine.nextDueDate.None? || vaccine.nextDueDate.value == ""
  }

  /** `nextDueDate < today`. An invalid date converts to NaN, and every
      comparison with NaN is false. */
  predicate DueBefore(vaccine: VaccineData, today: Millis, parse: string -> Option<Millis>)
    requires !NoDueDate(vaccine)
  {
    match parse(vaccine.nextDueDate.value)
    case None => false
    case Some(due) => due < today
  }

  /** `determineVaccineStatus(vaccine)` evaluated at time `today`. */
  function DetermineVaccineStatus(vaccine: VaccineData, today: Millis, parse: string -> Option<Millis>): (s: VaccineStatus)
    ensures s == Completed <==> NoDueDate(vaccine)
    ensures s == Overdue <==> !NoDueDate(vaccine) && DueBefore(vaccine, today, parse)
    ensures s == Pending <==> !NoDueDate(vaccine) && !DueBefore(vaccine, today, parse)
  {
    if NoDueDate(vaccine) then Completed
    else
      var nextDueDate := parse(vaccine.nextDueDate.value);
      if nextDueDate.Some? && nextDueDate.value < today then Overdue
      else Pending
  }

  /** A parsed due date strictly before today is overdue; on or after today, pending. */
  lemma StatusOfParsedDate(vaccine: VaccineData, today: Millis, parse: string -> Option<Millis>, due: Millis)
    requires vaccine.nextDueDate.Some? && vaccine.nextDueDate.value != ""
    requires parse(vaccine.nextDueDate.value) == Some(due)
    ensures DetermineVaccineStatus(vaccine, today, parse) == (if due < today then Overdue else Pending)
  {
  }

  /** An invalid due date is never overdue: the record stays pending. */
  lemma InvalidDueDateIsPending(vaccine: VaccineData, today: Millis, parse: string -> Option<Millis>)
    requires vaccine.nextDueDate.Some? && vaccine.nextDueDate.value != ""
    requires parse(vaccine.nextDueDate.value).None?
    ensures DetermineVaccineStatus(vaccine, today, parse) == Pending
  {
  }

  /** The date of the vaccination itself plays no part. */
  lemma StatusIgnoresVaccinationDate(vaccine: VaccineData, date: string, today: Millis, parse: string -> Option<Millis>)
    ensures DetermineVaccineStatus(vaccine.(date := date), today, parse) == DetermineVaccineStatus(vaccine, today, parse)
  {
  }

  /** As today moves later, a pending record can become overdue, never the
      other way round, and a completed one stays completed. */
  lemma StatusMonotoneInToday(vaccine: VaccineData, earlier: Millis, later: Millis, parse: string -> Option<Millis>)
    requires earlier <= later
    ensures DetermineVaccineStatus(vaccine, earlier, parse) == Overdue ==> DetermineVaccineStatus(vaccine, later, parse) == Overdue
    ensures DetermineVaccineStatus(vaccine, later, parse) == Pending ==> DetermineVaccineStatus(vaccine, earlier, parse) == Pending
    ensures DetermineVaccineStatus(vaccine, earlier, parse) == Completed <==> DetermineVaccineStatus(vaccine, later, parse) == Completed
  {
  }
}
