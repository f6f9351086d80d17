/** The release-year check of a title. The wall clock is not modelled: the current
    year is a parameter. */
module Validators {

  /** The outcome of the check: nothing, or an error carrying the offending value. */
  datatype YearCheck = Accepted | Rejected(value: int)

  function YearValidator(value: int, currentYear: int): (r: YearCheck)
    ensures r.Rejected? ==> r.value == value
  {
    if value < 1 || value > currentYear then Rejected(value) else Accepted
  }

  /** The accepted years are exactly 1 up to and including the current year. */
  lemma AcceptedRange(value: int, currentYear: int)
    ensures YearValidator(value, currentYear).Accepted? <==> 1 <= value <= currentYear
  {
  }

  /** Year 0 and every negative year are rejected. */
  lemma NonPositiveRejected(value: int, currentYear: int)
    requires value <= 0
    ensures YearValidator(value, currentYear) == Rejected(value)
  {
  }

  /** The current year itself passes; the next one does not. */
  lemma CurrentYearBoundary(currentYear: int)
    requires currentYear >= 1
    ensures YearValidator(currentYear, currentYear) == Accepted
    ensures YearValidator(currentYear + 1, currentYear) == Rejected(currentYear + 1)
  {
  }

  /** A year accepted now is accepted in every later year: validity only grows with time. */
  lemma AcceptanceIsKept(value: int, now: int, later: int)
    requires now <= later && YearValidator(value, now).Accepted?
    ensures YearValidator(value, later).Accepted?
  {
  }
}
