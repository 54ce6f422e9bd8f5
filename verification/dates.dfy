/**
 * Timestamps of transactions. A timestamp is a calendar day number (the
 * proleptic ordinal of `datetime.date()`) plus the second within that day;
 * only the day enters the interest arithmetic, the full timestamp orders
 * the transactions.
 */
module Dates {

  const SecondsPerDay: int := 86400

  type SecondOfDay = s: int | 0 <= s < SecondsPerDay

  datatype DateTime = DateTime(day: int, second: SecondOfDay)

  /** The timestamp as one number, the key Python compares datetimes by. */
  function Instant(t: DateTime): int
  {
    t.day * SecondsPerDay + t.second
  }

  /** Ordering timestamps orders their calendar days: an earlier instant
      never falls on a later day. */
  lemma InstantOrdersDays(a: DateTime, b: DateTime)
    requires Instant(a) <= Instant(b)
    ensures a.day <= b.day
    ensures a.day == b.day ==> a.second <= b.second
  {
  }
}
