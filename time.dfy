/** DATETIME values as the visitors table stores them, split into a calendar
    date and the second of the day. The clock itself is not modelled: every
    operation that stamps a time receives "now" as a parameter. */
module Time {
  import opened Wrappers

  datatype Date = Date(year: int, month: int, day: int)

  /** A DATETIME value; `second` counts seconds since midnight. */
  datatype Stamp = Stamp(date: Date, second: int)

  /** Calendar order on dates (lexicographic on year, month, day). */
  predicate DateAtOrBefore(a: Date, b: Date) {
    a.year < b.year
    || (a.year == b.year && (a.month < b.month || (a.month == b.month && a.day <= b.day)))
  }

  /** Chronological order on DATETIME values. */
  predicate AtOrBefore(a: Stamp, b: Stamp) {
    (a.date != b.date && DateAtOrBefore(a.date, b.date))
    || (a.date == b.date && a.second <= b.second)
  }

  /** The order MySQL uses for a nullable DATETIME column: NULL sorts below
      every value, so `ORDER BY ... DESC` lists NULLs last. */
  predicate NullableAtOrBefore(a: Option<Stamp>, b: Option<Stamp>) {
    a.None? || (b.Some? && AtOrBefore(a.value, b.value))
  }

  /** `DATE(t) = d`; a NULL timestamp matches no date. */
  predicate OnDate(t: Option<Stamp>, d: Date) {
    t.Some? && t.value.date == d
  }

  /** `YEAR(t) = year AND MONTH(t) = month`; a NULL timestamp matches no month. */
  predicate InMonth(t: Option<Stamp>, year: int, month: int) {
    t.Some? && t.value.date.year == year && t.value.date.month == month
  }

  /** The nullable order is total and transitive, so sorting by it is well defined. */
  lemma NullableOrderIsTotal(a: Option<Stamp>, b: Option<Stamp>, c: Option<Stamp>)
    ensures NullableAtOrBefore(a, b) || NullableAtOrBefore(b, a)
    ensures NullableAtOrBefore(a, b) && NullableAtOrBefore(b, c) ==> NullableAtOrBefore(a, c)
    ensures NullableAtOrBefore(a, b) && NullableAtOrBefore(b, a) ==> a == b
  {
  }
}
