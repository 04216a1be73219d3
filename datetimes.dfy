/** Naive calendar timestamps, compared the way Python compares `datetime` values. */
module DateTimes {

  datatype DateTime = DateTime(
    year: int, month: int, day: int,
    hour: int, minute: int, second: int, microsecond: int)

  /** `a <= b`: field-by-field comparison, most significant field first. */
  predicate NotAfter(a: DateTime, b: DateTime)
  {
    if a.year != b.year then a.year < b.year
    else if a.month != b.month then a.month < b.month
    else if a.day != b.day then a.day < b.day
    else if a.hour != b.hour then a.hour < b.hour
    else if a.minute != b.minute then a.minute < b.minute
    else if a.second != b.second then a.second < b.second
    else a.microsecond <= b.microsecond
  }

  /** `a < b`. */
  predicate Before(a: DateTime, b: DateTime)
  {
    NotAfter(a, b) && a != b
  }

  /** The order is total ... */
  lemma NotAfterTotal(a: DateTime, b: DateTime)
    ensures NotAfter(a, b) || NotAfter(b, a)
  {
  }

  /** ... transitive ... */
  lemma NotAfterTransitive(a: DateTime, b: DateTime, c: DateTime)
    requires NotAfter(a, b) && NotAfter(b, c)
    ensures NotAfter(a, c)
  {
  }

  /** ... and antisymmetric. */
  lemma NotAfterAntisymmetric(a: DateTime, b: DateTime)
    requires NotAfter(a, b) && NotAfter(b, a)
    ensures a == b
  {
  }
}
