/**
 * The records the widget passes between its components: weekdays, time
 * ranges and business-day records (src/lib/types/BusinessDay.type.ts,
 * src/lib/types/WithStringId.type.ts).
 */
module Types {

  datatype Option<+T> = None | Some(value: T)

  /** Client-generated opaque identifiers (`_id`, a UUID string in the program). */
  type Id = string

  /** A weekday, Monday = 1 ... Sunday = 7. */
  type Day = d: int | 1 <= d <= 7 witness 1

  /**
   * A time of day as the time pickers see it: `At(m)` is a valid time `m`
   * minutes after midnight, `Invalid` a value that the date library
   * reports as not valid.
   */
  datatype Clock = At(minute: int) | Invalid

  /**
   * One identified time range. `from` and `to` are absent (`None`) for a
   * freshly added range, whose only field is its id.
   */
  datatype TimeRange = TimeRange(id: Id, from: Option<Clock>, to: Option<Clock>)

  /** One weekly schedule entry: a set of weekdays sharing status and time ranges. */
  datatype BusinessDay = BusinessDay(id: Id, closed: bool, days: seq<Day>, timeRanges: seq<TimeRange>)

  /** No value occurs twice in `s`. */
  predicate NoDuplicates<T(==)>(s: seq<T>) {
    forall i, j :: 0 <= i < j < |s| ==> s[i] != s[j]
  }
}
