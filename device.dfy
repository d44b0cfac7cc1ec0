/** The records read from the attendance device. */
module Device {
  import opened Wrappers
  import opened Manila

  /** A user as the device lists it; `name` is "" when the device has none. */
  datatype User = User(userId: string, name: string)

  /**
   * An attendance record: who punched and when. `verifyType` is the record's
   * `type` field, "" when absent.
   */
  datatype Punch = Punch(deviceUserId: string, recordTime: Stamp, verifyType: string)

  /**
   * The Manila calendar date of an instant, in the year-month-day form of the
   * Canadian English locale, as a day number; None stands for an Invalid Date.
   */
  function LocalDate(t: Stamp): Option<int>
  {
    match t
    case Ms(ms) => Some(DayKey(ms))
    case NaN => None
  }

  /** The grouping key of a punch: its Manila date and its user. */
  datatype Key = Key(date: Option<int>, userId: string)

  function KeyOf(p: Punch): Key { Key(LocalDate(p.recordTime), p.deviceUserId) }
}
