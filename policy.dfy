/**
 * The policy evaluator of the time-window strategy (`evaluateAttendance` in
 * server2.js): the remarks of one day record.
 */
module Policy {
  import opened Wrappers
  import opened Manila
  import opened Text

  /**
   * A day record of the time-window strategy. The four slots are "HH:MM:SS"
   * times of day (None is `null`); `date` is the Manila date string (None is
   * "Invalid Date"); `remarks` is absent (None) until the record is evaluated.
   */
  datatype DayRecord = DayRecord(
    date: Option<int>,
    username: string,
    checkIn: Option<SecondOfDay>,
    checkOut: Option<SecondOfDay>,
    breakOut: Option<SecondOfDay>,
    breakIn: Option<SecondOfDay>,
    remarks: Option<string>)

  const INCOMPLETE: string := "Incomplete attendance"
  const LATE_CHECK_IN: string := "Late check-in"
  const LEFT_EARLY: string := "Left early"
  const LATE_FROM_LUNCH: string := "Late from lunch break"
  const PRESENT: string := "Present"

  /** 08:15:00, the latest check-in that is on time. */
  const LATE_LIMIT: SecondOfDay := 29700
  /** 18:30:00, the earliest check-out that is not early. */
  const MIN_CHECKOUT: SecondOfDay := 66600
  const MAX_BREAK_MINUTES: real := 60.0

  predicate Complete(log: DayRecord)
  {
    log.checkIn.Some? && log.checkOut.Some? && log.breakOut.Some? && log.breakIn.Some?
  }

  /** The break lasted more than sixty minutes; false when either instant is invalid. */
  predicate LongBreak(breakOut: Stamp, breakIn: Stamp)
  {
    breakOut.Ms? && breakIn.Ms? && ((breakIn.ms - breakOut.ms) as real) / (MS_PER_MINUTE as real) > MAX_BREAK_MINUTES
  }

  /** The remarks pushed, in order, before the "Present" fallback. */
  function Remarks(log: DayRecord): seq<string>
  {
    if !Complete(log) then [INCOMPLETE]
    else
      var checkInTime := FormatDateTime(log.date, log.checkIn.value);
      var checkOutTime := FormatDateTime(log.date, log.checkOut.value);
      var breakOutTime := FormatDateTime(log.date, log.breakOut.value);
      var breakInTime := FormatDateTime(log.date, log.breakIn.value);
      var lateLimit := FormatDateTime(log.date, LATE_LIMIT);
      var minCheckout := FormatDateTime(log.date, MIN_CHECKOUT);
      (if Gt(checkInTime, lateLimit) then [LATE_CHECK_IN] else [])
      + (if Lt(checkOutTime, minCheckout) then [LEFT_EARLY] else [])
      + (if LongBreak(breakOutTime, breakInTime) then [LATE_FROM_LUNCH] else [])
  }

  /** `evaluateAttendance`: the record with its remarks set and every other field as it was. */
  function Evaluate(log: DayRecord): (r: DayRecord)
    ensures r.remarks.Some?
    ensures r.(remarks := log.remarks) == log
  {
    var remarks := Remarks(log);
    log.(remarks := Some(Join(if remarks == [] then [PRESENT] else remarks, ", ")))
  }

  /**
   * The policy stated on times of day: late after 08:15:00, early before
   * 18:30:00, a break longer than 60 minutes; each rule in this order.
   */
  function Violations(checkIn: SecondOfDay, checkOut: SecondOfDay, breakOut: SecondOfDay, breakIn: SecondOfDay): seq<string>
  {
    (if checkIn > Hms(8, 15, 0) then [LATE_CHECK_IN] else [])
    + (if checkOut < Hms(18, 30, 0) then [LEFT_EARLY] else [])
    + (if breakIn - breakOut > 60 * 60 then [LATE_FROM_LUNCH] else [])
  }

  /** A record missing any slot is "Incomplete attendance" and nothing else. */
  lemma EvaluateIncomplete(log: DayRecord)
    requires !Complete(log)
    ensures Evaluate(log).remarks == Some(INCOMPLETE)
  {
  }

  /**
   * A complete record with a valid date has the violated rules, in rule
   * order, joined with ", ", or "Present" when none is violated.
   */
  lemma {:induction false} EvaluateComplete(log: DayRecord)
    requires Complete(log) && log.date.Some?
    ensures Remarks(log) == Violations(log.checkIn.value, log.checkOut.value, log.breakOut.value, log.breakIn.value)
    ensures var v := Violations(log.checkIn.value, log.checkOut.value, log.breakOut.value, log.breakIn.value);
            Evaluate(log).remarks == Some(if v == [] then PRESENT else Join(v, ", "))
  {
    var day := log.date.value;
    FormatDateTimeMonotone(day, log.checkIn.value, LATE_LIMIT);
    FormatDateTimeMonotone(day, log.checkOut.value, MIN_CHECKOUT);
    FormatDateTimeMonotone(day, log.breakOut.value, log.breakIn.value);
    var d := FormatDateTime(log.date, log.breakIn.value).ms - FormatDateTime(log.date, log.breakOut.value).ms;
    assert d == (log.breakIn.value - log.breakOut.value) * 1000;
    assert (d as real) / 60000.0 > 60.0 <==> d > 3600000;
  }

  /** Each rule fires exactly when its condition holds. */
  lemma RuleConditions(checkIn: SecondOfDay, checkOut: SecondOfDay, breakOut: SecondOfDay, breakIn: SecondOfDay)
    ensures LATE_CHECK_IN in Violations(checkIn, checkOut, breakOut, breakIn) <==> checkIn > LATE_LIMIT
    ensures LEFT_EARLY in Violations(checkIn, checkOut, breakOut, breakIn) <==> checkOut < MIN_CHECKOUT
    ensures LATE_FROM_LUNCH in Violations(checkIn, checkOut, breakOut, breakIn) <==> breakIn - breakOut > 60 * 60
  {
  }

  /** A record is "Present" exactly when it is complete and breaks no rule. */
  lemma {:induction false} PresentIff(log: DayRecord)
    requires log.date.Some?
    ensures Evaluate(log).remarks == Some(PRESENT)
        <==> Complete(log) && Violations(log.checkIn.value, log.checkOut.value, log.breakOut.value, log.breakIn.value) == []
  {
    if Complete(log) {
      EvaluateComplete(log);
      var v := Violations(log.checkIn.value, log.checkOut.value, log.breakOut.value, log.breakIn.value);
      if v != [] {
        JoinStartsWith(v, ", ");
        assert |v[0]| > |PRESENT|;
      }
    }
  }

  /** The limits themselves are on time: 08:15:00, 18:30:00 and a 60-minute break give "Present". */
  lemma BoundariesNotFlagged(log: DayRecord)
    requires log.date.Some? && log.checkIn == Some(LATE_LIMIT) && log.checkOut == Some(MIN_CHECKOUT)
    requires log.breakOut.Some? && log.breakIn.Some? && log.breakIn.value - log.breakOut.value == 3600
    ensures Evaluate(log).remarks == Some(PRESENT)
  {
    EvaluateComplete(log);
  }

  /** 08:20, 12:00, 12:45 and 18:25 give "Late check-in, Left early". */
  lemma Example(day: int, username: string)
    ensures Evaluate(DayRecord(Some(day), username, Some(Hms(8, 20, 0)), Some(Hms(18, 25, 0)),
                               Some(Hms(12, 0, 0)), Some(Hms(12, 45, 0)), None)).remarks
         == Some("Late check-in, Left early")
  {
    var log := DayRecord(Some(day), username, Some(Hms(8, 20, 0)), Some(Hms(18, 25, 0)),
                         Some(Hms(12, 0, 0)), Some(Hms(12, 45, 0)), None);
    EvaluateComplete(log);
    assert Violations(Hms(8, 20, 0), Hms(18, 25, 0), Hms(12, 0, 0), Hms(12, 45, 0)) == [LATE_CHECK_IN, LEFT_EARLY];
    assert Join([LATE_CHECK_IN, LEFT_EARLY], ", ") == LATE_CHECK_IN + ", " + LEFT_EARLY;
    assert LATE_CHECK_IN + ", " + LEFT_EARLY == "Late check-in, Left early";
  }
}
