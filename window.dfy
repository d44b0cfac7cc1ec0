/**
 * The time-window strategy of server2.js (`getAttendanceLogs`): punches in
 * the requested range are grouped per (Manila date, user) and each group's
 * slots are chosen by the hour of the punch.
 */
module WindowAssign {
  import opened Wrappers
  import opened Manila
  import opened Device
  import opened Seqs
  import opened Grouping
  import opened Directory
  import opened Policy

  /** The start bound: midnight at the start of the Manila day. */
  function RangeStart(startDay: int): int { AtLocal(startDay, 0) }

  /** The end bound: 23:59:59 of the Manila day, the first millisecond of the day's last second. */
  function RangeEnd(endDay: int): int { AtLocal(endDay, Hms(23, 59, 59) * MS_PER_SECOND) }

  /** Neither before the start nor after the end; an Invalid Date is neither and passes. */
  predicate InRange(p: Punch, startDay: int, endDay: int)
  {
    !(Lt(p.recordTime, Ms(RangeStart(startDay))) || Gt(p.recordTime, Ms(RangeEnd(endDay))))
  }

  function Kept(logs: seq<Punch>, startDay: int, endDay: int): seq<Punch>
  {
    Filter(logs, p => InRange(p, startDay, endDay))
  }

  /** The 24-hour Manila time of day of an instant, to the second; None is "Invalid Date". */
  function LocalTime(t: Stamp): Option<SecondOfDay>
  {
    match t
    case Ms(ms) => Some(TimeOfDay(ms))
    case NaN => None
  }

  /** The punch's time of day when its hour lies in [lo, hi]; for an Invalid Date the hour is NaN and lies nowhere. */
  function TimeInWindow(p: Punch, lo: int, hi: int): Option<SecondOfDay>
  {
    match LocalTime(p.recordTime)
    case Some(s) => if lo <= Hour(s) <= hi then Some(s) else None
    case None => None
  }

  /** An empty slot takes the time, a filled one only an earlier time; for a time that is in the window (Some) or not (None). */
  function Earlier(slot: Option<SecondOfDay>, time: Option<SecondOfDay>): Option<SecondOfDay>
  {
    match time
    case None => slot
    case Some(s) => if slot.None? || s < slot.value then Some(s) else slot
  }

  /** An empty slot takes the time, a filled one only a later time; for a time that is in the window (Some) or not (None). */
  function Later(slot: Option<SecondOfDay>, time: Option<SecondOfDay>): Option<SecondOfDay>
  {
    match time
    case None => slot
    case Some(s) => if slot.None? || s > slot.value then Some(s) else slot
  }

  /** The slot kept as the earliest time of the punches of `g` with their hour in [lo, hi]. */
  function EarliestIn(g: seq<Punch>, lo: int, hi: int): Option<SecondOfDay>
    decreases |g|
  {
    if g == [] then None else Earlier(EarliestIn(g[..|g| - 1], lo, hi), TimeInWindow(g[|g| - 1], lo, hi))
  }

  /** The slot kept as the latest time of the punches of `g` with their hour in [lo, hi]. */
  function LatestIn(g: seq<Punch>, lo: int, hi: int): Option<SecondOfDay>
    decreases |g|
  {
    if g == [] then None else Later(LatestIn(g[..|g| - 1], lo, hi), TimeInWindow(g[|g| - 1], lo, hi))
  }

  // The windows: check-in before 11:00, the break from 11:00 to 13:59, check-out from 15:00.
  const CHECK_IN_FIRST_HOUR := 0
  const CHECK_IN_LAST_HOUR := 10
  const BREAK_FIRST_HOUR := 11
  const BREAK_LAST_HOUR := 13
  const CHECK_OUT_FIRST_HOUR := 15
  const CHECK_OUT_LAST_HOUR := 23

  /** The record a group of punches with key `k` leaves behind. */
  function Record(g: seq<Punch>, k: Key, userMap: map<string, string>): DayRecord
  {
    DayRecord(
      k.date,
      Username(userMap, k.userId),
      EarliestIn(g, CHECK_IN_FIRST_HOUR, CHECK_IN_LAST_HOUR),
      LatestIn(g, CHECK_OUT_FIRST_HOUR, CHECK_OUT_LAST_HOUR),
      EarliestIn(g, BREAK_FIRST_HOUR, BREAK_LAST_HOUR),
      LatestIn(g, BREAK_FIRST_HOUR, BREAK_LAST_HOUR),
      None)
  }

  /** The values of the grouped map: one record per key of the kept punches, in insertion order. */
  function Records(logs: seq<Punch>, userMap: map<string, string>, startDay: int, endDay: int): seq<DayRecord>
  {
    var kept := Kept(logs, startDay, endDay);
    var ks := Keys(kept, KeyOf);
    seq(|ks|, i requires 0 <= i < |ks| => Record(Group(kept, KeyOf, ks[i]), ks[i], userMap))
  }

  /** One more punch updates each slot by one step. */
  lemma RecordSnoc(g: seq<Punch>, p: Punch, k: Key, userMap: map<string, string>)
    ensures Record(g + [p], k, userMap) == Assigned(Record(g, k, userMap), p)
  {
    assert (g + [p])[..|g|] == g;
  }

  /** The record after the slot assignment for punch `p` (server2.js lines 136-150). */
  function Assigned(record: DayRecord, p: Punch): DayRecord
  {
    record.(
      checkIn := Earlier(record.checkIn, TimeInWindow(p, CHECK_IN_FIRST_HOUR, CHECK_IN_LAST_HOUR)),
      breakOut := Earlier(record.breakOut, TimeInWindow(p, BREAK_FIRST_HOUR, BREAK_LAST_HOUR)),
      breakIn := Later(record.breakIn, TimeInWindow(p, BREAK_FIRST_HOUR, BREAK_LAST_HOUR)),
      checkOut := Later(record.checkOut, TimeInWindow(p, CHECK_OUT_FIRST_HOUR, CHECK_OUT_LAST_HOUR)))
  }

  /** The in-place slot updates of the loop body, for one punch. */
  method AssignSlots(record: DayRecord, log: Punch) returns (r: DayRecord)
    ensures r == Assigned(record, log)
  {
    r := record;
    var time := LocalTime(log.recordTime);
    if time.Some? {
      var timeStr := time.value;
      var hour := Hour(timeStr);
      // hours 0 to 10: the check-in slot keeps the earliest time
      if hour < 11 {
        if r.checkIn.None? || timeStr < r.checkIn.value { r := r.(checkIn := Some(timeStr)); }
      }
      // hours 11 to 13: break-out keeps the earliest time, break-in the latest
      if hour >= 11 && hour <= 13 {
        if r.breakOut.None? || timeStr < r.breakOut.value { r := r.(breakOut := Some(timeStr)); }
        if r.breakIn.None? || timeStr > r.breakIn.value { r := r.(breakIn := Some(timeStr)); }
      }
      // hours 15 to 23: the check-out slot keeps the latest time
      if hour >= 15 {
        if r.checkOut.None? || timeStr > r.checkOut.value { r := r.(checkOut := Some(timeStr)); }
      }
    }
  }

  /** The loop's invariant: the dictionary holds, for each key seen so far, the record of its group. */
  ghost predicate Tracks(grouped: map<Key, DayRecord>, keys: seq<Key>, kept: seq<Punch>, userMap: map<string, string>)
  {
    && keys == Keys(kept, KeyOf)
    && (forall k :: k in grouped <==> k in keys)
    && (forall k :: k in grouped ==> grouped[k] == Record(Group(kept, KeyOf, k), k, userMap))
  }

  /** Creating the record of a new key and assigning the punch's slots keeps the invariant for one more punch. */
  lemma TracksStep(grouped: map<Key, DayRecord>, keys: seq<Key>, kept: seq<Punch>, userMap: map<string, string>, log: Punch)
    requires Tracks(grouped, keys, kept, userMap)
    ensures var key := KeyOf(log);
            var created := if key in grouped then grouped
                           else grouped[key := DayRecord(key.date, Username(userMap, key.userId), None, None, None, None, None)];
            var keys' := if key in grouped then keys else keys + [key];
            Tracks(created[key := Assigned(created[key], log)], keys', kept + [log], userMap)
  {
    var key := KeyOf(log);
    var created := if key in grouped then grouped
                   else grouped[key := DayRecord(key.date, Username(userMap, key.userId), None, None, None, None, None)];
    var keys' := if key in grouped then keys else keys + [key];
    var kept' := kept + [log];
    var grouped' := created[key := Assigned(created[key], log)];
    assert kept'[..|kept|] == kept;
    assert keys' == Keys(kept', KeyOf);
    if key !in grouped {
      GroupOfUnlisted(kept, KeyOf, key);
    }
    assert created[key] == Record(Group(kept, KeyOf, key), key, userMap);
    RecordSnoc(Group(kept, KeyOf, key), log, key, userMap);
    forall k | k in grouped'
      ensures grouped'[k] == Record(Group(kept', KeyOf, k), k, userMap)
    {
      GroupSnoc(kept, log, KeyOf, k);
      if k != key {
        assert k in grouped;
        assert grouped'[k] == grouped[k];
        assert Group(kept', KeyOf, k) == Group(kept, KeyOf, k);
      }
    }
    assert forall k :: k in grouped' <==> k in keys';
  }

  /** `getAttendanceLogs` after the device read: build the directory, then the `forEach` over the punches. */
  method GetAttendanceLogs(users: seq<User>, logs: seq<Punch>, startDay: int, endDay: int) returns (records: seq<DayRecord>)
    ensures records == Records(logs, Index(users, DisplayName), startDay, endDay)
  {
    var userMap := BuildIndex(users, DisplayName);
    var keys, grouped := GroupLogs(logs, userMap, startDay, endDay);
    records := Collect(keys, grouped);
    TracksRecords(grouped, keys, logs, userMap, startDay, endDay);
  }

  /** The values of the map, read in the order their keys were first inserted. */
  method Collect(keys: seq<Key>, grouped: map<Key, DayRecord>) returns (records: seq<DayRecord>)
    requires forall k :: k in keys ==> k in grouped
    ensures |records| == |keys|
    ensures forall t :: 0 <= t < |keys| ==> records[t] == grouped[keys[t]]
  {
    records := [];
    for j := 0 to |keys|
      invariant |records| == j
      invariant forall t :: 0 <= t < j ==> records[t] == grouped[keys[t]]
    {
      records := records + [grouped[keys[j]]];
    }
  }

  /** Once every punch is in, the map's values in key order are the records of the specification. */
  lemma TracksRecords(grouped: map<Key, DayRecord>, keys: seq<Key>, logs: seq<Punch>, userMap: map<string, string>,
                      startDay: int, endDay: int)
    requires Tracks(grouped, keys, Kept(logs, startDay, endDay), userMap)
    ensures var rs := Records(logs, userMap, startDay, endDay);
            && |rs| == |keys|
            && forall t :: 0 <= t < |keys| ==> rs[t] == grouped[keys[t]]
  {
  }

  /** The loop over the device's punches: skip punches out of range, create missing records, assign slots. */
  method GroupLogs(logs: seq<Punch>, userMap: map<string, string>, startDay: int, endDay: int)
    returns (keys: seq<Key>, grouped: map<Key, DayRecord>)
    ensures Tracks(grouped, keys, Kept(logs, startDay, endDay), userMap)
  {
    keys := [];
    grouped := map[];
    ghost var kept: seq<Punch> := [];
    for i := 0 to |logs|
      invariant kept == Kept(logs[..i], startDay, endDay)
      invariant Tracks(grouped, keys, kept, userMap)
    {
      var log := logs[i];
      assert logs[..i + 1] == logs[..i] + [log];
      FilterSnoc(logs[..i], log, p => InRange(p, startDay, endDay));
      if InRange(log, startDay, endDay) {
        TracksStep(grouped, keys, kept, userMap, log);
        var key := KeyOf(log);
        if key !in grouped {
          grouped := grouped[key := DayRecord(key.date, Username(userMap, key.userId), None, None, None, None, None)];
          keys := keys + [key];
        }
        var record := AssignSlots(grouped[key], log);
        grouped := grouped[key := record];
        kept := kept + [log];
      }
    }
    assert logs[..|logs|] == logs;
  }

  /**
   * The earliest slot is the least time of day among the punches of `g` in
   * the window, and absent exactly when no punch lies in it.
   */
  lemma {:induction false} EarliestInIsMinimum(g: seq<Punch>, lo: int, hi: int)
    ensures EarliestIn(g, lo, hi).None? <==> forall p :: p in g ==> TimeInWindow(p, lo, hi).None?
    ensures EarliestIn(g, lo, hi).Some? ==>
              (exists p :: p in g && TimeInWindow(p, lo, hi) == EarliestIn(g, lo, hi))
              && forall p :: p in g && TimeInWindow(p, lo, hi).Some? ==> EarliestIn(g, lo, hi).value <= TimeInWindow(p, lo, hi).value
    decreases |g|
  {
    if g != [] {
      var init := g[..|g| - 1];
      var last := g[|g| - 1];
      assert g == init + [last];
      EarliestInIsMinimum(init, lo, hi);
      assert forall p :: p in g <==> p in init || p == last;
    }
  }

  /**
   * The latest slot is the greatest time of day among the punches of `g` in
   * the window, and absent exactly when no punch lies in it.
   */
  lemma {:induction false} LatestInIsMaximum(g: seq<Punch>, lo: int, hi: int)
    ensures LatestIn(g, lo, hi).None? <==> forall p :: p in g ==> TimeInWindow(p, lo, hi).None?
    ensures LatestIn(g, lo, hi).Some? ==>
              (exists p :: p in g && TimeInWindow(p, lo, hi) == LatestIn(g, lo, hi))
              && forall p :: p in g && TimeInWindow(p, lo, hi).Some? ==> LatestIn(g, lo, hi).value >= TimeInWindow(p, lo, hi).value
    decreases |g|
  {
    if g != [] {
      var init := g[..|g| - 1];
      var last := g[|g| - 1];
      assert g == init + [last];
      LatestInIsMaximum(init, lo, hi);
      assert forall p :: p in g <==> p in init || p == last;
    }
  }

  /** Break-out and break-in are set together, and break-out is never after break-in. */
  lemma BreakSlotsTogether(g: seq<Punch>, k: Key, userMap: map<string, string>)
    ensures var r := Record(g, k, userMap);
            (r.breakOut.Some? <==> r.breakIn.Some?) && (r.breakOut.Some? ==> r.breakOut.value <= r.breakIn.value)
  {
    EarliestInIsMinimum(g, BREAK_FIRST_HOUR, BREAK_LAST_HOUR);
    LatestInIsMaximum(g, BREAK_FIRST_HOUR, BREAK_LAST_HOUR);
  }

  /** A punch in hour 14, or with an Invalid Date, changes no slot. */
  lemma HourFourteenIgnored(g: seq<Punch>, p: Punch, k: Key, userMap: map<string, string>)
    requires LocalTime(p.recordTime).None? || Hour(LocalTime(p.recordTime).value) == 14
    ensures Record(g + [p], k, userMap) == Record(g, k, userMap)
  {
    RecordSnoc(g, p, k, userMap);
  }

  /** Two groups with the same punches, in whatever order, give the same record. */
  lemma {:induction false} RecordOrderIndependent(g1: seq<Punch>, g2: seq<Punch>, k: Key, userMap: map<string, string>)
    requires multiset(g1) == multiset(g2)
    ensures Record(g1, k, userMap) == Record(g2, k, userMap)
  {
    assert forall p :: p in g1 <==> p in g2 by {
      forall p ensures p in g1 <==> p in g2 {
        assert p in g1 <==> p in multiset(g1);
        assert p in g2 <==> p in multiset(g2);
      }
    }
    EarliestSame(g1, g2, CHECK_IN_FIRST_HOUR, CHECK_IN_LAST_HOUR);
    EarliestSame(g1, g2, BREAK_FIRST_HOUR, BREAK_LAST_HOUR);
    LatestSame(g1, g2, BREAK_FIRST_HOUR, BREAK_LAST_HOUR);
    LatestSame(g1, g2, CHECK_OUT_FIRST_HOUR, CHECK_OUT_LAST_HOUR);
  }

  lemma EarliestSame(g1: seq<Punch>, g2: seq<Punch>, lo: int, hi: int)
    requires forall p :: p in g1 <==> p in g2
    ensures EarliestIn(g1, lo, hi) == EarliestIn(g2, lo, hi)
  {
    if EarliestIn(g1, lo, hi).Some? {
      var p1 := EarliestWitness(g1, lo, hi);
      EarliestBelow(g2, lo, hi, p1);
      var p2 := EarliestWitness(g2, lo, hi);
      EarliestBelow(g1, lo, hi, p2);
    } else if EarliestIn(g2, lo, hi).Some? {
      var p2 := EarliestWitness(g2, lo, hi);
      EarliestBelow(g1, lo, hi, p2);
    }
  }

  lemma LatestSame(g1: seq<Punch>, g2: seq<Punch>, lo: int, hi: int)
    requires forall p :: p in g1 <==> p in g2
    ensures LatestIn(g1, lo, hi) == LatestIn(g2, lo, hi)
  {
    if LatestIn(g1, lo, hi).Some? {
      var p1 := LatestWitness(g1, lo, hi);
      LatestAbove(g2, lo, hi, p1);
      var p2 := LatestWitness(g2, lo, hi);
      LatestAbove(g1, lo, hi, p2);
    } else if LatestIn(g2, lo, hi).Some? {
      var p2 := LatestWitness(g2, lo, hi);
      LatestAbove(g1, lo, hi, p2);
    }
  }

  /** A set earliest slot is the time of one of the punches; the punch is returned. */
  lemma {:induction false} EarliestWitness(g: seq<Punch>, lo: int, hi: int) returns (p: Punch)
    requires EarliestIn(g, lo, hi).Some?
    ensures p in g && TimeInWindow(p, lo, hi) == EarliestIn(g, lo, hi)
    decreases |g|
  {
    var init := g[..|g| - 1];
    var last := g[|g| - 1];
    if EarliestIn(g, lo, hi) == TimeInWindow(last, lo, hi) {
      p := last;
    } else {
      p := EarliestWitness(init, lo, hi);
      assert p in g by { var i :| 0 <= i < |init| && init[i] == p; assert g[i] == p; }
    }
  }

  /** No punch in the window is earlier than the earliest slot. */
  lemma {:induction false} EarliestBelow(g: seq<Punch>, lo: int, hi: int, p: Punch)
    requires p in g && TimeInWindow(p, lo, hi).Some?
    ensures EarliestIn(g, lo, hi).Some? && EarliestIn(g, lo, hi).value <= TimeInWindow(p, lo, hi).value
    decreases |g|
  {
    var init := g[..|g| - 1];
    var last := g[|g| - 1];
    if p != last {
      assert p in init by { var i :| 0 <= i < |g| && g[i] == p; assert init[i] == p; }
      EarliestBelow(init, lo, hi, p);
    }
  }

  /** A set latest slot is the time of one of the punches; the punch is returned. */
  lemma {:induction false} LatestWitness(g: seq<Punch>, lo: int, hi: int) returns (p: Punch)
    requires LatestIn(g, lo, hi).Some?
    ensures p in g && TimeInWindow(p, lo, hi) == LatestIn(g, lo, hi)
    decreases |g|
  {
    var init := g[..|g| - 1];
    var last := g[|g| - 1];
    if LatestIn(g, lo, hi) == TimeInWindow(last, lo, hi) {
      p := last;
    } else {
      p := LatestWitness(init, lo, hi);
      assert p in g by { var i :| 0 <= i < |init| && init[i] == p; assert g[i] == p; }
    }
  }

  /** No punch in the window is later than the latest slot. */
  lemma {:induction false} LatestAbove(g: seq<Punch>, lo: int, hi: int, p: Punch)
    requires p in g && TimeInWindow(p, lo, hi).Some?
    ensures LatestIn(g, lo, hi).Some? && LatestIn(g, lo, hi).value >= TimeInWindow(p, lo, hi).value
    decreases |g|
  {
    var init := g[..|g| - 1];
    var last := g[|g| - 1];
    if p != last {
      assert p in init by { var i :| 0 <= i < |g| && g[i] == p; assert init[i] == p; }
      LatestAbove(init, lo, hi, p);
    }
  }

  /**
   * A valid punch is in range exactly when its Manila day lies from the
   * start day through the end day and, on the end day, it is not in the last
   * 999 milliseconds after 23:59:59.000.
   */
  lemma {:induction false} InRangeDays(t: int, verifyType: string, id: string, startDay: int, endDay: int)
    ensures InRange(Punch(id, Ms(t), verifyType), startDay, endDay)
        <==> startDay <= DayKey(t) <= endDay && (DayKey(t) == endDay ==> MsOfDay(t) <= Hms(23, 59, 59) * MS_PER_SECOND)
  {
    DayKeyBounds(t);
  }

  /** A punch at 23:59:59.500 on the end day is left out; one at 23:59:59.000 is kept. */
  lemma LastSecondOfEndDay(endDay: int, startDay: int, id: string, verifyType: string)
    requires startDay <= endDay
    ensures !InRange(Punch(id, Ms(AtLocal(endDay, Hms(23, 59, 59) * MS_PER_SECOND + 500)), verifyType), startDay, endDay)
    ensures InRange(Punch(id, Ms(AtLocal(endDay, Hms(23, 59, 59) * MS_PER_SECOND)), verifyType), startDay, endDay)
  {
  }

  /**
   * One record per (Manila date, user) of the kept punches, each key once,
   * in order of first occurrence, each made from that key's punches.
   */
  lemma OneRecordPerKey(logs: seq<Punch>, userMap: map<string, string>, startDay: int, endDay: int)
    ensures var kept := Kept(logs, startDay, endDay);
            var ks := Keys(kept, KeyOf);
            && |Records(logs, userMap, startDay, endDay)| == |ks|
            && Distinct(ks)
            && (forall k :: k in ks <==> exists p :: p in kept && KeyOf(p) == k)
            && (forall i :: 0 <= i < |ks| ==> Records(logs, userMap, startDay, endDay)[i].date == ks[i].date)
  {
    var kept := Kept(logs, startDay, endDay);
    KeysExactly(kept, KeyOf);
    var ks := Keys(kept, KeyOf);
    forall k ensures k in ks <==> exists p :: p in kept && KeyOf(p) == k {
      if exists p :: p in kept && KeyOf(p) == k {
        var p :| p in kept && KeyOf(p) == k;
        var i :| 0 <= i < |kept| && kept[i] == p;
      }
    }
  }

  /**
   * The group of punches whose time does not parse ("Invalid Date" key) has
   * no slot set, so its record is evaluated as incomplete.
   */
  lemma InvalidDateRecordIncomplete(kept: seq<Punch>, k: Key, userMap: map<string, string>)
    requires k.date.None?
    ensures var r := Record(Group(kept, KeyOf, k), k, userMap);
            r.checkIn.None? && r.breakOut.None? && r.breakIn.None? && r.checkOut.None?
            && Evaluate(r).remarks == Some(INCOMPLETE)
  {
    var g := Group(kept, KeyOf, k);
    GroupMembers(kept, KeyOf, k);
    forall p | p in g
      ensures p.recordTime.NaN?
    {
      assert KeyOf(p).date == LocalDate(p.recordTime) == None;
    }
    EarliestInIsMinimum(g, CHECK_IN_FIRST_HOUR, CHECK_IN_LAST_HOUR);
    EarliestInIsMinimum(g, BREAK_FIRST_HOUR, BREAK_LAST_HOUR);
    LatestInIsMaximum(g, BREAK_FIRST_HOUR, BREAK_LAST_HOUR);
    LatestInIsMaximum(g, CHECK_OUT_FIRST_HOUR, CHECK_OUT_LAST_HOUR);
  }
}
