/**
 * The `/attendance` handler of server.js: keep the punches inside the
 * optional date range and add to each the user's display name and its
 * Manila local time.
 */
module Enrich {
  import opened Wrappers
  import opened Manila
  import opened Seqs
  import opened Device
  import opened Directory

  /** The punch with every field kept and two added: the user's name and the local display time. */
  datatype EnrichedLog = EnrichedLog(log: Punch, username: string, localTime: Display)

  /**
   * The end bound: the time value (a number, not a Date) of the last
   * millisecond of `end`'s local day; NaN when `end` does not parse.
   */
  function EndBound(end: Option<Stamp>): Option<Stamp>
  {
    match end
    case None => None
    case Some(e) => Some(EndOfDay(e))
  }

  /** A number is truthy unless it is 0 or NaN. */
  predicate Truthy(n: Stamp) { n.Ms? && n.ms != 0 }

  /**
   * A punch is kept when each given bound admits it: not before the start
   * and not after the end. `startDate` is a Date object, truthy even when invalid, so an invalid
   * start fails every comparison; `endDate` is a number, so an invalid end
   * is falsy and filters nothing.
   */
  predicate Kept(log: Punch, start: Option<Stamp>, endDate: Option<Stamp>)
  {
    && (start.None? || Ge(log.recordTime, start.value))
    && (endDate.None? || !Truthy(endDate.value) || Le(log.recordTime, endDate.value))
  }

  function Selected(logs: seq<Punch>, start: Option<Stamp>, end: Option<Stamp>): seq<Punch>
  {
    Filter(logs, (log: Punch) => Kept(log, start, EndBound(end)))
  }

  /** The enrichment of one punch. */
  function EnrichOne(log: Punch, userMap: map<string, string>): EnrichedLog
  {
    EnrichedLog(log, Username(userMap, log.deviceUserId), ToManilaString(log.recordTime))
  }

  /** The response: the selected punches, enriched, in order. */
  function Enriched(users: seq<User>, logs: seq<Punch>, start: Option<Stamp>, end: Option<Stamp>): seq<EnrichedLog>
  {
    var userMap := Index(users, DisplayName);
    var kept := Selected(logs, start, end);
    seq(|kept|, i requires 0 <= i < |kept| => EnrichOne(kept[i], userMap))
  }

  /** The punches inside a response. */
  function Punches(out: seq<EnrichedLog>): seq<Punch>
  {
    seq(|out|, i requires 0 <= i < |out| => out[i].log)
  }

  /** The handler after the device read: the `forEach` building `userMap`, then filter and map. */
  method AttendanceLogs(users: seq<User>, logs: seq<Punch>, start: Option<Stamp>, end: Option<Stamp>)
    returns (out: seq<EnrichedLog>)
    ensures out == Enriched(users, logs, start, end)
  {
    var userMap := BuildIndex(users, DisplayName);
    var endDate := EndBound(end);
    var kept := Filter(logs, (log: Punch) => Kept(log, start, endDate));
    out := seq(|kept|, i requires 0 <= i < |kept| => EnrichOne(kept[i], userMap));
  }

  /** The response holds the input punches with some left out, in input order, each once per occurrence. */
  lemma EnrichedInOrder(users: seq<User>, logs: seq<Punch>, start: Option<Stamp>, end: Option<Stamp>)
    ensures Punches(Enriched(users, logs, start, end)) == Selected(logs, start, end)
    ensures Subsequence(Punches(Enriched(users, logs, start, end)), logs)
  {
    FilterSubsequence(logs, (log: Punch) => Kept(log, start, EndBound(end)));
  }

  /**
   * Exactly the punches inside the bounds are kept: at or after a valid
   * `start`, and on or before the Manila day of a valid `end`.
   */
  lemma EnrichedBounds(users: seq<User>, logs: seq<Punch>, start: Option<Stamp>, end: Option<Stamp>)
    requires start.None? || start.value.Ms?
    requires end.None? || end.value.Ms?
    ensures forall p :: p in Selected(logs, start, end) <==>
              && p in logs
              && (start.Some? ==> p.recordTime.Ms? && start.value.ms <= p.recordTime.ms)
              && (end.Some? ==> p.recordTime.Ms? && DayKey(p.recordTime.ms) <= DayKey(end.value.ms))
  {
    FilterMembers(logs, (log: Punch) => Kept(log, start, EndBound(end)));
    if end.Some? {
      var e := EndOfDay(end.value);
      assert Truthy(e);
      forall p: Punch | p.recordTime.Ms?
        ensures Le(p.recordTime, e) <==> DayKey(p.recordTime.ms) <= DayKey(end.value.ms)
      {
        EndOfDayBound(end.value.ms, p.recordTime.ms);
      }
    }
  }

  /** With no bounds every punch is kept, even one whose time does not parse. */
  lemma NoBoundsKeepsAll(users: seq<User>, logs: seq<Punch>)
    ensures Punches(Enriched(users, logs, None, None)) == logs
  {
    FilterAll(logs, (log: Punch) => Kept(log, None, EndBound(None)));
  }

  /** A start that does not parse fails every comparison, so nothing is kept. */
  lemma InvalidStartKeepsNothing(users: seq<User>, logs: seq<Punch>, end: Option<Stamp>)
    ensures Enriched(users, logs, Some(NaN), end) == []
  {
    var keep := (log: Punch) => Kept(log, Some(NaN), EndBound(end));
    FilterMembers(logs, keep);
    if Selected(logs, Some(NaN), end) != [] {
      assert Selected(logs, Some(NaN), end)[0] in Selected(logs, Some(NaN), end);
    }
  }

  /** An end that does not parse yields NaN, which is falsy: no end filter. */
  lemma InvalidEndIgnored(users: seq<User>, logs: seq<Punch>, start: Option<Stamp>)
    ensures Enriched(users, logs, start, Some(NaN)) == Enriched(users, logs, start, None)
  {
    FilterCongruent(logs, (log: Punch) => Kept(log, start, EndBound(Some(NaN))),
                    (log: Punch) => Kept(log, start, EndBound(None)));
  }

  /**
   * Each element keeps its punch and adds its Manila local time and a user
   * name: that of the last user listed with the punch's id (the id itself
   * when that name is empty), or the id when no user has it.
   */
  lemma EnrichedFields(users: seq<User>, logs: seq<Punch>, start: Option<Stamp>, end: Option<Stamp>, i: int)
    requires 0 <= i < |Enriched(users, logs, start, end)|
    ensures var e := Enriched(users, logs, start, end)[i];
            && e.log == Selected(logs, start, end)[i]
            && e.localTime == ToManilaString(e.log.recordTime)
            && ((forall j :: 0 <= j < |users| ==> users[j].userId != e.log.deviceUserId) ==> e.username == e.log.deviceUserId)
            && (forall j ::
                  (&& 0 <= j < |users| && users[j].userId == e.log.deviceUserId
                   && (forall j' :: j < j' < |users| ==> users[j'].userId != e.log.deviceUserId))
                  ==> e.username == if users[j].name != "" then users[j].name else e.log.deviceUserId)
  {
    var e := Enriched(users, logs, start, end)[i];
    var id := e.log.deviceUserId;
    if forall j :: 0 <= j < |users| ==> users[j].userId != id {
      UsernameOfUnlisted(users, id);
    }
    forall j | 0 <= j < |users| && users[j].userId == id && (forall j' :: j < j' < |users| ==> users[j'].userId != id)
      ensures e.username == if users[j].name != "" then users[j].name else id
    {
      UsernameOfListed(users, j);
    }
  }
}
