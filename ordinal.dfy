/**
 * The `/attendance` handler of formatted.js: split user names, filter the
 * raw punches by the optional date range, group them per user and Manila
 * day, sort each group by time, and emit one row per punch labelled by its
 * position (Check-In, Break-Out, Break-In, Check-Out), at most four per day.
 */
module Ordinal {
  import opened Wrappers
  import opened Manila
  import opened Text
  import opened Seqs
  import opened Device
  import opened Grouping
  import opened Directory
  import opened Chrono

  // ---------------------------------------------------------------- names

  datatype Person = Person(firstName: string, lastName: string)

  /**
   * The name (empty when absent), trimmed and split at runs of whitespace:
   * the first piece is the first name, the remaining pieces joined by single spaces the last name.
   */
  function SplitName(name: string): (p: Person)
    ensures NoSpace(p.firstName)
    ensures p.firstName == "" <==> Trim(name) == ""
  {
    var trimmed := Trim(name);
    var parts := Split(trimmed);
    assert trimmed != "" ==> parts[0] != "" by {
      if trimmed != "" { SplitTrimmedWords(trimmed); }
    }
    Person(parts[0], Join(parts[1..], " "))
  }

  /** A name made of words, whatever whitespace surrounds it: the first word, then the rest single-spaced. */
  lemma SplitNameOfWords(pre: string, ws: seq<string>, post: string)
    requires AllSpace(pre) && AllSpace(post)
    requires |ws| >= 1 && Words(ws)
    ensures SplitName(pre + Join(ws, " ") + post) == Person(ws[0], Join(ws[1..], " "))
    ensures |ws| == 1 ==> SplitName(pre + Join(ws, " ") + post).lastName == ""
  {
    JoinedWordsTrimmed(ws);
    TrimAround(pre, Join(ws, " "), post);
    SplitJoin(ws);
  }

  /**
   * A name whose words are separated by any runs of whitespace (several
   * spaces, tabs, line breaks): the first word is the first name and the
   * remaining words, joined by single spaces, the last name.
   */
  lemma SplitNameOfSpacedWords(pre: string, ws: seq<string>, gaps: seq<string>, post: string)
    requires AllSpace(pre) && AllSpace(post) && |ws| == |gaps| + 1 && Gaps(gaps)
    requires Words(ws)
    ensures SplitName(pre + Spaced(ws, gaps) + post) == Person(ws[0], Join(ws[1..], " "))
  {
    SpacedTrimmed(ws, gaps);
    TrimAround(pre, Spaced(ws, gaps), post);
    SplitSpaced(ws, gaps);
  }

  /** "Ana  Maria", with two spaces, gives first name "Ana" and last name "Maria". */
  lemma SplitNameTwoSpaces()
    ensures SplitName("Ana  Maria") == Person("Ana", "Maria")
  {
    var ws := ["Ana", "Maria"];
    var gaps := ["  "];
    assert IsWord(ws[0]) && IsWord(ws[1]);
    assert Spaced(ws, gaps) == "Ana  Maria";
    SplitNameOfSpacedWords("", ws, gaps, "");
    assert "" + "Ana  Maria" + "" == "Ana  Maria";
    assert Join(ws[1..], " ") == "Maria";
  }

  /** A missing or blank name gives empty first and last names. */
  lemma SplitNameBlank(name: string)
    requires AllSpace(name)
    ensures SplitName(name) == Person("", "")
  {
    TrimAround(name, "", "");
    assert name + "" + "" == name;
    assert Split("") == [""];
  }

  function PersonOf(u: User): Person { SplitName(u.name) }

  /** The directory's person for an id, or empty first and last names when there is none. */
  function PersonFor(people: map<string, Person>, id: string): Person
  {
    if id in people then people[id] else Person("", "")
  }

  /** A user's names come from the last user listed with that id. */
  lemma PersonOfListed(users: seq<User>, i: int)
    requires 0 <= i < |users|
    requires forall j :: i < j < |users| ==> users[j].userId != users[i].userId
    ensures PersonFor(Index(users, PersonOf), users[i].userId) == SplitName(users[i].name)
  {
    IndexLastWins(users, PersonOf, i);
  }

  /** A punch of an unknown user gets empty names. */
  lemma PersonOfUnlisted(users: seq<User>, id: string)
    requires forall j :: 0 <= j < |users| ==> users[j].userId != id
    ensures PersonFor(Index(users, PersonOf), id) == Person("", "")
  {
    IndexKeys(users, PersonOf);
  }

  // ----------------------------------------------------------- raw filter

  /**
   * The raw filter: the punch has a valid instant, is not before `start` and
   * not after the last millisecond of `end`'s day. A bound that does not
   * parse is an Invalid Date, which no comparison is true against.
   */
  predicate Passes(p: Punch, start: Option<Stamp>, end: Option<Stamp>)
  {
    && p.recordTime.Ms?
    && !(start.Some? && Lt(p.recordTime, start.value))
    && !(end.Some? && Gt(p.recordTime, EndOfDay(end.value)))
  }

  function Raw(logs: seq<Punch>, start: Option<Stamp>, end: Option<Stamp>): seq<Punch>
  {
    Filter(logs, (p: Punch) => Passes(p, start, end))
  }

  /**
   * Exactly the punches with a valid instant inside the range are kept:
   * `start` inclusive, `end` inclusive through the end of its Manila day.
   */
  lemma RawKeeps(logs: seq<Punch>, start: Option<Stamp>, end: Option<Stamp>)
    ensures forall p :: p in Raw(logs, start, end) <==>
              && p in logs && p.recordTime.Ms?
              && (start.Some? && start.value.Ms? ==> start.value.ms <= p.recordTime.ms)
              && (end.Some? && end.value.Ms? ==> DayKey(p.recordTime.ms) <= DayKey(end.value.ms))
  {
    var keep := (p: Punch) => Passes(p, start, end);
    FilterMembers(logs, keep);
    forall p: Punch | p.recordTime.Ms? && end.Some? && end.value.Ms?
      ensures !Gt(p.recordTime, EndOfDay(end.value)) <==> DayKey(p.recordTime.ms) <= DayKey(end.value.ms)
    {
      EndOfDayBound(end.value.ms, p.recordTime.ms);
    }
  }

  /** The kept punches are the input with some left out, in input order. */
  lemma RawInOrder(logs: seq<Punch>, start: Option<Stamp>, end: Option<Stamp>)
    ensures Subsequence(Raw(logs, start, end), logs)
  {
    FilterSubsequence(logs, (p: Punch) => Passes(p, start, end));
  }

  /** A bound that is an Invalid Date filters nothing. */
  lemma InvalidBoundsIgnored(logs: seq<Punch>, start: Option<Stamp>, end: Option<Stamp>)
    ensures Raw(logs, Some(NaN), end) == Raw(logs, None, end)
    ensures Raw(logs, start, Some(NaN)) == Raw(logs, start, None)
  {
    FilterCongruent(logs, (p: Punch) => Passes(p, Some(NaN), end), (p: Punch) => Passes(p, None, end));
    FilterCongruent(logs, (p: Punch) => Passes(p, start, Some(NaN)), (p: Punch) => Passes(p, start, None));
  }

  lemma RawTimed(logs: seq<Punch>, start: Option<Stamp>, end: Option<Stamp>)
    ensures Timed(Raw(logs, start, end))
  {
    var raw := Raw(logs, start, end);
    FilterMembers(logs, (p: Punch) => Passes(p, start, end));
    assert forall i :: 0 <= i < |raw| ==> raw[i] in raw;
  }

  lemma GroupTimed(raw: seq<Punch>, k: Key)
    requires Timed(raw)
    ensures Timed(Group(raw, KeyOf, k))
  {
    var g := Group(raw, KeyOf, k);
    GroupMembers(raw, KeyOf, k);
    forall i | 0 <= i < |g| ensures g[i].recordTime.Ms? {
      assert g[i] in g;
      var j :| 0 <= j < |raw| && raw[j] == g[i];
    }
  }

  // ------------------------------------------------------------- grouping

  /** `groups` is the Map after the punches `xs`: insertion-ordered keys, each with its punches in order. */
  ghost predicate Grouped(groups: map<Key, seq<Punch>>, keys: seq<Key>, xs: seq<Punch>)
  {
    && keys == Keys(xs, KeyOf)
    && (forall k :: k in groups <==> k in keys)
    && (forall k :: k in groups ==> groups[k] == Group(xs, KeyOf, k))
  }

  lemma GroupedStep(groups: map<Key, seq<Punch>>, keys: seq<Key>, xs: seq<Punch>, log: Punch)
    requires Grouped(groups, keys, xs)
    ensures var key := KeyOf(log);
            var created := if key in groups then groups else groups[key := []];
            var keys' := if key in groups then keys else keys + [key];
            Grouped(created[key := created[key] + [log]], keys', xs + [log])
  {
    var key := KeyOf(log);
    var created := if key in groups then groups else groups[key := []];
    var keys' := if key in groups then keys else keys + [key];
    var xs' := xs + [log];
    var groups' := created[key := created[key] + [log]];
    assert xs'[..|xs|] == xs;
    assert keys' == Keys(xs', KeyOf);
    if key !in groups {
      GroupOfUnlisted(xs, KeyOf, key);
    }
    forall k | k in groups'
      ensures groups'[k] == Group(xs', KeyOf, k)
    {
      GroupSnoc(xs, log, KeyOf, k);
      if k != key {
        assert groups'[k] == groups[k];
      }
    }
  }

  /** The loop over the raw punches that fills the grouped map. */
  method GroupPunches(raw: seq<Punch>) returns (keys: seq<Key>, groups: map<Key, seq<Punch>>)
    ensures Grouped(groups, keys, raw)
  {
    keys := [];
    groups := map[];
    for i := 0 to |raw|
      invariant Grouped(groups, keys, raw[..i])
    {
      var log := raw[i];
      var key := KeyOf(log);
      GroupedStep(groups, keys, raw[..i], log);
      if key !in groups {
        groups := groups[key := []];
        keys := keys + [key];
      }
      groups := groups[key := groups[key] + [log]];
      assert raw[..i + 1] == raw[..i] + [log];
    }
    assert raw[..|raw|] == raw;
  }

  // ------------------------------------------------------------- statuses

  datatype Status = CheckIn | BreakOut | BreakIn | CheckOut

  /** The order of the statuses within a day. */
  function Rank(s: Status): int
  {
    match s
    case CheckIn => 0
    case BreakOut => 1
    case BreakIn => 2
    case CheckOut => 3
  }

  function Label(s: Status): string
  {
    match s
    case CheckIn => "Check-In"
    case BreakOut => "Break-Out"
    case BreakIn => "Break-In"
    case CheckOut => "Check-Out"
  }

  function Min(a: int, b: int): int { if a < b then a else b }

  /**
   * The status list of a day with `n` punches. It always starts with a
   * check-in, ends with a check-out from two punches on, takes the statuses
   * in day order, and has a break-out from three punches on and a break-in
   * from four.
   */
  function Statuses(n: nat): (r: seq<Status>)
    ensures |r| == Min(n, 4)
    ensures n >= 1 ==> r[0] == CheckIn
    ensures n >= 2 ==> r[|r| - 1] == CheckOut
    ensures forall i, j :: 0 <= i < j < |r| ==> Rank(r[i]) < Rank(r[j])
    ensures BreakOut in r <==> n >= 3
    ensures BreakIn in r <==> n >= 4
  {
    if n == 1 then [CheckIn]
    else if n == 2 then [CheckIn, CheckOut]
    else if n == 3 then [CheckIn, BreakOut, CheckOut]
    else if n >= 4 then [CheckIn, BreakOut, BreakIn, CheckOut]
    else []
  }

  // ----------------------------------------------------------------- rows

  const DEVICE_NAME := "ZKTeco Device"
  const EVENT_POINT := "Main Door"
  const EVENT_DESCRIPTION := "Attendance Log"
  const DEFAULT_VERIFY_TYPE := "Fingerprint/Card"
  const MISSING_CHECK_OUT := "Missing Check-Out"

  /** One output row, its fields those of the JSON object the handler pushes. */
  datatype Row = Row(
    dateAndTime: Display,
    personnelId: string,
    firstName: string,
    lastName: string,
    deviceName: string,
    eventPoint: string,
    verifyType: string,
    inOutStatus: string,
    eventDescription: string,
    remarks: string)

  /** The row of the `idx`-th punch of a day with `n` punches. */
  function RowOf(log: Punch, status: Status, n: nat, idx: nat, people: map<string, Person>): Row
  {
    var person := PersonFor(people, log.deviceUserId);
    Row(ToManilaString(log.recordTime), log.deviceUserId, person.firstName, person.lastName,
        DEVICE_NAME, EVENT_POINT, if log.verifyType != "" then log.verifyType else DEFAULT_VERIFY_TYPE,
        Label(status), EVENT_DESCRIPTION, if n == 1 && idx == 0 then MISSING_CHECK_OUT else "")
  }

  /** The rows of one sorted day: one per status, the extra punches skipped. */
  function GroupRows(punches: seq<Punch>, people: map<string, Person>): seq<Row>
  {
    var n := |punches|;
    var statuses := Statuses(n);
    seq(Min(n, 4), i requires 0 <= i < Min(n, 4) => RowOf(punches[i], statuses[i], n, i, people))
  }

  /** The rows of the groups of `keys`, in the order of `keys`. */
  function RowsOf(raw: seq<Punch>, keys: seq<Key>, people: map<string, Person>): seq<Row>
    requires Timed(raw)
    decreases |keys|
  {
    if keys == [] then []
    else
      var k := keys[|keys| - 1];
      GroupTimed(raw, k);
      RowsOf(raw, keys[..|keys| - 1], people) + GroupRows(SortByTime(Group(raw, KeyOf, k)), people)
  }

  lemma RowsOfSnoc(raw: seq<Punch>, keys: seq<Key>, k: Key, people: map<string, Person>)
    requires Timed(raw)
    ensures Timed(Group(raw, KeyOf, k))
    ensures RowsOf(raw, keys + [k], people) == RowsOf(raw, keys, people) + GroupRows(SortByTime(Group(raw, KeyOf, k)), people)
  {
    GroupTimed(raw, k);
    assert (keys + [k])[..|keys|] == keys;
  }

  /** The response of the handler, from the users and punches the device returns. */
  function Rows(users: seq<User>, logs: seq<Punch>, start: Option<Stamp>, end: Option<Stamp>): seq<Row>
  {
    var raw := Raw(logs, start, end);
    RawTimed(logs, start, end);
    RowsOf(raw, Keys(raw, KeyOf), Index(users, PersonOf))
  }

  /** The per-punch loop of one day: push the row of each punch that has a status, skip the rest. */
  method EmitGroup(rows0: seq<Row>, punches: seq<Punch>, people: map<string, Person>) returns (rows: seq<Row>)
    ensures rows == rows0 + GroupRows(punches, people)
  {
    var statuses := Statuses(|punches|);
    ghost var expected := GroupRows(punches, people);
    ghost var m := |statuses|;
    assert |expected| == m <= |punches|;
    rows := rows0;
    for idx := 0 to |punches|
      invariant rows == rows0 + expected[..Min(idx, m)]
    {
      if idx < |statuses| {
        var row := RowOf(punches[idx], statuses[idx], |punches|, idx, people);
        GroupRowsStep(punches, people, idx);
        rows := rows + [row];
      }
    }
    assert expected[..m] == expected;
  }

  /** The rows of a day, one status more. */
  lemma GroupRowsStep(punches: seq<Punch>, people: map<string, Person>, idx: int)
    requires 0 <= idx < |Statuses(|punches|)|
    ensures var rows := GroupRows(punches, people);
            rows[..idx + 1] == rows[..idx] + [RowOf(punches[idx], Statuses(|punches|)[idx], |punches|, idx, people)]
  {
    var rows := GroupRows(punches, people);
    assert rows[..idx + 1] == rows[..idx] + [rows[idx]];
  }

  /** The handler after the device read: names, raw filter, grouping, then sort and emit per group. */
  method AttendanceRows(users: seq<User>, logs: seq<Punch>, start: Option<Stamp>, end: Option<Stamp>)
    returns (rows: seq<Row>)
    ensures rows == Rows(users, logs, start, end)
  {
    var people := BuildIndex(users, PersonOf);
    var raw := Raw(logs, start, end);
    RawTimed(logs, start, end);
    var keys, groups := GroupPunches(raw);
    rows := EmitAll(raw, keys, groups, people);
  }

  /** The loop over the keys of the grouped map, in insertion order. */
  method EmitAll(raw: seq<Punch>, keys: seq<Key>, groups: map<Key, seq<Punch>>, people: map<string, Person>)
    returns (rows: seq<Row>)
    requires Timed(raw)
    requires forall k :: k in keys ==> k in groups && groups[k] == Group(raw, KeyOf, k)
    ensures rows == RowsOf(raw, keys, people)
  {
    rows := [];
    for t := 0 to |keys|
      invariant rows == RowsOf(raw, keys[..t], people)
    {
      var k := keys[t];
      GroupTimed(raw, k);
      var punches := SortedCopy(groups[k]);
      assert keys[..t + 1] == keys[..t] + [k];
      RowsOfSnoc(raw, keys[..t], k, people);
      rows := EmitGroup(rows, punches, people);
    }
    assert keys[..|keys|] == keys;
  }

  /** A copy of the day's punches in an array, sorted in place. */
  method SortedCopy(g: seq<Punch>) returns (punches: seq<Punch>)
    requires Timed(g)
    ensures punches == SortByTime(g)
  {
    var a := new Punch[|g|](k requires 0 <= k < |g| => g[k]);
    assert a[..] == g;
    SortPunches(a);
    punches := a[..];
  }

  // -------------------------------------------------------------- about rows

  /**
   * A day of `n` punches gives `min(n, 4)` rows; row `i` is the `i`-th
   * earliest punch, labelled with the `i`-th status and carrying its user's
   * names from the directory; the remark says a check-out is missing when the
   * day has a single punch, and is empty otherwise.
   */
  lemma GroupRowsMeaning(g: seq<Punch>, people: map<string, Person>)
    requires Timed(g)
    ensures var s := SortByTime(g);
            var rows := GroupRows(s, people);
            && |rows| == Min(|g|, 4)
            && multiset(s) == multiset(g)
            && (forall i, j :: 0 <= i < j < |s| ==> s[i].recordTime.ms <= s[j].recordTime.ms)
            && (forall i :: 0 <= i < |rows| ==>
                  && rows[i].dateAndTime == ToManilaString(s[i].recordTime)
                  && rows[i].inOutStatus == Label(Statuses(|g|)[i])
                  && rows[i].personnelId == s[i].deviceUserId
                  && (rows[i].remarks == MISSING_CHECK_OUT <==> |g| == 1)
                  && (|g| != 1 ==> rows[i].remarks == "")
                  && rows[i].firstName == PersonFor(people, s[i].deviceUserId).firstName
                  && rows[i].lastName == PersonFor(people, s[i].deviceUserId).lastName)
  {
    SortSorted(g);
    SortPermutation(g);
    var s := SortByTime(g);
    assert |s| == |multiset(s)| == |g|;
    GroupRowsFields(s, people);
  }

  /** The fields of each row of a sorted day, in terms of its punch and the day's size. */
  lemma GroupRowsFields(s: seq<Punch>, people: map<string, Person>)
    ensures var rows := GroupRows(s, people);
            forall i :: 0 <= i < |rows| ==>
              && rows[i].dateAndTime == ToManilaString(s[i].recordTime)
              && rows[i].inOutStatus == Label(Statuses(|s|)[i])
              && rows[i].personnelId == s[i].deviceUserId
              && (rows[i].remarks == MISSING_CHECK_OUT <==> |s| == 1)
              && (|s| != 1 ==> rows[i].remarks == "")
              && rows[i].firstName == PersonFor(people, s[i].deviceUserId).firstName
              && rows[i].lastName == PersonFor(people, s[i].deviceUserId).lastName
  {
  }

  /** The fixed and fallback fields of every row. */
  lemma RowFields(log: Punch, status: Status, n: nat, idx: nat, people: map<string, Person>)
    ensures var r := RowOf(log, status, n, idx, people);
            && r.deviceName == "ZKTeco Device" && r.eventPoint == "Main Door"
            && r.eventDescription == "Attendance Log"
            && (log.verifyType == "" ==> r.verifyType == "Fingerprint/Card")
            && (log.verifyType != "" ==> r.verifyType == log.verifyType)
            && (log.deviceUserId !in people ==> r.firstName == "" && r.lastName == "")
  {
  }

  /** Every row stands for a kept punch: its user and its instant. The punch is returned. */
  lemma {:induction false} RowsOfFrom(raw: seq<Punch>, keys: seq<Key>, people: map<string, Person>, i: int)
    returns (p: Punch)
    requires Timed(raw) && 0 <= i < |RowsOf(raw, keys, people)|
    ensures p in raw
    ensures RowsOf(raw, keys, people)[i].personnelId == p.deviceUserId
    ensures RowsOf(raw, keys, people)[i].dateAndTime == ToManilaString(p.recordTime)
    decreases |keys|
  {
    var k := keys[|keys| - 1];
    var init := RowsOf(raw, keys[..|keys| - 1], people);
    if i < |init| {
      p := RowsOfFrom(raw, keys[..|keys| - 1], people, i);
    } else {
      var g := Group(raw, KeyOf, k);
      GroupTimed(raw, k);
      var rows := GroupRows(SortByTime(g), people);
      assert RowsOf(raw, keys, people) == init + rows;
      p := GroupRowFrom(g, people, i - |init|);
      GroupMembers(raw, KeyOf, k);
    }
  }

  /** Every row of a day stands for one of the day's punches. The punch is returned. */
  lemma GroupRowFrom(g: seq<Punch>, people: map<string, Person>, j: int) returns (p: Punch)
    requires Timed(g) && 0 <= j < |GroupRows(SortByTime(g), people)|
    ensures p in g
    ensures GroupRows(SortByTime(g), people)[j].personnelId == p.deviceUserId
    ensures GroupRows(SortByTime(g), people)[j].dateAndTime == ToManilaString(p.recordTime)
  {
    var s := SortByTime(g);
    p := s[j];
    SortPermutation(g);
    assert p in multiset(g);
  }

  /** Every row of the response stands for a punch of the device that passed the filter. */
  lemma RowsFromKeptPunches(users: seq<User>, logs: seq<Punch>, start: Option<Stamp>, end: Option<Stamp>, i: int)
    returns (p: Punch)
    requires 0 <= i < |Rows(users, logs, start, end)|
    ensures p in logs && Passes(p, start, end)
    ensures Rows(users, logs, start, end)[i].personnelId == p.deviceUserId
    ensures Rows(users, logs, start, end)[i].dateAndTime == ToManilaString(p.recordTime)
  {
    var raw := Raw(logs, start, end);
    RawTimed(logs, start, end);
    p := RowsOfFrom(raw, Keys(raw, KeyOf), Index(users, PersonOf), i);
    FilterMembers(logs, (q: Punch) => Passes(q, start, end));
  }
}
