# ZK attendance bridge — a Dafny model

The bridge reads users and punches from a ZKTeco fingerprint or card
terminal. It turns them into per-day attendance data in three ways:

- **Time-window strategy** (`server2.js`). Punches in a date range are
  grouped per (Manila date, user). Each day's check-in, break-out, break-in
  and check-out come from the hour of the punches. Each day record is then
  evaluated against the attendance policy (late check-in, early leave, long
  lunch). The records are posted to a webhook with up to five attempts.
  Two half-month range presets pick the dates.
- **Ordinal reconciliation** (`formatted.js`). The raw punches are filtered
  by an optional date range and grouped per user and Manila day. Each group
  is sorted by time, and the punches are labelled by position: Check-In,
  Break-Out, Break-In, Check-Out. A day emits at most four rows.
- **Filter-and-enrich** (`server.js`). Punches inside an optional date range
  get the user's display name and the Manila local time.

How the model represents the system:

- **Instants.** A JavaScript `Date` is modelled by its time value,
  `Manila.Stamp`: milliseconds since the epoch, or `NaN` for an Invalid Date.
  Comparisons follow IEEE rules, so every comparison with `NaN` is false.
- **Manila time.** Asia/Manila is a fixed UTC+8 offset with no daylight
  saving. A Manila date string ("YYYY-MM-DD") becomes a day number, and an
  "HH:MM:SS" time becomes a second of the day.
- **Device and network as parameters.** The device's user and punch lists
  are parameters. So is the webhook's answer to each POST attempt, as
  `post: nat -> bool`, and so is the clock's current year and month.

Modules, one per concern:

- `Manila` (`manila.dfy`): fixed-offset time arithmetic.
- `Text` (`text.dfy`): trimming, splitting at whitespace, joining.
- `Seqs` (`seqs.dfy`): `filter`.
- `Grouping` (`grouping.dfy`): one-pass grouping in insertion order.
- `Directory` (`directory.dfy`): the `userMap` builds.
- `Device` (`device.dfy`): the device records and the grouping key.
- `Policy` (`policy.dfy`): `evaluateAttendance`.
- `WindowAssign` (`window.dfy`): `getAttendanceLogs`.
- `Sync` (`sync.dfy`): `runAttendanceSync`.
- `Presets` (`presets.dfy`): `getRangeSetA` and `getRangeSetB`.
- `Chrono` (`chrono.dfy`): the stable sort.
- `Ordinal` (`ordinal.dfy`): the formatted.js handler.
- `Enrich` (`enrich.dfy`): the server.js handler.

The loops of the source are methods, each proved equal to a specification
function: `BuildIndex`, `GetAttendanceLogs` (with `GroupLogs` and
`Collect`), `AssignSlots`, `RunAttendanceSync` (with `Deliver`),
`GroupPunches`, `SortPunches`, `EmitGroup`, `AttendanceRows` (with `EmitAll`)
and `AttendanceLogs`. Lemmas state what those functions
mean.

Where the code does something a reader might not expect, the model follows the code:

- In `server2.js` a punch whose time does not parse passes the range filter.
  Nothing compares true against NaN. The punch forms an "Invalid Date" group
  that sets no slot, and that record evaluates as "Incomplete attendance".
- The `server.js` bounds are asymmetric. An unparseable `start` is still a
  truthy Date object, against which no comparison holds, so it drops
  everything. An unparseable `end` becomes the number NaN through
  `setHours`, which is falsy, so it filters nothing.
- In `formatted.js` an unparseable bound of either kind filters nothing.
- The `server2.js` range ends at 23:59:59.000 of the end day, so a punch in
  the last 999 ms of that day is left out.

## Model

| member | source | states |
|---|---|---|
| Manila.DayKeyBounds | formatted.js:11-20 | an instant lies between the first and the last millisecond of its Manila day |
| Manila.FormatDateTimeInverse | server2.js:23-25 | building an instant from its Manila date and "HH:MM:SS" time gives the instant back, milliseconds dropped |
| Manila.FormatDateTimeMonotone | server2.js:23-25 | on one date, comparing instants compares times of day, and differences scale by 1000 |
| Manila.EndOfDay | formatted.js:50 | setting the clock to 23:59:59.999 keeps the Manila day and moves to its last millisecond; an Invalid Date stays invalid |
| Manila.ToManilaStringSameSecond | server.js:61 | two valid instants display the same exactly when they fall in the same second; only the milliseconds are lost |
| Manila.EndOfDayBound | formatted.js:56-57 | an instant is at or before the end bound exactly when its Manila day is not later than the bound's day |
| Text.Trim | formatted.js:40 | the trimmed string has no whitespace at either end |
| Text.TrimIsSlice | formatted.js:40 | the trimmed string is a slice of the input, and only whitespace is cut at both ends |
| Text.Split | formatted.js:40 | splitting at whitespace gives at least one piece, and no piece contains whitespace (what the pieces are: `Text.SplitSpaced`) |
| Text.SplitJoin | formatted.js:40-42 | splitting words joined by single spaces gives the words back |
| Text.SplitGap | formatted.js:40 | a word, any non-empty run of whitespace, then more text: the word is the first piece and the whole run is dropped |
| Text.SpacedTrimmed | formatted.js:40 | words with whitespace runs between them neither start nor end with whitespace |
| Text.SplitSpaced | formatted.js:40 | splitting words separated by any non-empty runs of whitespace (spaces, tabs, line breaks) gives the words back |
| Text.TrimAround | formatted.js:40 | trimming a trimmed string wrapped in whitespace gives that string |
| Seqs.FilterMembers | formatted.js:53-59 | the filter keeps exactly the elements that satisfy the predicate, each copy of them |
| Seqs.FilterSubsequence | server.js:50-55 | the filtered list is the input with some elements dropped, the rest in order |
| Grouping.KeysExactly | formatted.js:62-69 | the group keys are distinct and are exactly the keys of the input elements |
| Grouping.KeysInFirstOccurrenceOrder | formatted.js:62-69 | groups come in the order of their keys' first occurrence, the insertion order of the Map |
| Grouping.GroupMembers | formatted.js:66-68 | a group holds exactly the elements with its key, every copy of them |
| Grouping.FlattenPermutation | formatted.js:62-69 | all groups together are a permutation of the grouped elements |
| Grouping.GroupIsFilter | formatted.js:62-69 | a group is exactly the array filter of the input on its key |
| Grouping.GroupInOrder | formatted.js:62-69 | a group keeps its elements in input order, as pushing them one by one does |
| Directory.BuildIndex | server.js:39-42 | the loop over the users builds the user directory of the fold `Index` |
| Directory.IndexKeys | server.js:39-42 | the directory has an entry exactly for each listed user id |
| Directory.IndexLastWins | formatted.js:39-44 | a later user with the same id overwrites an earlier one |
| Directory.UsernameOfListed | server2.js:68-71 | a listed user's name is the last such user's name, or the id when that name is empty |
| Directory.UsernameOfUnlisted | server.js:60 | an id with no user names itself |
| Policy.Evaluate | server2.js:27-58 | the evaluated record has remarks set and every other field unchanged |
| Policy.EvaluateIncomplete | server2.js:32-33 | a record missing any of the four slots is "Incomplete attendance" and nothing else |
| Policy.EvaluateComplete | server2.js:34-57 | a complete record with a valid date gets the violated rules in rule order, joined with ", ", or "Present" when none are violated |
| Policy.RuleConditions | server2.js:40-53 | late exactly after 08:15:00, early exactly before 18:30:00, long break exactly over 60 minutes |
| Policy.PresentIff | server2.js:56 | "Present" exactly when the record is complete and breaks no rule |
| Policy.BoundariesNotFlagged | server2.js:40-53 | check-in at 08:15:00, check-out at 18:30:00 and a break of exactly 60 minutes are not flagged |
| Policy.Example | server2.js:27-58 | 08:20, 12:00, 12:45 and 18:25 give "Late check-in, Left early" |
| WindowAssign.GetAttendanceLogs | server2.js:68-153 | the directory loop, the grouping loop and the read-out of the map return one record per key, as `Records` defines |
| WindowAssign.GroupLogs | server2.js:112-151 | after the loop over the punches, the map holds one record per key of the kept punches, each the record of its group, keys in insertion order |
| WindowAssign.Collect | server2.js:153 | the map's values are read out in the order of the keys |
| WindowAssign.AssignSlots | server2.js:136-150 | the in-place slot updates for one punch are the step `Assigned` |
| WindowAssign.RecordSnoc | server2.js:134-150 | one more punch changes a day record by exactly that one step |
| WindowAssign.TracksStep | server2.js:121-150 | creating a missing record and assigning slots keeps every record equal to the record of its group |
| WindowAssign.EarliestInIsMinimum | server2.js:137-139 | check-in (and break-out) is the least time of day in its window, and absent exactly when no punch falls in the window |
| WindowAssign.LatestInIsMaximum | server2.js:148-150 | check-out (and break-in) is the greatest time of day in its window, and absent exactly when no punch falls in the window |
| WindowAssign.BreakSlotsTogether | server2.js:142-145 | break-out and break-in are set together, with break-out not after break-in |
| WindowAssign.HourFourteenIgnored | server2.js:136-150 | a punch in hour 14, or with an Invalid Date, changes no slot |
| WindowAssign.RecordOrderIndependent | server2.js:112-151 | a record depends only on the multiset of its punches, not on their order |
| WindowAssign.InRangeDays | server2.js:73-74 | a valid punch is in range exactly when its Manila day is in [start, end], and on the end day it is not after 23:59:59.000 |
| WindowAssign.LastSecondOfEndDay | server2.js:114 | 23:59:59.500 on the end day is excluded and 23:59:59.000 is kept |
| WindowAssign.OneRecordPerKey | server2.js:121-153 | one record per distinct (date, user) of the kept punches, in first-occurrence order, carrying its key's date |
| WindowAssign.InvalidDateRecordIncomplete | server2.js:113-119 | the Invalid Date group sets no slot and evaluates as "Incomplete attendance" |
| Sync.RunAttendanceSync | server2.js:156-182 | a failed fetch logs once and posts nothing; otherwise the evaluated records are posted attempt by attempt, as `Delivery` defines |
| Sync.Deliver | server2.js:162-177 | the retry loop produces the events `Delivery` defines from the first attempt |
| Sync.FailuresThenDelivery | server2.js:165-177 | after n failed attempts, the events so far followed by the delivery from attempt n+1 are the whole delivery |
| Sync.EvaluateAll | server2.js:159 | one evaluated record per record, position by position |
| Sync.FirstSuccess | server2.js:165-177 | when attempt k is the first to succeed: k posts, k-1 failures, k-1 waits, one success, logged last; every failure is immediately followed by a wait |
| Sync.FirstSuccessTrace | server2.js:165-177 | when attempt k is the first to succeed, the run is attempts 1 to k-1 each as post, failure, wait, then the post and success of attempt k |
| Sync.WaitAfterEachFailure | server2.js:172-175 | whatever the webhook answers, every logged failure is immediately followed by a wait |
| Sync.FailuresLayout | server2.js:165-177 | the failed attempts come in order, attempt j+1 as post, failure, wait at positions 3j to 3j+2 |
| Sync.AllFail | server2.js:165-177 | when every attempt fails: five posts, five failures, five waits (the last after the fifth attempt) and no success |
| Sync.AtMostFivePosts | server2.js:165 | never more than five posts, whatever the webhook answers |
| Presets.RangeSetA | server2.js:184-193 | from the 26th of the month before (December of the year before in January) to the 10th; valid dates, start before end |
| Presets.RangeSetB | server2.js:195-202 | from the 11th to the 25th of the current month; valid dates, start before end |
| Presets.SetsPartitionMonth | server2.js:184-202 | the two sets of a month cover the 26th of the month before through the 25th, with no day in both |
| Presets.PeriodsAdjacent | server2.js:184-202 | the next month's set A starts the day after this month's set B ends |
| Chrono.SortPunches | formatted.js:76 | the in-place sort leaves the array as the stable insertion order `SortByTime` |
| Chrono.InsertAt | formatted.js:76 | moving one element left past every later timestamp inserts it into the sorted prefix and leaves the rest of the array alone |
| Chrono.SortStep | formatted.js:76 | inserting the next input element into the sorted prefix gives the sort of the longer prefix |
| Chrono.SortSorted | formatted.js:76 | the sorted group has non-decreasing timestamps |
| Chrono.SortPermutation | formatted.js:76 | the sorted group is a permutation of the group |
| Chrono.SortStable | formatted.js:76 | punches with equal timestamps keep their input order |
| Ordinal.SplitName | formatted.js:40-43 | the first name has no whitespace, and it is empty exactly when the trimmed name is empty |
| Ordinal.SplitNameOfWords | formatted.js:40-42 | a name made of words gives the first word as first name and the rest, single-spaced, as last name ("" for one word) |
| Ordinal.SplitNameOfSpacedWords | formatted.js:40-42 | a name whose words are separated by any runs of whitespace gives the first word as first name and the other words, single-spaced, as last name |
| Ordinal.SplitNameTwoSpaces | formatted.js:40-42 | "Ana  Maria" with two spaces gives first name "Ana" and last name "Maria" |
| Ordinal.SplitNameBlank | formatted.js:40-42 | a blank or missing name gives empty first and last names |
| Ordinal.PersonOfListed | formatted.js:39-44 | a punch's names are those of the last user listed with its id |
| Ordinal.PersonOfUnlisted | formatted.js:100 | a punch of an unknown user gets "" for both names |
| Ordinal.RawKeeps | formatted.js:46-59 | exactly the punches with a valid time, not before `start` and on or before `end`'s Manila day, are kept |
| Ordinal.RawInOrder | formatted.js:53-59 | the kept punches are the input with some dropped, in order |
| Ordinal.InvalidBoundsIgnored | formatted.js:48-57 | an unparseable `start` or `end` filters nothing |
| Ordinal.GroupPunches | formatted.js:62-69 | the Map loop yields the keys in insertion order, each with exactly its punches in input order |
| Ordinal.GroupedStep | formatted.js:63-69 | one more punch keeps every Map entry equal to the group of its key |
| Ordinal.Statuses | formatted.js:84-93 | min(n,4) statuses in day order, starting with Check-In, ending with Check-Out from two punches on, Break-Out from three, Break-In from four |
| Ordinal.EmitGroup | formatted.js:96-117 | the per-punch loop appends the rows of the day, as `GroupRows` defines, skipping punches without a status |
| Ordinal.EmitAll | formatted.js:73-118 | the loop over the Map's entries gives the rows of every group in key order, as `RowsOf` defines |
| Ordinal.SortedCopy | formatted.js:76 | a day's punches sorted in place in an array come out as `SortByTime` orders them |
| Ordinal.AttendanceRows | formatted.js:38-118 | the handler's loops give the rows of all groups in Map order, as `Rows` defines |
| Ordinal.GroupRowsMeaning | formatted.js:74-117 | a day of n punches gives min(n,4) rows; row i is the i-th earliest punch with the i-th status and its user's first and last name from the directory; the remark is "Missing Check-Out" for a single punch and "" otherwise |
| Ordinal.RowFields | formatted.js:107-115 | constant device, event point and description; Verify Type falls back to "Fingerprint/Card"; unknown users have empty names |
| Ordinal.RowsOfFrom | formatted.js:74-117 | every emitted row stands for a punch of its group: same personnel id and instant |
| Ordinal.GroupRowFrom | formatted.js:96-117 | every row of a day is built from one of that day's punches |
| Ordinal.RowsFromKeptPunches | formatted.js:53-117 | every row of the response stands for a device punch that passed the filter |
| Enrich.AttendanceLogs | server.js:39-63 | the directory loop plus filter and map give `Enriched` |
| Enrich.EnrichedInOrder | server.js:50-63 | the response holds the kept punches, one element each, in input order |
| Enrich.EnrichedBounds | server.js:46-55 | with valid bounds, exactly the punches at or after `start` and on or before `end`'s Manila day are kept |
| Enrich.NoBoundsKeepsAll | server.js:53-54 | with neither bound every punch is kept in order, even one whose time does not parse |
| Enrich.InvalidStartKeepsNothing | server.js:46-53 | an unparseable `start` drops every punch |
| Enrich.InvalidEndIgnored | server.js:47-54 | an unparseable `end` filters nothing |
| Enrich.EnrichedFields | server.js:56-62 | each element keeps its punch and adds the Manila local time and the user name (last listed user's name, else the id) |

## Left out

- **Web layer.** Express routes, ports, `app.listen`, HTTP status codes and
  JSON responses are left out: they are web plumbing. Query strings arrive
  already parsed, as an optional instant (`None` when absent or empty, `NaN`
  when unparseable).
- **Query-string parsing.** The `Date` parsing of the query strings is not
  modelled. For example, a date-only ISO string parses as UTC midnight, which
  is 08:00 in Manila.
- **getAttendanceLogs date arguments.** The `server2.js` range arguments
  arrive as valid Manila day numbers. The parsing of `startDate`/`endDate`
  strings is not modelled, nor are invalid strings.
- **Preset dates into the sync.** Converting a preset's civil date to the
  day number the sync takes is not modelled. The presets stay in calendar
  terms (year, month, day).
- **Device I/O.** The ZKLib socket connect, read and disconnect, and the
  shared `zk` object, are left out. The device's lists are parameters. In
  `Sync.RunAttendanceSync`, any failure while fetching is one `None`.
- **`users?.data || []` and `logs?.data || []` in formatted.js.** These
  fallbacks are left out: the lists are given directly.
- **Webhook POST.** `axios.post` and the webhook URLs are left out. Each
  attempt's outcome is the parameter `post`. The final POST of formatted.js
  is left out as well.
- **Logging.** `fs.appendFileSync` and `console` output are left out; the
  log is a list of abstract events.
  - The event for a failed attempt carries the attempt number, as the
    console line does. The file line omits it.
- **Waits.** The 60-second `setTimeout` waits are counted as events, not
  timed.
- **Display strings.** `Intl` and `toLocaleString` formatting details are
  left out. The display string is the opaque pair (Manila day, second of
  day), or `InvalidDate`. Engine quirks such as a "24:xx" hour are not
  modelled.
- **Host time zone.** The host zone is taken to be Asia/Manila for
  `setHours(23,59,59,999)` and `new Date(y, m, d)`. On another host these
  use that host's zone.
- **String keys.** The keys of `server2.js` and `formatted.js` are modelled
  as (date, user id) pairs, not concatenated strings. The collisions that
  concatenation allows when an id contains the separator are left out.
- **User ids.** User ids are modelled as strings, and the empty string is
  the only id or name the model treats as absent. A numeric id 0 from the
  device would be falsy in the `||` fallbacks and behave differently; that
  case is not modelled.
- **Object-property maps.** `userMap` is modelled as a map, so keys such as
  `__proto__` or names inherited from `Object.prototype` behave like any
  other key.
- **Grouped values.** The `grouped` dictionaries are modelled as maps of
  values, not shared mutable objects.
  - The day records of `server2.js` are updated by reassigning the map
    entry.
  - Each formatted.js group is copied into an array for the in-place sort.
- **Sort algorithm.** The engine's sort algorithm is not modelled. The
  in-place sort is an insertion sort with the stable result the language
  requires. It runs only on punches with valid times, as formatted.js does.
- **Other code.** cron schedules, `app.js`, the `/users` routes,
  `toLocalTime` and the commented-out code are left out.
