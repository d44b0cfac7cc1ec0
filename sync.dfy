/**
 * The sync orchestrator of server2.js (`runAttendanceSync`): read the device,
 * build and evaluate the day records, and post them to the webhook with at
 * most five attempts.
 */
module Sync {
  import opened Wrappers
  import opened Device
  import opened Directory
  import opened Policy
  import opened WindowAssign

  /** What a run does and logs, in order. A wait is the 60-second pause after a failed attempt. */
  datatype Event =
    | Post(attempt: nat)
    | SyncSuccessful(attempt: nat)
    | AttemptFailed(attempt: nat)
    | Wait
    | FetchFailed

  const MAX_ATTEMPTS: nat := 5

  /** The events of the attempts numbered `attempt` through the fifth, when the earlier ones failed. */
  function Delivery(post: nat -> bool, attempt: nat): seq<Event>
    decreases MAX_ATTEMPTS + 1 - attempt
  {
    if attempt > MAX_ATTEMPTS then []
    else if post(attempt) then [Post(attempt), SyncSuccessful(attempt)]
    else [Post(attempt), AttemptFailed(attempt), Wait] + Delivery(post, attempt + 1)
  }

  /**
   * `runAttendanceSync`. `device` is what the device read returns (None when
   * it throws), `post(k)` whether the k-th POST succeeds. The payload is the
   * evaluated records; an error while fetching is logged once and swallowed.
   */
  method RunAttendanceSync(device: Option<(seq<User>, seq<Punch>)>, startDay: int, endDay: int, post: nat -> bool)
    returns (payload: seq<DayRecord>, events: seq<Event>)
    ensures device.None? ==> payload == [] && events == [FetchFailed]
    ensures device.Some? ==>
              && payload == EvaluateAll(Records(device.value.1, Index(device.value.0, DisplayName), startDay, endDay))
              && events == Delivery(post, 1)
  {
    if device.None? {
      return [], [FetchFailed];
    }
    var logs := GetAttendanceLogs(device.value.0, device.value.1, startDay, endDay);
    payload := EvaluateAll(logs);
    events := Deliver(post);
  }

  /** The retry loop: post until one attempt succeeds or five have failed. */
  method Deliver(post: nat -> bool) returns (events: seq<Event>)
    ensures events == Delivery(post, 1)
  {
    events := [];
    var attempt: nat := 0;
    var success := false;
    while !success && attempt < MAX_ATTEMPTS
      invariant attempt <= MAX_ATTEMPTS
      invariant forall j :: 1 <= j <= attempt && (j < attempt || !success) ==> !post(j)
      invariant !success ==> events == Failures(attempt)
      invariant success ==> 1 <= attempt && post(attempt)
                            && events == Failures(attempt - 1) + [Post(attempt), SyncSuccessful(attempt)]
      decreases MAX_ATTEMPTS - attempt, if success then 0 else 1
    {
      ghost var before := events;
      attempt := attempt + 1;
      events := events + [Post(attempt)];
      if post(attempt) {
        events := events + [SyncSuccessful(attempt)];
        success := true;
      } else {
        events := events + [AttemptFailed(attempt), Wait];
      }
      assert events == before + (if success then [Post(attempt), SyncSuccessful(attempt)]
                                 else [Post(attempt), AttemptFailed(attempt), Wait]);
    }
    if success {
      FailuresThenDelivery(post, attempt - 1);
    } else {
      FailuresThenDelivery(post, attempt);
      assert Delivery(post, attempt + 1) == [];
      assert events + [] == events;
    }
  }

  /** The events of the first `n` attempts when all of them fail. */
  function Failures(n: nat): seq<Event>
  {
    if n == 0 then [] else Failures(n - 1) + [Post(n), AttemptFailed(n), Wait]
  }

  /** After `n` failed attempts, the rest of the run is the delivery from attempt `n + 1`. */
  lemma FailuresThenDelivery(post: nat -> bool, n: nat)
    requires n <= MAX_ATTEMPTS && forall j :: 1 <= j <= n ==> !post(j)
    ensures Failures(n) + Delivery(post, n + 1) == Delivery(post, 1)
  {
    FailuresShift(post, n, 0);
    assert Failures(0) == [];
  }

  /** Moving the split point between the failed attempts and the rest of the run back to attempt `k + 1`. */
  lemma {:induction false} FailuresShift(post: nat -> bool, n: nat, k: nat)
    requires k <= n <= MAX_ATTEMPTS && forall j :: 1 <= j <= n ==> !post(j)
    ensures Failures(n) + Delivery(post, n + 1) == Failures(k) + Delivery(post, k + 1)
    decreases n - k
  {
    if k < n {
      FailuresShift(post, n, k + 1);
      var step := [Post(k + 1), AttemptFailed(k + 1), Wait];
      assert !post(k + 1);
      calc {
        Failures(k) + Delivery(post, k + 1);
        Failures(k) + (step + Delivery(post, k + 2));
        (Failures(k) + step) + Delivery(post, k + 2);
        Failures(k + 1) + Delivery(post, k + 2);
      }
    }
  }

  /** Every record evaluated, in order. */
  function EvaluateAll(logs: seq<DayRecord>): (r: seq<DayRecord>)
    ensures |r| == |logs| && forall i :: 0 <= i < |logs| ==> r[i] == Evaluate(logs[i])
  {
    seq(|logs|, i requires 0 <= i < |logs| => Evaluate(logs[i]))
  }

  predicate IsPost(e: Event) { e.Post? }
  predicate IsFailure(e: Event) { e.AttemptFailed? }
  predicate IsWait(e: Event) { e.Wait? }
  predicate IsSuccess(e: Event) { e.SyncSuccessful? }

  /** The number of events of one kind. */
  function Count(events: seq<Event>, e: Event -> bool): nat
  {
    if events == [] then 0 else (if e(events[0]) then 1 else 0) + Count(events[1..], e)
  }

  lemma {:induction false} CountAppend(a: seq<Event>, b: seq<Event>, e: Event -> bool)
    ensures Count(a + b, e) == Count(a, e) + Count(b, e)
    decreases |a|
  {
    if a != [] {
      assert (a + b)[1..] == a[1..] + b;
      CountAppend(a[1..], b, e);
    } else {
      assert a + b == b;
    }
  }

  /** The events of one failed attempt: one post, one failure, one wait. */
  lemma FailedAttemptCounts(attempt: nat, rest: seq<Event>)
    ensures var d := [Post(attempt), AttemptFailed(attempt), Wait] + rest;
            && Count(d, IsPost) == 1 + Count(rest, IsPost)
            && Count(d, IsFailure) == 1 + Count(rest, IsFailure)
            && Count(d, IsWait) == 1 + Count(rest, IsWait)
            && Count(d, IsSuccess) == Count(rest, IsSuccess)
  {
    var d := [Post(attempt), AttemptFailed(attempt), Wait] + rest;
    forall e: Event -> bool
      ensures Count(d, e) == (if e(Post(attempt)) then 1 else 0) + (if e(AttemptFailed(attempt)) then 1 else 0)
                             + (if e(Wait) then 1 else 0) + Count(rest, e)
    {
      assert d[0] == Post(attempt) && d[1..] == [AttemptFailed(attempt), Wait] + rest;
      assert d[1..][0] == AttemptFailed(attempt) && d[1..][1..] == [Wait] + rest;
      assert d[1..][1..][0] == Wait && d[1..][1..][1..] == rest;
      assert Count(d[1..][1..], e) == (if e(Wait) then 1 else 0) + Count(rest, e);
      assert Count(d[1..], e) == (if e(AttemptFailed(attempt)) then 1 else 0) + Count(d[1..][1..], e);
      assert Count(d, e) == (if e(Post(attempt)) then 1 else 0) + Count(d[1..], e);
    }
    assert IsPost(Post(attempt)) && !IsPost(AttemptFailed(attempt)) && !IsPost(Wait);
    assert IsFailure(AttemptFailed(attempt)) && !IsFailure(Post(attempt)) && !IsFailure(Wait);
    assert IsWait(Wait) && !IsWait(Post(attempt)) && !IsWait(AttemptFailed(attempt));
    assert !IsSuccess(Wait) && !IsSuccess(Post(attempt)) && !IsSuccess(AttemptFailed(attempt));
  }

  /**
   * When attempt `k` is the first to succeed, exactly `k` posts are made and
   * logged: `k - 1` failures each followed by a wait, then one success, last.
   */
  lemma {:induction false} FirstSuccess(post: nat -> bool, from: nat, k: nat)
    requires 1 <= from <= k <= MAX_ATTEMPTS && post(k)
    requires forall j :: from <= j < k ==> !post(j)
    ensures var d := Delivery(post, from);
            && Count(d, IsPost) == k - from + 1
            && Count(d, IsFailure) == k - from
            && Count(d, IsWait) == k - from
            && Count(d, IsSuccess) == 1
            && d[|d| - 1] == SyncSuccessful(k)
            && WaitsAfterFailures(d)
  {
    FirstSuccessCounts(post, from, k);
    FirstSuccessLast(post, from, k);
    WaitAfterEachFailure(post, from);
  }

  /** Every failure in `d` is immediately followed by a wait. */
  predicate WaitsAfterFailures(d: seq<Event>)
  {
    forall i :: 0 <= i < |d| && d[i].AttemptFailed? ==> i + 1 < |d| && d[i + 1] == Wait
  }

  /** Whatever the webhook answers, every logged failure is immediately followed by a wait. */
  lemma {:induction false} WaitAfterEachFailure(post: nat -> bool, from: nat)
    ensures WaitsAfterFailures(Delivery(post, from))
    decreases MAX_ATTEMPTS + 1 - from
  {
    if from <= MAX_ATTEMPTS && !post(from) {
      WaitAfterEachFailure(post, from + 1);
      var rest := Delivery(post, from + 1);
      WaitsAfterFailedAttempt(from, rest);
      assert Delivery(post, from) == [Post(from), AttemptFailed(from), Wait] + rest;
    }
  }

  /** A failed attempt in front keeps every failure followed by a wait. */
  lemma WaitsAfterFailedAttempt(attempt: nat, rest: seq<Event>)
    requires WaitsAfterFailures(rest)
    ensures WaitsAfterFailures([Post(attempt), AttemptFailed(attempt), Wait] + rest)
  {
    var d := [Post(attempt), AttemptFailed(attempt), Wait] + rest;
    forall i | 0 <= i < |d| && d[i].AttemptFailed?
      ensures i + 1 < |d| && d[i + 1] == Wait
    {
      if i >= 3 {
        assert d[i] == rest[i - 3];
        assert rest[i - 3].AttemptFailed?;
        assert d[i + 1] == rest[i - 2];
      }
    }
  }

  /**
   * With attempt `k` the first to succeed, the whole run is `k - 1` failed
   * attempts (post, failure, wait each), then the post and success of attempt `k`.
   */
  lemma FirstSuccessTrace(post: nat -> bool, k: nat)
    requires 1 <= k <= MAX_ATTEMPTS && post(k)
    requires forall j :: 1 <= j < k ==> !post(j)
    ensures Delivery(post, 1) == Failures(k - 1) + [Post(k), SyncSuccessful(k)]
  {
    FailuresThenDelivery(post, k - 1);
  }

  /** The failed attempts in order: attempt `j + 1` occupies positions `3 * j` to `3 * j + 2`. */
  lemma {:induction false} FailuresLayout(n: nat)
    ensures |Failures(n)| == 3 * n
    ensures forall j :: 0 <= j < n ==> Failures(n)[3 * j..3 * j + 3] == [Post(j + 1), AttemptFailed(j + 1), Wait]
  {
    if n > 0 {
      FailuresLayout(n - 1);
      var f := Failures(n - 1);
      assert Failures(n) == f + [Post(n), AttemptFailed(n), Wait];
      forall j | 0 <= j < n
        ensures Failures(n)[3 * j..3 * j + 3] == [Post(j + 1), AttemptFailed(j + 1), Wait]
      {
        if j < n - 1 {
          assert Failures(n)[3 * j..3 * j + 3] == f[3 * j..3 * j + 3];
        }
      }
    }
  }

  lemma {:induction false} FirstSuccessCounts(post: nat -> bool, from: nat, k: nat)
    requires 1 <= from <= k <= MAX_ATTEMPTS && post(k)
    requires forall j :: from <= j < k ==> !post(j)
    ensures var d := Delivery(post, from);
            && Count(d, IsPost) == k - from + 1
            && Count(d, IsFailure) == k - from
            && Count(d, IsWait) == k - from
            && Count(d, IsSuccess) == 1
    decreases k - from
  {
    if from < k {
      FirstSuccessCounts(post, from + 1, k);
      var rest := Delivery(post, from + 1);
      FailedAttemptCounts(from, rest);
      assert Delivery(post, from) == [Post(from), AttemptFailed(from), Wait] + rest;
    } else {
      var d := Delivery(post, from);
      assert d == [Post(k), SyncSuccessful(k)];
      forall e: Event -> bool
        ensures Count(d, e) == (if e(Post(k)) then 1 else 0) + (if e(SyncSuccessful(k)) then 1 else 0)
      {
        assert d[1..] == [SyncSuccessful(k)] && d[1..][1..] == [];
        assert Count(d[1..], e) == (if e(SyncSuccessful(k)) then 1 else 0) + Count(d[1..][1..], e);
      }
      assert IsPost(Post(k)) && !IsPost(SyncSuccessful(k)) && IsSuccess(SyncSuccessful(k)) && !IsSuccess(Post(k));
      assert !IsFailure(Post(k)) && !IsFailure(SyncSuccessful(k)) && !IsWait(Post(k)) && !IsWait(SyncSuccessful(k));
    }
  }

  lemma {:induction false} FirstSuccessLast(post: nat -> bool, from: nat, k: nat)
    requires 1 <= from <= k <= MAX_ATTEMPTS && post(k)
    requires forall j :: from <= j < k ==> !post(j)
    ensures var d := Delivery(post, from); |d| >= 2 && d[|d| - 1] == SyncSuccessful(k)
    decreases k - from
  {
    if from < k {
      FirstSuccessLast(post, from + 1, k);
      var rest := Delivery(post, from + 1);
      assert Delivery(post, from) == [Post(from), AttemptFailed(from), Wait] + rest;
    }
  }

  /**
   * When every attempt fails, five posts are made, five failures logged,
   * five waits taken (the last after the fifth attempt) and no success logged.
   */
  lemma {:induction false} AllFail(post: nat -> bool, from: nat)
    requires 1 <= from <= MAX_ATTEMPTS + 1
    requires forall j :: from <= j <= MAX_ATTEMPTS ==> !post(j)
    ensures var d := Delivery(post, from);
            && Count(d, IsPost) == MAX_ATTEMPTS + 1 - from
            && Count(d, IsFailure) == MAX_ATTEMPTS + 1 - from
            && Count(d, IsWait) == MAX_ATTEMPTS + 1 - from
            && Count(d, IsSuccess) == 0
            && (from <= MAX_ATTEMPTS ==> d[|d| - 1] == Wait)
    decreases MAX_ATTEMPTS + 1 - from
  {
    if from <= MAX_ATTEMPTS {
      AllFail(post, from + 1);
      var rest := Delivery(post, from + 1);
      var d := [Post(from), AttemptFailed(from), Wait] + rest;
      FailedAttemptCounts(from, rest);
      assert Delivery(post, from) == d;
      if rest == [] {
        assert d[|d| - 1] == Wait;
      } else {
        assert d[|d| - 1] == rest[|rest| - 1];
      }
    } else {
      assert Delivery(post, from) == [];
    }
  }

  /** Never more than five posts, whatever the webhook answers. */
  lemma {:induction false} AtMostFivePosts(post: nat -> bool, from: nat)
    requires 1 <= from
    ensures Count(Delivery(post, from), IsPost) <= MAX_ATTEMPTS + 1 - from || from > MAX_ATTEMPTS
    decreases MAX_ATTEMPTS + 1 - from
  {
    if from <= MAX_ATTEMPTS && !post(from) {
      AtMostFivePosts(post, from + 1);
      FailedAttemptCounts(from, Delivery(post, from + 1));
    } else if from <= MAX_ATTEMPTS {
      var d := Delivery(post, from);
      assert d == [Post(from), SyncSuccessful(from)];
      assert d[1..] == [SyncSuccessful(from)] && d[1..][1..] == [];
      assert Count(d[1..], IsPost) == 0;
    }
  }
}
