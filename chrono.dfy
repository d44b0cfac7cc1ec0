/**
 * The sort of one day's punches by the difference of their timestamps, which
 * JavaScript's array sort performs stably. The punches sorted are the ones the raw filter
 * kept, so every timestamp is a valid instant.
 */
module Chrono {
  import opened Manila
  import opened Device
  import opened Seqs

  /** Every punch carries a valid instant. */
  predicate Timed(xs: seq<Punch>) { forall i :: 0 <= i < |xs| ==> xs[i].recordTime.Ms? }

  /** Non-decreasing timestamps. */
  predicate Sorted(xs: seq<Punch>)
  {
    Timed(xs) && forall i, j :: 0 <= i < j < |xs| ==> xs[i].recordTime.ms <= xs[j].recordTime.ms
  }

  /** Insert `x` after every element whose time is not later than its own. */
  function Insert(s: seq<Punch>, x: Punch): (r: seq<Punch>)
    requires Timed(s) && x.recordTime.Ms?
    ensures Timed(r) && |r| == |s| + 1
  {
    if s == [] || s[|s| - 1].recordTime.ms <= x.recordTime.ms then s + [x]
    else Insert(s[..|s| - 1], x) + [s[|s| - 1]]
  }

  /** The specification of the sort: insertion from left to right, each element placed after its equals. */
  function SortByTime(xs: seq<Punch>): (r: seq<Punch>)
    requires Timed(xs)
    ensures Timed(r) && |r| == |xs|
  {
    if xs == [] then [] else Insert(SortByTime(xs[..|xs| - 1]), xs[|xs| - 1])
  }

  /** The selector of the punches at instant `t`. */
  function AtTime(t: int): Punch -> bool { (p: Punch) => p.recordTime == Ms(t) }

  lemma {:induction false} InsertPermutation(s: seq<Punch>, x: Punch)
    requires Timed(s) && x.recordTime.Ms?
    ensures multiset(Insert(s, x)) == multiset(s) + multiset{x}
    decreases |s|
  {
    if s != [] && s[|s| - 1].recordTime.ms > x.recordTime.ms {
      InsertPermutation(s[..|s| - 1], x);
      assert s == s[..|s| - 1] + [s[|s| - 1]];
    }
  }

  lemma {:induction false} InsertSorted(s: seq<Punch>, x: Punch)
    requires Sorted(s) && x.recordTime.Ms?
    ensures Sorted(Insert(s, x))
    decreases |s|
  {
    if s != [] && s[|s| - 1].recordTime.ms > x.recordTime.ms {
      var init := s[..|s| - 1];
      var last := s[|s| - 1];
      InsertSorted(init, x);
      InsertPermutation(init, x);
      var r := Insert(init, x);
      forall i | 0 <= i < |r| ensures r[i].recordTime.ms <= last.recordTime.ms {
        assert r[i] in multiset(r);
        if r[i] != x {
          assert r[i] in multiset(init);
          var k :| 0 <= k < |init| && init[k] == r[i];
          assert s[k] == init[k];
        }
      }
    }
  }

  /** The sort puts the group in non-decreasing time order. */
  lemma {:induction false} SortSorted(xs: seq<Punch>)
    requires Timed(xs)
    ensures Sorted(SortByTime(xs))
    decreases |xs|
  {
    if xs != [] {
      SortSorted(xs[..|xs| - 1]);
      InsertSorted(SortByTime(xs[..|xs| - 1]), xs[|xs| - 1]);
    }
  }

  /** The sort loses and duplicates nothing. */
  lemma {:induction false} SortPermutation(xs: seq<Punch>)
    requires Timed(xs)
    ensures multiset(SortByTime(xs)) == multiset(xs)
    decreases |xs|
  {
    if xs != [] {
      var init := xs[..|xs| - 1];
      var last := xs[|xs| - 1];
      SortPermutation(init);
      InsertPermutation(SortByTime(init), last);
      assert SortByTime(xs) == Insert(SortByTime(init), last);
      assert xs == init + [last];
      assert multiset(xs) == multiset(init) + multiset{last};
    }
  }

  lemma {:induction false} InsertStable(s: seq<Punch>, x: Punch, t: int)
    requires Timed(s) && x.recordTime.Ms?
    ensures Filter(Insert(s, x), AtTime(t)) == Filter(s, AtTime(t)) + (if x.recordTime == Ms(t) then [x] else [])
    decreases |s|
  {
    var at := AtTime(t);
    if s == [] || s[|s| - 1].recordTime.ms <= x.recordTime.ms {
      FilterSnoc(s, x, at);
    } else {
      var init := s[..|s| - 1];
      var last := s[|s| - 1];
      var r := Insert(init, x);
      assert Insert(s, x) == r + [last];
      InsertStable(init, x, t);
      FilterSnoc(r, last, at);
      assert s == init + [last];
      FilterSnoc(init, last, at);
      // `x` and `last` are not both at instant `t`, so their order does not show
      if at(x) {
        assert !at(last);
      }
    }
  }

  /** Stability: the punches at any one instant keep their input order. */
  lemma {:induction false} SortStable(xs: seq<Punch>, t: int)
    requires Timed(xs)
    ensures Filter(SortByTime(xs), AtTime(t)) == Filter(xs, AtTime(t))
    decreases |xs|
  {
    if xs != [] {
      var init := xs[..|xs| - 1];
      SortStable(init, t);
      InsertStable(SortByTime(init), xs[|xs| - 1], t);
      FilterSnoc(init, xs[|xs| - 1], AtTime(t));
      assert xs == init + [xs[|xs| - 1]];
    }
  }

  /** One step of the shifting loop: moving past a later element. */
  lemma InsertShift(sorted: seq<Punch>, x: Punch, j: int)
    requires Timed(sorted) && x.recordTime.Ms?
    requires 0 < j <= |sorted| && sorted[j - 1].recordTime.ms > x.recordTime.ms
    ensures Insert(sorted[..j], x) + sorted[j..] == Insert(sorted[..j - 1], x) + sorted[j - 1..]
  {
    assert sorted[..j][..j - 1] == sorted[..j - 1];
    assert [sorted[j - 1]] + sorted[j..] == sorted[j - 1..];
  }

  /** Insert `a[i]` into the sorted prefix `a[..i]` by swapping it left past every later element. */
  method InsertAt(a: array<Punch>, i: int)
    requires 0 <= i < a.Length && Timed(a[..i + 1])
    modifies a
    ensures a[..i + 1] == Insert(old(a[..i]), old(a[i]))
    ensures a[i + 1..] == old(a[i + 1..])
  {
    var x := a[i];
    ghost var sorted := a[..i];
    ghost var rest := a[i + 1..];
    StartLayout(a[..], i);
    var j := i;
    while j > 0 && a[j - 1].recordTime.ms > x.recordTime.ms
      invariant 0 <= j <= i
      invariant a[..] == sorted[..j] + [x] + sorted[j..] + rest
      invariant Insert(sorted, x) == Insert(sorted[..j], x) + sorted[j..]
    {
      ghost var cur := a[..];
      SwapStep(cur, sorted, x, rest, j);
      InsertShift(sorted, x, j);
      a[j - 1], a[j] := x, a[j - 1];
      assert a[..] == cur[j - 1 := x][j := cur[j - 1]];
      j := j - 1;
    }
    FinishLayout(a[..], sorted, x, rest, j);
  }

  /** The layout the shifting loop starts from: the prefix, then `x`, then the untouched rest. */
  lemma StartLayout(cur: seq<Punch>, i: int)
    requires 0 <= i < |cur| && Timed(cur[..i + 1])
    ensures Timed(cur[..i]) && cur[i].recordTime.Ms?
    ensures cur == cur[..i][..i] + [cur[i]] + cur[..i][i..] + cur[i + 1..]
    ensures Insert(cur[..i], cur[i]) == Insert(cur[..i][..i], cur[i]) + cur[..i][i..]
  {
    assert forall k :: 0 <= k <= i ==> cur[..i + 1][k] == cur[k];
    assert cur[..i][..i] == cur[..i] && cur[..i][i..] == [];
  }

  /** Swapping `x` with its left neighbour moves it one place left in the layout. */
  lemma SwapStep(cur: seq<Punch>, sorted: seq<Punch>, x: Punch, rest: seq<Punch>, j: int)
    requires 0 < j <= |sorted| && cur == sorted[..j] + [x] + sorted[j..] + rest
    ensures cur[j - 1] == sorted[j - 1] && cur[j] == x
    ensures cur[j - 1 := x][j := cur[j - 1]] == sorted[..j - 1] + [x] + sorted[j - 1..] + rest
  {
    assert sorted[..j] == sorted[..j - 1] + [sorted[j - 1]];
    assert sorted[j - 1..] == [sorted[j - 1]] + sorted[j..];
  }

  /** Where the shifting loop stops, the layout is the insertion followed by the rest. */
  lemma FinishLayout(cur: seq<Punch>, sorted: seq<Punch>, x: Punch, rest: seq<Punch>, j: int)
    requires Timed(sorted) && x.recordTime.Ms?
    requires 0 <= j <= |sorted| && cur == sorted[..j] + [x] + sorted[j..] + rest
    requires j == 0 || cur[j - 1].recordTime.ms <= x.recordTime.ms
    requires Insert(sorted, x) == Insert(sorted[..j], x) + sorted[j..]
    ensures cur[..|sorted| + 1] == Insert(sorted, x) && cur[|sorted| + 1..] == rest
  {
    if j > 0 {
      assert cur[j - 1] == sorted[j - 1];
    }
    InsertStop(sorted, x, j);
    assert cur == Insert(sorted, x) + rest;
  }

  /** Where the shifting loop stops, `x` goes right after the prefix. */
  lemma InsertStop(sorted: seq<Punch>, x: Punch, j: int)
    requires Timed(sorted) && x.recordTime.Ms?
    requires 0 <= j <= |sorted| && (j == 0 || sorted[j - 1].recordTime.ms <= x.recordTime.ms)
    ensures Insert(sorted[..j], x) == sorted[..j] + [x]
  {
  }

  /** The in-place sort of one group's array: insertion sort, which is stable. */
  method SortPunches(a: array<Punch>)
    requires Timed(a[..])
    modifies a
    ensures a[..] == SortByTime(old(a[..]))
  {
    ghost var input := a[..];
    for i := 0 to a.Length
      invariant a[..i] == SortByTime(input[..i])
      invariant a[i..] == input[i..]
    {
      SortStep(a[..], input, i);
      InsertAt(a, i);
    }
    assert input[..a.Length] == input;
  }

  /** One more element of the input: its insertion into the sorted prefix is the sort of the longer prefix. */
  lemma SortStep(cur: seq<Punch>, input: seq<Punch>, i: int)
    requires Timed(input) && 0 <= i < |input| == |cur|
    requires cur[..i] == SortByTime(input[..i]) && cur[i..] == input[i..]
    ensures Timed(cur[..i + 1]) && cur[i] == input[i]
    ensures SortByTime(input[..i + 1]) == Insert(cur[..i], cur[i])
  {
    assert cur[i] == cur[i..][0] == input[i];
    assert cur[..i + 1] == cur[..i] + [cur[i]];
    assert input[..i + 1] == input[..i] + [input[i]];
    assert input[..i + 1][..i] == input[..i];
  }
}
