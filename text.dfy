/**
 * The JavaScript string operations the handlers use: trimming, splitting at
 * runs of whitespace and joining with a separator. Trimming and splitting use
 * the same whitespace class (ECMAScript WhiteSpace and LineTerminator).
 */
module Text {

  predicate IsSpace(c: char)
  {
    || c == '\t' || c == '\n' || c == '\U{000B}' || c == '\U{000C}' || c == '\r' || c == ' '
    || c == '\U{00A0}' || c == '\U{1680}' || ('\U{2000}' <= c <= '\U{200A}')
    || c == '\U{2028}' || c == '\U{2029}' || c == '\U{202F}' || c == '\U{205F}'
    || c == '\U{3000}' || c == '\U{FEFF}'
  }

  predicate NoSpace(s: string) { forall i :: 0 <= i < |s| ==> !IsSpace(s[i]) }

  predicate AllSpace(s: string) { forall i :: 0 <= i < |s| ==> IsSpace(s[i]) }

  /** A string with no whitespace at either end. */
  predicate Trimmed(s: string) { s == [] || (!IsSpace(s[0]) && !IsSpace(s[|s| - 1])) }

  function TrimStart(s: string): (r: string)
    ensures r == [] || !IsSpace(r[0])
    ensures |r| <= |s| && r == s[|s| - |r|..] && AllSpace(s[..|s| - |r|])
  {
    if s != [] && IsSpace(s[0]) then TrimStart(s[1..]) else s
  }

  function TrimEnd(s: string): (r: string)
    ensures r == [] || !IsSpace(r[|r| - 1])
    ensures |r| <= |s| && r == s[..|r|] && AllSpace(s[|r|..])
  {
    if s != [] && IsSpace(s[|s| - 1]) then
      var r := TrimEnd(s[..|s| - 1]);
      assert s[|r|..] == s[..|s| - 1][|r|..] + [s[|s| - 1]];
      r
    else s
  }

  /** Trimming: `s` without the whitespace at both ends. */
  function Trim(s: string): (r: string)
    ensures Trimmed(r)
  {
    var a := TrimStart(s);
    var r := TrimEnd(a);
    assert r == [] || !IsSpace(r[0]) by {
      if r != [] { assert r[0] == a[0]; }
    }
    r
  }

  /** The trimmed string is a slice of the input with only whitespace cut off; the bounds are returned. */
  lemma TrimIsSlice(s: string) returns (i: int, j: int)
    ensures 0 <= i <= j <= |s| && Trim(s) == s[i..j] && AllSpace(s[..i]) && AllSpace(s[j..])
  {
    var a := TrimStart(s);
    var r := TrimEnd(a);
    i := |s| - |a|;
    j := i + |r|;
    assert a == s[i..] && AllSpace(s[..i]);
    assert r == a[..|r|] && AllSpace(a[|r|..]);
    assert s[i..][..|r|] == s[i..j];
    assert s[i..][|r|..] == s[j..];
  }

  /** The length of the longest prefix of `s` without whitespace. */
  function WordLength(s: string): (n: nat)
    ensures n <= |s| && NoSpace(s[..n]) && (n == |s| || IsSpace(s[n]))
  {
    if s == [] || IsSpace(s[0]) then 0
    else
      var n := WordLength(s[1..]);
      assert s[..n + 1] == [s[0]] + s[1..][..n];
      n + 1
  }

  /** The length of the longest prefix of `s` made of whitespace. */
  function GapLength(s: string): (n: nat)
    ensures n <= |s| && AllSpace(s[..n]) && (n == |s| || !IsSpace(s[n]))
  {
    if s == [] || !IsSpace(s[0]) then 0
    else
      var n := GapLength(s[1..]);
      assert s[..n + 1] == [s[0]] + s[1..][..n];
      n + 1
  }

  /**
   * Splitting at whitespace: the pieces between maximal runs of whitespace. The
   * empty string gives [""], and whitespace at either end gives an empty
   * piece there.
   */
  function Split(s: string): (parts: seq<string>)
    ensures |parts| >= 1
    ensures forall i :: 0 <= i < |parts| ==> NoSpace(parts[i])
    decreases |s|
  {
    var n := WordLength(s);
    if n == |s| then [s]
    else
      var rest := s[n..];
      var m := GapLength(rest);
      [s[..n]] + Split(rest[m..])
  }

  /** Joining the parts with a separator between each two. */
  function Join(parts: seq<string>, sep: string): string
  {
    if |parts| == 0 then ""
    else if |parts| == 1 then parts[0]
    else parts[0] + sep + Join(parts[1..], sep)
  }

  /** A joined list starts with its first part. */
  lemma {:induction false} JoinStartsWith(parts: seq<string>, sep: string)
    requires |parts| >= 1
    ensures |Join(parts, sep)| >= |parts[0]| && Join(parts, sep)[..|parts[0]|] == parts[0]
  {
  }

  /** A word: non-empty and without whitespace. */
  predicate IsWord(w: string) { w != [] && NoSpace(w) }

  /** Every element is a word. */
  predicate Words(ws: seq<string>) { forall i :: 0 <= i < |ws| ==> IsWord(ws[i]) }

  /** Spaces-joined words start with a non-space and end with one. */
  lemma {:induction false} JoinedWordsTrimmed(ws: seq<string>)
    requires |ws| >= 1 && Words(ws)
    ensures Join(ws, " ") != [] && Trimmed(Join(ws, " "))
    decreases |ws|
  {
    if |ws| > 1 {
      JoinedWordsTrimmed(ws[1..]);
      var tail := Join(ws[1..], " ");
      assert Join(ws, " ") == ws[0] + " " + tail;
      assert Join(ws, " ")[|Join(ws, " ")| - 1] == tail[|tail| - 1];
    }
  }

  /** Splitting words joined by single spaces gives the words back. */
  lemma {:induction false} SplitJoin(ws: seq<string>)
    requires |ws| >= 1 && Words(ws)
    ensures Split(Join(ws, " ")) == ws
    decreases |ws|
  {
    if |ws| == 1 {
      SplitWord(ws[0]);
    } else {
      SplitJoinStep(ws);
      SplitJoin(ws[1..]);
      assert ws == [ws[0]] + ws[1..];
    }
  }

  /** A single word splits into itself. */
  lemma SplitWord(w: string)
    requires NoSpace(w)
    ensures Split(w) == [w]
  {
    WordLengthOfWord(w, "");
    assert w + "" == w;
  }

  lemma SplitJoinStep(ws: seq<string>)
    requires |ws| >= 2 && Words(ws)
    ensures Split(Join(ws, " ")) == [ws[0]] + Split(Join(ws[1..], " "))
  {
    var tail := Join(ws[1..], " ");
    JoinedWordsTrimmed(ws[1..]);
    assert Join(ws, " ") == ws[0] + " " + tail;
    SplitGap(ws[0], " ", tail);
  }

  /**
   * A word, a non-empty run of whitespace, then a string starting with a
   * non-space: the word is the first piece and the run is dropped whole.
   */
  lemma SplitGap(w: string, gap: string, tail: string)
    requires IsWord(w) && gap != [] && AllSpace(gap) && tail != [] && !IsSpace(tail[0])
    ensures Split(w + gap + tail) == [w] + Split(tail)
  {
    var s := w + gap + tail;
    assert s == w + (gap + tail);
    WordLengthOfWord(w, gap + tail);
    var rest := s[|w|..];
    assert rest == gap + tail;
    assert s[..|w|] == w;
    GapLengthOfGap(gap, tail);
    assert rest[|gap|..] == tail;
  }

  /** The whitespace run at the head of `gap + tail` is exactly `gap`. */
  lemma {:induction false} GapLengthOfGap(gap: string, tail: string)
    requires AllSpace(gap) && (tail == [] || !IsSpace(tail[0]))
    ensures GapLength(gap + tail) == |gap|
    decreases |gap|
  {
    if gap != [] {
      assert (gap + tail)[1..] == gap[1..] + tail;
      GapLengthOfGap(gap[1..], tail);
    } else {
      assert gap + tail == tail;
    }
  }

  /** Non-empty runs of whitespace. */
  predicate Gaps(gaps: seq<string>)
  {
    forall i :: 0 <= i < |gaps| ==> gaps[i] != [] && AllSpace(gaps[i])
  }

  /** Words with arbitrary whitespace runs between them: `ws[0] + gaps[0] + ws[1] + ...`. */
  function Spaced(ws: seq<string>, gaps: seq<string>): string
    requires |ws| == |gaps| + 1
    decreases |gaps|
  {
    if gaps == [] then ws[0] else ws[0] + gaps[0] + Spaced(ws[1..], gaps[1..])
  }

  /** Words with whitespace runs between them start and end with a non-space. */
  lemma {:induction false} SpacedTrimmed(ws: seq<string>, gaps: seq<string>)
    requires |ws| == |gaps| + 1 && Gaps(gaps) && Words(ws)
    ensures Spaced(ws, gaps) != [] && Trimmed(Spaced(ws, gaps))
    decreases |gaps|
  {
    if gaps != [] {
      SpacedTrimmed(ws[1..], gaps[1..]);
      var tail := Spaced(ws[1..], gaps[1..]);
      var s := Spaced(ws, gaps);
      assert s == ws[0] + gaps[0] + tail;
      assert s[0] == ws[0][0];
      assert s[|s| - 1] == tail[|tail| - 1];
    }
  }

  /** Splitting words separated by any non-empty runs of whitespace gives the words back. */
  lemma {:induction false} SplitSpaced(ws: seq<string>, gaps: seq<string>)
    requires |ws| == |gaps| + 1 && Gaps(gaps) && Words(ws)
    ensures Split(Spaced(ws, gaps)) == ws
    decreases |gaps|
  {
    if gaps == [] {
      SplitWord(ws[0]);
    } else {
      SplitSpacedStep(ws, gaps);
      SplitSpaced(ws[1..], gaps[1..]);
      assert ws == [ws[0]] + ws[1..];
    }
  }

  lemma SplitSpacedStep(ws: seq<string>, gaps: seq<string>)
    requires |ws| == |gaps| + 1 && gaps != [] && Gaps(gaps) && Words(ws)
    ensures Split(Spaced(ws, gaps)) == [ws[0]] + Split(Spaced(ws[1..], gaps[1..]))
  {
    var tail := Spaced(ws[1..], gaps[1..]);
    SpacedTrimmed(ws[1..], gaps[1..]);
    SplitGap(ws[0], gaps[0], tail);
  }

  lemma {:induction false} WordLengthOfWord(w: string, rest: string)
    requires NoSpace(w) && (rest == [] || IsSpace(rest[0]))
    ensures WordLength(w + rest) == |w|
    decreases |w|
  {
    if w != [] {
      assert (w + rest)[1..] == w[1..] + rest;
      WordLengthOfWord(w[1..], rest);
    } else {
      assert w + rest == rest;
    }
  }

  /** A trimmed, non-empty string splits into words only (no empty pieces). */
  lemma {:induction false} SplitTrimmedWords(s: string)
    requires s != [] && Trimmed(s)
    ensures forall i :: 0 <= i < |Split(s)| ==> IsWord(Split(s)[i])
    decreases |s|
  {
    var n := WordLength(s);
    if n < |s| {
      var rest := s[n..];
      var m := GapLength(rest);
      assert rest[|rest| - 1] == s[|s| - 1];
      assert m < |rest|;
      var next := rest[m..];
      assert next[|next| - 1] == s[|s| - 1];
      SplitTrimmedWords(next);
      assert Split(s) == [s[..n]] + Split(next);
    }
  }

  /** Leading whitespace is removed and nothing after it. */
  lemma {:induction false} TrimStartSpaces(pre: string, s: string)
    requires AllSpace(pre) && (s == [] || !IsSpace(s[0]))
    ensures TrimStart(pre + s) == s
    decreases |pre|
  {
    if pre != [] {
      assert (pre + s)[1..] == pre[1..] + s;
      TrimStartSpaces(pre[1..], s);
    } else {
      assert pre + s == s;
    }
  }

  /** Trailing whitespace is removed and nothing before it. */
  lemma {:induction false} TrimEndSpaces(s: string, post: string)
    requires AllSpace(post) && (s == [] || !IsSpace(s[|s| - 1]))
    ensures TrimEnd(s + post) == s
    decreases |post|
  {
    if post != [] {
      assert (s + post)[..|s + post| - 1] == s + post[..|post| - 1];
      TrimEndSpaces(s, post[..|post| - 1]);
    } else {
      assert s + post == s;
    }
  }

  /** Trimming a trimmed string wrapped in whitespace gives the string back. */
  lemma TrimAround(pre: string, s: string, post: string)
    requires AllSpace(pre) && AllSpace(post) && Trimmed(s)
    ensures Trim(pre + s + post) == s
  {
    if s == [] {
      assert pre + s + post == pre + post;
      TrimStartSpaces(pre + post, []);
      assert pre + post + [] == pre + post;
    } else {
      assert pre + s + post == pre + (s + post);
      TrimStartSpaces(pre, s + post);
      TrimEndSpaces(s, post);
    }
  }
}
