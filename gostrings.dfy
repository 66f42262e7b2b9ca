/**
 * The functions of Go's `strings` package that the clients rely on:
 * `strings.Contains`, `strings.Index` and `strings.Split` (each for a
 * non-empty separator), and `strings.Join`.
 */
module GoStrings {
  import opened Wrappers

  /** `sep` occurs in `s` at position `i`. */
  predicate OccursAt(s: string, sep: string, i: int)
  {
    0 <= i && i + |sep| <= |s| && s[i..i + |sep|] == sep
  }

  /** Go's `strings.Contains`. */
  predicate Contains(s: string, sep: string)
  {
    exists i :: 0 <= i <= |s| && OccursAt(s, sep, i)
  }

  /** A one-character separator occurs exactly where its character does. */
  lemma ContainsChar(s: string, c: char)
    ensures Contains(s, [c]) <==> c in s
  {
    if c in s {
      var i :| 0 <= i < |s| && s[i] == c;
      assert s[i..i + 1] == [c];
      assert OccursAt(s, [c], i);
    }
    if Contains(s, [c]) {
      var i :| 0 <= i <= |s| && OccursAt(s, [c], i);
      assert s[i..i + 1][0] == s[i];
    }
  }

  /** The first position at or after `from` where `sep` occurs. */
  function IndexFrom(s: string, sep: string, from: nat): (r: Option<nat>)
    requires |sep| > 0 && from <= |s|
    ensures r.Some? ==> from <= r.value && r.value + |sep| <= |s|
    decreases |s| - from
  {
    if from + |sep| > |s| then None
    else if s[from..from + |sep|] == sep then Some(from)
    else IndexFrom(s, sep, from + 1)
  }

  /** What `IndexFrom` finds is an occurrence, and there is none before it; when it finds none, there is none. */
  lemma {:induction false} IndexFromSound(s: string, sep: string, from: nat)
    requires |sep| > 0 && from <= |s|
    ensures var r := IndexFrom(s, sep, from);
      && (r.Some? ==> OccursAt(s, sep, r.value))
      && (r.Some? ==> forall j :: from <= j < r.value ==> !OccursAt(s, sep, j))
      && (r.None? ==> forall j :: from <= j ==> !OccursAt(s, sep, j))
    decreases |s| - from
  {
    if from + |sep| <= |s| && s[from..from + |sep|] != sep {
      IndexFromSound(s, sep, from + 1);
    }
  }

  /** The first occurrence at or after `from` is what `IndexFrom` finds. */
  lemma {:induction false} IndexFromFirst(s: string, sep: string, from: nat, i: nat)
    requires |sep| > 0 && from <= i && OccursAt(s, sep, i)
    requires forall j :: from <= j < i ==> !OccursAt(s, sep, j)
    ensures IndexFrom(s, sep, from) == Some(i)
    decreases i - from
  {
    if from < i {
      assert !OccursAt(s, sep, from);
      IndexFromFirst(s, sep, from + 1, i);
    }
  }

  /** Go's `strings.Index`: the first position of `sep` in `s`, `None` for -1. */
  function Index(s: string, sep: string): (r: Option<nat>)
    requires |sep| > 0
    ensures r.Some? ==> r.value + |sep| <= |s|
  {
    IndexFrom(s, sep, 0)
  }

  /** `Index` finds the first occurrence, and finds none exactly when there is none. */
  lemma IndexSound(s: string, sep: string)
    requires |sep| > 0
    ensures var r := Index(s, sep);
      && (r.Some? ==> OccursAt(s, sep, r.value))
      && (r.Some? ==> forall j :: 0 <= j < r.value ==> !OccursAt(s, sep, j))
      && (r.None? <==> !Contains(s, sep))
  {
    IndexFromSound(s, sep, 0);
  }

  /**
   * The pieces of `s[from..]` between the occurrences of `sep`. Go's
   * `strings.Split` cuts the text after each occurrence and searches the rest
   * again, which is the search from the position after the occurrence.
   */
  function SplitFrom(s: string, sep: string, from: nat): (parts: seq<string>)
    requires |sep| > 0 && from <= |s|
    ensures |parts| >= 1
    decreases |s| - from
  {
    match IndexFrom(s, sep, from)
    case None => [s[from..]]
    case Some(i) => [s[from..i]] + SplitFrom(s, sep, i + |sep|)
  }

  /** Go's `strings.Split` for a non-empty separator. */
  function Split(s: string, sep: string): (parts: seq<string>)
    requires |sep| > 0
    ensures |parts| >= 1
  {
    SplitFrom(s, sep, 0)
  }

  /** A split has more than one piece exactly when the text contains the separator. */
  lemma SplitSingle(s: string, sep: string)
    requires |sep| > 0
    ensures |Split(s, sep)| == 1 <==> !Contains(s, sep)
  {
    IndexSound(s, sep);
  }

  /**
   * Go's `strings.Join`: the text starts with the first piece, and with two
   * pieces or more the separator follows it.
   */
  function Join(parts: seq<string>, sep: string): (r: string)
    ensures |parts| >= 1 ==> parts[0] <= r
    ensures |parts| >= 2 ==> OccursAt(r, sep, |parts[0]|)
  {
    if |parts| == 0 then ""
    else if |parts| == 1 then parts[0]
    else parts[0] + sep + Join(parts[1..], sep)
  }

  lemma JoinCons(head: string, tail: seq<string>, sep: string)
    requires |tail| >= 1
    ensures Join([head] + tail, sep) == head + sep + Join(tail, sep)
  {
    assert ([head] + tail)[1..] == tail;
  }

  lemma {:induction false} JoinSplitFrom(s: string, sep: string, from: nat)
    requires |sep| > 0 && from <= |s|
    ensures Join(SplitFrom(s, sep, from), sep) == s[from..]
    decreases |s| - from
  {
    match IndexFrom(s, sep, from)
    case None =>
    case Some(i) =>
      var tail := SplitFrom(s, sep, i + |sep|);
      assert SplitFrom(s, sep, from) == [s[from..i]] + tail;
      JoinSplitFrom(s, sep, i + |sep|);
      JoinCons(s[from..i], tail, sep);
      IndexFromSound(s, sep, from);
      Around(s, sep, from, i);
      assert Join(SplitFrom(s, sep, from), sep) == s[from..i] + sep + s[i + |sep|..];
  }

  lemma Around(s: string, sep: string, from: nat, i: nat)
    requires from <= i && OccursAt(s, sep, i)
    ensures s[from..] == s[from..i] + sep + s[i + |sep|..]
  {
  }

  /** Joining the pieces of a split with the same separator gives back the text. */
  lemma JoinSplit(s: string, sep: string)
    requires |sep| > 0
    ensures Join(Split(s, sep), sep) == s
  {
    JoinSplitFrom(s, sep, 0);
  }

  lemma SliceOfSlice(s: string, lo: nat, hi: nat, a: nat, b: nat)
    requires lo <= hi <= |s| && a <= b <= hi - lo
    ensures s[lo..hi][a..b] == s[lo + a..lo + b]
  {
    assert forall k :: 0 <= k < b - a ==> s[lo..hi][a..b][k] == s[lo + a + k];
  }

  /** A slice of `s` with no occurrence of `sep` inside it, as `s` sees it, contains no `sep`. */
  lemma SliceFree(s: string, sep: string, lo: nat, hi: nat)
    requires lo <= hi <= |s|
    requires forall j :: lo <= j && j + |sep| <= hi ==> !OccursAt(s, sep, j)
    ensures !Contains(s[lo..hi], sep)
  {
    var piece := s[lo..hi];
    forall j | 0 <= j <= |piece| && OccursAt(piece, sep, j) ensures false {
      SliceOfSlice(s, lo, hi, j, j + |sep|);
      assert OccursAt(s, sep, lo + j);
    }
  }

  /** One step of `SplitFrom` when there is no further occurrence. */
  lemma SplitFromNone(s: string, sep: string, from: nat)
    requires |sep| > 0 && from <= |s| && IndexFrom(s, sep, from).None?
    ensures SplitFrom(s, sep, from) == [s[from..|s|]]
  {
    assert s[from..|s|] == s[from..];
  }

  /** No piece of `parts` contains `sep`. */
  predicate PiecesFree(parts: seq<string>, sep: string)
  {
    forall k :: 0 <= k < |parts| ==> !Contains(parts[k], sep)
  }

  lemma {:induction false} SplitFromPiecesFree(s: string, sep: string, from: nat)
    requires |sep| > 0 && from <= |s|
    ensures PiecesFree(SplitFrom(s, sep, from), sep)
    decreases |s| - from
  {
    IndexFromSound(s, sep, from);
    match IndexFrom(s, sep, from)
    case None =>
      SplitFromNone(s, sep, from);
      SliceFree(s, sep, from, |s|);
    case Some(i) =>
      SplitFromStep(s, sep, from, i);
      SplitFromPiecesFree(s, sep, i + |sep|);
      SliceFree(s, sep, from, i);
  }

  /** No piece of a split contains the separator. */
  lemma SplitPiecesFree(s: string, sep: string)
    requires |sep| > 0
    ensures forall k :: 0 <= k < |Split(s, sep)| ==> !Contains(Split(s, sep)[k], sep)
  {
    SplitFromPiecesFree(s, sep, 0);
  }

  /** What `IndexFrom` finds is an occurrence. */
  lemma {:induction false} IndexFromOccurs(s: string, sep: string, from: nat)
    requires |sep| > 0 && from <= |s| && IndexFrom(s, sep, from).Some?
    ensures OccursAt(s, sep, IndexFrom(s, sep, from).value)
    decreases |s| - from
  {
    if s[from..from + |sep|] != sep {
      IndexFromOccurs(s, sep, from + 1);
    }
  }

  /** `last` is what follows an occurrence of `sep` that ends the text but for `last`. */
  predicate FollowsSep(s: string, sep: string, last: string)
  {
    |last| + |sep| <= |s| && OccursAt(s, sep, |s| - |last| - |sep|) && last == s[|s| - |last|..]
  }

  /** The last piece of a non-empty sequence of pieces. */
  function Last(parts: seq<string>): string
    requires |parts| >= 1
  {
    parts[|parts| - 1]
  }

  lemma LastOfCons(head: string, tail: seq<string>)
    requires |tail| >= 1
    ensures Last([head] + tail) == Last(tail)
  {
  }

  lemma {:induction false} SplitFromLast(s: string, sep: string, from: nat)
    requires |sep| > 0 && from <= |s| && IndexFrom(s, sep, from).Some?
    ensures FollowsSep(s, sep, Last(SplitFrom(s, sep, from)))
    decreases |s| - from
  {
    var i := IndexFrom(s, sep, from).value;
    var next := i + |sep|;
    var tail := SplitFrom(s, sep, next);
    SplitFromStep(s, sep, from, i);
    LastOfCons(s[from..i], tail);
    if IndexFrom(s, sep, next).Some? {
      SplitFromLast(s, sep, next);
    } else {
      IndexFromOccurs(s, sep, from);
      SplitFromNone(s, sep, next);
      assert FollowsSep(s, sep, s[next..|s|]);
    }
  }

  /**
   * When the text contains the separator, the last piece of the split is
   * what follows an occurrence of the separator at the end of the text.
   */
  lemma SplitLast(s: string, sep: string)
    requires |sep| > 0 && Contains(s, sep)
    ensures FollowsSep(s, sep, Last(Split(s, sep)))
  {
    IndexSound(s, sep);
    SplitFromLast(s, sep, 0);
  }

  /** With a one-character separator, the first occurrence after a piece free of it is right after that piece. */
  lemma IndexAfterPiece(p: string, sep: string, t: string)
    requires |sep| == 1 && sep[0] !in p
    ensures Index(p + sep + t, sep) == Some(|p|)
  {
    var s := p + sep + t;
    assert s[|p|..|p| + 1] == sep;
    forall j | 0 <= j < |p| ensures !OccursAt(s, sep, j) {
      assert s[j..j + 1] == [p[j]];
    }
    IndexFromFirst(s, sep, 0, |p|);
  }

  /** A text without the separator character splits into itself alone. */
  lemma SplitFree(p: string, sep: string)
    requires |sep| == 1 && sep[0] !in p
    ensures Split(p, sep) == [p]
  {
    IndexSound(p, sep);
  }

  /** A position found in a suffix that starts at `d`, as a position of the whole text. */
  function Shift(r: Option<nat>, d: nat): (q: Option<nat>)
    ensures q.Some? <==> r.Some?
  {
    match r
    case None => None
    case Some(i) => Some(d + i)
  }

  /** A slice of the suffix `t == s[d..]` is the slice of `s` shifted by `d`. */
  lemma SuffixSlice(s: string, d: nat, t: string, a: nat, b: nat)
    requires d <= |s| && s[d..] == t && a <= b <= |t|
    ensures t[a..b] == s[d + a..d + b]
  {
    assert forall k :: 0 <= k < b - a ==> t[a..b][k] == s[d + a + k];
  }

  /** Searching `s` from `d + from` is searching its suffix `t == s[d..]` from `from`, shifted by `d`. */
  lemma {:induction false} IndexFromShift(s: string, d: nat, t: string, sep: string, from: nat)
    requires |sep| > 0 && d <= |s| && s[d..] == t && from <= |t|
    ensures IndexFrom(s, sep, d + from) == Shift(IndexFrom(t, sep, from), d)
    decreases |t| - from
  {
    if from + |sep| <= |t| {
      SuffixSlice(s, d, t, from, from + |sep|);
      if t[from..from + |sep|] != sep {
        assert IndexFrom(t, sep, from) == IndexFrom(t, sep, from + 1);
        assert IndexFrom(s, sep, d + from) == IndexFrom(s, sep, d + (from + 1));
        IndexFromShift(s, d, t, sep, from + 1);
      }
    }
  }

  /** One step of `SplitFrom` after an occurrence at `i`. */
  lemma SplitFromStep(s: string, sep: string, from: nat, i: nat)
    requires |sep| > 0 && from <= |s| && IndexFrom(s, sep, from) == Some(i)
    ensures SplitFrom(s, sep, from) == [s[from..i]] + SplitFrom(s, sep, i + |sep|)
  {
  }

  /** Splitting `s` from `d + from` is splitting its suffix `t == s[d..]` from `from`. */
  lemma {:induction false} SplitFromShift(s: string, d: nat, t: string, sep: string, from: nat)
    requires |sep| > 0 && d <= |s| && s[d..] == t && from <= |t|
    ensures SplitFrom(s, sep, d + from) == SplitFrom(t, sep, from)
    decreases |t| - from
  {
    IndexFromShift(s, d, t, sep, from);
    var r := IndexFrom(t, sep, from);
    if r.None? {
      SuffixSlice(s, d, t, from, |t|);
      assert s[d + from..] == t[from..];
    } else {
      var i := r.value;
      var next := i + |sep|;
      SuffixSlice(s, d, t, from, i);
      SplitFromShift(s, d, t, sep, next);
      SplitFromStep(t, sep, from, i);
      SplitFromStep(s, sep, d + from, d + i);
      assert d + i + |sep| == d + next;
    }
  }

  /** The text before the first `sep`, or all of `s` when it has none. */
  function Before(s: string, sep: string): (b: string)
    requires |sep| > 0
    ensures |b| <= |s| && b == s[..|b|]
    ensures Contains(s, sep) ==> OccursAt(s, sep, |b|)
    ensures forall j :: 0 <= j < |b| ==> !OccursAt(s, sep, j)
    ensures !Contains(s, sep) ==> b == s
  {
    IndexSound(s, sep);
    match Index(s, sep)
    case None => s
    case Some(i) => s[..i]
  }

  /** After the first occurrence at `i`, the split goes on as the split of the rest. */
  lemma SplitHead(s: string, sep: string, i: nat)
    requires |sep| > 0 && Index(s, sep) == Some(i)
    ensures Split(s, sep) == [s[..i]] + Split(s[i + |sep|..], sep)
  {
    SplitFromStep(s, sep, 0, i);
    SplitFromShift(s, i + |sep|, s[i + |sep|..], sep, 0);
  }

  /** The first piece of a split is the text before the first separator. */
  lemma SplitFirst(s: string, sep: string)
    requires |sep| > 0
    ensures Split(s, sep)[0] == Before(s, sep)
  {
    match Index(s, sep)
    case None =>
      SplitFromNone(s, sep, 0);
    case Some(i) =>
      SplitHead(s, sep, i);
  }

  /** The second piece is the text between the first separator and the next one, or the end. */
  lemma SplitSecond(s: string, sep: string, i: nat)
    requires |sep| > 0 && Index(s, sep) == Some(i)
    ensures |Split(s, sep)| >= 2 && Split(s, sep)[1] == Before(s[i + |sep|..], sep)
  {
    SplitHead(s, sep, i);
    SplitFirst(s[i + |sep|..], sep);
  }

  /** Splitting a join by a one-character separator that occurs in no piece gives back the pieces. */
  lemma {:induction false} SplitJoin(parts: seq<string>, sep: string)
    requires |sep| == 1 && |parts| >= 1
    requires forall k :: 0 <= k < |parts| ==> sep[0] !in parts[k]
    ensures Split(Join(parts, sep), sep) == parts
    decreases |parts|
  {
    if |parts| == 1 {
      SplitFree(parts[0], sep);
    } else {
      var p, rest := parts[0], Join(parts[1..], sep);
      IndexAfterPiece(p, sep, rest);
      var s := p + sep + rest;
      assert s[..|p|] == p;
      assert s[|p| + |sep|..] == rest;
      SplitFromShift(s, |p| + |sep|, rest, sep, 0);
      SplitJoin(parts[1..], sep);
      assert parts == [p] + parts[1..];
    }
  }
}
