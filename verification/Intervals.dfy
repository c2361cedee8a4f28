/**
 * Half-open intervals [start, end) of milliseconds, and the sort-and-sweep
 * algorithms the availability engine is built from.
 *
 * The meaning of a list of intervals is the set of instants it covers
 * (`Covered`). Every algorithm is specified by that set together with
 * `Canonical`, the shape of a merged list; `CanonicalUnique` shows that the two
 * together leave exactly one possible result.
 */
module Intervals {

  datatype Interval = Interval(start: int, end: int)

  predicate IsNonEmpty(i: Interval) {
    i.end > i.start
  }

  predicate Overlaps(a: Interval, b: Interval) {
    a.start < b.end && b.start < a.end
  }

  predicate Contains(outer: Interval, inner: Interval) {
    outer.start <= inner.start && inner.end <= outer.end
  }

  /// ## Meaning

  predicate In(t: int, i: Interval) {
    i.start <= t < i.end
  }

  predicate Covered(t: int, s: seq<Interval>) {
    s != [] && (In(t, s[0]) || Covered(t, s[1..]))
  }

  lemma {:induction false} CoveredIndex(t: int, s: seq<Interval>)
    ensures Covered(t, s) <==> exists k :: 0 <= k < |s| && In(t, s[k])
  {
    if s != [] {
      CoveredIndex(t, s[1..]);
      if k :| 0 <= k < |s[1..]| && In(t, s[1..][k]) {
        assert In(t, s[k + 1]);
      }
      if k :| 0 <= k < |s| && In(t, s[k]) {
        assert k > 0 ==> In(t, s[1..][k - 1]);
      }
    }
  }

  /** Non-empty, ascending, with a real gap between neighbours. */
  ghost predicate Canonical(s: seq<Interval>) {
    && (forall k :: 0 <= k < |s| ==> IsNonEmpty(s[k]))
    && (forall j, k :: 0 <= j < k < |s| ==> s[j].end < s[k].start)
  }

  ghost predicate IsMerge(out: seq<Interval>, a: seq<Interval>) {
    && Canonical(out)
    && forall t :: Covered(t, out) <==> Covered(t, a)
  }

  ghost predicate IsIntersection(out: seq<Interval>, a: seq<Interval>, b: seq<Interval>) {
    && Canonical(out)
    && forall t :: Covered(t, out) <==> Covered(t, a) && Covered(t, b)
  }

  ghost predicate IsDifference(out: seq<Interval>, a: seq<Interval>, b: seq<Interval>) {
    && Canonical(out)
    && forall t :: Covered(t, out) <==> Covered(t, a) && !Covered(t, b)
  }

  /** `w` is a longest stretch of instants covered by `s`. */
  ghost predicate MaximalRun(s: seq<Interval>, w: Interval) {
    && IsNonEmpty(w)
    && (forall t :: In(t, w) ==> Covered(t, s))
    && !Covered(w.start - 1, s)
    && !Covered(w.end, s)
  }

  /// ## Two touching intervals share no instant

  lemma OverlapsIsSharedInstant(a: Interval, b: Interval)
    requires IsNonEmpty(a) && IsNonEmpty(b)
    ensures Overlaps(a, b) <==> exists t :: In(t, a) && In(t, b)
  {
    if Overlaps(a, b) {
      var t := if a.start < b.start then b.start else a.start;
      assert In(t, a) && In(t, b);
    }
  }

  /// ## Canonical form

  /** The members of a canonical list are the maximal runs of the instants it covers. */
  lemma CanonicalMembers(s: seq<Interval>, w: Interval)
    requires Canonical(s)
    ensures w in s <==> MaximalRun(s, w)
  {
    if w in s {
      var k :| 0 <= k < |s| && s[k] == w;
      forall t | In(t, w) ensures Covered(t, s) {
        assert In(t, s[k]);
        CoveredIndex(t, s);
      }
      CanonicalEndUncovered(s, k);
      CanonicalStartUncovered(s, k);
    }
    if MaximalRun(s, w) {
      assert In(w.start, w);
      CoveredIndex(w.start, s);
      CoveredIndex(w.start - 1, s);
      CoveredIndex(w.end, s);
      var k :| 0 <= k < |s| && In(w.start, s[k]);
      CanonicalEndUncovered(s, k);
      assert !In(s[k].end, w) && !In(w.start - 1, s[k]) && !In(w.end, s[k]);
      assert s[k] == w;
    }
  }

  lemma CanonicalEndUncovered(s: seq<Interval>, k: nat)
    requires Canonical(s) && k < |s|
    ensures !Covered(s[k].end, s)
  {
    CoveredIndex(s[k].end, s);
    forall j | 0 <= j < |s| ensures !In(s[k].end, s[j]) {
      assert IsNonEmpty(s[j]) && (j < k ==> s[j].end < s[k].start);
    }
  }

  lemma CanonicalStartUncovered(s: seq<Interval>, k: nat)
    requires Canonical(s) && k < |s|
    ensures !Covered(s[k].start - 1, s)
  {
    CoveredIndex(s[k].start - 1, s);
    forall j | 0 <= j < |s| ensures !In(s[k].start - 1, s[j]) {
      assert IsNonEmpty(s[k]) && (j < k ==> s[j].end < s[k].start);
    }
  }

  /** Two canonical lists that cover the same instants are the same list. */
  lemma {:induction false} CanonicalUnique(a: seq<Interval>, b: seq<Interval>)
    requires Canonical(a) && Canonical(b)
    requires forall t :: Covered(t, a) <==> Covered(t, b)
    ensures a == b
  {
    if b != [] {
      FirstMatches(b, a);
    }
    if a != [] {
      FirstMatches(a, b);
      assert a[0] == b[0];
      forall t ensures Covered(t, a[1..]) <==> Covered(t, b[1..]) {
        TailCovers(a, t);
        TailCovers(b, t);
      }
      CanonicalUnique(a[1..], b[1..]);
      assert [a[0]] + a[1..] == a && [b[0]] + b[1..] == b;
    }
  }

  lemma FirstMatches(a: seq<Interval>, b: seq<Interval>)
    requires Canonical(a) && Canonical(b)
    requires forall t :: Covered(t, a) <==> Covered(t, b)
    requires a != []
    ensures b != [] && b[0].start <= a[0].start && (b[0].start == a[0].start ==> a[0].end <= b[0].end)
  {
    assert In(a[0].start, a[0]);
    assert Covered(a[0].start, a);
    CoveredIndex(a[0].start, b);
    var k :| 0 <= k < |b| && In(a[0].start, b[k]);
    if b[0].start == a[0].start && b[0].end < a[0].end {
      assert In(b[0].end, a[0]);
      assert Covered(b[0].end, a);
      CanonicalEndUncovered(b, 0);
    }
  }

  lemma TailCovers(s: seq<Interval>, t: int)
    requires Canonical(s) && s != []
    ensures Covered(t, s[1..]) <==> Covered(t, s) && t >= s[0].end
  {
    CoveredIndex(t, s[1..]);
  }

  /// ## Sorting by start

  ghost predicate SortedByStart(s: seq<Interval>) {
    forall j, k :: 0 <= j < k < |s| ==> s[j].start <= s[k].start
  }

  function FilterNonEmpty(s: seq<Interval>): (r: seq<Interval>)
    ensures forall i :: i in r <==> i in s && IsNonEmpty(i)
  {
    if s == [] then []
    else (if IsNonEmpty(s[0]) then [s[0]] else []) + FilterNonEmpty(s[1..])
  }

  function InsertByStart(i: Interval, s: seq<Interval>): (r: seq<Interval>) {
    if s == [] || i.start < s[0].start then [i] + s else [s[0]] + InsertByStart(i, s[1..])
  }

  /** A stable insertion sort, standing for the library sort the source calls. */
  function SortByStart(s: seq<Interval>): (r: seq<Interval>) {
    if s == [] then [] else InsertByStart(s[|s| - 1], SortByStart(s[..|s| - 1]))
  }

  lemma {:induction false} InsertKeepsOrder(i: Interval, s: seq<Interval>)
    requires SortedByStart(s)
    ensures var r := InsertByStart(i, s);
      SortedByStart(r) && r != [] && (r[0] == i || (s != [] && r[0] == s[0])) && r[0].start <= i.start
  {
    if s != [] && s[0].start <= i.start {
      InsertKeepsOrder(i, s[1..]);
      SortedCons(s[0], InsertByStart(i, s[1..]));
    }
  }

  lemma SortedCons(i: Interval, s: seq<Interval>)
    requires SortedByStart(s) && (s != [] ==> i.start <= s[0].start)
    ensures SortedByStart([i] + s)
  {
  }

  lemma {:induction false} InsertAdds(i: Interval, s: seq<Interval>)
    ensures multiset(InsertByStart(i, s)) == multiset(s) + multiset{i}
  {
    if s != [] && s[0].start <= i.start {
      assert s == [s[0]] + s[1..];
      InsertAdds(i, s[1..]);
    }
  }

  lemma {:induction false} SortIsSorted(s: seq<Interval>)
    ensures SortedByStart(SortByStart(s)) && multiset(SortByStart(s)) == multiset(s)
  {
    if s != [] {
      var init, last := s[..|s| - 1], s[|s| - 1];
      assert s == init + [last];
      SortIsSorted(init);
      InsertKeepsOrder(last, SortByStart(init));
      InsertAdds(last, SortByStart(init));
    }
  }

  lemma SameElements(a: seq<Interval>, b: seq<Interval>)
    requires multiset(a) == multiset(b)
    ensures forall i :: i in a <==> i in b
  {
    forall i ensures i in a <==> i in b {
      assert i in a <==> i in multiset(a);
      assert i in b <==> i in multiset(b);
    }
  }

  lemma CoveredByMember(t: int, s: seq<Interval>)
    ensures Covered(t, s) <==> exists i :: i in s && In(t, i)
  {
    CoveredIndex(t, s);
    if i: Interval :| i in s && In(t, i) {
      var k :| 0 <= k < |s| && s[k] == i;
      assert In(t, s[k]);
    }
  }

  /// ## The algorithms

  /** One step of the merging sweep: widen the last interval or open a new one. */
  ghost function Absorb(out: seq<Interval>, cur: Interval): (r: seq<Interval>) {
    if out != [] && cur.start <= out[|out| - 1].end then
      var last := out[|out| - 1];
      out[|out| - 1 := Interval(last.start, if last.end < cur.end then cur.end else last.end)]
    else
      out + [cur]
  }

  ghost function Swept(s: seq<Interval>): (r: seq<Interval>) {
    if s == [] then [] else Absorb(Swept(s[..|s| - 1]), s[|s| - 1])
  }

  lemma SweptNext(s: seq<Interval>, n: nat)
    requires n < |s|
    ensures Swept(s[..n + 1]) == Absorb(Swept(s[..n]), s[n])
  {
    assert s[..n + 1][..n] == s[..n];
  }

  lemma AbsorbIsMerge(out: seq<Interval>, cur: Interval)
    requires Canonical(out) && IsNonEmpty(cur) && (out != [] ==> out[|out| - 1].start <= cur.start)
    ensures Canonical(Absorb(out, cur))
    ensures forall t :: Covered(t, Absorb(out, cur)) <==> Covered(t, out) || In(t, cur)
  {
    if out != [] && cur.start <= out[|out| - 1].end {
      ExtendLast(out, cur, Absorb(out, cur));
    } else {
      Push(out, cur);
    }
  }

  lemma {:induction false} SweptIsMerge(s: seq<Interval>)
    requires SortedByStart(s) && forall k :: 0 <= k < |s| ==> IsNonEmpty(s[k])
    ensures IsMerge(Swept(s), s)
  {
    if s != [] {
      var init, cur := s[..|s| - 1], s[|s| - 1];
      assert s == init + [cur];
      SweptIsMerge(init);
      StartsBefore(Swept(init), init, cur);
      MergeOneMore(Swept(init), init, cur);
    }
  }

  lemma MergeOneMore(out: seq<Interval>, init: seq<Interval>, cur: Interval)
    requires IsMerge(out, init) && IsNonEmpty(cur) && (out != [] ==> out[|out| - 1].start <= cur.start)
    ensures IsMerge(Absorb(out, cur), init + [cur])
  {
    AbsorbIsMerge(out, cur);
    Snoc(init, cur);
  }

  /** Each window of a merge starts where one of the merged intervals does. */
  lemma StartsBefore(out: seq<Interval>, init: seq<Interval>, cur: Interval)
    requires IsMerge(out, init) && SortedByStart(init + [cur])
    ensures out != [] ==> out[|out| - 1].start <= cur.start
  {
    if out != [] {
      var t := out[|out| - 1].start;
      assert In(t, out[|out| - 1]);
      CoveredIndex(t, out);
      CanonicalStartUncovered(out, |out| - 1);
      CoveredIndex(t, init);
      CoveredIndex(t - 1, init);
      var k :| 0 <= k < |init| && In(t, init[k]);
      assert !In(t - 1, init[k]);
      assert (init + [cur])[k] == init[k] && (init + [cur])[|init|] == cur;
    }
  }

  method Merge(intervals: seq<Interval>) returns (out: seq<Interval>)
    ensures IsMerge(out, intervals)
    ensures Canonical(intervals) ==> out == intervals
  {
    var sorted := SortByStart(FilterNonEmpty(intervals));
    out := [];
    for n := 0 to |sorted|
      invariant out == Swept(sorted[..n])
    {
      var cur := sorted[n];
      SweptNext(sorted, n);
      if out != [] && cur.start <= out[|out| - 1].end {
        var last := out[|out| - 1];
        out := out[|out| - 1 := Interval(last.start, if last.end < cur.end then cur.end else last.end)];
      } else {
        out := out + [Interval(cur.start, cur.end)];
      }
    }
    assert sorted[..|sorted|] == sorted;
    SweepIsMerge(intervals);
    if Canonical(intervals) {
      CanonicalUnique(out, intervals);
    }
  }

  lemma SweepIsMerge(s: seq<Interval>)
    ensures IsMerge(Swept(SortByStart(FilterNonEmpty(s))), s)
  {
    SortKeepsInstants(s);
    SweptIsMerge(SortByStart(FilterNonEmpty(s)));
  }

  lemma SortKeepsInstants(s: seq<Interval>)
    ensures var sorted := SortByStart(FilterNonEmpty(s));
      SortedByStart(sorted) && forall k :: 0 <= k < |sorted| ==> IsNonEmpty(sorted[k])
    ensures forall t :: Covered(t, SortByStart(FilterNonEmpty(s))) <==> Covered(t, s)
  {
    var sorted := SortByStart(FilterNonEmpty(s));
    SortIsSorted(FilterNonEmpty(s));
    SameElements(sorted, FilterNonEmpty(s));
    assert forall k :: 0 <= k < |sorted| ==> sorted[k] in sorted;
    forall t ensures Covered(t, sorted) <==> Covered(t, s) {
      CoveredByMember(t, sorted);
      CoveredByMember(t, s);
    }
  }

  lemma {:induction false} Concat(a: seq<Interval>, b: seq<Interval>, t: int)
    ensures Covered(t, a + b) <==> Covered(t, a) || Covered(t, b)
  {
    if a == [] {
      assert a + b == b;
    } else {
      assert (a + b)[1..] == a[1..] + b;
      Concat(a[1..], b, t);
    }
  }

  lemma Single(i: Interval)
    ensures forall t :: Covered(t, [i]) <==> In(t, i)
  {
    assert [i][1..] == [];
  }

  lemma Snoc(s: seq<Interval>, i: Interval)
    ensures forall t :: Covered(t, s + [i]) <==> Covered(t, s) || In(t, i)
  {
    forall t ensures Covered(t, s + [i]) <==> Covered(t, s) || In(t, i) {
      Concat(s, [i], t);
    }
  }

  lemma Push(s: seq<Interval>, i: Interval)
    requires Canonical(s) && IsNonEmpty(i)
    requires s != [] ==> s[|s| - 1].end < i.start
    ensures Canonical(s + [i])
    ensures forall t :: Covered(t, s + [i]) <==> Covered(t, s) || In(t, i)
  {
    Snoc(s, i);
  }

  lemma ExtendLast(s: seq<Interval>, cur: Interval, r: seq<Interval>)
    requires Canonical(s) && s != [] && s[|s| - 1].start <= cur.start <= s[|s| - 1].end
    requires r == s[|s| - 1 := Interval(s[|s| - 1].start, if s[|s| - 1].end < cur.end then cur.end else s[|s| - 1].end)]
    ensures Canonical(r)
    ensures forall t :: Covered(t, r) <==> Covered(t, s) || In(t, cur)
  {
    var n := |s| - 1;
    LastOnly(s, r, n);
  }

  lemma LastOnly(s: seq<Interval>, r: seq<Interval>, n: nat)
    requires |s| == |r| == n + 1 && s[..n] == r[..n]
    ensures forall t :: Covered(t, s) <==> Covered(t, s[..n]) || In(t, s[n])
    ensures forall t :: Covered(t, r) <==> Covered(t, s[..n]) || In(t, r[n])
  {
    assert s == s[..n] + [s[n]] && r == s[..n] + [r[n]];
    Snoc(s[..n], s[n]);
    Snoc(s[..n], r[n]);
  }

  function LaterStart(x: Interval, y: Interval): (r: int) {
    if x.start < y.start then y.start else x.start
  }

  function EarlierEnd(x: Interval, y: Interval): (r: int) {
    if x.end < y.end then x.end else y.end
  }

  /** What the two-pointer sweep collects from the windows still ahead of it. */
  ghost function Common(A: seq<Interval>, B: seq<Interval>): (r: seq<Interval>)
    decreases |A| + |B|
  {
    if A == [] || B == [] then []
    else
      var start, end := LaterStart(A[0], B[0]), EarlierEnd(A[0], B[0]);
      (if start < end then [Interval(start, end)] else []) +
      (if A[0].end < B[0].end then Common(A[1..], B) else Common(A, B[1..]))
  }

  lemma {:induction false} CommonIsIntersection(A: seq<Interval>, B: seq<Interval>)
    requires Canonical(A) && Canonical(B)
    ensures IsIntersection(Common(A, B), A, B)
    ensures Common(A, B) != [] ==> A != [] && B != [] && LaterStart(A[0], B[0]) <= Common(A, B)[0].start
    decreases |A| + |B|
  {
    if A != [] && B != [] {
      if A[0].end < B[0].end {
        CommonIsIntersection(A[1..], B);
        CommonStep(A, B, Common(A[1..], B));
      } else {
        CommonIsIntersection(A, B[1..]);
        CommonStep(B, A, Common(A, B[1..]));
      }
    }
  }

  /** `A` holds the window that ends first; `rest` is what its later windows share with `B`. */
  lemma CommonStep(A: seq<Interval>, B: seq<Interval>, rest: seq<Interval>)
    requires Canonical(A) && Canonical(B) && A != [] && B != [] && A[0].end <= B[0].end
    requires IsIntersection(rest, A[1..], B)
    ensures var start, end := LaterStart(A[0], B[0]), EarlierEnd(A[0], B[0]);
      var r := (if start < end then [Interval(start, end)] else []) + rest;
      && IsIntersection(r, A, B)
      && (r != [] ==> start <= r[0].start)
  {
    var start, end := LaterStart(A[0], B[0]), A[0].end;
    RestIsLater(A, B, rest);
    CommonCovers(A, B);
    FrontIfAny(start, end, rest);
  }

  lemma CommonCovers(A: seq<Interval>, B: seq<Interval>)
    requires Canonical(A) && Canonical(B) && A != [] && B != [] && A[0].end <= B[0].end
    ensures forall t :: Covered(t, A) && Covered(t, B) <==>
      LaterStart(A[0], B[0]) <= t < A[0].end || (Covered(t, A[1..]) && Covered(t, B))
  {
    forall t ensures Covered(t, A) && Covered(t, B) <==>
      LaterStart(A[0], B[0]) <= t < A[0].end || (Covered(t, A[1..]) && Covered(t, B))
    {
      TailCovers(A, t);
      TailCovers(B, t);
    }
  }

  lemma RestIsLater(A: seq<Interval>, B: seq<Interval>, rest: seq<Interval>)
    requires Canonical(A) && Canonical(B) && A != [] && B != [] && IsIntersection(rest, A[1..], B)
    ensures rest != [] ==> rest[0].start > A[0].end && rest[0].start >= B[0].start
  {
    if rest != [] {
      var t := rest[0].start;
      assert Covered(t, rest);
      FirstIsLeast(B, t);
      FirstIsLeast(A[1..], t);
    }
  }

  /** One turn of the sweep moves what the two heads share from the future to `out`. */
  lemma CommonNext(A: seq<Interval>, B: seq<Interval>, i: nat, j: nat, out: seq<Interval>)
    requires i < |A| && j < |B|
    ensures var start, end := LaterStart(A[i], B[j]), EarlierEnd(A[i], B[j]);
      out + Common(A[i..], B[j..]) ==
        (if start < end then out + [Interval(start, end)] else out) +
        (if A[i].end < B[j].end then Common(A[i + 1..], B[j..]) else Common(A[i..], B[j + 1..]))
  {
    var start, end := LaterStart(A[i], B[j]), EarlierEnd(A[i], B[j]);
    assert A[i..][1..] == A[i + 1..] && B[j..][1..] == B[j + 1..];
    var piece: seq<Interval> := if start < end then [Interval(start, end)] else [];
    var rest := if A[i].end < B[j].end then Common(A[i + 1..], B[j..]) else Common(A[i..], B[j + 1..]);
    CommonUnfolds(A[i..], B[j..]);
    Regroup(out, piece, rest);
  }

  lemma CommonUnfolds(A: seq<Interval>, B: seq<Interval>)
    requires A != [] && B != []
    ensures var start, end := LaterStart(A[0], B[0]), EarlierEnd(A[0], B[0]);
      Common(A, B) ==
        (if start < end then [Interval(start, end)] else []) +
        (if A[0].end < B[0].end then Common(A[1..], B) else Common(A, B[1..]))
  {
  }

  lemma Regroup(out: seq<Interval>, piece: seq<Interval>, rest: seq<Interval>)
    ensures out + (piece + rest) == (out + piece) + rest
    ensures piece == [] ==> out + piece == out
  {
  }

  method Intersect(a: seq<Interval>, b: seq<Interval>) returns (out: seq<Interval>)
    ensures IsIntersection(out, a, b)
  {
    var A := Merge(a);
    var B := Merge(b);
    out := [];
    var i, j := 0, 0;
    while i < |A| && j < |B|
      invariant 0 <= i <= |A| && 0 <= j <= |B|
      invariant out + Common(A[i..], B[j..]) == Common(A, B)
      decreases |A| - i + |B| - j
    {
      var x, y := A[i], B[j];
      CommonNext(A, B, i, j, out);
      var start := if x.start < y.start then y.start else x.start;
      var end := if x.end < y.end then x.end else y.end;
      if start < end {
        out := out + [Interval(start, end)];
      }
      if x.end < y.end {
        i := i + 1;
      } else {
        j := j + 1;
      }
    }
    assert out == Common(A, B);
    CommonOfMerged(A, B, a, b);
  }

  lemma CommonOfMerged(A: seq<Interval>, B: seq<Interval>, a: seq<Interval>, b: seq<Interval>)
    requires IsMerge(A, a) && IsMerge(B, b)
    ensures IsIntersection(Common(A, B), a, b)
  {
    CommonIsIntersection(A, B);
  }

  /** What is left of [cursor, end) once the windows of `M` are cut out. */
  ghost function Carve(cursor: int, end: int, M: seq<Interval>): (r: seq<Interval>)
    decreases |M|
  {
    if M == [] || M[0].start >= end then
      if cursor < end then [Interval(cursor, end)] else []
    else if M[0].end <= cursor then
      Carve(cursor, end, M[1..])
    else
      (if M[0].start > cursor then [Interval(cursor, M[0].start)] else []) + Carve(M[0].end, end, M[1..])
  }

  lemma {:induction false} CarveIsDifference(cursor: int, end: int, M: seq<Interval>)
    requires Canonical(M)
    ensures Canonical(Carve(cursor, end, M))
    ensures var r := Carve(cursor, end, M); r != [] ==> cursor <= r[0].start
    ensures forall t :: Covered(t, Carve(cursor, end, M)) <==> cursor <= t < end && !Covered(t, M)
    decreases |M|
  {
    if M == [] || M[0].start >= end {
      CarveLast(cursor, end, M);
    } else if M[0].end <= cursor {
      CarveIsDifference(cursor, end, M[1..]);
      CarveSkip(cursor, M);
    } else {
      CarveIsDifference(M[0].end, end, M[1..]);
      CarveStep(cursor, end, M, Carve(M[0].end, end, M[1..]));
    }
  }

  lemma CarveLast(cursor: int, end: int, M: seq<Interval>)
    requires Canonical(M) && (M == [] || M[0].start >= end)
    ensures Canonical(Carve(cursor, end, M))
    ensures forall t :: Covered(t, Carve(cursor, end, M)) <==> cursor <= t < end && !Covered(t, M)
  {
    if cursor < end {
      Single(Interval(cursor, end));
    }
    forall t ensures Covered(t, Carve(cursor, end, M)) <==> cursor <= t < end && !Covered(t, M) {
      if Covered(t, M) {
        FirstIsLeast(M, t);
      }
    }
  }

  lemma CarveSkip(cursor: int, M: seq<Interval>)
    requires Canonical(M) && M != [] && M[0].end <= cursor
    ensures forall t :: cursor <= t ==> (Covered(t, M) <==> Covered(t, M[1..]))
  {
    forall t | cursor <= t ensures Covered(t, M) <==> Covered(t, M[1..]) {
      TailCovers(M, t);
    }
  }

  /** A window of `M` that ends after the cursor and starts before the end. */
  lemma CarveStep(cursor: int, end: int, M: seq<Interval>, rest: seq<Interval>)
    requires Canonical(M) && M != [] && M[0].start < end && cursor < M[0].end
    requires rest == Carve(M[0].end, end, M[1..])
    requires Canonical(rest) && (rest != [] ==> M[0].end <= rest[0].start)
    requires forall t :: Covered(t, rest) <==> M[0].end <= t < end && !Covered(t, M[1..])
    ensures var r := Carve(cursor, end, M);
      Canonical(r) && (r != [] ==> cursor <= r[0].start)
    ensures forall t :: Covered(t, Carve(cursor, end, M)) <==> cursor <= t < end && !Covered(t, M)
  {
    FrontIfAny(cursor, M[0].start, rest);
    CarveStepCovers(cursor, end, M);
  }

  /** The instants before the first window, and those after it, are the ones it leaves. */
  lemma CarveStepCovers(cursor: int, end: int, M: seq<Interval>)
    requires Canonical(M) && M != [] && M[0].start < end && cursor < M[0].end
    ensures forall t :: cursor <= t < end && !Covered(t, M) <==>
      cursor <= t < M[0].start || (M[0].end <= t < end && !Covered(t, M[1..]))
  {
    forall t ensures cursor <= t < end && !Covered(t, M) <==>
      cursor <= t < M[0].start || (M[0].end <= t < end && !Covered(t, M[1..]))
    {
      TailCovers(M, t);
      if Covered(t, M) {
        FirstIsLeast(M, t);
      }
    }
  }

  lemma {:induction false} CarveNothing(cursor: int, end: int, M: seq<Interval>)
    requires cursor >= end && Canonical(M)
    ensures Carve(cursor, end, M) == []
    decreases |M|
  {
    if M != [] {
      CarveNothing(cursor, end, M[1..]);
      if M[0].end > cursor {
        CarveNothing(M[0].end, end, M[1..]);
      }
    }
  }

  ghost function CarveAll(B: seq<Interval>, M: seq<Interval>): (r: seq<Interval>) {
    if B == [] then []
    else CarveAll(B[..|B| - 1], M) + Carve(B[|B| - 1].start, B[|B| - 1].end, M)
  }

  lemma {:induction false} CarveAllIsDifference(B: seq<Interval>, M: seq<Interval>)
    requires Canonical(B) && Canonical(M)
    ensures IsDifference(CarveAll(B, M), B, M)
  {
    if B != [] {
      var init, b := B[..|B| - 1], B[|B| - 1];
      assert B == init + [b];
      CarveAllIsDifference(init, M);
      CarveOneMore(CarveAll(init, M), init, b, M);
    }
  }

  lemma CarveOneMore(done: seq<Interval>, init: seq<Interval>, b: Interval, M: seq<Interval>)
    requires Canonical(init + [b]) && Canonical(M) && IsDifference(done, init, M)
    ensures IsDifference(done + Carve(b.start, b.end, M), init + [b], M)
  {
    var piece := Carve(b.start, b.end, M);
    CarveIsDifference(b.start, b.end, M);
    EndsBefore(done, init, b);
    DifferenceOneMore(done, piece, init, b, M);
  }

  /** What lies inside the earlier windows ends before the next one starts. */
  lemma EndsBefore(done: seq<Interval>, init: seq<Interval>, b: Interval)
    requires Canonical(done) && Canonical(init + [b])
    requires forall t :: Covered(t, done) ==> Covered(t, init)
    ensures done != [] ==> done[|done| - 1].end < b.start
  {
    if done != [] {
      var t := done[|done| - 1].end - 1;
      assert In(t, done[|done| - 1]);
      CoveredIndex(t, done);
      CoveredIndex(t, init);
      var k :| 0 <= k < |init| && In(t, init[k]);
      assert (init + [b])[k] == init[k] && (init + [b])[|init|] == b;
    }
  }

  lemma DifferenceOneMore(done: seq<Interval>, piece: seq<Interval>, init: seq<Interval>, b: Interval, M: seq<Interval>)
    requires IsDifference(done, init, M) && Canonical(piece)
    requires forall t :: Covered(t, piece) <==> In(t, b) && !Covered(t, M)
    requires done != [] && piece != [] ==> done[|done| - 1].end < piece[0].start
    ensures IsDifference(done + piece, init + [b], M)
  {
    Snoc(init, b);
    Join(done, piece);
  }

  lemma Join(a: seq<Interval>, b: seq<Interval>)
    requires Canonical(a) && Canonical(b)
    requires a != [] && b != [] ==> a[|a| - 1].end < b[0].start
    ensures Canonical(a + b)
    ensures forall t :: Covered(t, a + b) <==> Covered(t, a) || Covered(t, b)
  {
    forall t ensures Covered(t, a + b) <==> Covered(t, a) || Covered(t, b) {
      Concat(a, b, t);
    }
  }

  lemma FirstIsLeast(s: seq<Interval>, t: int)
    requires Canonical(s) && Covered(t, s)
    ensures s[0].start <= t
  {
    CoveredIndex(t, s);
  }

  lemma Front(lo: int, hi: int, s: seq<Interval>)
    requires Canonical(s) && lo < hi && (s != [] ==> hi < s[0].start)
    ensures Canonical([Interval(lo, hi)] + s)
    ensures forall t :: Covered(t, [Interval(lo, hi)] + s) <==> lo <= t < hi || Covered(t, s)
  {
    var one := [Interval(lo, hi)];
    Single(one[0]);
    Join(one, s);
  }

  lemma FrontIfAny(lo: int, hi: int, s: seq<Interval>)
    requires Canonical(s) && (s != [] ==> hi < s[0].start && lo <= s[0].start)
    ensures var r := (if lo < hi then [Interval(lo, hi)] else []) + s;
      && Canonical(r) && (r != [] ==> lo <= r[0].start)
      && forall t :: Covered(t, r) <==> lo <= t < hi || Covered(t, s)
  {
    if lo < hi {
      Front(lo, hi, s);
    } else {
      assert [] + s == s;
    }
  }

  method Subtract(base: seq<Interval>, minus: seq<Interval>) returns (out: seq<Interval>)
    ensures IsDifference(out, base, minus)
  {
    var B := Merge(base);
    var M := Merge(minus);
    out := [];
    for p := 0 to |B|
      invariant out == CarveAll(B[..p], M)
    {
      out := CutOne(B[p], M, out);
      assert B[..p + 1][..p] == B[..p];
    }
    assert B[..|B|] == B;
    CarveAllIsDifference(B, M);
  }

  /** One turn of the inner sweep: skip a window that is behind, or cut at one that is not. */
  lemma CarveNext(out: seq<Interval>, cursor: int, end: int, M: seq<Interval>, q: nat)
    requires Canonical(M) && q < |M|
    ensures M[q].end <= cursor ==> Carve(cursor, end, M[q..]) == Carve(cursor, end, M[q + 1..])
    ensures cursor < M[q].end && M[q].start < end ==>
      out + Carve(cursor, end, M[q..]) ==
        (if M[q].start > cursor then out + [Interval(cursor, M[q].start)] else out) + Carve(M[q].end, end, M[q + 1..])
    ensures M[q].end >= end ==> Carve(M[q].end, end, M[q + 1..]) == []
  {
    assert M[q..][1..] == M[q + 1..];
    if M[q].end <= cursor {
      if M[q].start >= end {
        CarveNothing(cursor, end, M[q + 1..]);
      }
    } else if M[q].start < end {
      var rest := Carve(M[q].end, end, M[q + 1..]);
      var piece: seq<Interval> := if M[q].start > cursor then [Interval(cursor, M[q].start)] else [];
      assert Carve(cursor, end, M[q..]) == piece + rest;
      assert out + (piece + rest) == (out + piece) + rest;
      assert piece == [] ==> out + piece == out;
    }
    if M[q].end >= end {
      CarveNothing(M[q].end, end, M[q + 1..]);
    }
  }

  /** The inner sweep of `Subtract`: one window of the base against the whole of `M`. */
  method CutOne(b: Interval, M: seq<Interval>, done: seq<Interval>) returns (out: seq<Interval>)
    requires Canonical(M)
    ensures out == done + Carve(b.start, b.end, M)
  {
    out := done;
    var cursor := b.start;
    var q := 0;
    assert M[0..] == M;
    while q < |M|
      invariant 0 <= q <= |M|
      invariant out + Carve(cursor, b.end, M[q..]) == done + Carve(b.start, b.end, M)
    {
      var m := M[q];
      CarveNext(out, cursor, b.end, M, q);
      if m.end <= cursor {
        q := q + 1;
        continue;
      }
      if m.start >= b.end {
        break;
      }
      if m.start > cursor {
        out := out + [Interval(cursor, m.start)];
      }
      cursor := if cursor < m.end then m.end else cursor;
      if cursor >= b.end {
        break;
      }
      q := q + 1;
    }
    if cursor < b.end {
      out := out + [Interval(cursor, b.end)];
    }
  }

  method FitsIn(free: seq<Interval>, fit: Interval) returns (r: bool)
    ensures r <==> exists k :: 0 <= k < |free| && Contains(free[k], fit)
    ensures Canonical(free) && IsNonEmpty(fit) ==> (r <==> forall t :: In(t, fit) ==> Covered(t, free))
  {
    r := false;
    for k := 0 to |free|
      invariant forall j :: 0 <= j < k ==> !Contains(free[j], fit)
    {
      if Contains(free[k], fit) {
        if Canonical(free) && IsNonEmpty(fit) {
          FitsIsCovered(free, fit);
        }
        return true;
      }
    }
    if Canonical(free) && IsNonEmpty(fit) {
      FitsIsCovered(free, fit);
    }
  }

  /** On merged lists a non-empty slot fits in one window exactly when every instant of it is
      covered: no fitting slot straddles a gap, and none is refused for lying across two. */
  lemma FitsIsCovered(free: seq<Interval>, fit: Interval)
    requires Canonical(free) && IsNonEmpty(fit)
    ensures (exists k :: 0 <= k < |free| && Contains(free[k], fit)) <==> (forall t :: In(t, fit) ==> Covered(t, free))
  {
    if k :| 0 <= k < |free| && Contains(free[k], fit) {
      forall t | In(t, fit) ensures Covered(t, free) {
        CoveredIndex(t, free);
        assert In(t, free[k]);
      }
    }
    if forall t :: In(t, fit) ==> Covered(t, free) {
      assert In(fit.start, fit);
      CoveredIndex(fit.start, free);
      var k :| 0 <= k < |free| && In(fit.start, free[k]);
      if free[k].end < fit.end {
        assert In(free[k].end, fit);
        CanonicalEndUncovered(free, k);
      }
      assert Contains(free[k], fit);
    }
  }

  /// ## Conservation of length

  function Length(s: seq<Interval>): (r: int) {
    if s == [] then 0 else s[0].end - s[0].start + Length(s[1..])
  }

  ghost function Range(lo: int, hi: int): (r: set<int>)
    requires lo <= hi
    ensures forall t :: t in r <==> lo <= t < hi
    ensures |r| == hi - lo
    decreases hi - lo
  {
    if lo == hi then {} else Range(lo, hi - 1) + {hi - 1}
  }

  ghost function Instants(s: seq<Interval>): (r: set<int>) {
    if s == [] then {}
    else (if IsNonEmpty(s[0]) then Range(s[0].start, s[0].end) else {}) + Instants(s[1..])
  }

  lemma {:induction false} InstantsCovered(s: seq<Interval>, t: int)
    requires Canonical(s)
    ensures t in Instants(s) <==> Covered(t, s)
  {
    if s != [] {
      InstantsCovered(s[1..], t);
      TailCovers(s, t);
      assert In(t, s[0]) ==> Covered(t, s);
      assert Covered(t, s) ==> t >= s[0].start;
    }
  }

  lemma {:induction false} InstantsCount(s: seq<Interval>)
    requires Canonical(s)
    ensures |Instants(s)| == Length(s)
  {
    if s != [] {
      InstantsCount(s[1..]);
      forall t | t in Instants(s[1..]) ensures t >= s[0].end {
        InstantsCovered(s[1..], t);
        TailCovers(s, t);
      }
      assert Range(s[0].start, s[0].end) !! Instants(s[1..]);
    }
  }

  /** What is subtracted and what is kept add up to the merged base. */
  lemma LengthConserved(merged: seq<Interval>, both: seq<Interval>, rest: seq<Interval>,
                        a: seq<Interval>, b: seq<Interval>)
    requires IsMerge(merged, a) && IsIntersection(both, a, b) && IsDifference(rest, a, b)
    ensures Length(rest) + Length(both) == Length(merged)
  {
    var r, i, m := Instants(rest), Instants(both), Instants(merged);
    forall t ensures t in r <==> t in m && t !in i
      ensures t in i ==> t in m
    {
      InstantsCovered(rest, t);
      InstantsCovered(both, t);
      InstantsCovered(merged, t);
    }
    assert r == m - i && i <= m;
    InstantsCount(rest);
    InstantsCount(both);
    InstantsCount(merged);
  }
}
