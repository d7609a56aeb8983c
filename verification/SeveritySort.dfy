/** The insertion sort that orders a digest, and what makes it a stable sort. */
module SeveritySort {
  import opened Core

  /** Unknown severities count as informational. */
  function SeverityRank(s: Severity): nat {
    match s
    case Critical => 4
    case High => 3
    case Medium => 2
    case Low => 1
    case _ => 0
  }

  /** a outranks b: Critical, High, Medium, Low, and last Info and anything unknown. */
  predicate MoreSevere(a: Severity, b: Severity) {
    match a
    case Critical => !b.Critical?
    case High => b.Medium? || b.Low? || b.Info? || b.Unknown?
    case Medium => b.Low? || b.Info? || b.Unknown?
    case Low => b.Info? || b.Unknown?
    case _ => false
  }

  lemma RankIsSeverity(a: Severity, b: Severity)
    ensures MoreSevere(a, b) <==> SeverityRank(a) > SeverityRank(b)
  {
  }

  function RankOf(f: Finding): (r: nat)
    ensures r <= 4
  {
    SeverityRank(f.severity)
  }

  /** The findings of rank r, in their original order. */
  function WithRank(fs: seq<Finding>, r: nat): seq<Finding> {
    if fs == [] then []
    else if RankOf(fs[0]) == r then [fs[0]] + WithRank(fs[1..], r)
    else WithRank(fs[1..], r)
  }

  /** The findings of rank r and below, rank by rank downwards. */
  function FromRank(fs: seq<Finding>, r: nat): seq<Finding> {
    if r == 0 then WithRank(fs, 0) else WithRank(fs, r) + FromRank(fs, r - 1)
  }

  /** Most severe first; among equals, the original order. */
  function BySeverity(fs: seq<Finding>): seq<Finding> {
    FromRank(fs, 4)
  }

  ghost predicate Descending(fs: seq<Finding>) {
    forall i, j :: 0 <= i < j < |fs| ==> RankOf(fs[i]) >= RankOf(fs[j])
  }

  /** No finding stands after a less severe one. */
  ghost predicate SevereFirst(fs: seq<Finding>) {
    forall i, j :: 0 <= i < j < |fs| ==> !MoreSevere(fs[j].severity, fs[i].severity)
  }

  lemma DescendingIsSevereFirst(fs: seq<Finding>)
    ensures Descending(fs) <==> SevereFirst(fs)
  {
    forall i, j | 0 <= i < j < |fs|
      ensures MoreSevere(fs[j].severity, fs[i].severity) <==> RankOf(fs[j]) > RankOf(fs[i])
    {
      RankIsSeverity(fs[j].severity, fs[i].severity);
    }
  }

  lemma {:induction false} WithRankConcat(a: seq<Finding>, b: seq<Finding>, r: nat)
    ensures WithRank(a + b, r) == WithRank(a, r) + WithRank(b, r)
  {
    if a == [] {
      assert a + b == b;
    } else {
      WithRankConcat(a[1..], b, r);
      assert (a + b)[1..] == a[1..] + b;
    }
  }

  lemma PairWithRank(x: Finding, y: Finding, r: nat)
    requires RankOf(x) != RankOf(y)
    ensures WithRank([x, y], r) == WithRank([y, x], r)
  {
    assert [x, y][1..] == [y] && [y, x][1..] == [x];
    assert WithRank([x], r) == if RankOf(x) == r then [x] else [];
    assert WithRank([y], r) == if RankOf(y) == r then [y] else [];
  }

  /** Exchanging two neighbours of different rank changes no rank's subsequence. */
  lemma SwapKeepsRanks(head: seq<Finding>, x: Finding, y: Finding, tail: seq<Finding>, r: nat)
    requires RankOf(x) != RankOf(y)
    ensures WithRank(head + ([x, y] + tail), r) == WithRank(head + ([y, x] + tail), r)
  {
    WithRankConcat(head, [x, y] + tail, r);
    WithRankConcat(head, [y, x] + tail, r);
    WithRankConcat([x, y], tail, r);
    WithRankConcat([y, x], tail, r);
    PairWithRank(x, y, r);
  }

  lemma {:induction false} NoneAbove(s: seq<Finding>, m: nat, r: nat)
    requires m < r && forall i :: 0 <= i < |s| ==> RankOf(s[i]) <= m
    ensures WithRank(s, r) == []
  {
    if s != [] {
      NoneAbove(s[1..], m, r);
    }
  }

  /** A most severe head comes first. */
  lemma {:induction false} SevereHead(s: seq<Finding>, r: nat)
    requires s != [] && forall i :: 0 <= i < |s| ==> RankOf(s[i]) <= RankOf(s[0])
    ensures FromRank(s, r) == if RankOf(s[0]) <= r then [s[0]] + FromRank(s[1..], r) else FromRank(s[1..], r)
  {
    if r > 0 {
      SevereHead(s, r - 1);
    }
    if RankOf(s[0]) < r {
      NoneAbove(s, RankOf(s[0]), r);
      NoneAbove(s[1..], RankOf(s[0]), r);
    }
  }

  /** A descending sequence is its own stable sort. */
  lemma {:induction false} DescendingIsSorted(s: seq<Finding>)
    requires Descending(s)
    ensures BySeverity(s) == s
  {
    if s == [] {
      NothingToSort(4);
    } else {
      DescendingIsSorted(s[1..]);
      SevereHead(s, 4);
    }
  }

  lemma {:induction false} NothingToSort(r: nat)
    ensures FromRank([], r) == []
  {
    if r > 0 {
      NothingToSort(r - 1);
    }
  }

  /** The sort depends only on the rank subsequences. */
  lemma {:induction false} SameRanksSameSort(s: seq<Finding>, t: seq<Finding>, r: nat)
    requires forall k: nat :: WithRank(s, k) == WithRank(t, k)
    ensures FromRank(s, r) == FromRank(t, r)
  {
    if r > 0 {
      SameRanksSameSort(s, t, r - 1);
    }
  }

  /** Findings of one severity keep their order. */
  lemma {:induction false} SameRankKept(fs: seq<Finding>, r: nat, k: nat)
    ensures WithRank(FromRank(fs, r), k) == if k <= r then WithRank(fs, k) else []
  {
    OwnRank(fs, r, k);
    if r > 0 {
      SameRankKept(fs, r - 1, k);
      WithRankConcat(WithRank(fs, r), FromRank(fs, r - 1), k);
    }
  }

  lemma {:induction false} OwnRank(fs: seq<Finding>, r: nat, k: nat)
    ensures WithRank(WithRank(fs, r), k) == if k == r then WithRank(fs, r) else []
  {
    if fs != [] {
      OwnRank(fs[1..], r, k);
      if RankOf(fs[0]) == r {
        var rest := WithRank(fs[1..], r);
        assert ([fs[0]] + rest)[1..] == rest;
      }
    }
  }

  /** Sorts in place: fs ends as the stable, severity-descending rearrangement of what it was. */
  method SortBySeverity(fs: array<Finding>)
    modifies fs
    ensures fs[..] == BySeverity(old(fs[..]))
    ensures SevereFirst(fs[..])
  {
    ghost var was := fs[..];
    var i := 1;
    while i < fs.Length
      invariant 1 <= i && (i <= fs.Length || fs.Length == 0)
      invariant forall p, q :: 0 <= p < q < i && q < fs.Length ==> RankOf(fs[p]) >= RankOf(fs[q])
      invariant forall r: nat :: WithRank(fs[..], r) == WithRank(was, r)
    {
      SinkInto(fs, i);
      i := i + 1;
    }
    DescendingIsSorted(fs[..]);
    DescendingIsSevereFirst(fs[..]);
    SameRanksSameSort(fs[..], was, 4);
  }

  /** The inner loop: element i moves down past every less severe one before it. */
  method SinkInto(fs: array<Finding>, i: nat)
    requires i < fs.Length
    requires forall p, q :: 0 <= p < q < i ==> RankOf(fs[p]) >= RankOf(fs[q])
    modifies fs
    ensures forall p, q :: 0 <= p < q <= i ==> RankOf(fs[p]) >= RankOf(fs[q])
    ensures forall r: nat :: WithRank(fs[..], r) == WithRank(old(fs[..]), r)
  {
    var j := i;
    while j > 0 && RankOf(fs[j]) > RankOf(fs[j - 1])
      invariant 0 <= j <= i
      invariant forall p, q :: 0 <= p < q <= i && p != j && q != j ==> RankOf(fs[p]) >= RankOf(fs[q])
      invariant forall q :: j < q <= i ==> RankOf(fs[j]) > RankOf(fs[q])
      invariant forall r: nat :: WithRank(fs[..], r) == WithRank(old(fs[..]), r)
    {
      SwapNeighbours(fs, j);
      j := j - 1;
    }
  }

  method SwapNeighbours(fs: array<Finding>, j: nat)
    requires 0 < j < fs.Length && RankOf(fs[j]) > RankOf(fs[j - 1])
    modifies fs
    ensures fs[j] == old(fs[j - 1]) && fs[j - 1] == old(fs[j])
    ensures forall k :: 0 <= k < fs.Length && k != j && k != j - 1 ==> fs[k] == old(fs[k])
    ensures forall r :: WithRank(fs[..], r) == WithRank(old(fs[..]), r)
  {
    ghost var was := fs[..];
    fs[j], fs[j - 1] := fs[j - 1], fs[j];
    ghost var head, tail := was[..j - 1], was[j + 1..];
    assert was == head + ([was[j - 1], was[j]] + tail);
    assert fs[..] == head + ([was[j], was[j - 1]] + tail);
    forall r: nat ensures WithRank(fs[..], r) == WithRank(was, r) {
      SwapKeepsRanks(head, was[j - 1], was[j], tail, r);
    }
  }

  // ----- sorting loses and repeats nothing -----

  function CountIf(fs: seq<Finding>, p: Finding -> bool): nat {
    if fs == [] then 0 else (if p(fs[0]) then 1 else 0) + CountIf(fs[1..], p)
  }

  lemma {:induction false} CountConcat(a: seq<Finding>, b: seq<Finding>, p: Finding -> bool)
    ensures CountIf(a + b, p) == CountIf(a, p) + CountIf(b, p)
  {
    if a == [] {
      assert a + b == b;
    } else {
      CountConcat(a[1..], b, p);
      assert (a + b)[1..] == a[1..] + b;
    }
  }

  /** Taking the head away takes exactly it from the sorted whole. */
  lemma {:induction false} CountOfTail(fs: seq<Finding>, r: nat, p: Finding -> bool)
    requires fs != []
    ensures CountIf(FromRank(fs, r), p) ==
            CountIf(FromRank(fs[1..], r), p) + if RankOf(fs[0]) <= r && p(fs[0]) then 1 else 0
  {
    if r > 0 {
      CountOfTail(fs, r - 1, p);
      CountConcat(WithRank(fs, r), FromRank(fs, r - 1), p);
      CountConcat(WithRank(fs[1..], r), FromRank(fs[1..], r - 1), p);
    }
    if RankOf(fs[0]) == r {
      CountConcat([fs[0]], WithRank(fs[1..], r), p);
    }
  }

  lemma {:induction false} SortKeepsCounts(fs: seq<Finding>, p: Finding -> bool)
    ensures CountIf(BySeverity(fs), p) == CountIf(fs, p)
  {
    if fs == [] {
      NothingToSort(4);
    } else {
      SortKeepsCounts(fs[1..], p);
      CountOfTail(fs, 4, p);
    }
  }

  lemma {:induction false} CountIsMultiplicity(fs: seq<Finding>, f: Finding)
    ensures CountIf(fs, x => x == f) == multiset(fs)[f]
  {
    if fs != [] {
      CountIsMultiplicity(fs[1..], f);
      assert fs == [fs[0]] + fs[1..];
    }
  }

  lemma SortIsPermutation(fs: seq<Finding>)
    ensures multiset(BySeverity(fs)) == multiset(fs)
  {
    forall f ensures multiset(BySeverity(fs))[f] == multiset(fs)[f] {
      SortKeepsCounts(fs, x => x == f);
      CountIsMultiplicity(fs, f);
      CountIsMultiplicity(BySeverity(fs), f);
    }
  }

  function CountFingerprint(fs: seq<Finding>, fp: string): nat {
    CountIf(fs, (f: Finding) => f.fingerprint == fp)
  }
}
