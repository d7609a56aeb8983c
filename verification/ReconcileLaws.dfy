/** What one reconcile does and does not depend on, and when the two stores agree about it. */
module ReconcileLaws {
  import opened Prelude
  import opened Core
  import opened Store
  import opened Reconcile
  import opened Lifecycle

  /** The id source never repeats, and has not yet issued an id the table holds. */
  ghost predicate FreshIds(x: Input) {
    && (forall m, n :: x.idOf(m) == x.idOf(n) ==> m == n)
    && (forall n, k :: n >= x.issued && k in x.before ==> x.before[k].finding.id != x.idOf(n))
  }

  lemma {:induction false} InsertsGrow(x: Input, i: nat, j: nat)
    requires i < j <= |x.scan.reported|
    ensures Inserts(x, i) <= Inserts(x, j)
    ensures InsertsAt(x, i) ==> Inserts(x, i) < Inserts(x, j)
  {
    if i + 1 < j {
      InsertsGrow(x, i, j - 1);
    }
  }

  // ----- every finding is accounted for -----

  predicate Describes(r: Record, f: Finding) {
    && r.finding.title == f.title
    && r.finding.severity == f.severity
    && r.finding.remediation == f.remediation
    && KeepsEvidence(r.finding.evidence, f.evidence)
  }

  lemma {:induction false} RejectionListed(reported: seq<Finding>, n: nat, j: nat)
    requires j < n <= |reported| && !Ingestible(reported[j])
    ensures Rejection(reported[j], ValidateForIngest(reported[j]).value) in Rejections(reported, n)
  {
    if j < n - 1 {
      RejectionListed(reported, n - 1, j);
    }
  }

  /** A reported finding is either rejected by name, or its key holds a live record, seen now, with no
      absences, described by the last finding reported under that key. */
  lemma StoredOrRejected(x: Input, j: nat)
    requires Keyed(x.before) && j < |x.scan.reported|
    ensures var f := x.scan.reported[j];
      if !Ingestible(f) then
        Rejection(f, ValidateForIngest(f).value) in Rejections(x.scan.reported, |x.scan.reported|)
      else
        var k := (x.scan.info.id, f.fingerprint);
        && Live(AfterScan(x), k)
        && AfterScan(x)[k].finding.lastSeen == x.scan.now
        && AfterScan(x)[k].absentStreak == 0
        && exists i :: j <= i < |x.scan.reported| && Reports(x.scan, i, k) &&
                       Describes(AfterScan(x)[k], x.scan.reported[i])
  {
    if Ingestible(x.scan.reported[j]) {
      StoredWhenIngestible(x, j, (x.scan.info.id, x.scan.reported[j].fingerprint));
    } else {
      RejectionListed(x.scan.reported, |x.scan.reported|, j);
    }
  }

  lemma WrittenDescribes(x: Input, j: nat)
    requires j < |x.scan.reported|
    ensures Describes(Written(x, j), x.scan.reported[j])
    ensures Written(x, j).finding.lastSeen == x.scan.now && Written(x, j).absentStreak == 0
    ensures !Written(x, j).finding.status.Resolved?
  {
    CappedEvidence(x.scan.reported[j].evidence);
  }

  lemma StoredWhenIngestible(x: Input, j: nat, k: Key)
    requires Keyed(x.before) && j < |x.scan.reported| && Reports(x.scan, j, k)
    ensures k in AfterScan(x) && Live(AfterScan(x), k)
    ensures AfterScan(x)[k].finding.lastSeen == x.scan.now && AfterScan(x)[k].absentStreak == 0
    ensures exists i :: j <= i < |x.scan.reported| && Reports(x.scan, i, k) &&
                        Describes(AfterScan(x)[k], x.scan.reported[i])
  {
    LastReportIsLast(x.scan, |x.scan.reported|, k, j);
    SeenIsReported(x.scan, k);
    var i := LastReport(x.scan, |x.scan.reported|, k).value;
    WrittenDescribes(x, i);
    assert Describes(AfterScan(x)[k], x.scan.reported[i]);
  }

  // ----- what never changes -----

  lemma IdentityOfStored(x: Input, k: Key)
    requires Keyed(x.before) && FreshIds(x) && k in x.before && Seen(x.scan, k)
    ensures SameIdentity(StepAt(x, k), x.before[k]) <==>
            x.backend.Sqlite? || x.before[k].finding.target == x.scan.target
  {
    var j := LastReport(x.scan, |x.scan.reported|, k).value;
    assert k == (x.scan.info.id, x.scan.reported[j].fingerprint);
  }

  /** A scan keeps id, first-seen time, target and check of a stored record, except exactly when the
      in-memory store lets a finding of one target overwrite the record of another. */
  lemma IdentityKept(x: Input, k: Key)
    requires Keyed(x.before) && FreshIds(x) && k in x.before
    ensures SameIdentity(AfterScan(x)[k], x.before[k]) <==>
            x.backend.Sqlite? || !Seen(x.scan, k) || x.before[k].finding.target == x.scan.target
  {
    SeenIsReported(x.scan, k);
    if Seen(x.scan, k) {
      IdentityOfStored(x, k);
    }
  }

  /** Records of other modules, and records of other targets that this scan does not report, stay as
      they are, and no such record appears. */
  lemma OthersUntouched(x: Input, k: Key)
    requires Keyed(x.before)
    requires k.0 != x.scan.info.id || (!Seen(x.scan, k) && !OnTarget(x.before, k, x.scan.info.id, x.scan.target))
    ensures k in AfterScan(x) <==> k in x.before
    ensures k in x.before ==> AfterScan(x)[k] == x.before[k]
  {
    SeenIsReported(x.scan, k);
  }

  // ----- order independence -----

  /** No two valid findings of the scan share a fingerprint. */
  ghost predicate DistinctReports(sc: Scan) {
    forall i, j :: 0 <= i < j < |sc.reported| && Ingestible(sc.reported[i]) && Ingestible(sc.reported[j]) ==>
      sc.reported[i].fingerprint != sc.reported[j].fingerprint
  }

  function WithoutId(r: Record): Record {
    r.(finding := r.finding.(id := ""))
  }

  lemma ReportedIndex(a: seq<Finding>, b: seq<Finding>, i: nat) returns (j: nat)
    requires multiset(a) == multiset(b) && i < |a|
    ensures j < |b| && b[j] == a[i]
  {
    assert a[i] in multiset(b);
    j :| 0 <= j < |b| && b[j] == a[i];
  }

  lemma SameLastReport(sc: Scan, sc': Scan, k: Key)
    requires sc' == sc.(reported := sc'.reported) && multiset(sc.reported) == multiset(sc'.reported)
    requires DistinctReports(sc)
    ensures Seen(sc, k) ==> Seen(sc', k)
    ensures Seen(sc, k) ==>
      sc.reported[LastReport(sc, |sc.reported|, k).value] == sc'.reported[LastReport(sc', |sc'.reported|, k).value]
  {
    if Seen(sc, k) {
      var i := LastReport(sc, |sc.reported|, k).value;
      var j := ReportedIndex(sc.reported, sc'.reported, i);
      LastReportIsLast(sc', |sc'.reported|, k, j);
      var j' := LastReport(sc', |sc'.reported|, k).value;
      var i' := ReportedIndex(sc'.reported, sc.reported, j');
      assert Reports(sc, i, k) && Reports(sc, i', k);
      assert i == i';
    }
  }

  lemma FirstReportIsLast(sc: Scan, k: Key)
    requires DistinctReports(sc) && Seen(sc, k)
    ensures FirstReport(sc, |sc.reported|, k) == LastReport(sc, |sc.reported|, k)
  {
    FirstReportIsFirst(sc, |sc.reported|, k, LastReport(sc, |sc.reported|, k).value);
  }

  lemma SameStepAt(x: Input, x': Input, k: Key)
    requires Keyed(x.before)
    requires x' == x.(scan := x'.scan) && x'.scan == x.scan.(reported := x'.scan.reported)
    requires DistinctReports(x.scan) && DistinctReports(x'.scan)
    requires Seen(x.scan, k) && Seen(x'.scan, k)
    requires x.scan.reported[LastReport(x.scan, |x.scan.reported|, k).value] ==
             x'.scan.reported[LastReport(x'.scan, |x'.scan.reported|, k).value]
    ensures WithoutId(StepAt(x, k)) == WithoutId(StepAt(x', k))
  {
    FirstReportIsLast(x.scan, k);
    FirstReportIsLast(x'.scan, k);
    var j, j' := LastReport(x.scan, |x.scan.reported|, k).value, LastReport(x'.scan, |x'.scan.reported|, k).value;
    var fp := x.scan.reported[j].fingerprint;
    assert Prev(x, fp) == Prev(x', fp);
    assert WithoutId(Written(x, j)) == WithoutId(Written(x', j'));
  }

  lemma DistinctReportsOfPermutation(sc: Scan, sc': Scan)
    requires sc' == sc.(reported := sc'.reported) && multiset(sc.reported) == multiset(sc'.reported)
    requires DistinctReports(sc)
    ensures DistinctReports(sc')
  {
    var a, b := sc.reported, sc'.reported;
    forall i, j | 0 <= i < j < |b| && Ingestible(b[i]) && Ingestible(b[j])
      ensures b[i].fingerprint != b[j].fingerprint
    {
      if b[i].fingerprint == b[j].fingerprint {
        var p := ReportedIndex(b, a, i);
        var q := ReportedIndex(b, a, j);
        assert p == q;
        TwiceInMultiset(b, i, j);
        OnceInMultiset(sc, p);
      }
    }
  }

  lemma TwiceInMultiset(s: seq<Finding>, i: nat, j: nat)
    requires i < j < |s| && s[i] == s[j]
    ensures multiset(s)[s[i]] >= 2
  {
    assert s == s[..i] + [s[i]] + s[i + 1..j] + [s[j]] + s[j + 1..];
  }

  lemma OnceInMultiset(sc: Scan, i: nat)
    requires DistinctReports(sc) && i < |sc.reported| && Ingestible(sc.reported[i])
    ensures multiset(sc.reported)[sc.reported[i]] == 1
  {
    var s := sc.reported;
    assert s == s[..i] + [s[i]] + s[i + 1..];
    assert s[i] !in s[..i] && s[i] !in s[i + 1..];
  }

  lemma PermutedScan(x: Input, x': Input, k: Key)
    requires Keyed(x.before) && DistinctReports(x.scan) && DistinctReports(x'.scan)
    requires x' == x.(scan := x'.scan) && x'.scan == x.scan.(reported := x'.scan.reported)
    requires multiset(x.scan.reported) == multiset(x'.scan.reported)
    ensures Seen(x.scan, k) <==> Seen(x'.scan, k)
    ensures k in AfterScan(x) <==> k in AfterScan(x')
    ensures k in AfterScan(x) ==> WithoutId(AfterScan(x)[k]) == WithoutId(AfterScan(x')[k])
  {
    SeenIsReported(x.scan, k);
    SeenIsReported(x'.scan, k);
    SameLastReport(x.scan, x'.scan, k);
    SameLastReport(x'.scan, x.scan, k);
    if Seen(x.scan, k) {
      SameStepAt(x, x', k);
    }
  }

  /** How many of the first n findings g turns into e. */
  function Giving<T(==)>(g: Finding -> Option<T>, fs: seq<Finding>, n: nat, e: T): nat
    requires n <= |fs|
  {
    if n == 0 then 0 else Giving(g, fs, n - 1, e) + if g(fs[n - 1]) == Some(e) then 1 else 0
  }

  lemma {:induction false} SameGiving<T>(g: Finding -> Option<T>, a: seq<Finding>, b: seq<Finding>, n: nat, e: T)
    requires n <= |a| && n <= |b| && forall i :: 0 <= i < n ==> a[i] == b[i]
    ensures Giving(g, a, n, e) == Giving(g, b, n, e)
  {
    if n > 0 {
      SameGiving(g, a, b, n - 1, e);
    }
  }

  /** A count that grows by one exactly where g gives e. */
  lemma {:induction false} CountedIsGiven<T>(
    g: Finding -> Option<T>, fs: seq<Finding>, n: nat, e: T, count: nat -> nat)
    requires n <= |fs| && count(0) == 0
    requires forall m: nat :: m < |fs| ==> count(m + 1) == count(m) + if g(fs[m]) == Some(e) then 1 else 0
    ensures count(n) == Giving(g, fs, n, e)
  {
    if n > 0 {
      CountedIsGiven(g, fs, n - 1, e, count);
      assert count(n - 1 + 1) == count(n - 1) + if g(fs[n - 1]) == Some(e) then 1 else 0;
    }
  }

  function Dropped(fs: seq<Finding>, i: nat): (r: seq<Finding>)
    requires i < |fs|
    ensures |r| == |fs| - 1
    ensures forall j :: 0 <= j < i ==> r[j] == fs[j]
    ensures forall j :: i <= j < |r| ==> r[j] == fs[j + 1]
  {
    fs[..i] + fs[i + 1..]
  }

  lemma {:induction false} GivingWithout<T>(g: Finding -> Option<T>, fs: seq<Finding>, i: nat, n: nat, e: T)
    requires i < n <= |fs|
    ensures Giving(g, fs, n, e) == Giving(g, Dropped(fs, i), n - 1, e) + if g(fs[i]) == Some(e) then 1 else 0
  {
    if i == n - 1 {
      SameGiving(g, fs, Dropped(fs, i), n - 1, e);
    } else {
      GivingWithout(g, fs, i, n - 1, e);
    }
  }

  lemma DroppedOne(fs: seq<Finding>, i: nat)
    requires i < |fs|
    ensures multiset(fs) == multiset(Dropped(fs, i)) + multiset{fs[i]}
  {
    var l, m, r := fs[..i], [fs[i]], fs[i + 1..];
    assert fs == l + (m + r);
    assert multiset(l + (m + r)) == multiset(l) + multiset(m + r);
    assert multiset(m + r) == multiset(m) + multiset(r);
    assert Dropped(fs, i) == l + r;
    assert multiset(l + r) == multiset(l) + multiset(r);
  }

  lemma EqualWithoutOne(x: multiset<Finding>, y: multiset<Finding>, f: Finding)
    requires x + multiset{f} == y + multiset{f}
    ensures x == y
  {
    forall e ensures x[e] == y[e] {
      assert (x + multiset{f})[e] == (y + multiset{f})[e];
    }
  }

  lemma RestOfPermutation(a: seq<Finding>, b: seq<Finding>, i: nat)
    requires multiset(a) == multiset(b) && a != [] && i < |b| && b[i] == a[|a| - 1]
    ensures multiset(a[..|a| - 1]) == multiset(Dropped(b, i))
  {
    DroppedOne(a, |a| - 1);
    DroppedOne(b, i);
    assert Dropped(a, |a| - 1) == a[..|a| - 1];
    EqualWithoutOne(multiset(a[..|a| - 1]), multiset(Dropped(b, i)), b[i]);
  }

  /** What a list gives does not depend on its order. */
  lemma {:induction false} GivingPermuted<T>(g: Finding -> Option<T>, a: seq<Finding>, b: seq<Finding>, e: T)
    requires multiset(a) == multiset(b)
    ensures Giving(g, a, |a|, e) == Giving(g, b, |b|, e)
    decreases |a|
  {
    assert |multiset(a)| == |a| && |multiset(b)| == |b|;
    if a != [] {
      var n := |a| - 1;
      var i := ReportedIndex(a, b, n);
      RestOfPermutation(a, b, i);
      GivingPermuted(g, a[..n], Dropped(b, i), e);
      SameGiving(g, a, a[..n], n, e);
      GivingWithout(g, b, i, |b|, e);
    }
  }

  function FindingWithoutId(f: Finding): Finding {
    f.(id := "")
  }

  function WithoutIds(fs: seq<Finding>): (r: seq<Finding>)
    ensures |r| == |fs|
    ensures forall i :: 0 <= i < |fs| ==> r[i] == FindingWithoutId(fs[i])
  {
    seq(|fs|, i requires 0 <= i < |fs| => FindingWithoutId(fs[i]))
  }

  /** The finding announced for a report, if any, without the id it was given. */
  function Announcement(x: Input): Finding -> Option<Finding> {
    (f: Finding) =>
      if !Ingestible(f) then None
      else
        match Prev(x, f.fingerprint)
        case None => Some(Inserted(Capped(f), x.scan.info.id, "", x.scan.now).finding)
        case Some(prev) =>
          if prev.finding.status.Resolved? then Some(FindingWithoutId(Refreshed(prev, Capped(f), x.scan.now).finding))
          else None
  }

  function WithoutReports(x: Input): Input {
    x.(scan := x.scan.(reported := []))
  }

  lemma AnnouncementOf(x: Input, j: nat)
    requires j < |x.scan.reported|
    ensures Announcement(WithoutReports(x))(x.scan.reported[j]) ==
            if OpensAt(x, j) then Some(FindingWithoutId(Written(x, j).finding)) else None
  {
    var fp := x.scan.reported[j].fingerprint;
    assert Prev(WithoutReports(x), fp) == Prev(x, fp);
  }

  function AnnouncedCount(x: Input, e: Finding, n: nat): nat {
    if n <= |x.scan.reported| then multiset(WithoutIds(Opened(x, n)))[e] else 0
  }

  lemma OpenedNext(x: Input, n: nat, e: Finding)
    requires n < |x.scan.reported|
    ensures AnnouncedCount(x, e, n + 1) == AnnouncedCount(x, e, n) +
            if Announcement(WithoutReports(x))(x.scan.reported[n]) == Some(e) then 1 else 0
  {
    AnnouncementOf(x, n);
    var fs := Opened(x, n);
    if OpensAt(x, n) {
      var w := Written(x, n).finding;
      assert WithoutIds(fs + [w]) == WithoutIds(fs) + [FindingWithoutId(w)];
      CountSnoc(WithoutIds(fs), FindingWithoutId(w), e);
    } else {
      assert Opened(x, n + 1) == fs;
    }
  }

  lemma OpenedIsGiven(x: Input, e: Finding)
    ensures AnnouncedCount(x, e, |x.scan.reported|) ==
            Giving(Announcement(WithoutReports(x)), x.scan.reported, |x.scan.reported|, e)
  {
    forall m: nat | m < |x.scan.reported|
      ensures AnnouncedCount(x, e, m + 1) ==
              AnnouncedCount(x, e, m) + if Announcement(WithoutReports(x))(x.scan.reported[m]) == Some(e) then 1 else 0
    {
      OpenedNext(x, m, e);
    }
    CountedIsGiven(Announcement(WithoutReports(x)), x.scan.reported, |x.scan.reported|, e,
                   m => AnnouncedCount(x, e, m));
  }

  function RejectionOf(): Finding -> Option<Rejection> {
    (f: Finding) => match ValidateForIngest(f) case None => None case Some(field) => Some(Rejection(f, field))
  }

  function RejectedCount(reported: seq<Finding>, e: Rejection, n: nat): nat {
    if n <= |reported| then multiset(Rejections(reported, n))[e] else 0
  }

  lemma RejectionsNext(reported: seq<Finding>, n: nat, e: Rejection)
    requires n < |reported|
    ensures RejectedCount(reported, e, n + 1) ==
            RejectedCount(reported, e, n) + if RejectionOf()(reported[n]) == Some(e) then 1 else 0
  {
    var f, rs := reported[n], Rejections(reported, n);
    match ValidateForIngest(f)
    case None => assert Rejections(reported, n + 1) == rs;
    case Some(field) => CountSnoc(rs, Rejection(f, field), e);
  }

  lemma RejectionsAreGiven(reported: seq<Finding>, e: Rejection)
    ensures RejectedCount(reported, e, |reported|) == Giving(RejectionOf(), reported, |reported|, e)
  {
    forall m: nat | m < |reported|
      ensures RejectedCount(reported, e, m + 1) ==
              RejectedCount(reported, e, m) + if RejectionOf()(reported[m]) == Some(e) then 1 else 0
    {
      RejectionsNext(reported, m, e);
    }
    CountedIsGiven(RejectionOf(), reported, |reported|, e, m => RejectedCount(reported, e, m));
  }

  lemma SameAnnouncements(x: Input, x': Input)
    requires x' == x.(scan := x'.scan) && x'.scan == x.scan.(reported := x'.scan.reported)
    requires multiset(x.scan.reported) == multiset(x'.scan.reported)
    ensures multiset(WithoutIds(Opened(x, |x.scan.reported|))) ==
            multiset(WithoutIds(Opened(x', |x'.scan.reported|)))
  {
    var a, b := WithoutIds(Opened(x, |x.scan.reported|)), WithoutIds(Opened(x', |x'.scan.reported|));
    forall e ensures multiset(a)[e] == multiset(b)[e] {
      OpenedIsGiven(x, e);
      OpenedIsGiven(x', e);
      GivingPermuted(Announcement(WithoutReports(x)), x.scan.reported, x'.scan.reported, e);
    }
  }

  lemma SameRejections(a: seq<Finding>, b: seq<Finding>)
    requires multiset(a) == multiset(b)
    ensures multiset(Rejections(a, |a|)) == multiset(Rejections(b, |b|))
  {
    forall e ensures multiset(Rejections(a, |a|))[e] == multiset(Rejections(b, |b|))[e] {
      RejectionsAreGiven(a, e);
      RejectionsAreGiven(b, e);
      GivingPermuted(RejectionOf(), a, b, e);
    }
  }

  /** The order in which a collector lists its findings does not matter, neither for the table nor for what is
      announced and rejected, up to the ids handed out. */
  lemma OrderOfReportsIrrelevant(x: Input, x': Input)
    requires Keyed(x.before) && DistinctReports(x.scan)
    requires x' == x.(scan := x'.scan) && x'.scan == x.scan.(reported := x'.scan.reported)
    requires multiset(x.scan.reported) == multiset(x'.scan.reported)
    ensures AfterScan(x).Keys == AfterScan(x').Keys
    ensures forall k <- AfterScan(x) :: WithoutId(AfterScan(x)[k]) == WithoutId(AfterScan(x')[k])
    ensures multiset(WithoutIds(Opened(x, |x.scan.reported|))) ==
            multiset(WithoutIds(Opened(x', |x'.scan.reported|)))
    ensures Closed(x) == Closed(x')
    ensures multiset(Rejections(x.scan.reported, |x.scan.reported|)) ==
            multiset(Rejections(x'.scan.reported, |x'.scan.reported|))
  {
    DistinctReportsOfPermutation(x.scan, x'.scan);
    forall k
      ensures k in AfterScan(x) <==> k in AfterScan(x')
      ensures k in AfterScan(x) ==> WithoutId(AfterScan(x)[k]) == WithoutId(AfterScan(x')[k])
      ensures Seen(x.scan, k) <==> Seen(x'.scan, k)
    {
      PermutedScan(x, x', k);
    }
    SameResolved(x, x');
    SameAnnouncements(x, x');
    SameRejections(x.scan.reported, x'.scan.reported);
  }

  lemma SameResolved(x: Input, x': Input)
    requires x' == x.(scan := x'.scan) && x'.scan == x.scan.(reported := x'.scan.reported)
    requires forall k :: Seen(x.scan, k) <==> Seen(x'.scan, k)
    ensures Closed(x) == Closed(x')
  {
    assert forall k :: ResolvesAt(x, k) <==> ResolvesAt(x', k);
  }

  // ----- the two stores -----

  /** No new finding takes a key that is already occupied, in the table or by an earlier finding. */
  ghost predicate CollisionFree(x: Input) {
    forall j :: 0 <= j < |x.scan.reported| && InsertsAt(x, j) ==>
      var k := (x.scan.info.id, x.scan.reported[j].fingerprint);
      k !in x.before && forall i :: 0 <= i < j ==> !Reports(x.scan, i, k)
  }

  function On(b: Backend, x: Input): Input {
    x.(backend := b)
  }

  lemma {:induction false} InsertsOn(x: Input, n: nat, b: Backend)
    requires n <= |x.scan.reported|
    ensures Inserts(On(b, x), n) == Inserts(x, n)
  {
    if n > 0 {
      InsertsOn(x, n - 1, b);
    }
  }

  lemma WrittenOn(x: Input, j: nat, b: Backend)
    requires j < |x.scan.reported|
    ensures Written(On(b, x), j) == Written(x, j)
  {
    InsertsOn(x, j, b);
  }

  lemma CollisionFreeKeyAgrees(x: Input, k: Key)
    requires Keyed(x.before) && CollisionFree(x) && Seen(x.scan, k)
    ensures StepAt(On(Memory, x), k) == StepAt(On(Sqlite, x), k)
  {
    var j := LastReport(x.scan, |x.scan.reported|, k).value;
    FirstReportIsFirst(x.scan, |x.scan.reported|, k, j);
    var i := FirstReport(x.scan, |x.scan.reported|, k).value;
    WrittenOn(x, j, Memory);
    WrittenOn(x, j, Sqlite);
    WrittenOn(x, i, Sqlite);
    assert k == (x.scan.info.id, x.scan.reported[j].fingerprint);
    if k !in x.before {
      assert InsertsAt(x, j);
      assert i == j;
    }
  }

  lemma CollidingKeyDisagrees(x: Input, j: nat, k: Key)
    requires Keyed(x.before) && FreshIds(x)
    requires j < |x.scan.reported| && InsertsAt(x, j) && k == (x.scan.info.id, x.scan.reported[j].fingerprint)
    requires k in x.before || exists i :: 0 <= i < j && Reports(x.scan, i, k)
    ensures Seen(x.scan, k)
    ensures StepAt(On(Memory, x), k).finding.id != StepAt(On(Sqlite, x), k).finding.id
  {
    LastReportIsLast(x.scan, |x.scan.reported|, k, j);
    var last := LastReport(x.scan, |x.scan.reported|, k).value;
    WrittenOn(x, last, Memory);
    WrittenOn(x, last, Sqlite);
    assert x.scan.reported[last].fingerprint == k.1;
    assert Written(x, last).finding.id == x.idOf(x.issued + Inserts(x, last));
    if k !in x.before {
      var i :| 0 <= i < j && Reports(x.scan, i, k);
      FirstReportIsFirst(x.scan, |x.scan.reported|, k, i);
      var first := FirstReport(x.scan, |x.scan.reported|, k).value;
      WrittenOn(x, first, Sqlite);
      assert x.scan.reported[first].fingerprint == k.1;
      assert InsertsAt(x, first);
      InsertsGrow(x, first, last);
    }
  }

  lemma AgreesWhenCollisionFree(x: Input)
    requires Keyed(x.before) && CollisionFree(x)
    ensures AfterScan(On(Memory, x)) == AfterScan(On(Sqlite, x))
  {
    var mem, sql := AfterScan(On(Memory, x)), AfterScan(On(Sqlite, x));
    assert mem.Keys == sql.Keys;
    forall k <- mem ensures mem[k] == sql[k] {
      SeenIsReported(x.scan, k);
      if Seen(x.scan, k) {
        CollisionFreeKeyAgrees(x, k);
      }
    }
  }

  lemma DisagreesOnCollision(x: Input)
    requires Keyed(x.before) && FreshIds(x) && !CollisionFree(x)
    ensures AfterScan(On(Memory, x)) != AfterScan(On(Sqlite, x))
  {
    var j :| 0 <= j < |x.scan.reported| && InsertsAt(x, j) &&
      var k := (x.scan.info.id, x.scan.reported[j].fingerprint);
      k in x.before || exists i :: 0 <= i < j && Reports(x.scan, i, k);
    var k := (x.scan.info.id, x.scan.reported[j].fingerprint);
    CollidingKeyDisagrees(x, j, k);
    SeenIsReported(x.scan, k);
    assert AfterScan(On(Memory, x))[k] == StepAt(On(Memory, x), k);
    assert AfterScan(On(Sqlite, x))[k] == StepAt(On(Sqlite, x), k);
  }

  /** Whole-record replacement and the partial conflict update leave the same table if and only if
      the scan is free of collisions. */
  lemma StoresAgreeOnScan(x: Input)
    requires Keyed(x.before) && FreshIds(x)
    ensures AfterScan(On(Memory, x)) == AfterScan(On(Sqlite, x)) <==> CollisionFree(x)
  {
    if CollisionFree(x) {
      AgreesWhenCollisionFree(x);
    } else {
      DisagreesOnCollision(x);
    }
  }

  // ----- the two stores over whole runs -----

  /** Every id in the table came from the id source. */
  ghost predicate IdsIssued(w: World) {
    && (forall m, n :: w.idOf(m) == w.idOf(n) ==> m == n)
    && (forall k <- w.table :: exists n: nat :: n < w.issued && w.table[k].finding.id == w.idOf(n))
  }

  lemma IdsIssuedScan(x: Input, k: Key)
    requires Keyed(x.before) && x.backend.Memory?
    requires k in x.before ==> exists n: nat :: n < x.issued && x.before[k].finding.id == x.idOf(n)
    requires k in x.before || Seen(x.scan, k)
    ensures exists n: nat ::
      n < x.issued + Inserts(x, |x.scan.reported|) && StepAt(x, k).finding.id == x.idOf(n)
  {
    if Seen(x.scan, k) {
      var j := LastReport(x.scan, |x.scan.reported|, k).value;
      assert k == (x.scan.info.id, x.scan.reported[j].fingerprint);
      if Prev(x, k.1).None? {
        assert InsertsAt(x, j);
        InsertsGrow(x, j, |x.scan.reported|);
        assert StepAt(x, k).finding.id == x.idOf(x.issued + Inserts(x, j));
      }
    }
  }

  lemma IdsIssuedStep(w: World, a: Action)
    requires Keyed(w.table) && w.backend.Memory? && IdsIssued(w)
    ensures IdsIssued(Step(w, a))
  {
    if a.ScanTarget? {
      var x := InputOf(w, a.scan);
      forall k <- AfterScan(x)
        ensures exists n: nat ::
          n < w.issued + Inserts(x, |a.scan.reported|) && AfterScan(x)[k].finding.id == w.idOf(n)
      {
        SeenIsReported(x.scan, k);
        IdsIssuedScan(x, k);
      }
    }
  }

  lemma {:induction false} IdsIssuedExec(w: World, run: seq<Action>)
    requires Keyed(w.table) && w.backend.Memory? && IdsIssued(w)
    ensures Exec(w, run).backend.Memory? && IdsIssued(Exec(w, run))
  {
    if run != [] {
      IdsIssuedExec(w, run[..|run| - 1]);
      ExecKeepsKeys(w, run[..|run| - 1]);
      IdsIssuedStep(Exec(w, run[..|run| - 1]), run[|run| - 1]);
    }
  }

  function OnSqlite(w: World): World {
    w.(backend := Sqlite)
  }

  /** Both stores hold the same table, and announced the same, after every step of the run. */
  ghost predicate AgreeThroughout(w: World, run: seq<Action>) {
    && Exec(OnSqlite(w), run) == OnSqlite(Exec(w, run))
    && (run != [] ==> AgreeThroughout(w, run[..|run| - 1]))
  }

  ghost predicate CollisionFreeThroughout(w: World, run: seq<Action>) {
    run != [] ==>
      var p, a := run[..|run| - 1], run[|run| - 1];
      CollisionFreeThroughout(w, p) && (a.ScanTarget? ==> CollisionFree(InputOf(Exec(w, p), a.scan)))
  }

  lemma {:induction false} OpenedOn(x: Input, n: nat, b: Backend)
    requires n <= |x.scan.reported|
    ensures Opened(On(b, x), n) == Opened(x, n)
  {
    if n > 0 {
      OpenedOn(x, n - 1, b);
      WrittenOn(x, n - 1, b);
    }
  }

  lemma AgreeScan(w: World, sc: Scan)
    requires Keyed(w.table) && w.backend.Memory? && IdsIssued(w)
    ensures Step(OnSqlite(w), ScanTarget(sc)) == OnSqlite(Step(w, ScanTarget(sc))) <==>
            CollisionFree(InputOf(w, sc))
  {
    var x := InputOf(w, sc);
    var y := InputOf(OnSqlite(w), sc);
    assert y == On(Sqlite, x) && x == On(Memory, x);
    assert FreshIds(x);
    StoresAgreeOnScan(x);
    InsertsOn(x, |sc.reported|, Sqlite);
    OpenedOn(x, |sc.reported|, Sqlite);
    SameClosed(x);
    SameWorlds(Step(OnSqlite(w), ScanTarget(sc)), OnSqlite(Step(w, ScanTarget(sc))));
  }

  lemma SameClosed(x: Input)
    ensures Closed(On(Sqlite, x)) == Closed(x)
  {
  }

  lemma SameWorlds(v: World, w: World)
    requires v.backend == w.backend && v.idOf == w.idOf && v.issued == w.issued && v.outcomes == w.outcomes
    ensures v == w <==> v.table == w.table
  {
  }

  lemma AgreeStep(w: World, a: Action)
    requires Keyed(w.table) && w.backend.Memory? && IdsIssued(w)
    ensures Step(OnSqlite(w), a) == OnSqlite(Step(w, a)) <==>
            (a.ScanTarget? ==> CollisionFree(InputOf(w, a.scan)))
  {
    match a
    case ScanTarget(sc) => AgreeScan(w, sc);
    case SetStatus(k, next) =>
    case Prune(_) =>
  }

  /** From an empty store, over any run of scans, status changes and pruning, the two stores agree
      throughout if and only if no scan of the run collides. */
  lemma {:induction false} StoresAgree(w: World, run: seq<Action>)
    requires w.backend.Memory? && w.table == map[]
    requires forall m, n :: w.idOf(m) == w.idOf(n) ==> m == n
    ensures AgreeThroughout(w, run) <==> CollisionFreeThroughout(w, run)
  {
    if run != [] {
      var p := run[..|run| - 1];
      StoresAgree(w, p);
      ExecKeepsKeys(w, p);
      IdsIssuedExec(w, p);
      AgreeStep(Exec(w, p), run[|run| - 1]);
    }
  }

  /** A scan from an empty store that lists one valid finding twice: the in-memory store keeps the second id, the
      SQL store the first. */
  lemma RepeatedFindingDisagrees(w: World, sc: Scan, f: Finding)
    requires w.backend.Memory? && w.table == map[]
    requires forall m, n :: w.idOf(m) == w.idOf(n) ==> m == n
    requires Ingestible(f) && sc.reported == [f, f]
    ensures !AgreeThroughout(w, [ScanTarget(sc)])
  {
    var run := [ScanTarget(sc)];
    assert run[..0] == [];
    var x := InputOf(w, sc);
    assert InsertsAt(x, 1) && Reports(sc, 0, (sc.info.id, f.fingerprint));
    assert !CollisionFree(x);
    StoresAgree(w, run);
  }
}
