/** The product put together: feed-driven scans of accepted targets over the engine. When the notices of a run
    balance, when the two stores agree, and what happens for a target that is not steady. */
module FeedRuns {
  import opened Prelude
  import opened Core
  import opened Cpe
  import opened Store
  import opened Reconcile
  import opened Lifecycle
  import Laws = ReconcileLaws
  import opened Patchlight

  // ----- how often a scan reports a CVE -----

  function ListedCount(feed: seq<Vuln>, n: nat, id: string): nat
    requires n <= |feed|
  {
    if n == 0 then 0 else ListedCount(feed, n - 1, id) + if feed[n - 1].id == id then 1 else 0
  }

  lemma {:induction false} ReportCountPrefix(sc: Scan, f: Finding, n: nat, k: Key)
    requires n <= |sc.reported|
    ensures ReportCount(sc.(reported := sc.reported + [f]), n, k) == ReportCount(sc, n, k)
  {
    if n > 0 {
      ReportCountPrefix(sc, f, n - 1, k);
    }
  }

  lemma {:induction false} CountsAgree(make: Vuln -> Finding, feed: seq<Vuln>, n: nat, sc: Scan, fp: string, id: string)
    requires n <= |feed| && id != "" && sc.reported == ForEachListed(make, feed, n)
    requires forall v <- feed :: v.id != "" ==> Ingestible(make(v)) && (make(v).fingerprint == fp <==> v.id == id)
    ensures ReportCount(sc, |sc.reported|, (sc.info.id, fp)) == ListedCount(feed, n, id)
  {
    if n > 0 {
      var rest := sc.(reported := ForEachListed(make, feed, n - 1));
      CountsAgree(make, feed, n - 1, rest, fp, id);
      var v := feed[n - 1];
      assert v in feed;
      if v.id == "" {
        assert sc == rest;
      } else {
        ReportCountPrefix(rest, make(v), |rest.reported|, (sc.info.id, fp));
        assert sc == rest.(reported := rest.reported + [make(v)]);
      }
    }
  }

  /** A scan reports a CVE's key as often as the feed lists the CVE. */
  lemma ReportedAsListed(env: Env, c: CPE, feed: seq<Vuln>, now: int, id: string)
    requires CollisionFree(env) && AcceptedTarget(c) && CleanIds(feed) && id != "" && '|' !in id
    ensures var sc := CollectedScan(env, c, feed, now);
      ReportCount(sc, |sc.reported|, FiledKey(env, c, id)) == ListedCount(feed, |feed|, id)
  {
    var fp := FiledKey(env, c, id).1;
    forall v <- feed | v.id != ""
      ensures Ingestible(VulnFinding(env, ReadAs(c), v))
      ensures VulnFinding(env, ReadAs(c), v).fingerprint == fp <==> v.id == id
    {
      VulnFindingIngestible(env, ReadAs(c), v);
      FingerprintInjective(env, FiledUnder(c), v.id, FiledUnder(c), id);
    }
    CountsAgree(v => VulnFinding(env, ReadAs(c), v), feed, |feed|, CollectedScan(env, c, feed, now), fp, id);
  }

  lemma {:induction false} OneOfTwoReports(sc: Scan, n: nat, k: Key, j: nat)
    requires j < n <= |sc.reported| && Reports(sc, j, k)
    ensures ReportCount(sc, n, k) >= ReportCount(sc, j, k) + 1
  {
    if j < n - 1 {
      OneOfTwoReports(sc, n - 1, k, j);
    }
  }

  /** A key counted twice is reported twice. */
  lemma {:induction false} TwoReports(sc: Scan, n: nat, k: Key) returns (i: nat, j: nat)
    requires n <= |sc.reported| && ReportCount(sc, n, k) >= 2
    ensures i < j < n && Reports(sc, i, k) && Reports(sc, j, k)
  {
    if Reports(sc, n - 1, k) {
      CountedWhenSeen(sc, n - 1, k);
      i, j := LastReport(sc, n - 1, k).value, n - 1;
    } else {
      i, j := TwoReports(sc, n - 1, k);
    }
  }

  // ----- when one scan is fair, and when it collides -----

  /** The scan does not report k; or k is known and the scan's target reads back as itself; or k is new and
      reported once. */
  predicate FiledOnce(sc: Scan, k: Key, known: bool) {
    var n := ReportCount(sc, |sc.reported|, k);
    n == 0 || if known then ReadsBack(sc.target) else n == 1
  }

  predicate AnnouncesOnce(t: Table, sc: Scan, k: Key) {
    FiledOnce(sc, k, Live(t, k))
  }

  predicate InsertsOnce(t: Table, sc: Scan, k: Key) {
    FiledOnce(sc, k, k in t)
  }

  /** The engine knows a reported key exactly when it is stored and the target is steady. */
  lemma KnownWhenSteady(env: Env, w: World, c: CPE, feed: seq<Vuln>, sc: Scan, k: Key)
    requires CollisionFree(env) && ProductTable(env, w.table)
    requires Collected(env, c, feed, sc) && Seen(sc, k)
    ensures Prev(InputOf(w, sc), k.1) == if SteadyTarget(c) && k in w.table then Some(w.table[k]) else None
  {
    var j := ReportedByFeed(env, c, feed, sc.now, k);
    assert feed[j] in feed;
    FiledUnderFacts(c);
    if k in w.table {
      FiledRecordTarget(env, w.table, c, feed[j].id);
    }
  }

  /** A scan of an accepted target is fair to k if and only if k is not reported, or k is live and the target
      steady, or k is not live and reported once. */
  lemma CollectedScanFair(env: Env, w: World, c: CPE, feed: seq<Vuln>, sc: Scan, k: Key)
    requires CollisionFree(env) && ProductTable(env, w.table) && Collected(env, c, feed, sc)
    ensures Fair(w, ScanTarget(sc), k) <==> AnnouncesOnce(w.table, sc, k)
  {
    CountedWhenSeen(sc, |sc.reported|, k);
    if Seen(sc, k) {
      KnownWhenSteady(env, w, c, feed, sc, k);
    }
  }

  /** The two stores agree about a scan of an accepted target if and only if every key it reports is stored and
      the target steady, or new and reported once. */
  lemma CollectedScanCollisionFree(env: Env, w: World, c: CPE, feed: seq<Vuln>, sc: Scan)
    requires CollisionFree(env) && ProductTable(env, w.table) && Collected(env, c, feed, sc)
    ensures Laws.CollisionFree(InputOf(w, sc)) <==> forall k :: InsertsOnce(w.table, sc, k)
  {
    if forall k :: InsertsOnce(w.table, sc, k) {
      NoCollision(env, w, c, feed, sc);
    }
    if Laws.CollisionFree(InputOf(w, sc)) {
      forall k ensures InsertsOnce(w.table, sc, k) {
        InsertedOnce(env, w, c, feed, sc, k);
      }
    }
  }

  lemma NoCollision(env: Env, w: World, c: CPE, feed: seq<Vuln>, sc: Scan)
    requires CollisionFree(env) && ProductTable(env, w.table) && Collected(env, c, feed, sc)
    requires forall k :: InsertsOnce(w.table, sc, k)
    ensures Laws.CollisionFree(InputOf(w, sc))
  {
    var x := InputOf(w, sc);
    forall j | 0 <= j < |sc.reported| && InsertsAt(x, j)
      ensures var k := (sc.info.id, sc.reported[j].fingerprint);
        k !in x.before && forall i :: 0 <= i < j ==> !Reports(sc, i, k)
    {
      var k := (sc.info.id, sc.reported[j].fingerprint);
      LastReportIsLast(sc, |sc.reported|, k, j);
      KnownWhenSteady(env, w, c, feed, sc, k);
      OneOfTwoReports(sc, |sc.reported|, k, j);
      assert InsertsOnce(w.table, sc, k);
      forall i | 0 <= i < j ensures !Reports(sc, i, k) {
        if Reports(sc, i, k) {
          OneOfTwoReports(sc, j, k, i);
        }
      }
    }
  }

  lemma InsertedOnce(env: Env, w: World, c: CPE, feed: seq<Vuln>, sc: Scan, k: Key)
    requires CollisionFree(env) && ProductTable(env, w.table) && Collected(env, c, feed, sc)
    requires Laws.CollisionFree(InputOf(w, sc))
    ensures InsertsOnce(w.table, sc, k)
  {
    var x := InputOf(w, sc);
    CountedWhenSeen(sc, |sc.reported|, k);
    if Seen(sc, k) {
      KnownWhenSteady(env, w, c, feed, sc, k);
      var j := LastReport(sc, |sc.reported|, k).value;
      if Prev(x, k.1).None? {
        assert InsertsAt(x, j);
        if ReportCount(sc, |sc.reported|, k) >= 2 {
          var a, b := TwoReports(sc, |sc.reported|, k);
          assert InsertsAt(x, b);
        }
      }
    }
  }

  // ----- runs of the product -----

  /** Each scan of the run announces k at most once, and only when due; each edit of k finds it live. */
  ghost predicate AnnouncesOnceThroughout(w: World, run: seq<Action>, k: Key) {
    run != [] ==>
      var p, a := run[..|run| - 1], run[|run| - 1];
      && AnnouncesOnceThroughout(w, p, k)
      && if a.ScanTarget? then AnnouncesOnce(Exec(w, p).table, a.scan, k) else Fair(Exec(w, p), a, k)
  }

  lemma {:induction false} ProductRunFair(env: Env, w: World, run: seq<Action>, k: Key)
    requires CollisionFree(env) && w.table == map[] && ProductRun(env, run)
    ensures FairThroughout(w, run, k) <==> AnnouncesOnceThroughout(w, run, k)
  {
    if run != [] {
      var p, a := run[..|run| - 1], run[|run| - 1];
      ProductRunFair(env, w, p, k);
      ProductExec(env, w, p);
      if a.ScanTarget? {
        var c, feed :| Collected(env, c, feed, a.scan);
        CollectedScanFair(env, Exec(w, p), c, feed, a.scan, k);
      }
    }
  }

  lemma EmptyIsBalanced(w: World, k: Key)
    requires w.table == map[] && w.outcomes == []
    ensures Keyed(w.table) && Balanced(w, k)
  {
    assert History([], k) == [];
  }

  /** In every run of the product, opened and resolved notices about k alternate, opened first, and agree with
      its record at every moment, if and only if each scan that reports k finds it live on a steady target, or
      finds it not live and lists it once, and no edit finds it resolved. */
  lemma ProductRunsBalance(env: Env, w: World, run: seq<Action>, k: Key)
    requires CollisionFree(env) && w.table == map[] && w.outcomes == [] && ProductRun(env, run)
    ensures BalancedThroughout(w, run, k) <==> AnnouncesOnceThroughout(w, run, k)
  {
    ProductRunFair(env, w, run, k);
    EmptyIsBalanced(w, k);
    NotificationBalance(w, run, k);
  }

  ghost predicate InsertsOnceThroughout(w: World, run: seq<Action>) {
    run != [] ==>
      var p, a := run[..|run| - 1], run[|run| - 1];
      && InsertsOnceThroughout(w, p)
      && (a.ScanTarget? ==> forall k :: InsertsOnce(Exec(w, p).table, a.scan, k))
  }

  lemma {:induction false} ProductRunCollisionFree(env: Env, w: World, run: seq<Action>)
    requires CollisionFree(env) && w.table == map[] && ProductRun(env, run)
    ensures Laws.CollisionFreeThroughout(w, run) <==> InsertsOnceThroughout(w, run)
  {
    if run != [] {
      var p, a := run[..|run| - 1], run[|run| - 1];
      ProductRunCollisionFree(env, w, p);
      ProductExec(env, w, p);
      if a.ScanTarget? {
        var c, feed :| Collected(env, c, feed, a.scan);
        CollectedScanCollisionFree(env, Exec(w, p), c, feed, a.scan);
      }
    }
  }

  /** In every run of the product, however users edit, the in-memory and the SQL store hold the same table and
      announce the same throughout, if and only if each scan finds each key it reports stored on a steady
      target, or finds it new and lists it once. */
  lemma ProductRunsAgree(env: Env, w: World, run: seq<Action>)
    requires CollisionFree(env) && w.backend.Memory? && w.table == map[] && ProductRun(env, run)
    requires forall m, n :: w.idOf(m) == w.idOf(n) ==> m == n
    ensures Laws.AgreeThroughout(w, run) <==> InsertsOnceThroughout(w, run)
  {
    ProductRunCollisionFree(env, w, run);
    Laws.StoresAgree(w, run);
  }

  // ----- steady targets, each CVE listed once -----

  ghost predicate DistinctIds(feed: seq<Vuln>) {
    forall i, j :: 0 <= i < j < |feed| ==> feed[i].id != feed[j].id
  }

  ghost predicate SteadyScan(env: Env, c: CPE, feed: seq<Vuln>, sc: Scan) {
    SteadyTarget(c) && DistinctIds(feed) && Collected(env, c, feed, sc)
  }

  /** A scan of a steady target for which the feed lists each CVE once; or any other action. */
  ghost predicate SteadyAction(env: Env, a: Action) {
    a.ScanTarget? ==> exists c, feed :: SteadyScan(env, c, feed, a.scan)
  }

  ghost predicate SteadyRun(env: Env, run: seq<Action>) {
    forall i :: 0 <= i < |run| ==> SteadyAction(env, run[i])
  }

  lemma {:induction false} ListedAtMostOnce(feed: seq<Vuln>, n: nat, id: string)
    requires n <= |feed| && DistinctIds(feed)
    ensures ListedCount(feed, n, id) <= 1
    ensures ListedCount(feed, n, id) == 1 ==> exists i :: 0 <= i < n && feed[i].id == id
  {
    if n > 0 {
      ListedAtMostOnce(feed, n - 1, id);
    }
  }

  lemma SteadyScanFilesOnce(env: Env, c: CPE, feed: seq<Vuln>, sc: Scan, k: Key, known: bool)
    requires CollisionFree(env) && SteadyScan(env, c, feed, sc)
    ensures FiledOnce(sc, k, known)
  {
    CountedWhenSeen(sc, |sc.reported|, k);
    if Seen(sc, k) {
      var j := ReportedByFeed(env, c, feed, sc.now, k);
      assert feed[j] in feed;
      ReportedAsListed(env, c, feed, sc.now, feed[j].id);
      ListedAtMostOnce(feed, |feed|, feed[j].id);
    }
  }

  lemma SteadyActionCollects(env: Env, a: Action)
    requires SteadyAction(env, a)
    ensures CollectorAction(env, a)
  {
    if a.ScanTarget? {
      var c, feed :| SteadyScan(env, c, feed, a.scan);
      assert Collected(env, c, feed, a.scan);
    }
  }

  lemma SteadyRunIsProductRun(env: Env, run: seq<Action>)
    requires SteadyRun(env, run)
    ensures ProductRun(env, run)
  {
    forall i | 0 <= i < |run| ensures CollectorAction(env, run[i]) {
      SteadyActionCollects(env, run[i]);
    }
  }

  lemma {:induction false} SteadyRunAnnouncesOnce(env: Env, w: World, run: seq<Action>, k: Key)
    requires CollisionFree(env) && SteadyRun(env, run) && NeverEditsResolved(w, run)
    ensures AnnouncesOnceThroughout(w, run, k)
  {
    if run != [] {
      var p, a := run[..|run| - 1], run[|run| - 1];
      SteadyRunAnnouncesOnce(env, w, p, k);
      if a.ScanTarget? {
        var c, feed :| SteadyScan(env, c, feed, a.scan);
        SteadyScanFilesOnce(env, c, feed, a.scan, k, Live(Exec(w, p).table, k));
      }
    }
  }

  /** In every run over steady targets whose feeds list each CVE once, and in which users never edit a resolved
      finding, opened and resolved notices about each finding alternate, opened first. */
  lemma SteadyRunsBalance(env: Env, w: World, run: seq<Action>, k: Key)
    requires CollisionFree(env) && w.table == map[] && w.outcomes == []
    requires SteadyRun(env, run) && NeverEditsResolved(w, run)
    ensures BalancedThroughout(w, run, k)
  {
    SteadyRunIsProductRun(env, run);
    SteadyRunAnnouncesOnce(env, w, run, k);
    ProductRunsBalance(env, w, run, k);
  }

  lemma {:induction false} SteadyRunInsertsOnce(env: Env, w: World, run: seq<Action>)
    requires CollisionFree(env) && SteadyRun(env, run)
    ensures InsertsOnceThroughout(w, run)
  {
    if run != [] {
      var p, a := run[..|run| - 1], run[|run| - 1];
      SteadyRunInsertsOnce(env, w, p);
      if a.ScanTarget? {
        var c, feed :| SteadyScan(env, c, feed, a.scan);
        forall k ensures InsertsOnce(Exec(w, p).table, a.scan, k) {
          SteadyScanFilesOnce(env, c, feed, a.scan, k, k in Exec(w, p).table);
        }
      }
    }
  }

  /** In every run over steady targets whose feeds list each CVE once, however users edit, the two stores agree
      throughout. */
  lemma SteadyRunsAgree(env: Env, w: World, run: seq<Action>)
    requires CollisionFree(env) && w.backend.Memory? && w.table == map[] && SteadyRun(env, run)
    requires forall m, n :: w.idOf(m) == w.idOf(n) ==> m == n
    ensures Laws.AgreeThroughout(w, run)
  {
    SteadyRunIsProductRun(env, run);
    SteadyRunInsertsOnce(env, w, run);
    ProductRunsAgree(env, w, run);
  }

  // ----- a target that is not steady -----

  /** The engine never knows a record for a target that is not steady. */
  lemma NothingOnUnsteady(x: Input, k: Key)
    requires Tidy(x.before) && EndsInSpace(x.scan.target)
    ensures !MissedAt(x, k)
    ensures k.0 == x.scan.info.id ==> OpensOnReport(x, k)
  {
  }

  lemma NothingResolvedOnUnsteady(x: Input)
    requires Tidy(x.before) && EndsInSpace(x.scan.target)
    ensures Closed(x) == {}
  {
    forall k ensures !ResolvesAt(x, k) {
      NothingOnUnsteady(x, k);
    }
  }

  /** In every run of the product, each scan of a target that is not steady announces everything it lists as
      newly open, as often as it is listed and whatever was announced before, and announces nothing as
      resolved. */
  lemma UnsteadyTargetNeverSettles(env: Env, w: World, run: seq<Action>, c: CPE, feed: seq<Vuln>, now: int, id: string)
    requires CollisionFree(env) && w.table == map[] && ProductRun(env, run)
    requires AcceptedTarget(c) && !SteadyTarget(c) && CleanIds(feed) && id != "" && '|' !in id
    ensures var u := Exec(w, run);
      var after := Step(u, ScanTarget(CollectedScan(env, c, feed, now)));
      var k := FiledKey(env, c, id);
      && Closed(InputOf(u, CollectedScan(env, c, feed, now))) == {}
      && History(after.outcomes, k) == History(u.outcomes, k) + Repeat(ListedCount(feed, |feed|, id))
  {
    ProductExec(env, w, run);
    UnsteadyScan(env, Exec(w, run), c, feed, CollectedScan(env, c, feed, now), id);
  }

  lemma UnsteadyScan(env: Env, u: World, c: CPE, feed: seq<Vuln>, sc: Scan, id: string)
    requires CollisionFree(env) && ProductTable(env, u.table)
    requires Collected(env, c, feed, sc) && !SteadyTarget(c) && id != "" && '|' !in id
    ensures Closed(InputOf(u, sc)) == {}
    ensures History(Step(u, ScanTarget(sc)).outcomes, FiledKey(env, c, id)) ==
            History(u.outcomes, FiledKey(env, c, id)) + Repeat(ListedCount(feed, |feed|, id))
  {
    FiledUnderFacts(c);
    NothingOnUnsteady(InputOf(u, sc), FiledKey(env, c, id));
    NothingResolvedOnUnsteady(InputOf(u, sc));
    HistoryOfScan(u, sc, FiledKey(env, c, id));
    ReportedAsListed(env, c, feed, sc.now, id);
  }

  /** What a target that is not steady files is resolved by scans of another: the steady target its key reads back
      as. */
  lemma UnsteadyFindingsResolveElsewhere(env: Env, w: World, run: seq<Action>, c: CPE, feed: seq<Vuln>, now: int,
                                         rest: seq<Vuln>, later: int, id: string)
    requires CollisionFree(env) && w.table == map[] && ProductRun(env, run)
    requires AcceptedTarget(c) && !SteadyTarget(c) && CleanIds(feed) && CleanIds(rest)
    requires id != "" && FeedLists(feed, id) && !FeedLists(rest, id)
    ensures SteadyTarget(ReadAs(c))
    ensures var filed := Step(Exec(w, run), ScanTarget(CollectedScan(env, c, feed, now)));
      var k := FiledKey(env, c, id);
      && Live(filed.table, k)
      && (ResolvesAt(InputOf(filed, CollectedScan(env, ReadAs(c), rest, later)), k) <==>
          !filed.table[k].finding.status.Suppressed?)
  {
    ProductExec(env, w, run);
    var u, sc, k := Exec(w, run), CollectedScan(env, c, feed, now), FiledKey(env, c, id);
    MirrorStep(env, u, c, feed, now, id);
    FiledUnderFacts(c);
    var filed := Step(u, ScanTarget(sc));
    CollectedIsProduct(env, u, c, feed, sc);
    FiledRecordTarget(env, filed.table, c, id);
    SeenWhenListed(env, ReadAs(c), rest, later, id);
  }

  lemma CollectedIsProduct(env: Env, w: World, c: CPE, feed: seq<Vuln>, sc: Scan)
    requires ProductTable(env, w.table) && Collected(env, c, feed, sc)
    ensures ProductTable(env, Step(w, ScanTarget(sc)).table)
  {
    assert CollectorAction(env, ScanTarget(sc));
    StepKeepsKeys(w, ScanTarget(sc));
    OwnedStep(env, w, ScanTarget(sc));
    TidyStep(env, w, ScanTarget(sc));
  }

  lemma RescanFilesTwice(env: Env, w: World, c: CPE, v: Vuln, first: Scan, second: Scan)
    requires CollisionFree(env) && ProductTable(env, w.table)
    requires Collected(env, c, [v], first) && Collected(env, c, [v], second)
    requires !SteadyTarget(c) && v.id != ""
    ensures var t, k := Step(w, ScanTarget(first)).table, FiledKey(env, c, v.id);
      !AnnouncesOnce(t, second, k) && !InsertsOnce(t, second, k)
  {
    assert v in [v];
    MirrorStep(env, w, c, [v], first.now, v.id);
    SeenWhenListed(env, c, [v], second.now, v.id);
    CountedWhenSeen(second, |second.reported|, FiledKey(env, c, v.id));
  }

  lemma TwoActions(w: World, a: Action, b: Action)
    ensures [a, b][..1] == [a] && Exec(w, [a]) == Step(w, a)
  {
    assert [a][..0] == [];
  }

  /** Two scans in a row of a target that is not steady, listing the same CVE, announce it twice and leave the
      two stores with different tables. */
  lemma UnsteadyRescanDiverges(env: Env, w: World, c: CPE, v: Vuln, first: Scan, second: Scan)
    requires CollisionFree(env) && w.backend.Memory? && w.table == map[] && w.outcomes == []
    requires forall m, n :: w.idOf(m) == w.idOf(n) ==> m == n
    requires Collected(env, c, [v], first) && Collected(env, c, [v], second)
    requires !SteadyTarget(c) && v.id != ""
    ensures !BalancedThroughout(w, [ScanTarget(first), ScanTarget(second)], FiledKey(env, c, v.id))
    ensures !Laws.AgreeThroughout(w, [ScanTarget(first), ScanTarget(second)])
  {
    var run, k := [ScanTarget(first), ScanTarget(second)], FiledKey(env, c, v.id);
    assert ProductRun(env, run);
    TwoActions(w, run[0], run[1]);
    RescanFilesTwice(env, w, c, v, first, second);
    ProductRunsBalance(env, w, run, k);
    ProductRunsAgree(env, w, run);
    var t := Exec(w, [run[0]]).table;
    assert !AnnouncesOnce(t, second, k) && !InsertsOnce(t, second, k);
  }

  /** There is such a target. */
  lemma SpacedTargetIsUnsteady()
    ensures AcceptedTarget(SPACED_NAME) && !SteadyTarget(SPACED_NAME)
  {
    SpacedNameIsNotFixed(Canonical(SPACED_NAME) + ":y");
  }
}
