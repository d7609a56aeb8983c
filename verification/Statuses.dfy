/** What a scan does to one record's status, and how long a user's own choice of status stands. */
module Statuses {
  import opened Prelude
  import opened Core
  import opened Store
  import opened Reconcile
  import opened Lifecycle
  import Laws = ReconcileLaws

  // ----- one scan -----

  /** What no scan of a record's own target ever changes. */
  predicate SameOrigin(now: Finding, was: Finding) {
    && now.fingerprint == was.fingerprint
    && now.moduleId == was.moduleId
    && now.target == was.target
    && now.check == was.check
    && now.groupId == was.groupId
    && now.id == was.id
    && now.firstSeen == was.firstSeen
  }

  /** A finding reported again keeps whatever status it had, except that a resolved one is open again, its
      resolution time cleared. */
  lemma ReportedKeepsStatus(x: Input, k: Key)
    requires Keyed(x.before) && OnTarget(x.before, k, x.scan.info.id, x.scan.target) && Seen(x.scan, k)
    ensures k in AfterScan(x)
    ensures var was, now := x.before[k].finding, AfterScan(x)[k].finding;
      && SameOrigin(now, was)
      && (was.status.Resolved? ==> now.status.Open? && now.resolvedAt.None?)
      && (!was.status.Resolved? ==> now.status == was.status && now.resolvedAt == was.resolvedAt)
    ensures AfterScan(x)[k].absentStreak == 0
  {
    SeenIsReported(x.scan, k);
    var j := LastReport(x.scan, |x.scan.reported|, k).value;
    assert k == (x.scan.info.id, x.scan.reported[j].fingerprint);
  }

  /** A finding that is not reported stays as it is if resolved or suppressed; otherwise it is one scan more absent,
      and is resolved now if that reaches the threshold. */
  lemma MissedMayResolve(x: Input, k: Key)
    requires Keyed(x.before) && OnTarget(x.before, k, x.scan.info.id, x.scan.target) && !Seen(x.scan, k)
    ensures k in AfterScan(x)
    ensures var was, now := x.before[k], AfterScan(x)[k];
      var status := was.finding.status;
      && (status.Resolved? || status.Suppressed? ==> now == was)
      && (status.Open? || status.Acknowledged? ==>
            && now.absentStreak == was.absentStreak + 1
            && now.finding.(status := status, resolvedAt := was.finding.resolvedAt) == was.finding
            && (now.absentStreak < x.scan.info.ResolveAfterOrDefault() ==> now.finding == was.finding)
            && (now.absentStreak >= x.scan.info.ResolveAfterOrDefault() ==>
                  now.finding.status.Resolved? && now.finding.resolvedAt == Some(x.scan.now)))
  {
    SeenIsReported(x.scan, k);
  }

  predicate Introduces(now: Finding, f: Finding, moduleId: string) {
    && now.moduleId == moduleId
    && now.fingerprint == f.fingerprint
    && now.target == f.target
    && now.check == f.check
    && now.groupId == f.groupId
    && now.resolvedAt == f.resolvedAt
  }

  /** r is the open record of the j-th reported finding, first and last seen now, with the next id. */
  predicate Opens(r: Record, x: Input, j: nat)
    requires j < |x.scan.reported|
  {
    && r.absentStreak == 0
    && r.finding.status.Open?
    && r.finding.firstSeen == r.finding.lastSeen == x.scan.now
    && r.finding.id == x.idOf(x.issued + Inserts(x, j))
    && Laws.Describes(r, x.scan.reported[j])
    && Introduces(r.finding, x.scan.reported[j], x.scan.info.id)
  }

  lemma InsertedOpens(x: Input, j: nat)
    requires j < |x.scan.reported| && Prev(x, x.scan.reported[j].fingerprint).None?
    ensures Opens(Written(x, j), x, j)
  {
    Laws.WrittenDescribes(x, j);
  }

  /** A key the table does not hold gets the open record of the finding reported for it. */
  lemma NewFindingIsOpened(x: Input, k: Key)
    requires Keyed(x.before) && k !in x.before && Seen(x.scan, k) && Laws.DistinctReports(x.scan)
    ensures k in AfterScan(x)
    ensures exists j :: 0 <= j < |x.scan.reported| && Reports(x.scan, j, k) && Opens(AfterScan(x)[k], x, j)
  {
    SeenIsReported(x.scan, k);
    var j := LastReport(x.scan, |x.scan.reported|, k).value;
    Laws.FirstReportIsLast(x.scan, k);
    assert k == (x.scan.info.id, x.scan.reported[j].fingerprint);
    InsertedOpens(x, j);
    assert AfterScan(x)[k] == Written(x, j);
  }

  // ----- runs -----

  /** a does not edit k, and reports it, if at all, for the target it belongs to. */
  predicate LeavesEdit(a: Action, k: Key, target: string) {
    && (a.SetStatus? && a.key == k ==> a.next.Resolved?)
    && (a.ScanTarget? && Seen(a.scan, k) ==> a.scan.target == target)
  }

  ghost predicate LiveThroughout(w: World, run: seq<Action>, k: Key) {
    Live(Exec(w, run).table, k) && (run != [] ==> LiveThroughout(w, run[..|run| - 1], k))
  }

  /** k is there with the given status, for the given target. */
  predicate Stands(t: Table, k: Key, status: Status, target: string) {
    k in t && t[k].finding.status == status && t[k].finding.target == target
  }

  lemma ScanKeepsEdit(w: World, sc: Scan, k: Key, status: Status, target: string)
    requires Keyed(w.table) && Stands(w.table, k, status, target) && !status.Resolved?
    requires LeavesEdit(ScanTarget(sc), k, target)
    requires status.Suppressed? || Live(Step(w, ScanTarget(sc)).table, k)
    ensures Stands(Step(w, ScanTarget(sc)).table, k, status, target)
  {
    var x := InputOf(w, sc);
    if Seen(sc, k) {
      var j := LastReport(sc, |sc.reported|, k).value;
      assert k == (sc.info.id, sc.reported[j].fingerprint);
      ReportedKeepsStatus(x, k);
    } else if OnTarget(w.table, k, sc.info.id, sc.target) {
      MissedMayResolve(x, k);
    } else {
      Laws.OthersUntouched(x, k);
    }
  }

  lemma StepKeepsEdit(w: World, a: Action, k: Key, status: Status, target: string)
    requires Keyed(w.table) && Stands(w.table, k, status, target) && !status.Resolved?
    requires LeavesEdit(a, k, target)
    requires status.Suppressed? || Live(Step(w, a).table, k)
    ensures Stands(Step(w, a).table, k, status, target)
  {
    match a
    case ScanTarget(sc) => ScanKeepsEdit(w, sc, k, status, target);
    case SetStatus(edited, next) =>
    case Prune(_) =>
  }

  lemma {:induction false} EditStandsFrom(w: World, run: seq<Action>, k: Key, status: Status, target: string)
    requires Keyed(w.table) && Stands(w.table, k, status, target) && !status.Resolved?
    requires forall a <- run :: LeavesEdit(a, k, target)
    requires status.Suppressed? || LiveThroughout(w, run, k)
    ensures Stands(Exec(w, run).table, k, status, target)
  {
    if run != [] {
      var p := run[..|run| - 1];
      assert forall a <- p :: a in run;
      EditStandsFrom(w, p, k, status, target);
      ExecKeepsKeys(w, p);
      assert run[|run| - 1] in run;
      StepKeepsEdit(Exec(w, p), run[|run| - 1], k, status, target);
    }
  }

  /** The status a user gives a finding stands, whatever scans, pruning and edits of other findings follow, until
      the next edit of it or, unless it is suppression, until the finding is resolved. */
  lemma EditStands(w: World, k: Key, next: Status, run: seq<Action>)
    requires Keyed(w.table) && k in w.table && !next.Resolved?
    requires forall a <- run :: LeavesEdit(a, k, w.table[k].finding.target)
    requires next.Suppressed? || LiveThroughout(Step(w, SetStatus(k, next)), run, k)
    ensures var end := Exec(Step(w, SetStatus(k, next)), run).table;
      k in end && end[k].finding.status == next
  {
    StepKeepsKeys(w, SetStatus(k, next));
    EditStandsFrom(Step(w, SetStatus(k, next)), run, k, next, w.table[k].finding.target);
  }
}
