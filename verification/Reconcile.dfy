/** The reconcile engine: two loops over one scan's findings and the stored records, and the
    pointwise step function that says what those loops do to each record. */
module Reconcile {
  import opened Prelude
  import opened Core
  import opened Store

  /** One scan of one target, at one reading of the clock. */
  datatype Scan = Scan(info: ModuleInfo, target: string, reported: seq<Finding>, now: int)

  /** Everything a reconcile reads: the table before, the scan, and the id source. */
  datatype Input = Input(backend: Backend, before: Table, scan: Scan, idOf: nat -> string, issued: nat)

  // ----- the step taken for one record -----

  function Inserted(f: Finding, moduleId: string, id: string, now: int): Record {
    Record(f.(id := id, moduleId := moduleId, status := Open, firstSeen := now, lastSeen := now), 0)
  }

  function Refreshed(prev: Record, f: Finding, now: int): Record {
    var merged := prev.finding.(
      title := f.title, severity := f.severity, remediation := f.remediation,
      evidence := f.evidence, lastSeen := now);
    Record(if prev.finding.status.Resolved? then merged.(status := Open, resolvedAt := None) else merged, 0)
  }

  /** Resolved and suppressed records are left alone when a scan does not report them. */
  predicate Dormant(r: Record) {
    r.finding.status.Resolved? || r.finding.status.Suppressed?
  }

  function AfterAbsence(r: Record, threshold: int, now: int): Record {
    if Dormant(r) then r
    else if r.absentStreak + 1 >= threshold then
      Record(r.finding.(status := Resolved, resolvedAt := Some(now)), r.absentStreak + 1)
    else r.(absentStreak := r.absentStreak + 1)
  }

  // ----- which finding speaks for a key -----

  /** The j-th reported finding passes validation and has key k. */
  predicate Reports(sc: Scan, j: nat, k: Key)
    requires j < |sc.reported|
  {
    Ingestible(sc.reported[j]) && k == (sc.info.id, sc.reported[j].fingerprint)
  }

  function LastReport(sc: Scan, n: nat, k: Key): (r: Option<nat>)
    requires n <= |sc.reported|
    ensures r.Some? ==> r.value < n && Reports(sc, r.value, k)
  {
    if n == 0 then None else if Reports(sc, n - 1, k) then Some(n - 1) else LastReport(sc, n - 1, k)
  }

  function FirstReport(sc: Scan, n: nat, k: Key): (r: Option<nat>)
    requires n <= |sc.reported|
    ensures r.Some? ==> r.value < n && Reports(sc, r.value, k)
  {
    if n == 0 then None
    else if FirstReport(sc, n - 1, k).Some? then FirstReport(sc, n - 1, k)
    else if Reports(sc, n - 1, k) then Some(n - 1) else None
  }

  lemma {:induction false} LastReportIsLast(sc: Scan, n: nat, k: Key, j: nat)
    requires j < n <= |sc.reported| && Reports(sc, j, k)
    ensures LastReport(sc, n, k).Some? && j <= LastReport(sc, n, k).value
  {
    if j < n - 1 {
      LastReportIsLast(sc, n - 1, k, j);
    }
  }

  lemma {:induction false} FirstReportIsFirst(sc: Scan, n: nat, k: Key, j: nat)
    requires j < n <= |sc.reported| && Reports(sc, j, k)
    ensures FirstReport(sc, n, k).Some? && FirstReport(sc, n, k).value <= j
  {
    if j < n - 1 {
      FirstReportIsFirst(sc, n - 1, k, j);
    }
  }

  lemma ReportedUpTo(sc: Scan, n: nat)
    requires n < |sc.reported|
    ensures forall fp :: LastReport(sc, n + 1, (sc.info.id, fp)).Some? <==>
      LastReport(sc, n, (sc.info.id, fp)).Some? ||
      (Ingestible(sc.reported[n]) && fp == sc.reported[n].fingerprint)
  {
  }

  predicate Seen(sc: Scan, k: Key) {
    LastReport(sc, |sc.reported|, k).Some?
  }

  /** The record the engine knew for fingerprint fp when the scan began: one of this very target. */
  function Prev(x: Input, fp: string): Option<Record> {
    var k := (x.scan.info.id, fp);
    if OnTarget(x.before, k, x.scan.info.id, x.scan.target) then Some(x.before[k]) else None
  }

  predicate InsertsAt(x: Input, j: nat)
    requires j < |x.scan.reported|
  {
    Ingestible(x.scan.reported[j]) && Prev(x, x.scan.reported[j].fingerprint).None?
  }

  /** How many of the first n reported findings take a new id. */
  function Inserts(x: Input, n: nat): nat
    requires n <= |x.scan.reported|
  {
    if n == 0 then 0 else Inserts(x, n - 1) + if InsertsAt(x, n - 1) then 1 else 0
  }

  /** The record the engine writes for the j-th reported finding. */
  function Written(x: Input, j: nat): Record
    requires j < |x.scan.reported|
  {
    var f := Capped(x.scan.reported[j]);
    match Prev(x, f.fingerprint)
    case None => Inserted(f, x.scan.info.id, x.idOf(x.issued + Inserts(x, j)), x.scan.now)
    case Some(prev) => Refreshed(prev, f, x.scan.now)
  }

  // ----- the whole table, key by key -----

  /** What the table holds at k once the first n reported findings have been written. */
  function StoredAt(x: Input, n: nat, k: Key): Record
    requires n <= |x.scan.reported| && LastReport(x.scan, n, k).Some?
  {
    var r := Written(x, LastReport(x.scan, n, k).value);
    if x.backend.Memory? then r
    else if k in x.before then KeepingImmutable(r, x.before[k])
    else
      FirstReportIsFirst(x.scan, n, k, LastReport(x.scan, n, k).value);
      KeepingImmutable(r, Written(x, FirstReport(x.scan, n, k).value))
  }

  function ReportedKeys(sc: Scan): set<Key> {
    set j | 0 <= j < |sc.reported| && Ingestible(sc.reported[j]) :: (sc.info.id, sc.reported[j].fingerprint)
  }

  predicate MissedAt(x: Input, k: Key) {
    OnTarget(x.before, k, x.scan.info.id, x.scan.target) && !Seen(x.scan, k)
  }

  function StepAt(x: Input, k: Key): Record
    requires k in x.before || Seen(x.scan, k)
  {
    if Seen(x.scan, k) then StoredAt(x, |x.scan.reported|, k)
    else if MissedAt(x, k) then AfterAbsence(x.before[k], x.scan.info.ResolveAfterOrDefault(), x.scan.now)
    else x.before[k]
  }

  /** The table after a scan. Each record depends only on its own previous value, the last valid
      reported finding with its fingerprint, and the clock. */
  function AfterScan(x: Input): Table {
    map k | k in x.before.Keys + ReportedKeys(x.scan) :: AfterScanAt(x, k)
  }

  function AfterScanAt(x: Input, k: Key): Record
    requires k in x.before.Keys + ReportedKeys(x.scan)
  {
    SeenIsReported(x.scan, k);
    StepAt(x, k)
  }

  lemma SeenIsReported(sc: Scan, k: Key)
    ensures Seen(sc, k) <==> k in ReportedKeys(sc)
  {
    if k in ReportedKeys(sc) {
      var j :| 0 <= j < |sc.reported| && Ingestible(sc.reported[j]) && k == (sc.info.id, sc.reported[j].fingerprint);
      LastReportIsLast(sc, |sc.reported|, k, j);
    }
  }

  // ----- what is reported to the caller -----

  predicate OpensAt(x: Input, j: nat)
    requires j < |x.scan.reported|
  {
    && Ingestible(x.scan.reported[j])
    && var prev := Prev(x, x.scan.reported[j].fingerprint); (prev.None? || prev.value.finding.status.Resolved?)
  }

  /** The findings announced as newly open, in the collector's order. */
  function Opened(x: Input, n: nat): seq<Finding>
    requires n <= |x.scan.reported|
  {
    if n == 0 then []
    else Opened(x, n - 1) + if OpensAt(x, n - 1) then [Written(x, n - 1).finding] else []
  }

  predicate ResolvesAt(x: Input, k: Key) {
    && MissedAt(x, k)
    && !Dormant(x.before[k])
    && x.before[k].absentStreak + 1 >= x.scan.info.ResolveAfterOrDefault()
  }

  function Closed(x: Input): set<Finding> {
    set k | k in x.before && ResolvesAt(x, k) ::
      AfterAbsence(x.before[k], x.scan.info.ResolveAfterOrDefault(), x.scan.now).finding
  }

  datatype Rejection = Rejection(finding: Finding, field: Field)

  /** The malformed ones among the first n findings, each with the field that failed. */
  function Rejections(reported: seq<Finding>, n: nat): seq<Rejection>
    requires n <= |reported|
  {
    if n == 0 then []
    else
      var f := reported[n - 1];
      Rejections(reported, n - 1) +
      match ValidateForIngest(f) case None => [] case Some(field) => [Rejection(f, field)]
  }

  // ----- the loops as folds -----

  /** The table after the first loop has handled n reported findings. */
  function Ingest(x: Input, n: nat): Table
    requires n <= |x.scan.reported|
  {
    if n == 0 then x.before
    else
      var t := Ingest(x, n - 1);
      if Ingestible(x.scan.reported[n - 1]) then Upserted(x.backend, t, Written(x, n - 1)) else t
  }

  /** The table after the second loop has handled n of the listed records. */
  function Absences(x: Input, listing: seq<Record>, n: nat): Table
    requires n <= |listing|
  {
    if n == 0 then Ingest(x, |x.scan.reported|)
    else
      var t := Absences(x, listing, n - 1);
      var r := listing[n - 1];
      if Seen(x.scan, KeyOf(r)) || Dormant(r) then t
      else Upserted(x.backend, t, AfterAbsence(r, x.scan.info.ResolveAfterOrDefault(), x.scan.now))
  }

  lemma WrittenKey(x: Input, j: nat)
    requires Keyed(x.before) && j < |x.scan.reported|
    ensures KeyOf(Written(x, j)) == (x.scan.info.id, x.scan.reported[j].fingerprint)
  {
  }

  lemma IngestOther(x: Input, n: nat, k: Key)
    requires Keyed(x.before) && n < |x.scan.reported| && !Reports(x.scan, n, k)
    ensures k in Ingest(x, n + 1) <==> k in Ingest(x, n)
    ensures k in Ingest(x, n + 1) ==> Ingest(x, n + 1)[k] == Ingest(x, n)[k]
  {
    WrittenKey(x, n);
  }

  /** What the table holds at k after n reported findings. */
  ghost predicate IngestedAt(x: Input, n: nat, k: Key)
    requires n <= |x.scan.reported|
  {
    && (k in Ingest(x, n) <==> k in x.before || LastReport(x.scan, n, k).Some?)
    && (LastReport(x.scan, n, k).Some? <==> FirstReport(x.scan, n, k).Some?)
    && (k in Ingest(x, n) ==>
          Ingest(x, n)[k] == if LastReport(x.scan, n, k).Some? then StoredAt(x, n, k) else x.before[k])
  }

  lemma IngestReported(x: Input, n: nat, k: Key)
    requires Keyed(x.before) && n < |x.scan.reported| && Reports(x.scan, n, k) && IngestedAt(x, n, k)
    ensures IngestedAt(x, n + 1, k)
  {
    WrittenKey(x, n);
  }

  lemma IngestNotReported(x: Input, n: nat, k: Key)
    requires Keyed(x.before) && n < |x.scan.reported| && !Reports(x.scan, n, k) && IngestedAt(x, n, k)
    ensures IngestedAt(x, n + 1, k)
  {
    IngestOther(x, n, k);
  }

  lemma {:induction false} IngestPointwise(x: Input, n: nat, k: Key)
    requires Keyed(x.before) && n <= |x.scan.reported|
    ensures IngestedAt(x, n, k)
  {
    if n > 0 {
      IngestPointwise(x, n - 1, k);
      if Reports(x.scan, n - 1, k) {
        IngestReported(x, n - 1, k);
      } else {
        IngestNotReported(x, n - 1, k);
      }
    }
  }

  /** One of the first n listed records has key k. */
  predicate Listed(listing: seq<Record>, n: nat, k: Key)
    requires n <= |listing|
    ensures Listed(listing, n, k) <==> exists i :: 0 <= i < n && KeyOf(listing[i]) == k
  {
    n > 0 && (KeyOf(listing[n - 1]) == k || Listed(listing, n - 1, k))
  }

  lemma ListedNext(listing: seq<Record>, n: nat, k: Key)
    requires n < |listing|
    ensures Listed(listing, n + 1, k) <==> KeyOf(listing[n]) == k || Listed(listing, n, k)
  {
  }

  lemma ListedWhenOnTarget(x: Input, listing: seq<Record>, k: Key)
    requires Keyed(x.before)
    requires Lists(listing, x.before, x.scan.info.id, x.scan.target)
    ensures Listed(listing, |listing|, k) <==> OnTarget(x.before, k, x.scan.info.id, x.scan.target)
  {
    if OnTarget(x.before, k, x.scan.info.id, x.scan.target) {
      var i :| 0 <= i < |listing| && listing[i] == x.before[k];
    }
  }

  /** The n-th listed record is the one stored under its key, and was not listed before. */
  lemma ListingEntry(x: Input, listing: seq<Record>, n: nat)
    requires Lists(listing, x.before, x.scan.info.id, x.scan.target) && n < |listing|
    ensures OnTarget(x.before, KeyOf(listing[n]), x.scan.info.id, x.scan.target)
    ensures x.before[KeyOf(listing[n])] == listing[n]
    ensures !Listed(listing, n, KeyOf(listing[n]))
  {
  }

  lemma {:induction false} AbsencesPointwise(x: Input, listing: seq<Record>, n: nat, k: Key)
    requires Keyed(x.before) && n <= |listing|
    requires Lists(listing, x.before, x.scan.info.id, x.scan.target)
    ensures k in Absences(x, listing, n) <==> k in Ingest(x, |x.scan.reported|)
    ensures k in Absences(x, listing, n) ==>
      Absences(x, listing, n)[k] ==
      if MissedAt(x, k) && Listed(listing, n, k)
      then AfterAbsence(x.before[k], x.scan.info.ResolveAfterOrDefault(), x.scan.now)
      else Ingest(x, |x.scan.reported|)[k]
  {
    if n > 0 {
      AbsencesPointwise(x, listing, n - 1, k);
      ListingEntry(x, listing, n - 1);
      var r := listing[n - 1];
      if KeyOf(r) == k {
        IngestPointwise(x, |x.scan.reported|, k);
        assert KeyOf(AfterAbsence(r, x.scan.info.ResolveAfterOrDefault(), x.scan.now)) == k;
      }
    }
  }

  lemma AfterScanPointwise(x: Input, listing: seq<Record>, k: Key)
    requires Keyed(x.before)
    requires Lists(listing, x.before, x.scan.info.id, x.scan.target)
    ensures k in Absences(x, listing, |listing|) <==> k in AfterScan(x)
    ensures k in AfterScan(x) ==> Absences(x, listing, |listing|)[k] == AfterScan(x)[k]
  {
    AbsencesPointwise(x, listing, |listing|, k);
    IngestPointwise(x, |x.scan.reported|, k);
    ListedWhenOnTarget(x, listing, k);
    SeenIsReported(x.scan, k);
  }

  lemma AfterScanKeyed(x: Input)
    requires Keyed(x.before)
    ensures Keyed(AfterScan(x))
  {
    forall k <- AfterScan(x) ensures KeyOf(AfterScan(x)[k]) == k {
      SeenIsReported(x.scan, k);
      if Seen(x.scan, k) {
        WrittenKey(x, LastReport(x.scan, |x.scan.reported|, k).value);
      }
    }
  }

  lemma LoopsComputeAfterScan(x: Input, listing: seq<Record>)
    requires Keyed(x.before)
    requires Lists(listing, x.before, x.scan.info.id, x.scan.target)
    ensures Absences(x, listing, |listing|) == AfterScan(x)
  {
    forall k
      ensures k in Absences(x, listing, |listing|) <==> k in AfterScan(x)
      ensures k in AfterScan(x) ==> Absences(x, listing, |listing|)[k] == AfterScan(x)[k]
    {
      AfterScanPointwise(x, listing, k);
    }
  }

  // ----- the resolved list -----

  /** The findings the second loop has announced after n listed records. */
  function ClosedUpTo(x: Input, listing: seq<Record>, n: nat): seq<Finding>
    requires n <= |listing|
  {
    if n == 0 then []
    else
      var r := listing[n - 1];
      ClosedUpTo(x, listing, n - 1) +
      if !Seen(x.scan, KeyOf(r)) && !Dormant(r) && r.absentStreak + 1 >= x.scan.info.ResolveAfterOrDefault()
      then [AfterAbsence(r, x.scan.info.ResolveAfterOrDefault(), x.scan.now).finding] else []
  }

  lemma InClosed(x: Input, f: Finding)
    requires Keyed(x.before)
    ensures var k := (f.moduleId, f.fingerprint);
      f in Closed(x) <==>
        && ResolvesAt(x, k)
        && f == AfterAbsence(x.before[k], x.scan.info.ResolveAfterOrDefault(), x.scan.now).finding
  {
  }

  predicate AnnouncesResolved(x: Input, r: Record) {
    !Seen(x.scan, KeyOf(r)) && !Dormant(r) && r.absentStreak + 1 >= x.scan.info.ResolveAfterOrDefault()
  }

  lemma CountSnoc<T>(s: seq<T>, last: T, e: T)
    ensures multiset(s + [last])[e] == multiset(s)[e] + if last == e then 1 else 0
  {
  }

  lemma ClosedNext(x: Input, listing: seq<Record>, n: nat, f: Finding)
    requires n < |listing|
    ensures var r := listing[n];
      multiset(ClosedUpTo(x, listing, n + 1))[f] == multiset(ClosedUpTo(x, listing, n))[f] +
      if AnnouncesResolved(x, r) &&
         f == AfterAbsence(r, x.scan.info.ResolveAfterOrDefault(), x.scan.now).finding then 1 else 0
  {
    var r, before := listing[n], ClosedUpTo(x, listing, n);
    if AnnouncesResolved(x, r) {
      CountSnoc(before, AfterAbsence(r, x.scan.info.ResolveAfterOrDefault(), x.scan.now).finding, f);
    } else {
      assert ClosedUpTo(x, listing, n + 1) == before;
    }
  }

  lemma AnnouncedIsClosed(x: Input, r: Record, f: Finding)
    requires Keyed(x.before) && OnTarget(x.before, KeyOf(r), x.scan.info.id, x.scan.target) && x.before[KeyOf(r)] == r
    ensures AnnouncesResolved(x, r) && f == AfterAbsence(r, x.scan.info.ResolveAfterOrDefault(), x.scan.now).finding
      <==> f in Closed(x) && KeyOf(r) == (f.moduleId, f.fingerprint)
  {
    InClosed(x, f);
  }

  lemma {:induction false} ClosedUpToMembers(x: Input, listing: seq<Record>, n: nat, f: Finding)
    requires Keyed(x.before) && n <= |listing|
    requires Lists(listing, x.before, x.scan.info.id, x.scan.target)
    ensures var k := (f.moduleId, f.fingerprint);
      multiset(ClosedUpTo(x, listing, n))[f] == if f in Closed(x) && Listed(listing, n, k) then 1 else 0
  {
    if n > 0 {
      ClosedUpToMembers(x, listing, n - 1, f);
      ClosedNext(x, listing, n - 1, f);
      ListingEntry(x, listing, n - 1);
      AnnouncedIsClosed(x, listing[n - 1], f);
      ListedNext(listing, n - 1, (f.moduleId, f.fingerprint));
    }
  }

  lemma ClosedIsAnnounced(x: Input, listing: seq<Record>)
    requires Keyed(x.before)
    requires Lists(listing, x.before, x.scan.info.id, x.scan.target)
    ensures multiset(ClosedUpTo(x, listing, |listing|)) == multiset(Closed(x))
  {
    forall f ensures multiset(ClosedUpTo(x, listing, |listing|))[f] == multiset(Closed(x))[f] {
      ClosedUpToMembers(x, listing, |listing|, f);
      InClosed(x, f);
      ListedWhenOnTarget(x, listing, (f.moduleId, f.fingerprint));
    }
  }

  // ----- the engine -----

  datatype ReconcileResult = ReconcileResult(
    newlyOpen: seq<Finding>, resolved: seq<Finding>, rejected: seq<Rejection>)

  class Engine {
    const store: FindingStore
    const idOf: nat -> string
    var issued: nat

    constructor (store: FindingStore, idOf: nat -> string)
      ensures this.store == store && this.idOf == idOf && issued == 0
    {
      this.store, this.idOf, issued := store, idOf, 0;
    }

    /** Takes the next id from the id source. */
    method NewId() returns (id: string)
      modifies this
      ensures id == idOf(old(issued)) && issued == old(issued) + 1
    {
      id := idOf(issued);
      issued := issued + 1;
    }

    /** The engine's index of the records it has listed. */
    static method IndexByFingerprint(ghost x: Input, existing: seq<Record>) returns (byFP: map<string, Record>)
      requires Keyed(x.before)
      requires Lists(existing, x.before, x.scan.info.id, x.scan.target)
      ensures forall fp :: fp in byFP <==> Prev(x, fp).Some?
      ensures forall fp :: fp in byFP ==> byFP[fp] == Prev(x, fp).value
    {
      byFP := map[];
      for i := 0 to |existing|
        invariant forall fp :: fp in byFP ==> byFP[fp] in existing && byFP[fp].finding.fingerprint == fp
        invariant forall j :: 0 <= j < i ==> existing[j].finding.fingerprint in byFP
      {
        byFP := byFP[existing[i].finding.fingerprint := existing[i]];
      }
      IndexIsPrev(x, existing, byFP);
    }

    method Reconcile(info: ModuleInfo, target: string, reported: seq<Finding>, now: int)
      returns (res: ReconcileResult)
      requires store.Valid()
      modifies this, store
      ensures store.Valid()
      ensures var x := Input(store.backend, old(store.table), Scan(info, target, reported, now), idOf, old(issued));
        && store.table == AfterScan(x)
        && issued == old(issued) + Inserts(x, |reported|)
        && res.newlyOpen == Opened(x, |reported|)
        && multiset(res.resolved) == multiset(Closed(x))
        && res.rejected == Rejections(reported, |reported|)
    {
      ghost var x := Input(store.backend, store.table, Scan(info, target, reported, now), idOf, issued);
      var existing := store.ListByTarget(info.id, target);
      var byFP := IndexByFingerprint(x, existing);
      var newlyOpen, rejected, seen := IngestAll(x, info, byFP, reported, now);
      var resolved := ResolveAbsent(x, info, existing, seen, now);
      LoopsComputeAfterScan(x, existing);
      AfterScanKeyed(x);
      ClosedIsAnnounced(x, existing);
      res := ReconcileResult(newlyOpen, resolved, rejected);
    }

    /** The first loop: every reported finding is rejected, inserted or merged. */
    method IngestAll(ghost x: Input, info: ModuleInfo, byFP: map<string, Record>, reported: seq<Finding>, now: int)
      returns (newlyOpen: seq<Finding>, rejected: seq<Rejection>, seen: set<string>)
      requires store.Valid()
      requires x == Input(store.backend, store.table, Scan(info, x.scan.target, reported, now), idOf, issued)
      requires forall fp :: fp in byFP <==> Prev(x, fp).Some?
      requires forall fp :: fp in byFP ==> byFP[fp] == Prev(x, fp).value
      modifies this, store
      ensures store.Valid()
      ensures store.table == Ingest(x, |reported|)
      ensures issued == old(issued) + Inserts(x, |reported|)
      ensures newlyOpen == Opened(x, |reported|)
      ensures rejected == Rejections(reported, |reported|)
      ensures forall fp :: fp in seen <==> Seen(x.scan, (info.id, fp))
    {
      newlyOpen, rejected, seen := [], [], {};
      for i := 0 to |reported|
        invariant store.Valid()
        invariant store.table == Ingest(x, i)
        invariant issued == x.issued + Inserts(x, i)
        invariant newlyOpen == Opened(x, i)
        invariant rejected == Rejections(reported, i)
        invariant forall fp :: fp in seen <==> LastReport(x.scan, i, (info.id, fp)).Some?
      {
        ReportedUpTo(x.scan, i);
        var announced, refused := IngestOne(x, i, byFP, reported[i], info, now);
        newlyOpen := newlyOpen + announced;
        rejected := rejected + refused;
        if refused == [] {
          seen := seen + {reported[i].fingerprint};
        }
      }
    }

    /** One finding: refused, or a new record, or the known one refreshed and, if resolved, reopened. */
    method IngestOne(ghost x: Input, ghost i: nat, byFP: map<string, Record>, reported: Finding,
                     info: ModuleInfo, now: int)
      returns (announced: seq<Finding>, refused: seq<Rejection>)
      requires store.Valid()
      requires i < |x.scan.reported| && x.scan.reported[i] == reported
      requires x.backend == store.backend && x.scan.info == info && x.scan.now == now && x.idOf == idOf
      requires store.table == Ingest(x, i) && issued == x.issued + Inserts(x, i)
      requires forall fp :: fp in byFP <==> Prev(x, fp).Some?
      requires forall fp :: fp in byFP ==> byFP[fp] == Prev(x, fp).value
      modifies this, store
      ensures store.Valid()
      ensures store.table == Ingest(x, i + 1) && issued == x.issued + Inserts(x, i + 1)
      ensures Opened(x, i + 1) == Opened(x, i) + announced
      ensures Rejections(x.scan.reported, i + 1) == Rejections(x.scan.reported, i) + refused
      ensures refused == [] <==> Ingestible(reported)
    {
      announced, refused := [], [];
      var problem := ValidateForIngest(reported);
      if problem.Some? {
        refused := [Rejection(reported, problem.value)];
        return;
      }
      var f := Capped(reported);
      if f.fingerprint !in byFP {
        var id := NewId();
        var rec := Inserted(f, info.id, id, now);
        store.Upsert(rec);
        announced := [rec.finding];
      } else {
        var prev := byFP[f.fingerprint];
        var merged := Refreshed(prev, f, now);
        store.Upsert(merged);
        if prev.finding.status.Resolved? {
          announced := [merged.finding];
        }
      }
    }

    /** The second loop: every listed record the scan missed is counted absent or resolved. */
    method ResolveAbsent(ghost x: Input, info: ModuleInfo, existing: seq<Record>, seen: set<string>, now: int)
      returns (resolved: seq<Finding>)
      requires store.Valid() && Keyed(x.before)
      requires x.backend == store.backend && x.scan.info == info && x.scan.now == now
      requires store.table == Ingest(x, |x.scan.reported|)
      requires Lists(existing, x.before, info.id, x.scan.target)
      requires forall fp :: fp in seen <==> Seen(x.scan, (info.id, fp))
      modifies store
      ensures store.Valid()
      ensures store.table == Absences(x, existing, |existing|)
      ensures resolved == ClosedUpTo(x, existing, |existing|)
    {
      resolved := [];
      assert forall i :: 0 <= i < |existing| ==> existing[i].finding.moduleId == info.id;
      for i := 0 to |existing|
        invariant store.Valid()
        invariant store.table == Absences(x, existing, i)
        invariant resolved == ClosedUpTo(x, existing, i)
      {
        var announced := ResolveOne(x, existing, i, existing[i], seen, info, now);
        resolved := resolved + announced;
      }
    }

    /** One listed record: skipped when reported or dormant, otherwise one scan more absent. */
    method ResolveOne(ghost x: Input, ghost existing: seq<Record>, ghost i: nat, listed: Record, seen: set<string>,
                      info: ModuleInfo, now: int)
      returns (announced: seq<Finding>)
      requires store.Valid()
      requires x.backend == store.backend && x.scan.info == info && x.scan.now == now
      requires i < |existing| && existing[i] == listed && listed.finding.moduleId == info.id
      requires store.table == Absences(x, existing, i)
      requires forall fp :: fp in seen <==> Seen(x.scan, (info.id, fp))
      modifies store
      ensures store.Valid()
      ensures store.table == Absences(x, existing, i + 1)
      ensures ClosedUpTo(x, existing, i + 1) == ClosedUpTo(x, existing, i) + announced
    {
      announced := [];
      if listed.finding.fingerprint in seen || Dormant(listed) {
        return;
      }
      var r := listed.(absentStreak := listed.absentStreak + 1);
      if r.absentStreak >= info.ResolveAfterOrDefault() {
        r := r.(finding := r.finding.(status := Resolved, resolvedAt := Some(now)));
        announced := [r.finding];
      }
      store.Upsert(r);
    }
  }

  lemma IndexIsPrev(x: Input, existing: seq<Record>, byFP: map<string, Record>)
    requires Keyed(x.before)
    requires Lists(existing, x.before, x.scan.info.id, x.scan.target)
    requires forall fp :: fp in byFP ==> byFP[fp] in existing && byFP[fp].finding.fingerprint == fp
    requires forall r <- existing :: r.finding.fingerprint in byFP
    ensures forall fp :: fp in byFP <==> Prev(x, fp).Some?
    ensures forall fp :: fp in byFP ==> byFP[fp] == Prev(x, fp).value
  {
    forall fp
      ensures fp in byFP <==> Prev(x, fp).Some?
      ensures fp in byFP ==> byFP[fp] == Prev(x, fp).value
    {
      if fp in byFP {
        var i :| 0 <= i < |existing| && existing[i] == byFP[fp];
        assert KeyOf(existing[i]) == (x.scan.info.id, fp);
      }
      var k := (x.scan.info.id, fp);
      if OnTarget(x.before, k, x.scan.info.id, x.scan.target) {
        assert x.before[k] in existing;
        var i :| 0 <= i < |existing| && existing[i] == x.before[k];
        assert OnTarget(x.before, KeyOf(existing[i]), x.scan.info.id, x.scan.target);
      }
    }
  }
}
