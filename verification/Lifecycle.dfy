/** Whole runs of the finding lifecycle: scans, user status changes and retention pruning, in any
    order, over either store. */
module Lifecycle {
  import opened Prelude
  import opened Core
  import opened Store
  import opened Reconcile

  // ----- the status endpoint -----

  datatype Reply = Done | BadRequest | NotFound

  /** The table after a user asks for status next. Only open, acknowledged and suppressed can be asked for. */
  function StatusSet(b: Backend, t: Table, k: Key, next: Status): Table {
    if next.Resolved? || k !in t then t
    else Upserted(b, t, t[k].(finding := t[k].finding.(status := next)))
  }

  method HandleFindingStatus(store: FindingStore, moduleId: string, fingerprint: string, next: Status)
    returns (reply: Reply)
    requires store.Valid()
    modifies store
    ensures store.Valid()
    ensures store.table == StatusSet(store.backend, old(store.table), (moduleId, fingerprint), next)
    ensures store.table.Keys == old(store.table).Keys
    ensures forall k <- old(store.table) ::
      if k == (moduleId, fingerprint) && !next.Resolved? then
        && store.table[k].finding.status == next
        && store.table[k].finding == old(store.table)[k].finding.(status := next)
        && store.table[k].absentStreak == old(store.table)[k].absentStreak
      else store.table[k] == old(store.table)[k]
    ensures reply == if next.Resolved? then BadRequest
                     else if (moduleId, fingerprint) !in old(store.table) then NotFound else Done
  {
    if next.Resolved? {
      return BadRequest;
    }
    var rec := store.Get(moduleId, fingerprint);
    if rec.None? {
      return NotFound;
    }
    store.Upsert(rec.value.(finding := rec.value.finding.(status := next)));
    return Done;
  }

  // ----- runs -----

  datatype Action =
    | ScanTarget(scan: Scan)
    | SetStatus(key: Key, next: Status)
    | Prune(cutoff: int)

  /** What one scan announced. */
  datatype Outcome = Outcome(newlyOpen: seq<Finding>, resolved: set<Finding>)

  datatype World = World(backend: Backend, idOf: nat -> string, table: Table, issued: nat, outcomes: seq<Outcome>)

  function InputOf(w: World, sc: Scan): Input {
    Input(w.backend, w.table, sc, w.idOf, w.issued)
  }

  function Step(w: World, a: Action): World {
    match a
    case ScanTarget(sc) =>
      var x := InputOf(w, sc);
      w.(table := AfterScan(x),
         issued := w.issued + Inserts(x, |sc.reported|),
         outcomes := w.outcomes + [Outcome(Opened(x, |sc.reported|), Closed(x))])
    case SetStatus(k, next) => w.(table := StatusSet(w.backend, w.table, k, next))
    case Prune(cutoff) => w.(table := Pruned(w.table, cutoff))
  }

  function Exec(w: World, run: seq<Action>): World {
    if run == [] then w else Step(Exec(w, run[..|run| - 1]), run[|run| - 1])
  }

  lemma StepKeepsKeys(w: World, a: Action)
    requires Keyed(w.table)
    ensures Keyed(Step(w, a).table)
  {
    if a.ScanTarget? {
      AfterScanKeyed(InputOf(w, a.scan));
    }
  }

  // ----- the notices one key receives -----

  datatype Notice = OpenedNotice | ResolvedNotice

  function FindingKey(f: Finding): Key {
    (f.moduleId, f.fingerprint)
  }

  /** How many of the first n findings have key k. */
  function OpenedCount(fs: seq<Finding>, n: nat, k: Key): nat
    requires n <= |fs|
  {
    if n == 0 then 0 else OpenedCount(fs, n - 1, k) + if FindingKey(fs[n - 1]) == k then 1 else 0
  }

  function Repeat(n: nat): (r: seq<Notice>)
    ensures |r| == n
  {
    seq(n, _ => OpenedNotice)
  }

  /** One notice for each announced finding with key k, the opened ones first. */
  function NoticesFor(o: Outcome, k: Key): seq<Notice> {
    Repeat(OpenedCount(o.newlyOpen, |o.newlyOpen|, k)) +
    if exists f <- o.resolved :: FindingKey(f) == k then [ResolvedNotice] else []
  }

  /** All notices about k, in the order they were announced. */
  function History(outcomes: seq<Outcome>, k: Key): seq<Notice> {
    if outcomes == [] then []
    else History(outcomes[..|outcomes| - 1], k) + NoticesFor(outcomes[|outcomes| - 1], k)
  }

  predicate Live(t: Table, k: Key) {
    k in t && !t[k].finding.status.Resolved?
  }

  /** Opened, resolved, opened, ... */
  predicate Alternates(h: seq<Notice>) {
    forall i :: 0 <= i < |h| ==> h[i] == if i % 2 == 0 then OpenedNotice else ResolvedNotice
  }

  /** The notices about k alternate, opened first, and the last one tells whether k is live. */
  predicate Balanced(w: World, k: Key) {
    && Alternates(History(w.outcomes, k))
    && (|History(w.outcomes, k)| % 2 == 1 <==> Live(w.table, k))
  }

  function CountOf(h: seq<Notice>, n: Notice): nat {
    if h == [] then 0 else CountOf(h[..|h| - 1], n) + if h[|h| - 1] == n then 1 else 0
  }

  lemma {:induction false} AlternatingCounts(h: seq<Notice>)
    requires Alternates(h)
    ensures CountOf(h, OpenedNotice) - CountOf(h, ResolvedNotice) == |h| % 2
  {
    if h != [] {
      AlternatingCounts(h[..|h| - 1]);
    }
  }

  // ----- what one scan says about one key -----

  function ReportCount(sc: Scan, n: nat, k: Key): nat
    requires n <= |sc.reported|
  {
    if n == 0 then 0 else ReportCount(sc, n - 1, k) + if Reports(sc, n - 1, k) then 1 else 0
  }

  lemma {:induction false} CountedWhenSeen(sc: Scan, n: nat, k: Key)
    requires n <= |sc.reported|
    ensures ReportCount(sc, n, k) > 0 <==> LastReport(sc, n, k).Some?
  {
    if n > 0 {
      CountedWhenSeen(sc, n - 1, k);
    }
  }

  /** A report of k in this scan is a new problem, or a resolved one come back. */
  predicate OpensOnReport(x: Input, k: Key) {
    k.0 == x.scan.info.id && var prev := Prev(x, k.1); (prev.None? || prev.value.finding.status.Resolved?)
  }

  lemma OpensWhenReported(x: Input, j: nat, k: Key)
    requires Keyed(x.before) && j < |x.scan.reported|
    ensures OpensAt(x, j) && FindingKey(Written(x, j).finding) == k <==> Reports(x.scan, j, k) && OpensOnReport(x, k)
  {
    WrittenKey(x, j);
  }

  lemma {:induction false} OpenedCountPrefix(fs: seq<Finding>, f: Finding, n: nat, k: Key)
    requires n <= |fs|
    ensures OpenedCount(fs + [f], n, k) == OpenedCount(fs, n, k)
  {
    if n > 0 {
      OpenedCountPrefix(fs, f, n - 1, k);
    }
  }

  lemma {:induction false} OpenedCountOfScan(x: Input, n: nat, k: Key)
    requires Keyed(x.before) && n <= |x.scan.reported|
    ensures OpenedCount(Opened(x, n), |Opened(x, n)|, k) ==
            if OpensOnReport(x, k) then ReportCount(x.scan, n, k) else 0
  {
    if n > 0 {
      OpenedCountOfScan(x, n - 1, k);
      OpensWhenReported(x, n - 1, k);
      var fs := Opened(x, n - 1);
      if OpensAt(x, n - 1) {
        OpenedCountPrefix(fs, Written(x, n - 1).finding, |fs|, k);
      } else {
        assert Opened(x, n) == fs;
      }
    }
  }

  lemma ResolvedNoticeOfScan(x: Input, k: Key)
    requires Keyed(x.before)
    ensures (exists f <- Closed(x) :: FindingKey(f) == k) <==> ResolvesAt(x, k)
  {
    if ResolvesAt(x, k) {
      var f := AfterAbsence(x.before[k], x.scan.info.ResolveAfterOrDefault(), x.scan.now).finding;
      assert f in Closed(x) && FindingKey(f) == k;
    }
  }

  lemma NoticesOfScan(x: Input, k: Key)
    requires Keyed(x.before)
    ensures NoticesFor(Outcome(Opened(x, |x.scan.reported|), Closed(x)), k) ==
            if OpensOnReport(x, k) then Repeat(ReportCount(x.scan, |x.scan.reported|, k))
            else if ResolvesAt(x, k) then [ResolvedNotice] else []
    ensures ReportCount(x.scan, |x.scan.reported|, k) > 0 ==> !ResolvesAt(x, k)
    ensures OpensOnReport(x, k) ==> !ResolvesAt(x, k)
  {
    var n := |x.scan.reported|;
    OpenedCountOfScan(x, n, k);
    ResolvedNoticeOfScan(x, k);
    CountedWhenSeen(x.scan, n, k);
  }

  /** A scan makes a reported key live, a resolved one dead, and leaves every other as it was. */
  lemma LivenessAfterScan(x: Input, k: Key)
    requires Keyed(x.before)
    ensures Live(AfterScan(x), k) <==>
            ReportCount(x.scan, |x.scan.reported|, k) > 0 || (Live(x.before, k) && !ResolvesAt(x, k))
  {
    CountedWhenSeen(x.scan, |x.scan.reported|, k);
    SeenIsReported(x.scan, k);
  }

  /** The condition, checkable before the step, under which the notices about k stay balanced. */
  predicate Fair(w: World, a: Action, k: Key) {
    match a
    case ScanTarget(sc) =>
      var n := ReportCount(sc, |sc.reported|, k);
      n > 0 && OpensOnReport(InputOf(w, sc), k) ==> n == 1 && !Live(w.table, k)
    case SetStatus(edited, next) => edited == k && k in w.table && !next.Resolved? ==> Live(w.table, k)
    case Prune(_) => true
  }

  lemma HistoryAppend(outcomes: seq<Outcome>, o: Outcome, k: Key)
    ensures History(outcomes + [o], k) == History(outcomes, k) + NoticesFor(o, k)
  {
    assert (outcomes + [o])[..|outcomes|] == outcomes;
  }

  /** One step keeps the balance of k exactly when it is fair to k. */
  lemma BalanceStep(w: World, a: Action, k: Key)
    requires Keyed(w.table) && Balanced(w, k)
    ensures Balanced(Step(w, a), k) <==> Fair(w, a, k)
  {
    if a.ScanTarget? {
      BalanceScan(w, a.scan, k);
    }
  }

  lemma AlternatesWithOpened(h: seq<Notice>, n: nat)
    requires Alternates(h)
    ensures Alternates(h + Repeat(n)) <==> n == 0 || (n == 1 && |h| % 2 == 0)
  {
    var h' := h + Repeat(n);
    if n > 0 {
      assert h'[|h|] == OpenedNotice;
    }
    if n > 1 {
      assert h'[|h| + 1] == OpenedNotice;
    }
  }

  lemma AlternatesWithResolved(h: seq<Notice>)
    requires Alternates(h)
    ensures Alternates(h + [ResolvedNotice]) <==> |h| % 2 == 1
  {
    assert (h + [ResolvedNotice])[|h|] == ResolvedNotice;
  }

  lemma HistoryOfScan(w: World, sc: Scan, k: Key)
    requires Keyed(w.table)
    ensures var x := InputOf(w, sc);
      History(Step(w, ScanTarget(sc)).outcomes, k) == History(w.outcomes, k) +
      if OpensOnReport(x, k) then Repeat(ReportCount(sc, |sc.reported|, k))
      else if ResolvesAt(x, k) then [ResolvedNotice] else []
  {
    var x := InputOf(w, sc);
    HistoryAppend(w.outcomes, Outcome(Opened(x, |sc.reported|), Closed(x)), k);
    NoticesOfScan(x, k);
  }

  /** The arithmetic of one scan: n reports of a key, with nothing else about the table. */
  lemma ParityOfScan(h: seq<Notice>, n: nat, opens: bool, resolves: bool, before: bool, after: bool)
    requires Alternates(h) && (|h| % 2 == 1 <==> before)
    requires (n > 0 || opens ==> !resolves) && (resolves ==> before)
    requires !opens && n > 0 ==> before
    requires after <==> n > 0 || (before && !resolves)
    ensures var h' := h + if opens then Repeat(n) else if resolves then [ResolvedNotice] else [];
      (Alternates(h') && (|h'| % 2 == 1 <==> after)) <==> (n > 0 && opens ==> n == 1 && !before)
  {
    if opens {
      AlternatesWithOpened(h, n);
    } else if resolves {
      AlternatesWithResolved(h);
    } else {
      assert h + [] == h;
    }
  }

  lemma BalanceScan(w: World, sc: Scan, k: Key)
    requires Keyed(w.table) && Balanced(w, k)
    ensures Balanced(Step(w, ScanTarget(sc)), k) <==> Fair(w, ScanTarget(sc), k)
  {
    var x := InputOf(w, sc);
    var n := ReportCount(sc, |sc.reported|, k);
    HistoryOfScan(w, sc, k);
    NoticesOfScan(x, k);
    LivenessAfterScan(x, k);
    CountedWhenSeen(sc, |sc.reported|, k);
    ParityOfScan(History(w.outcomes, k), n, OpensOnReport(x, k), ResolvesAt(x, k),
                 Live(w.table, k), Live(AfterScan(x), k));
  }

  /** k is balanced at the start of the run and after each of its steps. */
  ghost predicate BalancedThroughout(w: World, run: seq<Action>, k: Key) {
    Balanced(Exec(w, run), k) && (run != [] ==> BalancedThroughout(w, run[..|run| - 1], k))
  }

  /** Each step of the run is fair to k in the world it finds. */
  ghost predicate FairThroughout(w: World, run: seq<Action>, k: Key) {
    run != [] ==>
      var p := run[..|run| - 1];
      FairThroughout(w, p, k) && Fair(Exec(w, p), run[|run| - 1], k)
  }

  lemma {:induction false} ExecKeepsKeys(w: World, run: seq<Action>)
    requires Keyed(w.table)
    ensures Keyed(Exec(w, run).table)
  {
    if run != [] {
      ExecKeepsKeys(w, run[..|run| - 1]);
      StepKeepsKeys(Exec(w, run[..|run| - 1]), run[|run| - 1]);
    }
  }

  /** Over any run from a balanced start, the notices about k alternate at every moment and agree
      with the record, if and only if every step of the run is fair to k. */
  lemma {:induction false} NotificationBalance(w: World, run: seq<Action>, k: Key)
    requires Keyed(w.table) && Balanced(w, k)
    ensures BalancedThroughout(w, run, k) <==> FairThroughout(w, run, k)
  {
    if run != [] {
      var p := run[..|run| - 1];
      NotificationBalance(w, p, k);
      ExecKeepsKeys(w, p);
      if BalancedThroughout(w, p, k) {
        BalanceStep(Exec(w, p), run[|run| - 1], k);
      }
    }
  }

  /** From an empty store, in a fair run: opened minus resolved is one for a live record, else zero. */
  lemma OpenedMinusResolved(w: World, run: seq<Action>, k: Key)
    requires w.table == map[] && w.outcomes == [] && FairThroughout(w, run, k)
    ensures var end := Exec(w, run);
      CountOf(History(end.outcomes, k), OpenedNotice) - CountOf(History(end.outcomes, k), ResolvedNotice) ==
      if Live(end.table, k) then 1 else 0
  {
    NotificationBalance(w, run, k);
    AlternatingCounts(History(Exec(w, run).outcomes, k));
  }

  /** A resolved finding moved back to open by the status endpoint is resolved, and announced as
      resolved, a second time by the next scan that misses it: its streak was never cleared. */
  lemma EditedResolvedIsAnnouncedTwice(w: World, sc: Scan, k: Key, next: Status)
    requires Keyed(w.table) && Balanced(w, k)
    requires OnTarget(w.table, k, sc.info.id, sc.target) && w.table[k].finding.status.Resolved?
    requires w.table[k].absentStreak >= sc.info.ResolveAfterOrDefault()
    requires next.Open? || next.Acknowledged?
    requires sc.reported == []
    ensures var end := Step(Step(w, SetStatus(k, next)), ScanTarget(sc));
      && History(end.outcomes, k) == History(w.outcomes, k) + [ResolvedNotice]
      && !Alternates(History(end.outcomes, k))
  {
    var w1 := Step(w, SetStatus(k, next));
    var x := InputOf(w1, sc);
    assert !Seen(sc, k) && MissedAt(x, k);
    assert ResolvesAt(x, k) && !OpensOnReport(x, k);
    HistoryOfScan(w1, sc, k);
    AlternatesWithResolved(History(w.outcomes, k));
  }

  // ----- invariants of every reachable table -----

  /** Resolve-after threshold per module, fixed when the module is registered. */
  type Thresholds = string -> int

  ghost predicate Positive(T: Thresholds) {
    forall m :: T(m) >= 1
  }

  predicate Registered(T: Thresholds, a: Action) {
    a.ScanTarget? ==> a.scan.info.ResolveAfterOrDefault() == T(a.scan.info.id)
  }

  /** Time order within a record, and what a resolved record must carry. */
  predicate SoundRecord(r: Record, threshold: int, clock: int) {
    var f := r.finding;
    && f.firstSeen <= f.lastSeen <= clock
    && (f.status.Resolved? ==>
          && f.resolvedAt.Some?
          && f.lastSeen <= f.resolvedAt.value <= clock
          && r.absentStreak >= threshold)
  }

  ghost predicate Sound(t: Table, T: Thresholds, clock: int) {
    forall k <- t :: SoundRecord(t[k], T(k.0), clock)
  }

  /** A live record is short of its threshold and carries no resolution time. */
  predicate SettledRecord(r: Record, threshold: int) {
    !r.finding.status.Resolved? ==> 0 <= r.absentStreak < threshold && r.finding.resolvedAt.None?
  }

  ghost predicate Settled(t: Table, T: Thresholds) {
    forall k <- t :: SettledRecord(t[k], T(k.0))
  }

  function ClockAfter(clock: int, a: Action): int {
    if a.ScanTarget? then a.scan.now else clock
  }

  lemma SoundScanAt(x: Input, k: Key, threshold: int, clock: int)
    requires k in x.before || Seen(x.scan, k)
    requires k in x.before ==> SoundRecord(x.before[k], threshold, clock)
    requires clock <= x.scan.now
    requires k.0 == x.scan.info.id ==> threshold == x.scan.info.ResolveAfterOrDefault()
    ensures SoundRecord(StepAt(x, k), threshold, x.scan.now)
  {
    if Seen(x.scan, k) {
      var j := LastReport(x.scan, |x.scan.reported|, k).value;
      assert k == (x.scan.info.id, x.scan.reported[j].fingerprint);
      FirstReportIsFirst(x.scan, |x.scan.reported|, k, j);
      var i := FirstReport(x.scan, |x.scan.reported|, k).value;
      assert k == (x.scan.info.id, x.scan.reported[i].fingerprint);
      assert Prev(x, k.1).None? ==> Written(x, i).finding.firstSeen == x.scan.now;
      assert Prev(x, k.1).Some? ==> Prev(x, k.1).value == x.before[k];
    }
  }

  /** Sound is kept by every action, including any use of the status endpoint. */
  lemma SoundStep(w: World, a: Action, T: Thresholds, clock: int)
    requires Keyed(w.table) && Sound(w.table, T, clock)
    requires Registered(T, a) && clock <= ClockAfter(clock, a)
    ensures Sound(Step(w, a).table, T, ClockAfter(clock, a))
  {
    if a.ScanTarget? {
      var x := InputOf(w, a.scan);
      forall k <- AfterScan(x) ensures SoundRecord(AfterScan(x)[k], T(k.0), a.scan.now) {
        SeenIsReported(x.scan, k);
        SoundScanAt(x, k, T(k.0), clock);
      }
    }
  }

  /** Collectors leave the core-owned resolution time empty. */
  predicate CollectorOwned(sc: Scan) {
    forall f <- sc.reported :: f.resolvedAt.None?
  }

  /** The user action, if any, does not edit a resolved finding. */
  predicate SparesResolved(t: Table, a: Action) {
    a.SetStatus? && a.key in t && !a.next.Resolved? ==> !t[a.key].finding.status.Resolved?
  }

  lemma SettledScanAt(x: Input, k: Key, threshold: int)
    requires k in x.before || Seen(x.scan, k)
    requires k in x.before ==> SettledRecord(x.before[k], threshold)
    requires threshold >= 1 && CollectorOwned(x.scan)
    requires k.0 == x.scan.info.id ==> threshold == x.scan.info.ResolveAfterOrDefault()
    ensures SettledRecord(StepAt(x, k), threshold)
  {
    if Seen(x.scan, k) {
      var j := LastReport(x.scan, |x.scan.reported|, k).value;
      assert x.scan.reported[j] in x.scan.reported;
    }
  }

  lemma SettledScan(w: World, sc: Scan, T: Thresholds)
    requires Keyed(w.table) && Settled(w.table, T) && Positive(T)
    requires Registered(T, ScanTarget(sc)) && CollectorOwned(sc)
    ensures Settled(AfterScan(InputOf(w, sc)), T)
  {
    var x := InputOf(w, sc);
    forall k <- AfterScan(x) ensures SettledRecord(AfterScan(x)[k], T(k.0)) {
      SeenIsReported(x.scan, k);
      SettledScanAt(x, k, T(k.0));
    }
  }

  /** Settled is kept by a step if and only if the step edits no resolved finding. */
  lemma SettledStep(w: World, a: Action, T: Thresholds, clock: int)
    requires Keyed(w.table) && Sound(w.table, T, clock) && Settled(w.table, T)
    requires Positive(T) && Registered(T, a) && (a.ScanTarget? ==> CollectorOwned(a.scan))
    ensures Settled(Step(w, a).table, T) <==> SparesResolved(w.table, a)
  {
    if a.ScanTarget? {
      SettledScan(w, a.scan, T);
    } else if a.SetStatus? && a.key in w.table && !a.next.Resolved? {
      assert a.key in Step(w, a).table;
    }
  }

  function ClockAt(run: seq<Action>, clock: int): int {
    if run == [] then clock else ClockAfter(ClockAt(run[..|run| - 1], clock), run[|run| - 1])
  }

  /** A run whose scans are registered, well behaved and in time order. */
  ghost predicate Orderly(run: seq<Action>, T: Thresholds, clock: int) {
    run != [] ==>
      var p, a := run[..|run| - 1], run[|run| - 1];
      && Orderly(p, T, clock)
      && Registered(T, a)
      && (a.ScanTarget? ==> CollectorOwned(a.scan))
      && ClockAt(p, clock) <= ClockAfter(ClockAt(p, clock), a)
  }

  /** Every table reachable from an empty store is sound, however freely users edit. */
  lemma {:induction false} LifecycleInvariant(w: World, run: seq<Action>, T: Thresholds, clock: int)
    requires w.table == map[] && Orderly(run, T, clock)
    ensures Sound(Exec(w, run).table, T, ClockAt(run, clock))
  {
    if run != [] {
      LifecycleInvariant(w, run[..|run| - 1], T, clock);
      ExecKeepsKeys(w, run[..|run| - 1]);
      SoundStep(Exec(w, run[..|run| - 1]), run[|run| - 1], T, ClockAt(run[..|run| - 1], clock));
    }
  }

  ghost predicate NeverEditsResolved(w: World, run: seq<Action>) {
    run != [] ==>
      var p := run[..|run| - 1];
      NeverEditsResolved(w, p) && SparesResolved(Exec(w, p).table, run[|run| - 1])
  }

  /** If users never edit a resolved finding, every reachable table is settled as well. */
  lemma {:induction false} SettledInvariant(w: World, run: seq<Action>, T: Thresholds, clock: int)
    requires w.table == map[] && Positive(T) && Orderly(run, T, clock) && NeverEditsResolved(w, run)
    ensures Settled(Exec(w, run).table, T)
  {
    if run != [] {
      var p := run[..|run| - 1];
      SettledInvariant(w, p, T, clock);
      LifecycleInvariant(w, p, T, clock);
      ExecKeepsKeys(w, p);
      SettledStep(Exec(w, p), run[|run| - 1], T, ClockAt(p, clock));
    }
  }

  // ----- the threshold -----

  /** a neither reports k, nor edits it. */
  predicate LeavesAlone(a: Action, k: Key) {
    && (a.ScanTarget? ==> !Seen(a.scan, k))
    && (a.SetStatus? ==> a.key != k)
  }

  /** How many scans of the given target the run contains. */
  function ScansOf(run: seq<Action>, moduleId: string, target: string): nat {
    if run == [] then 0
    else
      var a := run[|run| - 1];
      ScansOf(run[..|run| - 1], moduleId, target) +
      if a.ScanTarget? && a.scan.info.id == moduleId && a.scan.target == target then 1 else 0
  }

  /** Where a record left alone stands after n absent scans: still itself with its streak advanced, or
      resolved with the streak stopped at the threshold (and perhaps pruned since). */
  ghost predicate Waited(start: Record, t: Table, k: Key, threshold: int, n: nat) {
    if start.absentStreak + n < threshold then
      k in t && t[k] == start.(absentStreak := start.absentStreak + n)
    else
      k in t ==>
        && t[k].absentStreak == threshold
        && t[k].finding.status.Resolved?
        && t[k] == Record(start.finding.(status := Resolved, resolvedAt := t[k].finding.resolvedAt), threshold)
  }

  lemma WaitedStep(w: World, a: Action, k: Key, start: Record, threshold: int, n: nat)
    requires Keyed(w.table) && !Dormant(start) && start.absentStreak < threshold
    requires Waited(start, w.table, k, threshold, n)
    requires LeavesAlone(a, k)
    requires a.ScanTarget? && a.scan.info.id == k.0 ==> a.scan.info.ResolveAfterOrDefault() == threshold
    ensures var n' := n + ScansOf([a], k.0, start.finding.target);
      && Waited(start, Step(w, a).table, k, threshold, n')
      && History(Step(w, a).outcomes, k) == History(w.outcomes, k) +
         if start.absentStreak + n < threshold <= start.absentStreak + n' then [ResolvedNotice] else []
  {
    assert [a][..0] == [];
    if a.ScanTarget? {
      var x := InputOf(w, a.scan);
      SeenIsReported(x.scan, k);
      NoticesOfScan(x, k);
      CountedWhenSeen(x.scan, |x.scan.reported|, k);
      HistoryAppend(w.outcomes, Outcome(Opened(x, |x.scan.reported|), Closed(x)), k);
    }
  }

  lemma ScansOfSnoc(run: seq<Action>, moduleId: string, target: string)
    requires run != []
    ensures ScansOf(run, moduleId, target) ==
            ScansOf(run[..|run| - 1], moduleId, target) + ScansOf([run[|run| - 1]], moduleId, target)
  {
    assert [run[|run| - 1]][..0] == [];
  }

  /** A live record left alone by users resolves, and is announced, at exactly the scan that brings its
      consecutive absences to the threshold, whatever else the run does. */
  lemma {:induction false} ResolvesExactlyAtThreshold(w: World, run: seq<Action>, k: Key, threshold: int)
    requires Keyed(w.table) && k in w.table && !Dormant(w.table[k])
    requires w.table[k].absentStreak < threshold
    requires forall a <- run :: LeavesAlone(a, k)
    requires forall a <- run ::
      a.ScanTarget? && a.scan.info.id == k.0 ==> a.scan.info.ResolveAfterOrDefault() == threshold
    ensures var start := w.table[k];
      var n := ScansOf(run, k.0, start.finding.target);
      && Waited(start, Exec(w, run).table, k, threshold, n)
      && History(Exec(w, run).outcomes, k) ==
         History(w.outcomes, k) + if threshold <= start.absentStreak + n then [ResolvedNotice] else []
  {
    if run != [] {
      var p, a := run[..|run| - 1], run[|run| - 1];
      ResolvesExactlyAtThreshold(w, p, k, threshold);
      ExecKeepsKeys(w, p);
      ScansOfSnoc(run, k.0, w.table[k].finding.target);
      WaitedStep(Exec(w, p), a, k, w.table[k], threshold, ScansOf(p, k.0, w.table[k].finding.target));
    }
  }
}
