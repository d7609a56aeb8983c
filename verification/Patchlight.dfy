/** The collector: one finding per CVE the feed lists for a target, and what the stored findings then say
    about the feed. */
module Patchlight {
  import opened Prelude
  import opened Core
  import opened Cpe
  import opened Store
  import opened Reconcile
  import opened Lifecycle

  const MODULE_ID := "patchlight"

  datatype Vuln = Vuln(
    id: string, summary: string, cvss: real, epss: real, kev: bool, kevDateAdded: string, fixedVersion: string)

  datatype Priority = P1 | P2 | P3 | P4

  function Rank(v: Vuln): (Priority, Severity) {
    if v.kev then (P1, Critical)
    else if v.epss >= 0.5 || (v.cvss >= 9.0 && v.epss >= 0.1) then (P2, High)
    else if v.cvss >= 7.0 then (P3, Medium)
    else (P4, Low)
  }

  function PriorityText(p: Priority): string {
    match p case P1 => "P1" case P2 => "P2" case P3 => "P3" case P4 => "P4"
  }

  /** What the collector takes from its surroundings: the fingerprint hash and the renderings of numbers and
      evidence. */
  datatype Env = Env(hash: string -> string, prob: real -> string, score: real -> string, evidence: Vuln -> string)

  /** The hash never collides and its hexadecimal form is never empty. */
  ghost predicate CollisionFree(env: Env) {
    && (forall s, t :: env.hash(s) == env.hash(t) ==> s == t)
    && (forall s :: env.hash(s) != "")
  }

  function VulnFingerprint(env: Env, target: string, id: string): string {
    env.hash(FingerprintPreimage(MODULE_ID, target, "cve", id))
  }

  function KevDate(dateAdded: string): string {
    if dateAdded != "" then " (" + dateAdded + ")" else ""
  }

  function Why(env: Env, v: Vuln): string {
    PriorityText(Rank(v).0) + " · " +
    (if v.kev then "on CISA KEV" + KevDate(v.kevDateAdded) + " · " else "") +
    "EPSS " + env.prob(v.epss) + " · CVSS " + env.score(v.cvss)
  }

  function Remediation(item: string, fixedVersion: string): string {
    if fixedVersion != "" then "Patch " + item + " to ≥ " + fixedVersion + "."
    else "Upgrade to a fixed release, or apply the advisory's mitigation — no fixed version is listed yet."
  }

  function VulnFinding(env: Env, c: CPE, v: Vuln): Finding {
    Finding(
      VulnFingerprint(env, Canonical(c), v.id), Canonical(c), "cve",
      v.id + " affects " + Label(c) + " — " + Why(env, v),
      Rank(v).1, Remediation(Label(c), v.fixedVersion), Json(env.evidence(v)),
      "", "", Open, None, 0, 0, None)
  }

  /** One finding for each of the first n listed CVEs; a CVE without an id is skipped. */
  function ForEachListed(make: Vuln -> Finding, feed: seq<Vuln>, n: nat): seq<Finding>
    requires n <= |feed|
  {
    if n == 0 then []
    else if feed[n - 1].id == "" then ForEachListed(make, feed, n - 1)
    else ForEachListed(make, feed, n - 1) + [make(feed[n - 1])]
  }

  function Emitted(env: Env, c: CPE, feed: seq<Vuln>, n: nat): seq<Finding>
    requires n <= |feed|
  {
    ForEachListed(v => VulnFinding(env, c, v), feed, n)
  }

  method Collect(env: Env, canonical: string, feedFor: CPE -> seq<Vuln>) returns (out: Result<seq<Finding>, ParseError>)
    ensures match Parse(canonical)
      case Failure(e) => out == Failure(e)
      case Success(c) => out == Success(Emitted(env, c, feedFor(c), |feedFor(c)|))
  {
    var target := Parse(canonical);
    if target.Failure? {
      return Failure(target.error);
    }
    var vulns := feedFor(target.value);
    var findings := [];
    for i := 0 to |vulns|
      invariant findings == Emitted(env, target.value, vulns, i)
    {
      if vulns[i].id == "" {
        continue;
      }
      findings := findings + [VulnFinding(env, target.value, vulns[i])];
    }
    return Success(findings);
  }

  // ----- the findings are well formed -----

  lemma VulnFindingIngestible(env: Env, c: CPE, v: Vuln)
    requires CollisionFree(env)
    ensures Ingestible(VulnFinding(env, c, v))
  {
    assert Canonical(c) != "" by {
      CanonicalStart(c, BoundField(c.other));
    }
    assert |Remediation(Label(c), v.fixedVersion)| > 0;
    assert |" affects "| > 0;
  }

  /** Every emitted finding comes from a CVE listed with an id, and every such CVE is emitted. */
  lemma {:induction false} ListedSource(make: Vuln -> Finding, feed: seq<Vuln>, n: nat, f: Finding) returns (j: nat)
    requires n <= |feed| && f in ForEachListed(make, feed, n)
    ensures j < n && feed[j].id != "" && f == make(feed[j])
  {
    if f in ForEachListed(make, feed, n - 1) {
      j := ListedSource(make, feed, n - 1, f);
    } else {
      j := n - 1;
    }
  }

  lemma {:induction false} ListedContains(make: Vuln -> Finding, feed: seq<Vuln>, n: nat, j: nat)
    requires j < n <= |feed| && feed[j].id != ""
    ensures make(feed[j]) in ForEachListed(make, feed, n)
  {
    if j < n - 1 {
      ListedContains(make, feed, n - 1, j);
    }
  }

  lemma EmittedSource(env: Env, c: CPE, feed: seq<Vuln>, f: Finding) returns (j: nat)
    requires f in Emitted(env, c, feed, |feed|)
    ensures j < |feed| && feed[j].id != "" && f == VulnFinding(env, c, feed[j])
  {
    j := ListedSource(v => VulnFinding(env, c, v), feed, |feed|, f);
  }

  lemma EmittedContains(env: Env, c: CPE, feed: seq<Vuln>, j: nat)
    requires j < |feed| && feed[j].id != ""
    ensures VulnFinding(env, c, feed[j]) in Emitted(env, c, feed, |feed|)
  {
    ListedContains(v => VulnFinding(env, c, v), feed, |feed|, j);
  }

  // ----- what a finding says -----

  /** A CVE is critical if known to be exploited; otherwise high if exploitation is likely, or both grave and not
      unlikely; otherwise medium if serious; otherwise low. */
  predicate SeverityFits(v: Vuln, s: Severity) {
    var likely := v.epss >= 0.5 || (v.cvss >= 9.0 && v.epss >= 0.1);
    && (s.Critical? <==> v.kev)
    && (s.High? <==> !v.kev && likely)
    && (s.Medium? <==> !v.kev && !likely && v.cvss >= 7.0)
    && (s.Low? <==> !v.kev && !likely && v.cvss < 7.0)
  }

  lemma RankFits(v: Vuln)
    ensures SeverityFits(v, Rank(v).1)
    ensures PriorityText(Rank(v).0) ==
      match Rank(v).1 case Critical => "P1" case High => "P2" case Medium => "P3" case _ => "P4"
  {
  }

  /** More exploitation and a higher score never make a CVE less urgent. */
  lemma RankIsMonotone(v: Vuln, u: Vuln)
    requires (v.kev ==> u.kev) && v.epss <= u.epss && v.cvss <= u.cvss
    ensures Rank(v).1.Rank() <= Rank(u).1.Rank()
  {
  }

  predicate Tells(env: Env, c: CPE, v: Vuln, f: Finding) {
    && f.fingerprint == env.hash("patchlight" + "|" + Canonical(c) + "|" + "cve" + "|" + v.id)
    && f.target == Canonical(c) && f.check == "cve"
    && SeverityFits(v, f.severity)
    && f.title == v.id + " affects " + Label(c) + " — " + Why(env, v)
    && f.remediation ==
       (if v.fixedVersion != "" then "Patch " + Label(c) + " to ≥ " + v.fixedVersion + "."
        else "Upgrade to a fixed release, or apply the advisory's mitigation — no fixed version is listed yet.")
    && f.evidence == Json(env.evidence(v))
    && CoreFieldsUnset(f)
  }

  /** Collectors leave the fields the core owns empty. */
  predicate CoreFieldsUnset(f: Finding) {
    && f.id == "" && f.moduleId == "" && f.groupId.None?
    && f.firstSeen == 0 && f.lastSeen == 0 && f.resolvedAt.None?
  }

  /** The title ends with the priority, the known exploitation and its date if there is any, and both scores. */
  lemma WhyReads(env: Env, v: Vuln)
    ensures var prob, score := env.prob(v.epss), env.score(v.cvss);
      var p := PriorityText(Rank(v).0);
      && (!v.kev ==> Why(env, v) == p + " · " + "EPSS " + prob + " · CVSS " + score)
      && (v.kev && v.kevDateAdded == "" ==>
            Why(env, v) == p + " · " + "on CISA KEV · " + "EPSS " + prob + " · CVSS " + score)
      && (v.kev && v.kevDateAdded != "" ==>
            Why(env, v) ==
            p + " · " + "on CISA KEV (" + v.kevDateAdded + ") · " + "EPSS " + prob + " · CVSS " + score)
  {
    var p := PriorityText(Rank(v).0) + " · ";
    if v.kev {
      var date := KevDate(v.kevDateAdded);
      assert "on CISA KEV" + "" + " · " == "on CISA KEV · ";
      assert "on CISA KEV" + (" (" + v.kevDateAdded + ")") + " · " == "on CISA KEV (" + v.kevDateAdded + ") · ";
    } else {
      assert p + "" == p;
    }
  }

  lemma VulnFindingTells(env: Env, c: CPE, v: Vuln)
    ensures Tells(env, c, v, VulnFinding(env, c, v))
  {
    RankFits(v);
  }

  /** Every collected finding tells of a listed CVE that has an id, and every such CVE has a finding telling of it. */
  lemma CollectedFindingsTell(env: Env, c: CPE, feed: seq<Vuln>)
    ensures forall f <- Emitted(env, c, feed, |feed|) :: exists v <- feed :: v.id != "" && Tells(env, c, v, f)
    ensures forall v <- feed :: v.id != "" ==> exists f <- Emitted(env, c, feed, |feed|) :: Tells(env, c, v, f)
  {
    forall f | f in Emitted(env, c, feed, |feed|) ensures exists v <- feed :: v.id != "" && Tells(env, c, v, f) {
      var j := EmittedSource(env, c, feed, f);
      VulnFindingTells(env, c, feed[j]);
      assert feed[j] in feed;
    }
    forall v | v in feed && v.id != "" ensures exists f <- Emitted(env, c, feed, |feed|) :: Tells(env, c, v, f) {
      var j :| 0 <= j < |feed| && feed[j] == v;
      EmittedContains(env, c, feed, j);
      VulnFindingTells(env, c, v);
    }
  }

  // ----- the fingerprint tells targets and CVEs apart -----

  lemma LastBarSplits(a: string, x: string, b: string, y: string)
    requires '|' !in x && '|' !in y && a + "|" + x == b + "|" + y
    ensures a == b && x == y
  {
    var s, t := a + "|" + x, b + "|" + y;
    assert s[|a|] == '|' && t[|b|] == '|';
    assert a == s[..|a|] && b == t[..|b|];
    assert x == s[|a| + 1..] && y == t[|b| + 1..];
  }

  /** The hashed text determines target and CVE id, for ids without a bar. */
  lemma PreimageInjective(t: string, id: string, t': string, id': string)
    requires '|' !in id && '|' !in id'
    requires FingerprintPreimage(MODULE_ID, t, "cve", id) == FingerprintPreimage(MODULE_ID, t', "cve", id')
    ensures t == t' && id == id'
  {
    var m := MODULE_ID + "|";
    var a, b := m + t + "|" + "cve", m + t' + "|" + "cve";
    assert FingerprintPreimage(MODULE_ID, t, "cve", id) == a + "|" + id;
    assert FingerprintPreimage(MODULE_ID, t', "cve", id') == b + "|" + id';
    LastBarSplits(a, id, b, id');
    assert a[|m|..|a| - 4] == t && b[|m|..|b| - 4] == t';
  }

  lemma FingerprintInjective(env: Env, t: string, id: string, t': string, id': string)
    requires CollisionFree(env) && '|' !in id && '|' !in id'
    ensures VulnFingerprint(env, t, id) == VulnFingerprint(env, t', id') <==> t == t' && id == id'
  {
    if VulnFingerprint(env, t, id) == VulnFingerprint(env, t', id') {
      PreimageInjective(t, id, t', id');
    }
  }

  // ----- scans of accepted targets -----

  /** A name whose canonical form the scheduler accepts as a key. */
  predicate AcceptedTarget(c: CPE) {
    Parse(Canonical(c)).Success?
  }

  /** An accepted name whose key reads back as itself. */
  predicate SteadyTarget(c: CPE) {
    ReadsBack(Canonical(c))
  }

  /** The name the collector finds in the key of c. */
  function ReadAs(c: CPE): CPE
    requires AcceptedTarget(c)
  {
    Parse(Canonical(c)).value
  }

  /** The target the findings of c are filed under. */
  function FiledUnder(c: CPE): string
    requires AcceptedTarget(c)
  {
    Canonical(ReadAs(c))
  }

  /** The key of the record for one CVE of c. */
  function FiledKey(env: Env, c: CPE, id: string): Key
    requires AcceptedTarget(c)
  {
    (MODULE_ID, VulnFingerprint(env, FiledUnder(c), id))
  }

  /** Every validated target is accepted. It is steady exactly when its last field has no trailing space, which
      every name of at most 13 fields guarantees. */
  lemma ValidatedTargetsAreSteady(text: string)
    requires Parse(text).Success?
    ensures AcceptedTarget(Parse(text).value)
    ensures SteadyTarget(Parse(text).value) <==> !EndsInSpace(Parse(text).value.other)
    ensures |Fields(TrimSpace(text), false)| <= 13 ==> SteadyTarget(Parse(text).value)
  {
    CanonicalFixedPoint(text);
    if |Fields(TrimSpace(text), false)| <= 13 {
      ShortNamesAreFixedPoints(text);
    }
  }

  /** Findings are filed under the key itself for a steady target and never under it for another; either way
      under a key that reads back as itself. */
  lemma FiledUnderFacts(c: CPE)
    requires AcceptedTarget(c)
    ensures FiledUnder(c) == Canonical(c) <==> SteadyTarget(c)
    ensures SteadyTarget(c) <==> !EndsInSpace(Canonical(c))
    ensures !EndsInSpace(FiledUnder(c)) && SteadyTarget(ReadAs(c)) && FiledUnder(ReadAs(c)) == FiledUnder(c)
  {
    ParseCanonical(c);
    CanonicalReadsBack(c);
    ParseCanonical(ReadAs(c));
    CanonicalReadsBack(ReadAs(c));
    TrimRightFacts(c.other);
  }

  /** The scan the scheduler runs for target c when the feed lists the given CVEs: the canonical key is
      parsed again before collecting. */
  function CollectedScan(env: Env, c: CPE, feed: seq<Vuln>, now: int): Scan
    requires AcceptedTarget(c)
  {
    Scan(ModuleInfo(MODULE_ID, 1), Canonical(c), Emitted(env, ReadAs(c), feed, |feed|), now)
  }

  predicate CleanIds(feed: seq<Vuln>) {
    forall v <- feed :: '|' !in v.id
  }

  predicate FeedLists(feed: seq<Vuln>, id: string) {
    exists v <- feed :: v.id == id
  }

  ghost predicate Collected(env: Env, c: CPE, feed: seq<Vuln>, sc: Scan) {
    AcceptedTarget(c) && CleanIds(feed) && sc == CollectedScan(env, c, feed, sc.now)
  }

  /** a is a user action, a pruning, or a scan of an accepted target with CVE ids free of bars. */
  ghost predicate CollectorAction(env: Env, a: Action) {
    a.ScanTarget? ==> exists c, feed :: Collected(env, c, feed, a.scan)
  }

  ghost predicate OwnedBy(env: Env, k: Key, r: Record, id: string) {
    k == (MODULE_ID, VulnFingerprint(env, r.finding.target, id)) && '|' !in id && r.absentStreak >= 0
  }

  /** Every record's key is the fingerprint of its own target and some CVE id, and no streak is negative. */
  ghost predicate Owned(env: Env, t: Table) {
    forall k <- t :: exists id :: OwnedBy(env, k, t[k], id)
  }

  lemma ReportedByFeed(env: Env, c: CPE, feed: seq<Vuln>, now: int, k: Key) returns (j: nat)
    requires AcceptedTarget(c) && Seen(CollectedScan(env, c, feed, now), k)
    ensures j < |feed| && feed[j].id != "" && k == FiledKey(env, c, feed[j].id)
  {
    var sc := CollectedScan(env, c, feed, now);
    var i := LastReport(sc, |sc.reported|, k).value;
    j := EmittedSource(env, ReadAs(c), feed, sc.reported[i]);
  }

  lemma SeenWhenListed(env: Env, c: CPE, feed: seq<Vuln>, now: int, id: string)
    requires CollisionFree(env) && AcceptedTarget(c) && CleanIds(feed) && id != "" && '|' !in id
    ensures Seen(CollectedScan(env, c, feed, now), FiledKey(env, c, id)) <==> FeedLists(feed, id)
  {
    var sc := CollectedScan(env, c, feed, now);
    var k := FiledKey(env, c, id);
    if Seen(sc, k) {
      var j := ReportedByFeed(env, c, feed, now, k);
      assert feed[j] in feed;
      FingerprintInjective(env, FiledUnder(c), id, FiledUnder(c), feed[j].id);
    }
    if FeedLists(feed, id) {
      var v :| v in feed && v.id == id;
      var j :| 0 <= j < |feed| && feed[j] == v;
      var f := VulnFinding(env, ReadAs(c), v);
      EmittedContains(env, ReadAs(c), feed, j);
      VulnFindingIngestible(env, ReadAs(c), v);
      var i :| 0 <= i < |sc.reported| && sc.reported[i] == f;
      LastReportIsLast(sc, |sc.reported|, k, i);
    }
  }

  /** A reported record belongs to the target it is reported for, or to the one it already belonged to. */
  lemma TargetOfReported(x: Input, k: Key, target: string)
    requires Seen(x.scan, k)
    requires forall i :: 0 <= i < |x.scan.reported| ==> x.scan.reported[i].target == target
    ensures StepAt(x, k).absentStreak == 0
    ensures || StepAt(x, k).finding.target == target
            || (k in x.before && StepAt(x, k).finding.target == x.before[k].finding.target)
  {
    var n := |x.scan.reported|;
    FirstReportIsFirst(x.scan, n, k, LastReport(x.scan, n, k).value);
  }

  lemma EmittedTargets(env: Env, c: CPE, feed: seq<Vuln>, now: int)
    requires AcceptedTarget(c)
    ensures var sc := CollectedScan(env, c, feed, now);
      forall i :: 0 <= i < |sc.reported| ==> sc.reported[i].target == FiledUnder(c)
  {
    var sc := CollectedScan(env, c, feed, now);
    forall i | 0 <= i < |sc.reported| ensures sc.reported[i].target == FiledUnder(c) {
      var j := EmittedSource(env, ReadAs(c), feed, sc.reported[i]);
    }
  }

  lemma OwnedScanAt(env: Env, x: Input, c: CPE, feed: seq<Vuln>, k: Key)
    requires Collected(env, c, feed, x.scan)
    requires k in x.before ==> exists id :: OwnedBy(env, k, x.before[k], id)
    requires k in x.before || Seen(x.scan, k)
    ensures exists id :: OwnedBy(env, k, StepAt(x, k), id)
  {
    if Seen(x.scan, k) {
      var j := ReportedByFeed(env, c, feed, x.scan.now, k);
      assert feed[j] in feed;
      EmittedTargets(env, c, feed, x.scan.now);
      TargetOfReported(x, k, FiledUnder(c));
      if StepAt(x, k).finding.target == FiledUnder(c) {
        assert OwnedBy(env, k, StepAt(x, k), feed[j].id);
      } else {
        var id :| OwnedBy(env, k, x.before[k], id);
        assert OwnedBy(env, k, StepAt(x, k), id);
      }
    } else {
      var id :| OwnedBy(env, k, x.before[k], id);
      assert OwnedBy(env, k, StepAt(x, k), id);
    }
  }

  lemma OwnedStep(env: Env, w: World, a: Action)
    requires Keyed(w.table) && Owned(env, w.table) && CollectorAction(env, a)
    ensures Owned(env, Step(w, a).table)
  {
    match a
    case ScanTarget(sc) =>
      var c, feed :| Collected(env, c, feed, sc);
      var x := InputOf(w, sc);
      forall k <- AfterScan(x) ensures exists id :: OwnedBy(env, k, AfterScan(x)[k], id) {
        SeenIsReported(sc, k);
        OwnedScanAt(env, x, c, feed, k);
      }
    case SetStatus(edited, next) =>
      forall k <- Step(w, a).table ensures exists id :: OwnedBy(env, k, Step(w, a).table[k], id) {
        var id :| OwnedBy(env, k, w.table[k], id);
        assert OwnedBy(env, k, Step(w, a).table[k], id);
      }
    case Prune(_) =>
  }

  /** No record belongs to a target whose key ends in space. */
  ghost predicate Tidy(t: Table) {
    forall k <- t :: !EndsInSpace(t[k].finding.target)
  }

  lemma TidyScanAt(env: Env, x: Input, c: CPE, feed: seq<Vuln>, k: Key)
    requires Collected(env, c, feed, x.scan)
    requires k in x.before ==> !EndsInSpace(x.before[k].finding.target)
    requires k in x.before || Seen(x.scan, k)
    ensures !EndsInSpace(StepAt(x, k).finding.target)
  {
    if Seen(x.scan, k) {
      EmittedTargets(env, c, feed, x.scan.now);
      TargetOfReported(x, k, FiledUnder(c));
      FiledUnderFacts(c);
    }
  }

  lemma TidyStep(env: Env, w: World, a: Action)
    requires Tidy(w.table) && CollectorAction(env, a)
    ensures Tidy(Step(w, a).table)
  {
    match a
    case ScanTarget(sc) =>
      var c, feed :| Collected(env, c, feed, sc);
      var x := InputOf(w, sc);
      forall k <- AfterScan(x) ensures !EndsInSpace(AfterScan(x)[k].finding.target) {
        SeenIsReported(sc, k);
        TidyScanAt(env, x, c, feed, k);
      }
    case SetStatus(_, _) =>
    case Prune(_) =>
  }

  /** What every table the product reaches satisfies. */
  ghost predicate ProductTable(env: Env, t: Table) {
    Keyed(t) && Owned(env, t) && Tidy(t)
  }

  ghost predicate ProductRun(env: Env, run: seq<Action>) {
    forall i :: 0 <= i < |run| ==> CollectorAction(env, run[i])
  }

  lemma {:induction false} ProductExec(env: Env, w: World, run: seq<Action>)
    requires ProductTable(env, w.table) && ProductRun(env, run)
    ensures ProductTable(env, Exec(w, run).table)
  {
    if run != [] {
      var p, a := run[..|run| - 1], run[|run| - 1];
      ProductExec(env, w, p);
      StepKeepsKeys(Exec(w, p), a);
      OwnedStep(env, Exec(w, p), a);
      TidyStep(env, Exec(w, p), a);
    }
  }

  /** The record of a CVE of c, if there is one, belongs to the target c is filed under. */
  lemma FiledRecordTarget(env: Env, t: Table, c: CPE, id: string)
    requires CollisionFree(env) && Owned(env, t) && AcceptedTarget(c) && '|' !in id
    requires FiledKey(env, c, id) in t
    ensures t[FiledKey(env, c, id)].finding.target == FiledUnder(c)
    ensures t[FiledKey(env, c, id)].absentStreak >= 0
  {
    var k := FiledKey(env, c, id);
    var id' :| OwnedBy(env, k, t[k], id');
    FingerprintInjective(env, FiledUnder(c), id, t[k].finding.target, id');
  }

  /** In every run from an empty store, right after a scan of any accepted target, the record of a CVE is there
      and not resolved if and only if the feed listed that CVE in this scan, or, for a steady target, the user
      had suppressed it. For a target that is not steady an unlisted CVE's record stays as it was. */
  lemma MirrorsFeed(env: Env, w: World, run: seq<Action>, c: CPE, feed: seq<Vuln>, now: int, id: string)
    requires CollisionFree(env) && w.table == map[] && ProductRun(env, run)
    requires AcceptedTarget(c) && CleanIds(feed) && id != "" && '|' !in id
    ensures var before := Exec(w, run);
      var after := Step(before, ScanTarget(CollectedScan(env, c, feed, now)));
      var k := FiledKey(env, c, id);
      Live(after.table, k) <==>
      || FeedLists(feed, id)
      || (Live(before.table, k) && (SteadyTarget(c) ==> before.table[k].finding.status.Suppressed?))
  {
    ProductExec(env, w, run);
    MirrorStep(env, Exec(w, run), c, feed, now, id);
  }

  lemma MirrorStep(env: Env, w: World, c: CPE, feed: seq<Vuln>, now: int, id: string)
    requires CollisionFree(env) && ProductTable(env, w.table)
    requires AcceptedTarget(c) && CleanIds(feed) && id != "" && '|' !in id
    ensures var k := FiledKey(env, c, id);
      Live(Step(w, ScanTarget(CollectedScan(env, c, feed, now))).table, k) <==>
      || FeedLists(feed, id)
      || (Live(w.table, k) && (SteadyTarget(c) ==> w.table[k].finding.status.Suppressed?))
  {
    var sc := CollectedScan(env, c, feed, now);
    var k := FiledKey(env, c, id);
    SeenWhenListed(env, c, feed, now, id);
    FiledUnderFacts(c);
    if k in w.table {
      FiledRecordTarget(env, w.table, c, id);
    }
    MirrorOfStreaks(InputOf(w, sc), k);
  }

  /** The same fact about any one scan with threshold 1. */
  lemma MirrorOfStreaks(x: Input, k: Key)
    requires Keyed(x.before) && x.scan.info.ResolveAfterOrDefault() == 1 && k.0 == x.scan.info.id
    requires k in x.before ==> x.before[k].absentStreak >= 0
    ensures Live(AfterScan(x), k) <==>
      || Seen(x.scan, k)
      || (Live(x.before, k) &&
          (x.before[k].finding.target == x.scan.target ==> x.before[k].finding.status.Suppressed?))
  {
    LivenessAfterScan(x, k);
    CountedWhenSeen(x.scan, |x.scan.reported|, k);
  }
}
