/** The glue between the engine and the dispatcher: what a reconcile announces, and that it is delivered. */
module Bridge {
  import opened Prelude
  import opened Core
  import Reconcile
  import Lifecycle
  import opened Notify

  function EventsFor(kind: EventKind, moduleId: string, fs: seq<Finding>): (ops: seq<Op>)
    ensures |ops| == |fs|
    ensures forall i :: 0 <= i < |fs| ==> ops[i] == Enqueue(Event(kind, moduleId, fs[i]))
  {
    seq(|fs|, i requires 0 <= i < |fs| => Enqueue(Event(kind, moduleId, fs[i])))
  }

  /** The operations one scan result causes: newly open findings first, then resolved ones. */
  function Announcements(moduleId: string, newlyOpen: seq<Finding>, closedNow: seq<Finding>): seq<Op> {
    EventsFor(OpenedEvent, moduleId, newlyOpen) + EventsFor(ResolvedEvent, moduleId, closedNow)
  }

  method ForwardResult(d: Dispatcher, moduleId: string, res: Reconcile.ReconcileResult)
    requires d.Valid()
    modifies d
    ensures d.Valid()
    ensures d.Model() == ApplyAll(d.cfg, old(d.Model()), Announcements(moduleId, res.newlyOpen, res.resolved))
  {
    ghost var start := d.Model();
    ForwardAll(d, OpenedEvent, moduleId, res.newlyOpen);
    ForwardAll(d, ResolvedEvent, moduleId, res.resolved);
    ApplyAllConcat(d.cfg, start, EventsFor(OpenedEvent, moduleId, res.newlyOpen),
                   EventsFor(ResolvedEvent, moduleId, res.resolved));
  }

  method ForwardAll(d: Dispatcher, kind: EventKind, moduleId: string, fs: seq<Finding>)
    requires d.Valid()
    modifies d
    ensures d.Valid()
    ensures d.Model() == ApplyAll(d.cfg, old(d.Model()), EventsFor(kind, moduleId, fs))
  {
    ghost var start, ops := d.Model(), EventsFor(kind, moduleId, fs);
    for i := 0 to |fs|
      invariant d.Valid()
      invariant d.Model() == ApplyAll(d.cfg, start, ops[..i])
    {
      d.Enqueue(Event(kind, moduleId, fs[i]));
      ApplyNext(d.cfg, start, ops, i);
    }
    assert ops[..|ops|] == ops;
  }

  lemma ApplyNext(cfg: Config, s: State, ops: seq<Op>, i: nat)
    requires i < |ops|
    ensures ApplyAll(cfg, s, ops[..i + 1]) == Apply(cfg, ApplyAll(cfg, s, ops[..i]), ops[i])
  {
    assert ops[..i + 1][..i] == ops[..i];
  }

  lemma {:induction false} ApplyAllConcat(cfg: Config, s: State, a: seq<Op>, b: seq<Op>)
    ensures ApplyAll(cfg, s, a + b) == ApplyAll(cfg, ApplyAll(cfg, s, a), b)
  {
    if b == [] {
      assert a + b == a;
    } else {
      ApplyAllConcat(cfg, s, a, b[..|b| - 1]);
      assert (a + b)[..|a + b| - 1] == a + b[..|b| - 1];
    }
  }

  function ApplyAll(cfg: Config, s: State, ops: seq<Op>): State {
    if ops == [] then s else Apply(cfg, ApplyAll(cfg, s, ops[..|ops| - 1]), ops[|ops| - 1])
  }

  predicate OnlyEnqueues(ops: seq<Op>) {
    forall i :: 0 <= i < |ops| ==> ops[i].Enqueue?
  }

  lemma {:induction false} StaysUnclosed(cfg: Config, ops: seq<Op>, more: seq<Op>)
    requires !Run(cfg, ops).closed && OnlyEnqueues(more)
    ensures !Run(cfg, ops + more).closed
  {
    if more == [] {
      assert ops + more == ops;
    } else {
      StaysUnclosed(cfg, ops, more[..|more| - 1]);
      assert (ops + more)[..|ops + more| - 1] == ops + more[..|more| - 1];
      EnqueueNeverCloses(cfg, Run(cfg, ops + more[..|more| - 1]), more[|more| - 1]);
    }
  }

  lemma EnqueueNeverCloses(cfg: Config, s: State, op: Op)
    requires op.Enqueue?
    ensures Apply(cfg, s, op).closed == s.closed
  {
  }

  lemma Delivered(cfg: Config, before: seq<Op>, mid: seq<Op>, after: seq<Op>, i: nat, e: Event)
    requires cfg.maxBatch > 0 && !Run(cfg, before).closed && OnlyEnqueues(mid)
    requires i < |mid| && mid[i] == Enqueue(e) && Passes(cfg, e)
    ensures KeySent(Run(cfg, before + mid + after + [Close]).sent, KeyOf(e))
  {
    var ops := before + mid + after;
    StaysUnclosed(cfg, before, mid[..i]);
    assert ops[..|before| + i] == before + mid[..i];
    DeliveredByClose(cfg, ops, |before| + i, e);
  }

  lemma OpenedIsSent(cfg: Config, before: seq<Op>, m: string, newlyOpen: seq<Finding>, closedNow: seq<Finding>,
                     after: seq<Op>, f: Finding)
    requires cfg.maxBatch > 0 && !Run(cfg, before).closed
    requires f in newlyOpen && PassesSeverity(cfg, f.severity)
    ensures KeySent(Run(cfg, before + Announcements(m, newlyOpen, closedNow) + after + [Close]).sent,
                    (OpenedEvent, m, f.fingerprint))
  {
    var i :| 0 <= i < |newlyOpen| && newlyOpen[i] == f;
    Delivered(cfg, before, Announcements(m, newlyOpen, closedNow), after, i, Event(OpenedEvent, m, f));
  }

  lemma ResolvedIsSent(cfg: Config, before: seq<Op>, m: string, newlyOpen: seq<Finding>, closedNow: seq<Finding>,
                       after: seq<Op>, f: Finding)
    requires cfg.maxBatch > 0 && !Run(cfg, before).closed && f in closedNow
    ensures KeySent(Run(cfg, before + Announcements(m, newlyOpen, closedNow) + after + [Close]).sent,
                    (ResolvedEvent, m, f.fingerprint))
  {
    var i :| 0 <= i < |closedNow| && closedNow[i] == f;
    Delivered(cfg, before, Announcements(m, newlyOpen, closedNow), after, |newlyOpen| + i,
              Event(ResolvedEvent, m, f));
  }

  /** Every finding a scan newly opened, if severe enough, and every finding it resolved is announced in some
      digest by the time the dispatcher has closed, whatever happens before and after the scan. */
  lemma ScanIsAnnounced(cfg: Config, before: seq<Op>, x: Reconcile.Input, closedNow: seq<Finding>, after: seq<Op>,
                        f: Finding)
    requires cfg.maxBatch > 0 && !Run(cfg, before).closed
    requires multiset(closedNow) == multiset(Reconcile.Closed(x))
    ensures var m := x.scan.info.id;
      var newlyOpen := Reconcile.Opened(x, |x.scan.reported|);
      var sent := Run(cfg, before + Announcements(m, newlyOpen, closedNow) + after + [Close]).sent;
      && (f in newlyOpen && PassesSeverity(cfg, f.severity) ==> KeySent(sent, (OpenedEvent, m, f.fingerprint)))
      && (f in Reconcile.Closed(x) ==> KeySent(sent, (ResolvedEvent, m, f.fingerprint)))
  {
    var m, newlyOpen := x.scan.info.id, Reconcile.Opened(x, |x.scan.reported|);
    if f in newlyOpen && PassesSeverity(cfg, f.severity) {
      OpenedIsSent(cfg, before, m, newlyOpen, closedNow, after, f);
    }
    if f in Reconcile.Closed(x) {
      assert f in multiset(closedNow);
      ResolvedIsSent(cfg, before, m, newlyOpen, closedNow, after, f);
    }
  }
}
