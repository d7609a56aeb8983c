/** The notification dispatcher: events gathered over a window, each key once, sent as one digest per
    module when the window ends, the batch is full, or the dispatcher closes. */
module Notify {
  import opened Prelude
  import opened Core
  import opened SeveritySort

  datatype EventKind = OpenedEvent | ResolvedEvent

  datatype Event = Event(kind: EventKind, moduleId: string, finding: Finding)

  datatype Digest = Digest(moduleId: string, raised: seq<Finding>, cleared: seq<Finding>)

  /** (kind, module, fingerprint) */
  type EventKey = (EventKind, string, string)

  function KeyOf(e: Event): EventKey {
    (e.kind, e.moduleId, e.finding.fingerprint)
  }

  /** Settings after defaults are filled in. */
  datatype Config = Config(maxBatch: nat, minSeverity: Option<Severity>, retries: nat)

  function WithDefaults(maxBatch: int, minSeverity: Option<Severity>, retries: int): (c: Config)
    ensures c.maxBatch == (if maxBatch > 0 then maxBatch else 100) && c.retries == (if retries > 0 then retries else 3)
  {
    Config(if maxBatch <= 0 then 100 else maxBatch, minSeverity, if retries <= 0 then 3 else retries)
  }

  predicate PassesSeverity(cfg: Config, s: Severity) {
    cfg.minSeverity.None? || SeverityRank(s) >= SeverityRank(cfg.minSeverity.value)
  }

  /** e gets past the door: only opened events are filtered. */
  predicate Passes(cfg: Config, e: Event) {
    e.kind.OpenedEvent? ==> PassesSeverity(cfg, e.finding.severity)
  }

  /** Without a minimum every severity passes; with one, exactly those it does not outrank. */
  lemma PassesUnlessOutranked(cfg: Config, s: Severity)
    ensures PassesSeverity(cfg, s) <==> cfg.minSeverity.None? || !MoreSevere(cfg.minSeverity.value, s)
  {
    if cfg.minSeverity.Some? {
      RankIsSeverity(cfg.minSeverity.value, s);
    }
  }

  // ----- digests -----

  function Select(evs: seq<Event>, kind: EventKind): seq<Finding> {
    if evs == [] then []
    else
      var rest, e := Select(evs[..|evs| - 1], kind), evs[|evs| - 1];
      if e.kind == kind then rest + [e.finding] else rest
  }

  function DigestOf(moduleId: string, evs: seq<Event>): Digest {
    Digest(moduleId, BySeverity(Select(evs, OpenedEvent)), Select(evs, ResolvedEvent))
  }

  predicate EmptyDigest(d: Digest) {
    d.raised == [] && d.cleared == []
  }

  /** The digests one flush sends: one for each module with something to say. */
  type Batch = map<string, Digest>

  function BatchOf(pending: map<string, seq<Event>>): Batch {
    map m | m in pending && !EmptyDigest(DigestOf(m, pending[m])) :: DigestOf(m, pending[m])
  }

  // ----- the dispatcher as a value -----

  datatype State = State(
    pending: map<string, seq<Event>>, seen: set<EventKey>, armed: bool, closed: bool, sent: seq<Batch>)

  const INITIAL := State(map[], {}, false, false, [])

  function PendingOf(s: State, m: string): seq<Event> {
    if m in s.pending then s.pending[m] else []
  }

  function Flushed(s: State): State {
    if s.pending == map[] then s.(armed := false)
    else s.(pending := map[], seen := {}, armed := false, sent := s.sent + [BatchOf(s.pending)])
  }

  predicate Accepts(cfg: Config, s: State, e: Event) {
    Passes(cfg, e) && !s.closed && KeyOf(e) !in s.seen
  }

  function Added(s: State, e: Event): State {
    s.(seen := s.seen + {KeyOf(e)}, pending := s.pending[e.moduleId := PendingOf(s, e.moduleId) + [e]])
  }

  function Enqueued(cfg: Config, s: State, e: Event): State {
    if !Accepts(cfg, s, e) then s
    else
      var s' := Added(s, e);
      if |s'.seen| >= cfg.maxBatch then Flushed(s') else s'.(armed := true)
  }

  function Shut(s: State): State {
    Flushed(s).(closed := true)
  }

  // ----- the invariant -----

  function KeyCount(evs: seq<Event>, k: EventKey): nat {
    if evs == [] then 0 else KeyCount(evs[..|evs| - 1], k) + if KeyOf(evs[|evs| - 1]) == k then 1 else 0
  }

  /** The module's list holds exactly the seen keys of that module, each once. */
  ghost predicate ListMatches(s: State, m: string) {
    && (forall k :: KeyCount(PendingOf(s, m), k) == if k in s.seen && k.1 == m then 1 else 0)
    && (forall e <- PendingOf(s, m) :: e.moduleId == m)
  }

  ghost predicate Inv(cfg: Config, s: State) {
    && cfg.maxBatch > 0
    && (forall m :: ListMatches(s, m))
    && (forall m <- s.pending :: s.pending[m] != [])
    && |s.seen| < cfg.maxBatch
    && (s.armed <==> s.pending != map[])
    && (s.closed ==> s.pending == map[])
  }

  lemma KeyCountSnoc(evs: seq<Event>, e: Event, k: EventKey)
    ensures KeyCount(evs + [e], k) == KeyCount(evs, k) + if KeyOf(e) == k then 1 else 0
  {
    assert (evs + [e])[..|evs|] == evs;
  }

  lemma AddedMatches(s: State, e: Event, m: string)
    requires ListMatches(s, m) && KeyOf(e) !in s.seen
    ensures ListMatches(Added(s, e), m)
  {
    forall k ensures KeyCount(PendingOf(Added(s, e), m), k) == if k in Added(s, e).seen && k.1 == m then 1 else 0 {
      KeyCountSnoc(PendingOf(s, m), e, k);
    }
  }

  lemma AllAddedMatch(s: State, e: Event)
    requires (forall m :: ListMatches(s, m)) && KeyOf(e) !in s.seen
    ensures forall m :: ListMatches(Added(s, e), m)
  {
    forall m ensures ListMatches(Added(s, e), m) {
      AddedMatches(s, e, m);
    }
  }

  lemma EmptyMatches(s: State, m: string)
    requires s.pending == map[] && s.seen == {}
    ensures ListMatches(s, m)
  {
  }

  lemma {:induction false} MemberCounted(evs: seq<Event>, e: Event)
    requires e in evs
    ensures KeyCount(evs, KeyOf(e)) > 0
  {
    if e in evs[..|evs| - 1] {
      MemberCounted(evs[..|evs| - 1], e);
    }
  }

  lemma {:induction false} CountedMember(evs: seq<Event>, k: EventKey) returns (e: Event)
    requires KeyCount(evs, k) > 0
    ensures e in evs && KeyOf(e) == k
  {
    e := evs[|evs| - 1];
    if KeyOf(e) != k {
      e := CountedMember(evs[..|evs| - 1], k);
    }
  }

  lemma NothingPendingNothingSeen(cfg: Config, s: State)
    requires Inv(cfg, s)
    ensures s.pending == map[] <==> s.seen == {}
  {
    forall k | k in s.seen ensures k.1 in s.pending {
      assert ListMatches(s, k.1);
    }
    forall m | m in s.pending ensures s.seen != {} {
      var e := s.pending[m][0];
      assert ListMatches(s, m);
      MemberCounted(s.pending[m], e);
    }
  }

  lemma FlushedInv(cfg: Config, s: State)
    requires (cfg.maxBatch > 0 && s.pending != map[]) || Inv(cfg, s)
    ensures Inv(cfg, Flushed(s))
    ensures Flushed(s).pending == map[] && Flushed(s).seen == {}
  {
    if s.pending == map[] {
      NothingPendingNothingSeen(cfg, s);
    }
    forall m ensures ListMatches(Flushed(s), m) {
      EmptyMatches(Flushed(s), m);
    }
  }

  /** Enqueueing keeps the invariant. */
  lemma EnqueuedInv(cfg: Config, s: State, e: Event)
    requires Inv(cfg, s)
    ensures Inv(cfg, Enqueued(cfg, s, e))
  {
    if Accepts(cfg, s, e) {
      var s' := Added(s, e);
      if |s'.seen| >= cfg.maxBatch {
        assert e.moduleId in s'.pending;
        FlushedInv(cfg, s');
      } else {
        forall m ensures ListMatches(s'.(armed := true), m) {
          AddedMatches(s, e, m);
        }
        assert e.moduleId in s'.pending;
      }
    }
  }

  lemma AcceptedChanges(cfg: Config, s: State, e: Event)
    ensures Enqueued(cfg, s, e) == s <==> !Accepts(cfg, s, e)
  {
    if Accepts(cfg, s, e) {
      assert KeyOf(e) in Added(s, e).seen;
      assert |Flushed(Added(s, e)).sent| == |s.sent| + 1 by {
        assert e.moduleId in Added(s, e).pending;
      }
    }
  }

  lemma ShutInv(cfg: Config, s: State)
    requires Inv(cfg, s)
    ensures Inv(cfg, Shut(s))
  {
    FlushedInv(cfg, s);
    forall m ensures ListMatches(Shut(s), m) {
      EmptyMatches(Shut(s), m);
    }
  }

  // ----- runs -----

  /** The window timer runs Flush, so a timer firing is a FlushNow, at whatever moment it comes. */
  datatype Op = Enqueue(event: Event) | FlushNow | Close

  function Apply(cfg: Config, s: State, op: Op): State {
    match op
    case Enqueue(e) => Enqueued(cfg, s, e)
    case FlushNow => Flushed(s)
    case Close => Shut(s)
  }

  function Run(cfg: Config, ops: seq<Op>): State {
    if ops == [] then INITIAL else Apply(cfg, Run(cfg, ops[..|ops| - 1]), ops[|ops| - 1])
  }

  lemma InitialInv(cfg: Config)
    requires cfg.maxBatch > 0
    ensures Inv(cfg, INITIAL)
  {
    forall m ensures ListMatches(INITIAL, m) {
      EmptyMatches(INITIAL, m);
    }
  }

  /** The invariant holds after every sequence of operations. */
  lemma {:induction false} RunInv(cfg: Config, ops: seq<Op>)
    requires cfg.maxBatch > 0
    ensures Inv(cfg, Run(cfg, ops))
  {
    if ops == [] {
      InitialInv(cfg);
    } else {
      var s := Run(cfg, ops[..|ops| - 1]);
      RunInv(cfg, ops[..|ops| - 1]);
      match ops[|ops| - 1]
      case Enqueue(e) => EnqueuedInv(cfg, s, e);
      case FlushNow => FlushedInv(cfg, s);
      case Close => ShutInv(cfg, s);
    }
  }

  lemma ApplyCloses(cfg: Config, s: State, op: Op)
    requires Inv(cfg, s)
    ensures Apply(cfg, s, op).closed <==> s.closed || op.Close?
    ensures !op.Enqueue? ==> Apply(cfg, s, op).pending == map[] && Apply(cfg, s, op).seen == {}
  {
    FlushedInv(cfg, s);
  }

  lemma InSnoc(ops: seq<Op>, op: Op)
    requires ops != []
    ensures op in ops <==> op in ops[..|ops| - 1] || op == ops[|ops| - 1]
  {
    assert ops == ops[..|ops| - 1] + [ops[|ops| - 1]];
  }

  /** The dispatcher is closed exactly from the first close on, and a flush or close leaves nothing waiting. */
  lemma {:induction false} ClosedByClose(cfg: Config, ops: seq<Op>)
    requires cfg.maxBatch > 0
    ensures Run(cfg, ops).closed <==> Close in ops
    ensures ops != [] && !ops[|ops| - 1].Enqueue? ==> Run(cfg, ops).pending == map[] && Run(cfg, ops).seen == {}
  {
    if ops != [] {
      var p := ops[..|ops| - 1];
      ClosedByClose(cfg, p);
      RunInv(cfg, p);
      ApplyCloses(cfg, Run(cfg, p), ops[|ops| - 1]);
      InSnoc(ops, Close);
    }
  }

  // ----- exactly once -----

  /** How often e was taken in during the run. */
  function AcceptedCount(cfg: Config, ops: seq<Op>, e: Event): nat {
    if ops == [] then 0
    else
      var p, op := ops[..|ops| - 1], ops[|ops| - 1];
      AcceptedCount(cfg, p, e) + if op == Enqueue(e) && Accepts(cfg, Run(cfg, p), e) then 1 else 0
  }

  function DigestCount(d: Digest, e: Event): nat {
    if d.moduleId != e.moduleId then 0
    else multiset(if e.kind.OpenedEvent? then d.raised else d.cleared)[e.finding]
  }

  /** Occurrences of e in a batch. Digests of other modules cannot contain e: a digest's module is its key. */
  function BatchCount(b: Batch, e: Event): nat {
    if e.moduleId in b then DigestCount(b[e.moduleId], e) else 0
  }

  function SentCount(sent: seq<Batch>, e: Event): nat {
    if sent == [] then 0 else SentCount(sent[..|sent| - 1], e) + BatchCount(sent[|sent| - 1], e)
  }

  function PendingCount(s: State, e: Event): nat {
    multiset(PendingOf(s, e.moduleId))[e]
  }

  lemma {:induction false} SelectCounts(evs: seq<Event>, e: Event)
    requires forall x <- evs :: x.moduleId == e.moduleId
    ensures multiset(Select(evs, e.kind))[e.finding] == multiset(evs)[e]
  {
    if evs != [] {
      var p, x := evs[..|evs| - 1], evs[|evs| - 1];
      SelectCounts(p, e);
      assert evs == p + [x];
      assert multiset(p + [x])[e] == multiset(p)[e] + if x == e then 1 else 0;
      var rest := Select(p, e.kind);
      assert multiset(rest + [x.finding])[e.finding] ==
        multiset(rest)[e.finding] + if x.finding == e.finding then 1 else 0;
    }
  }

  lemma BatchCounts(s: State, e: Event)
    requires ListMatches(s, e.moduleId)
    ensures BatchCount(BatchOf(s.pending), e) == PendingCount(s, e)
  {
    var m := e.moduleId;
    if m in s.pending {
      var evs := s.pending[m];
      SelectCounts(evs, e);
      SortIsPermutation(Select(evs, OpenedEvent));
    }
  }

  lemma SentSnoc(sent: seq<Batch>, b: Batch, e: Event)
    ensures SentCount(sent + [b], e) == SentCount(sent, e) + BatchCount(b, e)
  {
    assert (sent + [b])[..|sent|] == sent;
  }

  /** Flushing moves everything pending into the log, losing and repeating nothing. */
  lemma FlushedCounts(s: State, e: Event)
    requires ListMatches(s, e.moduleId)
    ensures SentCount(Flushed(s).sent, e) + PendingCount(Flushed(s), e) == SentCount(s.sent, e) + PendingCount(s, e)
  {
    if s.pending != map[] {
      BatchCounts(s, e);
      SentSnoc(s.sent, BatchOf(s.pending), e);
    }
  }

  lemma AddedCounts(s: State, x: Event, e: Event)
    ensures PendingCount(Added(s, x), e) == PendingCount(s, e) + if x == e then 1 else 0
  {
    var evs := PendingOf(s, e.moduleId);
    if x.moduleId == e.moduleId {
      assert multiset(evs + [x])[e] == multiset(evs)[e] + if x == e then 1 else 0;
    }
  }

  lemma EnqueuedCounts(cfg: Config, s: State, x: Event, e: Event)
    requires Inv(cfg, s)
    ensures var s' := Enqueued(cfg, s, x);
      SentCount(s'.sent, e) + PendingCount(s', e) ==
      SentCount(s.sent, e) + PendingCount(s, e) + if x == e && Accepts(cfg, s, e) then 1 else 0
  {
    if Accepts(cfg, s, x) {
      AddedCounts(s, x, e);
      AddedMatches(s, x, e.moduleId);
      FlushedCounts(Added(s, x), e);
    }
  }

  /** Over every sequence of operations, each event appears in digests and pending lists together exactly
      as often as it was accepted. */
  lemma {:induction false} ExactlyOnce(cfg: Config, ops: seq<Op>, e: Event)
    requires cfg.maxBatch > 0
    ensures AcceptedCount(cfg, ops, e) == SentCount(Run(cfg, ops).sent, e) + PendingCount(Run(cfg, ops), e)
  {
    if ops != [] {
      var p := ops[..|ops| - 1];
      var s := Run(cfg, p);
      ExactlyOnce(cfg, p, e);
      RunInv(cfg, p);
      assert ListMatches(s, e.moduleId);
      match ops[|ops| - 1]
      case Enqueue(x) => EnqueuedCounts(cfg, s, x, e);
      case FlushNow => FlushedCounts(s, e);
      case Close => FlushedCounts(s, e);
    }
  }

  // ----- delivery -----

  /** Some digest of the log announces key k. */
  ghost predicate KeySent(sent: seq<Batch>, k: EventKey) {
    exists n :: 0 <= n < |sent| && KeyInBatch(sent[n], k)
  }

  predicate KeyInBatch(b: Batch, k: EventKey) {
    k.1 in b && exists f <- (if k.0.OpenedEvent? then b[k.1].raised else b[k.1].cleared) :: f.fingerprint == k.2
  }

  ghost predicate KeyKnown(s: State, k: EventKey) {
    k in s.seen || KeySent(s.sent, k)
  }

  lemma {:induction false} SelectHas(evs: seq<Event>, e: Event)
    requires e in evs
    ensures e.finding in Select(evs, e.kind)
  {
    if e in evs[..|evs| - 1] {
      SelectHas(evs[..|evs| - 1], e);
    }
  }

  lemma PendingKeyInBatch(s: State, k: EventKey)
    requires k in s.seen && ListMatches(s, k.1)
    ensures KeyInBatch(BatchOf(s.pending), k)
  {
    var evs := PendingOf(s, k.1);
    assert KeyCount(evs, k) == 1;
    var e := CountedMember(evs, k);
    SelectHas(evs, e);
    if k.0.OpenedEvent? {
      SortIsPermutation(Select(evs, OpenedEvent));
      assert e.finding in multiset(BySeverity(Select(evs, OpenedEvent)));
    }
    assert !EmptyDigest(DigestOf(k.1, evs));
  }

  lemma FlushedKnows(s: State, k: EventKey)
    requires KeyKnown(s, k) && ListMatches(s, k.1)
    ensures s.pending != map[] ==> KeySent(Flushed(s).sent, k)
    ensures KeyKnown(Flushed(s), k)
  {
    if s.pending != map[] {
      var sent := Flushed(s).sent;
      if k in s.seen {
        PendingKeyInBatch(s, k);
        assert KeyInBatch(sent[|s.sent|], k);
      } else {
        var n :| 0 <= n < |s.sent| && KeyInBatch(s.sent[n], k);
        assert sent[n] == s.sent[n];
      }
    }
  }

  lemma EnqueuedKnows(cfg: Config, s: State, e: Event, k: EventKey)
    requires Inv(cfg, s)
    requires KeyKnown(s, k) || (KeyOf(e) == k && Passes(cfg, e) && !s.closed)
    ensures KeyKnown(Enqueued(cfg, s, e), k)
  {
    if Accepts(cfg, s, e) {
      var s' := Added(s, e);
      AddedMatches(s, e, k.1);
      FlushedKnows(s', k);
    }
  }

  lemma ApplyKnows(cfg: Config, s: State, op: Op, k: EventKey)
    requires Inv(cfg, s) && KeyKnown(s, k)
    ensures KeyKnown(Apply(cfg, s, op), k)
  {
    assert ListMatches(s, k.1);
    match op
    case Enqueue(e) => EnqueuedKnows(cfg, s, e, k);
    case FlushNow => FlushedKnows(s, k);
    case Close => FlushedKnows(s, k);
  }

  lemma {:induction false} StaysKnown(cfg: Config, ops: seq<Op>, i: nat, k: EventKey)
    requires cfg.maxBatch > 0 && i <= |ops| && KeyKnown(Run(cfg, ops[..i]), k)
    ensures KeyKnown(Run(cfg, ops), k)
  {
    if i < |ops| {
      var p := ops[..|ops| - 1];
      assert p[..i] == ops[..i];
      StaysKnown(cfg, p, i, k);
      RunInv(cfg, p);
      ApplyKnows(cfg, Run(cfg, p), ops[|ops| - 1], k);
    } else {
      assert ops[..i] == ops;
    }
  }

  lemma KnownIsSentByClose(cfg: Config, s: State, k: EventKey)
    requires Inv(cfg, s) && KeyKnown(s, k)
    ensures KeySent(Shut(s).sent, k)
  {
    assert ListMatches(s, k.1);
    FlushedKnows(s, k);
    NothingPendingNothingSeen(cfg, s);
  }

  /** An event that passes severity before the dispatcher is closed has its kind, module and fingerprint in
      some digest once Close has returned. */
  lemma DeliveredByClose(cfg: Config, ops: seq<Op>, i: nat, e: Event)
    requires cfg.maxBatch > 0 && i < |ops|
    requires ops[i] == Enqueue(e) && Passes(cfg, e) && !Run(cfg, ops[..i]).closed
    ensures KeySent(Run(cfg, ops + [Close]).sent, KeyOf(e))
  {
    var k := KeyOf(e);
    RunInv(cfg, ops[..i]);
    assert ops[..i + 1][..i] == ops[..i];
    EnqueuedKnows(cfg, Run(cfg, ops[..i]), e, k);
    StaysKnown(cfg, ops, i + 1, k);
    RunInv(cfg, ops);
    KnownIsSentByClose(cfg, Run(cfg, ops), k);
    assert (ops + [Close])[..|ops|] == ops;
  }

  // ----- no repeats inside a digest -----

  ghost predicate NoRepeats(b: Batch) {
    forall m <- b ::
      && b[m].moduleId == m
      && (forall fp :: CountFingerprint(b[m].raised, fp) <= 1 && CountFingerprint(b[m].cleared, fp) <= 1)
  }

  lemma {:induction false} SelectKeyCount(evs: seq<Event>, kind: EventKind, m: string, fp: string)
    requires forall e <- evs :: e.moduleId == m
    ensures CountFingerprint(Select(evs, kind), fp) == KeyCount(evs, (kind, m, fp))
  {
    if evs != [] {
      var p, e := evs[..|evs| - 1], evs[|evs| - 1];
      SelectKeyCount(p, kind, m, fp);
      assert e in evs;
      CountConcat(Select(p, kind), [e.finding], (f: Finding) => f.fingerprint == fp);
    }
  }

  lemma BatchNoRepeats(s: State)
    requires forall m :: ListMatches(s, m)
    ensures NoRepeats(BatchOf(s.pending))
  {
    var b := BatchOf(s.pending);
    forall m, fp | m in b
      ensures CountFingerprint(b[m].raised, fp) <= 1 && CountFingerprint(b[m].cleared, fp) <= 1
    {
      var evs := PendingOf(s, m);
      assert ListMatches(s, m);
      SelectKeyCount(evs, OpenedEvent, m, fp);
      SelectKeyCount(evs, ResolvedEvent, m, fp);
      SortKeepsCounts(Select(evs, OpenedEvent), (f: Finding) => f.fingerprint == fp);
    }
  }

  lemma FlushedNoRepeats(s: State)
    requires (forall m :: ListMatches(s, m)) && forall b <- s.sent :: NoRepeats(b)
    ensures forall b <- Flushed(s).sent :: NoRepeats(b)
  {
    BatchNoRepeats(s);
  }

  /** No digest of any run announces the same kind and fingerprint twice, and each carries its own module. */
  lemma {:induction false} DigestsHaveNoRepeats(cfg: Config, ops: seq<Op>)
    requires cfg.maxBatch > 0
    ensures forall b <- Run(cfg, ops).sent :: NoRepeats(b)
  {
    if ops != [] {
      var p := ops[..|ops| - 1];
      var s := Run(cfg, p);
      DigestsHaveNoRepeats(cfg, p);
      RunInv(cfg, p);
      match ops[|ops| - 1]
      case Enqueue(e) =>
        if Accepts(cfg, s, e) {
          AllAddedMatch(s, e);
          FlushedNoRepeats(Added(s, e));
        }
      case FlushNow => FlushedNoRepeats(s);
      case Close => FlushedNoRepeats(s);
    }
  }

  // ----- the dispatcher -----

  lemma {:induction false} LengthIsKeys(evs: seq<Event>, keys: set<EventKey>)
    requires forall k :: KeyCount(evs, k) == if k in keys then 1 else 0
    ensures |evs| == |keys|
  {
    if evs == [] {
      assert forall k :: KeyCount([], k) == 0;
      assert keys == {};
    } else {
      var p, last := evs[..|evs| - 1], KeyOf(evs[|evs| - 1]);
      assert KeyCount(evs, last) == KeyCount(p, last) + 1;
      assert last in keys && KeyCount(p, last) == 0;
      forall k ensures KeyCount(p, k) == if k in keys - {last} then 1 else 0 {
        assert KeyCount(evs, k) == KeyCount(p, k) + if last == k then 1 else 0;
      }
      LengthIsKeys(p, keys - {last});
    }
  }

  class Dispatcher {
    const cfg: Config
    var pending: map<string, seq<Event>>
    var seen: set<EventKey>
    var armed: bool
    var closed: bool
    /** Every batch of digests handed to the channels, oldest first. */
    var sent: seq<Batch>

    ghost function Model(): State
      reads this
    {
      State(pending, seen, armed, closed, sent)
    }

    ghost predicate Valid()
      reads this
    {
      Inv(cfg, Model())
    }

    constructor (maxBatch: int, minSeverity: Option<Severity>, retries: int)
      ensures cfg == WithDefaults(maxBatch, minSeverity, retries) && Valid() && Model() == INITIAL
    {
      cfg := WithDefaults(maxBatch, minSeverity, retries);
      pending, seen, armed, closed, sent := map[], {}, false, false, [];
      new;
      InitialInv(cfg);
    }

    method Enqueue(e: Event)
      requires Valid()
      modifies this
      ensures Valid() && Model() == Enqueued(cfg, old(Model()), e)
      ensures Model() == old(Model()) <==>
        || old(closed)
        || (e.kind, e.moduleId, e.finding.fingerprint) in old(seen)
        || (e.kind.OpenedEvent? && cfg.minSeverity.Some? && MoreSevere(cfg.minSeverity.value, e.finding.severity))
    {
      EnqueuedInv(cfg, Model(), e);
      PassesUnlessOutranked(cfg, e.finding.severity);
      AcceptedChanges(cfg, Model(), e);
      if e.kind == OpenedEvent && !PassesSeverity(cfg, e.finding.severity) {
        return;
      }
      if closed || KeyOf(e) in seen {
        return;
      }
      TakeIn(e);
    }

    /** Records an accepted event, and flushes at once if that fills the batch. */
    method TakeIn(e: Event)
      requires Accepts(cfg, Model(), e) && forall m :: ListMatches(Model(), m)
      modifies this
      ensures Model() == Enqueued(cfg, old(Model()), e)
    {
      AllAddedMatch(Model(), e);
      ghost var added := Added(Model(), e);
      seen := seen + {KeyOf(e)};
      pending := pending[e.moduleId := (if e.moduleId in pending then pending[e.moduleId] else []) + [e]];
      assert Model() == added;
      var total := CountPending();
      if total >= cfg.maxBatch {
        FlushLocked();
        return;
      }
      armed := true;
    }

    method Flush()
      requires Valid()
      modifies this
      ensures Valid() && Model() == Flushed(old(Model()))
    {
      FlushedInv(cfg, Model());
      FlushLocked();
    }

    method Close()
      requires Valid()
      modifies this
      ensures Valid() && Model() == Shut(old(Model()))
    {
      ShutInv(cfg, Model());
      FlushLocked();
      closed := true;
    }

    /** The sum of the lengths of all pending lists. */
    method CountPending() returns (total: nat)
      requires forall m :: ListMatches(Model(), m)
      ensures total == |seen|
    {
      total := 0;
      var todo := pending.Keys;
      ghost var counted := {};
      while todo != {}
        invariant todo <= pending.Keys
        invariant counted == set k | k in seen && k.1 !in todo && k.1 in pending
        invariant total == |counted|
      {
        var m :| m in todo;
        todo := todo - {m};
        ghost var here := set k | k in seen && k.1 == m;
        assert ListMatches(Model(), m) && PendingOf(Model(), m) == pending[m];
        LengthIsKeys(pending[m], here);
        assert counted !! here;
        counted := counted + here;
        total := total + |pending[m]|;
      }
      forall k | k in seen ensures k.1 in pending {
        assert ListMatches(Model(), k.1);
      }
      assert counted == seen;
    }

    /** Builds a digest from every pending list, hands them over, and starts a new window. */
    method FlushLocked()
      modifies this
      ensures Model() == Flushed(old(Model()))
    {
      armed := false;
      if pending == map[] {
        return;
      }
      var digests := BuildBatch(pending);
      pending, seen := map[], {};
      sent := sent + [digests];
    }

    static method BuildBatch(pending: map<string, seq<Event>>) returns (digests: Batch)
      ensures digests == BatchOf(pending)
    {
      digests := map[];
      var todo := pending.Keys;
      while todo != {}
        invariant todo <= pending.Keys
        invariant digests == map m | m in BatchOf(pending) && m !in todo :: BatchOf(pending)[m]
      {
        var m :| m in todo;
        todo := todo - {m};
        var dg := BuildDigest(m, pending[m]);
        if !EmptyDigest(dg) {
          digests := digests[m := dg];
        }
      }
    }

    static method BuildDigest(m: string, evs: seq<Event>) returns (dg: Digest)
      ensures dg == DigestOf(m, evs)
    {
      var raised, cleared := [], [];
      for i := 0 to |evs|
        invariant raised == Select(evs[..i], OpenedEvent)
        invariant cleared == Select(evs[..i], ResolvedEvent)
      {
        assert evs[..i + 1][..i] == evs[..i];
        match evs[i].kind {
          case OpenedEvent => raised := raised + [evs[i].finding];
          case ResolvedEvent => cleared := cleared + [evs[i].finding];
        }
      }
      assert evs[..|evs|] == evs;
      var a := new Finding[|raised|](i requires 0 <= i < |raised| => raised[i]);
      assert a[..] == raised;
      SortBySeverity(a);
      dg := Digest(m, a[..], cleared);
    }
  }

  /** One channel, one digest: at most the configured number of attempts, stopping at the first that
      succeeds; outcome says how each attempt would go. */
  method SendWithRetry(retries: nat, outcome: nat -> bool) returns (attempts: nat, delivered: bool)
    ensures attempts <= retries
    ensures delivered <==> exists n: nat :: n < retries && outcome(n)
    ensures delivered ==> attempts > 0 && outcome(attempts - 1) && forall n: nat :: n < attempts - 1 ==> !outcome(n)
    ensures !delivered ==> attempts == retries
  {
    delivered := false;
    for attempt := 0 to retries
      invariant forall n: nat :: n < attempt ==> !outcome(n)
    {
      if outcome(attempt) {
        return attempt + 1, true;
      }
    }
    attempts := retries;
  }
}
