/** The finding table behind the engine, in its two forms: the in-memory map that replaces a whole
    record on every write, and the SQL table whose conflict clause rewrites only some columns. */
module Store {
  import opened Prelude
  import opened Core

  /** (module, fingerprint) */
  type Key = (string, string)

  datatype Record = Record(finding: Finding, absentStreak: int)

  type Table = map<Key, Record>

  datatype Backend = Memory | Sqlite

  function KeyOf(r: Record): Key {
    (r.finding.moduleId, r.finding.fingerprint)
  }

  ghost predicate Keyed(t: Table) {
    forall k <- t :: KeyOf(t[k]) == k
  }

  /** r with the columns a conflicting SQL write never touches taken from the row already there. */
  function KeepingImmutable(r: Record, row: Record): Record {
    r.(finding := r.finding.(
         id := row.finding.id,
         target := row.finding.target,
         check := row.finding.check,
         firstSeen := row.finding.firstSeen))
  }

  predicate SameIdentity(a: Record, b: Record) {
    && a.finding.id == b.finding.id
    && a.finding.firstSeen == b.finding.firstSeen
    && a.finding.target == b.finding.target
    && a.finding.check == b.finding.check
  }

  /** a and b differ at most in the columns SameIdentity compares. */
  predicate SameButIdentity(a: Record, b: Record) {
    && a.finding.fingerprint == b.finding.fingerprint
    && a.finding.moduleId == b.finding.moduleId
    && a.finding.title == b.finding.title
    && a.finding.severity == b.finding.severity
    && a.finding.status == b.finding.status
    && a.finding.remediation == b.finding.remediation
    && a.finding.evidence == b.finding.evidence
    && a.finding.groupId == b.finding.groupId
    && a.finding.lastSeen == b.finding.lastSeen
    && a.finding.resolvedAt == b.finding.resolvedAt
    && a.absentStreak == b.absentStreak
  }

  function Upserted(b: Backend, t: Table, r: Record): Table {
    var k := KeyOf(r);
    t[k := if b.Sqlite? && k in t then KeepingImmutable(r, t[k]) else r]
  }

  /** Resolved, with a resolution time before the cutoff. */
  predicate Prunable(r: Record, cutoff: int) {
    r.finding.status.Resolved? && r.finding.resolvedAt.Some? && r.finding.resolvedAt.value < cutoff
  }

  function Pruned(t: Table, cutoff: int): Table {
    map k | k in t && !Prunable(t[k], cutoff) :: t[k]
  }

  predicate OnTarget(t: Table, k: Key, moduleId: string, target: string) {
    k in t && k.0 == moduleId && t[k].finding.target == target
  }

  /** out lists the records of one module and target, each once, in some order. */
  ghost predicate Lists(out: seq<Record>, t: Table, moduleId: string, target: string) {
    && (forall i :: 0 <= i < |out| ==>
          var k := KeyOf(out[i]); OnTarget(t, k, moduleId, target) && t[k] == out[i])
    && (forall i, j :: 0 <= i < j < |out| ==> KeyOf(out[i]) != KeyOf(out[j]))
    && (forall k :: OnTarget(t, k, moduleId, target) ==> t[k] in out)
  }

  class FindingStore {
    const backend: Backend
    var table: Table

    ghost predicate Valid()
      reads this
    {
      Keyed(table)
    }

    constructor (backend: Backend)
      ensures Valid() && table == map[] && this.backend == backend
    {
      this.backend := backend;
      table := map[];
    }

    method ListByTarget(moduleId: string, target: string) returns (out: seq<Record>)
      requires Valid()
      ensures Lists(out, table, moduleId, target)
    {
      out := [];
      var todo := table.Keys;
      while todo != {}
        invariant todo <= table.Keys
        invariant forall i :: 0 <= i < |out| ==>
            var k := KeyOf(out[i]); k !in todo && OnTarget(table, k, moduleId, target) && table[k] == out[i]
        invariant forall i, j :: 0 <= i < j < |out| ==> KeyOf(out[i]) != KeyOf(out[j])
        invariant forall k :: OnTarget(table, k, moduleId, target) && k !in todo ==> table[k] in out
      {
        var k :| k in todo;
        todo := todo - {k};
        if k.0 == moduleId && table[k].finding.target == target {
          out := out + [table[k]];
        }
      }
    }

    /** Writes r under its key and touches no other record. The SQL form of the write, on a row that is already
        there, rewrites every column but the four of SameIdentity. */
    method Upsert(r: Record)
      requires Valid()
      modifies this
      ensures Valid()
      ensures table.Keys == old(table).Keys + {KeyOf(r)}
      ensures forall k <- old(table) :: k != KeyOf(r) ==> table[k] == old(table)[k]
      ensures backend.Memory? || KeyOf(r) !in old(table) ==> table[KeyOf(r)] == r
      ensures backend.Sqlite? && KeyOf(r) in old(table) ==>
        SameIdentity(table[KeyOf(r)], old(table)[KeyOf(r)]) && SameButIdentity(table[KeyOf(r)], r)
      ensures table == Upserted(backend, old(table), r)
    {
      var k := KeyOf(r);
      if backend.Memory? || k !in table {
        table := table[k := r];
      } else {
        var row, f := table[k], r.finding;
        table := table[k := Record(
          row.finding.(
            fingerprint := f.fingerprint, moduleId := f.moduleId, title := f.title, severity := f.severity,
            status := f.status, remediation := f.remediation, evidence := f.evidence, groupId := f.groupId,
            lastSeen := f.lastSeen, resolvedAt := f.resolvedAt),
          r.absentStreak)];
      }
    }

    method Get(moduleId: string, fingerprint: string) returns (r: Option<Record>)
      requires Valid()
      ensures r.Some? <==> (moduleId, fingerprint) in table
      ensures r.Some? ==> r.value == table[(moduleId, fingerprint)]
    {
      r := if (moduleId, fingerprint) in table then Some(table[(moduleId, fingerprint)]) else None;
    }

    /** Keeps, unchanged, every record that is not a resolved one with a resolution time before the cutoff. */
    method PruneResolvedBefore(cutoff: int) returns (removed: nat)
      requires Valid()
      modifies this
      ensures Valid()
      ensures forall k <- table :: k in old(table) && table[k] == old(table)[k]
      ensures forall k <- old(table) :: k in table <==>
        var f := old(table)[k].finding;
        f.status.Resolved? && f.resolvedAt.Some? ==> f.resolvedAt.value >= cutoff
      ensures removed == |old(table).Keys - table.Keys|
      ensures table == Pruned(old(table), cutoff)
    {
      var kept := map k | k in table && !Prunable(table[k], cutoff) :: table[k];
      var stale := table.Keys - kept.Keys;
      removed := |stale|;
      table := kept;
    }
  }
}
