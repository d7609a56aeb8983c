/** The normalised finding every collector produces, and the checks at the store's door. */
module Core {
  import opened Prelude

  /** The five known severities; any other text a collector may write is Unknown. */
  datatype Severity = Critical | High | Medium | Low | Info | Unknown(text: string) {
    function Rank(): int {
      match this
      case Critical => 4
      case High => 3
      case Medium => 2
      case Low => 1
      case Info => 0
      case Unknown(_) => -1
    }

    predicate Valid() {
      Rank() >= 0
    }
  }

  datatype Status = Open | Resolved | Acknowledged | Suppressed

  const MAX_EVIDENCE_BYTES: nat := 64 * 1024

  /** An evidence blob: its serialised form, or the fact that it has none, or one of the two markers
      that replace a blob the store will not take. */
  datatype Evidence =
    | NoEvidence
    | Json(text: string)
    | NotSerialisable(what: string)
    | ErrorMarker
    | TruncatedMarker(originalBytes: nat)

  /** The bytes a character takes in UTF-8. */
  function Utf8Width(c: char): nat {
    if c < '\U{80}' then 1 else if c < '\U{800}' then 2 else if c < '\U{10000}' then 3 else 4
  }

  function Utf8Size(text: string): (n: nat)
    ensures |text| <= n <= 4 * |text|
  {
    if text == "" then 0 else Utf8Size(text[..|text| - 1]) + Utf8Width(text[|text| - 1])
  }

  function CapEvidence(e: Evidence): Evidence {
    match e
    case NotSerialisable(_) => ErrorMarker
    case Json(text) => if Utf8Size(text) > MAX_EVIDENCE_BYTES then TruncatedMarker(Utf8Size(text)) else e
    case _ => e
  }

  datatype Finding = Finding(
    fingerprint: string,
    target: string,
    check: string,
    title: string,
    severity: Severity,
    remediation: string,
    evidence: Evidence,
    id: string,
    moduleId: string,
    status: Status,
    groupId: Option<string>,
    firstSeen: int,
    lastSeen: int,
    resolvedAt: Option<int>)

  datatype Field = FingerprintField | TargetField | CheckField | TitleField | RemediationField | SeverityField

  /** The first required field that is missing or malformed, in the order they are checked. */
  function ValidateForIngest(f: Finding): Option<Field> {
    if f.fingerprint == "" then Some(FingerprintField)
    else if f.target == "" then Some(TargetField)
    else if f.check == "" then Some(CheckField)
    else if f.title == "" then Some(TitleField)
    else if f.remediation == "" then Some(RemediationField)
    else if !f.severity.Valid() then Some(SeverityField)
    else None
  }

  predicate Ingestible(f: Finding) {
    ValidateForIngest(f).None?
  }

  function Capped(f: Finding): Finding {
    f.(evidence := CapEvidence(f.evidence))
  }

  datatype ModuleInfo = ModuleInfo(id: string, resolveAfter: int) {
    /** Consecutive absent scans before a finding resolves itself. */
    function ResolveAfterOrDefault(): (n: int)
      ensures n >= 1 && n >= resolveAfter && (n == 1 || n == resolveAfter)
    {
      if resolveAfter < 1 then 1 else resolveAfter
    }
  }

  /** What the fingerprint hash is taken over. */
  function FingerprintPreimage(moduleId: string, target: string, check: string, discriminator: string): string {
    moduleId + "|" + target + "|" + check + "|" + discriminator
  }

  // ----- what ingest asks for and keeps -----

  /** The fields checked, in order. */
  const REQUIRED: seq<Field> :=
    [FingerprintField, TargetField, CheckField, TitleField, RemediationField, SeverityField]

  predicate Malformed(f: Finding, field: Field) {
    match field
    case FingerprintField => f.fingerprint == ""
    case TargetField => f.target == ""
    case CheckField => f.check == ""
    case TitleField => f.title == ""
    case RemediationField => f.remediation == ""
    case SeverityField => f.severity.Unknown?
  }

  /** A finding is refused exactly when some field is malformed, and for the first such field. */
  lemma ValidationNamesFirst(f: Finding)
    ensures match ValidateForIngest(f)
      case None => forall field :: !Malformed(f, field)
      case Some(field) =>
        exists i :: 0 <= i < |REQUIRED| && REQUIRED[i] == field && Malformed(f, field) &&
          forall j :: 0 <= j < i ==> !Malformed(f, REQUIRED[j])
  {
    var i :=
      if f.fingerprint == "" then 0 else if f.target == "" then 1 else if f.check == "" then 2
      else if f.title == "" then 3 else if f.remediation == "" then 4 else 5;
    if ValidateForIngest(f).Some? {
      assert REQUIRED[i] == ValidateForIngest(f).value;
    }
  }

  /** The known severities are ranked from critical down to informational, and anything unknown is below them all. */
  lemma RankOrdersSeverities(text: string)
    ensures Critical.Rank() > High.Rank() > Medium.Rank() > Low.Rank() > Info.Rank() > Unknown(text).Rank()
  {
  }

  /** What is stored for reported evidence: itself up to 64 KiB, otherwise a marker with its size, or a marker that it
      has no serialised form. */
  predicate KeepsEvidence(stored: Evidence, reported: Evidence) {
    && (reported.NoEvidence? ==> stored == reported)
    && (reported.Json? && Utf8Size(reported.text) <= 65536 ==> stored == reported)
    && (reported.Json? && Utf8Size(reported.text) > 65536 ==> stored == TruncatedMarker(Utf8Size(reported.text)))
    && (reported.NotSerialisable? ==> stored == ErrorMarker)
  }

  lemma CappedEvidence(e: Evidence)
    ensures KeepsEvidence(CapEvidence(e), e)
  {
  }

  /** The code points a UTF-8 sequence of so many bytes can hold. */
  function Utf8Capacity(bytes: nat): nat {
    match bytes
    case 1 => 0x80
    case 2 => 0x800
    case 3 => 0x10000
    case 4 => 0x110000
    case _ => 0
  }

  /** A character takes the fewest bytes that can hold it. */
  lemma Utf8WidthIsLeast(c: char)
    ensures 1 <= Utf8Width(c) <= 4 && c as int < Utf8Capacity(Utf8Width(c))
    ensures forall n: nat :: n < Utf8Width(c) ==> c as int >= Utf8Capacity(n)
  {
  }
}
