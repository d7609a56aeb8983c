/** Choosing among dictionary names and among version evidence: which entry a keyword search resolves to, and
    which applicability statement a finding may quote. */
module Dictionary {
  import opened Prelude
  import opened Cpe

  // ----- the dictionary -----

  datatype Entry = Entry(name: string, deprecated: bool)

  /** The lower-case product of a name, if the name parses. */
  type Products = string -> Option<string>

  /** From best to worst. */
  datatype Kind = ExactProduct | ContainingProduct | CurrentName | AnyName

  /** The product a name parses to, in lower case. */
  function ProductOf(name: string): Option<string> {
    match Parse(name)
    case Success(c) => Some(ToLower(c.product))
    case Failure(_) => None
  }

  predicate Qualifies(productOf: Products, e: Entry, want: string, kind: Kind) {
    && e.name != ""
    && match kind
       case ExactProduct =>
         !e.deprecated && want != "" && productOf(e.name) == Some(ToLower(want))
       case ContainingProduct =>
         !e.deprecated && want != "" && productOf(e.name).Some? && productOf(e.name) != Some(ToLower(want)) &&
         Contains(productOf(e.name).value, ToLower(want))
       case CurrentName => !e.deprecated
       case AnyName => true
  }

  /** The first of the first n entries that qualifies. */
  function FirstOf(productOf: Products, entries: seq<Entry>, want: string, kind: Kind, n: nat): Option<nat>
    requires n <= |entries|
  {
    if n == 0 then None
    else
      var before := FirstOf(productOf, entries, want, kind, n - 1);
      if before.Some? then before
      else if Qualifies(productOf, entries[n - 1], want, kind) then Some(n - 1)
      else None
  }

  lemma {:induction false} FirstOfFacts(productOf: Products, entries: seq<Entry>, want: string, kind: Kind, n: nat)
    requires n <= |entries|
    ensures match FirstOf(productOf, entries, want, kind, n)
      case Some(i) => i < n && Qualifies(productOf, entries[i], want, kind) &&
                      forall j :: 0 <= j < i ==> !Qualifies(productOf, entries[j], want, kind)
      case None => forall j :: 0 <= j < n ==> !Qualifies(productOf, entries[j], want, kind)
  {
    if n > 0 {
      FirstOfFacts(productOf, entries, want, kind, n - 1);
    }
  }

  function NameOf(productOf: Products, entries: seq<Entry>, want: string, kind: Kind, n: nat): string
    requires n <= |entries|
  {
    FirstOfFacts(productOf, entries, want, kind, n);
    match FirstOf(productOf, entries, want, kind, n)
    case Some(i) => entries[i].name
    case None => ""
  }

  method ParseTopCpe(productOf: Products, entries: seq<Entry>, want: string) returns (top: Option<string>)
    ensures top == BestName(productOf, entries, want)
  {
    var exact, partial, first := "", "", "";
    for n := 0 to |entries|
      invariant exact == NameOf(productOf, entries, want, ExactProduct, n)
      invariant partial == NameOf(productOf, entries, want, ContainingProduct, n)
      invariant first == NameOf(productOf, entries, want, AnyName, n)
    {
      NameNext(productOf, entries, want, ExactProduct, n);
      NameNext(productOf, entries, want, ContainingProduct, n);
      NameNext(productOf, entries, want, AnyName, n);
      var e := entries[n];
      if e.name == "" {
        continue;
      }
      if first == "" {
        first := e.name;
      }
      if e.deprecated {
        continue;
      }
      var product := productOf(e.name);
      if product.None? {
        continue;
      }
      if want != "" && product.value == ToLower(want) {
        if exact == "" {
          exact := e.name;
        }
      } else if want != "" && Contains(product.value, ToLower(want)) {
        if partial == "" {
          partial := e.name;
        }
      }
    }
    if exact != "" {
      return Some(exact);
    }
    if partial != "" {
      return Some(partial);
    }
    for n := 0 to |entries|
      invariant NameOf(productOf, entries, want, CurrentName, n) == ""
    {
      NameNext(productOf, entries, want, CurrentName, n);
      if !entries[n].deprecated && entries[n].name != "" {
        CurrentFound(productOf, entries, want, n, |entries|);
        return Some(entries[n].name);
      }
    }
    if first != "" {
      return Some(first);
    }
    return None;
  }

  /** The name found among n + 1 entries: the one found among n, or else the next entry's if it qualifies. */
  lemma NameNext(productOf: Products, entries: seq<Entry>, want: string, kind: Kind, n: nat)
    requires n < |entries|
    ensures NameOf(productOf, entries, want, kind, n + 1) == NextName(productOf, entries, want, kind, n)
  {
    FirstOfFacts(productOf, entries, want, kind, n);
  }

  function NextName(productOf: Products, entries: seq<Entry>, want: string, kind: Kind, n: nat): string
    requires n < |entries|
  {
    if NameOf(productOf, entries, want, kind, n) != "" then NameOf(productOf, entries, want, kind, n)
    else if Qualifies(productOf, entries[n], want, kind) then entries[n].name
    else ""
  }

  lemma {:induction false} CurrentFound(productOf: Products, entries: seq<Entry>, want: string, n: nat, m: nat)
    requires n < m <= |entries| && NameOf(productOf, entries, want, CurrentName, n) == ""
    requires Qualifies(productOf, entries[n], want, CurrentName)
    ensures NameOf(productOf, entries, want, CurrentName, m) == entries[n].name
  {
    NameNext(productOf, entries, want, CurrentName, m - 1);
    if n < m - 1 {
      CurrentFound(productOf, entries, want, n, m - 1);
    }
  }

  /** The first entry of the best kind that any entry qualifies for. */
  function BestName(productOf: Products, entries: seq<Entry>, want: string): Option<string> {
    var n := |entries|;
    var exact := NameOf(productOf, entries, want, ExactProduct, n);
    var partial := NameOf(productOf, entries, want, ContainingProduct, n);
    var current := NameOf(productOf, entries, want, CurrentName, n);
    var first := NameOf(productOf, entries, want, AnyName, n);
    if exact != "" then Some(exact)
    else if partial != "" then Some(partial)
    else if current != "" then Some(current)
    else if first != "" then Some(first)
    else None
  }

  /** Entry i is the one a search should resolve to: of the best kind on offer, and the first of that kind. */
  ghost predicate IsBest(productOf: Products, entries: seq<Entry>, want: string, i: nat, kind: Kind)
    requires i < |entries|
  {
    && Qualifies(productOf, entries[i], want, kind)
    && (forall j :: 0 <= j < i ==> !Qualifies(productOf, entries[j], want, kind))
    && (kind != ExactProduct ==>
          forall j :: 0 <= j < |entries| ==> !Qualifies(productOf, entries[j], want, ExactProduct))
    && (kind.CurrentName? || kind.AnyName? ==>
          forall j :: 0 <= j < |entries| ==> !Qualifies(productOf, entries[j], want, ContainingProduct))
    && (kind.AnyName? ==> forall j :: 0 <= j < |entries| ==> entries[j].name == "" || entries[j].deprecated)
  }

  /** The choice is a best entry; there is none only when nothing is named; and a deprecated name is chosen
      only when every named entry is deprecated. */
  lemma ChoiceIsBest(productOf: Products, entries: seq<Entry>, want: string)
    ensures match BestName(productOf, entries, want)
      case None => forall j :: 0 <= j < |entries| ==> entries[j].name == ""
      case Some(name) =>
        exists i, kind :: 0 <= i < |entries| && IsBest(productOf, entries, want, i, kind) && entries[i].name == name &&
          (entries[i].deprecated ==> forall j :: 0 <= j < |entries| ==> entries[j].name == "" || entries[j].deprecated)
  {
    var n := |entries|;
    FirstOfFacts(productOf, entries, want, ExactProduct, n);
    FirstOfFacts(productOf, entries, want, ContainingProduct, n);
    FirstOfFacts(productOf, entries, want, CurrentName, n);
    FirstOfFacts(productOf, entries, want, AnyName, n);
    if BestName(productOf, entries, want).Some? {
      var kind :=
        if NameOf(productOf, entries, want, ExactProduct, n) != "" then ExactProduct
        else if NameOf(productOf, entries, want, ContainingProduct, n) != "" then ContainingProduct
        else if NameOf(productOf, entries, want, CurrentName, n) != "" then CurrentName
        else AnyName;
      var i := FirstOf(productOf, entries, want, kind, n).value;
      assert IsBest(productOf, entries, want, i, kind);
    } else {
      forall j | 0 <= j < n ensures entries[j].name == "" {
        assert !Qualifies(productOf, entries[j], want, AnyName);
      }
    }
  }

  /** With the real parser, an exact entry is a current one whose product equals the wanted one but for case. */
  lemma ExactMeansSameProduct(e: Entry, want: string)
    ensures Qualifies(ProductOf, e, want, ExactProduct) <==>
            && e.name != "" && !e.deprecated && want != ""
            && Parse(e.name).Success? && EqualFold(Parse(e.name).value.product, want)
  {
  }

  // ----- version evidence -----

  datatype Match = Match(
    vulnerable: bool, criteria: string, startIncluding: string, endExcluding: string, endIncluding: string)

  datatype VersionInfo = VersionInfo(fixedIn: string, range: string, matched: string)

  predicate Unspecified(v: string) {
    v == "" || v == "*" || v == "-"
  }

  predicate EqField(a: string, b: string) {
    Unspecified(a) || Unspecified(b) || EqualFold(a, b)
  }

  predicate CriteriaIsTarget(criteria: string, target: CPE) {
    match Parse(criteria)
    case Failure(_) => false
    case Success(c) =>
      EqField(c.product, target.product) && EqField(c.part, target.part) && EqField(c.vendor, target.vendor)
  }

  function UpperBound(m: Match): string {
    if m.endExcluding != "" then "< " + m.endExcluding
    else if m.endIncluding != "" then "≤ " + m.endIncluding
    else ""
  }

  /** What one applicability statement says about versions. */
  function Described(m: Match): VersionInfo {
    var lower := if m.startIncluding != "" then "≥ " + m.startIncluding else "";
    VersionInfo(
      m.endExcluding,
      if lower != "" && UpperBound(m) != "" then lower + ", " + UpperBound(m) else lower + UpperBound(m),
      m.criteria)
  }

  predicate Applies(concerns: string -> bool, m: Match) {
    m.vulnerable && concerns(m.criteria)
  }

  /** The statements in reading order: by configuration, then node, then position. */
  function InNodes(nodes: seq<seq<Match>>): seq<Match> {
    if nodes == [] then [] else nodes[0] + InNodes(nodes[1..])
  }

  function InConfigs(configs: seq<seq<seq<Match>>>): seq<Match> {
    if configs == [] then [] else InNodes(configs[0]) + InConfigs(configs[1..])
  }

  /** The evidence from the first statement that applies, or none at all. */
  function Evidence(concerns: string -> bool, ms: seq<Match>): VersionInfo {
    if ms == [] then VersionInfo("", "", "")
    else if Applies(concerns, ms[0]) then Described(ms[0])
    else Evidence(concerns, ms[1..])
  }

  ghost predicate FirstApplies(concerns: string -> bool, ms: seq<Match>, i: nat) {
    i < |ms| && Applies(concerns, ms[i]) && forall j :: 0 <= j < i ==> !Applies(concerns, ms[j])
  }

  lemma {:induction false} EvidenceSkips(concerns: string -> bool, ms: seq<Match>, i: nat)
    requires i <= |ms| && forall j :: 0 <= j < i ==> !Applies(concerns, ms[j])
    ensures Evidence(concerns, ms) == Evidence(concerns, ms[i..])
  {
    if i > 0 {
      EvidenceSkips(concerns, ms, i - 1);
      assert ms[i - 1..][1..] == ms[i..];
    }
  }

  /** Evidence quotes the first vulnerable statement about the target, and is empty when no statement is. */
  lemma EvidenceIsFirst(concerns: string -> bool, ms: seq<Match>, i: nat)
    ensures FirstApplies(concerns, ms, i) ==> Evidence(concerns, ms) == Described(ms[i])
    ensures i == |ms| && (forall j :: 0 <= j < i ==> !Applies(concerns, ms[j])) ==>
            Evidence(concerns, ms) == VersionInfo("", "", "")
  {
    if i <= |ms| && forall j :: 0 <= j < i ==> !Applies(concerns, ms[j]) {
      EvidenceSkips(concerns, ms, i);
    }
  }

  lemma EvidenceNext(concerns: string -> bool, ms: seq<Match>, k: nat, rest: seq<Match>)
    requires k < |ms|
    ensures Evidence(concerns, ms[k..] + rest) ==
            if Applies(concerns, ms[k]) then Described(ms[k]) else Evidence(concerns, ms[k + 1..] + rest)
  {
    var all := ms[k..] + rest;
    assert all[0] == ms[k] && all[1..] == ms[k + 1..] + rest;
  }

  lemma NodesNext(nodes: seq<seq<Match>>, j: nat, later: seq<Match>)
    requires j < |nodes|
    ensures InNodes(nodes[j..]) + later == nodes[j][0..] + (InNodes(nodes[j + 1..]) + later)
  {
    assert nodes[j..][1..] == nodes[j + 1..];
    assert nodes[j][0..] == nodes[j];
  }

  lemma ConfigsNext(configs: seq<seq<seq<Match>>>, i: nat)
    requires i < |configs|
    ensures InConfigs(configs[i..]) == InNodes(configs[i][0..]) + InConfigs(configs[i + 1..])
  {
    assert configs[i..][1..] == configs[i + 1..];
    assert configs[i][0..] == configs[i];
  }

  lemma NothingBefore(ms: seq<Match>)
    ensures [] + ms == ms
  {
  }

  method FindVersionInfo(concerns: string -> bool, configs: seq<seq<seq<Match>>>) returns (info: VersionInfo)
    ensures info == Evidence(concerns, InConfigs(configs))
  {
    ghost var found := Evidence(concerns, InConfigs(configs));
    assert configs[0..] == configs;
    for i := 0 to |configs|
      invariant found == Evidence(concerns, InConfigs(configs[i..]))
    {
      var nodes := configs[i];
      ghost var later := InConfigs(configs[i + 1..]);
      ConfigsNext(configs, i);
      for j := 0 to |nodes|
        invariant found == Evidence(concerns, InNodes(nodes[j..]) + later)
      {
        var ms := nodes[j];
        ghost var rest := InNodes(nodes[j + 1..]) + later;
        NodesNext(nodes, j, later);
        for k := 0 to |ms|
          invariant found == Evidence(concerns, ms[k..] + rest)
        {
          EvidenceNext(concerns, ms, k, rest);
          if !ms[k].vulnerable || !concerns(ms[k].criteria) {
            continue;
          }
          return Described(ms[k]);
        }
        NothingBefore(rest);
      }
      NothingBefore(later);
    }
    return VersionInfo("", "", "");
  }

  // ----- evidence in plain terms -----

  /** The same up to case, or left open on one side. */
  predicate Agrees(a: string, b: string) {
    a in ["", "*", "-"] || b in ["", "*", "-"] || EqualFold(a, b)
  }

  /** The statement is vulnerable and its name agrees with the target in product, part and vendor. */
  predicate Quotable(m: Match, target: CPE) {
    && m.vulnerable
    && Parse(m.criteria).Success?
    && Agrees(Parse(m.criteria).value.product, target.product)
    && Agrees(Parse(m.criteria).value.part, target.part)
    && Agrees(Parse(m.criteria).value.vendor, target.vendor)
  }

  lemma AgreesMeans(a: string, b: string)
    ensures EqField(a, b) <==> Agrees(a, b)
  {
  }

  lemma QuotableApplies(m: Match, target: CPE)
    ensures Applies(text => CriteriaIsTarget(text, target), m) <==> Quotable(m, target)
  {
    if Parse(m.criteria).Success? {
      var c := Parse(m.criteria).value;
      AgreesMeans(c.product, target.product);
      AgreesMeans(c.part, target.part);
      AgreesMeans(c.vendor, target.vendor);
    }
  }

  /** The evidence quotes the first statement, and only a statement, that is vulnerable and agrees with the target in
      product, part and vendor; if there is none it is empty. */
  lemma QuotedEvidenceConcernsTarget(ms: seq<Match>, target: CPE)
    ensures var e := Evidence(text => CriteriaIsTarget(text, target), ms);
      || (e == VersionInfo("", "", "") && forall m <- ms :: !Quotable(m, target))
      || exists i :: 0 <= i < |ms| && e == Described(ms[i]) && e.matched == ms[i].criteria && Quotable(ms[i], target) &&
           forall j :: 0 <= j < i ==> !Quotable(ms[j], target)
  {
    var concerns := text => CriteriaIsTarget(text, target);
    var i := FirstApplying(concerns, ms);
    forall m ensures Applies(concerns, m) <==> Quotable(m, target) {
      QuotableApplies(m, target);
    }
    EvidenceIsFirst(concerns, ms, i);
    if i < |ms| {
      assert FirstApplies(concerns, ms, i);
    }
  }

  lemma {:induction false} FirstApplying(concerns: string -> bool, ms: seq<Match>) returns (i: nat)
    ensures i <= |ms| && forall j :: 0 <= j < i ==> !Applies(concerns, ms[j])
    ensures i < |ms| ==> Applies(concerns, ms[i])
  {
    i := 0;
    if ms != [] && !Applies(concerns, ms[0]) {
      var n := FirstApplying(concerns, ms[1..]);
      i := n + 1;
    }
  }

  /** The fixed version is the exclusive upper bound; the range names the lower bound, then the exclusive upper bound
      or else the inclusive one, as far as they are given. */
  lemma DescribedReads(m: Match)
    ensures Described(m).fixedIn == m.endExcluding && Described(m).matched == m.criteria
    ensures var from, range := m.startIncluding, Described(m).range;
      && (from != "" && m.endExcluding != "" ==> range == "≥ " + from + ", < " + m.endExcluding)
      && (from != "" && m.endExcluding == "" && m.endIncluding != "" ==>
            range == "≥ " + from + ", ≤ " + m.endIncluding)
      && (from != "" && m.endExcluding == "" && m.endIncluding == "" ==> range == "≥ " + from)
      && (from == "" && m.endExcluding != "" ==> range == "< " + m.endExcluding)
      && (from == "" && m.endExcluding == "" && m.endIncluding != "" ==> range == "≤ " + m.endIncluding)
      && (from == "" && m.endExcluding == "" && m.endIncluding == "" ==> range == "")
  {
    assert ", " + ("< " + m.endExcluding) == ", < " + m.endExcluding;
    assert ", " + ("≤ " + m.endIncluding) == ", ≤ " + m.endIncluding;
  }
}
