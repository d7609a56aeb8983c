/** The evidence sanitiser: a bounded copy of a nested value with no secret-like key anywhere in it. */
module Evidence {
  import opened Prelude

  const MAX_KEYS: nat := 24
  const MAX_STRING: nat := 400
  const MAX_LIST: nat := 12
  const MAX_DEPTH: nat := 3

  const MARKERS: seq<string> := [
    "password", "passwd", "passphrase", "secret", "token", "apikey", "api_key", "api-key", "private",
    "credential", "cookie", "session", "authorization", "bearer", "license_key", "licence_key", "signature"]

  const TOO_DEEP := "[omitted: nested too deep]"
  const UNSERIALISABLE := "[omitted: not serialisable]"

  /** An evidence value. Custom is any product-specific type, with what it reads as after a trip through
      JSON, or nothing when that trip fails. */
  datatype Value =
    | Scalar(text: string)
    | Text(chars: string)
    | Object(fields: map<string, Value>)
    | List(items: seq<Value>)
    | TextList(texts: seq<string>)
    | Custom(decoded: Option<Value>)

  // ----- order of keys -----

  lemma {:induction false} BeforeIsTotal(a: string, b: string)
    ensures Before(a, b) || a == b || Before(b, a)
    ensures !(Before(a, b) && Before(b, a)) && (a == b ==> !Before(a, b))
  {
    if a != "" && b != "" {
      BeforeIsTotal(a[1..], b[1..]);
      assert a == [a[0]] + a[1..] && b == [b[0]] + b[1..];
    }
  }

  lemma {:induction false} BeforeIsTransitive(a: string, b: string, c: string)
    requires Before(a, b) && Before(b, c)
    ensures Before(a, c)
  {
    if a != "" && a[0] == b[0] && b[0] == c[0] {
      BeforeIsTransitive(a[1..], b[1..], c[1..]);
    }
  }

  function Predecessors(keys: set<string>, k: string): set<string> {
    set j | j in keys && Before(j, k)
  }

  /** The first n keys in text order: those with fewer than n keys before them. */
  function First(keys: set<string>, n: nat): set<string> {
    set k | k in keys && |Predecessors(keys, k)| < n
  }

  lemma {:induction false} LastKey(keys: set<string>) returns (last: string)
    requires keys != {}
    ensures last in keys && forall k <- keys :: k != last ==> Before(k, last)
    decreases |keys|
  {
    var x :| x in keys;
    var rest := keys - {x};
    last := x;
    if rest != {} {
      var y := LastKey(rest);
      BeforeIsTotal(x, y);
      if Before(x, y) {
        last := y;
      } else {
        forall k | k in keys && k != x ensures Before(k, x) {
          if k != y {
            BeforeIsTransitive(k, y, x);
          }
        }
      }
    }
  }

  lemma FirstWithLast(keys: set<string>, last: string, n: nat)
    requires last in keys && forall k <- keys :: k != last ==> Before(k, last)
    ensures First(keys, n) == First(keys - {last}, n) + if |keys| - 1 < n then {last} else {}
  {
    var rest := keys - {last};
    BeforeIsTotal(last, last);
    assert Predecessors(keys, last) == rest;
    forall k | k in rest ensures Predecessors(keys, k) == Predecessors(rest, k) {
      BeforeIsTotal(k, last);
    }
  }

  lemma {:induction false} FirstSize(keys: set<string>, n: nat)
    ensures |First(keys, n)| == if |keys| < n then |keys| else n
    decreases |keys|
  {
    if keys != {} {
      var last := LastKey(keys);
      var rest := keys - {last};
      FirstSize(rest, n);
      FirstWithLast(keys, last, n);
      if |keys| - 1 < n {
        assert last !in First(rest, n);
        assert |First(rest, n) + {last}| == |First(rest, n)| + 1;
      }
    }
  }

  lemma FirstPrecedes(keys: set<string>, n: nat, k: string, j: string)
    requires k in First(keys, n) && j in keys - First(keys, n)
    ensures Before(k, j)
  {
    BeforeIsTotal(k, j);
    if Before(j, k) {
      forall i | i in Predecessors(keys, j) ensures i in Predecessors(keys, k) {
        BeforeIsTransitive(i, j, k);
      }
      SubsetSize(Predecessors(keys, j), Predecessors(keys, k));
    }
  }

  lemma SubsetSize(a: set<string>, b: set<string>)
    requires a <= b
    ensures |a| <= |b|
  {
    assert b == a + (b - a);
    assert |b| == |a| + |b - a|;
  }

  /** First keeps n keys, or all of them if there are fewer, and each it keeps precedes each it drops. */
  lemma FirstIsPrefix(keys: set<string>, n: nat)
    ensures First(keys, n) <= keys
    ensures |First(keys, n)| == if |keys| < n then |keys| else n
    ensures forall k, j :: k in First(keys, n) && j in keys - First(keys, n) ==> Before(k, j)
  {
    FirstSize(keys, n);
    forall k, j | k in First(keys, n) && j in keys - First(keys, n) ensures Before(k, j) {
      FirstPrecedes(keys, n, k, j);
    }
  }

  lemma FewKeysAllFirst(keys: set<string>, n: nat)
    requires |keys| <= n
    ensures First(keys, n) == keys
  {
    FirstIsPrefix(keys, n);
    SubsetOfSameSize(First(keys, n), keys);
  }

  lemma SubsetOfSameSize(a: set<string>, b: set<string>)
    requires a <= b && |a| == |b|
    ensures a == b
  {
    assert b == a + (b - a);
    assert |b| == |a| + |b - a|;
  }

  // ----- the sanitiser -----

  predicate IsSecretKey(k: string) {
    exists m <- MARKERS :: Contains(ToLower(k), m)
  }

  function OpenKeys(fields: map<string, Value>): set<string> {
    set k | k in fields && !IsSecretKey(k)
  }

  /** The keys of a map that survive: the first 24 of those that are not secret-like. */
  function KeptKeys(fields: map<string, Value>): set<string> {
    First(OpenKeys(fields), MAX_KEYS)
  }

  function Truncated(s: string, n: nat): string {
    if |s| <= n then s else s[..n] + "…"
  }

  function Shortened(s: string): Value {
    Text(Truncated(s, MAX_STRING))
  }

  function Take(n: nat): nat {
    if n > MAX_LIST then MAX_LIST else n
  }

  function Sanitized(v: Value, depth: nat): Value
    decreases v
  {
    match v
    case Scalar(_) => v
    case Text(s) => Shortened(s)
    case Object(fields) =>
      if depth >= MAX_DEPTH then Text(TOO_DEEP)
      else Object(map k | k in fields && k in KeptKeys(fields) :: Sanitized(fields[k], depth + 1))
    case List(items) =>
      if depth >= MAX_DEPTH then Text(TOO_DEEP)
      else List(seq(Take(|items|), i requires 0 <= i < Take(|items|) => Sanitized(items[i], depth + 1)))
    case TextList(texts) => List(seq(Take(|texts|), i requires 0 <= i < Take(|texts|) => Shortened(texts[i])))
    case Custom(None) => Text(UNSERIALISABLE)
    case Custom(Some(w)) => Sanitized(w, depth)
  }

  /** The whole evidence map, whose values are at depth 1. */
  function SanitizedEvidence(fields: map<string, Value>): map<string, Value> {
    map k | k in fields && k in KeptKeys(fields) :: Sanitized(fields[k], 1)
  }

  // ----- what the output is -----

  /** No secret-like key, no long text, no large map or list, and no list of texts or custom type, at any depth. */
  predicate Clean(v: Value) {
    match v
    case Scalar(_) => true
    case Text(s) => |s| <= MAX_STRING + 1
    case Object(fields) => |fields| <= MAX_KEYS && forall k <- fields :: !IsSecretKey(k) && Clean(fields[k])
    case List(items) => |items| <= MAX_LIST && forall i :: 0 <= i < |items| ==> Clean(items[i])
    case _ => false
  }

  lemma KeptFacts(fields: map<string, Value>)
    ensures KeptKeys(fields) <= fields.Keys && |KeptKeys(fields)| <= MAX_KEYS
    ensures forall k <- KeptKeys(fields) :: !IsSecretKey(k)
  {
    FirstIsPrefix(OpenKeys(fields), MAX_KEYS);
  }

  lemma {:induction false} SanitizedIsClean(v: Value, depth: nat)
    ensures Clean(Sanitized(v, depth))
    decreases v
  {
    match v
    case Object(fields) =>
      if depth < MAX_DEPTH {
        var out := Sanitized(v, depth).fields;
        KeptFacts(fields);
        assert out.Keys == KeptKeys(fields);
        forall k | k in out ensures !IsSecretKey(k) && Clean(out[k]) {
          SanitizedIsClean(fields[k], depth + 1);
        }
      }
    case List(items) =>
      if depth < MAX_DEPTH {
        forall i | 0 <= i < Take(|items|) ensures Clean(Sanitized(items[i], depth + 1)) {
          SanitizedIsClean(items[i], depth + 1);
        }
      }
    case Custom(Some(w)) => SanitizedIsClean(w, depth);
    case _ =>
  }

  /** Containers nest at most n deep in v. */
  predicate NestsAtMost(v: Value, n: nat) {
    match v
    case Object(fields) => n > 0 && forall k <- fields :: NestsAtMost(fields[k], n - 1)
    case List(items) => n > 0 && forall i :: 0 <= i < |items| ==> NestsAtMost(items[i], n - 1)
    case TextList(_) => n > 0
    case Custom(Some(w)) => NestsAtMost(w, n)
    case _ => true
  }

  /** A list of texts survives at the deepest level or beyond, where other containers are cut off. */
  predicate DeepTextList(v: Value, depth: nat)
    decreases v
  {
    match v
    case TextList(_) => depth >= MAX_DEPTH
    case Object(fields) =>
      depth < MAX_DEPTH && exists k <- fields :: k in KeptKeys(fields) && DeepTextList(fields[k], depth + 1)
    case List(items) =>
      depth < MAX_DEPTH && exists i :: 0 <= i < Take(|items|) && DeepTextList(items[i], depth + 1)
    case Custom(Some(w)) => DeepTextList(w, depth)
    case _ => false
  }

  /** Levels of containers left at a depth. */
  function LevelsLeft(depth: nat): nat {
    if depth >= MAX_DEPTH then 0 else MAX_DEPTH - depth
  }

  lemma {:induction false} SanitizedNesting(v: Value, depth: nat)
    ensures NestsAtMost(Sanitized(v, depth), LevelsLeft(depth) + 1)
    ensures !DeepTextList(v, depth) ==> NestsAtMost(Sanitized(v, depth), LevelsLeft(depth))
    decreases v
  {
    match v
    case Object(fields) =>
      if depth < MAX_DEPTH {
        forall k | k in fields && k in KeptKeys(fields)
          ensures NestsAtMost(Sanitized(fields[k], depth + 1), LevelsLeft(depth))
          ensures !DeepTextList(fields[k], depth + 1) ==>
            NestsAtMost(Sanitized(fields[k], depth + 1), LevelsLeft(depth) - 1)
        {
          SanitizedNesting(fields[k], depth + 1);
        }
      }
    case List(items) =>
      if depth < MAX_DEPTH {
        forall i | 0 <= i < Take(|items|)
          ensures NestsAtMost(Sanitized(items[i], depth + 1), LevelsLeft(depth))
          ensures !DeepTextList(items[i], depth + 1) ==>
            NestsAtMost(Sanitized(items[i], depth + 1), LevelsLeft(depth) - 1)
        {
          SanitizedNesting(items[i], depth + 1);
        }
      }
    case Custom(Some(w)) => SanitizedNesting(w, depth);
    case _ =>
  }

  lemma TruncatedTwice(s: string)
    ensures Truncated(Truncated(s, MAX_STRING), MAX_STRING) == Truncated(s, MAX_STRING)
  {
    if |s| > MAX_STRING {
      assert Truncated(s, MAX_STRING)[..MAX_STRING] == s[..MAX_STRING];
    }
  }

  lemma MarkersAreShort()
    ensures |TOO_DEEP| <= MAX_STRING && |UNSERIALISABLE| <= MAX_STRING
  {
  }

  lemma KeptOfKept(fields: map<string, Value>, out: map<string, Value>)
    requires out.Keys == KeptKeys(fields)
    ensures KeptKeys(out) == out.Keys
  {
    KeptFacts(fields);
    assert OpenKeys(out) == out.Keys;
    FewKeysAllFirst(out.Keys, MAX_KEYS);
  }

  lemma SanitizedObject(fields: map<string, Value>, depth: nat)
    requires depth < MAX_DEPTH
    ensures var out := Sanitized(Object(fields), depth);
      && out.Object?
      && out.fields.Keys == KeptKeys(fields)
      && forall k <- KeptKeys(fields) :: out.fields[k] == Sanitized(fields[k], depth + 1)
  {
    KeptFacts(fields);
  }

  lemma IdempotentObject(fields: map<string, Value>, depth: nat)
    requires depth < MAX_DEPTH
    ensures var out := Sanitized(Object(fields), depth);
      Sanitized(out, depth) == out <==>
      forall k <- fields :: k in KeptKeys(fields) ==>
        Sanitized(Sanitized(fields[k], depth + 1), depth + 1) == Sanitized(fields[k], depth + 1)
  {
    var out := Sanitized(Object(fields), depth);
    var again := Sanitized(out, depth);
    SanitizedObject(fields, depth);
    SanitizedObject(out.fields, depth);
    KeptFacts(fields);
    KeptOfKept(fields, out.fields);
    assert again == out <==> forall k <- out.fields :: again.fields[k] == out.fields[k];
  }

  lemma IdempotentList(items: seq<Value>, depth: nat)
    requires depth < MAX_DEPTH
    ensures var out := Sanitized(List(items), depth);
      Sanitized(out, depth) == out <==>
      forall i :: 0 <= i < Take(|items|) ==>
        Sanitized(Sanitized(items[i], depth + 1), depth + 1) == Sanitized(items[i], depth + 1)
  {
    var out := Sanitized(List(items), depth).items;
    var again := Sanitized(List(out), depth).items;
    assert |again| == |out| == Take(|items|);
    assert forall i :: 0 <= i < |out| ==>
      again[i] == Sanitized(out[i], depth + 1) && out[i] == Sanitized(items[i], depth + 1);
    assert again == out <==> forall i :: 0 <= i < |out| ==> again[i] == out[i];
  }

  lemma IdempotentTextList(texts: seq<string>, depth: nat)
    ensures var out := Sanitized(TextList(texts), depth); Sanitized(out, depth) == out <==> depth < MAX_DEPTH
  {
    if depth < MAX_DEPTH {
      var out := Sanitized(TextList(texts), depth).items;
      var again := Sanitized(List(out), depth).items;
      forall i | 0 <= i < |out| ensures again[i] == out[i] {
        TruncatedTwice(texts[i]);
        assert out[i] == Shortened(texts[i]) && again[i] == Sanitized(out[i], depth + 1);
      }
      assert again == out;
    }
  }

  /** Sanitising a sanitised value changes nothing, if and only if no list of texts survived at or below the
      depth limit. */
  lemma {:induction false} SanitizedTwice(v: Value, depth: nat)
    ensures Sanitized(Sanitized(v, depth), depth) == Sanitized(v, depth) <==> !DeepTextList(v, depth)
    decreases v
  {
    MarkersAreShort();
    match v
    case Scalar(_) =>
    case Text(s) => TruncatedTwice(s);
    case Object(fields) =>
      if depth < MAX_DEPTH {
        IdempotentObject(fields, depth);
        forall k | k in fields && k in KeptKeys(fields)
          ensures Sanitized(Sanitized(fields[k], depth + 1), depth + 1) == Sanitized(fields[k], depth + 1) <==>
                  !DeepTextList(fields[k], depth + 1)
        {
          SanitizedTwice(fields[k], depth + 1);
        }
      }
    case List(items) =>
      if depth < MAX_DEPTH {
        IdempotentList(items, depth);
        forall i | 0 <= i < Take(|items|)
          ensures Sanitized(Sanitized(items[i], depth + 1), depth + 1) == Sanitized(items[i], depth + 1) <==>
                  !DeepTextList(items[i], depth + 1)
        {
          SanitizedTwice(items[i], depth + 1);
        }
      }
    case TextList(texts) => IdempotentTextList(texts, depth);
    case Custom(None) =>
    case Custom(Some(w)) => SanitizedTwice(w, depth);
  }

  /** Sanitising a whole evidence map twice is sanitising it once, if and only if no list of texts survives at or
      below the depth limit under a kept key. */
  lemma SanitizedEvidenceTwice(fields: map<string, Value>)
    ensures SanitizedEvidence(SanitizedEvidence(fields)) == SanitizedEvidence(fields) <==>
            forall k <- fields :: k in KeptKeys(fields) ==> !DeepTextList(fields[k], 1)
  {
    SanitizedTwice(Object(fields), 0);
    EvidenceIsObject(fields);
    EvidenceIsObject(SanitizedEvidence(fields));
  }

  lemma EvidenceIsObject(fields: map<string, Value>)
    ensures Sanitized(Object(fields), 0) == Object(SanitizedEvidence(fields))
  {
  }

  lemma {:induction false} ContainedIsShorter(s: string, sub: string)
    requires Contains(s, sub)
    ensures |sub| <= |s|
  {
    if !(sub <= s) {
      ContainedIsShorter(s[1..], sub);
    }
  }

  lemma MarkersAreLong(m: string)
    requires m in MARKERS
    ensures |m| >= 5
  {
  }

  lemma ShortKeyIsKept(k: string, v: Value)
    requires |k| < 5
    ensures k in KeptKeys(map[k := v])
  {
    if IsSecretKey(k) {
      var m :| m in MARKERS && Contains(ToLower(k), m);
      MarkersAreLong(m);
      ContainedIsShorter(ToLower(k), m);
      assert false;
    }
    assert OpenKeys(map[k := v]) == {k};
    FewKeysAllFirst({k}, MAX_KEYS);
  }

  /** A list of texts three maps down: sanitised once it is a list at the fourth level, sanitised twice it is cut
      off. */
  lemma DeepTextsAreCutOffLater(texts: seq<string>)
    ensures var fields := map["a" := Object(map["b" := Object(map["c" := TextList(texts)])])];
      SanitizedEvidence(SanitizedEvidence(fields)) != SanitizedEvidence(fields)
  {
    var c := map["c" := TextList(texts)];
    var b := map["b" := Object(c)];
    var fields := map["a" := Object(b)];
    ShortKeyIsKept("c", TextList(texts));
    ShortKeyIsKept("b", Object(c));
    ShortKeyIsKept("a", Object(b));
    assert DeepTextList(c["c"], 3);
    assert DeepTextList(b["b"], 2);
    assert DeepTextList(fields["a"], 1);
    SanitizedEvidenceTwice(fields);
  }

  /** The whole result: exactly the first 24 non-secret keys, nothing unclean below them, and containers at
      most three deep, or four where a list of texts sits at the deepest level. */
  lemma SanitizedEvidenceIsBounded(fields: map<string, Value>)
    ensures var out := SanitizedEvidence(fields);
      var open := OpenKeys(fields);
      && out.Keys == First(open, MAX_KEYS)
      && |out| == (if |open| < MAX_KEYS then |open| else MAX_KEYS)
      && (forall k, j :: k in out && j in open - out.Keys ==> Before(k, j))
      && Clean(Object(out))
      && NestsAtMost(Object(out), 4)
      && ((forall k <- out :: !DeepTextList(fields[k], 1)) ==> NestsAtMost(Object(out), 3))
  {
    var out := SanitizedEvidence(fields);
    KeptFacts(fields);
    assert out.Keys == KeptKeys(fields);
    FirstIsPrefix(OpenKeys(fields), MAX_KEYS);
    forall k | k in out
      ensures Clean(out[k]) && NestsAtMost(out[k], 3)
      ensures !DeepTextList(fields[k], 1) ==> NestsAtMost(out[k], 2)
    {
      SanitizedIsClean(fields[k], 1);
      SanitizedNesting(fields[k], 1);
    }
  }

  // ----- the loops -----

  ghost predicate Ascending(s: seq<string>) {
    forall i, j :: 0 <= i < j < |s| ==> Before(s[i], s[j])
  }

  /** Sorts distinct keys into text order. */
  method SortStrings(keys: seq<string>) returns (sorted: seq<string>)
    requires forall i, j :: 0 <= i < j < |keys| ==> keys[i] != keys[j]
    ensures Ascending(sorted) && Elements(sorted) == Elements(keys)
  {
    sorted := [];
    for n := 0 to |keys|
      invariant Ascending(sorted) && Elements(sorted) == Elements(keys[..n])
    {
      var k := keys[n];
      assert keys[..n + 1] == keys[..n] + [k];
      assert k !in Elements(keys[..n]);
      sorted := InsertInto(sorted, k);
    }
    assert keys[..|keys|] == keys;
  }

  method InsertInto(sorted: seq<string>, k: string) returns (r: seq<string>)
    requires Ascending(sorted) && k !in sorted
    ensures Ascending(r) && Elements(r) == Elements(sorted) + {k}
  {
    var i := 0;
    while i < |sorted| && Before(sorted[i], k)
      invariant 0 <= i <= |sorted|
      invariant forall j :: 0 <= j < i ==> Before(sorted[j], k)
    {
      i := i + 1;
    }
    r := sorted[..i] + [k] + sorted[i..];
    forall j | i <= j < |sorted| ensures Before(k, sorted[j]) {
      BeforeIsTotal(sorted[i], k);
      if j > i {
        BeforeIsTransitive(k, sorted[i], sorted[j]);
      }
    }
  }

  /** In an ascending sequence the first n keys are a prefix. */
  lemma PrefixIsFirst(sorted: seq<string>, n: nat)
    requires Ascending(sorted)
    ensures First(Elements(sorted), n) == Elements(if |sorted| > n then sorted[..n] else sorted)
  {
    forall i | 0 <= i < |sorted| ensures |Predecessors(Elements(sorted), sorted[i])| == i {
      RankInSorted(sorted, i);
    }
    var p := if |sorted| > n then sorted[..n] else sorted;
    forall k ensures k in First(Elements(sorted), n) <==> k in Elements(p) {
      if k in sorted {
        var i :| 0 <= i < |sorted| && sorted[i] == k;
        if k in p {
          var j :| 0 <= j < |p| && p[j] == k;
          assert sorted[j] == k;
        }
        if i < n {
          assert p[i] == k;
        }
      }
    }
  }

  lemma RankInSorted(sorted: seq<string>, i: nat)
    requires Ascending(sorted) && i < |sorted|
    ensures |Predecessors(Elements(sorted), sorted[i])| == i
  {
    forall j | 0 <= j < |sorted| ensures Before(sorted[j], sorted[i]) <==> j < i {
      BeforeIsTotal(sorted[j], sorted[i]);
    }
    assert Predecessors(Elements(sorted), sorted[i]) == Elements(sorted[..i]);
    DistinctSize(sorted[..i]);
  }

  lemma {:induction false} DistinctSize(s: seq<string>)
    requires Ascending(s)
    ensures |Elements(s)| == |s|
  {
    if s != [] {
      var p, k := s[..|s| - 1], s[|s| - 1];
      DistinctSize(p);
      BeforeIsTotal(k, k);
      assert k !in p;
      assert s == p + [k];
      assert Elements(s) == Elements(p) + {k};
    }
  }

  /** The non-secret keys, in no particular order. */
  method CollectKeys(fields: map<string, Value>) returns (keys: seq<string>)
    ensures forall i, j :: 0 <= i < j < |keys| ==> keys[i] != keys[j]
    ensures Elements(keys) == OpenKeys(fields)
  {
    keys := [];
    var todo := fields.Keys;
    while todo != {}
      invariant todo <= fields.Keys
      invariant forall i, j :: 0 <= i < j < |keys| ==> keys[i] != keys[j]
      invariant Elements(keys) == set k | k in fields && k !in todo && !IsSecretKey(k)
    {
      var k :| k in todo;
      todo := todo - {k};
      if IsSecretKey(k) {
        continue;
      }
      assert k !in Elements(keys);
      assert Elements(keys + [k]) == Elements(keys) + {k};
      keys := keys + [k];
    }
  }

  method ChooseKeys(fields: map<string, Value>) returns (keys: seq<string>)
    ensures Elements(keys) == KeptKeys(fields)
  {
    keys := CollectKeys(fields);
    keys := SortStrings(keys);
    PrefixIsFirst(keys, MAX_KEYS);
    if |keys| > MAX_KEYS {
      keys := keys[..MAX_KEYS];
    }
  }

  method SanitizeMap(fields: map<string, Value>, depth: nat) returns (out: map<string, Value>)
    ensures out == map k | k in fields && k in KeptKeys(fields) :: Sanitized(fields[k], depth)
    decreases Object(fields), 0
  {
    var keys := ChooseKeys(fields);
    KeptFacts(fields);
    assert forall i :: 0 <= i < |keys| ==> keys[i] in Elements(keys);
    out := map[];
    for i := 0 to |keys|
      invariant out.Keys == Elements(keys[..i])
      invariant forall k <- out :: k in fields && out[k] == Sanitized(fields[k], depth)
    {
      assert keys[..i + 1] == keys[..i] + [keys[i]];
      var v := SanitizeValue(fields[keys[i]], depth);
      out := out[keys[i] := v];
    }
    assert keys[..|keys|] == keys;
  }

  method SanitizeValue(v: Value, depth: nat) returns (out: Value)
    ensures out == Sanitized(v, depth)
    decreases v, 1
  {
    match v {
      case Scalar(_) => out := v;
      case Text(s) => out := Shortened(s);
      case Object(fields) =>
        if depth >= MAX_DEPTH {
          return Text(TOO_DEEP);
        }
        var m := SanitizeMap(fields, depth + 1);
        out := Object(m);
      case List(items) =>
        if depth >= MAX_DEPTH {
          return Text(TOO_DEEP);
        }
        var kept := [];
        for i := 0 to Take(|items|)
          invariant kept == seq(i, j requires 0 <= j < i => Sanitized(items[j], depth + 1))
        {
          var w := SanitizeValue(items[i], depth + 1);
          kept := kept + [w];
        }
        out := List(kept);
      case TextList(texts) =>
        var kept := [];
        for i := 0 to Take(|texts|)
          invariant kept == seq(i, j requires 0 <= j < i => Shortened(texts[j]))
        {
          kept := kept + [Shortened(texts[i])];
        }
        out := List(kept);
      case Custom(None) => out := Text(UNSERIALISABLE);
      case Custom(Some(w)) => out := SanitizeValue(w, depth);
    }
  }

  method SanitizeEvidence(fields: map<string, Value>) returns (out: map<string, Value>)
    ensures out == SanitizedEvidence(fields)
  {
    out := SanitizeMap(fields, 1);
  }

  // ----- the sanitiser in plain terms -----

  ghost predicate Around(k: string, a: string, w: string, b: string, m: string) {
    k == a + w + b && EqualFold(w, m)
  }

  /** Somewhere in k one of the marker words is written, in whatever case. */
  ghost predicate NamesSecret(k: string) {
    exists a, w, b, m :: m in MARKERS && Around(k, a, w, b, m)
  }

  lemma LowerSlice(k: string, i: nat, j: nat)
    requires i <= j <= |k|
    ensures ToLower(k)[i..j] == ToLower(k[i..j])
  {
  }

  lemma MarkersAreLower(m: string)
    requires m in MARKERS
    ensures ToLower(m) == m
  {
    assert forall i :: 0 <= i < |m| ==> !('A' <= m[i] <= 'Z');
    assert forall i :: 0 <= i < |m| ==> ToLower(m)[i] == m[i];
  }

  lemma WordContained(k: string, a: string, w: string, b: string, m: string)
    requires m in MARKERS && Around(k, a, w, b, m)
    ensures Contains(ToLower(k), m)
  {
    assert k[|a|..|a| + |w|] == w;
    LowerSlice(k, |a|, |a| + |w|);
    MarkersAreLower(m);
    assert |w| == |m| by {
      EqualFoldMeans(w, m);
    }
    assert OccursAt(ToLower(k), m, |a|);
    OccurrenceIsContained(ToLower(k), m, |a|);
  }

  lemma ContainedWord(k: string, m: string)
    requires m in MARKERS && Contains(ToLower(k), m)
    ensures NamesSecret(k)
  {
    var i := FindOccurrence(ToLower(k), m);
    var a, w, b := k[..i], k[i..i + |m|], k[i + |m|..];
    LowerSlice(k, i, i + |m|);
    MarkersAreLower(m);
    assert k == a + w + b;
    assert Around(k, a, w, b, m);
  }

  /** A key is secret-like exactly when a marker word is written in it, in whatever case. */
  lemma SecretKeyMeans(k: string)
    ensures IsSecretKey(k) <==> NamesSecret(k)
  {
    if IsSecretKey(k) {
      var m :| m in MARKERS && Contains(ToLower(k), m);
      ContainedWord(k, m);
    }
    if NamesSecret(k) {
      var a, w, b, m :| m in MARKERS && Around(k, a, w, b, m);
      WordContained(k, a, w, b, m);
    }
  }

  /** The words looked for. */
  lemma MarkersListed(m: string)
    ensures m in MARKERS <==>
      || m in ["password", "passwd", "passphrase", "secret", "token", "private", "credential", "cookie", "session"]
      || m in ["apikey", "api_key", "api-key", "authorization", "bearer", "license_key", "licence_key", "signature"]
  {
  }

  /** k is a key of v or of a map somewhere inside it. */
  predicate KeyInside(v: Value, k: string) {
    match v
    case Object(fields) => k in fields || exists j <- fields :: KeyInside(fields[j], k)
    case List(items) => exists i :: 0 <= i < |items| && KeyInside(items[i], k)
    case Custom(Some(w)) => KeyInside(w, k)
    case _ => false
  }

  lemma {:induction false} CleanHasNoSecret(v: Value, k: string)
    requires Clean(v) && KeyInside(v, k)
    ensures !IsSecretKey(k)
    decreases v
  {
    match v
    case Object(fields) =>
      if k !in fields {
        var j :| j in fields && KeyInside(fields[j], k);
        CleanHasNoSecret(fields[j], k);
      }
    case List(items) =>
      var i :| 0 <= i < |items| && KeyInside(items[i], k);
      CleanHasNoSecret(items[i], k);
  }

  /** The first 24 keys that name no secret. */
  ghost function KeysShown(fields: map<string, Value>): set<string> {
    First(set k | k in fields && !NamesSecret(k), 24)
  }

  lemma KeptAreUnmarked(fields: map<string, Value>)
    ensures KeptKeys(fields) == KeysShown(fields)
  {
    forall k ensures IsSecretKey(k) <==> NamesSecret(k) {
      SecretKeyMeans(k);
    }
    assert OpenKeys(fields) == set k | k in fields && !NamesSecret(k);
  }

  /** No key in which a marker word is written, in whatever case, is anywhere in sanitised evidence; and a key in which
      none is written is never dropped for being secret, only for not being among the first 24 of its kind. */
  lemma SecretsAreDropped(fields: map<string, Value>)
    ensures forall k :: KeyInside(Object(SanitizedEvidence(fields)), k) ==> !NamesSecret(k)
    ensures SanitizedEvidence(fields).Keys == KeysShown(fields)
  {
    var out := Object(SanitizedEvidence(fields));
    SanitizedEvidenceIsBounded(fields);
    KeptAreUnmarked(fields);
    forall k | KeyInside(out, k) ensures !NamesSecret(k) {
      CleanHasNoSecret(out, k);
      SecretKeyMeans(k);
    }
  }

  /** t is s, or its first 400 characters and an ellipsis if it is longer. */
  predicate Shortens(s: string, t: string) {
    if |s| <= 400 then t == s else |t| == 401 && t[..400] == s[..400] && t[400] == '…'
  }

  /** out shows what a bounded reader may see of v, found at the given depth. */
  ghost predicate Shows(v: Value, out: Value, depth: nat)
    decreases v
  {
    match v
    case Scalar(_) => out == v
    case Text(s) => out.Text? && Shortens(s, out.chars)
    case Object(fields) =>
      if depth >= 3 then out == Text("[omitted: nested too deep]")
      else
        && out.Object?
        && out.fields.Keys == KeysShown(fields)
        && forall k <- fields :: k in out.fields ==> Shows(fields[k], out.fields[k], depth + 1)
    case List(items) =>
      if depth >= 3 then out == Text("[omitted: nested too deep]")
      else
        && out.List?
        && |out.items| == (if |items| <= 12 then |items| else 12)
        && forall i :: 0 <= i < |out.items| ==> Shows(items[i], out.items[i], depth + 1)
    case TextList(texts) =>
      && out.List?
      && |out.items| == (if |texts| <= 12 then |texts| else 12)
      && forall i :: 0 <= i < |out.items| ==> out.items[i].Text? && Shortens(texts[i], out.items[i].chars)
    case Custom(None) => out == Text("[omitted: not serialisable]")
    case Custom(Some(w)) => Shows(w, out, depth)
  }

  lemma TruncatedShortens(s: string)
    ensures Shortens(s, Truncated(s, MAX_STRING))
  {
  }

  lemma ObjectShows(fields: map<string, Value>, depth: nat)
    requires depth < MAX_DEPTH
    requires forall k <- fields :: Shows(fields[k], Sanitized(fields[k], depth + 1), depth + 1)
    ensures Shows(Object(fields), Sanitized(Object(fields), depth), depth)
  {
    SanitizedObject(fields, depth);
    KeptAreUnmarked(fields);
  }

  lemma ListShows(items: seq<Value>, depth: nat)
    requires depth < MAX_DEPTH
    requires forall i :: 0 <= i < |items| ==> Shows(items[i], Sanitized(items[i], depth + 1), depth + 1)
    ensures Shows(List(items), Sanitized(List(items), depth), depth)
  {
    var out := Sanitized(List(items), depth).items;
    assert forall i :: 0 <= i < |out| ==> out[i] == Sanitized(items[i], depth + 1);
  }

  lemma DeepShows(v: Value, depth: nat)
    requires depth >= MAX_DEPTH && (v.Object? || v.List?)
    ensures Shows(v, Sanitized(v, depth), depth)
  {
  }

  lemma TextListShows(texts: seq<string>, depth: nat)
    ensures Shows(TextList(texts), Sanitized(TextList(texts), depth), depth)
  {
    var out := Sanitized(TextList(texts), depth).items;
    forall i | 0 <= i < |out| ensures out[i].Text? && Shortens(texts[i], out[i].chars) {
      assert out[i] == Shortened(texts[i]);
      TruncatedShortens(texts[i]);
    }
  }

  /** Sanitising shows each value as it is, within the caps on texts, lists, keys and depth. */
  lemma {:induction false} SanitizedShows(v: Value, depth: nat)
    ensures Shows(v, Sanitized(v, depth), depth)
    decreases v, 1
  {
    if (v.Object? || v.List?) && depth >= MAX_DEPTH {
      DeepShows(v, depth);
    } else if v.Object? {
      forall k <- v.fields ensures Shows(v.fields[k], Sanitized(v.fields[k], depth + 1), depth + 1) {
        SanitizedShows(v.fields[k], depth + 1);
      }
      ObjectShows(v.fields, depth);
    } else if v.List? {
      forall i | 0 <= i < |v.items| ensures Shows(v.items[i], Sanitized(v.items[i], depth + 1), depth + 1) {
        SanitizedShows(v.items[i], depth + 1);
      }
      ListShows(v.items, depth);
    } else if v.TextList? {
      TextListShows(v.texts, depth);
    } else {
      OtherShows(v, depth);
    }
  }

  lemma {:induction false} OtherShows(v: Value, depth: nat)
    requires v.Scalar? || v.Text? || v.Custom?
    ensures Shows(v, Sanitized(v, depth), depth)
    decreases v, 0
  {
    match v
    case Text(s) => TruncatedShortens(s);
    case Custom(Some(w)) => SanitizedShows(w, depth);
    case _ =>
  }

  /** The same for a whole evidence map. */
  lemma EvidenceShows(fields: map<string, Value>)
    ensures Shows(Object(fields), Object(SanitizedEvidence(fields)), 0)
  {
    SanitizedShows(Object(fields), 0);
    EvidenceIsObject(fields);
  }
}
