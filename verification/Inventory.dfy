/** The inventory: the scheduler's targets and the saved list a restart replays, under two add paths, removal,
    SBOM import and the tier's item cap. */
module Inventory {
  import opened Prelude
  import opened Cpe

  /** What the user typed and the key it was registered under. */
  datatype Saved = Saved(raw: string, canonical: string)

  /** The key a text validates to, if it is accepted. */
  type Validator = string -> Option<string>

  /** The validator in force, the scheduler's targets (key to raw text), and the saved list in insertion order. */
  datatype State = State(keyOf: Validator, registered: map<string, string>, saved: seq<Saved>)

  const EMPTY := State(KeyOf, map[], [])

  /** A cap of zero means no limit. */
  predicate CanAdd(cap: nat, current: nat) {
    cap == 0 || current < cap
  }

  function KeyOf(raw: string): Option<string> {
    match Parse(raw)
    case Success(c) => Some(Canonical(c))
    case Failure(_) => None
  }

  predicate Holds(list: seq<Saved>, canonical: string) {
    exists i :: 0 <= i < |list| && list[i].canonical == canonical
  }

  function SavedWith(list: seq<Saved>, raw: string, canonical: string): seq<Saved> {
    if Holds(list, canonical) then list else list + [Saved(raw, canonical)]
  }

  function Without(list: seq<Saved>, canonical: string): seq<Saved> {
    if list == [] then []
    else
      var rest, t := Without(list[..|list| - 1], canonical), list[|list| - 1];
      if t.canonical == canonical then rest else rest + [t]
  }

  // ----- the operations as functions -----

  /** Both add paths end here: register under the parsed key, save under the given one. */
  function Registered(s: State, raw: string, key: string, savedAs: string): State {
    s.(registered := s.registered[key := raw], saved := SavedWith(s.saved, raw, savedAs))
  }

  predicate AddAccepted(s: State, cap: nat, raw: string) {
    CanAdd(cap, |s.registered|) && s.keyOf(raw).Some?
  }

  /** The target endpoint: the cap counts scheduled targets, and the parsed key is saved. */
  function Added(s: State, cap: nat, raw: string): State {
    if AddAccepted(s, cap, raw) then Registered(s, raw, s.keyOf(raw).value, s.keyOf(raw).value) else s
  }

  predicate ConsoleAccepted(s: State, cap: nat, canonical: string) {
    CanAdd(cap, |s.saved|) && s.keyOf(canonical).Some?
  }

  /** The console: the cap counts saved targets, and the canonical text it was given is saved as it is. */
  function ConsoleAdded(s: State, cap: nat, canonical: string): State {
    if ConsoleAccepted(s, cap, canonical) then Registered(s, canonical, s.keyOf(canonical).value, canonical) else s
  }

  function Removed(s: State, canonical: string): State {
    if canonical == "" then s else s.(registered := s.registered - {canonical}, saved := Without(s.saved, canonical))
  }

  /** The scheduled targets after one more text is validated and registered; a bad text changes nothing. */
  function WithTarget(keyOf: Validator, registered: map<string, string>, raw: string): map<string, string> {
    match keyOf(raw)
    case Some(key) => registered[key := raw]
    case None => registered
  }

  /** The targets a boot registers from the first n saved texts. */
  function Replay(keyOf: Validator, list: seq<Saved>, n: nat): map<string, string>
    requires n <= |list|
  {
    if n == 0 then map[] else WithTarget(keyOf, Replay(keyOf, list, n - 1), list[n - 1].raw)
  }

  function Restarted(s: State): State {
    s.(registered := Replay(s.keyOf, s.saved, |s.saved|))
  }

  // ----- consistency -----

  function KeysUpTo(list: seq<Saved>, n: nat): set<string>
    requires n <= |list|
  {
    set i | 0 <= i < n :: list[i].canonical
  }

  function SavedKeys(list: seq<Saved>): set<string> {
    KeysUpTo(list, |list|)
  }

  ghost predicate DistinctKeys(list: seq<Saved>) {
    forall i, j :: 0 <= i < j < |list| ==> list[i].canonical != list[j].canonical
  }

  ghost predicate FaithfulList(keyOf: Validator, list: seq<Saved>) {
    forall i :: 0 <= i < |list| ==> keyOf(list[i].raw) == Some(list[i].canonical)
  }

  /** The saved keys are the scheduled ones, each once, and each saved text leads back to its key. */
  ghost predicate Consistent(s: State) {
    && DistinctKeys(s.saved)
    && SavedKeys(s.saved) == s.registered.Keys
    && FaithfulList(s.keyOf, s.saved)
  }

  ghost predicate WithinCap(s: State, cap: nat) {
    cap > 0 ==> |s.registered| <= cap
  }

  lemma HoldsIsKey(list: seq<Saved>, canonical: string)
    ensures Holds(list, canonical) <==> canonical in SavedKeys(list)
  {
  }

  lemma {:induction false} KeysCount(list: seq<Saved>)
    requires DistinctKeys(list)
    ensures |SavedKeys(list)| == |list|
  {
    if list != [] {
      var p, t := list[..|list| - 1], list[|list| - 1];
      KeysCount(p);
      assert SavedKeys(list) == SavedKeys(p) + {t.canonical};
      assert t.canonical !in SavedKeys(p);
    }
  }

  lemma ConsistentCounts(s: State)
    requires Consistent(s)
    ensures |s.saved| == |s.registered|
  {
    KeysCount(s.saved);
  }

  lemma SavedWithKeys(list: seq<Saved>, raw: string, canonical: string)
    ensures SavedKeys(SavedWith(list, raw, canonical)) == SavedKeys(list) + {canonical}
    ensures DistinctKeys(list) ==> DistinctKeys(SavedWith(list, raw, canonical))
  {
    HoldsIsKey(list, canonical);
    if !Holds(list, canonical) {
      var longer := list + [Saved(raw, canonical)];
      assert longer[|list|].canonical == canonical;
      assert forall i :: 0 <= i < |list| ==> longer[i] == list[i];
    }
  }

  lemma SavedWithFaithful(keyOf: Validator, list: seq<Saved>, raw: string, canonical: string)
    requires FaithfulList(keyOf, list)
    ensures FaithfulList(keyOf, SavedWith(list, raw, canonical)) <==>
            Holds(list, canonical) || keyOf(raw) == Some(canonical)
  {
    if !Holds(list, canonical) {
      var longer := list + [Saved(raw, canonical)];
      assert longer[|list|] == Saved(raw, canonical);
      assert forall i :: 0 <= i < |list| ==> longer[i] == list[i];
    }
  }

  /** Registering keeps the inventory consistent exactly when the text saved leads back to the key it is
      saved under, or both keys were there already. */
  lemma RegisteredConsistent(s: State, raw: string, key: string, savedAs: string)
    requires Consistent(s) && s.keyOf(raw) == Some(key)
    ensures Consistent(Registered(s, raw, key, savedAs)) <==>
            key == savedAs || (savedAs in s.registered && key in s.registered)
  {
    SavedWithKeys(s.saved, raw, savedAs);
    SavedWithFaithful(s.keyOf, s.saved, raw, savedAs);
    HoldsIsKey(s.saved, savedAs);
    assert Registered(s, raw, key, savedAs).registered.Keys == s.registered.Keys + {key};
  }

  /** The target endpoint always keeps the inventory consistent. */
  lemma AddedConsistent(s: State, cap: nat, raw: string)
    requires Consistent(s)
    ensures Consistent(Added(s, cap, raw))
  {
    if AddAccepted(s, cap, raw) {
      RegisteredConsistent(s, raw, s.keyOf(raw).value, s.keyOf(raw).value);
    }
  }

  /** The key a canonical form is registered under. */
  lemma KeyOfCanonical(c: CPE)
    ensures KeyOf(Canonical(c)) ==
            if KnownPart(c.part) && NamedProduct(c.product) then Some(Canonical(Reread(c))) else None
    ensures KnownPart(c.part) && NamedProduct(c.product) ==>
      (EndsInSpace(c.other) <==> Canonical(Reread(c)) != Canonical(c))
  {
    ParseCanonical(c);
    if KnownPart(c.part) && NamedProduct(c.product) {
      CanonicalReadsBack(c);
    }
  }

  /** The console may add this name: it is refused, or its last field has no trailing space, or both it and what it
      reads back as are targets already. */
  predicate HarmlessAdd(s: State, cap: nat, c: CPE) {
    || !ConsoleAccepted(s, cap, Canonical(c))
    || !EndsInSpace(c.other)
    || (Canonical(c) in s.registered && Canonical(Reread(c)) in s.registered)
  }

  /** The console keeps the inventory consistent if and only if the name may be added. */
  lemma ConsoleAddedConsistent(s: State, cap: nat, c: CPE)
    requires Consistent(s) && s.keyOf == KeyOf
    ensures Consistent(ConsoleAdded(s, cap, Canonical(c))) <==> HarmlessAdd(s, cap, c)
  {
    KeyOfCanonical(c);
    if ConsoleAccepted(s, cap, Canonical(c)) {
      RegisteredConsistent(s, Canonical(c), s.keyOf(Canonical(c)).value, Canonical(c));
    }
  }

  lemma {:induction false} WithoutFacts(list: seq<Saved>, canonical: string)
    ensures forall t :: t in Without(list, canonical) <==> t in list && t.canonical != canonical
    ensures DistinctKeys(list) ==> DistinctKeys(Without(list, canonical))
  {
    if list != [] {
      var p, t := list[..|list| - 1], list[|list| - 1];
      WithoutFacts(p, canonical);
      assert list == p + [t];
      var rest := Without(p, canonical);
      if DistinctKeys(list) && t.canonical != canonical {
        forall i | 0 <= i < |rest| ensures rest[i].canonical != t.canonical {
          assert rest[i] in p;
        }
      }
    }
  }

  lemma WithoutKeys(list: seq<Saved>, canonical: string)
    ensures SavedKeys(Without(list, canonical)) == SavedKeys(list) - {canonical}
  {
    WithoutFacts(list, canonical);
    var out := Without(list, canonical);
    forall i | 0 <= i < |out| ensures out[i].canonical in SavedKeys(list) - {canonical} {
      assert out[i] in list;
    }
    forall i | 0 <= i < |list| && list[i].canonical != canonical ensures list[i].canonical in SavedKeys(out) {
      assert list[i] in out;
    }
  }

  lemma WithoutFaithful(keyOf: Validator, list: seq<Saved>, canonical: string)
    requires FaithfulList(keyOf, list)
    ensures FaithfulList(keyOf, Without(list, canonical))
  {
    WithoutFacts(list, canonical);
    var out := Without(list, canonical);
    forall i | 0 <= i < |out| ensures keyOf(out[i].raw) == Some(out[i].canonical) {
      assert out[i] in list;
    }
  }

  /** Removing a target keeps the inventory consistent. */
  lemma RemovedConsistent(s: State, canonical: string)
    requires Consistent(s)
    ensures Consistent(Removed(s, canonical))
  {
    WithoutFacts(s.saved, canonical);
    WithoutKeys(s.saved, canonical);
    WithoutFaithful(s.keyOf, s.saved, canonical);
  }

  lemma KeysUpToNext(list: seq<Saved>, n: nat)
    requires n < |list|
    ensures KeysUpTo(list, n + 1) == KeysUpTo(list, n) + {list[n].canonical}
  {
  }

  lemma ReplayStep(keyOf: Validator, list: seq<Saved>, n: nat)
    requires n < |list| && FaithfulList(keyOf, list)
    ensures Replay(keyOf, list, n + 1) == Replay(keyOf, list, n)[list[n].canonical := list[n].raw]
  {
    assert keyOf(list[n].raw) == Some(list[n].canonical);
  }

  lemma {:induction false} ReplayKeys(keyOf: Validator, list: seq<Saved>, n: nat)
    requires n <= |list| && FaithfulList(keyOf, list)
    ensures Replay(keyOf, list, n).Keys == KeysUpTo(list, n)
  {
    if n > 0 {
      ReplayKeys(keyOf, list, n - 1);
      ReplayStep(keyOf, list, n - 1);
      KeysUpToNext(list, n - 1);
    }
  }

  /** A restart rebuilds exactly the set of targets. */
  lemma RestartRebuilds(s: State)
    requires Consistent(s)
    ensures Restarted(s).registered.Keys == s.registered.Keys
    ensures Consistent(Restarted(s))
  {
    ReplayKeys(s.keyOf, s.saved, |s.saved|);
  }

  lemma RegisteredSize(s: State, raw: string, key: string, savedAs: string)
    ensures |Registered(s, raw, key, savedAs).registered| <= |s.registered| + 1
  {
  }

  lemma RemovedSize(s: State, canonical: string)
    ensures |Removed(s, canonical).registered| <= |s.registered|
  {
    var kept := s.registered - {canonical};
    assert kept.Keys == s.registered.Keys - {canonical};
  }

  // ----- SBOM import -----

  /** An SBOM component's canonical name and its label. */
  datatype Component = Component(name: string, text: string)

  function Components(comps: seq<CPE>): (r: seq<Component>)
    ensures |r| == |comps|
    ensures forall i :: 0 <= i < |r| ==> r[i] == Component(Canonical(comps[i]), Label(comps[i]))
  {
    seq(|comps|, i requires 0 <= i < |comps| => Component(Canonical(comps[i]), Label(comps[i])))
  }

  function NamesUpTo(comps: seq<Component>, n: nat): set<string>
    requires n <= |comps|
  {
    set i | 0 <= i < n :: comps[i].name
  }

  lemma NamesUpToNext(comps: seq<Component>, n: nat)
    requires n < |comps|
    ensures NamesUpTo(comps, n + 1) == NamesUpTo(comps, n) + {comps[n].name}
  {
  }

  datatype Import = Import(state: State, added: nat, skipped: nat, limited: nat, items: seq<string>)

  const MAX_ITEMS: nat := 50

  /** The import after one more component, whose name was or was not seen before. */
  function ImportNext(r: Import, cap: nat, c: Component, repeated: bool): Import {
    if repeated then r.(skipped := r.skipped + 1)
    else if !ConsoleAccepted(r.state, cap, c.name) then r.(limited := r.limited + 1)
    else
      r.(state := ConsoleAdded(r.state, cap, c.name), added := r.added + 1,
         items := if |r.items| < MAX_ITEMS then r.items + [c.text] else r.items)
  }

  /** The import after the first n components. */
  function Imported(s: State, cap: nat, comps: seq<Component>, n: nat): Import
    requires n <= |comps|
  {
    if n == 0 then Import(s, 0, 0, 0, [])
    else ImportNext(Imported(s, cap, comps, n - 1), cap, comps[n - 1], comps[n - 1].name in NamesUpTo(comps, n - 1))
  }

  /** An earlier component has the same name. */
  predicate Repeated(comps: seq<Component>, i: nat)
    requires i < |comps|
  {
    exists j :: 0 <= j < i && comps[j].name == comps[i].name
  }

  lemma RepeatedIsNamed(comps: seq<Component>, i: nat)
    requires i < |comps|
    ensures Repeated(comps, i) <==> comps[i].name in NamesUpTo(comps, i)
  {
  }

  /** The i-th component has a new name and is accepted. */
  predicate AddsAt(s: State, cap: nat, comps: seq<Component>, i: nat)
    requires i < |comps|
  {
    !Repeated(comps, i) && ConsoleAccepted(Imported(s, cap, comps, i).state, cap, comps[i].name)
  }

  /** The labels of the components added among the first n, in order. */
  function AddedTexts(s: State, cap: nat, comps: seq<Component>, n: nat): seq<string>
    requires n <= |comps|
  {
    if n == 0 then []
    else if AddsAt(s, cap, comps, n - 1) then AddedTexts(s, cap, comps, n - 1) + [comps[n - 1].text]
    else AddedTexts(s, cap, comps, n - 1)
  }

  function FirstFifty(texts: seq<string>): seq<string> {
    if |texts| <= 50 then texts else texts[..50]
  }

  lemma FirstFiftySnoc(texts: seq<string>, text: string)
    ensures FirstFifty(texts + [text]) ==
            if |FirstFifty(texts)| < MAX_ITEMS then FirstFifty(texts) + [text] else FirstFifty(texts)
  {
  }

  lemma ItemsNext(s: State, cap: nat, comps: seq<Component>, n: nat)
    requires n < |comps|
    requires Imported(s, cap, comps, n).items == FirstFifty(AddedTexts(s, cap, comps, n))
    ensures Imported(s, cap, comps, n + 1).items == FirstFifty(AddedTexts(s, cap, comps, n + 1))
  {
    RepeatedIsNamed(comps, n);
    FirstFiftySnoc(AddedTexts(s, cap, comps, n), comps[n].text);
  }

  lemma {:induction false} ImportItems(s: State, cap: nat, comps: seq<Component>, n: nat)
    requires n <= |comps|
    ensures Imported(s, cap, comps, n).items == FirstFifty(AddedTexts(s, cap, comps, n))
  {
    if n > 0 {
      ImportItems(s, cap, comps, n - 1);
      ItemsNext(s, cap, comps, n - 1);
    }
  }

  lemma {:induction false} ImportCounts(s: State, cap: nat, comps: seq<Component>, n: nat)
    requires n <= |comps|
    ensures var r := Imported(s, cap, comps, n);
      r.added + r.skipped + r.limited == n && r.added == |AddedTexts(s, cap, comps, n)|
  {
    if n > 0 {
      ImportCounts(s, cap, comps, n - 1);
      RepeatedIsNamed(comps, n - 1);
    }
  }

  /** Every component is added, skipped, or counted as refused, and the labels listed are those of the first
      fifty added. */
  lemma ImportAccounts(s: State, cap: nat, comps: seq<Component>)
    ensures var r := Imported(s, cap, comps, |comps|);
      && r.added + r.skipped + r.limited == |comps|
      && r.added == |AddedTexts(s, cap, comps, |comps|)|
      && r.items == FirstFifty(AddedTexts(s, cap, comps, |comps|))
  {
    ImportCounts(s, cap, comps, |comps|);
    ImportItems(s, cap, comps, |comps|);
  }

  function Repetitions(comps: seq<Component>, n: nat): set<nat>
    requires n <= |comps|
  {
    set i: nat | i < n && Repeated(comps, i)
  }

  lemma RepetitionsNext(comps: seq<Component>, n: nat)
    requires n < |comps|
    ensures |Repetitions(comps, n + 1)| == |Repetitions(comps, n)| + if Repeated(comps, n) then 1 else 0
  {
    var before := Repetitions(comps, n);
    assert n !in before;
    assert Repetitions(comps, n + 1) == if Repeated(comps, n) then before + {n} else before;
  }

  lemma SkippedNext(s: State, cap: nat, comps: seq<Component>, n: nat)
    requires n < |comps|
    ensures Imported(s, cap, comps, n + 1).skipped ==
            Imported(s, cap, comps, n).skipped + if Repeated(comps, n) then 1 else 0
  {
    RepeatedIsNamed(comps, n);
  }

  lemma {:induction false} SkippedCount(s: State, cap: nat, comps: seq<Component>, n: nat)
    requires n <= |comps|
    ensures Imported(s, cap, comps, n).skipped == |Repetitions(comps, n)|
  {
    if n == 0 {
      assert Repetitions(comps, 0) == {};
    } else {
      SkippedCount(s, cap, comps, n - 1);
      SkippedNext(s, cap, comps, n - 1);
      RepetitionsNext(comps, n - 1);
    }
  }

  /** The components skipped are exactly the repetitions of a name. */
  lemma ImportSkipsRepetitions(s: State, cap: nat, comps: seq<Component>)
    ensures Imported(s, cap, comps, |comps|).skipped == |Repetitions(comps, |comps|)|
    ensures forall i :: 0 <= i < |comps| ==>
      (Imported(s, cap, comps, i + 1).skipped > Imported(s, cap, comps, i).skipped <==> Repeated(comps, i))
  {
    SkippedCount(s, cap, comps, |comps|);
    forall i | 0 <= i < |comps|
      ensures Imported(s, cap, comps, i + 1).skipped > Imported(s, cap, comps, i).skipped <==> Repeated(comps, i)
    {
      SkippedNext(s, cap, comps, i);
    }
  }

  // ----- adds that keep the inventory consistent -----

  lemma ConsoleKeepsInventory(s: State, cap: nat, c: CPE)
    requires Consistent(s) && WithinCap(s, cap) && s.keyOf == KeyOf
    ensures var t := ConsoleAdded(s, cap, Canonical(c));
      t.keyOf == KeyOf && WithinCap(t, cap) && (Consistent(t) <==> HarmlessAdd(s, cap, c))
  {
    ConsistentCounts(s);
    ConsoleAddedConsistent(s, cap, c);
    if ConsoleAccepted(s, cap, Canonical(c)) {
      RegisteredSize(s, Canonical(c), s.keyOf(Canonical(c)).value, Canonical(c));
    }
  }

  /** Each component of the first n either repeats a name or may be added where the import has got to. */
  ghost predicate HarmlessImport(s: State, cap: nat, comps: seq<CPE>, n: nat)
    requires n <= |comps|
  {
    n > 0 ==>
      && HarmlessImport(s, cap, comps, n - 1)
      && (Repeated(Components(comps), n - 1) ||
          HarmlessAdd(Imported(s, cap, Components(comps), n - 1).state, cap, comps[n - 1]))
  }

  /** The inventory is consistent before and after each of the first n components. */
  ghost predicate ConsistentImport(s: State, cap: nat, comps: seq<CPE>, n: nat)
    requires n <= |comps|
  {
    && Consistent(Imported(s, cap, Components(comps), n).state)
    && (n > 0 ==> ConsistentImport(s, cap, comps, n - 1))
  }

  /** An import keeps the inventory consistent throughout exactly when each of its adds may be made; then the
      cap holds as well. */
  lemma {:induction false} ImportKeepsInventory(s: State, cap: nat, comps: seq<CPE>, n: nat)
    requires n <= |comps| && Consistent(s) && WithinCap(s, cap) && s.keyOf == KeyOf
    ensures ConsistentImport(s, cap, comps, n) <==> HarmlessImport(s, cap, comps, n)
    ensures var t := Imported(s, cap, Components(comps), n).state;
      t.keyOf == KeyOf && (ConsistentImport(s, cap, comps, n) ==> WithinCap(t, cap))
  {
    if n > 0 {
      ImportKeepsInventory(s, cap, comps, n - 1);
      var parts := Components(comps);
      RepeatedIsNamed(parts, n - 1);
      ImportedState(s, cap, parts, n - 1);
      if ConsistentImport(s, cap, comps, n - 1) {
        ConsoleKeepsInventory(Imported(s, cap, parts, n - 1).state, cap, comps[n - 1]);
      }
    }
  }

  lemma ImportedState(s: State, cap: nat, comps: seq<Component>, n: nat)
    requires n < |comps|
    ensures var u := Imported(s, cap, comps, n).state;
      Imported(s, cap, comps, n + 1).state ==
      if comps[n].name in NamesUpTo(comps, n) then u else ConsoleAdded(u, cap, comps[n].name)
  {
  }

  lemma EmptyIsConsistent()
    ensures Consistent(EMPTY)
  {
    assert SavedKeys([]) == {};
  }

  /** The name of Cpe.SPACED_NAME, accepted into an empty inventory, is saved under a key the scheduler has not. */
  lemma SpacedNameBreaksConsole()
    ensures Consistent(EMPTY) && !Consistent(ConsoleAdded(EMPTY, 0, Canonical(SPACED_NAME)))
  {
    EmptyIsConsistent();
    SpacedNameIsNotFixed(Canonical(SPACED_NAME) + ":y");
    ConsoleAddedConsistent(EMPTY, 0, SPACED_NAME);
  }

  // ----- runs -----

  datatype Op =
    | Add(raw: string)
    | ConsoleAdd(name: CPE)
    | ImportAll(comps: seq<CPE>)
    | Remove(canonical: string)
    | Restart

  function Apply(s: State, cap: nat, op: Op): State {
    match op
    case Add(raw) => Added(s, cap, raw)
    case ConsoleAdd(c) => ConsoleAdded(s, cap, Canonical(c))
    case ImportAll(comps) => Imported(s, cap, Components(comps), |comps|).state
    case Remove(canonical) => Removed(s, canonical)
    case Restart => Restarted(s)
  }

  function Run(s: State, cap: nat, ops: seq<Op>): State {
    if ops == [] then s else Apply(Run(s, cap, ops[..|ops| - 1]), cap, ops[|ops| - 1])
  }

  /** Console names and imported ones may be added; every other operation is harmless. */
  ghost predicate Harmless(s: State, cap: nat, op: Op) {
    match op
    case ConsoleAdd(c) => HarmlessAdd(s, cap, c)
    case ImportAll(comps) => HarmlessImport(s, cap, comps, |comps|)
    case _ => true
  }

  ghost predicate KeepsConsistent(s: State, cap: nat, op: Op) {
    match op
    case ImportAll(comps) => ConsistentImport(s, cap, comps, |comps|)
    case _ => Consistent(Apply(s, cap, op))
  }

  lemma ApplyKeepsInventory(s: State, cap: nat, op: Op)
    requires Consistent(s) && WithinCap(s, cap) && s.keyOf == KeyOf
    ensures KeepsConsistent(s, cap, op) <==> Harmless(s, cap, op)
    ensures Harmless(s, cap, op) ==>
      Consistent(Apply(s, cap, op)) && WithinCap(Apply(s, cap, op), cap) && Apply(s, cap, op).keyOf == KeyOf
  {
    match op
    case Add(raw) =>
      ConsistentCounts(s);
      AddedConsistent(s, cap, raw);
      if AddAccepted(s, cap, raw) {
        RegisteredSize(s, raw, s.keyOf(raw).value, s.keyOf(raw).value);
      }
    case ConsoleAdd(c) => ConsoleKeepsInventory(s, cap, c);
    case ImportAll(comps) => ImportKeepsInventory(s, cap, comps, |comps|);
    case Remove(canonical) =>
      RemovedConsistent(s, canonical);
      RemovedSize(s, canonical);
    case Restart =>
      RestartRebuilds(s);
      assert |Restarted(s).registered.Keys| == |s.registered.Keys|;
  }

  ghost predicate HarmlessThroughout(cap: nat, ops: seq<Op>) {
    ops != [] ==>
      var p := ops[..|ops| - 1];
      HarmlessThroughout(cap, p) && Harmless(Run(EMPTY, cap, p), cap, ops[|ops| - 1])
  }

  /** The inventory is consistent after every operation, and after every component of an import. */
  ghost predicate ConsistentThroughout(cap: nat, ops: seq<Op>) {
    ops != [] ==>
      var p := ops[..|ops| - 1];
      ConsistentThroughout(cap, p) && KeepsConsistent(Run(EMPTY, cap, p), cap, ops[|ops| - 1])
  }

  /** Over every run of both add paths, imports, removals and restarts from an empty inventory, the saved keys equal
      the scheduled ones throughout if and only if each name the console adds is harmless where it is added. Then a
      restart would rebuild the same set, and the cap is respected. */
  lemma {:induction false} InventoryInvariant(cap: nat, ops: seq<Op>)
    ensures ConsistentThroughout(cap, ops) <==> HarmlessThroughout(cap, ops)
    ensures HarmlessThroughout(cap, ops) ==>
      var s := Run(EMPTY, cap, ops);
      && s.keyOf == KeyOf
      && Consistent(s)
      && WithinCap(s, cap)
      && Restarted(s).registered.Keys == s.registered.Keys
  {
    if ops == [] {
      EmptyIsConsistent();
      RestartRebuilds(EMPTY);
    } else {
      var p, op := ops[..|ops| - 1], ops[|ops| - 1];
      InventoryInvariant(cap, p);
      if HarmlessThroughout(cap, p) {
        ApplyKeepsInventory(Run(EMPTY, cap, p), cap, op);
        if Harmless(Run(EMPTY, cap, p), cap, op) {
          RestartRebuilds(Run(EMPTY, cap, ops));
        }
      }
    }
  }

  /** Names without a trailing space in the last field, in every console add and import. */
  predicate Steady(op: Op) {
    match op
    case ConsoleAdd(c) => !EndsInSpace(c.other)
    case ImportAll(comps) => forall i :: 0 <= i < |comps| ==> !EndsInSpace(comps[i].other)
    case _ => true
  }

  lemma {:induction false} SteadyImportIsHarmless(s: State, cap: nat, comps: seq<CPE>, n: nat)
    requires n <= |comps| && forall i :: 0 <= i < |comps| ==> !EndsInSpace(comps[i].other)
    ensures HarmlessImport(s, cap, comps, n)
  {
    if n > 0 {
      SteadyImportIsHarmless(s, cap, comps, n - 1);
    }
  }

  /** Runs that add only such names are harmless. */
  lemma {:induction false} SteadyRunsAreHarmless(cap: nat, ops: seq<Op>)
    requires forall i :: 0 <= i < |ops| ==> Steady(ops[i])
    ensures HarmlessThroughout(cap, ops)
  {
    if ops != [] {
      var p, op := ops[..|ops| - 1], ops[|ops| - 1];
      SteadyRunsAreHarmless(cap, p);
      if op.ImportAll? {
        SteadyImportIsHarmless(Run(EMPTY, cap, p), cap, op.comps, |op.comps|);
      }
    }
  }

  // ----- the stores -----

  datatype Reply = Done(canonical: string) | LimitReached | Rejected | BadRequest

  /** The web server's and the console's handlers over the scheduler's targets and the saved list; keyOf is
      the registered collector's target validation. */
  class Server {
    const keyOf: Validator
    const cap: nat
    var registered: map<string, string>
    var saved: seq<Saved>

    ghost function Model(): State
      reads this
    {
      State(keyOf, registered, saved)
    }

    constructor (keyOf: Validator, cap: nat)
      ensures this.cap == cap && Model() == State(keyOf, map[], []) && Consistent(Model())
    {
      this.keyOf, this.cap, registered, saved := keyOf, cap, map[], [];
    }

    /** The scheduler's side of an add. */
    method AddTarget(raw: string) returns (key: Option<string>)
      modifies this
      ensures Model() == old(Model()).(registered := WithTarget(keyOf, old(registered), raw))
      ensures key == keyOf(raw)
    {
      key := keyOf(raw);
      if key.Some? {
        registered := registered[key.value := raw];
      }
    }

    method SaveTarget(raw: string, canonical: string)
      modifies this
      ensures Model() == old(Model()).(saved := SavedWith(old(saved), raw, canonical))
    {
      for i := 0 to |saved|
        invariant Model() == old(Model())
        invariant forall j :: 0 <= j < i ==> saved[j].canonical != canonical
      {
        if saved[i].canonical == canonical {
          return;
        }
      }
      saved := saved + [Saved(raw, canonical)];
    }

    method DeleteTarget(canonical: string)
      modifies this
      ensures Model() == old(Model()).(saved := Without(old(saved), canonical))
    {
      var out := [];
      for i := 0 to |saved|
        invariant Model() == old(Model())
        invariant out == Without(saved[..i], canonical)
      {
        assert saved[..i + 1][..i] == saved[..i];
        if saved[i].canonical != canonical {
          out := out + [saved[i]];
        }
      }
      assert saved[..|saved|] == saved;
      saved := out;
    }

    method HandleAddTarget(raw: string) returns (reply: Reply)
      modifies this
      ensures Model() == Added(old(Model()), cap, raw)
      ensures reply.Done? <==> AddAccepted(old(Model()), cap, raw)
      ensures reply.LimitReached? <==> cap > 0 && |old(registered)| >= cap
      ensures reply.Rejected? <==> (cap == 0 || |old(registered)| < cap) && keyOf(raw).None?
      ensures reply.Done? ==>
        && keyOf(raw) == Some(reply.canonical)
        && registered == old(registered)[reply.canonical := raw]
        && SavedKeys(saved) == SavedKeys(old(saved)) + {reply.canonical}
      ensures !reply.Done? ==> registered == old(registered) && saved == old(saved)
    {
      if !CanAdd(cap, |registered|) {
        return LimitReached;
      }
      var r := AddTarget(raw);
      if r.None? {
        return Rejected;
      }
      SavedWithKeys(saved, raw, r.value);
      SaveTarget(raw, r.value);
      return Done(r.value);
    }

    method ConsoleAdd(canonical: string) returns (reply: Reply)
      modifies this
      ensures Model() == ConsoleAdded(old(Model()), cap, canonical)
      ensures reply.Done? <==> ConsoleAccepted(old(Model()), cap, canonical)
      ensures reply.LimitReached? <==> cap > 0 && |old(saved)| >= cap
      ensures reply.Done? ==>
        && keyOf(canonical).Some?
        && registered == old(registered)[keyOf(canonical).value := canonical]
        && SavedKeys(saved) == SavedKeys(old(saved)) + {canonical}
      ensures !reply.Done? ==> registered == old(registered) && saved == old(saved)
    {
      if cap != 0 && |saved| >= cap {
        return LimitReached;
      }
      var r := AddTarget(canonical);
      if r.None? {
        return Rejected;
      }
      SavedWithKeys(saved, canonical, canonical);
      SaveTarget(canonical, canonical);
      return Done(canonical);
    }

    method HandleRemoveTarget(canonical: string) returns (reply: Reply)
      modifies this
      ensures Model() == Removed(old(Model()), canonical)
      ensures reply.BadRequest? <==> canonical == ""
      ensures canonical != "" ==>
        && registered == old(registered) - {canonical}
        && SavedKeys(saved) == SavedKeys(old(saved)) - {canonical}
    {
      if canonical == "" {
        return BadRequest;
      }
      WithoutKeys(saved, canonical);
      registered := registered - {canonical};
      DeleteTarget(canonical);
      return Done(canonical);
    }

    /** A new process: nothing scheduled, then every saved text is added again; unreadable ones are skipped. */
    method Boot()
      modifies this
      ensures Model() == Restarted(old(Model()))
    {
      registered := map[];
      for i := 0 to |saved|
        invariant saved == old(saved)
        invariant registered == Replay(keyOf, saved, i)
      {
        var _ := AddTarget(saved[i].raw);
      }
    }

    method ImportSbom(comps: seq<CPE>)
      returns (added: nat, skipped: nat, limited: nat, items: seq<string>)
      modifies this
      ensures Import(Model(), added, skipped, limited, items) ==
              Imported(old(Model()), cap, Components(comps), |comps|)
    {
      added, skipped, limited, items := 0, 0, 0, [];
      var seen: set<string> := {};
      var parts := Components(comps);
      for i := 0 to |parts|
        invariant seen == NamesUpTo(parts, i)
        invariant Import(Model(), added, skipped, limited, items) == Imported(old(Model()), cap, parts, i)
      {
        NamesUpToNext(parts, i);
        var repeated := parts[i].name in seen;
        seen := seen + {parts[i].name};
        added, skipped, limited, items := ImportOne(parts[i], repeated, added, skipped, limited, items);
      }
    }

    /** One component: skipped, refused, or added and perhaps listed. */
    method ImportOne(c: Component, repeated: bool, added: nat, skipped: nat, limited: nat, items: seq<string>)
      returns (added': nat, skipped': nat, limited': nat, items': seq<string>)
      modifies this
      ensures Import(Model(), added', skipped', limited', items') ==
              ImportNext(Import(old(Model()), added, skipped, limited, items), cap, c, repeated)
    {
      added', skipped', limited', items' := added, skipped, limited, items;
      if repeated {
        skipped' := skipped + 1;
        return;
      }
      var reply := ConsoleAdd(c.name);
      if !reply.Done? {
        limited' := limited + 1;
        return;
      }
      added' := added + 1;
      if |items| < MAX_ITEMS {
        items' := items + [c.text];
      }
    }
  }
}
