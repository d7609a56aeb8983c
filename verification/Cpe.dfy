/** CPE 2.3 names: the formatted-string parser and printer (a subset of the binding of section 6.2 of
    NISTIR 7695), and what printing then parsing gives back. */
module Cpe {
  import opened Prelude

  datatype CPE = CPE(
    part: string, vendor: string, product: string, version: string, update: string, edition: string,
    language: string, swEdition: string, targetSW: string, targetHW: string, other: string)

  datatype ParseError = NotCpe23 | TooFewFields | InvalidPart | NoProduct

  // ----- fields -----

  /** The fields of s between unescaped colons; escaped says whether the previous character was an
      unescaped backslash. */
  function Fields(s: string, escaped: bool): (r: seq<string>)
    ensures |r| >= 1
  {
    if s == "" then [""]
    else if !escaped && s[0] == ':' then [""] + Fields(s[1..], false)
    else
      var rest := Fields(s[1..], !escaped && s[0] == '\\');
      [[s[0]] + rest[0]] + rest[1..]
  }

  function Join(fields: seq<string>): string
    requires fields != []
  {
    if |fields| == 1 then fields[0] else fields[0] + ":" + Join(fields[1..])
  }

  method SplitEscaped(s: string) returns (out: seq<string>)
    ensures out == Fields(s, false)
    ensures Join(out) == s
  {
    out := [];
    var cur := "";
    var esc := false;
    assert s[0..] == s;
    GlueNothing(Fields(s, false));
    for i := 0 to |s|
      invariant out + Glue(cur, Fields(s[i..], esc)) == Fields(s, false)
    {
      var r := s[i];
      assert s[i..][0] == r && s[i..][1..] == s[i + 1..];
      GlueNext(out, cur, s[i..], esc);
      if esc {
        cur := cur + [r];
        esc := false;
      } else if r == '\\' {
        cur := cur + [r];
        esc := true;
      } else if r == ':' {
        out := out + [cur];
        cur := "";
      } else {
        cur := cur + [r];
      }
    }
    assert s[|s|..] == "";
    GlueEnd(cur, esc);
    out := out + [cur];
    JoinFields(s, false);
  }

  /** The fields of the rest of the text, the first one begun with what has been read of it. */
  function Glue(cur: string, rest: seq<string>): seq<string>
    requires rest != []
  {
    [cur + rest[0]] + rest[1..]
  }

  lemma GlueNothing(rest: seq<string>)
    requires rest != []
    ensures Glue("", rest) == rest
  {
    assert "" + rest[0] == rest[0];
  }

  lemma GlueEnd(cur: string, esc: bool)
    ensures Glue(cur, Fields("", esc)) == [cur]
  {
    assert cur + "" == cur;
  }

  lemma GlueNext(out: seq<string>, cur: string, s: string, esc: bool)
    requires s != ""
    ensures out + Glue(cur, Fields(s, esc)) ==
            if !esc && s[0] == ':' then (out + [cur]) + Glue("", Fields(s[1..], false))
            else out + Glue(cur + [s[0]], Fields(s[1..], !esc && s[0] == '\\'))
  {
    if !esc && s[0] == ':' {
      var rest := Fields(s[1..], false);
      GlueNothing(rest);
      assert Glue(cur, [""] + rest) == [cur] + rest by {
        assert cur + "" == cur;
      }
      assert out + ([cur] + rest) == (out + [cur]) + rest;
    } else {
      var rest := Fields(s[1..], !esc && s[0] == '\\');
      assert cur + ([s[0]] + rest[0]) == (cur + [s[0]]) + rest[0];
    }
  }

  /** Splitting loses nothing: joining the fields with colons gives the text back. */
  lemma {:induction false} JoinFields(s: string, escaped: bool)
    ensures Join(Fields(s, escaped)) == s
  {
    if s != "" {
      if !escaped && s[0] == ':' {
        JoinFields(s[1..], false);
        var rest := Fields(s[1..], false);
        assert ([""] + rest)[1..] == rest;
      } else {
        var esc' := !escaped && s[0] == '\\';
        JoinFields(s[1..], esc');
        var rest := Fields(s[1..], esc');
        var all := [[s[0]] + rest[0]] + rest[1..];
        assert all[1..] == rest[1..];
        assert s == [s[0]] + s[1..];
        if |rest| > 1 {
          assert Join(all) == ([s[0]] + rest[0]) + ":" + Join(rest[1..]);
        }
      }
    }
  }

  /** Read from the given state, f holds no unescaped colon and ends in no open escape. */
  predicate Unsplit(f: string, escaped: bool) {
    if f == "" then !escaped
    else (escaped || f[0] != ':') && Unsplit(f[1..], !escaped && f[0] == '\\')
  }

  lemma {:induction false} FieldsOfUnsplit(f: string, escaped: bool)
    requires Unsplit(f, escaped)
    ensures Fields(f, escaped) == [f]
  {
    if f != "" {
      FieldsOfUnsplit(f[1..], !escaped && f[0] == '\\');
      assert [f[0]] + f[1..] == f;
    }
  }

  lemma {:induction false} FieldsOfUnsplitThenColon(f: string, tail: string, escaped: bool)
    requires Unsplit(f, escaped)
    ensures Fields(f + ":" + tail, escaped) == [f] + Fields(tail, false)
  {
    var s := f + ":" + tail;
    if f == "" {
      assert s[1..] == tail;
    } else {
      var esc' := !escaped && f[0] == '\\';
      FieldsOfUnsplitThenColon(f[1..], tail, esc');
      assert s[1..] == f[1..] + ":" + tail;
      assert s[0] == f[0];
      assert [f[0]] + f[1..] == f;
    }
  }

  /** Splitting undoes the join of unsplittable fields. */
  lemma {:induction false} FieldsOfJoin(fields: seq<string>)
    requires fields != [] && forall f <- fields :: Unsplit(f, false)
    ensures Fields(Join(fields), false) == fields
  {
    if |fields| == 1 {
      FieldsOfUnsplit(fields[0], false);
    } else {
      FieldsOfJoin(fields[1..]);
      FieldsOfUnsplitThenColon(fields[0], Join(fields[1..]), false);
    }
  }

  // ----- escaping -----

  predicate Special(c: char) {
    c == '\\' || c == ':' || c == '?' || c == '*'
  }

  function EscapeChar(c: char): string {
    if Special(c) then ['\\', c] else [c]
  }

  function Escape(v: string): string {
    if v == "" then "" else EscapeChar(v[0]) + Escape(v[1..])
  }

  function Bind(v: string): string {
    if v == "*" || v == "-" then v else Escape(v)
  }

  function Unbind(v: string): string {
    if v == "" then ""
    else if |v| >= 2 && v[0] == '\\' && Special(v[1]) then [v[1]] + Unbind(v[2..])
    else [v[0]] + Unbind(v[1..])
  }

  lemma {:induction false} UnbindEscape(v: string)
    ensures Unbind(Escape(v)) == v
  {
    if v != "" {
      UnbindEscape(v[1..]);
      var e := Escape(v);
      if Special(v[0]) {
        assert e[2..] == Escape(v[1..]);
      } else {
        assert e[1..] == Escape(v[1..]);
      }
      assert v == [v[0]] + v[1..];
    }
  }

  /** Unbinding undoes binding, for every value. */
  lemma UnbindBind(v: string)
    ensures Unbind(Bind(v)) == v
  {
    UnbindEscape(v);
    assert v == "*" || v == "-" ==> |v| == 1 && v[1..] == "";
  }

  lemma {:induction false} UnsplitEscape(v: string)
    ensures Unsplit(Escape(v), false)
  {
    if v != "" {
      UnsplitEscape(v[1..]);
      var e := Escape(v);
      if Special(v[0]) {
        assert e[0] == '\\' && e[1..][0] == v[0];
        assert e[1..][1..] == Escape(v[1..]);
      } else {
        assert e[1..] == Escape(v[1..]);
      }
    }
  }

  lemma UnsplitBind(v: string)
    ensures Unsplit(Bind(v), false)
  {
    UnsplitEscape(v);
    if v == "*" || v == "-" {
      assert Bind(v)[1..] == "";
    }
  }

  lemma {:induction false} EscapeSnoc(v: string, c: char)
    ensures Escape(v + [c]) == Escape(v) + EscapeChar(c)
  {
    if v == "" {
      assert v + [c] == [c] && [c][1..] == "";
    } else {
      EscapeSnoc(v[1..], c);
      assert (v + [c])[0] == v[0] && (v + [c])[1..] == v[1..] + [c];
      assert Escape(v + [c]) == EscapeChar(v[0]) + (Escape(v[1..]) + EscapeChar(c));
    }
  }

  /** Trimming trailing space commutes with escaping. */
  lemma {:induction false} TrimRightEscape(v: string)
    ensures TrimRight(Escape(v)) == Escape(TrimRight(v))
  {
    if v != "" {
      var u, c := v[..|v| - 1], v[|v| - 1];
      assert v == u + [c];
      EscapeSnoc(u, c);
      if IsSpace(c) {
        TrimRightEscape(u);
        assert Escape(v)[..|Escape(v)| - 1] == Escape(u);
      }
    }
  }

  // ----- parsing and printing -----

  function FieldAt(fields: seq<string>, i: nat): string {
    if i < |fields| then Unbind(fields[i]) else "*"
  }

  function FromFields(fields: seq<string>): CPE {
    CPE(FieldAt(fields, 2), FieldAt(fields, 3), FieldAt(fields, 4), FieldAt(fields, 5), FieldAt(fields, 6),
        FieldAt(fields, 7), FieldAt(fields, 8), FieldAt(fields, 9), FieldAt(fields, 10), FieldAt(fields, 11),
        FieldAt(fields, 12))
  }

  const PREFIX := "cpe:2.3:"

  predicate KnownPart(part: string) {
    part == "a" || part == "o" || part == "h"
  }

  predicate NamedProduct(product: string) {
    product != "" && product != "*"
  }

  function ParseFields(fields: seq<string>): Result<CPE, ParseError> {
    if |fields| < 5 then Failure(TooFewFields)
    else
      var c := FromFields(fields);
      if !KnownPart(c.part) then Failure(InvalidPart)
      else if !NamedProduct(c.product) then Failure(NoProduct)
      else Success(c)
  }

  function Parse(text: string): Result<CPE, ParseError> {
    var s := TrimSpace(text);
    if PREFIX <= s then ParseFields(Fields(s, false)) else Failure(NotCpe23)
  }

  function BoundField(v: string): string {
    if v == "" then "*" else Bind(v)
  }

  /** The attributes before the last one. */
  function Values(c: CPE): seq<string> {
    [c.part, c.vendor, c.product, c.version, c.update, c.edition, c.language, c.swEdition, c.targetSW, c.targetHW]
  }

  function Leading(c: CPE): seq<string> {
    ["cpe", "2.3"] + seq(10, i requires 0 <= i < 10 => BoundField(Values(c)[i]))
  }

  /** The 13-field formatted string, which is also the scheduler's target key. */
  function Canonical(c: CPE): string {
    Join(Leading(c) + [BoundField(c.other)])
  }

  function Label(c: CPE): string {
    (if c.vendor != "" && c.vendor != "*" && c.vendor != c.product then c.vendor + " " else "") +
    c.product +
    (if c.version != "" && c.version != "*" && c.version != "-" then " " + c.version else "")
  }

  // ----- print, then parse -----

  function Star(v: string): string {
    if v == "" then "*" else v
  }

  /** c with every empty field written as a wildcard. */
  function Starred(c: CPE): CPE {
    CPE(Star(c.part), Star(c.vendor), Star(c.product), Star(c.version), Star(c.update), Star(c.edition),
        Star(c.language), Star(c.swEdition), Star(c.targetSW), Star(c.targetHW), Star(c.other))
  }

  /** c as its canonical form reads: wildcards for empty fields, and the last field without the trailing
      space that trimming the whole text removes. */
  function Reread(c: CPE): CPE {
    Starred(c).(other := if c.other == "" then "*" else TrimRight(c.other))
  }

  lemma BoundFieldFacts(v: string)
    ensures Unsplit(BoundField(v), false)
    ensures Unbind(BoundField(v)) == Star(v)
  {
    UnsplitBind(v);
    UnbindBind(v);
    UnsplitBind("*");
    UnbindBind("*");
  }

  lemma {:induction false} TrimRightAfterColon(p: string, x: string)
    ensures TrimRight(p + ":" + x) == p + ":" + TrimRight(x)
  {
    var s := p + ":" + x;
    if x == "" {
      assert s[|s| - 1] == ':';
    } else {
      assert s[|s| - 1] == x[|x| - 1];
      if IsSpace(x[|x| - 1]) {
        assert s[..|s| - 1] == p + ":" + x[..|x| - 1];
        TrimRightAfterColon(p, x[..|x| - 1]);
      }
    }
  }

  lemma {:induction false} JoinSnoc(fields: seq<string>, last: string)
    requires fields != []
    ensures Join(fields + [last]) == Join(fields) + ":" + last
  {
    if |fields| > 1 {
      JoinSnoc(fields[1..], last);
      assert (fields + [last])[1..] == fields[1..] + [last];
    }
  }

  lemma CanonicalStart(c: CPE, last: string)
    ensures PREFIX <= Join(Leading(c) + [last])
  {
    var fs := Leading(c) + [last];
    assert fs[1..][0] == "2.3" && fs[1..][1..] == fs[2..];
    assert Join(fs) == "cpe" + ":" + Join(fs[1..]);
    assert Join(fs[1..]) == "2.3" + ":" + Join(fs[2..]);
    assert Join(fs) == PREFIX + Join(fs[2..]);
  }

  /** How the last field reads once the whole text is trimmed. */
  function TrimmedLast(c: CPE): string {
    if c.other == "" then "*" else TrimRight(BoundField(c.other))
  }

  lemma TrimmedLastFacts(c: CPE)
    ensures Unsplit(TrimmedLast(c), false)
    ensures Unbind(TrimmedLast(c)) == Reread(c).other
    ensures TrimmedLast(c) == TrimRight(BoundField(c.other))
  {
    BoundFieldFacts(c.other);
    if c.other != "" && c.other != "*" && c.other != "-" {
      TrimRightEscape(c.other);
      UnsplitEscape(TrimRight(c.other));
      UnbindEscape(TrimRight(c.other));
    }
  }

  lemma TrimCanonical(c: CPE)
    ensures TrimSpace(Canonical(c)) == Join(Leading(c) + [TrimmedLast(c)])
  {
    CanonicalStart(c, BoundField(c.other));
    JoinSnoc(Leading(c), BoundField(c.other));
    JoinSnoc(Leading(c), TrimmedLast(c));
    TrimRightAfterColon(Join(Leading(c)), BoundField(c.other));
    TrimmedLastFacts(c);
    assert Canonical(c)[0] == 'c';
  }

  lemma FieldsOfCanonical(c: CPE)
    ensures Fields(Join(Leading(c) + [TrimmedLast(c)]), false) == Leading(c) + [TrimmedLast(c)]
  {
    var fs := Leading(c) + [TrimmedLast(c)];
    forall i | 0 <= i < |fs| ensures Unsplit(fs[i], false) {
      if i < 2 {
        UnsplitWord(fs[i]);
      } else if i < 12 {
        BoundFieldFacts(Values(c)[i - 2]);
      } else {
        TrimmedLastFacts(c);
      }
    }
    FieldsOfJoin(fs);
  }

  lemma {:induction false} UnsplitWord(w: string)
    requires ':' !in w && '\\' !in w
    ensures Unsplit(w, false)
  {
    if w != "" {
      UnsplitWord(w[1..]);
    }
  }

  lemma FromFieldsOfCanonical(c: CPE)
    ensures FromFields(Leading(c) + [TrimmedLast(c)]) == Reread(c)
  {
    var fs := Leading(c) + [TrimmedLast(c)];
    TrimmedLastFacts(c);
    forall i | 0 <= i < 10 ensures FieldAt(fs, i + 2) == Star(Values(c)[i]) {
      FieldOfCanonical(c, i);
    }
    FromFieldValues(fs, c, Reread(c).other);
  }

  lemma FromFieldValues(fs: seq<string>, c: CPE, other: string)
    requires forall i :: 0 <= i < 10 ==> FieldAt(fs, i + 2) == Star(Values(c)[i])
    requires FieldAt(fs, 12) == other
    ensures FromFields(fs) == Starred(c).(other := other)
  {
    var v := Values(c);
    assert FieldAt(fs, 0 + 2) == Star(v[0]) && FieldAt(fs, 1 + 2) == Star(v[1]) && FieldAt(fs, 2 + 2) == Star(v[2]);
    assert FieldAt(fs, 3 + 2) == Star(v[3]) && FieldAt(fs, 4 + 2) == Star(v[4]) && FieldAt(fs, 5 + 2) == Star(v[5]);
    assert FieldAt(fs, 6 + 2) == Star(v[6]) && FieldAt(fs, 7 + 2) == Star(v[7]) && FieldAt(fs, 8 + 2) == Star(v[8]);
    assert FieldAt(fs, 9 + 2) == Star(v[9]);
  }

  lemma FieldOfCanonical(c: CPE, i: nat)
    requires i < 10
    ensures FieldAt(Leading(c) + [TrimmedLast(c)], i + 2) == Star(Values(c)[i])
  {
    BoundFieldFacts(Values(c)[i]);
  }

  /** What the canonical form of any CPE parses to. */
  lemma ParseCanonical(c: CPE)
    ensures Parse(Canonical(c)) ==
            if !KnownPart(c.part) then Failure(InvalidPart)
            else if !NamedProduct(c.product) then Failure(NoProduct)
            else Success(Reread(c))
  {
    TrimCanonical(c);
    CanonicalStart(c, TrimmedLast(c));
    FieldsOfCanonical(c);
    FromFieldsOfCanonical(c);
  }

  lemma {:induction false} TrimRightFacts(v: string)
    ensures !EndsInSpace(TrimRight(v))
    ensures |TrimRight(v)| <= |v|
    ensures TrimRight(v) == v <==> !EndsInSpace(v)
  {
    if EndsInSpace(v) {
      TrimRightFacts(v[..|v| - 1]);
    }
  }

  /** Printing then parsing gives the CPE back, with empty fields as wildcards, if and only if its last
      field has no trailing space. */
  lemma PrintThenParse(c: CPE)
    requires KnownPart(c.part) && NamedProduct(c.product)
    ensures Parse(Canonical(c)) == Success(Starred(c)) <==> !EndsInSpace(c.other)
  {
    ParseCanonical(c);
    TrimRightFacts(c.other);
  }

  /** So the canonical form tells normalised CPEs apart. */
  lemma CanonicalInjective(c: CPE, d: CPE)
    requires KnownPart(c.part) && NamedProduct(c.product) && !EndsInSpace(c.other)
    requires KnownPart(d.part) && NamedProduct(d.product) && !EndsInSpace(d.other)
    ensures Canonical(c) == Canonical(d) <==> Starred(c) == Starred(d)
  {
    PrintThenParse(c);
    PrintThenParse(d);
    CanonicalOfStarred(c);
    CanonicalOfStarred(d);
  }

  lemma CanonicalOfStarred(c: CPE)
    ensures Canonical(Starred(c)) == Canonical(c)
  {
    forall i | 0 <= i < 10 ensures BoundField(Values(Starred(c))[i]) == BoundField(Values(c)[i]) {
      StarredValue(c, i);
    }
    SameLeading(Starred(c), c);
  }

  lemma StarredValue(c: CPE, i: nat)
    requires i < 10
    ensures Values(Starred(c))[i] == Star(Values(c)[i])
  {
  }

  lemma SameLeading(c: CPE, d: CPE)
    requires forall i :: 0 <= i < 10 ==> BoundField(Values(c)[i]) == BoundField(Values(d)[i])
    ensures Leading(c) == Leading(d)
  {
    var tail := seq(10, i requires 0 <= i < 10 => BoundField(Values(c)[i]));
    assert tail == seq(10, i requires 0 <= i < 10 => BoundField(Values(d)[i]));
  }

  // ----- canonical forms as fixed points -----

  lemma {:induction false} BindEndsInSpace(v: string)
    ensures EndsInSpace(BoundField(v)) <==> EndsInSpace(v)
  {
    if v != "" {
      EscapeSnoc(v[..|v| - 1], v[|v| - 1]);
      assert v == v[..|v| - 1] + [v[|v| - 1]];
    }
  }

  lemma CanonicalEndsInSpace(c: CPE)
    ensures EndsInSpace(Canonical(c)) <==> EndsInSpace(c.other)
  {
    JoinSnoc(Leading(c), BoundField(c.other));
    BindEndsInSpace(c.other);
  }

  /** The key is accepted and canonicalises to itself. */
  predicate ReadsBack(key: string) {
    Parse(key).Success? && Canonical(Parse(key).value) == key
  }

  /** The canonical form of a name reads back as itself if and only if its last field has no trailing space;
      what it reads back as never has any. */
  lemma CanonicalReadsBack(c: CPE)
    requires KnownPart(c.part) && NamedProduct(c.product)
    ensures Parse(Canonical(c)) == Success(Reread(c))
    ensures ReadsBack(Canonical(c)) <==> !EndsInSpace(c.other)
    ensures EndsInSpace(Canonical(c)) <==> EndsInSpace(c.other)
    ensures !EndsInSpace(Canonical(Reread(c)))
  {
    ParseCanonical(c);
    TrimRightFacts(c.other);
    CanonicalEndsInSpace(c);
    CanonicalEndsInSpace(Reread(c));
    if !EndsInSpace(c.other) {
      assert Reread(c) == Starred(c);
      CanonicalOfStarred(c);
    }
  }

  /** The canonical form of an accepted name is accepted again. It canonicalises to itself if and only if
      its last field has no trailing space. */
  lemma CanonicalFixedPoint(text: string)
    requires Parse(text).Success?
    ensures var c := Parse(text).value;
      && Parse(Canonical(c)).Success?
      && (ReadsBack(Canonical(c)) <==> !EndsInSpace(c.other))
  {
    CanonicalReadsBack(Parse(text).value);
  }

  lemma {:induction false} UnbindEndsInSpace(v: string)
    requires EndsInSpace(Unbind(v))
    ensures EndsInSpace(v)
  {
    if v != "" {
      if |v| >= 2 && v[0] == '\\' && Special(v[1]) {
        UnbindNonEmpty(v[2..]);
        assert !IsSpace(v[1]);
        if v[2..] != "" {
          assert Unbind(v) == [v[1]] + Unbind(v[2..]);
          UnbindEndsInSpace(v[2..]);
        }
      } else {
        UnbindNonEmpty(v[1..]);
        assert Unbind(v) == [v[0]] + Unbind(v[1..]);
        if v[1..] != "" {
          UnbindEndsInSpace(v[1..]);
        }
      }
    }
  }

  lemma UnbindNonEmpty(v: string)
    ensures Unbind(v) == "" <==> v == ""
  {
  }

  lemma {:induction false} LastOfJoin(fields: seq<string>)
    requires fields != [] && EndsInSpace(fields[|fields| - 1])
    ensures EndsInSpace(Join(fields))
  {
    if |fields| > 1 {
      LastOfJoin(fields[1..]);
    }
  }

  /** With at most 13 fields the last one cannot end in space, so canonical forms are fixed points. */
  lemma ShortNamesAreFixedPoints(text: string)
    requires Parse(text).Success? && |Fields(TrimSpace(text), false)| <= 13
    ensures var c := Parse(text).value;
      && !EndsInSpace(c.other)
      && ReadsBack(Canonical(c))
  {
    var s := TrimSpace(text);
    var fields := Fields(s, false);
    var c := Parse(text).value;
    if EndsInSpace(c.other) {
      assert |fields| == 13 && c.other == Unbind(fields[12]);
      UnbindEndsInSpace(fields[12]);
      LastOfJoin(fields);
      JoinFields(s, false);
      TrimRightFacts(TrimLeft(text));
    }
    CanonicalFixedPoint(text);
  }

  // ----- names that are not fixed points -----

  function Extended(c: CPE): seq<string> {
    Leading(c) + [BoundField(c.other)] + ["y"]
  }

  lemma ExtendedIsTrimmed(c: CPE)
    ensures var text := Canonical(c) + ":y"; PREFIX <= text && TrimSpace(text) == text
  {
    var text := Canonical(c) + ":y";
    CanonicalStart(c, BoundField(c.other));
    assert text[0] == 'c' && text[|text| - 1] == 'y';
    assert TrimLeft(text) == text && TrimRight(text) == text;
  }

  lemma FieldsOfExtended(c: CPE)
    ensures Fields(Canonical(c) + ":y", false) == Extended(c)
  {
    JoinSnoc(Leading(c) + [BoundField(c.other)], "y");
    assert Join(Extended(c)) == Canonical(c) + ":y";
    forall f | f in Extended(c) ensures Unsplit(f, false) {
      FieldOfName(c, f);
    }
    FieldsOfJoin(Extended(c));
  }

  lemma FromFieldsOfExtended(c: CPE)
    ensures FromFields(Extended(c)) == Starred(c)
  {
    var fields := Extended(c);
    forall i | 0 <= i < 10 ensures FieldAt(fields, i + 2) == Star(Values(c)[i]) {
      BoundFieldFacts(Values(c)[i]);
    }
    BoundFieldFacts(c.other);
    FromFieldValues(fields, c, Star(c.other));
  }

  lemma FieldOfName(c: CPE, f: string)
    requires f in Extended(c)
    ensures Unsplit(f, false)
  {
    UnsplitWord("cpe");
    UnsplitWord("2.3");
    UnsplitWord("y");
    BoundFieldFacts(c.other);
    if f in Leading(c)[2..] {
      var i :| 0 <= i < 10 && f == BoundField(Values(c)[i]);
      BoundFieldFacts(Values(c)[i]);
    }
  }

  /** Every normalised CPE, trailing space or not, is what some accepted text reads as: its canonical form
      with a fourteenth field after it. */
  lemma EveryNameIsRead(c: CPE)
    requires KnownPart(c.part) && NamedProduct(c.product)
    ensures Parse(Canonical(c) + ":y") == Success(Starred(c))
  {
    ExtendedIsTrimmed(c);
    FieldsOfExtended(c);
    FromFieldsOfExtended(c);
  }

  /** A name whose last field ends in a space. */
  const SPACED_NAME := CPE("a", "v", "p", "1", "*", "*", "*", "*", "*", "*", "x ")

  /** An accepted text whose canonical form does not read back as itself. */
  lemma SpacedNameIsNotFixed(text: string)
    requires text == Canonical(SPACED_NAME) + ":y"
    ensures Parse(text) == Success(SPACED_NAME)
    ensures EndsInSpace(SPACED_NAME.other)
    ensures Parse(Canonical(SPACED_NAME)).Success? && !ReadsBack(Canonical(SPACED_NAME))
    ensures Parse(Canonical(SPACED_NAME)) != Success(Starred(SPACED_NAME))
  {
    EveryNameIsRead(SPACED_NAME);
    CanonicalFixedPoint(text);
    PrintThenParse(SPACED_NAME);
  }

  // ----- reading whole texts -----

  lemma SixFields(a: string, b: string, c: string, d: string, e: string, f: string)
    ensures Join([a, b, c, d, e, f]) == a + ":" + b + ":" + c + ":" + d + ":" + e + ":" + f
  {
    JoinSnoc([a], b);
    JoinSnoc([a, b], c);
    JoinSnoc([a, b, c], d);
    JoinSnoc([a, b, c, d], e);
    JoinSnoc([a, b, c, d, e], f);
    assert [a] + [b] == [a, b] && [a, b] + [c] == [a, b, c] && [a, b, c] + [d] == [a, b, c, d];
    assert [a, b, c, d] + [e] == [a, b, c, d, e] && [a, b, c, d, e] + [f] == [a, b, c, d, e, f];
  }

  function ShortFields(part: string, vendor: string, product: string, version: string): seq<string> {
    ["cpe", "2.3", Bind(part), Bind(vendor), Bind(product), Bind(version)]
  }

  function ShortForm(part: string, vendor: string, product: string, version: string): string {
    "cpe:2.3:" + Bind(part) + ":" + Bind(vendor) + ":" + Bind(product) + ":" + Bind(version)
  }

  lemma ShortFormIsJoined(part: string, vendor: string, product: string, version: string)
    ensures Fields(ShortForm(part, vendor, product, version), false) == ShortFields(part, vendor, product, version)
  {
    var fields := ShortFields(part, vendor, product, version);
    SixFields("cpe", "2.3", Bind(part), Bind(vendor), Bind(product), Bind(version));
    assert "cpe" + ":" + "2.3" + ":" == "cpe:2.3:";
    assert ShortForm(part, vendor, product, version) == Join(fields);
    UnsplitWord("cpe");
    UnsplitWord("2.3");
    UnsplitBind(part);
    UnsplitBind(vendor);
    UnsplitBind(product);
    UnsplitBind(version);
    FieldsOfJoin(fields);
  }

  lemma TrimmedByLastField(head: string, v: string)
    requires head != "" && head[0] == 'c' && !EndsInSpace(v)
    ensures TrimSpace(head + ":" + Bind(v)) == head + ":" + Bind(v)
  {
    var text := head + ":" + Bind(v);
    BindEndsInSpace(v);
    assert text[|text| - 1] == if Bind(v) == "" then ':' else Bind(v)[|Bind(v)| - 1];
    assert text[0] == 'c';
  }

  lemma ShortFormIsTrimmed(part: string, vendor: string, product: string, version: string)
    requires !EndsInSpace(version)
    ensures TrimSpace(ShortForm(part, vendor, product, version)) == ShortForm(part, vendor, product, version)
  {
    TrimmedByLastField("cpe:2.3:" + Bind(part) + ":" + Bind(vendor) + ":" + Bind(product), version);
  }

  lemma FromShortFields(part: string, vendor: string, product: string, version: string)
    ensures FromFields(ShortFields(part, vendor, product, version)) ==
            CPE(part, vendor, product, version, "*", "*", "*", "*", "*", "*", "*")
  {
    UnbindBind(part);
    UnbindBind(vendor);
    UnbindBind(product);
    UnbindBind(version);
  }

  /** The short form of a name, ending at its version, reads as that part, vendor, product and version, and as a
      wildcard in every later field. Only applications, systems and hardware with a product are accepted. */
  lemma ShortFormReads(part: string, vendor: string, product: string, version: string)
    requires !EndsInSpace(version)
    ensures Parse("cpe:2.3:" + Bind(part) + ":" + Bind(vendor) + ":" + Bind(product) + ":" + Bind(version)) ==
            if part != "a" && part != "o" && part != "h" then Failure(InvalidPart)
            else if product == "" || product == "*" then Failure(NoProduct)
            else Success(CPE(part, vendor, product, version, "*", "*", "*", "*", "*", "*", "*"))
  {
    ShortFormIsJoined(part, vendor, product, version);
    ShortFormIsTrimmed(part, vendor, product, version);
    FromShortFields(part, vendor, product, version);
    var text := ShortForm(part, vendor, product, version);
    assert PREFIX <= text;
  }

  /** A text is refused for its prefix or for having fewer than five fields, and then for nothing else. */
  lemma ShortTextsAreRefused(text: string)
    ensures Parse(text) == Failure(NotCpe23) <==> !("cpe:2.3:" <= TrimSpace(text))
    ensures Parse(text) == Failure(TooFewFields) <==>
      "cpe:2.3:" <= TrimSpace(text) && |Fields(TrimSpace(text), false)| < 5
  {
  }

  /** s ends inside an escape. */
  predicate EndsEscaped(s: string, escaped: bool) {
    if s == "" then escaped else EndsEscaped(s[1..], !escaped && s[0] == '\\')
  }

  lemma HeadAppended(c: char, rest: seq<string>, last: string)
    requires rest != []
    ensures [[c] + (rest + [last])[0]] + (rest + [last])[1..] == [[c] + rest[0]] + rest[1..] + [last]
  {
    assert (rest + [last])[0] == rest[0] && (rest + [last])[1..] == rest[1..] + [last];
  }

  lemma FieldAppendedNext(s: string, t: string, escaped: bool)
    requires s != "" && t != "" && s[0] == t[0] && (escaped || s[0] != ':')
    requires var escaped' := !escaped && s[0] == '\\'; Fields(t[1..], escaped') == Fields(s[1..], escaped') + ["*"]
    ensures Fields(t, escaped) == Fields(s, escaped) + ["*"]
  {
    HeadAppended(s[0], Fields(s[1..], !escaped && s[0] == '\\'), "*");
  }

  lemma {:induction false} FieldAppended(s: string, escaped: bool)
    requires !EndsEscaped(s, escaped)
    ensures Fields(s + ":*", escaped) == Fields(s, escaped) + ["*"]
  {
    var t := s + ":*";
    if s == "" {
      assert t[1..] == "*";
      FieldsOfUnsplit("*", false);
    } else {
      assert t[0] == s[0] && t[1..] == s[1..] + ":*";
      if !escaped && s[0] == ':' {
        FieldAppended(s[1..], false);
      } else {
        FieldAppended(s[1..], !escaped && s[0] == '\\');
        FieldAppendedNext(s, t, escaped);
      }
    }
  }

  lemma WildcardField(fields: seq<string>)
    requires 5 <= |fields| <= 12
    ensures FromFields(fields + ["*"]) == FromFields(fields)
  {
    var more := fields + ["*"];
    UnbindBind("*");
    assert forall i: nat :: i < |fields| ==> more[i] == fields[i];
    assert forall i: nat :: FieldAt(more, i) == FieldAt(fields, i);
  }

  /** A missing field reads as a wildcard written out: appending one changes nothing, for any name of 5 to 12
      fields that does not end in an open escape. */
  lemma MissingFieldIsWildcard(text: string)
    requires 5 <= |Fields(TrimSpace(text), false)| <= 12
    requires PREFIX <= TrimSpace(text) && !EndsEscaped(TrimSpace(text), false)
    ensures Parse(TrimSpace(text) + ":*") == Parse(text)
  {
    var s := TrimSpace(text);
    assert s[0] == 'c' && (s + ":*")[0] == 'c' && (s + ":*")[|s| + 1] == '*';
    assert TrimSpace(s + ":*") == s + ":*";
    assert PREFIX <= s + ":*";
    FieldAppended(s, false);
    WildcardField(Fields(s, false));
  }

  // ----- writing -----

  /** Exactly backslash, colon, question mark and star are escaped, each with one backslash, character by
      character. */
  lemma {:induction false} EscapeByCharacter(v: string, w: string)
    ensures Escape(v + w) == Escape(v) + Escape(w)
    ensures |v| == 1 ==>
      Escape(v) == if v[0] == '\\' || v[0] == ':' || v[0] == '?' || v[0] == '*' then ['\\', v[0]] else v
  {
    if v == "" {
      assert v + w == w;
    } else {
      EscapeByCharacter(v[1..], w);
      assert (v + w)[0] == v[0] && (v + w)[1..] == v[1..] + w;
      if |v| == 1 {
        assert v[1..] == "";
      }
    }
  }

  /** v has no backslash before one of the four characters that are escaped. */
  predicate NothingQuoted(v: string) {
    forall i :: 0 <= i < |v| - 1 && v[i] == '\\' ==>
      v[i + 1] != '\\' && v[i + 1] != ':' && v[i + 1] != '?' && v[i + 1] != '*'
  }

  /** Other backslashes are kept as they are. */
  lemma {:induction false} UnbindKeepsOthers(v: string)
    requires NothingQuoted(v)
    ensures Unbind(v) == v
  {
    if v != "" {
      UnbindKeepsOthers(v[1..]);
    }
  }

  predicate PlainText(v: string) {
    forall c <- v :: c != '\\' && c != ':' && c != '?' && c != '*'
  }

  lemma {:induction false} PlainEscape(v: string)
    requires PlainText(v)
    ensures Escape(v) == v
  {
    if v != "" {
      assert v[0] in v && forall c <- v[1..] :: c in v;
      PlainEscape(v[1..]);
    }
  }

  /** A field without special characters is written as it is, a wildcard or an empty field as a star. */
  lemma PlainField(v: string)
    requires PlainText(v) || v == "*"
    ensures BoundField(v) == if v == "" then "*" else v
  {
    if v != "*" {
      PlainEscape(v);
    }
  }

  /** Joining the first n + 1 fields is joining the first n, a colon and the next. */
  lemma JoinNext(fields: seq<string>, n: nat)
    requires 0 < n < |fields|
    ensures Join(fields[..n + 1]) == Join(fields[..n]) + ":" + fields[n]
  {
    JoinSnoc(fields[..n], fields[n]);
    assert fields[..n + 1] == fields[..n] + [fields[n]];
  }

  lemma JoinFour(fs: seq<string>, n: nat)
    requires 0 < n && n + 4 <= |fs|
    ensures Join(fs[..n + 4]) ==
      Join(fs[..n]) + ":" + fs[n] + ":" + fs[n + 1] + ":" + fs[n + 2] + ":" + fs[n + 3]
  {
    JoinNext(fs, n);
    JoinNext(fs, n + 1);
    JoinNext(fs, n + 2);
    JoinNext(fs, n + 3);
  }

  lemma JoinThirteen(fs: seq<string>)
    requires |fs| == 13
    ensures Join(fs) ==
      fs[0] + ":" + fs[1] + ":" + fs[2] + ":" + fs[3] + ":" + fs[4] + ":" + fs[5] + ":" + fs[6] + ":" +
      fs[7] + ":" + fs[8] + ":" + fs[9] + ":" + fs[10] + ":" + fs[11] + ":" + fs[12]
  {
    assert Join(fs[..1]) == fs[0];
    JoinFour(fs, 1);
    JoinFour(fs, 5);
    JoinFour(fs, 9);
    assert fs[..13] == fs;
  }

  lemma PlainFields(c: CPE)
    requires forall v <- Values(c) + [c.other] :: PlainText(v) || v == "*"
    ensures forall i :: 0 <= i < 10 ==> BoundField(Values(c)[i]) == Star(Values(c)[i])
    ensures BoundField(c.other) == Star(c.other)
  {
    var vs := Values(c) + [c.other];
    forall i | 0 <= i < 11 ensures BoundField(vs[i]) == Star(vs[i]) {
      PlainField(vs[i]);
    }
    assert vs[10] == c.other && forall i :: 0 <= i < 10 ==> vs[i] == Values(c)[i];
  }

  /** The canonical form writes the eleven attributes after the prefix, in order. */
  lemma CanonicalText(c: CPE)
    requires forall v <- Values(c) + [c.other] :: PlainText(v) || v == "*"
    ensures Canonical(c) ==
      "cpe" + ":" + "2.3" + ":" + Star(c.part) + ":" + Star(c.vendor) + ":" + Star(c.product) + ":" + Star(c.version) +
      ":" + Star(c.update) + ":" + Star(c.edition) + ":" + Star(c.language) + ":" + Star(c.swEdition) + ":" +
      Star(c.targetSW) + ":" + Star(c.targetHW) + ":" + Star(c.other)
  {
    PlainFields(c);
    JoinThirteen(Leading(c) + [BoundField(c.other)]);
  }

  /** A label is the product, after the vendor if that is given and different, before the version if that is given. */
  lemma LabelReads(c: CPE)
    ensures var vendorGiven := c.vendor != "" && c.vendor != "*" && c.vendor != c.product;
      var versionGiven := c.version != "" && c.version != "*" && c.version != "-";
      && (vendorGiven && versionGiven ==> Label(c) == c.vendor + " " + c.product + " " + c.version)
      && (vendorGiven && !versionGiven ==> Label(c) == c.vendor + " " + c.product)
      && (!vendorGiven && versionGiven ==> Label(c) == c.product + " " + c.version)
      && (!vendorGiven && !versionGiven ==> Label(c) == c.product)
  {
  }
}
