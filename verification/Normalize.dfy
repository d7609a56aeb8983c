/** From what a person types, or an SBOM calls a package, to the name NVD indexes it under. */
module Normalize {
  import opened Prelude
  import opened Cpe

  function UnderscoreSpaces(s: string): (r: string)
    ensures |r| == |s|
    ensures forall i :: 0 <= i < |s| ==> r[i] == if s[i] == ' ' then '_' else s[i]
  {
    seq(|s|, i requires 0 <= i < |s| => if s[i] == ' ' then '_' else s[i])
  }

  function NormalizeToken(s: string): string {
    UnderscoreSpaces(TrimSpace(ToLower(s)))
  }

  /** Application names whose plain token is not the one NVD uses. */
  function AppAlias(tok: string): Option<string> {
    if tok == "apache_http_server" || tok == "apache_httpd" || tok == "httpd" then Some("http_server")
    else if tok == "apache_tomcat" then Some("tomcat")
    else if tok == "apache_log4j" then Some("log4j")
    else if tok == "apache_struts" then Some("struts")
    else if tok == "microsoft_iis" || tok == "iis" then Some("internet_information_services")
    else if tok == "microsoft_exchange" || tok == "ms_exchange" then Some("exchange_server")
    else if tok == "oracle_mysql" then Some("mysql")
    else if tok == "elastic_search" then Some("elasticsearch")
    else if tok == "open_ssl" then Some("openssl")
    else if tok == "open_ssh" then Some("openssh")
    else if tok == "nodejs" || tok == "node" then Some("node.js")
    else if tok == "postgres" then Some("postgresql")
    else None
  }

  /** Operating-system names that are already NVD's own token. */
  predicate OsName(tok: string) {
    || tok == "linux_kernel" || tok == "ubuntu_linux" || tok == "debian_linux" || tok == "centos"
    || tok == "alpine_linux" || tok == "freebsd" || tok == "macos" || tok == "mac_os_x" || tok == "android"
  }

  /** Operating-system names, which NVD indexes under another part. */
  function OsAlias(tok: string): Option<string> {
    if OsName(tok) then Some(tok)
    else if tok == "linux" || tok == "kernel" then Some("linux_kernel")
    else if tok == "ubuntu" then Some("ubuntu_linux")
    else if tok == "debian" then Some("debian_linux")
    else if tok == "rhel" || tok == "red_hat_enterprise_linux" then Some("enterprise_linux")
    else if tok == "alpine" then Some("alpine_linux")
    else if tok == "ios" then Some("iphone_os")
    else None
  }

  predicate OsFamily(tok: string, prefix: string) {
    tok == prefix || prefix + "_" <= tok || prefix + "-" <= tok
  }

  const SYSTEM_FAMILIES: seq<string> :=
    ["windows", "esxi", "junos", "ios_xe", "ios_xr", "nx-os", "fortios", "pan-os"]

  const SYSTEM_SUFFIXES: seq<string> := ["_linux", "_os", "bsd"]

  predicate LooksLikeOS(tok: string) {
    || (exists p <- SYSTEM_FAMILIES :: OsFamily(tok, p))
    || (exists s <- SYSTEM_SUFFIXES :: HasSuffix(tok, s))
  }

  datatype Name = Name(part: string, product: string)

  function NormalizeTokenName(tok: string): Name {
    if tok == "" then Name("a", "")
    else if AppAlias(tok).Some? then Name("a", AppAlias(tok).value)
    else if OsAlias(tok).Some? then Name("o", OsAlias(tok).value)
    else Name(if LooksLikeOS(tok) then "o" else "a", tok)
  }

  function NormalizeName(product: string): Name {
    NormalizeTokenName(NormalizeToken(product))
  }

  /** A version that is nothing but a major number. */
  predicate BareMajor(v: string) {
    v != "" && forall c <- v :: '0' <= c <= '9'
  }

  function NormalizeVersion(part: string, version: string): string {
    var v := NormalizeToken(version);
    if v == "" then "*"
    else if part == "o" && BareMajor(v) then v + ".0"
    else v
  }

  datatype EmptyProduct = EmptyProduct

  function FromProductVersion(product: string, version: string): Result<CPE, EmptyProduct> {
    var name := NormalizeName(product);
    if name.product == "" then Failure(EmptyProduct)
    else Success(CPE(name.part, "*", name.product, NormalizeVersion(name.part, version),
                     "", "", "", "", "", "", ""))
  }

  // ----- tokens are fixed points -----

  /** No capitals, no blanks, and no white space at either end. */
  predicate IsToken(s: string) {
    && (forall i :: 0 <= i < |s| ==> s[i] != ' ' && !('A' <= s[i] <= 'Z'))
    && (s != "" ==> !IsSpace(s[0]) && !IsSpace(s[|s| - 1]))
  }

  lemma {:induction false} TrimLeftSuffix(s: string) returns (i: nat)
    ensures i <= |s| && TrimLeft(s) == s[i..]
    ensures TrimLeft(s) != "" ==> !IsSpace(TrimLeft(s)[0])
    ensures forall k :: 0 <= k < i ==> IsSpace(s[k])
  {
    i := 0;
    if s != "" && IsSpace(s[0]) {
      var j := TrimLeftSuffix(s[1..]);
      i := j + 1;
      assert forall k :: 1 <= k < i ==> s[k] == s[1..][k - 1];
    }
  }

  lemma {:induction false} TrimRightPrefix(s: string) returns (i: nat)
    ensures i <= |s| && TrimRight(s) == s[..i]
    ensures forall k :: i <= k < |s| ==> IsSpace(s[k])
  {
    i := |s|;
    if EndsInSpace(s) {
      i := TrimRightPrefix(s[..|s| - 1]);
      assert forall k :: i <= k < |s| - 1 ==> s[k] == s[..|s| - 1][k];
    }
  }

  /** Trimmed text is a slice of the text: all around it is white space, and it neither begins nor ends with any. */
  lemma TrimSpaceSlice(s: string) returns (i: nat, j: nat)
    ensures i <= j <= |s| && TrimSpace(s) == s[i..j]
    ensures i < j ==> !IsSpace(s[i]) && !IsSpace(s[j - 1])
    ensures forall k :: 0 <= k < i || j <= k < |s| ==> IsSpace(s[k])
  {
    i := TrimLeftSuffix(s);
    var t := s[i..];
    var n := TrimRightPrefix(t);
    TrimRightFacts(t);
    j := i + n;
    assert t[..n] == s[i..j];
    assert forall k :: j <= k < |s| ==> s[k] == t[k - i];
    if n > 0 {
      assert t[0] == s[i] && t[..n][n - 1] == s[j - 1];
    }
  }

  lemma NormalizeTokenIsToken(s: string)
    ensures IsToken(NormalizeToken(s))
  {
    var low := ToLower(s);
    var i, j := TrimSpaceSlice(low);
    var u := TrimSpace(low);
    var r := NormalizeToken(s);
    forall k | 0 <= k < |r| ensures r[k] != ' ' && !('A' <= r[k] <= 'Z') {
      assert u[k] == low[i + k] == LowerChar(s[i + k]);
    }
  }

  lemma TokenIsFixed(s: string)
    requires IsToken(s)
    ensures NormalizeToken(s) == s
  {
    assert forall i :: 0 <= i < |s| ==> ToLower(s)[i] == s[i];
    assert ToLower(s) == s;
    assert TrimSpace(s) == s;
    assert forall i :: 0 <= i < |s| ==> UnderscoreSpaces(s)[i] == s[i];
  }

  // ----- the table is closed -----

  /** The length and first two letters of the application aliases. */
  predicate AppShape(n: nat, a: char, b: char) {
    || (n == 3 && a == 'i' && b == 'i')
    || (n == 4 && a == 'n' && b == 'o')
    || (n == 5 && a == 'h' && b == 't')
    || (n == 6 && a == 'n' && b == 'o')
    || (n == 8 && a == 'o' && b == 'p')
    || (n == 8 && a == 'p' && b == 'o')
    || (n == 11 && a == 'm' && b == 's')
    || (n == 12 && a == 'a' && b == 'p')
    || (n == 12 && a == 'o' && b == 'r')
    || (n == 13 && a == 'a' && b == 'p')
    || (n == 13 && a == 'm' && b == 'i')
    || (n == 14 && a == 'e' && b == 'l')
    || (n == 18 && a == 'a' && b == 'p')
    || (n == 18 && a == 'm' && b == 'i')
  }

  /** The length and first two letters of the operating-system aliases. */
  predicate OsAliasShape(n: nat, a: char, b: char) {
    || (n == 3 && a == 'i' && b == 'o')
    || (n == 4 && a == 'r' && b == 'h')
    || (n == 5 && a == 'l' && b == 'i')
    || (n == 5 && a == 'm' && b == 'a')
    || (n == 6 && a == 'a' && b == 'l')
    || (n == 6 && a == 'c' && b == 'e')
    || (n == 6 && a == 'd' && b == 'e')
    || (n == 6 && a == 'k' && b == 'e')
    || (n == 6 && a == 'u' && b == 'b')
    || (n == 7 && a == 'a' && b == 'n')
    || (n == 7 && a == 'f' && b == 'r')
    || (n == 8 && a == 'm' && b == 'a')
    || (n == 12 && a == 'a' && b == 'l')
    || (n == 12 && a == 'd' && b == 'e')
    || (n == 12 && a == 'l' && b == 'i')
    || (n == 12 && a == 'u' && b == 'b')
    || (n == 24 && a == 'r' && b == 'e')
  }

  lemma AppAliasShape(tok: string)
    requires AppAlias(tok).Some?
    ensures |tok| >= 3 && AppShape(|tok|, tok[0], tok[1])
  {
  }

  lemma OsAliasHasShape(tok: string)
    requires OsAlias(tok).Some?
    ensures |tok| >= 3 && OsAliasShape(|tok|, tok[0], tok[1])
  {
  }

  /** How a token that looks like an operating system begins or ends. */
  predicate OsShape(a: char, b: char, y: char, z: char) {
    || (a == 'w' && b == 'i') || (a == 'e' && b == 's') || (a == 'j' && b == 'u') || (a == 'i' && b == 'o')
    || (a == 'n' && b == 'x') || (a == 'f' && b == 'o') || (a == 'p' && b == 'a')
    || (y == 'u' && z == 'x') || (y == 'o' && z == 's') || (y == 's' && z == 'd')
  }

  lemma OsFamilyStart(tok: string, prefix: string)
    requires |prefix| >= 2 && OsFamily(tok, prefix)
    ensures |tok| >= 2 && tok[0] == prefix[0] && tok[1] == prefix[1]
  {
    assert (prefix + "_")[0] == (prefix + "-")[0] == prefix[0];
    assert (prefix + "_")[1] == (prefix + "-")[1] == prefix[1];
  }

  lemma SuffixEnd(tok: string, suffix: string)
    requires |suffix| >= 2 && HasSuffix(tok, suffix)
    ensures |tok| >= 2
    ensures tok[|tok| - 1] == suffix[|suffix| - 1] && tok[|tok| - 2] == suffix[|suffix| - 2]
  {
    var t := tok[|tok| - |suffix|..];
    assert t[|suffix| - 1] == tok[|tok| - 1] && t[|suffix| - 2] == tok[|tok| - 2];
  }

  lemma FamilyShape(p: string)
    requires p in SYSTEM_FAMILIES
    ensures |p| >= 2 && OsShape(p[0], p[1], 'x', 'x')
  {
  }

  lemma SuffixShape(s: string)
    requires s in SYSTEM_SUFFIXES
    ensures |s| >= 2 && OsShape('x', 'x', s[|s| - 2], s[|s| - 1])
  {
  }

  lemma OsHasShape(tok: string)
    requires LooksLikeOS(tok)
    ensures |tok| >= 2 && OsShape(tok[0], tok[1], tok[|tok| - 2], tok[|tok| - 1])
  {
    if exists p <- SYSTEM_FAMILIES :: OsFamily(tok, p) {
      var p :| p in SYSTEM_FAMILIES && OsFamily(tok, p);
      FamilyShape(p);
      OsFamilyStart(tok, p);
    } else {
      var s :| s in SYSTEM_SUFFIXES && HasSuffix(tok, s);
      SuffixShape(s);
      SuffixEnd(tok, s);
    }
  }

  /** A token unlike every alias and every operating system stands for itself, as an application. */
  lemma PlainApplication(tok: string)
    requires |tok| >= 3
    requires !AppShape(|tok|, tok[0], tok[1]) && !OsAliasShape(|tok|, tok[0], tok[1])
    requires !OsShape(tok[0], tok[1], tok[|tok| - 2], tok[|tok| - 1])
    ensures NormalizeTokenName(tok) == Name("a", tok)
  {
    if AppAlias(tok).Some? {
      AppAliasShape(tok);
    }
    if OsAlias(tok).Some? {
      OsAliasHasShape(tok);
    }
    if LooksLikeOS(tok) {
      OsHasShape(tok);
    }
  }

  lemma PlainSystem(tok: string)
    requires |tok| >= 3 && LooksLikeOS(tok)
    requires !AppShape(|tok|, tok[0], tok[1]) && !OsAliasShape(|tok|, tok[0], tok[1])
    ensures NormalizeTokenName(tok) == Name("o", tok)
  {
    if AppAlias(tok).Some? {
      AppAliasShape(tok);
    }
    if OsAlias(tok).Some? {
      OsAliasHasShape(tok);
    }
  }

  /** The name is a token that normalises to itself. */
  predicate Stable(name: Name) {
    IsToken(name.product) && name.product != "" && name.product != "*" && NormalizeTokenName(name.product) == name
  }

  /** A token of three letters or more that begins like no alias. */
  predicate Unaliased(p: string) {
    |p| >= 3 && IsToken(p) && !AppShape(|p|, p[0], p[1]) && !OsAliasShape(|p|, p[0], p[1])
  }

  predicate Plain(p: string) {
    Unaliased(p) && !OsShape(p[0], p[1], p[|p| - 2], p[|p| - 1])
  }

  predicate SystemToken(p: string) {
    |p| >= 3 && IsToken(p) && !AppShape(|p|, p[0], p[1])
  }

  lemma ApacheNamesArePlain(p: string)
    requires p in ["http_server", "tomcat", "log4j", "struts"]
    ensures Plain(p)
  {
  }

  lemma OpenSourceNamesArePlain(p: string)
    requires p in ["openssl", "openssh", "node.js", "mysql"]
    ensures Plain(p)
  {
  }

  lemma StorageNamesArePlain(p: string)
    requires p in ["elasticsearch", "postgresql"]
    ensures Plain(p)
  {
  }

  lemma ExchangeIsPlain(p: string)
    requires p == "exchange_server"
    ensures Plain(p)
  {
  }

  lemma IisIsPlain(p: string)
    requires p == "internet_information_services"
    ensures Plain(p)
  {
  }

  lemma LinuxNamesAreTokens(p: string)
    requires p in ["linux_kernel", "ubuntu_linux", "debian_linux"]
    ensures SystemToken(p)
  {
  }

  lemma UnixNamesAreTokens(p: string)
    requires p in ["centos", "alpine_linux", "freebsd"]
    ensures SystemToken(p)
  {
  }

  lemma DeviceNamesAreTokens(p: string)
    requires p in ["macos", "mac_os_x", "android"]
    ensures SystemToken(p)
  {
  }

  lemma EnterpriseLinuxIsUnaliased(p: string)
    requires p == "enterprise_linux"
    ensures Unaliased(p) && HasSuffix(p, "_linux")
  {
    assert p == "enterprise" + "_linux";
  }

  lemma IphoneOsIsUnaliased(p: string)
    requires p == "iphone_os"
    ensures Unaliased(p) && HasSuffix(p, "_os")
  {
    assert p == "iphone" + "_os";
  }

  /** Every product either table gives normalises to itself, with the same part. */
  lemma AppAliasesAreStable(tok: string)
    requires AppAlias(tok).Some?
    ensures Stable(Name("a", AppAlias(tok).value))
  {
    AppProductsArePlain(tok);
    PlainApplication(AppAlias(tok).value);
  }

  lemma AppProductsArePlain(tok: string)
    requires AppAlias(tok).Some?
    ensures Plain(AppAlias(tok).value)
  {
    var p := AppAlias(tok).value;
    if p in ["http_server", "tomcat", "log4j", "struts"] {
      ApacheNamesArePlain(p);
    } else if p in ["elasticsearch", "postgresql"] {
      StorageNamesArePlain(p);
    } else if p == "exchange_server" {
      ExchangeIsPlain(p);
    } else if p == "internet_information_services" {
      IisIsPlain(p);
    } else {
      OpenSourceNamesArePlain(p);
    }
  }

  lemma OsAliasesAreStable(tok: string)
    requires OsAlias(tok).Some?
    ensures Stable(Name("o", OsAlias(tok).value))
  {
    var p := OsAlias(tok).value;
    if OsName(p) {
      OsNamesAreTokens(p);
      if AppAlias(p).Some? {
        AppAliasShape(p);
      }
    } else {
      OtherSystemsAreUnaliased(tok);
      PlainSystem(p);
    }
  }

  lemma OsNamesAreTokens(p: string)
    requires OsName(p)
    ensures SystemToken(p)
  {
    if p in ["linux_kernel", "ubuntu_linux", "debian_linux"] {
      LinuxNamesAreTokens(p);
    } else if p in ["centos", "alpine_linux", "freebsd"] {
      UnixNamesAreTokens(p);
    } else {
      DeviceNamesAreTokens(p);
    }
  }

  lemma OtherSystemsAreUnaliased(tok: string)
    requires OsAlias(tok).Some? && !OsName(OsAlias(tok).value)
    ensures Unaliased(OsAlias(tok).value) && LooksLikeOS(OsAlias(tok).value)
  {
    var p := OsAlias(tok).value;
    if p == "enterprise_linux" {
      EnterpriseLinuxIsUnaliased(p);
    } else {
      IphoneOsIsUnaliased(p);
    }
  }

  lemma NameIsFixed(product: string)
    requires NormalizeName(product).product != ""
    ensures NormalizeName(NormalizeName(product).product) == NormalizeName(product)
  {
    var tok := NormalizeToken(product);
    NormalizeTokenIsToken(product);
    if AppAlias(tok).Some? {
      AppAliasesAreStable(tok);
    } else if OsAlias(tok).Some? {
      OsAliasesAreStable(tok);
    }
    TokenIsFixed(NormalizeName(product).product);
  }

  lemma VersionIsFixed(part: string, version: string)
    ensures NormalizeVersion(part, NormalizeVersion(part, version)) == NormalizeVersion(part, version)
  {
    var v := NormalizeToken(version);
    NormalizeTokenIsToken(version);
    var r := NormalizeVersion(part, version);
    assert "*"[0] in "*";
    if part == "o" && BareMajor(v) {
      assert r[|v|] == '.' && r[|v|] in r;
      assert r[|r| - 1] == '0';
      assert IsToken(r);
    }
    TokenIsFixed(r);
  }

  /** A token is the text without its surrounding white space, in lower case, with underscores for blanks. */
  lemma TokenReads(s: string) returns (i: nat, j: nat)
    ensures i <= j <= |s| && |NormalizeToken(s)| == j - i
    ensures i < j ==> !IsSpace(s[i]) && !IsSpace(s[j - 1])
    ensures forall k :: 0 <= k < i || j <= k < |s| ==> IsSpace(s[k])
    ensures forall k :: 0 <= k < j - i ==>
      NormalizeToken(s)[k] == if s[i + k] == ' ' then '_' else LowerChar(s[i + k])
  {
    var low := ToLower(s);
    i, j := TrimSpaceSlice(low);
    assert forall k :: 0 <= k < |s| ==> low[k] == LowerChar(s[k]) && (IsSpace(low[k]) <==> IsSpace(s[k]));
    forall k | 0 <= k < j - i
      ensures NormalizeToken(s)[k] == if s[i + k] == ' ' then '_' else LowerChar(s[i + k])
    {
      assert TrimSpace(low)[k] == low[i + k] == LowerChar(s[i + k]);
    }
  }

  lemma NameGiven(tok: string)
    ensures NormalizeTokenName(tok).product == "" <==> tok == ""
  {
    if AppAlias(tok).Some? {
      AppAliasesAreStable(tok);
    } else if OsAlias(tok).Some? {
      OsAliasesAreStable(tok);
    }
  }

  /** A name can be derived from anything that is not blank. */
  lemma BlankHasNoName(product: string, version: string)
    ensures FromProductVersion(product, version).Failure? <==> forall c <- product :: IsSpace(c)
  {
    var i, j := TokenReads(product);
    NameGiven(NormalizeToken(product));
    if i < j {
      assert product[i] in product;
    }
  }

  /** Normalising a normalised product and version changes nothing, for every input and so for the whole
      alias table. */
  lemma FromProductVersionFixedPoint(product: string, version: string)
    requires FromProductVersion(product, version).Success?
    ensures var c := FromProductVersion(product, version).value;
      FromProductVersion(c.product, c.version) == Success(c)
  {
    NameIsFixed(product);
    VersionIsFixed(NormalizeName(product).part, version);
  }

  lemma VersionIsGiven(part: string, version: string)
    ensures NormalizeVersion(part, version) != ""
  {
  }

  /** The derived name is accepted as a target, and is its own canonical form, exactly when the product is
      not a bare wildcard. */
  lemma DerivedNameIsAccepted(product: string, version: string)
    requires FromProductVersion(product, version).Success?
    ensures var c := FromProductVersion(product, version).value;
      && (Parse(Canonical(c)).Success? <==> NormalizeToken(product) != "*")
      && (Parse(Canonical(c)).Success? ==>
            Parse(Canonical(c)).value ==
            CPE(NormalizeName(product).part, "*", NormalizeName(product).product,
                NormalizeVersion(NormalizeName(product).part, version), "*", "*", "*", "*", "*", "*", "*"))
  {
    NameIsKnown(product);
    VersionIsGiven(NormalizeName(product).part, version);
    ParseCanonical(FromProductVersion(product, version).value);
  }

  lemma NameIsKnown(product: string)
    requires NormalizeName(product).product != ""
    ensures KnownPart(NormalizeName(product).part)
    ensures NormalizeName(product).product == "*" <==> NormalizeToken(product) == "*"
  {
    var tok := NormalizeToken(product);
    if AppAlias(tok).Some? {
      AppAliasShape(tok);
      AppAliasesAreStable(tok);
    } else if OsAlias(tok).Some? {
      OsAliasHasShape(tok);
      OsAliasesAreStable(tok);
    }
  }

  // ----- what names and versions become -----

  /** A bare number becomes a release of a system, and stays as it is for anything else; other version tokens are
      never changed; a blank version is a wildcard. */
  lemma VersionReads(part: string, version: string)
    requires IsToken(version)
    ensures version == "" ==> NormalizeVersion(part, version) == "*"
    ensures version != "" && (forall c <- version :: '0' <= c <= '9') ==>
      NormalizeVersion(part, version) == if part == "o" then version + ".0" else version
    ensures (exists c <- version :: !('0' <= c <= '9')) ==> NormalizeVersion(part, version) == version
  {
    TokenIsFixed(version);
  }

  /** A family, a family with more after a dash or underscore, and anything with a system's ending, is a system. */
  lemma FamiliesAreSystems(family: string, rest: string, suffix: string)
    requires family in SYSTEM_FAMILIES && suffix in SYSTEM_SUFFIXES
    ensures LooksLikeOS(family) && LooksLikeOS(family + "_" + rest) && LooksLikeOS(family + "-" + rest)
    ensures LooksLikeOS(rest + suffix)
  {
    assert family + "_" <= family + "_" + rest && family + "-" <= family + "-" + rest;
    assert HasSuffix(rest + suffix, suffix);
  }

  /** Nothing else is. */
  lemma SystemHasFamily(tok: string)
    requires LooksLikeOS(tok)
    ensures exists sign ::
      || (sign in SYSTEM_FAMILIES && (tok == sign || sign + "_" <= tok || sign + "-" <= tok))
      || (sign in SYSTEM_SUFFIXES && |sign| <= |tok| && tok[|tok| - |sign|..] == sign)
  {
  }

  /** A token no alias changes keeps its name, as a system or as an application. */
  lemma UnaliasedName(tok: string)
    requires AppAlias(tok).None? && OsAlias(tok).None?
    ensures NormalizeTokenName(tok) == if tok != "" && LooksLikeOS(tok) then Name("o", tok) else Name("a", tok)
  {
  }

  /** The aliases of applications, entry by entry. */
  lemma ApplicationAliases(tok: string)
    ensures tok in ["apache_http_server", "apache_httpd", "httpd"] ==>
      NormalizeTokenName(tok) == Name("a", "http_server")
    ensures tok == "apache_tomcat" ==> NormalizeTokenName(tok) == Name("a", "tomcat")
    ensures tok == "apache_log4j" ==> NormalizeTokenName(tok) == Name("a", "log4j")
    ensures tok == "apache_struts" ==> NormalizeTokenName(tok) == Name("a", "struts")
    ensures tok in ["microsoft_iis", "iis"] ==> NormalizeTokenName(tok) == Name("a", "internet_information_services")
    ensures tok in ["microsoft_exchange", "ms_exchange"] ==> NormalizeTokenName(tok) == Name("a", "exchange_server")
    ensures tok == "oracle_mysql" ==> NormalizeTokenName(tok) == Name("a", "mysql")
    ensures tok == "elastic_search" ==> NormalizeTokenName(tok) == Name("a", "elasticsearch")
    ensures tok == "open_ssl" ==> NormalizeTokenName(tok) == Name("a", "openssl")
    ensures tok == "open_ssh" ==> NormalizeTokenName(tok) == Name("a", "openssh")
    ensures tok in ["nodejs", "node"] ==> NormalizeTokenName(tok) == Name("a", "node.js")
    ensures tok == "postgres" ==> NormalizeTokenName(tok) == Name("a", "postgresql")
  {
  }

  lemma SystemsAreNoApplications(tok: string)
    requires OsAlias(tok).Some?
    ensures NormalizeTokenName(tok) == Name("o", OsAlias(tok).value)
  {
    OsAliasHasShape(tok);
    if AppAlias(tok).Some? {
      AppAliasShape(tok);
    }
  }

  /** The aliases of operating systems, entry by entry. */
  lemma SystemAliases(tok: string)
    ensures tok in ["linux_kernel", "linux", "kernel"] ==> OsAlias(tok) == Some("linux_kernel")
    ensures tok in ["ubuntu", "ubuntu_linux"] ==> OsAlias(tok) == Some("ubuntu_linux")
    ensures tok in ["debian", "debian_linux"] ==> OsAlias(tok) == Some("debian_linux")
    ensures tok in ["rhel", "red_hat_enterprise_linux"] ==> OsAlias(tok) == Some("enterprise_linux")
    ensures tok in ["alpine", "alpine_linux"] ==> OsAlias(tok) == Some("alpine_linux")
    ensures tok == "ios" ==> OsAlias(tok) == Some("iphone_os")
    ensures tok in ["centos", "freebsd", "macos", "mac_os_x", "android"] ==> OsAlias(tok) == Some(tok)
  {
  }
}
