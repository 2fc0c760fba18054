/** Creating mailboxes under a wildcard domain, and why their mail resolves to that domain. */
module SubdomainBoundary {
  import opened Common
  import opened Text
  import opened Resolver

  predicate EqualFold(s: string, t: string) { Lower(s) == Lower(t) }

  // ---- Sanitized labels ------------------------------------------------------------------

  predicate IsDash(c: char) { c == '-' }

  predicate LabelEdge(c: char) { c == '.' || c == '-' }

  predicate LocalEdge(c: char) { c in ".-_" }

  predicate LabelChar(c: char) { 'a' <= c <= 'z' || '0' <= c <= '9' || c == '-' }

  predicate LocalChar(c: char) { 'a' <= c <= 'z' || '0' <= c <= '9' || c in ".-_" }

  function Keep(s: string, f: char -> bool): (r: string)
    ensures |r| <= |s| && forall c <- r :: f(c) && c in s
    ensures (forall c <- s :: f(c)) ==> r == s
    decreases |s|
  {
    if s == "" then "" else
      var before := Keep(s[..|s| - 1], f);
      if f(s[|s| - 1]) then before + [s[|s| - 1]] else before
  }

  const LABEL_LIMIT := 63

  /** A DNS label a mailbox host may start with. */
  predicate ValidLabel(s: string) {
    && 0 < |s| <= LABEL_LIMIT && (forall c <- s :: LabelChar(c))
    && s[0] != '-' && s[|s| - 1] != '-'
  }

  predicate ValidLocal(s: string) {
    s != "" && (forall c <- s :: LocalChar(c)) && Trimmed(s, LocalEdge)
  }

  function SanitizedLabel(value: string): string {
    var trimmed := Trim(Lower(TrimSpace(value)), LabelEdge);
    if trimmed == "" || '.' in trimmed then ""
    else
      var leaf := Trim(Keep(Trim(trimmed, IsDash), LabelChar), IsDash);
      if |leaf| > LABEL_LIMIT then "" else leaf
  }

  function SanitizedLocal(value: string): string {
    Trim(Keep(Lower(TrimSpace(value)), LocalChar), LocalEdge)
  }

  method SanitizeSubdomainLabel(value: string) returns (leaf: string)
    ensures leaf == SanitizedLabel(value)
    ensures leaf == "" || ValidLabel(leaf)
  {
    LabelIsValid(value);
    var trimmed := Trim(Lower(TrimSpace(value)), LabelEdge);
    if trimmed == "" || '.' in trimmed {
      return "";
    }
    var source := Trim(trimmed, IsDash);
    var builder := Filter(source, LabelChar);
    leaf := Trim(builder, IsDash);
    if |leaf| > LABEL_LIMIT {
      return "";
    }
  }

  method SanitizeLocal(value: string) returns (local: string)
    ensures local == SanitizedLocal(value)
    ensures local == "" || ValidLocal(local)
  {
    LocalIsValid(value);
    var builder := Filter(Lower(TrimSpace(value)), LocalChar);
    local := Trim(builder, LocalEdge);
  }

  /** The characters that pass, written to a builder one by one. */
  method Filter(s: string, f: char -> bool) returns (builder: string)
    ensures builder == Keep(s, f)
  {
    builder := "";
    for i := 0 to |s|
      invariant builder == Keep(s[..i], f)
    {
      assert s[..i + 1][..i] == s[..i];
      if f(s[i]) {
        builder := builder + [s[i]];
      }
    }
    assert s[..|s|] == s;
  }

  lemma LabelIsValid(value: string)
    ensures SanitizedLabel(value) == "" || ValidLabel(SanitizedLabel(value))
  {
    hide Trim;
    hide Lower;
    hide TrimSpace;
    var source := Trim(Trim(Lower(TrimSpace(value)), LabelEdge), IsDash);
    var kept := Keep(source, LabelChar);
    var i, j := TrimIsMiddle(kept, IsDash);
    assert forall c <- kept[i..j] :: c in kept;
  }

  lemma LocalIsValid(value: string)
    ensures SanitizedLocal(value) == "" || ValidLocal(SanitizedLocal(value))
  {
    hide Trim;
    hide Lower;
    hide TrimSpace;
    var kept := Keep(Lower(TrimSpace(value)), LocalChar);
    var i, j := TrimIsMiddle(kept, LocalEdge);
    assert forall c <- kept[i..j] :: c in kept;
  }

  /** Sanitising leaves exactly the valid labels as they are. */
  lemma SanitizedLabelFixpoint(s: string)
    ensures SanitizedLabel(s) == s <==> s == "" || ValidLabel(s)
  {
    hide Trim;
    hide Lower;
    LabelIsValid(s);
    TrimIsIdle(s, IsSpace);
    TrimIsIdle(s, LabelEdge);
    TrimIsIdle(s, IsDash);
    if ValidLabel(s) {
      assert s[0] in s && s[|s| - 1] in s;
      LowerOfClean(s);
    } else if s == "" {
      LowerOfClean(s);
    }
  }

  lemma SanitizedLocalFixpoint(s: string)
    ensures SanitizedLocal(s) == s <==> s == "" || ValidLocal(s)
  {
    hide Trim;
    hide Lower;
    LocalIsValid(s);
    TrimIsIdle(s, IsSpace);
    TrimIsIdle(s, LocalEdge);
    if ValidLocal(s) {
      assert s[0] in s && s[|s| - 1] in s;
      LowerOfClean(s);
    } else if s == "" {
      LowerOfClean(s);
    }
  }

  // ---- Registered boundaries ---------------------------------------------------------------

  function Above(host: string, parent: string): string
    requires HasSuffix(host, "." + parent)
  {
    host[..|host| - |parent| - 1]
  }

  lemma UnderIsDotted(host: string, parent: string)
    requires HasSuffix(host, "." + parent)
    ensures host == Above(host, parent) + "." + parent
    ensures |Split(host)| == |Split(Above(host, parent))| + |Split(parent)|
  {
    assert host == Above(host, parent) + ("." + parent);
    assert host == Above(host, parent) + "." + parent;
    SuffixDotted(Above(host, parent), parent, 0);
  }

  /** The names from `host` up to, but not including, `parent`. */
  function Between(host: string, parent: string): seq<string>
    requires HasSuffix(host, "." + parent)
  {
    var n := |Split(Above(host, parent))|;
    seq(n, k requires 0 <= k < n => UnderIsDotted(host, parent); Suffix(host, k))
  }

  function Boundary(host: string, parent: string): seq<string> {
    var h, p := NormalizeDomain(host), NormalizeDomain(parent);
    if h == "" || p == "" || EqualFold(h, p) || !HasSuffix(h, "." + p) then [] else Between(h, p)
  }

  method RegisteredSubdomainBoundaryCandidates(givenHost: string, givenParent: string) returns (out: seq<string>)
    ensures out == Boundary(givenHost, givenParent)
  {
    hide NormalizeDomain;
    hide Between;
    hide EqualFold;
    hide HasSuffix;
    var host := NormalizeDomain(givenHost);
    var parent := NormalizeDomain(givenParent);
    if host == "" || parent == "" || EqualFold(host, parent) || !HasSuffix(host, "." + parent) {
      return [];
    }
    ghost var names := Between(host, parent);
    NamesAbove(host, parent);
    out := [host];
    var current := host;
    while HasSuffix(current, "." + parent)
      invariant 1 <= |out| <= |names| && out == names[..|out|]
      invariant current == names[|out| - 1]
      decreases |current|
    {
      StepAbove(host, parent, |out| - 1);
      var dot := Index(current, '.');
      if dot < 0 {
        break;
      }
      current := current[dot + 1..];
      if current == parent {
        break;
      }
      out := out + [current];
    }
  }

  /** Every name between ends in the parent, and the first is the host. */
  lemma NamesAbove(host: string, parent: string)
    requires HasSuffix(host, "." + parent)
    ensures var names := Between(host, parent);
            names != [] && names[0] == host && forall k :: 0 <= k < |names| ==> HasSuffix(names[k], "." + parent)
  {
    var a := Above(host, parent);
    UnderIsDotted(host, parent);
    JoinSplit(host);
    assert Split(host)[0..] == Split(host);
    forall k | 0 <= k < |Split(a)| ensures HasSuffix(Suffix(host, k), "." + parent) {
      SuffixDotted(a, parent, k);
      DottedHasSuffix(Suffix(a, k), parent);
    }
    hide Suffix;
    hide HasSuffix;
  }

  lemma DottedHasSuffix(a: string, b: string)
    ensures HasSuffix(a + "." + b, "." + b)
  {}

  /** Cutting a name at its first dot gives the next name, or the parent after the last. */
  lemma StepAbove(host: string, parent: string, k: nat)
    requires HasSuffix(host, "." + parent) && k < |Between(host, parent)|
    ensures var names := Between(host, parent);
            var dot := Index(names[k], '.');
            && dot >= 0
            && (k + 1 < |names| ==> names[k][dot + 1..] == names[k + 1] && names[k + 1] != parent)
            && (k + 1 == |names| ==> names[k][dot + 1..] == parent)
  {
    hide Suffix;
    hide Split;
    hide Above;
    UnderIsDotted(host, parent);
    NextSuffix(host, k);
    NamesAbove(host, parent);
    SuffixDotted(Above(host, parent), parent, k + 1);
    hide HasSuffix;
  }

  /** The candidates are exactly the label suffixes of the host that are longer than the parent. */
  lemma BoundaryIsStrictlyAbove(host: string, parent: string, name: string)
    requires CleanHost(host) && CleanHost(parent) && HasSuffix(host, "." + parent)
    ensures name in Boundary(host, parent) <==>
            exists k: nat :: k < |Split(host)| && Suffix(host, k) == name && |name| > |parent|
  {
    BoundaryOfClean(host, parent);
    UnderIsDotted(host, parent);
    NamesAbove(host, parent);
    var a := Above(host, parent);
    forall k: nat | k < |Split(host)| ensures |Suffix(host, k)| > |parent| <==> k < |Split(a)| {
      if k < |Split(a)| {
        SuffixDotted(a, parent, k);
      } else {
        SuffixIsShorter(host, |Split(a)|, k);
        SuffixDotted(a, parent, |Split(a)|);
      }
    }
    hide Suffix;
    if name in Boundary(host, parent) {
      var k :| 0 <= k < |Between(host, parent)| && Between(host, parent)[k] == name;
      assert Suffix(host, k) == name;
    }
    if k: nat :| k < |Split(host)| && Suffix(host, k) == name && |name| > |parent| {
      assert Between(host, parent)[k] == name;
    }
  }

  lemma {:induction false} SuffixIsShorter(s: string, j: nat, k: nat)
    requires j <= k < |Split(s)|
    ensures |Suffix(s, k)| <= |Suffix(s, j)|
  {
    if j < k {
      SuffixIsShorter(s, j, k - 1);
      NextSuffix(s, k - 1);
    }
  }

  lemma BoundaryOfClean(host: string, parent: string)
    requires CleanHost(host) && CleanHost(parent) && HasSuffix(host, "." + parent)
    ensures Boundary(host, parent) == Between(host, parent)
  {
    CleanIsNormal(host);
    CleanIsNormal(parent);
    assert |Lower(host)| != |Lower(parent)|;
  }

  // ---- Availability and resolution ------------------------------------------------------------

  predicate Available(db: Registry, host: string, parent: Option<Domain>) {
    var h := NormalizeDomain(host);
    h == "" || parent.None? || EqualFold(h, parent.value.name)
    || forall name <- Boundary(h, parent.value.name) :: name in db ==> db[name].id == parent.value.id
  }

  method EnsureSubdomainHostAvailable(db: Registry, host: string, parent: Option<Domain>) returns (ok: bool)
    ensures ok <==> Available(db, host, parent)
  {
    hide NormalizeDomain;
    hide Boundary;
    hide EqualFold;
    var h := NormalizeDomain(host);
    if h == "" || parent.None? || EqualFold(h, parent.value.name) {
      return true;
    }
    var candidates := RegisteredSubdomainBoundaryCandidates(h, parent.value.name);
    for i := 0 to |candidates|
      invariant forall name <- candidates[..i] :: name in db ==> db[name].id == parent.value.id
    {
      var candidate := candidates[i];
      if candidate !in db {
        continue;
      }
      if db[candidate].id != parent.value.id {
        assert candidate in Boundary(h, parent.value.name);
        return false;
      }
    }
    assert candidates[..|candidates|] == candidates;
    return true;
  }

  /** Rows are found by their own names, and every row has its own id. */
  ghost predicate WellFormed(db: Registry) {
    && (forall name <- db :: db[name].name == name)
    && (forall m <- db, n <- db :: db[m].id == db[n].id ==> m == n)
  }

  /** A host is available when nothing is registered between it and its parent. */
  lemma AvailableIffUnregistered(db: Registry, host: string, parent: Domain)
    requires WellFormed(db) && parent.name in db && db[parent.name] == parent
    requires CleanHost(host) && CleanHost(parent.name) && HasSuffix(host, "." + parent.name)
    ensures Available(db, host, Some(parent)) <==> forall name <- Between(host, parent.name) :: name !in db
  {
    BoundaryOfClean(host, parent.name);
    CleanIsNormal(host);
    NamesAbove(host, parent.name);
    assert |Lower(host)| != |Lower(parent.name)|;
    forall name <- Between(host, parent.name) ensures name != parent.name {
      var k :| 0 <= k < |Between(host, parent.name)| && Between(host, parent.name)[k] == name;
    }
  }

  /** The parent is not above the host's registrable root. */
  predicate WithinRoot(host: string, parent: string, rule: RootRule) {
    rule(host).Some? && |Split(rule(host).value)| <= |Split(parent)|
  }

  /** Mail for a host that creation accepts goes to its parent exactly when the parent takes
      wildcard mail and lies within the host's registrable root. */
  lemma ResolvesToParentIff(db: Registry, rule: RootRule, host: string, parent: Domain)
    requires WellFormed(db) && parent.name in db && db[parent.name] == parent
    requires CleanHost(host) && CleanHost(parent.name) && HasSuffix(host, "." + parent.name)
    requires Available(db, host, Some(parent))
    ensures Resolve(db, rule, host) == Some(parent) <==>
            parent.active && parent.wildcardEnabled && WithinRoot(host, parent.name, rule)
  {
    var names := Between(host, parent.name);
    var n := |names|;
    var a := Above(host, parent.name);
    AvailableIffUnregistered(db, host, parent);
    UnderIsDotted(host, parent.name);
    SuffixDotted(a, parent.name, n);
    ResolvesToNearest(db, rule, host, parent);
    forall k: nat | k < n ensures Suffix(host, k) !in db { assert names[k] == Suffix(host, k); }
    assert WithinRoot(host, parent.name, rule) <==> DropsWithin(host, rule, n);
    hide Suffix;
    hide Resolve;
    hide DropsWithin;
    hide WithinRoot;
    if WildcardReady(parent) && DropsWithin(host, rule, n) {
      forall j: nat | j < n && DropsWithin(host, rule, j) ensures Suffix(host, j) !in db {}
      assert Nearest(db, rule, host, n);
    }
    if k: nat :| Nearest(db, rule, host, k) && db[Suffix(host, k)] == parent && Ready(parent, k) {
      assert Suffix(host, k) == parent.name && k >= n;
      ParentIsAt(host, parent.name, k);
    }
  }

  /** The parent's name occurs once among the suffixes. */
  lemma ParentIsAt(host: string, parent: string, k: nat)
    requires HasSuffix(host, "." + parent) && k < |Split(host)| && Suffix(host, k) == parent
    ensures k == |Between(host, parent)|
  {
    hide Suffix;
    hide HasSuffix;
    hide Above;
    UnderIsDotted(host, parent);
    var n := |Between(host, parent)|;
    hide Split;
    SuffixDotted(Above(host, parent), parent, n);
    if k < n {
      LongerBefore(Above(host, parent), parent, k);
    } else if k > n {
      NextSuffix(host, n);
      SuffixIsShorter(host, n + 1, k);
    }
  }

  lemma LongerBefore(a: string, b: string, k: nat)
    requires k < |Split(a)|
    ensures |Split(a + "." + b)| == |Split(a)| + |Split(b)| && |Suffix(a + "." + b, k)| > |b|
  {
    hide Suffix;
    hide Split;
    SuffixDotted(a, b, k);
  }

  /** Under a wildcard parent within the root, creation and resolution agree on every host. */
  lemma CreationAgreesWithResolution(db: Registry, rule: RootRule, host: string, parent: Domain)
    requires WellFormed(db) && parent.name in db && db[parent.name] == parent
    requires CleanHost(host) && CleanHost(parent.name) && HasSuffix(host, "." + parent.name)
    requires parent.active && parent.wildcardEnabled && WithinRoot(host, parent.name, rule)
    ensures Available(db, host, Some(parent)) <==> Resolve(db, rule, host) == Some(parent)
  {
    if Available(db, host, Some(parent)) {
      ResolvesToParentIff(db, rule, host, parent);
    } else {
      AvailableIffUnregistered(db, host, parent);
      UnderIsDotted(host, parent.name);
      var names := Between(host, parent.name);
      var m :| 0 <= m < |names| && names[m] in db;
      ResolvesToNearest(db, rule, host, parent);
      if k: nat :| Nearest(db, rule, host, k) && db[Suffix(host, k)] == parent && Ready(parent, k) {
        ParentIsAt(host, parent.name, k);
        assert names[m] == Suffix(host, m) && DropsWithin(host, rule, m);
        assert false;
      }
    }
  }

  /** A mailbox that creation accepts below a parent receives its mail through that parent exactly if
      the parent takes wildcard mail and is not above the new host's registrable root. */
  lemma CreatedMailboxResolvesIff(db: Registry, rule: RootRule, parse: AddressParser, prefix: string,
                                  subdomain: string, parent: Domain)
    requires WellFormed(db) && parent.name in db && db[parent.name] == parent && CleanHost(parent.name)
    requires SanitizedLocal(prefix) != "" && SanitizedLabel(subdomain) != ""
    requires var host := SanitizedLabel(subdomain) + "." + parent.name;
             ParsesPlainly(parse, SanitizedLocal(prefix) + "@" + host) && Available(db, host, Some(parent))
    ensures var host := SanitizedLabel(subdomain) + "." + parent.name;
            ResolveRecipient(db, rule, parse, SanitizedLocal(prefix) + "@" + host) == Some(parent)
            <==> parent.active && parent.wildcardEnabled && WithinRoot(host, parent.name, rule)
  {
    var leaf, local := SanitizedLabel(subdomain), SanitizedLocal(prefix);
    var host := leaf + "." + parent.name;
    LabelIsValid(subdomain);
    LocalIsValid(prefix);
    LabelHostIsClean(leaf, parent.name);
    ValidLocalIsClean(local);
    CleanRecipient(local, host, parse);
    ResolvesToParentIff(db, rule, host, parent);
  }

  /** A domain registered on a public suffix, above the registrable root of what lies below it: mail to
      every host that creation accepts there is lost, ready or not. */
  lemma BelowAPublicSuffix(db: Registry, rule: RootRule, host: string, parent: Domain)
    requires WellFormed(db) && parent.name in db && db[parent.name] == parent
    requires CleanHost(host) && CleanHost(parent.name) && HasSuffix(host, "." + parent.name)
    requires Available(db, host, Some(parent)) && !WithinRoot(host, parent.name, rule)
    ensures Resolve(db, rule, host).None?
  {
    hide Available;
    hide Suffix;
    hide HasSuffix;
    hide Resolve;
    AvailableIffUnregistered(db, host, parent);
    UnderIsDotted(host, parent.name);
    var names := Between(host, parent.name);
    forall k: nat | DropsWithin(host, rule, k) ensures Suffix(host, k) !in db {
      assert names[k] == Suffix(host, k);
    }
    if Resolve(db, rule, host).Some? {
      ResolvesToNearest(db, rule, host, Resolve(db, rule, host).value);
    }
  }

  /** Where nothing else is registered, creation accepts every host below a domain. */
  lemma AloneAcceptsAll(db: Registry, host: string, parent: Domain)
    requires db == map[parent.name := parent]
    requires CleanHost(host) && CleanHost(parent.name) && HasSuffix(host, "." + parent.name)
    ensures WellFormed(db) && Available(db, host, Some(parent))
  {
    hide Available;
    AvailableIffUnregistered(db, host, parent);
    NamesAbove(host, parent.name);
    forall name <- Between(host, parent.name) ensures name !in db {
      var k :| 0 <= k < |Between(host, parent.name)| && Between(host, parent.name)[k] == name;
      assert HasSuffix(name, "." + parent.name);
    }
  }

  /** Under the public suffix `co.uk`, creation accepts `a.co.uk`, and its mail goes nowhere. */
  lemma MailToASuffixIsLost() returns (db: Registry, rule: RootRule, parent: Domain)
    ensures WildcardReady(parent) && parent.name == "co.uk" && db == map["co.uk" := parent]
    ensures rule("a.co.uk") == Some("a.co.uk")
    ensures WellFormed(db) && Available(db, "a.co.uk", Some(parent)) && Resolve(db, rule, "a.co.uk").None?
  {
    parent := Domain(1, "co.uk", true, true, true);
    db := map["co.uk" := parent];
    rule := host => Some(host);
    hide Available;
    hide Resolve;
    hide WellFormed;
    SuffixIsClean();
    LabelHostIsClean("a", "co.uk");
    assert "a" + "." + "co.uk" == "a.co.uk";
    AloneAcceptsAll(db, "a.co.uk", parent);
    UnderIsDotted("a.co.uk", "co.uk");
    BelowAPublicSuffix(db, rule, "a.co.uk", parent);
  }

  lemma SuffixIsClean()
    ensures CleanHost("co.uk") && ValidLabel("a")
  {}

  lemma LabelHostIsClean(leaf: string, parent: string)
    requires ValidLabel(leaf) && CleanHost(parent)
    ensures var host := leaf + "." + parent; CleanHost(host) && HasSuffix(host, "." + parent)
  {
    var host := leaf + "." + parent;
    assert host == leaf + ("." + parent);
    assert host[0] in leaf && host[|host| - 1] == parent[|parent| - 1];
    forall c <- host ensures CleanChar(c) { assert c in leaf || c == '.' || c in parent; }
  }

  lemma ValidLocalIsClean(local: string)
    requires ValidLocal(local)
    ensures CleanLocal(local)
  {}
}
