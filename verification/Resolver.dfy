/** From a recipient address to the registered domain that takes its mail. */
module Resolver {
  import opened Common
  import opened Text

  datatype Domain = Domain(id: nat, name: string, active: bool, mxVerified: bool, wildcardEnabled: bool)

  /** The domain table, by its unique name column. */
  type Registry = map<string, Domain>

  /** The registrable root of a host (its public suffix and one more label), if it has one. */
  type RootRule = string -> Option<string>

  /** The address inside a mailbox expression, when the mail library can parse it. */
  type AddressParser = string -> Option<string>

  datatype Parts = Parts(local: string, host: string)

  predicate RootMailboxReady(d: Domain) { d.active && d.mxVerified }

  predicate WildcardReady(d: Domain) { d.active && d.wildcardEnabled }

  function TrimDots(s: string): string { Trim(s, IsDot) }

  /** Without one star prefix, with or without its dot, or one of each. */
  function Unstarred(s: string): string { TrimPrefix(TrimPrefix(s, "*."), "*") }

  function NormalizeDomain(value: string): string { TrimDots(Unstarred(Lower(TrimSpace(value)))) }

  predicate IsAngle(c: char) { c == '<' || c == '>' }

  predicate HostRejects(c: char) { c in " /\\<>*" }

  /** The address inside a recipient, without display name and brackets. */
  function BareAddress(recipient: string, parse: AddressParser): string {
    var trimmed := TrimSpace(Lower(recipient));
    var start, end := LastIndex(trimmed, '<'), LastIndex(trimmed, '>');
    var inner := if start >= 0 && end > start then TrimSpace(trimmed[start + 1..end]) else trimmed;
    var bare := Trim(inner, IsAngle);
    if parse(bare).Some? then Lower(TrimSpace(parse(bare).value)) else bare
  }

  function SplitAddress(address: string): Option<Parts> {
    var at := LastIndex(address, '@');
    if at <= 0 || at == |address| - 1 then None
    else
      var local := TrimSpace(address[..at]);
      var host := TrimDots(TrimSpace(address[at + 1..]));
      if local == "" || host == "" || exists c <- host :: HostRejects(c) then None else Some(Parts(local, host))
  }

  function NormalizeRecipient(recipient: string, parse: AddressParser): Option<Parts> {
    SplitAddress(BareAddress(recipient, parse))
  }

  /** How many labels can be dropped before the name is the registrable root. */
  function Depth(host: string, rule: RootRule): nat {
    match rule(host)
    case None => 0
    case Some(root) => if |Split(host)| <= |Split(root)| then 0 else |Split(host)| - |Split(root)|
  }

  function Candidates(host: string, rule: RootRule): seq<string> {
    seq(Depth(host, rule), i requires 0 <= i < Depth(host, rule) => DepthIsShort(host, rule); Suffix(host, i + 1))
  }

  lemma DepthIsShort(host: string, rule: RootRule)
    ensures Depth(host, rule) < |Split(host)|
  {}

  method WildcardCandidates(host: string, rule: RootRule) returns (candidates: seq<string>)
    ensures candidates == Candidates(host, rule)
  {
    candidates := [];
    var root := rule(host);
    if root.None? {
      return;
    }
    var labels := Split(host);
    var rootLabels := Split(root.value);
    var firstRootLabel := |labels| - |rootLabels|;
    if firstRootLabel <= 0 {
      return;
    }
    for i := 1 to firstRootLabel + 1
      invariant candidates == Candidates(host, rule)[..i - 1]
    {
      candidates := candidates + [Join(labels[i..])];
    }
  }

  /** The first registered name decides, ready or not. */
  function Search(db: Registry, names: seq<string>): Option<Domain> {
    if names == [] then None
    else if names[0] in db then if WildcardReady(db[names[0]]) then Some(db[names[0]]) else None
    else Search(db, names[1..])
  }

  function Resolve(db: Registry, rule: RootRule, host: string): Option<Domain> {
    if host in db then if RootMailboxReady(db[host]) then Some(db[host]) else None
    else Search(db, Candidates(host, rule))
  }

  function ResolveRecipient(db: Registry, rule: RootRule, parse: AddressParser, recipient: string): Option<Domain> {
    match NormalizeRecipient(recipient, parse)
    case None => None
    case Some(parts) => Resolve(db, rule, parts.host)
  }

  method ResolveDomain(db: Registry, rule: RootRule, parse: AddressParser, recipient: string)
    returns (found: Option<Domain>)
    ensures found == ResolveRecipient(db, rule, parse, recipient)
  {
    var parts := NormalizeRecipient(recipient, parse);
    if parts.None? {
      return None;
    }
    var host := parts.value.host;
    if host in db {
      return if RootMailboxReady(db[host]) then Some(db[host]) else None;
    }
    var candidates := WildcardCandidates(host, rule);
    for i := 0 to |candidates|
      invariant Search(db, candidates) == Search(db, candidates[i..])
    {
      if candidates[i] in db {
        return if WildcardReady(db[candidates[i]]) then Some(db[candidates[i]]) else None;
      }
    }
    return None;
  }

  /** The nearest registered suffix within the root: `k` labels dropped, none registered before. */
  ghost predicate Nearest(db: Registry, rule: RootRule, host: string, k: nat) {
    && DropsWithin(host, rule, k)
    && Suffix(host, k) in db
    && forall j: nat :: j < k && DropsWithin(host, rule, j) ==> Suffix(host, j) !in db
  }

  predicate DropsWithin(host: string, rule: RootRule, k: nat)
    ensures DropsWithin(host, rule, k) ==> k < |Split(host)|
  {
    DepthIsShort(host, rule);
    k <= Depth(host, rule)
  }

  /** An active domain takes mail for its own name once its MX record is verified, and for a name below
      it if it is a wildcard. */
  predicate Ready(d: Domain, k: nat) { d.active && if k == 0 then d.mxVerified else d.wildcardEnabled }

  /** Name `i` is the first one registered, as `d`, and takes wildcard mail. */
  predicate Found(db: Registry, names: seq<string>, i: nat, d: Domain)
    requires i < |names|
  {
    names[i] in db && db[names[i]] == d && WildcardReady(d) && forall j :: 0 <= j < i ==> names[j] !in db
  }

  lemma {:induction false} SearchFindsFirst(db: Registry, names: seq<string>, d: Domain)
    ensures Search(db, names) == Some(d) <==>
            exists i :: 0 <= i < |names| && Found(db, names, i, d)
  {
    if names != [] {
      var rest := names[1..];
      SearchFindsFirst(db, rest, d);
      if names[0] in db {
        assert Found(db, names, 0, d) <==> db[names[0]] == d && WildcardReady(d);
      } else {
        if i :| 0 <= i < |rest| && Found(db, rest, i, d) { assert Found(db, names, i + 1, d); }
        if i :| 0 <= i < |names| && Found(db, names, i, d) {
          assert forall j :: 0 <= j < |rest| ==> rest[j] == names[j + 1];
          assert Found(db, rest, i - 1, d);
        }
      }
    }
  }

  /** Resolution answers with the nearest registered suffix within the root if that one is
      ready, and with nothing otherwise. */
  lemma ResolvesToNearest(db: Registry, rule: RootRule, host: string, d: Domain)
    ensures Resolve(db, rule, host) == Some(d) <==>
            exists k: nat :: Nearest(db, rule, host, k) && db[Suffix(host, k)] == d && Ready(d, k)
  {
    hide Suffix;
    hide Search;
    hide Candidates;
    hide DropsWithin;
    NothingDropped(host, rule);
    if host in db {
      NearestIsItself(db, rule, host);
    } else {
      SearchFindsFirst(db, Candidates(host, rule), d);
      if Resolve(db, rule, host) == Some(d) {
        var i :| 0 <= i < |Candidates(host, rule)| && Found(db, Candidates(host, rule), i, d);
        FoundIsNearest(db, rule, host, i, d);
      }
      if k: nat :| Nearest(db, rule, host, k) && db[Suffix(host, k)] == d && Ready(d, k) {
        NearestIsFound(db, rule, host, k, d);
      }
    }
  }

  lemma NothingDropped(host: string, rule: RootRule)
    ensures DropsWithin(host, rule, 0) && Suffix(host, 0) == host
  {
    JoinSplit(host);
    assert Split(host)[0..] == Split(host);
    hide Split;
  }

  /** Candidate `i` is the name with one label more dropped. */
  lemma CandidateAt(host: string, rule: RootRule, i: nat)
    ensures i < |Candidates(host, rule)| <==> DropsWithin(host, rule, i + 1)
    ensures i < |Candidates(host, rule)| ==> Candidates(host, rule)[i] == Suffix(host, i + 1)
  {
    hide Suffix;
    hide Split;
  }

  lemma NearestIsItself(db: Registry, rule: RootRule, host: string)
    requires host in db
    ensures forall k: nat :: Nearest(db, rule, host, k) <==> k == 0
  {
    hide Suffix;
    hide DropsWithin;
    NothingDropped(host, rule);
  }

  lemma FoundIsNearest(db: Registry, rule: RootRule, host: string, i: nat, d: Domain)
    requires host !in db && i < |Candidates(host, rule)| && Found(db, Candidates(host, rule), i, d)
    ensures Nearest(db, rule, host, i + 1) && db[Suffix(host, i + 1)] == d && Ready(d, i + 1)
  {
    hide Suffix;
    hide DropsWithin;
    hide Candidates;
    NothingDropped(host, rule);
    CandidateAt(host, rule, i);
    forall j: nat | j < i + 1 && DropsWithin(host, rule, j) ensures Suffix(host, j) !in db {
      if j > 0 { CandidateAt(host, rule, j - 1); }
    }
  }

  lemma NearestIsFound(db: Registry, rule: RootRule, host: string, k: nat, d: Domain)
    requires host !in db && Nearest(db, rule, host, k) && db[Suffix(host, k)] == d && Ready(d, k)
    ensures 0 < k <= |Candidates(host, rule)| && Found(db, Candidates(host, rule), k - 1, d)
  {
    hide Suffix;
    hide DropsWithin;
    hide Candidates;
    NothingDropped(host, rule);
    CandidateAt(host, rule, k - 1);
    forall j | 0 <= j < k - 1 ensures Candidates(host, rule)[j] !in db { CandidateAt(host, rule, j); }
  }

  // ---- Clean names ---------------------------------------------------------------------

  predicate CleanChar(c: char) { LowerChar(c) == c && !IsSpace(c) && c !in "@/\\<>*" }

  /** A name that normalisation has nothing to do to. */
  predicate CleanHost(s: string) {
    s != "" && s[0] != '.' && s[|s| - 1] != '.' && forall c <- s :: CleanChar(c)
  }

  lemma LowerOfClean(s: string)
    requires forall c <- s :: LowerChar(c) == c
    ensures Lower(s) == s
  {}

  /** Nothing left for normalisation to do. */
  predicate Idle(s: string) {
    && Lower(s) == s && Trimmed(s, IsSpace) && Trimmed(s, IsDot)
    && (s != "" ==> s[0] != '*')
  }

  lemma NormalizeIdle(s: string)
    ensures NormalizeDomain(s) == s <==> Idle(s)
  {
    TrimIsIdle(s, IsSpace);
    TrimIsIdle(s, IsDot);
    var trimmed := TrimSpace(s);
    var lower := Lower(trimmed);
    var star := TrimPrefix(lower, "*.");
    var bare := TrimPrefix(star, "*");
    var i, j := TrimIsMiddle(s, IsSpace);
    var k, l := TrimIsMiddle(bare, IsDot);
    assert |TrimDots(bare)| <= |bare| <= |star| <= |lower| == |trimmed| <= |s|;
    hide Trim;
    hide Lower;
  }

  lemma CleanIsNormal(s: string)
    requires CleanHost(s)
    ensures NormalizeDomain(s) == s
  {
    LowerOfClean(s);
    assert CleanChar(s[0]) && CleanChar(s[|s| - 1]);
    NormalizeIdle(s);
  }

  predicate FirstNonDot(s: string, i: nat) { i < |s| && s[i] != '.' && forall j :: 0 <= j < i ==> s[j] == '.' }

  predicate LastNonDot(s: string, i: nat) { i < |s| && s[i] != '.' && forall j :: i < j < |s| ==> s[j] == '.' }

  /** The name does not begin, past any dots, with another star or a space, nor end with a space. */
  ghost predicate Bare(rest: string) {
    && (forall i: nat :: FirstNonDot(rest, i) ==> rest[i] != '*' && !IsSpace(rest[i]))
    && (forall i: nat :: LastNonDot(rest, i) ==> !IsSpace(rest[i]))
  }

  /** Taking off the outer spaces and the star prefix uncovers no star and no space. */
  ghost predicate Settles(value: string) { Bare(Unstarred(TrimSpace(value))) }

  /** Normalising twice is the same as normalising once exactly for the values that settle. */
  lemma NormalizeTwice(value: string)
    ensures NormalizeDomain(NormalizeDomain(value)) == NormalizeDomain(value) <==> Settles(value)
  {
    hide Trim;
    hide Lower;
    hide Unstarred;
    hide IsSpace;
    hide Bare;
    var rest := Unstarred(TrimSpace(value));
    UnstarredLower(TrimSpace(value));
    var i, j := MiddleOfDots(Lower(rest));
    NonDotsOfMiddle(rest, Lower(rest), i, j);
    StableResult(value);
    assert NormalizeDomain(value) == Lower(rest)[i..j];
    hide NormalizeDomain;
  }

  lemma MiddleOfDots(s: string) returns (i: nat, j: nat)
    ensures i <= j <= |s| && TrimDots(s) == s[i..j]
    ensures forall k :: 0 <= k < |s| && (k < i || j <= k) ==> s[k] == '.'
    ensures i < j ==> s[i] != '.' && s[j - 1] != '.'
  {
    hide Trim;
    i, j := TrimIsMiddle(s, IsDot);
    if i < j { assert s[i..j][0] == s[i] && s[i..j][j - i - 1] == s[j - 1]; }
    forall k | 0 <= k < |s| && (k < i || j <= k) ensures s[k] == '.' { assert IsDot(s[k]); }
  }

  /** The middle that trimming dots leaves runs from the first to the last of the other characters. */
  lemma NonDotsOfMiddle(rest: string, lower: string, i: nat, j: nat)
    requires lower == Lower(rest) && i <= j <= |rest|
    requires forall k :: 0 <= k < |rest| && (k < i || j <= k) ==> lower[k] == '.'
    requires i < j ==> lower[i] != '.' && lower[j - 1] != '.'
    ensures Bare(rest) <==> i == j || (lower[i] != '*' && !IsSpace(lower[i]) && !IsSpace(lower[j - 1]))
  {
    hide Lower;
    hide LowerChar;
    hide IsSpace;
    forall k | 0 <= k < |rest|
      ensures (rest[k] == '.' <==> lower[k] == '.') && (rest[k] == '*' <==> lower[k] == '*')
              && IsSpace(rest[k]) == IsSpace(lower[k])
    {
      LowerCharKeeps(rest[k]);
    }
    NonDotEnds(rest, i, j);
    hide FirstNonDot;
    hide LastNonDot;
  }

  lemma NonDotEnds(s: string, i: nat, j: nat)
    requires i <= j <= |s| && forall k :: 0 <= k < |s| && (k < i || j <= k) ==> s[k] == '.'
    requires i < j ==> s[i] != '.' && s[j - 1] != '.'
    ensures forall k: nat :: FirstNonDot(s, k) <==> i < j && k == i
    ensures forall k: nat :: LastNonDot(s, k) <==> i < j && k == j - 1
  {}

  lemma LowerCharKeeps(c: char)
    ensures (LowerChar(c) == '.' <==> c == '.') && (LowerChar(c) == '*' <==> c == '*')
            && IsSpace(LowerChar(c)) == IsSpace(c)
  {}

  /** A result is stable unless stripping the star uncovered another star, or the dots a space. */
  lemma StableResult(value: string)
    ensures var n := NormalizeDomain(value);
            NormalizeDomain(n) == n <==> n == "" || (n[0] != '*' && !IsSpace(n[0]) && !IsSpace(n[|n| - 1]))
  {
    var n := NormalizeDomain(value);
    NormalIsLower(value);
    LowerOfClean(n);
    var i, j := TrimIsMiddle(Unstarred(Lower(TrimSpace(value))), IsDot);
    NormalizeIdle(n);
    hide Unstarred;
  }

  lemma UnstarredLower(s: string)
    ensures Unstarred(Lower(s)) == Lower(Unstarred(s))
  {
    PrefixLower(s, "*.");
    PrefixLower(TrimPrefix(s, "*."), "*");
    hide Lower;
  }

  lemma PrefixLower(s: string, p: string)
    requires p == "*." || p == "*"
    ensures TrimPrefix(Lower(s), p) == Lower(TrimPrefix(s, p))
  {
    assert HasPrefix(s, p) <==> |p| <= |s| && forall i :: 0 <= i < |p| ==> s[i] == p[i];
    assert HasPrefix(Lower(s), p) <==> |p| <= |s| && forall i :: 0 <= i < |p| ==> Lower(s)[i] == p[i];
  }

  lemma NormalIsLower(value: string)
    ensures forall c <- NormalizeDomain(value) :: LowerChar(c) == c
  {
    hide Trim;
    hide Lower;
    var rest := Unstarred(TrimSpace(value));
    UnstarredLower(TrimSpace(value));
    var lower := Lower(rest);
    var i, j := TrimIsMiddle(lower, IsDot);
    hide Unstarred;
    assert forall k :: 0 <= k < |lower| ==> LowerChar(lower[k]) == lower[k];
  }

  /** Normalisation peels one star at a time, so it is not idempotent on `**name`. */
  lemma StarsPeelOneAtATime(t: string)
    requires Idle(t) && t != ""
    ensures NormalizeDomain("*" + t) == t && NormalizeDomain("**" + t) == "*" + t
  {
    hide Trim;
    hide Lower;
    hide NormalizeDomain;
    PeelOneStar(t);
    var s := "*" + t;
    assert s[|s| - 1] == t[|t| - 1] && "**" + t == "*" + s;
    assert |Lower(t)| == |t|;
    forall i | 0 <= i < |s| ensures LowerChar(s[i]) == s[i] {
      if i > 0 { assert s[i] == t[i - 1] && Lower(t)[i - 1] == LowerChar(t[i - 1]); }
    }
    PeelOneStar(s);
  }

  lemma PeelOneStar(t: string)
    requires t != "" && Trimmed(t, IsDot) && !IsSpace(t[|t| - 1]) && forall c <- t :: LowerChar(c) == c
    ensures NormalizeDomain("*" + t) == t
  {
    var s := "*" + t;
    assert s[|s| - 1] == t[|t| - 1];
    hide Trim;
    hide Lower;
    TrimIsIdle(s, IsSpace);
    TrimIsIdle(t, IsDot);
    assert forall c <- s :: c == '*' || c in t;
    LowerOfClean(s);
    assert s[1] != '.' && s[1..] == t;
  }

  predicate CleanLocal(s: string) { s != "" && forall c <- s :: CleanChar(c) }

  /** The mail library either rejects a plain address or hands it back. */
  predicate ParsesPlainly(parse: AddressParser, address: string) {
    parse(address).None? || parse(address) == Some(address)
  }

  lemma CleanRecipient(local: string, host: string, parse: AddressParser)
    requires CleanLocal(local) && CleanHost(host) && ParsesPlainly(parse, local + "@" + host)
    ensures NormalizeRecipient(local + "@" + host, parse) == Some(Parts(local, host))
  {
    hide Trim;
    hide Lower;
    hide LastIndex;
    var s := local + "@" + host;
    AddressIsTrimmed(local, host);
    CleanEnds(local);
    CleanEnds(host);
    assert s[..|local|] == local && s[|local| + 1..] == host;
    assert !exists c <- host :: HostRejects(c);
    hide CleanHost;
    hide CleanLocal;
    hide HostRejects;
  }

  lemma CleanEnds(s: string)
    requires CleanLocal(s)
    ensures TrimSpace(s) == s && Trim(s, IsAngle) == s && (CleanHost(s) ==> TrimDots(s) == s)
  {
    assert CleanChar(s[0]) && CleanChar(s[|s| - 1]);
    TrimIsIdle(s, IsSpace);
    TrimIsIdle(s, IsAngle);
    TrimIsIdle(s, IsDot);
    hide Trim;
  }

  lemma AddressIsTrimmed(local: string, host: string)
    requires CleanLocal(local) && CleanHost(host)
    ensures var s := local + "@" + host;
            && Lower(s) == s && TrimSpace(s) == s && Trim(s, IsAngle) == s
            && LastIndex(s, '<') == -1 && LastIndex(s, '@') == |local|
  {
    hide Trim;
    hide Lower;
    hide LastIndex;
    var s := local + "@" + host;
    assert s[0] == local[0] && s[|s| - 1] == host[|host| - 1] && s[|local|] == '@';
    assert CleanChar(local[0]) && CleanChar(host[|host| - 1]);
    TrimIsIdle(s, IsSpace);
    TrimIsIdle(s, IsAngle);
    assert forall c <- s :: c == '@' || CleanChar(c);
    LowerOfClean(s);
    assert forall k :: |local| < k < |s| ==> s[k] == host[k - |local| - 1] && s[k] in host;
    assert forall k :: 0 <= k < |s| ==> s[k] in s;
  }

  /** Whatever an address looked like, the host it is resolved by is one word without dots at its ends. */
  lemma RecipientShape(recipient: string, parse: AddressParser)
    ensures var r := NormalizeRecipient(recipient, parse);
            r.Some? ==>
              && r.value.local != "" && Trimmed(r.value.local, IsSpace)
              && r.value.host != "" && Trimmed(r.value.host, IsDot)
              && forall c <- r.value.host :: c != '@' && !HostRejects(c)
  {
    hide Trim;
    hide LastIndex;
    hide BareAddress;
    var address := BareAddress(recipient, parse);
    var at := LastIndex(address, '@');
    if 0 < at < |address| - 1 {
      var local, host := address[..at], address[at + 1..];
      var a, b := TrimIsMiddle(local, IsSpace);
      var c, d := TrimIsMiddle(host, IsSpace);
      var word := host[c..d];
      var e, f := TrimIsMiddle(word, IsDot);
      assert forall k :: 0 <= k < |host| ==> host[k] == address[at + 1 + k];
      assert '@' !in host;
      assert forall x <- word :: x in host;
      assert forall x <- word[e..f] :: x in word;
    }
  }

  const PROBE := "probe"

  function ResolveByHost(db: Registry, rule: RootRule, parse: AddressParser, host: string): Option<Domain> {
    ResolveRecipient(db, rule, parse, PROBE + "@" + NormalizeDomain(host))
  }

  /** Asking for a host, however it is written, is asking for any mailbox on it. */
  lemma HostAnswersForItsMailboxes(db: Registry, rule: RootRule, parse: AddressParser, host: string, local: string)
    requires CleanHost(NormalizeDomain(host)) && CleanLocal(local)
    requires ParsesPlainly(parse, PROBE + "@" + NormalizeDomain(host))
    requires ParsesPlainly(parse, local + "@" + NormalizeDomain(host))
    ensures ResolveByHost(db, rule, parse, host) ==
            ResolveRecipient(db, rule, parse, local + "@" + NormalizeDomain(host))
    ensures ResolveByHost(db, rule, parse, host) == Resolve(db, rule, NormalizeDomain(host))
  {
    hide NormalizeRecipient;
    hide NormalizeDomain;
    hide Resolve;
    hide CleanHost;
    hide CleanLocal;
    hide ParsesPlainly;
    CleanRecipient(local, NormalizeDomain(host), parse);
    ProbeIsClean();
    CleanRecipient(PROBE, NormalizeDomain(host), parse);
  }

  lemma ProbeIsClean()
    ensures CleanLocal(PROBE)
  {}
}
