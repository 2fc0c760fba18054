/** DNS probes of a host's MX records, and the verdict they add up to. */
module Propagation {
  import opened Common
  import opened Text

  datatype Target = Target(source: string, address: string, authoritative: bool)

  /** What a resolver answers: MX hosts, or a lookup error. */
  datatype Answer = Records(hosts: seq<string>) | Failed(error: string)

  datatype Report = Report(source: string, resolver: string, authoritative: bool,
                           records: seq<string>, error: string, verified: bool)

  /** What a lookup can report: an error comes with nothing else, and a match with records. */
  predicate Plausible(p: Report) {
    && (p.error != "" ==> p.records == [] && !p.verified)
    && (p.verified ==> p.records != [])
  }

  type Probe = p: Report | Plausible(p) witness Report("", "", false, [], "", false)

  function TrimSuffix(s: string, c: char): string {
    if s != "" && s[|s| - 1] == c then s[..|s| - 1] else s
  }

  predicate Matches(record: string, expected: string) { TrimSuffix(Lower(record), '.') == expected }

  /** The message for a failed lookup is never empty. */
  function Message(error: string): string { if error == "" then "lookup failed" else error }

  function ProbeOf(t: Target, a: Answer, expected: string, strict: bool): (p: Probe)
    ensures p.source == t.source && p.authoritative == t.authoritative
  {
    match a
    case Failed(error) => Report(t.source, t.address, t.authoritative, [], Message(error), false)
    case Records(hosts) =>
      Report(t.source, t.address, t.authoritative, hosts, "",
             (exists record <- hosts :: Matches(record, expected)) && (strict ==> |hosts| == 1))
  }

  method LookupMXProbe(t: Target, a: Answer, expected: string, strict: bool) returns (probe: Probe)
    ensures probe == ProbeOf(t, a, expected, strict)
  {
    if a.Failed? {
      return Report(t.source, t.address, t.authoritative, [], Message(a.error), false);
    }
    var verified := false;
    for i := 0 to |a.hosts|
      invariant !verified && forall record <- a.hosts[..i] :: !Matches(record, expected)
    {
      if Matches(a.hosts[i], expected) {
        verified := true;
        break;
      }
    }
    assert a.hosts[..|a.hosts|] == a.hosts;
    if strict && |a.hosts| != 1 {
      verified := false;
    }
    probe := Report(t.source, t.address, t.authoritative, a.hosts, "", verified);
  }

  // ---- Options ---------------------------------------------------------------------------

  datatype CheckOptions = CheckOptions(resolvers: seq<string>, timeout: int, maxConcurrent: int)

  const DEFAULTS := CheckOptions(["1.1.1.1:53", "8.8.8.8:53", "223.5.5.5:53"], 3_500_000_000, 5)

  function NormalizeOptions(o: CheckOptions): (n: CheckOptions)
    ensures n.resolvers != [] && n.timeout > 0 && 1 <= n.maxConcurrent <= |n.resolvers| + 20
    ensures o.resolvers != [] && o.timeout > 0 && 1 <= o.maxConcurrent <= |o.resolvers| + 20 ==> n == o
  {
    var resolvers := if o.resolvers == [] then DEFAULTS.resolvers else o.resolvers;
    var asked := if o.maxConcurrent <= 0 then DEFAULTS.maxConcurrent else o.maxConcurrent;
    var capped := if asked > |resolvers| + 20 then |resolvers| + 20 else asked;
    CheckOptions(resolvers, if o.timeout <= 0 then DEFAULTS.timeout else o.timeout, if capped < 1 then 1 else capped)
  }

  // ---- The verdict -------------------------------------------------------------------------

  datatype Status = Verified | Propagating | Misconfigured | NotFound

  datatype Verdict = Verdict(status: Status, verified: bool, records: seq<string>)

  predicate AuthorityVerified(p: Probe) { p.authoritative && p.verified }
  predicate AuthoritySeen(p: Probe) { p.authoritative && p.error == "" }
  predicate AuthorityHasRecords(p: Probe) { p.authoritative && p.records != [] }
  predicate RecursiveVerified(p: Probe) { !p.authoritative && p.verified }
  predicate RecursiveMismatch(p: Probe) { !p.authoritative && p.error == "" && p.records != [] && !p.verified }
  predicate HasRecords(p: Probe) { p.records != [] }

  predicate Any(probes: seq<Probe>, f: Probe -> bool) { exists p <- probes :: f(p) }

  function StatusOf(probes: seq<Probe>): Status {
    if Any(probes, AuthorityVerified) then if Any(probes, RecursiveMismatch) then Propagating else Verified
    else if Any(probes, AuthoritySeen) then if Any(probes, AuthorityHasRecords) then Misconfigured else NotFound
    else if Any(probes, RecursiveVerified) then Propagating
    else if Any(probes, HasRecords) then Misconfigured
    else NotFound
  }

  predicate IsVerified(probes: seq<Probe>) {
    Any(probes, AuthorityVerified) || (!Any(probes, AuthoritySeen) && Any(probes, RecursiveVerified))
  }

  function FirstRecords(probes: seq<Probe>): seq<string> {
    if probes == [] then [] else if probes[0].records != [] then probes[0].records else FirstRecords(probes[1..])
  }

  /** The records of the last verified authoritative probe, or else the first records seen. */
  function PreferredRecords(probes: seq<Probe>): seq<string>
    decreases |probes|
  {
    if !Any(probes, AuthorityVerified) then FirstRecords(probes)
    else if AuthorityVerified(probes[|probes| - 1]) then probes[|probes| - 1].records
    else PreferredRecords(probes[..|probes| - 1])
  }

  lemma AnyOfAppend(probes: seq<Probe>, p: Probe, f: Probe -> bool)
    ensures Any(probes + [p], f) <==> Any(probes, f) || f(p)
  {}

  lemma {:induction false} FirstOfAppend(probes: seq<Probe>, p: Probe)
    ensures FirstRecords(probes + [p]) == if FirstRecords(probes) != [] then FirstRecords(probes) else p.records
    ensures FirstRecords(probes) != [] <==> Any(probes, HasRecords)
  {
    if probes == [] {
      assert [p][1..] == [];
    } else {
      assert (probes + [p])[1..] == probes[1..] + [p];
      FirstOfAppend(probes[1..], p);
      assert probes == [probes[0]] + probes[1..];
      assert probes[0] in probes && (HasRecords(probes[0]) <==> probes[0].records != []);
      assert forall q <- probes :: q == probes[0] || q in probes[1..];
      assert forall q <- probes[1..] :: q in probes;
    }
  }

  lemma PreferredOfAppend(probes: seq<Probe>, p: Probe)
    ensures PreferredRecords(probes + [p]) ==
            if p.authoritative && p.verified then p.records
            else if PreferredRecords(probes) != [] then PreferredRecords(probes)
            else p.records
  {
    AnyOfAppend(probes, p, AuthorityVerified);
    FirstOfAppend(probes, p);
    VerifiedHasRecords(probes);
    assert (probes + [p])[..|probes|] == probes;
  }

  lemma {:induction false} VerifiedHasRecords(probes: seq<Probe>)
    ensures Any(probes, AuthorityVerified) ==>
              exists p <- probes :: AuthorityVerified(p) && PreferredRecords(probes) == p.records
    decreases |probes|
  {
    if Any(probes, AuthorityVerified) && !AuthorityVerified(probes[|probes| - 1]) {
      var rest := probes[..|probes| - 1];
      assert probes == rest + [probes[|probes| - 1]];
      AnyOfAppend(rest, probes[|probes| - 1], AuthorityVerified);
      VerifiedHasRecords(rest);
    }
  }

  /** How each flag of the fold changes with one more probe. */
  lemma FlagsOfAppend(probes: seq<Probe>, p: Probe)
    ensures var all := probes + [p];
            && Any(all, AuthoritySeen) == (Any(probes, AuthoritySeen) || (p.authoritative && p.error == ""))
            && Any(all, AuthorityVerified) == (Any(probes, AuthorityVerified) || (p.authoritative && p.verified))
            && Any(all, AuthorityHasRecords) ==
               (Any(probes, AuthorityHasRecords) || (p.authoritative && p.records != []))
            && Any(all, RecursiveVerified) == (Any(probes, RecursiveVerified) || (!p.authoritative && p.verified))
            && Any(all, RecursiveMismatch) == (Any(probes, RecursiveMismatch)
                                               || (!p.authoritative && p.error == "" && p.records != [] && !p.verified))
            && Any(all, HasRecords) == (Any(probes, HasRecords) || p.records != [])
  {
    AnyOfAppend(probes, p, AuthoritySeen);
    AnyOfAppend(probes, p, AuthorityVerified);
    AnyOfAppend(probes, p, AuthorityHasRecords);
    AnyOfAppend(probes, p, RecursiveVerified);
    AnyOfAppend(probes, p, RecursiveMismatch);
    AnyOfAppend(probes, p, HasRecords);
    hide Any;
  }

  lemma NoFlags()
    ensures !Any([], AuthoritySeen) && !Any([], AuthorityVerified) && !Any([], AuthorityHasRecords)
    ensures !Any([], RecursiveVerified) && !Any([], RecursiveMismatch) && !Any([], HasRecords)
    ensures PreferredRecords([]) == []
  {}

  method ClassifyPropagation(probes: seq<Probe>) returns (v: Verdict)
    ensures v == Verdict(StatusOf(probes), IsVerified(probes), PreferredRecords(probes))
  {
    hide Any;
    hide PreferredRecords;
    hide AuthoritySeen;
    hide AuthorityVerified;
    hide AuthorityHasRecords;
    hide RecursiveVerified;
    hide RecursiveMismatch;
    hide HasRecords;
    NoFlags();
    assert probes[..0] == [];
    var authoritySeen, authorityVerified, authorityHasRecords := false, false, false;
    var recursiveVerified, recursiveHasMismatch, anyRecords := false, false, false;
    var preferred: seq<string> := [];
    for i := 0 to |probes|
      invariant authoritySeen == Any(probes[..i], AuthoritySeen)
      invariant authorityVerified == Any(probes[..i], AuthorityVerified)
      invariant authorityHasRecords == Any(probes[..i], AuthorityHasRecords)
      invariant recursiveVerified == Any(probes[..i], RecursiveVerified)
      invariant recursiveHasMismatch == Any(probes[..i], RecursiveMismatch)
      invariant anyRecords == Any(probes[..i], HasRecords)
      invariant preferred == PreferredRecords(probes[..i])
    {
      var probe := probes[i];
      assert probes[..i + 1] == probes[..i] + [probe];
      FlagsOfAppend(probes[..i], probe);
      PreferredOfAppend(probes[..i], probe);
      if |probe.records| > 0 {
        anyRecords := true;
        if preferred == [] {
          preferred := probe.records;
        }
      }
      if probe.authoritative {
        if probe.error == "" {
          authoritySeen := true;
        }
        if |probe.records| > 0 {
          authorityHasRecords := true;
        }
        if probe.verified {
          authorityVerified := true;
          preferred := probe.records;
        }
        continue;
      }
      if probe.verified {
        recursiveVerified := true;
      }
      if probe.error == "" && |probe.records| > 0 && !probe.verified {
        recursiveHasMismatch := true;
      }
    }
    assert probes[..|probes|] == probes;
    v := Verdict(NotFound, false, preferred);
    if authorityVerified {
      v := v.(verified := true, status := if recursiveHasMismatch then Propagating else Verified);
    } else if authoritySeen && authorityHasRecords {
      v := v.(status := Misconfigured);
    } else if authoritySeen {
      v := v.(status := NotFound);
    } else if recursiveVerified {
      v := v.(verified := true, status := Propagating);
    } else if anyRecords {
      v := v.(status := Misconfigured);
    }
  }

  // ---- The order of the report ----------------------------------------------------------------

  /** Byte order on strings. */
  predicate Lex(a: string, b: string) {
    b != "" && (a == "" || a[0] < b[0] || (a[0] == b[0] && Lex(a[1..], b[1..])))
  }

  predicate Less(a: Report, b: Report) {
    if a.authoritative != b.authoritative then !a.authoritative else Lex(a.source, b.source)
  }

  function Insert(s: seq<Probe>, p: Probe): seq<Probe>
    decreases |s|
  {
    if s != [] && Less(p, s[|s| - 1]) then Insert(s[..|s| - 1], p) + [s[|s| - 1]] else s + [p]
  }

  /** The stable order: each probe goes behind all that are not after it. */
  function Sorted(s: seq<Probe>): seq<Probe>
    decreases |s|
  {
    if s == [] then [] else Insert(Sorted(s[..|s| - 1]), s[|s| - 1])
  }

  lemma {:induction false} InsertKeeps(s: seq<Probe>, p: Probe)
    ensures multiset(Insert(s, p)) == multiset(s) + multiset{p}
    decreases |s|
  {
    if s != [] && Less(p, s[|s| - 1]) {
      var rest := s[..|s| - 1];
      assert s == rest + [s[|s| - 1]];
      InsertKeeps(rest, p);
    }
  }

  lemma {:induction false} SortedKeeps(s: seq<Probe>)
    ensures multiset(Sorted(s)) == multiset(s)
    decreases |s|
  {
    if s != [] {
      var rest := s[..|s| - 1];
      assert s == rest + [s[|s| - 1]];
      SortedKeeps(rest);
      InsertKeeps(Sorted(rest), s[|s| - 1]);
    }
  }

  /** What is not less passes along. */
  lemma {:induction false} LexIsOrder(a: string, b: string, c: string)
    ensures !(Lex(a, b) && Lex(b, a))
    ensures !Lex(b, a) && !Lex(c, b) ==> !Lex(c, a)
    decreases |a| + |b| + |c|
  {
    if a != "" && b != "" && c != "" { LexIsOrder(a[1..], b[1..], c[1..]); }
    else if a != "" && b != "" { LexIsOrder(a[1..], b[1..], ""); }
  }

  ghost predicate InOrder(s: seq<Probe>) {
    forall i, j :: 0 <= i < j < |s| ==> !Less(s[j], s[i])
  }

  lemma LessIsOrder(a: Report, b: Report, c: Report)
    ensures !(Less(a, b) && Less(b, a))
    ensures !Less(b, a) && !Less(c, b) ==> !Less(c, a)
  {
    LexIsOrder(a.source, b.source, c.source);
  }

  lemma AppendInOrder(s: seq<Probe>, x: Probe)
    requires InOrder(s) && forall q <- s :: !Less(x, q)
    ensures InOrder(s + [x])
  {
    hide Less;
    var t := s + [x];
    forall i, j | 0 <= i < j < |t| ensures !Less(t[j], t[i]) {
      if j == |s| { assert t[i] in s; }
    }
  }

  lemma {:induction false} InsertInOrder(s: seq<Probe>, p: Probe)
    requires InOrder(s)
    ensures InOrder(Insert(s, p))
    decreases |s|
  {
    hide Less;
    if s == [] {
      AppendInOrder(s, p);
    } else {
      var rest, last := s[..|s| - 1], s[|s| - 1];
      if Less(p, last) {
        InsertInOrder(rest, p);
        LessIsOrder(p, last, last);
        forall q <- Insert(rest, p) ensures !Less(last, q) { InsertedFrom(rest, p, q); }
        AppendInOrder(Insert(rest, p), last);
      } else {
        forall q <- s ensures !Less(p, q) { LessIsOrder(q, last, p); }
        AppendInOrder(s, p);
      }
    }
  }

  lemma InsertedFrom(s: seq<Probe>, p: Probe, q: Probe)
    requires q in Insert(s, p)
    ensures q == p || q in s
  {
    InsertKeeps(s, p);
    assert q in multiset(s) + multiset{p};
  }

  /** The report lists recursive resolvers before authoritative servers, each by source name. */
  lemma {:induction false} SortedInOrder(s: seq<Probe>)
    ensures InOrder(Sorted(s))
    decreases |s|
  {
    if s != [] {
      SortedInOrder(s[..|s| - 1]);
      InsertInOrder(Sorted(s[..|s| - 1]), s[|s| - 1]);
    }
  }

  // ---- The verdict does not depend on the order ---------------------------------------------------

  lemma AnyIgnoresOrder(s: seq<Probe>, t: seq<Probe>, f: Probe -> bool)
    requires multiset(s) == multiset(t)
    ensures Any(s, f) == Any(t, f)
  {
    forall p ensures p in s <==> p in t { assert p in multiset(s) <==> p in multiset(t); }
  }

  lemma FlagsIgnoreOrder(s: seq<Probe>, t: seq<Probe>)
    requires multiset(s) == multiset(t)
    ensures StatusOf(s) == StatusOf(t) && IsVerified(s) == IsVerified(t)
            && Any(s, AuthorityVerified) == Any(t, AuthorityVerified)
  {
    AnyIgnoresOrder(s, t, AuthoritySeen);
    AnyIgnoresOrder(s, t, AuthorityVerified);
    AnyIgnoresOrder(s, t, AuthorityHasRecords);
    AnyIgnoresOrder(s, t, RecursiveVerified);
    AnyIgnoresOrder(s, t, RecursiveMismatch);
    AnyIgnoresOrder(s, t, HasRecords);
    hide Any;
  }

  /** Status and verification are the same in any order, and an authoritative verification always
      reports the records of a verified authoritative probe. */
  lemma VerdictIgnoresOrder(s: seq<Probe>, t: seq<Probe>)
    requires multiset(s) == multiset(t)
    ensures StatusOf(Sorted(s)) == StatusOf(Sorted(t)) == StatusOf(s)
    ensures IsVerified(Sorted(s)) == IsVerified(Sorted(t)) == IsVerified(s)
    ensures Any(s, AuthorityVerified) ==>
              exists p <- s :: AuthorityVerified(p) && PreferredRecords(Sorted(s)) == p.records
  {
    hide StatusOf;
    hide IsVerified;
    hide Any;
    hide Sorted;
    hide PreferredRecords;
    hide AuthorityVerified;
    SortedKeeps(s);
    SortedKeeps(t);
    FlagsIgnoreOrder(Sorted(s), s);
    FlagsIgnoreOrder(Sorted(t), s);
    VerifiedHasRecords(Sorted(s));
    SameElements(Sorted(s), s);
  }

  // ---- Which probe's records are reported -------------------------------------------------------------

  function FirstOf(s: seq<Probe>, f: Probe -> bool): Option<Probe> {
    if s == [] then None else if f(s[0]) then Some(s[0]) else FirstOf(s[1..], f)
  }

  function LastOf(s: seq<Probe>, f: Probe -> bool): Option<Probe>
    decreases |s|
  {
    if s == [] then None else if f(s[|s| - 1]) then Some(s[|s| - 1]) else LastOf(s[..|s| - 1], f)
  }

  lemma {:induction false} FirstOfIsOne(s: seq<Probe>, f: Probe -> bool)
    ensures FirstOf(s, f).Some? <==> Any(s, f)
    ensures FirstOf(s, f).Some? ==> FirstOf(s, f).value in s && f(FirstOf(s, f).value)
  {
    if s != [] {
      FirstOfIsOne(s[1..], f);
      assert forall p :: p in s <==> p == s[0] || p in s[1..];
    }
  }

  lemma {:induction false} LastOfIsOne(s: seq<Probe>, f: Probe -> bool)
    ensures LastOf(s, f).Some? <==> Any(s, f)
    ensures LastOf(s, f).Some? ==> LastOf(s, f).value in s && f(LastOf(s, f).value)
    decreases |s|
  {
    if s != [] {
      var rest := s[..|s| - 1];
      LastOfIsOne(rest, f);
      assert s == rest + [s[|s| - 1]];
      assert forall p :: p in s <==> p == s[|s| - 1] || p in rest;
    }
  }

  lemma {:induction false} FirstOfPlus(s: seq<Probe>, p: Probe, f: Probe -> bool)
    ensures FirstOf(s + [p], f) == if FirstOf(s, f).Some? then FirstOf(s, f) else if f(p) then Some(p) else None
  {
    if s == [] {
      assert [p][1..] == [];
    } else {
      assert (s + [p])[1..] == s[1..] + [p];
      FirstOfPlus(s[1..], p, f);
    }
  }

  lemma LastOfPlus(s: seq<Probe>, p: Probe, f: Probe -> bool)
    ensures LastOf(s + [p], f) == if f(p) then Some(p) else LastOf(s, f)
  {
    assert (s + [p])[..|s|] == s;
  }

  /** Only a smaller probe takes the first place, as equal ones keep the order they came in. */
  lemma {:induction false} FirstOfInsert(s: seq<Probe>, x: Probe, f: Probe -> bool)
    requires InOrder(s)
    ensures var g := FirstOf(s, f);
            FirstOf(Insert(s, x), f) == if f(x) && (g.None? || Less(x, g.value)) then Some(x) else g
    decreases |s|
  {
    hide Less;
    FirstOfIsOne(s, f);
    if s == [] || !Less(x, s[|s| - 1]) {
      FirstOfPlus(s, x, f);
      if FirstOf(s, f).Some? { NotBefore(s, x, FirstOf(s, f).value); }
    } else {
      var rest, last := s[..|s| - 1], s[|s| - 1];
      assert s == rest + [last];
      FirstOfInsert(rest, x, f);
      FirstOfPlus(rest, last, f);
      FirstOfPlus(Insert(rest, x), last, f);
    }
  }

  /** The last place goes to any probe that is not smaller. */
  lemma {:induction false} LastOfInsert(s: seq<Probe>, x: Probe, f: Probe -> bool)
    requires InOrder(s)
    ensures var g := LastOf(s, f);
            LastOf(Insert(s, x), f) == if f(x) && (g.None? || !Less(x, g.value)) then Some(x) else g
    decreases |s|
  {
    hide Less;
    LastOfIsOne(s, f);
    if s == [] || !Less(x, s[|s| - 1]) {
      LastOfPlus(s, x, f);
      if LastOf(s, f).Some? { NotBefore(s, x, LastOf(s, f).value); }
    } else {
      var rest, last := s[..|s| - 1], s[|s| - 1];
      assert s == rest + [last];
      LastOfInsert(rest, x, f);
      LastOfPlus(rest, last, f);
      LastOfPlus(Insert(rest, x), last, f);
    }
  }

  lemma NotBefore(s: seq<Probe>, x: Probe, g: Probe)
    requires InOrder(s) && s != [] && !Less(x, s[|s| - 1]) && g in s
    ensures !Less(x, g)
  {
    hide Less;
    var last := s[|s| - 1];
    var i :| 0 <= i < |s| && s[i] == g;
    if i < |s| - 1 { LessIsOrder(g, last, x); }
  }

  /** Probe `i`, in the order of completion, ends up before every other probe of its kind. */
  ghost predicate ComesFirst(s: seq<Probe>, i: nat, f: Probe -> bool) {
    i < |s| && f(s[i]) && forall j :: 0 <= j < |s| && j != i && f(s[j]) ==>
        if j < i then Less(s[i], s[j]) else !Less(s[j], s[i])
  }

  /** Probe `i`, in the order of completion, ends up behind every other probe of its kind. */
  ghost predicate ComesLast(s: seq<Probe>, i: nat, f: Probe -> bool) {
    i < |s| && f(s[i]) && forall j :: 0 <= j < |s| && j != i && f(s[j]) ==>
        if j < i then !Less(s[i], s[j]) else Less(s[j], s[i])
  }

  lemma {:induction false} SortedFirst(s: seq<Probe>, i: nat, f: Probe -> bool)
    requires ComesFirst(s, i, f)
    ensures FirstOf(Sorted(s), f) == Some(s[i])
    decreases |s|
  {
    hide Less;
    var rest, x := s[..|s| - 1], s[|s| - 1];
    SortedInOrder(rest);
    FirstOfInsert(Sorted(rest), x, f);
    if i == |s| - 1 {
      FirstOfIsOne(Sorted(rest), f);
      SortedKeeps(rest);
      SameElements(Sorted(rest), rest);
    } else {
      SortedFirst(rest, i, f);
    }
  }

  lemma {:induction false} SortedLast(s: seq<Probe>, i: nat, f: Probe -> bool)
    requires ComesLast(s, i, f)
    ensures LastOf(Sorted(s), f) == Some(s[i])
    decreases |s|
  {
    hide Less;
    var rest, x := s[..|s| - 1], s[|s| - 1];
    SortedInOrder(rest);
    LastOfInsert(Sorted(rest), x, f);
    if i == |s| - 1 {
      LastOfIsOne(Sorted(rest), f);
      SortedKeeps(rest);
      SameElements(Sorted(rest), rest);
    } else {
      SortedLast(rest, i, f);
    }
  }

  lemma {:induction false} FirstRecordsAreOfFirst(s: seq<Probe>)
    ensures FirstRecords(s) == if FirstOf(s, HasRecords).Some? then FirstOf(s, HasRecords).value.records else []
  {
    if s != [] { FirstRecordsAreOfFirst(s[1..]); }
  }

  lemma {:induction false} PreferredAreOfLast(s: seq<Probe>)
    requires Any(s, AuthorityVerified)
    ensures LastOf(s, AuthorityVerified).Some? && PreferredRecords(s) == LastOf(s, AuthorityVerified).value.records
    decreases |s|
  {
    LastOfIsOne(s, AuthorityVerified);
    if !AuthorityVerified(s[|s| - 1]) {
      var rest := s[..|s| - 1];
      assert s == rest + [s[|s| - 1]];
      AnyOfAppend(rest, s[|s| - 1], AuthorityVerified);
      PreferredAreOfLast(rest);
    }
  }

  /** With a verifying authoritative server, the records reported are those of the last one in the
      report's order; among equals, of the one that completed last. */
  lemma LastVerifiedIsReported(s: seq<Probe>, i: nat)
    requires ComesLast(s, i, AuthorityVerified)
    ensures PreferredRecords(Sorted(s)) == s[i].records
  {
    hide ComesLast;
    hide PreferredRecords;
    SortedLast(s, i, AuthorityVerified);
    LastOfIsOne(Sorted(s), AuthorityVerified);
    PreferredAreOfLast(Sorted(s));
  }

  /** Without one, they are those of the first probe in the report's order that saw any; among
      equals, of the one that completed first. */
  lemma FirstBearingIsReported(s: seq<Probe>, i: nat)
    requires !Any(s, AuthorityVerified) && ComesFirst(s, i, HasRecords)
    ensures PreferredRecords(Sorted(s)) == s[i].records
  {
    hide ComesFirst;
    SortedFirst(s, i, HasRecords);
    SortedKeeps(s);
    AnyIgnoresOrder(Sorted(s), s, AuthorityVerified);
    FirstRecordsAreOfFirst(Sorted(s));
    hide Sorted;
  }

  lemma NothingIsReported(s: seq<Probe>)
    requires !Any(s, HasRecords)
    ensures PreferredRecords(Sorted(s)) == []
  {
    SortedKeeps(s);
    AnyIgnoresOrder(Sorted(s), s, HasRecords);
    assert forall p <- Sorted(s) :: AuthorityVerified(p) ==> HasRecords(p);
    FirstOfIsOne(Sorted(s), HasRecords);
    FirstRecordsAreOfFirst(Sorted(s));
    hide Sorted;
  }

  lemma SameElements(s: seq<Probe>, t: seq<Probe>)
    requires multiset(s) == multiset(t)
    ensures forall p :: p in s <==> p in t
  {
    forall p ensures p in s <==> p in t { assert p in multiset(s) <==> p in multiset(t); }
  }
}
