/** What a probe and a verdict say, told in the columns of the report. */
module ProbeLaws {
  import opened Common
  import opened Text
  import opened Propagation

  predicate EndsInDot(s: string) { s != "" && s[|s| - 1] == '.' }

  /** A record is the expected host in any capitals, with or without a dot at the end. */
  lemma MatchesIff(record: string, expected: string)
    ensures Matches(record, expected) <==>
            Lower(record) == expected + "." || (Lower(record) == expected && !EndsInDot(expected))
  {
    hide Lower;
    var l := Lower(record);
    if EndsInDot(l) { assert l == l[..|l| - 1] + "."; }
    assert EndsInDot(expected + ".") && (expected + ".")[..|expected|] == expected;
  }

  /** A probe is verified if its lookup succeeded and brought the expected host, which a strict check
      wants alone; its records are what the lookup brought, and its error tells whether it failed. */
  lemma ProbeSays(t: Target, a: Answer, expected: string, strict: bool)
    ensures var p := ProbeOf(t, a, expected, strict);
            && p.resolver == t.address && p.source == t.source && p.authoritative == t.authoritative
            && (p.error == "" <==> a.Records?) && p.records == (if a.Records? then a.hosts else [])
            && (a.Failed? && a.error != "" ==> p.error == a.error)
            && (p.verified <==>
                  && a.Records? && (strict ==> |a.hosts| == 1)
                  && exists record <- a.hosts ::
                       Lower(record) == expected + "." || (Lower(record) == expected && !EndsInDot(expected)))
  {
    forall record: string { MatchesIff(record, expected); }
    hide Matches;
    hide Lower;
  }

  /** A strict check verifies no more than a lenient one, and the same on a single record. */
  lemma StrictIsStricter(t: Target, a: Answer, expected: string)
    ensures ProbeOf(t, a, expected, true).verified ==> ProbeOf(t, a, expected, false).verified
    ensures a.Records? && |a.hosts| == 1 ==> ProbeOf(t, a, expected, true) == ProbeOf(t, a, expected, false)
  {
    hide Matches;
  }

  /** Without options there are three public resolvers, three and a half seconds and five probes at once;
      there are never more at once than resolvers and twenty. */
  lemma OptionsAre(o: CheckOptions)
    ensures var n := NormalizeOptions(o);
            && n.resolvers == (if o.resolvers == [] then ["1.1.1.1:53", "8.8.8.8:53", "223.5.5.5:53"] else o.resolvers)
            && n.timeout == (if o.timeout <= 0 then 3_500_000_000 else o.timeout)
            && (o.maxConcurrent <= 0 ==> n.maxConcurrent == 5)
            && (o.maxConcurrent > |n.resolvers| + 20 ==> n.maxConcurrent == |n.resolvers| + 20)
            && (0 < o.maxConcurrent <= |n.resolvers| + 20 ==> n.maxConcurrent == o.maxConcurrent)
  {}

  // ---- The verdict -----------------------------------------------------------------------------------

  predicate AuthorityAnswered(probes: seq<Probe>) { exists p <- probes :: p.authoritative && p.error == "" }

  /** Authorities that answered decide alone whether the host is verified; only if none did, anybody may. */
  lemma VerifiedIff(probes: seq<Probe>)
    ensures IsVerified(probes) <==>
            if AuthorityAnswered(probes) then exists p <- probes :: p.authoritative && p.verified
            else exists p <- probes :: p.verified
    ensures IsVerified(probes) <==> StatusOf(probes) in {Verified, Propagating}
  {
    if p :| p in probes && p.authoritative && p.verified { assert p.error == ""; }
  }

  /** The four words of the report. */
  lemma StatusSays(probes: seq<Probe>)
    ensures StatusOf(probes) == Verified <==>
            && (exists p <- probes :: p.authoritative && p.verified)
            && forall p <- probes :: !p.authoritative && p.error == "" && p.records != [] ==> p.verified
    ensures StatusOf(probes) == NotFound <==>
            forall p <- probes :: (AuthorityAnswered(probes) ==> p.authoritative) ==> p.records == []
    ensures StatusOf(probes) == Misconfigured <==> !IsVerified(probes) && StatusOf(probes) != NotFound
  {}

  // ---- The order of the report -------------------------------------------------------------------------

  /** Strings are compared at the first place where they differ. */
  lemma {:induction false} LexAtFirstDifference(common: string, a: string, b: string)
    ensures Lex(common + a, common + b) <==> Lex(a, b)
    ensures a != "" && b != "" && a[0] != b[0] ==> (Lex(common + a, common + b) <==> a[0] < b[0])
    ensures Lex(common, common + b) <==> b != ""
  {
    if common != "" {
      LexAtFirstDifference(common[1..], a, b);
      assert (common + a)[1..] == common[1..] + a && (common + b)[1..] == common[1..] + b;
    } else {
      assert common + a == a && common + b == b;
    }
  }

  /** Nothing recursive comes after anything authoritative, and within a kind no source comes after a
      greater one. */
  lemma ReportOrder(s: seq<Probe>, i: nat, j: nat)
    requires i < j < |Sorted(s)|
    ensures var a, b := Sorted(s)[i], Sorted(s)[j];
            (a.authoritative ==> b.authoritative) && (a.authoritative == b.authoritative ==> !Lex(b.source, a.source))
  {
    SortedInOrder(s);
    assert !Less(Sorted(s)[j], Sorted(s)[i]);
    hide Sorted;
    hide Lex;
  }
}
