/** The many ways to write a host, a recipient or a label, and what each of them comes to. */
module HostForms {
  import opened Common
  import opened Text
  import opened Resolver
  import opened SubdomainBoundary

  const CAPITALS := "ABCDEFGHIJKLMNOPQRSTUVWXYZ"
  const LETTERS := "abcdefghijklmnopqrstuvwxyz"

  // ---- Letters and trimming --------------------------------------------------------------------------

  /** Each capital becomes its letter, and no other character changes. */
  lemma LowerIsAscii(c: char, k: nat)
    requires k < 26
    ensures LowerChar(CAPITALS[k]) == LETTERS[k]
    ensures c !in CAPITALS ==> LowerChar(c) == c
    ensures LowerChar(c) !in CAPITALS
  {
    CapitalAt(c);
  }

  lemma CapitalAt(c: char)
    ensures c in CAPITALS <==> 'A' <= c <= 'Z'
  {
    if 'A' <= c <= 'Z' { assert CAPITALS[c as int - 'A' as int] == c; }
  }

  /** Nothing that can be seen is a space. */
  lemma SpacesAreUnseen(c: char)
    ensures '!' <= c <= '~' ==> !IsSpace(c)
    ensures c in " \t\r\n" ==> IsSpace(c)
  {}

  lemma LowerTwice(s: string)
    ensures Lower(Lower(s)) == Lower(s)
  {}

  lemma LowerOfSum(a: string, b: string)
    ensures Lower(a + b) == Lower(a) + Lower(b)
  {
    hide LowerChar;
    var s, t := Lower(a + b), Lower(a) + Lower(b);
    assert |s| == |t| && forall i :: 0 <= i < |s| ==> s[i] == t[i];
  }

  /** Between two cut ends, a middle that has nothing to cut is what trimming leaves. */
  lemma TrimFinds(a: string, m: string, b: string, cut: char -> bool)
    requires m != "" && Trimmed(m, cut) && (forall c <- a :: cut(c)) && forall c <- b :: cut(c)
    ensures Trim(a + m + b, cut) == m
  {
    var s := a + m + b;
    var i, j := TrimIsMiddle(s, cut);
    assert s[|a|] == m[0] && s[|a| + |m| - 1] == m[|m| - 1];
    hide Trim;
    assert j > |a| && i < |a| + |m|;
    assert i < j && s[i..j][0] == s[i] && s[i..j][j - i - 1] == s[j - 1];
    assert forall k :: 0 <= k < |a| ==> s[k] == a[k];
    assert forall k :: |a| + |m| <= k < |s| ==> s[k] == b[k - |a| - |m|];
    assert s[|a|..|a| + |m|] == m;
  }

  // ---- Hosts -----------------------------------------------------------------------------------------

  /** However a domain is written (in capitals, with a star before it, with dots or spaces around
      it), it is normalised to the same clean name. */
  lemma AllFormsOfADomain(left: string, star: string, dots: string, u: string, moreDots: string, right: string)
    requires CleanHost(Lower(u)) && star in {"", "*", "*."}
    requires (forall c <- left + right :: IsSpace(c)) && forall c <- dots + moreDots :: c == '.'
    ensures NormalizeDomain(left + (star + dots + u + moreDots) + right) == Lower(u)
  {
    hide Trim;
    hide Lower;
    hide IsSpace;
    var body := star + dots + u + moreDots;
    InParts(left, right);
    InParts(dots, moreDots);
    BodyIsTrimmed(star, dots, u, moreDots);
    TrimFinds(left, body, right, IsSpace);
    StarComesOff(star, dots, u, moreDots);
  }

  lemma InParts(a: string, b: string)
    ensures (forall c <- a :: c in a + b) && forall c <- b :: c in a + b
  {}

  lemma BodyIsTrimmed(star: string, dots: string, u: string, moreDots: string)
    requires CleanHost(Lower(u)) && star in {"", "*", "*."}
    requires (forall c <- dots :: c == '.') && forall c <- moreDots :: c == '.'
    ensures var body := star + dots + u + moreDots; body != "" && Trimmed(body, IsSpace)
  {
    var body, rest := star + dots + u + moreDots, dots + u + moreDots;
    CleanEdges(u);
    hide CleanHost;
    EndsOfSum(dots, u, moreDots);
    hide IsSpace;
    assert body == star + rest;
    assert body[|body| - 1] == rest[|rest| - 1];
    if star == "" { assert body[0] == rest[0]; } else { assert body[0] == '*'; }
    SpacesAreUnseen('*');
    SpacesAreUnseen('.');
  }

  lemma CleanEdges(u: string)
    requires CleanHost(Lower(u))
    ensures u != "" && !IsSpace(u[0]) && !IsSpace(u[|u| - 1]) && u[0] != '*' && u[0] != '.'
  {
    hide IsSpace;
    hide LowerChar;
    hide Lower;
    var l := Lower(u);
    assert l[0] in l && l[|u| - 1] in l;
    assert CleanChar(l[0]) && CleanChar(l[|u| - 1]);
    LowerCharKeeps(u[0]);
    LowerCharKeeps(u[|u| - 1]);
  }

  lemma EndsOfSum(dots: string, u: string, moreDots: string)
    requires u != "" && (forall c <- dots :: c == '.') && forall c <- moreDots :: c == '.'
    ensures var s := dots + u + moreDots; s[0] in {'.', u[0]} && s[|s| - 1] in {'.', u[|u| - 1]}
  {
    var s := dots + u + moreDots;
    if dots != "" { assert s[0] == dots[0] && dots[0] in dots; } else { assert s[0] == u[0]; }
    if moreDots != "" { assert s[|s| - 1] == moreDots[|moreDots| - 1] && moreDots[|moreDots| - 1] in moreDots; }
    else { assert s[|s| - 1] == u[|u| - 1]; }
  }

  lemma StarComesOff(star: string, dots: string, u: string, moreDots: string)
    requires CleanHost(Lower(u)) && star in {"", "*", "*."}
    requires (forall c <- dots :: c == '.') && forall c <- moreDots :: c == '.'
    ensures TrimDots(Unstarred(Lower(star + dots + u + moreDots))) == Lower(u)
  {
    hide Trim;
    hide Lower;
    hide Unstarred;
    CleanEdges(u);
    var tail := u + moreDots;
    assert tail[0] == u[0] && star + dots + u + moreDots == star + (dots + tail);
    UnstarredLower(star + (dots + tail));
    var first := UnstarredBody(star, dots, tail);
    assert first + tail == first + u + moreDots;
    LowerOfSum(first + u, moreDots);
    LowerOfSum(first, u);
    LowerOfClean(first);
    LowerOfClean(moreDots);
    TrimFinds(first, Lower(u), moreDots, IsDot);
  }

  /** Without its star a domain starts with dots, all of them or all but one. */
  lemma UnstarredBody(star: string, dots: string, tail: string) returns (first: string)
    requires tail != "" && tail[0] != '*' && tail[0] != '.'
    requires star in {"", "*", "*."} && forall c <- dots :: c == '.'
    ensures Unstarred(star + (dots + tail)) == first + tail && forall c <- first :: c == '.'
  {
    hide Unstarred;
    first := dots;
    if star == "*" && dots != "" {
      first := dots[1..];
      assert dots[0] in dots && forall c <- first :: c in dots;
      assert star + (dots + tail) == "*." + (first + tail);
      DotsFirst(first, tail);
      StarDotOff(first + tail);
    } else if star == "*" {
      assert dots + tail == tail;
      StarOff(tail);
    } else if star == "*." {
      DotsFirst(dots, tail);
      StarDotOff(dots + tail);
    } else {
      DotsFirst(dots, tail);
      assert star + (dots + tail) == dots + tail;
      NoStarOff(dots + tail);
    }
  }

  lemma DotsFirst(dots: string, tail: string)
    requires tail != "" && tail[0] != '*' && forall c <- dots :: c == '.'
    ensures (dots + tail)[0] != '*'
  {
    if dots != "" { assert (dots + tail)[0] == dots[0] && dots[0] in dots; }
  }

  lemma NoStarOff(rest: string)
    requires rest != "" && rest[0] != '*'
    ensures Unstarred(rest) == rest
  {}

  lemma StarDotOff(rest: string)
    requires rest != "" && rest[0] != '*'
    ensures Unstarred("*." + rest) == rest
  {
    assert ("*." + rest)[..2] == "*." && ("*." + rest)[2..] == rest;
  }

  lemma StarOff(rest: string)
    requires rest != "" && rest[0] != '*' && rest[0] != '.'
    ensures Unstarred("*" + rest) == rest
  {
    assert ("*" + rest)[..1] == "*" && ("*" + rest)[1..] == rest && ("*" + rest)[1] == rest[0];
  }

  // ---- Recipients ------------------------------------------------------------------------------------

  predicate NoAngles(s: string) { '<' !in s && '>' !in s }

  /** Whatever stands before and after the last pair of brackets, the address is between them. */
  lemma BracketsHoldTheAddress(display: string, a: string, tail: string, parse: AddressParser)
    requires NoAngles(a) && NoAngles(tail)
    ensures NormalizeRecipient(display + ("<" + a + ">") + tail, parse) == NormalizeRecipient(a, parse)
  {
    hide Trim;
    hide Lower;
    hide LastIndex;
    hide IsSpace;
    hide SplitAddress;
    var s := Lower(display + ("<" + a + ">") + tail);
    var d, b, t := Lower(display), Lower(a), Lower(tail);
    LowerOfBrackets(display, a, tail);
    LowerHasNoAngles(a);
    LowerHasNoAngles(tail);
    var m := InBrackets(d, b, t);
    NoneInTrimmed(b);
  }

  lemma LowerOfBrackets(display: string, a: string, tail: string)
    ensures Lower(display + ("<" + a + ">") + tail) == Lower(display) + ("<" + Lower(a) + ">") + Lower(tail)
  {
    LowerOfSum(display + ("<" + a + ">"), tail);
    LowerOfSum(display, "<" + a + ">");
    LowerOfSum("<" + a, ">");
    LowerOfSum("<", a);
    LowerOfClean("<");
    LowerOfClean(">");
    hide Lower;
    assert Lower("<" + a + ">") == "<" + Lower(a) + ">";
  }

  lemma LowerHasNoAngles(a: string)
    requires NoAngles(a)
    ensures NoAngles(Lower(a))
  {
    forall c <- Lower(a) ensures c != '<' && c != '>' {
      var i :| 0 <= i < |a| && Lower(a)[i] == c;
      assert a[i] in a;
    }
  }

  /** Trimming spaces keeps the brackets, and what they hold. */
  lemma InBrackets(d: string, b: string, t: string) returns (m: string)
    requires NoAngles(b) && NoAngles(t)
    ensures m == TrimSpace(d + ("<" + b + ">") + t)
    ensures var start, end := LastIndex(m, '<'), LastIndex(m, '>');
            0 <= start < end && m[start + 1..end] == b
  {
    hide Trim;
    hide LastIndex;
    var s := d + ("<" + b + ">") + t;
    NoAnglesAfter(d, b, t);
    var i, j := TrimIsMiddle(s, IsSpace);
    m := s[i..j];
    SpacesAreUnseen('<');
    SpacesAreUnseen('>');
    hide IsSpace;
    assert i <= |d| && j >= |d| + |b| + 2;
    var start, end := |d| - i, |d| + |b| + 1 - i;
    assert forall k :: 0 <= k < |m| ==> m[k] == s[k + i];
    LastIndexIs(m, '<', start);
    LastIndexIs(m, '>', end);
    assert m[start + 1..end] == s[|d| + 1..|d| + |b| + 1];
  }

  lemma LastIndexIs(s: string, c: char, i: nat)
    requires i < |s| && s[i] == c && forall k :: i < k < |s| ==> s[k] != c
    ensures LastIndex(s, c) == i
  {}

  lemma NoAnglesAfter(d: string, b: string, t: string)
    requires NoAngles(b) && NoAngles(t)
    ensures var s := d + ("<" + b + ">") + t;
            && s[|d| + 1..|d| + |b| + 1] == b && s[|d|] == '<' && s[|d| + |b| + 1] == '>'
            && forall k :: |d| < k < |s| && k != |d| + |b| + 1 ==> s[k] != '<' && s[k] != '>'
  {
    var s := d + ("<" + b + ">") + t;
    var mid := "<" + b + ">";
    assert s[|d|..|d| + |b| + 2] == mid;
    assert mid[1..|b| + 1] == b && mid[0] == '<' && mid[|b| + 1] == '>';
    assert s[|d|] == mid[0] && s[|d| + |b| + 1] == mid[|b| + 1];
    forall k | |d| < k < |s| && k != |d| + |b| + 1 ensures s[k] != '<' && s[k] != '>' {
      if k <= |d| + |b| { assert s[k] == b[k - |d| - 1] && s[k] in b; }
      else { assert s[k] == t[k - |d| - |b| - 2] && s[k] in t; }
    }
  }

  lemma NoneInTrimmed(b: string)
    requires NoAngles(b)
    ensures LastIndex(TrimSpace(b), '<') == -1
  {
    hide Trim;
    hide LastIndex;
    var i, j := TrimIsMiddle(b, IsSpace);
    var m := b[i..j];
    forall k | 0 <= k < |m| ensures m[k] != '<' { assert m[k] == b[i + k] && m[k] in b; }
  }

  /** Recipients that differ only in capitals are the same. */
  lemma CapitalsDoNotMatter(recipient: string, parse: AddressParser)
    ensures NormalizeRecipient(Lower(recipient), parse) == NormalizeRecipient(recipient, parse)
  {
    LowerTwice(recipient);
    hide SplitAddress;
    hide Lower;
  }

  /** What the mail library makes of an address is what counts, and the address itself only if it
      makes nothing of it. */
  lemma ParsedAddressCounts(a: string, parse: AddressParser)
    requires NoAngles(a) && Lower(a) == a && Trimmed(a, IsSpace)
    ensures NormalizeRecipient(a, parse) ==
            match parse(a)
            case Some(x) => SplitAddress(Lower(TrimSpace(x)))
            case None => SplitAddress(a)
  {
    PlainIsTrimmed(a);
    hide Trim;
    hide LastIndex;
    hide SplitAddress;
    hide Lower;
  }

  lemma PlainIsTrimmed(a: string)
    requires NoAngles(a) && Trimmed(a, IsSpace)
    ensures TrimSpace(a) == a && Trim(a, IsAngle) == a && LastIndex(a, '<') == -1 && LastIndex(a, '>') == -1
  {
    TrimIsIdle(a, IsSpace);
    if a != "" { assert a[0] in a && a[|a| - 1] in a; }
    TrimIsIdle(a, IsAngle);
    hide Trim;
  }

  /** A bracket without its partner comes off. */
  lemma StrayBracketComesOff(a: string, parse: AddressParser)
    requires a != "" && NoAngles(a) && Lower(a) == a && Trimmed(a, IsSpace)
    ensures NormalizeRecipient("<" + a, parse) == NormalizeRecipient(a, parse)
    ensures NormalizeRecipient(a + ">", parse) == NormalizeRecipient(a, parse)
  {
    hide Trim;
    hide LastIndex;
    hide SplitAddress;
    hide Lower;
    PlainIsTrimmed(a);
    LowerOfSum("<", a);
    LowerOfSum(a, ">");
    LowerOfClean("<");
    LowerOfClean(">");
    SpacesAreUnseen('<');
    SpacesAreUnseen('>');
    hide IsSpace;
    OneBracket(a);
    TrimFinds("<", a, "", IsAngle);
    TrimFinds("", a, ">", IsAngle);
    assert "<" + a + "" == "<" + a && "" + a + ">" == a + ">";
    TrimIsIdle("<" + a, IsSpace);
    TrimIsIdle(a + ">", IsSpace);
  }

  lemma OneBracket(a: string)
    requires a != "" && NoAngles(a) && Trimmed(a, IsSpace)
    ensures LastIndex("<" + a, '>') == -1 && LastIndex(a + ">", '<') == -1
    ensures Trimmed("<" + a, IsSpace) && Trimmed(a + ">", IsSpace) && Trimmed(a, IsAngle)
  {
    hide IsSpace;
    hide LastIndex;
    SpacesAreUnseen('<');
    SpacesAreUnseen('>');
    var s, t := "<" + a, a + ">";
    assert s[|a|] == a[|a| - 1] && t[0] == a[0] && t[|a|] == '>' && a[0] in a && a[|a| - 1] in a;
    assert (forall c <- s :: c == '<' || c in a) && forall c <- t :: c == '>' || c in a;
  }

  /** The last at-sign separates; both sides are trimmed, and neither may be empty nor the host hold
      any of six characters. */
  lemma SplitsAtLastAt(local: string, host: string)
    requires '@' !in host
    ensures var word := TrimDots(TrimSpace(host));
            SplitAddress(local + "@" + host) ==
            if TrimSpace(local) == "" || word == "" || exists c <- word :: c in " /\\<>*" then None
            else Some(Parts(TrimSpace(local), word))
  {
    hide Trim;
    hide LastIndex;
    var s := local + "@" + host;
    assert s[|local|] == '@' && s[..|local|] == local && s[|local| + 1..] == host;
    forall k | |local| < k < |s| ensures s[k] != '@' { assert s[k] == host[k - |local| - 1] && s[k] in host; }
    EmptyTrims(IsSpace);
    EmptyTrims(IsDot);
  }

  lemma EmptyTrims(cut: char -> bool)
    ensures Trim("", cut) == ""
  {}

  /** No capital is left in what a recipient comes to. */
  lemma RecipientIsLower(recipient: string, parse: AddressParser)
    ensures var r := NormalizeRecipient(recipient, parse);
            r.Some? ==> forall c <- r.value.local + r.value.host :: !('A' <= c <= 'Z')
  {
    hide Trim;
    hide LastIndex;
    hide BareAddress;
    var address := BareAddress(recipient, parse);
    BareIsLower(recipient, parse);
    var at := LastIndex(address, '@');
    if 0 < at < |address| - 1 {
      SliceIsLower(address, 0, at);
      SliceIsLower(address, at + 1, |address|);
      assert address[0..at] == address[..at] && address[at + 1..|address|] == address[at + 1..];
      PartIsLower(address[..at], IsSpace);
      PartIsLower(address[at + 1..], IsSpace);
      PartIsLower(TrimSpace(address[at + 1..]), IsDot);
    }
    hide HostRejects;
  }

  predicate NoCapitals(s: string) { forall c <- s :: !('A' <= c <= 'Z') }

  lemma PartIsLower(s: string, cut: char -> bool)
    requires NoCapitals(s)
    ensures NoCapitals(Trim(s, cut))
  {
    var i, j := TrimIsMiddle(s, cut);
    assert forall c <- s[i..j] :: c in s;
  }

  lemma LowerHasNoCapitals(s: string)
    ensures NoCapitals(Lower(s))
  {}

  lemma BareIsLower(recipient: string, parse: AddressParser)
    ensures NoCapitals(BareAddress(recipient, parse))
  {
    hide Trim;
    hide Lower;
    hide LastIndex;
    hide NoCapitals;
    var trimmed := TrimSpace(Lower(recipient));
    LowerHasNoCapitals(recipient);
    PartIsLower(Lower(recipient), IsSpace);
    var start, end := LastIndex(trimmed, '<'), LastIndex(trimmed, '>');
    if start >= 0 && end > start {
      SliceIsLower(trimmed, start + 1, end);
      PartIsLower(trimmed[start + 1..end], IsSpace);
    }
    var inner := if start >= 0 && end > start then TrimSpace(trimmed[start + 1..end]) else trimmed;
    PartIsLower(inner, IsAngle);
    var bare := Trim(inner, IsAngle);
    if parse(bare).Some? { LowerHasNoCapitals(TrimSpace(parse(bare).value)); }
  }

  lemma SliceIsLower(s: string, i: nat, j: nat)
    requires NoCapitals(s) && i <= j <= |s|
    ensures NoCapitals(s[i..j])
  {
    assert forall c <- s[i..j] :: c in s;
  }

  // ---- Labels and local parts --------------------------------------------------------------------------

  const DIGITS := "0123456789"

  predicate LabelWriting(c: char) { c in CAPITALS + LETTERS + DIGITS + "-" }

  predicate LocalWriting(c: char) { c in CAPITALS + LETTERS + DIGITS + ".-_" }

  /** Letters and digits in either case come out as small ones, up to 63 of them; a longer label is
      refused. Dashes stay inside. */
  lemma LabelIsKept(s: string)
    requires s != "" && s[0] != '-' && s[|s| - 1] != '-'
    requires forall c <- s :: LabelWriting(c)
    ensures SanitizedLabel(s) == if |s| <= 63 then Lower(s) else ""
  {
    hide *;
    LabelWritingIsPlain(s);
    NothingToSanitize(s, Lower(s));
  }

  lemma LabelWritingIsPlain(s: string)
    requires s != "" && s[0] != '-' && s[|s| - 1] != '-'
    requires forall c <- s :: LabelWriting(c)
    ensures var l := Lower(s);
            && l != "" && Trimmed(s, IsSpace) && l[0] != '-' && l[|l| - 1] != '-'
            && '.' !in l && forall c <- l :: LabelChar(c)
  {
    hide IsSpace;
    hide LabelChar;
    hide LabelWriting;
    hide Lower;
    hide LowerChar;
    var l := Lower(s);
    forall i | 0 <= i < |s| ensures LabelChar(l[i]) && (l[i] == '-' <==> s[i] == '-') && !IsSpace(s[i]) {
      assert s[i] in s;
      WrittenCharIsLabelChar(s[i]);
    }
    LabelCharsAreNoDots(l);
  }

  lemma NothingToSanitize(s: string, l: string)
    requires l == Lower(s) && l != "" && Trimmed(s, IsSpace) && l[0] != '-' && l[|l| - 1] != '-'
    requires '.' !in l && forall c <- l :: LabelChar(c)
    ensures SanitizedLabel(s) == if |s| <= 63 then l else ""
  {
    EdgesArePlain(l);
    NothingToTrim(s, l);
    KeepsLabel(l);
    hide Trim;
    hide Lower;
    hide TrimSpace;
    hide IsSpace;
    hide LabelChar;
    hide Keep;
    hide Trimmed;
  }

  lemma EdgesArePlain(l: string)
    requires l != "" && l[0] != '-' && l[|l| - 1] != '-' && '.' !in l
    ensures Trimmed(l, IsDash) && Trimmed(l, LabelEdge)
  {
    assert l[0] in l && l[|l| - 1] in l;
  }

  lemma NothingToTrim(s: string, l: string)
    requires Trimmed(s, IsSpace) && Trimmed(l, IsDash) && Trimmed(l, LabelEdge)
    ensures TrimSpace(s) == s && Trim(l, LabelEdge) == l && Trim(l, IsDash) == l
  {
    TrimIsIdle(s, IsSpace);
    TrimIsIdle(l, LabelEdge);
    TrimIsIdle(l, IsDash);
    hide Trim;
    hide Trimmed;
  }

  lemma KeepsLabel(l: string)
    requires forall c <- l :: LabelChar(c)
    ensures Keep(l, LabelChar) == l
  {}

  lemma LabelCharsAreNoDots(l: string)
    requires forall i :: 0 <= i < |l| ==> LabelChar(l[i])
    ensures '.' !in l && forall c <- l :: LabelChar(c)
  {}

  lemma WrittenCharIsLabelChar(c: char)
    requires LabelWriting(c)
    ensures LabelChar(LowerChar(c)) && (LowerChar(c) == '-' <==> c == '-') && !IsSpace(c)
  {
    CapitalAt(c);
    assert c in CAPITALS || c in LETTERS || c in DIGITS || c == '-';
  }

  /** Whatever was asked for, a label has at most 63 letters, digits and inner dashes. */
  lemma LabelIsPlain(value: string)
    ensures var leaf := SanitizedLabel(value);
            && |leaf| <= 63 && (forall c <- leaf :: 'a' <= c <= 'z' || '0' <= c <= '9' || c == '-')
            && (leaf != "" ==> leaf[0] != '-' && leaf[|leaf| - 1] != '-')
  {
    LabelIsValid(value);
    hide SanitizedLabel;
  }

  /** A name with a dot inside is no label. */
  lemma DottedIsRefused(a: string, b: string)
    requires ValidLabel(Lower(a)) && ValidLabel(Lower(b))
    ensures SanitizedLabel(a + "." + b) == ""
  {
    hide Trim;
    hide Lower;
    var s := a + "." + b;
    LowerOfSum(a + ".", b);
    LowerOfSum(a, ".");
    LowerOfClean(".");
    LabelHasPlainEnds(a);
    LabelHasPlainEnds(b);
    hide IsSpace;
    assert s[0] == a[0] && s[|s| - 1] == b[|b| - 1];
    TrimIsIdle(s, IsSpace);
    var l := Lower(a) + "." + Lower(b);
    assert l[0] == Lower(a)[0] && l[|l| - 1] == Lower(b)[|b| - 1] && l[|a|] == '.';
    TrimIsIdle(l, LabelEdge);
  }

  lemma LabelHasPlainEnds(a: string)
    requires ValidLabel(Lower(a))
    ensures a != "" && !IsSpace(a[0]) && !IsSpace(a[|a| - 1])
    ensures !LabelEdge(Lower(a)[0]) && !LabelEdge(Lower(a)[|a| - 1])
  {
    hide IsSpace;
    hide LowerChar;
    hide Lower;
    var l := Lower(a);
    assert l[0] in l && l[|a| - 1] in l;
    LowerCharKeeps(a[0]);
    LowerCharKeeps(a[|a| - 1]);
    LabelCharIsSeen(l[0]);
    LabelCharIsSeen(l[|a| - 1]);
  }

  lemma LabelCharIsSeen(c: char)
    requires LabelChar(c)
    ensures !IsSpace(c)
  {}

  /** Dots and dashes at the ends of a label come off. */
  lemma LabelEndsComeOff(left: string, s: string, right: string)
    requires ValidLabel(Lower(s)) && (forall c <- left :: c in ".-") && forall c <- right :: c in ".-"
    ensures SanitizedLabel(left + s + right) == Lower(s)
  {
    hide Trim;
    hide Lower;
    hide LabelChar;
    var l := Lower(s);
    LabelHasPlainEnds(s);
    EdgesAreUnseenBySpace(left, s, right);
    LowerOfEdges(left, s, right);
    assert forall c <- l :: LabelChar(c);
    NoDotInLabel(l);
    hide LowerChar;
    hide IsSpace;
    EdgesArePlain(l);
    TrimIsIdle(left + s + right, IsSpace);
    assert (forall c <- left :: LabelEdge(c)) && forall c <- right :: LabelEdge(c);
    TrimFinds(left, l, right, LabelEdge);
    TrimIsIdle(l, IsDash);
    KeepsLabel(l);
    hide Keep;
  }

  lemma NoDotInLabel(l: string)
    requires forall c <- l :: LabelChar(c)
    ensures '.' !in l
  {}

  lemma LowerOfEdges(left: string, s: string, right: string)
    requires (forall c <- left :: c in ".-_") && forall c <- right :: c in ".-_"
    ensures Lower(left + s + right) == left + Lower(s) + right
  {
    LowerOfSum(left + s, right);
    LowerOfSum(left, s);
    LowerOfClean(left);
    LowerOfClean(right);
    hide Lower;
  }

  lemma EdgesAreUnseenBySpace(left: string, s: string, right: string)
    requires s != "" && !IsSpace(s[0]) && !IsSpace(s[|s| - 1])
    requires (forall c <- left :: c in ".-_") && forall c <- right :: c in ".-_"
    ensures Trimmed(left + s + right, IsSpace)
  {
    var t := left + s + right;
    SpacesAreUnseen('.');
    SpacesAreUnseen('-');
    SpacesAreUnseen('_');
    hide IsSpace;
    if left != "" { assert t[0] == left[0] && left[0] in left; } else { assert t[0] == s[0]; }
    if right != "" { assert t[|t| - 1] == right[|right| - 1] && right[|right| - 1] in right; }
    else { assert t[|t| - 1] == s[|s| - 1]; }
  }

  /** Any other character inside a label is left out, and the rest closes up. */
  lemma JunkIsLeftOut(a: string, c: char, b: string)
    requires ValidLabel(a) && ValidLabel(b) && !LabelChar(LowerChar(c)) && c != '.'
    ensures SanitizedLabel(a + [c] + b) == if |a + b| <= 63 then a + b else ""
  {
    hide Trim;
    hide Lower;
    var s, l := a + [c] + b, a + [LowerChar(c)] + b;
    assert (forall x <- a :: LowerChar(x) == x) && forall x <- b :: LowerChar(x) == x;
    LowerOfClean(a);
    LowerOfClean(b);
    LowerOfSum(a + [c], b);
    LowerOfSum(a, [c]);
    assert Lower([c]) == [LowerChar(c)];
    LabelHasPlainEnds(a);
    LabelHasPlainEnds(b);
    assert s[0] == a[0] && s[|s| - 1] == b[|b| - 1] && l[0] == a[0] && l[|l| - 1] == b[|b| - 1];
    NoDotsInside(a, c, b);
    hide IsSpace;
    TrimIsIdle(s, IsSpace);
    TrimIsIdle(l, LabelEdge);
    TrimIsIdle(l, IsDash);
    KeepClosesUp(a, LowerChar(c), b, LabelChar);
    assert (a + b)[0] == a[0] && (a + b)[|a + b| - 1] == b[|b| - 1];
    TrimIsIdle(a + b, IsDash);
    hide LowerChar;
  }

  lemma NoDotsInside(a: string, c: char, b: string)
    requires ValidLabel(a) && ValidLabel(b) && c != '.'
    ensures '.' !in a + [LowerChar(c)] + b
  {
    LowerCharKeeps(c);
  }

  lemma {:induction false} KeepOfSum(a: string, b: string, f: char -> bool)
    ensures Keep(a + b, f) == Keep(a, f) + Keep(b, f)
    decreases |b|
  {
    if b == "" {
      assert a + b == a;
    } else {
      assert (a + b)[..|a + b| - 1] == a + b[..|b| - 1];
      KeepOfSum(a, b[..|b| - 1], f);
    }
  }

  lemma KeepClosesUp(a: string, c: char, b: string, f: char -> bool)
    requires (forall x <- a :: f(x)) && (forall x <- b :: f(x)) && !f(c)
    ensures Keep(a + [c] + b, f) == a + b
  {
    KeepOfSum(a + [c], b, f);
    KeepOfSum(a, [c], f);
    assert Keep([c], f) == "";
  }

  /** A local part is written small, with letters, digits and inner dots, dashes and underscores. */
  lemma LocalIsKept(s: string)
    requires s != "" && s[0] !in ".-_" && s[|s| - 1] !in ".-_"
    requires forall c <- s :: LocalWriting(c)
    ensures SanitizedLocal(s) == Lower(s)
  {
    hide Trim;
    hide IsSpace;
    hide LocalChar;
    hide LowerChar;
    hide LocalWriting;
    hide Lower;
    hide Keep;
    var l := Lower(s);
    LocalWritingIsPlain(s);
    TrimIsIdle(s, IsSpace);
    TrimIsIdle(l, LocalEdge);
    hide Trimmed;
    assert Keep(l, LocalChar) == l;
  }

  lemma LocalWritingIsPlain(s: string)
    requires s != "" && !LocalEdge(s[0]) && !LocalEdge(s[|s| - 1])
    requires forall c <- s :: LocalWriting(c)
    ensures Trimmed(s, IsSpace) && Trimmed(Lower(s), LocalEdge) && forall c <- Lower(s) :: LocalChar(c)
  {
    hide LocalChar;
    hide LocalEdge;
    hide LowerChar;
    hide Lower;
    hide IsSpace;
    hide LocalWriting;
    LocalCharsOf(s);
  }

  lemma LocalCharsOf(s: string)
    requires forall c <- s :: LocalWriting(c)
    ensures var l := Lower(s);
            && (forall i :: 0 <= i < |s| ==> LocalEdge(l[i]) == LocalEdge(s[i]) && !IsSpace(s[i]))
            && (forall c <- l :: LocalChar(c))
  {
    hide LocalChar;
    hide LocalEdge;
    hide IsSpace;
    hide LocalWriting;
    hide Lower;
    hide LowerChar;
    forall i | 0 <= i < |s|
      ensures LocalChar(LowerChar(s[i])) && LocalEdge(LowerChar(s[i])) == LocalEdge(s[i]) && !IsSpace(s[i])
    {
      WrittenCharIsLocalChar(s[i]);
    }
  }

  lemma WrittenCharIsLocalChar(c: char)
    requires LocalWriting(c)
    ensures LocalChar(LowerChar(c)) && LocalEdge(LowerChar(c)) == LocalEdge(c) && !IsSpace(c)
  {
    CapitalAt(c);
    assert c in CAPITALS || c in LETTERS || c in DIGITS || c in ".-_";
  }

  /** Whatever was asked for, a local part has these characters only, and none of the three at its ends. */
  lemma LocalIsPlain(value: string)
    ensures var local := SanitizedLocal(value);
            && (forall c <- local :: 'a' <= c <= 'z' || '0' <= c <= '9' || c in ".-_")
            && (local != "" ==> local[0] !in ".-_" && local[|local| - 1] !in ".-_")
  {
    LocalIsValid(value);
    hide SanitizedLocal;
  }

  /** The three characters come off its ends. */
  lemma LocalEndsComeOff(left: string, s: string, right: string)
    requires s != "" && s[0] !in ".-_" && s[|s| - 1] !in ".-_" && forall c <- s :: LocalWriting(c)
    requires (forall c <- left :: c in ".-_") && forall c <- right :: c in ".-_"
    ensures SanitizedLocal(left + s + right) == Lower(s)
  {
    hide Trim;
    hide Lower;
    hide LowerChar;
    hide IsSpace;
    hide LocalWriting;
    hide LocalChar;
    LocalWritingIsPlain(s);
    EdgesAreUnseenBySpace(left, s, right);
    LowerOfEdges(left, s, right);
    TrimIsIdle(left + s + right, IsSpace);
    EdgesAreKept(left, Lower(s), right);
    TrimFinds(left, Lower(s), right, LocalEdge);
    hide Keep;
  }

  lemma EdgesAreKept(left: string, l: string, right: string)
    requires forall c <- l :: LocalChar(c)
    requires (forall c <- left :: c in ".-_") && forall c <- right :: c in ".-_"
    ensures Keep(left + l + right, LocalChar) == left + l + right
  {
    assert forall c <- left :: LocalChar(c);
    assert forall c <- right :: LocalChar(c);
    assert forall c <- left + l + right :: c in left || c in l || c in right;
  }

  // ---- Hosts that creation does not look at ------------------------------------------------------------

  /** Without a parent, for the parent's own host, and for a host that is not below its parent, creation
      asks nothing of the table. */
  lemma OutsideIsAvailable(db: Registry, host: string, parent: Option<Domain>)
    requires parent.Some? ==>
               var h, p := NormalizeDomain(host), NormalizeDomain(parent.value.name);
               h == "" || p == "" || Lower(h) == Lower(parent.value.name) || !HasSuffix(NormalizeDomain(h), "." + p)
    ensures Available(db, host, parent)
  {
    hide NormalizeDomain;
    hide Between;
  }

  /** A domain's own rows do not stand in its way. */
  lemma OwnRowsDoNotBlock(db: Registry, host: string, parent: Domain)
    requires forall name <- db :: db[name].id == parent.id
    ensures Available(db, host, Some(parent))
  {
    hide NormalizeDomain;
    hide Boundary;
  }
}
