/** The string operations that host names go through. */
module Text {
  function LowerChar(c: char): char {
    if 'A' <= c <= 'Z' then c - 'A' + 'a' else c
  }

  function Lower(s: string): (r: string)
    ensures |r| == |s| && forall i :: 0 <= i < |s| ==> r[i] == LowerChar(s[i])
  {
    if s == "" then "" else [LowerChar(s[0])] + Lower(s[1..])
  }

  predicate IsSpace(c: char) {
    c in " \t\n\r" || c in {'\U{000B}', '\U{000C}', '\U{0085}', '\U{00A0}'}
  }

  predicate IsDot(c: char) { c == '.' }

  function TrimLeft(s: string, cut: char -> bool): string {
    if s != "" && cut(s[0]) then TrimLeft(s[1..], cut) else s
  }

  function TrimRight(s: string, cut: char -> bool): string {
    if s != "" && cut(s[|s| - 1]) then TrimRight(s[..|s| - 1], cut) else s
  }

  function Trim(s: string, cut: char -> bool): string { TrimRight(TrimLeft(s, cut), cut) }

  function TrimSpace(s: string): string { Trim(s, IsSpace) }

  predicate HasPrefix(s: string, p: string) { p <= s }

  predicate HasSuffix(s: string, p: string) { |p| <= |s| && s[|s| - |p|..] == p }

  function TrimPrefix(s: string, p: string): string { if HasPrefix(s, p) then s[|p|..] else s }

  function Index(s: string, c: char): (i: int)
    ensures -1 <= i < |s|
    ensures i >= 0 ==> s[i] == c
    ensures forall k :: 0 <= k < (if i < 0 then |s| else i) ==> s[k] != c
  {
    if s == "" then -1
    else if s[0] == c then 0
    else var i := Index(s[1..], c); if i < 0 then -1 else i + 1
  }

  function LastIndex(s: string, c: char): (i: int)
    ensures -1 <= i < |s|
    ensures i >= 0 ==> s[i] == c
    ensures forall k :: i < k < |s| ==> s[k] != c
    decreases |s|
  {
    if s == "" then -1
    else if s[|s| - 1] == c then |s| - 1
    else LastIndex(s[..|s| - 1], c)
  }

  /** Nothing to trim at either end. */
  predicate Trimmed(s: string, cut: char -> bool) { s == "" || (!cut(s[0]) && !cut(s[|s| - 1])) }

  lemma {:induction false} TrimLeftIsSuffix(s: string, cut: char -> bool) returns (k: nat)
    ensures k <= |s| && TrimLeft(s, cut) == s[k..] && (k < |s| ==> !cut(s[k])) && forall i :: 0 <= i < k ==> cut(s[i])
  {
    if s != "" && cut(s[0]) {
      k := TrimLeftIsSuffix(s[1..], cut);
      k := k + 1;
    } else {
      k := 0;
    }
  }

  lemma {:induction false} TrimRightIsPrefix(s: string, cut: char -> bool) returns (k: nat)
    ensures k <= |s| && TrimRight(s, cut) == s[..k] && (k > 0 ==> !cut(s[k - 1]))
    ensures forall i :: k <= i < |s| ==> cut(s[i])
    decreases |s|
  {
    if s != "" && cut(s[|s| - 1]) {
      k := TrimRightIsPrefix(s[..|s| - 1], cut);
    } else {
      k := |s|;
    }
  }

  /** Trimming cuts off the two ends and nothing in between. */
  lemma TrimIsMiddle(s: string, cut: char -> bool) returns (i: nat, j: nat)
    ensures i <= j <= |s| && Trim(s, cut) == s[i..j] && Trimmed(s[i..j], cut)
    ensures (forall k :: 0 <= k < i ==> cut(s[k])) && (forall k :: j <= k < |s| ==> cut(s[k]))
  {
    i := TrimLeftIsSuffix(s, cut);
    var n := TrimRightIsPrefix(s[i..], cut);
    j := i + n;
    assert s[i..j] == s[i..][..n];
    forall k | j <= k < |s| ensures cut(s[k]) { assert s[k] == s[i..][k - i]; }
  }

  lemma TrimIsIdle(s: string, cut: char -> bool)
    ensures Trim(s, cut) == s <==> Trimmed(s, cut)
  {
    if Trim(s, cut) == s { var i, j := TrimIsMiddle(s, cut); }
  }

  // ---- Labels ------------------------------------------------------------------------

  function Split(s: string): (r: seq<string>)
    ensures |r| >= 1
    decreases |s|
  {
    var i := Index(s, '.');
    if i < 0 then [s] else [s[..i]] + Split(s[i + 1..])
  }

  function Join(labels: seq<string>): string {
    if labels == [] then "" else if |labels| == 1 then labels[0] else labels[0] + "." + Join(labels[1..])
  }

  /** The name without its first `k` labels. */
  function Suffix(s: string, k: nat): string
    requires k < |Split(s)|
  {
    Join(Split(s)[k..])
  }

  lemma SplitFirst(head: string, tail: string)
    requires '.' !in head
    ensures Split(head + "." + tail) == [head] + Split(tail)
  {
    var s := head + "." + tail;
    assert s[|head|] == '.' && s[..|head|] == head && s[|head| + 1..] == tail;
    assert forall k :: 0 <= k < |head| ==> s[k] == head[k];
    assert Index(s, '.') == |head|;
  }

  /** A name is one label, or a label, a dot, and a shorter name. */
  lemma Cases(s: string) returns (head: string, tail: string)
    ensures '.' !in head
    ensures if '.' in s then s == head + "." + tail && |tail| < |s| && Split(s) == [head] + Split(tail)
            && Index(s, '.') == |head|
            else head == s && Split(s) == [s]
  {
    var i := Index(s, '.');
    if i < 0 {
      head, tail := s, "";
    } else {
      head, tail := s[..i], s[i + 1..];
      assert s[i] in s;
    }
  }

  lemma JoinCons(head: string, rest: seq<string>)
    requires rest != []
    ensures Join([head] + rest) == head + "." + Join(rest)
  {}

  lemma {:induction false} JoinSplit(s: string)
    ensures Join(Split(s)) == s
    decreases |s|
  {
    var head, tail := Cases(s);
    hide Split;
    if '.' in s {
      JoinSplit(tail);
      JoinCons(head, Split(tail));
    }
  }

  /** Dropping one label is dropping everything up to the first dot. */
  lemma {:induction false} NextSuffix(s: string, k: nat)
    requires k + 1 < |Split(s)|
    ensures var t := Suffix(s, k); var i := Index(t, '.'); i >= 0 && Suffix(s, k + 1) == t[i + 1..]
    decreases k
  {
    var head, tail := Cases(s);
    hide Split;
    JoinSplit(s);
    JoinSplit(tail);
    assert Split(s)[0..] == Split(s) && Split(tail)[0..] == Split(tail);
    assert forall j :: 0 < j < |Split(s)| ==> Split(s)[j..] == Split(tail)[j - 1..];
    if k > 0 { NextSuffix(tail, k - 1); }
    hide Join;
  }

  /** The labels of a dotted pair are the labels of its parts. */
  lemma {:induction false} SplitDotted(a: string, b: string)
    ensures Split(a + "." + b) == Split(a) + Split(b)
    decreases |a|
  {
    var head, tail := Cases(a);
    hide Split;
    if '.' in a {
      SplitFirst(head, tail + "." + b);
      SplitDotted(tail, b);
      assert a + "." + b == head + "." + (tail + "." + b);
    } else {
      SplitFirst(a, b);
    }
  }

  lemma {:induction false} JoinAppend(a: seq<string>, b: seq<string>)
    requires a != [] && b != []
    ensures Join(a + b) == Join(a) + "." + Join(b)
  {
    if |a| == 1 {
      assert (a + b)[1..] == b;
    } else {
      assert (a + b)[1..] == a[1..] + b;
      JoinAppend(a[1..], b);
    }
  }

  /** The suffixes of `a.b` that are longer than `b` end in `.b`, and then comes `b`. */
  lemma SuffixDotted(a: string, b: string, k: nat)
    requires k <= |Split(a)|
    ensures |Split(a + "." + b)| == |Split(a)| + |Split(b)|
    ensures Suffix(a + "." + b, k) == if k < |Split(a)| then Suffix(a, k) + "." + b else b
  {
    SplitDotted(a, b);
    JoinSplit(b);
    if k < |Split(a)| {
      assert (Split(a) + Split(b))[k..] == Split(a)[k..] + Split(b);
      JoinAppend(Split(a)[k..], Split(b));
    } else {
      assert (Split(a) + Split(b))[k..] == Split(b);
    }
  }
}
