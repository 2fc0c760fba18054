/** What a message comes to, told without the walk: its limits in numbers, its files field by field. */
module MimeLaws {
  import opened Common
  import opened Text
  import opened MimeTree
  import opened MimeWalk

  // ---- Files ---------------------------------------------------------------------------------------

  /** A leaf is a file unless it is a body: plain or HTML text without any name that is not attached. */
  lemma FileIff(h: Header)
    ensures IsFile(h) <==>
            || Lower(TrimSpace(h.disposition)) == "attachment" || h.filename != "" || h.name != ""
            || Lower(h.mediaType) !in {"text/plain", "text/html"}
  {
    ShortIsWhole(Lower(TrimSpace(h.disposition)), 40, "attachment");
    ShortIsWhole(Lower(h.mediaType), 255, "text/plain");
    ShortIsWhole(Lower(h.mediaType), 255, "text/html");
    hide Lower;
    hide TrimSpace;
  }

  lemma ShortIsWhole(s: string, n: nat, t: string)
    requires |t| < n
    ensures Truncate(s, n) == t <==> s == t
  {}

  /** As much of `whole` as fits into `n` characters. */
  predicate Shortened(s: string, whole: string, n: nat) {
    s <= whole && |s| == if |whole| <= n then |whole| else n
  }

  /** What the stored attachment says of its leaf. */
  predicate Describes(a: Attachment, e: LeafEntity, sequence: nat, sha: Digest) {
    var h := e.header;
    && a.sequence == sequence && a.size == |e.content| && a.digest == sha(e.content)
    && Shortened(a.filename, if h.filename != "" then h.filename else h.name, 500)
    && Shortened(a.contentType, Lower(h.mediaType), 255)
    && Shortened(a.disposition, Lower(TrimSpace(h.disposition)), 40)
    && Shortened(a.contentID, AngleTrimmed(h.contentID), 255)
    && Shortened(a.transferEncoding, Lower(TrimSpace(h.transferEncoding)), 40)
    && (a.inlined <==> Lower(TrimSpace(h.disposition)) == "inline")
  }

  lemma AttachmentDescribes(e: LeafEntity, sequence: nat, sha: Digest)
    ensures Describes(AttachmentOf(e.header, e.content, sequence, sha), e, sequence, sha)
  {
    ShortIsWhole(Lower(TrimSpace(e.header.disposition)), 40, "inline");
    hide Lower;
    hide TrimSpace;
    hide AngleTrimmed;
  }

  /** The leaves that are files, in document order. */
  function FileLeaves(leaves: seq<LeafEntity>): seq<LeafEntity> {
    if leaves == [] then [] else (if IsFile(leaves[0].header) then [leaves[0]] else []) + FileLeaves(leaves[1..])
  }

  /** Every file of the message becomes one attachment that describes it, in document order, and
      nothing else does. */
  lemma {:induction false} FilesDescribeLeaves(leaves: seq<LeafEntity>, first: nat, sha: Digest)
    ensures var files, sources := FilesOf(leaves, first, sha), FileLeaves(leaves);
            && |files| == |sources| == FileCount(leaves)
            && forall i :: 0 <= i < |files| ==> Describes(files[i], sources[i], first + i, sha)
  {
    hide IsFile;
    hide Describes;
    hide AttachmentOf;
    if leaves != [] {
      var e := leaves[0];
      FilesDescribeLeaves(leaves[1..], first + if IsFile(e.header) then 1 else 0, sha);
      if IsFile(e.header) { AttachmentDescribes(e, first, sha); }
    }
  }

  predicate AngleOrSpace(c: char) { c == '<' || c == '>' || IsSpace(c) }

  /** A content id loses its brackets. */
  lemma ContentIDIsBare(id: string)
    requires id != "" && Trimmed(id, AngleOrSpace)
    ensures AngleTrimmed("<" + id + ">") == id && AngleTrimmed(id) == id
  {
    var s := "<" + id + ">";
    assert s[0] == '<' && s[|s| - 1] == '>';
    TrimIsIdle(s, IsSpace);
    TrimIsIdle(id, IsSpace);
    var cut := (c: char) => c == '<' || c == '>';
    var i, j := TrimIsMiddle(s, cut);
    assert AngleTrimmed(s) == Trim(s, cut) && AngleTrimmed(id) == Trim(id, cut);
    TrimIsIdle(id, cut);
    assert s[1] == id[0] && s[|id|] == id[|id| - 1];
    assert s[1..|id| + 1] == id;
    hide Trim;
  }

  /** A body leaf adds its text to the body of its own kind, and a file to neither. */
  lemma BodyLeafIsItsText(e: LeafEntity)
    ensures TextOf([e], "text/plain") ==
            if !IsFile(e.header) && Lower(e.header.mediaType) == "text/plain" && e.text.Some? then e.text.value else ""
    ensures TextOf([e], "text/html") ==
            if !IsFile(e.header) && Lower(e.header.mediaType) == "text/html" && e.text.Some? then e.text.value else ""
  {
    ShortIsWhole(Lower(e.header.mediaType), 255, "text/plain");
    ShortIsWhole(Lower(e.header.mediaType), 255, "text/html");
    hide Lower;
    hide IsFile;
  }

  // ---- Limits --------------------------------------------------------------------------------------

  function Given(limit: int, otherwise: nat): nat { if limit <= 0 then otherwise else limit }

  /** The limits of a message in numbers: 32 levels, and, unless other numbers are given, two hundred parts, a
      hundred files and two mebibytes for each body; files have no size limit of their own. */
  lemma AcceptableIff(o: Options, e: Entity)
    ensures Acceptable(WithDefaults(o), e) <==>
            && Height(e) <= 32 && PartCount(e) <= Given(o.maxParts, 200) && Complete(e)
            && FileCount(Leaves(e)) <= Given(o.maxAttachments, 100)
            && forall leaf <- Leaves(e) ::
                 if IsFile(leaf.header) then o.maxAttachmentBytes > 0 ==> |leaf.content| <= o.maxAttachmentBytes
                 else |leaf.content| <= Given(o.maxBodyBytes, 2_097_152) && leaf.text.Some?
  {
    hide IsFile;
    hide Leaves;
    hide FileCount;
    hide Height;
    hide PartCount;
    hide Complete;
  }

  /** A leaf inside so many multiparts. */
  function Wrapped(e: LeafEntity, levels: nat): Entity {
    if levels == 0 then e else Multipart("b", [Wrapped(e, levels - 1)], true)
  }

  /** Every wrapping is one level and one part, and changes nothing that is read. */
  lemma {:induction false} WrappingIsCounted(e: LeafEntity, levels: nat)
    ensures var m := Wrapped(e, levels);
            Height(m) == PartCount(m) == levels && Leaves(m) == [e] && Complete(m)
  {
    if levels > 0 {
      var m := Wrapped(e, levels);
      WrappingIsCounted(e, levels - 1);
      assert LeavesFrom(m, 1) == [] && PartCountFrom(m, 1) == 0 && HeightFrom(m, 1) == 0 && CompleteFrom(m, 1);
    }
  }

  /** A flat message has its leaves for parts, on one level, and is read as it stands. */
  lemma FlatIsCounted(leaves: seq<LeafEntity>, boundary: string, complete: bool)
    requires boundary != ""
    ensures var m := Multipart(boundary, leaves, complete);
            && PartCount(m) == |leaves| && Leaves(m) == leaves && Height(m) == (if leaves == [] then 0 else 1)
            && (Complete(m) <==> complete)
  {
    FlatFrom(leaves, boundary, complete, 0);
  }

  lemma {:induction false} FlatFrom(leaves: seq<LeafEntity>, boundary: string, complete: bool, i: nat)
    requires boundary != "" && i <= |leaves|
    ensures var m := Multipart(boundary, leaves, complete);
            && PartCountFrom(m, i) == |leaves| - i && LeavesFrom(m, i) == leaves[i..]
            && HeightFrom(m, i) == (if i == |leaves| then 0 else 1) && (CompleteFrom(m, i) <==> complete)
    decreases |leaves| - i
  {
    if i < |leaves| { FlatFrom(leaves, boundary, complete, i + 1); }
  }
}
