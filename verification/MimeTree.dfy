/** A MIME message as a tree of parts with decoded leaves, and what it flattens to. */
module MimeTree {
  import opened Common
  import opened Text

  type byte = bv8

  /** The header values of a leaf: media type (`text/plain` if none parses), the content disposition,
      both names a file can have, and the rest as written. */
  datatype Header = Header(mediaType: string, disposition: string, filename: string, name: string,
                           contentID: string, transferEncoding: string)

  /** `text` is what the charset makes of the bytes, if it can. A multipart without a boundary has
      no readable parts; one that is not `complete` breaks off after them. */
  datatype Entity =
    | Leaf(header: Header, content: seq<byte>, text: Option<string>)
    | Multipart(boundary: string, parts: seq<Entity>, complete: bool)

  datatype Options = Options(maxAttachmentBytes: int, maxAttachments: int, maxParts: int, maxBodyBytes: int)

  const DEFAULT_MAX_ATTACHMENTS := 100
  const DEFAULT_MAX_PARTS := 200
  const DEFAULT_MAX_BODY_BYTES := 2 * 1024 * 1024
  const MAX_DEPTH := 32

  function WithDefaults(o: Options): Options {
    o.(maxAttachments := if o.maxAttachments <= 0 then DEFAULT_MAX_ATTACHMENTS else o.maxAttachments,
       maxParts := if o.maxParts <= 0 then DEFAULT_MAX_PARTS else o.maxParts,
       maxBodyBytes := if o.maxBodyBytes <= 0 then DEFAULT_MAX_BODY_BYTES else o.maxBodyBytes)
  }

  datatype Attachment = Attachment(sequence: nat, filename: string, contentType: string, disposition: string,
                                   contentID: string, transferEncoding: string, size: nat, digest: string,
                                   inlined: bool)

  /** The SHA-256 digest in hexadecimal. */
  type Digest = seq<byte> -> string

  function Truncate(s: string, n: nat): string { if |s| <= n then s else s[..n] }

  function Disposition(h: Header): string { Truncate(Lower(TrimSpace(h.disposition)), 40) }

  function Filename(h: Header): string {
    if h.filename != "" then Truncate(h.filename, 500) else Truncate(h.name, 500)
  }

  function MediaType(h: Header): string { Truncate(Lower(h.mediaType), 255) }

  function AngleTrimmed(s: string): string { Trim(TrimSpace(s), c => c == '<' || c == '>') }

  predicate IsFile(h: Header) {
    || Disposition(h) == "attachment" || Filename(h) != ""
    || (MediaType(h) != "text/plain" && MediaType(h) != "text/html")
  }

  function AttachmentOf(h: Header, content: seq<byte>, sequence: nat, sha: Digest): Attachment {
    Attachment(sequence, Filename(h), MediaType(h), Disposition(h), Truncate(AngleTrimmed(h.contentID), 255),
               Truncate(Lower(TrimSpace(h.transferEncoding)), 40), |content|, sha(content), Disposition(h) == "inline")
  }

  // ---- The flattening -------------------------------------------------------------------

  type LeafEntity = e: Entity | e.Leaf? witness Leaf(Header("", "", "", "", "", ""), [], None)

  predicate HasParts(e: Entity) { e.Multipart? && e.boundary != "" }

  /** All leaves, in document order. */
  function Leaves(e: Entity): seq<LeafEntity>
    decreases e, 1, 0
  {
    if e.Leaf? then [e] else if e.boundary == "" then [] else LeavesFrom(e, 0)
  }

  function LeavesFrom(e: Entity, i: nat): seq<LeafEntity>
    requires e.Multipart? && i <= |e.parts|
    decreases e, 0, |e.parts| - i
  {
    if i == |e.parts| then [] else Leaves(e.parts[i]) + LeavesFrom(e, i + 1)
  }

  /** The number of parts below an entity, at every level. */
  function PartCount(e: Entity): nat
    decreases e, 1, 0
  {
    if HasParts(e) then PartCountFrom(e, 0) else 0
  }

  function PartCountFrom(e: Entity, i: nat): nat
    requires e.Multipart? && i <= |e.parts|
    decreases e, 0, |e.parts| - i
  {
    if i == |e.parts| then 0 else 1 + PartCount(e.parts[i]) + PartCountFrom(e, i + 1)
  }

  /** How deep parts nest below an entity. */
  function Height(e: Entity): nat
    decreases e, 1, 0
  {
    if HasParts(e) then HeightFrom(e, 0) else 0
  }

  function HeightFrom(e: Entity, i: nat): nat
    requires e.Multipart? && i <= |e.parts|
    decreases e, 0, |e.parts| - i
  {
    if i == |e.parts| then 0 else
      var here, rest := 1 + Height(e.parts[i]), HeightFrom(e, i + 1);
      if here > rest then here else rest
  }

  /** Every multipart that is read ends as it should. */
  predicate Complete(e: Entity)
    decreases e, 1, 0
  {
    HasParts(e) ==> CompleteFrom(e, 0)
  }

  predicate CompleteFrom(e: Entity, i: nat)
    requires e.Multipart? && i <= |e.parts|
    decreases e, 0, |e.parts| - i
  {
    if i == |e.parts| then e.complete else Complete(e.parts[i]) && CompleteFrom(e, i + 1)
  }

  function TextOf(leaves: seq<LeafEntity>, mediaType: string): string {
    if leaves == [] then "" else
      var e := leaves[0];
      (if !IsFile(e.header) && MediaType(e.header) == mediaType && e.text.Some? then e.text.value else "")
      + TextOf(leaves[1..], mediaType)
  }

  /** The files among the leaves, numbered from `first`. */
  function FilesOf(leaves: seq<LeafEntity>, first: nat, sha: Digest): seq<Attachment> {
    if leaves == [] then [] else
      var e := leaves[0];
      if IsFile(e.header) then [AttachmentOf(e.header, e.content, first, sha)] + FilesOf(leaves[1..], first + 1, sha)
      else FilesOf(leaves[1..], first, sha)
  }

  function FileCount(leaves: seq<LeafEntity>): nat {
    if leaves == [] then 0 else (if IsFile(leaves[0].header) then 1 else 0) + FileCount(leaves[1..])
  }

  /** The size limit of a leaf; zero and below mean none. */
  predicate WithinBytes(size: nat, limit: int) { limit <= 0 || size <= limit }

  predicate LeafFits(o: Options, e: LeafEntity) {
    if IsFile(e.header) then WithinBytes(|e.content|, o.maxAttachmentBytes)
    else WithinBytes(|e.content|, o.maxBodyBytes) && e.text.Some?
  }

  predicate AllFit(o: Options, leaves: seq<LeafEntity>) {
    forall e <- leaves :: LeafFits(o, e)
  }

  lemma {:induction false} TextOfConcat(a: seq<LeafEntity>, b: seq<LeafEntity>, mediaType: string)
    ensures TextOf(a + b, mediaType) == TextOf(a, mediaType) + TextOf(b, mediaType)
  {
    if a == [] {
      assert a + b == b;
    } else {
      assert (a + b)[1..] == a[1..] + b;
      TextOfConcat(a[1..], b, mediaType);
    }
  }

  lemma {:induction false} FileCountOfConcat(a: seq<LeafEntity>, b: seq<LeafEntity>)
    ensures FileCount(a + b) == FileCount(a) + FileCount(b)
  {
    hide IsFile;
    if a == [] {
      assert a + b == b;
    } else {
      assert (a + b)[1..] == a[1..] + b;
      FileCountOfConcat(a[1..], b);
    }
  }

  lemma {:induction false} FilesOfConcat(a: seq<LeafEntity>, b: seq<LeafEntity>, first: nat, sha: Digest)
    ensures FilesOf(a + b, first, sha) == FilesOf(a, first, sha) + FilesOf(b, first + FileCount(a), sha)
  {
    hide IsFile;
    hide AttachmentOf;
    if a == [] {
      assert a + b == b;
    } else {
      assert (a + b)[1..] == a[1..] + b;
      FilesOfConcat(a[1..], b, first + if IsFile(a[0].header) then 1 else 0, sha);
    }
  }

  lemma SingleLeaf(e: LeafEntity, mediaType: string, first: nat, sha: Digest)
    ensures TextOf([e], mediaType) ==
            if !IsFile(e.header) && MediaType(e.header) == mediaType && e.text.Some? then e.text.value else ""
    ensures FilesOf([e], first, sha) == if IsFile(e.header) then [AttachmentOf(e.header, e.content, first, sha)] else []
    ensures FileCount([e]) == if IsFile(e.header) then 1 else 0
  {}

  /** Attachments carry the sequence numbers 1, 2, 3 and so on. */
  lemma {:induction false} FilesAreNumbered(leaves: seq<LeafEntity>, first: nat, sha: Digest)
    ensures |FilesOf(leaves, first, sha)| == FileCount(leaves)
    ensures forall i :: 0 <= i < FileCount(leaves) ==> FilesOf(leaves, first, sha)[i].sequence == first + i
  {
    hide IsFile;
    if leaves != [] {
      var next := first + if IsFile(leaves[0].header) then 1 else 0;
      FilesAreNumbered(leaves[1..], next, sha);
    }
  }
}
