/** The walk over a message that stops at the first exceeded limit. */
module MimeWalk {
  import opened Common
  import opened MimeTree

  datatype Error = TooDeep | TooManyParts | TooManyAttachments | AttachmentTooLarge | BodyTooLarge
                 | Undecodable | Malformed

  /** How far the walk has come: what it counted and what it collected. */
  datatype Progress = Progress(parts: nat, attachments: nat, text: string, html: string, files: seq<Attachment>)

  const START := Progress(0, 0, "", "", [])

  datatype Step = Step(progress: Progress, error: Option<Error>)

  function WalkLeaf(o: Options, e: LeafEntity, s: Progress, sha: Digest): Step {
    if IsFile(e.header) then
      var counted := s.(attachments := s.attachments + 1);
      if counted.attachments > o.maxAttachments then Step(counted, Some(TooManyAttachments))
      else if !WithinBytes(|e.content|, o.maxAttachmentBytes) then Step(counted, Some(AttachmentTooLarge))
      else Step(counted.(files := s.files + [AttachmentOf(e.header, e.content, |s.files| + 1, sha)]), None)
    else if !WithinBytes(|e.content|, o.maxBodyBytes) then Step(s, Some(BodyTooLarge))
    else if e.text.None? then Step(s, Some(Undecodable))
    else if MediaType(e.header) == "text/plain" then Step(s.(text := s.text + e.text.value), None)
    else Step(s.(html := s.html + e.text.value), None)
  }

  function Walk(o: Options, e: Entity, s: Progress, depth: nat, sha: Digest): Step
    decreases e, 1, 0
  {
    if depth > MAX_DEPTH then Step(s, Some(TooDeep))
    else if e.Leaf? then WalkLeaf(o, e, s, sha)
    else if e.boundary == "" then Step(s, None)
    else WalkFrom(o, e, 0, s, depth, sha)
  }

  function WalkFrom(o: Options, e: Entity, i: nat, s: Progress, depth: nat, sha: Digest): Step
    requires e.Multipart? && i <= |e.parts|
    decreases e, 0, |e.parts| - i
  {
    if i == |e.parts| then Step(s, if e.complete then None else Some(Malformed))
    else
      var counted := s.(parts := s.parts + 1);
      if counted.parts > o.maxParts then Step(counted, Some(TooManyParts))
      else
        var child := Walk(o, e.parts[i], counted, depth + 1, sha);
        if child.error.Some? then child else WalkFrom(o, e, i + 1, child.progress, depth, sha)
  }

  class ParseState {
    const options: Options
    var partCount: nat
    var attachmentCount: nat

    constructor (given: Options)
      ensures options == WithDefaults(given) && partCount == 0 && attachmentCount == 0
    {
      options := WithDefaults(given);
      partCount := 0;
      attachmentCount := 0;
    }

    method CountPart() returns (error: Option<Error>)
      modifies this
      ensures partCount == old(partCount) + 1 && attachmentCount == old(attachmentCount)
      ensures error == if partCount > options.maxParts then Some(TooManyParts) else None
    {
      partCount := partCount + 1;
      error := if partCount > options.maxParts then Some(TooManyParts) else None;
    }

    method CountAttachment() returns (error: Option<Error>)
      modifies this
      ensures attachmentCount == old(attachmentCount) + 1 && partCount == old(partCount)
      ensures error == if attachmentCount > options.maxAttachments then Some(TooManyAttachments) else None
    {
      attachmentCount := attachmentCount + 1;
      error := if attachmentCount > options.maxAttachments then Some(TooManyAttachments) else None;
    }
  }

  class ParsedMessage {
    var text: string
    var html: string
    var files: seq<Attachment>

    constructor ()
      ensures text == "" && html == "" && files == []
    {
      text, html, files := "", "", [];
    }
  }

  function Now(parsed: ParsedMessage, state: ParseState): Progress
    reads parsed, state
  {
    Progress(state.partCount, state.attachmentCount, parsed.text, parsed.html, parsed.files)
  }

  /** Reads at most one byte past the limit. */
  function ReadLimited(content: seq<byte>, limit: int): Option<seq<byte>> {
    if limit <= 0 then Some(content)
    else
      var data := if |content| > limit + 1 then content[..limit + 1] else content;
      if |data| > limit then None else Some(data)
  }

  method ParseLeaf(e: LeafEntity, parsed: ParsedMessage, state: ParseState, sha: Digest) returns (error: Option<Error>)
    modifies parsed, state
    ensures Step(Now(parsed, state), error) == WalkLeaf(state.options, e, old(Now(parsed, state)), sha)
  {
    var h := e.header;
    if IsFile(h) {
      error := state.CountAttachment();
      if error.Some? {
        return;
      }
      var data := ReadLimited(e.content, state.options.maxAttachmentBytes);
      if data.None? {
        return Some(AttachmentTooLarge);
      }
      parsed.files := parsed.files + [AttachmentOf(h, data.value, |parsed.files| + 1, sha)];
      return None;
    }
    var data := ReadLimited(e.content, state.options.maxBodyBytes);
    if data.None? {
      return Some(BodyTooLarge);
    }
    if e.text.None? {
      return Some(Undecodable);
    }
    if MediaType(h) == "text/plain" {
      parsed.text := parsed.text + e.text.value;
    } else {
      parsed.html := parsed.html + e.text.value;
    }
    return None;
  }

  method ParseEntity(e: Entity, parsed: ParsedMessage, state: ParseState, depth: nat, sha: Digest)
    returns (error: Option<Error>)
    modifies parsed, state
    ensures Step(Now(parsed, state), error) == Walk(state.options, e, old(Now(parsed, state)), depth, sha)
    decreases e
  {
    if depth > MAX_DEPTH {
      return Some(TooDeep);
    }
    if e.Leaf? {
      error := ParseLeaf(e, parsed, state, sha);
      return;
    }
    if e.boundary == "" {
      return None;
    }
    var i := 0;
    while i < |e.parts|
      invariant 0 <= i <= |e.parts|
      invariant Walk(state.options, e, old(Now(parsed, state)), depth, sha)
             == WalkFrom(state.options, e, i, Now(parsed, state), depth, sha)
    {
      error := state.CountPart();
      if error.Some? {
        return;
      }
      error := ParseEntity(e.parts[i], parsed, state, depth + 1, sha);
      if error.Some? {
        return;
      }
      i := i + 1;
    }
    error := if e.complete then None else Some(Malformed);
  }

  method ParseWithOptions(e: Entity, options: Options, sha: Digest)
    returns (parsed: ParsedMessage, error: Option<Error>)
    ensures fresh(parsed)
    ensures var leaves := Leaves(e);
            && (error.None? <==> Acceptable(WithDefaults(options), e))
            && (error.None? ==>
                  && parsed.text == TextOf(leaves, "text/plain") && parsed.html == TextOf(leaves, "text/html")
                  && parsed.files == FilesOf(leaves, 1, sha))
            && parsed.text <= TextOf(leaves, "text/plain") && parsed.html <= TextOf(leaves, "text/html")
            && parsed.files <= FilesOf(leaves, 1, sha)
            && (error.Some? ==>
                  Violated(WithDefaults(options), error.value, Height(e), Plus(START, PartCount(e), leaves, sha),
                           leaves, Complete(e)))
  {
    hide Walk;
    hide Leaves;
    hide Height;
    hide PartCount;
    hide Complete;
    hide TextOf;
    hide FilesOf;
    hide Acceptable;
    hide Violated;
    hide Plus;
    parsed := new ParsedMessage();
    var state := new ParseState(options);
    WalkOfMessage(state.options, e, sha);
    error := ParseEntity(e, parsed, state, 0, sha);
  }

  // ---- What the walk means -----------------------------------------------------------------

  /** The whole message is within all limits. */
  predicate Acceptable(o: Options, e: Entity) { Fits(o, e, START, 0) }

  /** What is left of the limits, after `s` and at this depth, is enough for `e`. */
  predicate Fits(o: Options, e: Entity, s: Progress, depth: nat) {
    && depth + Height(e) <= MAX_DEPTH
    && s.parts + PartCount(e) <= o.maxParts
    && s.attachments + FileCount(Leaves(e)) <= o.maxAttachments
    && AllFit(o, Leaves(e)) && Complete(e)
  }

  predicate FitsFrom(o: Options, e: Entity, i: nat, s: Progress, depth: nat)
    requires e.Multipart? && i <= |e.parts|
  {
    && depth + HeightFrom(e, i) <= MAX_DEPTH
    && s.parts + PartCountFrom(e, i) <= o.maxParts
    && s.attachments + FileCount(LeavesFrom(e, i)) <= o.maxAttachments
    && AllFit(o, LeavesFrom(e, i)) && CompleteFrom(e, i)
  }

  function Plus(s: Progress, parts: nat, leaves: seq<LeafEntity>, sha: Digest): Progress {
    Progress(s.parts + parts, s.attachments + FileCount(leaves),
             s.text + TextOf(leaves, "text/plain"), s.html + TextOf(leaves, "text/html"),
             s.files + FilesOf(leaves, |s.files| + 1, sha))
  }

  /** The walk ends without an error exactly when the entity fits, and then it has collected the
      flattening of the entity. */
  lemma {:induction false} WalkFlattens(o: Options, e: Entity, s: Progress, depth: nat, sha: Digest)
    requires s.parts <= o.maxParts && s.attachments <= o.maxAttachments
    ensures Walk(o, e, s, depth, sha).error.None? <==> Fits(o, e, s, depth)
    ensures Fits(o, e, s, depth) ==> Walk(o, e, s, depth, sha).progress == Plus(s, PartCount(e), Leaves(e), sha)
    decreases e, 1, 0
  {
    if e.Leaf? {
      LeafFlattens(o, e, s, sha);
    } else if e.boundary != "" && depth <= MAX_DEPTH {
      WalkFromFlattens(o, e, 0, s, depth, sha);
    }
  }

  lemma {:induction false} LeafFlattens(o: Options, e: LeafEntity, s: Progress, sha: Digest)
    requires s.attachments <= o.maxAttachments
    ensures var r := WalkLeaf(o, e, s, sha);
            && (r.error.None? <==> s.attachments + FileCount([e]) <= o.maxAttachments && AllFit(o, [e]))
            && (r.error.None? ==> r.progress == Plus(s, 0, [e], sha))
  {
    hide TextOf;
    hide FilesOf;
    hide FileCount;
    hide AttachmentOf;
    hide MediaType;
    hide WithinBytes;
    SingleLeaf(e, "text/plain", |s.files| + 1, sha);
    SingleLeaf(e, "text/html", |s.files| + 1, sha);
    assert e in [e];
    assert !IsFile(e.header) ==> MediaType(e.header) in {"text/plain", "text/html"};
    hide IsFile;
  }

  lemma {:induction false} WalkFromFlattens(o: Options, e: Entity, i: nat, s: Progress, depth: nat, sha: Digest)
    requires e.Multipart? && i <= |e.parts| && depth <= MAX_DEPTH
    requires s.parts <= o.maxParts && s.attachments <= o.maxAttachments
    ensures WalkFrom(o, e, i, s, depth, sha).error.None? <==> FitsFrom(o, e, i, s, depth)
    ensures FitsFrom(o, e, i, s, depth) ==>
              WalkFrom(o, e, i, s, depth, sha).progress == Plus(s, PartCountFrom(e, i), LeavesFrom(e, i), sha)
    decreases e, 0, |e.parts| - i
  {
    hide Walk;
    hide Fits;
    hide FitsFrom;
    hide Plus;
    if i == |e.parts| {
      NothingLeft(o, e, s, depth, sha);
    } else {
      var counted := s.(parts := s.parts + 1);
      var part := e.parts[i];
      FitsSplits(o, e, i, s, depth, sha);
      if counted.parts > o.maxParts {
        OverIsUnfit(o, part, counted, depth + 1);
      } else {
        WalkFlattens(o, part, counted, depth + 1, sha);
        if Fits(o, part, counted, depth + 1) {
          FitsIsWithin(o, part, counted, depth + 1, sha);
          WalkFromFlattens(o, e, i + 1, Walk(o, part, counted, depth + 1, sha).progress, depth, sha);
        }
      }
    }
  }

  lemma NothingLeft(o: Options, e: Entity, s: Progress, depth: nat, sha: Digest)
    requires e.Multipart? && depth <= MAX_DEPTH && s.parts <= o.maxParts && s.attachments <= o.maxAttachments
    ensures FitsFrom(o, e, |e.parts|, s, depth) <==> e.complete
    ensures Plus(s, PartCountFrom(e, |e.parts|), LeavesFrom(e, |e.parts|), sha) == s
  {}

  lemma OverIsUnfit(o: Options, e: Entity, s: Progress, depth: nat)
    requires s.parts > o.maxParts
    ensures !Fits(o, e, s, depth)
  {}

  /** A part fits and then the rest fits, or they do not fit together. */
  lemma FitsSplits(o: Options, e: Entity, i: nat, s: Progress, depth: nat, sha: Digest)
    requires e.Multipart? && i < |e.parts|
    ensures var counted := s.(parts := s.parts + 1);
            var after := Plus(counted, PartCount(e.parts[i]), Leaves(e.parts[i]), sha);
            && (FitsFrom(o, e, i, s, depth) <==>
                Fits(o, e.parts[i], counted, depth + 1) && FitsFrom(o, e, i + 1, after, depth))
            && Plus(s, PartCountFrom(e, i), LeavesFrom(e, i), sha) ==
               Plus(after, PartCountFrom(e, i + 1), LeavesFrom(e, i + 1), sha)
  {
    LimitsSplit(o, e, i, s, depth, sha);
    PlusSplits(e, i, s, sha);
    hide Fits;
    hide FitsFrom;
    hide Plus;
  }

  lemma LimitsSplit(o: Options, e: Entity, i: nat, s: Progress, depth: nat, sha: Digest)
    requires e.Multipart? && i < |e.parts|
    ensures var counted := s.(parts := s.parts + 1);
            var after := Plus(counted, PartCount(e.parts[i]), Leaves(e.parts[i]), sha);
            FitsFrom(o, e, i, s, depth) <==>
            Fits(o, e.parts[i], counted, depth + 1) && FitsFrom(o, e, i + 1, after, depth)
  {
    hide Height;
    hide PartCount;
    hide Complete;
    hide Leaves;
    hide TextOf;
    hide FilesOf;
    hide FileCount;
    var a, b := Leaves(e.parts[i]), LeavesFrom(e, i + 1);
    assert LeavesFrom(e, i) == a + b;
    FileCountOfConcat(a, b);
    AllFitSplits(o, a, b);
    hide AllFit;
  }

  lemma PlusSplits(e: Entity, i: nat, s: Progress, sha: Digest)
    requires e.Multipart? && i < |e.parts|
    ensures var after := Plus(s.(parts := s.parts + 1), PartCount(e.parts[i]), Leaves(e.parts[i]), sha);
            Plus(s, PartCountFrom(e, i), LeavesFrom(e, i), sha) ==
            Plus(after, PartCountFrom(e, i + 1), LeavesFrom(e, i + 1), sha)
  {
    hide PartCount;
    hide Leaves;
    hide TextOf;
    hide FilesOf;
    hide FileCount;
    var a, b := Leaves(e.parts[i]), LeavesFrom(e, i + 1);
    assert LeavesFrom(e, i) == a + b;
    FileCountOfConcat(a, b);
    FilesOfConcat(a, b, |s.files| + 1, sha);
    FilesAreNumbered(a, |s.files| + 1, sha);
    TextOfConcat(a, b, "text/plain");
    TextOfConcat(a, b, "text/html");
  }

  lemma AllFitSplits(o: Options, a: seq<LeafEntity>, b: seq<LeafEntity>)
    ensures AllFit(o, a + b) <==> AllFit(o, a) && AllFit(o, b)
  {
    hide LeafFits;
    assert forall e :: e in a + b <==> e in a || e in b;
  }

  // ---- Failed walks ---------------------------------------------------------------------------

  predicate Before(s: Progress, t: Progress) {
    && s.parts <= t.parts && s.attachments <= t.attachments
    && s.text <= t.text && s.html <= t.html && s.files <= t.files
  }

  /** The limit an error names is one that the message really exceeds. */
  predicate Violated(o: Options, x: Error, height: nat, full: Progress, leaves: seq<LeafEntity>, complete: bool) {
    match x
    case TooDeep => height > MAX_DEPTH
    case TooManyParts => full.parts > o.maxParts
    case TooManyAttachments => full.attachments > o.maxAttachments
    case AttachmentTooLarge => exists e <- leaves :: IsFile(e.header) && !WithinBytes(|e.content|, o.maxAttachmentBytes)
    case BodyTooLarge => exists e <- leaves :: !IsFile(e.header) && !WithinBytes(|e.content|, o.maxBodyBytes)
    case Undecodable => exists e <- leaves :: !IsFile(e.header) && e.text.None?
    case Malformed => !complete
  }

  /** A failed walk has collected a beginning of the flattening, and blames a limit that is exceeded. */
  lemma {:induction false} FailureIsHonest(o: Options, e: Entity, s: Progress, depth: nat, sha: Digest)
    requires s.parts <= o.maxParts && s.attachments <= o.maxAttachments
    ensures var r := Walk(o, e, s, depth, sha);
            var full := Plus(s, PartCount(e), Leaves(e), sha);
            && Before(r.progress, full)
            && (r.error.Some? ==> Violated(o, r.error.value, depth + Height(e), full, Leaves(e), Complete(e)))
    decreases e, 1, 0
  {
    if e.Leaf? {
      LeafFailureIsHonest(o, e, s, depth, sha);
    } else if e.boundary != "" && depth <= MAX_DEPTH {
      FailureFromIsHonest(o, e, 0, s, depth, sha);
    }
    hide FilesOf;
    hide TextOf;
    hide FileCount;
  }

  lemma LeafFailureIsHonest(o: Options, e: LeafEntity, s: Progress, depth: nat, sha: Digest)
    requires s.attachments <= o.maxAttachments
    ensures var r := WalkLeaf(o, e, s, sha);
            var full := Plus(s, 0, [e], sha);
            && Before(r.progress, full)
            && (r.error.Some? ==> Violated(o, r.error.value, depth, full, [e], true))
  {}

  lemma {:induction false} FailureFromIsHonest(o: Options, e: Entity, i: nat, s: Progress, depth: nat, sha: Digest)
    requires e.Multipart? && i <= |e.parts| && depth <= MAX_DEPTH
    requires s.parts <= o.maxParts && s.attachments <= o.maxAttachments
    ensures var r := WalkFrom(o, e, i, s, depth, sha);
            var full := Plus(s, PartCountFrom(e, i), LeavesFrom(e, i), sha);
            && Before(r.progress, full)
            && (r.error.Some? ==>
                  Violated(o, r.error.value, depth + HeightFrom(e, i), full, LeavesFrom(e, i), CompleteFrom(e, i)))
    decreases e, 0, |e.parts| - i
  {
    hide Walk;
    hide Height;
    hide PartCount;
    hide Complete;
    hide Leaves;
    hide TextOf;
    hide FilesOf;
    hide FileCount;
    hide IsFile;
    hide Fits;
    hide FitsFrom;
    if i < |e.parts| {
      var counted := s.(parts := s.parts + 1);
      var part := e.parts[i];
      FitsSplits(o, e, i, s, depth, sha);
      if counted.parts <= o.maxParts {
        FailureIsHonest(o, part, counted, depth + 1, sha);
        WalkFlattens(o, part, counted, depth + 1, sha);
        var child := Walk(o, part, counted, depth + 1, sha);
        if child.error.None? {
          FitsIsWithin(o, part, counted, depth + 1, sha);
          FailureFromIsHonest(o, e, i + 1, child.progress, depth, sha);
        }
      }
    }
  }

  lemma FitsIsWithin(o: Options, e: Entity, s: Progress, depth: nat, sha: Digest)
    requires Fits(o, e, s, depth)
    ensures var t := Plus(s, PartCount(e), Leaves(e), sha); t.parts <= o.maxParts && t.attachments <= o.maxAttachments
  {}

  lemma PlusFromStart(parts: nat, leaves: seq<LeafEntity>, sha: Digest)
    ensures var full := Plus(START, parts, leaves, sha);
            && full.text == TextOf(leaves, "text/plain") && full.html == TextOf(leaves, "text/html")
            && full.files == FilesOf(leaves, 1, sha)
  {
    hide TextOf;
    hide FilesOf;
    hide FileCount;
  }

  lemma WalkOfMessage(o: Options, e: Entity, sha: Digest)
    requires o.maxParts >= 0 && o.maxAttachments >= 0
    ensures var (r, leaves) := (Walk(o, e, START, 0, sha), Leaves(e));
            var full := Plus(START, PartCount(e), leaves, sha);
            && (r.error.None? <==> Acceptable(o, e))
            && (r.error.None? ==> r.progress == full)
            && Before(r.progress, full)
            && full.text == TextOf(leaves, "text/plain") && full.html == TextOf(leaves, "text/html")
            && full.files == FilesOf(leaves, 1, sha)
            && (r.error.Some? ==> Violated(o, r.error.value, Height(e), full, leaves, Complete(e)))
  {
    hide Walk;
    hide Leaves;
    hide Height;
    hide PartCount;
    hide Complete;
    hide TextOf;
    hide FilesOf;
    hide FileCount;
    WalkFlattens(o, e, START, 0, sha);
    FailureIsHonest(o, e, START, 0, sha);
    PlusFromStart(PartCount(e), Leaves(e), sha);
    hide Plus;
    hide Fits;
    hide Before;
    hide Violated;
  }
}
