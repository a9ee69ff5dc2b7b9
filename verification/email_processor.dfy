/** Body and image extraction and the extraction statistics of
    email2md/email_processor.py. */
module EmailProcessing {
  import opened Wrappers
  import opened Strings
  import opened TextCleaning
  import opened Mime

  type Path = string

  /** The conversions the core calls but does not define: `bytes.decode`
      with a charset name (None where Python raises, for an unknown charset
      or undecodable bytes), and `strip_html_tags` of email2md/html_utils.py. */
  datatype Codecs = Codecs(decode: (Bytes, string) -> Option<string>, stripHtmlTags: string -> string)

  /** A parsed message: its Subject header (None when absent), its Date
      header parsed and converted to the configured zone (None when it is
      missing or cannot be parsed), and its part tree. */
  datatype Message = Message(subject: Option<string>, date: Option<int>, root: Part)

  /** What `process_email` returns: subject, date, body and images. */
  datatype Extracted = Extracted(subject: Option<string>, date: int, body: string, images: seq<Image>)

  /** The exceptions `process_email` lets escape: no usable Date header, or
      a text payload that its charset cannot decode. */
  datatype Error = MissingDate | UndecodableText

  /** The three lists of `EmailStats`. */
  datatype EmailStats = EmailStats(noTextFiles: seq<Path>, noImagesFiles: seq<Path>, noContentFiles: seq<Path>)
  {
    /** Every file without content is also listed without text and without
        images. */
    predicate Consistent() {
      && multiset(noContentFiles) <= multiset(noTextFiles)
      && multiset(noContentFiles) <= multiset(noImagesFiles)
    }
  }

  const TextPlain := "text/plain"
  const TextHtml := "text/html"
  const MultipartAlternative := "multipart/alternative"

  /** `get_text_from_part` decodes the payload: the part has no
      Content-Disposition, and both its payload and its charset are
      present and non-empty. */
  predicate ReadsPayload(p: Part) {
    !HasDisposition(p) && Filled(Payload(p)) && Filled(Charset(p))
  }

  /** `get_text_from_part`: the decoded text of an undisposed `text/plain`
      part, the tag-stripped text of an undisposed `text/html` part, and ""
      for anything else. The payload is decoded whenever it and the charset
      are present, so a part of another type can still fail to decode. */
  function GetTextFromPart(c: Codecs, p: Part): (r: Option<string>)
    ensures !ReadsPayload(p) ==> r == Some("")
    ensures r.None? <==> ReadsPayload(p) && c.decode(Payload(p).value, Charset(p).value).None?
    ensures ReadsPayload(p) && c.decode(Payload(p).value, Charset(p).value).Some? ==>
      var text := c.decode(Payload(p).value, Charset(p).value).value;
      && (p.contentType == TextPlain ==> r == Some(text))
      && (p.contentType == TextHtml ==> r == Some(c.stripHtmlTags(text)))
      && (p.contentType != TextPlain && p.contentType != TextHtml ==> r == Some(""))
  {
    if ReadsPayload(p) then
      match c.decode(Payload(p).value, Charset(p).value)
      case None => None
      case Some(text) =>
        if p.contentType == TextPlain then Some(text)
        else if p.contentType == TextHtml then Some(c.stripHtmlTags(text))
        else Some("")
    else Some("")
  }

  /** A direct child that `extract_content_from_multipart` reads as `ctype`. */
  predicate IsCandidate(p: Part, ctype: string) {
    p.contentType == ctype && !HasDisposition(p)
  }

  /** The part decodes to non-empty text. */
  predicate HasText(c: Codecs, p: Part) {
    GetTextFromPart(c, p).Some? && GetTextFromPart(c, p).value != ""
  }

  /** The cleaned texts of the children of type `ctype` that have text, in
      child order. */
  function Texts(c: Codecs, cs: seq<Part>, ctype: string): seq<string>
    decreases |cs|
  {
    if cs == [] then []
    else
      var last := cs[|cs| - 1];
      Texts(c, cs[..|cs| - 1], ctype) +
      (if IsCandidate(last, ctype) && HasText(c, last) then [CleanText(GetTextFromPart(c, last).value)] else [])
  }

  /** Every plain or HTML candidate among the children decodes. */
  predicate DecodesAll(c: Codecs, cs: seq<Part>) {
    forall i :: 0 <= i < |cs| && (IsCandidate(cs[i], TextPlain) || IsCandidate(cs[i], TextHtml)) ==>
      GetTextFromPart(c, cs[i]).Some?
  }

  /** `filter(None, texts)`. */
  function NonEmptyTexts(texts: seq<string>): seq<string>
    decreases |texts|
  {
    if texts == [] then []
    else NonEmptyTexts(texts[..|texts| - 1]) + (if texts[|texts| - 1] != "" then [texts[|texts| - 1]] else [])
  }

  /** What `extract_content_from_multipart(part)` returns, or None when it
      raises: the plain texts joined by blank lines when there are any,
      otherwise the HTML texts, otherwise "". */
  function MultipartText(c: Codecs, p: Part): Option<string> {
    var cs := IterParts(p);
    if !DecodesAll(c, cs) then None
    else
      var plain := Texts(c, cs, TextPlain);
      var html := Texts(c, cs, TextHtml);
      Some(if plain != [] then Join(NonEmptyTexts(plain), "\n\n")
           else if html != [] then Join(NonEmptyTexts(html), "\n\n")
           else "")
  }

  lemma TextsStep(c: Codecs, cs: seq<Part>, i: int, ctype: string)
    requires 0 <= i < |cs|
    ensures Texts(c, cs[..i + 1], ctype) == Texts(c, cs[..i], ctype) +
      (if IsCandidate(cs[i], ctype) && HasText(c, cs[i]) then [CleanText(GetTextFromPart(c, cs[i]).value)] else [])
  {
    assert cs[..i + 1][..i] == cs[..i];
  }

  lemma DecodesAllStep(c: Codecs, cs: seq<Part>, i: int)
    requires 0 <= i < |cs| && DecodesAll(c, cs[..i])
    ensures DecodesAll(c, cs[..i + 1]) <==>
      !(IsCandidate(cs[i], TextPlain) || IsCandidate(cs[i], TextHtml)) || GetTextFromPart(c, cs[i]).Some?
    ensures !DecodesAll(c, cs[..i + 1]) ==> !DecodesAll(c, cs)
  {
    var next := cs[..i + 1];
    assert next[i] == cs[i];
    assert forall j :: 0 <= j < i ==> next[j] == cs[..i][j];
  }

  /** `extract_content_from_multipart`, which collects the plain and HTML
      texts of the direct children in one pass. */
  method ExtractContentFromMultipart(c: Codecs, p: Part) returns (r: Option<string>)
    ensures r == MultipartText(c, p)
  {
    var plainText: seq<string> := [];
    var htmlText: seq<string> := [];
    var cs := IterParts(p);
    for i := 0 to |cs|
      invariant plainText == Texts(c, cs[..i], TextPlain)
      invariant htmlText == Texts(c, cs[..i], TextHtml)
      invariant DecodesAll(c, cs[..i])
    {
      var subpart := cs[i];
      TextsStep(c, cs, i, TextPlain);
      TextsStep(c, cs, i, TextHtml);
      DecodesAllStep(c, cs, i);
      if subpart.contentType == TextPlain && !HasDisposition(subpart) {
        var text := GetTextFromPart(c, subpart);
        if text.None? {
          return None;
        }
        if text.value != "" {
          plainText := plainText + [CleanText(text.value)];
        }
      } else if subpart.contentType == TextHtml && !HasDisposition(subpart) {
        var text := GetTextFromPart(c, subpart);
        if text.None? {
          return None;
        }
        if text.value != "" {
          htmlText := htmlText + [CleanText(text.value)];
        }
      }
    }
    assert cs[..|cs|] == cs;
    if plainText != [] {
      r := Some(Join(NonEmptyTexts(plainText), "\n\n"));
    } else if htmlText != [] {
      r := Some(Join(NonEmptyTexts(htmlText), "\n\n"));
    } else {
      r := Some("");
    }
  }

  /** Some child of type `ctype` is a candidate that has text. */
  predicate SomeText(c: Codecs, cs: seq<Part>, ctype: string) {
    exists i :: 0 <= i < |cs| && IsCandidate(cs[i], ctype) && HasText(c, cs[i])
  }

  lemma {:induction false} TextsEmptyIff(c: Codecs, cs: seq<Part>, ctype: string)
    ensures Texts(c, cs, ctype) != [] <==> SomeText(c, cs, ctype)
    decreases |cs|
  {
    if cs != [] {
      var init := cs[..|cs| - 1];
      TextsEmptyIff(c, init, ctype);
      if SomeText(c, init, ctype) {
        var i :| 0 <= i < |init| && IsCandidate(init[i], ctype) && HasText(c, init[i]);
        assert cs[i] == init[i];
      }
      if SomeText(c, cs, ctype) {
        var i :| 0 <= i < |cs| && IsCandidate(cs[i], ctype) && HasText(c, cs[i]);
        if i < |init| { assert init[i] == cs[i]; }
      }
    }
  }

  /** Plain text wins over HTML: when some undisposed `text/plain` child
      decodes to non-empty text, the result is built from the plain texts
      alone; only when none does are the HTML texts used. */
  lemma PlainPreferredOverHtml(c: Codecs, p: Part)
    requires DecodesAll(c, IterParts(p))
    ensures SomeText(c, IterParts(p), TextPlain) ==>
      MultipartText(c, p) == Some(Join(NonEmptyTexts(Texts(c, IterParts(p), TextPlain)), "\n\n"))
    ensures !SomeText(c, IterParts(p), TextPlain) ==>
      MultipartText(c, p) == Some(Join(NonEmptyTexts(Texts(c, IterParts(p), TextHtml)), "\n\n"))
  {
    TextsEmptyIff(c, IterParts(p), TextPlain);
  }

  lemma {:induction false} AllBlankTexts(c: Codecs, cs: seq<Part>, ctype: string)
    requires forall i :: 0 <= i < |cs| && IsCandidate(cs[i], ctype) && HasText(c, cs[i]) ==>
      CleanText(GetTextFromPart(c, cs[i]).value) == ""
    ensures NonEmptyTexts(Texts(c, cs, ctype)) == []
    decreases |cs|
  {
    if cs != [] {
      var init := cs[..|cs| - 1];
      assert forall i :: 0 <= i < |init| ==> init[i] == cs[i];
      AllBlankTexts(c, init, ctype);
      NonEmptyTextsAppend(Texts(c, init, ctype),
        if IsCandidate(cs[|cs| - 1], ctype) && HasText(c, cs[|cs| - 1])
        then [CleanText(GetTextFromPart(c, cs[|cs| - 1]).value)] else []);
    }
  }

  lemma {:induction false} NonEmptyTextsAppend(a: seq<string>, b: seq<string>)
    ensures NonEmptyTexts(a + b) == NonEmptyTexts(a) + NonEmptyTexts(b)
    decreases |b|
  {
    if b == [] {
      assert a + b == a;
    } else {
      var init := b[..|b| - 1];
      assert (a + b)[..|a + b| - 1] == a + init;
      NonEmptyTextsAppend(a, init);
    }
  }

  /** A plain child whose text is only whitespace still blocks the HTML
      fallback: when every plain child with text cleans to "", the result
      is "" whatever the HTML children hold. */
  lemma BlankPlainBlocksHtml(c: Codecs, p: Part)
    requires DecodesAll(c, IterParts(p))
    requires SomeText(c, IterParts(p), TextPlain)
    requires forall i :: 0 <= i < |IterParts(p)| && IsCandidate(IterParts(p)[i], TextPlain) && HasText(c, IterParts(p)[i]) ==>
      CleanText(GetTextFromPart(c, IterParts(p)[i]).value) == ""
    ensures MultipartText(c, p) == Some("")
  {
    PlainPreferredOverHtml(c, p);
    AllBlankTexts(c, IterParts(p), TextPlain);
  }

  /** What `process_email` takes as the text of one top-level part of a
      multipart message that is not an alternative. */
  function TopLevelText(c: Codecs, p: Part): Option<string> {
    if p.contentType == MultipartAlternative then MultipartText(c, p) else GetTextFromPart(c, p)
  }

  /** Every top-level part yields its text without raising. */
  predicate TopLevelDecodes(c: Codecs, ps: seq<Part>) {
    forall i :: 0 <= i < |ps| ==> TopLevelText(c, ps[i]).Some?
  }

  /** The cleaned texts of the top-level parts whose text is non-empty, in
      order. */
  function TopLevelPieces(c: Codecs, ps: seq<Part>): seq<string>
    decreases |ps|
  {
    if ps == [] then []
    else
      var last := ps[|ps| - 1];
      var text := TopLevelText(c, last);
      TopLevelPieces(c, ps[..|ps| - 1]) + (if text.Some? && text.value != "" then [CleanText(text.value)] else [])
  }

  lemma TopLevelPiecesStep(c: Codecs, ps: seq<Part>, i: int)
    requires 0 <= i < |ps|
    ensures TopLevelPieces(c, ps[..i + 1]) == TopLevelPieces(c, ps[..i]) +
      (if TopLevelText(c, ps[i]).Some? && TopLevelText(c, ps[i]).value != ""
       then [CleanText(TopLevelText(c, ps[i]).value)] else [])
  {
    assert ps[..i + 1][..i] == ps[..i];
  }

  lemma TopLevelDecodesStep(c: Codecs, ps: seq<Part>, i: int)
    requires 0 <= i < |ps| && TopLevelDecodes(c, ps[..i])
    ensures TopLevelDecodes(c, ps[..i + 1]) <==> TopLevelText(c, ps[i]).Some?
    ensures TopLevelText(c, ps[i]).None? ==> !TopLevelDecodes(c, ps)
  {
    var next := ps[..i + 1];
    if TopLevelText(c, ps[i]).Some? {
      forall j | 0 <= j < |next| ensures TopLevelText(c, next[j]).Some? {
        if j < i {
          assert next[j] == ps[..i][j];
        }
      }
    } else {
      assert next[i] == ps[i];
    }
  }

  /** The body `process_email` extracts, or None when decoding raises. */
  function Body(c: Codecs, root: Part): Option<string> {
    match root
    case Leaf(_, _, _, _, _) =>
      (match GetTextFromPart(c, root)
       case None => None
       case Some(text) => Some(CleanText(text)))
    case Container(ctype, _, ps) =>
      if ctype == MultipartAlternative then MultipartText(c, root)
      else if TopLevelDecodes(c, ps) then Some(Join(TopLevelPieces(c, ps), "\n\n"))
      else None
  }

  /** The images `process_email` collects: none for a single-part message,
      otherwise every image part met along `walk()`. */
  function Images(root: Part): seq<Image> {
    if root.Container? then ImagesIn(Walk(root)) else []
  }

  /** The outcome of `process_email` on a parsed message. */
  function Extract(c: Codecs, m: Message): Result<Extracted, Error> {
    if m.date.None? then Failure(MissingDate)
    else
      match Body(c, m.root)
      case None => Failure(UndecodableText)
      case Some(body) => Success(Extracted(m.subject, m.date.value, body, Images(m.root)))
  }

  /** A single-part `text/plain` message has the cleaned decoded payload as
      its body, and no images. */
  lemma SinglePlainPartBody(c: Codecs, m: Message, text: string)
    requires m.date.Some? && m.root.Leaf? && m.root.contentType == TextPlain
    requires !HasDisposition(m.root) && Filled(m.root.payload) && Filled(m.root.charset)
    requires c.decode(m.root.payload.value, m.root.charset.value) == Some(text)
    ensures Extract(c, m) == Success(Extracted(m.subject, m.date.value, CleanText(text), []))
  {
  }

  /** A `multipart/alternative` message whose plain part has text takes its
      body from the plain parts, never from the HTML parts. */
  lemma AlternativeBodyIsPlain(c: Codecs, m: Message)
    requires m.date.Some? && m.root.Container? && m.root.contentType == MultipartAlternative
    requires DecodesAll(c, m.root.parts) && SomeText(c, m.root.parts, TextPlain)
    ensures Extract(c, m).Success?
    ensures Extract(c, m).value.body == Join(NonEmptyTexts(Texts(c, m.root.parts, TextPlain)), "\n\n")
  {
    PlainPreferredOverHtml(c, m.root);
  }

  /** The images of a message are those of every qualifying part of a
      multipart tree, at any depth, in depth-first pre-order; a single-part
      message has none. */
  lemma ImagesAreTreeImages(root: Part)
    ensures Images(root) == if root.Container? then TreeImages(root) else []
  {
    if root.Container? { WalkFindsTreeImages(root); }
  }

  /** A consistent record never lists more files without content than
      files without text or without images. */
  lemma ConsistentBounds(s: EmailStats)
    requires s.Consistent()
    ensures |s.noContentFiles| <= |s.noTextFiles| && |s.noContentFiles| <= |s.noImagesFiles|
  {
    SubMultisetSize(multiset(s.noContentFiles), multiset(s.noTextFiles));
    SubMultisetSize(multiset(s.noContentFiles), multiset(s.noImagesFiles));
  }

  lemma {:induction false} SubMultisetSize(a: multiset<Path>, b: multiset<Path>)
    requires a <= b
    ensures |a| <= |b|
    decreases |a|
  {
    if a != multiset{} {
      var x :| x in a;
      SubMultisetSize(a - multiset{x}, b - multiset{x});
    }
  }

  /** The body half of `process_email`: the alternative extraction for a
      `multipart/alternative` message, the cleaned texts of the top-level
      parts joined by blank lines for any other multipart message, and the
      cleaned text of the single part otherwise. None where it raises. */
  method ExtractBody(c: Codecs, root: Part) returns (body: Option<string>)
    ensures body == Body(c, root)
  {
    if root.Container? {
      if root.contentType == MultipartAlternative {
        body := ExtractContentFromMultipart(c, root);
      } else {
        var parts: seq<string> := [];
        var ps := root.parts;
        for i := 0 to |ps|
          invariant TopLevelDecodes(c, ps[..i])
          invariant parts == TopLevelPieces(c, ps[..i])
        {
          var part := ps[i];
          TopLevelPiecesStep(c, ps, i);
          TopLevelDecodesStep(c, ps, i);
          var text: Option<string>;
          if part.contentType == MultipartAlternative {
            text := ExtractContentFromMultipart(c, part);
          } else {
            text := GetTextFromPart(c, part);
          }
          if text.None? {
            return None;
          }
          if text.value != "" {
            parts := parts + [CleanText(text.value)];
          }
        }
        assert ps[..|ps|] == ps;
        body := Some(Join(parts, "\n\n"));
      }
    } else {
      var text := GetTextFromPart(c, root);
      if text.None? {
        return None;
      }
      body := Some(CleanText(text.value));
    }
  }

  /** The image half of `process_email`: for a multipart message, every
      part met along `walk()` with an image type, a non-empty payload and
      a file name, in that order. */
  method CollectImages(root: Part) returns (images: seq<Image>)
    ensures images == Images(root)
  {
    images := [];
    if root.Container? {
      var walk := Walk(root);
      for i := 0 to |walk|
        invariant images == ImagesIn(walk[..i])
      {
        var part := walk[i];
        ImagesInStep(walk, i);
        if "image/" <= part.contentType {
          var data := Payload(part);
          if data.Some? && data.value != [] {
            var name := Filename(part);
            if name.Some? && name.value != "" {
              images := images + [Image(name.value, data.value)];
            }
          }
        }
      }
      assert walk[..|walk|] == walk;
    }
  }

  /** `EmailProcessor`: the statistics accumulate across calls. */
  class EmailProcessor {
    var stats: EmailStats

    predicate Valid()
      reads this
    {
      stats.Consistent()
    }

    constructor()
      ensures Valid() && stats == EmailStats([], [], [])
    {
      stats := EmailStats([], [], []);
    }

    /** `process_email` on an already parsed message. On failure nothing is
        recorded; on success the path is appended to each list whose
        condition holds, and to no other. */
    method ProcessEmail(c: Codecs, emailPath: Path, msg: Message) returns (r: Result<Extracted, Error>)
      requires Valid()
      modifies this
      ensures Valid()
      ensures r == Extract(c, msg)
      ensures r.Failure? ==> stats == old(stats)
      ensures r.Success? ==>
        && stats.noTextFiles == old(stats.noTextFiles) + (if r.value.body == "" then [emailPath] else [])
        && stats.noImagesFiles == old(stats.noImagesFiles) + (if r.value.images == [] then [emailPath] else [])
        && stats.noContentFiles == old(stats.noContentFiles) +
             (if r.value.body == "" && r.value.images == [] then [emailPath] else [])
    {
      if msg.date.None? {
        return Failure(MissingDate);
      }
      var date := msg.date.value;
      var extracted := ExtractBody(c, msg.root);
      if extracted.None? {
        return Failure(UndecodableText);
      }
      var body := extracted.value;
      var images := CollectImages(msg.root);

      if body == "" {
        stats := stats.(noTextFiles := stats.noTextFiles + [emailPath]);
      }
      if images == [] {
        stats := stats.(noImagesFiles := stats.noImagesFiles + [emailPath]);
      }
      if body == "" && images == [] {
        stats := stats.(noContentFiles := stats.noContentFiles + [emailPath]);
      }
      r := Success(Extracted(msg.subject, date, body, images));
    }
  }
}
