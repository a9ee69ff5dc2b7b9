/** The parsed message tree that email2md/email_processor.py reads through
    Python's `email.message` API. Transfer encodings are already undone: a
    leaf's payload is what `get_payload(decode=True)` returns. */
module Mime {
  import opened Wrappers

  newtype byte = b: int | 0 <= b < 256
  type Bytes = seq<byte>

  /** A leaf part, or a multipart container with its sub-parts. The content
      type is the lower-case `maintype/subtype` of `get_content_type()`. */
  datatype Part =
    | Leaf(contentType: string, disposition: Option<string>, payload: Option<Bytes>,
           charset: Option<string>, filename: Option<string>)
    | Container(contentType: string, disposition: Option<string>, parts: seq<Part>)

  /** An image attachment as `process_email` returns it. */
  datatype Image = Image(filename: string, data: Bytes)

  /** A Python value of type `str`, `bytes` or `None` that is truthy. */
  predicate Filled<T>(o: Option<seq<T>>) {
    o.Some? && o.value != []
  }

  /** `part.get("Content-Disposition")` is truthy. */
  predicate HasDisposition(p: Part) {
    Filled(p.disposition)
  }

  /** `part.get_payload(decode=True)`: nothing for a multipart. */
  function Payload(p: Part): Option<Bytes> {
    if p.Leaf? then p.payload else None
  }

  /** `part.get_content_charset()` (a multipart's is never read). */
  function Charset(p: Part): Option<string> {
    if p.Leaf? then p.charset else None
  }

  /** `part.get_filename()`. */
  function Filename(p: Part): Option<string> {
    if p.Leaf? then p.filename else None
  }

  /** `part.iter_parts()`: the direct sub-parts. */
  function IterParts(p: Part): seq<Part> {
    if p.Container? then p.parts else []
  }

  /** `part.walk()`: the part itself, then the walk of each sub-part in
      order (depth-first pre-order). */
  function Walk(p: Part): seq<Part>
    decreases p
  {
    match p
    case Leaf(_, _, _, _, _) => [p]
    case Container(_, _, ps) => [p] + WalkAll(ps)
  }

  function WalkAll(ps: seq<Part>): seq<Part>
    decreases ps
  {
    if ps == [] then [] else Walk(ps[0]) + WalkAll(ps[1..])
  }

  /** The image test of `process_email`: an image content type, a non-empty
      decoded payload and a non-empty file name. */
  predicate IsImagePart(p: Part) {
    "image/" <= p.contentType && Filled(Payload(p)) && Filled(Filename(p))
  }

  function ImageOf(p: Part): Image
    requires IsImagePart(p)
  {
    Image(Filename(p).value, Payload(p).value)
  }

  /** The images of a sequence of parts, in order. */
  function ImagesIn(ps: seq<Part>): seq<Image>
    decreases |ps|
  {
    if ps == [] then []
    else
      var last := ps[|ps| - 1];
      ImagesIn(ps[..|ps| - 1]) + (if IsImagePart(last) then [ImageOf(last)] else [])
  }

  /** The images of a tree by structural recursion: the part's own image
      first, then those of each sub-part in order. */
  function TreeImages(p: Part): seq<Image>
    decreases p
  {
    (if IsImagePart(p) then [ImageOf(p)] else []) +
    (match p
     case Leaf(_, _, _, _, _) => []
     case Container(_, _, ps) => ForestImages(ps))
  }

  function ForestImages(ps: seq<Part>): seq<Image>
    decreases ps
  {
    if ps == [] then [] else TreeImages(ps[0]) + ForestImages(ps[1..])
  }

  lemma ImagesInStep(ps: seq<Part>, i: int)
    requires 0 <= i < |ps|
    ensures ImagesIn(ps[..i + 1]) == ImagesIn(ps[..i]) + (if IsImagePart(ps[i]) then [ImageOf(ps[i])] else [])
  {
    assert ps[..i + 1][..i] == ps[..i];
  }

  lemma {:induction false} ImagesInAppend(a: seq<Part>, b: seq<Part>)
    ensures ImagesIn(a + b) == ImagesIn(a) + ImagesIn(b)
    decreases |b|
  {
    if b == [] {
      assert a + b == a;
    } else {
      var init := b[..|b| - 1];
      assert (a + b)[..|a + b| - 1] == a + init;
      ImagesInAppend(a, init);
    }
  }

  /** Collecting images along `walk()` finds every qualifying part of the
      tree, at any depth, in depth-first pre-order. */
  lemma {:induction false} WalkFindsTreeImages(p: Part)
    ensures ImagesIn(Walk(p)) == TreeImages(p)
    decreases p
  {
    assert ImagesIn([p]) == ImagesIn([]) + (if IsImagePart(p) then [ImageOf(p)] else []);
    match p
    case Leaf(_, _, _, _, _) =>
    case Container(_, _, ps) =>
      ImagesInAppend([p], WalkAll(ps));
      WalkAllFindsForestImages(ps);
  }

  lemma {:induction false} WalkAllFindsForestImages(ps: seq<Part>)
    ensures ImagesIn(WalkAll(ps)) == ForestImages(ps)
    decreases ps
  {
    if ps != [] {
      ImagesInAppend(Walk(ps[0]), WalkAll(ps[1..]));
      WalkFindsTreeImages(ps[0]);
      WalkAllFindsForestImages(ps[1..]);
    }
  }
}
