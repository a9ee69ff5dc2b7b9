/** `MarkdownGenerator` of email2md/markdown_generator.py: messages are filed
    by day, and the document lists the days in key order, each with one
    heading, the bodies and then the image references. */
module MarkdownGeneration {
  import opened Strings
  import opened Mime

  const DocumentTitle := "Mails to Linus"

  /** `f"# {DOCUMENT_TITLE}\n\n"`, the first piece of every document. */
  const TitleLine := "# " + DocumentTitle + "\n\n"

  /** One filed message: subject, timestamp, body and images. */
  datatype Entry = Entry(subject: string, date: int, body: string, images: seq<Image>)

  /** The Markdown reference `_process_images` emits for one image. */
  function ImageRef(img: Image): string {
    "![" + img.filename + "](images/" + img.filename + ")\n\n"
  }

  /** The references of a list of images, in order. */
  function ImageRefs(imgs: seq<Image>): seq<string>
    decreases |imgs|
  {
    if imgs == [] then [] else ImageRefs(imgs[..|imgs| - 1]) + [ImageRef(imgs[|imgs| - 1])]
  }

  /** The image directory, by file name, after writing `imgs` one after the
      other. */
  function WriteAll(dir: map<string, Bytes>, imgs: seq<Image>): map<string, Bytes>
    decreases |imgs|
  {
    if imgs == [] then dir
    else
      var last := imgs[|imgs| - 1];
      WriteAll(dir, imgs[..|imgs| - 1])[last.filename := last.data]
  }

  /** One reference per image, in input order. */
  lemma {:induction false} ImageRefsAt(imgs: seq<Image>)
    ensures |ImageRefs(imgs)| == |imgs|
    ensures forall i :: 0 <= i < |imgs| ==> ImageRefs(imgs)[i] == ImageRef(imgs[i])
    decreases |imgs|
  {
    if imgs != [] {
      ImageRefsAt(imgs[..|imgs| - 1]);
    }
  }

  lemma {:induction false} ImageRefsAppend(a: seq<Image>, b: seq<Image>)
    ensures ImageRefs(a + b) == ImageRefs(a) + ImageRefs(b)
    decreases |b|
  {
    if b == [] {
      assert a + b == a;
    } else {
      assert (a + b)[..|a + b| - 1] == a + b[..|b| - 1];
      ImageRefsAppend(a, b[..|b| - 1]);
    }
  }

  lemma {:induction false} WriteAllAppend(dir: map<string, Bytes>, a: seq<Image>, b: seq<Image>)
    ensures WriteAll(dir, a + b) == WriteAll(WriteAll(dir, a), b)
    decreases |b|
  {
    if b == [] {
      assert a + b == a;
    } else {
      assert (a + b)[..|a + b| - 1] == a + b[..|b| - 1];
      WriteAllAppend(dir, a, b[..|b| - 1]);
    }
  }

  /** Last write wins: a file holds the data of the last image written
      under its name. */
  lemma {:induction false} LastWriteWins(dir: map<string, Bytes>, imgs: seq<Image>, i: int)
    requires 0 <= i < |imgs|
    requires forall j :: i < j < |imgs| ==> imgs[j].filename != imgs[i].filename
    ensures imgs[i].filename in WriteAll(dir, imgs)
    ensures WriteAll(dir, imgs)[imgs[i].filename] == imgs[i].data
    decreases |imgs|
  {
    if i < |imgs| - 1 {
      LastWriteWins(dir, imgs[..|imgs| - 1], i);
    }
  }

  /** Files under names that no image uses are left as they were. */
  lemma {:induction false} WriteAllElsewhere(dir: map<string, Bytes>, imgs: seq<Image>, name: string)
    requires forall j :: 0 <= j < |imgs| ==> imgs[j].filename != name
    ensures name in WriteAll(dir, imgs) <==> name in dir
    ensures name in dir ==> WriteAll(dir, imgs)[name] == dir[name]
    decreases |imgs|
  {
    if imgs != [] {
      WriteAllElsewhere(dir, imgs[..|imgs| - 1], name);
    }
  }

  /** Entries in ascending timestamp order. */
  predicate SortedByDate(es: seq<Entry>) {
    forall i, j :: 0 <= i < j < |es| ==> es[i].date <= es[j].date
  }

  /** Puts `e` after the last entry of `s` whose timestamp is not later. */
  function Insert(s: seq<Entry>, e: Entry): (r: seq<Entry>)
    ensures |r| == |s| + 1
    decreases |s|
  {
    if s == [] || s[|s| - 1].date <= e.date then s + [e]
    else Insert(s[..|s| - 1], e) + [s[|s| - 1]]
  }

  /** Insertion adds exactly the one entry. */
  lemma {:induction false} InsertPermutes(s: seq<Entry>, e: Entry)
    ensures multiset(Insert(s, e)) == multiset(s) + multiset{e}
    decreases |s|
  {
    if s != [] && s[|s| - 1].date > e.date {
      assert s == s[..|s| - 1] + [s[|s| - 1]];
      InsertPermutes(s[..|s| - 1], e);
    }
  }

  /** Inserting into entries no later than a bound an entry no later than
      it leaves every entry no later than it. */
  lemma {:induction false} InsertBounded(s: seq<Entry>, e: Entry, bound: int)
    requires e.date <= bound
    requires forall k :: 0 <= k < |s| ==> s[k].date <= bound
    ensures forall k :: 0 <= k < |Insert(s, e)| ==> Insert(s, e)[k].date <= bound
    decreases |s|
  {
    if s != [] && s[|s| - 1].date > e.date {
      InsertBounded(s[..|s| - 1], e, bound);
    }
  }

  /** Insertion keeps a sorted list sorted. */
  lemma {:induction false} InsertSorted(s: seq<Entry>, e: Entry)
    requires SortedByDate(s)
    ensures SortedByDate(Insert(s, e))
    decreases |s|
  {
    if s != [] && s[|s| - 1].date > e.date {
      var init, last := s[..|s| - 1], s[|s| - 1];
      InsertSorted(init, e);
      InsertBounded(init, e, last.date);
      var r := Insert(init, e);
      assert Insert(s, e) == r + [last];
    }
  }

  /** `sorted(entries, key=lambda x: x['date'])`, by insertion. */
  function SortByDate(es: seq<Entry>): (r: seq<Entry>)
    ensures |r| == |es|
    decreases |es|
  {
    if es == [] then [] else Insert(SortByDate(es[..|es| - 1]), es[|es| - 1])
  }

  /** The result is in ascending timestamp order and holds the same entries. */
  lemma {:induction false} SortByDateSorts(es: seq<Entry>)
    ensures SortedByDate(SortByDate(es))
    ensures multiset(SortByDate(es)) == multiset(es)
    decreases |es|
  {
    if es != [] {
      var init := es[..|es| - 1];
      assert es == init + [es[|es| - 1]];
      SortByDateSorts(init);
      InsertSorted(SortByDate(init), es[|es| - 1]);
      InsertPermutes(SortByDate(init), es[|es| - 1]);
    }
  }

  /** The entries stamped `t`, in order. */
  function AtDate(es: seq<Entry>, t: int): seq<Entry>
    decreases |es|
  {
    if es == [] then []
    else AtDate(es[..|es| - 1], t) + (if es[|es| - 1].date == t then [es[|es| - 1]] else [])
  }

  lemma {:induction false} InsertAtDate(s: seq<Entry>, e: Entry, t: int)
    ensures AtDate(Insert(s, e), t) == AtDate(s, t) + (if e.date == t then [e] else [])
    decreases |s|
  {
    if s == [] || s[|s| - 1].date <= e.date {
      assert (s + [e])[..|s|] == s;
    } else {
      var init, last := s[..|s| - 1], s[|s| - 1];
      var r' := Insert(init, e);
      assert Insert(s, e) == r' + [last];
      assert (r' + [last])[..|r'|] == r';
      InsertAtDate(init, e, t);
      assert AtDate(s, t) == AtDate(init, t) + (if last.date == t then [last] else []);
    }
  }

  /** The sort is stable: entries with equal timestamps keep the order in
      which they were filed. */
  lemma {:induction false} SortByDateStable(es: seq<Entry>, t: int)
    ensures AtDate(SortByDate(es), t) == AtDate(es, t)
    decreases |es|
  {
    if es != [] {
      SortByDateStable(es[..|es| - 1], t);
      InsertAtDate(SortByDate(es[..|es| - 1]), es[|es| - 1], t);
    }
  }

  /** `max(day_entries, key=lambda x: len(x['body']))`: the index of the
      first entry with the longest body. */
  function MainIndex(day: seq<Entry>): (k: nat)
    requires |day| > 0
    ensures k < |day|
    ensures forall j :: 0 <= j < |day| ==> |day[j].body| <= |day[k].body|
    ensures forall j :: 0 <= j < k ==> |day[j].body| < |day[k].body|
    decreases |day|
  {
    if |day| == 1 then 0
    else
      var k := MainIndex(day[..|day| - 1]);
      if |day[|day| - 1].body| > |day[k].body| then |day| - 1 else k
  }

  /** Some entry of the day has a body or images. */
  predicate HasContent(day: seq<Entry>) {
    exists i :: 0 <= i < |day| && (day[i].body != "" || day[i].images != [])
  }

  /** `f"## {subject} -- {date_str}\n\n"`. */
  function Heading(e: Entry, stamp: int -> string): string {
    "## " + e.subject + " -- " + stamp(e.date) + "\n\n"
  }

  /** The non-empty bodies of the day, each followed by a blank line. */
  function BodyPieces(day: seq<Entry>): seq<string>
    decreases |day|
  {
    if day == [] then []
    else
      var last := day[|day| - 1];
      BodyPieces(day[..|day| - 1]) + (if last.body != "" then [last.body + "\n\n"] else [])
  }

  /** All images of the day, entry after entry. */
  function DayImages(day: seq<Entry>): seq<Image>
    decreases |day|
  {
    if day == [] then [] else DayImages(day[..|day| - 1]) + day[|day| - 1].images
  }

  /** The pieces `get_content` emits for one sorted day: nothing when the
      day has no content; otherwise the heading of the main entry, the
      bodies, then the image references. */
  function Chapter(day: seq<Entry>, stamp: int -> string): seq<string> {
    if HasContent(day) then
      [Heading(day[MainIndex(day)], stamp)] + BodyPieces(day) + ImageRefs(DayImages(day))
    else []
  }

  /** The images `get_content` writes for one sorted day. */
  function ChapterImages(day: seq<Entry>): seq<Image> {
    if HasContent(day) then DayImages(day) else []
  }

  /** The chapters of the given keys, in that order. */
  function ChaptersOf(daily: map<string, seq<Entry>>, keys: seq<string>, stamp: int -> string): seq<string>
    decreases |keys|
  {
    if keys == [] then []
    else
      var k := keys[|keys| - 1];
      ChaptersOf(daily, keys[..|keys| - 1], stamp) + (if k in daily then Chapter(SortByDate(daily[k]), stamp) else [])
  }

  /** The images written for the given keys, in that order. */
  function ImagesOf(daily: map<string, seq<Entry>>, keys: seq<string>): seq<Image>
    decreases |keys|
  {
    if keys == [] then []
    else
      var k := keys[|keys| - 1];
      ImagesOf(daily, keys[..|keys| - 1]) + (if k in daily then ChapterImages(SortByDate(daily[k])) else [])
  }

  /** What one `get_content` call appends: the chapters in ascending key
      order. */
  function Rendered(daily: map<string, seq<Entry>>, stamp: int -> string): seq<string> {
    ChaptersOf(daily, SortedStrings(daily.Keys), stamp)
  }

  /** The images one `get_content` call writes, in writing order. */
  function WrittenImages(daily: map<string, seq<Entry>>): seq<Image> {
    ImagesOf(daily, SortedStrings(daily.Keys))
  }

  lemma ChaptersStep(daily: map<string, seq<Entry>>, keys: seq<string>, i: int, stamp: int -> string)
    requires 0 <= i < |keys|
    ensures ChaptersOf(daily, keys[..i + 1], stamp) == ChaptersOf(daily, keys[..i], stamp) +
      (if keys[i] in daily then Chapter(SortByDate(daily[keys[i]]), stamp) else [])
    ensures ImagesOf(daily, keys[..i + 1]) == ImagesOf(daily, keys[..i]) +
      (if keys[i] in daily then ChapterImages(SortByDate(daily[keys[i]])) else [])
  {
    assert keys[..i + 1][..i] == keys[..i];
  }

  /** One round of the day loop extends what the earlier rounds emitted
      by the chapter of the next key. */
  lemma ContentStep(daily: map<string, seq<Entry>>, keys: seq<string>, i: int, stamp: int -> string,
                    c0: seq<string>, c: seq<string>, c1: seq<string>)
    requires 0 <= i < |keys| && keys[i] in daily
    requires c == c0 + ChaptersOf(daily, keys[..i], stamp)
    requires c1 == c + Chapter(SortByDate(daily[keys[i]]), stamp)
    ensures c1 == c0 + ChaptersOf(daily, keys[..i + 1], stamp)
  {
    ChaptersStep(daily, keys, i, stamp);
    AppendAssoc(c0, ChaptersOf(daily, keys[..i], stamp), Chapter(SortByDate(daily[keys[i]]), stamp));
  }

  lemma AppendAssoc<T>(a: seq<T>, b: seq<T>, c: seq<T>)
    ensures (a + b) + c == a + (b + c)
  {
  }

  /** One round of the day loop extends what the earlier rounds wrote by
      the images of the next key. */
  lemma FilesStep(daily: map<string, seq<Entry>>, keys: seq<string>, i: int,
                  f0: map<string, Bytes>, f: map<string, Bytes>, f1: map<string, Bytes>)
    requires 0 <= i < |keys| && keys[i] in daily
    requires f == WriteAll(f0, ImagesOf(daily, keys[..i]))
    requires f1 == WriteAll(f, ChapterImages(SortByDate(daily[keys[i]])))
    ensures f1 == WriteAll(f0, ImagesOf(daily, keys[..i + 1]))
  {
    ChaptersStep(daily, keys, i, x => "");
    WriteAllAppend(f0, ImagesOf(daily, keys[..i]), ChapterImages(SortByDate(daily[keys[i]])));
  }

  /** One round of the image loop extends the references of the earlier
      entries by those of the next entry's images. */
  lemma RefsStep(day: seq<Entry>, j: int, c0: seq<string>, c: seq<string>, c1: seq<string>)
    requires 0 <= j < |day|
    requires c == c0 + ImageRefs(DayImages(day[..j]))
    requires c1 == c + ImageRefs(day[j].images)
    ensures c1 == c0 + ImageRefs(DayImages(day[..j + 1]))
  {
    DayStep(day, j);
    ImageRefsAppend(DayImages(day[..j]), day[j].images);
    AppendAssoc(c0, ImageRefs(DayImages(day[..j])), ImageRefs(day[j].images));
  }

  /** One round of the image loop writes the next entry's images over what
      the earlier entries wrote. */
  lemma WritesStep(day: seq<Entry>, j: int, f0: map<string, Bytes>, f: map<string, Bytes>, f1: map<string, Bytes>)
    requires 0 <= j < |day|
    requires f == WriteAll(f0, DayImages(day[..j]))
    requires f1 == WriteAll(f, day[j].images)
    ensures f1 == WriteAll(f0, DayImages(day[..j + 1]))
  {
    DayStep(day, j);
    WriteAllAppend(f0, DayImages(day[..j]), day[j].images);
  }

  lemma DayStep(day: seq<Entry>, j: int)
    requires 0 <= j < |day|
    ensures BodyPieces(day[..j + 1]) == BodyPieces(day[..j]) + (if day[j].body != "" then [day[j].body + "\n\n"] else [])
    ensures DayImages(day[..j + 1]) == DayImages(day[..j]) + day[j].images
  {
    assert day[..j + 1][..j] == day[..j];
  }

  /** The pieces and images of a day, by whether it has content. */
  lemma ChapterShape(day: seq<Entry>, stamp: int -> string)
    ensures HasContent(day) ==>
      Chapter(day, stamp) == [Heading(day[MainIndex(day)], stamp)] + BodyPieces(day) + ImageRefs(DayImages(day))
    ensures HasContent(day) ==> ChapterImages(day) == DayImages(day)
    ensures !HasContent(day) ==> Chapter(day, stamp) == [] && ChapterImages(day) == []
  {
  }

  /** `idx` lists, ascending, the entries of `day` whose body is not
      empty, and piece `i` is the body of entry `idx[i]` followed by a
      blank line. */
  predicate IndexesPieces(day: seq<Entry>, pieces: seq<string>, idx: seq<int>) {
    && |idx| == |pieces|
    && (forall i :: 0 <= i < |idx| ==> 0 <= idx[i] < |day| && pieces[i] == day[idx[i]].body + "\n\n")
    && (forall i, k :: 0 <= i < k < |idx| ==> idx[i] < idx[k])
    && (forall j :: 0 <= j < |day| ==> (day[j].body != "" <==> j in idx))
  }

  /** An entry with a body, appended to the day, adds its piece at the end. */
  lemma IndexesPiecesWithBody(init: seq<Entry>, e: Entry, pieces: seq<string>, idx0: seq<int>)
    requires IndexesPieces(init, pieces, idx0) && e.body != ""
    ensures IndexesPieces(init + [e], pieces + [e.body + "\n\n"], idx0 + [|init|])
  {
    var day, idx := init + [e], idx0 + [|init|];
    forall j | 0 <= j < |day| ensures day[j].body != "" <==> j in idx {
      if j < |init| {
        assert day[j] == init[j];
      }
    }
  }

  /** An entry with an empty body, appended to the day, adds no piece. */
  lemma IndexesPiecesBlank(init: seq<Entry>, e: Entry, pieces: seq<string>, idx0: seq<int>)
    requires IndexesPieces(init, pieces, idx0) && e.body == ""
    ensures IndexesPieces(init + [e], pieces, idx0)
  {
    var day := init + [e];
    forall j | 0 <= j < |day| ensures day[j].body != "" <==> j in idx0 {
      if j < |init| {
        assert day[j] == init[j];
      }
    }
  }

  /** The body pieces of a day are its non-empty bodies, each followed by
      a blank line, one per such entry and in entry order: `idx` lists the
      entries with a body, ascending, and piece `i` comes from entry
      `idx[i]`. */
  lemma {:induction false} BodyPiecesIndices(day: seq<Entry>) returns (idx: seq<int>)
    ensures |idx| == |BodyPieces(day)|
    ensures forall i :: 0 <= i < |idx| ==> 0 <= idx[i] < |day|
    ensures forall i :: 0 <= i < |idx| ==> BodyPieces(day)[i] == day[idx[i]].body + "\n\n"
    ensures forall i, k :: 0 <= i < k < |idx| ==> idx[i] < idx[k]
    ensures forall j :: 0 <= j < |day| ==> (day[j].body != "" <==> j in idx)
    decreases |day|
  {
    if day == [] {
      idx := [];
    } else {
      var init, e := day[..|day| - 1], day[|day| - 1];
      var idx0 := BodyPiecesIndices(init);
      assert IndexesPieces(init, BodyPieces(init), idx0);
      assert day == init + [e];
      if e.body != "" {
        IndexesPiecesWithBody(init, e, BodyPieces(init), idx0);
        idx := idx0 + [|init|];
      } else {
        IndexesPiecesBlank(init, e, BodyPieces(init), idx0);
        idx := idx0;
      }
      assert IndexesPieces(day, BodyPieces(day), idx);
    }
  }

  /** The layout of the chapter of a day with content: the heading of the
      main entry first, then the non-empty bodies, each followed by a blank
      line, one per entry with a body and in entry order (`idx` lists those
      entries, as in `BodyPiecesIndices`), then the references of the day's
      images (one per image, in order, by `ImageRefsAt`). */
  lemma ChapterLayout(day: seq<Entry>, stamp: int -> string) returns (idx: seq<int>)
    requires HasContent(day)
    ensures var ch := Chapter(day, stamp); var nb := |idx|;
      && |ch| == 1 + nb + |DayImages(day)|
      && ch[0] == Heading(day[MainIndex(day)], stamp)
      && ch[1..1 + nb] == BodyPieces(day)
      && ch[1 + nb..] == ImageRefs(DayImages(day))
    ensures forall i :: 0 <= i < |idx| ==> 0 <= idx[i] < |day|
    ensures forall i :: 0 <= i < |idx| ==> Chapter(day, stamp)[1 + i] == day[idx[i]].body + "\n\n"
    ensures forall i, k :: 0 <= i < k < |idx| ==> idx[i] < idx[k]
    ensures forall j :: 0 <= j < |day| ==> (day[j].body != "" <==> j in idx)
  {
    var h := Heading(day[MainIndex(day)], stamp);
    var bp, imgs := BodyPieces(day), DayImages(day);
    var refs := ImageRefs(imgs);
    ChapterShape(day, stamp);
    idx := BodyPiecesIndices(day);
    assert |refs| == |imgs| by {
      ImageRefsAt(imgs);
    }
    LayoutOfPieces(h, bp, refs);
    var ch := Chapter(day, stamp);
    forall i | 0 <= i < |idx| ensures ch[1 + i] == day[idx[i]].body + "\n\n" {
      assert ch[1 + i] == bp[i];
    }
  }

  /** Indexing into a heading followed by two lists of pieces. */
  lemma LayoutOfPieces(h: string, bp: seq<string>, refs: seq<string>)
    ensures var ch := [h] + bp + refs;
      && |ch| == 1 + |bp| + |refs| && ch[0] == h
      && ch[1..1 + |bp|] == bp
      && (forall i :: 0 <= i < |bp| ==> ch[1 + i] == bp[i])
      && ch[1 + |bp|..] == refs
  {
  }

  /** With every body blank (as `no_text` stores them), the heading comes
      from the earliest entry of the day. */
  lemma BlankBodiesHeadEarliest(entries: seq<Entry>)
    requires |entries| > 0
    requires forall i :: 0 <= i < |entries| ==> entries[i].body == ""
    ensures var day := SortByDate(entries);
      MainIndex(day) == 0 && forall i :: 0 <= i < |entries| ==> day[0].date <= entries[i].date
  {
    var day := SortByDate(entries);
    SortByDateSorts(entries);
    forall i | 0 <= i < |day| ensures day[i].body == "" {
      assert day[i] in multiset(entries);
    }
    forall i | 0 <= i < |entries| ensures day[0].date <= entries[i].date {
      assert entries[i] in multiset(day);
    }
  }

  /** A day whose entries have neither bodies nor images produces no
      output at all. */
  lemma EmptyDaySkipped(entries: seq<Entry>, stamp: int -> string)
    requires forall i :: 0 <= i < |entries| ==> entries[i].body == "" && entries[i].images == []
    ensures Chapter(SortByDate(entries), stamp) == []
    ensures ChapterImages(SortByDate(entries)) == []
  {
    var day := SortByDate(entries);
    SortByDateSorts(entries);
    forall i | 0 <= i < |day| ensures day[i].body == "" && day[i].images == [] {
      assert day[i] in multiset(entries);
    }
  }

  /** `MarkdownGenerator`. The image directory's files are a field, keyed
      by file name; the `strftime` renderings of a timestamp in the
      configured zone (`DATE_KEY_FORMAT` and `DATE_FORMAT_FILENAME`) are
      the constants `dateKey` and `stamp`. */
  class MarkdownGenerator {
    /** The directory given to `__init__`, kept as given. Nothing here
        reads it: the files written into it are `imageFiles`, keyed by
        file name alone. */
    const imagesDir: string
    const dateKey: int -> string
    const stamp: int -> string
    var content: seq<string>
    var dailyContent: map<string, seq<Entry>>
    var imageFiles: map<string, Bytes>

    /** The title stays the first piece, and every filed day holds at least
        one entry (so `max` always has an argument). */
    predicate Valid()
      reads this
    {
      && |content| > 0 && content[0] == TitleLine
      && forall k :: k in dailyContent ==> dailyContent[k] != []
    }

    constructor(imagesDir: string, files: map<string, Bytes>, dateKey: int -> string, stamp: int -> string)
      ensures Valid()
      ensures content == [TitleLine] && dailyContent == map[] && imageFiles == files
      ensures this.imagesDir == imagesDir && this.dateKey == dateKey && this.stamp == stamp
    {
      this.imagesDir := imagesDir;
      this.dateKey := dateKey;
      this.stamp := stamp;
      content := [TitleLine];
      dailyContent := map[];
      imageFiles := files;
    }

    /** `add_chapter`: appends one entry to the list of its day, with the
        body blanked under `no_text` and the images dropped under
        `no_images`; every other day is left alone. */
    method AddChapter(subject: string, date: int, body: string, images: seq<Image>, noText: bool, noImages: bool)
      requires Valid()
      modifies this`dailyContent
      ensures Valid()
      ensures dailyContent == old(dailyContent)[dateKey(date) :=
        (if dateKey(date) in old(dailyContent) then old(dailyContent)[dateKey(date)] else []) +
        [Entry(subject, date, if noText then "" else body, if noImages then [] else images)]]
      ensures forall k :: k in old(dailyContent) && k != dateKey(date) ==>
        k in dailyContent && dailyContent[k] == old(dailyContent)[k]
    {
      var key := dateKey(date);
      var entries := if key in dailyContent then dailyContent[key] else [];
      dailyContent := dailyContent[key := entries + [Entry(subject, date, if !noText then body else "", if !noImages then images else [])]];
    }

    /** `_process_images`: writes each image to the directory under its own
        name and returns one reference per image, in order. */
    method ProcessImages(images: seq<Image>) returns (imageRefs: seq<string>)
      modifies this`imageFiles
      ensures imageRefs == ImageRefs(images)
      ensures imageFiles == WriteAll(old(imageFiles), images)
    {
      imageRefs := [];
      for i := 0 to |images|
        invariant imageRefs == ImageRefs(images[..i])
        invariant imageFiles == WriteAll(old(imageFiles), images[..i])
      {
        var img := images[i];
        assert images[..i + 1][..i] == images[..i];
        imageFiles := imageFiles[img.filename := img.data];
        imageRefs := imageRefs + [ImageRef(img)];
      }
      assert images[..|images|] == images;
    }

    /** The body loop of `get_content`: every non-empty body of the day,
        in order, each followed by a blank line. */
    method AppendBodies(dayEntries: seq<Entry>)
      modifies this`content
      ensures content == old(content) + BodyPieces(dayEntries)
    {
      for j := 0 to |dayEntries|
        invariant content == old(content) + BodyPieces(dayEntries[..j])
      {
        DayStep(dayEntries, j);
        if dayEntries[j].body != "" {
          content := content + [dayEntries[j].body + "\n\n"];
        }
      }
      assert dayEntries[..|dayEntries|] == dayEntries;
    }

    /** The image loop of `get_content`: the images of every entry of the
        day, in order, written to the directory as they are referenced. */
    method AppendImages(dayEntries: seq<Entry>)
      modifies this`content, this`imageFiles
      ensures content == old(content) + ImageRefs(DayImages(dayEntries))
      ensures imageFiles == WriteAll(old(imageFiles), DayImages(dayEntries))
    {
      for j := 0 to |dayEntries|
        invariant content == old(content) + ImageRefs(DayImages(dayEntries[..j]))
        invariant imageFiles == WriteAll(old(imageFiles), DayImages(dayEntries[..j]))
      {
        ghost var c, f := content, imageFiles;
        if dayEntries[j].images != [] {
          var refs := ProcessImages(dayEntries[j].images);
          content := content + refs;
        } else {
          assert c + ImageRefs([]) == c;
        }
        RefsStep(dayEntries, j, old(content), c, content);
        WritesStep(dayEntries, j, old(imageFiles), f, imageFiles);
      }
      assert dayEntries[..|dayEntries|] == dayEntries;
    }

    /** One round of the day loop of `get_content`, on the day's entries
        sorted by timestamp: when any has content, it emits the heading of
        the main entry, the bodies, then the image references. */
    method RenderDay(dayEntries: seq<Entry>)
      requires |dayEntries| > 0
      modifies this`content, this`imageFiles
      ensures content == old(content) + Chapter(dayEntries, stamp)
      ensures imageFiles == WriteAll(old(imageFiles), ChapterImages(dayEntries))
    {
      var mainEntry := dayEntries[MainIndex(dayEntries)];
      var dateStr := stamp(mainEntry.date);
      ChapterShape(dayEntries, stamp);
      if !HasContent(dayEntries) {
        return;
      }
      content := content + ["## " + mainEntry.subject + " -- " + dateStr + "\n\n"];
      AppendBodies(dayEntries);
      AppendImages(dayEntries);
    }

    /** The day loop of `get_content` over the given keys, each a filed
        day: the chapter of each day, in key order. */
    method RenderDays(keys: seq<string>)
      requires forall i :: 0 <= i < |keys| ==> keys[i] in dailyContent && dailyContent[keys[i]] != []
      modifies this`content, this`imageFiles
      ensures content == old(content) + ChaptersOf(dailyContent, keys, stamp)
      ensures imageFiles == WriteAll(old(imageFiles), ImagesOf(dailyContent, keys))
    {
      for i := 0 to |keys|
        invariant content == old(content) + ChaptersOf(dailyContent, keys[..i], stamp)
        invariant imageFiles == WriteAll(old(imageFiles), ImagesOf(dailyContent, keys[..i]))
      {
        var dayEntries := SortByDate(dailyContent[keys[i]]);
        ghost var c, f := content, imageFiles;
        RenderDay(dayEntries);
        ContentStep(dailyContent, keys, i, stamp, old(content), c, content);
        FilesStep(dailyContent, keys, i, old(imageFiles), f, imageFiles);
      }
      assert keys[..|keys|] == keys;
    }

    /** `get_content`: appends the chapters of all days in ascending key
        order to `content` (which is not reset, so a second call repeats
        them) and returns the concatenation, which begins with the title. */
    method GetContent() returns (doc: string)
      requires Valid()
      modifies this`content, this`imageFiles
      ensures Valid()
      ensures content == old(content) + Rendered(dailyContent, stamp)
      ensures imageFiles == WriteAll(old(imageFiles), WrittenImages(dailyContent))
      ensures doc == Concat(content)
      ensures doc == TitleLine + Concat(content[1..])
    {
      var keys := SortedStrings(dailyContent.Keys);
      RenderDays(keys);
      doc := Concat(content);
    }
  }

  /** `get_content` is not idempotent: on a fresh generator, the second
      call returns the title, the chapters, and the chapters again, that is
      the first result followed by the chapters once more. */
  method GetContentTwice(g: MarkdownGenerator) returns (first: string, second: string)
    requires g.Valid() && g.content == [TitleLine]
    modifies g`content, g`imageFiles
    ensures first == Concat([TitleLine] + Rendered(g.dailyContent, g.stamp))
    ensures second == Concat([TitleLine] + Rendered(g.dailyContent, g.stamp) + Rendered(g.dailyContent, g.stamp))
    ensures second == first + Concat(Rendered(g.dailyContent, g.stamp))
  {
    first := g.GetContent();
    second := g.GetContent();
    ConcatAppend([TitleLine] + Rendered(g.dailyContent, g.stamp), Rendered(g.dailyContent, g.stamp));
  }
}
