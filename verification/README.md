# email2md core, modelled in Dafny

email2md turns a folder of e-mails into one Markdown document. It has two
parts, and this project models and proves both.

**Content extraction** (email2md/email_processor.py):
- `clean_text` normalises the text one line at a time.
- `get_text_from_part` and `extract_content_from_multipart` pick the body
  text from a MIME part tree. Plain text is preferred over HTML, and parts
  with a `Content-Disposition` are skipped.
- `process_email` builds the body from the top-level parts and collects
  image attachments along a depth-first walk. It also records the file in
  the `EmailStats` lists.

**Markdown assembly** (email2md/markdown_generator.py):
- `MarkdownGenerator` files each message under the date key of its
  timestamp.
- `get_content` then emits one chapter per day with content, in ascending
  key order. Each chapter has a heading taken from the entry with the
  longest body, then the bodies in timestamp order, then the image
  references. Each image file is written as it is referenced.

Modules:
- `Wrappers`: `Option` and `Result`.
- `Strings`: the Python `str` operations the core relies on: `isspace`,
  `splitlines`, `strip`, `join`, code-point ordering, and `sorted` on a set
  of keys.
- `TextCleaning`: `clean_text`.
- `Mime`: the parsed part tree and `walk()`.
- `EmailProcessing`: extraction, `process_email` and the statistics. The
  `EmailProcessor` class holds the statistics.
- `MarkdownGeneration`: the `MarkdownGenerator` class. It holds `content`,
  `dailyContent` and the image directory, the last as a map from file name
  to bytes.

Functions the core calls but does not define are parameters:
- `bytes.decode(charset)` and `strip_html_tags` are the two fields of
  `EmailProcessing.Codecs`.
- The zone-aware `strftime` renderings are the generator's `dateKey` and
  `stamp` constants.

Some of the loops of `process_email` and `get_content` are split out into
methods of their own: `ExtractBody`, `CollectImages`, `RenderDays`,
`RenderDay`, `AppendBodies` and `AppendImages`. They perform the same steps in the same
order.

The comment in `clean_text` says that a run of empty lines collapses to
one. The code keeps a blank line whenever one of its neighbours is
non-blank, so a run shrinks to at most two. The model follows the code.
`TextCleaning.BlankRunKept` proves the rule for every input: between two
non-blank lines, a run of `n` blank lines keeps `min(n, 2)` of them.
`TextCleaning.BlankRunShrinksToTwo` works one case through to the output
string.

`add_chapter` blanks a body under `no_text` when it files the entry. The
heading is chosen later, from the stored bodies. So under `no_text` the
earliest entry of the day gives the heading (`BlankBodiesHeadEarliest`).

## Model

| member | source | states |
|---|---|---|
| Strings.SplitLines | email2md/email_processor.py:22 | `str.splitlines`: no resulting line holds a line-break character (`\r\n` counts as one break) |
| Strings.StripLeft | email2md/email_processor.py:22 | the result is a suffix of the input; everything removed is whitespace; the result does not start with whitespace |
| Strings.StripRight | email2md/email_processor.py:22 | the result is a prefix of the input; everything removed is whitespace; the result does not end with whitespace |
| Strings.Strip | email2md/email_processor.py:22 | `str.strip` neither starts nor ends with whitespace |
| Strings.StripStripped | email2md/email_processor.py:26 | stripping an already stripped string changes nothing |
| Strings.JoinSnoc | email2md/email_processor.py:26 | joining one more part appends the separator and that part |
| Strings.ConcatAppend | email2md/markdown_generator.py:79 | `''.join` of two lists of pieces is the concatenation of their joins |
| Strings.LexLeReflexive | email2md/markdown_generator.py:48 | the code-point order of Python strings is reflexive |
| Strings.LexLeTotal | email2md/markdown_generator.py:48 | any two keys are comparable |
| Strings.LexLeAntisymmetric | email2md/markdown_generator.py:48 | keys that are each at most the other are equal |
| Strings.LexLeTransitive | email2md/markdown_generator.py:48 | the order is transitive |
| Strings.LeastExists | email2md/markdown_generator.py:48 | every non-empty set of keys has a least key |
| Strings.LeastUnique | email2md/markdown_generator.py:48 | the least key is unique |
| Strings.SortedStrings | email2md/markdown_generator.py:48 | `sorted(keys)`: one element per key, each of them a key |
| Strings.SortedStringsHead | email2md/markdown_generator.py:48 | the sorted keys start with the least key, followed by the sorted remaining keys |
| Strings.SortedStringsComplete | email2md/markdown_generator.py:48 | every key appears among the sorted keys |
| Strings.SortedStringsAscending | email2md/markdown_generator.py:48 | the sorted keys are in strictly ascending code-point order, so no key appears twice |
| TextCleaning.CleanText | email2md/email_processor.py:19-26 | the result has no leading or trailing whitespace |
| TextCleaning.DropLeadingBlanks | email2md/email_processor.py:26 | removes exactly the leading blank lines |
| TextCleaning.DropTrailingBlanks | email2md/email_processor.py:26 | removes exactly the trailing blank lines |
| TextCleaning.NonBlankAppend | email2md/email_processor.py:24-25 | the non-blank lines of a concatenation are those of each half |
| TextCleaning.KeptFromNonBlank | email2md/email_processor.py:24-25 | the line filter keeps every non-blank line, in order, and drops only blank lines |
| TextCleaning.KeptFromMembers | email2md/email_processor.py:24-25 | the filter only keeps lines of its input |
| TextCleaning.NoTwoBlanksAfterBlank | email2md/email_processor.py:24-25 | after a blank line, the filter never keeps two blank lines in a row |
| TextCleaning.KeptFromNoThreeBlanks | email2md/email_processor.py:24-25 | the filtered lines never hold three blank lines in a row |
| TextCleaning.StripLeftJoin | email2md/email_processor.py:26 | stripping the left of newline-joined stripped lines drops exactly the leading blank lines |
| TextCleaning.StripRightJoin | email2md/email_processor.py:26 | stripping the right of newline-joined stripped lines drops exactly the trailing blank lines |
| TextCleaning.StripKeepsNoLineBreak | email2md/email_processor.py:22 | stripping a single line leaves a single line |
| TextCleaning.KeptLinesClean | email2md/email_processor.py:22-25 | every filtered line is stripped and holds no line break |
| TextCleaning.CleanTextJoinsOutputLines | email2md/email_processor.py:26 | `clean_text` is its output lines joined by newlines |
| TextCleaning.OutputLinesProperties | email2md/email_processor.py:22-26 | output lines are stripped single lines; the first and last are non-blank; the non-blank input lines all appear, in order; no three blank lines follow each other |
| TextCleaning.DropLeadingKeepsNonBlank | email2md/email_processor.py:26 | dropping leading blank lines keeps every non-blank line |
| TextCleaning.DropTrailingKeepsNonBlank | email2md/email_processor.py:26 | dropping trailing blank lines keeps every non-blank line |
| TextCleaning.SliceNoThreeBlanks | email2md/email_processor.py:24-26 | a slice of lines without three blanks in a row has none either |
| TextCleaning.TrimIsSlice | email2md/email_processor.py:26 | the final strip removes a prefix and a suffix of the filtered lines |
| TextCleaning.TrimKeepsNonBlank | email2md/email_processor.py:26 | the final strip keeps every non-blank line |
| TextCleaning.TrimKeepsShape | email2md/email_processor.py:26 | the final strip creates no run of three blank lines |
| TextCleaning.TrimKeepsClean | email2md/email_processor.py:26 | after the final strip, every line is still stripped and single |
| TextCleaning.BlankRunKept | email2md/email_processor.py:24-25 | between two non-blank stripped lines with `n >= 1` blank lines between them, the kept lines hold the first, then `min(n, 2)` blank lines, then the second, one after the other |
| TextCleaning.KeptBlankRun | email2md/email_processor.py:24-25 | from a non-blank line on, a following run of `n >= 1` blank lines up to the next non-blank line keeps exactly `min(n, 2)` blank lines: the first and the last of the run |
| TextCleaning.BlankRunTail | email2md/email_processor.py:24-25 | of the blank lines after a blank line, up to a non-blank one, only the last is kept |
| TextCleaning.KeptFromSuffix | email2md/email_processor.py:24-25 | the filter decides each line on its own: the lines kept from any index on end the lines kept from any earlier index on |
| TextCleaning.BlankRunShrinksToTwo | email2md/email_processor.py:23-25 | `clean_text("a\n\n\n\nb")` is `"a\n\n\nb"`: three blank lines become two, not one |
| Mime.ImagesInAppend | email2md/email_processor.py:109-113 | image collection over concatenated part lists concatenates the results |
| Mime.WalkFindsTreeImages | email2md/email_processor.py:109-113 | collecting along `walk()` finds the images of the whole tree, at any depth, in depth-first pre-order |
| Mime.WalkAllFindsForestImages | email2md/email_processor.py:109-113 | the same for a list of sub-trees |
| EmailProcessing.GetTextFromPart | email2md/email_processor.py:35-49 | "" unless the part is undisposed with a non-empty payload and charset; otherwise fails exactly when decoding fails, and gives the decoded text verbatim for `text/plain`, it through `strip_html_tags` for `text/html`, and "" for any other type |
| EmailProcessing.ExtractContentFromMultipart | email2md/email_processor.py:52-73 | the loop over direct children computes `MultipartText`: plain texts joined by blank lines if any, else HTML texts, else ""; fails when a candidate fails to decode |
| EmailProcessing.TextsEmptyIff | email2md/email_processor.py:57-66 | the list of texts of a type is non-empty exactly when some undisposed child of that type decodes to non-empty text |
| EmailProcessing.PlainPreferredOverHtml | email2md/email_processor.py:68-73 | with plain text, the result comes from the plain texts alone; without it, from the HTML texts |
| EmailProcessing.AllBlankTexts | email2md/email_processor.py:61-70 | when every chosen text cleans to "", nothing survives the empty-string filter |
| EmailProcessing.NonEmptyTextsAppend | email2md/email_processor.py:69-72 | the empty-string filter distributes over concatenation |
| EmailProcessing.BlankPlainBlocksHtml | email2md/email_processor.py:59-73 | a whitespace-only plain child still blocks the HTML fallback: the result is "" |
| EmailProcessing.SinglePlainPartBody | email2md/email_processor.py:115-116 | a single-part plain message yields the cleaned decoded text and no images |
| EmailProcessing.AlternativeBodyIsPlain | email2md/email_processor.py:95-96 | a `multipart/alternative` message with plain text takes its body from the plain parts |
| EmailProcessing.ImagesAreTreeImages | email2md/email_processor.py:93-115 | images come only from multipart messages: every image part with a non-empty payload and a file name, in depth-first pre-order |
| EmailProcessing.ConsistentBounds | email2md/email_processor.py:123-132 | the no-content list is never longer than the no-text or the no-images list |
| EmailProcessing.SubMultisetSize | email2md/email_processor.py:123-132 | a sub-multiset is no larger |
| EmailProcessing.ExtractBody | email2md/email_processor.py:93-116 | the body loop computes `Body`: the `"\n\n"`-join of the cleaned non-empty texts of the top-level parts, with nested alternatives using the plain-over-HTML rule |
| EmailProcessing.CollectImages | email2md/email_processor.py:108-113 | the walk loop collects exactly `Images(root)` |
| EmailProcessing.EmailProcessor.constructor | email2md/email_processor.py:31-32 | starts with three empty lists |
| EmailProcessing.EmailProcessor.ProcessEmail | email2md/email_processor.py:75-134 | returns `Extract(msg)`, failing on a missing date or undecodable text; on failure the stats are unchanged; on success the path goes to the no-text list exactly when the body is empty, to the no-images list exactly when there are no images, to the no-content list exactly when both hold; no-content stays a sub-multiset of the other two |
| MarkdownGeneration.ImageRefsAt | email2md/markdown_generator.py:38-44 | one reference `![f](images/f)` per image, in input order |
| MarkdownGeneration.ImageRefsAppend | email2md/markdown_generator.py:75-77 | the references of concatenated image lists concatenate |
| MarkdownGeneration.WriteAllAppend | email2md/markdown_generator.py:75-77 | writing two image lists in turn is writing their concatenation |
| MarkdownGeneration.LastWriteWins | email2md/markdown_generator.py:39-42 | a file holds the data of the last image written under its name |
| MarkdownGeneration.WriteAllElsewhere | email2md/markdown_generator.py:39-42 | files whose names no image uses are untouched |
| MarkdownGeneration.Insert | email2md/markdown_generator.py:49 | insertion adds one entry |
| MarkdownGeneration.InsertPermutes | email2md/markdown_generator.py:49 | insertion adds exactly that entry |
| MarkdownGeneration.InsertSorted | email2md/markdown_generator.py:49 | insertion keeps the timestamp order |
| MarkdownGeneration.SortByDate | email2md/markdown_generator.py:49 | sorting keeps the number of entries |
| MarkdownGeneration.SortByDateSorts | email2md/markdown_generator.py:49 | the day's entries come out in ascending timestamp order, as a permutation of the filed entries |
| MarkdownGeneration.InsertAtDate | email2md/markdown_generator.py:49 | insertion places the entry after all others with the same timestamp |
| MarkdownGeneration.SortByDateStable | email2md/markdown_generator.py:49 | the sort is stable: entries with equal timestamps keep their filing order |
| MarkdownGeneration.MainIndex | email2md/markdown_generator.py:59 | `max` by body length: the chosen entry has the longest body and every earlier entry a strictly shorter one |
| MarkdownGeneration.BodyPiecesIndices | email2md/markdown_generator.py:70-72 | the body pieces are the non-empty bodies of the day, each followed by a blank line, one per entry with a body and in entry order: the indices of those entries, ascending, name the pieces one to one |
| MarkdownGeneration.ChapterLayout | email2md/markdown_generator.py:63-77 | a day with content gives the heading of the main entry first; then the body of every entry with a non-empty body, followed by a blank line, once each and in entry order; then the references of the day's images in order |
| MarkdownGeneration.BlankBodiesHeadEarliest | email2md/markdown_generator.py:49-59 | when all bodies are blank (as `no_text` stores them at line 32), the heading comes from the earliest entry |
| MarkdownGeneration.EmptyDaySkipped | email2md/markdown_generator.py:63-65 | a day whose entries have no bodies and no images emits nothing and writes no file |
| MarkdownGeneration.MarkdownGenerator.constructor | email2md/markdown_generator.py:13-16 | `content` is exactly the title line and no day is filed |
| MarkdownGeneration.MarkdownGenerator.AddChapter | email2md/markdown_generator.py:18-34 | appends one entry under the key of its timestamp, with the body blanked under `no_text` and the images dropped under `no_images`; other keys and earlier entries unchanged |
| MarkdownGeneration.MarkdownGenerator.ProcessImages | email2md/markdown_generator.py:36-44 | returns one reference per image in order and writes each image under its name, later ones overwriting earlier ones |
| MarkdownGeneration.MarkdownGenerator.AppendBodies | email2md/markdown_generator.py:69-72 | appends every non-empty body of the day, in order, each followed by a blank line |
| MarkdownGeneration.MarkdownGenerator.AppendImages | email2md/markdown_generator.py:74-77 | appends the references of every entry's images, in order, and writes those images |
| MarkdownGeneration.MarkdownGenerator.RenderDay | email2md/markdown_generator.py:59-77 | one round of the day loop appends exactly that day's chapter and writes exactly its images |
| MarkdownGeneration.MarkdownGenerator.RenderDays | email2md/markdown_generator.py:48-77 | the day loop appends the chapters of the given days in the given order and writes their images in that order |
| MarkdownGeneration.MarkdownGenerator.GetContent | email2md/markdown_generator.py:46-79 | appends the chapters of all days in ascending key order to `content`, writes their images in that order, and returns the concatenation, which begins with the title line |
| MarkdownGeneration.GetContentTwice | email2md/markdown_generator.py:46-79 | on a fresh generator a second call returns the title, the chapters and the chapters again, which is the first result followed by the chapters once more, so the call is not idempotent |

## Left out

- Reading and parsing the mail file is left out: `BytesParser`, `policy.default` and transfer decoding. `process_email` takes the parsed `Message`, with payloads already decoded.
- Decoding the Date header is left out: `parsedate_to_datetime`, the pytz zone and `astimezone`. The message carries the parsed timestamp, or None. None stands for every way the header can be missing or unparseable, and all of them give the one error `MissingDate`.
- Charset decoding and `strip_html_tags` are the `Codecs` parameters. email2md/html_utils.py is not part of this model.
- A decode failure raises in Python; here it returns `UndecodableText`. The statistics are untouched in both cases, because they are only updated at the end.
- `dateKey` and `stamp` are the `strftime` renderings in the configured zone (`DATE_KEY_FORMAT`, `DATE_FORMAT_FILENAME`). They are constructor parameters, not modelled formats.
- Writing image files is modelled as an update of the map `imageFiles`, keyed by file name. Joining a file name with `images_dir` is not modelled, including names holding `/` or absolute names. Open and write errors are not modelled either.
- The Subject header is passed through as an optional string. Python renders a missing subject as `None` in the heading; here the caller supplies the entry's `subject` string.
- `is_multipart()` is the shape of the part tree: a `Container` is multipart, a `Leaf` is not. A `Leaf` may still carry a multipart content type, as a multipart part without a boundary does in Python. Such a part is handled as the source handles it: at the root it goes through `get_text_from_part`; as a top-level `multipart/alternative` part it has no sub-parts and gives "" without decoding anything (email2md/email_processor.py:57 and 100-101).
- All `logging` calls are left out, including the listing of combined entries in `get_content`, and so is `print_summary`. They only produce output.
- The command-line drivers email2md/cli.py and email2md/__main__.py are not part of this model.
- The constants of email2md/config.py are inlined (`DOCUMENT_TITLE`) or are parameters (zone and formats).
