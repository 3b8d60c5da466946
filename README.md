# imabi HTML-to-EPUB converter: a verified model of its structural core

The converter harvests lesson pages from imabi.org and turns them into an
e-book. This project models, in Dafny, the deterministic part of that
conversion:

- **Index extraction** (`IndexProcessor`, from `index_processor.py`):
  - each index paragraph's inner markup is split on `<br>` markers;
  - lesson text is split on the first `課:`;
  - the relative path is derived from a lesson's link;
  - the walk over headings and paragraphs builds the ordered
    section → lessons dictionary while it threads one global lesson
    counter;
  - the index page is rendered with one `<ol start=…>` per section.
- **Content formatting** (`TextProcessor` and `LessonProcessor`, from
  `text_processor.py` and `lesson_processor.py`):
  - runs of two or more `<br>` become paragraph breaks;
  - paragraphs are classified by the list-marker pattern and the `▼` mark;
  - `https://imabi.org/` links are rewritten to `../`;
  - the page title is derived and the XHTML envelope built;
  - headings are demoted;
  - the first heading becomes the chapter header (or the glossary title);
  - footnotes and the footer are detached;
  - the root is wrapped as `<body>`;
  - `format_lesson` runs these steps in its fixed order.
- **Structural cleaning** (`ContentFetcher`, from the `HTMLCleaner` class of
  `content_fetcher.py`):
  - denylisted blocks are removed;
  - `<br>` is hoisted out of links;
  - empty links are removed;
  - the stale-URL table is modelled as well.
- **Identifiers and assembly** (`DataModels` and `EpubGenerator`, from
  `data_models.py` and the pure parts of `epub_generator.py`):
  - zero-padded lesson ids and file names;
  - the table-of-contents page with its running counter;
  - section page ids;
  - the order of the spine;
  - the cover file name;
  - the suffix → media type table.

Shared pieces:

- `Strings` holds Python's string operations as the converter uses them:
  - `strip` with Python's whitespace set, and `strip("/")`;
  - ASCII `lower` and `title`;
  - `find`, `in`, `replace`, `join`;
  - the `%03d` formatting of an integer.
- `Markup` holds the parsed page as a tree and the BeautifulSoup operations
  the converter calls:
  - the tree is `Text(s) | Element(tag, attrs, children)`, with attributes
    kept as an ordered list of pairs;
  - `get_text` and `get_text(strip=True)`;
  - `find_all` and `find`, in document order;
  - `unwrap`, `decompose` and attribute assignment;
  - serialisation (`str(tag)`).

Modelling choices:

- BeautifulSoup passes that change the page in place are methods on a
  `Document` object. Each method is tied by its postcondition to a function
  on the tree, and the properties are lemmas about that function.
- The loops over plain data are methods with loop invariants, each proved
  equal to a declarative definition. These are the index walk, the index
  page, the table of contents and the spine.
- HTML parsing (`BeautifulSoup(markup, "html.parser")`) is a function
  parameter `parse`. Serialisation is a concrete function.
- A missing `href` on a lesson's link raises `KeyError` in the source.
  Here it is the `Err` case of a `Result`, and the whole index extraction
  fails with it.

## Model

| member | source | states |
|---|---|---|
| `Strings.StripSpec` | src/imabi/index_processor.py:80-81 | `strip()` leaves a contiguous slice with only whitespace cut on either side, and the slice neither starts nor ends with whitespace |
| `Strings.StripEmpty` | src/imabi/index_processor.py:44 | a string strips to empty exactly when every character is whitespace |
| `Strings.StripIdempotent` | src/imabi/index_processor.py:80-81 | stripping twice is stripping once |
| `Strings.StripChar` | src/imabi/index_processor.py:68 | `strip("/")` leaves no `/` at either end and never lengthens the string |
| `Strings.StripCharSpec` | src/imabi/index_processor.py:68 | `strip("/")` is the infix of the string left after cutting off only `/`s at both ends, and it starts and ends with a character other than `/` |
| `Strings.Title` | src/imabi/text_processor.py:17 | `str.title()` on ASCII: same length; each letter is upper-cased when it does not follow a letter and lower-cased when it does; other characters are unchanged |
| `Strings.IndexOf` | src/imabi/index_processor.py:77 | the result is the first position of the pattern, or none when the pattern occurs nowhere |
| `Strings.ReplaceCharRemovesIt` | src/imabi/text_processor.py:17 | replacing a character by a text that does not contain it leaves none of it |
| `Strings.DecimalValue` | src/imabi/data_models.py:35 | the decimal digits of `n` read back as `n` |
| `Strings.ZeroPad` | src/imabi/data_models.py:35 | zero-padding gives width `max(w, digits)`, all digits |
| `Strings.ZeroPadValue` | src/imabi/data_models.py:35 | zero-padding does not change the value the digits denote |
| `Strings.FormatPadded` | src/imabi/data_models.py:35 | `%0wd` is non-empty and starts with `-` exactly for negative numbers |
| `Strings.FormatPaddedInjective` | src/imabi/data_models.py:35 | two integers with the same `%0wd` text are equal |
| `Markup.GetAttr` | src/imabi/text_processor.py:67 | `tag.get(k)` is present exactly when some attribute has that name |
| `Markup.GetAttrFirst` | src/imabi/text_processor.py:67 | `tag.get(k)` is the value of the first attribute named `k` |
| `Markup.SetAttr` | src/imabi/text_processor.py:71 | `tag[k] = v` makes `k` read `v` and leaves every other attribute as it was |
| `Markup.DelAttr` | src/imabi/lesson_processor.py:71-72 | `del tag[k]` removes `k` and leaves every other attribute as it was |
| `Markup.StrippedTextEmpty` | src/imabi/content_fetcher.py:71 | `get_text(strip=True)` is empty exactly when the whole text is whitespace |
| `Markup.StrippedTextAppend` | src/imabi/index_processor.py:52 | the stripped text of adjacent nodes is the concatenation of theirs |
| `Markup.FindAllMatches` | src/imabi/text_processor.py:66 | every node `find_all` returns matches the test |
| `Markup.FindFirstIsHead` | src/imabi/index_processor.py:65-67 | `find` is the first node of `find_all`, or none when that is empty |
| `Markup.UnwrapKeepsText` | src/imabi/index_processor.py:69 | `unwrap` keeps the stripped text of the paragraph |
| `Markup.UpdateFirstFindAll` | src/imabi/lesson_processor.py:39-45 | editing the first match in place changes only the first entry of `find_all`, and the rest keep their order |
| `Markup.RemoveFirstFindAll` | src/imabi/lesson_processor.py:48 | extracting the first match removes exactly that node and the matches below it from `find_all`, and the rest keep their order |
| `Markup.EscapeText` | src/imabi/lesson_processor.py:78 | serialised text holds no `<` or `>` |
| `Markup.EscapeRoundTrip` | src/imabi/lesson_processor.py:78 | `&`, `<` and `>` each become their entity and every other character is copied: reading the three entities back gives the text |
| `Markup.EscapeInjective` | src/imabi/lesson_processor.py:78 | two texts serialise alike only when they are equal |
| `Markup.EscapeLength` | src/imabi/lesson_processor.py:78 | escaping never shortens a text, and leaves it unchanged exactly when it holds no `&`, `<` or `>` |
| `DataModels.Value` | src/imabi/data_models.py:9-14 | the three content types and their distinct values `index`, `lesson`, `glossary` |
| `DataModels.Id` | src/imabi/data_models.py:33-35 | the id starts with `lesson-`; numbers below 1000 get exactly three digits; numbers of 100 or more keep all their digits |
| `DataModels.IdReadsBack` | src/imabi/data_models.py:33-35 | the part of the id after `lesson-` is all digits and reads back as the lesson number |
| `DataModels.IdInjective` | src/imabi/data_models.py:35 | lessons with equal ids have equal numbers |
| `DataModels.Filename` | src/imabi/data_models.py:38-40 | the file name is the id followed by `.xhtml` |
| `DataModels.FilenameInjective` | src/imabi/data_models.py:38-40 | lessons with equal file names have equal numbers |
| `DataModels.IdExamples` | src/imabi/data_models.py:33-35 | 7, 42 and 1234 give `lesson-007`, `lesson-042` and `lesson-1234` |
| `IndexProcessor.SplitOnBrRejoins` | src/imabi/index_processor.py:43 | `re.split(r"<br\s*/?>")` loses nothing: the pieces interleaved with the cut markers are the original markup |
| `IndexProcessor.BrMarkersAreMarkers` | src/imabi/index_processor.py:43 | every cut-out piece is one whole `<br>`, `<br/>` or `<br />` marker |
| `IndexProcessor.SplitWithoutMarker` | src/imabi/index_processor.py:43 | markup without a marker is not split: its one piece is itself |
| `IndexProcessor.KeptSegments` | src/imabi/index_processor.py:44 | the kept segments are stripped and never blank, and there are no more of them than pieces |
| `IndexProcessor.KeptSegmentsOrder` | src/imabi/index_processor.py:44 | the kept segments are the stripped pieces with a non-blank character, every one of them, in the pieces' order |
| `IndexProcessor.KeptSegmentsMeaning` | src/imabi/index_processor.py:44 | no paragraph is emitted exactly when every piece is whitespace |
| `IndexProcessor.SegmentsMarkupAt` | src/imabi/index_processor.py:44 | the markup holds each kept segment wrapped in `<p>…</p>`, in order: before the `i`-th come the segments before it, after it those after it |
| `IndexProcessor.BreakMarkupWithoutMarker` | src/imabi/index_processor.py:40-45 | a paragraph without a marker becomes one `<p>` of its stripped markup, or nothing when that markup is blank |
| `IndexProcessor.ParseWithoutDelimiter` | src/imabi/index_processor.py:77-79 | without `課:` the number is `N/A`, and both the original number and the title are the stripped text |
| `IndexProcessor.ParseAtFirstDelimiter` | src/imabi/index_processor.py:77-84 | the split is at the first `課:`, and the title is the stripped rest, later delimiters included; the number is the stripped left part without any `第`; the original number is that part followed by `課` |
| `IndexProcessor.ParseNumberUnmarked` | src/imabi/index_processor.py:82 | with the delimiter, the number holds no `第` |
| `IndexProcessor.RelativePath` | src/imabi/index_processor.py:68 | without `.org/` the relative path is the href verbatim |
| `IndexProcessor.RelativePathAfter` | src/imabi/index_processor.py:68 | with one `.org/` the relative path is the rest with `/` stripped from both ends |
| `IndexProcessor.RelativePathBetween` | src/imabi/index_processor.py:68 | with a second `.org/` the relative path is the text between the first two, with `/` stripped from both ends |
| `IndexProcessor.RemoveEmptyEmsKeepsText` | src/imabi/index_processor.py:70-72 | removing the empty `em`s keeps the stripped text |
| `IndexProcessor.RemoveEmptyEmsLeavesNone` | src/imabi/index_processor.py:70-72 | afterwards no `em` without stripped text remains |
| `IndexProcessor.LinkDataMeaning` | src/imabi/index_processor.py:63-73 | no anchor gives no link; an anchor without href gives the `KeyError`; otherwise the first anchor's href and its relative path |
| `IndexProcessor.AfterLinkExtraction` | src/imabi/index_processor.py:69-72 | once a link is extracted, no empty `em` is left in the paragraph |
| `IndexProcessor.ExtractionKeepsText` | src/imabi/index_processor.py:69-72 | link extraction keeps the paragraph's stripped text |
| `IndexProcessor.ExtractLinkData` | src/imabi/index_processor.py:63-73 | returns the link data of the paragraph's children and leaves the paragraph as the link extraction leaves it |
| `IndexProcessor.LessonOf` | src/imabi/index_processor.py:51-59 | the lesson fails exactly when its link lookup fails; it carries the number it is given and its link data |
| `IndexProcessor.LessonOfText` | src/imabi/index_processor.py:52-57 | the lesson's number, original number and title are those parsed from the paragraph's stripped text |
| `IndexProcessor.LessonsFrom` | src/imabi/index_processor.py:47-61 | one lesson per paragraph, numbered `start`, `start + 1`, …; fails exactly when one paragraph's link fails |
| `IndexProcessor.ExtractLinksFromParagraphs` | src/imabi/index_processor.py:47-61 | the loop returns the declarative lesson list |
| `IndexProcessor.ExtractLesson` | src/imabi/index_processor.py:51-60 | one paragraph's lesson, or the missing-href error |
| `IndexProcessor.HeadingKeys` | src/imabi/index_processor.py:28-30 | heading titles in first-seen order, each once |
| `IndexProcessor.SectionsFor` | src/imabi/index_processor.py:34-35 | one entry per title, holding the lessons placed under that title in document order |
| `IndexProcessor.NonEmpty` | src/imabi/index_processor.py:38 | keeps exactly the entries with lessons, in their order |
| `IndexProcessor.ExtractSectionedIndex` | src/imabi/index_processor.py:20-38 | the walk with its dictionary, current title and counter returns the declarative sectioned index |
| `IndexProcessor.WalkItem` | src/imabi/index_processor.py:26-36 | one walk step keeps the walk invariant: the dictionary holds the lessons placed so far under the titles seen so far, and the counter is one more than the lessons read so far |
| `IndexProcessor.PlacedNumbered` | src/imabi/index_processor.py:24-36 | the `j`-th lesson read is numbered `j + 1`, counting those before the first heading |
| `IndexProcessor.IndexEntries` | src/imabi/index_processor.py:28-38 | the dictionary's keys are distinct, and every entry has lessons |
| `IndexProcessor.IndexSectionsOrdered` | src/imabi/index_processor.py:33-36 | within each section the numbers strictly increase |
| `IndexProcessor.IndexNumbers` | src/imabi/index_processor.py:23-36 | number `n` appears once exactly when the `n`-th lesson stands below a heading, and otherwise not at all |
| `IndexProcessor.IndexNumbersExactly` | src/imabi/index_processor.py:23-36 | the numbers are exactly 1..N if and only if no lesson comes before the first heading |
| `IndexProcessor.CreateIndexXhtml` | src/imabi/index_processor.py:86-104 | the loop over sections with its counter builds the declarative index page |
| `IndexProcessor.AppendIndexSection` | src/imabi/index_processor.py:92-100 | one section appends its block, opened with `start = counter + 1`, and advances the counter by its lesson count |
| `IndexProcessor.IndexBlocks` | src/imabi/index_processor.py:91-100 | section `i` is rendered with `start` equal to 1 plus the lessons of the sections before it |
| `IndexProcessor.IndexStarts` | src/imabi/index_processor.py:89-94 | the first list starts at 1; each next start adds the previous section's lessons; the total is one past the lesson count |
| `IndexProcessor.IndexOrdinals` | src/imabi/index_processor.py:89-100 | the ordinals the page shows equal the lessons' own numbers if and only if those are exactly 1..N |
| `IndexProcessor.IndexItemLinks` | src/imabi/index_processor.py:95-99 | a linked lesson links to `../Text/lesson-NNN.xhtml`; for markup-free text, the item holds an anchor exactly when the lesson has a link |
| `TextProcessor.ListMarkerMeaning` | src/imabi/text_processor.py:11 | the scanner matches exactly the texts that start with digits and a dot, with `ivxlcdm` letters and a dot, with `※`, or with `・` |
| `TextProcessor.ClassifyParagraph` | src/imabi/text_processor.py:56-62 | for the lower-cased stripped text: a list marker sets class `numerada`; a leading `▼` renames the paragraph to `h6`; the children and every other attribute are unchanged |
| `TextProcessor.MarkersExclusive` | src/imabi/text_processor.py:11-62 | the list marker and `▼` never both apply |
| `TextProcessor.ClassifyKeepsText` | src/imabi/text_processor.py:51-54 | classification keeps the text |
| `TextProcessor.RunAtTwoUnits` | src/imabi/text_processor.py:12 | a run is two or more `<br>` markers, each with its trailing whitespace |
| `TextProcessor.ReplaceWithoutRun` | src/imabi/text_processor.py:12-47 | markup without a run is unchanged |
| `TextProcessor.ReplaceLeavesNoRun` | src/imabi/text_processor.py:12-47 | after the rewrite no run of two markers is left |
| `TextProcessor.ReplaceIdempotent` | src/imabi/text_processor.py:47 | the rewrite applied twice is the rewrite applied once |
| `TextProcessor.SingleMarkerStays` | src/imabi/text_processor.py:12 | a single `<br/>` after text without markup is left as it is when what follows has no run and does not begin, after whitespace, with a second marker: one marker is no run |
| `TextProcessor.ReplaceSpacedSingleExample` | src/imabi/text_processor.py:12 | `a<br/>` followed by a line break and `b` stays |
| `TextProcessor.ReplaceSingleExample` | src/imabi/text_processor.py:12 | a single `<br/>` is left as it is |
| `TextProcessor.ReplaceOnlyMarkersExample` | src/imabi/text_processor.py:12-48 | two markers alone become `</p><p>`, an empty paragraph pair |
| `TextProcessor.ParagraphMarkup` | src/imabi/text_processor.py:44-49 | the new markup starts with a bare `<p>` and ends with `</p>`, so the paragraph's old attributes are dropped |
| `TextProcessor.JoinVersusSerialize` | src/imabi/text_processor.py:46 | the join writes text children raw and tag children escaped: it is never longer than the serialised children and equals them exactly when no text child holds `&`, `<` or `>` |
| `TextProcessor.ParagraphOfText` | src/imabi/text_processor.py:46-48 | a paragraph of one text child hands its raw, unescaped text, runs collapsed, to the parser |
| `TextProcessor.EscapedMarkersSplit` | src/imabi/text_processor.py:46-48 | a text child reading `<br><br>` (written as entities in the page) becomes a paragraph break |
| `TextProcessor.ParagraphMarkupJoinWithoutRun` | src/imabi/text_processor.py:46-48 | without a run in the join, the join is handed to the parser unchanged inside a bare `<p>` |
| `TextProcessor.ParagraphMarkupWithoutRun` | src/imabi/text_processor.py:44-49 | when no text child holds `&`, `<` or `>` and there is no run, the paragraph is re-emitted as a bare `<p>` around its own serialised children |
| `TextProcessor.StripWithoutParagraphs` | src/imabi/text_processor.py:39-42 | a page without paragraphs is unchanged |
| `TextProcessor.FixHref` | src/imabi/text_processor.py:70-71 | an href starting with `https://imabi.org/` has every occurrence replaced by `../`; others are unchanged; no result starts with the site root |
| `TextProcessor.FixAnchorAttrs` | src/imabi/text_processor.py:67-71 | only the href changes, as `FixHref` says, and a missing href stays missing |
| `TextProcessor.FixLinksIdempotent` | src/imabi/text_processor.py:64-71 | fixing links twice is fixing them once |
| `TextProcessor.FixLinksKeepsText` | src/imabi/text_processor.py:64-71 | link fixing keeps the text |
| `TextProcessor.FixLinksLeavesNoSiteLinks` | src/imabi/text_processor.py:64-71 | afterwards no link starts with `https://imabi.org/` |
| `TextProcessor.CleanTitle` | src/imabi/text_processor.py:17 | the derived title holds no `-` and is no longer than the file title |
| `TextProcessor.CleanTitleDashes` | src/imabi/text_processor.py:17 | without `.xhtml`, the length is kept and every `-` becomes a space |
| `TextProcessor.CleanTitlePlain` | src/imabi/text_processor.py:17 | without `.xhtml` and `-`, the derived title is the title-cased text |
| `TextProcessor.WrapXhtmlShape` | src/imabi/text_processor.py:15-31 | the page starts with the XML declaration and the XHTML 1.1 DOCTYPE; it carries the derived title; the body follows the head verbatim, unescaped, and is followed by `</html>` |
| `TextProcessor.WrapXhtmlInjective` | src/imabi/text_processor.py:22-31 | two bodies give the same page under one title exactly when they are equal |
| `TextProcessor.CommonFormatting` | src/imabi/text_processor.py:33-37 | paragraph rewrite, then classification, then link fixing; the result has no site links |
| `TextProcessor.ProcessCommonFormatting` | src/imabi/text_processor.py:33-37 | the in-place passes leave the page as `CommonFormatting` says |
| `TextProcessor.FixAllLinks` | src/imabi/text_processor.py:64-71 | the in-place pass leaves the page as `FixLinks` says, with no site links |
| `TextProcessor.ClassifyParagraphs` | src/imabi/text_processor.py:51-54 | the in-place pass leaves the page as `ClassifyAll` says |
| `TextProcessor.StripAllParagraphs` | src/imabi/text_processor.py:39-42 | the in-place pass leaves the page as `StripParagraphs` says |
| `LessonProcessor.DemoteTagTable` | src/imabi/lesson_processor.py:52-55 | h1 stays; h2..h5 go one level down; h6 stays h6; other tags are unchanged; nothing becomes `h2` |
| `LessonProcessor.PassStep` | src/imabi/lesson_processor.py:52-55 | the pass for level `i` turns the state after levels 6..i+1 into the state after levels 6..i, so no heading is bumped twice |
| `LessonProcessor.AdjustHeadingLevels` | src/imabi/lesson_processor.py:50-55 | the five passes from h6 down to h2 demote every heading once |
| `LessonProcessor.DemoteLeavesNoH2` | src/imabi/lesson_processor.py:50-55 | after demotion no `h2` is left |
| `LessonProcessor.MapTagsKeepsText` | src/imabi/lesson_processor.py:55 | renaming tags keeps the text |
| `LessonProcessor.ChapterId` | src/imabi/lesson_processor.py:45 | a chapter string loses its first and last characters, and one shorter than two gives the empty id |
| `LessonProcessor.ChapterIdExample` | src/imabi/lesson_processor.py:45 | `第12課` gives `chapter-12` |
| `LessonProcessor.HeadersWithoutHeading` | src/imabi/lesson_processor.py:35-37 | with no heading the page is unchanged |
| `LessonProcessor.GlossaryHeadings` | src/imabi/lesson_processor.py:39-42 | for a glossary the first heading becomes `h1` with id `glossary`, and the other headings are unchanged |
| `LessonProcessor.ChapterHeader` | src/imabi/lesson_processor.py:43-48 | for a lesson the first heading becomes `h2` with id `chapter-…` and keeps its content; the parsed `<header>` holding it comes first; the original is gone |
| `LessonProcessor.RemoveEdited` | src/imabi/lesson_processor.py:44-48 | extracting the edited first heading removes the same node the unedited page would lose |
| `LessonProcessor.SetupHeaders` | src/imabi/lesson_processor.py:33-48 | the in-place set-up leaves the page as `HeadersSetUp` says |
| `LessonProcessor.FooterForms` | src/imabi/lesson_processor.py:59-62 | the footer is `<footer></footer>` exactly when there is no footnote list; otherwise it is the footnote footer around the serialised list |
| `LessonProcessor.DetachedFootnotes` | src/imabi/lesson_processor.py:64-65 | detaching removes a footnote list from the page |
| `LessonProcessor.FinalRootBody` | src/imabi/lesson_processor.py:69-76 | without a `body` the root becomes `body`, with class `justified` and id `path_part`; otherwise the first body gets class `justified` |
| `LessonProcessor.WrapFinalContent` | src/imabi/lesson_processor.py:57-79 | the root ends as `FinalRoot` of the detached page, and the result is the parse of the root's markup followed by the footer |
| `LessonProcessor.FormatLesson` | src/imabi/lesson_processor.py:14-31 | the steps run in their fixed order and the result is the enveloped page `FormattedLesson`; the caller's content is left as the final body: the prepared, formatted children without the footnote list and footer, with the root renamed or its inner `body` given the class, as `FinalRoot` says |
| `LessonProcessor.LessonDropsOldHeader` | src/imabi/lesson_processor.py:23-27 | for a lesson the old `<header>` is removed before demotion and the header set-up build the new one |
| `ContentFetcher.RemoveMatchingLeavesNone` | src/imabi/content_fetcher.py:56-58 | after decomposing the matches of a selector none is left, descendants included |
| `ContentFetcher.RemoveMatchingKeepsAbsent` | src/imabi/content_fetcher.py:56-58 | removal creates no match of any other selector |
| `ContentFetcher.RemovedLeavesNone` | src/imabi/content_fetcher.py:25-58 | after the denylist pass nothing matches any of the selectors |
| `ContentFetcher.RemovedNone` | src/imabi/content_fetcher.py:54-58 | a page without denylisted blocks is unchanged |
| `ContentFetcher.RemoveUnwantedElements` | src/imabi/content_fetcher.py:54-58 | the selector loop leaves the page as `Removed` with the three selectors |
| `ContentFetcher.HoistLeavesNoBr` | src/imabi/content_fetcher.py:60-66 | afterwards no link holds a `<br>` |
| `ContentFetcher.NoBrInAnyLink` | src/imabi/content_fetcher.py:62-63 | no link holds a `<br>`, in the sense of `find_all("br")` on each link |
| `ContentFetcher.HoistKeepsBrCount` | src/imabi/content_fetcher.py:63-66 | the page holds as many `<br>` as before: one is inserted for each one removed |
| `ContentFetcher.HoistKeepsText` | src/imabi/content_fetcher.py:60-66 | hoisting keeps the text |
| `ContentFetcher.HoistNone` | src/imabi/content_fetcher.py:60-66 | a page whose links hold no `<br>` is unchanged |
| `ContentFetcher.FixBrTagsInLinks` | src/imabi/content_fetcher.py:60-66 | the in-place pass leaves the page as `HoistBr` says, with no `<br>` in links |
| `ContentFetcher.DropLeavesNoEmpty` | src/imabi/content_fetcher.py:68-72 | afterwards no link lacks stripped text |
| `ContentFetcher.DropCountsLinks` | src/imabi/content_fetcher.py:68-72 | the links that remain are exactly the links with text |
| `ContentFetcher.DropKeepsText` | src/imabi/content_fetcher.py:68-72 | dropping empty links keeps the stripped text |
| `ContentFetcher.DropNone` | src/imabi/content_fetcher.py:68-72 | a page without empty links is unchanged |
| `ContentFetcher.ImageOnlyLinkDropped` | src/imabi/content_fetcher.py:71-72 | a link that holds only an image is removed |
| `ContentFetcher.RemoveEmptyLinks` | src/imabi/content_fetcher.py:68-72 | the in-place pass leaves the page as `DropEmptyLinks` says, with no empty links |
| `ContentFetcher.CleanStructure` | src/imabi/content_fetcher.py:47-52 | returns the same root it was given, after the three passes in order |
| `ContentFetcher.CleanedShape` | src/imabi/content_fetcher.py:47-52 | the cleaned page has no denylisted block, no `<br>` in a link and no empty link |
| `ContentFetcher.CleanIdempotent` | src/imabi/content_fetcher.py:47-52 | cleaning twice is cleaning once |
| `ContentFetcher.Lookup` | src/imabi/content_fetcher.py:79-80 | an href is found exactly when it is a key, and then gives that key's value |
| `ContentFetcher.RemapAnchorAttrs` | src/imabi/content_fetcher.py:76-80 | only the href changes, to its table value when it is a key; a missing href stays missing |
| `ContentFetcher.RemapTable` | src/imabi/content_fetcher.py:79-80 | with unique keys, a key maps to its value and a non-key to itself |
| `ContentFetcher.KeysDistinct` | src/imabi/content_fetcher.py:26-45 | the table has no key twice |
| `ContentFetcher.RemapEditorLink` | src/imabi/content_fetcher.py:44 | the site's editor link maps to the empty address |
| `ContentFetcher.ValuesAreNoKeys` | src/imabi/content_fetcher.py:26-45 | no value of the table is itself a key |
| `ContentFetcher.ReplaceUrlsIdempotent` | src/imabi/content_fetcher.py:74-80 | replacing links with the table twice is replacing them once |
| `ContentFetcher.ReplaceLinksKeepsText` | src/imabi/content_fetcher.py:74-80 | replacing links keeps the text |
| `ContentFetcher.ReplaceLinksIn` | src/imabi/content_fetcher.py:74-80 | the in-place pass leaves the page as `ReplaceLinks` with the table says |
| `ContentFetcher.FormatterTableChangesNothing` | src/imabi/text_processor.py:13 | the formatter's empty replacement table changes no page |
| `EpubGenerator.SuffixShape` | src/imabi/epub_generator.py:244 | `Path.suffix` is empty or a dot followed by a dot-free tail, shorter than the file name and at its end |
| `EpubGenerator.SuffixOfName` | src/imabi/epub_generator.py:232 | the suffix of `stem + ext` is `ext` for a plain stem |
| `EpubGenerator.MediaTypeKnown` | src/imabi/epub_generator.py:242-252 | the type is not `application/octet-stream` exactly when the lower-cased suffix is one of the six in the table, and then it is an `image/` type |
| `EpubGenerator.MediaTypeKeys` | src/imabi/epub_generator.py:245-252 | the table's keys are the six suffixes |
| `EpubGenerator.CoverSuffix` | src/imabi/epub_generator.py:232-234 | the cover file is `cover` with suffix `.png` for `.svg`/`.webp` in any case, and the original suffix otherwise |
| `EpubGenerator.CoverMediaType` | src/imabi/epub_generator.py:232-252 | a converted cover is `image/png`; any other cover keeps the type of its original file |
| `EpubGenerator.ContentItemNames` | src/imabi/epub_generator.py:141-150 | content items share a file name `Text/{uid}.xhtml` exactly when they share a uid |
| `EpubGenerator.SectionUidInjective` | src/imabi/epub_generator.py:225 | `section-{idx}` ids are equal exactly when the indices are |
| `EpubGenerator.TocBlocks` | src/imabi/epub_generator.py:198-214 | section `i` is rendered with id `section-{i+1}` and `start` equal to 1 plus the lessons before it |
| `EpubGenerator.CreateTocPage` | src/imabi/epub_generator.py:193-218 | the loop with its counter builds the declarative contents page |
| `EpubGenerator.AppendTocSection` | src/imabi/epub_generator.py:199-214 | one section appends its block with `start = counter + 1` and advances the counter by its lesson count |
| `EpubGenerator.TocItemLinks` | src/imabi/epub_generator.py:207-212 | every entry reads `original_number • title`; a linked lesson links to its file name; for markup-free text the entry is a link exactly when the lesson has one |
| `EpubGenerator.TocShowsLesson` | src/imabi/epub_generator.py:205-212 | every lesson of every section appears in the contents page |
| `EpubGenerator.TocSectionHeads` | src/imabi/epub_generator.py:199-202 | section `i` opens with the id of the `i + 1`-th section page, and its list starts after all the lessons before it |
| `EpubGenerator.CreateSpine` | src/imabi/epub_generator.py:50-82 | the nested loops build the declarative spine |
| `EpubGenerator.AppendSections` | src/imabi/epub_generator.py:65-78 | the sections loop appends each section page, numbered from 1, followed by its pages |
| `EpubGenerator.AppendSection` | src/imabi/epub_generator.py:67-78 | one section appends its page, then each lesson that has a link and processed content, in order |
| `EpubGenerator.FrontPages` | src/imabi/epub_generator.py:50-62 | cover when configured, then title, credits, contents, then index when processed |
| `EpubGenerator.SpineFrame` | src/imabi/epub_generator.py:50-82 | the cover is first exactly when configured; then come title, credits and contents; the index is next if and only if it was processed; the glossary is last if and only if it was processed |
| `EpubGenerator.SpineLessons` | src/imabi/epub_generator.py:64-78 | the lesson pages of the spine are exactly those of the lessons with a link and processed content, in dictionary order |
| `EpubGenerator.TocLinksResolve` | src/imabi/epub_generator.py:145-209 | a processed linked lesson's contents entry links to a file name whose page is in the spine, next to the contents page in `Text/` |

## Left out

- Network retrieval (the `ContentFetcher` class), `image_processor.py`, `main_app.py` and the orchestration in `imabi_processor.py` are not part of this model. They are I/O, command-line handling and glue around the core.
- `ProcessingConfig` directory creation is left out because it is file-system I/O.
- The ebooklib calls in `epub_generator.py` are left out: adding items, setting the cover, navigation, writing the file, the style sheet and the static title and credits text. They are calls into a library. The fixed pages are parameters of the spine, and so is the `datetime.now()` stamp on the credits page.
- HTML parsing by `html.parser` is a function parameter. Its error recovery is not modelled, and neither is the unbalanced markup when a split point falls inside an inline element.
- Node identity and aliasing are not modelled. Each in-place pass over `find_all` is a rewrite of the whole tree in document order. Two behaviours of the code differ from the model because of this:
  - Index links (`src/imabi/index_processor.py:49-69`): the code unwraps the outer `p`'s first `a` in place, and that `a` can be the anchor of a `p` nested inside it. The inner lesson then gets no link data. `LessonsFrom` and `ExtractLinksFromParagraphs` read every `p` as it was parsed, so they give the inner lesson its link.
  - The footer (`src/imabi/lesson_processor.py:59-67`): the code looks up the first `footer` before it extracts the footnote list. When that footer lies inside the list, only the detached list loses it and every later footer stays. `Detached` takes out the first `footer` left after the list is gone, so it removes a later footer in that case.
- `str.lower()`, `str.title()` and the regular expression `\d` cover ASCII only. Python's full Unicode case tables and Unicode digits are not modelled.
- Well-formedness of the output XML is not modelled or checked. Text serialised by bs4 (`str(tag)`, `decode_contents`) has `&`, `<` and `>` escaped, as `Markup.Serialize` does. The paragraph rebuild writes top-level text raw (`TextProcessor.JoinContents`), and titles and lesson text placed into page templates by string formatting are not escaped.
- EpubGenerator.Name: a path ending in `/` has an empty name here, while `pathlib` ignores trailing separators; the cover path is a file path, so it does not end in `/`.
- ContentFetcher.HoistKeepsText: stated only for pages whose `<br>` elements hold no text, which is what `html.parser` produces for a void element.
- IndexProcessor.IndexItemLinks: "anchor exactly when linked" is stated for lesson text without markup, because the text itself could contain `<a `. The same holds for `EpubGenerator.TocItemLinks`.
- `_extract_sectioned_index` is modelled to raise the missing-href `KeyError` as an error result. Exception propagation beyond that is not modelled.
- The `and lesson.link_data` test of the index page is folded into `has_link`, because link data, when present, always has its two keys.

## Behaviour worth noting

The model follows the code in each case:

- **Global lesson numbers are not always 1..N.** Paragraphs before the first heading use up numbers and are then dropped, which leaves gaps. A repeated heading appends later lessons to an earlier section, so the numbers in dictionary order are not increasing. `IndexNumbers` and `IndexNumbersExactly` state what the code gives.
- **The pages are not escaped XML throughout.** Titles and lesson text placed into the page templates go in verbatim, and the paragraph rebuild hands top-level text to the parser raw, so `&lt;br&gt;` written as text in a page becomes a real `<br>` (`EscapedMarkersSplit`).
- **The stale-URL table is never applied.** `clean_structure` does not call `_replace_links`, and the formatter's own table is empty.
