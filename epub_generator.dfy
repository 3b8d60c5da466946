/** The parts of `EPUBGenerator` that decide what goes into the book: the
    table-of-contents page, the order of the spine, the names of the
    content items and section pages, the cover's file name, and the media
    type of an image file. */
module EpubGenerator {
  import opened Wrappers
  import opened Strings
  import opened DataModels
  import IndexProcessor

  type Sections = IndexProcessor.Sections

  // ---------------------------------------------------------------------
  // File names: `Path(...).name` and `.suffix`
  // ---------------------------------------------------------------------

  /** `s.rfind(c)`. */
  function LastIndexOf(s: string, c: char): (r: Option<nat>)
    ensures r.Some? ==> r.value < |s| && s[r.value] == c && forall j :: r.value < j < |s| ==> s[j] != c
    ensures r.None? ==> forall j :: 0 <= j < |s| ==> s[j] != c
  {
    if s == [] then None
    else if s[|s| - 1] == c then Some(|s| - 1)
    else LastIndexOf(s[..|s| - 1], c)
  }

  /** `Path(p).name`: what follows the last `/`. Unlike `pathlib`, which
      ignores trailing separators, a path ending in `/` has an empty name;
      the cover path is a file path and does not end in `/`. */
  function Name(p: string): (r: string)
    ensures |r| <= |p| && r == p[|p| - |r|..]
    ensures forall j :: 0 <= j < |r| ==> r[j] != '/'
  {
    match LastIndexOf(p, '/')
    case None => p
    case Some(i) => p[i + 1..]
  }

  /** `Path(p).suffix`: from the last `.` of the name on, provided that dot
      is neither the name's first nor its last character. */
  function Suffix(p: string): (r: string)
  {
    NameSuffix(Name(p))
  }

  /** The suffix of a name that has no `/`. */
  function NameSuffix(name: string): (r: string)
  {
    match LastIndexOf(name, '.')
    case None => ""
    case Some(i) => if 0 < i < |name| - 1 then name[i..] else ""
  }

  /** A suffix is empty, or a dot followed by at least one character that
      is neither a dot nor a `/`; a non-empty one ends the path, after at
      least one other character of the name. */
  lemma SuffixShape(p: string)
    ensures var r := Suffix(p);
      SuffixForm(r) && (r != "" ==> |r| < |Name(p)| && p[|p| - |r|..] == r)
  {
    var name := Name(p);
    NameSuffixShape(name);
    var r := NameSuffix(name);
    if r != "" {
      TailOfTail(p, name, |name| - |r|);
    }
  }

  /** The same for the suffix of a name. */
  lemma NameSuffixShape(name: string)
    requires forall j :: 0 <= j < |name| ==> name[j] != '/'
    ensures var r := NameSuffix(name);
      SuffixForm(r) && (r != "" ==> |r| < |name| && r == name[|name| - |r|..])
  {
    match LastIndexOf(name, '.')
    case None =>
    case Some(i) =>
      if 0 < i < |name| - 1 {
        LastDotTail(name, i);
      }
  }

  /** A tail of a tail of `p` is a tail of `p`. */
  lemma TailOfTail(p: string, name: string, i: nat)
    requires |name| <= |p| && name == p[|p| - |name|..] && i <= |name|
    ensures name[i..] == p[|p| - |name[i..]|..]
  {
  }

  /** What follows the last dot of a name without `/` has the suffix's form. */
  lemma LastDotTail(name: string, i: nat)
    requires i < |name| - 1 && name[i] == '.'
    requires forall j :: i < j < |name| ==> name[j] != '.'
    requires forall j :: 0 <= j < |name| ==> name[j] != '/'
    ensures SuffixForm(name[i..])
  {
  }

  /** Text with neither a dot nor a `/`. */
  predicate PlainStem(stem: string)
  {
    |stem| > 0 && forall j :: 0 <= j < |stem| ==> stem[j] != '.' && stem[j] != '/'
  }

  /** What a suffix looks like: empty, or a dot and then at least one
      character that is neither a dot nor a `/`. */
  predicate SuffixForm(ext: string)
  {
    ext == "" || (|ext| >= 2 && ext[0] == '.' && forall j :: 1 <= j < |ext| ==> ext[j] != '.' && ext[j] != '/')
  }

  /** A name with no `/` and at most one dot, which is not first or last,
      has exactly what follows `stem` as its suffix. */
  lemma SuffixOfName(stem: string, ext: string)
    requires PlainStem(stem) && SuffixForm(ext)
    ensures Suffix(stem + ext) == ext
  {
    var p := stem + ext;
    assert forall j :: 0 <= j < |p| ==> p[j] != '/' by {
      forall j | 0 <= j < |p| ensures p[j] != '/' {
        if j >= |stem| {
          assert p[j] == ext[j - |stem|];
        }
      }
    }
    assert Name(p) == p;
    if ext == "" {
      assert p == stem;
    } else {
      assert p[|stem|] == '.';
      forall j | |stem| < j < |p| ensures p[j] != '.' {
        assert p[j] == ext[j - |stem|];
      }
      assert LastIndexOf(p, '.') == Some(|stem|);
      assert p[|stem|..] == ext;
    }
  }

  // ---------------------------------------------------------------------
  // `_get_media_type`
  // ---------------------------------------------------------------------

  const OctetStream: string := "application/octet-stream"

  /** The suffix table, keyed on lower-case suffixes. */
  const MediaTypes: map<string, string> := map[
    ".jpg" := "image/jpeg",
    ".jpeg" := "image/jpeg",
    ".png" := "image/png",
    ".gif" := "image/gif",
    ".svg" := "image/svg+xml",
    ".webp" := "image/webp"
  ]

  /** The table lookup with its default, `dict.get(ext, ...)`. */
  function MediaTypeFor(ext: string): string
  {
    if ext in MediaTypes then MediaTypes[ext] else OctetStream
  }

  /** `_get_media_type(filename)`: the table's entry for the lower-cased
      suffix, `application/octet-stream` without one. */
  function MediaType(filename: string): string
  {
    MediaTypeFor(Lower(Suffix(filename)))
  }

  /** The type is an image type exactly for the six suffixes, whatever
      their case; anything else is an octet stream. */
  lemma MediaTypeKnown(filename: string)
    ensures MediaType(filename) != OctetStream <==>
      Lower(Suffix(filename)) in {".jpg", ".jpeg", ".png", ".gif", ".svg", ".webp"}
    ensures MediaType(filename) == OctetStream || StartsWith(MediaType(filename), "image/")
  {
    MediaTypeKeys();
    var ext := Lower(Suffix(filename));
    if ext in MediaTypes {
      MediaTypeImages(ext);
      ImageNotOctet(MediaTypes[ext]);
    }
  }

  lemma MediaTypeKeys()
    ensures MediaTypes.Keys == {".jpg", ".jpeg", ".png", ".gif", ".svg", ".webp"}
  {
  }

  lemma ImageNotOctet(v: string)
    requires StartsWith(v, "image/")
    ensures v != OctetStream
  {
    assert v[0] == 'i';
  }

  lemma MediaTypeImages(ext: string)
    requires ext in MediaTypes
    ensures StartsWith(MediaTypes[ext], "image/")
  {
    MediaTypeKeys();
    var p := "image/";
    if ext == ".jpg" || ext == ".jpeg" {
      assert MediaTypes[ext] == p + "jpeg";
      StartsWithJoin(p, "jpeg");
    } else if ext == ".png" {
      assert MediaTypes[ext] == p + "png";
      StartsWithJoin(p, "png");
    } else if ext == ".gif" {
      assert MediaTypes[ext] == p + "gif";
      StartsWithJoin(p, "gif");
    } else if ext == ".svg" {
      assert MediaTypes[ext] == p + "svg+xml";
      StartsWithJoin(p, "svg+xml");
    } else {
      assert MediaTypes[ext] == p + "webp";
      StartsWithJoin(p, "webp");
    }
  }

  // ---------------------------------------------------------------------
  // The cover image's file name
  // ---------------------------------------------------------------------

  /** The suffixes the cover is converted to PNG for. */
  predicate ConvertedCover(ext: string)
  {
    Lower(ext) == ".svg" || Lower(ext) == ".webp"
  }

  /** The name `_get_cover_page_content` refers to: `cover.png` for an SVG
      or WebP cover, `cover` and the cover's own suffix otherwise. */
  function CoverFilename(coverPath: string): (r: string)
  {
    if ConvertedCover(Suffix(coverPath)) then "cover.png" else "cover" + Suffix(coverPath)
  }

  /** The chosen name keeps the cover's own suffix, except that a
      converted cover has the suffix `.png`. */
  lemma CoverSuffix(coverPath: string)
    ensures StartsWith(CoverFilename(coverPath), "cover")
    ensures Suffix(CoverFilename(coverPath)) == if ConvertedCover(Suffix(coverPath)) then ".png" else Suffix(coverPath)
  {
    var ext := Suffix(coverPath);
    CoverStem();
    if ConvertedCover(ext) {
      PngSuffix();
    } else {
      SuffixShape(coverPath);
      SuffixOfName("cover", ext);
    }
  }

  lemma CoverStem()
    ensures PlainStem("cover")
  {
  }

  lemma PngForm()
    ensures SuffixForm(".png")
  {
  }

  lemma PngJoin()
    ensures "cover" + ".png" == "cover.png"
  {
  }

  lemma PngSuffix()
    ensures Suffix("cover.png") == ".png"
  {
    CoverStem();
    PngForm();
    PngJoin();
    SuffixOfName("cover", ".png");
  }

  /** So the name never claims a type the stored image lacks: a converted
      cover is a PNG, any other keeps the media type of its own file. */
  lemma CoverMediaType(coverPath: string)
    ensures MediaType(CoverFilename(coverPath)) ==
      if ConvertedCover(Suffix(coverPath)) then "image/png" else MediaType(coverPath)
  {
    CoverSuffix(coverPath);
    if ConvertedCover(Suffix(coverPath)) {
      PngMediaType();
    }
  }

  lemma PngMediaType()
    ensures MediaTypeFor(Lower(".png")) == "image/png"
  {
    var png := ".png";
    assert forall i :: 0 <= i < |png| ==> !IsAsciiUpper(png[i]);
    LowerFixed(png);
  }

  // ---------------------------------------------------------------------
  // Content items and section pages
  // ---------------------------------------------------------------------

  /** An `EpubHtml` item as the book receives it. */
  datatype Page = Page(uid: string, title: string, fileName: string, content: string)

  /** `_create_content_item(uid, title, content)` */
  function ContentItem(uid: string, title: string, content: string): Page
  {
    Page(uid, title, "Text/" + uid + ".xhtml", content)
  }

  /** Distinct uids give distinct file names. */
  lemma ContentItemNames(u: string, v: string, t: string, t': string, c: string, c': string)
    ensures ContentItem(u, t, c).fileName == ContentItem(v, t', c').fileName <==> u == v
  {
    var f := ContentItem(u, t, c).fileName;
    var g := ContentItem(v, t', c').fileName;
    if f == g {
      assert |u| == |v|;
      assert u == f[5..5 + |u|] && v == g[5..5 + |v|];
    }
  }

  /** `section-{idx}` */
  function SectionUid(idx: int): string
  {
    "section-" + IntToString(idx)
  }

  /** Sections with different positions get different uids. */
  lemma SectionUidInjective(i: nat, j: nat)
    ensures SectionUid(i) == SectionUid(j) <==> i == j
  {
    if SectionUid(i) == SectionUid(j) {
      assert Decimal(i) == SectionUid(i)[8..] && Decimal(j) == SectionUid(j)[8..];
      DecimalValue(i);
      DecimalValue(j);
    }
  }

  /** The text of `_create_section_page`. */
  function SectionContent(sectionTitle: string): string
  {
    "<body class=\"justified\">\n        <div class=\"half-title align-center\">\n        <h1 class=\"section-title\">"
      + sectionTitle + "</h1></div></body>"
  }

  /** `_create_section_page(section_idx, section_title)` */
  function SectionPage(idx: int, sectionTitle: string): Page
  {
    ContentItem(SectionUid(idx), "Section - " + sectionTitle, SectionContent(sectionTitle))
  }

  // ---------------------------------------------------------------------
  // `_create_toc_page`
  // ---------------------------------------------------------------------

  const TocHeading: string := "<body class=\"justified\"><h1>Table of Contents</h1>"

  /** A link to a page next to the table of contents. */
  function TocLink(file: string): string
  {
    "<a href=\"" + file + "\">"
  }

  /** One entry: `original_number • title`, linked to the lesson's file
      when it has a link. */
  function TocItem(l: LessonData): string
  {
    if HasLink(l) then
      "<li>" + TocLink(Filename(l)) + l.originalNumber + IndexProcessor.Bullet + l.title + "</a></li>"
    else
      "<li>" + l.originalNumber + IndexProcessor.Bullet + l.title + "</li>"
  }

  function TocItems(ls: seq<LessonData>): (r: seq<string>)
    ensures |r| == |ls| && forall k :: 0 <= k < |ls| ==> r[k] == TocItem(ls[k])
  {
    seq(|ls|, k requires 0 <= k < |ls| => TocItem(ls[k]))
  }

  /** The section heading, with the section page's uid as its id. */
  function TocSectionHeading(idx: int, name: string): string
  {
    "<h2 id=\"" + SectionUid(idx) + "\">" + name + "</h2>"
  }

  function TocListOpen(start: int): string
  {
    "<ol start=\"" + IntToString(start) + "\" class=\"no-list-type toc\">"
  }

  function TocSection(idx: int, name: string, ls: seq<LessonData>, start: int): string
  {
    TocSectionHeading(idx, name) + TocListOpen(start) + Concat(TocItems(ls)) + "</ol>"
  }

  /** Section `i` (from 0) is numbered `i + 1`, and its list starts one past
      the lessons of the sections before it. */
  function TocBlocks(s: Sections): (r: seq<string>)
    ensures |r| == |s| && forall i :: 0 <= i < |s| ==>
      r[i] == TocSection(i + 1, s[i].0, s[i].1, IndexProcessor.Start(s, i))
  {
    seq(|s|, i requires 0 <= i < |s| => TocSection(i + 1, s[i].0, s[i].1, IndexProcessor.Start(s, i)))
  }

  function TocBody(s: Sections): string
  {
    TocHeading + Concat(TocBlocks(s)) + "</body>"
  }

  function TocPage(s: Sections): Page
  {
    ContentItem("toc_page", "Table of Contents", TocBody(s))
  }

  lemma ConcatPair(parts: seq<string>, a: string, b: string)
    ensures Concat(parts + [a, b]) == Concat(parts) + (a + b)
  {
    assert parts + [a, b] == (parts + [a]) + [b];
    ConcatAppend(parts, a);
    ConcatAppend(parts + [a], b);
  }

  /** `_create_toc_page(lesson_dict)`: `toc_parts` grows section by
      section while `lesson_counter` counts the entries written. */
  method CreateTocPage(s: Sections) returns (page: Page)
    ensures page == TocPage(s)
  {
    var parts: seq<string> := [TocHeading];
    var counter := 0;
    var i := 0;
    ghost var blocks := TocBlocks(s);
    assert parts == [] + [TocHeading];
    ConcatAppend([], TocHeading);
    assert blocks[..0] == [];
    AppendNil(TocHeading);
    while i < |s|
      invariant 0 <= i <= |s|
      invariant counter == IndexProcessor.TotalLessons(s[..i])
      invariant Concat(parts) == TocHeading + Concat(blocks[..i])
    {
      ghost var before := parts;
      assert counter + 1 == IndexProcessor.Start(s, i);
      assert blocks[i] == TocSection(i + 1, s[i].0, s[i].1, counter + 1);
      parts, counter := AppendTocSection(parts, counter, i + 1, s[i].0, s[i].1);
      IndexProcessor.BlocksStep(before, TocHeading, blocks, i, parts);
      IndexProcessor.TotalLessonsStep(s, i);
      i := i + 1;
    }
    assert blocks[..|s|] == blocks;
    ConcatAppend(parts, "</body>");
    parts := parts + ["</body>"];
    page := ContentItem("toc_page", "Table of Contents", Concat(parts));
  }

  /** One turn of the loop over the sections: heading, list opening, one
      entry per lesson, and the list's end. */
  method AppendTocSection(parts: seq<string>, counter: int, idx: int, section: string, lessons: seq<LessonData>)
    returns (r: seq<string>, c: int)
    ensures Concat(r) == Concat(parts) + TocSection(idx, section, lessons, counter + 1)
    ensures c == counter + |lessons|
  {
    var heading := TocSectionHeading(idx, section);
    var open := TocListOpen(counter + 1);
    ghost var pre := Concat(parts) + (heading + open);
    ghost var items := TocItems(lessons);
    ConcatPair(parts, heading, open);
    r := parts + [heading, open];
    c := counter;
    var j := 0;
    assert items[..0] == [];
    AppendNil(pre);
    while j < |lessons|
      invariant 0 <= j <= |lessons|
      invariant c == counter + j
      invariant Concat(r) == pre + Concat(items[..j])
    {
      c := c + 1;
      IndexProcessor.ConcatGrow(r, pre, items, j);
      r := r + [TocItem(lessons[j])];
      j := j + 1;
    }
    assert items[..j] == items;
    ConcatAppend(r, "</ol>");
    r := r + ["</ol>"];
    AppendAssoc(Concat(parts), heading + open, Concat(items), "</ol>");
    AppendAssoc3(heading, open, Concat(items));
  }

  lemma ContainsWithin(a: string, x: string, b: string, p: string)
    requires Contains(x, p)
    ensures Contains(a + x + b, p)
  {
    var i := IndexOf(x, p).value;
    var s := a + x + b;
    assert s[|a| + i..|a| + i + |p|] == x[i..i + |p|];
    assert OccursAt(s, p, |a| + i);
  }

  /** An entry reads `original_number • title` in both forms, and is a
      link to the lesson's file when the lesson has a link; when the text
      holds no markup, it holds an anchor only then. */
  lemma TocItemLinks(l: LessonData)
    ensures Contains(TocItem(l), l.originalNumber + IndexProcessor.Bullet + l.title)
    ensures HasLink(l) ==> Contains(TocItem(l), TocLink(Filename(l)))
    ensures IndexProcessor.NoMarkup(l.originalNumber) && IndexProcessor.NoMarkup(l.title) ==>
      (Contains(TocItem(l), "<a ") <==> HasLink(l))
  {
    if HasLink(l) {
      LinkedTocItem(l);
    } else {
      PlainTocItem(l);
    }
  }

  lemma TocLinkAnchor(file: string)
    ensures TocLink(file) == "<a " + ("href=\"" + file + "\">")
  {
  }

  lemma LinkedTocItem(l: LessonData)
    requires HasLink(l)
    ensures Contains(TocItem(l), l.originalNumber + IndexProcessor.Bullet + l.title)
    ensures Contains(TocItem(l), TocLink(Filename(l)))
    ensures Contains(TocItem(l), "<a ")
  {
    var a := TocLink(Filename(l));
    var pre := "<li>" + a;
    var text := l.originalNumber + IndexProcessor.Bullet + l.title;
    IndexProcessor.ContainsAt(pre, text, "</a></li>");
    AppendAssoc(pre, l.originalNumber, IndexProcessor.Bullet, l.title);
    AppendAssoc3(pre, l.originalNumber + IndexProcessor.Bullet, l.title);
    var post := l.originalNumber + IndexProcessor.Bullet + l.title + "</a></li>";
    AppendAssoc(pre, l.originalNumber + IndexProcessor.Bullet, l.title, "</a></li>");
    assert TocItem(l) == pre + post;
    IndexProcessor.ContainsAt("<li>", a, "");
    AppendNil(pre);
    ContainsGrow(pre, a, post);
    var rest := "href=\"" + Filename(l) + "\">";
    TocLinkAnchor(Filename(l));
    AppendAssoc3("<li>", "<a ", rest);
    IndexProcessor.ContainsAt("<li>", "<a ", rest);
    ContainsGrow(pre, "<a ", post);
  }

  lemma PlainTocItem(l: LessonData)
    requires !HasLink(l)
    ensures Contains(TocItem(l), l.originalNumber + IndexProcessor.Bullet + l.title)
    ensures IndexProcessor.NoMarkup(l.originalNumber) && IndexProcessor.NoMarkup(l.title) ==>
      !Contains(TocItem(l), "<a ")
  {
    var text := l.originalNumber + IndexProcessor.Bullet + l.title;
    assert TocItem(l) == "<li>" + text + "</li>";
    IndexProcessor.ContainsAt("<li>", text, "</li>");
    if IndexProcessor.NoMarkup(l.originalNumber) && IndexProcessor.NoMarkup(l.title) {
      BulletNoMarkup();
      IndexProcessor.NoMarkupJoin(l.originalNumber, IndexProcessor.Bullet);
      IndexProcessor.NoMarkupJoin(l.originalNumber + IndexProcessor.Bullet, l.title);
      IndexProcessor.PlainItemNoAnchor(text);
    }
  }

  lemma BulletNoMarkup()
    ensures IndexProcessor.NoMarkup(IndexProcessor.Bullet)
  {
  }

  lemma {:induction false} ConcatHolds(ss: seq<string>, k: int, p: string)
    requires 0 <= k < |ss| && Contains(ss[k], p)
    ensures Contains(Concat(ss), p)
  {
    if k == 0 {
      ContainsWithin("", ss[0], Concat(ss[1..]), p);
      assert "" + ss[0] + Concat(ss[1..]) == Concat(ss);
    } else {
      ConcatHolds(ss[1..], k - 1, p);
      ContainsWithin(ss[0], Concat(ss[1..]), "", p);
      assert ss[0] + Concat(ss[1..]) + "" == Concat(ss);
    }
  }

  /** Every lesson's entry is on the page, inside its section's block. */
  lemma TocShowsLesson(s: Sections, i: int, k: int)
    requires 0 <= i < |s| && 0 <= k < |s[i].1|
    ensures Contains(TocBody(s), TocItem(s[i].1[k]))
  {
    var (name, ls) := s[i];
    var items := TocItems(ls);
    IndexProcessor.ContainsAt("", items[k], "");
    assert "" + items[k] + "" == items[k];
    ConcatHolds(items, k, items[k]);
    var head := TocSectionHeading(i + 1, name) + TocListOpen(IndexProcessor.Start(s, i));
    ContainsWithin(head, Concat(items), "</ol>", items[k]);
    ConcatHolds(TocBlocks(s), i, items[k]);
    ContainsWithin(TocHeading, Concat(TocBlocks(s)), "</body>", items[k]);
  }

  /** Section `i` of the page carries the id of the `i + 1`-th section page
      and a list starting after all the lessons of the sections before it. */
  lemma TocSectionHeads(s: Sections, i: int)
    requires 0 <= i < |s|
    ensures StartsWith(TocBlocks(s)[i], "<h2 id=\"" + SectionPage(i + 1, s[i].0).uid + "\">")
    ensures Contains(TocBody(s), TocListOpen(1 + |IndexProcessor.AllNumbers(s[..i])|))
  {
    var start := IndexProcessor.Start(s, i);
    TocSectionOpens(i + 1, s[i].0, s[i].1, start);
    IndexProcessor.TotalLessonsCounts(s[..i]);
    var o := TocListOpen(start);
    ConcatHolds(TocBlocks(s), i, o);
    ContainsWithin(TocHeading, Concat(TocBlocks(s)), "</body>", o);
  }

  /** A section block starts with its `h2` and holds its list's opening tag. */
  lemma TocSectionOpens(idx: int, name: string, ls: seq<LessonData>, start: int)
    ensures StartsWith(TocSection(idx, name, ls, start), "<h2 id=\"" + SectionUid(idx) + "\">")
    ensures Contains(TocSection(idx, name, ls, start), TocListOpen(start))
  {
    var p := "<h2 id=\"" + SectionUid(idx) + "\">";
    var o := TocListOpen(start);
    var tail := Concat(TocItems(ls)) + "</ol>";
    StartsWithJoin(p, name);
    StartsWithGrow(p + name, p, "</h2>");
    var h := TocSectionHeading(idx, name);
    StartsWithGrow(h, p, o);
    StartsWithGrow(h + o, p, Concat(TocItems(ls)));
    StartsWithGrow(h + o + Concat(TocItems(ls)), p, "</ol>");
    IndexProcessor.ContainsAt(h, o, Concat(TocItems(ls)));
    ContainsGrow(h + o + Concat(TocItems(ls)), o, "</ol>");
  }

  // ---------------------------------------------------------------------
  // The spine of `create_epub`
  // ---------------------------------------------------------------------

  /** The text of the cover, title and credits pages, which the model
      takes as given (the credits page carries the generation time). */
  datatype FixedPages = FixedPages(cover: string, titlePage: string, credits: string)

  /** The content item of a lesson, titled `original_number • title`. */
  function LessonPage(l: LessonData, content: map<string, string>): Page
    requires Id(l) in content
  {
    ContentItem(Id(l), l.originalNumber + IndexProcessor.Bullet + l.title, content[Id(l)])
  }

  /** Whether a lesson gets a page: it has a link and processed content. */
  predicate InBook(l: LessonData, content: map<string, string>)
  {
    HasLink(l) && Id(l) in content
  }

  /** The pages of the lessons that are in the book, in their order. */
  function LessonPages(ls: seq<LessonData>, content: map<string, string>): seq<Page>
  {
    if ls == [] then []
    else
      var l := ls[|ls| - 1];
      LessonPages(ls[..|ls| - 1], content) + (if InBook(l, content) then [LessonPage(l, content)] else [])
  }

  /** Every section's page followed by the pages of its lessons. */
  function SectionPages(s: Sections, content: map<string, string>): seq<Page>
  {
    if s == [] then []
    else
      var (name, ls) := s[|s| - 1];
      SectionPages(s[..|s| - 1], content) + [SectionPage(|s|, name)] + LessonPages(ls, content)
  }

  /** The spine: cover (when configured), title, credits, contents, index
      (when processed), the sections with their lessons, glossary (when
      processed). */
  function Spine(s: Sections, content: map<string, string>, fixed: FixedPages, hasCover: bool): seq<Page>
  {
    Front(s, content, fixed, hasCover) + SectionPages(s, content) + Back(content)
  }

  /** The pages before the sections: cover, title, credits, contents and
      index. */
  function Front(s: Sections, content: map<string, string>, fixed: FixedPages, hasCover: bool): seq<Page>
  {
    (if hasCover then [ContentItem("cover", "Cover", fixed.cover)] else [])
    + [ContentItem("title", "Title Page", fixed.titlePage),
       ContentItem("credits", "Credits", fixed.credits),
       TocPage(s)]
    + (if "index" in content then [ContentItem("index", "IMABI Index", content["index"])] else [])
  }

  /** The page after the sections: the glossary. */
  function Back(content: map<string, string>): seq<Page>
  {
    if "glossary" in content then [ContentItem("glossary", "Glossary", content["glossary"])] else []
  }

  lemma SectionPagesStep(s: Sections, content: map<string, string>, i: int)
    requires 0 <= i < |s|
    ensures SectionPages(s[..i + 1], content) ==
      SectionPages(s[..i], content) + [SectionPage(i + 1, s[i].0)] + LessonPages(s[i].1, content)
  {
    assert s[..i + 1][..i] == s[..i];
  }

  lemma LessonPagesStep(ls: seq<LessonData>, content: map<string, string>, j: int)
    requires 0 <= j < |ls|
    ensures LessonPages(ls[..j + 1], content) ==
      LessonPages(ls[..j], content) + (if InBook(ls[j], content) then [LessonPage(ls[j], content)] else [])
  {
    assert ls[..j + 1][..j] == ls[..j];
  }

  /** One turn of the loop over the sections: the section page, then the
      lessons that are in the book. */
  method AppendSection(spine: seq<Page>, idx: int, section: string, lessons: seq<LessonData>, content: map<string, string>)
    returns (r: seq<Page>)
    ensures r == spine + [SectionPage(idx, section)] + LessonPages(lessons, content)
  {
    r := spine + [SectionPage(idx, section)];
    ghost var before := r;
    var j := 0;
    assert lessons[..0] == [];
    AppendNil(before);
    while j < |lessons|
      invariant 0 <= j <= |lessons|
      invariant r == before + LessonPages(lessons[..j], content)
    {
      var lesson := lessons[j];
      LessonPagesStep(lessons, content, j);
      if InBook(lesson, content) {
        AppendAssoc3(before, LessonPages(lessons[..j], content), [LessonPage(lesson, content)]);
        r := r + [LessonPage(lesson, content)];
      } else {
        AppendNil(LessonPages(lessons[..j], content));
      }
      j := j + 1;
    }
    assert lessons[..j] == lessons;
  }

  /** `create_epub`'s assembly of `spine_items`; the book's other contents
      (style sheet, images, cover image, navigation) are not modelled. */
  method CreateSpine(s: Sections, content: map<string, string>, fixed: FixedPages, hasCover: bool)
    returns (spine: seq<Page>)
    ensures spine == Spine(s, content, fixed, hasCover)
  {
    spine := FrontPages(s, content, fixed, hasCover);
    spine := AppendSections(spine, s, content);
    ghost var body := spine;
    if "glossary" in content {
      spine := spine + [ContentItem("glossary", "Glossary", content["glossary"])];
    } else {
      AppendNil(spine);
    }
    SpineAssembled(s, content, fixed, hasCover, body, spine);
  }

  /** The pages `create_epub` puts before the sections. */
  method FrontPages(s: Sections, content: map<string, string>, fixed: FixedPages, hasCover: bool)
    returns (front: seq<Page>)
    ensures front == Front(s, content, fixed, hasCover)
  {
    front := [];
    if hasCover {
      front := front + [ContentItem("cover", "Cover", fixed.cover)];
    }
    var toc := CreateTocPage(s);
    front := front + [ContentItem("title", "Title Page", fixed.titlePage),
                      ContentItem("credits", "Credits", fixed.credits),
                      toc];
    if "index" in content {
      front := front + [ContentItem("index", "IMABI Index", content["index"])];
    }
  }

  /** The loop over the sections, numbered from 1 as `enumerate(..., 1)`
      does. */
  method AppendSections(front: seq<Page>, s: Sections, content: map<string, string>) returns (spine: seq<Page>)
    ensures spine == front + SectionPages(s, content)
  {
    spine := front;
    var i := 0;
    assert s[..0] == [];
    AppendNil(front);
    while i < |s|
      invariant 0 <= i <= |s|
      invariant spine == front + SectionPages(s[..i], content)
    {
      SpineStep(front, s, content, i, spine);
      spine := AppendSection(spine, i + 1, s[i].0, s[i].1, content);
      i := i + 1;
    }
    assert s[..|s|] == s;
  }

  lemma SpineAssembled(s: Sections, content: map<string, string>, fixed: FixedPages, hasCover: bool, body: seq<Page>, spine: seq<Page>)
    requires body == Front(s, content, fixed, hasCover) + SectionPages(s, content)
    requires spine == body + Back(content)
    ensures spine == Spine(s, content, fixed, hasCover)
  {
  }

  lemma SpineStep(front: seq<Page>, s: Sections, content: map<string, string>, i: int, spine: seq<Page>)
    requires 0 <= i < |s| && spine == front + SectionPages(s[..i], content)
    ensures spine + [SectionPage(i + 1, s[i].0)] + LessonPages(s[i].1, content) == front + SectionPages(s[..i + 1], content)
  {
    SectionPagesStep(s, content, i);
    AppendAssoc(front, SectionPages(s[..i], content), [SectionPage(i + 1, s[i].0)], LessonPages(s[i].1, content));
  }

  // ---------------------------------------------------------------------
  // What the spine holds
  // ---------------------------------------------------------------------

  /** Every lesson of the dict, section after section. */
  function AllLessons(s: Sections): seq<LessonData>
  {
    if s == [] then [] else AllLessons(s[..|s| - 1]) + s[|s| - 1].1
  }

  /** The pages of `ps` whose uid is a lesson id. */
  function LessonsOf(ps: seq<Page>): (r: seq<Page>)
    ensures |r| <= |ps|
  {
    if ps == [] then []
    else LessonsOf(ps[..|ps| - 1]) + (if StartsWith(ps[|ps| - 1].uid, IdPrefix) then [ps[|ps| - 1]] else [])
  }

  lemma {:induction false} LessonsOfAppend(a: seq<Page>, b: seq<Page>)
    ensures LessonsOf(a + b) == LessonsOf(a) + LessonsOf(b)
  {
    if b == [] {
      assert a + b == a;
    } else {
      var init := b[..|b| - 1];
      assert (a + b)[..|a + b| - 1] == a + init;
      LessonsOfAppend(a, init);
    }
  }

  /** A page none of whose uid starts with `lesson-` drops out. */
  lemma NotLessons(ps: seq<Page>)
    requires forall k :: 0 <= k < |ps| ==> |ps[k].uid| > 0 && ps[k].uid[0] != 'l'
    ensures LessonsOf(ps) == []
  {
    if ps != [] {
      NotLessons(ps[..|ps| - 1]);
      assert !StartsWith(ps[|ps| - 1].uid, IdPrefix) by {
        var u := ps[|ps| - 1].uid;
        if |IdPrefix| <= |u| {
          assert u[..|IdPrefix|][0] == u[0];
        }
      }
    }
  }

  lemma {:induction false} LessonPagesAreLessons(ls: seq<LessonData>, content: map<string, string>)
    ensures LessonsOf(LessonPages(ls, content)) == LessonPages(ls, content)
  {
    if ls != [] {
      var init := ls[..|ls| - 1];
      var l := ls[|ls| - 1];
      var tail := if InBook(l, content) then [LessonPage(l, content)] else [];
      LessonPagesAreLessons(init, content);
      LessonsOfAppend(LessonPages(init, content), tail);
      if InBook(l, content) {
        assert LessonsOf(tail) == LessonsOf([]) + [LessonPage(l, content)];
      }
    }
  }

  lemma {:induction false} LessonPagesAppend(a: seq<LessonData>, b: seq<LessonData>, content: map<string, string>)
    ensures LessonPages(a + b, content) == LessonPages(a, content) + LessonPages(b, content)
  {
    if b == [] {
      assert a + b == a;
    } else {
      assert (a + b)[..|a + b| - 1] == a + b[..|b| - 1];
      LessonPagesAppend(a, b[..|b| - 1], content);
    }
  }

  lemma {:induction false} SectionPagesLessons(s: Sections, content: map<string, string>)
    ensures LessonsOf(SectionPages(s, content)) == LessonPages(AllLessons(s), content)
  {
    if s != [] {
      var init := s[..|s| - 1];
      var ls := s[|s| - 1].1;
      var sp := SectionPage(|s|, s[|s| - 1].0);
      var lp := LessonPages(ls, content);
      assert SectionPages(s, content) == SectionPages(init, content) + [sp] + lp;
      SectionPagesLessons(init, content);
      SectionNotLesson(|s|, s[|s| - 1].0);
      LessonPagesAreLessons(ls, content);
      SkipSectionPage(SectionPages(init, content), sp, lp);
      LessonPagesAppend(AllLessons(init), ls, content);
    }
  }

  lemma SectionNotLesson(idx: int, name: string)
    ensures LessonsOf([SectionPage(idx, name)]) == []
  {
    SectionUidLetter(idx);
    NotLesson(SectionPage(idx, name));
  }

  lemma NotLesson(p: Page)
    requires |p.uid| > 0 && p.uid[0] != 'l'
    ensures LessonsOf([p]) == []
  {
    NotLessons([p]);
  }

  lemma SkipSectionPage(a: seq<Page>, sp: Page, lp: seq<Page>)
    requires LessonsOf([sp]) == [] && LessonsOf(lp) == lp
    ensures LessonsOf(a + [sp] + lp) == LessonsOf(a) + lp
  {
    LessonsOfAppend(a, [sp]);
    LessonsOfAppend(a + [sp], lp);
    AppendNil(LessonsOf(a));
  }

  lemma SectionUidLetter(idx: int)
    ensures |SectionUid(idx)| > 0 && SectionUid(idx)[0] == 's'
  {
    var p := "section-";
    assert p[0] == 's';
    assert (p + IntToString(idx))[0] == p[0];
  }

  /** The lesson pages of the spine are exactly the pages of the lessons
      that have a link and processed content, in the dict's order. */
  lemma SpineLessons(s: Sections, content: map<string, string>, fixed: FixedPages, hasCover: bool)
    ensures LessonsOf(Spine(s, content, fixed, hasCover)) == LessonPages(AllLessons(s), content)
  {
    FrontUids(s, content, fixed, hasCover);
    BackUids(content);
    SectionPagesLessons(s, content);
    LessonsInBody(Front(s, content, fixed, hasCover), SectionPages(s, content), Back(content));
  }

  /** Pages around the sections contribute no lesson pages. */
  lemma LessonsInBody(front: seq<Page>, body: seq<Page>, back: seq<Page>)
    requires forall k :: 0 <= k < |front| ==> |front[k].uid| > 0 && front[k].uid[0] in "cti"
    requires forall k :: 0 <= k < |back| ==> |back[k].uid| > 0 && back[k].uid[0] == 'g'
    ensures LessonsOf(front + body + back) == LessonsOf(body)
  {
    NotLessons(front);
    NotLessons(back);
    LessonsOfAppend(front, body);
    LessonsOfAppend(front + body, back);
    assert [] + LessonsOf(body) + [] == LessonsOf(body);
  }

  lemma BackUids(content: map<string, string>)
    ensures forall k :: 0 <= k < |Back(content)| ==> |Back(content)[k].uid| > 0 && Back(content)[k].uid[0] == 'g'
  {
  }

  /** The uids of the pages before the sections, and their first letters. */
  lemma FrontUids(s: Sections, content: map<string, string>, fixed: FixedPages, hasCover: bool)
    ensures var f := Front(s, content, fixed, hasCover); var c := if hasCover then 1 else 0;
      |f| == c + 3 + (if "index" in content then 1 else 0)
      && (hasCover ==> f[0].uid == "cover")
      && f[c].uid == "title" && f[c + 1].uid == "credits" && f[c + 2] == TocPage(s)
      && ("index" in content ==> f[c + 3].uid == "index")
      && (forall k :: 0 <= k < |f| ==> |f[k].uid| > 0 && f[k].uid[0] in "cti")
  {
  }

  /** A page of the sections has a uid starting `s` (`section-`) or `l`
      (`lesson-`). */
  predicate BodyUid(u: string)
  {
    |u| > 0 && (u[0] == 's' || u[0] == 'l')
  }

  lemma {:induction false} SectionUidsBody(s: Sections, content: map<string, string>)
    ensures forall k :: 0 <= k < |SectionPages(s, content)| ==> BodyUid(SectionPages(s, content)[k].uid)
  {
    if s != [] {
      var init := s[..|s| - 1];
      var ls := s[|s| - 1].1;
      SectionUidsBody(init, content);
      LessonUidsBody(ls, content);
      var sp := SectionPage(|s|, s[|s| - 1].0);
      SectionUidLetter(|s|);
      var all := SectionPages(s, content);
      var a := SectionPages(init, content);
      forall k | 0 <= k < |all| ensures BodyUid(all[k].uid) {
        if k < |a| {
          assert all[k] == a[k];
        } else if k == |a| {
          assert all[k] == sp;
        } else {
          assert all[k] == LessonPages(ls, content)[k - |a| - 1];
        }
      }
    }
  }

  lemma {:induction false} LessonUidsBody(ls: seq<LessonData>, content: map<string, string>)
    ensures forall k :: 0 <= k < |LessonPages(ls, content)| ==> BodyUid(LessonPages(ls, content)[k].uid)
  {
    if ls != [] {
      LessonUidsBody(ls[..|ls| - 1], content);
      var l := ls[|ls| - 1];
      if InBook(l, content) {
        var u := Id(l);
        assert u[..|IdPrefix|] == IdPrefix;
        assert u[0] == 'l';
      }
    }
  }

  /** The spine opens with the cover exactly when one is configured, then
      title, credits and contents, then the index exactly when it was
      processed; it ends with the glossary exactly when that was processed. */
  lemma SpineFrame(s: Sections, content: map<string, string>, fixed: FixedPages, hasCover: bool)
    ensures var sp := Spine(s, content, fixed, hasCover); var c := if hasCover then 1 else 0;
      |sp| >= c + 3
      && (hasCover ==> sp[0].uid == "cover")
      && sp[c].uid == "title" && sp[c + 1].uid == "credits" && sp[c + 2] == TocPage(s)
      && (("index" in content) <==> (|sp| > c + 3 && sp[c + 3].uid == "index"))
      && (("glossary" in content) <==> sp[|sp| - 1].uid == "glossary")
  {
    SpineOpening(s, content, fixed, hasCover);
    if "index" !in content {
      SpineNoIndex(s, content, fixed, hasCover);
    }
    SpineEnd(s, content, fixed, hasCover);
  }

  lemma SpineOpening(s: Sections, content: map<string, string>, fixed: FixedPages, hasCover: bool)
    ensures var sp := Spine(s, content, fixed, hasCover); var c := if hasCover then 1 else 0;
      |sp| >= c + 3
      && (hasCover ==> sp[0].uid == "cover")
      && sp[c].uid == "title" && sp[c + 1].uid == "credits" && sp[c + 2] == TocPage(s)
      && ("index" in content ==> |sp| > c + 3 && sp[c + 3].uid == "index")
  {
    var front := Front(s, content, fixed, hasCover);
    FrontUids(s, content, fixed, hasCover);
    SpineHead(s, content, fixed, hasCover, |front|);
  }

  /** The spine starts with the pages before the sections. */
  lemma SpineHead(s: Sections, content: map<string, string>, fixed: FixedPages, hasCover: bool, n: int)
    requires n == |Front(s, content, fixed, hasCover)|
    ensures |Spine(s, content, fixed, hasCover)| >= n
    ensures forall k :: 0 <= k < n ==> Spine(s, content, fixed, hasCover)[k] == Front(s, content, fixed, hasCover)[k]
  {
    ThreeParts(Front(s, content, fixed, hasCover), SectionPages(s, content), Back(content));
  }

  /** Where the pieces of a sequence of three parts sit. */
  lemma ThreeParts<T>(a: seq<T>, b: seq<T>, c: seq<T>)
    ensures |a + b + c| == |a| + |b| + |c|
    ensures forall k :: 0 <= k < |a| ==> (a + b + c)[k] == a[k]
    ensures forall k :: 0 <= k < |b| ==> (a + b + c)[|a| + k] == b[k]
    ensures forall k :: 0 <= k < |c| ==> (a + b + c)[|a| + |b| + k] == c[k]
  {
  }

  lemma SpineNoIndex(s: Sections, content: map<string, string>, fixed: FixedPages, hasCover: bool)
    requires "index" !in content
    ensures var sp := Spine(s, content, fixed, hasCover); var c := if hasCover then 1 else 0;
      |sp| > c + 3 ==> sp[c + 3].uid != "index"
  {
    FrontUids(s, content, fixed, hasCover);
    SectionUidsBody(s, content);
    BackUids(content);
    AfterFront(Front(s, content, fixed, hasCover), SectionPages(s, content), Back(content));
  }

  /** The page right after the front pages is a section, lesson or
      glossary page. */
  lemma AfterFront(front: seq<Page>, body: seq<Page>, back: seq<Page>)
    requires forall k :: 0 <= k < |body| ==> BodyUid(body[k].uid)
    requires forall k :: 0 <= k < |back| ==> |back[k].uid| > 0 && back[k].uid[0] == 'g'
    ensures |front + body + back| > |front| ==> (front + body + back)[|front|].uid != "index"
  {
    ThreeParts(front, body, back);
    var sp := front + body + back;
    if |sp| > |front| {
      var u := sp[|front|].uid;
      if body != [] {
        assert sp[|front| + 0] == body[0];
      } else {
        assert sp[|front| + 0 + 0] == back[0];
      }
      assert u[0] != 'i';
    }
  }

  lemma SpineEnd(s: Sections, content: map<string, string>, fixed: FixedPages, hasCover: bool)
    ensures var sp := Spine(s, content, fixed, hasCover);
      |sp| > 0 && (("glossary" in content) <==> sp[|sp| - 1].uid == "glossary")
  {
    FrontUids(s, content, fixed, hasCover);
    SectionUidsBody(s, content);
    LastOfThree(Front(s, content, fixed, hasCover), SectionPages(s, content), Back(content));
  }

  /** The last page is the glossary exactly when there is a page after the
      sections, since no earlier page has a uid starting with `g`. */
  lemma LastOfThree(front: seq<Page>, body: seq<Page>, back: seq<Page>)
    requires |front| > 0 && forall k :: 0 <= k < |front| ==> |front[k].uid| > 0 && front[k].uid[0] in "cti"
    requires forall k :: 0 <= k < |body| ==> BodyUid(body[k].uid)
    requires back == [] || back == [Page("glossary", back[0].title, back[0].fileName, back[0].content)]
    ensures var sp := front + body + back;
      |sp| > 0 && (back != [] <==> sp[|sp| - 1].uid == "glossary")
  {
    var sp := front + body + back;
    ThreeParts(front, body, back);
    if back != [] {
      assert sp[|front| + |body| + 0] == back[0];
    } else if body == [] {
      assert sp[|sp| - 1] == front[|front| - 1];
    } else {
      assert sp[|front| + (|body| - 1)] == body[|body| - 1];
      assert BodyUid(body[|body| - 1].uid);
    }
  }

  /** Each entry of the table of contents that links somewhere links to a
      lesson page of the spine, read from the contents page's own
      directory, provided the lesson was processed. */
  lemma TocLinksResolve(s: Sections, content: map<string, string>, fixed: FixedPages, hasCover: bool, l: LessonData)
    requires l in AllLessons(s) && InBook(l, content)
    ensures Contains(TocBody(s), TocLink(Filename(l)))
    ensures TocPage(s).fileName == "Text/toc_page.xhtml"
    ensures LessonPage(l, content) in LessonsOf(Spine(s, content, fixed, hasCover))
    ensures LessonPage(l, content).fileName == "Text/" + Filename(l)
  {
    var i, k := LessonPosition(s, l);
    TocShowsLesson(s, i, k);
    TocItemLinks(l);
    ContainsTrans(TocBody(s), TocItem(l), TocLink(Filename(l)));
    SpineLessons(s, content, fixed, hasCover);
    InBookListed(AllLessons(s), content, l);
    TocPageFile(s);
    AppendAssoc3("Text/", Id(l), ".xhtml");
  }

  lemma TocPageFile(s: Sections)
    ensures TocPage(s).fileName == "Text/toc_page.xhtml"
  {
  }

  lemma {:induction false} LessonPosition(s: Sections, l: LessonData) returns (i: int, k: int)
    requires l in AllLessons(s)
    ensures 0 <= i < |s| && 0 <= k < |s[i].1| && s[i].1[k] == l
  {
    var init := s[..|s| - 1];
    if l in AllLessons(init) {
      i, k := LessonPosition(init, l);
      assert s[i] == init[i];
    } else {
      i := |s| - 1;
      assert l in s[i].1;
      k :| 0 <= k < |s[i].1| && s[i].1[k] == l;
    }
  }

  lemma {:induction false} InBookListed(ls: seq<LessonData>, content: map<string, string>, l: LessonData)
    requires l in ls && InBook(l, content)
    ensures LessonPage(l, content) in LessonPages(ls, content)
  {
    var init := ls[..|ls| - 1];
    if l == ls[|ls| - 1] {
    } else {
      assert l in init;
      InBookListed(init, content, l);
    }
  }
}
