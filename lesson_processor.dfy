/** The formatting of one lesson (or the glossary) page: heading levels
    shift down by one, the first heading becomes the chapter title inside a
    `<header>` block, the common paragraph and link formatting runs, and the
    footnotes move into a fixed footer after the body. */
module LessonProcessor {
  import opened Wrappers
  import opened Strings
  import opened Markup
  import TextProcessor

  // ---------------------------------------------------------------------
  // Heading levels
  // ---------------------------------------------------------------------

  /** The level of a tag named `h1` .. `h6`. */
  function Level(t: string): (r: Option<int>)
    ensures r.Some? ==> 1 <= r.value <= 6
  {
    if |t| == 2 && t[0] == 'h' && '1' <= t[1] <= '6' then Some(t[1] as int - '0' as int) else None
  }

  function HeadingTag(k: int): (r: string)
    requires 1 <= k <= 6
    ensures Level(r) == Some(k)
  {
    ['h', ('0' as int + k) as char]
  }

  lemma LevelNames(t: string)
    requires Level(t).Some?
    ensures t == HeadingTag(Level(t).value)
  {
  }

  function Min(a: int, b: int): int
  {
    if a < b then a else b
  }

  /** `min(i + 1, 6)` for the heading `h{i}`, `i` from 2 to 6; other tags,
      `h1` among them, keep their name. */
  function DemoteTag(t: string): (r: string)
  {
    match Level(t)
    case Some(k) => if k >= 2 then HeadingTag(Min(k + 1, 6)) else t
    case None => t
  }

  /** h2 -> h3, h3 -> h4, h4 -> h5, h5 -> h6, h6 -> h6; h1 stays; nothing
      exceeds h6 and nothing but h1 lands on h1 or h2. */
  lemma DemoteTagTable(t: string)
    ensures Level(t) == Some(1) ==> DemoteTag(t) == "h1"
    ensures Level(t).Some? && 2 <= Level(t).value <= 5 ==> Level(DemoteTag(t)) == Some(Level(t).value + 1)
    ensures Level(t) == Some(6) ==> DemoteTag(t) == "h6"
    ensures Level(t).None? ==> DemoteTag(t) == t
    ensures DemoteTag(t) == "h1" <==> t == "h1"
    ensures DemoteTag(t) != "h2"
  {
    if Level(t).Some? {
      LevelNames(t);
    }
    assert Level("h2") == Some(2);
  }

  /** Every element's tag under `f`; text and attributes stay. */
  function MapTags(ns: seq<Node>, f: string -> string): (r: seq<Node>)
    ensures |r| == |ns|
  {
    if ns == [] then []
    else
      (match ns[0]
       case Text(_) => [ns[0]]
       case Element(t, a, cs) => [Element(f(t), a, MapTags(cs, f))])
      + MapTags(ns[1..], f)
  }

  lemma {:induction false} MapTagsCompose(ns: seq<Node>, f: string -> string, g: string -> string, h: string -> string)
    requires forall t :: h(t) == g(f(t))
    ensures MapTags(MapTags(ns, f), g) == MapTags(ns, h)
  {
    if ns != [] {
      MapTagsCompose(ns[1..], f, g, h);
      if ns[0].Element? {
        MapTagsCompose(ns[0].children, f, g, h);
      }
      assert MapTags(ns, f)[1..] == MapTags(ns[1..], f);
    }
  }

  lemma {:induction false} MapTagsIdentity(ns: seq<Node>, f: string -> string)
    requires forall t :: f(t) == t
    ensures MapTags(ns, f) == ns
  {
    if ns != [] {
      MapTagsIdentity(ns[1..], f);
      if ns[0].Element? {
        MapTagsIdentity(ns[0].children, f);
      }
    }
  }

  /** Renaming keeps the text. */
  lemma {:induction false} MapTagsKeepsText(ns: seq<Node>, f: string -> string)
    ensures TextOf(MapTags(ns, f)) == TextOf(ns)
  {
    if ns != [] {
      MapTagsKeepsText(ns[1..], f);
      if ns[0].Element? {
        MapTagsKeepsText(ns[0].children, f);
      }
      assert MapTags(ns, f)[1..] == MapTags(ns[1..], f);
    }
  }

  /** The heading demotion of a whole page, each heading moved once. */
  function Demote(ns: seq<Node>): seq<Node>
  {
    MapTags(ns, DemoteTag)
  }

  /** After the passes for levels 6 down to `level + 1`: those headings
      are demoted, the rest untouched. */
  function DoneAbove(t: string, level: int): string
  {
    match Level(t)
    case Some(k) => if k > level then HeadingTag(Min(k + 1, 6)) else t
    case None => t
  }

  /** `tag.name = f"h{new_level}"` for every `h{i}`. */
  function Rename(from: string, to: string): string -> string
  {
    t => if t == from then to else t
  }

  /** The pass for `level` moves exactly the headings still at `level`: no
      heading demoted by an earlier pass is at that level. */
  lemma PassStep(t: string, level: int)
    requires 2 <= level <= 6
    ensures Rename(HeadingTag(level), HeadingTag(Min(level + 1, 6)))(DoneAbove(t, level)) == DoneAbove(t, level - 1)
  {
    if Level(t).Some? {
      LevelNames(t);
      if Level(t).value > level {
        assert Level(DoneAbove(t, level)) == Some(Min(Level(t).value + 1, 6));
      }
    }
  }

  /** `_adjust_heading_levels(content)`: for `i` from 6 down to 2, every
      `h{i}` below the root becomes `h{min(i + 1, 6)}`. */
  method AdjustHeadingLevels(doc: Document)
    requires doc.root.Element?
    modifies doc
    ensures doc.root == Element(old(doc.root.tag), old(doc.root.attrs), Demote(old(doc.root.children)))
  {
    ghost var cs := doc.root.children;
    MapTagsIdentity(cs, t => DoneAbove(t, 6));
    var level := 6;
    while level > 1
      invariant 1 <= level <= 6
      invariant doc.root == Element(old(doc.root.tag), old(doc.root.attrs), MapTags(cs, t => DoneAbove(t, level)))
    {
      var rename := Rename(HeadingTag(level), HeadingTag(Min(level + 1, 6)));
      forall t ensures DoneAbove(t, level - 1) == rename(DoneAbove(t, level)) {
        PassStep(t, level);
      }
      MapTagsCompose(cs, t => DoneAbove(t, level), rename, t => DoneAbove(t, level - 1));
      doc.root := Element(doc.root.tag, doc.root.attrs, MapTags(doc.root.children, rename));
      level := level - 1;
    }
    MapTagsCompose(cs, t => t, t => DoneAbove(t, 1), DemoteTag);
    MapTagsIdentity(cs, t => t);
  }

  /** After demotion no `h2` is left: that level is free for the chapter
      title. */
  lemma {:induction false} DemoteLeavesNoH2(ns: seq<Node>)
    ensures FindAll(Demote(ns), TagIs("h2")) == []
  {
    if ns != [] {
      DemoteLeavesNoH2(ns[1..]);
      if ns[0].Element? {
        DemoteLeavesNoH2(ns[0].children);
        DemoteTagTable(ns[0].tag);
      }
      assert Demote(ns)[1..] == Demote(ns[1..]);
    }
  }

  // ---------------------------------------------------------------------
  // The chapter header
  // ---------------------------------------------------------------------

  /** `chapter: str | int` */
  datatype Chapter = ChapterText(s: string) | ChapterNumber(n: int)

  /** `f"{chapter}"` */
  function ChapterString(c: Chapter): string
  {
    match c
    case ChapterText(s) => s
    case ChapterNumber(n) => IntToString(n)
  }

  /** `chapter[1:-1]` for a string (first and last characters dropped,
      empty when there are fewer than three), the number itself otherwise. */
  function ChapterId(c: Chapter): (r: string)
    ensures c.ChapterText? && |c.s| >= 2 ==> |r| == |c.s| - 2 && forall i :: 0 <= i < |r| ==> r[i] == c.s[i + 1]
    ensures c.ChapterText? && |c.s| < 2 ==> r == ""
  {
    match c
    case ChapterText(s) => if |s| >= 2 then s[1..|s| - 1] else ""
    case ChapterNumber(n) => IntToString(n)
  }

  lemma ChapterIdExample()
    ensures "chapter-" + ChapterId(ChapterText("第12課")) == "chapter-12"
  {
  }

  const GlossaryEdit: Edit := Edit(Some("h1"), "id", "glossary")

  function ChapterEdit(c: Chapter): Edit
  {
    Edit(Some("h2"), "id", "chapter-" + ChapterId(c))
  }

  /** `<header><p class="chapter">{chapter}</p>{first_header}</header>` */
  function HeaderMarkup(c: Chapter, heading: Node): string
  {
    "<header><p class=\"chapter\">" + ChapterString(c) + "</p>" + Serialize([heading]) + "</header>"
  }

  /** What `_setup_headers` leaves as the root's children: nothing changes
      without a heading; a glossary's first heading becomes `h1` with id
      `glossary`; otherwise the first heading, renamed `h2` with the chapter
      id, is re-parsed inside a new `<header>` at the front and taken out of
      the page. */
  function HeadersSetUp(cs: seq<Node>, c: Chapter, isGlossary: bool, parse: string -> seq<Node>): seq<Node>
  {
    match FindFirst(cs, AnyHeading)
    case None => cs
    case Some(first) =>
      if isGlossary then UpdateFirst(cs, AnyHeading, GlossaryEdit)
      else
        var e := ChapterEdit(c);
        parse(HeaderMarkup(c, ApplyEdit(e, first))) + RemoveFirst(UpdateFirst(cs, AnyHeading, e), AnyHeading)
  }

  /** `_setup_headers(content, title, chapter, is_glossary)` */
  method SetupHeaders(doc: Document, c: Chapter, isGlossary: bool, parse: string -> seq<Node>)
    requires doc.root.Element?
    modifies doc
    ensures doc.root == Element(old(doc.root.tag), old(doc.root.attrs), HeadersSetUp(old(doc.root.children), c, isGlossary, parse))
  {
    var first := FindFirst(doc.root.children, AnyHeading);
    if first.None? {
      return;
    }
    if isGlossary {
      doc.root := Element(doc.root.tag, doc.root.attrs, UpdateFirst(doc.root.children, AnyHeading, GlossaryEdit));
    } else {
      var e := ChapterEdit(c);
      var edited := UpdateFirst(doc.root.children, AnyHeading, e);
      var header := parse(HeaderMarkup(c, ApplyEdit(e, first.value)));
      doc.root := Element(doc.root.tag, doc.root.attrs, header + edited);
      doc.root := Element(doc.root.tag, doc.root.attrs, header + RemoveFirst(edited, AnyHeading));
    }
  }

  /** With no heading the page is left as it is. */
  lemma HeadersWithoutHeading(cs: seq<Node>, c: Chapter, isGlossary: bool, parse: string -> seq<Node>)
    requires FindAll(cs, AnyHeading) == []
    ensures HeadersSetUp(cs, c, isGlossary, parse) == cs
  {
    FindFirstIsHead(cs, AnyHeading);
  }

  /** For a glossary, the headings in document order are the first one,
      now `h1` with id `glossary`, then all the others unchanged. */
  lemma GlossaryHeadings(cs: seq<Node>, parse: string -> seq<Node>)
    requires FindAll(cs, AnyHeading) != []
    ensures var hs := FindAll(cs, AnyHeading);
      FindAll(HeadersSetUp(cs, ChapterText(""), true, parse), AnyHeading) == [ApplyEdit(GlossaryEdit, hs[0])] + hs[1..]
    ensures var h := FindAll(HeadersSetUp(cs, ChapterText(""), true, parse), AnyHeading)[0];
      h.Element? && h.tag == "h1" && GetAttr(h.attrs, "id") == Some("glossary")
  {
    FindFirstIsHead(cs, AnyHeading);
    FindAllMatches(cs, AnyHeading);
    UpdateFirstFindAll(cs, AnyHeading, GlossaryEdit);
  }

  /** Editing the first match so that it still matches, then extracting
      the first match, removes the node that was edited. */
  lemma {:induction false} RemoveEdited(ns: seq<Node>, m: Matcher, e: Edit)
    requires FindFirst(ns, m).Some? && Matches(m, ApplyEdit(e, FindFirst(ns, m).value))
    ensures FindFirst(UpdateFirst(ns, m, e), m).Some?
    ensures RemoveFirst(UpdateFirst(ns, m, e), m) == RemoveFirst(ns, m)
  {
    var n := ns[0];
    if Matches(m, n) {
      assert UpdateFirst(ns, m, e) == [ApplyEdit(e, n)] + ns[1..];
    } else if n.Element? && FindFirst(n.children, m).Some? {
      RemoveEdited(n.children, m, e);
      var n' := Element(n.tag, n.attrs, UpdateFirst(n.children, m, e));
      assert UpdateFirst(ns, m, e) == [n'] + ns[1..];
      assert !Matches(m, n');
    } else {
      RemoveEdited(ns[1..], m, e);
      assert UpdateFirst(ns, m, e) == [n] + UpdateFirst(ns[1..], m, e);
      assert ([n] + UpdateFirst(ns[1..], m, e))[1..] == UpdateFirst(ns[1..], m, e);
    }
  }

  /** For a lesson, the page becomes the parsed header block followed by
      the original page without its first heading; the heading inside the
      block is the first heading as `h2` with id `chapter-` and the
      chapter id. */
  lemma ChapterHeader(cs: seq<Node>, c: Chapter, parse: string -> seq<Node>)
    requires FindFirst(cs, AnyHeading).Some?
    ensures var first := FindFirst(cs, AnyHeading).value;
      var h := ApplyEdit(ChapterEdit(c), first);
      HeadersSetUp(cs, c, false, parse) == parse(HeaderMarkup(c, h)) + RemoveFirst(cs, AnyHeading)
      && h.tag == "h2" && GetAttr(h.attrs, "id") == Some("chapter-" + ChapterId(c))
      && h.children == first.children
  {
    var first := FindFirst(cs, AnyHeading).value;
    assert Matches(AnyHeading, ApplyEdit(ChapterEdit(c), first));
    RemoveEdited(cs, AnyHeading, ChapterEdit(c));
  }

  // ---------------------------------------------------------------------
  // Footer and body
  // ---------------------------------------------------------------------

  const FootnotesList: Matcher := TagWithClass("ol", "wp-block-footnotes")
  const EmptyFooter: string := "<footer></footer>"
  const FooterOpen: string := "<hr/><footer class=\"footnote\">"
  const FooterClose: string := "</footer>"

  /** The footer that follows the body: the page's footnote list inside a
      footnote footer, or an empty footer. */
  function FooterMarkup(cs: seq<Node>): (r: string)
  {
    match FindFirst(cs, FootnotesList)
    case Some(notes) => FooterOpen + Serialize([notes]) + FooterClose
    case None => EmptyFooter
  }

  /** The page with the footnote list and then the first `<footer>` taken
      out. */
  function Detached(cs: seq<Node>): seq<Node>
  {
    RemoveFirst(RemoveFirst(cs, FootnotesList), TagIs("footer"))
  }

  /** The root after `_wrap_final_content`: renamed `body` with class
      `justified` (an old class is deleted first, so the new one comes
      last) and id `path_part` when it holds no `<body>`, else that body's
      class set to `justified`. */
  function FinalRoot(t: string, a: Attrs, cs: seq<Node>, pathPart: string): Node
  {
    if FindFirst(cs, TagIs("body")).None? then
      Element("body", SetAttr(SetAttr(DelAttr(a, "class"), "class", "justified"), "id", pathPart), cs)
    else
      Element(t, a, UpdateFirst(cs, TagIs("body"), Edit(None, "class", "justified")))
  }

  /** The footer is one of the two fixed forms, and names the footnotes
      exactly when the page has some. */
  lemma FooterForms(cs: seq<Node>)
    ensures FindFirst(cs, FootnotesList).None? <==> FooterMarkup(cs) == EmptyFooter
    ensures FindFirst(cs, FootnotesList).Some? ==>
      var f := FooterMarkup(cs);
      var n := Serialize([FindFirst(cs, FootnotesList).value]);
      StartsWith(f, FooterOpen) && f[|FooterOpen|..|f| - |FooterClose|] == n
  {
    if FindFirst(cs, FootnotesList).Some? {
      var n := Serialize([FindFirst(cs, FootnotesList).value]);
      Enclosed(FooterOpen, n, FooterClose);
      FooterLengths();
    }
  }

  lemma FooterLengths()
    ensures |FooterOpen| + |FooterClose| > |EmptyFooter|
  {
  }

  /** The body keeps its place in the tree and carries class `justified`;
      without a `<body>` descendant the root is that body, with id
      `path_part`. */
  lemma FinalRootBody(t: string, a: Attrs, cs: seq<Node>, pathPart: string)
    ensures var r := FinalRoot(t, a, cs, pathPart);
      FindFirst(cs, TagIs("body")).None? ==>
        r.tag == "body" && GetAttr(r.attrs, "class") == Some("justified") && GetAttr(r.attrs, "id") == Some(pathPart)
        && r.children == cs
    ensures var r := FinalRoot(t, a, cs, pathPart);
      FindFirst(cs, TagIs("body")).Some? ==>
        r.tag == t && r.attrs == a
        && FindAll(r.children, TagIs("body")) != []
        && var b := FindAll(r.children, TagIs("body"))[0];
        b.Element? && GetAttr(b.attrs, "class") == Some("justified") && b.children == FindFirst(cs, TagIs("body")).value.children
  {
    var e := Edit(None, "class", "justified");
    if FindFirst(cs, TagIs("body")).Some? {
      FindFirstIsHead(cs, TagIs("body"));
      FindAllMatches(cs, TagIs("body"));
      UpdateFirstFindAll(cs, TagIs("body"), e);
    }
  }

  /** Taking the footnote list out leaves one footnote list fewer, besides
      any nested in it. */
  lemma DetachedFootnotes(cs: seq<Node>)
    requires FindFirst(cs, FootnotesList).Some?
    ensures |FindAll(RemoveFirst(cs, FootnotesList), FootnotesList)| < |FindAll(cs, FootnotesList)|
  {
    RemoveFirstFindAll(cs, FootnotesList);
  }

  /** `_wrap_final_content(content, path_part)`: the body serialised with
      the footer after it, re-parsed. */
  method WrapFinalContent(doc: Document, pathPart: string, parse: string -> seq<Node>) returns (r: seq<Node>)
    requires doc.root.Element?
    modifies doc
    ensures doc.root == FinalRoot(old(doc.root.tag), old(doc.root.attrs), Detached(old(doc.root.children)), pathPart)
    ensures r == parse(Serialize([doc.root]) + FooterMarkup(old(doc.root.children)))
  {
    var footerContent := FooterMarkup(doc.root.children);
    var footnotes := FindFirst(doc.root.children, FootnotesList);
    if footnotes.Some? {
      doc.root := Element(doc.root.tag, doc.root.attrs, RemoveFirst(doc.root.children, FootnotesList));
    }
    doc.root := Element(doc.root.tag, doc.root.attrs, RemoveFirst(doc.root.children, TagIs("footer")));
    if FindFirst(doc.root.children, TagIs("body")).None? {
      var a := DelAttr(doc.root.attrs, "class");
      a := SetAttr(a, "class", "justified");
      a := SetAttr(a, "id", pathPart);
      doc.root := Element("body", a, doc.root.children);
    } else {
      doc.root := Element(doc.root.tag, doc.root.attrs,
        UpdateFirst(doc.root.children, TagIs("body"), Edit(None, "class", "justified")));
    }
    r := parse(Serialize([doc.root]) + footerContent);
  }

  // ---------------------------------------------------------------------
  // format_lesson
  // ---------------------------------------------------------------------

  /** The children after the non-glossary `<header>` removal, the heading
      demotion and the header set-up, in that order. */
  function Prepared(cs: seq<Node>, c: Chapter, isGlossary: bool, parse: string -> seq<Node>): seq<Node>
  {
    var cs1 := if !isGlossary then RemoveFirst(cs, TagIs("header")) else cs;
    HeadersSetUp(Demote(cs1), c, isGlossary, parse)
  }

  /** The page `format_lesson` returns: the steps in their fixed order,
      then the envelope. */
  function FormattedLesson(root: Node, title: string, c: Chapter, pathPart: string, isGlossary: bool,
                           parse: string -> seq<Node>): string
    requires root.Element?
  {
    var cs := TextProcessor.CommonFormatting(Prepared(root.children, c, isGlossary, parse), parse);
    var body := FinalRoot(root.tag, root.attrs, Detached(cs), pathPart);
    TextProcessor.WrapXhtml(Serialize(parse(Serialize([body]) + FooterMarkup(cs))), title)
  }

  /** `format_lesson(content, title, chapter, path_part, is_glossary)`: the
      caller's `content` is changed in place and ends as the wrapped body. */
  method FormatLesson(doc: Document, title: string, c: Chapter, pathPart: string, isGlossary: bool,
                      parse: string -> seq<Node>) returns (r: string)
    requires doc.root.Element?
    modifies doc
    ensures r == FormattedLesson(old(doc.root), title, c, pathPart, isGlossary, parse)
    ensures doc.root == FinalRoot(old(doc.root.tag), old(doc.root.attrs),
      Detached(TextProcessor.CommonFormatting(Prepared(old(doc.root.children), c, isGlossary, parse), parse)), pathPart)
  {
    if !isGlossary && FindFirst(doc.root.children, TagIs("header")).Some? {
      doc.root := Element(doc.root.tag, doc.root.attrs, RemoveFirst(doc.root.children, TagIs("header")));
    }
    AdjustHeadingLevels(doc);
    SetupHeaders(doc, c, isGlossary, parse);
    TextProcessor.ProcessCommonFormatting(doc, parse);
    var finalContent := WrapFinalContent(doc, pathPart, parse);
    r := TextProcessor.WrapXhtml(Serialize(finalContent), title);
  }

  /** For a lesson page the first `<header>` is gone before the chapter
      header is built: what the set-up sees is the demoted page without
      it. */
  lemma LessonDropsOldHeader(cs: seq<Node>, c: Chapter, parse: string -> seq<Node>)
    requires FindFirst(Demote(RemoveFirst(cs, TagIs("header"))), AnyHeading).Some?
    ensures var d := Demote(RemoveFirst(cs, TagIs("header")));
      Prepared(cs, c, false, parse) == parse(HeaderMarkup(c, ApplyEdit(ChapterEdit(c), FindFirst(d, AnyHeading).value)))
        + RemoveFirst(d, AnyHeading)
  {
    ChapterHeader(Demote(RemoveFirst(cs, TagIs("header"))), c, parse);
  }
}
