/** `HTMLCleaner`: the structural clean-up of a fetched page before it is
    formatted. Page furniture picked out by three CSS selectors goes, line
    breaks move out of links, links without text go, and (in a pass the
    cleaning never runs) stale addresses are rewritten from a fixed table. */
module ContentFetcher {
  import opened Wrappers
  import opened Strings
  import opened Markup

  // ---------------------------------------------------------------------
  // Removing unwanted elements
  // ---------------------------------------------------------------------

  /** `UNWANTED_SELECTORS`: `div.sharedaddy`, `nav.entry-breadcrumbs`,
      `div.wp-block-buttons`. */
  const UnwantedSelectors: seq<Matcher> := [
    TagWithClass("div", "sharedaddy"),
    TagWithClass("nav", "entry-breadcrumbs"),
    TagWithClass("div", "wp-block-buttons")
  ]

  /** Every node matching `m` decomposed, with everything below it. */
  function RemoveMatching(ns: seq<Node>, m: Matcher): (r: seq<Node>)
    ensures |r| <= |ns|
  {
    if ns == [] then []
    else
      (if Matches(m, ns[0]) then []
       else match ns[0]
         case Text(_) => [ns[0]]
         case Element(t, a, cs) => [Element(t, a, RemoveMatching(cs, m))])
      + RemoveMatching(ns[1..], m)
  }

  /** Nothing matching is left. */
  lemma {:induction false} RemoveMatchingLeavesNone(ns: seq<Node>, m: Matcher)
    ensures FindAll(RemoveMatching(ns, m), m) == []
  {
    if ns != [] {
      RemoveMatchingLeavesNone(ns[1..], m);
      var head := if Matches(m, ns[0]) then [] else match ns[0]
        case Text(_) => [ns[0]]
        case Element(t, a, cs) => [Element(t, a, RemoveMatching(cs, m))];
      if ns[0].Element? {
        RemoveMatchingLeavesNone(ns[0].children, m);
      }
      assert RemoveMatching(ns, m) == head + RemoveMatching(ns[1..], m);
      FindAllAppend(head, RemoveMatching(ns[1..], m), m);
    }
  }

  /** Removal creates no match of any other test. */
  lemma {:induction false} RemoveMatchingKeepsAbsent(ns: seq<Node>, m: Matcher, m': Matcher)
    requires FindAll(ns, m') == []
    ensures FindAll(RemoveMatching(ns, m), m') == []
  {
    if ns != [] {
      FindAllCons(ns[0], ns[1..], m');
      assert ns == [ns[0]] + ns[1..];
      RemoveMatchingKeepsAbsent(ns[1..], m, m');
      var head := if Matches(m, ns[0]) then [] else match ns[0]
        case Text(_) => [ns[0]]
        case Element(t, a, cs) => [Element(t, a, RemoveMatching(cs, m))];
      if ns[0].Element? {
        RemoveMatchingKeepsAbsent(ns[0].children, m, m');
      }
      assert RemoveMatching(ns, m) == head + RemoveMatching(ns[1..], m);
      FindAllAppend(head, RemoveMatching(ns[1..], m), m');
    }
  }

  /** On a page without a match, removal changes nothing. */
  lemma {:induction false} RemoveMatchingNone(ns: seq<Node>, m: Matcher)
    requires FindAll(ns, m) == []
    ensures RemoveMatching(ns, m) == ns
  {
    if ns != [] {
      FindAllCons(ns[0], ns[1..], m);
      assert ns == [ns[0]] + ns[1..];
      RemoveMatchingNone(ns[1..], m);
      if ns[0].Element? {
        RemoveMatchingNone(ns[0].children, m);
      }
    }
  }

  /** The selectors applied one after another, in list order. */
  function Removed(ns: seq<Node>, sels: seq<Matcher>): seq<Node>
  {
    if sels == [] then ns else RemoveMatching(Removed(ns, sels[..|sels| - 1]), sels[|sels| - 1])
  }

  /** After all the passes no element matches any of the selectors. */
  lemma {:induction false} RemovedLeavesNone(ns: seq<Node>, sels: seq<Matcher>)
    ensures forall j :: 0 <= j < |sels| ==> FindAll(Removed(ns, sels), sels[j]) == []
  {
    if sels != [] {
      var init := sels[..|sels| - 1];
      var last := sels[|sels| - 1];
      RemovedLeavesNone(ns, init);
      RemoveMatchingLeavesNone(Removed(ns, init), last);
      forall j | 0 <= j < |sels| - 1 ensures FindAll(Removed(ns, sels), sels[j]) == [] {
        assert sels[j] == init[j];
        RemoveMatchingKeepsAbsent(Removed(ns, init), last, sels[j]);
      }
    }
  }

  /** A page already free of the selectors is left alone. */
  lemma {:induction false} RemovedNone(ns: seq<Node>, sels: seq<Matcher>)
    requires forall j :: 0 <= j < |sels| ==> FindAll(ns, sels[j]) == []
    ensures Removed(ns, sels) == ns
  {
    if sels != [] {
      RemovedNone(ns, sels[..|sels| - 1]);
      RemoveMatchingNone(ns, sels[|sels| - 1]);
    }
  }

  /** `_remove_unwanted_elements(content_div)`: for each selector in turn,
      every element it selects is decomposed. */
  method RemoveUnwantedElements(doc: Document)
    requires doc.root.Element?
    modifies doc
    ensures doc.root == Element(old(doc.root.tag), old(doc.root.attrs), Removed(old(doc.root.children), UnwantedSelectors))
  {
    ghost var cs := doc.root.children;
    var sels := UnwantedSelectors;
    var i := 0;
    while i < |sels|
      invariant 0 <= i <= |sels|
      invariant doc.root == Element(old(doc.root.tag), old(doc.root.attrs), Removed(cs, sels[..i]))
    {
      RemovedStep(cs, sels, i);
      doc.root := Element(doc.root.tag, doc.root.attrs, RemoveMatching(doc.root.children, sels[i]));
      i := i + 1;
    }
    assert sels[..i] == sels;
  }

  lemma RemovedStep(ns: seq<Node>, sels: seq<Matcher>, i: nat)
    requires i < |sels|
    ensures Removed(ns, sels[..i + 1]) == RemoveMatching(Removed(ns, sels[..i]), sels[i])
  {
    assert sels[..i + 1][..i] == sels[..i];
  }

  // ---------------------------------------------------------------------
  // Line breaks out of links
  // ---------------------------------------------------------------------

  const BrTag: Matcher := TagIs("br")
  const NewBr: Node := Element("br", [], [])

  function Brs(k: nat): (r: seq<Node>)
    ensures |r| == k && forall i :: 0 <= i < k ==> r[i] == NewBr
  {
    seq(k, i => NewBr)
  }

  /** `_fix_br_tags_in_links`: every `<br>` below a link is decomposed and,
      for each, a fresh `<br/>` goes right after the link. The outermost
      link of a nesting takes all the breaks, so the inner ones find none. */
  function HoistBr(ns: seq<Node>): (r: seq<Node>)
  {
    if ns == [] then []
    else
      (match ns[0]
       case Text(_) => [ns[0]]
       case Element(t, a, cs) =>
         if t == "a" then [Element(t, a, RemoveMatching(cs, BrTag))] + Brs(|FindAll(cs, BrTag)|)
         else [Element(t, a, HoistBr(cs))])
      + HoistBr(ns[1..])
  }

  /** No link anywhere in `ns` has a `<br>` below it. */
  predicate NoBrInLinks(ns: seq<Node>)
  {
    forall i :: 0 <= i < |ns| ==> match ns[i]
      case Text(_) => true
      case Element(t, _, cs) => (t == "a" ==> FindAll(cs, BrTag) == []) && NoBrInLinks(cs)
  }

  /** The condition `NoBrInLinks` puts on one node. */
  predicate NoBrInLink(n: Node)
  {
    match n
    case Text(_) => true
    case Element(t, _, cs) => (t == "a" ==> FindAll(cs, BrTag) == []) && NoBrInLinks(cs)
  }

  lemma NoBrInLinksCons(n: Node, rest: seq<Node>)
    ensures NoBrInLinks([n] + rest) <==> NoBrInLinks(rest) && NoBrInLink(n)
  {
    var s := [n] + rest;
    assert s[0] == n;
    assert forall i :: 0 <= i < |rest| ==> s[i + 1] == rest[i];
    if NoBrInLinks(s) {
      forall i | 0 <= i < |rest| ensures NoBrInLink(rest[i]) {
        assert NoBrInLink(s[i + 1]);
      }
      assert NoBrInLink(s[0]);
    }
    if NoBrInLinks(rest) && NoBrInLink(n) {
      forall i | 0 <= i < |s| ensures NoBrInLink(s[i]) {
        if i > 0 {
          assert s[i] == rest[i - 1];
        }
      }
    }
  }

  lemma {:induction false} NoBrInLinksAppend(xs: seq<Node>, ys: seq<Node>)
    requires NoBrInLinks(xs) && NoBrInLinks(ys)
    ensures NoBrInLinks(xs + ys)
  {
    var s := xs + ys;
    forall i | 0 <= i < |s| ensures match s[i]
      case Text(_) => true
      case Element(t, _, cs) => (t == "a" ==> FindAll(cs, BrTag) == []) && NoBrInLinks(cs) {
      if i < |xs| {
        assert s[i] == xs[i];
      } else {
        assert s[i] == ys[i - |xs|];
      }
    }
  }

  /** Without any `<br>` there is no `<br>` in a link. */
  lemma {:induction false} NoBrAtAll(ns: seq<Node>)
    requires FindAll(ns, BrTag) == []
    ensures NoBrInLinks(ns)
  {
    if ns != [] {
      FindAllCons(ns[0], ns[1..], BrTag);
      assert ns == [ns[0]] + ns[1..];
      NoBrAtAll(ns[1..]);
      if ns[0].Element? {
        NoBrAtAll(ns[0].children);
      }
      NoBrInLinksCons(ns[0], ns[1..]);
    }
  }

  /** The hoisting known by its head: one link or element, then the rest. */
  function HoistHead(n: Node): seq<Node>
  {
    match n
    case Text(_) => [n]
    case Element(t, a, cs) =>
      if t == "a" then [Element(t, a, RemoveMatching(cs, BrTag))] + Brs(|FindAll(cs, BrTag)|)
      else [Element(t, a, HoistBr(cs))]
  }

  lemma HoistUnfold(ns: seq<Node>)
    requires ns != []
    ensures HoistBr(ns) == HoistHead(ns[0]) + HoistBr(ns[1..])
  {
  }

  lemma {:induction false} BrsHaveNoLinks(k: nat)
    ensures NoBrInLinks(Brs(k))
    ensures FindAll(Brs(k), BrTag) == Brs(k)
  {
    if k > 0 {
      BrsHaveNoLinks(k - 1);
      assert Brs(k) == [NewBr] + Brs(k - 1);
      NoBrInLinksCons(NewBr, Brs(k - 1));
      FindAllCons(NewBr, Brs(k - 1), BrTag);
    }
  }

  /** After hoisting no link holds a `<br>`. */
  lemma {:induction false} HoistLeavesNoBr(ns: seq<Node>)
    ensures NoBrInLinks(HoistBr(ns))
  {
    if ns != [] {
      HoistUnfold(ns);
      HoistLeavesNoBr(ns[1..]);
      var n := ns[0];
      match n
      case Text(_) =>
        NoBrInLinksCons(n, []);
      case Element(t, a, cs) =>
        if t == "a" {
          var cs' := RemoveMatching(cs, BrTag);
          RemoveMatchingLeavesNone(cs, BrTag);
          NoBrAtAll(cs');
          NoBrInLinksCons(Element(t, a, cs'), []);
          BrsHaveNoLinks(|FindAll(cs, BrTag)|);
          NoBrInLinksAppend([Element(t, a, cs')], Brs(|FindAll(cs, BrTag)|));
        } else {
          HoistLeavesNoBr(cs);
          NoBrInLinksCons(Element(t, a, HoistBr(cs)), []);
        }
      NoBrInLinksAppend(HoistHead(n), HoistBr(ns[1..]));
    }
  }

  /** Stated over every link `find_all("a")` lists. */
  lemma {:induction false} NoBrInAnyLink(ns: seq<Node>)
    requires NoBrInLinks(ns)
    ensures forall x :: x in FindAll(ns, TagIs("a")) ==> x.Element? && FindAll(x.children, BrTag) == []
  {
    if ns != [] {
      NoBrInLinksCons(ns[0], ns[1..]);
      assert ns == [ns[0]] + ns[1..];
      FindAllCons(ns[0], ns[1..], TagIs("a"));
      NoBrInAnyLink(ns[1..]);
      if ns[0].Element? {
        NoBrInAnyLink(ns[0].children);
      }
    }
  }

  /** Every `<br>` taken out of a link is put back after it: the page has
      as many `<br>` elements as before. */
  lemma {:induction false} HoistKeepsBrCount(ns: seq<Node>)
    ensures |FindAll(HoistBr(ns), BrTag)| == |FindAll(ns, BrTag)|
  {
    if ns != [] {
      HoistUnfold(ns);
      HoistKeepsBrCount(ns[1..]);
      FindAllAppend(HoistHead(ns[0]), HoistBr(ns[1..]), BrTag);
      FindAllCons(ns[0], ns[1..], BrTag);
      assert ns == [ns[0]] + ns[1..];
      match ns[0]
      case Text(_) =>
        FindAllCons(ns[0], [], BrTag);
      case Element(t, a, cs) =>
        if t == "a" {
          var cs' := RemoveMatching(cs, BrTag);
          RemoveMatchingLeavesNone(cs, BrTag);
          FindAllCons(Element(t, a, cs'), [], BrTag);
          BrsHaveNoLinks(|FindAll(cs, BrTag)|);
          FindAllAppend([Element(t, a, cs')], Brs(|FindAll(cs, BrTag)|), BrTag);
        } else {
          HoistKeepsBrCount(cs);
          FindAllCons(Element(t, a, HoistBr(cs)), [], BrTag);
        }
    }
  }

  /** Every `<br>` below `ns` is empty, as html.parser builds them. */
  predicate EmptyBrs(ns: seq<Node>)
  {
    forall i :: 0 <= i < |ns| ==> match ns[i]
      case Text(_) => true
      case Element(t, _, cs) => (t == "br" ==> TextOf(cs) == []) && EmptyBrs(cs)
  }

  lemma {:induction false} TextOfAppend(xs: seq<Node>, ys: seq<Node>)
    ensures TextOf(xs + ys) == TextOf(xs) + TextOf(ys)
  {
    if xs == [] {
      assert xs + ys == ys;
    } else {
      assert (xs + ys)[1..] == xs[1..] + ys;
      TextOfAppend(xs[1..], ys);
    }
  }

  lemma {:induction false} RemoveBrKeepsText(ns: seq<Node>)
    requires EmptyBrs(ns)
    ensures TextOf(RemoveMatching(ns, BrTag)) == TextOf(ns)
  {
    if ns != [] {
      assert EmptyBrs(ns[1..]) by {
        forall i | 0 <= i < |ns| - 1 ensures ns[1..][i] == ns[i + 1] {
        }
      }
      RemoveBrKeepsText(ns[1..]);
      var head := if Matches(BrTag, ns[0]) then [] else match ns[0]
        case Text(_) => [ns[0]]
        case Element(t, a, cs) => [Element(t, a, RemoveMatching(cs, BrTag))];
      if ns[0].Element? {
        RemoveBrKeepsText(ns[0].children);
      }
      assert RemoveMatching(ns, BrTag) == head + RemoveMatching(ns[1..], BrTag);
      TextOfAppend(head, RemoveMatching(ns[1..], BrTag));
    }
  }

  lemma {:induction false} BrsHaveNoText(k: nat)
    ensures TextOf(Brs(k)) == []
  {
    if k > 0 {
      BrsHaveNoText(k - 1);
      assert Brs(k) == [NewBr] + Brs(k - 1);
      TextOfAppend([NewBr], Brs(k - 1));
    }
  }

  lemma EmptyBrsSplit(ns: seq<Node>)
    requires ns != [] && EmptyBrs(ns)
    ensures EmptyBrs(ns[1..])
    ensures ns[0].Element? ==> EmptyBrs(ns[0].children)
  {
    forall i | 0 <= i < |ns| - 1 ensures ns[1..][i] == ns[i + 1] {
    }
  }

  /** A link's text survives its `<br>` elements moving out. */
  lemma LinkHoistKeepsText(a: Attrs, cs: seq<Node>)
    requires EmptyBrs(cs)
    ensures TextOf(HoistHead(Element("a", a, cs))) == TextOf(cs)
  {
    var k := |FindAll(cs, BrTag)|;
    var link := Element("a", a, RemoveMatching(cs, BrTag));
    RemoveBrKeepsText(cs);
    BrsHaveNoText(k);
    TextOfAppend([link], Brs(k));
    assert TextOf([link]) == TextOf(link.children) + TextOf([]);
  }

  /** Moving empty `<br>` elements keeps every link's text and the page's
      text as they were. */
  lemma {:induction false} HoistKeepsText(ns: seq<Node>)
    requires EmptyBrs(ns)
    ensures TextOf(HoistBr(ns)) == TextOf(ns)
  {
    if ns != [] {
      EmptyBrsSplit(ns);
      HoistUnfold(ns);
      HoistKeepsText(ns[1..]);
      TextOfAppend(HoistHead(ns[0]), HoistBr(ns[1..]));
      assert ns == [ns[0]] + ns[1..];
      TextOfAppend([ns[0]], ns[1..]);
      match ns[0]
      case Text(_) =>
      case Element(t, a, cs) =>
        if t == "a" {
          LinkHoistKeepsText(a, cs);
        } else {
          HoistKeepsText(cs);
          assert TextOf([Element(t, a, HoistBr(cs))]) == TextOf(HoistBr(cs)) + TextOf([]);
        }
      assert TextOf([ns[0]]) == (match ns[0] case Text(s) => s case Element(_, _, cs) => TextOf(cs)) + TextOf([]);
    }
  }

  /** A page with no `<br>` in a link is left alone. */
  lemma {:induction false} HoistNone(ns: seq<Node>)
    requires NoBrInLinks(ns)
    ensures HoistBr(ns) == ns
  {
    if ns != [] {
      NoBrInLinksCons(ns[0], ns[1..]);
      assert ns == [ns[0]] + ns[1..];
      HoistUnfold(ns);
      HoistNone(ns[1..]);
      match ns[0]
      case Text(_) =>
      case Element(t, a, cs) =>
        if t == "a" {
          RemoveMatchingNone(cs, BrTag);
          assert Brs(0) == [];
        } else {
          HoistNone(cs);
        }
    }
  }

  /** Hoisting creates no element a test picks out, unless the test picks
      out a bare `<br>`. */
  lemma {:induction false} HoistKeepsAbsent(ns: seq<Node>, m: Matcher)
    requires FindAll(ns, m) == [] && !Matches(m, NewBr)
    ensures FindAll(HoistBr(ns), m) == []
  {
    if ns != [] {
      FindAllCons(ns[0], ns[1..], m);
      assert ns == [ns[0]] + ns[1..];
      HoistUnfold(ns);
      HoistKeepsAbsent(ns[1..], m);
      FindAllAppend(HoistHead(ns[0]), HoistBr(ns[1..]), m);
      match ns[0]
      case Text(_) =>
        FindAllCons(ns[0], [], m);
      case Element(t, a, cs) =>
        if t == "a" {
          var k := |FindAll(cs, BrTag)|;
          RemoveMatchingKeepsAbsent(cs, BrTag, m);
          FindAllCons(Element(t, a, RemoveMatching(cs, BrTag)), [], m);
          AbsentInBrs(k, m);
          FindAllAppend([Element(t, a, RemoveMatching(cs, BrTag))], Brs(k), m);
        } else {
          HoistKeepsAbsent(cs, m);
          FindAllCons(Element(t, a, HoistBr(cs)), [], m);
        }
    }
  }

  lemma {:induction false} AbsentInBrs(k: nat, m: Matcher)
    requires !Matches(m, NewBr)
    ensures FindAll(Brs(k), m) == []
  {
    if k > 0 {
      AbsentInBrs(k - 1, m);
      assert Brs(k) == [NewBr] + Brs(k - 1);
      FindAllCons(NewBr, Brs(k - 1), m);
    }
  }

  /** `_fix_br_tags_in_links(content_div)` */
  method FixBrTagsInLinks(doc: Document)
    requires doc.root.Element?
    modifies doc
    ensures doc.root == Element(old(doc.root.tag), old(doc.root.attrs), HoistBr(old(doc.root.children)))
    ensures NoBrInLinks(doc.root.children)
  {
    HoistLeavesNoBr(doc.root.children);
    doc.root := Element(doc.root.tag, doc.root.attrs, HoistBr(doc.root.children));
  }

  // ---------------------------------------------------------------------
  // Links without text
  // ---------------------------------------------------------------------

  predicate EmptyLink(n: Node)
  {
    n.Element? && n.tag == "a" && StrippedText(n.children) == []
  }

  /** `_remove_empty_links`: every link whose stripped text is empty is
      decomposed; links with text stay, with any empty link inside them
      gone. */
  function DropEmptyLinks(ns: seq<Node>): (r: seq<Node>)
  {
    if ns == [] then []
    else
      (if EmptyLink(ns[0]) then []
       else match ns[0]
         case Text(_) => [ns[0]]
         case Element(t, a, cs) => [Element(t, a, DropEmptyLinks(cs))])
      + DropEmptyLinks(ns[1..])
  }

  function DropHead(n: Node): seq<Node>
  {
    if EmptyLink(n) then []
    else match n
      case Text(_) => [n]
      case Element(t, a, cs) => [Element(t, a, DropEmptyLinks(cs))]
  }

  lemma DropUnfold(ns: seq<Node>)
    requires ns != []
    ensures DropEmptyLinks(ns) == DropHead(ns[0]) + DropEmptyLinks(ns[1..])
  {
  }

  /** Only text that strips to nothing goes. */
  lemma {:induction false} DropKeepsText(ns: seq<Node>)
    ensures StrippedText(DropEmptyLinks(ns)) == StrippedText(ns)
  {
    if ns != [] {
      DropUnfold(ns);
      DropKeepsText(ns[1..]);
      StrippedTextAppend(DropHead(ns[0]), DropEmptyLinks(ns[1..]));
      assert ns == [ns[0]] + ns[1..];
      StrippedTextAppend([ns[0]], ns[1..]);
      if ns[0].Element? {
        DropKeepsText(ns[0].children);
        assert StrippedText([ns[0]]) == StrippedText(ns[0].children) + StrippedText([]);
      }
    }
  }

  /** Every link in `ns` has text. */
  predicate NoEmptyLinks(ns: seq<Node>)
  {
    forall i :: 0 <= i < |ns| ==> match ns[i]
      case Text(_) => true
      case Element(t, _, cs) => (t == "a" ==> StrippedText(cs) != []) && NoEmptyLinks(cs)
  }

  lemma {:induction false} NoEmptyLinksAppend(xs: seq<Node>, ys: seq<Node>)
    requires NoEmptyLinks(xs) && NoEmptyLinks(ys)
    ensures NoEmptyLinks(xs + ys)
  {
    var s := xs + ys;
    forall i | 0 <= i < |s| ensures match s[i]
      case Text(_) => true
      case Element(t, _, cs) => (t == "a" ==> StrippedText(cs) != []) && NoEmptyLinks(cs) {
      if i < |xs| {
        assert s[i] == xs[i];
      } else {
        assert s[i] == ys[i - |xs|];
      }
    }
  }

  /** After the pass every link has text. */
  lemma {:induction false} DropLeavesNoEmpty(ns: seq<Node>)
    ensures NoEmptyLinks(DropEmptyLinks(ns))
  {
    if ns != [] {
      DropUnfold(ns);
      DropLeavesNoEmpty(ns[1..]);
      if ns[0].Element? && !EmptyLink(ns[0]) {
        DropLeavesNoEmpty(ns[0].children);
        DropKeepsText(ns[0].children);
      }
      NoEmptyLinksAppend(DropHead(ns[0]), DropEmptyLinks(ns[1..]));
    }
  }

  /** A page whose links all have text is left alone. */
  lemma {:induction false} DropNone(ns: seq<Node>)
    requires NoEmptyLinks(ns)
    ensures DropEmptyLinks(ns) == ns
  {
    if ns != [] {
      DropUnfold(ns);
      assert NoEmptyLinks(ns[1..]) by {
        forall i | 0 <= i < |ns| - 1 ensures ns[1..][i] == ns[i + 1] {
        }
      }
      DropNone(ns[1..]);
      if ns[0].Element? {
        DropNone(ns[0].children);
      }
    }
  }

  /** The links of `ns` that have text, counted through the tree. */
  function LinksWithText(ns: seq<Node>): nat
  {
    if ns == [] then 0
    else
      (match ns[0]
       case Text(_) => 0
       case Element(t, _, cs) => (if t == "a" && StrippedText(cs) != [] then 1 else 0) + LinksWithText(cs))
      + LinksWithText(ns[1..])
  }

  /** Below text that strips to nothing no link has text. */
  lemma {:induction false} NoTextNoLinks(ns: seq<Node>)
    requires StrippedText(ns) == []
    ensures LinksWithText(ns) == 0
  {
    if ns != [] {
      assert ns == [ns[0]] + ns[1..];
      StrippedTextAppend([ns[0]], ns[1..]);
      NoTextNoLinks(ns[1..]);
      if ns[0].Element? {
        assert StrippedText([ns[0]]) == StrippedText(ns[0].children) + StrippedText([]);
        NoTextNoLinks(ns[0].children);
      }
    }
  }

  /** The links left are exactly the links that had text. */
  lemma {:induction false} DropCountsLinks(ns: seq<Node>)
    ensures |FindAll(DropEmptyLinks(ns), TagIs("a"))| == LinksWithText(ns)
  {
    if ns != [] {
      DropUnfold(ns);
      DropCountsLinks(ns[1..]);
      FindAllAppend(DropHead(ns[0]), DropEmptyLinks(ns[1..]), TagIs("a"));
      match ns[0]
      case Text(_) =>
        FindAllCons(ns[0], [], TagIs("a"));
      case Element(t, a, cs) =>
        if EmptyLink(ns[0]) {
          NoTextNoLinks(cs);
        } else {
          DropCountsLinks(cs);
          DropKeepsText(cs);
          FindAllCons(Element(t, a, DropEmptyLinks(cs)), [], TagIs("a"));
        }
    }
  }

  /** Removal of nodes creates no match of any test. */
  lemma {:induction false} DropKeepsAbsent(ns: seq<Node>, m: Matcher)
    requires FindAll(ns, m) == []
    ensures FindAll(DropEmptyLinks(ns), m) == []
  {
    if ns != [] {
      FindAllCons(ns[0], ns[1..], m);
      assert ns == [ns[0]] + ns[1..];
      DropUnfold(ns);
      DropKeepsAbsent(ns[1..], m);
      FindAllAppend(DropHead(ns[0]), DropEmptyLinks(ns[1..]), m);
      if ns[0].Element? && !EmptyLink(ns[0]) {
        DropKeepsAbsent(ns[0].children, m);
        FindAllCons(DropHead(ns[0])[0], [], m);
        assert DropHead(ns[0]) == [DropHead(ns[0])[0]] + [];
      } else if ns[0].Text? {
        FindAllCons(ns[0], [], m);
      }
    }
  }

  lemma {:induction false} DropKeepsNoBr(ns: seq<Node>)
    requires NoBrInLinks(ns)
    ensures NoBrInLinks(DropEmptyLinks(ns))
  {
    if ns != [] {
      NoBrInLinksCons(ns[0], ns[1..]);
      assert ns == [ns[0]] + ns[1..];
      DropUnfold(ns);
      DropKeepsNoBr(ns[1..]);
      match ns[0]
      case Text(_) =>
        NoBrInLinksCons(ns[0], []);
      case Element(t, a, cs) =>
        if !EmptyLink(ns[0]) {
          DropKeepsNoBr(cs);
          if t == "a" {
            DropKeepsAbsent(cs, BrTag);
          }
          NoBrInLinksCons(Element(t, a, DropEmptyLinks(cs)), []);
        }
      NoBrInLinksAppend(DropHead(ns[0]), DropEmptyLinks(ns[1..]));
    }
  }

  /** A link holding only an image has no text and goes. */
  lemma ImageOnlyLinkDropped(a: Attrs, img: Attrs, rest: seq<Node>)
    ensures DropEmptyLinks([Element("a", a, [Element("img", img, [])])] + rest) == DropEmptyLinks(rest)
  {
    var link := Element("a", a, [Element("img", img, [])]);
    StrippedTextAppend([Element("img", img, [])], []);
    assert StrippedText(link.children) == [];
    DropUnfold([link] + rest);
    assert ([link] + rest)[1..] == rest;
  }

  /** `_remove_empty_links(content_div)` */
  method RemoveEmptyLinks(doc: Document)
    requires doc.root.Element?
    modifies doc
    ensures doc.root == Element(old(doc.root.tag), old(doc.root.attrs), DropEmptyLinks(old(doc.root.children)))
    ensures NoEmptyLinks(doc.root.children)
  {
    DropLeavesNoEmpty(doc.root.children);
    doc.root := Element(doc.root.tag, doc.root.attrs, DropEmptyLinks(doc.root.children));
  }

  // ---------------------------------------------------------------------
  // clean_structure
  // ---------------------------------------------------------------------

  /** The three steps in their order: remove, hoist, drop empty links. */
  function Cleaned(ns: seq<Node>): seq<Node>
  {
    DropEmptyLinks(HoistBr(Removed(ns, UnwantedSelectors)))
  }

  /** `clean_structure(content_div)`: the same root, cleaned in place. */
  method CleanStructure(doc: Document) returns (r: Document)
    requires doc.root.Element?
    modifies doc
    ensures r == doc
    ensures doc.root == Element(old(doc.root.tag), old(doc.root.attrs), Cleaned(old(doc.root.children)))
  {
    RemoveUnwantedElements(doc);
    FixBrTagsInLinks(doc);
    RemoveEmptyLinks(doc);
    r := doc;
  }

  /** What a cleaned page satisfies: nothing any selector picks, no `<br>`
      in a link, no link without text. */
  lemma CleanedShape(ns: seq<Node>)
    ensures var c := Cleaned(ns);
      (forall j :: 0 <= j < |UnwantedSelectors| ==> FindAll(c, UnwantedSelectors[j]) == [])
      && NoBrInLinks(c) && NoEmptyLinks(c)
  {
    forall j | 0 <= j < |UnwantedSelectors| ensures FindAll(Cleaned(ns), UnwantedSelectors[j]) == [] {
      CleanedLeavesNone(ns, j);
    }
    CleanedLinks(ns);
  }

  lemma CleanedLeavesNone(ns: seq<Node>, j: nat)
    requires j < |UnwantedSelectors|
    ensures FindAll(Cleaned(ns), UnwantedSelectors[j]) == []
  {
    var r := Removed(ns, UnwantedSelectors);
    var m := UnwantedSelectors[j];
    assert FindAll(r, m) == [] by {
      RemovedLeavesNone(ns, UnwantedSelectors);
    }
    HoistKeepsAbsent(r, m);
    DropKeepsAbsent(HoistBr(r), m);
  }

  lemma CleanedLinks(ns: seq<Node>)
    ensures NoBrInLinks(Cleaned(ns)) && NoEmptyLinks(Cleaned(ns))
  {
    var r := Removed(ns, UnwantedSelectors);
    HoistLeavesNoBr(r);
    DropKeepsNoBr(HoistBr(r));
    DropLeavesNoEmpty(HoistBr(r));
  }

  /** A second `clean_structure` changes nothing. */
  lemma CleanIdempotent(ns: seq<Node>)
    ensures Cleaned(Cleaned(ns)) == Cleaned(ns)
  {
    var c := Cleaned(ns);
    CleanedShape(ns);
    RemovedNone(c, UnwantedSelectors);
    HoistNone(c);
    DropNone(c);
  }

  // ---------------------------------------------------------------------
  // The stale-link table
  // ---------------------------------------------------------------------

  /** The site's own editor link, the table's last key, written with the
      `&amp;` entity. */
  const EditorLink: string := "https://imabi.org/wp-admin/post.php?post=221&amp;action=edit#cc836554-5736-4e48-aef9-2765fc98fcd9-link"

  /** `URL_REPLACEMENTS`: old imabi.net addresses to their imabi.org pages;
      an editor link of the site maps to the empty address. The dictionary
      is kept as its list of entries, in their order. */
  const UrlReplacements: seq<(string, string)> := [
    ("https://www.imabi.net/timei.htm",
     "https://imabi.org/counters-iii-time-part-i-%e6%97%a5-%e9%80%b1%e9%96%93-%e6%9c%88-%e5%b9%b4-etc/"),
    ("https://www.imabi.net/theseasons.htm",
     "https://imabi.org/the-seasons%e3%80%80%e6%98%a5%e5%a4%8f%e7%a7%8b%e5%86%ac/"),
    ("https://www.imabi.net/the-affix-gu",
     "https://imabi.org/the-verbal-affix-%ef%bd%9e%e3%81%90-%ef%bd%9e%e3%82%89%e3%81%90%e3%83%bb%e3%82%84%e3%81%90/"),
    ("https://www.imabi.net/nivskara.htm",
     "https://imabi.org/the-particle-%e3%81%8b%e3%82%89/"),
    ("https://www.imabi.net/l55theparticlenagara.htm",
     "https://imabi.org/the-particles-%e3%81%a4%e3%81%a4-%e3%81%aa%e3%81%8c%e3%82%89/"),
    ("https://www.imabi.net/l279yotsugana.htm",
     "https://imabi.org/yotsugana/"),
    ("https://www.imabi.net/l216nounspronouns.htm#825855643",
     "https://imabi.org/reflexive-pronouns/"),
    ("https://www.imabi.net/l171kimigayoiroha.htm",
     "https://imabi.org/the-%e5%90%9b%e3%81%8c%e4%bb%a3-%e3%81%84%e3%82%8d%e3%81%af/"),
    ("https://www.imabi.net/l12regularverbs.htm",
     "https://imabi.org/class-regular-verbs-i/"),
    ("https://www.imabi.net/l116numbersviicountersii.htm",
     "https://imabi.org/counters-vi/"),
    ("https://www.imabi.net/holidays",
     "https://imabi.org/holidays%e3%80%80%e6%97%a5%e6%9c%ac%e3%81%ae%e7%a5%9d%e6%97%a5/"),
    ("https://www.imabi.net/hatsuon.htm",
     "https://imabi.org/hatsuon/"),
    ("https://www.imabi.net/funeral.htm",
     "https://imabi.org/japanese-ceremony-customs-%e5%86%a0%e5%a9%9a%e8%91%ac%e7%a5%ad/"),
    ("https://www.imabi.net/dailyexpressionsii.htm",
     "https://imabi.org/the-particle-ka-%e3%81%8b-i-basic-questions/"),
    ("https://www.imabi.net/classicaladjectivesii.htm",
     "https://imabi.org/classical-adjectives-ii/"),
    ("https://www.imabi.net/barecoveredforms.htm",
     "https://imabi.org/bare-covered-forms/"),
    ("https://www.imabi.net/adjectivesii.htm",
     "https://imabi.org/adjectival-nouns-i%e3%80%80%e5%bd%a2%e5%ae%b9%e5%8b%95%e8%a9%9e%e2%91%a0/"),
    (EditorLink, "")
  ]

  /** The dictionary lookup: the value of the first entry whose key is `h`. */
  function Lookup(table: seq<(string, string)>, h: string): (r: Option<string>)
    ensures r.Some? <==> exists i :: 0 <= i < |table| && table[i].0 == h
    ensures r.Some? ==> exists i :: 0 <= i < |table| && table[i] == (h, r.value)
  {
    if table == [] then None
    else if table[0].0 == h then Some(table[0].1)
    else Lookup(table[1..], h)
  }

  /** The new `href` of a link: the table's value for a key, the same
      address otherwise. */
  function Remap(table: seq<(string, string)>, h: string): string
  {
    match Lookup(table, h)
    case Some(v) => v
    case None => h
  }

  /** `_replace_links` on one link's attributes, for a replacement table. */
  function RemapAnchorAttrs(table: seq<(string, string)>, a: Attrs): (r: Attrs)
    ensures GetAttr(r, "href") == match GetAttr(a, "href") case None => None case Some(h) => Some(Remap(table, h))
    ensures forall k :: k != "href" ==> GetAttr(r, k) == GetAttr(a, k)
  {
    match GetAttr(a, "href")
    case None => a
    case Some(h) =>
      match Lookup(table, h)
      case Some(v) => SetAttr(a, "href", v)
      case None => a
  }

  /** `_replace_links` over the tree: every `a` below the root. */
  function ReplaceLinks(table: seq<(string, string)>, ns: seq<Node>): (r: seq<Node>)
    ensures |r| == |ns|
  {
    if ns == [] then []
    else
      var head := match ns[0]
        case Text(_) => ns[0]
        case Element(t, a, cs) => Element(t, if t == "a" then RemapAnchorAttrs(table, a) else a, ReplaceLinks(table, cs));
      [head] + ReplaceLinks(table, ns[1..])
  }

  /** `_replace_links(content_div)` with `URL_REPLACEMENTS`;
      `clean_structure` never calls it. */
  method ReplaceLinksIn(doc: Document)
    requires doc.root.Element?
    modifies doc
    ensures doc.root == Element(old(doc.root.tag), old(doc.root.attrs), ReplaceLinks(UrlReplacements, old(doc.root.children)))
  {
    doc.root := Element(doc.root.tag, doc.root.attrs, ReplaceLinks(UrlReplacements, doc.root.children));
  }

  /** No key occurs twice. */
  predicate KeysUnique(table: seq<(string, string)>)
  {
    forall i, j :: 0 <= i < j < |table| ==> table[i].0 != table[j].0
  }

  /** No value is a key. */
  predicate ValuesNotKeys(table: seq<(string, string)>)
  {
    forall i, j :: 0 <= i < |table| && 0 <= j < |table| ==> table[i].1 != table[j].0
  }

  /** An address that is no key stays; one that is a key takes its
      entry's value, whichever entry it is when keys are unique. */
  lemma RemapTable(table: seq<(string, string)>, h: string)
    requires KeysUnique(table)
    ensures (forall i :: 0 <= i < |table| ==> table[i].0 != h) ==> Remap(table, h) == h
    ensures forall i :: 0 <= i < |table| && table[i].0 == h ==> Remap(table, h) == table[i].1
  {
    if table != [] && table[0].0 != h {
      assert KeysUnique(table[1..]) by {
        forall i, j | 0 <= i < j < |table| - 1 ensures table[1..][i].0 != table[1..][j].0 {
          assert table[1..][i] == table[i + 1] && table[1..][j] == table[j + 1];
        }
      }
      RemapTable(table[1..], h);
      forall i | 0 <= i < |table| && table[i].0 == h ensures Remap(table, h) == table[i].1 {
        assert table[1..][i - 1] == table[i];
      }
    }
  }

  /** The table's keys are distinct, so the order of its entries does not
      matter. */
  lemma KeysDistinct()
    ensures KeysUnique(UrlReplacements)
  {
  }

  /** The key of line 44, the site's own editor link, maps to the empty
      address. */
  lemma RemapEditorLink()
    ensures Remap(UrlReplacements, EditorLink) == ""
  {
    KeysDistinct();
    RemapTable(UrlReplacements, EditorLink);
    assert UrlReplacements[17] == (EditorLink, "");
  }

  /** No value of the table is one of its keys. */
  lemma ValuesAreNoKeys()
    ensures ValuesNotKeys(UrlReplacements)
  {
  }

  /** When no replacement is itself a key, remapping twice is remapping
      once. */
  lemma RemapIdempotent(table: seq<(string, string)>, h: string)
    requires ValuesNotKeys(table)
    ensures Remap(table, Remap(table, h)) == Remap(table, h)
  {
    match Lookup(table, h)
    case None =>
    case Some(v) =>
      assert Lookup(table, v).None?;
  }

  lemma RemapAnchorIdempotent(table: seq<(string, string)>, a: Attrs)
    requires ValuesNotKeys(table)
    ensures RemapAnchorAttrs(table, RemapAnchorAttrs(table, a)) == RemapAnchorAttrs(table, a)
  {
    match GetAttr(a, "href")
    case None =>
    case Some(h) =>
      RemapIdempotent(table, h);
      var a1 := RemapAnchorAttrs(table, a);
      assert GetAttr(a1, "href") == Some(Remap(table, h));
      if Lookup(table, h).Some? {
        assert Lookup(table, Remap(table, h)).None?;
      }
  }

  /** Replacing links twice is replacing them once. */
  lemma {:induction false} ReplaceLinksIdempotent(table: seq<(string, string)>, ns: seq<Node>)
    requires ValuesNotKeys(table)
    ensures ReplaceLinks(table, ReplaceLinks(table, ns)) == ReplaceLinks(table, ns)
  {
    if ns != [] {
      ReplaceLinksIdempotent(table, ns[1..]);
      if ns[0].Element? {
        ReplaceLinksIdempotent(table, ns[0].children);
        RemapAnchorIdempotent(table, ns[0].attrs);
      }
      assert ReplaceLinks(table, ns)[1..] == ReplaceLinks(table, ns[1..]);
    }
  }

  /** With the site's table in particular. */
  lemma ReplaceUrlsIdempotent(ns: seq<Node>)
    ensures ReplaceLinks(UrlReplacements, ReplaceLinks(UrlReplacements, ns)) == ReplaceLinks(UrlReplacements, ns)
  {
    ValuesAreNoKeys();
    ReplaceLinksIdempotent(UrlReplacements, ns);
  }

  /** Replacing touches attributes only: the text is unchanged. */
  lemma {:induction false} ReplaceLinksKeepsText(table: seq<(string, string)>, ns: seq<Node>)
    ensures TextOf(ReplaceLinks(table, ns)) == TextOf(ns)
  {
    if ns != [] {
      ReplaceLinksKeepsText(table, ns[1..]);
      if ns[0].Element? {
        ReplaceLinksKeepsText(table, ns[0].children);
      }
      assert ReplaceLinks(table, ns)[1..] == ReplaceLinks(table, ns[1..]);
    }
  }

  /** The formatter's own replacement table is empty, so replacing links
      with it leaves every node as it was. */
  const FormatterUrlReplacements: seq<(string, string)> := []

  lemma {:induction false} FormatterTableChangesNothing(ns: seq<Node>)
    ensures ReplaceLinks(FormatterUrlReplacements, ns) == ns
  {
    if ns != [] {
      FormatterTableChangesNothing(ns[1..]);
      if ns[0].Element? {
        FormatterTableChangesNothing(ns[0].children);
      }
      assert ns == [ns[0]] + ns[1..];
    }
  }
}
