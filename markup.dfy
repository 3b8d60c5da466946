/** The document tree the converter works on, standing for BeautifulSoup's
    `Tag`/`NavigableString`: text runs and elements with a tag name, an
    ordered attribute list and ordered children. This module gives the tree
    the bs4 queries the converter uses (`get_text`, `find_all`, `find`,
    `extract`), its serialisation (`str(tag)`), and `Document`, the one
    mutable handle through which the cleaning and formatting passes change a
    tree in place. */
module Markup {
  import opened Wrappers
  import opened Strings

  /** Attribute name/value pairs in document order (a Python dict keeps insertion order). */
  type Attrs = seq<(string, string)>

  datatype Node =
    | Text(text: string)
    | Element(tag: string, attrs: Attrs, children: seq<Node>)

  /** `tag.get(k)` */
  function GetAttr(a: Attrs, k: string): (r: Option<string>)
    ensures r.Some? <==> exists i :: 0 <= i < |a| && a[i].0 == k
  {
    if a == [] then None else if a[0].0 == k then Some(a[0].1) else GetAttr(a[1..], k)
  }

  /** `tag.get(k)` reads the value of the first attribute named `k`. */
  lemma {:induction false} GetAttrFirst(a: Attrs, k: string, i: nat)
    requires i < |a| && a[i].0 == k
    requires forall j :: 0 <= j < i ==> a[j].0 != k
    ensures GetAttr(a, k) == Some(a[i].1)
  {
    if i > 0 {
      assert a[1..][i - 1] == a[i];
      GetAttrFirst(a[1..], k, i - 1);
    }
  }

  /** `tag[k] = v`: an existing attribute keeps its place, a new one is appended. */
  function SetAttr(a: Attrs, k: string, v: string): (r: Attrs)
    ensures GetAttr(r, k) == Some(v)
    ensures forall k' :: k' != k ==> GetAttr(r, k') == GetAttr(a, k')
  {
    if a == [] then [(k, v)]
    else if a[0].0 == k then [(k, v)] + a[1..]
    else [a[0]] + SetAttr(a[1..], k, v)
  }

  /** `del tag[k]` */
  function DelAttr(a: Attrs, k: string): (r: Attrs)
    ensures GetAttr(r, k) == None
    ensures forall k' :: k' != k ==> GetAttr(r, k') == GetAttr(a, k')
  {
    if a == [] then [] else if a[0].0 == k then DelAttr(a[1..], k) else [a[0]] + DelAttr(a[1..], k)
  }

  /** Python's `s.split()`: the maximal runs of non-whitespace characters. */
  function Words(s: string): seq<string>
    decreases |s|
  {
    var t := TrimLeft(s);
    if t == [] then [] else
      var n := WordLength(t);
      [t[..n]] + Words(t[n..])
  }

  function WordLength(t: string): (n: nat)
    requires t != [] && !IsSpace(t[0])
    ensures 0 < n <= |t|
  {
    if |t| == 1 || IsSpace(t[1]) then 1 else 1 + WordLength(t[1..])
  }

  /** bs4 treats `class` as a list of whitespace-separated names; a selector
      `tag.c` or `class_="c"` matches when `c` is one of them. */
  predicate HasClass(a: Attrs, c: string)
  {
    match GetAttr(a, "class")
    case None => false
    case Some(v) => c in Words(v) || v == c
  }

  /** `get_text()`: every text run below, in document order. */
  function TextOf(ns: seq<Node>): string
  {
    if ns == [] then []
    else (match ns[0] case Text(s) => s case Element(_, _, cs) => TextOf(cs)) + TextOf(ns[1..])
  }

  /** `get_text(strip=True)`: each text run stripped, the empty ones dropped,
      the rest joined with no separator. */
  function StrippedText(ns: seq<Node>): string
  {
    if ns == [] then []
    else (match ns[0] case Text(s) => Strip(s) case Element(_, _, cs) => StrippedText(cs)) + StrippedText(ns[1..])
  }

  lemma AllSpaceConcat(a: string, b: string)
    ensures AllSpace(a + b) <==> AllSpace(a) && AllSpace(b)
  {
    if AllSpace(a + b) {
      assert forall i :: 0 <= i < |a| ==> a[i] == (a + b)[i];
      assert forall i :: 0 <= i < |b| ==> b[i] == (a + b)[|a| + i];
    }
  }

  /** The stripped text is empty exactly when all the text is whitespace: the
      test `not tag.get_text(strip=True)` used for empty links and empty
      emphasis. */
  lemma {:induction false} StrippedTextEmpty(ns: seq<Node>)
    ensures StrippedText(ns) == [] <==> AllSpace(TextOf(ns))
  {
    if ns != [] {
      StrippedTextEmpty(ns[1..]);
      match ns[0]
      case Text(s) =>
        StripEmpty(s);
        AllSpaceConcat(s, TextOf(ns[1..]));
      case Element(_, _, cs) =>
        StrippedTextEmpty(cs);
        AllSpaceConcat(TextOf(cs), TextOf(ns[1..]));
    }
  }

  /** `get_text(strip=True)` of a forest is that of its parts, joined. */
  lemma {:induction false} StrippedTextAppend(xs: seq<Node>, ys: seq<Node>)
    ensures StrippedText(xs + ys) == StrippedText(xs) + StrippedText(ys)
  {
    if xs == [] {
      assert xs + ys == ys;
    } else {
      assert (xs + ys)[0] == xs[0];
      assert (xs + ys)[1..] == xs[1..] + ys;
      StrippedTextAppend(xs[1..], ys);
    }
  }

  /** The tag tests the converter passes to `find_all`, `find` and `select`. */
  datatype Matcher =
    | TagIs(name: string)                      // find_all("a"), find("footer")
    | TagWithClass(name: string, cls: string)  // select("div.sharedaddy"), find("ol", class_=...)
    | AnyHeading                               // find_all(re.compile(r"^h\d"))
    | HeadingOrParagraph                       // find_all(["h1", ..., "h6", "p"])

  predicate IsHeadingName(t: string)
  {
    t in ["h1", "h2", "h3", "h4", "h5", "h6"]
  }

  /** Whether an element with this name and these attributes is selected. */
  predicate Selects(m: Matcher, tag: string, attrs: Attrs)
  {
    match m
    case TagIs(name) => tag == name
    case TagWithClass(name, cls) => tag == name && HasClass(attrs, cls)
    case AnyHeading => |tag| >= 2 && tag[0] == 'h' && IsDigit(tag[1])
    case HeadingOrParagraph => IsHeadingName(tag) || tag == "p"
  }

  predicate Matches(m: Matcher, n: Node)
  {
    n.Element? && Selects(m, n.tag, n.attrs)
  }

  /** `find_all`: every matching node among `ns` and their descendants, in
      document (pre-)order. */
  function FindAll(ns: seq<Node>, m: Matcher): (r: seq<Node>)
  {
    if ns == [] then []
    else
      (if Matches(m, ns[0]) then [ns[0]] else [])
      + (if ns[0].Element? then FindAll(ns[0].children, m) else [])
      + FindAll(ns[1..], m)
  }

  /** Everything `find_all` lists matches. */
  lemma {:induction false} FindAllMatches(ns: seq<Node>, m: Matcher)
    ensures forall i :: 0 <= i < |FindAll(ns, m)| ==> Matches(m, FindAll(ns, m)[i])
  {
    if ns != [] {
      if ns[0].Element? {
        FindAllMatches(ns[0].children, m);
      }
      FindAllMatches(ns[1..], m);
    }
  }

  /** `find`: the first node `find_all` would list. */
  function FindFirst(ns: seq<Node>, m: Matcher): (r: Option<Node>)
    ensures r.Some? ==> Matches(m, r.value)
  {
    if ns == [] then None
    else if Matches(m, ns[0]) then Some(ns[0])
    else
      var below := if ns[0].Element? then FindFirst(ns[0].children, m) else None;
      if below.Some? then below else FindFirst(ns[1..], m)
  }

  /** `find` and `find_all` agree: `find` gives the head of the `find_all` list. */
  lemma {:induction false} FindFirstIsHead(ns: seq<Node>, m: Matcher)
    ensures FindFirst(ns, m) == if FindAll(ns, m) == [] then None else Some(FindAll(ns, m)[0])
  {
    if ns != [] && !Matches(m, ns[0]) {
      FindFirstIsHead(ns[1..], m);
      if ns[0].Element? {
        FindFirstIsHead(ns[0].children, m);
      }
    }
  }

  /** `find(...).extract()`: the forest without the first match (and the
      subtree below it), together with whether there was one. */
  function RemoveFirstFound(ns: seq<Node>, m: Matcher): (r: (seq<Node>, bool))
    ensures r.1 == FindFirst(ns, m).Some?
    ensures !r.1 ==> r.0 == ns
  {
    if ns == [] then ([], false)
    else if Matches(m, ns[0]) then (ns[1..], true)
    else match ns[0]
      case Text(_) =>
        var rest := RemoveFirstFound(ns[1..], m);
        ([ns[0]] + rest.0, rest.1)
      case Element(t, a, cs) =>
        var inner := RemoveFirstFound(cs, m);
        if inner.1 then ([Element(t, a, inner.0)] + ns[1..], true)
        else
          var rest := RemoveFirstFound(ns[1..], m);
          ([ns[0]] + rest.0, rest.1)
  }

  function RemoveFirst(ns: seq<Node>, m: Matcher): seq<Node>
  {
    RemoveFirstFound(ns, m).0
  }

  /** `find_all` over a forest is the matches of its first tree followed by
      those of the rest. */
  lemma FindAllCons(n: Node, rest: seq<Node>, m: Matcher)
    ensures FindAll([n] + rest, m) ==
      (if Matches(m, n) then [n] else []) + (if n.Element? then FindAll(n.children, m) else []) + FindAll(rest, m)
  {
    assert ([n] + rest)[0] == n;
    assert ([n] + rest)[1..] == rest;
  }

  /** `find_all` over a forest is that of its parts, joined. */
  lemma {:induction false} FindAllAppend(xs: seq<Node>, ys: seq<Node>, m: Matcher)
    ensures FindAll(xs + ys, m) == FindAll(xs, m) + FindAll(ys, m)
  {
    if xs == [] {
      assert xs + ys == ys;
    } else {
      var n, t := xs[0], xs[1..];
      FindAllAppend(t, ys, m);
      assert xs + ys == [n] + (t + ys);
      FindAllConsAssoc(n, t, ys, m);
    }
  }

  lemma FindAllConsAssoc(n: Node, t: seq<Node>, ys: seq<Node>, m: Matcher)
    requires FindAll(t + ys, m) == FindAll(t, m) + FindAll(ys, m)
    ensures FindAll([n] + (t + ys), m) == FindAll([n] + t, m) + FindAll(ys, m)
  {
    FindAllCons(n, t, m);
    FindAllCons(n, t + ys, m);
  }

  /** What `extract()` of the first match takes away from a later `find_all`:
      exactly that node and the matches below it; everything after keeps its
      order. */
  lemma {:induction false} RemoveFirstFindAll(ns: seq<Node>, m: Matcher)
    requires FindFirst(ns, m).Some?
    ensures var x := FindFirst(ns, m).value;
      FindAll(ns, m) == [x] + FindAll(x.children, m) + FindAll(RemoveFirst(ns, m), m)
    decreases ns, 1
  {
    if !Matches(m, ns[0]) {
      if ns[0].Element? && FindFirst(ns[0].children, m).Some? {
        RemoveFirstBelow(ns, m);
      } else {
        RemoveFirstLater(ns, m);
      }
    }
  }

  /** The first match lies inside the first tree. */
  lemma {:induction false} RemoveFirstBelow(ns: seq<Node>, m: Matcher)
    requires ns != [] && !Matches(m, ns[0]) && ns[0].Element? && FindFirst(ns[0].children, m).Some?
    ensures var x := FindFirst(ns, m).value;
      FindAll(ns, m) == [x] + FindAll(x.children, m) + FindAll(RemoveFirst(ns, m), m)
    decreases ns, 0
  {
    var n := ns[0];
    RemoveFirstFindAll(n.children, m);
    assert ns == [n] + ns[1..];
    FindAllInto(n, ns[1..], m);
    var n' := Element(n.tag, n.attrs, RemoveFirst(n.children, m));
    assert RemoveFirst(ns, m) == [n'] + ns[1..];
    FindAllInto(n', ns[1..], m);
  }

  /** The first match lies after the first tree. */
  lemma {:induction false} RemoveFirstLater(ns: seq<Node>, m: Matcher)
    requires ns != [] && !Matches(m, ns[0]) && !(ns[0].Element? && FindFirst(ns[0].children, m).Some?)
    requires FindFirst(ns, m).Some?
    ensures var x := FindFirst(ns, m).value;
      FindAll(ns, m) == [x] + FindAll(x.children, m) + FindAll(RemoveFirst(ns, m), m)
    decreases ns, 0
  {
    var n := ns[0];
    assert ns == [n] + ns[1..];
    FindAllSkip(n, ns[1..], m);
    RemoveFirstFindAll(ns[1..], m);
    assert RemoveFirst(ns, m) == [n] + RemoveFirst(ns[1..], m);
    FindAllSkip(n, RemoveFirst(ns[1..], m), m);
  }

  /** `find(...).unwrap()`: the first match replaced by its own children. */
  function UnwrapFirst(ns: seq<Node>, m: Matcher): (r: seq<Node>)
    ensures FindFirst(ns, m).None? ==> r == ns
  {
    if ns == [] then []
    else if Matches(m, ns[0]) then ns[0].children + ns[1..]
    else match ns[0]
      case Text(_) => [ns[0]] + UnwrapFirst(ns[1..], m)
      case Element(t, a, cs) =>
        if FindFirst(cs, m).Some? then [Element(t, a, UnwrapFirst(cs, m))] + ns[1..]
        else [ns[0]] + UnwrapFirst(ns[1..], m)
  }

  /** Unwrapping keeps the text: the children stay where the element stood. */
  lemma {:induction false} UnwrapKeepsText(ns: seq<Node>, m: Matcher)
    ensures StrippedText(UnwrapFirst(ns, m)) == StrippedText(ns)
  {
    if ns != [] {
      var n := ns[0];
      assert ns == [n] + ns[1..];
      StrippedTextAppend([n], ns[1..]);
      if Matches(m, n) {
        StrippedTextAppend(n.children, ns[1..]);
        assert StrippedText([n]) == StrippedText(n.children) + StrippedText([]);
      } else if n.Element? && FindFirst(n.children, m).Some? {
        UnwrapKeepsText(n.children, m);
        var n' := Element(n.tag, n.attrs, UnwrapFirst(n.children, m));
        StrippedTextAppend([n'], ns[1..]);
        assert StrippedText([n']) == StrippedText(n'.children) + StrippedText([]);
        assert StrippedText([n]) == StrippedText(n.children) + StrippedText([]);
      } else {
        UnwrapKeepsText(ns[1..], m);
        StrippedTextAppend([n], UnwrapFirst(ns[1..], m));
      }
    }
  }

  /** An in-place edit of one element: an optional rename and one attribute assignment. */
  datatype Edit = Edit(rename: Option<string>, key: string, value: string)

  function ApplyEdit(e: Edit, n: Node): (r: Node)
  {
    match n
    case Text(_) => n
    case Element(t, a, cs) => Element(if e.rename.Some? then e.rename.value else t, SetAttr(a, e.key, e.value), cs)
  }

  /** `node = find(...); node.name = ...; node[k] = v` on the first match. */
  function UpdateFirst(ns: seq<Node>, m: Matcher, e: Edit): (r: seq<Node>)
    ensures FindFirst(ns, m).None? ==> r == ns
  {
    if ns == [] then []
    else if Matches(m, ns[0]) then [ApplyEdit(e, ns[0])] + ns[1..]
    else match ns[0]
      case Text(_) => [ns[0]] + UpdateFirst(ns[1..], m, e)
      case Element(t, a, cs) =>
        if FindFirst(cs, m).Some? then [Element(t, a, UpdateFirst(cs, m, e))] + ns[1..]
        else [ns[0]] + UpdateFirst(ns[1..], m, e)
  }

  /** After the edit, a `find_all` lists the edited node where the original
      stood and everything else unchanged, provided the edit keeps the node
      matching (`find` then returns the edited node). */
  lemma {:induction false} UpdateFirstFindAll(ns: seq<Node>, m: Matcher, e: Edit)
    requires FindAll(ns, m) != []
    requires Matches(m, ApplyEdit(e, FindAll(ns, m)[0]))
    ensures FindAll(UpdateFirst(ns, m, e), m) == [ApplyEdit(e, FindAll(ns, m)[0])] + FindAll(ns, m)[1..]
    decreases ns, 1
  {
    if Matches(m, ns[0]) {
      UpdateFirstHere(ns, m, e);
    } else if ns[0].Element? && FindFirst(ns[0].children, m).Some? {
      UpdateFirstBelow(ns, m, e);
    } else {
      UpdateFirstLater(ns, m, e);
    }
  }

  /** `find_all` over a tree that does not match: the matches below its root,
      then those of the rest. */
  lemma FindAllInto(n: Node, rest: seq<Node>, m: Matcher)
    requires !Matches(m, n) && n.Element?
    ensures FindAll([n] + rest, m) == FindAll(n.children, m) + FindAll(rest, m)
  {
    var ns := [n] + rest;
    assert ns[0] == n && ns[1..] == rest;
    assert FindAll(ns, m) == [] + FindAll(n.children, m) + FindAll(rest, m);
  }

  /** `find_all` over a tree with no match in it: only the rest's matches. */
  lemma FindAllSkip(n: Node, rest: seq<Node>, m: Matcher)
    requires !Matches(m, n) && !(n.Element? && FindFirst(n.children, m).Some?)
    ensures FindAll([n] + rest, m) == FindAll(rest, m)
  {
    FindAllCons(n, rest, m);
    if n.Element? {
      FindFirstIsHead(n.children, m);
    }
  }

  /** The first tree matches: it is the one edited. */
  lemma UpdateFirstHere(ns: seq<Node>, m: Matcher, e: Edit)
    requires ns != [] && Matches(m, ns[0])
    requires Matches(m, ApplyEdit(e, ns[0]))
    ensures FindAll(ns, m) != [] && FindAll(ns, m)[0] == ns[0]
    ensures FindAll(UpdateFirst(ns, m, e), m) == [ApplyEdit(e, FindAll(ns, m)[0])] + FindAll(ns, m)[1..]
  {
    var n := ns[0];
    assert ns == [n] + ns[1..];
    FindAllAt(n, ns[1..], m);
    assert UpdateFirst(ns, m, e) == [ApplyEdit(e, n)] + ns[1..];
    FindAllAt(ApplyEdit(e, n), ns[1..], m);
  }

  /** `find_all` over a tree that matches: its root first. */
  lemma FindAllAt(n: Node, rest: seq<Node>, m: Matcher)
    requires Matches(m, n)
    ensures FindAll([n] + rest, m) == [n] + (FindAll(n.children, m) + FindAll(rest, m))
  {
    var ns := [n] + rest;
    assert ns[0] == n && ns[1..] == rest;
    assert FindAll(ns, m) == [n] + FindAll(n.children, m) + FindAll(rest, m);
  }

  lemma {:induction false} UpdateFirstBelow(ns: seq<Node>, m: Matcher, e: Edit)
    requires ns != [] && !Matches(m, ns[0]) && ns[0].Element? && FindFirst(ns[0].children, m).Some?
    requires FindAll(ns, m) != []
    requires Matches(m, ApplyEdit(e, FindAll(ns, m)[0]))
    ensures FindAll(UpdateFirst(ns, m, e), m) == [ApplyEdit(e, FindAll(ns, m)[0])] + FindAll(ns, m)[1..]
    decreases ns, 0
  {
    var n := ns[0];
    var below, later := FindAll(n.children, m), FindAll(ns[1..], m);
    assert ns == [n] + ns[1..];
    FindAllInto(n, ns[1..], m);
    FindFirstIsHead(n.children, m);
    HeadReplaced(below, later, ApplyEdit(e, below[0]));
    UpdateFirstFindAll(n.children, m, e);
    var n' := Element(n.tag, n.attrs, UpdateFirst(n.children, m, e));
    assert UpdateFirst(ns, m, e) == [n'] + ns[1..];
    FindAllInto(n', ns[1..], m);
  }

  /** Replacing the head of the front part of a joined sequence. */
  lemma HeadReplaced<T>(a: seq<T>, b: seq<T>, x: T)
    requires a != []
    ensures (a + b)[0] == a[0]
    ensures ([x] + a[1..]) + b == [x] + (a + b)[1..]
  {
    assert (a + b)[1..] == a[1..] + b;
  }

  lemma {:induction false} UpdateFirstLater(ns: seq<Node>, m: Matcher, e: Edit)
    requires ns != [] && !Matches(m, ns[0]) && !(ns[0].Element? && FindFirst(ns[0].children, m).Some?)
    requires FindAll(ns, m) != []
    requires Matches(m, ApplyEdit(e, FindAll(ns, m)[0]))
    ensures FindAll(UpdateFirst(ns, m, e), m) == [ApplyEdit(e, FindAll(ns, m)[0])] + FindAll(ns, m)[1..]
    decreases ns, 0
  {
    var n := ns[0];
    assert ns == [n] + ns[1..];
    FindAllSkip(n, ns[1..], m);
    UpdateFirstFindAll(ns[1..], m, e);
    assert UpdateFirst(ns, m, e) == [n] + UpdateFirst(ns[1..], m, e);
    FindAllSkip(n, UpdateFirst(ns[1..], m, e), m);
  }

  /** The empty-element tags of bs4's HTML tree builder: an element with one
      of these names and no children is written as `<t/>`. */
  predicate IsVoid(t: string)
  {
    t in ["area", "base", "br", "col", "embed", "hr", "img", "input", "keygen", "link", "menuitem", "meta",
          "param", "source", "track", "wbr", "basefont", "bgsound", "command", "frame", "image", "isindex",
          "nextid", "spacer"]
  }

  /** bs4's "minimal" output formatter: `&`, `<` and `>` become entities. */
  function EscapeText(s: string): (r: string)
    ensures forall i :: 0 <= i < |r| ==> r[i] != '<' && r[i] != '>'
  {
    if s == [] then []
    else
      var c := if s[0] == '&' then "&amp;" else if s[0] == '<' then "&lt;" else if s[0] == '>' then "&gt;" else [s[0]];
      c + EscapeText(s[1..])
  }

  /** Reads the three entities back; every other character is copied. */
  function Unescape(r: string): (s: string)
    ensures |s| <= |r|
  {
    if r == [] then []
    else if |r| >= 5 && r[..5] == "&amp;" then "&" + Unescape(r[5..])
    else if |r| >= 4 && r[..4] == "&lt;" then "<" + Unescape(r[4..])
    else if |r| >= 4 && r[..4] == "&gt;" then ">" + Unescape(r[4..])
    else [r[0]] + Unescape(r[1..])
  }

  /** Escaping loses nothing: `&`, `<` and `>` each become their entity and
      every other character is copied, so reading the entities back gives
      the text. */
  lemma {:induction false} EscapeRoundTrip(s: string)
    ensures Unescape(EscapeText(s)) == s
  {
    if s != [] {
      var rest := EscapeText(s[1..]);
      EscapeRoundTrip(s[1..]);
      if s[0] == '&' {
        UnescapeAmp(rest);
      } else if s[0] == '<' {
        UnescapeLt(rest);
      } else if s[0] == '>' {
        UnescapeGt(rest);
      } else {
        UnescapePlain(s[0], rest);
      }
      assert [s[0]] + s[1..] == s;
    }
  }

  lemma UnescapeAmp(rest: string)
    ensures Unescape("&amp;" + rest) == "&" + Unescape(rest)
  {
    var r := "&amp;" + rest;
    assert r[..5] == "&amp;" && r[5..] == rest;
  }

  lemma UnescapeLt(rest: string)
    ensures Unescape("&lt;" + rest) == "<" + Unescape(rest)
  {
    var r := "&lt;" + rest;
    assert r[..4] == "&lt;" && r[4..] == rest;
    assert |r| < 5 || r[..5] != "&amp;" by {
      if |r| >= 5 { assert r[..5][1] == 'l'; }
    }
  }

  lemma UnescapeGt(rest: string)
    ensures Unescape("&gt;" + rest) == ">" + Unescape(rest)
  {
    var r := "&gt;" + rest;
    assert r[..4] == "&gt;" && r[4..] == rest;
    assert r[..4] != "&lt;" by { assert r[..4][1] == 'g'; }
    assert |r| < 5 || r[..5] != "&amp;" by {
      if |r| >= 5 { assert r[..5][1] == 'g'; }
    }
  }

  lemma UnescapePlain(c: char, rest: string)
    requires c != '&'
    ensures Unescape([c] + rest) == [c] + Unescape(rest)
  {
    var r := [c] + rest;
    assert r[0] == c && r[1..] == rest;
    assert |r| < 5 || r[..5] != "&amp;" by {
      if |r| >= 5 { assert r[..5][0] == c; }
    }
    assert |r| < 4 || (r[..4] != "&lt;" && r[..4] != "&gt;") by {
      if |r| >= 4 { assert r[..4][0] == c; }
    }
  }

  /** Two texts escape alike only when they are equal. */
  lemma EscapeInjective(s: string, t: string)
    requires EscapeText(s) == EscapeText(t)
    ensures s == t
  {
    EscapeRoundTrip(s);
    EscapeRoundTrip(t);
  }

  /** Text with none of the three characters the formatter replaces. */
  predicate NoMarkupChars(s: string)
  {
    forall i :: 0 <= i < |s| ==> s[i] != '&' && s[i] != '<' && s[i] != '>'
  }

  /** Escaping never shortens a text, and leaves it as it is exactly when it
      holds no `&`, `<` or `>`. */
  lemma {:induction false} EscapeLength(s: string)
    ensures |EscapeText(s)| >= |s|
    ensures |EscapeText(s)| == |s| <==> NoMarkupChars(s)
    ensures NoMarkupChars(s) ==> EscapeText(s) == s
  {
    if s != [] {
      EscapeLength(s[1..]);
      if NoMarkupChars(s[1..]) && s[0] != '&' && s[0] != '<' && s[0] != '>' {
        assert [s[0]] + s[1..] == s;
      }
      if !NoMarkupChars(s[1..]) {
        var i :| 0 <= i < |s[1..]| && !(s[1..][i] != '&' && s[1..][i] != '<' && s[1..][i] != '>');
        assert s[i + 1] == s[1..][i];
      }
      if NoMarkupChars(s) {
        assert NoMarkupChars(s[1..]) by {
          forall i | 0 <= i < |s[1..]| ensures s[1..][i] != '&' && s[1..][i] != '<' && s[1..][i] != '>' {
            assert s[1..][i] == s[i + 1];
          }
        }
      }
    }
  }

  /** An attribute value as bs4 quotes it: double quotes, or single quotes
      when the value holds a double quote, or `&quot;` when it holds both. */
  function QuoteAttr(v: string): string
  {
    var e := EscapeText(v);
    if !Contains(e, "\"") then "\"" + e + "\""
    else if Contains(e, "'") then "\"" + ReplaceAll(e, "\"", "&quot;") + "\""
    else "'" + e + "'"
  }

  function SerializeAttrs(a: Attrs): string
  {
    if a == [] then [] else " " + a[0].0 + "=" + QuoteAttr(a[0].1) + SerializeAttrs(a[1..])
  }

  /** `str(node)` for each node, concatenated (`decode_contents` when `ns`
      are an element's children). */
  function Serialize(ns: seq<Node>): string
  {
    if ns == [] then []
    else
      (match ns[0]
       case Text(s) => EscapeText(s)
       case Element(t, a, cs) =>
         if IsVoid(t) && cs == [] then "<" + t + SerializeAttrs(a) + "/>"
         else "<" + t + SerializeAttrs(a) + ">" + Serialize(cs) + "</" + t + ">")
      + Serialize(ns[1..])
  }

  /** The root of a parsed page (`content_div`) as the passes share it: they
      change it through this handle and the caller sees the new tree. */
  class Document {
    var root: Node

    constructor (root: Node)
      ensures this.root == root
    {
      this.root := root;
    }
  }
}
