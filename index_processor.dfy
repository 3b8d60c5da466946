/** The index page (class `IndexProcessor`): the walk over its headings
    and paragraphs that builds the ordered map from section title to
    lessons, numbering every lesson with one running counter, and the
    rendering of that map as the book's index page. */
module IndexProcessor {
  import opened Wrappers
  import opened Strings
  import opened Markup
  import opened DataModels
  import TextProcessor

  // ---------------------------------------------------------------------
  // _break_paragraph_by_br
  // ---------------------------------------------------------------------

  /** `re.split(r"<br\s*\/?>", s)`: the text between markers, in order; a
      marker at either end gives an empty piece there. */
  function SplitOnBr(s: string): (r: seq<string>)
    ensures |r| >= 1
    decreases |s|
  {
    if s == [] then [[]]
    else match TextProcessor.BrTag(s)
      case Some(k) => [[]] + SplitOnBr(s[k..])
      case None =>
        var rest := SplitOnBr(s[1..]);
        [[s[0]] + rest[0]] + rest[1..]
  }

  /** The markers `re.split` cuts out, in order. */
  function BrMarkers(s: string): (r: seq<string>)
    ensures |r| == |SplitOnBr(s)| - 1
    decreases |s|
  {
    if s == [] then []
    else match TextProcessor.BrTag(s)
      case Some(k) => [s[..k]] + BrMarkers(s[k..])
      case None => BrMarkers(s[1..])
  }

  /** Pieces and the markers between them, put back together. */
  function Interleave(ps: seq<string>, ms: seq<string>): string
    requires |ps| == |ms| + 1
  {
    if ms == [] then ps[0] else ps[0] + ms[0] + Interleave(ps[1..], ms[1..])
  }

  lemma InterleaveCons(c: char, ps: seq<string>, ms: seq<string>)
    requires |ps| == |ms| + 1
    ensures Interleave([[c] + ps[0]] + ps[1..], ms) == [c] + Interleave(ps, ms)
  {
    var ps' := [[c] + ps[0]] + ps[1..];
    assert ps'[1..] == ps[1..];
  }

  /** Splitting loses nothing: the pieces with the markers put back between
      them are the original markup. */
  lemma {:induction false} SplitOnBrRejoins(s: string)
    ensures Interleave(SplitOnBr(s), BrMarkers(s)) == s
    decreases |s|
  {
    if s != [] {
      var tag := TextProcessor.BrTag(s);
      if tag.Some? {
        SplitOnBrRejoins(s[tag.value..]);
        RejoinAtMarker(s, tag.value);
      } else {
        SplitOnBrRejoins(s[1..]);
        RejoinAtChar(s);
      }
    }
  }

  lemma RejoinAtMarker(s: string, k: nat)
    requires s != [] && TextProcessor.BrTag(s) == Some(k)
    requires Interleave(SplitOnBr(s[k..]), BrMarkers(s[k..])) == s[k..]
    ensures Interleave(SplitOnBr(s), BrMarkers(s)) == s
  {
    var rest := Interleave(SplitOnBr(s[k..]), BrMarkers(s[k..]));
    assert Interleave(SplitOnBr(s), BrMarkers(s)) == s[..k] + rest by {
      SplitAtMarker(s, k);
      InterleaveFront(s[..k], SplitOnBr(s[k..]), BrMarkers(s[k..]));
    }
    Strings.SplitJoin(s, k);
  }

  lemma SplitAtMarker(s: string, k: nat)
    requires s != [] && TextProcessor.BrTag(s) == Some(k)
    ensures SplitOnBr(s) == [[]] + SplitOnBr(s[k..])
    ensures BrMarkers(s) == [s[..k]] + BrMarkers(s[k..])
  {
  }

  lemma InterleaveFront(m: string, ps: seq<string>, ms: seq<string>)
    requires |ps| == |ms| + 1
    ensures Interleave([[]] + ps, [m] + ms) == m + Interleave(ps, ms)
  {
    var ps', ms' := [[]] + ps, [m] + ms;
    assert ps'[1..] == ps && ms'[1..] == ms;
    assert [] + m == m;
  }

  lemma RejoinAtChar(s: string)
    requires s != [] && TextProcessor.BrTag(s).None?
    requires Interleave(SplitOnBr(s[1..]), BrMarkers(s[1..])) == s[1..]
    ensures Interleave(SplitOnBr(s), BrMarkers(s)) == s
  {
    var rest := s[1..];
    assert SplitOnBr(s) == [[s[0]] + SplitOnBr(rest)[0]] + SplitOnBr(rest)[1..];
    assert BrMarkers(s) == BrMarkers(rest);
    InterleaveCons(s[0], SplitOnBr(rest), BrMarkers(rest));
    assert [s[0]] + rest == s;
  }

  /** Every piece cut out is a whole marker. */
  lemma {:induction false} BrMarkersAreMarkers(s: string)
    ensures forall i :: 0 <= i < |BrMarkers(s)| ==>
      TextProcessor.BrTag(BrMarkers(s)[i]) == Some(|BrMarkers(s)[i]|)
    decreases |s|
  {
    if s != [] {
      match TextProcessor.BrTag(s)
      case Some(k) =>
        assert s[..k][..k] == s[..k];
        TextProcessor.BrTagFromPrefix(s, s[..k], k);
        BrMarkersAreMarkers(s[k..]);
      case None =>
        BrMarkersAreMarkers(s[1..]);
    }
  }

  /** A segment `_break_paragraph_by_br` keeps: stripped and not blank. */
  predicate Kept(seg: string)
  {
    seg != [] && Strip(seg) == seg
  }

  /** `child.strip()` of every piece, the blank ones dropped. */
  function KeptSegments(pieces: seq<string>): (r: seq<string>)
    ensures |r| <= |pieces|
    ensures forall i :: 0 <= i < |r| ==> Kept(r[i])
  {
    if pieces == [] then []
    else
      var rest := KeptSegments(pieces[1..]);
      var seg := Strip(pieces[0]);
      if seg == [] then rest
      else
        StripIdempotent(pieces[0]);
        assert Kept(seg);
        [seg] + rest
  }

  /** Each kept segment as a paragraph, joined. */
  function SegmentsMarkup(segs: seq<string>): string
  {
    if segs == [] then [] else "<p>" + segs[0] + "</p>" + SegmentsMarkup(segs[1..])
  }

  /** The markup `_break_paragraph_by_br` hands to the parser. */
  function BreakMarkup(cs: seq<Node>): string
  {
    SegmentsMarkup(KeptSegments(SplitOnBr(Serialize(cs))))
  }

  /** A segment is kept exactly when it has a non-blank character. */
  lemma {:induction false} KeptSegmentsMeaning(pieces: seq<string>)
    ensures KeptSegments(pieces) == [] <==> forall i :: 0 <= i < |pieces| ==> AllSpace(pieces[i])
  {
    if pieces != [] {
      KeptSegmentsMeaning(pieces[1..]);
      StripEmpty(pieces[0]);
      assert forall i :: 1 <= i < |pieces| ==> pieces[i] == pieces[1..][i - 1];
    }
  }

  /** `idx` says which piece each segment comes from: segment `i` is piece
      `idx[i]` stripped, `idx` is strictly increasing, and every piece with
      a non-blank character is used. */
  predicate SegmentsOf(pieces: seq<string>, segs: seq<string>, idx: seq<nat>)
  {
    && |idx| == |segs|
    && (forall i :: 0 <= i < |idx| ==> idx[i] < |pieces| && segs[i] == Strip(pieces[idx[i]]))
    && (forall i, j :: 0 <= i < j < |idx| ==> idx[i] < idx[j])
    && (forall k :: 0 <= k < |pieces| && !AllSpace(pieces[k]) ==> k in idx)
  }

  /** The kept segments are the stripped non-blank pieces, in their order. */
  lemma {:induction false} KeptSegmentsOrder(pieces: seq<string>) returns (idx: seq<nat>)
    ensures SegmentsOf(pieces, KeptSegments(pieces), idx)
  {
    if pieces == [] {
      idx := [];
    } else {
      var tail := KeptSegmentsOrder(pieces[1..]);
      assert pieces == [pieces[0]] + pieces[1..];
      StripEmpty(pieces[0]);
      if Strip(pieces[0]) == [] {
        idx := SkipBlankPiece(pieces[0], pieces[1..], KeptSegments(pieces[1..]), tail);
      } else {
        idx := KeepPiece(pieces[0], pieces[1..], KeptSegments(pieces[1..]), tail);
      }
    }
  }

  /** The indices of the segments of `ps`, each one piece further on. */
  function Shifted(tail: seq<nat>): (r: seq<nat>)
    ensures |r| == |tail| && forall i :: 0 <= i < |tail| ==> r[i] == tail[i] + 1
  {
    seq(|tail|, i requires 0 <= i < |tail| => tail[i] + 1)
  }

  /** A blank piece in front adds no segment. */
  lemma SkipBlankPiece(p: string, ps: seq<string>, segs: seq<string>, tail: seq<nat>) returns (idx: seq<nat>)
    requires AllSpace(p) && SegmentsOf(ps, segs, tail)
    ensures SegmentsOf([p] + ps, segs, idx)
  {
    idx := Shifted(tail);
    ShiftedSegments(p, ps, segs, tail);
    forall k | 0 <= k < |[p] + ps| && !AllSpace(([p] + ps)[k]) ensures k in idx {
      ShiftedHits(p, ps, segs, tail, k);
    }
  }

  /** A non-blank piece in front adds its stripped text as the first segment. */
  lemma KeepPiece(p: string, ps: seq<string>, segs: seq<string>, tail: seq<nat>) returns (idx: seq<nat>)
    requires SegmentsOf(ps, segs, tail)
    ensures SegmentsOf([p] + ps, [Strip(p)] + segs, idx)
  {
    idx := [0] + Shifted(tail);
    KeepPieceMaps(p, ps, segs, tail);
    KeepPieceIncreasing(tail);
    KeepPieceHits(p, ps, segs, tail);
  }

  lemma KeepPieceMaps(p: string, ps: seq<string>, segs: seq<string>, tail: seq<nat>)
    requires SegmentsOf(ps, segs, tail)
    ensures var idx, all, pieces := [0] + Shifted(tail), [Strip(p)] + segs, [p] + ps;
      forall i :: 0 <= i < |idx| ==> idx[i] < |pieces| && all[i] == Strip(pieces[idx[i]])
  {
    var sh := Shifted(tail);
    ShiftedSegments(p, ps, segs, tail);
    var idx, all, pieces := [0] + sh, [Strip(p)] + segs, [p] + ps;
    forall i | 0 < i < |idx| ensures idx[i] < |pieces| && all[i] == Strip(pieces[idx[i]]) {
      assert idx[i] == sh[i - 1] && all[i] == segs[i - 1];
    }
  }

  lemma KeepPieceIncreasing(tail: seq<nat>)
    requires forall i, j :: 0 <= i < j < |tail| ==> tail[i] < tail[j]
    ensures var idx := [0] + Shifted(tail); forall i, j :: 0 <= i < j < |idx| ==> idx[i] < idx[j]
  {
    var sh := Shifted(tail);
    var idx := [0] + sh;
    forall i, j | 0 <= i < j < |idx| ensures idx[i] < idx[j] {
      assert idx[j] == sh[j - 1];
      if i > 0 {
        assert idx[i] == sh[i - 1];
      }
    }
  }

  lemma KeepPieceHits(p: string, ps: seq<string>, segs: seq<string>, tail: seq<nat>)
    requires SegmentsOf(ps, segs, tail)
    ensures forall k :: 0 <= k < |[p] + ps| && !AllSpace(([p] + ps)[k]) ==> k in [0] + Shifted(tail)
  {
    forall k | 0 < k < |[p] + ps| && !AllSpace(([p] + ps)[k]) ensures k in [0] + Shifted(tail) {
      ShiftedHits(p, ps, segs, tail, k);
    }
  }

  lemma ShiftedSegments(p: string, ps: seq<string>, segs: seq<string>, tail: seq<nat>)
    requires SegmentsOf(ps, segs, tail)
    ensures forall i :: 0 <= i < |tail| ==> Shifted(tail)[i] < |[p] + ps| && segs[i] == Strip(([p] + ps)[Shifted(tail)[i]])
    ensures forall i, j :: 0 <= i < j < |tail| ==> 0 < Shifted(tail)[i] < Shifted(tail)[j]
  {
  }

  lemma ShiftedHits(p: string, ps: seq<string>, segs: seq<string>, tail: seq<nat>, k: nat)
    requires SegmentsOf(ps, segs, tail)
    requires 0 < k < |[p] + ps| && !AllSpace(([p] + ps)[k])
    ensures k in Shifted(tail)
  {
    assert ([p] + ps)[k] == ps[k - 1];
    var i :| 0 <= i < |tail| && tail[i] == k - 1;
    assert Shifted(tail)[i] == k;
  }

  /** The markup holds each segment wrapped in `<p>…</p>`, in order: what
      comes before the `i`-th paragraph is the markup of the segments before
      it, and what follows it is the markup of those after it. */
  lemma {:induction false} SegmentsMarkupAt(segs: seq<string>, i: nat)
    requires i < |segs|
    ensures SegmentsMarkup(segs) == SegmentsMarkup(segs[..i]) + "<p>" + segs[i] + "</p>" + SegmentsMarkup(segs[i + 1..])
  {
    if i == 0 {
      assert segs[..0] == [] && segs[1..] == segs[i + 1..];
    } else {
      var t := segs[1..];
      SegmentsMarkupAt(t, i - 1);
      SegmentSlices(segs, i);
      SegmentsMarkupCons(segs[0], segs[1..i]);
      SegmentsMarkupCons(segs[0], t);
      var front := "<p>" + segs[0] + "</p>";
      Strings.AppendAssoc(front, SegmentsMarkup(segs[1..i]), "<p>" + segs[i] + "</p>", SegmentsMarkup(segs[i + 1..]));
    }
  }

  lemma SegmentSlices(segs: seq<string>, i: nat)
    requires 0 < i < |segs|
    ensures segs[1..][..i - 1] == segs[1..i] && segs[1..][i - 1] == segs[i] && segs[1..][i..] == segs[i + 1..]
    ensures segs[..i] == [segs[0]] + segs[1..i] && segs == [segs[0]] + segs[1..]
  {
  }

  lemma SegmentsMarkupCons(x: string, ys: seq<string>)
    ensures SegmentsMarkup([x] + ys) == "<p>" + x + "</p>" + SegmentsMarkup(ys)
  {
    assert ([x] + ys)[1..] == ys;
  }

  /** Markup without a marker and with some text gives one paragraph of its
      stripped text; all-blank markup gives nothing. */
  lemma BreakMarkupWithoutMarker(cs: seq<Node>)
    requires forall i :: 0 <= i < |Serialize(cs)| ==> TextProcessor.BrTag(Serialize(cs)[i..]).None?
    ensures AllSpace(Serialize(cs)) ==> BreakMarkup(cs) == ""
    ensures !AllSpace(Serialize(cs)) ==> BreakMarkup(cs) == "<p>" + Strip(Serialize(cs)) + "</p>"
  {
    var s := Serialize(cs);
    SplitWithoutMarker(s);
    OnePieceMarkup(s);
  }

  lemma OnePieceMarkup(s: string)
    ensures AllSpace(s) ==> SegmentsMarkup(KeptSegments([s])) == ""
    ensures !AllSpace(s) ==> SegmentsMarkup(KeptSegments([s])) == "<p>" + Strip(s) + "</p>"
  {
    StripEmpty(s);
    assert [s][1..] == [];
    if !AllSpace(s) {
      assert KeptSegments([s]) == [Strip(s)];
    }
  }

  /** Markup with no marker is not split: its one piece is itself. */
  lemma {:induction false} SplitWithoutMarker(s: string)
    requires forall i :: 0 <= i < |s| ==> TextProcessor.BrTag(s[i..]).None?
    ensures SplitOnBr(s) == [s]
    decreases |s|
  {
    if s != [] {
      NoMarkerInTail(s);
      SplitWithoutMarker(s[1..]);
      assert s[0..] == s;
      SplitStepWithoutMarker(s, s[1..]);
    }
  }

  lemma NoMarkerInTail(s: string)
    requires s != [] && forall i :: 0 <= i < |s| ==> TextProcessor.BrTag(s[i..]).None?
    ensures forall i :: 0 <= i < |s[1..]| ==> TextProcessor.BrTag(s[1..][i..]).None?
  {
    forall i | 0 <= i < |s[1..]| ensures TextProcessor.BrTag(s[1..][i..]).None? {
      assert s[1..][i..] == s[i + 1..];
    }
  }

  lemma SplitStepWithoutMarker(s: string, t: string)
    requires s != [] && t == s[1..] && TextProcessor.BrTag(s).None? && SplitOnBr(t) == [t]
    ensures SplitOnBr(s) == [s]
  {
    assert [t][1..] == [];
    assert [s[0]] + t == s;
  }

  /** `_break_paragraph_by_br(paragraph)`: the parsed new paragraphs. */
  function BreakParagraphByBr(cs: seq<Node>, parse: string -> seq<Node>): seq<Node>
  {
    parse(BreakMarkup(cs))
  }

  // ---------------------------------------------------------------------
  // _parse_lesson_text
  // ---------------------------------------------------------------------

  datatype LessonInfo = LessonInfo(number: string, original: string, title: string)

  const Delimiter: string := "課:"

  /** The key of the `KeyError` a missing href raises. */
  const MissingHref: string := "href"

  /** `_parse_lesson_text(text)`: split at the first `課:` only. */
  function ParseLessonText(text: string): LessonInfo
  {
    match IndexOf(text, Delimiter)
    case None => LessonInfo("N/A", Strip(text), Strip(text))
    case Some(i) =>
      var left := Strip(text[..i]);
      LessonInfo(ReplaceAll(left, "第", ""), left + "課", Strip(text[i + |Delimiter|..]))
  }

  /** Without the delimiter the number is `N/A` and both the original number
      and the title are the stripped text. */
  lemma ParseWithoutDelimiter(text: string)
    requires !Contains(text, Delimiter)
    ensures ParseLessonText(text) == LessonInfo("N/A", Strip(text), Strip(text))
  {
  }

  /** With it, the number has no `第` left. */
  lemma ParseNumberUnmarked(text: string)
    requires Contains(text, Delimiter)
    ensures forall i :: 0 <= i < |ParseLessonText(text).number| ==> ParseLessonText(text).number[i] != '第'
  {
    var i := IndexOf(text, Delimiter).value;
    ReplaceCharRemovesIt(Strip(text[..i]), '第', "");
  }

  /** With the delimiter: the stripped part before its first occurrence,
      without `第`, is the number; that part and `課` is the original
      number; the stripped rest, delimiters and all, is the title. */
  lemma ParseAtFirstDelimiter(a: string, b: string)
    requires !Contains(a, Delimiter)
    ensures ParseLessonText(a + Delimiter + b)
      == LessonInfo(ReplaceAll(Strip(a), "第", ""), Strip(a) + "課", Strip(b))
  {
    IndexOfAfter(a, Delimiter, b);
    var t := a + Delimiter + b;
    assert t[..|a|] == a;
    assert t[|a| + |Delimiter|..] == b;
  }

  // ---------------------------------------------------------------------
  // _extract_link_data
  // ---------------------------------------------------------------------

  const OrgSep: string := ".org/"

  /** `s.split(".org/")[0]` */
  function FirstField(s: string): (r: string)
    ensures !Contains(s, OrgSep) ==> r == s
  {
    match IndexOf(s, OrgSep)
    case None => s
    case Some(j) => s[..j]
  }

  /** `relative_path`: the text after the first `.org/` up to the next one,
      slashes stripped from both ends; the whole href without `.org/`. */
  function RelativePath(web: string): (r: string)
    ensures !Contains(web, OrgSep) ==> r == web
  {
    match IndexOf(web, OrgSep)
    case None => web
    case Some(i) => StripChar(FirstField(web[i + |OrgSep|..]), '/')
  }

  lemma RelativePathAt(a: string, rest: string)
    requires !Contains(a, OrgSep)
    ensures RelativePath(a + OrgSep + rest) == StripChar(FirstField(rest), '/')
  {
    IndexOfAfter(a, OrgSep, rest);
    var w := a + OrgSep + rest;
    assert w[|a| + |OrgSep|..] == rest;
  }

  lemma FirstFieldBefore(b: string, c: string)
    requires !Contains(b, OrgSep)
    ensures FirstField(b + OrgSep + c) == b
  {
    IndexOfAfter(b, OrgSep, c);
    assert (b + OrgSep + c)[..|b|] == b;
  }

  /** One `.org/`: everything after it, slashes stripped. */
  lemma RelativePathAfter(a: string, b: string)
    requires !Contains(a, OrgSep) && !Contains(b, OrgSep)
    ensures RelativePath(a + OrgSep + b) == StripChar(b, '/')
  {
    RelativePathAt(a, b);
  }

  /** Two or more: only the part between the first two. */
  lemma RelativePathBetween(a: string, b: string, c: string)
    requires !Contains(a, OrgSep) && !Contains(b, OrgSep)
    ensures RelativePath(a + OrgSep + b + OrgSep + c) == StripChar(b, '/')
  {
    var rest := b + OrgSep + c;
    AppendAssoc(a + OrgSep, b, OrgSep, c);
    RelativePathAt(a, rest);
    FirstFieldBefore(b, c);
  }

  /** The `em` loop: every `em` with no stripped text goes, with all it
      holds. */
  function RemoveEmptyEms(ns: seq<Node>): (r: seq<Node>)
  {
    if ns == [] then []
    else
      var rest := RemoveEmptyEms(ns[1..]);
      match ns[0]
      case Text(_) => [ns[0]] + rest
      case Element(t, a, cs) =>
        if t == "em" && StrippedText(cs) == [] then rest
        else [Element(t, a, RemoveEmptyEms(cs))] + rest
  }

  /** No `em` left without text, at any depth. */
  predicate NoEmptyEms(ns: seq<Node>)
  {
    ns == [] ||
    ((match ns[0]
      case Text(_) => true
      case Element(t, _, cs) => !(t == "em" && StrippedText(cs) == []) && NoEmptyEms(cs))
     && NoEmptyEms(ns[1..]))
  }

  lemma {:induction false} RemoveEmptyEmsKeepsText(ns: seq<Node>)
    ensures StrippedText(RemoveEmptyEms(ns)) == StrippedText(ns)
  {
    if ns != [] {
      var rest := RemoveEmptyEms(ns[1..]);
      RemoveEmptyEmsKeepsText(ns[1..]);
      match ns[0]
      case Text(_) =>
      case Element(t, a, cs) =>
        RemoveEmptyEmsKeepsText(cs);
        if !(t == "em" && StrippedText(cs) == []) {
          var e := Element(t, a, RemoveEmptyEms(cs));
          assert ([e] + rest)[1..] == rest;
        }
    }
  }

  lemma {:induction false} RemoveEmptyEmsLeavesNone(ns: seq<Node>)
    ensures NoEmptyEms(RemoveEmptyEms(ns))
  {
    if ns != [] {
      var rest := RemoveEmptyEms(ns[1..]);
      RemoveEmptyEmsLeavesNone(ns[1..]);
      match ns[0]
      case Text(_) =>
        assert ([ns[0]] + rest)[1..] == rest;
      case Element(t, a, cs) =>
        if !(t == "em" && StrippedText(cs) == []) {
          RemoveEmptyEmsLeavesNone(cs);
          RemoveEmptyEmsKeepsText(cs);
          var e := Element(t, a, RemoveEmptyEms(cs));
          assert ([e] + rest)[1..] == rest;
        }
    }
  }

  /** An anchor-bearing paragraph's first anchor. */
  function FirstAnchor(cs: seq<Node>): Option<Node>
  {
    FindFirst(cs, TagIs("a"))
  }

  /** What `_extract_link_data` returns: `None` without an anchor, the
      `KeyError` of a missing href, or the href and its relative path. */
  function LinkDataOf(cs: seq<Node>): Result<Option<LinkData>>
  {
    match FirstAnchor(cs)
    case None => Ok(None)
    case Some(a) =>
      match GetAttr(a.attrs, "href")
      case None => Err(MissingHref)
      case Some(web) => Ok(Some(LinkData(web, RelativePath(web))))
  }

  /** No anchor, no link; an anchor without href, an error; otherwise the
      first anchor's href and its relative path. */
  lemma LinkDataMeaning(cs: seq<Node>)
    ensures LinkDataOf(cs) == Ok(None) <==> FirstAnchor(cs).None?
    ensures LinkDataOf(cs).Err? <==> FirstAnchor(cs).Some? && GetAttr(FirstAnchor(cs).value.attrs, "href").None?
    ensures LinkDataOf(cs).Ok? && LinkDataOf(cs).value.Some? ==>
      (var web := GetAttr(FirstAnchor(cs).value.attrs, "href");
       web.Some? && LinkDataOf(cs).value.value == LinkData(web.value, RelativePath(web.value)))
  {
  }

  /** The paragraph's children once the link is extracted: the first anchor
      unwrapped and the empty `em`s gone; untouched without an anchor or
      when the href lookup fails. */
  function AfterLinkExtraction(cs: seq<Node>): (r: seq<Node>)
    ensures LinkDataOf(cs).Ok? && LinkDataOf(cs).value.Some? ==> NoEmptyEms(r)
  {
    if LinkDataOf(cs).Ok? && LinkDataOf(cs).value.Some? then
      RemoveEmptyEmsLeavesNone(UnwrapFirst(cs, TagIs("a")));
      RemoveEmptyEms(UnwrapFirst(cs, TagIs("a")))
    else cs
  }

  /** The anchor's text is kept and the removed `em`s had none: the
      paragraph reads the same after extraction. */
  lemma ExtractionKeepsText(cs: seq<Node>)
    ensures StrippedText(AfterLinkExtraction(cs)) == StrippedText(cs)
  {
    UnwrapKeepsText(cs, TagIs("a"));
    RemoveEmptyEmsKeepsText(UnwrapFirst(cs, TagIs("a")));
  }

  /** `_extract_link_data(element)`, changing the paragraph in place. */
  method ExtractLinkData(p: Document) returns (r: Result<Option<LinkData>>)
    requires p.root.Element?
    modifies p
    ensures r == LinkDataOf(old(p.root.children))
    ensures p.root == Element(old(p.root.tag), old(p.root.attrs), AfterLinkExtraction(old(p.root.children)))
  {
    var anchor := FindFirst(p.root.children, TagIs("a"));
    if anchor.None? {
      return Ok(None);
    }
    var href := GetAttr(anchor.value.attrs, "href");
    if href.None? {
      return Err(MissingHref);
    }
    var web := href.value;
    p.root := Element(p.root.tag, p.root.attrs, UnwrapFirst(p.root.children, TagIs("a")));
    p.root := Element(p.root.tag, p.root.attrs, RemoveEmptyEms(p.root.children));
    r := Ok(Some(LinkData(web, RelativePath(web))));
  }

  // ---------------------------------------------------------------------
  // _extract_links_from_paragraphs
  // ---------------------------------------------------------------------

  /** The lesson one paragraph gives under global number `number`; its text
      is read after the link is extracted. */
  function LessonOf(p: Node, number: int): (r: Result<LessonData>)
    requires p.Element?
    ensures r.Ok? <==> LinkDataOf(p.children).Ok?
    ensures r.Ok? ==> r.value.number == number && r.value.linkData == LinkDataOf(p.children).value
  {
    match LinkDataOf(p.children)
    case Err(e) => Err(e)
    case Ok(link) =>
      var info := ParseLessonText(StrippedText(AfterLinkExtraction(p.children)));
      Ok(LessonData(number, info.number, info.original, info.title, link))
  }

  /** The lesson's text fields come from the paragraph's text as it was
      before extraction. */
  lemma LessonOfText(p: Node, number: int)
    requires p.Element? && LessonOf(p, number).Ok?
    ensures var info := ParseLessonText(StrippedText(p.children));
      var l := LessonOf(p, number).value;
      l.lessonNumber == info.number && l.originalNumber == info.original && l.title == info.title
  {
    ExtractionKeepsText(p.children);
  }

  predicate AllElements(ns: seq<Node>)
  {
    forall i :: 0 <= i < |ns| ==> ns[i].Element?
  }

  /** The paragraphs' lessons, numbered consecutively from `start`, or the
      `KeyError` of the first anchor without href. */
  function LessonsFrom(pars: seq<Node>, start: int): (r: Result<seq<LessonData>>)
    requires AllElements(pars)
    ensures r.Ok? <==> forall k :: 0 <= k < |pars| ==> LinkDataOf(pars[k].children).Ok?
    ensures r.Ok? ==> |r.value| == |pars| && forall k :: 0 <= k < |pars| ==> r.value[k].number == start + k
  {
    if forall k :: 0 <= k < |pars| ==> LinkDataOf(pars[k].children).Ok? then
      Ok(seq(|pars|, k requires 0 <= k < |pars| => LessonAt(pars, start, k)))
    else Err(MissingHref)
  }

  /** The lesson of paragraph `k`, when its link data is there. */
  function LessonAt(pars: seq<Node>, start: int, k: nat): (l: LessonData)
    requires k < |pars| && pars[k].Element? && LinkDataOf(pars[k].children).Ok?
    ensures LessonOf(pars[k], start + k) == Ok(l) && l.number == start + k
  {
    LessonOf(pars[k], start + k).value
  }

  /** `_extract_links_from_paragraphs(paragraphs, start_number)`: each
      paragraph's link is extracted in place before its text is read. */
  method ExtractLinksFromParagraphs(pars: seq<Node>, start: int) returns (r: Result<seq<LessonData>>)
    requires AllElements(pars)
    ensures r == LessonsFrom(pars, start)
  {
    var lessons: seq<LessonData> := [];
    var k := 0;
    while k < |pars|
      invariant 0 <= k <= |pars| && |lessons| == k
      invariant forall j :: 0 <= j < k ==> LessonOf(pars[j], start + j) == Ok(lessons[j])
    {
      var one := ExtractLesson(pars[k], start + k);
      if one.Err? {
        LessonsFromErr(pars, start, k);
        return Err(one.error);
      }
      LessonsRead(pars, start, k, lessons, one.value);
      lessons := lessons + [one.value];
      k := k + 1;
    }
    LessonsFromOk(pars, start, lessons);
    r := Ok(lessons);
  }

  /** The lessons read so far grow by the next paragraph's. */
  lemma LessonsRead(pars: seq<Node>, start: int, k: int, lessons: seq<LessonData>, lesson: LessonData)
    requires AllElements(pars) && 0 <= k < |pars| && |lessons| == k
    requires forall j :: 0 <= j < k ==> LessonOf(pars[j], start + j) == Ok(lessons[j])
    requires LessonOf(pars[k], start + k) == Ok(lesson)
    ensures forall j :: 0 <= j < k + 1 ==> LessonOf(pars[j], start + j) == Ok((lessons + [lesson])[j])
  {
    ReadsGrow(LessonOf, pars, start, k, lessons, lesson);
  }

  /** Agreement of the values read so far with a reader `f` grows by one
      read, whatever `f` computes. */
  lemma ReadsGrow<A, T>(f: (A, int) --> Result<T>, xs: seq<A>, start: int, k: int, done: seq<T>, x: T)
    requires 0 <= k < |xs| && |done| == k
    requires forall j :: 0 <= j < |xs| ==> f.requires(xs[j], start + j)
    requires forall j :: 0 <= j < k ==> f(xs[j], start + j) == Ok(done[j])
    requires f(xs[k], start + k) == Ok(x)
    ensures forall j :: 0 <= j < k + 1 ==> f(xs[j], start + j) == Ok((done + [x])[j])
  {
    var next := done + [x];
    forall j | 0 <= j < k + 1 ensures f(xs[j], start + j) == Ok(next[j]) {
      if j < k {
        assert next[j] == done[j];
      }
    }
  }

  lemma LessonsFromErr(pars: seq<Node>, start: int, k: int)
    requires AllElements(pars) && 0 <= k < |pars| && LessonOf(pars[k], start + k).Err?
    ensures LessonsFrom(pars, start) == Err(MissingHref)
  {
  }

  lemma LessonsFromOk(pars: seq<Node>, start: int, lessons: seq<LessonData>)
    requires AllElements(pars) && |lessons| == |pars|
    requires forall j :: 0 <= j < |pars| ==> LessonOf(pars[j], start + j) == Ok(lessons[j])
    ensures LessonsFrom(pars, start) == Ok(lessons)
  {
    forall j | 0 <= j < |pars| ensures LinkDataOf(pars[j].children).Ok? && LessonAt(pars, start, j) == lessons[j] {
      assert LessonOf(pars[j], start + j) == Ok(lessons[j]);
    }
    assert lessons == seq(|pars|, j requires 0 <= j < |pars| => LessonAt(pars, start, j));
  }

  /** One turn of the loop: the paragraph's link extracted in place, then
      its text read. */
  method ExtractLesson(par: Node, number: int) returns (r: Result<LessonData>)
    requires par.Element?
    ensures r == LessonOf(par, number)
    ensures r.Err? ==> r.error == MissingHref
  {
    var element := new Document(par);
    var linkData := ExtractLinkData(element);
    if linkData.Err? {
      return Err(linkData.error);
    }
    var info := ParseLessonText(StrippedText(element.root.children));
    r := Ok(LessonData(number, info.number, info.original, info.title, linkData.value));
  }

  // ---------------------------------------------------------------------
  // _extract_sectioned_index
  // ---------------------------------------------------------------------

  /** The ordered dict from section title to its lessons, as its list of
      entries. */
  type Sections = seq<(string, seq<LessonData>)>

  function Keys(s: Sections): (r: seq<string>)
    ensures |r| == |s| && forall i :: 0 <= i < |s| ==> r[i] == s[i].0
  {
    seq(|s|, i requires 0 <= i < |s| => s[i].0)
  }

  predicate Distinct(ks: seq<string>)
  {
    forall i, j :: 0 <= i < j < |ks| ==> ks[i] != ks[j]
  }

  /** The section in force before any heading; it is never a key. */
  const Uncategorized: string := "Uncategorized"

  predicate IsHeadingItem(x: Node)
  {
    x.Element? && StartsWith(x.tag, "h")
  }

  predicate IsParagraphItem(x: Node)
  {
    x.Element? && x.tag == "p"
  }

  /** The lessons one paragraph of the index holds: its pieces between
      `<br>` markers, reparsed, each read as a lesson. */
  function ParagraphLessons(cs: seq<Node>, start: int, parse: string -> seq<Node>): (r: Result<seq<LessonData>>)
    ensures r.Ok? ==> forall k :: 0 <= k < |r.value| ==> r.value[k].number == start + k
  {
    var paragraphs := BreakParagraphByBr(cs, parse);
    FindAllMatches(paragraphs, TagIs("p"));
    LessonsFrom(FindAll(paragraphs, TagIs("p")), start)
  }

  /** How the walk reads a paragraph (its children, the next number). */
  type Reader = (seq<Node>, int) -> Result<seq<LessonData>>

  function ReadParagraph(parse: string -> seq<Node>): Reader
  {
    (cs, start) => ParagraphLessons(cs, start, parse)
  }

  /** A reader that numbers its lessons on from the number it is given. */
  ghost predicate Consecutive(read: Reader)
  {
    forall cs, start :: read(cs, start).Ok? ==>
      forall k :: 0 <= k < |read(cs, start).value| ==> read(cs, start).value[k].number == start + k
  }

  lemma ReadParagraphConsecutive(parse: string -> seq<Node>)
    ensures Consecutive(ReadParagraph(parse))
  {
    forall cs, start | ReadParagraph(parse)(cs, start).Ok?
      ensures forall k :: 0 <= k < |ReadParagraph(parse)(cs, start).value| ==>
        ReadParagraph(parse)(cs, start).value[k].number == start + k
    {
      assert ReadParagraph(parse)(cs, start) == ParagraphLessons(cs, start, parse);
    }
  }

  /** The title of the last heading among `items`, if there is one. */
  function LastHeading(items: seq<Node>): Option<string>
  {
    if items == [] then None
    else
      var x := items[|items| - 1];
      if IsHeadingItem(x) then Some(StrippedText(x.children)) else LastHeading(items[..|items| - 1])
  }

  /** Heading titles in the order they are first seen, each once. */
  function HeadingKeys(items: seq<Node>): (r: seq<string>)
    ensures Distinct(r)
  {
    if items == [] then []
    else
      var ks := HeadingKeys(items[..|items| - 1]);
      var x := items[|items| - 1];
      if IsHeadingItem(x) && StrippedText(x.children) !in ks then ks + [StrippedText(x.children)] else ks
  }

  /** A lesson and the title in force where it stands. */
  type Placed = (Option<string>, LessonData)

  function Under(g: Option<string>, ls: seq<LessonData>): (r: seq<Placed>)
    ensures |r| == |ls| && forall i :: 0 <= i < |ls| ==> r[i] == (g, ls[i])
  {
    seq(|ls|, i requires 0 <= i < |ls| => (g, ls[i]))
  }

  /** Every lesson of the index in document order with the title in force
      over it, each numbered one past the lessons before it. */
  function PlacedLessons(items: seq<Node>, read: Reader): Result<seq<Placed>>
  {
    if items == [] then Ok([])
    else
      var init := items[..|items| - 1];
      var x := items[|items| - 1];
      match PlacedLessons(init, read)
      case Err(e) => Err(e)
      case Ok(f) =>
        if IsHeadingItem(x) || !IsParagraphItem(x) then Ok(f)
        else
          match read(x.children, 1 + |f|)
          case Err(e) => Err(e)
          case Ok(ls) => Ok(f + Under(LastHeading(init), ls))
  }

  lemma PlacedParagraph(init: seq<Node>, x: Node, read: Reader, f: seq<Placed>, ls: seq<LessonData>)
    requires PlacedLessons(init, read) == Ok(f) && IsParagraphItem(x) && !IsHeadingItem(x)
    requires read(x.children, 1 + |f|) == Ok(ls)
    ensures PlacedLessons(init + [x], read) == Ok(f + Under(LastHeading(init), ls))
  {
    var items := init + [x];
    assert items[..|items| - 1] == init;
  }

  lemma PlacedParagraphErr(init: seq<Node>, x: Node, read: Reader, f: seq<Placed>, e: string)
    requires PlacedLessons(init, read) == Ok(f) && IsParagraphItem(x) && !IsHeadingItem(x)
    requires read(x.children, 1 + |f|) == Err(e)
    ensures PlacedLessons(init + [x], read) == Err(e)
  {
    var items := init + [x];
    assert items[..|items| - 1] == init;
  }

  lemma PlacedOther(init: seq<Node>, x: Node, read: Reader)
    requires PlacedLessons(init, read).Ok? && (IsHeadingItem(x) || !IsParagraphItem(x))
    ensures PlacedLessons(init + [x], read) == PlacedLessons(init, read)
  {
    var items := init + [x];
    assert items[..|items| - 1] == init;
  }

  /** The walk succeeds only when every step before succeeded. */
  lemma PlacedPrefixOk(init: seq<Node>, x: Node, read: Reader)
    requires PlacedLessons(init + [x], read).Ok?
    ensures PlacedLessons(init, read).Ok?
    ensures var f := PlacedLessons(init, read).value;
      IsParagraphItem(x) && !IsHeadingItem(x) ==>
        read(x.children, 1 + |f|).Ok?
        && PlacedLessons(init + [x], read).value == f + Under(LastHeading(init), read(x.children, 1 + |f|).value)
    ensures !(IsParagraphItem(x) && !IsHeadingItem(x)) ==> PlacedLessons(init + [x], read) == PlacedLessons(init, read)
  {
    var items := init + [x];
    assert items[..|items| - 1] == init;
  }

  /** The lessons placed under title `k`, in order. */
  function LessonsUnder(f: seq<Placed>, k: string): seq<LessonData>
  {
    if f == [] then [] else (if f[0].0 == Some(k) then [f[0].1] else []) + LessonsUnder(f[1..], k)
  }

  /** One entry per key, holding the lessons under it. */
  function SectionsFor(keys: seq<string>, f: seq<Placed>): (r: Sections)
    ensures |r| == |keys| && forall i :: 0 <= i < |keys| ==> r[i] == (keys[i], LessonsUnder(f, keys[i]))
  {
    seq(|keys|, i requires 0 <= i < |keys| => (keys[i], LessonsUnder(f, keys[i])))
  }

  /** `{k: v for k, v in sections.items() if v}` */
  function NonEmpty(s: Sections): (r: Sections)
    ensures forall i :: 0 <= i < |r| ==> r[i].1 != [] && r[i] in s
    ensures forall e :: e in s && e.1 != [] ==> e in r
  {
    if s == [] then []
    else (if s[0].1 != [] then [s[0]] else []) + NonEmpty(s[1..])
  }

  /** What `_extract_sectioned_index` returns, stated without its running
      state: each heading title that has lessons, in first-seen order,
      with the lessons of every paragraph whose nearest heading before it
      has that title. */
  function SectionedIndex(cs: seq<Node>, parse: string -> seq<Node>): Result<Sections>
  {
    var items := FindAll(cs, HeadingOrParagraph);
    match PlacedLessons(items, ReadParagraph(parse))
    case Err(e) => Err(e)
    case Ok(f) => Ok(NonEmpty(SectionsFor(HeadingKeys(items), f)))
  }

  /** `sections[current_section].extend(lessons)` */
  function Extend(s: Sections, key: string, ls: seq<LessonData>): (r: Sections)
    ensures |r| == |s| && forall i :: 0 <= i < |s| ==> r[i] == if s[i].0 == key then (key, s[i].1 + ls) else s[i]
  {
    seq(|s|, i requires 0 <= i < |s| => if s[i].0 == key then (key, s[i].1 + ls) else s[i])
  }

  function SectionName(g: Option<string>): string
  {
    match g
    case None => Uncategorized
    case Some(t) => t
  }

  lemma {:induction false} LessonsUnderAppend(f: seq<Placed>, g: seq<Placed>, k: string)
    ensures LessonsUnder(f + g, k) == LessonsUnder(f, k) + LessonsUnder(g, k)
  {
    if f == [] {
      assert f + g == g;
    } else {
      var h := if f[0].0 == Some(k) then [f[0].1] else [];
      assert f + g == [f[0]] + (f[1..] + g);
      assert f == [f[0]] + f[1..];
      LessonsUnderCons(f[0], f[1..] + g, k);
      LessonsUnderCons(f[0], f[1..], k);
      LessonsUnderAppend(f[1..], g, k);
      AppendAssoc3(h, LessonsUnder(f[1..], k), LessonsUnder(g, k));
    }
  }

  lemma {:induction false} LessonsUnderOne(g: Option<string>, ls: seq<LessonData>, k: string)
    ensures LessonsUnder(Under(g, ls), k) == if g == Some(k) then ls else []
  {
    if ls != [] {
      assert Under(g, ls)[1..] == Under(g, ls[1..]);
      LessonsUnderOne(g, ls[1..], k);
      assert [ls[0]] + ls[1..] == ls;
    }
  }

  lemma {:induction false} LessonsUnderAbsent(f: seq<Placed>, k: string)
    requires forall j :: 0 <= j < |f| ==> f[j].0 != Some(k)
    ensures LessonsUnder(f, k) == []
  {
    if f != [] {
      LessonsUnderAbsent(f[1..], k);
    }
  }

  /** Every title a lesson is placed under is a key. */
  predicate PlacedUnderKeys(f: seq<Placed>, keys: seq<string>)
  {
    forall j :: 0 <= j < |f| ==> f[j].0.Some? ==> f[j].0.value in keys
  }

  /** The loop's state after `items`: the entries for the keys seen so far,
      the title in force, the number the next lesson gets. */
  predicate WalkState(items: seq<Node>, f: seq<Placed>, sections: Sections, current: string, counter: int)
  {
    var keys := HeadingKeys(items);
    sections == SectionsFor(keys, f)
    && counter == 1 + |f|
    && current == SectionName(LastHeading(items))
    && (LastHeading(items).None? ==> keys == [])
    && (LastHeading(items).Some? ==> LastHeading(items).value in keys)
    && PlacedUnderKeys(f, keys)
  }

  /** A heading: its title is in force and, when new, a key with no lessons. */
  lemma HeadingStep(items: seq<Node>, x: Node, f: seq<Placed>, sections: Sections, current: string, counter: int)
    requires WalkState(items, f, sections, current, counter) && IsHeadingItem(x)
    ensures var t := StrippedText(x.children);
      WalkState(items + [x], f, if t !in Keys(sections) then sections + [(t, [])] else sections, t, counter)
  {
    var t := StrippedText(x.children);
    var items' := items + [x];
    assert items'[..|items'| - 1] == items;
    var keys := HeadingKeys(items);
    assert Keys(sections) == keys;
    if t !in keys {
      forall j | 0 <= j < |f| ensures f[j].0 != Some(t) {
      }
      LessonsUnderAbsent(f, t);
      assert sections + [(t, [])] == SectionsFor(keys + [t], f);
    }
  }

  /** A paragraph: its lessons are numbered on and, under a heading, join
      that heading's entry. */
  lemma ParagraphStep(items: seq<Node>, x: Node, f: seq<Placed>, sections: Sections, current: string, counter: int,
                      ls: seq<LessonData>)
    requires WalkState(items, f, sections, current, counter) && !IsHeadingItem(x)
    ensures WalkState(items + [x], f + Under(LastHeading(items), ls),
      if current in Keys(sections) then Extend(sections, current, ls) else sections, current, counter + |ls|)
  {
    var items' := items + [x];
    assert items'[..|items'| - 1] == items;
    var keys := HeadingKeys(items);
    var g := LastHeading(items);
    var f' := f + Under(g, ls);
    assert Keys(sections) == keys;
    forall i | 0 <= i < |keys|
      ensures LessonsUnder(f', keys[i]) == LessonsUnder(f, keys[i]) + (if g == Some(keys[i]) then ls else [])
    {
      LessonsUnderAppend(f, Under(g, ls), keys[i]);
      LessonsUnderOne(g, ls, keys[i]);
    }
    if g.Some? {
      var e := Extend(sections, current, ls);
      forall i | 0 <= i < |keys| ensures e[i] == SectionsFor(keys, f')[i] {
        assert sections[i] == (keys[i], LessonsUnder(f, keys[i]));
        assert LessonsUnder(f, keys[i]) + [] == LessonsUnder(f, keys[i]);
      }
      assert e == SectionsFor(keys, f');
    } else {
      assert sections == [] == SectionsFor(keys, f');
    }
    forall j | 0 <= j < |f'| ensures f'[j].0.Some? ==> f'[j].0.value in keys {
      if j >= |f| {
        assert f'[j] == (g, ls[j - |f|]);
      }
    }
  }

  /** Anything else changes nothing. */
  lemma OtherStep(items: seq<Node>, x: Node, f: seq<Placed>, sections: Sections, current: string, counter: int)
    requires WalkState(items, f, sections, current, counter) && !IsHeadingItem(x)
    ensures WalkState(items + [x], f, sections, current, counter)
  {
    var items' := items + [x];
    assert items'[..|items'| - 1] == items;
  }

  /** A failing paragraph fails the whole walk, with its error. */
  lemma {:induction false} PlacedErrStays(items: seq<Node>, n: nat, read: Reader)
    requires n <= |items| && PlacedLessons(items[..n], read).Err?
    ensures PlacedLessons(items, read) == PlacedLessons(items[..n], read)
    decreases |items|
  {
    if n < |items| {
      var init := items[..|items| - 1];
      assert init[..n] == items[..n];
      PlacedErrStays(init, n, read);
    } else {
      assert items[..n] == items;
    }
  }

  /** The paragraph branch of the walk: split the paragraph at its `<br>` markers,
      then read a lesson from each piece. */
  method ReadParagraphLessons(cs: seq<Node>, start: int, parse: string -> seq<Node>) returns (r: Result<seq<LessonData>>)
    ensures r == ReadParagraph(parse)(cs, start)
  {
    var paragraphs := BreakParagraphByBr(cs, parse);
    var pars := FindAll(paragraphs, TagIs("p"));
    FindAllMatches(paragraphs, TagIs("p"));
    r := ExtractLinksFromParagraphs(pars, start);
  }

  /** The walk meets a heading: its title comes into force and, when new,
      becomes a section with no lessons yet. */
  method HeadingItem(ghost prefix: seq<Node>, x: Node, ghost placed: seq<Placed>, sections: Sections,
                     current: string, counter: int) returns (sections': Sections, current': string)
    requires WalkState(prefix, placed, sections, current, counter) && IsHeadingItem(x)
    ensures WalkState(prefix + [x], placed, sections', current', counter)
  {
    HeadingStep(prefix, x, placed, sections, current, counter);
    current' := StrippedText(x.children);
    sections' := sections;
    if current' !in Keys(sections) {
      sections' := sections + [(current', [])];
    }
  }

  /** The walk meets a paragraph: its lessons are read on from the counter and
      join the section in force, or the failing lookup ends the walk. */
  method ParagraphItem(ghost prefix: seq<Node>, x: Node, parse: string -> seq<Node>, ghost placed: seq<Placed>,
                       sections: Sections, current: string, counter: int)
    returns (r: Result<seq<LessonData>>, sections': Sections, counter': int, ghost placed': seq<Placed>)
    requires PlacedLessons(prefix, ReadParagraph(parse)) == Ok(placed)
    requires WalkState(prefix, placed, sections, current, counter) && IsParagraphItem(x) && !IsHeadingItem(x)
    ensures r.Err? ==> PlacedLessons(prefix + [x], ReadParagraph(parse)) == Err(r.error)
    ensures r.Ok? ==> PlacedLessons(prefix + [x], ReadParagraph(parse)) == Ok(placed')
    ensures r.Ok? ==> WalkState(prefix + [x], placed', sections', current, counter')
  {
    r := ReadParagraphLessons(x.children, counter, parse);
    sections', counter', placed' := sections, counter, placed;
    if r.Err? {
      PlacedParagraphErr(prefix, x, ReadParagraph(parse), placed, r.error);
      return;
    }
    PlacedParagraph(prefix, x, ReadParagraph(parse), placed, r.value);
    ParagraphStep(prefix, x, placed, sections, current, counter, r.value);
    placed' := placed + Under(LastHeading(prefix), r.value);
    if current in Keys(sections) {
      sections' := Extend(sections, current, r.value);
    }
    counter' := counter + |r.value|;
  }

  lemma WalkStart(items: seq<Node>, read: Reader)
    ensures PlacedLessons(items[..0], read) == Ok([])
    ensures WalkState(items[..0], [], [], Uncategorized, 1)
  {
    assert items[..0] == [];
  }

  /** A failing step ends the whole walk with its error. */
  lemma WalkFailed(cs: seq<Node>, parse: string -> seq<Node>, n: nat, e: string)
    requires n <= |FindAll(cs, HeadingOrParagraph)|
    requires PlacedLessons(FindAll(cs, HeadingOrParagraph)[..n], ReadParagraph(parse)) == Err(e)
    ensures SectionedIndex(cs, parse) == Err(e)
  {
    PlacedErrStays(FindAll(cs, HeadingOrParagraph), n, ReadParagraph(parse));
  }

  /** Once every item is walked, the state is the dict the function builds. */
  lemma WalkDone(cs: seq<Node>, parse: string -> seq<Node>, f: seq<Placed>, sections: Sections, current: string, counter: int)
    requires var items := FindAll(cs, HeadingOrParagraph);
      PlacedLessons(items[..|items|], ReadParagraph(parse)) == Ok(f) && WalkState(items[..|items|], f, sections, current, counter)
    ensures SectionedIndex(cs, parse) == Ok(NonEmpty(sections))
  {
    var items := FindAll(cs, HeadingOrParagraph);
    assert items[..|items|] == items;
  }

  /** One item of the walk: a heading, a paragraph or neither. */
  method WalkItem(ghost prefix: seq<Node>, x: Node, parse: string -> seq<Node>, ghost placed: seq<Placed>,
                  sections: Sections, current: string, counter: int)
    returns (failed: Option<string>, sections': Sections, current': string, counter': int, ghost placed': seq<Placed>)
    requires PlacedLessons(prefix, ReadParagraph(parse)) == Ok(placed)
    requires WalkState(prefix, placed, sections, current, counter)
    ensures failed.Some? ==> PlacedLessons(prefix + [x], ReadParagraph(parse)) == Err(failed.value)
    ensures failed.None? ==> PlacedLessons(prefix + [x], ReadParagraph(parse)) == Ok(placed')
    ensures failed.None? ==> WalkState(prefix + [x], placed', sections', current', counter')
  {
    failed, sections', current', counter', placed' := None, sections, current, counter, placed;
    if IsHeadingItem(x) {
      PlacedOther(prefix, x, ReadParagraph(parse));
      sections', current' := HeadingItem(prefix, x, placed, sections, current, counter);
    } else if IsParagraphItem(x) {
      var lessons;
      lessons, sections', counter', placed' := ParagraphItem(prefix, x, parse, placed, sections, current, counter);
      if lessons.Err? {
        failed := Some(lessons.error);
      }
    } else {
      PlacedOther(prefix, x, ReadParagraph(parse));
      OtherStep(prefix, x, placed, sections, current, counter);
    }
  }

  /** `_extract_sectioned_index(content_div)`: one pass over the headings and
      paragraphs in document order, carrying the current section and the
      overall lesson counter; a failing href lookup propagates. */
  method ExtractSectionedIndex(div: Node, parse: string -> seq<Node>) returns (r: Result<Sections>)
    requires div.Element?
    ensures r == SectionedIndex(div.children, parse)
  {
    var items := FindAll(div.children, HeadingOrParagraph);
    var sections: Sections := [];
    var current := Uncategorized;
    var counter := 1;
    ghost var placed: seq<Placed> := [];
    var i := 0;
    WalkStart(items, ReadParagraph(parse));
    while i < |items|
      invariant 0 <= i <= |items|
      invariant PlacedLessons(items[..i], ReadParagraph(parse)) == Ok(placed)
      invariant WalkState(items[..i], placed, sections, current, counter)
    {
      assert items[..i + 1] == items[..i] + [items[i]];
      var failed;
      failed, sections, current, counter, placed := WalkItem(items[..i], items[i], parse, placed, sections, current, counter);
      if failed.Some? {
        WalkFailed(div.children, parse, i + 1, failed.value);
        return Err(failed.value);
      }
      i := i + 1;
    }
    WalkDone(div.children, parse, placed, sections, current, counter);
    r := Ok(NonEmpty(sections));
  }

  // What the index walk guarantees.

  function Numbers(ls: seq<LessonData>): (r: seq<int>)
    ensures |r| == |ls| && forall i :: 0 <= i < |ls| ==> r[i] == ls[i].number
  {
    seq(|ls|, i requires 0 <= i < |ls| => ls[i].number)
  }

  predicate Increasing(ns: seq<int>)
  {
    forall i, j :: 0 <= i < j < |ns| ==> ns[i] < ns[j]
  }

  /** Every lesson number in the dict, section by section. */
  function AllNumbers(s: Sections): seq<int>
  {
    if s == [] then [] else Numbers(s[0].1) + AllNumbers(s[1..])
  }

  /** The numbers of the lessons placed under one of `keys`, in order. */
  function KeptNumbers(f: seq<Placed>, keys: seq<string>): seq<int>
  {
    if f == [] then []
    else (if f[0].0.Some? && f[0].0.value in keys then [f[0].1.number] else []) + KeptNumbers(f[1..], keys)
  }

  function Range(lo: int, hi: int): (r: seq<int>)
    requires lo <= hi
    ensures |r| == hi - lo && forall i :: 0 <= i < |r| ==> r[i] == lo + i
  {
    seq(hi - lo, i requires 0 <= i < hi - lo => lo + i)
  }

  /** Lessons are numbered by their position among all lessons of the
      index, those before the first heading included. */
  lemma {:induction false} PlacedNumbered(items: seq<Node>, read: Reader)
    requires Consecutive(read) && PlacedLessons(items, read).Ok?
    ensures var f := PlacedLessons(items, read).value;
      forall j :: 0 <= j < |f| ==> f[j].1.number == j + 1
    decreases |items|
  {
    if items != [] {
      var init := items[..|items| - 1];
      var x := items[|items| - 1];
      assert items == init + [x];
      PlacedPrefixOk(init, x, read);
      PlacedNumbered(init, read);
      var f := PlacedLessons(init, read).value;
      if IsParagraphItem(x) && !IsHeadingItem(x) {
        var ls := read(x.children, 1 + |f|).value;
        var f' := f + Under(LastHeading(init), ls);
        forall j | |f| <= j < |f'| ensures f'[j].1.number == j + 1 {
          assert f'[j].1 == ls[j - |f|];
        }
      }
    }
  }

  lemma {:induction false} HeadingKeysGrow(items: seq<Node>, n: nat)
    requires n <= |items|
    ensures forall t :: t in HeadingKeys(items[..n]) ==> t in HeadingKeys(items)
    decreases |items|
  {
    if n < |items| {
      var init := items[..|items| - 1];
      assert init[..n] == items[..n];
      HeadingKeysGrow(init, n);
    } else {
      assert items[..n] == items;
    }
  }

  lemma {:induction false} LastHeadingIsKey(items: seq<Node>)
    ensures LastHeading(items).Some? ==> LastHeading(items).value in HeadingKeys(items)
    decreases |items|
  {
    if items != [] {
      LastHeadingIsKey(items[..|items| - 1]);
    }
  }

  /** Every placed lesson's title is one of the keys. */
  lemma {:induction false} PlacedUnderHeadings(items: seq<Node>, read: Reader)
    requires PlacedLessons(items, read).Ok?
    ensures PlacedUnderKeys(PlacedLessons(items, read).value, HeadingKeys(items))
    decreases |items|
  {
    if items != [] {
      var init := items[..|items| - 1];
      var x := items[|items| - 1];
      assert items == init + [x];
      PlacedPrefixOk(init, x, read);
      PlacedUnderHeadings(init, read);
      HeadingKeysGrow(items, |items| - 1);
      LastHeadingIsKey(init);
      var f := PlacedLessons(init, read).value;
      var f' := PlacedLessons(items, read).value;
      forall j | 0 <= j < |f'| && f'[j].0.Some? ensures f'[j].0.value in HeadingKeys(items) {
        if j >= |f| {
          assert f'[j].0 == LastHeading(init);
        } else {
          assert f'[j] == f[j];
        }
      }
    }
  }

  function PlacedNumbers(f: seq<Placed>): (r: seq<int>)
    ensures |r| == |f| && forall j :: 0 <= j < |f| ==> r[j] == f[j].1.number
  {
    seq(|f|, j requires 0 <= j < |f| => f[j].1.number)
  }

  /** Picking out one title's lessons keeps their order. */
  lemma {:induction false} LessonsUnderIncreasing(f: seq<Placed>, k: string)
    requires Increasing(PlacedNumbers(f))
    ensures Increasing(Numbers(LessonsUnder(f, k)))
    ensures forall i :: 0 <= i < |LessonsUnder(f, k)| ==> LessonsUnder(f, k)[i].number in PlacedNumbers(f)
  {
    if f != [] {
      var tail := f[1..];
      assert PlacedNumbers(tail) == PlacedNumbers(f)[1..];
      LessonsUnderIncreasing(tail, k);
      var rest := LessonsUnder(tail, k);
      forall i | 0 <= i < |rest| ensures f[0].1.number < rest[i].number && rest[i].number in PlacedNumbers(f) {
        var j :| 0 <= j < |tail| && PlacedNumbers(tail)[j] == rest[i].number;
        assert PlacedNumbers(f)[j + 1] == rest[i].number;
      }
      assert f == [f[0]] + tail;
      LessonsUnderCons(f[0], tail, k);
      if f[0].0 == Some(k) {
        assert LessonsUnder(f, k) == [f[0].1] + rest;
        NumbersAppend([f[0].1], rest);
        assert Numbers([f[0].1]) == [f[0].1.number];
        IncreasingCons(f[0].1.number, Numbers(rest));
      } else {
        assert LessonsUnder(f, k) == rest;
      }
    }
  }

  lemma IncreasingCons(x: int, ns: seq<int>)
    requires Increasing(ns) && forall i :: 0 <= i < |ns| ==> x < ns[i]
    ensures Increasing([x] + ns)
  {
    forall i, j | 0 <= i < j < |[x] + ns| ensures ([x] + ns)[i] < ([x] + ns)[j] {
      if i > 0 {
        assert ([x] + ns)[i] == ns[i - 1];
      }
      assert ([x] + ns)[j] == ns[j - 1];
    }
  }

  lemma {:induction false} NumbersAppend(a: seq<LessonData>, b: seq<LessonData>)
    ensures Numbers(a + b) == Numbers(a) + Numbers(b)
  {
  }

  lemma SectionsForCons(keys: seq<string>, f: seq<Placed>)
    requires keys != []
    ensures SectionsFor(keys, f) == [(keys[0], LessonsUnder(f, keys[0]))] + SectionsFor(keys[1..], f)
  {
  }

  lemma LessonsUnderCons(p: Placed, g: seq<Placed>, k: string)
    ensures LessonsUnder([p] + g, k) == (if p.0 == Some(k) then [p.1] else []) + LessonsUnder(g, k)
  {
    assert ([p] + g)[1..] == g;
  }

  /** The numbers of the entries are those of the first key, then the rest. */
  lemma SectionsNumbersHead(keys: seq<string>, f: seq<Placed>)
    requires keys != []
    ensures AllNumbers(SectionsFor(keys, f))
      == Numbers(LessonsUnder(f, keys[0])) + AllNumbers(SectionsFor(keys[1..], f))
  {
    var s := SectionsFor(keys, f);
    SectionsForCons(keys, f);
    assert s[1..] == SectionsFor(keys[1..], f);
  }

  /** The first key's numbers gain the new lesson's number exactly when it is
      placed under that key. */
  lemma HeadNumbersCons(p: Placed, g: seq<Placed>, k: string)
    ensures Numbers(LessonsUnder([p] + g, k))
      == (if p.0 == Some(k) then [p.1.number] else []) + Numbers(LessonsUnder(g, k))
  {
    LessonsUnderCons(p, g, k);
    var head: seq<LessonData> := if p.0 == Some(k) then [p.1] else [];
    NumbersAppend(head, LessonsUnder(g, k));
    assert Numbers(head) == if p.0 == Some(k) then [p.1.number] else [];
  }

  lemma MultisetRegroup(h: seq<int>, u: seq<int>, a: seq<int>, b: seq<int>, extra: multiset<int>)
    requires multiset(a) == multiset(b) + extra
    ensures multiset(h + u + a) == multiset(u + b) + (multiset(h) + extra)
  {
  }

  /** One more placed lesson adds its number to the one entry of its title,
      if that title is a key. */
  lemma {:induction false} SectionsNumbersCons(keys: seq<string>, p: Placed, g: seq<Placed>)
    requires Distinct(keys)
    ensures multiset(AllNumbers(SectionsFor(keys, [p] + g)))
      == multiset(AllNumbers(SectionsFor(keys, g)))
         + (if p.0.Some? && p.0.value in keys then multiset{p.1.number} else multiset{})
  {
    if keys != [] {
      var k := keys[0];
      var rest := keys[1..];
      assert Distinct(rest);
      SectionsNumbersCons(rest, p, g);
      SectionsNumbersHead(keys, [p] + g);
      SectionsNumbersHead(keys, g);
      HeadNumbersCons(p, g, k);
      var h: seq<int> := if p.0 == Some(k) then [p.1.number] else [];
      var extra := if p.0.Some? && p.0.value in rest then multiset{p.1.number} else multiset{};
      MultisetRegroup(h, Numbers(LessonsUnder(g, k)), AllNumbers(SectionsFor(rest, [p] + g)),
        AllNumbers(SectionsFor(rest, g)), extra);
      ExtraSplit(p, keys);
    }
  }

  /** The new number counts once: under the first key, or under a later one. */
  lemma ExtraSplit(p: Placed, keys: seq<string>)
    requires keys != [] && Distinct(keys)
    ensures multiset(if p.0 == Some(keys[0]) then [p.1.number] else [])
        + (if p.0.Some? && p.0.value in keys[1..] then multiset{p.1.number} else multiset{})
      == if p.0.Some? && p.0.value in keys then multiset{p.1.number} else multiset{}
  {
    assert keys == [keys[0]] + keys[1..];
    if p.0 == Some(keys[0]) {
      assert p.0.value !in keys[1..];
    }
  }

  lemma {:induction false} SectionsNumbersEmpty(keys: seq<string>)
    ensures AllNumbers(SectionsFor(keys, [])) == []
  {
    if keys != [] {
      SectionsForCons(keys, []);
      SectionsNumbersEmpty(keys[1..]);
    }
  }

  /** The entries hold, between them, the numbers of exactly the lessons
      placed under a key, each once. */
  lemma {:induction false} SectionsNumbers(keys: seq<string>, f: seq<Placed>)
    requires Distinct(keys)
    ensures multiset(AllNumbers(SectionsFor(keys, f))) == multiset(KeptNumbers(f, keys))
  {
    if f == [] {
      SectionsNumbersEmpty(keys);
    } else {
      SectionsNumbers(keys, f[1..]);
      assert f == [f[0]] + f[1..];
      SectionsNumbersCons(keys, f[0], f[1..]);
    }
  }

  lemma {:induction false} AllNumbersNonEmpty(s: Sections)
    ensures AllNumbers(NonEmpty(s)) == AllNumbers(s)
  {
    if s != [] {
      var t := NonEmpty(s[1..]);
      AllNumbersNonEmpty(s[1..]);
      if s[0].1 != [] {
        var r := [s[0]] + t;
        assert NonEmpty(s) == r;
        assert r[1..] == t;
        assert AllNumbers(r) == Numbers(s[0].1) + AllNumbers(t);
      } else {
        assert NonEmpty(s) == t;
        assert Numbers(s[0].1) == [];
      }
    }
  }

  /** With lessons numbered `base`, `base + 1`, ...: a number is kept once
      when its lesson is placed under a key, and never otherwise. */
  lemma {:induction false} KeptCount(f: seq<Placed>, keys: seq<string>, base: int, n: int)
    requires forall j :: 0 <= j < |f| ==> f[j].1.number == base + j
    ensures multiset(KeptNumbers(f, keys))[n] ==
      if base <= n < base + |f| && f[n - base].0.Some? && f[n - base].0.value in keys then 1 else 0
  {
    if f != [] {
      KeptCount(f[1..], keys, base + 1, n);
    }
  }

  predicate DistinctTitles(s: Sections)
  {
    forall i, j :: 0 <= i < j < |s| ==> s[i].0 != s[j].0
  }

  lemma {:induction false} NonEmptyDistinct(s: Sections)
    requires DistinctTitles(s)
    ensures DistinctTitles(NonEmpty(s))
  {
    if s != [] {
      var u := s[1..];
      assert DistinctTitles(u) by {
        forall i, j | 0 <= i < j < |u| ensures u[i].0 != u[j].0 {
          assert u[i] == s[i + 1] && u[j] == s[j + 1];
        }
      }
      NonEmptyDistinct(u);
      var t := NonEmpty(u);
      if s[0].1 != [] {
        var r := [s[0]] + t;
        assert NonEmpty(s) == r;
        forall i | 0 <= i < |t| ensures t[i].0 != s[0].0 {
          assert t[i] in u;
          var j :| 0 <= j < |u| && u[j] == t[i];
          assert s[j + 1] == t[i];
        }
        forall i, j | 0 <= i < j < |r| ensures r[i].0 != r[j].0 {
          assert r[j] == t[j - 1];
          if i > 0 {
            assert r[i] == t[i - 1];
          }
        }
      } else {
        assert NonEmpty(s) == t;
      }
    }
  }

  /** All lessons of the index with the title in force over each. */
  function IndexLessons(cs: seq<Node>, parse: string -> seq<Node>): Result<seq<Placed>>
  {
    PlacedLessons(FindAll(cs, HeadingOrParagraph), ReadParagraph(parse))
  }

  /** The dict's keys are distinct heading titles, and every entry has
      lessons. */
  lemma IndexEntries(cs: seq<Node>, parse: string -> seq<Node>)
    requires SectionedIndex(cs, parse).Ok?
    ensures var r := SectionedIndex(cs, parse).value;
      Distinct(Keys(r)) && forall i :: 0 <= i < |r| ==> r[i].1 != []
  {
    var items := FindAll(cs, HeadingOrParagraph);
    var f := IndexLessons(cs, parse).value;
    var s := SectionsFor(HeadingKeys(items), f);
    var r := NonEmpty(s);
    assert DistinctTitles(s) by {
      assert Keys(s) == HeadingKeys(items);
    }
    NonEmptyDistinct(s);
    assert forall i :: 0 <= i < |r| ==> Keys(r)[i] == r[i].0;
  }

  /** Within each section, numbers strictly increase in document order. */
  lemma IndexSectionsOrdered(cs: seq<Node>, parse: string -> seq<Node>)
    requires SectionedIndex(cs, parse).Ok?
    ensures var r := SectionedIndex(cs, parse).value;
      forall i :: 0 <= i < |r| ==> Increasing(Numbers(r[i].1))
  {
    var items := FindAll(cs, HeadingOrParagraph);
    var f := IndexLessons(cs, parse).value;
    ReadParagraphConsecutive(parse);
    PlacedNumbered(items, ReadParagraph(parse));
    assert Increasing(PlacedNumbers(f));
    var s := SectionsFor(HeadingKeys(items), f);
    var r := SectionedIndex(cs, parse).value;
    forall i | 0 <= i < |r| ensures Increasing(Numbers(r[i].1)) {
      var j :| 0 <= j < |s| && s[j] == r[i];
      LessonsUnderIncreasing(f, HeadingKeys(items)[j]);
    }
  }

  /** Number `n` is in the dict, once, exactly when the `n`-th lesson of
      the index stands below some heading; lessons before the first heading
      use up their numbers but are dropped. */
  lemma IndexNumbers(cs: seq<Node>, parse: string -> seq<Node>, n: int)
    requires SectionedIndex(cs, parse).Ok?
    ensures var f := IndexLessons(cs, parse).value;
      multiset(AllNumbers(SectionedIndex(cs, parse).value))[n] ==
        if 1 <= n <= |f| && f[n - 1].0.Some? then 1 else 0
  {
    var items := FindAll(cs, HeadingOrParagraph);
    var f := IndexLessons(cs, parse).value;
    var keys := HeadingKeys(items);
    ReadParagraphConsecutive(parse);
    PlacedNumbered(items, ReadParagraph(parse));
    PlacedUnderHeadings(items, ReadParagraph(parse));
    AllNumbersNonEmpty(SectionsFor(keys, f));
    SectionsNumbers(keys, f);
    KeptCount(f, keys, 1, n);
  }

  /** Hence the dict numbers its lessons exactly 1..N when, and only when,
      no lesson comes before the first heading. */
  lemma IndexNumbersExactly(cs: seq<Node>, parse: string -> seq<Node>)
    requires SectionedIndex(cs, parse).Ok?
    ensures var f := IndexLessons(cs, parse).value;
      multiset(AllNumbers(SectionedIndex(cs, parse).value)) == multiset(Range(1, |f| + 1))
      <==> forall j :: 0 <= j < |f| ==> f[j].0.Some?
  {
    var f := IndexLessons(cs, parse).value;
    var m := multiset(AllNumbers(SectionedIndex(cs, parse).value));
    forall n ensures m[n] == if 1 <= n <= |f| && f[n - 1].0.Some? then 1 else 0 {
      IndexNumbers(cs, parse, n);
    }
    ExactlyFromCounts(m, f);
  }

  lemma ExactlyFromCounts(m: multiset<int>, f: seq<Placed>)
    requires forall n :: m[n] == if 1 <= n <= |f| && f[n - 1].0.Some? then 1 else 0
    ensures m == multiset(Range(1, |f| + 1)) <==> forall j :: 0 <= j < |f| ==> f[j].0.Some?
  {
    var want := multiset(Range(1, |f| + 1));
    forall n ensures want[n] == if 1 <= n <= |f| then 1 else 0 {
      RangeCount(1, |f| + 1, n);
    }
    if forall j :: 0 <= j < |f| ==> f[j].0.Some? {
      assert forall n :: m[n] == want[n];
      assert m == want;
    } else {
      var j :| 0 <= j < |f| && f[j].0.None?;
      assert m[j + 1] != want[j + 1];
    }
  }

  lemma {:induction false} RangeCount(lo: int, hi: int, n: int)
    requires lo <= hi
    ensures multiset(Range(lo, hi))[n] == if lo <= n < hi then 1 else 0
    decreases hi - lo
  {
    if lo < hi {
      RangeCount(lo + 1, hi, n);
      assert Range(lo, hi) == [lo] + Range(lo + 1, hi);
    }
  }

  // ---------------------------------------------------------------------
  // `_create_index_xhtml`: the index page

  const IndexHeading: string := "<body class=\"justified\"><h1>IMABI - Table of Contents 目次</h1>"
  const Bullet: string := " \U{2022} "

  /** One list entry: the lesson's own file is linked when it has link
      data (`has_link and link_data` are the same test, since link data is
      never an empty dict). */
  function IndexItem(l: LessonData): string
  {
    if HasLink(l) then
      "<li>" + l.originalNumber + Bullet + LinkOpen(Filename(l)) + l.title + "</a></li>"
    else
      "<li>" + l.originalNumber + Bullet + l.title + "</li>"
  }

  /** The anchor that opens a link to a page of the book. */
  function LinkOpen(file: string): string
  {
    "<a href=\"../Text/" + file + "\">"
  }

  function IndexItems(ls: seq<LessonData>): (r: seq<string>)
    ensures |r| == |ls| && forall k :: 0 <= k < |ls| ==> r[k] == IndexItem(ls[k])
  {
    seq(|ls|, k requires 0 <= k < |ls| => IndexItem(ls[k]))
  }

  function IndexSectionOpen(name: string, start: int): string
  {
    "<h2>" + name + "</h2><ol start='" + IntToString(start) + "' class='no-list-type'>"
  }

  function IndexSection(name: string, ls: seq<LessonData>, start: int): string
  {
    IndexSectionOpen(name, start) + Concat(IndexItems(ls)) + "</ol>"
  }

  /** The number of lessons in all the sections. */
  function TotalLessons(s: Sections): (r: nat)
  {
    if s == [] then 0 else TotalLessons(s[..|s| - 1]) + |s[|s| - 1].1|
  }

  /** The `start` of the `i`-th section's list: one past the lessons of
      the sections before it. */
  function Start(s: Sections, i: int): int
    requires 0 <= i <= |s|
  {
    1 + TotalLessons(s[..i])
  }

  function IndexBlocks(s: Sections): (r: seq<string>)
    ensures |r| == |s| && forall i :: 0 <= i < |s| ==> r[i] == IndexSection(s[i].0, s[i].1, Start(s, i))
  {
    seq(|s|, i requires 0 <= i < |s| => IndexSection(s[i].0, s[i].1, Start(s, i)))
  }

  /** The body of the index page, and the page in its envelope. */
  function IndexBody(s: Sections): string
  {
    IndexHeading + Concat(IndexBlocks(s)) + "</body>"
  }

  function IndexXhtml(s: Sections): string
  {
    TextProcessor.WrapXhtml(IndexBody(s), "IMABI Index")
  }

  /** One more part extends the joined string by that part. */
  lemma ConcatGrow(parts: seq<string>, prefix: string, items: seq<string>, j: int)
    requires 0 <= j < |items|
    requires Concat(parts) == prefix + Concat(items[..j])
    ensures Concat(parts + [items[j]]) == prefix + Concat(items[..j + 1])
  {
    assert items[..j + 1] == items[..j] + [items[j]];
    ConcatAppend(items[..j], items[j]);
    ConcatAppend(parts, items[j]);
  }

  lemma TotalLessonsStep(s: Sections, i: int)
    requires 0 <= i < |s|
    ensures TotalLessons(s[..i + 1]) == TotalLessons(s[..i]) + |s[i].1|
  {
    assert s[..i + 1][..i] == s[..i];
  }

  /** `_create_index_xhtml`: appends to `html_parts` section by section,
      counting the lessons emitted so far for the next `start`. */
  method CreateIndexXhtml(s: Sections) returns (r: string)
    ensures r == IndexXhtml(s)
  {
    var parts: seq<string> := [IndexHeading];
    var counter := 0;
    var i := 0;
    ghost var blocks := IndexBlocks(s);
    IndexLoopEntry(blocks);
    while i < |s|
      invariant 0 <= i <= |s|
      invariant counter == TotalLessons(s[..i])
      invariant Concat(parts) == IndexHeading + Concat(blocks[..i])
    {
      ghost var before := parts;
      assert counter + 1 == Start(s, i);
      assert blocks[i] == IndexSection(s[i].0, s[i].1, counter + 1);
      parts, counter := AppendIndexSection(parts, counter, s[i].0, s[i].1);
      BlocksStep(before, IndexHeading, blocks, i, parts);
      TotalLessonsStep(s, i);
      i := i + 1;
    }
    IndexLoopExit(parts, blocks);
    parts := parts + ["</body>"];
    r := TextProcessor.WrapXhtml(Concat(parts), "IMABI Index");
  }

  lemma IndexLoopEntry(blocks: seq<string>)
    ensures Concat([IndexHeading]) == IndexHeading + Concat(blocks[..0])
  {
    assert [IndexHeading] == [] + [IndexHeading];
    ConcatAppend([], IndexHeading);
    assert blocks[..0] == [];
    AppendNil(IndexHeading);
  }

  lemma IndexLoopExit(parts: seq<string>, blocks: seq<string>)
    requires Concat(parts) == IndexHeading + Concat(blocks[..|blocks|])
    ensures Concat(parts + ["</body>"]) == IndexHeading + Concat(blocks) + "</body>"
  {
    assert blocks[..|blocks|] == blocks;
    ConcatAppend(parts, "</body>");
  }

  /** One turn of the loop over the sections: the section's heading and
      list opening, one entry per lesson, and the list's end. */
  method AppendIndexSection(parts: seq<string>, counter: int, section: string, lessons: seq<LessonData>)
    returns (r: seq<string>, c: int)
    ensures Concat(r) == Concat(parts) + IndexSection(section, lessons, counter + 1)
    ensures c == counter + |lessons|
  {
    var open := IndexSectionOpen(section, counter + 1);
    ghost var pre := Concat(parts) + open;
    ghost var items := IndexItems(lessons);
    ConcatAppend(parts, open);
    r := parts + [open];
    c := counter;
    var j := 0;
    assert items[..0] == [];
    AppendNil(pre);
    while j < |lessons|
      invariant 0 <= j <= |lessons|
      invariant c == counter + j
      invariant Concat(r) == pre + Concat(items[..j])
    {
      c := c + 1;
      ConcatGrow(r, pre, items, j);
      r := r + [IndexItem(lessons[j])];
      j := j + 1;
    }
    assert items[..j] == items;
    ConcatAppend(r, "</ol>");
    r := r + ["</ol>"];
    AppendAssoc(Concat(parts), open, Concat(items), "</ol>");
  }

  /** A finished block extends the joined blocks by one. */
  lemma BlocksStep(before: seq<string>, head: string, blocks: seq<string>, i: int, after: seq<string>)
    requires 0 <= i < |blocks|
    requires Concat(before) == head + Concat(blocks[..i])
    requires Concat(after) == Concat(before) + blocks[i]
    ensures Concat(after) == head + Concat(blocks[..i + 1])
  {
    assert blocks[..i + 1] == blocks[..i] + [blocks[i]];
    ConcatAppend(blocks[..i], blocks[i]);
    AppendAssoc3(head, Concat(blocks[..i]), blocks[i]);
  }

  lemma {:induction false} AllNumbersAppend(a: Sections, b: Sections)
    ensures AllNumbers(a + b) == AllNumbers(a) + AllNumbers(b)
  {
    if a != [] {
      assert (a + b)[1..] == a[1..] + b;
      AllNumbersAppend(a[1..], b);
    } else {
      assert a + b == b;
    }
  }

  lemma AllNumbersSnoc(s: Sections)
    requires s != []
    ensures AllNumbers(s) == AllNumbers(s[..|s| - 1]) + Numbers(s[|s| - 1].1)
  {
    var init := s[..|s| - 1];
    assert s == init + [s[|s| - 1]];
    AllNumbersAppend(init, [s[|s| - 1]]);
    assert AllNumbers([s[|s| - 1]]) == Numbers(s[|s| - 1].1) + AllNumbers([]);
  }

  /** The counter counts every lesson in the dict. */
  lemma {:induction false} TotalLessonsCounts(s: Sections)
    ensures TotalLessons(s) == |AllNumbers(s)|
  {
    if s != [] {
      TotalLessonsCounts(s[..|s| - 1]);
      AllNumbersSnoc(s);
    }
  }

  /** Each list starts one past the previous one's last entry: the first
      at 1, the next after all of a section's lessons, and the entries end
      at the number of lessons in the dict. */
  lemma IndexStarts(s: Sections)
    ensures Start(s, 0) == 1
    ensures forall i :: 0 <= i < |s| ==> Start(s, i + 1) == Start(s, i) + |s[i].1|
    ensures Start(s, |s|) == 1 + |AllNumbers(s)|
  {
    assert s[..0] == [];
    forall i | 0 <= i < |s| ensures Start(s, i + 1) == Start(s, i) + |s[i].1| {
      TotalLessonsStep(s, i);
    }
    assert s[..|s|] == s;
    TotalLessonsCounts(s);
  }

  /** The `i`-th list shows the lesson's own global number at every entry. */
  predicate ShowsNumbers(s: Sections)
  {
    forall i, k :: 0 <= i < |s| && 0 <= k < |s[i].1| ==> Start(s, i) + k == s[i].1[k].number
  }

  lemma ShowsNumbersSnoc(s: Sections)
    requires s != []
    ensures var init := s[..|s| - 1]; var last := s[|s| - 1].1;
      ShowsNumbers(s) <==>
        ShowsNumbers(init) && forall k :: 0 <= k < |last| ==> TotalLessons(init) + 1 + k == last[k].number
  {
    var init := s[..|s| - 1];
    forall i | 0 <= i < |init| ensures Start(s, i) == Start(init, i) && s[i] == init[i] {
      assert s[..i] == init[..i];
    }
  }

  lemma RangeSplit(lo: int, mid: int, hi: int)
    requires lo <= mid <= hi
    ensures Range(lo, hi) == Range(lo, mid) + Range(mid, hi)
  {
  }

  /** The ordinals the lists display agree with the lessons' numbers exactly
      when, read section by section, the numbers are 1, 2, ..., N. */
  lemma {:induction false} IndexOrdinals(s: Sections)
    ensures ShowsNumbers(s) <==> AllNumbers(s) == Range(1, TotalLessons(s) + 1)
  {
    if s == [] {
      assert Range(1, 1) == [];
    } else {
      var init := s[..|s| - 1];
      var last := s[|s| - 1].1;
      var t := TotalLessons(init);
      IndexOrdinals(init);
      AllNumbersSnoc(s);
      TotalLessonsCounts(init);
      ShowsNumbersSnoc(s);
      RangeSplit(1, t + 1, t + |last| + 1);
      SplitEquality(AllNumbers(init), Numbers(last), Range(1, t + 1), Range(t + 1, t + |last| + 1));
      assert (Numbers(last) == Range(t + 1, t + |last| + 1))
        <==> forall k :: 0 <= k < |last| ==> t + 1 + k == last[k].number;
    }
  }

  lemma SplitEquality(a: seq<int>, b: seq<int>, c: seq<int>, d: seq<int>)
    requires |a| == |c|
    ensures a + b == c + d <==> a == c && b == d
  {
    if a + b == c + d {
      assert a == (a + b)[..|a|] && c == (c + d)[..|a|];
      assert b == (a + b)[|a|..] && d == (c + d)[|a|..];
    }
  }

  /** The entry of a linked lesson links to the lesson's own page;
      provided the text of a lesson holds no markup, its entry holds an
      anchor exactly when it has a link. */
  lemma IndexItemLinks(l: LessonData)
    ensures HasLink(l) ==> Contains(IndexItem(l), LinkOpen(Filename(l)))
    ensures NoMarkup(l.originalNumber) && NoMarkup(l.title) ==>
      (Contains(IndexItem(l), "<a ") <==> HasLink(l))
  {
    if HasLink(l) {
      LinkedItem(l);
    } else if NoMarkup(l.originalNumber) && NoMarkup(l.title) {
      assert NoMarkup(Bullet);
      NoMarkupJoin(l.originalNumber, Bullet);
      NoMarkupJoin(l.originalNumber + Bullet, l.title);
      PlainItemNoAnchor(l.originalNumber + Bullet + l.title);
      assert IndexItem(l) == "<li>" + (l.originalNumber + Bullet + l.title) + "</li>";
    }
  }

  lemma LinkedItem(l: LessonData)
    requires HasLink(l)
    ensures Contains(IndexItem(l), LinkOpen(Filename(l)))
    ensures Contains(IndexItem(l), "<a ")
  {
    var pre := "<li>" + l.originalNumber + Bullet;
    var a := LinkOpen(Filename(l));
    var rest := l.title + "</a></li>";
    assert IndexItem(l) == pre + a + rest;
    ContainsAt(pre, a, rest);
    AnchorPrefix(Filename(l), pre, rest);
  }

  lemma AnchorPrefix(file: string, pre: string, rest: string)
    ensures Contains(pre + LinkOpen(file) + rest, "<a ")
  {
    var a := LinkOpen(file);
    assert a == "<a " + a[3..];
    assert pre + a + rest == pre + "<a " + (a[3..] + rest);
    ContainsAt(pre, "<a ", a[3..] + rest);
  }

  lemma ContainsAt(a: string, p: string, b: string)
    ensures Contains(a + p + b, p)
  {
    assert (a + p + b)[|a|..|a| + |p|] == p;
    assert OccursAt(a + p + b, p, |a|);
  }

  lemma PlainItemNoAnchor(m: string)
    requires NoMarkup(m)
    ensures !Contains("<li>" + m + "</li>", "<a ")
  {
    var item := "<li>" + m + "</li>";
    forall p | 0 <= p && p + 3 <= |item| ensures !OccursAt(item, "<a ", p) {
      var w := item[p..p + 3];
      assert w[0] == item[p] && w[1] == item[p + 1];
      if p == 0 {
        assert item[1] == 'l';
      } else if p < 4 {
        assert item[p] == "<li>"[p];
      } else if p < 4 + |m| {
        assert item[p] == m[p - 4];
      } else {
        assert item[p + 1] == "</li>"[p + 1 - 4 - |m|];
      }
    }
  }

  predicate NoMarkup(t: string)
  {
    forall i :: 0 <= i < |t| ==> t[i] != '<'
  }

  lemma NoMarkupJoin(a: string, b: string)
    requires NoMarkup(a) && NoMarkup(b)
    ensures NoMarkup(a + b)
  {
  }
}
