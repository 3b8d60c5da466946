/** The formatting rules shared by the index and lesson pages (class
    `ContentFormatter`): collapsing runs of `<br>` into paragraph breaks,
    classifying paragraphs by their opening marker, rewriting site links to
    relative ones, deriving a page title and wrapping a body in the XHTML
    envelope of the book. */
module TextProcessor {
  import opened Wrappers
  import opened Strings
  import opened Markup

  // ---------------------------------------------------------------------
  // LIST_PATTERN = ^(\d+\.|[ivxlcdm]+\.|※|・)
  // ---------------------------------------------------------------------

  predicate IsRomanLetter(c: char)
  {
    c in "ivxlcdm"
  }

  /** The number of leading decimal digits. */
  function DigitRun(t: string): (k: nat)
    ensures k <= |t|
    ensures forall i :: 0 <= i < k ==> IsDigit(t[i])
    ensures k == |t| || !IsDigit(t[k])
  {
    if t == [] || !IsDigit(t[0]) then 0 else 1 + DigitRun(t[1..])
  }

  /** The number of leading letters from `ivxlcdm`. */
  function RomanRun(t: string): (k: nat)
    ensures k <= |t|
    ensures forall i :: 0 <= i < k ==> IsRomanLetter(t[i])
    ensures k == |t| || !IsRomanLetter(t[k])
  {
    if t == [] || !IsRomanLetter(t[0]) then 0 else 1 + RomanRun(t[1..])
  }

  /** `LIST_PATTERN.match(t)`: the greedy runs, then the dot. */
  predicate ListMarker(t: string)
  {
    var d := DigitRun(t);
    var m := RomanRun(t);
    (0 < d < |t| && t[d] == '.') || (0 < m < |t| && t[m] == '.')
    || (t != [] && (t[0] == '※' || t[0] == '・'))
  }

  /** One or more characters of a class, then a dot, ending at `k`. */
  ghost predicate DigitsThenDot(t: string, k: int)
  {
    1 <= k < |t| && t[k] == '.' && forall i :: 0 <= i < k ==> IsDigit(t[i])
  }

  ghost predicate RomanThenDot(t: string, k: int)
  {
    1 <= k < |t| && t[k] == '.' && forall i :: 0 <= i < k ==> IsRomanLetter(t[i])
  }

  /** The pattern read as a description of the text it matches: one or more
      digits then a dot, one or more of `ivxlcdm` then a dot, or one of the
      two marks. */
  ghost predicate ListMarkerSpec(t: string)
  {
    (exists k :: DigitsThenDot(t, k)) || (exists k :: RomanThenDot(t, k))
    || StartsWith(t, "※") || StartsWith(t, "・")
  }

  lemma ListMarkerMeaning(t: string)
    ensures ListMarker(t) <==> ListMarkerSpec(t)
  {
    if ListMarkerSpec(t) {
      ListMarkerComplete(t);
    }
    if ListMarker(t) {
      ListMarkerSound(t);
    }
  }

  lemma ListMarkerComplete(t: string)
    requires ListMarkerSpec(t)
    ensures ListMarker(t)
  {
    if exists k :: DigitsThenDot(t, k) {
      var k :| DigitsThenDot(t, k);
      assert DigitRun(t) == k;
    } else if exists k :: RomanThenDot(t, k) {
      var k :| RomanThenDot(t, k);
      assert RomanRun(t) == k;
    } else {
      assert t[..1] == [t[0]];
    }
  }

  lemma ListMarkerSound(t: string)
    requires ListMarker(t)
    ensures ListMarkerSpec(t)
  {
    var d := DigitRun(t);
    var m := RomanRun(t);
    if 0 < d < |t| && t[d] == '.' {
      assert DigitsThenDot(t, d);
    } else if 0 < m < |t| && t[m] == '.' {
      assert RomanThenDot(t, m);
    } else {
      assert t[..1] == [t[0]];
    }
  }

  const Numerada: string := "numerada"
  const HeadingMark: string := "▼"

  /** The text `_classify_paragraph` tests: `get_text(strip=True).lower()`. */
  function ParagraphText(cs: seq<Node>): string
  {
    Lower(StrippedText(cs))
  }

  /** `_classify_paragraph` on one `p`: a list marker sets the class to
      `numerada` (replacing any classes it had), a leading `▼` renames the
      paragraph to `h6`; nothing else changes. */
  function ClassifyParagraph(t: string, a: Attrs, cs: seq<Node>): (r: Node)
    ensures r.Element? && r.children == cs
    ensures r.tag == if StartsWith(ParagraphText(cs), HeadingMark) then "h6" else t
    ensures GetAttr(r.attrs, "class") == if ListMarker(ParagraphText(cs)) then Some(Numerada) else GetAttr(a, "class")
    ensures forall k :: k != "class" ==> GetAttr(r.attrs, k) == GetAttr(a, k)
  {
    var text := ParagraphText(cs);
    var a' := if ListMarker(text) then SetAttr(a, "class", Numerada) else a;
    Element(if StartsWith(text, HeadingMark) then "h6" else t, a', cs)
  }

  /** No text is both a list item and a `▼` heading, so no paragraph is
      both given the class and renamed. */
  lemma MarkersExclusive(text: string)
    ensures !(ListMarker(text) && StartsWith(text, HeadingMark))
  {
    if StartsWith(text, HeadingMark) {
      assert text[0] == '▼';
      assert DigitRun(text) == 0;
      assert RomanRun(text) == 0;
    }
  }

  /** `_process_paragraphs`: every `p` below the content root classified
      (the renamed ones included, as `find_all` lists them beforehand). */
  function ClassifyAll(ns: seq<Node>): (r: seq<Node>)
    ensures |r| == |ns|
  {
    if ns == [] then []
    else
      var head := match ns[0]
        case Text(_) => ns[0]
        case Element(t, a, cs) =>
          if t == "p" then ClassifyParagraph(t, a, ClassifyAll(cs)) else Element(t, a, ClassifyAll(cs));
      [head] + ClassifyAll(ns[1..])
  }

  /** Classification renames and sets classes only: the text is unchanged. */
  lemma {:induction false} ClassifyKeepsText(ns: seq<Node>)
    ensures TextOf(ClassifyAll(ns)) == TextOf(ns)
    ensures StrippedText(ClassifyAll(ns)) == StrippedText(ns)
  {
    if ns != [] {
      ClassifyKeepsText(ns[1..]);
      if ns[0].Element? {
        ClassifyKeepsText(ns[0].children);
      }
      assert ClassifyAll(ns)[1..] == ClassifyAll(ns[1..]);
    }
  }

  // ---------------------------------------------------------------------
  // BR_REPLACEMENT_PATTERN = (<br\s*/?>\s*){2,}
  // ---------------------------------------------------------------------

  /** The number of leading whitespace characters (`\s*`, greedy). */
  function SpaceRun(t: string): (k: nat)
    ensures k <= |t|
    ensures forall i :: 0 <= i < k ==> IsSpace(t[i])
    ensures k == |t| || !IsSpace(t[k])
  {
    if t == [] || !IsSpace(t[0]) then 0 else 1 + SpaceRun(t[1..])
  }

  /** The length of the marker at the start of `t`, if there is one: `<br`,
      optional whitespace, an optional `/`, then `>`. */
  function BrTag(t: string): (r: Option<nat>)
    ensures r.Some? ==> 4 <= r.value <= |t| && t[..3] == "<br" && t[r.value - 1] == '>'
    ensures r.Some? ==> forall i :: 0 < i < r.value ==> t[i] != '<'
  {
    if |t| < 3 || t[..3] != "<br" then None
    else
      var w := 3 + SpaceRun(t[3..]);
      assert forall i :: 3 <= i < w ==> t[i] == t[3..][i - 3];
      if w < |t| && t[w] == '>' then Some(w + 1)
      else if w + 1 < |t| && t[w] == '/' && t[w + 1] == '>' then Some(w + 2)
      else None
  }

  /** One repetition of the group: the marker and the
      whitespace after it. */
  function BrUnit(t: string): (r: Option<nat>)
    ensures r.Some? ==> 4 <= r.value <= |t| && t[..3] == "<br"
    ensures r.Some? ==> forall i :: 0 < i < r.value ==> t[i] != '<'
    ensures r.Some? ==> r.value == |t| || !IsSpace(t[r.value])
  {
    match BrTag(t)
    case None => None
    case Some(k) =>
      var w := SpaceRun(t[k..]);
      assert forall i :: k <= i < k + w ==> t[i] == t[k..][i - k];
      Some(k + w)
  }

  /** How many repetitions the greedy group takes, and how far they reach. */
  function BrUnits(t: string): (r: (nat, nat))
    ensures r.1 <= |t|
    ensures (r.0 == 0) == (r.1 == 0)
    decreases |t|
  {
    match BrUnit(t)
    case None => (0, 0)
    case Some(k) =>
      var rest := BrUnits(t[k..]);
      (1 + rest.0, k + rest.1)
  }

  /** The pattern matches at the start of `t`: two repetitions at least. */
  predicate RunAt(t: string)
  {
    BrUnits(t).0 >= 2
  }

  /** One more repetition is counted exactly when one more starts. */
  lemma BrUnitsStep(t: string)
    ensures BrUnit(t).None? ==> BrUnits(t) == (0, 0)
    ensures BrUnit(t).Some? ==> BrUnits(t).0 == 1 + BrUnits(t[BrUnit(t).value..]).0
  {
  }

  lemma RunAtTwoUnits(t: string)
    ensures RunAt(t) <==> BrUnit(t).Some? && BrUnit(t[BrUnit(t).value..]).Some?
  {
    BrUnitsStep(t);
    if BrUnit(t).Some? {
      BrUnitsStep(t[BrUnit(t).value..]);
    }
  }

  const ParagraphBreak: string := "</p><p>"

  /** `BR_REPLACEMENT_PATTERN.sub("</p><p>", s)`: scanning left to right,
      each match is replaced and the scan resumes after it. */
  function ReplaceBrRuns(s: string): (r: string)
    decreases |s|
  {
    if s == [] then []
    else
      var u := BrUnits(s);
      if u.0 >= 2 then ParagraphBreak + ReplaceBrRuns(s[u.1..])
      else [s[0]] + ReplaceBrRuns(s[1..])
  }

  /** No run of two or more markers starts anywhere in `t`. */
  ghost predicate NoRun(t: string)
  {
    forall i :: 0 <= i <= |t| ==> !RunAt(t[i..])
  }

  /** Text with no run in it (single `<br>`s included) is left as it is. */
  lemma {:induction false} ReplaceWithoutRun(s: string)
    requires NoRun(s)
    ensures ReplaceBrRuns(s) == s
    decreases |s|
  {
    if s != [] {
      assert !RunAt(s[0..]);
      assert s[0..] == s;
      NoRunInTail(s);
      ReplaceWithoutRun(s[1..]);
      ReplacePlainStep(s);
      assert [s[0]] + s[1..] == s;
    }
  }

  lemma NoRunInTail(s: string)
    requires s != [] && NoRun(s)
    ensures NoRun(s[1..])
  {
    forall i | 0 <= i <= |s[1..]| ensures !RunAt(s[1..][i..]) {
      assert s[1..][i..] == s[i + 1..];
    }
  }

  /** Where no run starts, the first character is copied and the scan moves on. */
  lemma ReplacePlainStep(t: string)
    requires t != [] && !RunAt(t)
    ensures ReplaceBrRuns(t) == [t[0]] + ReplaceBrRuns(t[1..])
  {
  }

  /** A first character other than `<` is copied and the scan moves on. */
  lemma CopyStep(a: string, b: string)
    requires a != [] && a[0] != '<'
    ensures ReplaceBrRuns(a + b) == [a[0]] + ReplaceBrRuns(a[1..] + b)
  {
    var t := a + b;
    assert t[0] == a[0] && t[1..] == a[1..] + b;
    NoUnitWithoutLt(t);
  }

  lemma SeqConsAssoc(a: string, r: string)
    requires a != []
    ensures [a[0]] + (a[1..] + r) == a + r
  {
    assert a == [a[0]] + a[1..];
  }

  /** Text before the first `<` is copied unchanged. */
  lemma {:induction false} ReplaceCopiesText(a: string, b: string)
    requires forall i :: 0 <= i < |a| ==> a[i] != '<'
    ensures ReplaceBrRuns(a + b) == a + ReplaceBrRuns(b)
    decreases |a|
  {
    if a == [] {
      assert a + b == b;
    } else {
      var r := ReplaceBrRuns(b);
      CopyStep(a, b);
      ReplaceCopiesText(a[1..], b);
      SeqConsAssoc(a, r);
    }
  }

  /** Only a `<` can start a marker. */
  lemma NoUnitWithoutLt(t: string)
    requires t != [] && (t[0] != '<' || (|t| >= 2 && t[1] != 'b'))
    ensures BrTag(t).None? && BrUnit(t).None? && BrUnits(t) == (0, 0) && !RunAt(t)
  {
    if |t| >= 3 {
      assert t[..3][0] == t[0] && t[..3][1] == t[1];
    }
  }

  /** A maximal run is replaced by one paragraph break, and the scan goes on
      after it. */
  lemma ReplaceRun(r: string, b: string)
    requires RunAt(r + b) && BrUnits(r + b).1 == |r|
    ensures ReplaceBrRuns(r + b) == ParagraphBreak + ReplaceBrRuns(b)
  {
    assert (r + b)[|r|..] == b;
  }

  /** Every position of a paragraph break fails to start a marker. */
  lemma {:induction false} NoRunAfterBreak(y: string)
    requires NoRun(y)
    ensures NoRun(ParagraphBreak + y)
  {
    var t := ParagraphBreak + y;
    forall i | 0 <= i <= |t| ensures !RunAt(t[i..]) {
      if i >= |ParagraphBreak| {
        assert t[i..] == y[i - |ParagraphBreak|..];
      } else {
        var u := t[i..];
        assert u[0] == ParagraphBreak[i];
        if i == 0 || i == 4 {
          assert u[1] == ParagraphBreak[i + 1];
        }
        NoUnitWithoutLt(u);
      }
    }
  }

  /** The position of the first `<`, or the length when there is none. */
  function FirstLt(x: string): (j: nat)
    ensures j <= |x|
    ensures forall i :: 0 <= i < j ==> x[i] != '<'
    ensures j == |x| || x[j] == '<'
  {
    if x == [] || x[0] == '<' then 0 else 1 + FirstLt(x[1..])
  }

  /** The rewrite of text that starts with `<` starts with `<` too. */
  lemma ReplaceStartsWithLt(z: string)
    requires z != [] && z[0] == '<'
    ensures ReplaceBrRuns(z) != [] && ReplaceBrRuns(z)[0] == '<'
  {
  }

  /** A whitespace run is decided by its own characters and the one after it. */
  lemma SpaceRunFromPrefix(u: string, u': string, w: nat)
    requires SpaceRun(u) == w && w <= |u'| && u'[..w] == u[..w]
    requires w == |u'| || !IsSpace(u'[w])
    ensures SpaceRun(u') == w
  {
    assert forall i :: 0 <= i < w ==> u'[i] == u'[..w][i] && u[i] == u[..w][i];
  }

  lemma BrTagFromPrefix(t: string, t': string, m: nat)
    requires BrTag(t) == Some(m)
    requires m <= |t'| && t'[..m] == t[..m]
    ensures BrTag(t') == Some(m)
  {
    assert forall i :: 0 <= i < m ==> t'[i] == t'[..m][i] && t[i] == t[..m][i];
    assert t'[..3] == t[..3];
    var w := 3 + SpaceRun(t[3..]);
    assert t[3..][w - 3] == t[w];
    assert w < m;
    assert t'[3..][..w - 3] == t[3..][..w - 3];
    assert t'[3..][w - 3] == t'[w];
    SpaceRunFromPrefix(t[3..], t'[3..], w - 3);
  }

  /** Two texts that agree up to `k` agree on every slice below `k`. */
  lemma PrefixSlices(t: string, t': string, k: nat, m: nat)
    requires m <= k <= |t| && k <= |t'| && t'[..k] == t[..k]
    ensures t'[..m] == t[..m]
    ensures t'[m..][..k - m] == t[m..][..k - m]
  {
    assert t'[..m] == t'[..k][..m];
    assert t[..m] == t[..k][..m];
    assert forall i :: 0 <= i < k - m ==> t'[m..][i] == t'[..k][m + i] && t[m..][i] == t[..k][m + i];
  }

  /** A repetition is a marker and the whitespace after it. */
  lemma UnitParts(t: string, k: nat)
    requires BrUnit(t) == Some(k)
    ensures BrTag(t).Some? && BrTag(t).value <= k
    ensures SpaceRun(t[BrTag(t).value..]) == k - BrTag(t).value
  {
  }

  lemma UnitFromParts(t: string, m: nat, w: nat)
    requires BrTag(t) == Some(m) && SpaceRun(t[m..]) == w
    ensures BrUnit(t) == Some(m + w)
  {
  }

  /** A marker repetition is decided by its own characters and by the one
      after it (which ends the whitespace). */
  lemma UnitFromPrefix(t: string, t': string, k: nat)
    requires BrUnit(t) == Some(k)
    requires k <= |t'| && t'[..k] == t[..k]
    requires k == |t'| || !IsSpace(t'[k])
    ensures BrUnit(t') == Some(k)
  {
    UnitParts(t, k);
    var m := BrTag(t).value;
    PrefixSlices(t, t', k, m);
    BrTagFromPrefix(t, t', m);
    SpaceAfterFromPrefix(t, t', k, m);
    UnitFromParts(t', m, k - m);
  }

  lemma SpaceAfterFromPrefix(t: string, t': string, k: nat, m: nat)
    requires m <= k <= |t| && k <= |t'| && SpaceRun(t[m..]) == k - m
    requires t'[m..][..k - m] == t[m..][..k - m]
    requires k == |t'| || !IsSpace(t'[k])
    ensures SpaceRun(t'[m..]) == k - m
  {
    if k < |t'| {
      assert t'[m..][k - m] == t'[k];
    }
    SpaceRunFromPrefix(t[m..], t'[m..], k - m);
  }

  /** A marker repetition that the rewrite leaves right after a `<` was
      already there in the input. */
  lemma FirstUnitSurvives(x: string)
    requires BrUnit(['<'] + ReplaceBrRuns(x)).Some?
    ensures BrUnit(['<'] + x) == BrUnit(['<'] + ReplaceBrRuns(x))
  {
    var j := FirstLt(x);
    var y := ReplaceSplitAtLt(x);
    var t := ['<'] + ReplaceBrRuns(x);
    assert t == ['<'] + x[..j] + y by {
      AppendAssoc3(['<'], x[..j], y);
    }
    var k := BrUnit(t).value;
    UnitWithinText(x, j, y, k);
    UnitFromPrefix(t, ['<'] + x, k);
  }

  /** The rewrite copies the text up to the first `<`; what follows is empty
      or starts with `<`. */
  lemma ReplaceSplitAtLt(x: string) returns (y: string)
    ensures var j := FirstLt(x);
      y == ReplaceBrRuns(x[j..]) && ReplaceBrRuns(x) == x[..j] + y
      && (j == |x| <==> y == []) && (y != [] ==> y[0] == '<')
  {
    var j := FirstLt(x);
    y := ReplaceBrRuns(x[j..]);
    assert x == x[..j] + x[j..];
    ReplaceCopiesText(x[..j], x[j..]);
    if j < |x| {
      ReplaceStartsWithLt(x[j..]);
    }
  }

  /** A marker right after a `<` in the rewrite ends within the copied text,
      where the rewrite and its input agree. */
  lemma UnitWithinText(x: string, j: nat, y: string, k: nat)
    requires j <= |x| && (forall i :: 0 <= i < j ==> x[i] != '<') && (j == |x| || x[j] == '<')
    requires (j == |x| <==> y == []) && (y != [] ==> y[0] == '<')
    requires BrUnit(['<'] + x[..j] + y) == Some(k)
    ensures k <= 1 + j && k <= |['<'] + x|
    ensures (['<'] + x[..j] + y)[..k] == (['<'] + x)[..k]
    ensures k == |['<'] + x| || !IsSpace((['<'] + x)[k])
  {
    var t := ['<'] + x[..j] + y;
    var t' := ['<'] + x;
    LtPrefixAgree(x, y, j);
    UnitEndsBeforeLt(x, j, y, k);
    PrefixOfPrefix(t, t', 1 + j, k);
    if k < |t'| {
      if k - 1 < j {
        assert t[k] == x[k - 1];
      } else {
        assert t'[k] == x[j];
      }
    }
  }

  lemma UnitEndsBeforeLt(x: string, j: nat, y: string, k: nat)
    requires j <= |x| && (j == |x| || x[j] == '<')
    requires (j == |x| <==> y == []) && (y != [] ==> y[0] == '<')
    requires BrUnit(['<'] + x[..j] + y) == Some(k)
    ensures k <= 1 + j
  {
    var t := ['<'] + x[..j] + y;
    if j < |x| {
      assert t[1 + j] == y[0];
    } else {
      assert |t| == 1 + j;
    }
  }

  lemma PrefixOfPrefix(t: string, t': string, n: nat, k: nat)
    requires k <= n <= |t| && n <= |t'| && t[..n] == t'[..n]
    ensures t[..k] == t'[..k]
  {
    assert t[..k] == t[..n][..k];
    assert t'[..k] == t'[..n][..k];
  }

  lemma LtPrefixAgree(x: string, y: string, j: nat)
    requires j <= |x|
    ensures (['<'] + x[..j] + y)[..1 + j] == ['<'] + x[..j] == (['<'] + x)[..1 + j]
    ensures forall i :: 1 <= i <= j ==> (['<'] + x[..j] + y)[i] == x[i - 1]
  {
  }

  /** A run that the rewrite leaves right after a `<` was already a run in
      the input. */
  lemma RunSurvives(x: string)
    ensures RunAt(['<'] + ReplaceBrRuns(x)) ==> RunAt(['<'] + x)
  {
    if RunAt(['<'] + ReplaceBrRuns(x)) {
      var j := SecondUnitAtLt(x);
      UnitSurvivesAtLt(x[j..]);
      SecondUnitFollows(x, j);
    }
  }

  /** A marker right after `<` that ends at the first `<` of `x`, followed
      by another marker there, makes a run. */
  lemma SecondUnitFollows(x: string, j: nat)
    requires j < |x| && BrUnit(['<'] + x) == Some(1 + j) && BrUnit(x[j..]).Some?
    ensures RunAt(['<'] + x)
  {
    var t' := ['<'] + x;
    assert t'[1 + j..] == x[j..];
    RunAtTwoUnits(t');
  }

  /** A marker at the start of the rewrite of text starting with `<` was a
      marker of the text. */
  lemma UnitSurvivesAtLt(z: string)
    requires z != [] && z[0] == '<' && BrUnit(ReplaceBrRuns(z)).Some?
    ensures BrUnit(z).Some?
  {
    if !RunAt(z) {
      assert z == ['<'] + z[1..];
      ReplacePlainStep(z);
      FirstUnitSurvives(z[1..]);
    } else {
      RunAtTwoUnits(z);
    }
  }

  /** In a run right after a `<` of the rewrite, the second marker is the
      rewrite of the input from its first `<` on. */
  lemma SecondUnitAtLt(x: string) returns (j: nat)
    requires RunAt(['<'] + ReplaceBrRuns(x))
    ensures j == FirstLt(x) && j < |x| && x[j] == '<'
    ensures BrUnit(['<'] + x) == Some(1 + j)
    ensures BrUnit(ReplaceBrRuns(x[j..])).Some?
  {
    var t := ['<'] + ReplaceBrRuns(x);
    j := FirstLt(x);
    var y := ReplaceSplitAtLt(x);
    assert BrUnit(t).Some? && BrUnit(t[BrUnit(t).value..]).Some? by {
      RunAtTwoUnits(t);
    }
    var k := BrUnit(t).value;
    assert BrUnit(['<'] + x) == Some(k) by {
      FirstUnitSurvives(x);
    }
    assert t == ['<'] + x[..j] + y by {
      AppendAssoc3(['<'], x[..j], y);
    }
    UnitEndsAtLt(x, j, y, k);
  }

  /** The first marker after the leading `<` ends where the copied text
      does, when another marker follows it. */
  lemma UnitEndsAtLt(x: string, j: nat, y: string, k: nat)
    requires j <= |x| && (forall i :: 0 <= i < j ==> x[i] != '<') && (j == |x| || x[j] == '<')
    requires (j == |x| <==> y == []) && (y != [] ==> y[0] == '<')
    requires BrUnit(['<'] + x[..j] + y) == Some(k)
    requires BrUnit((['<'] + x[..j] + y)[k..]).Some?
    ensures k == 1 + j && (['<'] + x[..j] + y)[k..] == y
  {
    var t := ['<'] + x[..j] + y;
    UnitWithinText(x, j, y, k);
    LtPrefixAgree(x, y, j);
    var u := t[k..];
    assert u[..3] == "<br";
    assert u[0] == u[..3][0] == '<';
    assert t[k] == '<';
  }

  /** After the rewrite no run of markers is left anywhere. */
  lemma {:induction false} ReplaceLeavesNoRun(s: string)
    ensures NoRun(ReplaceBrRuns(s))
    decreases |s|
  {
    if s == [] {
      assert RunAt([]) == false;
    } else {
      var u := BrUnits(s);
      if u.0 >= 2 {
        ReplaceLeavesNoRun(s[u.1..]);
        NoRunAfterBreak(ReplaceBrRuns(s[u.1..]));
      } else {
        var y := ReplaceBrRuns(s[1..]);
        ReplaceLeavesNoRun(s[1..]);
        var t := [s[0]] + y;
        forall i | 0 <= i <= |t| ensures !RunAt(t[i..]) {
          if i > 0 {
            assert t[i..] == y[i - 1..];
          } else if s[0] == '<' {
            assert s == ['<'] + s[1..];
            RunSurvives(s[1..]);
          } else {
            assert t[0..] == t;
            NoUnitWithoutLt(t);
          }
        }
      }
    }
  }

  /** Collapsing runs twice is collapsing them once. */
  lemma ReplaceIdempotent(s: string)
    ensures ReplaceBrRuns(ReplaceBrRuns(s)) == ReplaceBrRuns(s)
  {
    ReplaceLeavesNoRun(s);
    ReplaceWithoutRun(ReplaceBrRuns(s));
  }

  /** `<br/>` is one marker repetition, with no whitespace after it. */
  lemma SlashMarkerUnit(b: string)
    requires b == [] || !IsSpace(b[0])
    ensures BrUnit("<br/>" + b) == Some(5)
  {
    var t := "<br/>" + b;
    assert t[..3] == "<br";
    assert t[3..] == "/>" + b;
    assert SpaceRun("/>" + b) == 0;
    assert BrTag(t) == Some(5);
    assert t[5..] == b;
  }

  /** `<br>` is one marker repetition, with no whitespace after it. */
  lemma PlainMarkerUnit(b: string)
    requires b == [] || !IsSpace(b[0])
    ensures BrUnit("<br>" + b) == Some(4)
  {
    var t := "<br>" + b;
    assert t[..3] == "<br";
    assert t[3..] == ">" + b;
    assert SpaceRun(">" + b) == 0;
    assert BrTag(t) == Some(4);
    assert t[4..] == b;
  }

  /** A repetition is counted, and the count goes on after it. */
  lemma UnitsCons(t: string, k: nat)
    requires BrUnit(t) == Some(k)
    ensures BrUnits(t).0 == 1 + BrUnits(t[k..]).0
    ensures BrUnits(t).1 == k + BrUnits(t[k..]).1
  {
  }

  /** One repetition and nothing after it. */
  lemma UnitsOne(t: string, k: nat)
    requires BrUnit(t) == Some(k) && BrUnit(t[k..]).None?
    ensures BrUnits(t).0 == 1 && BrUnits(t).1 == k
  {
    UnitsCons(t, k);
    BrUnitsStep(t[k..]);
  }

  lemma NoUnitsInEmpty()
    ensures BrUnit([]).None? && BrUnits([]).0 == 0 && BrUnits([]).1 == 0
  {
  }

  /** Where a run starts, it is replaced and the scan resumes after it. */
  lemma ReplaceRunStep(t: string)
    requires RunAt(t)
    ensures ReplaceBrRuns(t) == ParagraphBreak + ReplaceBrRuns(t[BrUnits(t).1..])
  {
  }

  /** Text without `<` is copied as it is. */
  lemma ReplaceWithoutLt(b: string)
    requires forall i :: 0 <= i < |b| ==> b[i] != '<'
    ensures ReplaceBrRuns(b) == b
  {
    assert b + [] == b;
    ReplaceCopiesText(b, []);
  }

  lemma SplitSlashMarker(b: string)
    ensures ("<br/>" + b)[1..] == "br/>" + b && ("<br/>" + b)[5..] == b
    ensures ['<'] + ("br/>" + b) == "<br/>" + b
  {
  }

  lemma NoLtInMarkerTail()
    ensures forall i :: 0 <= i < |"br/>"| ==> "br/>"[i] != '<'
  {
  }

  lemma MarkerTailStays(b: string)
    requires forall i :: 0 <= i < |b| ==> b[i] != '<'
    ensures ReplaceBrRuns("br/>" + b) == "br/>" + b
  {
    NoLtInMarkerTail();
    ReplaceCopiesText("br/>", b);
    ReplaceWithoutLt(b);
  }

  /** A lone `<br/>` followed by text without markup stays as it is. */
  lemma SlashMarkerStays(b: string)
    requires forall i :: 0 <= i < |b| ==> b[i] != '<'
    requires b == [] || !IsSpace(b[0])
    ensures ReplaceBrRuns("<br/>" + b) == "<br/>" + b
  {
    var t := "<br/>" + b;
    var tail := "br/>" + b;
    SplitSlashMarker(b);
    assert ReplaceBrRuns(t) == ['<'] + ReplaceBrRuns(tail) by {
      SlashMarkerUnit(b);
      if b == [] {
        NoUnitsInEmpty();
      } else {
        NoUnitWithoutLt(b);
      }
      UnitsOne(t, 5);
      ReplacePlainStep(t);
    }
    assert ReplaceBrRuns(tail) == tail by {
      MarkerTailStays(b);
    }
  }

  /** `<br/>` and the whitespace after it are one marker repetition. */
  lemma SlashMarkerWithSpace(b: string)
    ensures BrUnit("<br/>" + b) == Some(5 + SpaceRun(b))
  {
    var t := "<br/>" + b;
    assert t[..3] == "<br";
    assert t[3..] == "/>" + b;
    assert SpaceRun("/>" + b) == 0;
    assert BrTag(t) == Some(5);
    assert t[5..] == b;
  }

  /** A `<br/>` that no second marker follows, after its whitespace, starts
      no run; neither does any position inside it. */
  lemma LoneMarkerNoRun(b: string)
    requires NoRun(b)
    requires BrUnit(b[SpaceRun(b)..]).None?
    ensures NoRun("<br/>" + b)
  {
    var m := "<br/>" + b;
    forall i | 0 <= i <= |m| ensures !RunAt(m[i..]) {
      if i == 0 {
        LoneMarkerHead(b);
      } else if i < 5 {
        InsideMarker(b, i);
      } else {
        AfterMarker(b, i);
      }
    }
  }

  lemma AfterMarker(b: string, i: nat)
    requires NoRun(b) && 5 <= i <= 5 + |b|
    ensures !RunAt(("<br/>" + b)[i..])
  {
    assert ("<br/>" + b)[i..] == b[i - 5..];
  }

  lemma LoneMarkerHead(b: string)
    requires BrUnit(b[SpaceRun(b)..]).None?
    ensures !RunAt("<br/>" + b)
  {
    var m := "<br/>" + b;
    var k := 5 + SpaceRun(b);
    assert m[0..] == m;
    SlashMarkerWithSpace(b);
    assert m[k..] == b[SpaceRun(b)..];
    UnitsOne(m, k);
  }

  lemma InsideMarker(b: string, i: nat)
    requires 0 < i < 5
    ensures !RunAt(("<br/>" + b)[i..])
  {
    var m := "<br/>" + b;
    assert m[i..][0] == m[i] && m[i] != '<';
    NoUnitWithoutLt(m[i..]);
  }

  /** A single `<br/>` after text without markup is left as it is, whatever
      follows it, as long as that is no run and does not begin, after
      whitespace, with a second marker. */
  lemma SingleMarkerStays(a: string, b: string)
    requires forall i :: 0 <= i < |a| ==> a[i] != '<'
    requires NoRun(b)
    requires BrUnit(b[SpaceRun(b)..]).None?
    ensures ReplaceBrRuns(a + "<br/>" + b) == a + "<br/>" + b
  {
    var m := "<br/>" + b;
    assert a + "<br/>" + b == a + m;
    assert ReplaceBrRuns(m) == m by {
      LoneMarkerNoRun(b);
      ReplaceWithoutRun(m);
    }
    assert ReplaceBrRuns(a + m) == a + ReplaceBrRuns(m) by {
      ReplaceCopiesText(a, m);
    }
  }

  /** A single marker stays. */
  lemma ReplaceSingleExample()
    ensures ReplaceBrRuns("a" + "<br/>" + "b") == "a" + "<br/>" + "b"
  {
    var m := "<br/>" + "b";
    MarkerThenLetter();
    LetterFirst(m);
    Strings.AppendAssoc3("a", "<br/>", "b");
  }

  lemma MarkerThenLetter()
    ensures ReplaceBrRuns("<br/>" + "b") == "<br/>" + "b"
  {
    SlashMarkerStays("b");
  }

  /** A letter in front is copied. */
  lemma LetterFirst(m: string)
    ensures ReplaceBrRuns("a" + m) == "a" + ReplaceBrRuns(m)
  {
    CopyStep("a", m);
    assert "a"[1..] + m == m;
  }

  /** A single marker followed by a line break stays too. */
  lemma ReplaceSpacedSingleExample()
    ensures ReplaceBrRuns("a" + "<br/>" + "\nb") == "a" + "<br/>" + "\nb"
  {
    LineBreakThenLetter();
    SingleMarkerStays("a", "\nb");
  }

  lemma LineBreakThenLetter()
    ensures SpaceRun("\nb") == 1 && BrUnit("\nb"[1..]).None?
    ensures NoRun("\nb")
  {
    var b := "\nb";
    assert b[1..] == "b";
    NoUnitWithoutLt("b");
    forall i | 0 <= i <= |b| ensures !RunAt(b[i..]) {
      if i < |b| {
        NoUnitWithoutLt(b[i..]);
      }
    }
  }

  /** A paragraph of markers only becomes two empty paragraphs. */
  lemma ReplaceOnlyMarkersExample()
    ensures ReplaceBrRuns("<br><br>") == "</p><p>"
  {
    var t := "<br><br>";
    var u := t[4..];
    assert BrUnits(u).0 == 1 && BrUnits(u).1 == 4 by {
      assert u == "<br>" + [];
      PlainMarkerUnit([]);
      assert u[4..] == [];
      NoUnitsInEmpty();
      UnitsOne(u, 4);
    }
    assert BrUnits(t).0 == 2 && BrUnits(t).1 == 8 by {
      assert t == "<br>" + "<br>";
      PlainMarkerUnit("<br>");
      UnitsCons(t, 4);
    }
    ReplaceRunStep(t);
    assert t[8..] == [];
  }

  /** `_replace_multiple_br_tags`: the children's markup with runs collapsed,
      reparsed inside a bare `<p>`; the parsed nodes take the paragraph's place. */
  function RebuildParagraph(cs: seq<Node>, parse: string -> seq<Node>): seq<Node>
  {
    parse(ParagraphMarkup(cs))
  }

  /** `"".join(str(c) for c in paragraph.contents)`: a tag child is written
      as `str(tag)` writes it, with its text escaped; a text child is its
      raw string, unescaped. */
  function JoinContents(cs: seq<Node>): (r: string)
  {
    if cs == [] then []
    else
      (match cs[0]
       case Text(s) => s
       case Element(_, _, _) => Serialize([cs[0]]))
      + JoinContents(cs[1..])
  }

  /** No text child holds `&`, `<` or `>`. */
  predicate PlainTexts(cs: seq<Node>)
  {
    forall i :: 0 <= i < |cs| && cs[i].Text? ==> NoMarkupChars(cs[i].text)
  }

  /** The join is never longer than the serialised children, and equals them
      exactly when no text child holds a character the formatter escapes. */
  lemma {:induction false} JoinVersusSerialize(cs: seq<Node>)
    ensures |JoinContents(cs)| <= |Serialize(cs)|
    ensures JoinContents(cs) == Serialize(cs) <==> PlainTexts(cs)
  {
    if cs != [] {
      JoinVersusSerialize(cs[1..]);
      PlainTextsCons(cs);
      SerializeCons(cs);
      var hj := if cs[0].Text? then cs[0].text else Serialize([cs[0]]);
      assert JoinContents(cs) == hj + JoinContents(cs[1..]);
      var hs := Serialize([cs[0]]);
      assert |hj| <= |hs| && (hj == hs <==> (cs[0].Text? ==> NoMarkupChars(cs[0].text))) by {
        if cs[0].Text? {
          SerializeOne(cs[0]);
          EscapeLength(cs[0].text);
        }
      }
      JoinPieces(hj, hs, JoinContents(cs[1..]), Serialize(cs[1..]));
    }
  }

  /** Two joins whose parts are each no longer than their counterparts are
      equal exactly when the parts are. */
  lemma JoinPieces(a: string, a': string, b: string, b': string)
    requires |a| <= |a'| && |b| <= |b'|
    ensures |a + b| <= |a' + b'|
    ensures a + b == a' + b' <==> a == a' && b == b'
  {
    if a + b == a' + b' {
      assert a == (a + b)[..|a|] == (a' + b')[..|a'|] == a';
      assert b == (a + b)[|a|..] == (a' + b')[|a'|..] == b';
    }
  }

  lemma PlainTextsCons(cs: seq<Node>)
    requires cs != []
    ensures PlainTexts(cs) <==> (cs[0].Text? ==> NoMarkupChars(cs[0].text)) && PlainTexts(cs[1..])
  {
    assert forall i :: 1 <= i < |cs| ==> cs[i] == cs[1..][i - 1];
  }

  lemma SerializeCons(cs: seq<Node>)
    requires cs != []
    ensures Serialize(cs) == Serialize([cs[0]]) + Serialize(cs[1..])
  {
    assert [cs[0]][1..] == [];
    assert [cs[0]][0] == cs[0];
  }

  lemma SerializeOne(n: Node)
    ensures n.Text? ==> Serialize([n]) == EscapeText(n.text)
  {
    assert [n][1..] == [];
  }

  /** One text child is joined as its raw string. */
  lemma JoinOneText(s: string)
    ensures JoinContents([Text(s)]) == s
  {
    assert [Text(s)][1..] == [];
    assert s + [] == s;
  }

  /** The markup handed to the parser: a bare `<p>` (the old attributes are
      gone), the joined contents with runs collapsed, a closing `</p>`. */
  function ParagraphMarkup(cs: seq<Node>): (r: string)
    ensures |r| >= 7
    ensures StartsWith(r, "<p>") && r[|r| - 4..] == "</p>"
  {
    "<p>" + ReplaceBrRuns(JoinContents(cs)) + "</p>"
  }

  /** A paragraph of one text child hands its raw text, runs collapsed, to
      the parser: markers written as entities in the page become markup. */
  lemma ParagraphOfText(s: string)
    ensures ParagraphMarkup([Text(s)]) == "<p>" + ReplaceBrRuns(s) + "</p>"
  {
    JoinOneText(s);
  }

  /** A paragraph whose text children hold no `&`, `<` or `>` and whose
      markup has no run is re-emitted as a bare `<p>` around its own
      serialised children. */
  lemma ParagraphMarkupWithoutRun(cs: seq<Node>)
    requires PlainTexts(cs)
    requires NoRun(Serialize(cs))
    ensures ParagraphMarkup(cs) == "<p>" + Serialize(cs) + "</p>"
  {
    JoinVersusSerialize(cs);
    ReplaceWithoutRun(Serialize(cs));
  }

  /** More generally, without a run in the join the paragraph's joined
      contents are handed over as they are. */
  lemma ParagraphMarkupJoinWithoutRun(cs: seq<Node>)
    requires NoRun(JoinContents(cs))
    ensures ParagraphMarkup(cs) == "<p>" + JoinContents(cs) + "</p>"
  {
    ReplaceWithoutRun(JoinContents(cs));
  }

  /** Two escaped markers written as text in the page become a paragraph
      break once joined raw. */
  lemma EscapedMarkersSplit()
    ensures ParagraphMarkup([Text("<br><br>")]) == "<p>" + "</p><p>" + "</p>"
  {
    ParagraphOfText("<br><br>");
    ReplaceOnlyMarkersExample();
  }

  /** `_strip_paragraphs`: every `p` that `find_all("p")` lists is rebuilt,
      but a `p` inside another is rebuilt after its ancestor left the tree,
      so only the outermost ones take effect. */
  function StripParagraphs(ns: seq<Node>, parse: string -> seq<Node>): (r: seq<Node>)
  {
    if ns == [] then []
    else
      (match ns[0]
       case Text(_) => [ns[0]]
       case Element(t, a, cs) =>
         if t == "p" then RebuildParagraph(cs, parse) else [Element(t, a, StripParagraphs(cs, parse))])
      + StripParagraphs(ns[1..], parse)
  }

  /** Without paragraphs there is nothing to rebuild. */
  lemma {:induction false} StripWithoutParagraphs(ns: seq<Node>, parse: string -> seq<Node>)
    requires FindAll(ns, TagIs("p")) == []
    ensures StripParagraphs(ns, parse) == ns
  {
    if ns != [] {
      FindAllCons(ns[0], ns[1..], TagIs("p"));
      assert ns == [ns[0]] + ns[1..];
      StripWithoutParagraphs(ns[1..], parse);
      if ns[0].Element? {
        StripWithoutParagraphs(ns[0].children, parse);
      }
    }
  }

  // ---------------------------------------------------------------------
  // Links
  // ---------------------------------------------------------------------

  const SiteRoot: string := "https://imabi.org/"
  const RelativeRoot: string := "../"

  /** The new value of an `href` that `_fix_links` rewrites. */
  function FixHref(h: string): (r: string)
    ensures !StartsWith(r, SiteRoot)
    ensures !StartsWith(h, SiteRoot) ==> r == h
    ensures StartsWith(h, SiteRoot) ==>
      r == RelativeRoot + ReplaceAll(h[|SiteRoot|..], SiteRoot, RelativeRoot)
  {
    if StartsWith(h, SiteRoot) then
      var r := ReplaceAll(h, SiteRoot, RelativeRoot);
      assert r == RelativeRoot + ReplaceAll(h[|SiteRoot|..], SiteRoot, RelativeRoot);
      assert r[0] == '.';
      r
    else h
  }

  /** `_fix_links` on one anchor's attributes: a missing or empty `href`, or
      one pointing elsewhere, is left alone. */
  function FixAnchorAttrs(a: Attrs): (r: Attrs)
    ensures GetAttr(r, "href") == match GetAttr(a, "href") case None => None case Some(h) => Some(FixHref(h))
    ensures forall k :: k != "href" ==> GetAttr(r, k) == GetAttr(a, k)
  {
    match GetAttr(a, "href")
    case None => a
    case Some(h) => if h != "" && StartsWith(h, SiteRoot) then SetAttr(a, "href", FixHref(h)) else a
  }

  /** `_fix_links` over the tree: every `a` below the root. */
  function FixLinks(ns: seq<Node>): (r: seq<Node>)
    ensures |r| == |ns|
  {
    if ns == [] then []
    else
      var head := match ns[0]
        case Text(_) => ns[0]
        case Element(t, a, cs) => Element(t, if t == "a" then FixAnchorAttrs(a) else a, FixLinks(cs));
      [head] + FixLinks(ns[1..])
  }

  lemma FixAnchorIdempotent(a: Attrs)
    ensures FixAnchorAttrs(FixAnchorAttrs(a)) == FixAnchorAttrs(a)
  {
  }

  /** Rewriting links twice is rewriting them once. */
  lemma {:induction false} FixLinksIdempotent(ns: seq<Node>)
    ensures FixLinks(FixLinks(ns)) == FixLinks(ns)
  {
    if ns != [] {
      FixLinksIdempotent(ns[1..]);
      if ns[0].Element? {
        FixLinksIdempotent(ns[0].children);
        FixAnchorIdempotent(ns[0].attrs);
      }
      assert FixLinks(ns)[1..] == FixLinks(ns[1..]);
    }
  }

  /** Link rewriting touches attributes only: every text run is unchanged. */
  lemma {:induction false} FixLinksKeepsText(ns: seq<Node>)
    ensures TextOf(FixLinks(ns)) == TextOf(ns)
    ensures StrippedText(FixLinks(ns)) == StrippedText(ns)
  {
    if ns != [] {
      FixLinksKeepsText(ns[1..]);
      if ns[0].Element? {
        FixLinksKeepsText(ns[0].children);
      }
      assert FixLinks(ns)[1..] == FixLinks(ns[1..]);
    }
  }

  /** No anchor anywhere in `ns` still points at the site root. */
  predicate NoSiteLinks(ns: seq<Node>)
  {
    forall i :: 0 <= i < |ns| ==> match ns[i]
      case Text(_) => true
      case Element(t, a, cs) =>
        (t == "a" ==> match GetAttr(a, "href") case None => true case Some(h) => !StartsWith(h, SiteRoot))
        && NoSiteLinks(cs)
  }

  lemma {:induction false} FixLinksLeavesNoSiteLinks(ns: seq<Node>)
    ensures NoSiteLinks(FixLinks(ns))
  {
    if ns != [] {
      FixLinksLeavesNoSiteLinks(ns[1..]);
      if ns[0].Element? {
        FixLinksLeavesNoSiteLinks(ns[0].children);
      }
      var r := FixLinks(ns);
      assert r[1..] == FixLinks(ns[1..]);
      forall i | 1 <= i < |r| ensures r[i] == FixLinks(ns[1..])[i - 1] {
      }
    }
  }

  // ---------------------------------------------------------------------
  // Title and envelope
  // ---------------------------------------------------------------------

  /** `title.replace(".xhtml", "").replace("-", " ").title()` */
  function CleanTitle(title: string): (r: string)
    ensures |r| <= |title|
    ensures forall i :: 0 <= i < |r| ==> r[i] != '-'
  {
    var a := ReplaceAll(title, ".xhtml", "");
    ReplaceShrinks(title, ".xhtml");
    var b := ReplaceAll(a, "-", " ");
    ReplaceCharRemovesIt(a, '-', " ");
    ReplaceCharLength(a, '-', ' ');
    var r := Title(b);
    forall i | 0 <= i < |r| ensures r[i] != '-' {
      TitleCharClass(b[i], i > 0 && IsAsciiLetter(b[i - 1]));
    }
    r
  }

  lemma {:induction false} ReplaceShrinks(s: string, p: string)
    requires |p| > 0
    ensures |ReplaceAll(s, p, "")| <= |s|
    decreases |s|
  {
    if s != [] {
      if StartsWith(s, p) {
        ReplaceShrinks(s[|p|..], p);
      } else {
        ReplaceShrinks(s[1..], p);
      }
    }
  }

  lemma {:induction false} ReplaceCharLength(s: string, c: char, d: char)
    ensures |ReplaceAll(s, [c], [d])| == |s|
    decreases |s|
  {
    if s != [] {
      if StartsWith(s, [c]) {
        ReplaceCharLength(s[1..], c, d);
      } else {
        ReplaceCharLength(s[1..], c, d);
      }
    }
  }

  /** A title with no `.xhtml` and no `-` in it is only title-cased. */
  lemma CleanTitlePlain(title: string)
    requires !Contains(title, ".xhtml") && forall i :: 0 <= i < |title| ==> title[i] != '-'
    ensures CleanTitle(title) == Title(title)
  {
    ReplaceAbsent(title, ".xhtml", "");
    FirstCharAbsent(title, "-");
    ReplaceAbsent(title, "-", " ");
  }

  /** Every `-` of the title becomes a space, whatever surrounds it. */
  lemma CleanTitleDashes(title: string)
    requires !Contains(title, ".xhtml")
    ensures |CleanTitle(title)| == |title|
    ensures forall i :: 0 <= i < |title| && title[i] == '-' ==> CleanTitle(title)[i] == ' '
  {
    ReplaceAbsent(title, ".xhtml", "");
    var b := ReplaceAll(title, "-", " ");
    ReplaceCharPointwise(title, '-', ' ');
    forall i | 0 <= i < |title| && title[i] == '-' ensures CleanTitle(title)[i] == ' ' {
      assert b[i] == ' ';
      assert Title(b)[i] == TitleChar(b[i], i > 0 && IsAsciiLetter(b[i - 1]));
    }
  }

  lemma {:induction false} ReplaceCharPointwise(s: string, c: char, d: char)
    ensures |ReplaceAll(s, [c], [d])| == |s|
    ensures forall i :: 0 <= i < |s| ==> ReplaceAll(s, [c], [d])[i] == if s[i] == c then d else s[i]
    decreases |s|
  {
    if s != [] {
      ReplaceCharPointwise(s[1..], c, d);
      assert StartsWith(s, [c]) <==> s[0] == c;
      var r := ReplaceAll(s, [c], [d]);
      assert r == [if s[0] == c then d else s[0]] + ReplaceAll(s[1..], [c], [d]);
    }
  }

  const CssPath: string := "https://imabi.org/Styles/base_style.css"

  /** The XML declaration, the XHTML 1.1 DOCTYPE and the opening `html`
      tag, each line after the first indented as in the source literal. */
  const Preamble: string :=
    "<?xml version=\"1.0\" encoding=\"utf-8\"?>\n"
    + "        <!DOCTYPE html PUBLIC \"-//W3C//DTD XHTML 1.1//EN\"\n"
    + "        \"http://www.w3.org/TR/xhtml11/DTD/xhtml11.dtd\">\n"
    + "        <html xmlns=\"http://www.w3.org/1999/xhtml\" xmlns:epub=\"http://www.idpf.org/2007/ops\">\n"

  const TitleOpen: string := "        <head>\n        <title>"

  const TitleClose: string :=
    "</title>\n"
    + "        <link href=\"" + CssPath + "\" rel=\"stylesheet\" type=\"text/css\"/>\n"
    + "        </head>\n"
    + "        "

  const EnvelopeTail: string := "\n        </html>"

  /** What precedes the body in `_wrap_xhtml`'s envelope. */
  function EnvelopeHead(cleanTitle: string): string
  {
    Preamble + TitleOpen + cleanTitle + TitleClose
  }

  /** `_wrap_xhtml(content, title)` with the content already a string: the
      preamble, the cleaned title and the body, each placed verbatim. */
  function WrapXhtml(body: string, title: string): string
  {
    EnvelopeHead(CleanTitle(title)) + body + EnvelopeTail
  }

  /** The page starts with the preamble, carries the cleaned title at its
      fixed place, and holds the body verbatim between the head and the
      closing tag. */
  lemma WrapXhtmlShape(body: string, title: string)
    ensures var r := WrapXhtml(body, title);
      StartsWith(r, Preamble)
      && |Preamble| + |TitleOpen| + |CleanTitle(title)| <= |r|
      && r[|Preamble| + |TitleOpen|..|Preamble| + |TitleOpen| + |CleanTitle(title)|] == CleanTitle(title)
      && |r| == |EnvelopeHead(CleanTitle(title))| + |body| + |EnvelopeTail|
      && r[|EnvelopeHead(CleanTitle(title))|..|r| - |EnvelopeTail|] == body
      && r[|r| - |EnvelopeTail|..] == EnvelopeTail
  {
    EnvelopeParts(Preamble, TitleOpen, CleanTitle(title), TitleClose, body, EnvelopeTail);
  }

  /** Where the pieces of an envelope sit, for any pieces. */
  lemma EnvelopeParts(p: string, o: string, t: string, c: string, body: string, tail: string)
    ensures var h := p + o + t + c; var r := h + body + tail;
      StartsWith(r, p)
      && |p| + |o| + |t| <= |r| && r[|p| + |o|..|p| + |o| + |t|] == t
      && |r| == |h| + |body| + |tail|
      && r[|h|..|r| - |tail|] == body
      && r[|r| - |tail|..] == tail
  {
    var h := p + o + t + c;
    var r := h + body + tail;
    assert r[..|h|] == h;
    assert h[..|p|] == p;
    assert r[..|p|] == h[..|p|];
    assert h[|p| + |o|..|p| + |o| + |t|] == t;
    assert r[|p| + |o|..|p| + |o| + |t|] == h[|p| + |o|..|p| + |o| + |t|];
  }

  /** The envelope hides nothing: two pages with the same title are equal
      exactly when their bodies are. */
  lemma WrapXhtmlInjective(b1: string, b2: string, title: string)
    ensures WrapXhtml(b1, title) == WrapXhtml(b2, title) <==> b1 == b2
  {
    WrapXhtmlShape(b1, title);
    WrapXhtmlShape(b2, title);
    if WrapXhtml(b1, title) == WrapXhtml(b2, title) {
      var n := |EnvelopeHead(CleanTitle(title))|;
      assert b1 == WrapXhtml(b1, title)[n..|WrapXhtml(b1, title)| - |EnvelopeTail|];
    }
  }

  // ---------------------------------------------------------------------
  // The passes on the shared tree
  // ---------------------------------------------------------------------

  /** `_strip_paragraphs(content)` */
  method StripAllParagraphs(doc: Document, parse: string -> seq<Node>)
    requires doc.root.Element?
    modifies doc
    ensures doc.root == Element(old(doc.root.tag), old(doc.root.attrs), StripParagraphs(old(doc.root.children), parse))
  {
    doc.root := Element(doc.root.tag, doc.root.attrs, StripParagraphs(doc.root.children, parse));
  }

  /** `_process_paragraphs(content)` */
  method ClassifyParagraphs(doc: Document)
    requires doc.root.Element?
    modifies doc
    ensures doc.root == Element(old(doc.root.tag), old(doc.root.attrs), ClassifyAll(old(doc.root.children)))
  {
    doc.root := Element(doc.root.tag, doc.root.attrs, ClassifyAll(doc.root.children));
  }

  /** `_fix_links(content)` */
  method FixAllLinks(doc: Document)
    requires doc.root.Element?
    modifies doc
    ensures doc.root == Element(old(doc.root.tag), old(doc.root.attrs), FixLinks(old(doc.root.children)))
    ensures NoSiteLinks(doc.root.children)
  {
    doc.root := Element(doc.root.tag, doc.root.attrs, FixLinks(doc.root.children));
    FixLinksLeavesNoSiteLinks(old(doc.root.children));
  }

  /** The common formatting of a page, one pass after another. */
  function CommonFormatting(cs: seq<Node>, parse: string -> seq<Node>): (r: seq<Node>)
    ensures NoSiteLinks(r)
  {
    FixLinksLeavesNoSiteLinks(ClassifyAll(StripParagraphs(cs, parse)));
    FixLinks(ClassifyAll(StripParagraphs(cs, parse)))
  }

  /** `_process_common_formatting(content)`: run collapsing, then
      classification, then link fixing, on the same root. */
  method ProcessCommonFormatting(doc: Document, parse: string -> seq<Node>)
    requires doc.root.Element?
    modifies doc
    ensures doc.root == Element(old(doc.root.tag), old(doc.root.attrs), CommonFormatting(old(doc.root.children), parse))
  {
    StripAllParagraphs(doc, parse);
    ClassifyParagraphs(doc);
    FixAllLinks(doc);
  }
}
