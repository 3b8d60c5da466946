/** The records the converter passes between its stages: the kind of page
    being processed, and one lesson of the index with the identifiers derived
    from its global number. */
module DataModels {
  import opened Wrappers
  import opened Strings

  /** The three kinds of page; `Value` is the enum's string value. */
  datatype ContentType = Index | Lesson | Glossary

  function Value(c: ContentType): (r: string)
    ensures c == Index <==> r == "index"
    ensures c == Lesson <==> r == "lesson"
    ensures c == Glossary <==> r == "glossary"
  {
    match c
    case Index => "index"
    case Lesson => "lesson"
    case Glossary => "glossary"
  }

  /** `{"web": ..., "relative": ...}`: where the lesson lives on the site,
      and the same address relative to the site root. */
  datatype LinkData = LinkData(web: string, relative: string)

  /** `number` is the global position of the lesson in the index;
      `lessonNumber`, `originalNumber` and `title` come from its text. */
  datatype LessonData = LessonData(
    number: int,
    lessonNumber: string,
    originalNumber: string,
    title: string,
    linkData: Option<LinkData>)

  /** `has_link` */
  predicate HasLink(l: LessonData)
  {
    l.linkData.Some?
  }

  const IdPrefix: string := "lesson-"

  /** `id`: `lesson-` and the number formatted with `03d`. */
  function Id(l: LessonData): (r: string)
    ensures StartsWith(r, IdPrefix)
    ensures 0 <= l.number < 1000 ==> |r| == |IdPrefix| + 3
    ensures l.number >= 100 ==> r == IdPrefix + Decimal(l.number)
  {
    PaddedShape(l.number);
    IdPrefix + FormatPadded(l.number, 3)
  }

  lemma PaddedShape(n: int)
    ensures 0 <= n < 1000 ==> |FormatPadded(n, 3)| == 3
    ensures n >= 100 ==> FormatPadded(n, 3) == Decimal(n)
  {
    if n >= 0 {
      DecimalLength(n);
    }
  }

  lemma {:induction false} DecimalLength(n: nat)
    ensures n < 10 ==> |Decimal(n)| == 1
    ensures 10 <= n < 100 ==> |Decimal(n)| == 2
    ensures n < 1000 ==> |Decimal(n)| <= 3
    ensures n >= 10 ==> |Decimal(n)| >= 2
    ensures n >= 100 ==> |Decimal(n)| >= 3
  {
    if n >= 10 {
      DecimalLength(n / 10);
    }
  }

  /** The id of a non-negative number spells the number: the digits after
      the prefix read back to it, however many there are. */
  lemma IdReadsBack(l: LessonData)
    requires l.number >= 0
    ensures var d := Id(l)[|IdPrefix|..];
      (forall i :: 0 <= i < |d| ==> IsDigit(d[i])) && DigitsValue(d) == l.number
  {
    assert Id(l)[|IdPrefix|..] == ZeroPad(l.number, 3);
    ZeroPadValue(l.number, 3);
  }

  /** Two lessons share an id only when they share a number. */
  lemma IdInjective(a: LessonData, b: LessonData)
    requires Id(a) == Id(b)
    ensures a.number == b.number
  {
    assert Id(a)[|IdPrefix|..] == FormatPadded(a.number, 3);
    assert Id(b)[|IdPrefix|..] == FormatPadded(b.number, 3);
    FormatPaddedInjective(a.number, b.number, 3);
  }

  /** `filename`: the id with `.xhtml` appended. */
  function Filename(l: LessonData): (r: string)
    ensures |r| == |Id(l)| + 6 && r[..|Id(l)|] == Id(l) && r[|Id(l)|..] == ".xhtml"
  {
    Id(l) + ".xhtml"
  }

  /** Distinct numbers give distinct file names. */
  lemma FilenameInjective(a: LessonData, b: LessonData)
    requires Filename(a) == Filename(b)
    ensures a.number == b.number
  {
    assert |Id(a)| == |Id(b)|;
    assert Id(a) == Filename(a)[..|Id(a)|];
    IdInjective(a, b);
  }

  /** Some examples of the format: three digits at least, all digits beyond. */
  lemma IdExamples()
    ensures Id(LessonData(7, "", "", "", None)) == "lesson-007"
    ensures Id(LessonData(42, "", "", "", None)) == "lesson-042"
    ensures Id(LessonData(1234, "", "", "", None)) == "lesson-1234"
  {
    PaddedSeven();
    PaddedFortyTwo();
    DecimalLong();
  }

  lemma PaddedSeven()
    ensures FormatPadded(7, 3) == "007"
  {
    assert Decimal(7) == "7";
    assert Zeros(2) == "00";
  }

  lemma PaddedFortyTwo()
    ensures FormatPadded(42, 3) == "042"
  {
    assert Decimal(4) == "4";
    assert Decimal(42) == "42";
    assert Zeros(1) == "0";
  }

  lemma DecimalLong()
    ensures Decimal(1234) == "1234"
  {
    assert Decimal(12) == "12";
    assert Decimal(123) == "123";
  }
}
