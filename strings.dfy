/** Small, generic pieces shared by every module: an Option type and the
    Python string operations the converter relies on (`strip`, `lower`,
    `replace`, `split(sep, 1)`, `in`, `"".join`, `str(int)`, `format(n, "03d")`,
    `str.title`), each written out for the characters the model covers. */
module Wrappers {
  datatype Option<+T> = None | Some(value: T)

  /** The outcome of a step that can raise: a value, or the error that
      propagates to the caller. */
  datatype Result<+T> = Ok(value: T) | Err(error: string)
}

module Strings {
  import opened Wrappers

  /** Python's `str.isspace`: the whitespace that `strip()` and the regular
      expression class `\s` both use. */
  predicate IsSpace(c: char)
  {
    c == ' ' || ('\t' <= c <= '\r') || ('\U{1c}' <= c <= '\U{1f}') || c == '\U{85}' || c == '\U{a0}'
    || c == '\U{1680}' || ('\U{2000}' <= c <= '\U{200a}') || c == '\U{2028}' || c == '\U{2029}'
    || c == '\U{202f}' || c == '\U{205f}' || c == '\U{3000}'
  }

  predicate AllSpace(s: string)
  {
    forall i :: 0 <= i < |s| ==> IsSpace(s[i])
  }

  /** How many whitespace characters `s` starts with. */
  function LeadingSpace(s: string): (k: nat)
    ensures k <= |s| && (forall i :: 0 <= i < k ==> IsSpace(s[i])) && (k == |s| || !IsSpace(s[k]))
  {
    if s != [] && IsSpace(s[0]) then 1 + LeadingSpace(s[1..]) else 0
  }

  /** Where the whitespace that `s` ends with begins. */
  function TrailingSpace(s: string): (k: nat)
    ensures k <= |s| && (forall i :: k <= i < |s| ==> IsSpace(s[i])) && (k == 0 || !IsSpace(s[k - 1]))
  {
    if s != [] && IsSpace(s[|s| - 1]) then TrailingSpace(s[..|s| - 1]) else |s|
  }

  /** `s.lstrip()` */
  function TrimLeft(s: string): (r: string)
    ensures r == [] || !IsSpace(r[0])
  {
    s[LeadingSpace(s)..]
  }

  /** `s.rstrip()` */
  function TrimRight(s: string): (r: string)
    ensures r == [] || !IsSpace(r[|r| - 1])
  {
    s[..TrailingSpace(s)]
  }

  /** `s.strip()`: the longest infix of `s` with no whitespace at either end. */
  function Strip(s: string): (r: string)
  {
    TrimRight(TrimLeft(s))
  }

  /** What `strip()` keeps and drops: an infix, with only whitespace cut off. */
  lemma StripSpec(s: string)
    ensures exists i, j :: 0 <= i <= j <= |s| && Strip(s) == s[i..j] && AllSpace(s[..i]) && AllSpace(s[j..])
    ensures Strip(s) == [] || (!IsSpace(Strip(s)[0]) && !IsSpace(Strip(s)[|Strip(s)| - 1]))
  {
    var i, j := StripBounds(s);
    var l := TrimLeft(s);
    var r := TrimRight(l);
    if r != [] {
      assert r[0] == l[0];
    }
  }

  /** Where the infix that `strip()` keeps begins and ends. */
  lemma StripBounds(s: string) returns (i: nat, j: nat)
    ensures i <= j <= |s| && Strip(s) == s[i..j] && AllSpace(s[..i]) && AllSpace(s[j..])
  {
    var l := TrimLeft(s);
    i := |s| - |l|;
    var r := TrimRight(l);
    j := i + |r|;
    InfixOfSuffix(s, i, l, r);
  }

  /** A prefix `r` of the suffix `l` of `s` from `i` is the infix of `s`
      from `i`, and what follows it in `l` is what follows it in `s`. */
  lemma InfixOfSuffix<T>(s: seq<T>, i: nat, l: seq<T>, r: seq<T>)
    requires i <= |s| && l == s[i..] && |r| <= |l| && r == l[..|r|]
    ensures i + |r| <= |s| && r == s[i..i + |r|] && l[|r|..] == s[i + |r|..]
  {
  }

  /** `strip()` yields the empty string exactly for all-whitespace input. */
  lemma StripEmpty(s: string)
    ensures Strip(s) == [] <==> AllSpace(s)
  {
    var l := TrimLeft(s);
    if Strip(s) == [] {
      assert l == [];
      assert s[..|s|] == s;
    }
  }

  /** `strip()` leaves a string that has no whitespace at either end as it is. */
  lemma StripIdempotent(s: string)
    ensures Strip(Strip(s)) == Strip(s)
  {
    var r := Strip(s);
    StripSpec(s);
    if r != [] {
      assert TrimLeft(r) == r;
      assert TrimRight(r) == r;
    }
  }

  /** `s.strip(c)` for the one character `c`. */
  function StripChar(s: string, c: char): (r: string)
    ensures |r| <= |s|
    ensures r == [] || (r[0] != c && r[|r| - 1] != c)
    decreases |s|
  {
    if s == [] then []
    else if s[0] == c then StripChar(s[1..], c)
    else if s[|s| - 1] == c then StripChar(s[..|s| - 1], c)
    else s
  }

  /** What `strip(c)` keeps and drops: the infix of `s` left after cutting
      off only `c`s at both ends, and no further. */
  lemma {:induction false} StripCharSpec(s: string, c: char) returns (i: nat, j: nat)
    ensures i <= j <= |s| && StripChar(s, c) == s[i..j]
    ensures forall k :: 0 <= k < i ==> s[k] == c
    ensures forall k :: j <= k < |s| ==> s[k] == c
    ensures i < j ==> s[i] != c && s[j - 1] != c
    decreases |s|
  {
    if s == [] {
      i, j := 0, 0;
    } else if s[0] == c {
      var i', j' := StripCharSpec(s[1..], c);
      i, j := i' + 1, j' + 1;
      assert s[1..][i'..j'] == s[i..j];
      forall k | 0 <= k < i ensures s[k] == c {
        if k > 0 {
          assert s[k] == s[1..][k - 1];
        }
      }
      forall k | j <= k < |s| ensures s[k] == c {
        assert s[k] == s[1..][k - 1];
      }
    } else if s[|s| - 1] == c {
      var t := s[..|s| - 1];
      i, j := StripCharSpec(t, c);
      assert t[i..j] == s[i..j];
      forall k | j <= k < |s| ensures s[k] == c {
        if k < |s| - 1 {
          assert s[k] == t[k];
        }
      }
    } else {
      i, j := 0, |s|;
    }
  }

  predicate IsAsciiUpper(c: char) { 'A' <= c <= 'Z' }
  predicate IsAsciiLower(c: char) { 'a' <= c <= 'z' }
  predicate IsAsciiLetter(c: char) { IsAsciiUpper(c) || IsAsciiLower(c) }
  predicate IsDigit(c: char) { '0' <= c <= '9' }

  function LowerChar(c: char): char
  {
    if IsAsciiUpper(c) then (c as int + 32) as char else c
  }

  function UpperChar(c: char): char
  {
    if IsAsciiLower(c) then (c as int - 32) as char else c
  }

  /** `s.lower()`, for the ASCII letters. */
  function Lower(s: string): (r: string)
    ensures |r| == |s|
    ensures forall i :: 0 <= i < |s| ==> r[i] == LowerChar(s[i])
  {
    if s == [] then [] else [LowerChar(s[0])] + Lower(s[1..])
  }

  /** Text without upper-case letters is its own lower case. */
  lemma LowerFixed(s: string)
    requires forall i :: 0 <= i < |s| ==> !IsAsciiUpper(s[i])
    ensures Lower(s) == s
  {
    assert forall i :: 0 <= i < |s| ==> Lower(s)[i] == s[i];
  }

  /** `Title` capitalises `c` when the character before it is not a letter
      (`prevCased` is false) and lower-cases it otherwise, as `str.title` does. */
  function TitleChar(c: char, prevCased: bool): char
  {
    if !IsAsciiLetter(c) then c else if prevCased then LowerChar(c) else UpperChar(c)
  }

  lemma TitleCharClass(c: char, prevCased: bool)
    ensures IsAsciiLetter(c) ==> IsAsciiLetter(TitleChar(c, prevCased))
    ensures !IsAsciiLetter(c) ==> TitleChar(c, prevCased) == c
  {
  }

  function TitleFrom(s: string, prevCased: bool): (r: string)
    ensures |r| == |s|
    ensures |s| > 0 ==> r[0] == TitleChar(s[0], prevCased)
    ensures forall i :: 0 < i < |s| ==> r[i] == TitleChar(s[i], IsAsciiLetter(s[i - 1]))
  {
    if s == [] then []
    else [TitleChar(s[0], prevCased)] + TitleFrom(s[1..], IsAsciiLetter(s[0]))
  }

  /** `s.title()` for ASCII: every letter that starts a run of letters is
      upper-cased and every other letter lower-cased; non-letters (digits,
      punctuation, CJK) are unchanged and end a word. */
  function Title(s: string): (r: string)
    ensures |r| == |s|
    ensures forall i :: 0 <= i < |s| ==> r[i] == TitleChar(s[i], i > 0 && IsAsciiLetter(s[i - 1]))
  {
    TitleFrom(s, false)
  }

  predicate StartsWith(s: string, p: string)
  {
    |p| <= |s| && s[..|p|] == p
  }

  predicate OccursAt(s: string, p: string, i: int)
  {
    0 <= i && i + |p| <= |s| && s[i..i + |p|] == p
  }

  /** The first position at which `p` occurs in `s`, like `s.find(p)`. */
  function IndexOf(s: string, p: string): (r: Option<nat>)
    ensures r.Some? ==> OccursAt(s, p, r.value)
    ensures r.Some? ==> forall j :: 0 <= j < r.value ==> !OccursAt(s, p, j)
    ensures r.None? ==> forall j :: 0 <= j <= |s| ==> !OccursAt(s, p, j)
  {
    if StartsWith(s, p) then Some(0)
    else if s == [] then None
    else match IndexOf(s[1..], p)
      case None =>
        assert forall j :: 1 <= j <= |s| ==> !OccursAt(s, p, j) by {
          forall j | 1 <= j <= |s| ensures !OccursAt(s, p, j) {
            OccursShift(s, p, j - 1);
          }
        }
        None
      case Some(k) =>
        assert s[1..][k..k + |p|] == s[k + 1..k + 1 + |p|];
        assert forall j :: 1 <= j < k + 1 ==> !OccursAt(s, p, j) by {
          forall j | 1 <= j < k + 1 ensures !OccursAt(s, p, j) {
            OccursShift(s, p, j - 1);
          }
        }
        Some(k + 1)
  }

  lemma OccursShift(s: string, p: string, j: nat)
    requires s != []
    ensures OccursAt(s[1..], p, j) == OccursAt(s, p, j + 1)
  {
    if j + |p| <= |s| - 1 {
      assert s[1..][j..j + |p|] == s[j + 1..j + 1 + |p|];
    }
  }

  /** `find` is pinned down by one occurrence with none before it. */
  lemma IndexOfIs(s: string, p: string, i: nat)
    requires OccursAt(s, p, i) && forall j :: 0 <= j < i ==> !OccursAt(s, p, j)
    ensures IndexOf(s, p) == Some(i)
  {
  }

  /** A pattern whose first character appears nowhere else in it occurs
      first right after a prefix free of it. */
  lemma IndexOfAfter(a: string, p: string, b: string)
    requires |p| > 0 && !Contains(a, p)
    requires forall k :: 0 < k < |p| ==> p[k] != p[0]
    ensures IndexOf(a + p + b, p) == Some(|a|)
  {
    var s := a + p + b;
    assert s[|a|..|a| + |p|] == p;
    forall j | 0 <= j < |a| ensures !OccursAt(s, p, j) {
      if j + |p| <= |a| {
        assert s[j..j + |p|] == a[j..j + |p|];
        assert !OccursAt(a, p, j);
      } else {
        assert s[|a|] == p[0];
        assert s[j..j + |p|][|a| - j] == s[|a|];
      }
    }
    IndexOfIs(s, p, |a|);
  }

  /** Python's `p in s`. */
  predicate Contains(s: string, p: string)
  {
    IndexOf(s, p).Some?
  }

  lemma ContainsOccurrence(s: string, p: string, i: int)
    requires OccursAt(s, p, i)
    ensures Contains(s, p)
  {
  }

  lemma ContainsSelf(p: string)
    ensures Contains(p, p)
  {
    assert OccursAt(p, p, 0);
  }

  /** What a string holds, any string extended on either side holds. */
  lemma ContainsGrow(s: string, p: string, t: string)
    requires Contains(s, p)
    ensures Contains(s + t, p) && Contains(t + s, p)
  {
    var i := IndexOf(s, p).value;
    assert (s + t)[i..i + |p|] == s[i..i + |p|];
    assert OccursAt(s + t, p, i);
    assert (t + s)[|t| + i..|t| + i + |p|] == s[i..i + |p|];
    assert OccursAt(t + s, p, |t| + i);
  }

  lemma StartsWithJoin(p: string, t: string)
    ensures StartsWith(p + t, p)
  {
    assert (p + t)[..|p|] == p;
  }

  lemma StartsWithGrow(s: string, p: string, t: string)
    requires StartsWith(s, p)
    ensures StartsWith(s + t, p)
  {
    assert (s + t)[..|p|] == s[..|p|];
  }

  /** Containment is transitive. */
  lemma ContainsTrans(s: string, x: string, p: string)
    requires Contains(s, x) && Contains(x, p)
    ensures Contains(s, p)
  {
    var i := IndexOf(s, x).value;
    var j := IndexOf(x, p).value;
    assert OccursAt(s, x, i) && OccursAt(x, p, j);
    assert s[i..i + |x|][j..j + |p|] == s[i + j..i + j + |p|];
    assert OccursAt(s, p, i + j);
  }

  /** Text between an opening and a closing piece is found again by
      cutting both off. */
  lemma Enclosed(o: string, x: string, c: string)
    ensures StartsWith(o + x + c, o)
    ensures |o + x + c| == |o| + |x| + |c|
    ensures (o + x + c)[|o|..|o + x + c| - |c|] == x
  {
    assert (o + x + c)[..|o|] == o;
    assert (o + x + c)[|o|..|o| + |x|] == x;
  }

  /** `s.replace(p, q)`: every non-overlapping occurrence of `p`, scanning
      left to right, becomes `q`. The converter only ever replaces non-empty
      constants. */
  function ReplaceAll(s: string, p: string, q: string): string
    requires |p| > 0
    decreases |s|
  {
    if s == [] then []
    else if StartsWith(s, p) then q + ReplaceAll(s[|p|..], p, q)
    else [s[0]] + ReplaceAll(s[1..], p, q)
  }

  /** Replacing a string that does not occur changes nothing. */
  lemma {:induction false} ReplaceAbsent(s: string, p: string, q: string)
    requires |p| > 0 && !Contains(s, p)
    ensures ReplaceAll(s, p, q) == s
    decreases |s|
  {
    if s != [] {
      assert !OccursAt(s, p, 0);
      assert !StartsWith(s, p);
      forall j | 0 <= j <= |s| - 1 ensures !OccursAt(s[1..], p, j) {
        OccursShift(s, p, j);
      }
      ReplaceAbsent(s[1..], p, q);
    }
  }

  /** A string whose first character does not appear in `s` does not occur in it. */
  lemma FirstCharAbsent(s: string, p: string)
    requires |p| > 0 && forall i :: 0 <= i < |s| ==> s[i] != p[0]
    ensures !Contains(s, p)
  {
    forall j | 0 <= j <= |s| ensures !OccursAt(s, p, j) {
      if j + |p| <= |s| {
        assert s[j..j + |p|][0] == s[j];
      }
    }
  }

  /** A prefix in which no occurrence starts is copied as it is. */
  lemma {:induction false} ReplaceSkips(a: string, b: string, p: string, q: string)
    requires |p| > 0
    requires forall i :: 0 <= i < |a| ==> !OccursAt(a + b, p, i)
    ensures ReplaceAll(a + b, p, q) == a + ReplaceAll(b, p, q)
    decreases |a|
  {
    if a == [] {
      assert a + b == b;
    } else {
      var t := a + b;
      assert !OccursAt(t, p, 0);
      assert t[1..] == a[1..] + b;
      forall i | 0 <= i < |a[1..]| ensures !OccursAt(a[1..] + b, p, i) {
        OccursShift(t, p, i);
      }
      ReplaceSkips(a[1..], b, p, q);
      assert [a[0]] + a[1..] == a;
    }
  }

  /** Replacing a single character by a string without it removes every
      occurrence of that character. */
  lemma {:induction false} ReplaceCharRemovesIt(s: string, c: char, q: string)
    requires forall i :: 0 <= i < |q| ==> q[i] != c
    ensures forall i :: 0 <= i < |ReplaceAll(s, [c], q)| ==> ReplaceAll(s, [c], q)[i] != c
    decreases |s|
  {
    if s != [] {
      ReplaceCharRemovesIt(s[1..], c, q);
    }
  }

  /** Python's `sep.join(ss)` with the empty separator. */
  function Concat(ss: seq<string>): (r: string)
  {
    if ss == [] then [] else ss[0] + Concat(ss[1..])
  }

  // Sequence regrouping, stated once for every element type.

  lemma AppendAssoc3<T>(a: seq<T>, b: seq<T>, c: seq<T>)
    ensures a + b + c == a + (b + c)
  {
  }

  lemma SplitJoin<T>(a: seq<T>, k: nat)
    requires k <= |a|
    ensures a[..k] + a[k..] == a
  {
  }

  lemma AppendNil<T>(a: seq<T>)
    ensures a + [] == a
  {
  }

  lemma AppendAssoc<T>(a: seq<T>, b: seq<T>, c: seq<T>, d: seq<T>)
    ensures a + b + c + d == a + (b + c + d)
  {
  }

  lemma {:induction false} ConcatAppend(ss: seq<string>, s: string)
    ensures Concat(ss + [s]) == Concat(ss) + s
  {
    if ss == [] {
      assert ss + [s] == [s];
    } else {
      assert (ss + [s])[1..] == ss[1..] + [s];
      ConcatAppend(ss[1..], s);
    }
  }

  lemma {:induction false} ConcatSplit(ss: seq<string>, ts: seq<string>)
    ensures Concat(ss + ts) == Concat(ss) + Concat(ts)
  {
    if ss == [] {
      assert ss + ts == ts;
    } else {
      assert (ss + ts)[1..] == ss[1..] + ts;
      ConcatSplit(ss[1..], ts);
    }
  }

  function DigitChar(d: nat): char
    requires d < 10
  {
    ('0' as int + d) as char
  }

  /** `str(n)` for a natural number: its decimal digits, no leading zero. */
  function Decimal(n: nat): (r: string)
    ensures |r| > 0 && forall i :: 0 <= i < |r| ==> IsDigit(r[i])
    ensures (n == 0) == (r == "0") && (n > 0 ==> r[0] != '0')
  {
    if n < 10 then [DigitChar(n)] else Decimal(n / 10) + [DigitChar(n % 10)]
  }

  /** `str(i)` for any Python int. */
  function IntToString(i: int): string
  {
    if i < 0 then "-" + Decimal(-i) else Decimal(i)
  }

  /** The value of a string of decimal digits (leading zeros allowed). */
  function DigitsValue(s: string): nat
    requires forall i :: 0 <= i < |s| ==> IsDigit(s[i])
  {
    if s == [] then 0
    else
      assert IsDigit(s[|s| - 1]);
      DigitsValue(s[..|s| - 1]) * 10 + (s[|s| - 1] as int - '0' as int)
  }

  lemma {:induction false} DecimalValue(n: nat)
    ensures DigitsValue(Decimal(n)) == n
  {
    if n >= 10 {
      var d := Decimal(n / 10) + [DigitChar(n % 10)];
      assert d[..|d| - 1] == Decimal(n / 10);
      DecimalValue(n / 10);
    }
  }

  function Zeros(k: nat): (r: string)
    ensures |r| == k && forall i :: 0 <= i < k ==> r[i] == '0'
  {
    if k == 0 then [] else Zeros(k - 1) + "0"
  }

  lemma {:induction false} LeadingZerosValue(k: nat, s: string)
    requires forall i :: 0 <= i < |s| ==> IsDigit(s[i])
    ensures forall i :: 0 <= i < |Zeros(k) + s| ==> IsDigit((Zeros(k) + s)[i])
    ensures DigitsValue(Zeros(k) + s) == DigitsValue(s)
    decreases |s|
  {
    var z := Zeros(k) + s;
    assert forall i :: 0 <= i < |z| ==> IsDigit(z[i]) by {
      forall i | 0 <= i < |z| ensures IsDigit(z[i]) {
        if i >= k { assert z[i] == s[i - k]; }
      }
    }
    if s == [] {
      assert z == Zeros(k);
      ZerosValue(k);
    } else {
      assert z[..|z| - 1] == Zeros(k) + s[..|s| - 1];
      LeadingZerosValue(k, s[..|s| - 1]);
    }
  }

  lemma {:induction false} ZerosValue(k: nat)
    ensures DigitsValue(Zeros(k)) == 0
  {
    if k > 0 {
      assert Zeros(k)[..k - 1] == Zeros(k - 1);
      ZerosValue(k - 1);
    }
  }

  /** Python's `format(n, "0wd")` for `n >= 0`: the decimal digits, padded on
      the left with zeros to at least `w` characters. */
  function ZeroPad(n: nat, w: nat): (r: string)
    ensures |r| == if |Decimal(n)| < w then w else |Decimal(n)|
    ensures forall i :: 0 <= i < |r| ==> IsDigit(r[i])
  {
    var d := Decimal(n);
    var z := Zeros(if |d| < w then w - |d| else 0) + d;
    assert forall i :: 0 <= i < |z| ==> IsDigit(z[i]) by { LeadingZerosValue(if |d| < w then w - |d| else 0, d); }
    z
  }

  /** Padding never changes the value the digits stand for. */
  lemma ZeroPadValue(n: nat, w: nat)
    ensures DigitsValue(ZeroPad(n, w)) == n
  {
    var d := Decimal(n);
    LeadingZerosValue(if |d| < w then w - |d| else 0, d);
    DecimalValue(n);
  }

  /** Python's `format(i, "0wd")` for any int: a minus sign counts towards
      the width, so `format(-1, "03d") == "-01"`. */
  function FormatPadded(i: int, w: nat): (r: string)
    ensures |r| > 0
    ensures (r[0] == '-') == (i < 0)
  {
    if i < 0 then "-" + ZeroPad(-i, if w > 0 then w - 1 else 0) else ZeroPad(i, w)
  }

  /** `format(., "0wd")` is one-to-one: the value can be read back. */
  lemma FormatPaddedInjective(a: int, b: int, w: nat)
    requires FormatPadded(a, w) == FormatPadded(b, w)
    ensures a == b
  {
    var w' := if w > 0 then w - 1 else 0;
    if a < 0 {
      assert FormatPadded(a, w)[1..] == ZeroPad(-a, w');
      assert FormatPadded(b, w)[1..] == ZeroPad(-b, w');
      ZeroPadValue(-a, w');
      ZeroPadValue(-b, w');
    } else {
      ZeroPadValue(a, w);
      ZeroPadValue(b, w);
    }
  }
}
