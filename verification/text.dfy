/** Character classes and the two `str` operations the extractor relies on:
    `s.strip()` and `sep.join(xs)`. */
module Text {

  /** Python's Unicode character classes, left abstract. `isSpace` is both the
      class `\s` of the `re` module and the set `str.strip()` removes (CPython
      uses one table for both); `isWord` is `\w` and `isDigit` is `\d`. */
  datatype CharClasses = CharClasses(isSpace: char -> bool, isWord: char -> bool, isDigit: char -> bool)
  {
    /** Facts of the Unicode tables that some properties need: no word
        character, and neither `.` nor `@`, is whitespace. */
    ghost predicate Consistent() {
      && (forall c :: isWord(c) ==> !isSpace(c))
      && !isSpace('.') && !isSpace('@')
    }

    /** Below U+0080 the classes are Python's. */
    ghost predicate AgreesOnAscii() {
      && (forall c: char :: c < '\U{80}' ==> (isSpace(c) <==> IsAsciiSpace(c)))
      && (forall c: char :: c < '\U{80}' ==> (isDigit(c) <==> IsAsciiDigit(c)))
      && (forall c: char :: c < '\U{80}' ==> (isWord(c) <==> IsAsciiWord(c)))
    }
  }

  /** Whitespace below U+0080 for Python: tab, line feed, vertical tab, form
      feed, carriage return, the separators U+001C to U+001F, and space. */
  predicate IsAsciiSpace(c: char) {
    c == ' ' || '\t' <= c <= '\r' || '\U{1C}' <= c <= '\U{1F}'
  }

  predicate IsAsciiDigit(c: char) {
    '0' <= c <= '9'
  }

  predicate IsAsciiWord(c: char) {
    IsAsciiDigit(c) || 'a' <= c <= 'z' || 'A' <= c <= 'Z' || c == '_'
  }

  /** End of the longest run of `P` characters of `s` that starts at `from`. */
  function RunEnd(s: string, from: nat, P: char -> bool): (e: nat)
    requires from <= |s|
    ensures from <= e <= |s|
    ensures forall p :: from <= p < e ==> P(s[p])
    ensures e == |s| || !P(s[e])
    decreases |s| - from
  {
    if from == |s| || !P(s[from]) then from else RunEnd(s, from + 1, P)
  }

  /** Start of the longest run of `P` characters of `s[lo..]` that ends at `hi`. */
  function RunBegin(s: string, lo: nat, hi: nat, P: char -> bool): (b: nat)
    requires lo <= hi <= |s|
    ensures lo <= b <= hi
    ensures forall p :: b <= p < hi ==> P(s[p])
    ensures b == lo || !P(s[b - 1])
    decreases hi
  {
    if hi == lo || !P(s[hi - 1]) then hi else RunBegin(s, lo, hi - 1, P)
  }

  /** A run is determined by its characters and the one that stops it. */
  lemma RunEndUnique(s: string, from: nat, P: char -> bool, e: nat)
    requires from <= e <= |s|
    requires forall p :: from <= p < e ==> P(s[p])
    requires e == |s| || !P(s[e])
    ensures RunEnd(s, from, P) == e
  {
  }

  lemma RunBeginUnique(s: string, lo: nat, hi: nat, P: char -> bool, b: nat)
    requires lo <= b <= hi <= |s|
    requires forall p :: b <= p < hi ==> P(s[p])
    requires b == lo || !P(s[b - 1])
    ensures RunBegin(s, lo, hi, P) == b
  {
  }

  ghost predicate AllSpace(cc: CharClasses, s: string) {
    forall p :: 0 <= p < |s| ==> cc.isSpace(s[p])
  }

  /** `r` sits at `a` in `s` with only whitespace before and after it. */
  ghost predicate StrippedAt(cc: CharClasses, s: string, a: int, r: string) {
    && 0 <= a <= |s| - |r| && s[a..a + |r|] == r
    && AllSpace(cc, s[..a]) && AllSpace(cc, s[a + |r|..])
  }

  /** `r` is `s` with its leading and trailing whitespace cut off: a slice of
      `s` with only whitespace around it and no whitespace at either end. */
  ghost predicate IsStripOf(cc: CharClasses, s: string, r: string) {
    && (exists a :: StrippedAt(cc, s, a, r))
    && (|r| == 0 || (!cc.isSpace(r[0]) && !cc.isSpace(r[|r| - 1])))
  }

  /** `s.strip()` */
  function Strip(cc: CharClasses, s: string): (r: string)
    ensures IsStripOf(cc, s, r)
  {
    var a := RunEnd(s, 0, cc.isSpace);
    var b := RunBegin(s, a, |s|, cc.isSpace);
    assert s[a..a + (b - a)] == s[a..b];
    assert AllSpace(cc, s[..a]) by {
      forall p | 0 <= p < a ensures cc.isSpace(s[..a][p]) { assert s[..a][p] == s[p]; }
    }
    assert AllSpace(cc, s[b..]) by {
      forall p | 0 <= p < |s| - b ensures cc.isSpace(s[b..][p]) { assert s[b..][p] == s[b + p]; }
    }
    assert StrippedAt(cc, s, a, s[a..b]);
    s[a..b]
  }

  /** Python's `strip` has one answer: any slice of `s` with only whitespace
      around it and none at its ends is what `Strip` returns. */
  lemma StripCharacterized(cc: CharClasses, s: string, r: string)
    requires IsStripOf(cc, s, r)
    ensures r == Strip(cc, s)
  {
    var a :| StrippedAt(cc, s, a, r);
    var b := a + |r|;
    assert forall p :: 0 <= p < a ==> s[..a][p] == s[p];
    assert forall p :: b <= p < |s| ==> s[b..][p - b] == s[p];
    if |r| == 0 {
      assert forall p :: 0 <= p < |s| ==> cc.isSpace(s[p]);
      RunEndUnique(s, 0, cc.isSpace, |s|);
    } else {
      assert s[a] == r[0] && s[b - 1] == r[|r| - 1];
      RunEndUnique(s, 0, cc.isSpace, a);
      RunBeginUnique(s, a, |s|, cc.isSpace, b);
    }
  }

  /** Every character of the stripped string comes from the original. */
  lemma StripWithin(cc: CharClasses, s: string, P: char -> bool)
    requires forall p :: 0 <= p < |s| ==> P(s[p])
    ensures forall p :: 0 <= p < |Strip(cc, s)| ==> P(Strip(cc, s)[p])
  {
    var r := Strip(cc, s);
    var a :| StrippedAt(cc, s, a, r);
    forall p | 0 <= p < |r| ensures P(r[p]) { assert r[p] == s[a + p]; }
  }

  /** A string with no whitespace at its ends is left as it is. */
  lemma StripUnpadded(cc: CharClasses, s: string)
    requires |s| == 0 || (!cc.isSpace(s[0]) && !cc.isSpace(s[|s| - 1]))
    ensures Strip(cc, s) == s
  {
    assert StrippedAt(cc, s, 0, s);
    StripCharacterized(cc, s, s);
  }

  /** A string of whitespace strips to the empty string. */
  lemma StripAllSpace(cc: CharClasses, s: string)
    requires AllSpace(cc, s)
    ensures Strip(cc, s) == ""
  {
    assert StrippedAt(cc, s, 0, "") by { assert s[0..] == s; }
    StripCharacterized(cc, s, "");
  }

  /** `s.strip().strip() == s.strip()` */
  lemma StripIdempotent(cc: CharClasses, s: string)
    ensures Strip(cc, Strip(cc, s)) == Strip(cc, s)
  {
    StripUnpadded(cc, Strip(cc, s));
  }

  /** `sep.join(xs)`: the items in order with `sep` between neighbours, so
      the result starts with the first item and is as long as the items
      together plus one separator per pair of neighbours. */
  function Join(sep: string, xs: seq<string>): (r: string)
    ensures |r| == TotalLength(xs) + (if |xs| == 0 then 0 else (|xs| - 1) * |sep|)
    ensures |xs| > 0 ==> r[..|xs[0]|] == xs[0]
    decreases |xs|
  {
    if |xs| == 0 then ""
    else if |xs| == 1 then xs[0]
    else xs[0] + sep + Join(sep, xs[1..])
  }

  /** Joining two non-empty lists puts one separator between their joins. */
  lemma {:induction false} JoinAppend(sep: string, xs: seq<string>, ys: seq<string>)
    requires |xs| > 0 && |ys| > 0
    ensures Join(sep, xs + ys) == Join(sep, xs) + sep + Join(sep, ys)
    decreases |xs|
  {
    if |xs| == 1 {
      assert (xs + ys)[1..] == ys;
    } else {
      assert (xs + ys)[1..] == xs[1..] + ys;
      JoinAppend(sep, xs[1..], ys);
    }
  }

  /** The number of characters in all items together. */
  function TotalLength(xs: seq<string>): nat
    decreases |xs|
  {
    if |xs| == 0 then 0 else |xs[0]| + TotalLength(xs[1..])
  }
}
