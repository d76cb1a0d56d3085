/** The three contact-field searches of `clean_json_data`:

      Customer Service:\s+([\+\d\(\)\-\s]+)
      Email:\s+([\w\.\@]+)
      Address:\s+(.+)

    All three have the shape `Label\s+(X+)` for a literal label and a
    character class `X`, so one scanner serves them all. `re.search` reports
    the match that starts leftmost; among the matches at that start it
    reports the first one its backtracking finds, which for two greedy
    quantifiers in a row is the one with the longest `\s+` and then the
    longest group. */
module ContactPatterns {
  import opened Wrappers
  import opened Text

  datatype ContactField = CustomerService | Email | Address

  function Label(f: ContactField): string {
    match f
    case CustomerService => "Customer Service:"
    case Email => "Email:"
    case Address => "Address:"
  }

  /** The character class of capture group 1 (`.` is anything but a newline). */
  predicate Allowed(cc: CharClasses, f: ContactField, c: char) {
    match f
    case CustomerService =>
      c == '+' || cc.isDigit(c) || c == '(' || c == ')' || c == '-' || cc.isSpace(c)
    case Email => cc.isWord(c) || c == '.' || c == '@'
    case Address => c != '\n'
  }

  predicate LabelAt(f: ContactField, t: string, i: nat) {
    i + |Label(f)| <= |t| && t[i..i + |Label(f)|] == Label(f)
  }

  /** The pattern matches `t` from `i` with `\s+` covering `[i + |Label|, j)`
      and group 1 covering `[j, k)`. */
  ghost predicate IsMatch(cc: CharClasses, f: ContactField, t: string, i: int, j: int, k: int) {
    && 0 <= i && i + |Label(f)| < j < k <= |t|
    && t[i..i + |Label(f)|] == Label(f)
    && (forall p :: i + |Label(f)| <= p < j ==> cc.isSpace(t[p]))
    && (forall p :: j <= p < k ==> Allowed(cc, f, t[p]))
  }

  ghost predicate MatchesAt(cc: CharClasses, f: ContactField, t: string, i: int) {
    exists j, k :: IsMatch(cc, f, t, i, j, k)
  }

  /** Where a match starts and where its group 1 lies. */
  datatype Span = Span(start: nat, groupStart: nat, groupEnd: nat)

  /** Of the matches at `m.start`, `m` is the first a backtracking engine
      finds: the longest `\s+`, then the longest group. */
  ghost predicate Greediest(cc: CharClasses, f: ContactField, t: string, m: Span) {
    forall j, k :: IsMatch(cc, f, t, m.start, j, k) ==>
      j < m.groupStart || (j == m.groupStart && k <= m.groupEnd)
  }

  /** The match object `re.search` returns for `t`. */
  ghost predicate IsSearchResult(cc: CharClasses, f: ContactField, t: string, m: Span) {
    && IsMatch(cc, f, t, m.start, m.groupStart, m.groupEnd)
    && Greediest(cc, f, t, m)
    && (forall i :: 0 <= i < m.start ==> !MatchesAt(cc, f, t, i))
  }

  /** The last position of `[lo, hi]` where group 1 can begin: the engine
      first lets `\s+` take the whole whitespace run and then gives back one
      character at a time. */
  function GiveBack(cc: CharClasses, f: ContactField, t: string, lo: nat, hi: nat): (r: Option<nat>)
    requires lo <= hi
    ensures r.Some? ==> lo <= r.value <= hi && r.value < |t| && Allowed(cc, f, t[r.value])
    ensures r.Some? ==> forall j :: r.value < j <= hi && j < |t| ==> !Allowed(cc, f, t[j])
    ensures r.None? ==> forall j :: lo <= j <= hi && j < |t| ==> !Allowed(cc, f, t[j])
    decreases hi
  {
    if hi < |t| && Allowed(cc, f, t[hi]) then Some(hi)
    else if hi == lo then None
    else GiveBack(cc, f, t, lo, hi - 1)
  }

  /** Every match at `i` starts its group inside the whitespace run after
      the label, on a character of the group's class. */
  lemma MatchBounds(cc: CharClasses, f: ContactField, t: string, i: nat, j: int, k: int)
    requires IsMatch(cc, f, t, i, j, k)
    ensures LabelAt(f, t, i)
    ensures i + |Label(f)| < j <= RunEnd(t, i + |Label(f)|, cc.isSpace) && j < |t|
    ensures Allowed(cc, f, t[j])
    ensures k <= RunEnd(t, j, c => Allowed(cc, f, c))
  {
  }

  /** `MatchBounds` for every match at `i`. */
  lemma AllMatchBounds(cc: CharClasses, f: ContactField, t: string, i: nat)
    ensures forall j, k :: IsMatch(cc, f, t, i, j, k) ==>
      LabelAt(f, t, i) && i + |Label(f)| < j <= RunEnd(t, i + |Label(f)|, cc.isSpace) && j < |t| && Allowed(cc, f, t[j])
      && k <= RunEnd(t, j, c => Allowed(cc, f, c))
  {
    forall j, k | IsMatch(cc, f, t, i, j, k)
      ensures LabelAt(f, t, i) && i + |Label(f)| < j <= RunEnd(t, i + |Label(f)|, cc.isSpace) && j < |t| && Allowed(cc, f, t[j])
      ensures k <= RunEnd(t, j, c => Allowed(cc, f, c))
    {
      MatchBounds(cc, f, t, i, j, k);
    }
  }

  /** The scanner at one position: label, whitespace run, backtrack, group run. */
  function MatchAt(cc: CharClasses, f: ContactField, t: string, i: nat): (r: Option<Span>)
    ensures r.Some? <==> MatchesAt(cc, f, t, i)
    ensures r.Some? ==> r.value.start == i && IsMatch(cc, f, t, i, r.value.groupStart, r.value.groupEnd)
    ensures r.Some? ==> Greediest(cc, f, t, r.value)
  {
    var a := i + |Label(f)|;
    AllMatchBounds(cc, f, t, i);
    if !LabelAt(f, t, i) then
      None
    else
      var e := RunEnd(t, a, cc.isSpace);
      if e == a then
        None
      else
        match GiveBack(cc, f, t, a + 1, e)
        case None => None
        case Some(j) =>
          var k := RunEnd(t, j, c => Allowed(cc, f, c));
          assert IsMatch(cc, f, t, i, j, k);
          Some(Span(i, j, k))
  }

  /** `re.search`: the scanner tried at `from`, `from + 1`, and so on. */
  function FindFrom(cc: CharClasses, f: ContactField, t: string, from: nat): (r: Option<Span>)
    ensures r.None? <==> forall i :: from <= i ==> !MatchesAt(cc, f, t, i)
    ensures r.Some? ==> from <= r.value.start && IsMatch(cc, f, t, r.value.start, r.value.groupStart, r.value.groupEnd)
    ensures r.Some? ==> Greediest(cc, f, t, r.value)
    ensures r.Some? ==> forall i :: from <= i < r.value.start ==> !MatchesAt(cc, f, t, i)
    decreases |t| + 1 - from
  {
    if from > |t| then
      None
    else
      match MatchAt(cc, f, t, from)
      case Some(m) => Some(m)
      case None => FindFrom(cc, f, t, from + 1)
  }

  function Search(cc: CharClasses, f: ContactField, t: string): (r: Option<Span>)
    ensures r.None? <==> forall i :: 0 <= i ==> !MatchesAt(cc, f, t, i)
    ensures r.Some? ==> IsSearchResult(cc, f, t, r.value)
  {
    FindFrom(cc, f, t, 0)
  }

  /** A text has at most one search result. */
  lemma SearchResultUnique(cc: CharClasses, f: ContactField, t: string, m1: Span, m2: Span)
    requires IsSearchResult(cc, f, t, m1) && IsSearchResult(cc, f, t, m2)
    ensures m1 == m2
  {
    if m1.start < m2.start {
      assert MatchesAt(cc, f, t, m1.start);
    } else if m2.start < m1.start {
      assert MatchesAt(cc, f, t, m2.start);
    }
  }

  /** Every character of a match's group is in the group's class. */
  lemma GroupAllowed(cc: CharClasses, f: ContactField, t: string, m: Span)
    requires IsMatch(cc, f, t, m.start, m.groupStart, m.groupEnd)
    ensures forall p :: 0 <= p < m.groupEnd - m.groupStart ==> Allowed(cc, f, t[m.groupStart..m.groupEnd][p])
  {
    var g := t[m.groupStart..m.groupEnd];
    forall p | 0 <= p < |g| ensures Allowed(cc, f, g[p]) { assert g[p] == t[m.groupStart + p]; }
  }

  /** `match.group(1).strip() if match else None` for `re.search(pattern, t)`:
      absent exactly when the pattern matches nowhere, and otherwise the
      stripped group 1 of the leftmost, greediest match. */
  function Extract(cc: CharClasses, f: ContactField, t: string): (r: Option<string>)
    ensures r.None? <==> forall i :: 0 <= i ==> !MatchesAt(cc, f, t, i)
    ensures r.Some? ==> exists m :: IsSearchResult(cc, f, t, m) && IsStripOf(cc, t[m.groupStart..m.groupEnd], r.value)
    ensures r.Some? ==> forall p :: 0 <= p < |r.value| ==> Allowed(cc, f, r.value[p])
  {
    match Search(cc, f, t)
    case None => None
    case Some(m) =>
      GroupAllowed(cc, f, t, m);
      StripWithin(cc, t[m.groupStart..m.groupEnd], c => Allowed(cc, f, c));
      Some(Strip(cc, t[m.groupStart..m.groupEnd]))
  }

  /** Any match object that fits the leftmost, greediest description gives
      the value `Extract` reports. */
  lemma ExtractFromResult(cc: CharClasses, f: ContactField, t: string, m: Span)
    requires IsSearchResult(cc, f, t, m)
    ensures Extract(cc, f, t) == Some(Strip(cc, t[m.groupStart..m.groupEnd]))
  {
    assert MatchesAt(cc, f, t, m.start);
    var v := Extract(cc, f, t).value;
    var m' :| IsSearchResult(cc, f, t, m') && IsStripOf(cc, t[m'.groupStart..m'.groupEnd], v);
    SearchResultUnique(cc, f, t, m, m');
    StripCharacterized(cc, t[m.groupStart..m.groupEnd], v);
  }
}
