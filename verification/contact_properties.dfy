/** What each of the three searches yields, including the corner cases the
    backtracking of `\s+` produces. */
module ContactProperties {
  import opened Wrappers
  import opened Text
  import opened ContactPatterns

  /** A scanner hit at `i` is what `re.search` reports when the pattern
      matches nowhere before `i`: occurrences of the label where the match
      fails are passed over. */
  lemma ExtractAfterMisses(cc: CharClasses, f: ContactField, t: string, i: nat, m: Span)
    requires MatchAt(cc, f, t, i) == Some(m)
    requires forall p :: 0 <= p < i ==> !MatchesAt(cc, f, t, p)
    ensures Extract(cc, f, t) == Some(Strip(cc, t[m.groupStart..m.groupEnd]))
  {
    ExtractFromResult(cc, f, t, m);
  }

  /** A scanner hit at `i` is what `re.search` reports when no label occurs
      before `i`. */
  lemma ExtractFromScanner(cc: CharClasses, f: ContactField, t: string, i: nat, m: Span)
    requires MatchAt(cc, f, t, i) == Some(m)
    requires forall p :: 0 <= p < i ==> !LabelAt(f, t, p)
    ensures Extract(cc, f, t) == Some(Strip(cc, t[m.groupStart..m.groupEnd]))
  {
    forall p | 0 <= p < i ensures !MatchesAt(cc, f, t, p) {
      MatchNeedsLabel(cc, f, t, p);
    }
    ExtractAfterMisses(cc, f, t, i, m);
  }

  lemma MatchNeedsLabel(cc: CharClasses, f: ContactField, t: string, i: nat)
    ensures MatchesAt(cc, f, t, i) ==> LabelAt(f, t, i)
  {
    if MatchesAt(cc, f, t, i) {
      var j, k :| IsMatch(cc, f, t, i, j, k);
      MatchBounds(cc, f, t, i, j, k);
    }
  }

  /** The plain case: whitespace after the label, then a character that is
      not whitespace and can start the group; the group runs to the first
      character outside its class, and nothing is given back. */
  lemma ScanPlainValue(cc: CharClasses, f: ContactField, t: string, i: nat, e: nat, k: nat)
    requires LabelAt(f, t, i)
    requires i + |Label(f)| < e < k <= |t|
    requires forall p :: i + |Label(f)| <= p < e ==> cc.isSpace(t[p])
    requires !cc.isSpace(t[e])
    requires forall p :: e <= p < k ==> Allowed(cc, f, t[p])
    requires k == |t| || !Allowed(cc, f, t[k])
    ensures MatchAt(cc, f, t, i) == Some(Span(i, e, k))
  {
    RunEndUnique(t, i + |Label(f)|, cc.isSpace, e);
    assert GiveBack(cc, f, t, i + |Label(f)| + 1, e) == Some(e);
    RunEndUnique(t, e, c => Allowed(cc, f, c), k);
  }

  /** Customer Service: when `\s+` has taken two or more whitespace
      characters and the next character cannot start the group, the engine
      gives back one whitespace character, which the group then matches on
      its own; the stripped value is empty. */
  lemma CustomerServiceGivesBackOneSpace(cc: CharClasses, t: string, i: nat, e: nat)
    requires LabelAt(CustomerService, t, i)
    requires i + |Label(CustomerService)| + 2 <= e <= |t|
    requires forall p :: i + |Label(CustomerService)| <= p < e ==> cc.isSpace(t[p])
    requires e == |t| || !Allowed(cc, CustomerService, t[e])
    ensures MatchAt(cc, CustomerService, t, i) == Some(Span(i, e - 1, e))
    ensures Strip(cc, t[e - 1..e]) == ""
  {
    var a := i + |Label(CustomerService)|;
    assert e == |t| || !cc.isSpace(t[e]);
    RunEndUnique(t, a, cc.isSpace, e);
    assert Allowed(cc, CustomerService, t[e - 1]);
    assert GiveBack(cc, CustomerService, t, a + 1, e - 1) == Some(e - 1);
    assert GiveBack(cc, CustomerService, t, a + 1, e) == Some(e - 1);
    RunEndUnique(t, e - 1, c => Allowed(cc, CustomerService, c), e);
    assert AllSpace(cc, t[e - 1..e]);
    StripAllSpace(cc, t[e - 1..e]);
  }

  /** Customer Service: a single whitespace character after the label,
      followed by a character outside the group's class, leaves nothing to
      give back, so no match starts there. */
  lemma CustomerServiceOneSpaceFails(cc: CharClasses, t: string, i: nat)
    requires LabelAt(CustomerService, t, i)
    requires i + |Label(CustomerService)| < |t| && cc.isSpace(t[i + |Label(CustomerService)|])
    requires var n := i + |Label(CustomerService)| + 1;
      n == |t| || !Allowed(cc, CustomerService, t[n])
    ensures !MatchesAt(cc, CustomerService, t, i)
  {
    var a := i + |Label(CustomerService)|;
    RunEndUnique(t, a, cc.isSpace, a + 1);
    assert MatchAt(cc, CustomerService, t, i) == None;
  }

  lemma CustomerServiceTwoSpacesExample(cc: CharClasses)
    requires cc.isSpace(' ') && !Allowed(cc, CustomerService, 'x')
    ensures Extract(cc, CustomerService, "Customer Service:  x") == Some("")
  {
    var t := "Customer Service:  x";
    assert t[..17] == Label(CustomerService);
    CustomerServiceGivesBackOneSpace(cc, t, 0, 19);
    ExtractFromScanner(cc, CustomerService, t, 0, Span(0, 18, 19));
  }

  lemma CustomerServiceOneSpaceExample(cc: CharClasses)
    requires cc.isSpace(' ') && !Allowed(cc, CustomerService, 'x')
    ensures Extract(cc, CustomerService, "Customer Service: x") == None
  {
    var t := "Customer Service: x";
    assert t[..17] == Label(CustomerService);
    CustomerServiceOneSpaceFails(cc, t, 0);
    forall i | 0 < i ensures !MatchesAt(cc, CustomerService, t, i) {
      MatchNeedsLabel(cc, CustomerService, t, i);
    }
  }

  /** The greediest group cannot be extended by one more character. */
  lemma GroupEndsAtClassBoundary(cc: CharClasses, f: ContactField, t: string, m: Span)
    requires IsMatch(cc, f, t, m.start, m.groupStart, m.groupEnd) && Greediest(cc, f, t, m)
    ensures m.groupEnd == |t| || !Allowed(cc, f, t[m.groupEnd])
  {
    assert m.groupEnd < |t| && Allowed(cc, f, t[m.groupEnd]) ==>
      IsMatch(cc, f, t, m.start, m.groupStart, m.groupEnd + 1);
  }

  /** Email: no group character is whitespace, so the group can only start
      where the whitespace run after the label ends. */
  lemma EmailGroupStart(cc: CharClasses, t: string, m: Span)
    requires cc.Consistent()
    requires IsMatch(cc, Email, t, m.start, m.groupStart, m.groupEnd)
    ensures m.groupStart == RunEnd(t, m.start + |Label(Email)|, cc.isSpace)
  {
    MatchBounds(cc, Email, t, m.start, m.groupStart, m.groupEnd);
    assert !cc.isSpace(t[m.groupStart]);
  }

  /** Email: the group has no whitespace at either end to strip. */
  lemma EmailGroupUnpadded(cc: CharClasses, t: string, m: Span)
    requires cc.Consistent()
    requires IsMatch(cc, Email, t, m.start, m.groupStart, m.groupEnd)
    ensures Strip(cc, t[m.groupStart..m.groupEnd]) == t[m.groupStart..m.groupEnd]
  {
    var g := t[m.groupStart..m.groupEnd];
    assert g[0] == t[m.groupStart] && g[|g| - 1] == t[m.groupEnd - 1];
    assert Allowed(cc, Email, g[0]) && Allowed(cc, Email, g[|g| - 1]);
    StripUnpadded(cc, g);
  }

  /** Email: the value is the whole run of word characters, dots and `@`
      right after the whitespace; it is never empty and stripping leaves it
      unchanged, because none of its characters is whitespace. */
  lemma EmailValue(cc: CharClasses, t: string, m: Span)
    requires cc.Consistent()
    requires IsSearchResult(cc, Email, t, m)
    ensures m.groupStart == RunEnd(t, m.start + |Label(Email)|, cc.isSpace)
    ensures m.groupStart < m.groupEnd
    ensures m.groupEnd == |t| || !Allowed(cc, Email, t[m.groupEnd])
    ensures Extract(cc, Email, t) == Some(t[m.groupStart..m.groupEnd])
  {
    EmailGroupStart(cc, t, m);
    GroupEndsAtClassBoundary(cc, Email, t, m);
    EmailGroupUnpadded(cc, t, m);
    ExtractFromResult(cc, Email, t, m);
  }

  /** Address: when no character but a newline or the end follows the
      whitespace after the label, the group lies inside that whitespace. */
  lemma AddressGroupInWhitespace(cc: CharClasses, t: string, m: Span)
    requires IsMatch(cc, Address, t, m.start, m.groupStart, m.groupEnd)
    requires var e := RunEnd(t, m.start + |Label(Address)|, cc.isSpace);
      e == |t| || t[e] == '\n'
    ensures AllSpace(cc, t[m.groupStart..m.groupEnd])
  {
    var g := t[m.groupStart..m.groupEnd];
    MatchBounds(cc, Address, t, m.start, m.groupStart, m.groupEnd);
    forall p | 0 <= p < |g| ensures cc.isSpace(g[p]) { assert g[p] == t[m.groupStart + p]; }
  }

  /** Address: `.+` runs to the first newline or the end of the text. */
  lemma AddressGroupIsLine(cc: CharClasses, t: string, m: Span)
    requires IsMatch(cc, Address, t, m.start, m.groupStart, m.groupEnd) && Greediest(cc, Address, t, m)
    ensures forall p :: m.groupStart <= p < m.groupEnd ==> t[p] != '\n'
    ensures m.groupEnd == |t| || t[m.groupEnd] == '\n'
  {
    GroupEndsAtClassBoundary(cc, Address, t, m);
  }

  /** Address: the greediest group starts right after the whitespace when a
      non-newline character is there, and otherwise is whitespace only. */
  lemma AddressGroup(cc: CharClasses, t: string, m: Span)
    requires IsMatch(cc, Address, t, m.start, m.groupStart, m.groupEnd) && Greediest(cc, Address, t, m)
    ensures var e := RunEnd(t, m.start + |Label(Address)|, cc.isSpace);
      if e < |t| && t[e] != '\n' then m.groupStart == e
      else Strip(cc, t[m.groupStart..m.groupEnd]) == ""
  {
    var e := RunEnd(t, m.start + |Label(Address)|, cc.isSpace);
    MatchBounds(cc, Address, t, m.start, m.groupStart, m.groupEnd);
    if e < |t| && t[e] != '\n' {
      assert IsMatch(cc, Address, t, m.start, e, e + 1);
    } else {
      AddressGroupInWhitespace(cc, t, m);
      StripAllSpace(cc, t[m.groupStart..m.groupEnd]);
    }
  }

  /** Address: when a non-newline character follows the whitespace after
      the label, the value is the stripped rest of that line, up to the next
      newline or the end of the text; otherwise the
      engine can only give back whitespace to the group, and the value is
      empty. */
  lemma AddressValue(cc: CharClasses, t: string, m: Span)
    requires IsSearchResult(cc, Address, t, m)
    ensures var e := RunEnd(t, m.start + |Label(Address)|, cc.isSpace);
      if e < |t| && t[e] != '\n' then
        && m.groupStart == e
        && (m.groupEnd == |t| || t[m.groupEnd] == '\n')
        && (forall p :: e <= p < m.groupEnd ==> t[p] != '\n')
        && Extract(cc, Address, t) == Some(Strip(cc, t[e..m.groupEnd]))
      else
        Extract(cc, Address, t) == Some("")
  {
    AddressGroupIsLine(cc, t, m);
    AddressGroup(cc, t, m);
    ExtractFromResult(cc, Address, t, m);
  }

  lemma AddressTrailingSpacesExample(cc: CharClasses)
    requires cc.isSpace(' ')
    ensures Extract(cc, Address, "Address:  ") == Some("")
  {
    var t := "Address:  ";
    assert t[..8] == Label(Address);
    var m := MatchAt(cc, Address, t, 0);
    assert m.Some? by {
      assert IsMatch(cc, Address, t, 0, 9, 10);
    }
    ExtractFromScanner(cc, Address, t, 0, m.value);
    RunEndUnique(t, 8, cc.isSpace, 10);
    AddressValue(cc, t, m.value);
  }
}
