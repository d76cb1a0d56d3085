/** The three searches on a sample text, with character classes that agree
    with Python's on ASCII:

      "Customer Service: +1 (800) 555-0123 Email: a@b.com Address: 1 Main St"

    gives "+1 (800) 555-0123", "a@b.com" and "1 Main St". */
module ContactExamples {
  import opened Wrappers
  import opened Text
  import opened ContactPatterns
  import opened ContactProperties

  const Sample := "Customer Service:" + " " + "+1 (800) 555-0123" + " " + "Email:" + " " + "a@b.com"
    + " " + "Address:" + " " + "1 Main St"

  /** No occurrence of `f`'s label starts before `n` when the label's first
      character does not occur there. */
  lemma NoLabelBefore(f: ContactField, t: string, n: nat)
    requires n <= |t|
    requires forall p :: 0 <= p < n ==> t[p] != Label(f)[0]
    ensures forall p :: 0 <= p < n ==> !LabelAt(f, t, p)
  {
    var l := Label(f);
    assert |l| > 0;
    forall p | 0 <= p < n ensures !LabelAt(f, t, p) {
      if p + |l| <= |t| {
        assert t[p..p + |l|][0] == t[p];
      }
    }
  }

  lemma SampleCustomerServiceChars(cc: CharClasses)
    requires cc.AgreesOnAscii()
    ensures LabelAt(CustomerService, Sample, 0)
    ensures cc.isSpace(Sample[17]) && !cc.isSpace(Sample[18]) && !Allowed(cc, CustomerService, Sample[36])
    ensures forall p :: 18 <= p < 36 ==> Allowed(cc, CustomerService, Sample[p])
  {
    var g := "+1 (800) 555-0123" + " ";
    assert Sample[17] == ' ' && Sample[18] == '+' && Sample[36] == 'E';
    assert forall c :: c in g ==> Allowed(cc, CustomerService, c);
    forall p | 18 <= p < 36 ensures Allowed(cc, CustomerService, Sample[p]) {
      assert Sample[p] == g[p - 18];
    }
  }

  lemma SampleCustomerService(cc: CharClasses)
    requires cc.AgreesOnAscii()
    ensures Extract(cc, CustomerService, Sample) == Some("+1 (800) 555-0123")
  {
    SampleCustomerServiceChars(cc);
    ScanPlainValue(cc, CustomerService, Sample, 0, 18, 36);
    ExtractFromScanner(cc, CustomerService, Sample, 0, Span(0, 18, 36));
    SampleCustomerServiceStrip(cc);
  }

  lemma SampleCustomerServiceStrip(cc: CharClasses)
    requires cc.AgreesOnAscii()
    ensures Strip(cc, Sample[18..36]) == "+1 (800) 555-0123"
  {
    var v := "+1 (800) 555-0123";
    var g := v + " ";
    assert Sample[18..36] == g;
    assert StrippedAt(cc, g, 0, v) by { assert g[..0] == [] && g[0..|v|] == v && g[|v|..] == " "; }
    StripCharacterized(cc, g, v);
  }

  lemma SampleEmailChars(cc: CharClasses)
    requires cc.AgreesOnAscii()
    ensures forall p :: 0 <= p < 36 ==> !LabelAt(Email, Sample, p)
    ensures LabelAt(Email, Sample, 36)
    ensures cc.isSpace(Sample[42]) && !cc.isSpace(Sample[43]) && !Allowed(cc, Email, Sample[50])
    ensures forall p :: 43 <= p < 50 ==> Allowed(cc, Email, Sample[p])
  {
    var prefix := "Customer Service:" + " " + "+1 (800) 555-0123" + " ";
    var g := "a@b.com";
    assert 'E' !in prefix;
    forall p | 0 <= p < 36 ensures Sample[p] != 'E' { assert Sample[p] == prefix[p]; }
    NoLabelBefore(Email, Sample, 36);
    assert Sample[36..42] == "Email:";
    assert Sample[42] == ' ' && Sample[43] == 'a' && Sample[50] == ' ';
    assert forall c :: c in g ==> Allowed(cc, Email, c);
    forall p | 43 <= p < 50 ensures Allowed(cc, Email, Sample[p]) {
      assert Sample[p] == g[p - 43];
    }
  }

  lemma SampleEmail(cc: CharClasses)
    requires cc.AgreesOnAscii()
    ensures Extract(cc, Email, Sample) == Some("a@b.com")
  {
    SampleEmailChars(cc);
    ScanPlainValue(cc, Email, Sample, 36, 43, 50);
    ExtractFromScanner(cc, Email, Sample, 36, Span(36, 43, 50));
    SampleSlices();
    StripUnpadded(cc, "a@b.com");
  }

  lemma SampleSlices()
    ensures Sample[43..50] == "a@b.com"
    ensures Sample[60..69] == "1 Main St"
  {
  }

  lemma SampleAddressChars(cc: CharClasses)
    requires cc.AgreesOnAscii()
    ensures forall p :: 0 <= p < 51 ==> !LabelAt(Address, Sample, p)
    ensures LabelAt(Address, Sample, 51)
    ensures cc.isSpace(Sample[59]) && !cc.isSpace(Sample[60]) && |Sample| == 69
    ensures forall p :: 60 <= p < 69 ==> Allowed(cc, Address, Sample[p])
  {
    var prefix := "Customer Service:" + " " + "+1 (800) 555-0123" + " " + "Email:" + " " + "a@b.com" + " ";
    var g := "1 Main St";
    assert 'A' !in prefix;
    forall p | 0 <= p < 51 ensures Sample[p] != 'A' { assert Sample[p] == prefix[p]; }
    NoLabelBefore(Address, Sample, 51);
    assert Sample[51..59] == "Address:";
    assert Sample[59] == ' ' && Sample[60] == '1';
    assert forall c :: c in g ==> c != '\n';
    forall p | 60 <= p < 69 ensures Allowed(cc, Address, Sample[p]) {
      assert Sample[p] == g[p - 60];
    }
  }

  lemma SampleAddress(cc: CharClasses)
    requires cc.AgreesOnAscii()
    ensures Extract(cc, Address, Sample) == Some("1 Main St")
  {
    SampleAddressChars(cc);
    ScanPlainValue(cc, Address, Sample, 51, 60, 69);
    ExtractFromScanner(cc, Address, Sample, 51, Span(51, 60, 69));
    SampleSlices();
    StripUnpadded(cc, "1 Main St");
  }

  const Retry := "Customer Service:" + " " + "x" + " " + "Customer Service:" + " " + "5"

  lemma RetryChars(cc: CharClasses)
    requires cc.AgreesOnAscii()
    ensures |Retry| == 39 && LabelAt(CustomerService, Retry, 0) && LabelAt(CustomerService, Retry, 20)
    ensures cc.isSpace(Retry[17]) && !Allowed(cc, CustomerService, Retry[18])
    ensures cc.isSpace(Retry[37]) && !cc.isSpace(Retry[38]) && Allowed(cc, CustomerService, Retry[38])
  {
    var l := Label(CustomerService);
    assert Retry[..17] == l && Retry[20..37] == l;
    assert Retry[17] == ' ' && Retry[18] == 'x' && Retry[37] == ' ' && Retry[38] == '5';
  }

  lemma RetryNoLabelBetween()
    ensures forall p :: 1 <= p < 20 ==> !LabelAt(CustomerService, Retry, p)
  {
    var l := Label(CustomerService);
    var middle := "ustomer Service:" + " " + "x" + " ";
    assert 'C' !in middle;
    forall p | 1 <= p < 20 ensures !LabelAt(CustomerService, Retry, p) {
      assert Retry[p] == middle[p - 1];
      if p + |l| <= |Retry| {
        assert Retry[p..p + |l|][0] == Retry[p];
      }
    }
  }

  /** The first "Customer Service:" is followed by one space and a letter,
      so no match starts there; the search goes on to the second one. */
  lemma RetryLaterLabel(cc: CharClasses)
    requires cc.AgreesOnAscii()
    ensures Extract(cc, CustomerService, Retry) == Some("5")
  {
    RetryChars(cc);
    RetryNoLabelBetween();
    CustomerServiceOneSpaceFails(cc, Retry, 0);
    forall p | 1 <= p < 20 ensures !MatchesAt(cc, CustomerService, Retry, p) {
      MatchNeedsLabel(cc, CustomerService, Retry, p);
    }
    ScanPlainValue(cc, CustomerService, Retry, 20, 38, 39);
    ExtractAfterMisses(cc, CustomerService, Retry, 20, Span(20, 38, 39));
    assert Retry[38..39] == "5";
    StripUnpadded(cc, "5");
  }
}
