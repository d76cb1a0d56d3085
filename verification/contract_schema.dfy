/** The `TermsAndConditions` schema the language model fills in: sixteen
    mandatory string fields, and the dictionary `parsed_info` that holds
    them under their field names, in declaration order. */
module ContractSchema {
  import opened Wrappers
  import opened OrderedDict

  datatype TermsAndConditions = TermsAndConditions(
    bank: string,
    introduction: string,
    loanAmountAndPurpose: string,
    interestRates: string,
    loanTenure: string,
    monthlyRepayments: string,
    latePayments: string,
    loanSecurity: string,
    loanProcessingFees: string,
    defaultAndForeclosure: string,
    earlyRepaymentAndPenalties: string,
    changesToTerms: string,
    insuranceRequirements: string,
    loanCancellation: string,
    disputeResolution: string,
    governingLaw: string)

  /** The schema's field names as they appear in the JSON, in order. */
  const FieldNames: seq<string> := [
    "bank", "introduction", "loan_amount_and_purpose", "interest_rates",
    "loan_tenure", "monthly_repayments", "late_payments", "loan_security",
    "loan_processing_fees", "default_and_foreclosure",
    "early_repayment_and_penalties", "changes_to_terms",
    "insurance_requirements", "loan_cancellation", "dispute_resolution",
    "governing_law"]

  /** The field values in the order of `FieldNames`. */
  function FieldValues(tc: TermsAndConditions): seq<string> {
    [tc.bank, tc.introduction, tc.loanAmountAndPurpose, tc.interestRates,
     tc.loanTenure, tc.monthlyRepayments, tc.latePayments, tc.loanSecurity,
     tc.loanProcessingFees, tc.defaultAndForeclosure,
     tc.earlyRepaymentAndPenalties, tc.changesToTerms,
     tc.insuranceRequirements, tc.loanCancellation, tc.disputeResolution,
     tc.governingLaw]
  }

  /** No two schema fields share a name. */
  lemma FieldNamesDistinct()
    ensures |FieldNames| == 16
    ensures forall i, j :: 0 <= i < j < 16 ==> FieldNames[i] != FieldNames[j]
  {
  }

  /** `parsed_info`: each field under its name, in declaration order. */
  function FieldEntries(tc: TermsAndConditions): (d: Dict)
    ensures |d| == 16 && Keys(d) == FieldNames
    ensures forall i :: 0 <= i < 16 ==> d[i].value == Str(FieldValues(tc)[i])
  {
    FieldNamesDistinct();
    var vs := FieldValues(tc);
    seq(16, i requires 0 <= i < 16 => Entry(FieldNames[i], Str(vs[i])))
  }

  /** The record whose fields, in order, are `vs`. */
  function FromValues(vs: seq<string>): (tc: TermsAndConditions)
    requires |vs| == 16
    ensures FieldValues(tc) == vs
  {
    TermsAndConditions(vs[0], vs[1], vs[2], vs[3], vs[4], vs[5], vs[6], vs[7],
      vs[8], vs[9], vs[10], vs[11], vs[12], vs[13], vs[14], vs[15])
  }

  /** The string values stored under `names`, in order; None when a name is
      missing or holds null. */
  function ReadStrings(d: Dict, names: seq<string>): (r: Option<seq<string>>)
    ensures r.Some? <==> forall i :: 0 <= i < |names| ==> Get(d, names[i]).Some? && Get(d, names[i]).value.Str?
    ensures r.Some? ==> |r.value| == |names|
    ensures r.Some? ==> forall i :: 0 <= i < |names| ==> Get(d, names[i]) == Some(Str(r.value[i]))
    decreases |names|
  {
    if |names| == 0 then Some([])
    else
      var n := |names| - 1;
      match ReadStrings(d, names[..n])
      case None => None
      case Some(vs) =>
        match Get(d, names[n])
        case Some(Str(v)) => Some(vs + [v])
        case _ => None
  }

  /** Reads the sixteen fields back out of a dictionary; None when one of
      them is missing or is not a string. */
  function ParseFields(d: Dict): (r: Option<TermsAndConditions>)
    ensures r.Some? <==> forall i :: 0 <= i < |FieldNames| ==> Get(d, FieldNames[i]).Some? && Get(d, FieldNames[i]).value.Str?
    ensures r.Some? ==> forall i :: 0 <= i < |FieldNames| ==> Get(d, FieldNames[i]) == Some(Str(FieldValues(r.value)[i]))
  {
    match ReadStrings(d, FieldNames)
    case None => None
    case Some(vs) => Some(FromValues(vs))
  }

  /** Each field is stored under its own name. */
  lemma FieldEntriesGet(tc: TermsAndConditions)
    ensures forall i :: 0 <= i < 16 ==> Get(FieldEntries(tc), FieldNames[i]) == Some(Str(FieldValues(tc)[i]))
  {
    var d := FieldEntries(tc);
    forall i | 0 <= i < 16 ensures Get(d, FieldNames[i]) == Some(Str(FieldValues(tc)[i])) {
      assert d[i].key == FieldNames[i];
    }
  }

  /** A dictionary that holds every field of `tc` under its name reads back
      as `tc`, whatever else it holds. */
  lemma ParseFieldsFrom(d: Dict, tc: TermsAndConditions)
    requires forall i :: 0 <= i < |FieldNames| ==> Get(d, FieldNames[i]) == Some(Str(FieldValues(tc)[i]))
    ensures ParseFields(d) == Some(tc)
  {
    var vs := ReadStrings(d, FieldNames).value;
    assert vs == FieldValues(tc);
    FieldValuesInjective(FromValues(vs), tc);
  }

  /** A record is determined by its field values. */
  lemma FieldValuesInjective(a: TermsAndConditions, b: TermsAndConditions)
    requires FieldValues(a) == FieldValues(b)
    ensures a == b
  {
    var va, vb := FieldValues(a), FieldValues(b);
    assert va[0] == vb[0] && va[1] == vb[1] && va[2] == vb[2] && va[3] == vb[3];
    assert va[4] == vb[4] && va[5] == vb[5] && va[6] == vb[6] && va[7] == vb[7];
    assert va[8] == vb[8] && va[9] == vb[9] && va[10] == vb[10] && va[11] == vb[11];
    assert va[12] == vb[12] && va[13] == vb[13] && va[14] == vb[14] && va[15] == vb[15];
  }

  /** Writing the fields out and reading them back gives the same record. */
  lemma ParseFieldEntries(tc: TermsAndConditions)
    ensures ParseFields(FieldEntries(tc)) == Some(tc)
  {
    FieldEntriesGet(tc);
    ParseFieldsFrom(FieldEntries(tc), tc);
  }
}
