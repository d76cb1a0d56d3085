/** `formatted_data_cleaning` and `model_termsandconditions`: the fields the
    language model returns are merged with the contact fields under an `id`
    taken from the bank name, and wrapped in the output document. */
module RecordAssembler {
  import opened Wrappers
  import opened Text
  import opened OrderedDict
  import opened ContractSchema
  import opened TextFlattener

  /** The keys of `contact_info`, in insertion order. */
  const ContactKeys: seq<string> := ["Customer Service", "Email", "Address"]

  /** A contact field as a JSON value: None becomes null. */
  function ValueOf(o: Option<string>): (v: Value)
    ensures v.Null? <==> o.None?
    ensures o.Some? ==> v == Str(o.value)
  {
    match o
    case None => Null
    case Some(s) => Str(s)
  }

  /** `contact_info` as a dictionary. */
  function ContactEntries(info: ContactInfo): (d: Dict)
    ensures Keys(d) == ContactKeys
    ensures Get(d, "Customer Service") == Some(ValueOf(info.customerService))
    ensures Get(d, "Email") == Some(ValueOf(info.email))
    ensures Get(d, "Address") == Some(ValueOf(info.address))
  {
    var d := [Entry("Customer Service", ValueOf(info.customerService)),
              Entry("Email", ValueOf(info.email)),
              Entry("Address", ValueOf(info.address))];
    assert d[0].key == "Customer Service" && d[1].key == "Email" && d[2].key == "Address";
    d
  }

  /** The three groups of keys of the merged record do not meet. */
  lemma KeyGroupsDisjoint()
    ensures forall i, j :: 0 <= i < |["id"] + ContactKeys| && 0 <= j < |FieldNames| ==>
      (["id"] + ContactKeys)[i] != FieldNames[j]
  {
  }

  /** Dictionaries whose key lists do not meet. */
  lemma KeysApart(d: Dict, e: Dict, dk: seq<string>, ek: seq<string>)
    requires Keys(d) == dk && Keys(e) == ek
    requires forall i, j :: 0 <= i < |dk| && 0 <= j < |ek| ==> dk[i] != ek[j]
    ensures forall i, j :: 0 <= i < |d| && 0 <= j < |e| ==> d[i].key != e[j].key
  {
    forall i, j | 0 <= i < |d| && 0 <= j < |e| ensures d[i].key != e[j].key {
      assert d[i].key == dk[i] && e[j].key == ek[j];
    }
  }

  lemma KeysAppend(d: seq<Entry>, e: seq<Entry>)
    ensures Keys(d + e) == Keys(d) + Keys(e)
  {
  }

  /** The `id` entry followed by the contact entries. */
  function IdAndContacts(bank: string, info: ContactInfo): (d: Dict)
    ensures d == [Entry("id", Str(bank))] + ContactEntries(info)
    ensures Keys(d) == ["id"] + ContactKeys
  {
    var id: Dict := [Entry("id", Str(bank))];
    var contacts := ContactEntries(info);
    KeysApart(id, contacts, ["id"], ContactKeys);
    UpdateDisjoint(id, contacts);
    KeysAppend(id, contacts);
    Update(id, contacts)
  }

  /** `{"id": parsed_info["bank"], **contact_info, **parsed_info}`: the `id`
      entry, then the three contact entries, then the sixteen schema fields,
      with nothing overwritten. */
  function FormattedDataCleaning(parsed: TermsAndConditions, info: ContactInfo): (content: Dict)
    ensures content == [Entry("id", Str(parsed.bank))] + ContactEntries(info) + FieldEntries(parsed)
  {
    var head := IdAndContacts(parsed.bank, info);
    var fields := FieldEntries(parsed);
    KeyGroupsDisjoint();
    KeysApart(head, fields, ["id"] + ContactKeys, FieldNames);
    UpdateDisjoint(head, fields);
    Update(head, fields)
  }

  /** The merged record has twenty keys: `id`, the three contact keys and
      the sixteen schema fields, in that order. */
  lemma FormattedDataCleaningKeys(parsed: TermsAndConditions, info: ContactInfo)
    ensures Keys(FormattedDataCleaning(parsed, info)) == ["id"] + ContactKeys + FieldNames
    ensures |FormattedDataCleaning(parsed, info)| == 20
  {
    var head := IdAndContacts(parsed.bank, info);
    KeysAppend(head, FieldEntries(parsed));
  }

  /** The merged record holds `id` and the contact fields, each with the
      value it was given; a contact field that was not found is null. */
  lemma FormattedDataCleaningContacts(parsed: TermsAndConditions, info: ContactInfo)
    ensures var content := FormattedDataCleaning(parsed, info);
      && Get(content, "id") == Some(Str(parsed.bank))
      && Get(content, "Customer Service") == Some(ValueOf(info.customerService))
      && Get(content, "Email") == Some(ValueOf(info.email))
      && Get(content, "Address") == Some(ValueOf(info.address))
  {
    var head, fields := IdAndContacts(parsed.bank, info), FieldEntries(parsed);
    HeadValues(parsed.bank, info);
    assert FormattedDataCleaning(parsed, info) == head + fields;
    GetBefore(head, fields);
  }

  lemma HeadValues(bank: string, info: ContactInfo)
    ensures var head := IdAndContacts(bank, info);
      && Get(head, "id") == Some(Str(bank))
      && Get(head, "Customer Service") == Some(ValueOf(info.customerService))
      && Get(head, "Email") == Some(ValueOf(info.email))
      && Get(head, "Address") == Some(ValueOf(info.address))
  {
    HeadId(bank, info);
    HeadContacts(bank, info);
  }

  lemma HeadId(bank: string, info: ContactInfo)
    ensures Get(IdAndContacts(bank, info), "id") == Some(Str(bank))
  {
    assert IdAndContacts(bank, info)[0] == Entry("id", Str(bank));
  }

  lemma HeadContacts(bank: string, info: ContactInfo)
    ensures var head := IdAndContacts(bank, info);
      && Get(head, "Customer Service") == Some(ValueOf(info.customerService))
      && Get(head, "Email") == Some(ValueOf(info.email))
      && Get(head, "Address") == Some(ValueOf(info.address))
  {
    var id: Dict := [Entry("id", Str(bank))];
    GetAfter(id, ContactEntries(info));
  }

  /** The merged record holds every schema field under its own name with
      the value the service gave it. */
  lemma FormattedDataCleaningFieldValues(parsed: TermsAndConditions, info: ContactInfo)
    ensures forall i :: 0 <= i < |FieldNames| ==>
      Get(FormattedDataCleaning(parsed, info), FieldNames[i]) == Some(Str(FieldValues(parsed)[i]))
  {
    var head, fields := IdAndContacts(parsed.bank, info), FieldEntries(parsed);
    assert FormattedDataCleaning(parsed, info) == head + fields;
    GetAfter(head, fields);
    FieldEntriesGet(parsed);
  }

  /** The schema record reads back unchanged from the merged record, and
      `bank` there agrees with `id`. */
  lemma FormattedDataCleaningFields(parsed: TermsAndConditions, info: ContactInfo)
    ensures var content := FormattedDataCleaning(parsed, info);
      && Get(content, "bank") == Some(Str(parsed.bank))
      && ParseFields(content) == Some(parsed)
  {
    FormattedDataCleaningFieldValues(parsed, info);
    assert FieldNames[0] == "bank" && FieldValues(parsed)[0] == parsed.bank;
    ParseFieldsFrom(FormattedDataCleaning(parsed, info), parsed);
  }

  /** A failure of the extraction service; its content is not modelled. */
  datatype ServiceError = ServiceError(message: string)

  /** The output document: the record's `id` beside the record itself. */
  datatype Document = Document(id: Value, content: Dict)

  /** `model_termsandconditions`: flatten the OCR result, hand the text to
      the extraction service `extract`, and merge its answer with the
      contact fields. A failure of the service is passed on unchanged. */
  method ModelTermsAndConditions(cc: CharClasses, ocr: OcrDocument,
                                 extract: string -> Result<TermsAndConditions, ServiceError>)
    returns (r: Result<Document, ServiceError>)
    ensures var answer := extract(FlattenedText(cc, ocr));
      answer.Failure? ==> r == Failure(answer.error)
    ensures var answer := extract(FlattenedText(cc, ocr));
      answer.Success? ==>
        && r.Success?
        && r.value.id == Str(answer.value.bank)
        && Get(r.value.content, "id") == Some(r.value.id)
        && Get(r.value.content, "bank") == Some(r.value.id)
        && r.value.content == FormattedDataCleaning(answer.value, ExtractContacts(cc, FlattenedText(cc, ocr)))
  {
    var text, info := CleanJsonData(cc, ocr);
    var answer := extract(text);
    if answer.Failure? {
      r := Failure(answer.error);
      return;
    }
    var content := FormattedDataCleaning(answer.value, info);
    FormattedDataCleaningContacts(answer.value, info);
    FormattedDataCleaningFields(answer.value, info);
    r := Success(Document(Get(content, "id").GetOr(Null), content));
  }

  /** A record for "Acme Bank" with only an email found: `id` is the bank
      name, the email is kept, and the two missing contact fields are
      present with a null value. */
  lemma AcmeBankExample(parsed: TermsAndConditions)
    requires parsed.bank == "Acme Bank"
    ensures var content := FormattedDataCleaning(parsed, ContactInfo(None, Some("x@y.com"), None));
      && Get(content, "id") == Some(Str("Acme Bank"))
      && Get(content, "Email") == Some(Str("x@y.com"))
      && Get(content, "Customer Service") == Some(Null)
      && Get(content, "Address") == Some(Null)
  {
    FormattedDataCleaningContacts(parsed, ContactInfo(None, Some("x@y.com"), None));
  }
}
