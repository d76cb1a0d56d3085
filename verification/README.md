# Terms-and-conditions extractor, modelled in Dafny

This project models the pure part of the loan terms-and-conditions
extractor in `Challenge4/az-function/model_termsandconditions.py`. It
proves properties of that model. The pipeline has three stages:

1. **Flattening** (`clean_json_data`). The OCR result is walked page by page and
   line by line. Each line's `text` is stripped, and the stripped texts are
   joined with single spaces. A missing `pages`, `lines` or `text` key counts
   as an empty list or an empty string.
2. **Contact extraction.** Three `re.search` calls run on the flattened text:
   - `Customer Service:\s+([\+\d\(\)\-\s]+)`
   - `Email:\s+([\w\.\@]+)`
   - `Address:\s+(.+)`

   Each field is the stripped group 1 of the match, or `None`.
3. **Record assembly** (`formatted_data_cleaning`, `model_termsandconditions`).
   The sixteen-field `TermsAndConditions` record comes back from the
   language-model service. It is merged as
   `{"id": bank, **contact_info, **parsed_info}` and wrapped as
   `{"id": content["id"], "content": content}`.

Modules:

- `Wrappers`: `Option` and `Result`.
- `Text`: abstract character classes, `str.strip` and `str.join`.
  - `Strip` is specified by what a stripped string is: a slice with only whitespace around it and none at its ends.
  - `StripCharacterized` shows that this description has one answer.
- `ContactPatterns`: one scanner for the shape `Label\s+(X+)` shared by all three patterns.
  - `Label` holds each pattern's literal, and `Allowed` holds each group's character class: `+`, digits, `(`, `)`, `-` and whitespace; word characters, `.` and `@`; anything but a newline.
  - The scanner has a declarative specification. `re.search` takes the leftmost start.
  - At that start, Python's backtracking picks the match with the longest `\s+` and then the longest group (`Greediest`).
  - The scanner lets `\s+` take the whole whitespace run and then gives back one character at a time (`GiveBack`), as the engine does.
- `ContactProperties`, `ContactExamples`: what each field's value is. This includes the corner cases the backtracking produces:
  - two spaces before a character outside the Customer Service class give the value `""`;
  - a single space gives no match at that label;
  - the search goes on past a label where matching fails.
- `TextFlattener`, `FlattenerExamples`: the OCR data model and `clean_json_data`.
  - `CollectTokens` is the source's nested loop.
  - `FlattenedText` is the reference definition it is proved against.
- `OrderedDict`: the part of Python's `dict` used here, as an entry list with distinct keys in insertion order.
  - It covers `get`, item assignment, and `{**d, **e}`.
  - `UpdateDisjoint` shows that merging dictionaries with disjoint keys is concatenation.
- `ContractSchema`: the sixteen-field record, its dictionary form, and the read-back `ParseFields` that inverts it.
- `RecordAssembler`: the merge, the output document, and the whole pipeline.

The character classes `\s`, `\w` and `\d` are parameters (`CharClasses`). So is
the whitespace set of `str.strip`, which CPython takes from the same table as
`\s`. Two properties need facts about these classes:

- The Email lemmas assume `Consistent`: word characters, `.` and `@` are not whitespace.
- The worked examples assume `AgreesOnAscii`: below U+0080 the classes are Python's.

The content has 20 keys: `id`, the three contact keys, and the sixteen schema
fields. `FormattedDataCleaningKeys` states the 20-key list.

## Model

| member | source | states |
|---|---|---|
| Text.Strip | Challenge4/az-function/model_termsandconditions.py:32 | the result is a slice of the input with only whitespace before and after it, and it neither starts nor ends with whitespace |
| Text.StripCharacterized | Challenge4/az-function/model_termsandconditions.py:32 | any slice with only whitespace around it and none at its ends is the strip, so the strip is unique |
| Text.StripWithin | Challenge4/az-function/model_termsandconditions.py:45 | every character of a stripped string belongs to any class that holds all characters of the original |
| Text.StripIdempotent | Challenge4/az-function/model_termsandconditions.py:45 | stripping twice is stripping once |
| Text.Join | Challenge4/az-function/model_termsandconditions.py:35 | the joined text starts with the first item, and its length is that of all items together plus one separator between each pair of neighbours |
| Text.JoinAppend | Challenge4/az-function/model_termsandconditions.py:35 | joining two non-empty lists gives their joins with one separator between |
| ContactPatterns.GiveBack | Challenge4/az-function/model_termsandconditions.py:39-41 | the last position in a range where the group's class holds, or none when no position in the range qualifies |
| ContactPatterns.MatchAt | Challenge4/az-function/model_termsandconditions.py:39-41 | some match starts at the position iff the scanner returns one; what it returns is a match, and it is the greediest at that position |
| ContactPatterns.FindFrom | Challenge4/az-function/model_termsandconditions.py:39-41 | none iff no match starts at or after the position; otherwise the greediest match at the first position where one starts |
| ContactPatterns.Search | Challenge4/az-function/model_termsandconditions.py:39-41 | none iff the pattern matches nowhere; otherwise the leftmost, greediest match |
| ContactPatterns.SearchResultUnique | Challenge4/az-function/model_termsandconditions.py:39-41 | at most one match fits the leftmost, greediest description |
| ContactPatterns.GroupAllowed | Challenge4/az-function/model_termsandconditions.py:39-41 | every character of a matched group is in the group's class |
| ContactPatterns.Extract | Challenge4/az-function/model_termsandconditions.py:38-45 | none iff the pattern matches at no position; otherwise the strip of group 1 of the leftmost, greediest match, and it only holds characters of the group's class |
| ContactPatterns.ExtractFromResult | Challenge4/az-function/model_termsandconditions.py:45 | any match fitting the leftmost, greediest description gives the reported value |
| ContactProperties.ExtractAfterMisses | Challenge4/az-function/model_termsandconditions.py:39-41 | a hit at a position is the reported match whenever nothing matches earlier, including at labels where matching failed |
| ContactProperties.ExtractFromScanner | Challenge4/az-function/model_termsandconditions.py:39-41 | a hit at the first occurrence of the label is the reported match |
| ContactProperties.MatchNeedsLabel | Challenge4/az-function/model_termsandconditions.py:39-41 | a match only starts where the label occurs |
| ContactProperties.ScanPlainValue | Challenge4/az-function/model_termsandconditions.py:39-41 | label, whitespace, then a non-space character of the class: the group is the whole run of the class from there |
| ContactProperties.CustomerServiceGivesBackOneSpace | Challenge4/az-function/model_termsandconditions.py:39 | after two or more spaces and a character outside the class, the group is the last space alone, which strips to the empty string |
| ContactProperties.CustomerServiceOneSpaceFails | Challenge4/az-function/model_termsandconditions.py:39 | one space followed by a character outside the class: no match at that label |
| ContactProperties.CustomerServiceTwoSpacesExample | Challenge4/az-function/model_termsandconditions.py:39 | "Customer Service:  x" gives the empty string, not None |
| ContactProperties.CustomerServiceOneSpaceExample | Challenge4/az-function/model_termsandconditions.py:39 | "Customer Service: x" gives None |
| ContactProperties.GroupEndsAtClassBoundary | Challenge4/az-function/model_termsandconditions.py:39-41 | the reported group ends at the end of the text or at a character outside its class |
| ContactProperties.EmailGroupStart | Challenge4/az-function/model_termsandconditions.py:40 | the Email group starts exactly where the whitespace after the label ends |
| ContactProperties.EmailGroupUnpadded | Challenge4/az-function/model_termsandconditions.py:40 | the Email group has no whitespace to strip |
| ContactProperties.EmailValue | Challenge4/az-function/model_termsandconditions.py:40 | the Email value is non-empty, starts right after the whitespace, ends at the first character outside word characters, `.` and `@`, and is the group unchanged |
| ContactProperties.AddressGroupInWhitespace | Challenge4/az-function/model_termsandconditions.py:41 | with only a newline or the end after the whitespace, the Address group is whitespace |
| ContactProperties.AddressGroupIsLine | Challenge4/az-function/model_termsandconditions.py:41 | the Address group holds no newline and ends at a newline or the end of the text |
| ContactProperties.AddressGroup | Challenge4/az-function/model_termsandconditions.py:41 | the Address group starts right after the whitespace when a non-newline character is there, and otherwise strips to nothing |
| ContactProperties.AddressValue | Challenge4/az-function/model_termsandconditions.py:41 | the Address value is the stripped text from the end of the whitespace after the label up to the next newline or the end of the text, or the empty string when that line is blank |
| ContactProperties.AddressTrailingSpacesExample | Challenge4/az-function/model_termsandconditions.py:41 | "Address:" followed by two spaces gives the empty string |
| ContactExamples.SampleCustomerService | Challenge4/az-function/model_termsandconditions.py:39 | "Customer Service: +1 (800) 555-0123 Email: a@b.com Address: 1 Main St" gives "+1 (800) 555-0123" |
| ContactExamples.SampleEmail | Challenge4/az-function/model_termsandconditions.py:40 | the same text gives the email "a@b.com" |
| ContactExamples.SampleAddress | Challenge4/az-function/model_termsandconditions.py:41 | the same text gives the address "1 Main St" |
| ContactExamples.RetryLaterLabel | Challenge4/az-function/model_termsandconditions.py:39 | a first label that cannot match is passed over and the value comes from the second label |
| TextFlattener.AllLines | Challenge4/az-function/model_termsandconditions.py:29-31 | the lines of the walk over the pages; a page list has none iff each of its pages has none |
| TextFlattener.AllLinesAppend | Challenge4/az-function/model_termsandconditions.py:29-32 | the lines of two page lists put together are the lines of the first followed by those of the second |
| TextFlattener.AllLinesMembers | Challenge4/az-function/model_termsandconditions.py:29-31 | every line of every page is among the collected lines, and every collected line comes from some page |
| TextFlattener.AllLinesIndex | Challenge4/az-function/model_termsandconditions.py:29-32 | line k of page p comes after all lines of the earlier pages, in page order and then line order |
| TextFlattener.Tokens | Challenge4/az-function/model_termsandconditions.py:32 | one token per line, each the stripped text of its line, a missing text counting as empty |
| TextFlattener.TokensAppend | Challenge4/az-function/model_termsandconditions.py:32 | stripping line by line commutes with putting line lists together |
| TextFlattener.FlattenedText | Challenge4/az-function/model_termsandconditions.py:26-35 | the plain text: empty when no page has lines, and otherwise starting with the stripped text of the first line |
| TextFlattener.ExtractContacts | Challenge4/az-function/model_termsandconditions.py:38-45 | each contact field is absent iff its pattern matches nowhere in the text |
| TextFlattener.CollectTokens | Challenge4/az-function/model_termsandconditions.py:26-32 | the nested loop collects `token` of every line of the document, exactly one per line, in page order and then line order; `CleanJsonData` passes the line's stripped text as `token` |
| TextFlattener.CleanJsonData | Challenge4/az-function/model_termsandconditions.py:21-47 | the text is the space-join of every line's stripped text, and each contact field is the result of its search in that text |
| TextFlattener.FlattenPagesAppend | Challenge4/az-function/model_termsandconditions.py:29-35 | when both page lists have lines, the text of the two together is the text of each with one space between |
| TextFlattener.EmptyDocument | Challenge4/az-function/model_termsandconditions.py:29-47 | no pages, or pages without lines: the text is empty and all three contact fields are None |
| FlattenerExamples.HelloWorld | Challenge4/az-function/model_termsandconditions.py:29-35 | two pages holding "Hello" and "World" give "Hello World" |
| FlattenerExamples.MissingKeys | Challenge4/az-function/model_termsandconditions.py:29-35 | a page without lines adds nothing, padding is stripped, and a line without text adds an empty token, hence a double space |
| FlattenerExamples.AddressStopsAtNewline | Challenge4/az-function/model_termsandconditions.py:32-41 | a newline inside a line's text survives the strip, and the Address value stops at it |
| OrderedDict.Get | Challenge4/az-function/model_termsandconditions.py:16 | None iff the key is absent; otherwise the value stored under it |
| OrderedDict.Insert | Challenge4/az-function/model_termsandconditions.py:69-73 | the key maps to the new value and every other key is unchanged; a present key keeps its place and a new key goes last |
| OrderedDict.Update | Challenge4/az-function/model_termsandconditions.py:69-73 | a key of the second dictionary takes its value there; every other key keeps the first dictionary's value or stays absent |
| OrderedDict.GetBefore | Challenge4/az-function/model_termsandconditions.py:69-73 | a key of the first part of a dictionary is looked up there |
| OrderedDict.GetAfter | Challenge4/az-function/model_termsandconditions.py:69-73 | a key of the second part of a dictionary is looked up there |
| OrderedDict.UpdateDisjoint | Challenge4/az-function/model_termsandconditions.py:69-73 | merging dictionaries with disjoint keys lists the first's entries and then the second's, overwriting nothing |
| ContractSchema.FieldEntries | Challenge4/az-function/model_termsandconditions.py:83-99 | sixteen entries, keyed by the schema's field names in declaration order, each holding its field's value |
| ContractSchema.FromValues | Challenge4/az-function/model_termsandconditions.py:83-99 | the record whose sixteen fields, in order, are the given strings |
| ContractSchema.ReadStrings | Challenge4/az-function/model_termsandconditions.py:83-99 | reads the string values stored under the given names back out of a dictionary, in order; none iff one of them is missing or null |
| ContractSchema.ParseFields | Challenge4/az-function/model_termsandconditions.py:83-99 | reads the schema's dictionary form back as a record, the inverse of FieldEntries: a record iff all sixteen fields are present as strings, and then each field is the value stored under its name |
| ContractSchema.FieldEntriesGet | Challenge4/az-function/model_termsandconditions.py:83-99 | each field is stored under its own name |
| ContractSchema.ParseFieldsFrom | Challenge4/az-function/model_termsandconditions.py:83-99 | a dictionary holding every field of a record under its name reads back as that record, whatever else it holds |
| ContractSchema.FieldValuesInjective | Challenge4/az-function/model_termsandconditions.py:83-99 | a record is determined by its sixteen field values |
| ContractSchema.ParseFieldEntries | Challenge4/az-function/model_termsandconditions.py:83-99 | writing the record's fields out and reading them back gives the same record |
| RecordAssembler.ContactEntries | Challenge4/az-function/model_termsandconditions.py:38-45 | the keys "Customer Service", "Email", "Address" in that order, each holding its field, null when not found |
| RecordAssembler.IdAndContacts | Challenge4/az-function/model_termsandconditions.py:69-71 | the id entry followed by the three contact entries, nothing overwritten |
| RecordAssembler.FormattedDataCleaning | Challenge4/az-function/model_termsandconditions.py:69-73 | the merged record is the id entry, then the contact entries, then the schema fields, with nothing overwritten |
| RecordAssembler.FormattedDataCleaningKeys | Challenge4/az-function/model_termsandconditions.py:69-73 | the merged record has exactly twenty keys: id, the three contact keys and the sixteen field names, in that order |
| RecordAssembler.FormattedDataCleaningContacts | Challenge4/az-function/model_termsandconditions.py:66-71 | id holds the bank name, and each contact key holds its field unchanged, null when not found |
| RecordAssembler.FormattedDataCleaningFieldValues | Challenge4/az-function/model_termsandconditions.py:72 | every schema field is held under its own name with the value the service gave |
| RecordAssembler.FormattedDataCleaningFields | Challenge4/az-function/model_termsandconditions.py:66-72 | bank agrees with id, and the schema record reads back unchanged from the merged record |
| RecordAssembler.ModelTermsAndConditions | Challenge4/az-function/model_termsandconditions.py:7-19 | a service failure is passed on unchanged; otherwise document.id equals content["id"] and content["bank"], both equal the bank name, and the content is the merge of the service's record with the contacts found in the flattened text |
| RecordAssembler.AcmeBankExample | Challenge4/az-function/model_termsandconditions.py:66-73 | for bank "Acme Bank" and only the email "x@y.com" found, id is "Acme Bank", Email is "x@y.com", and the other two contact keys are present and null |

## Left out

- `create_structured_json`, the call to the hosted language model, is not modelled. So is its configuration: endpoint and key come from the process environment; the API version and the deployment name are fixed literals in the call. The service is the parameter `extract` of `ModelTermsAndConditions`. It maps the flattened text either to the sixteen-field record or to a failure. The model passes a failure on unchanged, because the source does not catch exceptions.
- `json.loads`, `model_dump_json` and the walk through `choices[0].message.parsed` are library serialisation. The record the service parsed is taken directly as a `TermsAndConditions` value.
- The assignment `data["id"] = ...` on the response dictionary is left out. That dictionary is discarded afterwards, so only the value copied into the result is visible, and the model keeps that value.
- The Unicode tables behind `\s`, `\w`, `\d` and `str.strip` are left out. They are parameters, so no property depends on a particular table beyond the assumptions named above.
- Input that is present but has the wrong shape is not modelled. The model only distinguishes a present key from an absent one, and it ignores other keys of the OCR result.
  - A `pages` or `lines` value that is null, a number, a boolean, a non-empty string or a non-empty object makes Python raise an exception, and so does a `text` that is null or not a string.
  - An empty string or empty object in place of `pages` or `lines` iterates as nothing, so it flattens like an empty list. The model has no such value.
- Lone surrogate code points are not modelled. A Dafny `string` holds only Unicode scalar values. A Python `str` from `json.loads` can hold a lone surrogate such as `"\ud800"`, and strip, the patterns and the merge pass it through unchanged.
- A general regular-expression engine is not modelled. Only the three fixed patterns are, through one scanner for their common shape.
- No lemma states that flattening is idempotent. Every operation is a pure function, so running it twice on the same input gives the same result by construction.
