/** `clean_json_data`: the OCR result is flattened to one line of text, and
    the three contact fields are searched for in that text. */
module TextFlattener {
  import opened Wrappers
  import opened Text
  import opened ContactPatterns

  /** A recognised line; `text` is None when the line has no `text` key. */
  datatype Line = Line(text: Option<string>)

  /** A page; `lines` is None when the page has no `lines` key. */
  datatype Page = Page(lines: Option<seq<Line>>)

  /** The OCR result; `pages` is None when it has no `pages` key. Other keys
      of the result are ignored and not modelled. */
  datatype OcrDocument = OcrDocument(pages: Option<seq<Page>>)

  /** The three contact fields, each the stripped match or None. */
  datatype ContactInfo = ContactInfo(customerService: Option<string>, email: Option<string>, address: Option<string>)

  function PagesOf(doc: OcrDocument): seq<Page> {
    doc.pages.GetOr([])
  }

  function LinesOf(page: Page): seq<Line> {
    page.lines.GetOr([])
  }

  function TextOf(line: Line): string {
    line.text.GetOr("")
  }

  /** Every line of `pages`, in page order and then line order; there are
      none exactly when no page has any. */
  function AllLines(pages: seq<Page>): (r: seq<Line>)
    ensures r == [] <==> forall k :: 0 <= k < |pages| ==> LinesOf(pages[k]) == []
    decreases |pages|
  {
    if |pages| == 0 then []
    else
      var n := |pages| - 1;
      assert forall k :: 0 <= k < n ==> pages[..n][k] == pages[k];
      AllLines(pages[..n]) + LinesOf(pages[n])
  }

  /** The lines of consecutive page lists follow one another. */
  lemma {:induction false} AllLinesAppend(ps: seq<Page>, qs: seq<Page>)
    ensures AllLines(ps + qs) == AllLines(ps) + AllLines(qs)
    decreases |qs|
  {
    if |qs| == 0 {
      assert ps + qs == ps;
    } else {
      var n := |qs| - 1;
      DropLast(ps, qs);
      AllLinesAppend(ps, qs[..n]);
      assert AllLines(ps + qs) == AllLines(ps + qs[..n]) + LinesOf(qs[n]);
      assert AllLines(qs) == AllLines(qs[..n]) + LinesOf(qs[n]);
      Assoc(AllLines(ps), AllLines(qs[..n]), LinesOf(qs[n]));
    }
  }

  lemma DropLast<T>(a: seq<T>, b: seq<T>)
    requires |b| > 0
    ensures (a + b)[..|a + b| - 1] == a + b[..|b| - 1]
    ensures (a + b)[|a + b| - 1] == b[|b| - 1]
  {
  }

  lemma Assoc<T>(a: seq<T>, b: seq<T>, c: seq<T>)
    ensures a + b + c == a + (b + c)
  {
  }

  /** Each line of each page is among the lines, and nothing else is. */
  lemma {:induction false} AllLinesMembers(pages: seq<Page>)
    ensures forall p, k :: 0 <= p < |pages| && 0 <= k < |LinesOf(pages[p])| ==> LinesOf(pages[p])[k] in AllLines(pages)
    ensures forall l :: l in AllLines(pages) ==> exists p :: 0 <= p < |pages| && l in LinesOf(pages[p])
    decreases |pages|
  {
    if |pages| > 0 {
      var n := |pages| - 1;
      AllLinesMembers(pages[..n]);
      assert forall k :: 0 <= k < n ==> pages[..n][k] == pages[k];
    }
  }

  /** The stripped text of each line, in order. */
  function Tokens(cc: CharClasses, lines: seq<Line>): (r: seq<string>)
    ensures |r| == |lines|
    ensures forall k :: 0 <= k < |lines| ==> r[k] == Strip(cc, TextOf(lines[k]))
    decreases |lines|
  {
    if |lines| == 0 then [] else Tokens(cc, lines[..|lines| - 1]) + [Strip(cc, TextOf(lines[|lines| - 1]))]
  }

  lemma AllLinesSnoc(pages: seq<Page>, i: nat)
    requires i < |pages|
    ensures AllLines(pages[..i + 1]) == AllLines(pages[..i]) + LinesOf(pages[i])
  {
    assert pages[..i + 1][..i] == pages[..i];
  }

  /** The plain text: every line's stripped text, joined with single spaces.
      A document without lines gives the empty text; otherwise the text
      starts with the stripped text of the first line of the first page
      that has lines. */
  function FlattenedText(cc: CharClasses, doc: OcrDocument): (r: string)
    ensures (forall k :: 0 <= k < |PagesOf(doc)| ==> LinesOf(PagesOf(doc)[k]) == []) ==> r == ""
    ensures var lines := AllLines(PagesOf(doc));
      |lines| > 0 ==> |Strip(cc, TextOf(lines[0]))| <= |r| && r[..|Strip(cc, TextOf(lines[0]))|] == Strip(cc, TextOf(lines[0]))
  {
    Join(" ", Tokens(cc, AllLines(PagesOf(doc))))
  }

  /** The three searches of the flattened text. */
  function ExtractContacts(cc: CharClasses, text: string): (info: ContactInfo)
    ensures info.customerService.None? <==> forall i :: 0 <= i ==> !MatchesAt(cc, CustomerService, text, i)
    ensures info.email.None? <==> forall i :: 0 <= i ==> !MatchesAt(cc, Email, text, i)
    ensures info.address.None? <==> forall i :: 0 <= i ==> !MatchesAt(cc, Address, text, i)
  {
    ContactInfo(Extract(cc, CustomerService, text), Extract(cc, Email, text), Extract(cc, Address, text))
  }

  /** The loops of `clean_json_data`: `token` of every line, page by page
      and line by line. */
  method CollectTokens(pages: seq<Page>, token: Line -> string) returns (content: seq<string>)
    ensures |content| == |AllLines(pages)|
    ensures forall k :: 0 <= k < |content| ==> content[k] == token(AllLines(pages)[k])
  {
    content := [];
    for i := 0 to |pages|
      invariant |content| == |AllLines(pages[..i])|
      invariant forall k :: 0 <= k < |content| ==> content[k] == token(AllLines(pages[..i])[k])
    {
      var lines := LinesOf(pages[i]);
      ghost var before := AllLines(pages[..i]);
      for j := 0 to |lines|
        invariant |content| == |before| + j
        invariant forall k :: 0 <= k < |before| ==> content[k] == token(before[k])
        invariant forall k :: 0 <= k < j ==> content[|before| + k] == token(lines[k])
      {
        content := content + [token(lines[j])];
      }
      AllLinesSnoc(pages, i);
      ghost var after := AllLines(pages[..i + 1]);
      forall k | 0 <= k < |content| ensures content[k] == token(after[k]) {
        if k < |before| {
          assert after[k] == before[k];
        } else {
          assert after[k] == lines[k - |before|];
        }
      }
    }
    assert pages[..|pages|] == pages;
  }

  /** `clean_json_data`: the collected texts joined with single spaces, and
      the three searches of that text. */
  method CleanJsonData(cc: CharClasses, doc: OcrDocument) returns (text: string, info: ContactInfo)
    ensures text == FlattenedText(cc, doc)
    ensures info.customerService == Extract(cc, CustomerService, text)
    ensures info.email == Extract(cc, Email, text)
    ensures info.address == Extract(cc, Address, text)
  {
    var content := CollectTokens(PagesOf(doc), line => Strip(cc, TextOf(line)));
    assert content == Tokens(cc, AllLines(PagesOf(doc)));
    text := Join(" ", content);
    info := ContactInfo(Extract(cc, CustomerService, text), Extract(cc, Email, text), Extract(cc, Address, text));
  }

  /** Line `k` of page `p` is at the position that follows all lines of the
      earlier pages. */
  lemma AllLinesIndex(pages: seq<Page>, p: nat, k: nat)
    requires p < |pages| && k < |LinesOf(pages[p])|
    ensures |AllLines(pages[..p])| + k < |AllLines(pages)|
    ensures AllLines(pages)[|AllLines(pages[..p])| + k] == LinesOf(pages[p])[k]
  {
    assert pages == pages[..p] + [pages[p]] + pages[p + 1..];
    AllLinesAppend(pages[..p] + [pages[p]], pages[p + 1..]);
    AllLinesAppend(pages[..p], [pages[p]]);
    assert AllLines([pages[p]]) == LinesOf(pages[p]) by {
      assert [pages[p]][..0] == [];
    }
  }

  /** Stripping line by line commutes with putting line lists together. */
  lemma TokensAppend(cc: CharClasses, xs: seq<Line>, ys: seq<Line>)
    ensures Tokens(cc, xs + ys) == Tokens(cc, xs) + Tokens(cc, ys)
  {
    var l, r := Tokens(cc, xs + ys), Tokens(cc, xs) + Tokens(cc, ys);
    forall k | 0 <= k < |l| ensures l[k] == r[k] {
      if k < |xs| {
        assert (xs + ys)[k] == xs[k];
      } else {
        assert (xs + ys)[k] == ys[k - |xs|];
      }
    }
  }

  /** A document whose pages all have lines flattens to the text of its
      first pages and the text of its last pages, with one space between. */
  lemma FlattenPagesAppend(cc: CharClasses, ps: seq<Page>, qs: seq<Page>)
    requires AllLines(ps) != [] && AllLines(qs) != []
    ensures FlattenedText(cc, OcrDocument(Some(ps + qs)))
      == FlattenedText(cc, OcrDocument(Some(ps))) + " " + FlattenedText(cc, OcrDocument(Some(qs)))
  {
    AllLinesAppend(ps, qs);
    TokensAppend(cc, AllLines(ps), AllLines(qs));
    JoinAppend(" ", Tokens(cc, AllLines(ps)), Tokens(cc, AllLines(qs)));
  }

  /** No pages, or pages without lines: the text is empty and none of the
      three contact fields is found. */
  lemma EmptyDocument(cc: CharClasses, doc: OcrDocument)
    requires forall k :: 0 <= k < |PagesOf(doc)| ==> LinesOf(PagesOf(doc)[k]) == []
    ensures FlattenedText(cc, doc) == ""
    ensures ExtractContacts(cc, FlattenedText(cc, doc)) == ContactInfo(None, None, None)
  {
  }
}
