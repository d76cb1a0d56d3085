/** Documents flattened, and a contact field found in the result, with
    character classes that agree with Python's on ASCII. */
module FlattenerExamples {
  import opened Wrappers
  import opened Text
  import opened ContactPatterns
  import opened ContactProperties
  import opened TextFlattener

  /** Two pages of one line each give the two texts with a space between. */
  lemma HelloWorld(cc: CharClasses)
    requires cc.AgreesOnAscii()
    ensures FlattenedText(cc, OcrDocument(Some([Page(Some([Line(Some("Hello"))])), Page(Some([Line(Some("World"))]))])))
      == "Hello World"
  {
    var lines := [Line(Some("Hello")), Line(Some("World"))];
    HelloWorldLines();
    UnpaddedWords(cc);
    TokensOfList(cc, lines, ["Hello", "World"]);
    JoinExamples();
  }

  lemma HelloWorldLines()
    ensures AllLines([Page(Some([Line(Some("Hello"))])), Page(Some([Line(Some("World"))]))])
      == [Line(Some("Hello")), Line(Some("World"))]
  {
    var p1, p2 := Page(Some([Line(Some("Hello"))])), Page(Some([Line(Some("World"))]));
    assert [p1, p2][..1] == [p1];
    assert [p1][..0] == [];
  }

  lemma JoinExamples()
    ensures Join(" ", ["Hello", "World"]) == "Hello World"
    ensures Join(" ", ["Hello", "", "World"]) == "Hello  World"
  {
    assert ["Hello", "World"][1..] == ["World"];
    var tokens := ["Hello", "", "World"];
    assert tokens[1..] == ["", "World"] && tokens[1..][1..] == ["World"];
  }

  lemma UnpaddedWords(cc: CharClasses)
    requires cc.AgreesOnAscii()
    ensures Strip(cc, "Hello") == "Hello" && Strip(cc, "World") == "World" && Strip(cc, "") == ""
    ensures Strip(cc, " Hello ") == "Hello"
  {
    StripUnpadded(cc, "Hello");
    StripUnpadded(cc, "World");
    StripUnpadded(cc, "");
    assert StrippedAt(cc, " Hello ", 1, "Hello") by {
      assert " Hello "[1..6] == "Hello" && " Hello "[..1] == " " && " Hello "[6..] == " ";
    }
    StripCharacterized(cc, " Hello ", "Hello");
  }

  /** Lists of lines whose stripped texts are known element by element. */
  lemma TokensOfList(cc: CharClasses, lines: seq<Line>, tokens: seq<string>)
    requires |lines| == |tokens|
    requires forall k :: 0 <= k < |lines| ==> Strip(cc, TextOf(lines[k])) == tokens[k]
    ensures Tokens(cc, lines) == tokens
  {
  }

  /** A page without `lines` contributes nothing, a line's padding is
      stripped, and a line without `text` still contributes an empty token,
      hence a second space. */
  lemma MissingKeys(cc: CharClasses)
    requires cc.AgreesOnAscii()
    ensures FlattenedText(cc, OcrDocument(Some([Page(None), Page(Some([Line(Some(" Hello ")), Line(None)])),
      Page(Some([Line(Some("World"))]))]))) == "Hello  World"
  {
    var doc := OcrDocument(Some([Page(None), Page(Some([Line(Some(" Hello ")), Line(None)])),
      Page(Some([Line(Some("World"))]))]));
    var lines := [Line(Some(" Hello ")), Line(None), Line(Some("World"))];
    MissingKeysLines();
    MissingKeysTokens(cc);
    FlattenedFrom(cc, doc, lines, ["Hello", "", "World"]);
    JoinExamples();
  }

  lemma MissingKeysTokens(cc: CharClasses)
    requires cc.AgreesOnAscii()
    ensures Tokens(cc, [Line(Some(" Hello ")), Line(None), Line(Some("World"))]) == ["Hello", "", "World"]
  {
    UnpaddedWords(cc);
    TokensOfList(cc, [Line(Some(" Hello ")), Line(None), Line(Some("World"))], ["Hello", "", "World"]);
  }

  /** The flattened text of a document whose lines and tokens are known. */
  lemma FlattenedFrom(cc: CharClasses, doc: OcrDocument, lines: seq<Line>, tokens: seq<string>)
    requires AllLines(PagesOf(doc)) == lines && Tokens(cc, lines) == tokens
    ensures FlattenedText(cc, doc) == Join(" ", tokens)
  {
  }

  lemma MissingKeysLines()
    ensures AllLines([Page(None), Page(Some([Line(Some(" Hello ")), Line(None)])), Page(Some([Line(Some("World"))]))])
      == [Line(Some(" Hello ")), Line(None), Line(Some("World"))]
  {
    var p0, p1, p2 := Page(None), Page(Some([Line(Some(" Hello ")), Line(None)])), Page(Some([Line(Some("World"))]));
    assert [p0][..0] == [];
    assert AllLines([p0]) == [];
    assert [p0, p1][..1] == [p0];
    assert AllLines([p0, p1]) == [Line(Some(" Hello ")), Line(None)];
    assert [p0, p1, p2][..2] == [p0, p1];
  }

  const AddressLine := "Address:" + " " + "1 Main St" + "\n" + "Town"

  /** A newline inside a line's text survives the strip, and the Address
      value stops at it. */
  lemma AddressStopsAtNewline(cc: CharClasses)
    requires cc.AgreesOnAscii()
    ensures FlattenedText(cc, OcrDocument(Some([Page(Some([Line(Some(AddressLine))]))]))) == AddressLine
    ensures ExtractContacts(cc, AddressLine).address == Some("1 Main St")
  {
    var page := Page(Some([Line(Some(AddressLine))]));
    assert AllLines([page]) == [Line(Some(AddressLine))] by { assert [page][..0] == []; }
    AddressLineChars(cc);
    StripUnpadded(cc, AddressLine);
    assert Tokens(cc, [Line(Some(AddressLine))]) == [AddressLine];
    ScanPlainValue(cc, Address, AddressLine, 0, 9, 18);
    ExtractFromScanner(cc, Address, AddressLine, 0, Span(0, 9, 18));
    StripUnpadded(cc, "1 Main St");
  }

  lemma AddressLineChars(cc: CharClasses)
    requires cc.AgreesOnAscii()
    ensures |AddressLine| == 23 && !cc.isSpace(AddressLine[0]) && !cc.isSpace(AddressLine[22])
    ensures LabelAt(Address, AddressLine, 0)
    ensures cc.isSpace(AddressLine[8]) && !cc.isSpace(AddressLine[9]) && AddressLine[18] == '\n'
    ensures forall p :: 9 <= p < 18 ==> Allowed(cc, Address, AddressLine[p])
    ensures AddressLine[9..18] == "1 Main St"
  {
    var g := "1 Main St";
    assert AddressLine[..8] == "Address:";
    assert forall c :: c in g ==> c != '\n';
    forall p | 9 <= p < 18 ensures Allowed(cc, Address, AddressLine[p]) {
      assert AddressLine[p] == g[p - 9];
    }
  }
}
