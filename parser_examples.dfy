/**
 * Whole documents run through `ParseString(Content)`: what the root holds for
 * some small inputs that show the parser's edge cases.
 */
module ParserExamples {
  import opened Results
  import opened Lexer
  import opened Tree
  import opened Parser
  import Navigation

  /** The first member of `a 1 a 2`. */
  lemma DuplicateFirst()
    ensures MemberAt("a 1 a 2", 0) == Ok(Member("a", Str("1"), 4))
  {
    var s := "a 1 a 2";
    BareTokenRoundTrip(s, 0, "a");
    assert WhitespaceEnd(s, 1) == 2;
    BareTokenRoundTrip(s, 2, "1");
    assert WhitespaceEnd(s, 3) == 4;
  }

  /** The second member of `a 1 a 2`. */
  lemma DuplicateSecond()
    ensures MemberAt("a 1 a 2", 4) == Ok(Member("a", Str("2"), 7))
  {
    var s := "a 1 a 2";
    BareTokenRoundTrip(s, 4, "a");
    assert WhitespaceEnd(s, 5) == 6;
    BareTokenRoundTrip(s, 6, "2");
  }

  /** A key given twice keeps the value read last. */
  lemma DuplicateKeyLastWins()
    ensures Document("a 1 a 2") == Done(Navigation.View(Some(Obj([Entry("a", Str("2"))]))))
  {
    var s := "a 1 a 2";
    assert WhitespaceEnd(s, 0) == 0;
    DuplicateFirst();
    DuplicateSecond();
    assert Insert([Entry("a", Str("1"))], "a", Str("2")) == [Entry("a", Str("2"))];
    assert DocumentFrom(s, 4, [Entry("a", Str("1"))]) == DocumentFrom(s, 7, [Entry("a", Str("2"))]);
  }

  /** A document of blanks and comments only gives an empty root. */
  lemma BlankDocument()
    ensures Document(" // a\n\t// b") == Done(Navigation.View(Some(Obj([]))))
  {
    var s := " // a\n\t// b";
    assert LineEnd(s, 8) == |s|;
    assert WhitespaceEnd(s, 7) == |s|;
    assert LineEnd(s, 3) == 5;
    assert WhitespaceEnd(s, 1) == |s|;
  }

  /**
   * A `}` where a key is expected reads as an empty key with an empty value and
   * leaves the cursor in place, so the top-level loop never ends.
   */
  lemma StrayCloseBrace()
    ensures Document("}") == Diverges(0)
  {
    var s := "}";
    assert WhitespaceEnd(s, 0) == 0;
    TokenAtBrace(s, 0);
    assert MemberAt(s, 0) == Ok(Member("", Str(""), 0));
  }

  /**
   * A key directly followed by `}` inside an Object gets an empty String
   * value, so `k{v}` is accepted.
   */
  lemma KeyBeforeCloseBrace()
    ensures Document("k{v}") ==
            Done(Navigation.View(Some(Obj([Entry("k", Obj([Entry("v", Str(""))]))]))))
  {
    var s := "k{v}";
    assert WhitespaceEnd(s, 0) == 0;
    assert ScanFrom(s, 0, false, false) == Scan(1, "k", true);
    assert TokenAt(s, 0) == Ok(Lexeme("k", 1));
    assert WhitespaceEnd(s, 1) == 1;
    assert WhitespaceEnd(s, 2) == 2;
    assert ScanFrom(s, 2, false, false) == Scan(3, "v", true);
    assert TokenAt(s, 2) == Ok(Lexeme("v", 3));
    assert WhitespaceEnd(s, 3) == 3;
    TokenAtBrace(s, 3);
    assert ValueAt(s, 3) == Ok(Parsed(Str(""), 3));
    assert MemberAt(s, 2) == Ok(Member("v", Str(""), 3));
    assert MembersFrom(s, 2, []) == Ok(Parsed(Obj([Entry("v", Str(""))]), 4));
    assert ValueAt(s, 1) == Ok(Parsed(Obj([Entry("v", Str(""))]), 4));
    assert MemberAt(s, 0) == Ok(Member("k", Obj([Entry("v", Str(""))]), 4));
  }

  /** The member inside the Object of `A{b 1}`. */
  lemma NestedMember()
    ensures MemberAt("A{b 1}", 2) == Ok(Member("b", Str("1"), 5))
  {
    var s := "A{b 1}";
    BareTokenRoundTrip(s, 2, "b");
    assert WhitespaceEnd(s, 3) == 4;
    assert ScanFrom(s, 4, false, false) == Scan(5, "1", true);
    assert TokenAt(s, 4) == Ok(Lexeme("1", 5));
    assert WhitespaceEnd(s, 5) == 5;
  }

  /** `A{b 1}` gives a root with `A` holding an Object with `b`. */
  lemma NestedDocument()
    ensures Document("A{b 1}") ==
            Done(Navigation.View(Some(Obj([Entry("A", Obj([Entry("b", Str("1"))]))]))))
  {
    var s := "A{b 1}";
    assert WhitespaceEnd(s, 0) == 0;
    assert ScanFrom(s, 0, false, false) == Scan(1, "A", true);
    assert TokenAt(s, 0) == Ok(Lexeme("A", 1));
    assert WhitespaceEnd(s, 1) == 1;
    assert WhitespaceEnd(s, 2) == 2;
    NestedMember();
    var inner := Obj([Entry("b", Str("1"))]);
    assert MembersFrom(s, 2, []) == Ok(Parsed(inner, 6));
    assert MemberAt(s, 0) == Ok(Member("A", inner, 6));
  }

  /** A nested value, reached by a chain of lookups. */
  lemma NestedLookup()
    ensures var o := Document("A{b 1}");
            o.Done? && Navigation.AsText(Navigation.Path(o.root, ["A", "b"])) == "1"
  {
    NestedDocument();
    var inner := Obj([Entry("b", Str("1"))]);
    var root := Navigation.View(Some(Obj([Entry("A", inner)])));
    assert Navigation.Index(root, "A") == Navigation.View(Some(inner));
    assert Navigation.Index(Navigation.View(Some(inner)), "b") == Navigation.View(Some(Str("1")));
    assert ["A", "b"][1..] == ["b"];
  }

  /** Input that ends where a value is expected fails at the end of the text. */
  lemma MissingValue()
    ensures Document("a") == Failed(ParseError(UnexpectedEndOfInput, 1))
  {
    var s := "a";
    BareTokenRoundTrip(s, 0, "a");
    assert MemberAt(s, 0) == Err(ParseError(UnexpectedEndOfInput, 1));
  }

  /** The first member inside the Object of `x{a 1 a 2}`. */
  lemma NestedDuplicateFirst()
    ensures MemberAt("x{a 1 a 2}", 2) == Ok(Member("a", Str("1"), 6))
  {
    var s := "x{a 1 a 2}";
    BareTokenRoundTrip(s, 2, "a");
    assert WhitespaceEnd(s, 3) == 4;
    BareTokenRoundTrip(s, 4, "1");
    assert WhitespaceEnd(s, 5) == 6;
  }

  /** The second member inside the Object of `x{a 1 a 2}`. */
  lemma NestedDuplicateSecond()
    ensures MemberAt("x{a 1 a 2}", 6) == Ok(Member("a", Str("2"), 9))
  {
    var s := "x{a 1 a 2}";
    BareTokenRoundTrip(s, 6, "a");
    assert WhitespaceEnd(s, 7) == 8;
    BareTokenRoundTrip(s, 8, "2");
    assert WhitespaceEnd(s, 9) == 9;
  }

  /** The members of the Object in `x{a 1 a 2}`. */
  lemma NestedDuplicateMembers()
    ensures MembersFrom("x{a 1 a 2}", 2, []) == Ok(Parsed(Obj([Entry("a", Str("2"))]), 10))
  {
    var s := "x{a 1 a 2}";
    NestedDuplicateFirst();
    NestedDuplicateSecond();
    assert Insert([Entry("a", Str("1"))], "a", Str("2")) == [Entry("a", Str("2"))];
    assert MembersFrom(s, 6, [Entry("a", Str("1"))]) == MembersFrom(s, 9, [Entry("a", Str("2"))]);
  }

  /** Inside an Object, too, a key given twice keeps the value read last. */
  lemma NestedDuplicateKey()
    ensures Document("x{a 1 a 2}") ==
            Done(Navigation.View(Some(Obj([Entry("x", Obj([Entry("a", Str("2"))]))]))))
  {
    var s := "x{a 1 a 2}";
    assert WhitespaceEnd(s, 0) == 0;
    assert ScanFrom(s, 0, false, false) == Scan(1, "x", true);
    assert TokenAt(s, 0) == Ok(Lexeme("x", 1));
    assert WhitespaceEnd(s, 1) == 1;
    assert WhitespaceEnd(s, 2) == 2;
    NestedDuplicateMembers();
    var inner := Obj([Entry("a", Str("2"))]);
    assert ValueAt(s, 1) == Ok(Parsed(inner, 10));
    assert MemberAt(s, 0) == Ok(Member("x", inner, 10));
  }

  /**
   * The rendering of a String, read as a whole document, is a key whose value
   * is missing.
   */
  lemma StringRenderingAsDocument()
    ensures Render(Str("x"), 0) == "\"x\""
    ensures Document(Render(Str("x"), 0)) == Failed(ParseError(UnexpectedEndOfInput, 3))
  {
    var s := "\"x\"";
    assert Spaces(0) == "";
    assert WhitespaceEnd(s, 0) == 0;
    assert ScanFrom(s, 1, true, false) == Scan(3, "x", true);
    assert TokenAt(s, 0) == Ok(Lexeme("x", 3));
    assert MemberAt(s, 0) == Err(ParseError(UnexpectedEndOfInput, 3));
  }
}
