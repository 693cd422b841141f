/** Concrete inputs from the repository's unit tests, checked against the
    model. */
module ArcaneExamples {

  import opened Arcane

  /** The token sequence is read off the cuts: token `k` is what getToken
      gives for the range between cuts `k` and `k + 1`. */
  lemma SixTokens(text: string, c: seq<nat>, t0: Token, t1: Token, t2: Token, t3: Token, t4: Token, t5: Token)
    requires Cuts(text) == c && |c| == 7
    requires GetToken(text, c[0], c[1]) == t0 && GetToken(text, c[1], c[2]) == t1
    requires GetToken(text, c[2], c[3]) == t2 && GetToken(text, c[3], c[4]) == t3
    requires GetToken(text, c[4], c[5]) == t4 && GetToken(text, c[5], c[6]) == t5
    ensures AllTokens(text) == [t0, t1, t2, t3, t4, t5]
  {
    TokenRange(text, 0);
    TokenRange(text, 1);
    TokenRange(text, 2);
    TokenRange(text, 3);
    TokenRange(text, 4);
    TokenRange(text, 5);
  }

  /** A range that starts with no `!` and ends in a plain character is
      counted. */
  lemma CountedRange(text: string, start: nat, end: nat)
    requires start < end <= |text|
    requires text[start] != '!' && text[end - 1] != '\\' && !IsWhitespace(text[end - 1])
    requires end - start == 1 || text[end - 2] != '\\'
    ensures GetToken(text, start, end) == Token(Length, Count(end - start))
  {
    GetTokenInRange(text, start, end);
  }

  /** A range that starts with no `!` and ends in an unescaped whitespace
      character is kept verbatim. */
  lemma SpaceRange(text: string, start: nat, end: nat)
    requires start < end <= |text|
    requires text[start] != '!' && IsWhitespace(text[end - 1])
    requires end - start == 1 || text[end - 2] != '\\'
    ensures GetToken(text, start, end) == Token(Whitespace, Text(text[start..end]))
  {
    GetTokenInRange(text, start, end);
  }

  lemma EmptyRangeIsNone()
    ensures GetToken("", 0, 0) == NoneToken
  {
  }

  lemma PlainTextIsCounted()
    ensures GetToken("Hello", 0, 5) == Token(Length, Count(5))
  {
  }

  lemma EscapesAreDecoded()
    ensures GetToken("\\n\\t\\r", 0, 6) == Literal("ntr")
  {
    assert Escape("ntr") == "\\n\\t\\r";
    EscapedTextIsLiteral("ntr");
  }

  lemma SpacesAreWhitespace()
    ensures GetToken("   ", 0, 3) == Token(Whitespace, Text("   "))
  {
    assert "   "[0..3] == "   ";
  }

  lemma FirstTokenOfSum()
    ensures NextToken("5 + 2 * 3", 0) == Token(Length, Count(1))
  {
  }

  lemma NothingInEmptyText()
    ensures NextToken("", 0) == NoneToken
  {
  }

  /** Every prefix of a `!` followed by non-whitespace is a `!` word. */
  lemma BangWordRun(text: string, start: nat, end: nat)
    requires start < end <= |text| && text[start] == '!'
    requires forall j :: start < j < end ==> !IsWhitespace(text[j])
    ensures forall k :: start < k <= end ==> Kind(text, start, k) == LiteralText
  {
    forall k | start < k <= end
      ensures Kind(text, start, k) == LiteralText
    {
      assert BangWordAt(text, start, k);
    }
  }

  lemma BangWordIsLiteral(text: string)
    requires text == "!visible"
    ensures NextToken(text, 0) == Literal("visible")
  {
    BangWordToken(text);
    assert text[1..] == "visible";
  }

  /** `!\ab`: a `!` word with an escape inside. The escape gives `a`, the
      plain `b` after it is kept, and the `!` is stripped. */
  lemma BangWordWithEscape(text: string)
    requires text == "!\\ab"
    ensures NextToken(text, 0) == Literal("ab")
  {
    BangWordLength(text);
    NextTokenIsGetToken(text, 0);
    assert BangWordAt(text, 0, 4);
    GetTokenInRange(text, 0, 4);
    assert text[0..4] == "!\\a" + ['b'];
    BangEscapeDecodes();
  }

  lemma BangEscapeDecodes()
    ensures StripBang(Decode("!\\ab")) == "ab"
  {
    assert Decode("!\\a") == "!a" by {
      DecodePlain("!");
      assert "!" + ['\\', 'a'] == "!\\a";
      DecodeAppendEscape("!", 'a');
    }
    assert Decode("!\\ab") == Decode("!\\a") + ['b'] by {
      assert "!\\a" + ['b'] == "!\\ab";
      DecodeAppendPlain("!\\a", 'b');
    }
  }

  /** A whole text that is a `!` word without backslashes is one token: the
      literal text after the `!`. */
  lemma BangWordToken(text: string)
    requires |text| > 0 && text[0] == '!'
    requires forall j :: 0 < j < |text| ==> !IsWhitespace(text[j]) && text[j] != '\\'
    ensures NextToken(text, 0) == Literal(text[1..])
  {
    BangWordLength(text);
    BangWordWhole(text);
  }

  lemma BangWordLength(text: string)
    requires |text| > 0 && text[0] == '!'
    requires forall j :: 0 < j < |text| ==> !IsWhitespace(text[j])
    ensures NextLength(text, 0) == |text|
  {
    BangWordRun(text, 0, |text|);
    NextLengthUnique(text, 0, |text|);
  }

  lemma BangWordWhole(text: string)
    requires |text| > 0 && text[0] == '!'
    requires forall j :: 0 < j < |text| ==> !IsWhitespace(text[j]) && text[j] != '\\'
    ensures GetToken(text, 0, |text|) == Literal(text[1..])
  {
    assert BangWordAt(text, 0, |text|);
    PlainBangWord(text, 0, |text|);
    assert text[1..|text|] == text[1..];
  }

  /** A `!` word without backslashes is the literal text after the `!`. */
  lemma PlainBangWord(text: string, start: nat, end: nat)
    requires start < end <= |text| && Kind(text, start, end) == LiteralText
    requires text[start] == '!' && forall j :: start < j < end ==> text[j] != '\\'
    ensures GetToken(text, start, end) == Literal(text[start + 1..end])
  {
    var p := text[start..end];
    assert forall i :: 0 <= i < |p| ==> p[i] == text[start + i];
    PlainBangDecodes(p);
    GetTokenInRange(text, start, end);
    assert p[1..] == text[start + 1..end];
  }

  lemma PlainBangDecodes(p: string)
    requires |p| > 0 && p[0] == '!' && forall i :: 0 <= i < |p| ==> p[i] != '\\'
    ensures StripBang(Decode(p)) == p[1..]
  {
    DecodePlain(p);
  }

  lemma BangInsideWordIsCounted()
    ensures NextToken("test!", 0) == Token(Length, Count(5))
  {
  }

  lemma EscapedLiteralStopsAtWhitespace()
    ensures NextToken("\\1\\4   \\3asdf asdf asdf", 0) == Literal("14")
  {
    var text := "\\1\\4   \\3asdf asdf asdf";
    forall k | 0 < k <= 4
      ensures Kind(text, 0, k) == Kind(text, 0, 1)
    {
      assert EscapeAt(text, 0, k);
    }
    assert Kind(text, 0, 5) != Kind(text, 0, 4);
    NextLengthUnique(text, 0, 4);
    assert text[0..4] == Escape("14");
    DecodeEscape("14");
  }

  /** Leading spaces form a WHITESPACE token of their own, which the escape
      after them does not extend. */
  lemma WhitespaceIsSeparated(text: string)
    requires text == "  \\1 asdf"
    ensures NextToken(text, 0) == Token(Whitespace, Text("  "))
  {
    forall k | 0 < k <= 2 ensures Kind(text, 0, k) == Kind(text, 0, 1) { }
    assert Kind(text, 0, 3) != Kind(text, 0, 2);
    NextLengthUnique(text, 0, 2);
    assert text[0..2] == "  ";
  }

  lemma EscapedSpacesAreLiteral()
    ensures NextToken("\\t\\ \\ \\t", 0) == Literal("t  t")
  {
    assert Escape("t") == "\\t";
    assert Escape(" t") == "\\ \\t";
    assert Escape("  t") == "\\ \\ \\t";
    assert Escape("t  t") == "\\t\\ \\ \\t";
    EscapedTextIsOneToken("t  t");
  }

  /** `\t\ `, the start of the escaped-spaces test: an escaped space after
      a completed escape is kept in the value. */
  lemma EscapedSpaceAfterEscape(text: string)
    requires text == "\\t\\ "
    ensures GetToken(text, 0, 4) == Literal("t ")
  {
    EscapeOutranksWhitespace(text, 0, 4);
    EscapedWhitespaceKept(text, 0, 4);
    assert text[0..2] == Escape("t");
    DecodeEscape("t");
  }

  /** `  asdf` is two spaces, then four plain characters. */
  lemma IndentedWordRuns(text: string)
    requires text == "  asdf"
    ensures NextLength(text, 0) == 2 && NextLength(text, 2) == 4
  {
    forall k | 0 < k <= 2 ensures Kind(text, 0, k) == Kind(text, 0, 1) { }
    assert Kind(text, 0, 3) != Kind(text, 0, 2);
    NextLengthUnique(text, 0, 2);
    forall k | 2 < k <= 6 ensures Kind(text, 2, k) == Kind(text, 2, 3) { }
    NextLengthUnique(text, 2, 4);
  }

  lemma IndentedWordTokens(text: string)
    requires text == "  asdf"
    ensures AllTokens(text) == [Token(Whitespace, Text("  ")), Token(Length, Count(4))]
  {
    IndentedWordRuns(text);
    CutsAre(text, [0, 2, 6]);
    TokenRange(text, 0);
    TokenRange(text, 1);
    assert text[0..2] == "  " && text[2..6] == "asdf";
  }

  /** A single word is the grouping of its own tokens. */
  lemma OneWord(w: Word)
    requires IsWord(w)
    ensures IsWordPartition(w, [w])
  {
    FlattenAppend([], w);
    assert [] + [w] == [w];
  }

  /** Two words, one of them a lone WHITESPACE token, are the grouping of
      their tokens. */
  lemma TwoWords(w0: Word, w1: Word)
    requires IsWord(w0) && IsWord(w1)
    requires IsWhitespaceWord(w0) || IsWhitespaceWord(w1)
    ensures IsWordPartition(w0 + w1, [w0, w1])
  {
    FlattenAppend([], w0);
    FlattenAppend([w0], w1);
    assert [] + [w0] == [w0] && [w0] + [w1] == [w0, w1];
  }

  /** parseWords("  asdf"): the whitespace word, then the counted word. */
  lemma IndentedWordGroups(text: string, words: seq<Word>)
    requires text == "  asdf"
    requires IsWordPartition(AllTokens(text), words)
    ensures words == [[Token(Whitespace, Text("  "))], [Token(Length, Count(4))]]
  {
    IndentedWordTokens(text);
    var w0, w1 := [Token(Whitespace, Text("  "))], [Token(Length, Count(4))];
    TwoWords(w0, w1);
    WordPartitionUnique(w0 + w1, words, [w0, w1]);
  }

  /** `\\1\\4asdf` is two escapes, then four plain characters. */
  lemma EscapedWordRuns(text: string)
    requires text == "\\1\\4asdf"
    ensures NextLength(text, 0) == 4 && NextLength(text, 4) == 4
  {
    forall k | 0 < k <= 4 ensures Kind(text, 0, k) == Kind(text, 0, 1) { }
    assert Kind(text, 0, 5) != Kind(text, 0, 4);
    NextLengthUnique(text, 0, 4);
    forall k | 4 < k <= 8 ensures Kind(text, 4, k) == Kind(text, 4, 5) { }
    NextLengthUnique(text, 4, 4);
  }

  lemma EscapedWordTokens(text: string)
    requires text == "\\1\\4asdf"
    ensures AllTokens(text) == [Literal("14"), Token(Length, Count(4))]
  {
    EscapedWordRuns(text);
    CutsAre(text, [0, 4, 8]);
    TokenRange(text, 0);
    TokenRange(text, 1);
    EscapedWordValues(text);
  }

  lemma EscapedWordValues(text: string)
    requires text == "\\1\\4asdf"
    ensures GetToken(text, 0, 4) == Literal("14") && GetToken(text, 4, 8) == Token(Length, Count(4))
  {
    assert text[0..4] == Escape("14") && text[4..8] == "asdf";
    DecodeEscape("14");
  }

  /** parseWords("\\1\\4asdf"): one word holding the literal and the count. */
  lemma EscapedWordGroups(text: string, words: seq<Word>)
    requires text == "\\1\\4asdf"
    requires IsWordPartition(AllTokens(text), words)
    ensures words == [[Literal("14"), Token(Length, Count(4))]]
  {
    EscapedWordTokens(text);
    var w := [Literal("14"), Token(Length, Count(4))];
    assert IsWord(w);
    OneWord(w);
    WordPartitionUnique(w, words, [w]);
  }

  /** `!visible\\d` is one run: every prefix of it is a `!` word. */
  lemma EscapedWordIsOneRun(text: string)
    requires text == "!visible\\d"
    ensures NextLength(text, 0) == 10
  {
    BangWordRun(text, 0, 10);
    NextLengthUnique(text, 0, 10);
  }

  lemma EscapedWordContinues(text: string)
    requires text == "!visible\\d"
    ensures NextToken(text, 0) == Literal("visibled")
  {
    EscapedWordIsOneRun(text);
    WholeLiteral(text);
    EscapedWordDecodes(text);
  }

  lemma EscapedWordDecodes(text: string)
    requires text == "!visible\\d"
    ensures StripBang(Decode(text)) == "visibled"
  {
    var w := "!visible";
    assert Decode(text) == w + ['d'] by {
      assert text == w + ['\\', 'd'];
      assert Decode(w) == w by {
        DecodePlain(w);
      }
      PlainThenEscape(w, 'd');
    }
    assert StripBang(w + ['d']) == "visibled";
  }

  /** An escape after a range that decodes to itself and ends in a plain
      character is kept as the escaped character. */
  lemma PlainThenEscape(w: string, c: char)
    requires Decode(w) == w && (w == [] || w[|w| - 1] != '\\')
    requires !IsLineTerminator(c)
    ensures Decode(w + ['\\', c]) == w + [c]
  {
    assert TrailingBackslashes(w) == 0;
    DecodeAppendEscape(w, c);
  }

  /** Called on its own, getToken only looks at how the range ends: a range
      ending in an escape is literal whatever comes before. */
  lemma UnanchoredEscapeTest()
    ensures GetToken("ab\\c", 0, 4) == Literal("abc")
  {
    var text := "ab\\c";
    assert text == "ab" + ['\\', 'c'] && |text| == 4;
    WholeLiteral(text);
    DecodePlain("ab");
    DecodeAppendEscape("ab", 'c');
    assert Decode(text) == "abc";
    assert StripBang("abc") == "abc";
    assert GetToken(text, 0, |text|) == Literal("abc");
  }

  /** The `!` is stripped after the backslashes are removed, so an escaped
      leading `!` is stripped too. */
  lemma EscapedBangStripped()
    ensures GetToken("\\!\\a", 0, 4) == Literal("a")
  {
    var text := "\\!\\a";
    assert text[0..4] == text;
    assert text[2..] == "\\a" && "\\a"[2..] == [];
    assert Decode(text) == "!a";
  }

  /** A lone `!` before whitespace is an empty literal. */
  lemma LoneBangIsEmptyLiteral()
    ensures NextToken("! x", 0) == Literal("")
  {
    var text := "! x";
    assert IsWhitespace(text[1]);
    assert Kind(text, 0, 2) != Kind(text, 0, 1);
    NextLengthUnique(text, 0, 1);
  }

  /** A trailing lone backslash is an empty literal. */
  lemma TrailingBackslashIsEmptyLiteral()
    ensures NextToken("ab\\", 2) == Literal("")
  {
    NextLengthUnique("ab\\", 2, 1);
  }

  /** Two literals in a row stay two tokens. */
  lemma AdjacentLiteralsNotMerged(text: string)
    requires text == "\\a!"
    ensures AllTokens(text) == [Literal("a"), Literal("")]
  {
    AdjacentLiteralRuns(text);
    CutsAre(text, [0, 2, 3]);
    TokenRange(text, 0);
    TokenRange(text, 1);
    AdjacentLiteralValues(text);
  }

  /** `\\a` is one run, which `!` does not continue; `!` is another. */
  lemma AdjacentLiteralRuns(text: string)
    requires text == "\\a!"
    ensures NextLength(text, 0) == 2 && NextLength(text, 2) == 1
  {
    assert Kind(text, 0, 1) == Kind(text, 0, 2) == LiteralText;
    assert Kind(text, 0, 3) == Length;
    NextLengthUnique(text, 0, 2);
    NextLengthUnique(text, 2, 1);
  }

  lemma AdjacentLiteralValues(text: string)
    requires text == "\\a!"
    ensures GetToken(text, 0, 2) == Literal("a") && GetToken(text, 2, 3) == Literal("")
  {
    assert text[0..2] == Escape("a") && text[2..3] == "!";
    DecodeEscape("a");
  }

  /** The text of the getAllTokens unit test. */
  const Sample: string := "\\1\\4   \\3test hi"

  /** The token at offset 0 of Sample is `\\1\\4`, a run of escapes. */
  lemma SampleRun0(text: string)
    requires text == Sample
    ensures NextLength(text, 0) == 4
  {
    forall k | 0 < k <= 4 ensures Kind(text, 0, k) == Kind(text, 0, 1) { }
    assert Kind(text, 0, 5) != Kind(text, 0, 4);
    NextLengthUnique(text, 0, 4);
  }

  /** The token at offset 4 of Sample is the three spaces. */
  lemma SampleRun4(text: string)
    requires text == Sample
    ensures NextLength(text, 4) == 3
  {
    forall k | 4 < k <= 7 ensures Kind(text, 4, k) == Kind(text, 4, 5) { }
    assert Kind(text, 4, 8) != Kind(text, 4, 7);
    NextLengthUnique(text, 4, 3);
  }

  /** The token at offset 7 of Sample is `\\3`, which `t` does not continue. */
  lemma SampleRun7(text: string)
    requires text == Sample
    ensures NextLength(text, 7) == 2
  {
    forall k | 7 < k <= 9 ensures Kind(text, 7, k) == Kind(text, 7, 8) { }
    assert Kind(text, 7, 10) != Kind(text, 7, 9);
    NextLengthUnique(text, 7, 2);
  }

  /** The token at offset 9 of Sample is `test`. */
  lemma SampleRun9(text: string)
    requires text == Sample
    ensures NextLength(text, 9) == 4
  {
    forall k | 9 < k <= 13 ensures Kind(text, 9, k) == Kind(text, 9, 10) { }
    assert Kind(text, 9, 14) != Kind(text, 9, 13);
    NextLengthUnique(text, 9, 4);
  }

  /** The token at offset 13 of Sample is the single space. */
  lemma SampleRun13(text: string)
    requires text == Sample
    ensures NextLength(text, 13) == 1
  {
    assert Kind(text, 13, 15) != Kind(text, 13, 14);
    NextLengthUnique(text, 13, 1);
  }

  /** The token at offset 14 of Sample is `hi`, up to the end. */
  lemma SampleRun14(text: string)
    requires text == Sample
    ensures NextLength(text, 14) == 2
  {
    forall k | 14 < k <= 16 ensures Kind(text, 14, k) == Kind(text, 14, 15) { }
    NextLengthUnique(text, 14, 2);
  }

  /** The cuts of Sample: where getAllTokens calls getNextToken. */
  lemma SampleCuts(text: string)
    requires text == Sample
    ensures Cuts(text) == [0, 4, 7, 9, 13, 14, 16]
  {
    SampleRun0(text);
    SampleRun4(text);
    SampleRun7(text);
    SampleRun9(text);
    SampleRun13(text);
    SampleRun14(text);
    CutsAre(text, [0, 4, 7, 9, 13, 14, 16]);
  }

  /** The literal tokens of Sample decode their escapes. */
  lemma SampleLiterals(text: string)
    requires text == Sample
    ensures GetToken(text, 0, 4) == Literal("14") && GetToken(text, 7, 9) == Literal("3")
  {
    assert text[0..4] == Escape("14");
    DecodeEscape("14");
    assert text[7..9] == Escape("3");
    DecodeEscape("3");
  }

  /** The whitespace tokens of Sample keep their spaces. */
  lemma SampleSpaces(text: string)
    requires text == Sample
    ensures GetToken(text, 4, 7) == Token(Whitespace, Text("   "))
    ensures GetToken(text, 13, 14) == Token(Whitespace, Text(" "))
  {
    SpaceRange(text, 4, 7);
    SpaceRange(text, 13, 14);
    assert text[4..7] == "   " && text[13..14] == " ";
  }

  /** The plain tokens of Sample count their characters. */
  lemma SampleCounts(text: string)
    requires text == Sample
    ensures GetToken(text, 9, 13) == Token(Length, Count(4))
    ensures GetToken(text, 14, 16) == Token(Length, Count(2))
  {
    CountedRange(text, 9, 13);
    CountedRange(text, 14, 16);
  }

  /** getAllTokens("\\1\\4   \\3test hi"): "14", "   ", "3", 4, " ", 2. */
  lemma SampleTokens(text: string)
    requires text == Sample
    ensures AllTokens(text) == [Literal("14"), Token(Whitespace, Text("   ")), Literal("3"),
                                Token(Length, Count(4)), Token(Whitespace, Text(" ")), Token(Length, Count(2))]
  {
    SampleCuts(text);
    SampleLiterals(text);
    SampleSpaces(text);
    SampleCounts(text);
    SixTokens(text, [0, 4, 7, 9, 13, 14, 16], Literal("14"), Token(Whitespace, Text("   ")), Literal("3"),
              Token(Length, Count(4)), Token(Whitespace, Text(" ")), Token(Length, Count(2)));
  }
}
