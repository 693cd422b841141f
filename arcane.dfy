/** The "arcane" text encoding: a tokenizer that classifies ranges of the input
    into four kinds, a greedy scanner that extends each token one character at
    a time, and a grouper that splits the token stream into words. */
module Arcane {

  import Scan

  /** The four token kinds (ArcaneTokenType). */
  datatype TokenType = None | Length | LiteralText | Whitespace

  /** What a token carries: a count of characters (LENGTH) or a text
      (LITERAL_TEXT, WHITESPACE, and the empty text of NONE). */
  datatype Value = Count(count: nat) | Text(str: string)

  /** A token (ArcaneToken): its kind and its value. */
  datatype Token = Token(kind: TokenType, value: Value)

  /** A LITERAL_TEXT token carrying `s`. */
  function Literal(s: string): Token {
    Token(LiteralText, Text(s))
  }

  /** The token of an empty range. */
  const NoneToken: Token := Token(None, Text([]))

  /** A word is a run of tokens (ArcaneWord). */
  type Word = seq<Token>

  // ---------------------------------------------------------------------------
  // Character classes of JavaScript regular expressions
  // ---------------------------------------------------------------------------

  /** The characters that `.` does not match (LineTerminator). */
  predicate IsLineTerminator(c: char) {
    c == '\n' || c == '\r' || c == '\U{2028}' || c == '\U{2029}'
  }

  /** The characters matched by `\s` (WhiteSpace and LineTerminator). */
  predicate IsWhitespace(c: char) {
    c == '\t' || c == '\n' || c == '\U{000B}' || c == '\U{000C}' || c == '\r'
    || c == ' ' || c == '\U{00A0}' || c == '\U{1680}'
    || ('\U{2000}' <= c <= '\U{200A}')
    || c == '\U{2028}' || c == '\U{2029}' || c == '\U{202F}' || c == '\U{205F}'
    || c == '\U{3000}' || c == '\U{FEFF}'
  }

  // ---------------------------------------------------------------------------
  // The three regular-expression tests of getToken
  // ---------------------------------------------------------------------------

  /** `s` as a whole is one or more units, each a backslash optionally followed
      by one character other than a line terminator: the pattern `(\\.?)+`. */
  predicate IsEscapeRun(s: string)
    decreases |s|
  {
    |s| > 0 && s[0] == '\\' &&
    (|s| == 1
     || IsEscapeRun(s[1..])
     || (!IsLineTerminator(s[1]) && (|s| == 2 || IsEscapeRun(s[2..]))))
  }

  /** What `/(\\.?)+$/.test(s)` answers: some escape run ends at the end of `s`.
      The pattern is not anchored at the start, so the run may begin anywhere. */
  ghost predicate MatchesEscapeTest(s: string) {
    exists i :: 0 <= i < |s| && IsEscapeRun(s[i..])
  }

  /** The same test decided by the last two characters: `s` ends in a backslash,
      or in a backslash followed by a character other than a line terminator. */
  predicate EndsInEscape(s: string) {
    |s| > 0 &&
    (s[|s| - 1] == '\\' || (|s| > 1 && s[|s| - 2] == '\\' && !IsLineTerminator(s[|s| - 1])))
  }

  /** `/^!(\S)*$/`: a `!` followed only by non-whitespace characters. Such a
      range never ends in whitespace. */
  predicate IsBangWord(s: string): (r: bool)
    ensures r ==> !EndsInWhitespace(s)
  {
    |s| > 0 && s[0] == '!' && forall i :: 1 <= i < |s| ==> !IsWhitespace(s[i])
  }

  /** `s` is made of whitespace characters only. */
  ghost predicate AllWhitespace(s: string) {
    forall j :: 0 <= j < |s| ==> IsWhitespace(s[j])
  }

  /** What `/(\s)+$/.test(s)` answers: a non-empty run of whitespace ends at
      the end of `s`. */
  ghost predicate MatchesWhitespaceTest(s: string) {
    exists i :: 0 <= i < |s| && AllWhitespace(s[i..])
  }

  /** `/(\s)+$/` decided by the last character: the range ends in whitespace. */
  predicate EndsInWhitespace(s: string) {
    |s| > 0 && IsWhitespace(s[|s| - 1])
  }

  /** The last-character decision agrees with the regular expression on
      every string, in both directions. */
  lemma {:induction false} WhitespaceTestDecided(s: string)
    ensures MatchesWhitespaceTest(s) <==> EndsInWhitespace(s)
  {
    if MatchesWhitespaceTest(s) {
      var i :| 0 <= i < |s| && AllWhitespace(s[i..]);
      assert s[i..][|s| - 1 - i] == s[|s| - 1];
    }
    if EndsInWhitespace(s) {
      assert AllWhitespace(s[|s| - 1..]);
    }
  }

  lemma {:induction false} EscapeRunEndsInEscape(s: string)
    requires IsEscapeRun(s)
    ensures EndsInEscape(s)
    decreases |s|
  {
    if |s| > 1 && IsEscapeRun(s[1..]) {
      EscapeRunEndsInEscape(s[1..]);
    } else if |s| > 2 && IsEscapeRun(s[2..]) {
      EscapeRunEndsInEscape(s[2..]);
    }
  }

  /** The last-two-characters decision agrees with the regular expression on
      every string, in both directions. */
  lemma {:induction false} EscapeTestDecided(s: string)
    ensures MatchesEscapeTest(s) <==> EndsInEscape(s)
  {
    if MatchesEscapeTest(s) {
      var i :| 0 <= i < |s| && IsEscapeRun(s[i..]);
      EscapeRunEndsInEscape(s[i..]);
    }
    if EndsInEscape(s) {
      if s[|s| - 1] == '\\' {
        assert IsEscapeRun(s[|s| - 1..]);
      } else {
        assert IsEscapeRun(s[|s| - 2..]);
      }
    }
  }

  // ---------------------------------------------------------------------------
  // Decoding a literal range
  // ---------------------------------------------------------------------------

  /** `replace(/\\(.)?/g, '$1')`: scanning left to right, every backslash is
      dropped and the character after it is kept verbatim (even a backslash);
      a backslash before a line terminator or at the end contributes nothing. */
  function Decode(s: string): (r: string)
    ensures |r| <= |s|
    decreases |s|
  {
    if s == [] then []
    else if s[0] != '\\' then [s[0]] + Decode(s[1..])
    else if |s| > 1 && !IsLineTerminator(s[1]) then [s[1]] + Decode(s[2..])
    else Decode(s[1..])
  }

  /** Decoding a range that holds a backslash drops at least one character. */
  lemma {:induction false} DecodeShrinks(s: string, i: nat)
    requires i < |s| && s[i] == '\\'
    ensures |Decode(s)| < |s|
    decreases |s|
  {
    if s[0] != '\\' {
      DecodeShrinks(s[1..], i - 1);
    }
  }

  /** A range without backslashes decodes to itself. */
  lemma {:induction false} DecodePlain(s: string)
    requires forall i :: 0 <= i < |s| ==> s[i] != '\\'
    ensures Decode(s) == s
    decreases |s|
  {
    if s != [] {
      DecodePlain(s[1..]);
    }
  }

  /** `replace(/^!/, '')`: one leading `!` is removed. The result is a
      suffix of `s`, one character shorter exactly when `s` starts with `!`. */
  function StripBang(s: string): (r: string)
    ensures |r| <= |s|
    ensures |r| + 1 == |s| <==> |s| > 0 && s[0] == '!'
    ensures |r| == |s| <==> !(|s| > 0 && s[0] == '!')
  {
    if |s| > 0 && s[0] == '!' then s[1..] else s
  }

  /** What StripBang leaves is the end of its input. */
  lemma {:induction false} StripBangIsSuffix(s: string)
    ensures StripBang(s) == s[|s| - |StripBang(s)|..]
  {
  }

  /** The encoding of a literal text as an escape run: `\` before every
      character. It is what an author writes to get `s` verbatim. */
  function Escape(s: string): (r: string)
    ensures |r| == 2 * |s|
    ensures |s| > 0 ==> r[|r| - 2] == '\\' && r[|r| - 1] == s[|s| - 1]
    decreases |s|
  {
    if s == [] then [] else ['\\', s[0]] + Escape(s[1..])
  }

  /** Decoding undoes escaping, for every text: an escaped line terminator
      loses its backslash and is then kept as an ordinary character. */
  lemma {:induction false} DecodeEscape(s: string)
    ensures Decode(Escape(s)) == s
    decreases |s|
  {
    if s != [] {
      var e := Escape(s);
      assert e[2..] == Escape(s[1..]);
      DecodeEscape(s[1..]);
    }
  }

  // ---------------------------------------------------------------------------
  // getToken
  // ---------------------------------------------------------------------------

  function Clamp(i: int, n: nat): (r: nat)
    ensures r <= n
    ensures 0 <= i <= n ==> r == i
  {
    if i < 0 then 0 else if i > n then n else i
  }

  /** `text.substring(start, end)`: both offsets clamped to the text, swapped
      when start is past end. */
  function Substring(text: string, start: int, end: int): (r: string)
    ensures 0 <= start <= end <= |text| ==> r == text[start..end]
    ensures |r| <= |text|
  {
    var a, b := Clamp(start, |text|), Clamp(end, |text|);
    if a <= b then text[a..b] else text[b..a]
  }

  /** The kind the three tests give a non-empty range: the escape-or-word test
      comes first, then the whitespace test, and anything else is a run of
      placeholder characters. */
  function Classify(partial: string): (r: TokenType)
    ensures r != None
  {
    if EndsInEscape(partial) || IsBangWord(partial) then LiteralText
    else if EndsInWhitespace(partial) then Whitespace
    else Length
  }

  /** Classify answers as the three regular expressions do, tried in order:
      LITERAL_TEXT when the escape test or the `!` word test matches,
      WHITESPACE when neither does and the whitespace test matches, LENGTH
      when none does. */
  lemma {:induction false} ClassifyMatchesTests(partial: string)
    ensures Classify(partial) == LiteralText <==> MatchesEscapeTest(partial) || IsBangWord(partial)
    ensures Classify(partial) == Whitespace <==>
              !MatchesEscapeTest(partial) && !IsBangWord(partial) && MatchesWhitespaceTest(partial)
    ensures Classify(partial) == Length <==>
              !MatchesEscapeTest(partial) && !IsBangWord(partial) && !MatchesWhitespaceTest(partial)
  {
    EscapeTestDecided(partial);
    WhitespaceTestDecided(partial);
  }

  /** getToken: classify the half-open range [start, end) of `text`. A literal
      range is decoded, a whitespace range is kept verbatim and any other range
      is counted by its raw length. */
  function GetToken(text: string, start: int, end: int): (t: Token)
    ensures t.kind == None <==> end == start
    ensures end == start ==> t == NoneToken
  {
    if end - start == 0 then NoneToken
    else
      var partial := Substring(text, start, end);
      var kind := Classify(partial);
      Token(kind, TokenValue(kind, partial))
  }

  /** The value each kind of range carries: a LENGTH range its raw length, a
      WHITESPACE range itself, a LITERAL_TEXT range its decoding, which is
      never longer than the range. */
  function TokenValue(kind: TokenType, partial: string): (v: Value)
    ensures v.Count? <==> kind != LiteralText && kind != Whitespace
    ensures v.Count? ==> v.count == |partial|
    ensures kind == Whitespace ==> v == Text(partial)
    ensures kind == LiteralText ==> |v.str| <= |partial|
  {
    if kind == LiteralText then Text(StripBang(Decode(partial)))
    else if kind == Whitespace then Text(partial)
    else Count(|partial|)
  }

  /** The kind getToken gives the range [start, end) of the text, read off
      the characters of the text themselves: the last two decide the escape
      and whitespace tests, the first and those after it the `!` word test.
      This is Classify restated in offsets of the text rather than on the
      substring, so that proofs about growing ranges need no slicing;
      ClassifyRange proves the two agree. */
  function Kind(text: string, start: nat, end: nat): TokenType
    requires start <= end <= |text|
  {
    if start == end then None
    else if EscapeAt(text, start, end) || BangWordAt(text, start, end) then LiteralText
    else if IsWhitespace(text[end - 1]) then Whitespace
    else Length
  }

  /** The range [start, end) ends in an escape. */
  predicate EscapeAt(text: string, start: nat, end: nat)
    requires start < end <= |text|
  {
    text[end - 1] == '\\' || (end - start > 1 && text[end - 2] == '\\' && !IsLineTerminator(text[end - 1]))
  }

  /** The range [start, end) is a `!` followed only by non-whitespace. */
  predicate BangWordAt(text: string, start: nat, end: nat)
    requires start < end <= |text|
  {
    text[start] == '!' && forall j :: start < j < end ==> !IsWhitespace(text[j])
  }

  /** The token of a non-empty range inside the text. */
  function RangeToken(text: string, start: nat, end: nat): Token
    requires start < end <= |text|
  {
    var kind := Kind(text, start, end);
    Token(kind, TokenValue(kind, text[start..end]))
  }

  /** The tests read off the text agree with the tests getToken runs on the
      substring. */
  lemma {:induction false} ClassifyRange(text: string, start: nat, end: nat)
    requires start < end <= |text|
    ensures Classify(text[start..end]) == Kind(text, start, end)
  {
    var p := text[start..end];
    assert p[|p| - 1] == text[end - 1];
    assert |p| > 1 ==> p[|p| - 2] == text[end - 2];
    assert p[0] == text[start];
    assert IsBangWord(p) <==> BangWordAt(text, start, end) by {
      if p[0] == '!' {
        assert forall i :: 1 <= i < |p| ==> p[i] == text[start + i];
        if !BangWordAt(text, start, end) {
          var j :| start < j < end && IsWhitespace(text[j]);
          assert p[j - start] == text[j];
        }
      }
    }
  }

  /** Inside the text, getToken gives the range's token. */
  lemma {:induction false} GetTokenInRange(text: string, start: nat, end: nat)
    requires start < end <= |text|
    ensures GetToken(text, start, end) == RangeToken(text, start, end)
  {
    ClassifyRange(text, start, end);
  }

  /** Inside the text, getToken gives the range's kind. */
  lemma {:induction false} GetTokenKind(text: string, start: nat, end: nat)
    requires start < end <= |text|
    ensures GetToken(text, start, end).kind == Kind(text, start, end)
  {
    ClassifyRange(text, start, end);
  }

  /** The value of a token read off an in-range span: a WHITESPACE token is the
      range verbatim, a LENGTH token counts its raw characters, and a
      LITERAL_TEXT token is strictly shorter than the range (a backslash or the
      leading `!` is always dropped). */
  lemma {:induction false} TokenValues(text: string, start: nat, end: nat)
    requires start <= end <= |text|
    ensures var t := GetToken(text, start, end);
            && (t.kind == Whitespace ==> t.value.str == text[start..end] && EndsInWhitespace(t.value.str))
            && (t.kind == Length ==> t.value.count == end - start)
            && (t.kind == LiteralText ==> |t.value.str| < end - start)
  {
    var p := text[start..end];
    if start < end && (EndsInEscape(p) || IsBangWord(p)) {
      if p[|p| - 1] == '\\' {
        DecodeShrinks(p, |p| - 1);
      } else if EndsInEscape(p) {
        DecodeShrinks(p, |p| - 2);
      } else if i :| 0 <= i < |p| && p[i] == '\\' {
        DecodeShrinks(p, i);
      } else {
        DecodePlain(p);
      }
    }
  }


  /** Escaped text is literal, even when it ends in escaped whitespace: the
      escape test outranks the whitespace test. A leading escaped `!` is still
      stripped, because stripping comes after backslash removal. */
  lemma {:induction false} EscapedTextIsLiteral(s: string)
    requires |s| > 0 && !IsLineTerminator(s[|s| - 1])
    ensures GetToken(Escape(s), 0, 2 * |s|) == Literal(StripBang(s))
  {
    WholeLiteral(Escape(s));
    DecodeEscape(s);
  }

  /** A whole text that ends in an escape is one LITERAL_TEXT token. */
  lemma {:induction false} WholeLiteral(text: string)
    requires EndsInEscape(text)
    ensures GetToken(text, 0, |text|) == Literal(StripBang(Decode(text)))
  {
    assert text[0..|text|] == text;
    RangeLiteral(text, 0, |text|);
  }

  /** A range that ends in an escape is one LITERAL_TEXT token. */
  lemma {:induction false} RangeLiteral(text: string, start: nat, end: nat)
    requires start < end <= |text|
    requires EndsInEscape(text[start..end])
    ensures GetToken(text, start, end) == Literal(StripBang(Decode(text[start..end])))
  {
  }

  /** A backslash followed by a whitespace character other than a line
      terminator at the end of a range makes it LITERAL_TEXT, never
      WHITESPACE. */
  lemma {:induction false} EscapeOutranksWhitespace(text: string, start: nat, end: nat)
    requires start + 2 <= end <= |text|
    requires text[end - 2] == '\\' && IsWhitespace(text[end - 1]) && !IsLineTerminator(text[end - 1])
    ensures GetToken(text, start, end).kind == LiteralText
  {
    var p := text[start..end];
    assert p[|p| - 2] == '\\' && p[|p| - 1] == text[end - 1];
  }

  /** The escaped whitespace character is kept in the value, after the
      decoded text before it (when the backslashes before the final one
      pair up among themselves). */
  lemma {:induction false} EscapedWhitespaceKept(text: string, start: nat, end: nat)
    requires start + 2 <= end <= |text|
    requires text[end - 2] == '\\' && IsWhitespace(text[end - 1]) && !IsLineTerminator(text[end - 1])
    requires TrailingBackslashes(text[start..end - 2]) % 2 == 0
    ensures GetToken(text, start, end).value.str == StripBang(Decode(text[start..end - 2])) + [text[end - 1]]
  {
    var p, q, c := text[start..end], text[start..end - 2], text[end - 1];
    assert p == q + ['\\', c];
    RangeLiteral(text, start, end);
    DecodeAppendEscape(q, c);
    StripBangAppend(Decode(q), c);
  }

  /** Stripping the leading `!` commutes with appending a character other
      than `!`. */
  lemma {:induction false} StripBangAppend(d: string, c: char)
    requires c != '!'
    ensures StripBang(d + [c]) == StripBang(d) + [c]
  {
    if |d| > 0 {
      assert (d + [c])[0] == d[0];
      assert (d + [c])[1..] == d[1..] + [c];
    }
  }

  /** How many backslashes end `s`. Decoding pairs a run of backslashes from
      its left end, so when this count is even no backslash of `s` is left
      waiting for the character after it. */
  function TrailingBackslashes(s: string): (n: nat)
    ensures n <= |s|
    decreases |s|
  {
    if s != [] && s[|s| - 1] == '\\' then 1 + TrailingBackslashes(s[..|s| - 1]) else 0
  }

  /** The run counted by `TrailingBackslashes` is all backslashes, and the
      character just before it is not one. */
  lemma {:induction false} TrailingRun(s: string, i: nat)
    requires i < |s|
    ensures |s| - TrailingBackslashes(s) <= i ==> s[i] == '\\'
    ensures i == |s| - 1 - TrailingBackslashes(s) ==> s[i] != '\\'
    decreases |s|
  {
    if s[|s| - 1] == '\\' && i < |s| - 1 {
      var s' := s[..|s| - 1];
      assert s'[i] == s[i];
      TrailingRun(s', i);
    }
  }

  /** Dropping the first `j` characters keeps the trailing run of
      backslashes, cut to what is left. */
  lemma {:induction false} TrailingDrop(s: string, j: nat)
    requires j <= |s|
    ensures TrailingBackslashes(s[j..]) ==
              if TrailingBackslashes(s) <= |s| - j then TrailingBackslashes(s) else |s| - j
    decreases |s|
  {
    var t := s[j..];
    if t != [] && t[|t| - 1] == '\\' {
      var s' := s[..|s| - 1];
      assert t[..|t| - 1] == s'[j..];
      TrailingDrop(s', j);
    }
  }

  /** Decoding splits at any point where `s` does not end in an unpaired
      backslash: `Decode(s + t) == Decode(s) + Decode(t)`. Together with
      the decoding of single units (`\c`, `\` before a line terminator, a
      trailing `\`, a plain character) this fixes Decode on every text. */
  lemma {:induction false} DecodeConcat(s: string, t: string)
    requires TrailingBackslashes(s) % 2 == 0
    ensures Decode(s + t) == Decode(s) + Decode(t)
    decreases |s|
  {
    var u := s + t;
    if s == [] {
      assert u == t;
    } else {
      var j := if s[0] == '\\' && |s| > 1 && !IsLineTerminator(s[1]) then 2 else 1;
      UnitKeepsParity(s, j);
      assert u[j..] == s[j..] + t;
      DecodeConcat(s[j..], t);
    }
  }

  /** Dropping the first unit of `/\\(.)?/g` (an escape, or one character)
      from a range that ends in an even run of backslashes leaves a range
      that does too; a range with an even run is never a lone `\`. */
  lemma UnitKeepsParity(s: string, j: nat)
    requires s != [] && TrailingBackslashes(s) % 2 == 0
    requires j == if s[0] == '\\' && |s| > 1 && !IsLineTerminator(s[1]) then 2 else 1
    ensures s[0] == '\\' ==> |s| > 1
    ensures TrailingBackslashes(s[j..]) % 2 == 0
  {
    var n := TrailingBackslashes(s);
    LoneBackslash(s);
    if |s| > 1 || s[0] != '\\' {
      assert n <= |s| - j || (n == |s| && j == 2) by {
        TrailingRun(s, 0);
        if j == 1 && s[0] == '\\' {
          TrailingRun(s, 1);
        }
      }
      TrailingDrop(s, j);
      if n == |s| {
        EvenLess2(n, TrailingBackslashes(s[j..]));
      }
    }
  }

  /** A lone backslash is a run of one. */
  lemma LoneBackslash(s: string)
    ensures s == ['\\'] ==> TrailingBackslashes(s) == 1
  {
    if s == ['\\'] {
      assert s[..0] == [];
    }
  }

  /** Two less than an even number is even. */
  lemma EvenLess2(n: int, m: int)
    requires n % 2 == 0 && m == n - 2
    ensures m % 2 == 0
  {
  }

  /** A plain character appended after an even run of backslashes is kept. */
  lemma {:induction false} DecodeAppendPlain(s: string, c: char)
    requires c != '\\'
    requires TrailingBackslashes(s) % 2 == 0
    ensures Decode(s + [c]) == Decode(s) + [c]
  {
    DecodeConcat(s, [c]);
    assert [c][1..] == [];
  }

  /** Appending an escaped character other than a line terminator after an
      even run of backslashes appends that character to the decoded text. */
  lemma {:induction false} DecodeAppendEscape(s: string, c: char)
    requires !IsLineTerminator(c)
    requires TrailingBackslashes(s) % 2 == 0
    ensures Decode(s + ['\\', c]) == Decode(s) + [c]
  {
    DecodeConcat(s, ['\\', c]);
    assert ['\\', c][2..] == [];
  }

  /** A backslash at the end of a range, after an even run of backslashes,
      escapes nothing and adds nothing to the decoded text. */
  lemma {:induction false} DecodeDangling(s: string)
    requires TrailingBackslashes(s) % 2 == 0
    ensures Decode(s + ['\\']) == Decode(s)
  {
    DecodeConcat(s, ['\\']);
    assert ['\\'][1..] == [];
  }

  /** A backslash before a line terminator, after an even run of
      backslashes, is dropped and the line terminator is kept. */
  lemma {:induction false} DecodeBeforeTerminator(s: string, c: char)
    requires IsLineTerminator(c)
    requires TrailingBackslashes(s) % 2 == 0
    ensures Decode(s + ['\\', c]) == Decode(s) + [c]
  {
    DecodeConcat(s, ['\\', c]);
    assert ['\\', c][1..] == [c] && [c][1..] == [];
  }

  // ---------------------------------------------------------------------------
  // getNextToken
  // ---------------------------------------------------------------------------

  /** Where a token that starts at `index` and already reaches `end` stops:
      the first end at which extending by one character changes the kind, or
      the end of the text. */
  function TokenEnd(text: string, index: nat, end: nat): (e: nat)
    requires index < end <= |text|
    ensures end <= e <= |text|
    decreases |text| - end
  {
    if end == |text| || Kind(text, index, end + 1) != Kind(text, index, end) then end
    else TokenEnd(text, index, end + 1)
  }

  /** TokenEnd stops at the first change of kind: every range up to it has the
      kind of the range it started from, and one character more does not. */
  lemma {:induction false} TokenEndSpec(text: string, index: nat, end: nat)
    requires index < end <= |text|
    ensures forall k :: end <= k <= TokenEnd(text, index, end) ==> Kind(text, index, k) == Kind(text, index, end)
    ensures TokenEnd(text, index, end) == |text|
            || Kind(text, index, TokenEnd(text, index, end) + 1) != Kind(text, index, TokenEnd(text, index, end))
    decreases |text| - end
  {
    if end < |text| && Kind(text, index, end + 1) == Kind(text, index, end) {
      TokenEndSpec(text, index, end + 1);
    }
  }

  /** How many characters the token at `index` consumes: none past the end of
      the text, otherwise at least one and at most what is left. */
  function NextLength(text: string, index: nat): (n: nat)
    ensures index >= |text| ==> n == 0
    ensures index < |text| ==> 1 <= n <= |text| - index
  {
    if index >= |text| then 0 else TokenEnd(text, index, index + 1) - index
  }

  /** The token at `index` is the longest run of one kind: every prefix of it
      has the kind of its first character, and one character more would
      change the kind. */
  lemma {:induction false} NextLengthSpec(text: string, index: nat)
    requires index < |text|
    ensures forall k :: index < k <= index + NextLength(text, index) ==>
              Kind(text, index, k) == Kind(text, index, index + 1)
    ensures index + NextLength(text, index) == |text|
            || Kind(text, index, index + NextLength(text, index) + 1) != Kind(text, index, index + NextLength(text, index))
  {
    TokenEndSpec(text, index, index + 1);
  }

  /** The three properties of NextLength single it out: no other count has them. */
  lemma {:induction false} NextLengthUnique(text: string, index: nat, n: nat)
    requires index < |text|
    requires 1 <= n <= |text| - index
    requires forall k :: index < k <= index + n ==> Kind(text, index, k) == Kind(text, index, index + 1)
    requires index + n == |text| || Kind(text, index, index + n + 1) != Kind(text, index, index + n)
    ensures n == NextLength(text, index)
  {
    NextLengthSpec(text, index);
  }

  /** The token getNextToken returns at `index`: getToken of the whole run,
      or NONE past the end of the text. */
  function NextToken(text: string, index: nat): (t: Token)
    ensures index >= |text| ==> t == NoneToken
    ensures index < |text| ==> t.kind != None && t.kind == Kind(text, index, index + 1)
  {
    if index < |text| then
      NextLengthSpec(text, index);
      GetTokenKind(text, index, index + NextLength(text, index));
      GetToken(text, index, index + NextLength(text, index))
    else NoneToken
  }

  /** The token at `index` is never NONE inside the text; every prefix of its
      range has its kind, and one character more has another kind. */
  lemma {:induction false} NextTokenSpec(text: string, index: nat)
    requires index < |text|
    ensures NextToken(text, index).kind != None
    ensures forall k :: index < k <= index + NextLength(text, index) ==>
              Kind(text, index, k) == NextToken(text, index).kind
    ensures index + NextLength(text, index) == |text|
            || Kind(text, index, index + NextLength(text, index) + 1) != NextToken(text, index).kind
  {
    NextLengthSpec(text, index);
  }

  /** Inside the text, the token at `index` is what getToken gives for the
      range it consumes, and getToken gives a token of another kind for the
      range one character longer. */
  lemma {:induction false} NextTokenIsGetToken(text: string, index: nat)
    requires index < |text|
    ensures NextToken(text, index) == GetToken(text, index, index + NextLength(text, index))
    ensures index + NextLength(text, index) < |text| ==>
              GetToken(text, index, index + NextLength(text, index) + 1).kind != NextToken(text, index).kind
  {
    RunChangesToken(text, index);
  }

  /** getToken of the range one character longer than the run has another
      kind. */
  lemma {:induction false} RunChangesToken(text: string, index: nat)
    requires index < |text|
    ensures index + NextLength(text, index) < |text| ==>
              GetToken(text, index, index + NextLength(text, index) + 1).kind != Kind(text, index, index + 1)
  {
    var e := index + NextLength(text, index);
    if e < |text| {
      RunStops(text, index);
      GetTokenKind(text, index, e + 1);
      KindsDiffer(GetToken(text, index, e + 1).kind, Kind(text, index, e + 1), Kind(text, index, index + 1));
    }
  }

  /** Two kinds that are equal differ from the same third kind. */
  lemma {:induction false} KindsDiffer(a: TokenType, b: TokenType, c: TokenType)
    requires a == b && b != c
    ensures a != c
  {
  }

  /** One character past the run the kind is another. */
  lemma {:induction false} RunStops(text: string, index: nat)
    requires index < |text|
    ensures index + NextLength(text, index) < |text| ==>
              Kind(text, index, index + NextLength(text, index) + 1) != Kind(text, index, index + 1)
  {
    var e := index + NextLength(text, index);
    NextLengthSpec(text, index);
    assert Kind(text, index, e) == Kind(text, index, index + 1);
  }

  /** A run whose extension loop has stopped at `e` is the token at `index`. */
  lemma {:induction false} RunEndsAt(text: string, index: nat, e: nat)
    requires index < e <= |text|
    requires TokenEnd(text, index, index + 1) == TokenEnd(text, index, e)
    requires e == |text| || Kind(text, index, e + 1) != Kind(text, index, e)
    ensures NextLength(text, index) == e - index
    ensures NextToken(text, index) == GetToken(text, index, e)
  {
    assert TokenEnd(text, index, e) == e;
  }

  /** While the kind stays the same the loop's stopping point does not move. */
  lemma {:induction false} RunExtends(text: string, index: nat, e: nat)
    requires index < e < |text|
    requires Kind(text, index, e + 1) == Kind(text, index, e)
    ensures TokenEnd(text, index, e) == TokenEnd(text, index, e + 1)
  {
  }

  /** In an escaped text, every even offset holds a backslash and the offset
      after it the character that backslash escapes. */
  lemma {:induction false} EscapedChars(s: string, j: nat)
    requires j < |s|
    ensures 2 * j + 1 < |Escape(s)| && Escape(s)[2 * j] == '\\' && Escape(s)[2 * j + 1] == s[j]
    decreases j
  {
    var e := Escape(s);
    assert e == ['\\', s[0]] + Escape(s[1..]);
    if j > 0 {
      EscapedChars(s[1..], j - 1);
      assert e[2 * j] == Escape(s[1..])[2 * (j - 1)];
      assert e[2 * j + 1] == Escape(s[1..])[2 * (j - 1) + 1];
    }
  }

  /** Every non-empty prefix of an escaped text without line terminators
      ends in an escape, so it is LITERAL_TEXT. */
  lemma {:induction false} EscapedPrefix(s: string, k: nat)
    requires forall i :: 0 <= i < |s| ==> !IsLineTerminator(s[i])
    requires 0 < k <= 2 * |s|
    ensures Kind(Escape(s), 0, k) == LiteralText
  {
    var e := Escape(s);
    if k % 2 == 1 {
      EscapedChars(s, (k - 1) / 2);
      assert e[k - 1] == '\\';
    } else {
      EscapedChars(s, k / 2 - 1);
      assert e[k - 2] == '\\' && e[k - 1] == s[k / 2 - 1];
    }
  }

  /** A fully escaped text without line terminators is one token:
      getNextToken consumes all of it and returns the original text as
      LITERAL_TEXT, a leading `!` stripped. */
  lemma {:induction false} EscapedTextIsOneToken(s: string)
    requires |s| > 0 && forall i :: 0 <= i < |s| ==> !IsLineTerminator(s[i])
    ensures NextLength(Escape(s), 0) == 2 * |s|
    ensures NextToken(Escape(s), 0) == Literal(StripBang(s))
  {
    var e := Escape(s);
    forall k | 0 < k <= |e|
      ensures Kind(e, 0, k) == Kind(e, 0, 1)
    {
      EscapedPrefix(s, k);
      EscapedPrefix(s, 1);
    }
    NextLengthUnique(e, 0, |e|);
    NextTokenIsGetToken(e, 0);
    EscapedTextIsLiteral(s);
  }

  /** getNextToken: extend the range [index, end) one character at a time
      until its kind changes or `end` passes the end of the text, and return
      the last token before that together with the number of characters it
      covers. */
  method GetNextToken(text: string, index: nat) returns (token: Token, consumed: nat)
    ensures token == NextToken(text, index)
    ensures consumed == NextLength(text, index)
    ensures index >= |text| ==> token == NoneToken && consumed == 0
    ensures index < |text| ==> 1 <= consumed <= |text| - index
  {
    var last := NoneToken;
    var end := index + 1;
    ghost var lastEnd := index;  // `last` is the token of [index, lastEnd)
    while true
      invariant index <= lastEnd && end == lastEnd + 1
      invariant lastEnd == index ==> last == NoneToken
      invariant lastEnd > index ==>
                  lastEnd <= |text| && last == GetToken(text, index, lastEnd)
                  && last.kind == Kind(text, index, lastEnd)
                  && TokenEnd(text, index, index + 1) == TokenEnd(text, index, lastEnd)
      decreases |text| - lastEnd
    {
      // Past the end of the text the range is clamped by Substring; that
      // token is computed as in the source and then discarded. The source
      // tests the change of kind and the end of the text in one condition;
      // both ways out return the same pair, assigned after the loop.
      var current := GetToken(text, index, end);
      if end > |text| {
        if lastEnd > index {
          RunEndsAt(text, index, lastEnd);
        }
        break;
      }
      GetTokenKind(text, index, end);
      if last.kind != None && current.kind != last.kind {
        RunEndsAt(text, index, lastEnd);
        break;
      }
      if lastEnd > index {
        RunExtends(text, index, lastEnd);
      }
      last := current;
      lastEnd := end;
      end := end + 1;
    }
    token, consumed := last, end - 1 - index;
  }



  // ---------------------------------------------------------------------------
  // getAllTokens
  // ---------------------------------------------------------------------------

  /** getAllTokens scans the text with getNextToken: at each offset it moves
      on by what getNextToken consumes there ... */
  function Step(text: string): nat -> nat {
    (i: nat) => NextLength(text, i)
  }

  /** ... and keeps the token getNextToken returns there. */
  function Item(text: string): nat -> Token {
    (i: nat) => NextToken(text, i)
  }

  /** Every step of the scan consumes at least one character, and no more
      than are left. */
  lemma {:induction false} StepAdvances(text: string)
    ensures Scan.Advances(Step(text), |text|)
  {
    forall i: nat | i < |text|
      ensures 0 < Step(text)(i) <= |text| - i
    {
      assert Step(text)(i) == NextLength(text, i);
    }
  }

  /** The offsets at which successive tokens start, followed by the length of
      the text. */
  function Cuts(text: string): (c: seq<nat>)
    ensures |c| > 0 && c[0] == 0 && c[|c| - 1] == |text|
  {
    StepAdvances(text);
    Scan.Offsets(Step(text), |text|, 0)
  }

  /** The full token sequence of `text`: one token between each two
      consecutive cuts. */
  function AllTokens(text: string): (ts: seq<Token>)
    ensures |ts| == |Cuts(text)| - 1
    ensures |ts| == 0 <==> |text| == 0
  {
    StepAdvances(text);
    Scan.Collect(Step(text), Item(text), |text|, 0)
  }

  /** The counts getNextToken reports as consumed while getAllTokens scans
      the text, one per token. */
  function ConsumedCounts(text: string): (c: seq<nat>)
    ensures |c| == |AllTokens(text)|
  {
    StepAdvances(text);
    Scan.Collect(Step(text), Step(text), |text|, 0)
  }

  /** Coverage: each consumed count is the distance between two consecutive
      cuts, and together they add up to the length of the text. */
  lemma {:induction false} ConsumedCoversText(text: string)
    ensures Scan.Sum(ConsumedCounts(text)) == |text|
    ensures forall k :: 0 <= k < |ConsumedCounts(text)| ==>
              0 < ConsumedCounts(text)[k] && Cuts(text)[k] + ConsumedCounts(text)[k] == Cuts(text)[k + 1]
  {
    StepAdvances(text);
    Scan.StepsSum(Step(text), |text|, 0);
    forall k | 0 <= k < |ConsumedCounts(text)|
      ensures 0 < ConsumedCounts(text)[k] && Cuts(text)[k] + ConsumedCounts(text)[k] == Cuts(text)[k + 1]
    {
      TokenAt(text, k);
      Scan.CollectAt(Step(text), Step(text), |text|, 0, k);
    }
  }

  /** The cuts are the one chain from 0 to the end of the text in which each
      cut is followed by itself plus what getNextToken consumes there. */
  lemma {:induction false} CutsAre(text: string, c: seq<nat>)
    requires |c| > 0 && c[0] == 0 && c[|c| - 1] == |text|
    requires forall k :: 0 <= k < |c| - 1 ==> c[k] < |text| && c[k + 1] == c[k] + NextLength(text, c[k])
    ensures Cuts(text) == c
  {
    StepAdvances(text);
    Scan.OffsetsAre(Step(text), |text|, 0, c);
  }

  /** Token `k` of the text is what getNextToken returns at cut `k`, and it
      consumes exactly the characters up to cut `k + 1`. */
  lemma {:induction false} TokenAt(text: string, k: nat)
    requires k < |AllTokens(text)|
    ensures Cuts(text)[k] < Cuts(text)[k + 1] <= |text|
    ensures Cuts(text)[k + 1] == Cuts(text)[k] + NextLength(text, Cuts(text)[k])
    ensures AllTokens(text)[k] == NextToken(text, Cuts(text)[k])
  {
    StepAdvances(text);
    Scan.OffsetsStep(Step(text), |text|, 0, k);
    Scan.CollectAt(Step(text), Item(text), |text|, 0, k);
  }

  /** Token `k` of the text is what getToken gives for the range between
      cuts `k` and `k + 1`. */
  lemma {:induction false} TokenRange(text: string, k: nat)
    requires k < |AllTokens(text)|
    ensures Cuts(text)[k] < Cuts(text)[k + 1] <= |text|
    ensures AllTokens(text)[k] == GetToken(text, Cuts(text)[k], Cuts(text)[k + 1])
  {
    TokenAt(text, k);
    GetTokenInRange(text, Cuts(text)[k], Cuts(text)[k + 1]);
  }

  /** The scan reaches the end of the text at its last cut and nowhere before. */
  lemma {:induction false} LastCut(text: string, k: nat)
    requires k < |Cuts(text)|
    ensures Cuts(text)[k] == |text| <==> k == |Cuts(text)| - 1
  {
    if k < |Cuts(text)| - 1 {
      TokenAt(text, k);
    }
  }

  /** getAllTokens never emits NONE. */
  lemma {:induction false} AllTokensHaveKinds(text: string)
    ensures forall k :: 0 <= k < |AllTokens(text)| ==> AllTokens(text)[k].kind != None
  {
    forall k | 0 <= k < |AllTokens(text)|
      ensures AllTokens(text)[k].kind != None
    {
      TokenAt(text, k);
    }
  }

  /** If every prefix of [a, b) is WHITESPACE, every character of it is whitespace. */
  lemma {:induction false} WhitespaceRange(text: string, a: nat, b: nat)
    requires a < b <= |text|
    requires forall k :: a < k <= b ==> Kind(text, a, k) == Whitespace
    ensures IsWhitespaceRange(text, a, b)
  {
    forall j | a <= j < b
      ensures IsWhitespace(text[j])
    {
      assert Kind(text, a, j + 1) == Whitespace;
    }
  }

  /** If every prefix of [a, b) is LENGTH, the range holds no backslash and no
      whitespace, and does not start with `!`. */
  lemma {:induction false} PlainRange(text: string, a: nat, b: nat)
    requires a < b <= |text|
    requires forall k :: a < k <= b ==> Kind(text, a, k) == Length
    ensures IsPlainRange(text, a, b)
  {
    forall j | a <= j < b
      ensures text[j] != '\\' && !IsWhitespace(text[j])
    {
      assert Kind(text, a, j + 1) == Length;
    }
    assert Kind(text, a, a + 1) == Length;
  }

  /** [a, b) is a non-empty range of the text made only of whitespace. */
  predicate IsWhitespaceRange(text: string, a: nat, b: nat) {
    a < b <= |text| && forall j :: a <= j < b ==> IsWhitespace(text[j])
  }

  /** [a, b) is a non-empty range of the text holding no backslash and no
      whitespace, whose first character is not `!`. */
  predicate IsPlainRange(text: string, a: nat, b: nat) {
    a < b <= |text| && text[a] != '!'
    && forall j :: a <= j < b ==> text[j] != '\\' && !IsWhitespace(text[j])
  }

  /** A WHITESPACE token that getNextToken returns carries the raw characters
      it consumed, and they are all whitespace. */
  lemma {:induction false} NextWhitespaceToken(text: string, index: nat)
    requires index < |text| && NextToken(text, index).kind == Whitespace
    ensures NextToken(text, index).value == Text(text[index..index + NextLength(text, index)])
    ensures IsWhitespaceRange(text, index, index + NextLength(text, index))
  {
    NextTokenSpec(text, index);
    WhitespaceRange(text, index, index + NextLength(text, index));
  }

  /** A LENGTH token that getNextToken returns counts the characters it
      consumed, and they form a plain range. */
  lemma {:induction false} NextLengthToken(text: string, index: nat)
    requires index < |text| && NextToken(text, index).kind == Length
    ensures NextToken(text, index).value == Count(NextLength(text, index))
    ensures IsPlainRange(text, index, index + NextLength(text, index))
  {
    NextTokenSpec(text, index);
    PlainRange(text, index, index + NextLength(text, index));
  }

  /** A WHITESPACE token getNextToken returns is never followed by another:
      it only stops before a character that is not whitespace. */
  lemma {:induction false} NextWhitespaceStops(text: string, index: nat, next: nat)
    requires index < next < |text| && next == index + NextLength(text, index)
    ensures NextToken(text, index).kind == Whitespace ==> NextToken(text, next).kind != Whitespace
  {
    if NextToken(text, index).kind == Whitespace {
      NextTokenSpec(text, index);
      WhitespaceStops(text, index, next);
    }
  }

  /** A WHITESPACE token of the text carries the raw characters between its
      cuts, and they are all whitespace. */
  lemma {:induction false} WhitespaceTokenAt(text: string, k: nat)
    requires k < |AllTokens(text)| && AllTokens(text)[k].kind == Whitespace
    ensures IsWhitespaceRange(text, Cuts(text)[k], Cuts(text)[k + 1])
    ensures AllTokens(text)[k].value == Text(text[Cuts(text)[k]..Cuts(text)[k + 1]])
  {
    TokenAt(text, k);
    NextWhitespaceToken(text, Cuts(text)[k]);
  }

  /** Every WHITESPACE token of the text is the whitespace between its cuts. */
  lemma {:induction false} WhitespaceTokensAreWhitespace(text: string)
    ensures forall k :: 0 <= k < |AllTokens(text)| && AllTokens(text)[k].kind == Whitespace ==>
              IsWhitespaceRange(text, Cuts(text)[k], Cuts(text)[k + 1])
              && AllTokens(text)[k].value == Text(text[Cuts(text)[k]..Cuts(text)[k + 1]])
  {
    forall k | 0 <= k < |AllTokens(text)| && AllTokens(text)[k].kind == Whitespace
      ensures IsWhitespaceRange(text, Cuts(text)[k], Cuts(text)[k + 1])
      ensures AllTokens(text)[k].value == Text(text[Cuts(text)[k]..Cuts(text)[k + 1]])
    {
      WhitespaceTokenAt(text, k);
    }
  }

  /** A LENGTH token of the text counts the characters between its cuts, and
      they form a plain range. */
  lemma {:induction false} LengthTokenAt(text: string, k: nat)
    requires k < |AllTokens(text)| && AllTokens(text)[k].kind == Length
    ensures IsPlainRange(text, Cuts(text)[k], Cuts(text)[k + 1])
    ensures AllTokens(text)[k].value == Count(Cuts(text)[k + 1] - Cuts(text)[k])
  {
    TokenAt(text, k);
    NextLengthToken(text, Cuts(text)[k]);
  }

  /** Every LENGTH token of the text counts the plain range between its cuts. */
  lemma {:induction false} LengthTokensArePlain(text: string)
    ensures forall k :: 0 <= k < |AllTokens(text)| && AllTokens(text)[k].kind == Length ==>
              IsPlainRange(text, Cuts(text)[k], Cuts(text)[k + 1])
              && AllTokens(text)[k].value == Count(Cuts(text)[k + 1] - Cuts(text)[k])
  {
    forall k | 0 <= k < |AllTokens(text)| && AllTokens(text)[k].kind == Length
      ensures IsPlainRange(text, Cuts(text)[k], Cuts(text)[k + 1])
      ensures AllTokens(text)[k].value == Count(Cuts(text)[k + 1] - Cuts(text)[k])
    {
      LengthTokenAt(text, k);
    }
  }

  /** getAllTokens never yields two WHITESPACE tokens in a row. */
  lemma {:induction false} NoAdjacentWhitespace(text: string)
    ensures forall k :: 0 <= k < |AllTokens(text)| - 1 ==>
              !(AllTokens(text)[k].kind == Whitespace && AllTokens(text)[k + 1].kind == Whitespace)
  {
    forall k | 0 <= k < |AllTokens(text)| - 1
      ensures !(AllTokens(text)[k].kind == Whitespace && AllTokens(text)[k + 1].kind == Whitespace)
    {
      NoAdjacentWhitespaceAt(text, k);
    }
  }

  lemma {:induction false} NoAdjacentWhitespaceAt(text: string, k: nat)
    requires k < |AllTokens(text)| - 1
    ensures !(AllTokens(text)[k].kind == Whitespace && AllTokens(text)[k + 1].kind == Whitespace)
  {
    TokenAt(text, k);
    TokenAt(text, k + 1);
    CutWhitespaceStops(text, k);
  }

  /** The token getNextToken returns at cut `k + 1` is not WHITESPACE when
      the one at cut `k` is. */
  lemma {:induction false} CutWhitespaceStops(text: string, k: nat)
    requires k < |AllTokens(text)| - 1
    ensures NextToken(text, Cuts(text)[k]).kind == Whitespace ==> NextToken(text, Cuts(text)[k + 1]).kind != Whitespace
  {
    StepAdvances(text);
    Scan.OffsetsStep(Step(text), |text|, 0, k);
    Scan.OffsetsStep(Step(text), |text|, 0, k + 1);
    NextWhitespaceStops(text, Cuts(text)[k], Cuts(text)[k + 1]);
  }

  /** A WHITESPACE run whose extension by one character is no longer
      WHITESPACE is followed by a token that is not WHITESPACE either. */
  lemma {:induction false} WhitespaceStops(text: string, a: nat, b: nat)
    requires a < b < |text|
    requires forall k :: a < k <= b ==> Kind(text, a, k) == Whitespace
    requires Kind(text, a, b + 1) != Whitespace
    ensures Kind(text, b, b + 1) != Whitespace
  {
    WhitespaceRange(text, a, b);
    WhitespaceExtension(text, a, b);
  }

  /** A run of whitespace whose extension by one character is no longer
      WHITESPACE was extended by a character that is not whitespace. */
  lemma {:induction false} WhitespaceExtension(text: string, a: nat, b: nat)
    requires a < b < |text|
    requires forall j :: a <= j < b ==> IsWhitespace(text[j])
    requires Kind(text, a, b + 1) != Whitespace
    ensures !IsWhitespace(text[b])
  {
    assert IsWhitespace(text[b - 1]);
  }

  /** The prefix of `all` of length `m + 1` extends the prefix of length `m`
      by element `m`. */
  lemma {:induction false} PrefixGrows(all: seq<Token>, m: nat)
    requires m < |all|
    ensures all[..m + 1] == all[..m] + [all[m]]
  {
  }

  /** getAllTokens: call getNextToken from offset 0 until the text is used up,
      keeping every token that is not NONE. */
  method GetAllTokens(text: string) returns (tokens: seq<Token>)
    ensures tokens == AllTokens(text)
  {
    ghost var all, cuts := AllTokens(text), Cuts(text);
    tokens := [];
    var index: nat := 0;
    while true
      invariant |tokens| < |cuts| && index == cuts[|tokens|]
      invariant index < |text| || index == |text| == 0
      invariant tokens == all[..|tokens|]
      decreases |text| - index
    {
      var token, consumed := GetNextToken(text, index);
      if index < |text| {
        LastCut(text, |tokens|);
        TokenAt(text, |tokens|);
      }
      if token.kind != None {
        PrefixGrows(all, |tokens|);
        tokens := tokens + [token];
      }
      index := index + consumed;
      if !(index < |text|) {
        LastCut(text, |tokens|);
        break;
      }
    }
    assert all[..|all|] == all;
  }


  // ---------------------------------------------------------------------------
  // parseWords
  // ---------------------------------------------------------------------------

  /** The tokens of the words, in order. */
  function Flatten(words: seq<Word>): seq<Token> {
    if words == [] then [] else words[0] + Flatten(words[1..])
  }

  lemma {:induction false} FlattenAppend(words: seq<Word>, w: Word)
    ensures Flatten(words + [w]) == Flatten(words) + w
  {
    if words != [] {
      assert (words + [w])[1..] == words[1..] + [w];
      FlattenAppend(words[1..], w);
    }
  }

  /** A word made of exactly one WHITESPACE token. */
  predicate IsWhitespaceWord(w: Word) {
    |w| == 1 && w[0].kind == Whitespace
  }

  /** A word parseWords can produce: a lone WHITESPACE token, or a non-empty
      run of tokens none of which is WHITESPACE. */
  predicate IsWord(w: Word) {
    |w| > 0 && (IsWhitespaceWord(w) || forall j :: 0 <= j < |w| ==> w[j].kind != Whitespace)
  }

  /** Every word is a word, and no two neighbouring words are both runs. */
  predicate WellGrouped(words: seq<Word>) {
    && (forall i :: 0 <= i < |words| ==> IsWord(words[i]))
    && (forall i :: 0 <= i < |words| - 1 ==> IsWhitespaceWord(words[i]) || IsWhitespaceWord(words[i + 1]))
  }

  /** `words` is the grouping of `tokens` that parseWords produces: the words
      flatten back to the tokens and are well grouped. */
  predicate IsWordPartition(tokens: seq<Token>, words: seq<Word>) {
    Flatten(words) == tokens && WellGrouped(words)
  }

  /** The number of tokens before the first WHITESPACE token. */
  function RunLength(tokens: seq<Token>): (n: nat)
    ensures n <= |tokens|
  {
    if tokens == [] || tokens[0].kind == Whitespace then 0 else 1 + RunLength(tokens[1..])
  }

  /** RunLength is the one count whose tokens are all non-WHITESPACE and that
      stops at a WHITESPACE token or at the end. */
  lemma {:induction false} RunLengthIs(tokens: seq<Token>, m: nat)
    requires m <= |tokens|
    requires forall j :: 0 <= j < m ==> tokens[j].kind != Whitespace
    requires m == |tokens| || tokens[m].kind == Whitespace
    ensures RunLength(tokens) == m
    decreases m
  {
    if m > 0 {
      assert forall j :: 0 <= j < m - 1 ==> tokens[1..][j] == tokens[j + 1];
      RunLengthIs(tokens[1..], m - 1);
    }
  }

  /** How long the first word of a partition of `tokens` is. */
  function FirstWordLength(tokens: seq<Token>): nat {
    if tokens != [] && tokens[0].kind == Whitespace then 1 else RunLength(tokens)
  }

  /** In a partition the first word is fixed by the tokens alone, and the
      other words partition the tokens after it. */
  lemma {:induction false} FirstWord(tokens: seq<Token>, words: seq<Word>)
    requires IsWordPartition(tokens, words) && words != []
    ensures 0 < |words[0]| == FirstWordLength(tokens) <= |tokens|
    ensures words[0] == tokens[..|words[0]|]
    ensures IsWordPartition(tokens[|words[0]|..], words[1..])
  {
    var w, rest := words[0], words[1..];
    assert tokens == w + Flatten(rest);
    assert IsWord(w);
    if !IsWhitespaceWord(w) {
      if |words| > 1 {
        assert IsWhitespaceWord(words[1]);
        assert Flatten(rest) == rest[0] + Flatten(rest[1..]);
        assert tokens[|w|] == words[1][0];
      }
      RunLengthIs(tokens, |w|);
    }
    assert tokens[|w|..] == Flatten(rest);
    forall i | 0 <= i < |rest| - 1
      ensures IsWhitespaceWord(rest[i]) || IsWhitespaceWord(rest[i + 1])
    {
      assert rest[i] == words[i + 1] && rest[i + 1] == words[i + 2];
    }
  }

  /** The grouping is determined by the tokens: two partitions of the same
      tokens are the same words. */
  lemma {:induction false} WordPartitionUnique(tokens: seq<Token>, w1: seq<Word>, w2: seq<Word>)
    requires IsWordPartition(tokens, w1) && IsWordPartition(tokens, w2)
    ensures w1 == w2
    decreases |tokens|
  {
    if w1 != [] && w2 != [] {
      FirstWord(tokens, w1);
      FirstWord(tokens, w2);
      WordPartitionUnique(tokens[|w1[0]|..], w1[1..], w2[1..]);
      assert w1 == [w1[0]] + w1[1..];
      assert w2 == [w2[0]] + w2[1..];
    }
  }

  /** parseWords: group the tokens of a non-empty text into words. The source
      reads the first token before checking the length, so on an empty text it
      would fail; the only caller passes a non-empty text. */
  method ParseWords(text: string) returns (words: seq<Word>)
    requires |text| > 0
    ensures IsWordPartition(AllTokens(text), words)
    ensures |words| > 0
  {
    var tokens := GetAllTokens(text);
    words := GroupWords(tokens);
  }

  /** The loop of parseWords: a WHITESPACE token closes the word being built
      and forms a word of its own; every other token joins the current word. */
  method GroupWords(tokens: seq<Token>) returns (words: seq<Word>)
    requires |tokens| > 0
    ensures IsWordPartition(tokens, words)
    ensures |words| > 0
  {
    words := [];
    var index := 0;
    var current: Word := [];
    while true
      invariant 0 <= index < |tokens|
      invariant Grouped(tokens[..index], words, current)
      decreases |tokens| - index
    {
      var token := tokens[index];
      PrefixGrows(tokens, index);
      if token.kind == Whitespace {
        if |current| != 0 {
          CloseRun(tokens[..index], words, current);
          words := words + [current];
          current := [];
        }
        AddWhitespace(tokens[..index], words, token);
        words := words + [[token]];
      } else {
        ExtendRun(tokens[..index], words, current, token);
        current := current + [token];
      }
      index := index + 1;
      if !(index < |tokens|) {
        break;
      }
    }
    assert tokens[..index] == tokens;
    if |current| != 0 {
      CloseRun(tokens, words, current);
      words := words + [current];
    }
    Finished(tokens, words);
  }

  /** The state of parseWords' loop after reading `prefix`: the words so far
      and the word being built hold exactly the tokens read; the words are
      well grouped, the last of them is a whitespace word, and the word being
      built holds no WHITESPACE token. */
  predicate Grouped(prefix: seq<Token>, words: seq<Word>, current: Word) {
    && Flatten(words) + current == prefix
    && WellGrouped(words)
    && (|words| > 0 ==> IsWhitespaceWord(words[|words| - 1]))
    && forall j :: 0 <= j < |current| ==> current[j].kind != Whitespace
  }

  /** A non-WHITESPACE token joins the word being built. */
  lemma {:induction false} ExtendRun(prefix: seq<Token>, words: seq<Word>, current: Word, t: Token)
    requires Grouped(prefix, words, current) && t.kind != Whitespace
    ensures Grouped(prefix + [t], words, current + [t])
  {
    assert Flatten(words) + (current + [t]) == (Flatten(words) + current) + [t];
  }

  /** Closing a non-empty run of non-WHITESPACE tokens after a whitespace word
      (or at the start) keeps the words well grouped and the tokens in order;
      afterwards the new last word is the run, so only a WHITESPACE token
      may follow. */
  lemma {:induction false} CloseRun(prefix: seq<Token>, words: seq<Word>, current: Word)
    requires Grouped(prefix, words, current) && |current| > 0
    ensures WellGrouped(words + [current])
    ensures Flatten(words + [current]) == prefix
  {
    assert IsWord(current);
    FlattenAppend(words, current);
  }

  /** A WHITESPACE token after a closed run (or at the start, or after
      another whitespace word) becomes a word of its own. */
  lemma {:induction false} AddWhitespace(prefix: seq<Token>, words: seq<Word>, t: Token)
    requires Flatten(words) == prefix && WellGrouped(words) && t.kind == Whitespace
    ensures Grouped(prefix + [t], words + [[t]], [])
  {
    assert IsWhitespaceWord([t]);
    FlattenAppend(words, [t]);
  }

  /** Once every token is read and the last run closed, the words partition
      the tokens. */
  lemma {:induction false} Finished(tokens: seq<Token>, words: seq<Word>)
    requires |tokens| > 0 && Flatten(words) == tokens && WellGrouped(words)
    ensures IsWordPartition(tokens, words) && |words| > 0
  {
  }

}
