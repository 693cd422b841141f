# Arcane text encoding — a Dafny model

This project models the "arcane" encoding of the arcane-obfuscate plugin (`src/arcane.ts`).
An author writes a short string that mixes four things:
- literal text, written as `\X` escapes or as a `!word`;
- whitespace;
- runs of plain characters, which the renderer replaces by as many animated placeholder glyphs.

The core has two parts:

- **The tokenizer.**
  - `getToken` classifies one half-open range of the text as one of four kinds: NONE, LENGTH, LITERAL_TEXT or WHITESPACE.
  - It runs three regular-expression tests in priority order. A LITERAL_TEXT range is decoded: each backslash is dropped and the character after it kept, then one leading `!` is stripped.
  - `getNextToken` extends a range one character at a time. It stops at the first change of kind and returns the last stable token with the count of characters it consumed.
  - `getAllTokens` repeats `getNextToken` until the text is used up.
- **The word grouper.**
  - `parseWords` partitions the token list into words.
  - Every WHITESPACE token becomes a word of its own. The runs of other tokens between them become the other words.

Files:

- `arcane.dfy` (module `Arcane`) contains:
  - the token datatypes;
  - the JavaScript character classes `\s` (`IsWhitespace`) and the line terminators that `.` excludes (`IsLineTerminator`);
  - the three tests, `Decode`/`StripBang`, and `GetToken` as a function;
  - `GetNextToken`, `GetAllTokens` and `ParseWords`/`GroupWords` as methods with loops, proved against the specification functions `NextToken`/`NextLength`, `AllTokens`/`Cuts` and `IsWordPartition`;
  - the lemmas about those functions.
- `scan.dfy` (module `Scan`): a generic left-to-right scan in steps of at least one character. `getAllTokens` is an instance of it. The module gives the offsets the scan visits, the items it emits, and the fact that the steps add up to the input length.
- `arcane_examples.dfy` (module `ArcaneExamples`): the inputs of the repository's unit tests, and the quirks of the encoding, proved about the model.

How the regular expressions are modelled:

- `/(\\.?)+$/` is not anchored at the start. `MatchesEscapeTest` states it literally: some suffix of the range is a run of `\` or `\`+non-line-terminator units. `EndsInEscape` decides it from the last two characters, and `EscapeTestDecided` proves the two agree.
- `/^!(\S)*$/` is `IsBangWord`.
- `/(\s)+$/` only needs the last character to be whitespace, which is `EndsInWhitespace`.
- `replace(/\\(.)?/g, '$1')` is `Decode`. A backslash followed by a line terminator, or at the end, is removed. The line terminator after it stays in the text.
- `replace(/^!/, '')` is `StripBang`.
- `text.substring` clamps and swaps its offsets. `Substring` does the same. This lets `GetNextToken` call `GetToken` past the end of the text, as the source does, and discard the result.

Behaviour of the source that the model keeps as written:

- **Empty input to `parseWords`.** `parseWords` reads `tokens[0]` before it checks the length (src/arcane.ts:106-109), so it throws on an empty text. `ParseWords` and `GroupWords` require non-empty input. The only caller passes a non-empty match of `/~(.+)~/` (src/main.ts:22).
- **Line terminators.** A `\` before a line terminator is not an escape for the literal test, because `.` does not match a line terminator. When decoding, that backslash is dropped and the line terminator is kept as an ordinary character.
- **Re-classifying loop.** The model follows the code's loop, which classifies the whole range again on every extension.

## Model

| member | source | states |
|---|---|---|
| `Arcane.IsLineTerminator` | src/arcane.ts:27-29 | The characters `.` does not match: line feed, carriage return, U+2028 and U+2029. After a `\` they make the escape test fail and are kept by decoding. |
| `Arcane.IsWhitespace` | src/arcane.ts:39 | The characters JavaScript's `\s` matches, and `\S` at src/arcane.ts:27 excludes, within the Basic Multilingual Plane: the WhiteSpace and LineTerminator sets, U+FEFF included. |
| `Arcane.EscapeTestDecided` | src/arcane.ts:27 | The unanchored test `/(\\.?)+$/` (some suffix is an escape run) holds exactly when the range ends in `\`, or in `\` followed by a character other than a line terminator. Both directions are proved. |
| `Arcane.MatchesEscapeTest` | src/arcane.ts:27 | Defines what `/(\\.?)+$/.test` answers: some suffix of the range is a run of `\` or `\`+non-line-terminator units. It is the reference for `EscapeTestDecided`. |
| `Arcane.TokenType` | src/arcane.ts:8-13 | The four token kinds NONE, LENGTH, LITERAL_TEXT and WHITESPACE. |
| `Arcane.Value` | src/arcane.ts:5 | The source's value, a number or a string, split by kind: `Count` for the number of a LENGTH token, `Text` for the string of the other kinds. |
| `Arcane.Token` | src/arcane.ts:3-6 | A token is a kind and a value. |
| `Arcane.Word` | src/arcane.ts:1 | A word is a sequence of tokens. |
| `Arcane.EndsInEscape` | src/arcane.ts:27 | The escape test as the model runs it: the range ends in `\`, or in `\` plus a character other than a line terminator. `EscapeTestDecided` proves it equal to the regular expression. |
| `Arcane.IsBangWord` | src/arcane.ts:27 | `/^!(\S)*$/`: a `!` followed only by non-whitespace. Such a range never ends in whitespace. |
| `Arcane.MatchesWhitespaceTest` | src/arcane.ts:39 | Defines what `/(\s)+$/.test` answers: a non-empty all-whitespace suffix ends the range. It is the reference for `WhitespaceTestDecided`. |
| `Arcane.EndsInWhitespace` | src/arcane.ts:39 | The whitespace test as the model runs it: the last character is whitespace. |
| `Arcane.WhitespaceTestDecided` | src/arcane.ts:39 | The last-character test agrees with `/(\s)+$/` on every string, in both directions. |
| `Arcane.Classify` | src/arcane.ts:27-49 | A non-empty range always gets a kind other than NONE. |
| `Arcane.ClassifyMatchesTests` | src/arcane.ts:27-49 | The kind is what the regular expressions give in priority order. It is LITERAL_TEXT exactly when the escape or `!` word test matches. It is WHITESPACE exactly when neither matches and the whitespace test does. It is LENGTH exactly when none matches. |
| `Arcane.Decode` | src/arcane.ts:29 | Decoding never lengthens the range. Decoding splits at every point that follows an even run of backslashes (`DecodeConcat`). Together with the unit lemmas, that fixes `Decode` on every text. A plain character is kept (`DecodePlain`, `DecodeAppendPlain`). An escape `\c` gives `c` (`DecodeAppendEscape`). A trailing `\` gives nothing (`DecodeDangling`). A `\` before a line terminator is dropped and the terminator kept (`DecodeBeforeTerminator`). A fully escaped text decodes to itself (`DecodeEscape`). Any backslash shortens the range (`DecodeShrinks`). |
| `Arcane.TrailingRun` | src/arcane.ts:29 | `TrailingBackslashes` counts the run of `\` that ends a range: every character in the run is `\`, and the character before it is not. |
| `Arcane.DecodeConcat` | src/arcane.ts:29 | When the first range ends in an even run of backslashes (none at all counts), `Decode(s + t) == Decode(s) + Decode(t)`. No unit of `/\\(.)?/g` spans that boundary. |
| `Arcane.DecodeAppendPlain` | src/arcane.ts:29 | A character other than `\`, appended to a range that ends in an even run of backslashes, is appended to its decoding. |
| `Arcane.StripBang` | src/arcane.ts:30 | The result is one character shorter than the input exactly when the input starts with `!`, and the same length otherwise. |
| `Arcane.StripBangIsSuffix` | src/arcane.ts:30 | The result is the end of the input: nothing but the leading `!` is removed. |
| `Arcane.TokenValue` | src/arcane.ts:28-49 | LENGTH carries a count equal to the raw length. WHITESPACE carries the range verbatim. LITERAL_TEXT carries a text no longer than the range. Only LENGTH carries a count. |
| `Arcane.Substring` | src/arcane.ts:24 | Inside the text, the substring is exactly `text[start..end]`. For any offsets, it is no longer than the text. |
| `Arcane.GetToken` | src/arcane.ts:15-50 | The token is NONE exactly when the range is empty, and then it is the NONE token with value "". |
| `Arcane.ClassifyRange` | src/arcane.ts:27-49 | Inside the text, the priority-ordered tests on the substring give the kind read off the text itself. Order: escape or `!` word, then trailing whitespace, then LENGTH. |
| `Arcane.GetTokenInRange` | src/arcane.ts:20-49 | Inside the text, getToken returns that kind together with its value. |
| `Arcane.TokenValues` | src/arcane.ts:28-49 | A WHITESPACE value is the raw range, ending in whitespace. A LENGTH value is `end - start`. A LITERAL_TEXT value is strictly shorter than its range, because a backslash or the leading `!` is always removed. |
| `Arcane.DecodeEscape` | src/arcane.ts:29 | Decoding undoes escaping: `Decode(Escape(s)) == s` for every text. An escaped line terminator loses its backslash and is kept as an ordinary character. |
| `Arcane.DecodePlain` | src/arcane.ts:29 | A range without backslashes decodes to itself. |
| `Arcane.DecodeShrinks` | src/arcane.ts:29 | A range holding a backslash decodes to something strictly shorter. |
| `Arcane.DecodeAppendEscape` | src/arcane.ts:29 | Appending `\c`, with `c` not a line terminator, to a range that ends in an even run of backslashes appends `c` to its decoding. This includes ranges ending in a completed escape such as `\a` or `\\`. |
| `Arcane.DecodeDangling` | src/arcane.ts:29 | A `\` appended to a range that ends in an even run of backslashes contributes nothing: `(.)?` matches the empty string and `$1` is "". |
| `Arcane.DecodeBeforeTerminator` | src/arcane.ts:29 | A `\` followed by a line terminator, appended to a range that ends in an even run of backslashes, is dropped and the line terminator is kept, because `.` does not match it. |
| `Arcane.StripBangAppend` | src/arcane.ts:30 | Stripping the leading `!` commutes with appending any character other than `!`. |
| `Arcane.EscapedTextIsLiteral` | src/arcane.ts:27-35 | A fully escaped text whose last character is not a line terminator is one LITERAL_TEXT token with the original text as its value. A leading `!` is still stripped, because stripping comes after backslash removal. |
| `Arcane.RangeLiteral` | src/arcane.ts:27-35 | A range ending in an escape is LITERAL_TEXT, valued `StripBang(Decode(range))`. |
| `Arcane.WholeLiteral` | src/arcane.ts:27-35 | A whole text ending in an escape is LITERAL_TEXT, valued `StripBang(Decode(text))`. |
| `Arcane.EscapeOutranksWhitespace` | src/arcane.ts:27-44 | A range ending in `\` plus a whitespace character other than a line terminator is LITERAL_TEXT, never WHITESPACE: the escape test has priority. |
| `Arcane.EscapedWhitespaceKept` | src/arcane.ts:27-35 | A range ends in `\` plus a whitespace character other than a line terminator, and the backslashes before that `\` form an even run. Then the escaped whitespace character is appended to the decoded value of the range before it. This covers `\t\ ` and `!` words such as `!ab\ `, which gives "ab ". |
| `Arcane.TokenEnd` | src/arcane.ts:59-75 | Where the extension loop stops, starting from a given end: never before that end and never past the text. |
| `Arcane.TokenEndSpec` | src/arcane.ts:59-75 | The extension loop's stopping point: every longer range up to it keeps the starting kind, and one character more changes it (or the text ends). |
| `Arcane.NextLength` | src/arcane.ts:56-75 | The count getNextToken consumes: 0 past the end of the text, otherwise at least 1 and no more than what is left. |
| `Arcane.NextLengthSpec` | src/arcane.ts:56-75 | The consumed run is maximal: all its prefixes share the first character's kind, and it ends at the text's end or before a change of kind. |
| `Arcane.NextLengthUnique` | src/arcane.ts:56-75 | Those properties single out the consumed count: no other count has them. |
| `Arcane.NextToken` | src/arcane.ts:56-75 | The token getNextToken returns: getToken of the consumed run, NONE (value "") past the end of the text. Inside the text it is never NONE and has the kind of its first character. |
| `Arcane.NextTokenSpec` | src/arcane.ts:56-75 | Inside the text, the next token is never NONE, its kind is the kind of every prefix of its range, and one character more has another kind. |
| `Arcane.EscapedTextIsOneToken` | src/arcane.ts:56-75 | getNextToken consumes a whole fully escaped text without line terminators in one token. It is LITERAL_TEXT holding the original text, a leading `!` stripped. |
| `Arcane.NextTokenIsGetToken` | src/arcane.ts:60-70 | The next token equals getToken on the range it consumes. getToken on the range one character longer gives another kind. |
| `Arcane.GetNextToken` | src/arcane.ts:52-76 | Returns exactly `NextToken` and `NextLength`: the maximal run at the offset and its length. Inside the text it consumes at least one character and no more than are left. Past the end (the empty text included) it returns NONE with 0 consumed. |
| `Arcane.ConsumedCoversText` | src/arcane.ts:82-90 | The consumed counts are positive, each is the gap between consecutive cuts, and together they add up to the length of the text. |
| `Scan.StepsSum` | src/arcane.ts:82-90 | The steps of a scan from `index` add up to the distance to the end of the input. |
| `Arcane.Cuts` | src/arcane.ts:80-90 | The offsets at which getAllTokens calls getNextToken, followed by the length of the text. They start at 0 and end at the length of the text. |
| `Arcane.CutsAre` | src/arcane.ts:80-90 | Any chain from 0 to the length of the text in which each offset is followed by itself plus what getNextToken consumes there is the cuts. |
| `Scan.OffsetsAre` | src/arcane.ts:80-90 | The same uniqueness for any scan whose steps advance. |
| `Arcane.AllTokens` | src/arcane.ts:78-93 | One token between each two consecutive cuts. It is empty exactly when the text is empty. |
| `Arcane.TokenAt` | src/arcane.ts:82-90 | Token `k` is what getNextToken returns at cut `k`. The next cut is cut `k` plus the count consumed there. |
| `Arcane.TokenRange` | src/arcane.ts:82-90 | Token `k` is getToken on the range between cuts `k` and `k+1`. |
| `Arcane.LastCut` | src/arcane.ts:90 | The scan reaches the end of the text at its last cut and nowhere before. |
| `Arcane.AllTokensHaveKinds` | src/arcane.ts:85-87 | getAllTokens never emits a NONE token. |
| `Arcane.GetAllTokens` | src/arcane.ts:78-93 | The loop returns exactly `AllTokens(text)`: one token per step of the scan, cut by cut. |
| `Arcane.WhitespaceTokensAreWhitespace` | src/arcane.ts:39-44 | Every WHITESPACE token of the text holds exactly the raw range between its cuts, and every character of that range is whitespace. |
| `Arcane.LengthTokensArePlain` | src/arcane.ts:46-49 | Every LENGTH token counts the characters between its cuts. That range holds no `\` and no whitespace, and does not start with `!`. |
| `Arcane.NoAdjacentWhitespace` | src/arcane.ts:100-101 | getAllTokens never yields two WHITESPACE tokens in a row. |
| `Arcane.FlattenAppend` | src/arcane.ts:112-125 | Adding a word at the end adds its tokens at the end of the flattened sequence. |
| `Arcane.FirstWord` | src/arcane.ts:103-127 | In any grouping, the first word is fixed by the tokens: a lone WHITESPACE token, or the run before the first WHITESPACE token. The remaining words group the rest. |
| `Arcane.WordPartitionUnique` | src/arcane.ts:95-128 | Two groupings of the same tokens are equal, so the parseWords contract determines its result. |
| `Arcane.GroupWords` | src/arcane.ts:103-127 | For a non-empty token list, the result is non-empty and flattens back to the tokens. Every word is a lone WHITESPACE token or a non-empty run without WHITESPACE. No two neighbouring words are both runs. |
| `Arcane.ParseWords` | src/arcane.ts:95-128 | For a non-empty text, the words are that grouping of `AllTokens(text)`. |
| `ArcaneExamples.EmptyRangeIsNone` | src/arcane.test.ts:10-15 | `getToken('', 0, 0)` is NONE with value "". |
| `ArcaneExamples.PlainTextIsCounted` | src/arcane.test.ts:17-22 | `getToken('Hello', 0, 5)` is LENGTH 5. |
| `ArcaneExamples.EscapesAreDecoded` | src/arcane.test.ts:24-29 | `\n\t\r` is LITERAL_TEXT "ntr". |
| `ArcaneExamples.SpacesAreWhitespace` | src/arcane.test.ts:31-36 | Three spaces are WHITESPACE "   ". |
| `ArcaneExamples.FirstTokenOfSum` | src/arcane.test.ts:40-45 | The first token of `5 + 2 * 3` is LENGTH 1. |
| `ArcaneExamples.NothingInEmptyText` | src/arcane.test.ts:47-52 | On the empty text, getNextToken gives NONE "". |
| `ArcaneExamples.EscapedLiteralStopsAtWhitespace` | src/arcane.test.ts:54-59 | `\1\4   \3asdf asdf asdf` starts with LITERAL_TEXT "14". |
| `ArcaneExamples.WhitespaceIsSeparated` | src/arcane.test.ts:61-66 | getNextToken on `  \1 asdf` gives WHITESPACE "  ". |
| `ArcaneExamples.EscapedSpacesAreLiteral` | src/arcane.test.ts:68-73 | `\t\ \ \t` is one LITERAL_TEXT "t  t". |
| `ArcaneExamples.EscapedSpaceAfterEscape` | src/arcane.test.ts:68-73 | `\t\ `, the start of that test, is LITERAL_TEXT "t ": the escaped space after a completed escape is kept. |
| `ArcaneExamples.BangWordWithEscape` | src/arcane.ts:27-35 | `!\ab` is LITERAL_TEXT "ab": the escape gives `a`, the plain `b` after it is kept, and the `!` is stripped. |
| `ArcaneExamples.BangWordIsLiteral` | src/arcane.test.ts:75-80 | `!visible` is LITERAL_TEXT "visible". |
| `ArcaneExamples.EscapedWordContinues` | src/arcane.test.ts:82-87 | `!visible\d` is one LITERAL_TEXT "visibled". |
| `ArcaneExamples.BangInsideWordIsCounted` | src/arcane.test.ts:89-94 | `test!` is LENGTH 5. |
| `ArcaneExamples.SampleTokens` | src/arcane.test.ts:97-107 | `\1\4   \3test hi` gives "14", "   ", "3", 4, " ", 2. |
| `ArcaneExamples.EscapedWordGroups` | src/arcane.test.ts:111-120 | `\1\4asdf` groups into one word: LITERAL_TEXT "14", then LENGTH 4. |
| `ArcaneExamples.IndentedWordGroups` | src/arcane.test.ts:122-132 | `  asdf` groups into two words: WHITESPACE "  ", then LENGTH 4. |
| `ArcaneExamples.UnanchoredEscapeTest` | src/arcane.ts:27 | Called alone, getToken classifies `ab\c` as LITERAL_TEXT "abc". |
| `ArcaneExamples.EscapedBangStripped` | src/arcane.ts:29-30 | `\!\a` decodes to "a": the escaped `!` is stripped too. |
| `ArcaneExamples.LoneBangIsEmptyLiteral` | src/arcane.ts:27-35 | A lone `!` before whitespace is LITERAL_TEXT "". |
| `ArcaneExamples.TrailingBackslashIsEmptyLiteral` | src/arcane.ts:27-35 | A trailing lone `\` is LITERAL_TEXT "". |
| `ArcaneExamples.AdjacentLiteralsNotMerged` | src/arcane.ts:59-75 | `\a!` gives two tokens, LITERAL_TEXT "a" then LITERAL_TEXT "": adjacent literals are not merged. |

## Left out

- src/main.ts is not part of this model. It wires the plugin into Obsidian: DOM nodes, a `setTimeout`, and glyph choice by `Math.random`. Its only bearing here is that `/~(.+)~/` hands `parseWords` a non-empty text.
- src/settings.ts is not part of this model. It is a settings UI and persistence through the Obsidian API.
- src/script.ts is not part of this model. It is an animation loop driven by `setInterval`, a random shuffle, a random sort comparator and floating-point rounding.
- Characters are Dafny `char`s, not UTF-16 code units. Kinds and counts agree with the source except for characters outside the Basic Multilingual Plane. For `\😀` the source sees `\`, a high and a low surrogate, so the range does not end in an escape and gets LENGTH 3; the model gives LITERAL_TEXT "😀". `IsWhitespace` is the set JavaScript's `\s` matches within that plane.
- Offsets are `nat`. `GetNextToken` does not take negative or fractional indices, which JavaScript numbers would allow. `GetToken` takes any integer offsets and clamps them as `substring` does.
- `ParseWords` and `GroupWords` require a non-empty input, because the source throws on an empty one (reading `tokens[0]`). The thrown exception is not modelled.
- `ParseWords` is split in two: `GetAllTokens`, then `GroupWords`, which holds the source's grouping loop.
- In getNextToken the source tests "kind changed" and "end past the text" in one condition. The model tests the end first. Both branches return the same pair, so the result is the same.
- The "complex sentences" unit test (src/arcane.test.ts:134-167) is not replayed. Its grouping follows from `ParseWords`'s contract and `WordPartitionUnique`.
