# Lexer front end of `lang`, modelled in Dafny

This project models the front end of the `lang` lexer. That is everything
the scanners stand on: the classification of a raw unit (a `char` or a `u8`)
into a `CodePoint`, the lookahead `Queue` over a source iterator, the
`InputStream` with its swappable filter and its Ignore-skipping reads, the
`TokenStream` with its reconsume flag and recycle bin, the `Location`
record, and the vocabularies the scanners produce (delimiters, operators
and symbols, keywords, comment types, boolean, string and integer literals).

Every operation is a pure function, or a method where the source loops, over
immutable datatypes. A mutating Rust method becomes a function that returns
the new value, together with the result when there is one. The source
iterator of a queue or stream is modelled as the finite sequence of items it
has not yet produced. `usize` is an unbounded integer bounded by
`USIZE_MAX` (2^64 - 1), and `saturating_add` is written out.

Modules follow the source layout:
- `CodePoints`: `codepoints/`.
- `Queues`, `StreamIterators`, `InputStreams`, `TokenStreams`: `stream/`.
- `StreamPipeline`: the two streams composed.
- `InputStreamExamples`: the scenarios of the input stream's own tests.
- `Locations`: `location/`.
- `DelimMacro`, `Symbols`, `Operators`, `Delimiters`: `lexical-analysis/delimiter/`.
- `Keywords`: `lexical-analysis/keyword/`.
- `Comments`: `lexical-analysis/comment/output.rs`.
- `Literals`: `lexical-analysis/literal/`.
- Shared helpers: `Wrappers`, for `Option` and `Result`, and `Text`, for ASCII case and folds.

Where the system's documentation and its code disagree, the model follows the code:
- **Whitespace.** The documentation describes whitespace as TAB, LF, FF, CR or SPACE (codepoints/lib.rs:34-41). The code calls `char::is_whitespace`, which is the Unicode White_Space set, so the byte 0x85 is whitespace too (`CodePoints.NextLineAndCarriageReturn`).
- **Surrogate test.** The documentation describes it as U+D800..U+DFFF (codepoints/interface.rs:101-103). The code tests 0xD8000..=0xDFFFF. Both are modelled; see Findings.
- **Recycle bin.** The documented contract of `consume_next` recycles the previous current token. The code also recycles the very first token when there is no current one, so that token lands in the bin twice. Both are modelled; see Findings.
- **Invalid-delimiter error.** The declaration `DelimiterParseError::Invalid` says `found: char`, but every constructor fills it with a `String`. The model uses a string.

## Model

| member | source | states |
|---|---|---|
| CodePoints.AsChar | codepoints/interface.rs:120-122 | `as char` keeps the unit's value, for bytes as for characters |
| CodePoints.AsByte | codepoints/interface.rs:124-126 | `as u8` keeps the low eight bits: a byte is itself, any value up to 0xFF is itself |
| CodePoints.ScalarValueIsNotSurrogate | codepoints/interface.rs:97-99 | a unit is a scalar value exactly when it is not a surrogate |
| CodePoints.SurrogateAsWritten | codepoints/interface.rs:206-208 | the surrogate test as written holds exactly on character values 0xD8000..=0xDFFFF and never on a byte |
| CodePoints.SurrogateCounterexample | codepoints/interface.rs:206-208 | U+D8000 is a valid character yet counts as a surrogate, so it is not a scalar value, while U+D800 does not count |
| CodePoints.SurrogateCorrected | codepoints/interface.rs:101-103 | with the documented range U+D800..U+DFFF, no well-formed unit is a surrogate, and a value is a `char` exactly when it is at most 0x10FFFF and a scalar value |
| CodePoints.NewlineExactly | codepoints/interface.rs:172-174 | newline is exactly LF, FF or CR, and every newline is also whitespace |
| CodePoints.C0ControlBounds | codepoints/interface.rs:132-138 | C0 control is U+0000..U+001F; adding SPACE gives the "or space" variant |
| CodePoints.AsciiIsNotNonAscii | codepoints/interface.rs:156-158 | ASCII is U+0000..U+007F, and exactly the complement of non-ASCII |
| CodePoints.LetterIsIdentStartAndAfterStart | codepoints/interface.rs:144-166 | letters are the two ASCII letter ranges, and every letter may start and continue an identifier |
| CodePoints.IdentStartIsIdent | codepoints/interface.rs:160-170 | every identifier start is an identifier unit; digits and `-` are identifier units that cannot start one |
| CodePoints.NoncharacterLowBits | codepoints/interface.rs:180-200 | the listed noncharacters are exactly U+FDD0..U+FDEF plus the last two values of every plane, and no byte is one |
| CodePoints.PlaneRangeIsNoncharacter | codepoints/interface.rs:180-200 | for each of the 17 planes, the values xFFFE and xFFFF are noncharacters |
| CodePoints.SymbolTableInverse | codepoints/lib.rs:161-331 | the symbol table read from character to variant and read from variant to character are inverse |
| CodePoints.From | codepoints/lib.rs:96-105 | classification never yields EOF or Ignore |
| CodePoints.FromPriority | codepoints/lib.rs:96-105 | newline wins over whitespace, whitespace over the symbol table, the table over `Unit`; the carried unit and the symbol's character are the input's |
| CodePoints.UnlistedStayUnits | codepoints/lib.rs:96-105 | `_`, `@` and `$` are not in the table and stay plain units |
| CodePoints.BackquoteAndLetterStayUnits | codepoints/lib.rs:96-105 | the backquote and letters stay plain units |
| CodePoints.NextLineAndCarriageReturn | codepoints/interface.rs:210-213 | the byte 0x85 classifies as whitespace, and CR as a newline |
| CodePoints.FromKeepsCharacter | codepoints/lib.rs:78-105 | classifying a unit keeps its character, except NUL, whose variant carries none |
| CodePoints.CodePoint.MaybeUnit | codepoints/lib.rs:78-93 | NULL, EOF and Ignore have no character, and a unit, whitespace or newline carries its own unit's character |
| CodePoints.CodePoint.IsValid | codepoints/lib.rs:151-153 | a code point is valid exactly when `maybe_unit` gives it a character |
| CodePoints.CodePoint.UnitChar | codepoints/lib.rs:155-158 | `unit()` is the character `maybe_unit` gives, and is only called where there is one |
| CodePoints.CodePoint.Is | codepoints/lib.rs:147-149 | `is(c)` holds exactly when the code point's character is `c` |
| CodePoints.ValidIffHasCharacter | codepoints/lib.rs:151-158 | `is_valid` holds exactly when `maybe_unit` has a character, that is, when `unit()` does not panic |
| CodePoints.FromValidIffNotNul | codepoints/lib.rs:96-105 | a classified unit is valid exactly when it is not NUL |
| CodePoints.InvalidClassifiesAsNothing | codepoints/lib.rs:117-145 | on NULL, EOF and Ignore every code-point-level predicate is false |
| CodePoints.CodePointPredicatesAgree | codepoints/lib.rs:117-145 | on a classified non-NUL character, the code-point-level predicates answer as the character's own |
| Queues.New | stream/queue.rs:24-30 | a new queue delivers exactly the source, with lookahead offset 0 |
| Queues.Decrement | stream/queue.rs:39-41 | the offset decreases by one and saturates at 0; nothing else changes |
| Queues.Dequeue | stream/queue.rs:46-51 | pops the front of the buffer, or returns None and changes nothing when the buffer is empty; the pending items are kept in order |
| Queues.Enqueue | stream/queue.rs:67-71 | moves one source item into the buffer, if there is one; the pending items are unchanged |
| Queues.EnqueueTimes | stream/queue.rs:55-60 | `count` enqueues buffer `count` more items, capped by what is pending |
| Queues.Fill | stream/queue.rs:55-60 | after `fill(n)`, position `n` is buffered whenever the source has it; the pending items are unchanged |
| Queues.PeekNext | stream/queue.rs:73-76 | the pending item at the offset, without changing what will be delivered |
| Queues.Next | stream/queue.rs:107-117 | delivers the first pending item (buffer first, then source), drops it, and decrements the offset |
| Queues.Reconsume | stream/queue.rs:88-93 | puts the item back in front of everything pending |
| Queues.OffsetStaysZero | stream/queue.rs:39-41 | starting from offset 0 the offset stays 0, so a peek sees what the next `next` delivers |
| Queues.ReconsumeThenNext | stream/queue.rs:88-117 | after a reconsume, peek and next both return the reconsumed item, and next restores the pending items |
| Queues.RunDeliversInOrder | stream/queue.rs:73-117 | whatever the interleaving of peeks, takes deliver the pending items in order, with no skip and no duplicate, and then None |
| StreamIterators.IsEos | stream/iterator.rs:114-116 | `is_eos` is equality with `eos()` |
| StreamIterators.IsEof | stream/iterator.rs:135-137 | `is_eof` is equality of the item's kind with `eof()` |
| StreamIterators.IsIgnored | stream/iterator.rs:139-141 | `is_ignored` is equality of the item's kind with `ignore()` |
| StreamIterators.KindsAreExact | stream/iterator.rs:150-167 | for code points, only EOF is end-of-file and only Ignore is ignored, and neither is valid |
| StreamIterators.ClassifiedIsNeitherEofNorIgnored | stream/iterator.rs:150-167 | no classified unit is end-of-file or ignored |
| InputStreams.DefaultFilterScan | stream/input.rs:59-61 | the default filter never yields EOF or Ignore and keeps every character except NUL's |
| InputStreams.New | stream/input.rs:41-47 | a new stream holds exactly its units, has no current unit, and uses the default classification |
| InputStreams.DefineFilterScan | stream/input.rs:50-56 | replaces the filter and changes nothing else |
| InputStreams.ConsumeNext | stream/input.rs:136-147 | returns the filter of the first unit it does not ignore, or EOF; drops everything up to that unit; never returns Ignore |
| InputStreams.Current | stream/input.rs:130-134 | the filter applied to the last unit read, if any |
| InputStreams.PeekNext | stream/input.rs:149-161 | returns what `consume_next` would, without consuming or changing the current unit |
| InputStreams.PeekOnce | stream/input.rs:149-154 | one activation of `peek_next` classifies the front unit, or gives EOF on an empty stream, and moves nothing |
| InputStreams.IgnoredFrontRecursesForever | stream/input.rs:149-161 | on an ignored front unit, every later activation of `peek_next` sees the same units and meets `Ignore` again, so it never returns |
| InputStreams.PeekPast | stream/input.rs:136-147 | a peek that skips ignored units finds what a read finds |
| InputStreams.PeekVisible | stream/input.rs:149-161 | the corrected peek is defined on every stream, returns what `consume_next` would, never `Ignore`, and consumes nothing |
| InputStreams.PeekNextIsPeekVisible | stream/input.rs:149-161 | where the source's `peek_next` returns, it equals the corrected peek |
| InputStreams.ReconsumeCurrent | stream/input.rs:163-166 | puts the current unit back in front of the remaining units |
| InputStreams.CurrentAfterConsume | stream/input.rs:130-147 | after a read that finds a unit, `current()` is the code point just returned |
| InputStreams.ExhaustedYieldsEofForever | stream/input.rs:136-147 | on an exhausted source every read returns EOF and leaves no current unit |
| InputStreams.EofOnlyAtTheEnd | stream/input.rs:136-147 | with a filter that never yields EOF, a read returns EOF exactly when every remaining unit is ignored |
| InputStreams.PeekThenConsume | stream/input.rs:136-161 | a peek followed by a read returns the peeked code point and leaves the stream where the read alone would |
| InputStreams.ReconsumeReplays | stream/input.rs:136-166 | reconsuming after a read makes the next read return the same code point from the same position |
| InputStreams.Drain | stream/input.rs:136-147 | reading until EOF always ends with EOF |
| InputStreams.DrainIsVisible | stream/input.rs:136-147 | reading until EOF yields the filter of every unit not ignored, in order, then EOF: ignored units are invisible |
| InputStreams.AdvanceAsLongAsPossibleWithLimit | stream/input.rs:85-107 | returns the longest run of next code points satisfying the predicate, at most limit + 1 of them, and leaves the stream right after that run |
| InputStreams.AdvanceAsLongAsPossible | stream/iterator.rs:29-34 | with no limit, the run stops at the first code point the predicate rejects, which exists as soon as some read up to EOF is rejected |
| InputStreams.AcceptsEveryRead | stream/input.rs:95-98 | when no read up to the first EOF fails the predicate, none does, so the unlimited loop's guard never fails |
| InputStreams.AcceptingEofNeverStops | stream/input.rs:95-104 | past the units a turn of the loop peeks EOF, reads EOF and leaves the stream where the next peek finds EOF again |
| InputStreams.AdvanceAsLongAsPossibleAndApply | stream/input.rs:109-128 | the same run, with the callback applied to each code point in order |
| InputStreamExamples.DrainNew | stream/input.rs:41-61 | with the default filter, reading a stream to its end yields every unit's classification, then EOF |
| InputStreamExamples.HelloWorldChars | stream/input.rs:186-210 | the characters of "Hello World\n" read as five units, a whitespace, five units, a newline, then EOF |
| InputStreamExamples.HelloWorldBytes | stream/input.rs:212-245 | the bytes of the same text read the same way |
| InputStreamExamples.HelloWorldFiltered | stream/input.rs:248-283 | with a filter ignoring `l`, the read skips every `l` and turns the newline into whitespace |
| InputStreamExamples.SkipLeadingSpaces | stream/input.rs:85-107 | advancing over whitespace in "   a b" returns the three spaces and stops before `a` |
| TokenStreams.Collected | stream/token.rs:49-69 | the stored tokens contain no EOF and no ignored token, and never outnumber the reads |
| TokenStreams.FromStream | stream/token.rs:49-69 | a new token stream has no current token, no pending reconsume, an empty recycle bin, and only kept tokens |
| TokenStreams.CollectedIsFilter | stream/token.rs:55-61 | the stored tokens are exactly the reads before the first EOF, minus the ignored ones, in order |
| TokenStreams.Collect | stream/token.rs:40-42 | `collect` returns exactly the tokens still in the list |
| TokenStreams.Current | stream/token.rs:84-88 | the current token if it is a success, otherwise nothing |
| TokenStreams.ConsumeNext | stream/token.rs:90-118 | pops the front token and makes it current; the recycle bin grows by the previous current token, or by the popped one when there was none |
| TokenStreams.PeekNext | stream/token.rs:120-138 | the reconsumed token when a reconsume is pending, otherwise the front token, or `eos` on an empty list |
| TokenStreams.ReconsumeCurrent | stream/token.rs:140-148 | puts the current token back in front and sets the reconsume flag |
| TokenStreams.PeekThenConsume | stream/token.rs:90-138 | a peek returns exactly what the next read returns |
| TokenStreams.CurrentAfterConsume | stream/token.rs:84-118 | after a read, `current()` is the token read when it is a success, and nothing when it is an error |
| TokenStreams.ReconsumeReplays | stream/token.rs:90-148 | after a reconsume the next read returns the current token again and leaves the list as it was |
| TokenStreams.ConsumeTimesRecyclesFirstTwice | stream/token.rs:96-109 | after k reads of a fresh stream, the recycle bin holds the first token twice, then the tokens up to k - 1 |
| TokenStreams.TwoReadsRecycleFirstTwice | stream/token.rs:96-109 | two reads of a fresh two-token stream leave the first token in the recycle bin twice and the second not at all |
| TokenStreams.ConsumeNextCorrected | stream/token.rs:90-118 | the intended read: only the previous current token, if any, enters the recycle bin |
| TokenStreams.ConsumeTimesCorrectedRecyclesOnce | stream/token.rs:90-118 | with the intended read, after k reads the recycle bin is exactly the first k - 1 tokens |
| TokenStreams.LongestSuffix | stream/token.rs:158-165 | the longest suffix whose items all satisfy the predicate: the item before it, if any, fails it |
| TokenStreams.MaximalSuffixIsLongest | stream/token.rs:158-165 | any suffix that satisfies the predicate and is preceded by a failing item (or by nothing) is that longest suffix |
| TokenStreams.RecoverAsLongAsPossible | stream/token.rs:150-174 | returns the longest satisfying tail of the recycle bin, most recent first, and removes exactly that tail; nothing else changes |
| StreamPipeline.TokensOfInput | stream/token.rs:49-69 | a token stream built from an input stream holds exactly the input's visible code points, in order |
| DelimMacro.Display | lexical-analysis/delimiter/macro.rs:28-42 | the display keeps the identifier's length, turns `_` into `-` and each upper-case letter into its lower-case letter |
| DelimMacro.DisplayInjective | lexical-analysis/delimiter/macro.rs:28-42 | two identifiers of the macro's alphabet with the same display are equal |
| Symbols.Sign | lexical-analysis/delimiter/macro.rs:19-26 | a symbol's sign has one to three characters, and the sign table read backwards gives the symbol again |
| Symbols.Display | lexical-analysis/delimiter/macro.rs:28-42 | a symbol displays as its identifier's length in lower-case letters and hyphens |
| Symbols.Name | lexical-analysis/delimiter/symbol.rs:7-27 | every symbol identifier is in the macro's alphabet |
| Symbols.SignRoundTrip | lexical-analysis/delimiter/symbol.rs:7-27 | every symbol is recovered from its sign, which has one to three characters |
| Symbols.SignsDistinct | lexical-analysis/delimiter/symbol.rs:7-27 | two symbols have the same sign exactly when they are equal |
| Symbols.FromSignSound | lexical-analysis/delimiter/symbol.rs:7-27 | a symbol found from a sign has that sign |
| Symbols.DisplaysDistinct | lexical-analysis/delimiter/macro.rs:28-42 | two symbols have the same display exactly when they are equal |
| Symbols.NameRoundTrip | lexical-analysis/delimiter/symbol.rs:7-27 | every symbol is recovered from its identifier |
| Symbols.PrefixOverlaps | lexical-analysis/delimiter/symbol.rs:13-22 | `.` is a prefix of `..`, which is a prefix of `..=`, `:` is a prefix of `::`, and TILDE's sign is the backquote |
| Symbols.DisplayExamples | lexical-analysis/delimiter/macro.rs:28-42 | RANGE_INCLUSIVE displays as "range-inclusive", QUESTION_MARK as "question-mark", ESCAPE as "escape" |
| Operators.AssignmentFromSign | lexical-analysis/delimiter/operator.rs:29-44 | an assignment operator found from a sign has that sign |
| Operators.AssignmentSignInvertible | lexical-analysis/delimiter/operator.rs:29-44 | every assignment operator is recovered from its sign |
| Operators.AssignmentNameInvertible | lexical-analysis/delimiter/operator.rs:29-44 | every assignment operator is recovered from its identifier |
| Operators.ComparisonSignInvertible | lexical-analysis/delimiter/operator.rs:46-53 | every comparison operator is recovered from its sign |
| Operators.ComparisonNameInvertible | lexical-analysis/delimiter/operator.rs:46-53 | every comparison operator is recovered from its identifier |
| Operators.ArithmeticSignInvertible | lexical-analysis/delimiter/operator.rs:55-62 | every arithmetic operator is recovered from its sign |
| Operators.ArithmeticNameInvertible | lexical-analysis/delimiter/operator.rs:55-62 | every arithmetic operator is recovered from its identifier |
| Operators.LogicalSignInvertible | lexical-analysis/delimiter/operator.rs:64-68 | every logical operator is recovered from its sign |
| Operators.LogicalNameInvertible | lexical-analysis/delimiter/operator.rs:64-68 | every logical operator is recovered from its identifier |
| Operators.BitwiseSignInvertible | lexical-analysis/delimiter/operator.rs:70-77 | every bitwise operator is recovered from its sign |
| Operators.BitwiseNameInvertible | lexical-analysis/delimiter/operator.rs:70-77 | every bitwise operator is recovered from its identifier |
| Operators.Sign | lexical-analysis/delimiter/macro.rs:19-26 | an operator's sign has one to three characters, all from `=+-*/%<>&\|^!~` |
| Operators.Display | lexical-analysis/delimiter/macro.rs:28-42 | an operator displays as its identifier's length in lower-case letters and hyphens |
| Operators.Name | lexical-analysis/delimiter/operator.rs:12-27 | every operator identifier is in the macro's alphabet |
| Operators.FromSign | lexical-analysis/delimiter/operator.rs:12-77 | an operator found from a sign has that sign |
| Operators.SignRoundTrip | lexical-analysis/delimiter/operator.rs:12-77 | every one of the 35 operators is recovered from its sign |
| Operators.SignsDistinct | lexical-analysis/delimiter/operator.rs:12-77 | two operators have the same sign exactly when they are equal, across all five enumerations |
| Operators.DisplayDistinctWithinCategory | lexical-analysis/delimiter/operator.rs:79-93 | within one enumeration, two operators have the same display exactly when they are equal |
| Operators.DisplayNotInjectiveAcrossCategories | lexical-analysis/delimiter/operator.rs:79-93 | across enumerations the display collides: `=` and `==` both print "equal", `+=` and `+` both print "addition" |
| Operators.DisplayExamples | lexical-analysis/delimiter/operator.rs:79-93 | GREATER_THAN_OR_EQUAL displays as "greater-than-or-equal" |
| Operators.ShiftDisplayExample | lexical-analysis/delimiter/operator.rs:79-93 | the LEFT_SHIFT assignment displays as "left-shift" |
| Operators.SignExamples | lexical-analysis/delimiter/operator.rs:37-74 | `<<=`, `^^` and `~` are the signs of the left-shift assignment, exponentiation and bitwise not |
| Delimiters.PairName | lexical-analysis/delimiter/mod.rs:39-42 | every bracket identifier is in the macro's alphabet |
| Delimiters.Display | lexical-analysis/delimiter/mod.rs:54-68 | a delimiter displays as lower-case letters and hyphens only |
| Delimiters.TryFrom1 | lexical-analysis/delimiter/mod.rs:71-173 | succeeds exactly when the single-code-point table has the code point, with the table's delimiter, whose sign the code point spells or whose bracket it is; otherwise the error carries the code point's character, or nothing when it has none |
| Delimiters.Table1 | lexical-analysis/delimiter/mod.rs:80-158 | every row of the single-code-point table spells what it yields |
| Delimiters.Table2 | lexical-analysis/delimiter/mod.rs:183-279 | every row of the pair table spells what it yields |
| Delimiters.TryFrom2 | lexical-analysis/delimiter/mod.rs:176-288 | a pair succeeds exactly when the table has it and then spells the sign; otherwise the error carries both characters |
| Delimiters.Table3 | lexical-analysis/delimiter/mod.rs:298-322 | every row of the triple table spells what it yields |
| Delimiters.TryFrom3 | lexical-analysis/delimiter/mod.rs:291-331 | a triple succeeds exactly when the table has it and then spells the sign; otherwise the error carries the three characters |
| Delimiters.Window | codepoints/lib.rs:96-105 | the code points a lexer reads for a text are the classifications of its characters |
| Delimiters.LookupSound | lexical-analysis/delimiter/mod.rs:71-331 | whatever the tables find for a window of one to three code points, that window spells |
| Delimiters.SymbolRecognised | lexical-analysis/delimiter/mod.rs:80-303 | every symbol is found by the table of its sign's length from the window of its sign |
| Delimiters.AssignmentRecognised | lexical-analysis/delimiter/mod.rs:80-322 | every assignment operator except `**=` is found from the window of its sign |
| Delimiters.ComparisonRecognised | lexical-analysis/delimiter/mod.rs:80-279 | every comparison operator is found from the window of its sign |
| Delimiters.ArithmeticRecognised | lexical-analysis/delimiter/mod.rs:80-279 | every arithmetic operator is found from the window of its sign |
| Delimiters.LogicalRecognised | lexical-analysis/delimiter/mod.rs:80-279 | every logical operator is found from the window of its sign |
| Delimiters.BitwiseRecognised | lexical-analysis/delimiter/mod.rs:80-279 | every bitwise operator is found from the window of its sign |
| Delimiters.PairRecognised | lexical-analysis/delimiter/mod.rs:80-158 | every bracket delimiter is found from its code point |
| Delimiters.OperatorRecognised | lexical-analysis/delimiter/mod.rs:80-322 | every operator except `**=` is found from the window of its sign |
| Delimiters.DelimiterRecognised | lexical-analysis/delimiter/mod.rs:71-331 | every symbol or operator delimiter except `**=` is found from the window of its sign, which has one to three characters |
| Delimiters.ExponentiationAssignmentUnrecognised | lexical-analysis/delimiter/mod.rs:291-331 | no window of one to three code points yields the `**=` assignment, although operator.rs declares it |
| Delimiters.ExponentiationAssignmentRejected | lexical-analysis/delimiter/mod.rs:324-328 | the window of `**=` is rejected with "**=" as the found text |
| Delimiters.InvalidWithoutCharacter | lexical-analysis/delimiter/mod.rs:166-170 | NULL, EOF and Ignore are rejected with an empty found text |
| Delimiters.InvalidWithCharacter | lexical-analysis/delimiter/mod.rs:160-164 | a valid code point outside the table is rejected with its own character |
| Delimiters.OperatorSignIsNotSymbol | lexical-analysis/delimiter/mod.rs:33-48 | no operator has the sign of a symbol |
| Delimiters.SignsDistinct | lexical-analysis/delimiter/mod.rs:33-48 | two symbol or operator delimiters have the same sign exactly when they are equal |
| Delimiters.DisplayExamples | lexical-analysis/delimiter/mod.rs:54-68 | the `=` assignment and the `==` comparison both display as "equal" |
| Delimiters.DisplayNameExamples | lexical-analysis/delimiter/mod.rs:54-68 | RANGE_INCLUSIVE displays as "range-inclusive" and the left curly bracket as "left-curly-bracket" |
| Keywords.Lookup | lexical-analysis/keyword/macro.rs:35-38 | a keyword found for a word has that word among its spellings |
| Keywords.FromStr | lexical-analysis/keyword/macro.rs:31-46 | a parsed keyword has the input among its spellings; a failure reports the whole input as `Unknown` |
| Keywords.Display | lexical-analysis/keyword/macro.rs:48-60 | a keyword displays as its identifier with no upper-case letter |
| Keywords.SpellingParses | lexical-analysis/keyword/mod.rs:10-44 | every listed spelling parses to its keyword |
| Keywords.FromStrExact | lexical-analysis/keyword/mod.rs:10-44 | a word parses to a keyword exactly when it is one of that keyword's spellings |
| Keywords.SpellingsDisjoint | lexical-analysis/keyword/mod.rs:10-44 | no word is a spelling of two keywords |
| Keywords.UnknownIffUnlisted | lexical-analysis/keyword/macro.rs:39-43 | parsing fails exactly when the word is no keyword's spelling, and the error carries the word |
| Keywords.FunctionParses | lexical-analysis/keyword/mod.rs:50-57 | "function", "fn" and "func" parse to Function, as the keyword test checks |
| Keywords.ExportParses | lexical-analysis/keyword/mod.rs:50-57 | "export" parses to Export |
| Keywords.CapitalisedIsUnknown | lexical-analysis/keyword/macro.rs:35-43 | matching is case-sensitive: "Function" is unknown |
| Keywords.DisplayRoundTrip | lexical-analysis/keyword/macro.rs:48-60 | every keyword's display is one of its spellings and parses back to it |
| Keywords.DisplayInjective | lexical-analysis/keyword/macro.rs:48-60 | two keywords have the same display exactly when they are equal |
| Comments.Default | lexical-analysis/comment/output.rs:55-56 | the default comment type is BLOCK |
| Comments.Define | lexical-analysis/comment/output.rs:64-66 | `define` replaces the type by the given one |
| Comments.Display | lexical-analysis/comment/output.rs:89-100 | a comment type displays in upper case |
| Comments.FromStr | lexical-analysis/comment/output.rs:76-86 | a parsed type's display is the upper-cased input |
| Comments.FromStrIgnoresCase | lexical-analysis/comment/output.rs:76-86 | the input parses as LINE, or as BLOCK, exactly when it equals that word ignoring ASCII case, and fails otherwise |
| Comments.DisplayRoundTrip | lexical-analysis/comment/output.rs:76-100 | every comment type parses back from its display |
| Comments.FromStrExamples | lexical-analysis/comment/output.rs:76-86 | "line", "Line" and "block" parse; "lines" and the empty text fail |
| Comments.DefineLastWins | lexical-analysis/comment/output.rs:64-66 | defining twice is defining once with the last type |
| Literals.FromBool | lexical-analysis/literal/bool.rs:37-44 | the literal is TRUE exactly when the boolean is true |
| Literals.ToBool | lexical-analysis/literal/bool.rs:46-53 | the boolean is true exactly when the literal is TRUE |
| Literals.DisplayBool | lexical-analysis/literal/bool.rs:55-66 | a boolean literal displays as "true" or "false" |
| Literals.BoolRoundTrips | lexical-analysis/literal/bool.rs:37-53 | the two conversions are inverse to each other |
| Literals.DisplayBoolTrueIff | lexical-analysis/literal/bool.rs:55-66 | the display is "true" exactly when the boolean is true, and "false" exactly when it is false |
| Literals.DefaultString | lexical-analysis/literal/string.rs:15-24 | the default string output is empty, at line 1, column 1, total 1 |
| Literals.Append | lexical-analysis/literal/string.rs:32-35 | appending adds the character at the end and moves the column by one, saturating |
| Literals.Deref | lexical-analysis/literal/string.rs:42-48 | dereferencing gives exactly the accumulated text |
| Literals.AppendAllExtends | lexical-analysis/literal/string.rs:32-35 | appending a text character by character extends the data by that text and the column by its length, saturating; line and total are unchanged |
| Literals.AppendAllFromDefault | lexical-analysis/literal/string.rs:15-48 | from the default, appending a text dereferences to that text, at line 1 |
| Literals.DisplayInteger | lexical-analysis/literal/int.rs:40-50 | an integer literal displays as "numeric-" followed by a non-empty radix name |
| Literals.DisplayIntegerExactlyRadix | lexical-analysis/literal/int.rs:40-50 | two integer literals display alike exactly when they have the same radix, whatever their digits |
| Literals.DisplayIntegerExamples | lexical-analysis/literal/int.rs:40-50 | the four radixes display as "numeric-decimal", "numeric-hexadecimal", "numeric-binary" and "numeric-octal" |
| Locations.SaturatingAdd | location/lib.rs:47-57 | the sum when it fits in a `usize`, otherwise `usize::MAX`, and never less than either operand |
| Locations.New | location/lib.rs:37-44 | a new location is line 1, column 1, total 1 |
| Locations.IncrementTotalBy | location/lib.rs:47-49 | the total grows by n, saturating; line and column are unchanged |
| Locations.IncrementLineBy | location/lib.rs:51-53 | the line grows by n, saturating; column and total are unchanged |
| Locations.IncrementColumnBy | location/lib.rs:55-57 | the column grows by n, saturating; line and total are unchanged |
| Locations.IncrementTotal | location/interface.rs:29-31 | the total grows by one, or stays at `usize::MAX` |
| Locations.IncrementLine | location/interface.rs:39-41 | the line grows by one, or stays at `usize::MAX` |
| Locations.IncrementColumn | location/interface.rs:49-51 | the column grows by one, or stays at `usize::MAX` |
| Locations.ResetColumn | location/lib.rs:59-61 | the column returns to 1; line and total are unchanged |
| Locations.IncrementsAreMonotone | location/lib.rs:47-57 | no increment decreases any field, and a positive increment of a total below the maximum increases it |
| Locations.Display | location/lib.rs:78-82 | the text starts with "L:", and the two loops of `from_str` find in it numerals that parse back to the line and the column |
| Locations.ParseUsize | location/lib.rs:115-120 | only a non-empty text parses as a `usize` |
| Locations.ParseUsizeCases | location/lib.rs:115-120 | a digit string parses to its value if that fits in a `usize` and fails otherwise; one leading '+' is skipped; the empty text, a lone '+' and any other character fail |
| Locations.ParsePrinted | location/lib.rs:78-82 | every `usize` parses back from the decimal numeral `Display` prints |
| Locations.WrappingAdd | location/lib.rs:125 | the unchecked `usize` sum: the plain sum when it fits, otherwise the sum minus 2^64, below both operands |
| Locations.FromStr | location/lib.rs:88-127 | a bad line is reported before a bad column; on success line and column are the parsed texts before and after the first comma, and total is their sum, wrapped past `usize::MAX` |
| Locations.FromStrCorrected | location/lib.rs:122-126 | fails exactly as `from_str` does and keeps its line and column; with a saturating sum, a parsed total is never below the line or the column |
| Locations.SplitCanonical | location/lib.rs:91-113 | in "L:l,C:c" with digit texts l and c, the two loops collect exactly l and c |
| Locations.DisplayThenParse | location/lib.rs:78-127 | parsing the display gives back line and column, with total line + column modulo 2^64 |
| Locations.DisplayThenParseCorrected | location/lib.rs:78-127 | with the saturating sum, parsing the display gives back line and column, with total their saturating sum |
| Locations.FromStrTotalWraps | location/lib.rs:122-126 | when line + column exceeds `usize::MAX`, the parsed total wraps below the line, down to 0 for line `usize::MAX` and column 1 |
| Locations.FromStrLineErrors | location/lib.rs:115-117 | "L:,C:3" and "L:x,C:3" fail on the line |
| Locations.FromStrColumnErrors | location/lib.rs:118-120 | "L:4" and "L:4,C:" fail on the column |
| Locations.FromStrAcceptsPlus | location/lib.rs:115-126 | `usize` parsing accepts a leading `+`: "L:+4,C:3" is line 4, column 3, total 7 |

## Left out

- `stream/byte.rs` and reading a file: the byte source is I/O, and the stream is given its units as a sequence instead.
- UTF-8 decoding of a file is not modelled. A `char` unit is any Unicode scalar value up to 0x10FFFF, given directly.
- The `Deref`/`DerefMut` of `Queue` to its source iterator are left out, because the source is modelled as the sequence of items still to come.
- The comment, identifier, integer and string scanners, and their state enumerations, are not part of this model. Only their outputs are modelled: `CommentOutput`, the comment type, and the boolean, string and integer literals.
- The French messages of every error's `Display` are left out. The comment type's parse error is one constructor instead of a static message.
- Comments.FromStr: upper-cases the input in ASCII only. `str::to_uppercase` is full Unicode, so for example it maps U+0131 (dotless i) to `I`, and accepts "lıne". The model does not accept such spellings.
- Derived traits (`Debug`, `Clone`, `PartialEq`) are left out. Dafny datatypes already have structural equality.
- `define_location` and `define_location_if_not_already_set` of `LocationInterface` are left out: their default bodies are `unimplemented!`, and `Location` does not override them.
- `peek_n_next` is left out: the `StreamIterator` trait declares it, but neither stream here defines it.
- InputStreams.PeekNext: requires that the stream's front unit is not ignored. `peek_next` looks at the front of the queue and recurses on `Ignore` without moving the lookahead offset, so on an ignored front it does not terminate. InputStreams.IgnoredFrontRecursesForever shows this, and InputStreams.PeekVisible is the corrected peek (see Findings). The advancing loops peek only where the precondition holds, and there InputStreams.PeekNextIsPeekVisible shows that both peeks agree.
- InputStreams.AdvanceAsLongAsPossibleWithLimit: requires that every peek in the run is defined, for the same reason. Without a limit, the three advancing methods also require that some read fails the predicate, up to and including the first EOF. Past the units every read is EOF again, so without such a read the source loop never ends (InputStreams.AcceptingEofNeverStops). The requirement is met whenever the predicate rejects EOF, and also when it accepts EOF but rejects an earlier code point.
- TokenStreams.ConsumeNext: requires a non-empty token list. On an empty list the source sets the current token to `None` and then panics on `expect`.
- TokenStreams.PeekNext and TokenStreams.ReconsumeCurrent: require the current token that the source `expect`s.
- Delimiters.TryFrom2 and Delimiters.TryFrom3: require that either the table matches or every code point carries a character. The error path calls `unit()`, which panics on NULL, EOF and Ignore.
- `boundary_pairs.rs` is not part of this model. The bracket enumeration is assumed to be generated by the same `delim!` macro, so its display is computed from its identifiers; its signs are not used.
- `usize` overflow is modelled only in `Location`. Every other count is an unbounded integer.
- InputStreamExamples.Bytes: models only the bytes of ASCII text, where each character is one byte.

## Findings

| source | as written | input that shows it | evidently intended | confidence | as-written member | corrected member |
|---|---|---|---|---|---|---|
| codepoints/interface.rs:206-208 | `is_surrogate` tests 0xD8000..=0xDFFFF, a range of plane 13 | U+D8000, a valid `char`, counts as a surrogate and so not as a scalar value; U+D800 does not count | the documented surrogate range U+D800..=U+DFFF | not executed | CodePoints.SurrogateCounterexample | CodePoints.SurrogateCorrected |
| location/lib.rs:122-126 | `total: line + column` is a plain `usize` addition: it wraps in a release build and panics in a debug build | "L:18446744073709551615,C:1" parses with total 0 | a saturating sum, as every other `Location` update uses | not executed | Locations.FromStrTotalWraps | Locations.DisplayThenParseCorrected |
| stream/input.rs:149-161 | `peek_next` recurses on an ignored front unit without consuming it, and the queue's peek moves nothing | any stream whose filter classifies its front unit as `Ignore`: each activation meets the same unit again | skip ignored units as `consume_next` does, consuming nothing | not executed | InputStreams.IgnoredFrontRecursesForever | InputStreams.PeekVisible |
| stream/token.rs:96-109 | when there is no current token, `consume_next` recycles the token it pops; the next read recycles it again as the previous current token | two reads of a fresh two-token stream `[a, b]` leave recycle `[a, a]` | each consumed token recycled once, when it stops being current | not executed | TokenStreams.TwoReadsRecycleFirstTwice | TokenStreams.ConsumeTimesCorrectedRecyclesOnce |
