# puck in Dafny

puck is an interpreter for the Shakespeare Programming Language. A play is
processed in stages:

1. Words are classified into token kinds.
2. A recursive-descent parser turns the token list into a flat event log.
   It skips whitespace tokens and uses markers to open and close nodes.
3. A sink replays the event log into a concrete syntax tree.
4. A typed view of that tree gives items, sentences and expressions.
5. Lowering turns those into a program whose expressions live in an arena.
6. An evaluator runs the program. It keeps a value for each character and
   a stage that holds at most two of them.

This project models every stage above as pure Dafny functions over
immutable data and proves what each stage guarantees. Conventions:

- Every Rust `panic!`, `assert!`, failing `unwrap` and debug-build
  integer overflow becomes an `Err` value naming the cause.
- The evaluator's `println!` lines become an output list returned next to
  the final state.
- `i64` arithmetic is exact on unbounded integers, with explicit overflow
  checks. Division and remainder truncate toward zero, as Rust's do.

Files, one module each:

- `lexer.dfy` (`Lexer`): token kinds and keyword classification.
- `source.dfy` (`Source`): the cursor that skips whitespace.
- `events.dfy` (`Events`): the event log and when it is well nested.
- `parser.dfy` (`Parser`): the parser engine and its markers.
- `grammar.dfy` (`Grammar`): the grammar rules.
- `syntax.dfy` (`Syntax`): the tree and its builder.
- `sink.dfy` (`Sink`): replaying the events into a tree.
- `pipeline.dfy` (`Pipeline`): the composition `parse`.
- `parse_error.dfy` (`ParseErrors`): rendering a parse error.
- `decimal.dfy` (`Decimal`): decimal spelling of integers.
- `ast.dfy` (`Ast`): the typed view of the tree.
- `hir.dfy` (`Hir`): the lowered program and its arena.
- `lowering.dfy` (`Lowering`): lowering the typed view into the arena.
- `int64.dfy` (`I64`): checked `i64` arithmetic.
- `eval.dfy` (`Eval`): the evaluator.
- `examples.dfy` (`Cases`): the lexer's and the parse-error renderer's
  test cases as lemmas, the evaluator's noun values, two worked scenes,
  and the Exeunt discrepancy.
- `grammar_cases.dfy` (`GrammarCases`): the grammar's tests for the three
  stage directions, the first dialog and the two output sentences, as
  exact event logs.
- `wrappers.dfy` (`Wrappers`): the `Option` and `Result` types.

## Model

| member | source | states |
|---|---|---|
| Lexer.ClassifyAcceptsExactlyListed | src/lexer.rs:5-30 | a word gets a keyword class exactly when its lower-case form is one of that class's listed words |
| Lexer.ClassifyErrorIffUnlisted | src/lexer.rs:32-33 | a word is an error token exactly when its lower-case form is in no keyword list |
| Lexer.ClassifyIgnoresCase | src/lexer.rs:5-30 | two words that differ only in letter case get the same class, and a word gets the class of its lower-case form |
| Lexer.PatternsAreWordLists | src/lexer.rs:5-30 | the lower-case patterns accept exactly the words of each class's list |
| Lexer.WordListsDisjoint | src/lexer.rs:5-30 | no word is listed under two classes, so classification is unambiguous ("i" and "is", "my" and "myself" are different classes) |
| Lexer.Lower | src/lexer.rs:5-30 | ASCII case folding keeps the length and folds each character on its own |
| Lexer.LowerIdempotent | src/lexer.rs:5-30 | folding a word that is already folded changes nothing |
| Lexer.OrdinalRoundTrip | src/parser/parse_error.rs:22-27 | every token kind has a position in the kinds' declared order, below the kind count, and that position names it back |
| Lexer.KindOfOrdinal | src/parser/parse_error.rs:22-27 | exactly the positions below the kind count name a kind, and each names the kind at that position |
| Lexer.OrdinalInjective | src/parser/parse_error.rs:22-27 | two kinds at the same position are the same kind, so the order is total |
| Source.New | src/parser/source.rs:9-11 | a new cursor is valid and stands at the first token |
| Source.SkipWs | src/parser/source.rs:22-28 | skipping moves forward over whitespace only and stops at the end or at a non-whitespace token, without changing what lies ahead |
| Source.NextToken | src/parser/source.rs:13-20 | returns nothing exactly when no significant token is left; otherwise returns the next significant token and moves past it |
| Source.LookaheadFrom | src/parser/source.rs:34-46 | the kind found is that of the amount-th significant token from the index, or nothing when fewer remain |
| Source.Lookahead | src/parser/source.rs:34-46 | there is a result exactly when more than `amount` significant tokens remain, and it is never whitespace |
| Source.PeekAgreesWithNextToken | src/parser/source.rs:30-32 | peeking sees nothing exactly when taking the next token gets nothing, and otherwise sees that token's kind |
| Source.SignificantHasNoWhitespace | src/parser/source.rs:13-28 | the tokens the parser can see include no whitespace |
| Events.WalkAppend | src/parser/event.rs:1-9 | nesting depth can be followed piecewise through a concatenated log |
| Events.BalancedAppend | src/parser/event.rs:1-9 | two well-nested logs concatenate to a well-nested log |
| Events.BalancedWrap | src/parser/event.rs:1-9 | a well-nested log wrapped in a start and a finish is well nested |
| Events.WalkableIsResolved | src/parser/event.rs:1-9 | a log whose nesting can be followed holds no marker placeholder and no deferred start |
| Events.WalkCounts | src/parser/event.rs:1-9 | in a log whose nesting can be followed, starts minus finishes is the change in depth |
| Parser.New | src/parser/imp.rs:15-20 | a new parser has an empty log and a cursor at the first token |
| Parser.Start | src/parser/imp.rs:22-27 | starting a node appends one placeholder and leaves the earlier log alone; its marker can be completed |
| Parser.Complete | src/parser/imp/marker.rs:19-28 | completing a marker turns its placeholder into a start of the kind, appends a finish, and changes no other event |
| Parser.CompleteIsSingleUse | src/parser/imp/marker.rs:19-28 | a marker cannot be completed a second time, because its placeholder is gone |
| Parser.StartCompleteGrows | src/parser/imp/marker.rs:19-28 | a node started, filled by well-nested parsing and completed leaves the log well nested and records the same texts |
| Parser.Peek | src/parser/imp.rs:65-67 | sees the kind of the next significant token, or nothing at the end |
| Parser.At | src/parser/imp.rs:43-45 | true exactly when the next significant token has the kind |
| Parser.AtEof | src/parser/imp.rs:47-49 | true exactly when no significant token is left |
| Parser.Bump | src/parser/imp.rs:51-55 | panics exactly at the end; otherwise consumes one token and logs it with its kind and text |
| Parser.SkipToken | src/parser/imp.rs:57-63 | panics exactly at the end; otherwise consumes one token and logs its text with the kind Skip |
| Parser.Expect | src/parser/imp.rs:35-41 | succeeds exactly when at the kind, then acts as bump; otherwise panics naming the expected and the found kind |
| Parser.Lookahead | src/parser/imp.rs:69-72 | with a positive amount, the kind of the amount-th significant token ahead, if there are that many |
| Parser.GrowsTrans | src/parser/imp.rs:29-33 | parser progress composes: an extended log that stays well nested and consumes input in order, twice, is one such step |
| Grammar.ParseTerminator | src/parser/grammar.rs:195-200 | succeeds exactly at a ‘.’ or ‘!’ and bumps it; anything else panics |
| Grammar.SkipComment | src/parser/grammar.rs:35-37 | never fails; stops at the end or at a terminator, and logs every skipped token as Skip |
| Grammar.ParseCharacterDef | src/parser/grammar.rs:28-43 | on success opens a CharacterDef node whose comment node follows the name |
| Grammar.ParseDialog | src/parser/grammar.rs:45-55 | on success consumes input, keeps the log well nested and opens a Dialog node where it started |
| Grammar.ParseSentences | src/parser/grammar.rs:52 | stops exactly at a token that cannot start a sentence |
| Grammar.ParseSentence | src/parser/grammar.rs:57-66 | does nothing and reports false exactly when the next token starts no sentence; otherwise opens the node its first word selects |
| Grammar.ParseStatement | src/parser/grammar.rs:68-79 | on success consumes input and opens a Statement node |
| Grammar.ParseExpr | src/parser/grammar.rs:81-115 | leaves a terminator untouched; `nothing` opens a NothingExpr; otherwise it needs an article and opens a NounExpr or a BinExpr |
| Grammar.ParseNothingExpr | src/parser/grammar.rs:82-87 | logs exactly a NothingExpr node around the one `nothing` token |
| Grammar.NounPhraseLenMeans | src/parser/grammar.rs:117-138 | an accepted noun phrase is a run of adjectives closed by one noun |
| Grammar.NounWords | src/parser/grammar.rs:118-135 | succeeds exactly when the tokens ahead begin with a noun phrase, and consumes exactly that phrase |
| Grammar.ParseNounExpr | src/parser/grammar.rs:117-138 | succeeds exactly when the tokens ahead begin with adjectives closed by a noun, consumes exactly those, and completes the expression's marker as a NounExpr |
| Grammar.ExpectAll | src/parser/grammar.rs:150-156 | a chain of expects succeeds exactly when the tokens ahead have those kinds, and consumes them |
| Grammar.BinShapeByHead | src/parser/grammar.rs:141-158 | the words that must follow an operator are decided by the operator alone, and a non-operator is never accepted |
| Grammar.BinOperator | src/parser/grammar.rs:141-158 | succeeds exactly when the tokens ahead are an operator followed by that operator's words |
| Grammar.ParseBinExpr | src/parser/grammar.rs:140-167 | on success completes the expression's marker as a BinExpr around two operands |
| Grammar.ParseIntOutput | src/parser/grammar.rs:169-180 | succeeds exactly on `Open`, a second-person possessive, `heart` and a terminator, consumes exactly those four tokens, and opens an IntOutput node |
| Grammar.ParseCharOutput | src/parser/grammar.rs:182-193 | succeeds exactly on `Speak`, a second-person possessive, `mind` and a terminator, consumes exactly those four tokens, and opens a CharOutput node |
| Grammar.CharacterList | src/parser/grammar.rs:211-220 | on success consumes input and keeps the log well nested |
| Grammar.ParseStageDirection | src/parser/grammar.rs:202-230 | on success opens a StageDirection node |
| Grammar.ParseCharacterItem | src/parser/grammar.rs:8-14 | a name followed by ‘:’ is parsed as a dialog, one followed by ‘,’ as a character definition, and any other name panics |
| Grammar.RootLoop | src/parser/grammar.rs:7-23 | when the loop ends, all input is consumed and the log stays well nested |
| Grammar.RootDispatchPanics | src/parser/grammar.rs:9-13 | a name followed by neither ‘:’ nor ‘,’ makes the whole parse panic |
| Grammar.RootStuck | src/parser/grammar.rs:7-23 | a token that starts no item makes the loop repeat forever without consuming input |
| Grammar.Root | src/parser/grammar.rs:4-26 | on success consumes all input and logs one Root node around a well-nested body |
| Grammar.Parse | src/parser/imp.rs:29-33 | the log is one Root node, well nested, has no leftover placeholder, and records every significant token's text once, in order |
| Grammar.ParseNothing | src/parser/grammar.rs:4-26 | input with no significant token gives exactly an empty Root node |
| Grammar.ExpectTakes | src/parser/imp.rs:35-41 | `expect` succeeds exactly when the next significant token has the kind, and then consumes that one token |
| Grammar.TerminatorTakes | src/parser/grammar.rs:195-200 | a terminator succeeds exactly at ‘.’ or ‘!’ and consumes that one token |
| Grammar.CommentTakes | src/parser/grammar.rs:35-37 | the skip loop consumes exactly the tokens before the first terminator, or all of them |
| Grammar.CommentLenMeans | src/parser/grammar.rs:35 | no token the skip loop consumes is a terminator |
| Grammar.CharacterDefTakes | src/parser/grammar.rs:28-43 | a character definition succeeds exactly on a name, ‘,’, a comment and a terminator, and consumes exactly those tokens |
| Grammar.CharacterDefEndsWithTerminator | src/parser/grammar.rs:34-42 | once the comma is accepted, the definition succeeds exactly when the terminator after the comment does, and stops where it stops |
| Grammar.DialogTakes | src/parser/grammar.rs:45-55 | a dialog succeeds exactly on a name, ‘:’ and a run of well-formed sentences, and consumes exactly those tokens |
| Grammar.DialogEndsSentences | src/parser/grammar.rs:52 | after a dialog the next token starts no sentence |
| Grammar.SentencesTakes | src/parser/grammar.rs:52 | the sentence loop consumes exactly the longest run of well-formed sentences, and fails exactly when a started sentence is malformed |
| Grammar.SentenceTakes | src/parser/grammar.rs:57-66 | one sentence succeeds exactly when the tokens ahead begin with a statement, an output sentence or no sentence at all, reports whether one was there, and consumes exactly it |
| Grammar.StatementTakes | src/parser/grammar.rs:68-79 | a statement succeeds exactly on `you`, a Be word, an expression and a terminator, and consumes exactly those tokens |
| Grammar.TerminatedTakes | src/parser/grammar.rs:75-76 | an expression followed by a terminator is consumed exactly when both are well formed |
| Grammar.ExprTakes | src/parser/grammar.rs:81-115 | an expression succeeds exactly when the tokens ahead begin with `nothing`, a terminator, or an article and a noun phrase or binary expression, and consumes exactly that expression |
| Grammar.ArticleExprTakes | src/parser/grammar.rs:93-114 | after an accepted article, the expression is a noun phrase or a binary expression, consumed exactly |
| Grammar.BinTakes | src/parser/grammar.rs:140-167 | a binary expression succeeds exactly on an operator's words followed by two operands joined by `and`, and consumes exactly those tokens |
| Grammar.OperandsTakes | src/parser/grammar.rs:160-164 | two expressions joined by `and` are consumed exactly when both are well formed |
| Grammar.OutputTakes | src/parser/grammar.rs:169-193 | an output sentence succeeds exactly on its verb, a second-person possessive, its target noun and a terminator, and consumes exactly those four tokens |
| Grammar.OutputEndsWithTerminator | src/parser/grammar.rs:172-179 | once the three words are accepted, an output sentence succeeds exactly when its terminator does |
| Grammar.CharacterListTakes | src/parser/grammar.rs:211-220 | the character list succeeds exactly on names joined by `and` and closed by ‘]’, and consumes exactly those tokens |
| Grammar.CharacterListLenMeans | src/parser/grammar.rs:211-220 | an accepted list alternates names and `and`, starting with a name and ending with ‘]’ |
| Grammar.StageDirectionTakes | src/parser/grammar.rs:202-230 | a stage direction succeeds exactly on ‘[’ followed by Enter or Exit and a character list, or by Exeunt and ‘]’, and consumes exactly those tokens |
| Grammar.StageBodyTakes | src/parser/grammar.rs:207-227 | after ‘[’, the direction word selects the rest, and any other token panics |
| Grammar.CharacterItemTakes | src/parser/grammar.rs:8-14 | an item starting with a name is a dialog after ‘:’, a definition after ‘,’, and otherwise a panic, consuming exactly the item |
| Grammar.PassTakes | src/parser/grammar.rs:7-23 | one pass of the root loop consumes exactly an optional name-led item and then an optional stage direction, and consumes nothing exactly when neither starts |
| Grammar.RootLoopAccepts | src/parser/grammar.rs:7-23 | the root loop succeeds exactly when the input is a sequence of passes that each consume something |
| Grammar.RootAcceptsExactly | src/parser/grammar.rs:4-26 | `root` succeeds exactly on the inputs the token-level grammar accepts |
| Grammar.ParseAccepts | src/parser/imp.rs:29-33 | parsing succeeds exactly when the significant tokens are accepted by the token-level grammar |
| GrammarCases.ParseExeunt | src/parser/grammar.rs:357-367 | `[Exeunt]` logs a Root node holding one StageDirection node around its three tokens |
| GrammarCases.ParseEnterCharacters | src/parser/grammar.rs:324-340 | `[Enter Hamlet and Romeo]` logs one StageDirection node around its six significant tokens, without the spaces |
| GrammarCases.ParseExitCharacters | src/parser/grammar.rs:342-355 | `[Exit Juliet]` logs one StageDirection node around its four significant tokens |
| GrammarCases.ParseDialog0 | src/parser/grammar.rs:370-388 | `Juliet: You are nothing.` logs a Dialog node holding a Statement node whose expression is a NothingExpr around `nothing` |
| GrammarCases.ParseNumOutput | src/parser/grammar.rs:534-552 | `Juliet: Open your heart!` logs a Dialog node holding an IntOutput node around its four words |
| GrammarCases.ParseCharOutput | src/parser/grammar.rs:554-572 | `Juliet: Speak your mind.` logs a Dialog node holding a CharOutput node around its four words |
| GrammarCases.DialogOne | src/parser/grammar.rs:45-55 | a name, ‘:’ and one sentence that reaches the end are one Dialog node around the name, the colon and that sentence's log |
| Syntax.EmptyBuilder | src/parser/sink.rs:21-45 | a fresh builder has no open node and no children |
| Sink.Rotate | src/parser/sink.rs:22-29 | removing an event and inserting one at an earlier index shifts exactly the events between them by one |
| Sink.RotateKeepsNonStarts | src/parser/sink.rs:22-29 | moving a start event changes no other event and their order |
| Sink.RotateKeepsStartKinds | src/parser/sink.rs:22-29 | moving a start event keeps the same multiset of opened kinds |
| Sink.MoveToCheckpoint | src/parser/sink.rs:25-26 | a deferred start is replaced by a plain start at its checkpoint, and everything else keeps its order |
| Sink.Reorder | src/parser/sink.rs:22-29 | the reordered log has no deferred start, keeps every other event in order and the same opened kinds, and changes nothing when there was no deferred start |
| Sink.Replay | src/parser/sink.rs:31-42 | a log that still holds a deferred start or a placeholder always fails |
| Sink.ReplayWalk | src/parser/sink.rs:31-42 | replaying a log whose nesting can be followed succeeds, keeps the outer open nodes, and adds the logged texts as leaves in order |
| Sink.ReplayAppend | src/parser/sink.rs:31-42 | replaying a concatenation is replaying the first part, then the second |
| Sink.Finish | src/parser/sink.rs:21-45 | a log that still holds a marker placeholder never builds a tree; a Root node around a well-nested log always builds a Root tree whose leaves are the logged token texts in order |
| Sink.RootLogReplays | src/parser/sink.rs:21-45 | a Root node around a well-nested log needs no reordering and replays into one Root node whose leaves are the logged texts |
| Sink.BareRoot | src/parser/sink.rs:21-45 | a start and finish of Root alone build an empty Root tree |
| Pipeline.ParseTree | src/parser.rs:15-22 | parsing fails exactly when the grammar panics; otherwise the tree is a Root whose leaves are the significant token texts in order |
| Pipeline.EmptyInputIsBareRoot | src/parser.rs:15-22 | input of whitespace only parses to an empty Root |
| ParseErrors.Sorted | src/parser/parse_error.rs:22-27 | lists each expected kind exactly once, in ascending kind order |
| ParseErrors.StrictlySortedUnique | src/parser/parse_error.rs:22-27 | only one strictly ascending list has a given set of members, so the listing is the set's iteration order |
| ParseErrors.CommaSeparate | src/parser/parse_error.rs:40-54 | the items are joined with commas and a final "or"; nothing for none, the item for one, "a or b" for two |
| ParseErrors.WrittenIsJoin | src/parser/parse_error.rs:43-51 | before the last item, the loop's output is the items so far joined by commas |
| ParseErrors.Display | src/parser/parse_error.rs:13-38 | the range header, the expected spellings in kind order as an "or" list, and " but found" with the found spellings when there is one |
| ParseErrors.DisplayStartsWithRange | src/parser/parse_error.rs:15-20 | every message begins with the error's range header |
| Decimal.NatToString | src/eval.rs:64-67 | the decimal digits denote the number, with no leading zero |
| Decimal.IntToString | src/eval.rs:64-67 | a negative number is a minus sign followed by the digits of its magnitude |
| Ast.RootCast | src/ast.rs:8-13 | a node is a root exactly when its kind is Root |
| Ast.ItemCast | src/ast.rs:28-37 | a node is an item exactly when its kind is one of the three item kinds, and the variant matches the kind |
| Ast.SentenceCast | src/ast.rs:110-119 | a node is a sentence exactly when its kind is one of the three sentence kinds, and the variant matches the kind |
| Ast.ExprCast | src/ast.rs:139-148 | a node is an expression exactly when its kind is one of the three expression kinds, and the variant matches the kind |
| Ast.AdjectiveCast | src/ast.rs:178-185 | a token is an adjective exactly for the three adjective kinds, each to its own variant |
| Ast.NounCast | src/ast.rs:238-245 | a token is a noun exactly for the three noun kinds, each to its own variant |
| Ast.DirectionCast | src/ast.rs:65-70 | a token is a direction exactly for Enter, Exit and Exeunt, each to its own variant |
| Ast.OperationCast | src/ast.rs:208-215 | a token is an operation exactly for the five operator kinds, each to its own variant |
| Ast.ItemsFrom | src/ast.rs:15-17 | every item is a child node of the root, in the variant of its kind |
| Ast.ItemsHas | src/ast.rs:15-17 | every child node of an item kind is among the items |
| Ast.Character | src/ast.rs:44-46 | a name, when found, is the text of the node's first leaf |
| Ast.DirectionOf | src/ast.rs:53-71 | there is a direction exactly when a direct token is Enter, Exit or Exeunt, and it comes from such a token |
| Ast.CharactersFrom | src/ast.rs:73-79 | every listed name is the text of a direct Character token |
| Ast.CharactersHas | src/ast.rs:73-79 | every direct Character token's text is listed |
| Ast.SentencesFrom | src/ast.rs:97-99 | every sentence is a child node of the dialog, in the variant of its kind |
| Ast.SentencesHas | src/ast.rs:97-99 | every child node of a sentence kind is among the sentences |
| Ast.FirstExprIsHead | src/ast.rs:126-128 | a statement's expression is the first expression child, and there is none exactly when there are no expression children |
| Ast.SecondExpr | src/ast.rs:222-224 | a right operand exists only when there is a left one, and it is the second expression child |
| Ast.OperandsFrom | src/ast.rs:218-224 | both operands are child nodes of the expression, in the variant of their kind |
| Ast.AdjectivesFrom | src/ast.rs:155-160 | every adjective comes from a direct adjective token |
| Ast.AdjectivesHas | src/ast.rs:155-160 | every direct adjective token contributes its adjective |
| Ast.NounOf | src/ast.rs:162-167 | there is a noun exactly when some direct token is a noun |
| Ast.OperationOf | src/ast.rs:192-216 | there is an operation exactly when some direct token is an operator |
| Ast.FindMapIsFirst | src/ast.rs:126-128 | finding the first match is taking the head of all matches |
| Hir.EmptyDatabase | src/hir.rs:7-8 | a new arena is empty and well formed |
| Hir.Alloc | src/hir/database.rs:63-64 | allocation appends one entry at the next index and keeps every operand pointing to an earlier entry |
| I64.TruncDiv | src/eval.rs:97 | `/` rounds toward zero: the magnitude is the quotient of the magnitudes, and a nonzero result is negative exactly when the signs differ |
| I64.TruncDivBrackets | src/eval.rs:97 | the truncated quotient times the divisor is within one divisor of the dividend, in magnitude |
| I64.TruncRem | src/eval.rs:95 | `%` leaves a remainder smaller than the divisor, with the dividend's sign, that completes the truncated division |
| I64.Div | src/eval.rs:97 | checked `/` panics exactly on a zero divisor or MIN by -1, and otherwise gives the truncated quotient |
| I64.Rem | src/eval.rs:95 | checked `%` panics exactly on a zero divisor or MIN by -1, and otherwise gives the truncated remainder |
| I64.CheckedPow2 | src/eval.rs:84 | `2_i64.pow(n)` succeeds exactly for exponents below 63, with the exact power |
| I64.AsU32 | src/eval.rs:84 | `as u32` keeps every count below 2^32 and always yields a 32-bit value |
| Hir.ResolveAtExtends | src/hir/database.rs:63-64 | extending the arena never changes what an existing entry denotes |
| Lowering.AllocBin | src/hir/database.rs:52-66 | a binary expression is built from two new arena entries holding its operands, and denotes the operator applied to their trees |
| Lowering.LowerExpr | src/hir/database.rs:43-67 | lowering fails exactly where a child is missing, with that error; otherwise it grows the arena by two entries per operator and the result denotes the expression's tree |
| Lowering.LowerBin | src/hir/database.rs:52-66 | both operands are lowered left to right before either is allocated, and the result denotes the binary tree |
| Lowering.LowerSentence | src/hir/database.rs:35-41 | a statement fails exactly when its expression is missing or cannot be lowered; otherwise its expression denotes the statement's tree |
| Lowering.LowerSentences | src/hir/database.rs:27-30 | sentences are lowered in order; the first failure is the result; otherwise each lowered sentence denotes its own tree |
| Lowering.LowerItem | src/hir/database.rs:12-33 | fails exactly at the first missing name, direction or expression; otherwise the item denotes its typed node, and only a dialog touches the arena |
| Lowering.LowerItems | src/hir.rs:9 | items are lowered in order; the first failure is the result; otherwise each item denotes its own typed node |
| Lowering.Lower | src/hir.rs:7-11 | lowering a root fails exactly at its first failing item; otherwise the items denote the root's items over a well-formed arena |
| Lowering.FirstErr | src/hir/database.rs:27-30 | reports the earliest failure in a list, or nothing when all succeeded |
| Lowering.ItemDenotesExtends | src/hir/database.rs:12-33 | a lowered item keeps its meaning when later items extend the arena |
| Eval.NewEvaluator | src/eval.rs:5-9 | an evaluator starts with no characters and an empty stage |
| Eval.EvalNoun | src/eval.rs:78-85 | a noun is worth its sign times two to the number of adjectives, whatever they are; from 63 adjectives, with the count truncated to 32 bits, the power overflows |
| Eval.Apply | src/eval.rs:94-100 | each operator gives the exact result when it fits in `i64` and overflows otherwise; `/` and `%` truncate and panic exactly on a zero divisor or on MIN by -1 |
| Eval.EvalTree | src/eval.rs:76-103 | a tree's value, when it has one, fits in `i64`; a tree holding `Nothing` never has one |
| Eval.EvalAt | src/eval.rs:76-103 | evaluating an arena entry gives the value of the tree it denotes |
| Eval.EvalExpr | src/eval.rs:76-103 | evaluating an expression whose operands lie in the arena gives the value of the tree it denotes; one with an operand past the end panics |
| Eval.Position | src/eval.rs:41 | finds the first occurrence of a name in the stage list, or nothing exactly when it is absent |
| Eval.Define | src/eval.rs:15-18 | a definition adds the name with value 0, off stage, replacing any earlier state, and changes nothing else |
| Eval.Exeunt | src/eval.rs:23-27 | the corrected Exeunt: every character keeps its value and is off stage, the stage list is emptied, and the state is consistent |
| Eval.ExeuntBy | src/eval.rs:23-27 | under either rule every flag is cleared and every value kept; as written the stage list is left as it was, under the corrected rule it is emptied |
| Eval.EnterOne | src/eval.rs:29-34 | entering fails for an undeclared name, then for one already on stage, then on a full stage; otherwise the name is appended and marked on stage |
| Eval.ExitOne | src/eval.rs:37-43 | leaving fails for an undeclared name or one not on stage; otherwise the name is marked off stage and removed once from the stage list |
| Eval.EnterAll | src/eval.rs:28-35 | a successful Enter appends the names to the stage list in order, keeps it at most two long, and raises exactly those names' flags without changing any value |
| Eval.ExitAll | src/eval.rs:36-44 | a successful Exit removes the names from the stage list, one occurrence each, and lowers exactly those names' flags without changing any value |
| Eval.Listener | src/eval.rs:50-57 | a dialog needs exactly two on stage, including the speaker; the listener is the other one |
| Eval.Statement | src/eval.rs:61-67 | a statement succeeds exactly when its operands lie in the arena, its value computes and the listener is declared; then only the listener's value changes and one line is printed |
| Eval.Statements | src/eval.rs:59-70 | a dialog prints at most one line per statement, exactly one per statement when it succeeds, and then changes only the listener's value |
| Eval.StatementsPrint | src/eval.rs:59-70 | the i-th printed line names the listener, the i-th statement's value and the speaker; a failure stops at the first statement without a value or with an undeclared listener |
| Eval.StatementsLast | src/eval.rs:62-63 | after a successful dialog the listener holds the value of the last statement |
| Eval.EvalItem | src/eval.rs:13-72 | a definition resets the name; Exeunt clears every flag and, as written, keeps the stage list; Enter and Exit add or remove their names and flags; a dialog fails silently without a valid listener and otherwise prints the listener, each statement's value and the speaker |
| Eval.Run | src/eval.rs:13 | running no items changes nothing and prints nothing |
| Eval.RunCons | src/eval.rs:13 | running a list is evaluating its first item and then, if that did not panic, the rest |
| Eval.SilentWithoutDialogs | src/eval.rs:14-45 | a list without dialogs prints nothing |
| Eval.Evaluate | src/eval.rs:12-74 | no items leave a fresh evaluator; a first dialog panics with fewer than two on stage; a first Enter or Exit panics on its undeclared first name; a successful run leaves every listed name declared, every raised flag listed and at most two listed |
| Eval.Then | src/eval.rs:13 | after a panic nothing more runs; otherwise what was printed so far stays a prefix of the output |
| Eval.RunAppend | src/eval.rs:13 | running two item lists in turn is running their concatenation: outputs concatenate and the first panic stops everything |
| Eval.ThenAssoc | src/eval.rs:13 | continuing with two lists in turn is continuing with their concatenation |
| Eval.DefineKeepsConsistent | src/eval.rs:15-18 | defining a name not on stage keeps the stage list and the flags in agreement |
| Eval.EnterOneKeepsConsistent | src/eval.rs:29-34 | a successful entry keeps the stage at most two, duplicate-free, and in agreement with the flags |
| Eval.ExitOneKeepsConsistent | src/eval.rs:37-43 | a successful exit keeps the stage list and the flags in agreement |
| Eval.EnterAllKeepsConsistent | src/eval.rs:29-34 | a successful Enter direction keeps the state consistent |
| Eval.ExitAllKeepsConsistent | src/eval.rs:37-43 | a successful Exit direction keeps the state consistent |
| Eval.ExitNeverUnlisted | src/eval.rs:41 | in a consistent state the position lookup on exit never fails |
| Eval.ListenerIsOther | src/eval.rs:53-57 | in a consistent state the listener is on stage and is not the speaker |
| Eval.EvalItemKeepsConsistent | src/eval.rs:13-72 | every item keeps the state consistent, given no on-stage character is redefined and Exeunt empties the stage |
| Eval.ConsistentIsCovered | src/eval.rs:8 | a consistent state is covered: at most two listed, every listed name declared, every raised flag listed |
| Eval.ExitOneKeepsCovered | src/eval.rs:37-43 | a successful exit keeps the state covered |
| Eval.EnterAllKeepsCovered | src/eval.rs:28-35 | a successful Enter direction keeps the state covered |
| Eval.ExitAllKeepsCovered | src/eval.rs:36-44 | a successful Exit direction keeps the state covered |
| Eval.EvalItemKeepsCovered | src/eval.rs:13-72 | every item, including Exeunt as written, keeps the state covered |
| Eval.RunKeepsCovered | src/eval.rs:13 | a successful run from a covered state ends covered |
| Eval.ExeuntAsWritten | src/eval.rs:23-27 | the loop as written clears every flag but leaves the stage list as it was |
| Cases.LexBe | src/lexer.rs:51-57 | "am", "Are", "aRT", "be" and "iS" are all Be |
| Cases.LexArticle | src/lexer.rs:60-64 | "a", "aN" and "The" are articles |
| Cases.LexFirstPerson | src/lexer.rs:67-70 | "I" and "me" are first person |
| Cases.LexFirstPersonReflexive | src/lexer.rs:73-76 | "myself" and "Myself" are first-person reflexive |
| Cases.LexFirstPersonPossessive | src/lexer.rs:79-82 | "mine" and "My" are first-person possessive |
| Cases.LexSecondPerson | src/lexer.rs:85-89 | "thee", "Thou" and "yOu" are second person |
| Cases.LexSecondPersonReflexive | src/lexer.rs:92-95 | "thyself" and "Yourself" are second-person reflexive |
| Cases.LexSecondPersonPossessive | src/lexer.rs:98-102 | "thine", "Thy" and "yoUR" are second-person possessive |
| Cases.LexThirdPersonPossessive | src/lexer.rs:105-110 | "his", "Her", "iTs" and "theIR" are third-person possessive |
| Cases.OneExpectedDidFind | src/parser/parse_error.rs:80-88 | the message for expecting ‘.’ and finding ‘?’ at 91..92 |
| Cases.OneExpectedDidntFind | src/parser/parse_error.rs:90-98 | the message for expecting ‘.’ and finding nothing |
| Cases.MultipleExpectedDidFind | src/parser/parse_error.rs:100-112 | three expected kinds are listed in kind order with a final "or" |
| Cases.MultipleExpectedDidntFind | src/parser/parse_error.rs:114-122 | two expected kinds are joined by "or" |
| Cases.NounValues | src/eval.rs:78-101 | "a fine lord" is 2, two adjectives give 4, a bare negative noun is -1, and a sum adds |
| Cases.QuotientOverflows | src/eval.rs:95-97 | MIN divided by -1 overflows; `%` and `/` truncate toward zero |
| Cases.SceneDeclares | src/eval.rs:15-18 | defining Romeo and Juliet gives both value 0, off stage |
| Cases.SceneEnters | src/eval.rs:28-35 | Romeo and Juliet enter in that order and are both flagged on stage |
| Cases.SceneSpeaks | src/eval.rs:59-68 | Romeo's "You are a fine lord" sets Juliet to 2 and prints "Juliet set to 2 by Romeo" |
| Cases.SceneLeaves | src/eval.rs:23-27 | as written Exeunt clears both flags and keeps the two names listed; the corrected Exeunt empties the list |
| Cases.SceneSetsJuliet | src/eval.rs:12-74 | defining two characters, entering, one dialog line and Exeunt print one line and leave both off stage with the new value, still listed |
| Cases.ExeuntThenSpeak | src/eval.rs:23-68 | after Exeunt as written, Romeo can still speak to Juliet although both are off stage: "Juliet set to 1 by Romeo" is printed |
| Cases.ExeuntAsWrittenBlocksEnter | src/eval.rs:23-35 | after two enter and all leave as written, the state is inconsistent and a third character cannot enter |
| Cases.ExeuntLetsEnter | src/eval.rs:23-35 | with the corrected Exeunt, a third character can enter and is alone on stage |

## Left out

- The logos scanner is not modelled. Classification applies to one whole word, with ASCII case folding. Splitting the input into words and whitespace is assumed done. The lexer's token list is a parameter.
- The `SyntaxKind` enum and the `to_strs` spellings are not part of this model's sources. Kind order is a declared order consistent with the tests: ‘.’ before ‘!’ before ‘,’. The spellings are a parameter of `ParseErrors.Display`.
- src/main.rs is not part of this model (reading the file, printing). So is src/syntax.rs (rowan's language glue) and `Parse::debug_tree`. There is no single member running parse, lowering and evaluation in turn.
- The parser's event `AddToken` carries the token text. src/parser/imp.rs:54 builds it without the text, while src/parser/event.rs:8 and src/parser/sink.rs:37-39 need one. The model follows the event and sink files.
- `MarkerPlaceholder` has no case in the sink's `match`. A log still holding one is modelled as a failed build.
- The sink's `finish` returns a tree here. src/parser.rs:21 expects a value with an error list. Parse errors are never produced in this revision, so the list is left out.
- rowan's green tree, la_arena's `Arena`, `ArrayVec` and `DropBomb` are modelled by their behaviour: a builder stack, an appended sequence, a length-checked list, and a marker that must be completed.
- Lowering.LowerExpr: requires that no NothingExpr, IntOutput or CharOutput node lies below. The source's `match` has no case for them. This also excludes such a node that an earlier failing `unwrap` would never reach.
- Eval.EvalExpr: `eval_expr` has no arm for `Nothing`, and indexing the arena past its end panics. Both are modelled as errors (`NoValue`, `BadIndex`), so evaluation is total on any well-formed arena.
- Eval.EvalItemKeepsConsistent: requires that a redefined character is not on stage, because redefining one on stage clears its flag but leaves it in the stage list. It also requires that Exeunt empties the stage, because Exeunt as written breaks consistency (see Findings); Eval.EvalItemKeepsCovered states the weaker invariant that holds for every item as written.
- Eval.Evaluate: runs the evaluator as written, Exeunt included. The corrected Exeunt is the rule `Emptying` of `Eval.Run` and `Eval.EvalItem`, not a second copy of the evaluator.
- The grammar's character-definition tests (src/parser/grammar.rs:243-321) are not case lemmas. Their comments are split into tokens by the logos scanner's error recovery, which is not modelled. The all-input lemma Grammar.CharacterDefTakes covers their shape.
- The grammar's tests with several sentences or with binary and noun expressions (src/parser/grammar.rs:390-510, 574-606) are not case lemmas; each would be a long concrete trace. The all-input lemmas Grammar.SentencesTakes, Grammar.ExprTakes and Grammar.BinTakes cover their shapes.
- GrammarCases: the expected trees of src/parser/grammar.rs's tests include whitespace tokens and text ranges. The lemmas state the event log of the significant tokens instead, which is what the sink turns into a tree.
- Eval.EvalItem: a dialog's sentences are only statements, matching `hir::Sentence`. The output line is modelled as a string, not written to standard output.
- Grammar.RootStuck: a root loop that cannot consume is reported as a distinct error rather than running forever.

## Findings

| source | as written | input that shows it | evidently intended | confidence | as-written member | corrected member |
|---|---|---|---|---|---|---|
| src/eval.rs:23-27 | Exeunt clears every character's on-stage flag but does not empty the `on_stage` list | `[Enter Romeo and Juliet]` `[Exeunt]` `[Enter Hamlet]`: the third entry pushes onto a list that still holds two names and panics; and after `[Exeunt]` Romeo can still speak to Juliet | Exeunt empties the stage list too, so anyone can enter afterwards and no one off stage speaks | not executed | Cases.ExeuntAsWrittenBlocksEnter | Cases.ExeuntLetsEnter |
