# Static-analysis engine and ratchets: a verified model

This project models, in Dafny, the checkers that guard the repository's architecture: the
TypeScript literal and constant engine behind the frontend boundary checks, the token-level
scope and alias analysis, the Rust use-tree parser, the shrink-only ledgers and censuses,
colour-token resolution, the migration-history check and the Rust comment stripper. It
proves what those tools are relied on for: nothing is missed, nothing is double-booked, and
a ratchet only turns one way.

`dafny verify dfyconfig.toml` checks the whole project.

| file | models |
|---|---|
| `Text`, `Lists` | code points, decimal numerals, Python's `sorted`, filters, string order |
| `JsStrings`, `Prefilter` | the two JavaScript string decoders; the raw-text prefilter |
| `Tokens`, `Identifiers`, `LexerLines` | token spans; identifiers with escapes; line counting |
| `LexerMachine`, `LexerRuns` | the lexer as a machine with an explicit stack; what its one run says about regexes, strings and lines |
| `LexerSpec`, `Lexer` | what tokens say and what is covered; the mutually recursive scanners of `_TypeScriptLexer` |
| `LexerLimits`, `PlainLexer`, `HarmlessText`, `AsciiSetting` | texts the lexer miscounts or raises on; texts it reads in one pass, and texts it never raises on; values for the arbitrary parameters |
| `ConstEval`, `Assembly`, `PrefilterLimits`, `Screening` | the flat-token constant evaluator; where its strings come from; what the prefilter misses; the file skip |
| `ExprTree`, `ExprFlat`, `ExprEval`, `ExprLimits`, `TemplateTree` | expression trees, their printed tokens, the evaluator's tree semantics and where it errs, and lexed templates as trees |
| `Brackets`, `Patterns`, `PatternTree`, `Aliases` | bracket pairing, destructuring names, alias closure |
| `UseTree` | the Rust use-tree parser |
| `Colour`, `Theme` | compositing, mixing, contrast; token resolution |
| `Ledger`, `Census`, `MypyBaseline` | the three ratchets |
| `Migrations` | the migration graph |
| `RustStrip`, `Admission` | comment and string stripping; admission before effect |

Source text is a sequence of code points (integers), because Python strings may hold lone
surrogates that Dafny's `char` excludes. Imperative source is imperative here: the lexer,
the use-tree parser and the two baseline files are classes with mutable fields; every loop
of the source is a loop with invariants, proved against a specification function whose
properties are separate lemmas. Guesses of the lexer (may a regex start here, does this look
like JSX), Unicode character classes, what Python reads and spells as numbers, literal colour
syntax, the 2.4 power and JSON decoding are arbitrary parameters, so the results hold for
every choice of them.

Where the code differs from what its comments promise, the model follows the code:

- A regex escape skips a line feed without counting it, and a string counts a lone carriage
  return behind a backslash. So a token is on its true line exactly when these drifts cancel
  out before it (`LexerRuns.LineIsTrueIff`, `LexerRuns.LineIsLateIff`,
  `LexerLimits.LineIsMiscounted`, `LexerLimits.ReturnIsMiscounted`).
- An interpolated character that is a digit but no decimal digit (`${²}`), or a numeral with
  more digits than Python reads, raises out of the lexer
  (`Lexer.TypeScriptLexer.Scan`, `LexerLimits.InterpolationRaises`); a text without digits,
  plus signs and backslashes never does (`HarmlessText.HarmlessTextIsLexed`).
- A backslash before U+2028 or U+2029 does not continue the line, and octal escapes other
  than `\0` are not decoded (`JsStrings.CookedIsStandardIff`, `JsStrings.UnfaithfulBodies`).
- A `?` that touches a numeral's leading point is taken for optional chaining. Then the
  conditional is not seen, or another one is: the expression may not be evaluated, or be
  evaluated to a wrong constant (`ExprEval.RootConditional`,
  `ExprLimits.DotAfterQuestionIsLost`, `ExprLimits.TouchingIsWrong`).
- A numeral with a leading zero is read as decimal, where the standard reads legacy octal
  (`ExprTree.DecimalIsStandardIff`).
- A pattern name spelled like a parameter modifier (`readonly`, `public`, ...) is skipped
  with the modifiers (`PatternTree.ExactIffNoModifierNames`, `PatternTree.ModifierNameIsMissed`).
- A `;` inside an unclosed use group makes the parser's loop run forever
  (`UseTree.ParserSpinsIff`, `UseTree.SemicolonInGroupSpins`).
- A raw site that spells an ordinal in use is excused by that ordinal's ledger entry
  (`Ledger.KeysUniqueIff`, `Ledger.OneMoreHit`, `Ledger.SpelledOrdinalIsExcused`).
- Once the stored census is empty, the next rewrite accepts any growth
  (`Census.WrittenIff`, `Census.EmptyCensusRestarts`).
- A migration cycle beside a lone head passes the single-head check
  (`Migrations.HeadReachesAllIff`, `Migrations.CycleIsAccepted`).
- Dropping white space joins words, so an admission call right after a keyword is not found,
  and a name torn apart by white space is (`Admission.FoundIsApartOrTorn`,
  `Admission.ReturnHidesCall`, `Admission.TornIsFound`); elsewhere a name is found exactly
  when it is called (`Admission.FoundIffCalled`).
- The Rust character literal of a double quote opens a string, and a nested block comment ends
  at the first comment end (`RustStrip.QuoteLiteralHidesCode`,
  `RustStrip.NestedCommentEndsEarly`).
- A stringified number, boolean or null is quoted nowhere in the source, so the prefilter
  can miss a request that needs one (`PrefilterLimits.MissesNothingIff`,
  `Screening.StringifiedNumberIsMissed`); the package it is used for needs none
  (`Screening.TailwindMergeIsPrimitiveFree`).

## Model

| member | source | states |
|---|---|---|
| JsStrings.DecodeJavascriptString | scripts/frontend_imports.py:72-124 | the whole-literal decoder, with its own branches, agrees with the one-character decoder iterated from the start |
| JsStrings.DecodeCharacter | scripts/frontend_imports.py:127-174 | every step advances and stays in the text; its meaning is given by `DecodeIsLocal` and `CookedMeaning` |
| JsStrings.DecodeIsLocal | scripts/frontend_imports.py:127-174 | decoding inside the whole text never looks past the closing delimiter, and the lexer's scan passes through where the character ends |
| JsStrings.InPlaceIsCookedSlice | scripts/frontend_imports.py:194-232 | decoding in place stops at the lexer's delimiter and yields exactly the cooked raw slice, whatever follows |
| JsStrings.CookedMeaning | scripts/frontend_imports.py:72-124 | on every body of a quoted literal (ECMA-262 (2023) section 12.9.4) the decoder reads unit by unit |
| JsStrings.CookedIsStandardIff | scripts/frontend_imports.py:72-124 | the result is the standard's value, in UTF-16 code units, iff no line is continued by U+2028 or U+2029 and no octal escape is used but a lone `\0` |
| JsStrings.UnfaithfulBodies | scripts/frontend_imports.py:72-124 | a concrete body of each kind that is decoded wrongly |
| Prefilter.AdvanceFragment | scripts/frontend_imports.py:194-232 | one piece completes the target iff some live offset is finished inside it; otherwise the offsets it adds are exactly those it carries forward |
| Prefilter.CouldContainLiteralSequence | scripts/frontend_imports.py:177-253 | accepts iff some choice of pieces, in source order, cooks and joins to a string that starts with the target |
| Tokens.CollapseAtomicTemplates | scripts/frontend_imports.py:2602-2613 | the loop computes `Collapse`, characterised by `CollapseIsOutermost` |
| Tokens.CollapseIsOutermost | scripts/frontend_imports.py:2602-2613 | on nested spans exactly the tokens inside no template are kept, and their spans are pairwise disjoint |
| Lexer.TypeScriptLexer.constructor | scripts/frontend_imports.py:257-261 | an empty token list over the given text |
| Lexer.TypeScriptLexer.Scan | scripts/frontend_imports.py:263-265 | on every text: terminates, and does what the machine does: raises iff its run raises, that is iff evaluating the tokens of some interpolation does; otherwise yields the one result of the run, with spans in range, sorted, disjoint or nested in templates; each token says what its span spells; its line is one plus the line feeds before it, less those in the regexes of the run, plus the escaped lone returns in its strings; nothing uncovered but white space, comments, regexes, JSX and an unclosed template |
| LexerMachine.OneEnd | scripts/frontend_imports.py:738-960 | the recursive scanners as a machine with an explicit stack, one lexeme a step: its run on a text ends in at most one way |
| LexerMachine.YieldsOnce | scripts/frontend_imports.py:738-960 | so a text has at most one result: tokens, their lines, and the regexes and strings passed; and none where the run raises |
| LexerRuns.StretchesAreAccounted | scripts/frontend_imports.py:292-388 | a regex was passed where an expression can start after the tokens scanned before it in its code; a string passed spans a string token or stands in a JSX tag; neither overlaps a token but a template around it |
| LexerRuns.LineIsTrueIff | scripts/frontend_imports.py:267-290 | a token is on its true line iff the drifts of the regexes and strings that end before it sum to zero |
| LexerRuns.DriftIs | scripts/frontend_imports.py:660-680 | a regex counts too few lines iff it holds a line feed, and never too many; a string counts one too many for every lone return it escapes |
| LexerRuns.LineIsLateIff | scripts/frontend_imports.py:660-680 | without carriage returns no line is too high, and a token's line is too low iff a regex that ends before it holds a line feed |
| Lexer.TypeScriptLexer.ScanLexeme | scripts/frontend_imports.py:870-950 | reads white space, a comment, a string, a template, a regex, a JSX element or an identifier, in this order of preference, and keeps all of the above; or says that a punctuation character stands here |
| Lexer.TypeScriptLexer.ScanCode | scripts/frontend_imports.py:865-960 | advances, keeps all of the above for the tokens it adds, stops right after the first closing brace it did not see opened or at the end, or raises |
| Lexer.TypeScriptLexer.ScanTemplate | scripts/frontend_imports.py:792-863 | one token in front of the tokens of its interpolations, nested in it, with pieces and interpolations in order; or an unclosed template that reaches the end |
| Lexer.TypeScriptLexer.ScanPieceChar | scripts/frontend_imports.py:800-808 | one character or escaped pair of a literal piece joins its raw body |
| Lexer.TypeScriptLexer.ScanInterpolation | scripts/frontend_imports.py:843-858 | one more hole, whose tokens fill it with braces balanced; the template stays constant iff the interpolation evaluates, and then gains its string; raises iff evaluation or conversion does |
| Lexer.TypeScriptLexer.EmitTemplate | scripts/frontend_imports.py:809-842 | the closing backtick emits a string token or a template token that is constant iff all interpolations are, spelling pieces and interpolated strings in order |
| Lexer.TypeScriptLexer.ScanQuoted | scripts/frontend_imports.py:267-290 | returns exactly the text up to the first unescaped quote, or to the end, counting its line feeds and the lone returns that a backslash precedes |
| Lexer.TypeScriptLexer.ScanRegex | scripts/frontend_imports.py:660-680 | ends where `RegexEnd` says: behind the flags after the first slash outside a class, at a bare line feed, or at the end; counts no line |
| LexerLines.RegexFeedsAreEscaped | scripts/frontend_imports.py:660-680 | every line feed inside a regex stands behind a backslash |
| LexerSpec.TameResult | scripts/frontend_imports.py:263-290 | where no backslash precedes a line feed or a lone return, every token is on its true line |
| LexerSpec.ConvertsIff | scripts/frontend_imports.py:843-858 | an interpolation raises iff Python refuses a step its evaluation needs, or the string of its value |
| LexerLimits.LineIsMiscounted | scripts/frontend_imports.py:660-680 | a concrete text whose last token is reported on the wrong line |
| LexerLimits.ReturnIsMiscounted | scripts/frontend_imports.py:267-290 | a concrete text whose escaped lone return puts the last token a line too high |
| LexerLimits.AsciiReadsRegexes | scripts/frontend_imports.py:292-294 | the two conditions under which these texts are misread are met by a lexer that knows ASCII |
| LexerLimits.InterpolationRaises | scripts/frontend_imports.py:843-858 | a concrete template on which lexing raises |
| HarmlessText.HarmlessTextIsLexed | scripts/frontend_imports.py:843-858 | lexing a text without digits, plus signs and backslashes does not raise |
| PlainLexer.PlainTextIsLexemes | scripts/frontend_imports.py:865-960 | on every text without slashes and backticks (and without `<` where JSX is read) the lexer yields exactly the tokens of one simple left-to-right pass, whatever its guesses |
| PlainLexer.PlainTextIsLexed | scripts/frontend_imports.py:865-960 | and those tokens, put on their lines, are the result of the run |
| Lexer.TypeScriptLexer.ScanIdentifier | scripts/frontend_imports.py:918-950 | a longest identifier whose value is spelled by its characters and Unicode escapes |
| Lexer.TypeScriptLexer.SkipLineComment | scripts/frontend_imports.py:878-882 | skips exactly to the next line feed or the end |
| Lexer.TypeScriptLexer.SkipBlockComment | scripts/frontend_imports.py:883-892 | skips exactly past the first comment end or to the end, counting lines |
| Lexer.TypeScriptLexer.ScanBraced | scripts/frontend_imports.py:749-753 | an expression in braces is scanned as code up to its own closing brace, with every token fact kept |
| Lexer.TypeScriptLexer.SkipAttribute | scripts/frontend_imports.py:745-748 | a quoted attribute is passed up to its closing quote or the end, and emits no token |
| Lexer.TypeScriptLexer.ScanJsxTag | scripts/frontend_imports.py:738-763 | advances over the tag; it is closing iff a slash follows its `<`, self-closing only if, and before the end of the text also if, a slash is last before its `>`; every token fact is kept for the expressions inside it |
| Lexer.TypeScriptLexer.ScanJsx | scripts/frontend_imports.py:765-790 | ends behind the first tag that leaves no element open, or at the end; every token fact is kept for the expressions inside it |
| ConstEval.ConstantTopLevelIndices | scripts/frontend_imports.py:2581-2599 | ascending, and exactly the indices outside all brackets |
| ConstEval.LastOperator | scripts/frontend_imports.py:2628-2636 | the last index where the operator stands at top level, or none when it stands nowhere |
| ConstEval.LastTopLevelPunctuator | scripts/frontend_imports.py:2628-2636 | the loop finds `LastOperator` |
| ConstEval.ConstantConditionalIndices | scripts/frontend_imports.py:2639-2667 | the loop finds the split that `ExprEval.RootConditional` proves to be the root of the tree |
| ConstEval.MatchingPairs | scripts/frontend_imports.py:1041-1051 | the loop pairs brackets as the evaluator's grouping test `ExprEval.GroupedIffParen` needs |
| ConstEval.TypeArgumentClose | scripts/frontend_imports.py:2018-2041 | finds the first `>`, not part of an arrow, at which as many angles were closed as opened, or none |
| ConstEval.TypeCloseIs | scripts/frontend_imports.py:2018-2041 | the scan's recursion answers with an index iff it is that first angle |
| ConstEval.LooksLikeAssertionType | scripts/frontend_imports.py:2833-2890 | holds iff there are tokens, all brackets close, and no token outside brackets continues a run-time expression, given whether `extends` came before |
| ConstEval.StripConstantTransparency | scripts/frontend_imports.py:2670-2720 | the loop reaches the fixed point of the stripping step |
| ConstEval.RaisesIff | scripts/frontend_imports.py:2723-2815 | evaluation raises iff Python refuses to read a numeral or to add or convert a value that the evaluation order demands |
| ExprFlat.RootIsLast | scripts/frontend_imports.py:2628-2636 | in the printed tokens of a tree the last top-level occurrence of its own operator is its root |
| ExprFlat.NoWeaker | scripts/frontend_imports.py:2745-2815 | no operator weaker than the tree's root shows at top level; tokens inside strings and templates never do |
| ExprEval.NoConditional | scripts/frontend_imports.py:2639-2667 | in the printed tokens of a tree that is no conditional, none is found at top level |
| ExprEval.RootConditional | scripts/frontend_imports.py:2639-2667 | the question mark and colon found are those of the root conditional iff neither its own question mark nor one of its first branch, outside brackets, touches a leading decimal point |
| ExprEval.GroupedIffParen | scripts/frontend_imports.py:2670-2720 | the first and last token pair up iff the tree is a parenthesised group |
| ExprEval.StripIsCore | scripts/frontend_imports.py:2670-2720 | stripping removes exactly the grouping parentheses around a tree |
| ExprEval.PrintedEvaluates | scripts/frontend_imports.py:2745-2815 | for every tree and layout in which no question mark touches a decimal point the flat evaluator on the printed tokens gives the tree's partial value, unknown and raising included |
| ExprEval.KnownConstantIsMeaning | scripts/frontend_imports.py:2745-2815 | where no question mark touches a decimal point, a constant found is the expression's value in every run, whatever its opaque identifiers hold |
| ExprEval.ClosedExpressionIsEvaluated | scripts/frontend_imports.py:2745-2815 | where no question mark touches a decimal point, an expression without identifiers is evaluated to its meaning, or raises |
| ExprLimits.DotAfterQuestionIsLost | scripts/frontend_imports.py:2639-2667 | a concrete conditional whose question mark touches a leading decimal point is not evaluated |
| ExprLimits.TouchingIsWrong | scripts/frontend_imports.py:2639-2667 | a concrete conditional is evaluated to the constant `true`, and its value is .5 in every run |
| ExprTree.PartialIsSound | scripts/frontend_imports.py:2745-2815 | partial evaluation, unevaluated branches and templates included, agrees with the run-time meaning for every assignment |
| ExprTree.ClosedIsKnown | scripts/frontend_imports.py:2557-2815 | partial evaluation of an expression without identifiers never gives up: it is known or raises |
| ExprTree.NumberIsExact | scripts/frontend_imports.py:2723-2742 | a numeral of ASCII digits has its exact value, or reading it raises |
| ExprTree.DecimalIsStandardIff | scripts/frontend_imports.py:2723-2742 | reading a numeral of digits as decimal gives the standard's value iff it is no legacy octal, or only its last digit is not zero |
| TemplateTree.LexedTemplateIsWellFormed | scripts/frontend_imports.py:792-863 | a lexed template whose interpolations print well-formed trees, no question mark touching a decimal point, is itself the root of a well-formed tree, constant exactly when the tree says so, with the tree's text |
| Assembly.EvaluatedIsAssembled | scripts/frontend_imports.py:2745-2815 | every constant evaluated from lexed tokens is spelled, in source order, by cooked pieces opened inside those tokens and by stringified primitives |
| Assembly.LiteralRequestIsFound | scripts/frontend_imports.py:177-253 | a request whose target prefix comes from literal pieces alone satisfies the prefilter's condition |
| Assembly.PrefilterMissesNothing | scripts/frontend_imports.py:177-253 | no false negatives: if some run of lexed tokens evaluates to a string starting with a target that no stringified constant, floats included, can stand in, the prefilter's condition holds |
| PrefilterLimits.RequestIsMissed | scripts/frontend_imports.py:177-253 | where a stringified constant can stand in the target, the file `"a"+constant+"b"` requests the target however it is lexed, and the prefilter's condition fails |
| PrefilterLimits.MissesNothingIff | scripts/frontend_imports.py:177-253 | the prefilter misses no request for the target in any file iff no stringified constant can stand in it |
| Screening.Screen | scripts/check_frontend_boundaries.py:3015-3020 | a file the prefilter refuses and that lexes has no token run that evaluates to a source of the package, for every choice of the lexer's guesses |
| Screening.RequestStartsWithPackage | scripts/check_frontend_boundaries.py:800-801 | every package source starts with the package name, which is what is screened for |
| Screening.TailwindMergeIsPrimitiveFree | scripts/check_frontend_boundaries.py:3017-3018 | no number, float, boolean or null that Python spells can stand at any offset of the package name that is screened for |
| Screening.StringifiedNumberIsMissed | scripts/frontend_imports.py:177-253 | scanning a concrete text yields tokens that request the target, and the prefilter refuses the text |
| Screening.InfernoIsNotPrimitiveFree | scripts/frontend_imports.py:2557-2568 | a numeral that overflows to `inf` makes the target `inferno` one of those that can be missed |
| Patterns.SplitTopLevelTokens | scripts/check_frontend_boundaries.py:1443-1459 | the loop computes the split whose entries `PatternTree.EntriesOfItems` proves to be the printed elements |
| Patterns.TopLevelTokenIndex | scripts/check_frontend_boundaries.py:1430-1440 | the loop computes the first top-level index, used by `PatternTree.PartOfElement` |
| Patterns.BindingNamesInPattern | scripts/check_frontend_boundaries.py:1462-1514 | the recursive scan computes `BindingNames`, characterised by the pattern-tree lemmas |
| PatternTree.PartOfElement | scripts/check_frontend_boundaries.py:1489-1513 | of a printed element exactly its pattern remains: dots, key and default are cut off |
| PatternTree.PatternIsReported | scripts/check_frontend_boundaries.py:1462-1514 | on every well-formed pattern tree the scan returns its names that are tracked and no modifier |
| PatternTree.ParameterIsReported | scripts/check_frontend_boundaries.py:1462-1514 | the same behind parameter modifiers and before trailing tokens |
| PatternTree.ExactIffNoModifierNames | scripts/check_frontend_boundaries.py:1462-1514 | the scan returns exactly the tree's tracked names iff none of them is spelled like a modifier |
| PatternTree.ModifierNameIsMissed | scripts/check_frontend_boundaries.py:1462-1514 | the pattern `{readonly}` binds a name that is not reported |
| Brackets.MatchingTokenPairs | scripts/check_frontend_boundaries.py:1115-1130 | one pass with a stack pairs every opener with its own closer by depth counting, and nothing else; the reverse map is the inverse |
| Brackets.PairsNest | scripts/check_frontend_boundaries.py:1115-1130 | paired brackets never cross |
| Aliases.SimpleAliasesAreScoped | scripts/check_frontend_boundaries.py:2229-2335 | with tokens as the lexer emits them, every alias begins behind the first character of its segment and ends inside it |
| Aliases.DerivedIsInside | scripts/check_frontend_boundaries.py:2343-2371 | so a derived scope lies inside its source's scope and starts strictly later |
| Aliases.RecordDerived | scripts/check_frontend_boundaries.py:2353-2373 | all aliases of one source are recorded, each new one is queued, and only reachable ones are |
| Aliases.ExpandedStoreValueAliases | scripts/check_frontend_boundaries.py:2338-2374 | terminates, and the result is exactly the bindings reachable from the seeds by derivation, minus the seeds, in any queue order |
| UseTree.SkipAlias | scripts/check_anyharness_boundaries.py:667-671 | skips the keyword if it stands there, then one identifier if one does, and nothing else |
| UseTree.UseTreeParser.constructor | scripts/check_anyharness_boundaries.py:577-579 | starts at the first token |
| UseTree.UseTreeParser.Consume | scripts/check_anyharness_boundaries.py:592-597 | advances by one exactly when the token matches |
| UseTree.UseTreeParser.SkipAliasTokens | scripts/check_anyharness_boundaries.py:667-671 | moves the index as `SkipAlias` says |
| UseTree.UseTreeParser.Parse | scripts/check_anyharness_boundaries.py:599-600 | yields the paths and index of `ParseTree`, or reports the run that never ends |
| UseTree.UseTreeParser.ParseTreeAt | scripts/check_anyharness_boundaries.py:602-644 | the mutable-index loop computes `ParseTree` from the current index |
| UseTree.UseTreeParser.ParseGroupAt | scripts/check_anyharness_boundaries.py:646-665 | the mutable-index loop computes `ParseGroup`, or reports that it never ends |
| UseTree.GroupSpinsIff | scripts/check_anyharness_boundaries.py:646-665 | the group loop runs forever iff a semicolon comes before the brace that closes the group |
| UseTree.ParserSpinsIff | scripts/check_anyharness_boundaries.py:602-665 | the parser runs forever iff the tree's outermost group meets a semicolon before its closing brace |
| UseTree.ParserTerminates | scripts/check_anyharness_boundaries.py:602-665 | it terminates on every token list without a semicolon inside an open brace |
| UseTree.SemicolonInGroupSpins | scripts/check_anyharness_boundaries.py:646-665 | a concrete token list on which it does not |
| UseTree.TreeLinesMatch | scripts/check_anyharness_boundaries.py:602-665 | every parsed path has one source line per segment |
| UseTree.TreeRoundTrip | scripts/check_anyharness_boundaries.py:602-671 | parsing the printed tokens of any use tree, in any position, returns its flattened paths in order and stops right after it |
| UseTree.StatementRoundTrip | scripts/check_anyharness_boundaries.py:566-573 | a whole statement with visibility and semicolon yields exactly the flattened tree |
| Colour.PaintingCommutesIff | scripts/check_theme_contrast.py:489-509 | for normalised weights of any sign, painting a mix equals mixing the paintings over every opaque backdrop iff the zero-alpha branch loses nothing |
| Colour.PaintingCommutes | scripts/check_theme_contrast.py:489-509 | for non-negative weights and alphas it always does, zero alpha included |
| Colour.MixInRange | scripts/check_theme_contrast.py:489-509 | mixing in-range paints stays in range |
| Colour.CompositeInRange | scripts/check_theme_contrast.py:351-357 | source-over of in-range colours stays in gamut |
| Colour.OverNear | scripts/check_theme_contrast.py:443-451 | treating an alpha of at least 0.999 as opaque moves no channel by more than 0.255 |
| Colour.ContrastRange | scripts/check_theme_contrast.py:360-372 | contrast is symmetric, lies in [1, 21], and is 1 iff the luminances are equal (WCAG 2.1) |
| Colour.PrimaryLuminance | scripts/check_theme_contrast.py:360-365 | the luminances of the three primaries are those WCAG 2.1 gives |
| Colour.BlackOnWhite | scripts/check_theme_contrast.py:360-372 | the upper end is reached by black on white |
| Theme.SplitTopLevel | scripts/check_theme_contrast.py:378-394 | the loop computes `Split`, the unique separable reading of the text |
| Theme.SplitJoins | scripts/check_theme_contrast.py:378-394 | joining the parts gives the text back |
| Theme.JoinSplits | scripts/check_theme_contrast.py:378-394 | splitting the join of separable parts gives the parts back |
| Theme.SplitIsSeparable | scripts/check_theme_contrast.py:378-394 | the parts have no separator at depth zero and all but the last close what they open |
| Theme.FallbackIsShorter | scripts/check_theme_contrast.py:460-475 | the rejoined fallback is shorter than the arguments, the measure that ends the recursion |
| Theme.WeightsAreNormal | scripts/check_theme_contrast.py:482-494 | defaulted and normalised weights are non-negative and sum to one |
| Theme.AliasMeaning | scripts/check_theme_contrast.py:460-472 | `var(name)` is what the name resolves to, and the fallback is used exactly when it does not resolve |
| Theme.OperandMeaning | scripts/check_theme_contrast.py:511-520 | a printed operand has its colour and its percentage as weight, or no weight |
| Theme.MixMeaning | scripts/check_theme_contrast.py:473-509 | a printed `color-mix()` mixes its two operands with their own weights, first with first |
| Theme.LeavesOccur | scripts/check_theme_contrast.py:453-520 | every literal and percentage that resolving a declaration reads is a stretch of its text |
| Theme.ResolveInRange | scripts/check_theme_contrast.py:453-524 | on every declaration table, cyclic ones included, resolution terminates, and if the literals and percentages written in the declarations are in range, so are resolved channels and alpha |
| Theme.SampleIsBounded | scripts/check_theme_contrast.py:285-332 | readers that answer out of range on other texts meet that condition |
| Theme.ResolvedMixPaints | scripts/check_theme_contrast.py:477-509 | a resolved mix paints, over any opaque backdrop, as the mix of its painted operands |
| Theme.ResolvedIsPainted | scripts/check_theme_contrast.py:443-451 | what is resolved over a backdrop is in gamut and within 0.255 per channel of true source-over |
| Theme.MeasuredContrastRange | scripts/check_theme_contrast.py:360-451 | the contrast of two resolved roles lies in [1, 21], either way round |
| Theme.CyclesDoNotResolve | scripts/check_theme_contrast.py:453-458 | names that only alias each other resolve to nothing |
| Ledger.EnclosingSymbol | scripts/check_anyharness_boundaries.py:249-258 | the upward loop finds the nearest declaration at or above the line |
| Ledger.TagOccurrences | scripts/check_anyharness_boundaries.py:1265-1278 | ordinals are given in line order as `TagGroup` says |
| Ledger.GroupByKey | scripts/check_anyharness_boundaries.py:1257-1261 | every fingerprint's hits in order, fingerprints in first-seen order |
| Ledger.Disambiguate | scripts/check_anyharness_boundaries.py:1248-1279 | the loops compute `Disambiguated`, whose keys the lemmas below characterise |
| Ledger.TagGroupIsOrdered | scripts/check_anyharness_boundaries.py:1265-1278 | the k-th hit of a group in line order gets ordinal k; nothing but the site changes |
| Ledger.KeysGiven | scripts/check_anyharness_boundaries.py:1248-1279 | the keys given are exactly the first ordinals of every fingerprint, as many as it has hits |
| Ledger.KeysFollowCounts | scripts/check_anyharness_boundaries.py:1248-1256 | the key set depends only on how often each fingerprint occurs, and more hits only append keys |
| Ledger.KeysUniqueIff | scripts/check_anyharness_boundaries.py:1248-1256 | keys are unique iff no raw site spells an ordinal in use |
| Ledger.SameLength | scripts/check_anyharness_boundaries.py:1248-1279 | no violation is lost or invented |
| Ledger.ApplyExceptions | scripts/check_anyharness_boundaries.py:1297-1318 | failures are the untolerated violations in order; stale entries are exactly the tolerated sites of a rule that it no longer hits, by rule, path and site, each once |
| Ledger.PassesIff | scripts/check_anyharness_boundaries.py:1297-1318 | no failure and nothing stale iff the observed keys are the ledger |
| Ledger.AddedHitsAreReported | scripts/check_anyharness_boundaries.py:1248-1318 | adding k hits to a passing tree, anywhere, yields exactly k failures and nothing stale |
| Ledger.RemovedHitsAreStale | scripts/check_anyharness_boundaries.py:1248-1318 | removing k hits leaves exactly k stale entries and no failure |
| Ledger.OneMoreHit | scripts/check_anyharness_boundaries.py:1248-1318 | one more hit on a passing tree is reported iff it causes no clash |
| Ledger.SpelledOrdinalIsExcused | scripts/check_anyharness_boundaries.py:1248-1318 | a concrete ledger and hit where the clash hides the hit |
| Ledger.DisambiguatedMoves | scripts/check_anyharness_boundaries.py:1248-1256 | renumbering lines in order renumbers the result and touches no key |
| Ledger.NeutralLines | scripts/check_anyharness_boundaries.py:249-263 | inserting lines that declare and violate nothing changes no key and no verdict |
| Lists.SortIsStable | scripts/check_anyharness_boundaries.py:1265-1279 | Python's `sorted` as used here: ordered, a permutation, ties in original order |
| Census.StagedCensus | scripts/check_appearance_scaling.py:841-848 | the loop computes the census characterised by `CensusCounts` |
| Census.CensusCounts | scripts/check_appearance_scaling.py:841-848 | the census holds exactly the keys that occur, each with its number of hits |
| Census.ApplyStagedBaseline | scripts/check_appearance_scaling.py:950-989 | decrementing the remaining allowances reports exactly `Reported` |
| Census.AbsorbedExactly | scripts/check_appearance_scaling.py:950-989 | per key min(count, allowance) hits are absorbed, the rest reported, and every hit is one or the other |
| Census.UnstagedAreKept | scripts/check_appearance_scaling.py:955-974 | hits of unstaged rules pass through unchanged and in order |
| Census.EarliestAbsorbed | scripts/check_appearance_scaling.py:960-979 | within a file and rule no reported hit is on an earlier line than an absorbed one |
| Census.CensusSlack | scripts/check_appearance_scaling.py:851-890 | one violation for each in-scope key frozen above its count, in the order of the keys |
| Census.RelativeOfKey | scripts/check_appearance_scaling.py:875-878 | the scope test looks at the file of the key |
| Census.NothingReportedIff | scripts/check_appearance_scaling.py:950-989 | nothing is reported iff all hits are staged and no key exceeds its allowance |
| Census.CleanIff | scripts/check_appearance_scaling.py:1025-1034 | nothing reported and no slack iff all hits are staged and every count equals its allowance |
| Census.ReadSeals | scripts/check_appearance_scaling.py:893-911 | reads all prefixes, trimmed, or fails when any seal's path or reason is blank |
| Census.SealedDirectoryViolations | scripts/check_appearance_scaling.py:914-947 | every staged hit under a sealed prefix is reported once, whatever the census allows |
| Census.KeyStartsIff | scripts/check_appearance_scaling.py:1094-1099 | a census key starts with a sealed prefix iff its path does |
| Census.SanctionedGrowthCeilings | scripts/check_appearance_scaling.py:1037-1054 | the nested loops compute the ceilings that `CeilingsScoped` delimits |
| Census.CeilingsScoped | scripts/check_appearance_scaling.py:1037-1054 | a sanction covers exactly the files it lists, for its own rule, at the number it lists last |
| Census.BaselineFile.constructor | scripts/check_appearance_scaling.py:1089-1093 | the stored state |
| Census.BaselineFile.WriteBaseline | scripts/check_appearance_scaling.py:1076-1118 | answers and stores as decided; a refusal changes nothing |
| Census.WrittenIff | scripts/check_appearance_scaling.py:1076-1118 | a rewrite is accepted iff the seals are sound, no key is sealed, and nothing grew past its ceiling or nothing was stored |
| Census.CensusOnlyShrinks | scripts/check_appearance_scaling.py:1076-1118 | over any run with a non-empty census before each call every stored count is at most its initial count or its ceiling |
| Census.SealsHold | scripts/check_appearance_scaling.py:1094-1103 | over any run no path in a sealed directory is ever stored |
| Census.EmptyCensusRestarts | scripts/check_appearance_scaling.py:1105-1106 | a concrete run through an empty census that ends above where it began |
| Census.WrittenIsClean | scripts/check_appearance_scaling.py:1025-1118 | after an accepted rewrite the same tree of staged hits reports nothing |
| MypyBaseline.MessageIsNormal | server/scripts/check_mypy_baseline.py:64-65 | normalising a message twice is normalising it once |
| MypyBaseline.PathIsNormal | server/scripts/check_mypy_baseline.py:68-75 | a normalised path normalises to itself |
| MypyBaseline.ParseMypyJsonLines | server/scripts/check_mypy_baseline.py:78-118 | counts the error identities of all lines, or fails when any line is bad |
| MypyBaseline.OrderDoesNotMatter | server/scripts/check_mypy_baseline.py:78-118 | the census does not depend on the order of the output lines |
| MypyBaseline.LineNumbersDoNotMatter | server/scripts/check_mypy_baseline.py:78-118 | an error line counts once, under its normalised path, stripped code and normalised message, whatever else it says |
| MypyBaseline.ParsedLinesAreNormal | server/scripts/check_mypy_baseline.py:78-118 | the parser only yields normal identities |
| MypyBaseline.ParseBaseline | server/scripts/check_mypy_baseline.py:130-178 | parses a document as `Parsed` says, failing on the first bad or repeated entry |
| MypyBaseline.ParsedEntriesAreNormal | server/scripts/check_mypy_baseline.py:149-177 | what is parsed back is normal |
| MypyBaseline.OrderedIsDistinct | server/scripts/check_mypy_baseline.py:314-327 | the entries are written in strictly ascending order |
| MypyBaseline.RoundTripIff | server/scripts/check_mypy_baseline.py:130-327 | parsing the written document gives the baseline back iff the version is non-empty and all identities are normal |
| MypyBaseline.ParsedCensusIsStorable | server/scripts/check_mypy_baseline.py:78-327 | every census the mypy parser produces survives being stored |
| MypyBaseline.NothingNewIff | server/scripts/check_mypy_baseline.py:334-352 | nothing new iff sub-multiset, nothing stale iff super-multiset, both iff equal |
| MypyBaseline.BaselineFile.constructor | server/scripts/check_mypy_baseline.py:330-331 | the stored document, if any |
| MypyBaseline.BaselineFile.Ratchet | server/scripts/check_mypy_baseline.py:450-532 | status and stored document of each action: check passes iff exact and trusted, write succeeds iff it shrinks, initialise only without a file; a failure changes nothing |
| MypyBaseline.WrittenPasses | server/scripts/check_mypy_baseline.py:491-515 | a shrink that was written passes the check on the same tree and comparison |
| MypyBaseline.InitializedPasses | server/scripts/check_mypy_baseline.py:456-466 | a first baseline passes the check on the tree it was made from |
| MypyBaseline.DiagnosticsShrink | server/scripts/check_mypy_baseline.py:355-532 | along an accepted history the real diagnostics shrink as multisets, under one tool version |
| Migrations.CheckHeads | scripts/check_migration_heads.py:82-125 | the early-returning loop answers with the first undeclared or repeated revision, else the unknown parents, else the heads unless there is one |
| Migrations.AcyclicHasHead | scripts/check_migration_heads.py:117-117 | an acyclic, non-empty history has a head |
| Migrations.UnreachedHangsBelowCycle | scripts/check_migration_heads.py:106-125 | with one head, whatever it does not reach hangs below a cycle it does not reach |
| Migrations.HeadReachesAllIff | scripts/check_migration_heads.py:106-125 | when the check passes, the head reaches every revision iff it reaches every cycle; always when there is none |
| Migrations.CycleIsAccepted | scripts/check_migration_heads.py:106-125 | a concrete accepted history whose head does not reach all |
| RustStrip.StripRustCommentsAndStrings | scripts/check_session_mutation_admission.py:222-280 | the loop computes `Stripped`, which the lemmas below characterise |
| RustStrip.CloseQuote | scripts/check_session_mutation_admission.py:251-263 | the inner loop finds the end of a literal, escapes skipped |
| RustStrip.StrippedIsCode | scripts/check_session_mutation_admission.py:222-280 | stripping the text of any well-formed list of code, comment, string and raw-string segments leaves exactly its code |
| RustStrip.EveryTextIsRead | scripts/check_session_mutation_admission.py:222-280 | every text is the text of such a list |
| RustStrip.StrippedIsReadCode | scripts/check_session_mutation_admission.py:222-280 | so on every text the output is the code of its segments |
| RustStrip.KeptInOrder | scripts/check_session_mutation_admission.py:222-280 | the output is a selection of the text's characters at strictly increasing places |
| RustStrip.KeptIsCode | scripts/check_session_mutation_admission.py:222-280 | those places are the places of the code segments |
| RustStrip.QuoteLiteralHidesCode | scripts/check_session_mutation_admission.py:251-263 | behind the character literal of a double quote all code is dropped, up to the next double quote |
| RustStrip.NestedCommentEndsEarly | scripts/check_session_mutation_admission.py:274-277 | what follows a nested block comment that is half closed is taken for code |
| Admission.FlatInOrder | scripts/check_session_mutation_admission.py:335-338 | dropping white space keeps the source order |
| Admission.EarlierIffUnadmitted | scripts/check_session_mutation_admission.py:339-364 | comparing indices of the flattened text is comparing source places |
| Admission.CheckOwner | scripts/check_session_mutation_admission.py:335-364 | the verdict in terms of the source: no call found, the first effect spelled before every call, or none; when a call is found is said by `FoundIsApartOrTorn` |
| Admission.SpanIsFlat | scripts/check_session_mutation_admission.py:338-342 | every stretch of the code that spells the call, white space aside, is an occurrence in the flattened text, bounded there iff the nearest characters around it that are no white space are no word characters |
| Admission.FoundIff | scripts/check_session_mutation_admission.py:338-342 | a call is found iff such a stretch with no word next to it exists |
| Admission.CallIsFoundIff | scripts/check_session_mutation_admission.py:338-342 | a call as written is found at its own place iff no word is next to it, white space aside |
| Admission.FoundIsApartOrTorn | scripts/check_session_mutation_admission.py:338-342 | what is found is the calls with no word next to them and the calls torn apart by white space |
| Admission.FoundIffCalled | scripts/check_session_mutation_admission.py:338-342 | where white space separates no two word characters, a name is found iff it is called |
| Admission.ReturnHidesCall | scripts/check_session_mutation_admission.py:338-342 | `return name()` calls every name and none is found |
| Admission.TornIsFound | scripts/check_session_mutation_admission.py:338-342 | a name torn apart by white space is found although it is not called |
| Admission.DecoysAreInvisible | scripts/check_session_mutation_admission.py:222-280 | texts with the same code flatten alike, whatever their comments and strings say |

## Left out

- Lexer.TypeScriptLexer.Scan: Python's limit on nested calls is not modelled; a deeply nested template, element or expression can exceed it.
- Lexer.TypeScriptLexer.ScanJsx: of the text inside JSX only the tags and the embedded expressions are characterised; tag matching by name is not in the source either.
- JsStrings.CookedIsStandardIff: it is about quoted literals; in templates the standard also turns carriage returns into line feeds, which the decoder does not.
- Aliases.ExpandedStoreValueAliases: which declarations `simple_store_value_aliases` finds in a segment (its shadowing heuristics) is an arbitrary function.
- Screening.Screen: import collection from tokens and the import-type disambiguation are not modelled; any run of tokens counts as a possible request.
- ExprEval.KnownConstantIsMeaning: numerals, sums and their strings are Python's; ECMAScript rounds integers above 2^53 and spells floats in its own way.
- Theme.OperandMeaning: a percentage is read from ASCII digits, where the pattern also takes the other decimal digits of Unicode.
- Theme.ResolveInRange: literal colours and percentages are read by arbitrary functions; a malformed numeral that raises ValueError is not modelled.
- Colour.ContrastRange: exact reals instead of floats, and any monotone power fixed at 0 and 1.
- Census.CensusSlack: the wording of the violations is not modelled.
- Census.ApplyStagedBaseline: the wording added to reported violations is not modelled.
- MypyBaseline.ParseBaseline: JSON text is decoded outside the model.
- MypyBaseline.BaselineFile.Ratchet: Git, the environment and the mypy process are inputs; a path's drive or root beyond a leading slash is not modelled.
- Admission.CheckOwner: extracting the function body by counting braces is not modelled; the body is the input.
- Migrations.CheckHeads: reading Python files and their literals is outside the model.
- The regex-only checkers, pattern tables, file walking, argument parsing and diagnostic rendering: single-line patterns and plumbing without an invariant.
- The server's application code: its behaviour lives in libraries and services.
