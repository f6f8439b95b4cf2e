# AICore front end: models and proofs

AICore is a compiler front end whose passes make strong semantic claims: that a
`match` arm can never be selected, that a contract check may be left out, that a
printed program reads back as the same program, that a set of edits can be applied
in place. This project models the algorithms behind those claims and proves them
for all inputs. `dafny verify dfyconfig.toml` checks everything.

| files | part of the compiler |
|---|---|
| `MatchUsefulness.dfy`, `MatchMeaning.dfy`, `MatchMissing.dfy`, `MatchWitness.dfy`, `MatchLiterals.dfy`, `MatchArms.dfy` | pattern usefulness and missing patterns, what they mean for values, the shape and order of reported patterns, spellings of one number, what the checker's verdicts mean for a `match` |
| `Ir.dfy`, `Scopes.dfy` | a big-step semantics of the intermediate representation; which names a body may assign and which are bound where it exits |
| `ContractProver.dfy`, `ProverExact.dfy`, `ContractVerdict.dfy` | the static contract prover, what it computes exactly, and when its verdict on a postcondition can be trusted |
| `ContractLowering.dfy`, `ContractNames.dfy`, `ContractLoweringPass.dfy` | instrumenting the exits with the postcondition as a function, why it means the same, the names it makes up, and the pass that computes it |
| `Scanner.dfy`, `Lexer.dfy`, `LexerWindows.dfy`, `LexerFacts.dfy` | the lexer as a function of position and as the object that runs it, and its guarantees |
| `LiteralValues.dfy`, `LiteralTexts.dfy` | the value of every integer literal; what floats, escapes, strings, characters, templates, comments and words are read as |
| `StringLiterals.dfy`, `StringEscapes.dfy` | printed string literals: what they read back as, and which characters are escaped how |
| `ExprPrinter.dfy`, `PrintMinimal.dfy`, `PrintedText.dfy`, `PrintLayout.dfy`, `PrintedLexing.dfy`, `PrintedReading.dfy` | expression printing against the parser's cascade; that no shorter text reads so; the printed text, its blanks, lexed and parsed |
| `TypeNames.dfy` | type strings and interning |
| `TextEdits.dfy`, `EditedText.dfy`, `Sorting.dfy` | applying edits back to front, the text that gives, the sort used here and in planning |
| `FixPlan.dfy`, `FixCandidates.dfy`, `FixDecisions.dfy` | planning fixes, which edits are considered and in which order, what becomes of each |
| `FixClauses.dfy`, `FixMerging.dfy`, `FixRequests.dfy`, `FixReading.dfy`, `FixOutcome.dfy` | merging insertions of effect and capability clauses, what the compiler asks for with them, what it reads back from the fixed source, what a whole plan asks for at one place |
| `CallGraph.dfy`, `Minimizer.dfy`, `EditDistance.dfy`, `Glob.dfy`, `Restore.dfy`, `RestoreFacts.dfy` | breadth-first distances and caller closure, input minimisation, the two dynamic programs, staged restore with rollback |

## How the models are built

Pure code is a function; a loop or an object that changes state is a method or a
class proved equal to a specification, about which the theorems are then proved.

The usefulness algorithm is parameterised by a type oracle, as in the source. The
theorems name what they need of it: nothing for "not useful means covered"; that
types have a value, and open types a head outside every finite set, where a value
must be produced (`Inhabited`); that a family of types is closed and lists its
constructors, where witnesses are exact (`Finite`); and where literals match by the
value they stand for, that no literal is listed as a constructor or has fields
(`LiteralsOpen`), as in the checker's oracle (`src/typecheck.rs:382-480`).

The contract model evaluates integers without bound, while the prover's bounds are
checked 64-bit numbers and constant folding that would overflow or divide by zero
yields no constant (`ProverExact.ConstExact`). Calls of other functions and bit operations are uninterpreted.
Loops run on fuel, and every theorem holds for every amount of it. A postcondition is
about the parameters as they are on entry and the value the function exits with: that
is the scope in which the type checker resolves it (`src/typecheck.rs:2038-2047`).

## Where the code does not do what it says

Each is kept as the code has it, shown on a concrete input, and the condition under
which the code is right is proved.

* A finite type listed with no constructors (an enum without variants) and no arm:
  `is_useful` calls the match exhaustive, `missing_rows` reports `_`
  (`MatchMissing.EmptyListDisagrees`). The two agree on all matrices exactly when no
  type is listed with no constructor (`MatchMissing.AgreementExact`).
* `src/contracts.rs:436` drops the else path of a tail `if` whose condition is an
  operator without an inverse comparison, such as `&&`. A false postcondition is then
  judged proved and its check left out (`ContractVerdict.DroppedElseProvedButFails`,
  `ContractLowering.DroppedElseLowersUnchecked`); so it is for every such condition
  that is ever false (`ContractVerdict.FalseTestFails`).
* A `return` inside a tail condition is on no collected path
  (`ContractVerdict.EarlyReturnProvedButFails`, and for every condition that returns an
  integer `ContractVerdict.ReturningTestFails`). `ContractVerdict.TestExact` says when a
  condition is safe: verdicts on integer results are right for all branches, clauses
  and states exactly when it never returns an integer and either can be inverted or is
  never false.
* A postcondition that is checked is read where the body exits. There a `let` or a
  pattern may have bound one of its names anew, and the check is of the inner variable:
  `fn f(b) ensures result == b { let b = 0; b }` hands 0 to its caller whatever `b` was
  (`ContractLowering.ShadowedParameterUnchecked`). Contracts are kept for all functions
  with given names bound at exits and given names in the clause exactly when the two
  have no name in common but `result` (`ContractLowering.CaptureExact`).
* The printer drops the parentheses of a call whose callee is a prefix expression:
  `(-f)(x)` prints as `-f(x)`, which is read as the negated call
  (`ExprPrinter.PrefixCalleeMisread`). `ExprPrinter.RoundTrip` says what every printed
  expression reads back as, and that this is the only loss;
  `PrintedReading.TextRoundTrip` says the same of the text.
* A literal pattern with a suffix is compared by its spelling, so in
  `match x { 16 => .., 16i64 => .., _ => .. }` the second arm is not reported although no
  value selects it (`MatchArms.SuffixedAgain`). For the literals of a type, the report is
  exact on all arms written with them precisely when no two of them stand for one value
  (`MatchArms.ReportExactIffAlike`). Reported arms and missing patterns are right however
  literals are spelled.
* Of the effect lists suggested for one place only the last in the plan's order is
  inserted, likewise of the capability lists, and no conflict is reported. A function that uses `io` itself and `fs` through
  its callees gets `effects { io }` and `effects { fs, io }`, and the plan inserts the former
  (`FixOutcome.EffectLost`). What the compiler reads back from the fixed source has every
  name suggested for the place exactly when the last list of each kind contains all the others
  (`FixOutcome.NothingLostExactly`).
* When moving an existing file aside fails, the rollback of a restore deletes that
  file and the existing files after it; with a single file, that one
  (`RestoreFacts.OneFileLost`). A failed restore leaves every file as it was exactly
  when it is not the case that all writes succeed and some existing file cannot be moved
  (`RestoreFacts.FailureUndoneExactly`).

## Model

| member | source | states |
|---|---|---|
| MatchUsefulness.SpecializeCost | src/match_usefulness.rs:238-271 | specialising by a constructor never raises the total constructor cost of the or-expanded rows, and lowers it if any constructor heads a row: the reason the recursion ends on recursive types and duplicated rows |
| MatchUsefulness.DefaultCost | src/match_usefulness.rs:273-296 | the default matrix never costs more |
| MatchUsefulness.CostPad | src/match_usefulness.rs:301-305 | padding or truncating constructor arguments to the arity never raises the cost |
| MatchMeaning.SpecializeCovers | src/match_usefulness.rs:238-271 | a value with the constructor is covered by a matrix iff its fields are covered by the specialised matrix |
| MatchMeaning.DefaultCovers | src/match_usefulness.rs:273-296 | rows of the default matrix cover only what the matrix covers; both ways for a head the matrix does not mention |
| MatchMeaning.UselessIsCovered | src/match_usefulness.rs:61-100 | a row judged not useful matches only typed values some matrix row matches; needs no assumption on types or patterns |
| MatchMeaning.UsefulHasWitness | src/match_usefulness.rs:61-100 | a row judged useful matches some typed value no matrix row matches, over inhabited types |
| MatchMeaning.IsUsefulExact | src/match_usefulness.rs:61-100 | `is_useful` is true iff a typed value is matched by the row and by no matrix row |
| MatchMissing.UncoveredHasRow | src/match_usefulness.rs:104-151 | every typed value the matrix does not cover is matched by a reported row |
| MatchMissing.RowHasUncovered | src/match_usefulness.rs:104-151 | every reported row matches some uncovered typed value |
| MatchMissing.FiniteRowIsUncovered | src/match_usefulness.rs:104-151 | over finite types a reported row matches uncovered values only |
| MatchMissing.MissingExactOnFinite | src/match_usefulness.rs:104-151 | over finite types the reported rows match precisely the uncovered values |
| MatchMissing.FewerRowsStayUseful | src/match_usefulness.rs:61-100 | if an all-wildcard row is useful against a matrix it is useful against any submatrix, when no type is listed empty |
| MatchMissing.MissingAgrees | src/match_usefulness.rs:104-151 | something is reported missing iff an all-wildcard row is useful, when no type is listed empty; proved on the algorithms, without inhabitation |
| MatchMissing.AgreementExact | src/match_usefulness.rs:199-210 | the two algorithms agree on every input iff no type is listed with no constructor |
| MatchMissing.EmptyListDisagrees | src/match_usefulness.rs:119-130 | on a type listed empty and no rows, one reports `_` and the other says exhaustive |
| MatchMissing.SpecializeRowLoop | src/match_usefulness.rs:246-271 | the accumulating loop appends exactly the specialised rows, or-alternatives in order |
| MatchMissing.DefaultRowLoop | src/match_usefulness.rs:281-296 | the accumulating loop appends exactly the default rows |
| MatchMissing.MissingRows | src/match_usefulness.rs:104-151 | the search with a limit returns the first `limit` rows of the unlimited report; what those rows are is stated by the other rows here |
| MatchWitness.MissingFormed | src/match_usefulness.rs:104-151 | every reported row has one pattern for each column; at any depth it is a wildcard or a listed constructor of its type with exactly one argument for each field, never an or-pattern |
| MatchWitness.MissingInOrder | src/match_usefulness.rs:119-140 | the rows come in the order in which the types list their constructors: where two first differ, the earlier row has the constructor listed earlier (types list no constructor twice) |
| MatchWitness.MissingDisjoint | src/match_usefulness.rs:104-151 | no typed value matches two of the reported rows, so no witness is repeated, over any types that list no constructor twice |
| MatchLiterals.UselessIsCoveredMeant | src/match_usefulness.rs:61-100 | a row judged not useful as spelled loses no typed value when literals match by the value they stand for |
| MatchLiterals.MissingMeant | src/match_usefulness.rs:104-151 | the missing rows do not depend on how literals are spelled |
| MatchLiterals.UsefulMeant | src/match_usefulness.rs:61-100 | if no value is spelled in two ways, a row useful as spelled is useful as meant |
| MatchArms.RedundantNeverSelected | src/typecheck.rs:6763-6794 | an arm reported unreachable is selected by no value of the type, whatever the guards answer and however literals are spelled |
| MatchArms.DeletingRedundantArm | src/typecheck.rs:6763-6794 | deleting a reported arm leaves every value with the arm it had |
| MatchArms.DeletingAllRedundantArms | src/typecheck.rs:6763-6794 | deleting every reported arm at once leaves each value with the arm it had |
| MatchArms.UsefulArmSelected | src/typecheck.rs:6763-6794 | an arm not reported is matched by a typed value no earlier unguarded arm matches, if no value is spelled in two ways |
| MatchArms.ReportExactIffAlike | src/typecheck.rs:9432-9437 | for the literals of a type with unlisted values, an arm is reported iff no value reaches it, on all arms written with them, iff no two of them stand for one value |
| MatchArms.SuffixedAgain | src/typecheck.rs:9432-9437 | in `match x { 16 => .., 16i64 => .., _ => .. }` the second arm is not reported and selected by no value |
| MatchArms.NothingMissingNeverFallsThrough | src/typecheck.rs:9496-9512 | a match with nothing reported missing selects an arm for every value |
| MatchArms.MissingFallsThrough | src/typecheck.rs:9496-9512 | a reported pattern describes a value that no unguarded arm matches |
| MatchArms.CheckMatch | src/typecheck.rs:6763-6831 | the pass reports exactly the redundant positions and the first eight of the missing rows, hence witnesses iff some value is missing; `MatchWitness` says what a witness looks like |
| ContractProver.ConstSound | src/contracts.rs:1307-1342 | a folded constant is the value of the expression in every state; `ProverExact` says which expressions fold, and what division computes |
| ProverExact.DivisionExact | src/contracts.rs:1326-1327 | for a divisor other than zero `a / b` and `a % b` are the q and r with a = q * b + r, r smaller in size than b, and r zero or of the sign of a; for zero neither has a value |
| ProverExact.ArithmeticExact | src/contracts.rs:1316-1334 | sums, differences, products, negation and comparisons of integers are those of arithmetic |
| ProverExact.ConstExact | src/contracts.rs:1307-1342 | an expression folds iff it is made of literals and foldable operators and every part of it has a value in 64 bits, and then to that value |
| ContractProver.RangeSound | src/contracts.rs:666-701 | the value of an expression lies in its interval in every state inside the range environment, overflowing bounds being dropped |
| ProverExact.SumExact | src/contracts.rs:38-44 | a bound of a sum is the sum of the bounds, present iff both are and it fits in 64 bits |
| ProverExact.DifferenceExact | src/contracts.rs:45-51 | likewise the bounds of a difference, from opposite ends |
| ProverExact.NegationExact | src/contracts.rs:52-57 | negation swaps the bounds and their signs, a bound that does not fit being dropped |
| ProverExact.VariablesAttain | src/contracts.rs:666-701 | on two distinct variables with non-empty ranges every bound of their sum and difference is the value in some state inside the ranges |
| ContractProver.SameIntExprSound | src/contracts.rs:703-733 | the syntactic equality shortcut accepts equal expressions only |
| ContractProver.ComparisonSound | src/contracts.rs:569-664 | a definite verdict on a comparison is its truth value |
| ProverExact.SameExact | src/contracts.rs:703-733 | the equality shortcut accepts a pair iff both are one and the same expression made of integers, variables, negation, sums and differences |
| ProverExact.CompareExact | src/contracts.rs:586-664 | a comparison of two ranges is proved iff it holds of every pair of members, refuted iff it fails of every pair |
| ProverExact.ComparisonExact | src/contracts.rs:569-664 | the verdict on a comparison: reflexivity for one and the same linear expression, else that of the two ranges, unknown if one has none |
| ContractProver.LogicSound | src/contracts.rs:514-567 | a definite verdict of the three-valued prover is the truth value in every state inside the ranges |
| ProverExact.LogicExact | src/contracts.rs:514-567 | the connectives: negation swaps the verdicts, a conjunction is proved iff both sides are and refuted iff one is, a disjunction dually |
| ContractProver.RefineSound | src/contracts.rs:432-470 | states in which the condition has the given truth stay inside the refined ranges; the branch is kept iff it is the then branch or the condition's operator can be inverted; the converse is `ProverExact.RefineExact` |
| ProverExact.RefineExact | src/contracts.rs:432-470 | for a test of a variable against a number, either way round and with either truth: other ranges stay; `==` leaves exactly that number; `<`, `<=`, `>`, `>=` leave exactly the members that pass, and the path is dropped iff there is none; `!=` and tests past the ends of 64 bits leave the range as it was |
| ProverExact.VerdictExact | src/contracts.rs:357-384 | the verdict on a postcondition is the direct one if that is definite, else refuted iff it is on some path and proved iff it is on all of at least one path |
| ProverExact.GuardedPaths | src/contracts.rs:386-430 | `if x < n { a } else { b }` has two paths, with x at most n - 1 and at least n |
| ProverExact.GuardUsed | src/contracts.rs:445-447 | so `if x < n { x } else { k }` is judged to return less than n whenever k < n, and its counterpart at least n |
| ContractVerdict.PathsCoverExits | src/contracts.rs:386-430 | if the conditions along the tails are reliable, every exit is described by a collected path, its ranges and its result expression |
| ContractVerdict.ProvedNeverFails | src/contracts.rs:357-384 | a postcondition judged proved is false at no exit of any run: without looking at the body, or with reliable conditions along the tails |
| ContractVerdict.PlainIsReliable | src/contracts.rs:386-430 | conditions that can be inverted, contain no `return` of the function and assign their own locals only are reliable |
| ContractVerdict.TestExact | src/contracts.rs:432-470 | for a tail `if` on a condition that leaves the variables alone, verdicts on integer results are right for all branches, clauses and states iff the condition never returns an integer and can be inverted or is never false |
| ContractVerdict.FalseTestFails | src/contracts.rs:436 | any condition without an inverse comparison that is false in some state: `if cond { 1 } else { 0 }` is judged to return at least 1 and there returns 0 |
| ContractVerdict.ReturningTestFails | src/contracts.rs:386-430 | any condition that returns an integer other than `k` in some state: `if cond { k } else { k }` is judged to return `k` and there returns the other |
| ContractVerdict.RefutedNeverHolds | src/contracts.rs:357-361 | a postcondition refuted without the body holds at no exit of any run |
| ContractVerdict.DroppedElseProvedButFails | src/contracts.rs:436 | the body `if a && b { 1 } else { 0 }` is judged to return at least 1 and returns 0 |
| ContractVerdict.EarlyReturnProvedButFails | src/contracts.rs:386-430 | a body whose tail condition is `match b { true => return 0, false => true }` is judged to return 1 and returns 0 |
| Scopes.ExprKeepsVariables | src/typecheck.rs:3720-3737 | since only `let mut` bindings can be assigned, an expression that assigns its own locals only leaves the variables around it as they were, which refining a condition's ranges relies on; one with no `return` of the function does not return |
| Scopes.ExitScope | src/typecheck.rs:3720-3737 | where a body exits, the immutable parameters are as on entry, below bindings of the names the body has in scope there |
| ContractLowering.SubstMeans | src/contracts.rs:1755-1888 | in one and the same environment, the clause under the fresh name means the clause under `result`: the fresh name captures none of the user's |
| ContractLowering.ReturnStmtChecked | src/contracts.rs:1260-1299 | a `return` statement's three lowered statements return the same value if the postcondition holds of the exit state and value, and stop at its assert if it is false |
| ContractLowering.ReturnExprChecked | src/contracts.rs:1139-1258 | the same for `return` as an expression |
| ContractLowering.LowerExprChecked | src/contracts.rs:1139-1258 | a lowered expression has the original's outcome, its returns checked, at any nesting |
| ContractLowering.LowerBodyChecked | src/contracts.rs:1060-1137 | a lowered body checks the postcondition at every return and at the tail, and changes nothing else |
| ContractLowering.LoweringReadsAtExit | src/contracts.rs:254-297 | as it stands, the lowered function gates the body by the precondition on entry and by the postcondition read among the bindings in scope at the exit |
| ContractLowering.ReadsAsOnEntry | src/typecheck.rs:2038-2047 | if the body binds no name of the clause but `result` where it exits, that reading is the one on entry |
| ContractLowering.LoweringCorrect | src/contracts.rs:254-297 | the lowered function does what the contract semantics says: checked clauses whose names are not bound again, and discharged clauses whose verdict can be trusted |
| ContractLowering.CaptureExact | src/typecheck.rs:2038-2047 | over all functions with given names bound at exits and given names in the clause, contracts are kept iff the two share no name but `result` |
| ContractLowering.ShadowedParameterUnchecked | src/contracts.rs:1260-1299 | `ensures result == b { let b = 0; b }` returns 0 where its contract stops |
| ContractNames.BodyBinds | src/contracts.rs:1260-1299 | lowering a body in which no reserved name is bound binds the names of the numbers it takes, each once and in order, and no other reserved name |
| ContractNames.ResultNamesDistinct | src/contracts.rs:1275-1276 | the names are reserved and different for different numbers |
| ContractLowering.DroppedElseLowersUnchecked | src/contracts.rs:254-297 | where the prover is wrong, the lowered function returns 0 although its contract stops |
| ContractLoweringPass.IdAlloc.FromSymbols | src/contracts.rs:1345-1361 | allocation starts past every symbol of the program |
| ContractLoweringPass.IdAlloc.NextSymbol | src/contracts.rs:1363-1367 | symbols are handed out in order, each once |
| ContractLoweringPass.LowerEnsuresInExpr | src/contracts.rs:1139-1258 | the pass computes the lowering function, threading the counter |
| ContractLoweringPass.LowerEnsuresInBlock | src/contracts.rs:1060-1137 | the same for blocks inside the body |
| ContractLoweringPass.LowerExitWithEnsures | src/contracts.rs:1260-1299 | the same for an exit |
| ContractLoweringPass.LowerFunctionContracts | src/contracts.rs:254-297 | the same for a function |
| Scanner.ScanAdvances | src/lexer.rs:220-424 | every reading moves forward within the text, so lexing ends |
| Scanner.ItemInBounds | src/lexer.rs:220-424 | a token or comment starts where its reading started, is not empty and lies within what was read |
| Lexer.Lexer.LexComment | src/lexer.rs:226-241 | a comment is recorded without its trailing white space |
| LiteralTexts.CommentLine | src/lexer.rs:226-241 | two slashes up to the end of the line are one comment: all of it but the white space at its end |
| Lexer.Lexer.LexUnderscore | src/lexer.rs:245-256 | an underscore starts a name only before a letter or digit |
| LiteralTexts.WordRead | src/lexer.rs:426-484 | a whole word is one token: a keyword if it is one of the keywords, written out in the statement, else an identifier |
| Lexer.Lexer.LexNumber | src/lexer.rs:486-663 | the token, span and diagnostics of a number are those of the position; `LiteralValues` and `LiteralTexts` say which they are |
| LiteralValues.HexLiteral | src/lexer.rs:486-540 | `0x` or `0X` and any hexadecimal digits in either case, with or without a word behind them, is read as the sum of each digit times 16 to the number of digits behind it, as a 64-bit value, E0004 exactly when it does not fit in 63 bits (128 with a 128-bit suffix), and E0009 exactly for a word that is no suffix |
| LiteralValues.DecimalLiteral | src/lexer.rs:541-663 | likewise decimal digits, with powers of ten, where no fraction or exponent follows |
| LiteralValues.ScannedNumber | src/lexer.rs:486-663 | conversely every integer token read spells such a number, whatever the source around it |
| LiteralValues.IntTokensMeanNumbers | src/lexer.rs:190-195 | so does every integer token of every text |
| LiteralTexts.FloatLiteral | src/lexer.rs:541-663 | digits with a fraction, an exponent or both are one float token with that text; a word behind it is its suffix iff it is `f32` or `f64`, else E0010 |
| Lexer.Lexer.LexUnicodeEscape | src/lexer.rs:928-995 | the value, end and diagnostics of a unicode escape |
| LiteralTexts.CodeEscapeRead | src/lexer.rs:928-995 | of one to six hexadecimal digits that give a scalar value, `\u{..}` is that character; otherwise there is no character and E0005 over the escape |
| Lexer.Lexer.LexEscapeSequence | src/lexer.rs:883-926 | the value, end and diagnostics of an escape |
| LiteralTexts.ShortEscapeRead | src/lexer.rs:883-926 | each of the seven short escapes is the character it stands for |
| LiteralTexts.BadEscapeRead | src/lexer.rs:883-995 | any other letter, and `u` without braces that close, is no character and E0005 up to where reading stopped |
| Lexer.Lexer.LexString | src/lexer.rs:741-782 | the value, span and diagnostics of a string literal |
| LiteralTexts.StringLiteral | src/lexer.rs:741-782 | a quote and any sequence of pieces, each a plain character or an escape spelled either way, is one string token with the pieces' values in order if a quote follows, else E0006 |
| Lexer.Lexer.LexTemplate | src/lexer.rs:784-822 | the raw text and span of a template literal |
| LiteralTexts.TemplateLiteral | src/lexer.rs:784-822 | `f` or `$` and a quoted text with no bare quote is one template token with exactly that text if a quote follows, else E0006 |
| Lexer.Lexer.LexChar | src/lexer.rs:824-881 | the value, span and diagnostics of a character literal |
| LiteralTexts.CharLiteral | src/lexer.rs:824-881 | any one piece between apostrophes is one character token with the piece's value |
| LiteralTexts.BadCharLiteral | src/lexer.rs:828-874 | nothing between apostrophes, or more than a piece, is no token: E0006 at the end of the line, otherwise E0008 up to past the next apostrophe of the line |
| Lexer.Lexer.LexSymbol | src/lexer.rs:261-411 | the nested look-ahead yields the symbol spelled in the text |
| Lexer.Lexer.Run | src/lexer.rs:220-424 | the object computes the lexing function on every text; what that function yields is stated by the `LexerFacts`, `LexerWindows`, `LiteralValues` and `LiteralTexts` rows |
| Lexer.LexWithComments | src/lexer.rs:194-208 | the entry point returns the tokens, comments and diagnostics of the whole text, with the end of file last |
| LexerFacts.SpansTile | src/lexer.rs:220-424 | token and comment spans are in bounds, strictly ordered and disjoint, whatever the diagnostics, and the end of file comes last |
| LexerWindows.CleanScan | src/lexer.rs:220-424 | a reading without diagnostics is a blank, a token that ends where reading ended, or a comment followed by white space |
| LexerFacts.GapsAreWhite | src/lexer.rs:220-424 | without diagnostics, everything outside the spans is white space |
| LexerWindows.ScanAlone | src/lexer.rs:220-424 | a token read without diagnostics is read again from its own characters |
| LexerFacts.TokenAlone | src/lexer.rs:220-424 | in a text without diagnostics, lexing any token's text alone yields that token and the end |
| LexerFacts.MaximalMunch | src/lexer.rs:261-411 | what is read as a symbol is one, and the longest the text continues with |
| LexerFacts.IdentifiersNotReserved | src/lexer.rs:245-256 | no identifier of any text starts with two underscores |
| StringLiterals.EscapeStringLiteral | src/formatter.rs:2535-2552 | the loop computes the printed text; which characters it escapes and how is stated by the `StringEscapes` rows |
| StringEscapes.CharPrints | src/formatter.rs:2538-2549 | six characters are printed as backslash and letter, every other code below a blank and 0x7F as `\u{..}` with its code in capital hexadecimal digits without a leading zero, all others as themselves |
| StringEscapes.PrintedInPlace | src/formatter.rs:2535-2552 | each character of a text is printed so at its place, between what is printed for the characters before it and after it |
| StringEscapes.PrintedUnchanged | src/formatter.rs:2535-2552 | a text is printed as it is iff it has no backslash, no quote, no code below 0x20 and no 0x7F; otherwise the printed text is longer |
| StringLiterals.HexValue | src/formatter.rs:2545-2547 | the hexadecimal digits of a control character are read back as its code |
| StringLiterals.CharRead | src/lexer.rs:741-782 | one printed character is read back as that character |
| StringLiterals.LiteralRoundTrip | src/formatter.rs:2535-2552 | a printed literal followed by any text is read as one string token with the original value, no diagnostics, ending after the closing quote |
| StringLiterals.LiteralInjective | src/formatter.rs:2535-2552 | different strings print differently and no literal is the beginning of another |
| StringLiterals.LiteralOnOneLine | src/formatter.rs:2535-2552 | a printed literal never contains a line break, which would end it |
| PrintedText.Printer.Expr | src/formatter.rs:1723-1746 | the printer appends the text of the expression for the parent's precedence |
| PrintedText.Printer.Infix | src/formatter.rs:1723-1746 | the binary case: left operand at the operator's precedence, right operand one higher, parentheses when the parent binds tighter |
| PrintedText.Printer.Args | src/formatter.rs:1594-1615 | arguments separated by a comma and a blank |
| PrintLayout.OperatorTable | src/formatter.rs:2585-2607 | every binary operator, its precedence and its spelling, and the three prefix operators |
| PrintLayout.TextLaid | src/formatter.rs:1723-1746 | the text is that of the tokens, with one blank on either side of each binary operator and one behind each comma, and none anywhere else, in particular none inside parentheses or behind a prefix operator |
| ExprPrinter.OpTokenLevel | src/formatter.rs:2583-2607 | the printer's precedence of each operator is the parser level that reads it |
| ExprPrinter.PrintedParses | src/parser.rs:2325-2627 | a printed operand is read back as far as the operators after it allow |
| ExprPrinter.ReadPrintsSame | src/formatter.rs:1723-1746 | the expression a printed text denotes prints to the same tokens |
| ExprPrinter.RoundTrip | src/parser.rs:2325-2627 | parsing what was printed gives the denoted expression, for every printable expression; the expression itself iff no call has a prefix expression as callee |
| ExprPrinter.PrintInjective | src/formatter.rs:1723-1746 | two expressions print alike iff they denote the same; readable ones only if they are equal |
| ExprPrinter.PrefixCalleeMisread | src/formatter.rs:1723-1746 | `(-f)(x)` prints as `-f(x)`, which is parsed as the negated call |
| PrintMinimal.Shortest | src/formatter.rs:1723-1746 | no shorter sequence of tokens is parsed as the expression: the printer writes the fewest parentheses that read back |
| PrintedLexing.TextReads | src/lexer.rs:220-424 | wherever the printed text stands, before a blank, a bracket, a comma or the end, it is lexed as the printed tokens and nothing else |
| PrintedReading.TextRoundTrip | src/parser.rs:2325-2627 | lexing and parsing the printed text gives the denoted expression; the expression itself iff no call has a prefix expression as callee |
| PrintedReading.TextInjective | src/formatter.rs:1723-1746 | expressions with the same text denote the same; readable ones are equal |
| TypeNames.SplitTopLevel | src/formatter.rs:606-626 | the loop computes the pieces between commas outside brackets |
| TypeNames.ReadInvertsRepr | src/ir_builder.rs:690-704 | base name and top-level splitting take a type string apart into the type it was made from |
| TypeNames.ReprInjective | src/ir_builder.rs:690-704 | equal strings iff equal types |
| TypeNames.ReprSpaced | src/ir_builder.rs:690-704 | in a type's string a blank stands behind every comma and otherwise only behind `dyn` |
| TypeNames.Builder.LowerType | src/ir_builder.rs:442-452 | the id names the entry of the type's string, old entries stay, and a known string adds none; ids number the list from 1 |
| TypeNames.Builder.LowerAll | src/ir_builder.rs:442-452 | over one run two types get the same id iff they are equal |
| TextEdits.ReplaceRange | src/diag_fixes.rs:180-206 | one round succeeds iff the edit fits the buffer at character boundaries, and replaces that range |
| TextEdits.FitsUnmoved | src/diag_fixes.rs:180-206 | checking the moving buffer answers for the original text |
| TextEdits.ApplyTextEdits | src/diag_fixes.rs:175-210 | for non-conflicting edits: success iff every edit fits the original text, and the result is the simultaneous splice |
| EditedText.AppliedText | src/diag_fixes.rs:175-210 | the splice is the source read front to back: what stands before the first edit, its replacement, what stands up to the second, and so on, for the edits in the order of the text |
| EditedText.BoundariesAreBetween | src/diag_fixes.rs:198 | in an encoded text the admitted positions are exactly those between the codes of two characters, and the ends |
| FixPlan.CollectSafeFixPlan | src/diag_fixes.rs:50-140 | the loop computes the greedy plan of the sorted candidates; which edits those are and what becomes of each is stated by the `FixCandidates` and `FixDecisions` rows |
| FixCandidates.ConsideredExactly | src/diag_fixes.rs:237-257 | an edit is considered iff a diagnostic with one of the nine codes, listed in the statement, and a file has a fix with a start, an end not before it and a text, all of them the edit's own |
| FixCandidates.ConsideredAsSuggested | src/diag_fixes.rs:51-69 | and as often as diagnostics suggest it |
| FixCandidates.ConsideredInOrder | src/diag_fixes.rs:71-79 | edits are considered by file, start, end, text, message and code, texts compared at the first character in which they differ |
| FixCandidates.PlanMaximal | src/diag_fixes.rs:83-121 | every suggested edit occupies a place that an accepted one occupies, no two accepted ones do, and a rejected one is suggested and does with the accepted one it names; a place is a position of the range, or that of the insertion |
| FixCandidates.TouchingApart | src/diag_fixes.rs:259-270 | edits of non-empty ranges that only touch do not conflict |
| FixDecisions.ConflictsExactly | src/diag_fixes.rs:83-121 | where texts are not merged, an edit is reported as rejected iff it is suggested and the plan has no edit of its range and text, and the plan's edits there are suggested as they are |
| FixDecisions.WinnerConsideredFirst | src/diag_fixes.rs:106-121 | the edit a rejection names was considered before the rejected one |
| FixDecisions.WinnerStartsFirst | src/diag_fixes.rs:71-79 | so it starts before it, or starts with it and ends no later |
| FixPlan.StepShape | src/diag_fixes.rs:83-121 | one candidate: accepted edits keep their range, stay apart, and one of them overlaps the candidate; a rejection names an accepted edit it conflicts with |
| FixPlan.PlanSound | src/diag_fixes.rs:50-140 | accepted edits of a file never conflict, each stems from a candidate, each reported conflict is with the accepted edit it names, every candidate overlaps an accepted edit |
| FixPlan.PlanCanonical | src/diag_fixes.rs:71-79 | the plan is the same for every order of the diagnostics |
| FixPlan.PlanApplies | src/diag_fixes.rs:212-235 | the edits handed over for a file are non-conflicting, as the applier needs |
| FixCandidates.HandedOver | src/diag_fixes.rs:212-219 | the edits handed over for a file are those accepted for it, with their texts encoded |
| FixClauses.ReadNamedClause | src/diag_fixes.rs:328-346 | the two reading loops find the clause that starts at the first occurrence of its word |
| FixDecisions.ClauseExact | src/diag_fixes.rs:328-346 | the clause read for a word is the one at the word's first occurrence, the word, white space and braces with no closing brace inside; none is read where no such text stands |
| FixMerging.MergeHoldsBoth | src/diag_fixes.rs:293-319 | the merged text is the chosen effect clause and the chosen capability clause, both held in full, with at most a space around them |
| FixDecisions.MergedBlanks | src/diag_fixes.rs:308-320 | a merged text starts with a blank iff one of the two did, and ends with one likewise |
| FixMerging.MergeKeepsEffect | src/diag_fixes.rs:272-319 | a later merge reads the candidate's effect clause back, or else the one there was |
| FixMerging.MergeKeepsCapability | src/diag_fixes.rs:272-319 | a later merge reads the capability clause back iff the effect clause does not contain its word or reads as that very clause |
| FixMerging.FoldReadsLastEffect | src/diag_fixes.rs:94-104 | after any number of insertions merged in order, the last effect clause is the one read |
| FixMerging.CapabilityKeptExactly | src/diag_fixes.rs:94-104 | from the last capability clause on, the text reads as that clause after every insertion iff no merge on the way puts an effect clause in front that hides it |
| FixRequests.RequestRead | src/diag_fixes.rs:328-346 | of an insertion as the type checker writes it, exactly the clauses it has are read back; no hiding is possible |
| FixRequests.MergeWritten | src/diag_fixes.rs:272-319 | merging two such insertions writes the combination of what they ask for: each list of the later if it has one, else of the earlier |
| FixRequests.FoldWritten | src/diag_fixes.rs:94-104 | the same for any number of them, duplicates included |
| FixRequests.MergeLosesNothing | src/diag_fixes.rs:293-294 | no effect either insertion asks for is missing iff one has no effects or the later lists all names of the earlier; likewise for capabilities |
| FixRequests.KnownArePlain | src/effects.rs:6-15 | no effect the compiler knows contains either of the two words |
| FixReading.RequestLexes | src/typecheck.rs:3116-3139 | wherever the text of an insertion stands in a source, it is lexed as the tokens of its clauses and nothing else |
| FixReading.RequestParses | src/parser.rs:1561-1617 | the parser's two clause readers give back both lists |
| FixReading.InsertionRead | src/parser.rs:737-738 | lexing and parsing a source at an inserted text gives the lists the insertion asks for |
| FixOutcome.InsertionIsAllMerged | src/diag_fixes.rs:83-121 | every insertion of a plan is all insertions suggested at its place merged in the plan's order; if the compiler wrote them none of them is reported as a conflict |
| FixOutcome.TakenAllFolds | src/diag_fixes.rs:94-104 | its text is that of the insertions taken in one after the other |
| FixOutcome.InsertionAsks | src/diag_fixes.rs:50-140 | the plan's insertion at a place asks for the last list of effects and the last list of capabilities suggested there, without a conflict |
| FixOutcome.NothingLostExactly | src/diag_fixes.rs:50-140 | read where the plan's insertion stands in the fixed source, the signature has every effect and capability suggested for the place iff the last list of each kind contains all others |
| FixOutcome.EffectLost | src/diag_fixes.rs:293 | diagnostics with `effects { io }` and `effects { fs, io }` at one place: the plan inserts the former and reports no conflict |
| FixOutcome.ClauseLost | src/diag_fixes.rs:328-346 | three insertions, of which the second hides the clause of the first and the third drops it from the plan; the second names an effect the compiler does not have |
| CallGraph.Expand | src/context_query.rs:473-488 | one round labels and queues exactly the unlabelled callees, one further away, the queue staying in order |
| CallGraph.CollectCallDistances | src/context_query.rs:449-493 | for a depth of at least one, the map holds exactly the functions other than the target within the depth, each with its shortest call-chain length |
| CallGraph.CollectCallerDistances | src/context_query.rs:762-815 | the same for callers: exactly the functions that reach the target within the depth, with shortest lengths |
| CallGraph.WalkReversed | src/context_query.rs:767-775 | a chain of callers is a chain of calls read backwards |
| CallGraph.InvertCalls | src/context_query.rs:767-775 | the inverse holds exactly the reversed calls, with an entry for each called function |
| CallGraph.BuildInverseCallers | src/impact.rs:156-170 | the same with an entry for each caller too |
| CallGraph.CollectTransitiveCallers | src/impact.rs:172-200 | direct and transitive callers together are exactly the functions that reach the given one; transitive ones are not direct |
| CallGraph.ImpactedCallers | src/impact.rs:80-81 | the two reported sets, from the call graph |
| CallGraph.MergeCallGraphs | src/context_query.rs:514-529 | the merged graph has the functions and the calls of either |
| Minimizer.Pass | src/fuzzing.rs:300-315 | a pass keeps the failure; if it removes nothing, no chunk could be removed |
| Minimizer.MinimizeInput | src/fuzzing.rs:287-326 | the result still fails, is a subsequence of the input, and removing any one character makes it pass; the loop ends |
| EditDistance.LevIsFewestEdits | src/effects.rs:214-240 | the tabulated number is the fewest insertions, deletions and substitutions |
| EditDistance.LevEdit | src/effects.rs:214-240 | one edit anywhere moves the distance by at most one |
| EditDistance.FillRow | src/effects.rs:227-235 | one row is computed from the row above |
| EditDistance.LevenshteinDistance | src/api_conformance.rs:1019-1034 | the two swapped rows compute the distance |
| EditDistance.Levenshtein | src/effects.rs:214-240 | so does the copy with early answers |
| EditDistance.ClosestKnown | src/effects.rs:184-197 | no name within two edits, or the first of the closest names |
| Glob.StarStep | src/api_conformance.rs:1003-1008 | a final `*` takes nothing or one byte more |
| Glob.ByteStep | src/api_conformance.rs:1010-1013 | any other final token takes exactly the last byte |
| Glob.WildcardMatch | src/api_conformance.rs:998-1017 | the one-row program is true iff the value splits into pieces the pattern's tokens stand for |
| Restore.Disk.WriteAll | src/checkpoint.rs:274-302 | contents are written beside their targets, up to a failure, which may leave part of its own |
| Restore.Disk.StageAll | src/checkpoint.rs:304-316 | existing targets are moved to their backups, up to a failure |
| Restore.Disk.CommitAll | src/checkpoint.rs:318-331 | new contents are moved in, up to a failure |
| Restore.Disk.RollbackRestore | src/checkpoint.rs:891-908 | what the rollback leaves, whatever was staged and committed |
| Restore.Disk.RestoreCheckpoint | src/checkpoint.rs:271-343 | the outcome names the first failing call, and the disk afterwards is the one stated for that outcome |
| RestoreFacts.RestoredHoldsSnapshots | src/checkpoint.rs:318-336 | on success every checkpoint path holds its snapshot and no other path has changed |
| RestoreFacts.FailureUndoneExactly | src/checkpoint.rs:891-908 | a failed restore leaves every file as it was iff it is not the case that all writes succeed and moving some existing target aside fails, a condition on the failing calls and the initial disk |
| RestoreFacts.LostFiles | src/checkpoint.rs:304-316 | otherwise the files lost are exactly the existing targets from the first that cannot be moved on |
| RestoreFacts.DiskUnchanged | src/checkpoint.rs:271-343 | the whole disk is as before iff the failure was in moving a new file in, or in the first write and that write left nothing |
| RestoreFacts.FailureLeaves | src/checkpoint.rs:271-343 | after a failure, path by path: a failed write leaves the files written beside their targets so far, a failed move aside no target from the failing one on, a failed move in nothing changed |
| RestoreFacts.OneFileLost | src/checkpoint.rs:304-316 | restoring one existing file whose move aside fails: the file is gone |

## Left out

- ContractProver.ConstSound: where folding overflows or divides by zero, the source stops or wraps (`src/contracts.rs:1316-1327`); the model has no constant there.
- ContractVerdict.TestExact: speaks of integer results, as the tails that have ranges; a condition that returns a value of another type is covered by `ProvedNeverFails` only.
- ContractLowering.LoweringCorrect: a run in which a contract clause itself traps is not promised, since a discharged clause is not evaluated; runtime integers are unbounded.
- ContractLowering.SubstMeans: clauses made of names, literals, operators and calls by name; clauses with blocks and clauses that call `result` are not substituted by the source as one would expect.
- ContractLoweringPass.IdAlloc.FromSymbols: node and type ids are not modelled.
- ContractLoweringPass.LowerFunctionContracts: the rewriting of struct literals into checked constructors, which precedes it, is not modelled.
- TextEdits.ApplyTextEdits: conflicting edits are not specified; of UTF-8 only the rule that a text does not start in the middle of a character is used.
- FixRequests.RequestRead: names that contain neither `effects` nor `capabilities`, as all names the compiler suggests (`FixRequests.KnownArePlain`).
- FixOutcome.NothingLostExactly: the fixed source is any source with the accepted text where a token may start and a clause of neither kind behind it; how the applier puts it there is `TextEdits.ApplyTextEdits`.
- FixPlan.CollectSafeFixPlan: the message of a conflict is kept as the three values it shows.
- Minimizer.MinimizeInput: inputs of one-byte characters, so that cutting bytes cuts characters; the predicate is deterministic.
- Lexer.Lexer.LexNumber: the value of a float literal is not modelled; its text and suffix are.
- Lexer.Lexer.Run: positions count characters, not bytes; the texts of diagnostics are not modelled, and the span of an integer's digits is given by its text.
- CallGraph.CollectCallDistances: a depth of zero is refused before the search (`src/context_query.rs:93-95`); maps are visited in any order, not in key order; the result does not depend on it.
- Restore.Disk.WriteAll: directories are not modelled; one that cannot be created counts as a failure of the write it belongs to, which leaves nothing or what it had written.
- Restore.Disk.RestoreCheckpoint: targets are distinct, temporary and backup paths new; a failing move changes nothing; failures inside the rollback are not modelled.
- ExprPrinter.RoundTrip: variables, non-negative integers, booleans, unit, calls and all binary and prefix operators; statements, literals with suffixes, named arguments, borrow, await, `?` and field access are not printed here.
- TypeNames.ReprInjective: names are non-empty and of identifier characters; source positions of types are not modelled.
- MatchArms.CheckMatch: patterns are taken as already translated to the algorithm's own form; string and character literals, which are quoted, stand for themselves.
- Closures, async, `?`, match guards and struct invariants in the contract model: the pass does not instrument exits of the first three, and the last goes through generated constructors.
- Witness rendering, diagnostics texts, comment placement and layout in the formatter: tables and heuristics without a law.
- The fuzzer's mutators, the daemon's caches, snapshot hashing, and file-system traversal.
