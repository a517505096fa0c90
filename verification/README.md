# Pigeonhole Sieve: a verified model

Pigeonhole compiles Sieve mail filters (RFC 5228) to a byte code, stores it in a file and
interprets it, and it serves scripts over the ManageSieve protocol (RFC 5804). This project models
the parts of it that are hard to get right and proves what they do.

* **Compiler.** Scripts of actions, `stop` and `if`/`elsif`/`else` chains over `not`, `anyof`,
  `allof`, `true`, `false` and leaf tests are validated with constant folding, generated with
  backpatched jumps, and interpreted. Running the bytes carries out the validated script, test by
  test and action by action. A script validates if and only if every `elsif` and `else` that can be
  reached stands behind an `if` or `elsif` (`Placement`); what chains and lists of tests mean is said
  of positions (`Meaning`). The code carries out the script as written, for every outcome of the tests,
  if and only if folding drops no test of a condition that can be reached, which is a property of
  the script (`Folding`, `FoldingBlocks`, `Compilation`). Every jump lands on an instruction
  (`JumpTargets`). Operands are read back as emitted (`Operands`, `BinaryCode`), and what is read of
  any bytes at all is stated exactly, with truncated and unknown code refused (`CodeReading`,
  `CorruptCode`).
* **`:matches` and `:contains`.** The pointer algorithm of the matcher, modelled step by step
  (`Matches`), against the patterns of RFC 5228 (`Glob`). A property of the key that a caller can
  compute (`Keys.GoodKey`) decides whether the matcher is exact: it is right about every value if
  and only if the key has it (`MatchesCorrect`, `MatchesRefused`, `MatchesExact`). A narrower
  property, and having at most 31 wildcards, decides in the same way whether the match values put
  every value back together (`MatchesRecorded`, `MatchesFull`). The properties hold for every key
  with only `*` or only `?`. With i;ascii-casemap the case of letters changes no answer
  (`CaseFolding`).
* **Parser and lexer.** The recursive-descent parser with its error recovery accepts exactly the
  token sequences of the syntax trees within the limits and builds that tree (`Grammar`,
  `GrammarRoundTrip`, `Parser`), and recovery ends at the end of the failed structure (`Recovery`).
  Strings and numbers are lexed from an input cut into any buffers, exactly as they are spelled
  (`Lexer`, `LexerRoundTrip`, `LexerSpelling`, `LexerNumbers`). The linked lists of the tree are
  changed in place (`AstList`).
* **Debug lines.** The line program of a binary, its writer, and a reader that keeps its place
  between queries, against a plain table (`DebugLines`, `DebugLookup`).
* **ManageSieve.** The argument parser accepts and refuses exactly the lines of a grammar, with the
  arguments they are written for (`ManageSieveGrammar`, `ManageSieveWords`, `ManageSieveLines`). It
  can be resumed, and gives the same answer for every way its input is delivered, unless it meets repeated CRs behind a literal header in an input that is not wrong
  otherwise (`ManageSieve`, `ManageSieveChunks`, `ManageSieveCuts`, `ManageSieveLoose`). Quoted values
  are read back, with the exact condition (`Quote`, `QuoteRoundTrip`, `QuoteSpaces`).
* **Binary files.** Saving blocks behind an index that is written last, and loading them through
  a cached file position, with the exact condition under which that position misleads a read
  (`BinaryFile`, `BinaryLoad`). Which files are opened is stated in terms of their bytes
  (`BinaryChecks`).

Code that changes state is modelled by classes and loops. Each such method is proved equal to a
function of the old state, and the theorems are about that function. External answers (tests of
mail, the UTF-8 checks of the base library, I/O failures, the error limit of the administrator)
are parameters or left nondeterministic. As in the base library, an output stream on which a call
has failed fails from then on.

## Findings

Places where the code does not do what its surroundings suggest. Each is shown by a lemma that
gives an input, and bounded by a theorem.

* `a?b*` matches `axc`; `*?*` does not match `x`; `*a?b` does not match `axbaxb`; `*?a?b*` does not
  match `xaaxb`; `*?a?` does not match `xaax` (`MatchesWrong`). Every key that is not good has such
  a value (`MatchesExact.ExactOnGoodKeysOnly`).
* `*?ab?` matches `xababy` with `a` recorded for `*`, which stands for `xa`
  (`MatchesWrong.LosesAByte`). When the match values are right is `MatchesFull.RightOnKeptKeysOnly`.
* `anyof (header ..., true)` is folded without the header test being carried out
  (`Folding.FoldingMayDropATest`). When a script is carried out as written is
  `Compilation.CompiledScriptIsExactWhenDecided`.
* The debug reader answers the same query with different lines if an address has rows of
  different lines, as after an `if true` (`DebugLookup.ConstantIfHasTwoLines`). When it is a plain
  lookup is `DebugLookup.ReaderIsLookupExactlyWhenOneLinePerAddress`.
* A CR at the end of a delivered piece is forgotten, so `{0}` CR CR LF fails at once and passes in
  two pieces (`ManageSieveChunks.ForgottenCr`). When pieces matter is
  `ManageSieveLoose.PiecesMatterExactlyAtTwoCrs`.
* Quoting turns a TAB into a space only when the value has to be rewritten, and never replaces a
  NUL, unlike what src/lib-managesieve/managesieve-quote.h:4-6 says (`QuoteRoundTrip.TabIsLost`,
  `QuoteRoundTrip.NulIsRefused`). When a value is read back is
  `QuoteRoundTrip.QuotedReadsBackExactlyWhenItSurvives`.
* A literal announces the length before invalid UTF-8 is cleaned up
  (`QuoteRoundTrip.LiteralAnnouncesTooLittle`). The length is right for valid values
  (`QuoteRoundTrip.ValidLiteralLength`).
* A failed read of a binary file leaves the cached position behind
  (`BinaryLoad.FailedReadSpoilsTheNext`). When the next read or load is right is
  `BinaryLoad.ReadAfterFailure` and `BinaryLoad.LoadAfterFailure`.

## Model

| member | source | states |
|---|---|---|
| `BinaryCode.OffsetRoundTrip` | src/lib-sieve/sieve-binary-code.c:84-118 | an offset in the code reads back, modulo 2^32 |
| `BinaryCode.PatchSlot` | src/lib-sieve/sieve-binary-code.c:101-118 | resolving a slot in the middle of code changes that slot only, to the distance to the target |
| `BinaryCode.IntegerRoundTrip` | src/lib-sieve/sieve-binary-code.c:122-146 | every number below 2^63, the nine-byte buffer of the writer, reads back and the reader stops right behind it |
| `BinaryCode.IntegerAdvances` | src/lib-sieve/sieve-binary-code.c:291-324 | on any bytes, a number that is read moves the address forward and stays in the block |
| `CodeReading.OffsetReadsExactly` | src/lib-sieve/sieve-binary-code.c:268-288 | on any bytes an offset is read if and only if its four bytes, most significant first, are there |
| `CodeReading.IntegerReadsExactly` | src/lib-sieve/sieve-binary-code.c:291-324 | a number is what its seven-bit groups make modulo 2^64 if at most ten bytes are marked as leading, and is refused if there are more |
| `CodeReading.IntegerIsReadOrRefused` | src/lib-sieve/sieve-binary-code.c:291-324 | on any bytes a number is read if and only if an unmarked byte comes after at most ten marked ones |
| `CodeReading.StringReadsExactly` | src/lib-sieve/sieve-binary-code.c:326-352 | on any bytes a string is read if and only if its bytes and a closing zero follow its length |
| `BinaryCode.StringRoundTrip` | src/lib-sieve/sieve-binary-code.c:149-180 | every string of less than 2^32 bytes reads back, whatever bytes it holds |
| `BinaryCode.BinaryBlock.EncodeOffset` | src/lib-sieve/sieve-binary-code.c:84-99 | the loop over the four bytes of an offset, least significant first |
| `BinaryCode.BinaryBlock.EmitInteger` | src/lib-sieve/sieve-binary-code.c:122-146 | the loop that fills the buffer from its end appends the seven-bit groups of the number |
| `BinaryCode.BinaryBlock.ReadInteger` | src/lib-sieve/sieve-binary-code.c:291-324 | the reading loop, with its 64-bit shift, yields the number or fails on any bytes as specified |
| `BinaryCode.BinaryBlock.ResolveOffset` | src/lib-sieve/sieve-binary-code.c:101-118 | overwrites one slot with the distance to the current end |
| `Operands.TagsRoundTrip` | src/lib-sieve/sieve-code.c:179-254 | optional operands read back in order up to their closing zero |
| `Operands.ListRoundTrip` | src/lib-sieve/sieve-code.c:684-712 | a string list reads back, and its skip offset is the address behind its last item |
| `Operands.ArgsRoundTrip` | src/lib-sieve/sieve-code.c:782-845 | positional numbers, strings and string lists read back by the kinds the operation asks for |
| `Operands.OpRoundTrip` | src/lib-sieve/sieve-code.c:1105-1150 | every operation with its optional and positional operands reads back as emitted |
| `Operands.BareOpReadsBackExactlyBeforeNonZero` | src/lib-sieve/sieve-code.c:233-254 | an operation without operands reads back if and only if no zero byte follows it |
| `Operands.OperandsAdvance` | src/lib-sieve/sieve-code.c:233-254 | on any bytes, reading operands moves forward and stays in the block |
| `Operands.EmitList` | src/lib-sieve/sieve-commands.c:97-141 | start, items and end of a list leave its bytes with the skip offset patched |
| `Operands.GenerateArguments` | src/lib-sieve/sieve-generator.c:227-302 | succeeds if and only if no tagged argument follows a positional one, and then leaves one optional block and the positional operands |
| `CorruptCode.OperationsHaveTheirShape` | src/lib-sieve/tst-exists.c:115-147 | an operation fits if and only if it has its own optional codes and operands, given for each of the eight codes: none for `keep` and `discard`, an address for `redirect`, two lists for `address` and `header`, one for `exists`, a number for `size` |
| `Interpreter.StepAdvances` | src/lib-sieve/sieve-interpreter.c:783-877 | on any bytes, a step that does not halt moves forward, stays in the block and only adds to the trace |
| `Interpreter.RunEndsWithinSize` | src/lib-sieve/sieve-interpreter.c:937-977 | on any bytes, a run ends within as many steps as there are bytes left, and only adds to the trace |
| `Interpreter.Interpreter.ProgramJump` | src/lib-sieve/sieve-interpreter.c:851-877 | reads the offset, checks the target even if it does not jump, and jumps relative to the operand |
| `Interpreter.Interpreter.Execute` | src/lib-sieve/sieve-interpreter.c:899-935 | one operation is one step of the machine; corrupt code and `stop` end it |
| `Interpreter.Interpreter.Continue` | src/lib-sieve/sieve-interpreter.c:937-977 | the execution loop yields the outcome and trace of the run |
| `CorruptCode.TagsReadExactly` | src/lib-sieve/sieve-code.c:233-254 | on any bytes the optional operands are read if and only if they are known ones of the right class up to the closing zero |
| `CorruptCode.TruncatedOperationIsRefused` | src/lib-sieve/sieve-interpreter.c:899-935 | code that ends anywhere within an operation stops the interpreter as corrupt, before the operation has an effect |
| `CorruptCode.JumpDecides` | src/lib-sieve/sieve-interpreter.c:784-877 | a jump leads to the place its offset names, counted from the offset, when taken, and behind it otherwise; a target behind the block is refused in both cases |
| `CorruptCode.UnreadableIsRefused` | src/lib-sieve/sieve-code.c:1125-1147 | a jump without its offset and an operation that is not known are refused; exactly `stop` stops |
| `Script.EvalIsValue` | src/lib-sieve/tst-anyof.c:62-118 | when tests do not see each other, the short-circuit evaluation of a test is its truth value |
| `Meaning.ListValue` | src/lib-sieve/tst-anyof.c:62-118 | `anyof` is true if and only if some member is, `allof` if and only if all are |
| `Meaning.ListStopsAtTheFirst` | src/lib-sieve/tst-anyof.c:62-118 | the members are carried out in order, up to and including the first that decides, and no further |
| `Meaning.FirstChosenBranchRuns` | src/lib-sieve/cmd-if.c:216-286 | an `if` chain carries out the tests up to the first branch that is chosen, the block of that branch, and no other, and goes on behind the chain unless the block stopped |
| `Meaning.NoBranchRuns` | src/lib-sieve/cmd-if.c:216-286 | a chain of which no branch is chosen carries out its tests and nothing else |
| `Validator.ValidateTest` | src/lib-sieve/sieve-validator.c:1380-1470 | the folded test and its constant verdict, through `not`, `anyof`, `allof`, `true` and `false` |
| `Validator.ValidateTestList` | src/lib-sieve/sieve-validator.c:1472-1515 | goes through the members, detaches constant ones, and stops at one that decides the list |
| `Meaning.ConstantExactlyWhenSure` | src/lib-sieve/tst-anyof.c:43-59 | a test gets a constant verdict if and only if its value follows from its constants alone: some member of `anyof` surely true, all surely false, and so on |
| `Validator.InitialCondition` | src/lib-sieve/cmd-if.c:97-130 | a branch is dead if and only if an earlier branch of its chain is always taken |
| `Validator.ValidateBlock` | src/lib-sieve/sieve-validator.c:1518-1588 | the validated block, or rejection; which scripts are rejected is `Placement.ValidatesExactlyWhenPlaced` |
| `Placement.ValidatesExactlyWhenPlaced` | src/lib-sieve/cmd-if.c:143-167 | a script validates if and only if every `elsif` and `else` stands right behind an `if` or `elsif`, in it and in every block of it that can run |
| `Validator.FoldTestKeepsValue` | src/lib-sieve/tst-allof.c:43-59 | a constant verdict is the truth value for all outcomes of the leaf tests; otherwise the folded test has the same value and no constants are left |
| `Validator.FoldBlockKeepsActions` | src/lib-sieve/cmd-if.c:170-189 | folding keeps the actions, their order and the ending also where it drops tests, provided tests have no effect on one another |
| `Folding.FoldingKeepsTestsExactlyWhenDecided` | src/lib-sieve/tst-anyof.c:43-59 | folding a test leaves the tests carried out unchanged for every outcome if and only if constants are decided before any leaf test |
| `Folding.FoldingMayDropATest` | src/lib-sieve/sieve-validator.c:1491-1510 | the test in front of a deciding constant is dropped |
| `FoldingBlocks.BlockFolds` | src/lib-sieve/cmd-if.c:97-189 | the tree of questions and actions of a folded block is the same as that of the block if all reachable conditions are decided, and smaller if not |
| `FoldingBlocks.FoldingKeepsTraceExactlyWhenDecided` | src/lib-sieve/sieve-validator.c:1472-1588 | validation leaves the tests and actions of a script, their order and the ending unchanged for every outcome of the tests if and only if the conditions that can be reached are decided |
| `Compiler.FoldBlockFits` | src/lib-sieve/sieve-commands.c:370-382 | validated blocks satisfy what the generator relies on; a branch said to stop does |
| `Compiler.TestRuns` | src/lib-sieve/sieve-generator.c:333-376 | the code of any test carries out exactly its evaluation and jumps or falls through by its value |
| `Compiler.ListRuns` | src/lib-sieve/tst-anyof.c:62-118 | `anyof` and `allof` code, in both jump senses, short-circuits as the list does |
| `Compiler.BlockRuns` | src/lib-sieve/cmd-if.c:216-286 | block code at any address carries out exactly the block, also when entered in the middle of a chain already taken |
| `Generator.JumpList.Resolve` | src/lib-sieve/sieve-generator.c:48-57 | the loop over collected jumps patches each slot to the current end |
| `Generator.PatchTest` | src/lib-sieve/sieve-generator.c:333-376 | patching the slots of a test turns its open code into its final code, wherever it lies |
| `Generator.GenerateTest` | src/lib-sieve/sieve-generator.c:333-376 | appends the open code of the test and its jump slots to the list |
| `Generator.GenerateTestList` | src/lib-sieve/tst-allof.c:62-118 | the same for lists, with an inner jump list resolved behind them |
| `Generator.ResolveExits` | src/lib-sieve/cmd-if.c:201-213 | walks back through the chain and points every exit jump at the current end, wherever it pointed before; jumps that lead there already stay as they are |
| `Generator.GenerateCommand` | src/lib-sieve/cmd-if.c:241-286 | one command of a chain; behind a branch that is always taken the code stays as it is, although exit jumps are resolved again |
| `Generator.GenerateIf` | src/lib-sieve/cmd-if.c:216-267 | condition, body, exit jump and resolution of an `if` or `elsif`, with constant conditions and stopping bodies |
| `Generator.GenerateElse` | src/lib-sieve/cmd-if.c:270-286 | the body of an `else`, or nothing when it is dead |
| `Generator.FoldBlockCloses` | src/lib-sieve/cmd-if.c:143-189 | in a validated block an `elsif` or `else` continues a chain, and a dead `else` follows a branch that is always taken |
| `Generator.GenerateBlock` | src/lib-sieve/sieve-generator.c:379-414 | the generator appends exactly the final code of the block: no slot stays open |
| `Compilation.CompiledBlockRuns` | src/lib-sieve/sieve-interpreter.c:899-977 | running generated code gives the tests and actions of the validated script in order, and its ending, for every outcome of the tests |
| `Compilation.CompiledScriptIsExactWhenDecided` | src/lib-sieve/cmd-if.c:216-286 | running the code of a script gives the tests and actions of the script as written, in order, and its ending, for every outcome of the tests, if and only if the conditions that can be reached are decided |
| `Compilation.CompiledScriptMeaning` | src/lib-sieve/cmd-if.c:216-286 | for any script the actions and the ending are those of direct evaluation, provided tests have no effect on one another |
| `Compilation.CompileAndRun` | src/lib-sieve/sieve-generator.c:399-414 | validator, generator and interpreter together: succeeds if and only if every `elsif` and `else` that can be reached stands behind an `if` or `elsif`, with the results above |
| `JumpTargets.GeneratedJumpsLand` | src/lib-sieve/sieve-binary-code.c:101-118 | in generated code every jump leads forward to an instruction boundary or the end, and no slot holds the placeholder |
| `Glob.GlobsNothing` | src/lib-sieve/mcht-matches.c:509-513 | at the end of the value exactly a run of stars matches |
| `Fixed.GlobsHere` | src/lib-sieve/mcht-matches.c:328-358 | between two stars, taking a stretch where it fits loses no match |
| `Fixed.GlobsLast` | src/lib-sieve/mcht-matches.c:244-276 | behind the last star a stretch matches exactly at the end of the value |
| `Fixed.FillsGlobs` | src/lib-sieve/mcht-matches.c:523-533 | a pattern filled with match values is matched |
| `Matches.CharMatch` | src/lib-sieve/cmp-i-ascii-casemap.c:61-83 | the text is at the place if and only if all its bytes agree, which for i;ascii-casemap is `CaseFolding.CasemapIsCase`; otherwise the pointer goes back |
| `CaseFolding.CasemapIsCase` | src/lib-sieve/cmp-i-ascii-casemap.c:69-73 | i;ascii-casemap takes two bytes for the same if and only if they are equal or the upper and lower case of one letter A to Z |
| `CaseFolding.OctetIsEquality` | src/lib-sieve/cmp-i-octet.c:75-95 | i;octet takes only equal bytes for the same |
| `Matches.StringFind` | src/lib-sieve/mcht-matches.c:57-82 | the first place where the text is found, or the end |
| `Matches.ScanKeySection` | src/lib-sieve/mcht-matches.c:84-108 | the literal text up to the next wildcard with escapes resolved; a last backslash stands for itself |
| `Matches.ScanQuestions` | src/lib-sieve/mcht-matches.c:382-457 | the loop over successive `?` |
| `Matches.Round` | src/lib-sieve/mcht-matches.c:164-506 | one round of the outer loop, backtracking included |
| `Matches.MatchKey` | src/lib-sieve/mcht-matches.c:110-540 | the whole matcher ends on every key and value, stays within both, and yields the result and match values that the theorems are about |
| `Matches.ContainsKey` | src/lib-sieve/mcht-contains.c:50-86 | true if and only if the key is found in the value |
| `CaseFolding.MatchAlike` | src/lib-sieve/mcht-matches.c:110-540 | with i;ascii-casemap, changing the case of any letters of the value and of the key changes no answer of `:matches` |
| `CaseFolding.FindAlike` | src/lib-sieve/mcht-contains.c:50-86 | the same for the place that `:contains` finds |
| `Keys.SectionIsLiteral` | src/lib-sieve/mcht-matches.c:84-108 | a scanned section is the literal start of the pattern there |
| `Keys.NeedlePattern` | src/lib-sieve/mcht-matches.c:180-215 | behind a star, the key offset and the section are the `?` and the text that come next in the pattern |
| `Keys.RunPattern` | src/lib-sieve/mcht-matches.c:382-457 | a run of `?` and texts is the next stretch of the pattern |
| `MatchesCorrect.QuestionsRun` | src/lib-sieve/mcht-matches.c:382-457 | the `?` loop succeeds exactly where the run fits, and what it leaves behind when it fails |
| `MatchesCorrect.HuntDecides` | src/lib-sieve/mcht-matches.c:416-448 | going back to the star for text with `?` behind it finds a match if and only if there is one |
| `MatchesCorrect.StarLoop` | src/lib-sieve/mcht-matches.c:164-506 | from behind any star of a good key, the loop decides the rest of the pattern |
| `MatchesCorrect.LongHunt` | src/lib-sieve/mcht-matches.c:416-448 | the same for text with `?` in front of it as well, if no place that matters is passed over |
| `MatchesCorrect.MatcherIsExactOnGoodKeys` | src/lib-sieve/mcht-matches.c:110-540 | for every value and good key the matcher succeeds exactly on the instances of the pattern; if the key is good for its match values and has at most 31 wildcards, value 0 is the whole value and the others fill the pattern |
| `MatchesRefused.TooShort` | src/lib-sieve/mcht-matches.c:164-506 | for any key: from behind a star, the match fails if fewer bytes are left than the rest of the pattern takes |
| `MatchesRefused.Refused` | src/lib-sieve/mcht-matches.c:164-506 | if the key is not good behind a star, an instance of the rest of the pattern is refused from there |
| `MatchesExact.Welcomed` | src/lib-sieve/mcht-matches.c:164-506 | for any key: behind a star some value is taken whose first byte is not a given one |
| `MatchesExact.PassedOver` | src/lib-sieve/mcht-matches.c:382-448 | if only the last text in front of the first star fails, the pointers are left as if it were not in the key |
| `MatchesExact.BadKeysAreConfused` | src/lib-sieve/mcht-matches.c:110-540 | for every key that is not good there is a value that is matched wrongly |
| `MatchesExact.ExactOnGoodKeysOnly` | src/lib-sieve/mcht-matches.c:110-540 | the matcher is right about every value if and only if the key is good |
| `MatchesRecorded.Spent` | src/lib-sieve/mcht-matches.c:330-372 | for any key: the match values recorded from behind a star have no more bytes than the value has left for wildcards |
| `MatchesRecorded.Lost` | src/lib-sieve/mcht-matches.c:428-448 | going back over text with `?` in front of it records fewer bytes than the wildcards stand for |
| `MatchesRecorded.LosingIsNotRight` | src/lib-sieve/mcht-matches.c:428-448 | for every good key whose match values can go wrong there is a value for which they do |
| `MatchesFull.OverflowingIsNotRight` | src/lib-sieve/sieve-match-types.c:226-288 | for every key with 32 wildcards or more there is a value whose match values do not fill the pattern |
| `MatchesFull.RightOnKeptKeysOnly` | src/lib-sieve/mcht-matches.c:110-540 | decision and match values are right for every value if and only if the key is good for its match values and has at most 31 wildcards |
| `Keys.KeptKeysAreGood` | src/lib-sieve/mcht-matches.c:164-506 | keys that are good for their match values are good |
| `MatchesWrong.StarKeysAreGood` | src/lib-sieve/mcht-matches.c:164-506 | keys without an unescaped `?` are good, also for their match values |
| `MatchesWrong.QuestionKeysAreGood` | src/lib-sieve/mcht-matches.c:164-506 | keys without an unescaped `*` are good, also for their match values |
| `MatchesWrong.AcceptsTooMuch` | src/lib-sieve/mcht-matches.c:416-466 | `a?b*` is reported to match `axc` |
| `MatchesWrong.RejectsOneByte` | src/lib-sieve/mcht-matches.c:340-344 | `*?*` is reported not to match `x` |
| `MatchesWrong.RejectsTheSecond` | src/lib-sieve/mcht-matches.c:413-415 | `*a?b` is reported not to match `axbaxb` |
| `MatchesWrong.SkipsTwice` | src/lib-sieve/mcht-matches.c:428-448 | `*?a?b*` is reported not to match `xaaxb` |
| `MatchesWrong.SkipsTwiceAtTheEnd` | src/lib-sieve/mcht-matches.c:428-448 | `*?a?` is reported not to match `xaax` |
| `MatchesWrong.LosesAByte` | src/lib-sieve/mcht-matches.c:428-448 | `*?ab?` is matched by `xababy` with the match values `a`, `b` and `y` |
| `MatchesCorrect.AddCharsSingles` | src/lib-sieve/sieve-match-types.c:226-288 | single-byte match values are added in order as long as there is room for them |
| `Contains.ContainsIsStarredMatch` | src/lib-sieve/mcht-contains.c:50-86 | a value contains a key if and only if it matches the escaped key between two stars |
| `GrammarRoundTrip.ScriptParsesBack` | src/lib-sieve/sieve-parser.c:138-541 | the tokens of every tree within the limits parse to that tree |
| `GrammarRoundTrip.ScriptIsSpelled` | src/lib-sieve/sieve-parser.c:138-541 | what is accepted is within the limits, and flattens to the tokens it came from |
| `GrammarRoundTrip.ArgumentsParse` | src/lib-sieve/sieve-parser.c:138-429 | arguments and nested tests parse back in front of every token that may follow them |
| `GrammarRoundTrip.ArgumentsAreSpelled` | src/lib-sieve/sieve-parser.c:138-429 | parsed arguments and tests keep to 32 arguments and 32 levels, and are what was read |
| `GrammarRoundTrip.AcceptedExactlyWhenSpelled` | src/lib-sieve/sieve-parser.c:543-580 | accepted if and only if some tree within the limits has these tokens; and there is one such tree only |
| `Parser.Parser.Recover` | src/lib-sieve/sieve-parser.c:621-669 | moves forward to the first place where the failed structure is closed at its own level, a surrounding one goes on, or the input ends; reports success exactly at the closing token, or at `{` when looking for `;` |
| `Parser.PriorityIsSurrounding` | src/lib-sieve/sieve-parser.c:589-619 | the tokens that recovery does not pass are, for `]`: `(`, `)`, `;`, `{`, `}`; for `)`: `;`, `{`, `}`; for `;`: `{`, `}`; for `}`: none |
| `Recovery.RecoversAtItsOwnEnd` | src/lib-sieve/sieve-parser.c:621-669 | recovery in a structure stops at the token that closes it, past everything nested in it, and not before |
| `Recovery.RecoversAtTheNextOneUp` | src/lib-sieve/sieve-parser.c:621-669 | where the structure is not closed, recovery stops at the first token of the structure around it |
| `Parser.Parser.ParseStrings` | src/lib-sieve/sieve-parser.c:161-232 | string lists with recovery: valid afterwards if and only if valid before and accepted |
| `Parser.Parser.ParseArgList` | src/lib-sieve/sieve-parser.c:149-276 | the argument loop with its limit, likewise |
| `Parser.Parser.ParseTestItems` | src/lib-sieve/sieve-parser.c:325-390 | test lists with recovery, likewise |
| `Parser.Parser.ParseArgumentsOf` | src/lib-sieve/sieve-parser.c:138-429 | arguments and tests at a nesting depth, likewise, with the same tree and position |
| `Parser.Parser.ParseCommandOf` | src/lib-sieve/sieve-parser.c:446-537 | one command with recovery, likewise; the branch that cannot happen is unreachable |
| `Parser.Parser.ParseCommandsOf` | src/lib-sieve/sieve-parser.c:435-541 | a block of commands, likewise, on every token sequence |
| `Parser.Parser.Run` | src/lib-sieve/sieve-parser.c:543-580 | ends on every token sequence; accepts if and only if it is that of a tree within the limits, and builds that tree |
| `AstList.NodeList.Add` | src/lib-sieve/sieve-ast.c:236-253 | head, tail, links and length describe the old nodes with one more at the end |
| `AstList.NodeList.Insert` | src/lib-sieve/sieve-ast.c:255-272 | the same with the node in front of a given one |
| `AstList.NodeList.Join` | src/lib-sieve/sieve-ast.c:274-300 | the same for two lists, and the nodes change their owner |
| `AstList.NodeList.Substitute` | src/lib-sieve/sieve-ast.c:372-392 | one node is replaced and left without links |
| `AstList.NodeList.Detach` | src/lib-sieve/sieve-ast.c:302-332 | exactly the requested run, or what is left of it, leaves the list as a chain of its own; the node behind it is returned |
| `Lexer.Scanner.Shift` | src/lib-sieve/sieve-lexer.c:308-340 | moves on by one byte of the input whatever the buffers; the current line is one more than the newlines passed |
| `LexerRoundTrip.NewlinesAreLineFeeds` | src/lib-sieve/sieve-lexer.c:308-332 | the line counter counts the line feeds passed |
| `Lexer.Scanner.ScanNumber` | src/lib-sieve/sieve-lexer.c:350-412 | accepts the digits at the place with their quantifier if and only if the product is below 2^64, and yields it; what is written there is `LexerNumbers.NumberIsFound` |
| `LexerNumbers.NumberIsFound` | src/lib-sieve/sieve-lexer.c:350-412 | for every number as it is printed, with leading zeros and a K, M or G of either case, the scan finds all its digits, its value and the factor 1, 2^10, 2^20 or 2^30 |
| `LexerNumbers.EveryRunIsANumber` | src/lib-sieve/sieve-lexer.c:360-363 | every run of digits is some printed number behind some zeros, so the former covers all of them |
| `LexerNumbers.LexNumber` | src/lib-sieve/sieve-lexer.c:350-412 | from any cut of the input a number is read as its value times its factor if and only if that is below 2^64, and reading goes on behind it |
| `Lexer.Scanner.ScanQuoted` | src/lib-sieve/sieve-lexer.c:561-635 | the quoted string at the place, independent of the buffers |
| `Lexer.Scanner.ScanText` | src/lib-sieve/sieve-lexer.c:776-877 | the multi-line string at the place, independent of the buffers |
| `LexerRoundTrip.QuotedReadsBackExactlyWhenClean` | src/lib-sieve/sieve-lexer.c:561-635 | an escaped string reads as its normal form; it is read back if and only if it has no NUL, its line breaks are CRLF and it is at most 2^20 bytes long |
| `LexerRoundTrip.NormalKeepsExactlyClean` | src/lib-sieve/sieve-lexer.c:583-618 | the normal form is the string itself exactly for those |
| `LexerRoundTrip.TextReadsBack` | src/lib-sieve/sieve-lexer.c:776-877 | dot-stuffed lines are read back if and only if they are at most 2^20 bytes long together |
| `LexerRoundTrip.LexQuoted` | src/lib-sieve/sieve-lexer.c:561-635 | the same from any cut of the input, with the line counter |
| `LexerRoundTrip.LexText` | src/lib-sieve/sieve-lexer.c:776-877 | the same for multi-line strings |
| `LexerSpelling.QuotedReadsExactlyWhatIsSpelled` | src/lib-sieve/sieve-lexer.c:561-635 | a quoted string is read as a value if and only if it is spelled by characters and line breaks, each perhaps behind a backslash, up to the closing quote, that stand for this value, of at most 2^20 bytes |
| `LexerSpelling.TextReadsExactlyWhatIsSpelled` | src/lib-sieve/sieve-lexer.c:776-877 | a multi-line string is read as a value if and only if it is lines, with CRLF or LF and two leading dots for one, and a closing dot, that stand for this value, of at most 2^20 bytes |
| `DebugLines.RowInProgram` | src/lib-sieve/sieve-binary-debug.c:64-118 | the program of a table holds the bytes of each row behind those of the rows in front |
| `DebugLines.DebugWriter.Emit` | src/lib-sieve/sieve-binary-debug.c:64-118 | the block stays the program of the rows emitted so far |
| `DebugLines.DebugReader.ReadRows` | src/lib-sieve/sieve-binary-debug.c:180-273 | the opcode loop, on any bytes, reads rows until one at or behind the query, or the end |
| `DebugLines.DebugReader.ReadLine` | src/lib-sieve/sieve-binary-debug.c:161-274 | reset, cached answer or search, on any bytes |
| `DebugLookup.SpecialSplits` | src/lib-sieve/sieve-binary-debug.c:78-86 | a special opcode splits into the two increments it was made of |
| `DebugLookup.RowReadsBack` | src/lib-sieve/sieve-binary-debug.c:188-271 | the opcodes of a row read back as that row, lines modulo 2^32 |
| `DebugLookup.TruncatedRowIsNotReported` | src/lib-sieve/sieve-binary-debug.c:188-271 | a row whose opcodes are cut off anywhere is not reported |
| `DebugLookup.TruncatedOperandResets` | src/lib-sieve/sieve-binary-debug.c:211-252 | where an operand is cut off the reader answers 0 and is reset |
| `DebugLookup.QueryAnswers` | src/lib-sieve/sieve-binary-debug.c:161-274 | a query answers with a row at the greatest address up to it and leaves the reader in a state that the next query can use |
| `DebugLookup.EveryAnswerIsLatest` | src/lib-sieve/sieve-binary-debug.c:161-274 | so does every query after every history, with 0 when there is no such row |
| `DebugLookup.AskingAgain` | src/lib-sieve/sieve-binary-debug.c:201-210 | asking again for an address moves on to its next row |
| `DebugLookup.SomeAnswerDiffers` | src/lib-sieve/sieve-binary-debug.c:201-210 | if an address has two lines, some history gets an answer that is not the table's |
| `DebugLookup.ReaderIsLookupExactlyWhenOneLinePerAddress` | src/lib-sieve/sieve-binary-debug.c:153-274 | the reader is a lookup in the table for all histories if and only if no address has two lines |
| `DebugLookup.ConstantIfHasTwoLines` | src/lib-sieve/sieve-generator.c:379-397 | the rows of an `if` without code and of the first command of its block share an address, and some query is answered with the wrong line |
| `DebugLookup.LookupWhenAddressesRise` | src/lib-sieve/sieve-binary-debug.c:153-274 | in particular when addresses rise strictly |
| `ManageSieve.ScanAtom` | src/lib-managesieve/managesieve-parser.c:216-235 | where the atom ends, that it is invalid, or that input is missing |
| `ManageSieve.ScanString` | src/lib-managesieve/managesieve-parser.c:237-297 | the closing quote and the first escape; a backslash at the end of the input waits |
| `ManageSieve.ScanHeader` | src/lib-managesieve/managesieve-parser.c:319-362 | the literal size, refused exactly when it does not fit 64 bits |
| `ManageSieve.ArgParser.SkipLinebreak` | src/lib-managesieve/managesieve-parser.c:364-395 | the line break behind a literal header, also when it is cut |
| `ManageSieve.ArgParser.ReadLiteralData` | src/lib-managesieve/managesieve-parser.c:364-413 | the literal is taken when all of it is there |
| `ManageSieve.ArgParser.LiteralEnd` | src/lib-managesieve/managesieve-parser.c:299-317 | a literal is taken on if and only if it fits the line |
| `ManageSieve.ArgParser.ReadOne` | src/lib-managesieve/managesieve-parser.c:427-509 | one argument, or the state to go on from; which words are taken is `ManageSieveLines.WordRead` and `ManageSieveLines.WordSpoils` |
| `ManageSieve.ArgParser.FinishArgs` | src/lib-managesieve/managesieve-parser.c:516-537 | the rest of the argument is skipped and missing arguments are filled |
| `ManageSieve.ArgParser.ReadArguments` | src/lib-managesieve/managesieve-parser.c:539-573 | the argument loop: accepted, more input needed, or failed; which lines are which is `ManageSieveLines.AcceptsExactlyTheLines` |
| `ManageSieveLines.AcceptsExactlyTheLines` | src/lib-managesieve/managesieve-parser.c:427-573 | a line is accepted if and only if it is words of the grammar (atoms, quoted strings, literals) within the line limit, up to a line break or the wanted number; it is refused if and only if a word goes wrong or is too far on the line; otherwise more input is needed |
| `ManageSieveLines.ReadAsWritten` | src/lib-managesieve/managesieve-parser.c:142-201 | what is handed over for such words: each argument as it is written, unescaped or raw, filled up with NIL to the wanted number, then the end; and how much of the input is taken |
| `ManageSieveLines.WordRead` | src/lib-managesieve/managesieve-parser.c:427-509 | one word behind any number of spaces is read as the argument it means, and as much of the line is counted |
| `ManageSieveLines.WordSpoils` | src/lib-managesieve/managesieve-parser.c:203-413 | a byte no atom, string or header may hold, a wrong line break, invalid UTF-8, and a literal that is too large fail |
| `ManageSieveGrammar.BytesAgree` | src/lib-managesieve/managesieve-parser.c:203-235 | the bytes of atoms, as ranges, and the bytes that may follow one |
| `ManageSieveChunks.GoOnResumes` | src/lib-managesieve/managesieve-parser.c:466-505 | an argument tried on a prefix of the input goes on to what it would have been at once |
| `ManageSieveChunks.ReadArgsResumes` | src/lib-managesieve/managesieve-parser.c:539-573 | so does the whole line |
| `ManageSieveChunks.PiecesChangeNothing` | src/lib-managesieve/managesieve-parser.c:111-129 | however the input is cut, the outcome, the arguments and the bytes taken are those of reading it at once; for rejected input the outcome is, provided no CR follows a CR |
| `ManageSieveChunks.ForgottenCr` | src/lib-managesieve/managesieve-parser.c:374-381 | without that proviso a rejected input can pass in pieces |
| `ManageSieveCuts.FinestPasses` | src/lib-managesieve/managesieve-parser.c:374-381 | input that does not fail in some pieces gets the same answer byte by byte |
| `ManageSieveLoose.BytesAreLoose` | src/lib-managesieve/managesieve-parser.c:364-388 | byte by byte, the parser gives the answer of a reader that takes any number of CRs in front of the LF behind a literal header |
| `ManageSieveLoose.ArgsStrictOrLoose` | src/lib-managesieve/managesieve-parser.c:374-386 | the parser and that reader part only where the parser fails at two CRs |
| `ManageSieveLoose.PiecesMatterExactlyAtTwoCrs` | src/lib-managesieve/managesieve-parser.c:374-386 | some way to cut an input changes the answer if and only if the parser meets two CRs behind a literal header and that reader does not fail |
| `ManageSieveChunks.ReadInPieces` | src/lib-managesieve/managesieve-parser.c:539-573 | the parser object, asked again after every piece, does just that |
| `Quote.Count` | src/lib-managesieve/managesieve-quote.c:29-52 | the first loop counts surplus white space and escapes and finds line breaks |
| `Quote.CopyValue` | src/lib-managesieve/managesieve-quote.c:66-93 | the second loop writes the value byte for byte as specified |
| `Quote.QuoteAppend` | src/lib-managesieve/managesieve-quote.c:14-100 | appends the string or literal form of the value |
| `Quote.LiteralLength` | src/lib-managesieve/managesieve-quote.c:54-96 | with and without compression a literal announces the length of its payload, before the payload is cleaned up |
| `QuoteRoundTrip.ReceivedKeeps` | src/lib-managesieve/managesieve-quote.c:62-93 | the received form of a value is the value if and only if no white space is compressed away and it has not both a TAB and a byte to escape outside a literal |
| `QuoteSpaces.CompressedValue` | src/lib-managesieve/managesieve-quote.c:62-93 | compressed, a value is its texts with one space for the white space between them, none at the start and none behind a line break |
| `QuoteSpaces.EveryValueIsChunks` | src/lib-managesieve/managesieve-quote.c:62-93 | every value is made of such texts and white space |
| `QuoteSpaces.UncompressedValue` | src/lib-managesieve/managesieve-quote.c:76-81 | without compression a written TAB is a space and nothing else changes |
| `QuoteRoundTrip.StringIsReceived` | src/lib-managesieve/managesieve-quote.c:54-99 | a valid value without line breaks is read as its received form, with and without compression, and refused if it has a NUL |
| `QuoteRoundTrip.LiteralIsReceived` | src/lib-managesieve/managesieve-quote.c:57-96 | a valid value with line breaks is read as its received form, cut at a NUL but with its full length |
| `QuoteRoundTrip.QuotedIsReceived` | src/lib-managesieve/managesieve-parser.c:142-201 | both together for values without NUL; exactly the quoted form is taken from the input |
| `QuoteRoundTrip.QuotedReadsBackExactlyWhenItSurvives` | src/lib-managesieve/managesieve-quote.c:14-100 | a valid value is read back as it was if and only if it has no NUL, loses no white space and keeps its TABs |
| `QuoteRoundTrip.QuotedIsReceivedInPieces` | src/lib-managesieve/managesieve-parser.c:539-573 | the same however the line arrives |
| `QuoteRoundTrip.ValidLiteralLength` | src/lib-managesieve/managesieve-quote.c:54-96 | a literal with a valid value announces the length of what is sent |
| `QuoteRoundTrip.LiteralAnnouncesTooLittle` | src/lib-managesieve/managesieve-quote.c:54-96 | LF and an invalid byte: two bytes are announced and four are sent |
| `QuoteRoundTrip.TabIsLost` | src/lib-managesieve/managesieve-quote.c:62-93 | a TAB and a quote are read back as a space and a quote |
| `QuoteRoundTrip.NulIsRefused` | src/lib-managesieve/managesieve-quote.c:62-93 | a NUL is sent as it is and refused |
| `BinaryFile.Aligned` | src/lib-sieve/sieve-binary-file.c:35-36 | below 2^32 the mask rounds up to the next multiple of four |
| `BinaryFile.BlocksInOrder` | src/lib-sieve/sieve-binary-file.c:299-321 | header, index and blocks follow one another without overlap, blocks aligned |
| `BinaryFile.WrittenKeeps` | src/lib-sieve/sieve-binary-file.c:247-272 | writing elsewhere keeps what a file holds |
| `BinaryFile.SaveFull` | src/lib-sieve/sieve-binary-file.c:248-272 | on success, and always on a healthy stream, all data are written, however many calls it takes |
| `BinaryFile.SaveAligned` | src/lib-sieve/sieve-binary-file.c:274-297 | the same at the next aligned offset, which is reported |
| `BinaryFile.Binary.SaveBlock` | src/lib-sieve/sieve-binary-file.c:299-321 | block header and data at the offset noted for the index, always on a healthy stream |
| `BinaryFile.Binary.SaveToStream` | src/lib-sieve/sieve-binary-file.c:348-423 | succeeds on a healthy stream; on success the file holds the header, every index record and every block, although the seek to the index is not checked |
| `BinaryLoad.InputFile.Read` | src/lib-sieve/sieve-binary-file.c:669-716 | data from where the file is, which after a failed read need not be the cached position; on a healthy file, whatever was read before, right if and only if it does not ask, at a cached position that is not the file position, for data that are there |
| `BinaryLoad.InputFile.ReadIndexRecord` | src/lib-sieve/sieve-binary-file.c:786-813 | the record there, if it carries its number; right under the same condition |
| `BinaryLoad.InputFile.Open` | src/lib-sieve/sieve-binary-file.c:867-896 | header and index; on a healthy file it succeeds if and only if both can be read, which in terms of the bytes is `BinaryChecks.OpenGood` |
| `BinaryChecks.HeaderDecides` | src/lib-sieve/sieve-binary-file.c:82-164 | a header is taken, with its number of blocks and its size, if and only if the file has 40 bytes, begins with the magic number, has at least one block, and is of major version 3 with a size of at least 20, or of version 1.4 |
| `BinaryChecks.OtherHeadersAreRefused` | src/lib-sieve/sieve-binary-file.c:82-164 | every other file is refused |
| `BinaryChecks.ChangedVersion` | src/lib-sieve/sieve-binary-file.c:125-147 | a saved file whose version word is changed is opened if and only if the major version stays or the word says 1.4 |
| `BinaryChecks.RecordDecides` | src/lib-sieve/sieve-binary-file.c:786-813 | an index record is read, with its offset and extension, if and only if all of it is there and it has the number asked for |
| `BinaryChecks.IndexDecides` | src/lib-sieve/sieve-binary-file.c:884-892 | the index is read if and only if its records are there, numbered from zero on |
| `BinaryChecks.OpenGood` | src/lib-sieve/sieve-binary-file.c:867-896 | a healthy file is opened if and only if its header is good and its index can be read |
| `BinaryLoad.InputFile.LoadBlock` | src/lib-sieve/sieve-binary-file.c:752-784 | the block there, if its header carries its number; right under the same condition |
| `BinaryChecks.BlockDecides` | src/lib-sieve/sieve-binary-file.c:752-784 | a block is loaded if and only if its header is there with its number and the data it announces follow |
| `BinaryLoad.ReadAfterFailure` | src/lib-sieve/sieve-binary-file.c:680-714 | after a failed read, a read is right if and only if it does not ask, at the cached position, for data that are there |
| `BinaryLoad.LoadAfterFailure` | src/lib-sieve/sieve-binary-file.c:752-784 | the same of loading a block |
| `BinaryLoad.FailedReadSpoilsTheNext` | src/lib-sieve/sieve-binary-file.c:680-714 | in a file of eight bytes, reading a hundred bytes at 4 makes reading four at 0 fail |
| `BinaryLoad.SavedFileLoads` | src/lib-sieve/sieve-binary-file.c:752-813 | a saved file loads through its index, block for block and byte for byte |
| `BinaryLoad.SaveAndLoad` | src/lib-sieve/sieve-binary-file.c:348-423 | saving any blocks and loading them back returns them, always with a healthy stream |

## Left out

- `BinaryCode.IntegerAdvances`: the C reader may look at the byte behind the end of the block before it notices; the model fails there.
- `Validator.FoldBlockKeepsActions`: of the tests carried out this one says nothing; they are the subject of `FoldingBlocks.FoldingKeepsTraceExactlyWhenDecided`.
- `Compilation.CompiledScriptMeaning`: the same; see `Compilation.CompiledScriptIsExactWhenDecided`.
- `Interpreter.Interpreter.Execute`: operations other than jumps, `stop`, `keep`, `discard`, `redirect`, `address`, `header`, `exists` and `size` count as corrupt code, so extensions and their operands are not modelled.
- `DebugLines.DebugWriter.Emit`: blocks of 2^30 bytes and more, where the special opcode wraps.
- `ManageSieve.ArgParser.ReadArguments`: the mode that hands out a string as a stream.
- `Lexer.Scanner.ScanText`: a comment behind `text:`, whose handling depends on the end-of-file flag of the stream.
- `Parser.Parser.Run`: the tree is built as a value instead of linked nodes, and lists of 2^32 nodes, which the nodes refuse, are not reached.
- `BinaryChecks.IndexDecides`: an index that reaches to 4 GiB, where aligned offsets wrap.
- `BinaryChecks.BlockDecides`: a block header within the last bytes in front of 4 GiB, for the same reason.
- The loop stack of the interpreter, CPU limits, tracing and dumping.
- The contexts of an `if` chain are a sequence instead of linked objects; the walk back through `previous` is a loop over it.
- Actions other than their trace, the result executor, redirect, reject and the duplicate database.
- The comparator i;unicode-casemap, and `:count`, `:value`, `:is` and regular expressions.
- Extension registration, the contents of the extension block, and the validation of arguments by each command.
- Whole tokens of the lexer other than strings and numbers, and the addresses, message parts and URLs of the other libraries.
