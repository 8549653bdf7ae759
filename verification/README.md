# g0-compiler core in Dafny

This is a model of the compiler for P0, a small Pascal-like teaching language, that
translates a P0 program into WebAssembly text. The model follows the compiler's Go
packages, one Dafny module each:

- `keywords` (`Keywords`): the token codes and the reserved-word table.
- `inputdata` (`InputData`): the one `InputData` record that every phase threads
  through. It holds the text, the scanner cursor, the error bookkeeping, the scope
  stack, the generator's nesting level and memory size, and the generated lines.
- `symtable` (`SymTable`): symbol-table entries and the array/record descriptor.
- `scanner` (`Scanner`): the character reader with its line bookkeeping, the
  tokenizer `GetSym`, and the de-duplicating error reporter `PrintError`.
- `lexical_analayzer` (`LexicalAnalyzer`): the two preprocessing passes
  `EatWhiteSpace` and `EatComments`, as pure text transforms, and the token loop
  of `ParseInput`.
- `symtablefuncs` (`SymTableFuncs`): declaration, lookup, and the opening and
  closing of scopes.
- `codegen` (`CodeGen`): every generator routine except the file writer, as
  functions that append WebAssembly lines to the state.
- `parser` (`Parser`): the recursive-descent parser with its constant folding,
  type checks, panic-mode recovery, and calls into the generator.

`Base` holds what the model needs of Go itself:
- 64-bit wrap-around of `int` arithmetic;
- truncating `/` and `%`;
- `strconv.Atoi` and `strconv.Itoa`;
- an `Option` type.

Every routine takes the state and returns the new state, plus the entry it
computes where the Go routine returns one. A printed diagnostic is recorded in the
model-only field `diags`. A Go run-time panic (integer division by zero while
folding constants) is recorded in the model-only flag `halted`. The parser's
productions call each other recursively, so each carries a `fuel` bound; see
"Left out".

## Model

| member | source | states |
|---|---|---|
| Base.Wrap64 | pkg/parser/parser.go:149-160 | the folded result is the unique 64-bit integer congruent to the exact value modulo 2^64, and an in-range value is kept |
| Base.TruncDiv | pkg/parser/parser.go:153-154 | Go's `/`: the quotient's magnitude is the floor of the magnitudes' quotient, and its sign follows the operands' signs |
| Base.TruncModBounds | pkg/parser/parser.go:155-156 | Go's `%`: the remainder is smaller than the divisor in magnitude and has the dividend's sign |
| Base.TruncDivAgreesOnNaturals | pkg/parser/parser.go:153-156 | on a non-negative dividend and positive divisor, Go's quotient and remainder equal the Euclidean ones |
| Base.Itoa | pkg/scanner/scanner.go:157 | `strconv.Itoa` writes the decimal digits of a number, with a minus sign before a negative one |
| Base.Atoi | pkg/parser/parser.go:107-113 | `strconv.Atoi` on a digit string gives its decimal value when that fits in 64 bits; otherwise it gives MaxInt64 with an error |
| Base.AtoiItoa | pkg/parser/parser.go:108 | round trip: `Atoi` reads back every 64-bit value `Itoa` writes, without error |
| Keywords.TokenCodes | pkg/keywords/keywords.go:3-45 | the 41 token constants are exactly the codes 1 to 41, in declaration order |
| Keywords.DistinctCardinality | pkg/keywords/keywords.go:47-67 | a list without repetitions has as many elements as its set (used to count the reserved words) |
| Keywords.KeywordKeys | pkg/keywords/keywords.go:47-67 | the keyword map's keys are exactly the twenty listed words, all in lower case |
| Keywords.KeywordListDistinct | pkg/keywords/keywords.go:47-67 | the twenty reserved words are pairwise different |
| Keywords.KeywordCount | pkg/keywords/keywords.go:47-67 | the map has exactly twenty entries |
| Keywords.KeywordCodesInjective | pkg/keywords/keywords.go:47-67 | distinct reserved words have distinct token codes |
| Keywords.KeywordCodeRange | pkg/keywords/keywords.go:47-67 | every reserved word's code is a token code; none is IDENT, NUMBER, BECOMES or EOF |
| InputData.LoadInput | pkg/inputdata/inputdata.go:52-61 | the loaded text is the file contents followed by exactly one `~` sentinel |
| InputData.NewInputData | pkg/inputdata/inputdata.go:29-49 | the initial record: the loaded text, line counters 1, positions 0, no error, one empty scope, level 0, no memory and no code |
| SymTable.PrimitiveNamesDistinct | pkg/symtable/symtable.go:33-38 | exactly `int`, `bool` and `none` have a spelling, and the spellings differ |
| SymTable.KindName | pkg/symtable/symtable.go:5 | every entry kind except the zero one is spelled as one of the six documented kinds |
| SymTable.NewSymTableEntry | pkg/symtable/symtable.go:18-30 | the seven arguments land in their fields; size, address and offset start at 0 |
| SymTable.NewComplexType | pkg/symtable/symtable.go:51-59 | the descriptor keeps shape, fields, base, lower bound and length; its size starts at 0 |
| SymTable.NewComplexTypeIgnoresPar | pkg/symtable/symtable.go:51-59 | the parameter-list argument has no effect on the descriptor |
| Scanner.PrintError | pkg/scanner/scanner.go:155-162 | the error flag is set and the last position is remembered; a line is printed only past the last reported position; nothing else changes |
| Scanner.DuplicateSuppressed | pkg/scanner/scanner.go:155-162 | two reports in a row print at most one line |
| Scanner.OneDiagnosticPerLine | pkg/scanner/scanner.go:155-162 | since the position is never advanced, a report prints exactly when the line is past the last reported line |
| Scanner.GetChar | pkg/scanner/scanner.go:18-37 | one character is consumed and made current; a newline starts a new line; at the sentinel nothing moves |
| Scanner.GetCharCountsLines | pkg/scanner/scanner.go:29-31 | the line number stays one more than the number of newlines consumed |
| Scanner.RunEndUnique | pkg/scanner/scanner.go:43 | the end of a run of letters or digits is the only index with the run's two defining properties |
| Scanner.Spelling | pkg/scanner/scanner.go:40-56 | the identifier read is a prefix of the letter run: the shortest one that is a reserved word, or else the whole run |
| Scanner.IdentLoop | pkg/scanner/scanner.go:43-53 | the loop of `IdentKeyword` yields exactly that spelling and consumes input |
| Scanner.IdentLoopReads | pkg/scanner/scanner.go:43-53 | the loop stops just past the spelling, with the spelling's token |
| Scanner.WordToken | pkg/scanner/scanner.go:45-51 | a spelling is IDENT exactly when it is not a reserved word; otherwise it is the word's code |
| Scanner.IdentKeyword | pkg/scanner/scanner.go:40-56 | `val` is the spelling starting at the current letter, and `sym` is its token |
| Scanner.SpellingMeaning | pkg/scanner/scanner.go:40-56 | a letter run that begins with a reserved word reads as the shortest such word, so `ifx` reads as `if` |
| Scanner.DigitRun | pkg/scanner/scanner.go:62-65 | the digits from the cursor are appended, in order, until a non-digit |
| Scanner.DigitRunStops | pkg/scanner/scanner.go:62-65 | the digit loop stops on the first character after the digit run |
| Scanner.CheckNumber | pkg/scanner/scanner.go:67-73 | a number is reported as too large exactly when it is at least 2^31; nothing else changes |
| Scanner.Number | pkg/scanner/scanner.go:59-76 | NUMBER, spelled by the whole digit run, is an error exactly when it is at least 2^31 |
| Scanner.NumberReads | pkg/scanner/scanner.go:59-76 | the number's spelling is the whole digit run at the cursor |
| Scanner.OperatorChars | pkg/scanner/scanner.go:88-142 | the operator characters are exactly the one-character spellings of the table |
| Scanner.Operator | pkg/scanner/scanner.go:88-142 | an operator character yields an operator token and consumes input |
| Scanner.TwoCharSpellings | pkg/scanner/scanner.go:100-118 | the only two-character spellings are `<=`, `<>` and `>=` |
| Scanner.OperatorLongestMatch | pkg/scanner/scanner.go:88-142 | the operator read is the longest spelling in the table at the cursor |
| Scanner.LessMatch | pkg/scanner/scanner.go:100-110 | `<` reads as LE, NE or LT, according to the next character |
| Scanner.GreaterMatch | pkg/scanner/scanner.go:111-118 | `>` reads as GE or GT, according to the next character |
| Scanner.OneCharTokens | pkg/scanner/scanner.go:88-142 | every other operator character reads as its own one-character token |
| Scanner.SkipBlanks | pkg/scanner/scanner.go:81-83 | newlines, blanks and `!` are skipped; the result is the first non-blank |
| Scanner.GetSym | pkg/scanner/scanner.go:78-152 | yields a valid token and consumes input, except at the sentinel, where EOF is read and nothing moves |
| Scanner.GetSymTokens | pkg/scanner/scanner.go:78-152 | EOF only at the sentinel; IDENT only for a non-empty letter spelling that is not reserved; NUMBER only for a non-empty digit spelling |
| Scanner.GetSymKeepsVal | pkg/scanner/scanner.go:40-63 | `val` is set only for a word (its spelling) or a number; after an operator, the sentinel or an illegal character the previous `val` is kept |
| Scanner.IllegalChar | pkg/scanner/scanner.go:145-148 | any other character is reported and skipped, and yields token 0 |
| Scanner.BecomesReadsAsColonEq | pkg/scanner/scanner.go:97-127 | `:=` reads as COLON followed by EQ, so no input yields BECOMES |
| Scanner.Init | pkg/scanner/scanner.go:12-15 | reads the first character and the first token; on empty text that token is EOF |
| LexicalAnalyzer.MarkWord | pkg/lexical_analayzer/lexical_analyzer.go:41-42 | reference definition: every position where the pattern starts becomes `!` |
| LexicalAnalyzer.RemoveBlanks | pkg/lexical_analayzer/lexical_analyzer.go:44 | reference definition: the text with its blanks removed, which contains no blank |
| LexicalAnalyzer.ReplaceMarksWord | pkg/lexical_analayzer/lexical_analyzer.go:41-42 | `strings.Replace` of ` w` by `!w` equals the reference marking |
| LexicalAnalyzer.ReplaceRemovesBlanks | pkg/lexical_analayzer/lexical_analyzer.go:44 | `strings.Replace` of the blank by nothing equals blank removal |
| LexicalAnalyzer.EatWhiteSpaceMeaning | pkg/lexical_analayzer/lexical_analyzer.go:38-47 | the pass is blank removal after marking ` do` and ` end`, and leaves no blank |
| LexicalAnalyzer.ScanSkips | pkg/lexical_analayzer/lexical_analyzer.go:57-72 | the scan passes over text without braces or the sentinel unchanged |
| LexicalAnalyzer.CommentRemoved | pkg/lexical_analayzer/lexical_analyzer.go:49-75 | a brace comment between comment-free text and the rest is removed, braces included |
| LexicalAnalyzer.NoOpenBraceUnchanged | pkg/lexical_analayzer/lexical_analyzer.go:57-72 | text without `{` before the sentinel is left as it is |
| LexicalAnalyzer.EatCommentsKeepsTail | pkg/lexical_analayzer/lexical_analyzer.go:57-72 | the pass stops at the first sentinel and keeps it and everything after it |
| LexicalAnalyzer.Tokenize | pkg/lexical_analayzer/lexical_analyzer.go:30-32 | `GetSym` is repeated until the current character is the sentinel; it stops at once when already there |
| LexicalAnalyzer.ParseInput | pkg/lexical_analayzer/lexical_analyzer.go:26-35 | after `Init` and the loop, the cursor is at the sentinel, and only scanner fields changed |
| SymTableFuncs.NewDecl | pkg/symtablefuncs/symtablefuncs.go:16-28 | as written: a duplicate in the innermost scope is reported and nothing is added; otherwise an `int` entry is appended at level (length of the scope − 1) |
| SymTableFuncs.Declare | pkg/symtablefuncs/symtablefuncs.go:16-28 | corrected: the same duplicate check; the new entry is appended at the depth of the scope stack, and nothing else changes |
| SymTableFuncs.DeclareAt | pkg/symtablefuncs/symtablefuncs.go:16-28 | the declaration step with the level passed in: a duplicate is reported and nothing changes; otherwise the entry, under the name and at the level, goes at the end of the innermost scope and nothing else changes |
| SymTableFuncs.DeclareEntry | pkg/symtablefuncs/symtablefuncs.go:16-28 | the entry-taking declaration the parser calls, with the level rule as written: a new entry's level is the innermost scope's length before it minus one |
| SymTableFuncs.DeclareEntryIsNewDecl | pkg/symtablefuncs/symtablefuncs.go:16-28 | on an `int` entry, the entry-taking declaration and `NewDecl` give the same state |
| SymTableFuncs.NewDeclLevelCounterexample | pkg/symtablefuncs/symtablefuncs.go:18 | after the seven predeclared names, a global declared as written (by `NewDecl` or by the entry-taking form) gets level 6, but `Declare` gives it 0 |
| SymTableFuncs.LookupScopeFirst | pkg/symtablefuncs/symtablefuncs.go:33-37 | the scope search finds the earliest entry with the name, and nothing exactly when the name is absent |
| SymTableFuncs.LookupInnermost | pkg/symtablefuncs/symtablefuncs.go:32-38 | lookup takes the entry from the innermost scope declaring the name, so inner names shadow outer ones |
| SymTableFuncs.FindInSymTab | pkg/symtablefuncs/symtablefuncs.go:31-41 | a found name yields its entry, state unchanged; an undeclared name is reported and yields the zero entry |
| SymTableFuncs.DeclareThenFind | pkg/symtablefuncs/symtablefuncs.go:16-41 | a successful declaration is what the next lookup of the name finds, whatever outer scopes declare |
| SymTableFuncs.DuplicateKeepsBinding | pkg/symtablefuncs/symtablefuncs.go:20-25 | a rejected redeclaration leaves the table, and so the binding found, as before |
| SymTableFuncs.OpenScope | pkg/symtablefuncs/symtablefuncs.go:45-47 | a new, empty innermost scope goes in front; nothing else changes |
| SymTableFuncs.TopScope | pkg/symtablefuncs/symtablefuncs.go:50-52 | the innermost scope |
| SymTableFuncs.CloseScope | pkg/symtablefuncs/symtablefuncs.go:55-57 | the innermost scope is dropped; the others keep their order |
| SymTableFuncs.OpenCloseRoundTrip | pkg/symtablefuncs/symtablefuncs.go:45-57 | opening and then closing a scope restores the table exactly |
| SymTableFuncs.ClosedScopeForgotten | pkg/symtablefuncs/symtablefuncs.go:45-57 | a declaration in a scope that is then closed leaves the table as before the scope was opened |
| CodeGen.GenProgStart | pkg/codegen/codegen.go:29-34 | appends the module header with the `write`, `writeln` and `read` imports |
| CodeGen.GenBool | pkg/codegen/codegen.go:37-40 | a boolean occupies the size of a `bool` |
| CodeGen.GenInt | pkg/codegen/codegen.go:43-46 | an integer occupies the size of an `int` |
| CodeGen.GenArray | pkg/codegen/codegen.go:60-63 | an array's size is its length times its element size, and is non-negative when both are |
| CodeGen.GenRecAsWritten | pkg/codegen/codegen.go:49-57 | as written: the size is the sum of the field sizes, and the fields are unchanged |
| CodeGen.Layout | pkg/codegen/codegen.go:52-55 | reference layout: each field is kept, apart from its offset |
| CodeGen.LayoutOffsets | pkg/codegen/codegen.go:52-55 | each field's offset is the total size of the fields before it |
| CodeGen.LayoutOffsetAt | pkg/codegen/codegen.go:52-55 | field j of the reference layout lies at the total size of the fields before it |
| CodeGen.GenRec | pkg/codegen/codegen.go:49-57 | corrected: the size is the sum of the field sizes, and each field's offset is the total size of the fields before it |
| CodeGen.GenRecOffsetCounterexample | pkg/codegen/codegen.go:53-54 | two integer fields: as written both stay at offset 0; corrected, they lie at 0 and 4 |
| CodeGen.Decls | pkg/codegen/codegen.go:66-101 | reference definition: at most one declaration line per entry of the scope |
| CodeGen.GenGlobalVars | pkg/codegen/codegen.go:66-82 | the emitted lines are one `global` declaration per scalar variable after `start`, in order; errors are kept |
| CodeGen.DeclareVar | pkg/codegen/codegen.go:68-80 | one loop step: a scalar variable gets its declaration line; a variable of any other type is reported |
| CodeGen.GlobalVarsReportOthers | pkg/codegen/codegen.go:76-78 | a variable after `start` whose type is neither `int` nor `bool` (a record variable, whose type is nil) makes both allocators report "WASM: type?"; the aggregate branch is never reached |
| CodeGen.GenLocalVars | pkg/codegen/codegen.go:85-101 | as `GenGlobalVars`, with one `local` declaration per scalar variable |
| CodeGen.LoadItem | pkg/codegen/codegen.go:104-128 | the instructions that push an entry's value, for each kind and level; a level the function cannot reach is reported |
| CodeGen.LoadItemFailsOnlyOnBadLevel | pkg/codegen/codegen.go:104-128 | loading reports an error exactly for a variable or reference at a level it cannot address |
| CodeGen.GenUnaryOp | pkg/codegen/codegen.go:164-191 | loads the operand, then negates it for `-`, complements it for `not`, or opens the short-circuit block for `and`/`or` |
| CodeGen.Transient | pkg/codegen/codegen.go:187-190 | a value already on the stack is a variable at level −1 |
| CodeGen.ArithOpcodesDistinct | pkg/codegen/codegen.go:198-212 | distinct arithmetic operators get distinct signed `i32` instructions |
| CodeGen.GenBinaryOp | pkg/codegen/codegen.go:194-227 | arithmetic loads both operands and applies its instruction; `and`/`or` close their block after the right operand; other operators change nothing |
| CodeGen.RelOpcode | pkg/codegen/codegen.go:232-247 | exactly the six relations have one instruction each |
| CodeGen.GenRelation | pkg/codegen/codegen.go:230-250 | loads both operands, then appends the relation's one instruction (none for another operator); the result is a boolean on the stack |
| CodeGen.RelOpcodesDistinct | pkg/codegen/codegen.go:233-245 | distinct relations get distinct instructions |
| CodeGen.ShortCircuitAnd | pkg/codegen/codegen.go:164-227 | `x and y` becomes: load x, `if (result i32)`, the code of y, `else`, `i32.const 0`, `end` |
| CodeGen.ShortCircuitOr | pkg/codegen/codegen.go:164-227 | `x or y` becomes: load x, `if (result i32)`, `i32.const 1`, `else`, the code of y, `end` |
| CodeGen.GenSelect | pkg/codegen/codegen.go:253-266 | a field of a variable moves its address by the field's stored offset; for a reference, code adding that offset is emitted (after loading a local reference) and the item is on the stack; the item takes the field's type |
| CodeGen.GenIndex | pkg/codegen/codegen.go:269-306 | a constant index moves a variable's address to the element; any other index into a variable emits the address arithmetic and makes it a reference; for any other base, a base at the current level is loaded first, then a constant base adds a constant offset and any other base gets the scaled index code |
| CodeGen.Run | pkg/codegen/codegen.go:269-306 | reference semantics of straight-line `i32` code (section 4.3.2 of the WebAssembly Core Specification, on unbounded integers): a constant is pushed, a binary instruction replaces the top two values |
| CodeGen.RunAppend | pkg/codegen/codegen.go:269-306 | running two pieces of code in sequence is running the second on the result of the first |
| CodeGen.ConstLine | pkg/codegen/codegen.go:277-282 | a constant line the generator writes for a 64-bit value pushes exactly that value |
| CodeGen.RunConstThen | pkg/codegen/codegen.go:277-283 | a constant followed by a binary instruction applies it to the value below and the constant |
| CodeGen.IndexLinesRun | pkg/codegen/codegen.go:276-283 | the index arithmetic on constant lines turns the index value `v` into `adr + (v − lo)·size`, with or without the subtraction for a zero lower bound |
| CodeGen.IndexCodeRuns | pkg/codegen/codegen.go:276-283 | the emitted address arithmetic leaves `adr + (v − lo)·size` for the index value `v` |
| CodeGen.DynamicIndexCode | pkg/codegen/codegen.go:274-283 | a non-constant index into an array variable emits, after loading the index, exactly the address arithmetic |
| CodeGen.ConstIndexAddress | pkg/codegen/codegen.go:271-273 | a constant index `v` moves an array variable to the address of element `v` |
| CodeGen.DynamicIndexAddress | pkg/codegen/codegen.go:270-286 | the run-time address arithmetic for index value `v` computes the address the constant index `v` gives at compile time |
| CodeGen.SelectedFieldAddress | pkg/codegen/codegen.go:49-57 | selecting field k of a variable moves it by the total size of fields 0..k−1 under the corrected layout, and by the field's unchanged offset under the layout as written |
| CodeGen.SelectRuns | pkg/codegen/codegen.go:256-262 | through a reference, the selection code is the addition of the stored offset, and at run time it adds that offset to the address |
| CodeGen.OffsetRuns | pkg/codegen/codegen.go:260-261 | the offset code adds its constant to the address on the stack |
| CodeGen.GenVar | pkg/codegen/codegen.go:131-156 | a variable from an enclosing procedure is reported; the item keeps the entry's kind, type and shape |
| CodeGen.GenAssign | pkg/codegen/codegen.go:309-331 | stores the value into a global, a local, memory or a reference, mirroring how each is loaded |
| CodeGen.AssignMirrorsLoad | pkg/codegen/codegen.go:104-128 | for a global or local variable, assignment uses the `set` form of the instruction loading uses |
| CodeGen.GenProgEntry | pkg/codegen/codegen.go:333-336 | opens the function holding the program body |
| CodeGen.MemoryPagesCover | pkg/codegen/codegen.go:339-348 | the declared memory covers the allocated units, with less than one page to spare |
| CodeGen.GenProgExit | pkg/codegen/codegen.go:339-348 | appends the closing text (memory declaration and start function) and returns every line joined |
| CodeGen.GenProcStart | pkg/codegen/codegen.go:351-363 | a nested procedure is reported; the depth rises by one and the function header with its parameters is emitted |
| CodeGen.GenProcExit | pkg/codegen/codegen.go:371-374 | the depth falls by one and the function is closed |
| CodeGen.ProcBracket | pkg/codegen/codegen.go:351-374 | a procedure's start and exit bracket its body: the depth is restored and the body lies between header and `)` |
| CodeGen.GenActualPara | pkg/codegen/codegen.go:377-389 | a by-reference formal receives the address of an actual in memory and nothing else; a by-value formal receives the loaded value of a variable, reference or constant; any other actual is reported |
| CodeGen.GenCall | pkg/codegen/codegen.go:392-395 | calls the procedure by its name |
| CodeGen.GenRead | pkg/codegen/codegen.go:398-402 | calls the library `read` |
| CodeGen.GenWrite | pkg/codegen/codegen.go:405-408 | loads the argument and calls the library `write` |
| CodeGen.GenWriteln | pkg/codegen/codegen.go:411-413 | calls the library `writeln` |
| CodeGen.GenThen | pkg/codegen/codegen.go:421-425 | loads the condition and opens the conditional |
| CodeGen.GenIfThen | pkg/codegen/codegen.go:428-431 | closes the conditional |
| CodeGen.GenElse | pkg/codegen/codegen.go:434-437 | starts the alternative |
| CodeGen.GenIfElse | pkg/codegen/codegen.go:440-443 | closes the conditional with its alternative |
| CodeGen.GenWhile | pkg/codegen/codegen.go:446-448 | opens the loop |
| CodeGen.GenDo | pkg/codegen/codegen.go:451-455 | loads the loop condition and tests it |
| CodeGen.GenWhileDo | pkg/codegen/codegen.go:458-462 | branches back to the loop head and closes both blocks |
| CodeGen.WhileSkeleton | pkg/codegen/codegen.go:446-462 | a generated `while` is `loop`, condition, `if`, body, `br 1`, `end`, `end` |
| CodeGen.IfElseSkeleton | pkg/codegen/codegen.go:421-443 | a generated `if … else` is condition, `if`, then-code, `else`, else-code, `end` |
| Parser.Exists | pkg/parser/parser.go:27-33 | `exists` is membership of the token in the set |
| Parser.RecoverySetsHoldEof | pkg/parser/parser.go:12-24 | each recovery set contains EOF, so every skipping loop ends |
| Parser.SkipTo | pkg/parser/parser.go:89-91 | tokens are skipped until one in the stop set; a token already in it stops at once |
| Parser.Expect | pkg/parser/parser.go:118-121 | the expected token is consumed; otherwise the message is reported and nothing is consumed |
| Parser.FieldIndex | pkg/parser/parser.go:42-49 | the position of the first field with the name, or the field count when there is none |
| Parser.FieldIndexMissing | pkg/parser/parser.go:42-49 | the search runs past the fields exactly when no field has the name |
| Parser.FieldSearch | pkg/parser/parser.go:41-52 | the found field is selected through `GenSelect`; "not a field" is reported when the counter meets the test's bound (as written, or corrected) |
| Parser.MissingFieldReported | pkg/parser/parser.go:50-52 | corrected: "not a field" is reported exactly when no field has the name |
| Parser.SelectFieldCounterexample | pkg/parser/parser.go:50 | a one-field record `f`: as written, `.f` is reported and `.g` is not; corrected, the reverse |
| Parser.SelectField | pkg/parser/parser.go:38-59 | `.name` on a record runs the field search with the test as written (reporting the last field, accepting a missing one); a non-record and a missing identifier are reported |
| Parser.IndexItem | pkg/parser/parser.go:63-73 | an integer index into an array is generated unless it is constant; indexing a non-array is reported |
| Parser.FactorNumber | pkg/parser/parser.go:107-114 | a number becomes an integer constant with its `Atoi` value; a failed conversion is reported |
| Parser.IdentItem | pkg/parser/parser.go:93-105 | a variable or reference name goes through `GenVar` and the next token is read, keeping its kind, name and type; a constant name becomes a constant of its type and value; any other name is "expression expected" and is kept |
| Parser.NotFactor | pkg/parser/parser.go:123-132 | `not` on a non-boolean is reported; on a constant it folds to 1 − val; otherwise it is generated |
| Parser.NotFoldsBooleans | pkg/parser/parser.go:128-129 | folding `not` swaps the constants 0 and 1 and emits nothing |
| Parser.NegateTerm | pkg/parser/parser.go:182-191 | a leading `-` on a non-integer is reported; on a constant it folds with 64-bit wrap-around; otherwise it is generated |
| Parser.NegateTwice | pkg/parser/parser.go:187-188 | negating a folded constant twice gives it back |
| Parser.CombineTerm | pkg/parser/parser.go:148-171 | integer constants fold `*`, `div` and `mod` as Go does, and a zero divisor panics; other integer operands are generated; boolean `and` with any constant left operand (value not `EmptyInt`) yields the right operand, even for `false`, and with a non-constant one is generated; mixed types are "bad type" |
| Parser.FoldedDivision | pkg/parser/parser.go:153-156 | folded `div` and `mod` satisfy q·y + m == x, with the remainder bounded by the divisor |
| Parser.CombineSum | pkg/parser/parser.go:201-222 | integer constants fold `+` and `-` with wrap-around; other integers are generated; `or` with a constant left operand yields the right operand (even for `true`) unless its value is `EmptyInt`, when it is generated, and a non-constant left operand is kept with nothing emitted; mixed types are "Bad type" |
| Parser.OrBlockNeverClosed | pkg/parser/parser.go:198-219 | `or` with a non-constant left operand opens the short-circuit block and never closes it |
| Parser.ConstLeftFoldsToRight | pkg/parser/parser.go:162-166 | `false and y` and `true or y` both fold to `y`; for a non-constant `y` the folded item then means 1 where the connective gives 0, and 0 where it gives 1 |
| Parser.FoldAnd | pkg/parser/parser.go:162-166 | corrected folding of `and` with a constant left operand: for every run-time value of a non-constant right operand, the folded item means the conjunction of the operands |
| Parser.FoldOr | pkg/parser/parser.go:213-219 | corrected folding of `or` with a constant left operand: the folded item means the disjunction of the operands |
| Parser.CombineRelation | pkg/parser/parser.go:236-281 | different types are reported; two constants fold to a boolean 0 or 1; otherwise the relation is generated |
| Parser.RelationsFold | pkg/parser/parser.go:237-275 | the folded relations mean what they say: `=`, `<`, and `<>`, `>=`, `<=` as complements |
| Parser.RelationInstructionAgreesWithFolding | pkg/parser/parser.go:237-275 | each relation's instruction computes at run time the truth value the folding computes |
| Parser.RuntimeRelationAgreesWithFolding | pkg/parser/parser.go:237-281 | comparing two constants through `GenRelation` emits their loads and the instruction, and running that code leaves the folded truth value |
| Parser.ModeAcceptedOnlyVarVar | pkg/parser/parser.go:354 | the mode test accepts exactly a by-value actual for a by-value formal |
| Parser.CheckActual | pkg/parser/parser.go:353-378 | a surplus actual is "extra parameter"; an accepted mode is passed through `GenActualPara` for a procedure; a rejected one is reported, except the first actual of `read` |
| Parser.AcceptedActualLoaded | pkg/parser/parser.go:353-359 | an actual the mode check accepts is by value for a by-value formal, so `GenActualPara` loads it and its by-reference branch is never reached |
| Parser.FinishCall | pkg/parser/parser.go:388-400 | too few actuals are reported and nothing is emitted; standard procedures emit read, write or writeln; others emit the call |
| Parser.TypeName | pkg/parser/parser.go:467-476 | a type name gives its type; any other name is "not a type" and gives `none` |
| Parser.ArrayBounds | pkg/parser/parser.go:507-517 | bounds must be non-negative constants (lower, then upper, reported); the array type has length hi − lo + 1 |
| Parser.ArrayLength | pkg/parser/parser.go:514 | with 64-bit bounds the length is exactly hi − lo + 1 |
| Parser.TypedEntry | pkg/parser/parser.go:569-586 | an aggregate type is declared with the variable's kind; a scalar becomes `Var`/`Ref` of its primitive type |
| Parser.DeclareEach | pkg/parser/parser.go:569-587 | declaring a list of names changes only the innermost scope and the error state |
| Parser.DeclareEachAdds | pkg/parser/parser.go:569-587 | declarations whose entries all have one kind add only entries of that kind to the innermost scope, which only grows |
| Parser.StampedAt | pkg/parser/parser.go:569-587 | each stamped entry is its declaration, under its name, at the given level |
| Parser.FreshAfterFirst | pkg/parser/parser.go:569-587 | after the first of several fresh declarations, the rest are still fresh |
| Parser.DeclareEachFresh | pkg/parser/parser.go:569-587 | fresh declarations all go in, in order, each at the level the scope's length before it gives (length − 1), with no error |
| Parser.Named | pkg/parser/parser.go:569 | one declaration per name, all with the same entry |
| Parser.DeclareAll | pkg/parser/parser.go:565-588 | declaring the typed identifiers changes only the innermost scope and the error state, and adds only entries of the given kind; for a kind other than var or ref nothing happens |
| Parser.DeclareAllFresh | pkg/parser/parser.go:565-588 | distinct new names are all declared, in order, with the entry the kind and type make, each at the level the scope's length before it gives |
| Parser.NextId | pkg/parser/parser.go:556-562 | one further name after a comma: the reading moves on, or has reached the end of the text |
| Parser.IdList | pkg/parser/parser.go:555-563 | the further names are appended after the first ones; without a comma nothing changes |
| Parser.SetProcParams | pkg/parser/parser.go:696-697 | the procedure entry just declared in the enclosing scope gets the formals as its parameters; nothing else changes |
| Parser.DeclareBuiltins | pkg/parser/parser.go:726-732 | declaring the predeclared names changes only the innermost scope |
| Parser.BuiltinsFresh | pkg/parser/parser.go:726-732 | the seven predeclared names are pairwise different |
| Parser.DeclareEachEmpty | pkg/parser/parser.go:726-732 | fresh declarations into one empty scope make up that scope, the first at level −1 and each next one a level higher |
| Parser.BuiltinsDeclared | pkg/parser/parser.go:726-732 | the predeclared names all go in, in order, at levels −1 to 5, with no error |
| Parser.Recover | pkg/parser/parser.go:87-92 | a token in the first set is kept; any other is reported and skipped up to the stop set |
| Parser.Selector | pkg/parser/parser.go:36-82 | the scope stack is unchanged, and the code only grows |
| Parser.SelectIndex | pkg/parser/parser.go:60-78 | the scope stack is unchanged, and the code only grows |
| Parser.Factor | pkg/parser/parser.go:85-137 | the scope stack is unchanged, and the code only grows |
| Parser.ParenFactor | pkg/parser/parser.go:115-122 | the scope stack is unchanged, and the code only grows |
| Parser.Term | pkg/parser/parser.go:140-174 | the scope stack is unchanged, and the code only grows |
| Parser.TermLoop | pkg/parser/parser.go:142-172 | for `and` after a non-constant operand, the load and `if (result i32)` come first in the code |
| Parser.SimpleExpression | pkg/parser/parser.go:177-225 | the scope stack is unchanged, and the code only grows |
| Parser.SignedTerm | pkg/parser/parser.go:179-194 | the scope stack is unchanged, and the code only grows |
| Parser.SumLoop | pkg/parser/parser.go:195-223 | for `or` after a non-constant operand, the load, `if (result i32)`, `i32.const 1` and `else` come first in the code |
| Parser.Expression | pkg/parser/parser.go:229-285 | the scope stack is unchanged, and the code only grows |
| Parser.RelationLoop | pkg/parser/parser.go:231-282 | the scope stack is unchanged, and the code only grows |
| Parser.CompoundStatement | pkg/parser/parser.go:288-310 | the scope stack is unchanged, and the code only grows |
| Parser.StatementSeq | pkg/parser/parser.go:295-303 | the scope stack is unchanged, and the code only grows |
| Parser.Statement | pkg/parser/parser.go:313-456 | the scope stack is unchanged, and the code only grows |
| Parser.IdentStatement | pkg/parser/parser.go:323-403 | the scope stack is unchanged, and the code only grows |
| Parser.Assignment | pkg/parser/parser.go:329-344 | the scope stack is unchanged, and the code only grows |
| Parser.Call | pkg/parser/parser.go:345-400 | the scope stack is unchanged, and the code only grows |
| Parser.Actuals | pkg/parser/parser.go:349-387 | the scope stack is unchanged, and the code only grows |
| Parser.FirstActual | pkg/parser/parser.go:351-364 | the scope stack is unchanged, and the code only grows |
| Parser.ActualsLoop | pkg/parser/parser.go:365-380 | the scope stack is unchanged, and the actual count never decreases |
| Parser.IfStatement | pkg/parser/parser.go:406-433 | the scope stack is unchanged, and the code only grows |
| Parser.Condition | pkg/parser/parser.go:408-413 | a boolean condition is generated; any other is "boolean expected" and emits nothing |
| Parser.IfBranches | pkg/parser/parser.go:420-433 | `GenIfThen`, `GenElse` and `GenIfElse` run only for a boolean condition: without `else` a non-boolean one emits nothing, and with `else` the branch is parsed with no closing code |
| Parser.WhileStatement | pkg/parser/parser.go:434-451 | the loop is opened before the condition; `GenWhileDo` closes it only for a boolean condition, and otherwise nothing follows the body |
| Parser.Typ | pkg/parser/parser.go:459-543 | the scope stack is unchanged, and the code only grows |
| Parser.ArrayType | pkg/parser/parser.go:477-517 | the scope stack is unchanged, and the code only grows |
| Parser.RecordType | pkg/parser/parser.go:518-540 | the fields are the innermost scope read between `record` and `end`, which is closed again; the record's size is their total size, its type is `nil`, and the offsets are left as written |
| Parser.FieldLists | pkg/parser/parser.go:522-529 | only the innermost scope changes, it only grows, and every entry added is a variable (a field) |
| Parser.TypedIds | pkg/parser/parser.go:546-592 | only the innermost scope changes, it only grows, and every entry added has the kind asked for (var or ref) |
| Parser.TypedIdsNames | pkg/parser/parser.go:546-591 | the first name is the identifier read; a missing `:` after the names is reported and declares nothing |
| Parser.TypedIdsDeclares | pkg/parser/parser.go:565-588 | with `:` and the type read, distinct new names are all declared in order, each with the entry the kind and that type make, at the level the scope's length before it gives |
| Parser.DeclaredInOrder | pkg/parser/parser.go:569-587 | the declarations of the names, seen from a state with the same scopes |
| Parser.Declaration | pkg/parser/parser.go:595-722 | the text read is unchanged, the code only grows, and no scope is closed |
| Parser.ConstDecls | pkg/parser/parser.go:602-627 | only the innermost scope changes, it only grows, and every entry added is a constant |
| Parser.ConstDecl | pkg/parser/parser.go:604-626 | only the innermost scope changes, and every entry added is a constant; the declaration itself is `DeclareConst` on the expression read |
| Parser.DeclareConst | pkg/parser/parser.go:612-618 | a constant item is declared under the name as a constant of its type and value, at the level the scope's length gives; a name already in the scope is "multiple definitions"; any other item is "expression not constant" and declares nothing |
| Parser.AfterName | pkg/parser/parser.go:606-611 | the name is consumed, then `=` is expected |
| Parser.TypeDecls | pkg/parser/parser.go:628-648 | only the innermost scope changes |
| Parser.TypeDecl | pkg/parser/parser.go:630-647 | only the innermost scope changes |
| Parser.TypeDeclDeclares | pkg/parser/parser.go:630-639 | the type read after `=` is declared under the name, at the level the scope's length gives; a name already in the scope is reported and the table is unchanged |
| Parser.VarSection | pkg/parser/parser.go:649-663 | only the innermost scope changes |
| Parser.VarSectionAllocates | pkg/parser/parser.go:649-663 | the `var` declarations add only variables, and exactly the entries they added are allocated: one `global` line (at the top level) or `local` line (in a procedure) per scalar among them, in order |
| Parser.VarDecls | pkg/parser/parser.go:650-658 | only the innermost scope changes, it only grows, and every entry added is a variable |
| Parser.ProcDecls | pkg/parser/parser.go:664-721 | the text read is unchanged, the code only grows, and no scope is closed |
| Parser.ProcName | pkg/parser/parser.go:665-672 | only the innermost scope changes, and it holds at least one entry afterwards (the procedure) |
| Parser.ProcNameDeclares | pkg/parser/parser.go:665-672 | the name is `val` after reading past the identifier: the identifier itself when an operator such as `;` or `(` follows, a following word or number otherwise (the current `val` when the identifier is missing, which is reported); a procedure without parameters is declared under it at the level the scope's length gives, or a name already in the scope is reported |
| Parser.ProcHeading | pkg/parser/parser.go:665-706 | a procedure heading opens exactly one scope |
| Parser.ProcHeadingParts | pkg/parser/parser.go:673-706 | without a parameter list, `GenProcStart` emits the function header, the depth rises by one and the new scope is empty; with one, the formal parameters are read and no header is emitted |
| Parser.ProcDecl | pkg/parser/parser.go:665-720 | the text read is unchanged, the code only grows, and no scope is closed |
| Parser.ProcBody | pkg/parser/parser.go:712-720 | the text read is unchanged, the code only grows, and no scope is closed |
| Parser.ProcBodyCloses | pkg/parser/parser.go:712-720 | after the local declarations and the body, `GenProcExit` appends the closing `)` and the depth falls by one |
| Parser.FormalParams | pkg/parser/parser.go:676-702 | the depth of the scope stack is unchanged |
| Parser.FormalParamsSetsPar | pkg/parser/parser.go:676-702 | the formal list declares only by-value and by-reference parameters, and the procedure's entry, the last of the enclosing scope, gets the innermost scope as its parameter list; nothing else there changes |
| Parser.FormalSection | pkg/parser/parser.go:677-691 | only the innermost scope changes, and every entry added is a reference after `var` and a variable otherwise |
| Parser.FormalSections | pkg/parser/parser.go:684-692 | only the innermost scope changes, it only grows, and every entry added is a variable or a reference |
| Parser.ProgramHeader | pkg/parser/parser.go:733-749 | the module header with its imports is emitted; the scope stack is unchanged |
| Parser.ProgramStart | pkg/parser/parser.go:726-749 | after the predeclared names and the header, the code is the module header and its imports |
| Parser.ProgramBody | pkg/parser/parser.go:750-753 | a run-time panic leaves no text; otherwise the generated code ends with the closing line and the text is every line joined |
| Parser.MainBody | pkg/parser/parser.go:751-753 | the same for the main body after the global declarations |
| Parser.Program | pkg/parser/parser.go:725-754 | the code starts with the header and imports; a run-time panic leaves no text; otherwise the code ends with the closing line and is returned joined |
| Parser.CompileWasm | pkg/parser/parser.go:757-761 | compiling any text gives code starting with the imports; a run-time panic gives no text, and otherwise the text ends with the closing line |

## Left out

- Fuel: each mutually recursive parser production takes a `fuel` bound and returns
  its input unchanged when the bound is spent. Programs nested deeper than the bound
  are not modelled.
- File I/O is not modelled. `FileHelper` and `fileHelper` read a file and
  `WriteWasmFile` writes the result; the model takes the file contents as a string
  and returns the generated text.
- Concurrency is not modelled. The WaitGroup, the goroutines that run the
  preprocessors beside the scanner, and the busy-wait in `GetChar` on a blank are
  left out. Each pass is a pure function on the whole text.
- Console output is replaced by the `diags` list. The `fmt.Print` traces and
  `PrintSymTable` are left out.
- `Number` compares `float64(res)` with `math.Exp2(31)`. The comparison is done on
  integers, against 2^31; every Atoi result converts to a float on the same side of
  2^31.
- `unicode.IsLetter` and `unicode.IsNumber` are modelled as ASCII letters and digits.
- The input is modelled as a sequence of characters, not of UTF-8 bytes. Go indexes
  the input string by byte (`Input[Index]`, `Input[start:Index]`), and `Index` and
  `Pos` count bytes, so a non-ASCII character is scanned one byte at a time (`é`
  reads as the two characters `Ã` and `©`). The model reads it as one character,
  so non-ASCII text scans differently; on ASCII text the two agree.
- The symbol-table constructors the parser calls are not part of the shown
  `symtable.go` (`Const`, `Var`, `Ref`, `Type`, `Array`, `Record`, `Proc`, `StdProc`,
  `NewDecl` with an entry argument, `FindInSymTab` and the scope functions of the
  `symtable` package, and the `EmptyInt` constant). They are inferred from their use
  sites:
  - they are modelled by the `symtablefuncs` routines of the same name. The
    entry-taking `NewDecl` is `SymTableFuncs.DeclareEntry`, with the level rule
    `symtablefuncs.go` writes: the innermost scope's length before the entry, minus
    one. The parser declares every name through it, so the parser's levels are the
    ones that rule gives (see "Findings");
  - a variable or reference takes its size from its primitive type;
  - an entry's parameter list `par` holds entries, not strings: `symtable.go`
    declares `Par []string`, but the parser passes entries (`st.Proc` of a
    `[]st.SymTableEntry`, and `sc[len(sc) - 1].Par = fp` with `fp` a scope), so
    the model follows the parser. `NewComplexType` keeps its `[]string`
    argument, which it ignores;
  - an array keeps its element size;
  - the `ArrOrRec` field of an entry (`""`, `"array"` or `"record"`) is
    modelled as `arrOrRec`, and `st.Nil`, the type a record gets
    (parser.go:539), as a fourth primitive type `TNil` with an empty
    spelling beside the three of `symtable.go`;
  - `EmptyInt` is the most negative 64-bit integer.
- CodeGen.GenSelect and CodeGen.GenIndex: entries are values, not pointers. The
  items they change (`Adr`, `Tp`, `Lev`, `EntryType`) are fresh copies in every
  case but one: when `factor` meets a name that is neither variable, reference
  nor constant, it reports "expression expected" and then applies `selector`
  to the entry `FindInSymTab` returned (parser.go:104-106). The `symtable`
  package's `FindInSymTab` is not part of this model; if it returns a pointer
  into the table, Go's `GenSelect` and `GenIndex` would change the stored
  entry there, and later uses of that name would see the change. The model
  (Parser.IdentItem, Parser.Selector) changes only its copy. This arises only on
  input that is already in error.
- The `tp != &SymTableEntry{}` test in `typedIds` compares a fresh pointer and is
  always true. It is modelled as true.
- `GenProcEntry` and `GenSeq` emit nothing and change nothing. They are not
  separate members.
- Sizes and addresses (`Memsize`, `Adr`, `Offset`) are unbounded integers.
  Overflow of those fields is not modelled; folded constants do wrap at 64 bits.
- After a Go panic (folding a division by zero) Go stops at once and produces no
  text. The model sets `halted`: every later production returns its input
  unchanged, and `ProgramBody`, `MainBody`, `Program` and `CompileWasm` return no
  text. The scanner and generator steps that remain in the productions already
  running still run on the halted state, so after a halt only `halted` and the
  absence of text are meaningful; the code, diagnostics and cursor of a halted
  state do not correspond to anything Go produces.
- `main/`, `code/`, `cmd/` and `test/` hold older copies and drivers of the same
  code, and are not part of this model.
- Parser.Selector, Parser.Factor, Parser.Term, Parser.Expression and the other
  productions whose row reads "the code only grows" state the frame each production
  keeps, not the complete code it generates. The code itself is stated for the
  combining steps (`CombineTerm`, `CombineSum`, `CombineRelation`, `CheckActual`,
  `FinishCall`, `Condition`) and for the generator routines.
- Parser.Program and Parser.CompileWasm do not state which diagnostics a run
  prints.
- CodeGen.Run executes only constant lines and the integer instructions that the
  index, selection and relation code use, on unbounded integers. It does not
  model 32-bit wrap-around, memory, locals or globals; the lemmas built on it
  therefore assume values that fit in 64 bits and say nothing about overflow.
- Parser.Declaration states the frame only (the text read is unchanged, the code
  grows, no scope is closed). What its parts declare and allocate is stated by
  the section members and lemmas below.
- Parser.TypeDecls states the frame only: the kinds of the entries it adds depend
  on the types named, so no kind is promised. What each type declaration
  declares is stated by `TypeDeclDeclares`.
- Parser.TypeDecl: its own contract is the frame; what it declares is stated by
  `TypeDeclDeclares` (for a fuel above zero).
- Parser.TypedIds: its own contract is the frame and the kind of the added
  entries; the names and entries declared are stated by `TypedIdsNames` and
  `TypedIdsDeclares`, for names that are distinct and new in the scope. A
  repeated name is reported by each declaration step; the exact table then is
  not stated.
- Parser.ConstDecls, Parser.VarDecls, Parser.FieldLists and
  Parser.FormalSections state the kinds of the entries they add, not which
  names are added: that is stated one declaration at a time (`DeclareConst`,
  `TypedIdsDeclares`).
- Parser.ConstDecl: its own contract is the frame and the kind added; the
  declaration is stated by `DeclareConst`, applied to the expression read.
- Parser.FormalSection states the kind of the parameters it adds (reference after
  `var`, variable otherwise); the names are stated by `TypedIdsDeclares`.
- Parser.VarSection: its own contract is the frame; the allocation is stated by
  `VarSectionAllocates` (for a fuel above zero).
- Parser.ProcName: its own contract is the frame; the name and the declaration
  are stated by `ProcNameDeclares`.
- Parser.ProcHeading: its own contract is the frame and the one scope opened; the
  choice between `GenProcStart` and the formal list is stated by
  `ProcHeadingParts`.
- Parser.FormalParams: its own contract is the frame; the parameter list set on
  the procedure's entry is stated by `FormalParamsSetsPar`.
- Parser.ProcBody: its own contract is the frame; the closing line and depth are
  stated by `ProcBodyCloses`.
- Parser.ProcDecls and Parser.ProcDecl state the frame only; the steps of one
  procedure declaration are stated by `ProcNameDeclares`, `ProcHeadingParts`,
  `FormalParamsSetsPar` and `ProcBodyCloses`.
- Parser.ActualsLoop states the frame and that the count of actuals never
  decreases; the check of each actual is stated by `CheckActual`.

## Findings

| source | as written | input that shows it | evidently intended | confidence | as-written member | corrected member |
|---|---|---|---|---|---|---|
| pkg/symtablefuncs/symtablefuncs.go:18 | the new entry's level is the length of the innermost scope minus one | declaring `x` into a global scope that holds the seven predeclared names gives level 6 | the level is the nesting depth (0 global, 1 local), which `loadItem`, `GenVar` and `GenAssign` use to tell globals from locals | not executed; medium, since the parser calls an entry-taking `NewDecl` of the `symtable` package that is not part of this model | SymTableFuncs.NewDeclLevelCounterexample | SymTableFuncs.Declare |
| pkg/codegen/codegen.go:53-54 | offsets are written into the loop's copy of each field, so every field keeps offset 0 | `record a, b: integer end`: both fields at offset 0 | each field at the running total of the sizes before it (0 and 4) | not executed | CodeGen.GenRecOffsetCounterexample | CodeGen.GenRec |
| pkg/parser/parser.go:50 | "not a field" is reported when the counter equals the field count minus one | a record with the one field `f`: `.f` is reported and `.g` is not | report exactly when no field matches (counter equals the field count) | not executed | Parser.SelectFieldCounterexample | Parser.MissingFieldReported |
| pkg/parser/parser.go:162-166, 213-219 | a constant left operand of `and` or `or` is replaced by the right operand whatever its value (the test is only `Val != EmptyInt`) | `false and b` folds to `b`, and so does `true or b`, with `b` a boolean variable | `false and b` folds to `false` and `true or b` to `true`; a true left operand of `and`, or a false one of `or`, yields the right operand | not executed | Parser.ConstLeftFoldsToRight | Parser.FoldAnd |

The parser runs the code as written in all four cases: it declares through
`SymTableFuncs.DeclareEntry`, lays out records with `CodeGen.GenRecAsWritten`,
searches fields with the test as written and folds constant `and`/`or` left
operands as written. The corrected members stand
beside them with the intended property proved: `SymTableFuncs.Declare`, whose
contract stamps the depth of the scope stack, `CodeGen.GenRec` with
`CodeGen.LayoutOffsets` and `CodeGen.SelectedFieldAddress`, and the corrected
field test with `Parser.MissingFieldReported`, and `Parser.FoldAnd` and
`Parser.FoldOr`, whose contracts give the folded item the meaning of the
connective.
