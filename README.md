# c_lox core in Dafny

A model of the front half and runtime core of `c_lox`, a tree-walking interpreter in C for a small dynamically typed scripting language. The model covers:

- the scanner, which turns source text into tokens (`scanner.c`, `token.c`, `token.h`);
- the recursive-descent parser, which turns tokens into expression trees and statements (`parser.c`, `expression.h`, `statements.c`);
- the expression printer (`expression.c`);
- the runtime values with their casts, equality, comparison, arithmetic and string concatenation (`value.c`);
- the older expression evaluator (`interpreter.c`);
- the containers underneath (`memory.c`, `doubling_array.h`, `string.c`, `value_hashtable.c`, `var_env.h`).

Each C file keeps its own form:

- Imperative code is a class whose fields the methods update, and every loop carries its invariants: the scanner and parser state, the arenas, the growable arrays and strings, the hash table and the variable environment.
- Each such method is proved equal to a pure specification function. The properties of the system are then proved about those functions as lemmas:
  - the scanner against `ScannerSpec`;
  - the parser against `ParserSpec`;
  - the evaluator against `Interpreter.Eval`;
  - the hash table against `Hashtable.Find`.

Modules, one per file:

| file | module | C source |
|---|---|---|
| `wrappers.dfy` | `Wrappers` | `Option` |
| `tokens.dfy` | `Tokens` | `token.h`, `token.c` |
| `doubling_array.dfy` | `DoublingArray` | `doubling_array.h` |
| `memory.dfy` | `Memory` | `memory.c` |
| `token_arr.dfy` | `TokenArray` | `token.c` arrays |
| `scanner_spec.dfy` | `ScannerSpec` | — |
| `scanner.dfy` | `Scanner` | `scanner.c` |
| `ast.dfy` | `Ast` | `expression.h`, `statements.h` |
| `printer.dfy` | `Printer` | `expression.c` |
| `statements.dfy` | `Statements` | `statements.c` |
| `parser_spec.dfy` | `ParserSpec` | — |
| `parser.dfy` | `Parser` | `parser.c` |
| `parser_examples.dfy` | `ParserExamples` | `parser.c` on sample inputs |
| `string_buf.dfy` | `StringBuf` | `string.c` |
| `values.dfy` | `Values` | `value.c` |
| `value_hashtable.dfy` | `Hashtable` | `value_hashtable.c` |
| `var_env.dfy` | `Environment` | `var_env.h` |
| `interpreter.dfy` | `Interpreter` | `interpreter.c` |

Machine facts that the model writes out explicitly:

- **Integer widths.** `size_t` and `unsigned long` wrap at 2^64. A plain `char` is a signed byte, as on x86-64: a character is taken as its low byte and read as -128..127. The `stackmem` block header is 8 bytes, little-endian.
- **Numbers.** A number is a `real`, and `atof` of a NUMBER lexeme is its exact decimal value.
- **Unspecified reads.** Where the C code reads a union member that was never set, the payload is `None` in the interpreter. In `Values.EqualEqual` the answer is left open as 0 or 1.

## Model

| member | source | states |
|---|---|---|
| Tokens.Ordinal | token.h:11-59 | each token kind's enum value is its declaration position, and the kind at that position is the kind itself |
| Tokens.AllKindsComplete | token.h:63-102 | the `ttforeach` list names every token kind, and no kind twice |
| Tokens.PositionsDistinct | token.h:11-59 | two different enum positions hold two different kinds |
| Tokens.KindNameRoundTrip | token.c:16-19 | `tttostr` is invertible: every kind's name reads back as that kind |
| Tokens.NameRoundTripA | token.c:16-19 | the name round trip for the first ten kinds |
| Tokens.NameRoundTripB | token.c:16-19 | the name round trip for kinds 10 to 19 |
| Tokens.NameRoundTripC | token.c:16-19 | the name round trip for kinds 20 to 29 |
| Tokens.NameRoundTripD | token.c:16-19 | the name round trip for kinds 30 to TT_EOF |
| Tokens.KindNameInjective | token.c:16-19 | two kinds have the same name exactly when they are the same kind |
| Tokens.StripQuotes | token.c:29-34 | the unquoted text is two characters shorter than the lexeme, or empty for a lexeme under two characters |
| Tokens.StripQuotesLayout | token.c:29-34 | a lexeme of two or more characters is its first character, then the unquoted text, then its last character |
| Tokens.StripQuotesOfQuoted | token.c:29-34 | stripping the quotes from `"s"` gives back `s` |
| Tokens.DotIndex | token.c:35-37 | the index of the first `.` of a lexeme, with no `.` before it, or the length when there is none |
| Tokens.TokenCreate | token.c:21-40 | the token keeps kind, lexeme and line; it has a string payload exactly for STRING and a number payload exactly for NUMBER |
| Tokens.TokenCreateStrVal | token.c:29-34 | a STRING token's `str_val` is its lexeme between the first and last character |
| Tokens.StrValTerminatorOverruns | token.c:31-33 | as written, the terminator of `str_val` lands one byte past its block for every non-empty lexeme |
| Tokens.StrValOneByteLexemeWraps | token.c:31-33 | as written, a one-character STRING lexeme allocates 0 bytes and copies 2^64-1 |
| Tokens.SizeT | token.c:31-32 | `size_t` arithmetic reduces every result modulo 2^64 |
| Tokens.StrValLayoutFor | token.c:29-34 | the corrected layout: the whole unquoted text is copied, its terminator follows it, and both fit inside the block |
| Tokens.StrValOffByOne | token.c:29-34 | for a quoted lexeme the code as written copies as many bytes and allocates as large a block as intended; only the terminator sits one byte further, past the block |
| DoublingArray.GrownCap | doubling_array.h:3-10 | the capacity after growing is at least the requested length and the old capacity; it is unchanged when the request already fits; it is less than twice the request when it grew |
| DoublingArray.GrownCapIsPowerMultiple | doubling_array.h:6-9 | the grown capacity is the old capacity times a power of two |
| DoublingArray.Pow2Add | doubling_array.h:6-9 | powers of two multiply by adding exponents, so doubling k then j times is doubling k + j times |
| DoublingArray.AfterTurnsIsPowerMultiple | doubling_array.h:6-9 | k turns of `cap = cap * 2` multiply the capacity by 2^k |
| DoublingArray.GrownCapAfterTurns | doubling_array.h:6-9 | the loop stops after `Doublings` turns of `cap = cap * 2`, at `GrownCap`, and its guard `newlen > cap` held before every earlier turn |
| DoublingArray.ZeroCapacityNeverSuffices | doubling_array.h:6-9 | on a freed buffer (capacity 0) the guard `newlen > cap` still holds after any number of turns of the loop, so a non-empty request never ends it |
| DoublingArray.Resized | doubling_array.h:7 | `realloc` gives a fresh array of the new length with the old elements at the front |
| DoublingArray.MakeAvailable | doubling_array.h:3-10 | the array is grown to `GrownCap` with its old elements kept, and is the same array when the request already fits |
| Memory.EncodeLE | memory.c:53-54 | the header of a block size is exactly 8 bytes |
| Memory.Pow256Add | memory.c:53-54 | powers of 256 multiply by adding exponents, the place values of the header's bytes |
| Memory.DecodeEncode | memory.c:53-54 | reading back a header gives the size that was written, for every size below 256^k |
| Memory.DecodeBound | memory.c:70 | any header read from memory holds a number below 256^k |
| Memory.EncodeDecode | memory.c:70 | writing back a header that was read reproduces its bytes |
| Memory.TiledBlocksDisjoint | memory.c:18-25 | two blocks handed out by the linear arena never overlap, and both end by the used length |
| Memory.TiledBlockBelow | memory.c:18-25 | every block handed out ends by the used length |
| Memory.Linmem.constructor | memory.c:8-14 | `linmem_create` gives an arena with capacity 100000 and nothing handed out |
| Memory.Linmem.Malloc | memory.c:18-25 | the block starts at the old used length, the length grows by the block size, earlier bytes are kept, the capacity grows by doubling, and the blocks still tile the used prefix |
| Memory.Linmem.Free | memory.c:27-32 | after `linmem_free`, length and capacity are 0 and no block is live |
| Memory.StackedKeptBelow | memory.c:45-73 | the block stack depends only on the bytes below the used length |
| Memory.StackPush | memory.c:50-58 | a header at the used length that points back to `top` pushes one frame onto the block stack |
| Memory.HeaderReadsBack | memory.c:54 | a stored header reads back as the size stored |
| Memory.StackedTop | memory.c:45-73 | `top` never passes the used length |
| Memory.Stackmem.constructor | memory.c:36-43 | `stackmem_create` gives an empty arena of capacity 100000 with `top` at its start |
| Memory.Stackmem.Malloc | memory.c:45-61 | the block starts after an 8-byte header at the old length and becomes the new `top`, a frame recording the old length and `top` is pushed, and the earlier bytes are kept |
| Memory.Stackmem.PushFrame | memory.c:50-58 | once room exists, writing the header and moving `len` and `top` pushes exactly one frame and keeps the array and the bytes below |
| Memory.Stackmem.MakeAvailable | memory.c:34 | growing the arena keeps `len`, `top`, the frames and the used bytes |
| Memory.Stackmem.WriteHeader | memory.c:53-54 | the 8 bytes at the head read back as the size written, and the bytes below it are unchanged |
| Memory.Stackmem.FreeTop | memory.c:63-73 | freeing the top block pops the newest frame and restores the `len` and `top` from before that block |
| Memory.Stackmem.FreeAll | memory.c:75-80 | after `stackmem_freeall`, length and capacity are 0, no frame is live, and `top` is left unchanged |
| Memory.MallocThenFreeTop | memory.c:45-73 | `stackmem_malloc` followed by `stackmem_free_top` restores `len`, `top` and the block stack exactly |
| TokenArray.TokenArr.constructor | token.c:57-64 | `token_arr_create` gives an empty array with capacity 10 |
| TokenArray.TokenArr.Push | token.c:76-81 | the contents become the old contents followed by `token_create(...)`, and the capacity grows by doubling when full |
| TokenArray.TokenArr.Free | token.c:66-72 | after `token_arr_free`, length and capacity are 0 |
| ScannerSpec.SkipWhile | scanner.c:71-86 | the end of the run of class characters is within the source, and the character there, if any, is outside the class |
| ScannerSpec.SkipWhileAllIn | scanner.c:145-155 | every character the run passes over is in the class |
| ScannerSpec.NumberEnd | scanner.c:90-98 | a number lexeme ends within the source, and not before a digit |
| ScannerSpec.NumberEndDigits | scanner.c:90-98 | a number lexeme is digits with at most one `.`, which a digit follows inside the lexeme; and when it stops before a `.` and a digit, it already holds a `.` |
| ScannerSpec.NumberEndFraction | scanner.c:90-98 | `1.5` scans as one number, and `1.2.3` stops before its second `.` |
| ScannerSpec.NextToken | scanner.c:158-236 | one step consumes at least one character, never decreases the line, and never yields TT_EOF |
| ScannerSpec.ScanFrom | scanner.c:238-253 | the scan always ends with a TT_EOF token |
| ScannerSpec.ScanFromStep | scanner.c:238-253 | one turn of the loop: the tokens from a position are the step's token, if any, followed by the tokens of the rest, and the error flags combine |
| ScannerSpec.NextTokenErrorIff | scanner.c:158-236 | a step reports an error exactly on a character no branch accepts, or on a string with no closing quote |
| ScannerSpec.MaximalMunch | scanner.c:158-236 | `!`, `=`, `<` and `>` take a following `=` and become the two-character kind exactly when one is there |
| ScannerSpec.CommentSkipsToNewline | scanner.c:158-236 | `//` yields no token and consumes up to, but not including, the next newline |
| ScannerSpec.CountNewlinesAppend | scanner.c:71-86 | newline counts add up over concatenation |
| ScannerSpec.NoNewlinesCountZero | scanner.c:71-86 | a text without newlines counts zero of them |
| ScannerSpec.NextTokenCountsLines | scanner.c:158-236 | a step moves the line counter by exactly the newlines in the text it consumed |
| ScannerSpec.StringCountsLines | scanner.c:71-86 | a string literal counts the newlines inside it |
| ScannerSpec.NoNewlineConsumed | scanner.c:158-236 | a step that starts on neither a quote nor a newline consumes no newline |
| ScannerSpec.LastTokenOfStep | scanner.c:238-253 | a step leaves the last token of the scan unchanged |
| ScannerSpec.ScanFromCountsLines | scanner.c:238-253 | the final TT_EOF token's line is the starting line plus the newlines in the rest of the source |
| ScannerSpec.ScanEndsOnLastLine | scanner.c:255-263 | the scan ends with TT_EOF on line 1 plus the number of newlines in the source |
| ScannerSpec.ScanFromWellFormed | scanner.c:238-253 | the scan has exactly one TT_EOF, at the end; STRING and NUMBER tokens carry their payloads; and lines never decrease |
| ScannerSpec.StepKeepsWellFormed | scanner.c:238-253 | one step in front of a well-formed rest keeps the tokens well-formed and in line order |
| ScannerSpec.PushWellFormed | scanner.c:246-249 | pushing a step's token, if any, in front of a well-formed rest keeps the tokens well-formed |
| ScannerSpec.ConsWellFormed | scanner.c:246-249 | a non-EOF token with its payload, on a line no later than the rest, keeps the tokens well-formed |
| ScannerSpec.ScanWellFormed | scanner.c:255-263 | every token list the scanner produces is well-formed, with lines from 1 and never decreasing |
| ScannerSpec.ScanEmpty | scanner.c:255-263 | the empty source scans to a single TT_EOF token on line 1 |
| ScannerSpec.TrailingDotSteps | scanner.c:90-98 | over `1.` the number stops before the `.`, which is a DOT of its own |
| ScannerSpec.ScanTrailingDot | scanner.c:90-98 | `1.` scans as NUMBER 1, DOT, TT_EOF |
| ScannerSpec.KeywordIff | scanner.c:106-143 | a word is recognised as a keyword kind exactly when it is that kind's spelling |
| ScannerSpec.KeywordSpelt | scanner.c:106-143 | every recognised word spells the kind it is recognised as |
| ScannerSpec.SpeltKeyword | scanner.c:106-143 | every keyword's spelling is recognised as that keyword |
| Scanner.ScannerState.constructor | scanner.c:20-29 | both cursors start at 0 on line 1 with no error |
| Scanner.ScannerState.AtEnd | scanner.c:32-35 | the scanner is at its end exactly when the cursor is on the terminating NUL |
| Scanner.ScannerState.PeekCh | scanner.c:45-48 | the peeked character is NUL exactly at the end, and otherwise the character under the cursor |
| Scanner.ScannerState.Peek2Ch | scanner.c:51-56 | the character after the cursor, or NUL when there is none |
| Scanner.ScannerState.NextCh | scanner.c:38-42 | consumes and returns the character under the cursor, touching nothing else |
| Scanner.ScannerState.MatchCh | scanner.c:59-69 | consumes the character exactly when it is the next one |
| Scanner.ScannerState.ParseString | scanner.c:71-86 | stops after the closing quote or at the end, counts the newlines passed over, and sets the error exactly when the quote is missing |
| Scanner.ScannerState.ParseNumber | scanner.c:90-98 | the cursor ends at `NumberEnd` |
| Scanner.ScannerState.ParseIdent | scanner.c:145-155 | consumes letters, digits and `_`, and returns the keyword kind of the lexeme or IDENTIFIER |
| Scanner.ScannerState.NextTokenKind | scanner.c:158-236 | the kind, cursor, line and error after one call are those of `NextToken` |
| Scanner.ScannerState.ParseStep | scanner.c:238-253 | one turn of the loop moves the cursor forward, and the pushed tokens together with the rest of the scan equal the whole scan |
| Scanner.ScannerState.PushLexeme | scanner.c:246-249 | pushes the token of the current lexeme exactly when the step yielded a kind |
| Scanner.ScannerState.StepAccounts | scanner.c:238-253 | one pushed step plus the rest of the scan accounts for the scan's tokens and errors |
| Scanner.ScannerState.Parse | scanner.c:238-253 | the array gains exactly the tokens of `ScanFrom`, and the error flag becomes that of the scan |
| Scanner.ScanTokens | scanner.c:255-263 | the returned array holds exactly the tokens of `Scan(data)` |
| ParserSpec.Advance | parser.c:58-63 | the cursor steps over one token, except on TT_EOF, where it stays |
| ParserSpec.Lower | parser.c:209-308 | each precedence level's operands come from the level just below it |
| ParserSpec.OpRank | expression.h:72-75 | every binary operator belongs to one of the four precedence levels |
| ParserSpec.OpRankOfLevel | parser.c:209-308 | every operator a level's loop matches is a binary operator of that level |
| ParserSpec.PExpression | parser.c:310 | parsing stays in bounds and consumes a token unless at TT_EOF |
| ParserSpec.PBinary | parser.c:209-308 | each binary level stays in bounds and consumes a token unless at TT_EOF |
| ParserSpec.POperand | parser.c:209-308 | a level's operand stays in bounds and consumes a token unless at TT_EOF |
| ParserSpec.PFold | parser.c:209-308 | the folding loop never moves the cursor backwards |
| ParserSpec.PUnary | parser.c:187-204 | `parse_unary` stays in bounds and consumes a token unless at TT_EOF |
| ParserSpec.PPrimary | parser.c:107-182 | `parse_primary` consumes a token, even on failure, unless at TT_EOF |
| ParserSpec.ExpressionShaped | parser.c:287-310 | every parsed expression has the precedence-climbing shape: left-associative, with operators binding by level |
| ParserSpec.BinaryShaped | parser.c:209-308 | a level's result binds no looser than that level |
| ParserSpec.OperandShaped | parser.c:209-308 | a level's operand binds strictly tighter than that level |
| ParserSpec.FoldShaped | parser.c:209-308 | each fold makes the tree so far the left child, so chains associate to the left |
| ParserSpec.UnaryShaped | parser.c:187-204 | a unary result is never a bare binary node |
| ParserSpec.PrimaryShaped | parser.c:107-182 | a primary result is a literal, a variable or a grouping |
| ParserSpec.PExprStmt | parser.c:335-356 | an expression statement ends just after its `;` and is an expression statement |
| ParserSpec.PPrintStmt | parser.c:312-333 | a print statement ends just after its `;` and is a print statement |
| ParserSpec.PStmt | parser.c:358-366 | a statement is a print statement exactly when it starts with `print` |
| ParserSpec.PVarDecl | parser.c:368-390 | a declaration carries the identifier's lexeme, ends just after its `;`, and has an initializer exactly when `=` follows the name; a failed initializer fails it |
| ParserSpec.SyncFrom | parser.c:80-100 | synchronisation stops at the first sync point: TT_EOF, just after a `;`, or before a statement keyword |
| ParserSpec.Synchronize | parser.c:80-100 | `parser_synchronize` skips one token, then stops at the first sync point after it |
| ParserSpec.PDecl | parser.c:392-404 | a declaration consumes a token unless at TT_EOF, and is a `var` declaration exactly when it starts with `var` |
| ParserSpec.ProgramStep | parser.c:406-417 | one turn of the loop appends the declaration, if it parsed, and leaves the statements still to come unchanged |
| ParserSpec.ProgramBounded | parser.c:406-417 | a program has no more statements than tokens before TT_EOF |
| ParserSpec.FailedDeclSynchronizes | parser.c:396-400 | a failed `var` declaration consumes at least the `var` and stops at a sync point |
| ParserSpec.UnclosedInitializer | parser.c:368-390 | the tokens of `var x = (1;` end with TT_EOF |
| ParserSpec.UnclosedGroupInner | parser.c:107-182 | inside `(1;`, the `1` parses as a whole expression that stops at the `;` |
| ParserSpec.UnclosedGroupFails | parser.c:107-182 | `(1;` fails as an expression at the `;` |
| ParserSpec.FailedInitializerAccepted | parser.c:376-383 | as written, `var x = (1;` is accepted as `var x;`, while the corrected parser rejects it |
| ParserSpec.PDeclAsWritten | parser.c:392-404 | `parse_decl` as written: it consumes a token unless at TT_EOF, and is a `var` declaration exactly when it starts with `var` |
| ParserSpec.ProgramKeepsFailedInitializer | parser.c:376-417 | as written, the program `var x = (1;` parses to the one statement `var x;`; the corrected parser keeps no statement |
| ParserSpec.ExpressionSpells | parser.c:287-310 | what `parse_expression` returns is spelt by exactly the tokens it consumed, and the token after them is no binary operator |
| ParserSpec.BinarySpells | parser.c:209-308 | a level's result is spelt by the tokens it consumed, and the next token is no operator of that level or a tighter one |
| ParserSpec.OperandSpells | parser.c:209-308 | a level's operand is spelt by the tokens it consumed, and the next token is no operator of a tighter level |
| ParserSpec.FoldSpells | parser.c:217-229 | folding from a spelt left part gives a node spelt from the same start up to where the loop stops |
| ParserSpec.NodeSpells | parser.c:217-229 | a spelt left part, the operator token and a spelt right part spell their binary node |
| ParserSpec.FoldTurn | parser.c:217-229 | one turn of a level's loop reads the operator and the operand and goes on from the node they make |
| ParserSpec.UnarySpells | parser.c:187-204 | a unary result is spelt by the tokens it consumed |
| ParserSpec.PrimarySpells | parser.c:107-182 | a primary result is spelt by the tokens it consumed |
| ParserSpec.GroupedSpells | parser.c:157-175 | at `(`, a grouping is spelt by its tokens when the inner expression is |
| ParserSpec.GroupSpells | parser.c:157-175 | `(`, a spelt inner expression and `)` spell their grouping |
| ParserSpec.LeafSpells | parser.c:107-155 | away from `(`, `parse_primary` reads at most one token, and its result is that token's leaf |
| ParserSpec.ExpressionParses | parser.c:287-310 | every expression of the precedence-climbing shape, spelt in the tokens and followed by no binary operator, parses back to itself, consuming exactly its tokens |
| ParserSpec.BinaryParses | parser.c:209-308 | a level parses every spelt, well-shaped expression binding no looser than it, when no operator of that level or a tighter one follows |
| ParserSpec.BinaryPrefixParses | parser.c:209-308 | a level reads a spelt expression binding no looser than it and then goes on folding from its end |
| ParserSpec.NodePrefixParses | parser.c:217-229 | a node of the level's own rank is read as its left part and then one more turn of the loop |
| ParserSpec.NodeParts | parser.c:217-229 | a spelt, well-shaped node of a level has its operator token between its left part, binding no looser, and its right part, binding strictly tighter |
| ParserSpec.OperandStartsLevel | parser.c:209-216 | a level whose operand parses goes on folding from the operand's end |
| ParserSpec.FoldOver | parser.c:217-229 | having read the left part up to an operator of the level, one more turn over a parsed operand reads their node |
| ParserSpec.OperandParses | parser.c:209-308 | a level's operand parses every spelt expression binding strictly tighter, when no operator of a tighter level follows |
| ParserSpec.UnaryParses | parser.c:187-204 | `parse_unary` parses every spelt expression that is no bare binary node, whatever follows it |
| ParserSpec.PrimaryParses | parser.c:107-182 | `parse_primary` parses every spelt literal, variable or grouping, whatever follows it |
| ParserSpec.GroupingParses | parser.c:157-175 | `parse_primary` parses every spelt grouping of a well-shaped expression |
| ParserSpec.GroupParts | parser.c:157-175 | a spelt grouping has `(` first, `)` last, and its inner expression spelt between them with no binary operator after it |
| ParserSpec.GroupStep | parser.c:157-175 | `(`, an expression read up to a `)` and that `)` give the grouping, ending after the `)` |
| ParserSpec.LeafParses | parser.c:107-155 | `parse_primary` parses a spelt literal or variable from its one token |
| ParserSpec.ExpressionParsesIff | parser.c:310 | `parse_expression` returns `e` from `pos` if and only if the tokens from `pos` spell `e` in the precedence-climbing shape and no binary operator follows |
| ParserSpec.ParsedIsSpelt | parser.c:287-310 | what `parse_expression` returns is well shaped, spelt by the tokens it consumed, and followed by no binary operator |
| ParserSpec.ParseableParts | parser.c:310 | a parseable expression is spelt and shaped as the loosest level needs |
| ParserSpec.ExprStmtParses | parser.c:335-356 | a spelt expression followed by `;` parses as that expression statement, ending after the `;` |
| ParserSpec.PrintStmtParses | parser.c:312-366 | `print`, a spelt expression and `;` parse as that print statement, ending after the `;` |
| ParserSpec.PrintStmtStep | parser.c:312-366 | at `print`, an expression read up to a `;` gives the print statement, ending after the `;` |
| ParserSpec.VarDeclParses | parser.c:368-404 | `var name = e ;` with `e` spelt parses as the declaration of that name with initializer `e`, ending after the `;` |
| ParserSpec.InitializedDeclStep | parser.c:368-404 | at `var name =`, an initializer read up to a `;` gives the declaration with that initializer |
| ParserExamples.SumOperands | parser.c:209-233 | in `1 + 2 + 3`, each number is read as a whole by the tightest level, which stops before the `+` |
| ParserExamples.SumGroupsLeft | parser.c:235-259 | `1 + 2 + 3` parses as `(1 + 2) + 3` and consumes everything up to TT_EOF |
| ParserExamples.SumOfProductOperands | parser.c:209-233 | in `1 + 2 * 3`, the tightest level reads `1` alone and `2 * 3` as one node |
| ParserExamples.ProductBindsTighter | parser.c:209-259 | `1 + 2 * 3` parses as `1 + (2 * 3)` |
| ParserExamples.DoubleNegationNests | parser.c:187-204 | `- - x` parses as `-(-x)` |
| ParserExamples.BareVarDeclParses | parser.c:368-417 | `var x ;` parses as the declaration of `x` with no initializer, and as the one-statement program holding it |
| Parser.ParserState.constructor | parser.c:21-23 | the cursor starts at the first token |
| Parser.ParserState.AtEnd | parser.c:30-33 | the parser is at its end exactly on TT_EOF |
| Parser.ParserState.PrevToken | parser.c:46-50 | the token just consumed |
| Parser.ParserState.CheckKind | parser.c:52-56 | the next token has the kind asked for and is not TT_EOF |
| Parser.ParserState.Advance | parser.c:58-63 | the cursor moves as `ParserSpec.Advance` says, and the method returns the kind it was on |
| Parser.ParserState.Match | parser.c:65-78 | advances by one exactly when one of the kinds matches |
| Parser.ParserState.Synchronize | parser.c:80-100 | the cursor ends at `ParserSpec.Synchronize` |
| Parser.ParserState.ParseExpression | parser.c:310 | the result and cursor are those of `PExpression` |
| Parser.ParserState.ParseBinary | parser.c:209-308 | the result and cursor are those of `PBinary` for the level |
| Parser.ParserState.FoldTurn | parser.c:213-227 | one turn of a level's loop either finishes as `PFold` does or consumes an operator and keeps `PFold` of the whole unchanged |
| Parser.ParserState.ParseOperand | parser.c:209-308 | the result and cursor are those of `POperand` |
| Parser.ParserState.ParseUnary | parser.c:187-204 | the result and cursor are those of `PUnary` |
| Parser.ParserState.ParsePrimary | parser.c:107-182 | the result and cursor are those of `PPrimary` |
| Parser.ParserState.ParsePrintStmt | parser.c:312-333 | the result and cursor are those of `PPrintStmt` |
| Parser.ParserState.ParseExprStmt | parser.c:335-356 | the result and cursor are those of `PExprStmt` |
| Parser.ParserState.ParseStmt | parser.c:358-366 | the result and cursor are those of `PStmt` |
| Parser.ParserState.ParseVarDecl | parser.c:368-390 | the result and cursor are those of the corrected `PVarDecl` |
| Parser.ParserState.ParseDecl | parser.c:392-404 | the result and cursor are those of `PDecl` |
| Parser.ParseTokens | parser.c:406-417 | the returned array holds exactly the successfully parsed declarations, in order |
| Statements.StmtArr.constructor | statements.c:7-13 | `stmt_arr_create` gives an empty array with capacity 10 |
| Statements.StmtArr.Push | statements.c:24-28 | the contents become the old contents followed by the statement, and the capacity grows by doubling |
| Statements.StmtArr.Free | statements.c:15-20 | after `stmt_arr_free`, length and capacity are 0 |
| Printer.BinaryText | expression.c:39-75 | every binary operator prints with one space on each side and no space or parenthesis inside |
| Printer.PrintedCount | expression.c:4-84 | the corrected count is exactly the number of characters printed |
| Printer.GroupingCountAsWritten | expression.c:78-82 | as written, `(nil)` prints 5 characters but reports 1 |
| Printer.GroupingCountShortfall | expression.c:78-82 | as written, a grouping's count falls short by the inner text plus the `(` |
| Printer.PrintLine | expression.c:86-89 | `fprintln_expr` prints the expression's text and a newline, and counts every character |
| Printer.PrintLineAsWritten | expression.c:86-89 | `fprintln_expr` as written prints the text and a newline, and reports every character exactly when the expression holds no grouping; otherwise it reports fewer |
| Printer.CountAsWrittenExactIff | expression.c:4-84 | the as-written count never exceeds the characters printed, and equals them exactly when the expression holds no grouping |
| Printer.GroupingLineAsWritten | expression.c:86-89 | as written, the line `(nil)` and its newline report 2 characters, while the corrected count is 6 |
| Printer.CountCharAppend | expression.c:4-84 | character counts add up over concatenation |
| Printer.ParensCountGroupings | expression.c:4-84 | with plain leaves, the printed `(` and `)` are each exactly as many as the grouping nodes |
| Printer.StringPrintsAsVariable | expression.c:19-20 | a string literal `"a"` prints as `a`, which scans and parses back as the variable `a`, so printing does not round-trip |
| Printer.PrintingForgetsNesting | expression.c:39-75 | binary nodes print without parentheses, so `(a op b) op c` and `a op (b op c)` print the same |
| StringBuf.CStrLen | string.c:28-37 | `strlen` is the index of the first NUL |
| StringBuf.CStrText | string.c:28-37 | the text of a C string contains no NUL |
| StringBuf.CStrOfTerminated | string.c:59-66 | a text without NUL followed by a NUL reads back as itself |
| StringBuf.Str.constructor | string.c:8-14 | `string_create` gives an empty string with capacity 10 |
| StringBuf.Str.MakeAvailable | doubling_array.h:3-10 | growing keeps the contents and reaches `GrownCap` |
| StringBuf.Str.CopyToHead | string.c:34-36 | the `memcpy` at the head appends the copied characters |
| StringBuf.Str.AppendCstr | string.c:28-37 | the contents gain the C string's text, up to its NUL |
| StringBuf.Str.AppendCstrLen | string.c:39-51 | the contents gain the first `dlen` characters, and nothing at all changes when `dlen` is 0 |
| StringBuf.Str.AppendCh | string.c:53-57 | the contents gain one character |
| StringBuf.Str.ToCstr | string.c:59-66 | the storage gets a NUL just past the text, so a text without NUL reads back as itself |
| StringBuf.Str.PopRight | string.c:68-74 | an empty string gives NUL and stays empty; otherwise the old contents are the new ones plus the character returned |
| StringBuf.Str.Reset | string.c:76-79 | the string becomes empty and keeps its storage |
| StringBuf.AppendThenPop | string.c:53-74 | appending a character and popping gives it back and restores the contents |
| Values.CharCode | value.c:146-155 | a character's code is a signed byte, and 0 only for the NUL byte |
| Values.ByteOf | value.c:146-155 | a character is stored as one byte |
| Values.Codes | value.c:146-155 | the codes of a string are its characters' signed byte values, one for one |
| Values.CodesOfCText | value.c:146-155 | a C string text has no zero code |
| Values.LexLessIrreflexive | value.c:146-155 | no string is less than itself |
| Values.LexLessAsymmetric | value.c:146-155 | two strings are never each less than the other |
| Values.LexLessTotal | value.c:146-155 | of two different texts without NUL, one is less than the other |
| Values.LexLessTransitive | value.c:146-155 | the byte-wise order is transitive on texts without NUL |
| Values.LexLessFrom | value.c:148-153 | once the first codes agree, the order is decided by what follows |
| Values.StrLess | value.c:146-155 | the loop computes the lexicographic signed-byte order, where the end of a string counts as 0 |
| Values.StrGreater | value.c:157-166 | the loop computes the same order with the operands swapped |
| Values.StrLessMirrorsGreater | interpreter.c:168-188 | `str_less(a, b)` equals `str_greater(b, a)`, and no string is less than itself |
| Values.NumberCastKeepsTruth | value.c:5-47 | a successful number cast gives a number that casts to itself and has the truth of the original |
| Values.NumberCastFailsIff | value.c:5-25 | `number_cast` fails exactly on Nil and String |
| Values.BoolCastIdempotent | value.c:27-47 | casting to Bool twice is casting once, and a Bool cast to a number and back is unchanged |
| Values.ValueCell.constructor | value.h:13-20 | a cell holds the value given |
| Values.ValueCell.NumberCastInPlace | value.c:5-25 | returns 0 with a Number, or -1 with the value unchanged exactly on Nil and String |
| Values.ValueCell.BoolCastInPlace | value.c:27-47 | the cell becomes the Bool of the value's truth |
| Values.ValueCell.MinusNumber | value.c:49-52 | a Number is negated |
| Values.ValueCell.BangBool | value.c:54-57 | a Bool is negated |
| Values.EqualReflexive | value.c:64-88 | every value equals itself |
| Values.EqualUnspecifiedIff | value.c:64-88 | the answer is unspecified exactly when a Number is compared with Nil or a String |
| Values.EqualNotSymmetric | value.c:64-88 | the left tag decides the coercion, so `true == 2` but not `2 == true` |
| Values.EqualNilOrStringLeft | value.c:64-88 | with Nil or a String on the left, the answer is equality of tag and contents, and `right` is untouched |
| Values.EqualEqual | value.c:64-88 | returns 1 or 0, agreeing with `EqualSpec` wherever the answer is specified; only `right` is cast |
| Values.ArithFailsIff | value.c:116-144 | an arithmetic operation fails exactly when an operand is Nil or String, and a failing `dest` leaves both operands alone |
| Values.ArithSucceeds | value.c:116-144 | on success, `dest` holds the operator applied to both numbers |
| Values.Arith | value.c:116-144 | return code, `dest` and `right` are those of `ArithSpec` |
| Values.PlusStrings | value.c:100-114 | two C strings concatenate into a C string as long as both together |
| Values.StrPlus | value.c:90-98 | allocates one block of the combined length plus 1 in the arena, holding both texts then a 0 byte, and keeps the earlier bytes |
| Values.Plus | value.c:100-114 | return code, `dest` and `right` are those of `PlusSpec`, and a string concatenation uses exactly one new arena block |
| Values.LessMirrorsGreater | value.c:173-195 | `less(a, b)` and `greater(b, a)` agree, failures included |
| Values.LessIrreflexiveAsymmetric | value.c:173-195 | nothing is less than itself, and `less` never holds both ways |
| Values.CompareFailsIff | value.c:173-195 | comparison fails exactly when the operands are not both Strings and one is Nil or a String |
| Values.Compare | value.c:173-195 | return code and operands are those of `CompareSpec` |
| Values.ValueLine | value.c:197-212 | the printed line ends in a newline; Bools print TRUE or FALSE and Nil prints NIL |
| Hashtable.Djb2 | value_hashtable.c:7-13 | the djb2 hash stays below 2^64 |
| Hashtable.Bucket | value_hashtable.c:12 | the bucket index is below 1000 |
| Hashtable.Hash | value_hashtable.c:7-13 | the loop computes `Bucket(key)` |
| Hashtable.Find | value_hashtable.c:49-60 | the lookup finds nothing exactly when no entry of the chain has the key |
| Hashtable.Overwrite | value_hashtable.c:33-38 | the walk replaces the value of every entry for the key, and only those |
| Hashtable.FindOverwriteOther | value_hashtable.c:33-38 | overwriting one key leaves what every other key finds |
| Hashtable.ValueHashtable.constructor | value_hashtable.c:15-21 | every bucket is empty, no key is found, and the arena holds the 8000-byte bucket array |
| Hashtable.ValueHashtable.OverwriteChain | value_hashtable.c:31-38 | the key's bucket becomes its `Overwrite`, and every other bucket is unchanged |
| Hashtable.ValueHashtable.Insert | value_hashtable.c:29-47 | the key's bucket becomes a new entry in front of the overwritten chain, other buckets are unchanged, every entry stays in its key's bucket, and the arena grows by one 32-byte entry |
| Hashtable.ValueHashtable.Get | value_hashtable.c:49-60 | the result is the first value stored for the key, or None |
| Hashtable.InsertThenLookup | value_hashtable.c:29-60 | after inserting a key, looking it up finds the new value, and other keys find what they found before |
| Hashtable.InsertThenGet | value_hashtable.c:29-60 | an insert followed by a get returns the value just inserted, and a different key is unaffected |
| Environment.VarEnv.constructor | var_env.h:10-14 | no name is bound in a new environment |
| Environment.VarEnv.Define | var_env.h:16-18 | the name becomes bound to the value, and every other name keeps its binding |
| Environment.VarEnv.Get | var_env.h:20-26 | the result is the name's binding, or None for an undefined variable |
| Environment.RedefineThenGet | var_env.h:16-26 | defining a name twice and reading it gives the second value |
| Environment.FreshGet | var_env.h:10-26 | in a new environment every name is undefined |
| Interpreter.TagCode | interpreter.c:8 | the `interp_t` tags are the values 0 to 3 |
| Interpreter.TagsAreNotTokenKinds | interpreter.c:143-151 | no tag equals the token kinds NIL or STRING that the code compares it with |
| Interpreter.BangNeverFails | interpreter.c:129-133 | `!` never fails, and gives the Bool negation of its operand's truth |
| Interpreter.MinusFailsIff | interpreter.c:123-128 | `-` fails exactly on Nil or String, and `-(-x)` is `x` for a number |
| Interpreter.NotEqualNegatesEqual | interpreter.c:392-399 | `!=` and `==` succeed together, give Bools, and `!=` is the negation of `==` |
| Interpreter.GroupingTransparent | interpreter.c:452-453 | a grouping evaluates to its inner expression |
| Interpreter.FailurePropagates | interpreter.c:119-120 | a failure or abort of an operand is the outcome of the node, and the right operand is not looked at after the left fails |
| Interpreter.BoolLeftCoercesRight | interpreter.c:156-159 | with a Bool on the left, `==` casts the right operand to Bool and compares the truths |
| Interpreter.EvalBinaryOk | interpreter.c:384-439 | once both operands have values, a binary node combines them |
| Interpreter.NilEqualAborts | interpreter.c:143-146 | as written, `nil == x` reaches `unreachable()`, because the tag is compared with the token kind NIL |
| Interpreter.StringEqualAborts | interpreter.c:148-151 | as written, a String on the left of `==` also reaches `unreachable()` |
| Interpreter.StringLessFails | interpreter.c:209-231 | as written, `<` on two Strings fails: the string branch never runs and the number cast refuses them |
| Interpreter.GreaterIsLess | interpreter.c:408-431 | as written, `>` and `>=` compute `<`, and `<=` is the negation of `<` |
| Interpreter.ArithmeticAborts | interpreter.c:432-437 | arithmetic nodes and variables reach `unreachable()` once their operands have values |
| Interpreter.SimpleIsSpecified | interpreter.c:34-137 | an expression of literals, groupings, `!` and `-` never aborts and never yields an unspecified payload |
| Interpreter.Interp.constructor | interpreter.c:23-30 | a cell holds the value given |
| Interpreter.Interp.Literal | interpreter.c:34-61 | the cell holds the literal's value |
| Interpreter.Interp.NumberCast | interpreter.c:63-83 | returns 0 with a Number, or -1 with the value unchanged exactly on Nil and String |
| Interpreter.Interp.BoolCast | interpreter.c:85-105 | the cell becomes the Bool of its truth |
| Interpreter.Interp.MinusNumber | interpreter.c:107-110 | a Number is negated |
| Interpreter.Interp.BangBool | interpreter.c:112-115 | a Bool is negated |
| Interpreter.EqualEqual | interpreter.c:139-166 | aborts exactly where `EqualSpec` does; otherwise gives its answer and casts `right` as it says |
| Interpreter.Less | interpreter.c:209-231 | returns -1 exactly where `LessSpec` refuses, and otherwise 0 with its answer |
| Interpreter.Interpret | interpreter.c:441-457 | the status and, on success, the value left in the cell are those of `Eval` |
| Interpreter.InterpretUnary | interpreter.c:117-137 | the status and value are those of `Eval` on the unary node |
| Interpreter.InterpretBinary | interpreter.c:384-439 | the status and value are those of `Eval` on the binary node |
| Interpreter.Combine | interpreter.c:391-438 | the status and value are those of `BinarySpec` |
| Interpreter.EqualInto | interpreter.c:392-399 | stores the Bool answer of `equal_equal`, negated for `!=`, or aborts with it |
| Interpreter.LessInto | interpreter.c:400-431 | stores the Bool answer of `less`, negated for `<=`, or fails with it |

## Left out

- Input and output are not modelled:
  - reading the script and the `main.c` driver;
  - `errors.c`, `utils.c` and `facades.h`;
  - `runtime_error` messages;
  - the `token_arr_print` debug dump;
  - `itttostr`.
- The printer and `value_println` take number formatting (`%f`) as a function parameter `fmt`.
- Allocation failure is not modelled. `malloc_or_abort` and `realloc_or_abort` always succeed.
- Numbers are exact `real`s, not IEEE doubles. Rounding, infinities and NaN are not modelled.
- Values.Apply: `x / 0` gives 0 instead of an IEEE infinity or NaN.
- Arena placement is not modelled byte for byte. These are abstract values, not bytes in a `linmem`:
  - lexemes and `str_val` copies;
  - hash-table entries and keys;
  - strings built by `str_plus`.
  
  The arena's length is tracked only for the hash table (its bucket array and one block per entry) and for `str_plus`, whose bytes `Values.StrPlus` writes into the arena.
  The allocations of a token's lexeme and `str_val` (token.c:25 and 31) and of AST nodes and statements (parser.c:109-302) are not accounted for in any arena: tokens and trees are values.
- Hashtable.ValueHashtable.Insert: the key is stored as a string value, not as the caller's pointer. Later changes through that pointer are therefore not modelled.
- `vhtbl_free` (value_hashtable.c:23-27) is not modelled. It calls `free` on a pointer into the arena and then frees the arena again, which cannot be expressed over values.
- `string_free` (string.c:16-19) is not modelled, because releasing storage has no observable effect on values.
- Hashtable.ValueHashtable.Get and Environment.VarEnv.Get return a copy of the stored value rather than a pointer to it, so updates through that pointer are not modelled.
- Memory.Stackmem.Malloc: requires the new length to stay below 2^64. The source would wrap `size_t` there.
- Memory.Linmem.Malloc: requires `len + n` to stay below 2^64. The source would wrap `size_t` there (memory.c:20). The callers `Hashtable.ValueHashtable.Insert`, `Environment.VarEnv.Define` and `Values.StrPlus` carry the same bound.
- `linmem` and `stackmem` growth by `realloc` may move the data. Pointers handed out before a move are not rebased in the C code, and offsets are used here instead.
- Memory.Stackmem.FreeAll: `top` keeps its old value, as in the C code, and no later use of the freed arena is modelled.
- Values.EqualEqual: where the C code reads a union member that was never set, the model does not fix the answer. This happens when a Number is compared with Nil or a String after a failed cast. The contract then promises only 0 or 1.
- Interpreter payloads read from an unset union member are `None`, and every answer built from them is `None` too.
- A character is taken as its low byte, read as a signed 8-bit `char`. Characters outside one byte are not modelled.
- Of `interpreter.c`, `greater`, `plus`, `minus`, `star`, `slash` (interpreter.c:233-382) and `binary_dont_allow` (interpreter.c:305-339) are never called: `interpret_binary` sends arithmetic to `unreachable()`. The model covers them only through `Interpreter.ArithmeticAborts`.
- The `str_less` and `str_greater` of interpreter.c:168-188 are the same code as those of value.c:146-166, and are modelled once, as `Values.StrLess` and `Values.StrGreater`.
- Statement execution and variable expressions in the evaluator are outside this core. `interpret` reaches `unreachable()` on a variable, which `Interpreter.ArithmeticAborts` states.
- Parser preconditions:
  - The parser functions require a token sequence that ends with TT_EOF, which `scanner_parse_tokens` guarantees (`ScannerSpec.ScanWellFormed`).
  - `ParserSpec.PExpression` and the other parsing functions return the failed expression as `None` rather than a NULL pointer.
- Scanner.ScanTokens: the scanner's error flag is computed but, as in the C code, not returned.
- Parser.ParserState.ParseVarDecl follows the corrected `PVarDecl` (see Findings). The C behaviour is `ParserSpec.PVarDeclAsWritten`.
- ParserSpec.PDecl follows the corrected `PVarDecl`, so a failed initializer fails the declaration. The C behaviour is `ParserSpec.PDeclAsWritten`.
- ParserSpec.PProgram follows the corrected `PDecl`. The C behaviour is `ParserSpec.PProgramAsWritten`, which keeps `var x;` for `var x = (1;` (`ParserSpec.ProgramKeepsFailedInitializer`).
- Parser.ParserState.ParseDecl computes the corrected `PDecl`, not `PDeclAsWritten`.
- Parser.ParseTokens computes the corrected `PProgram`, not `PProgramAsWritten`.
- Printer.PrintLine: returns the corrected count of characters printed. `fprintln_expr` as written (expression.c:86-89) returns the as-written count plus one, which is `Printer.PrintLineAsWritten`; the two differ exactly when the expression holds a grouping (`Printer.CountAsWrittenExactIff`, `Printer.GroupingLineAsWritten`).
- Printer.ExprText: printing is not promised to round-trip through the scanner and parser. A string literal prints without its quotes (expression.c:19-20), so `"a"` comes back as the variable `a` (`Printer.StringPrintsAsVariable`), and nested binary nodes lose their grouping (`Printer.PrintingForgetsNesting`).

## Findings

| source | as written | input that shows it | evidently intended | confidence | as-written member | corrected member |
|---|---|---|---|---|---|---|
| token.c:29-34 | for a STRING lexeme of `len` bytes, `str_val` gets `len - 1` bytes but the terminator is written at index `len - 1`, one past the block; a one-byte lexeme wraps `len - 2` to 2^64 - 1 | a lexeme of one byte (an unterminated `"` at the end of the source) or any string literal | a block of `len - 1` bytes with the terminator at `len - 2` | not executed | Tokens.StrValLayoutAsWritten (Tokens.StrValTerminatorOverruns, Tokens.StrValOneByteLexemeWraps) | Tokens.StrValLayoutFor |
| expression.c:78-82 | the grouping case returns only the count of its `)`, dropping the `(` and the inner text | `(nil)` prints 5 characters and reports 1 | the count of every character printed | not executed | Printer.PrintedCountAsWritten (Printer.GroupingCountAsWritten, Printer.GroupingCountShortfall) | Printer.PrintedCount |
| expression.c:86-89 | `fprintln_expr` returns the grouping-short count of expression.c:78-82 plus one for the newline | the line `(nil)` and its newline report 2 characters instead of 6 | the count of every character printed, newline included | not executed | Printer.PrintLineAsWritten (Printer.GroupingLineAsWritten, Printer.CountAsWrittenExactIff) | Printer.PrintLine |
| parser.c:376-383 | a failed initializer leaves it NULL, and the declaration still succeeds when a `;` follows | `var x = (1;` is accepted as `var x;`, and `parse_tokens` keeps it | a failed initializer fails the declaration | not executed | ParserSpec.PVarDeclAsWritten, ParserSpec.PDeclAsWritten, ParserSpec.PProgramAsWritten (ParserSpec.FailedInitializerAccepted, ParserSpec.ProgramKeepsFailedInitializer) | ParserSpec.PVarDecl, ParserSpec.PDecl, ParserSpec.PProgram |
