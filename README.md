# Hello compiler: a Dafny model

Hello is a small imperative language that compiles to Bitcoin script. This
project models the core of its compiler and proves properties of that model:

- the tokeniser (`HelloDll/tokeniser.h`);
- the recursive-descent parser and its builtin tables (`HelloDll/parser.h`,
  `HelloDll/parser.cpp`);
- code generation for each syntax-tree node (`HelloDll/AST.cpp`, `HelloDll/AST.h`);
- the instruction pipeline with its peephole rule, the symbol table, and the
  alt-stack variable allocator (`HelloDll/Hello_compiler.cpp`, `Common/Internals.h`);
- `compile_internal`, the statement loop that drives parsing and generation;
- the Bitcoin script assembler that the Hello tools link in: `ParseScript` and
  `populate_opcode_names_map` (`bitcoin/src/core_read.cpp`);
- the command-line reader of the Hello driver: `args::getopt`, `eof` and
  `parse_error` (`Hello/Hello.cpp`).

The model keeps the source's own form. Code that works step by step is
imperative Dafny: a class whose methods change their fields in place, with
loops and invariants. Each such method is proved to leave exactly the state
that a pure specification function computes from the state it started in:

| class (module) | source | its specification |
|---|---|---|
| `Streams.InputStream` | the `istream` the tokeniser reads | `PeekResult`, `GetResult`, `PutbackResult`, `TellgResult` |
| `Tokenisers.Tokeniser` | `class tokeniser` | the functions of module `Lexer` |
| `Parsers.Parser` | `class Hello_parser` | the functions of module `Grammar` |
| `Pipeline.InstructionPipeline` | `class instruction_pipeline` | `AppendOp`, `AppendAll` with the rule `AsWritten` |
| `Symbols.SymbolTable` | `class symbol_table` | `InsertName`, `NameAt`, `ClearedAsWritten` |
| `Compilers.Compiler` | `class Hello_compiler` and the `generate` members | the functions of modules `Codegen` and `Driver` |
| `CoreRead.OpNameTable` | the static `mapOpNames` | `AllNames`, `ParseScriptSpec` |
| `Getopt.Args` | `class args` | `Next` |

The properties are then proved about the specification functions:

- the tokeniser's lexical rules, token by token;
- the shape of the trees the parser builds: left-associative operators,
  statement sequences in source order, and the number of builtin arguments;
- that the allocator's opcode sequences, run on a model of the script
  machine's main stack and alt-stack, read, overwrite and create exactly the
  variable they name;
- that the peephole rule as written can delete an instruction the code
  needs, and that the corrected rule never changes what the emitted code
  computes;
- that `compile_internal` stops at the first failing statement with exactly
  one message;
- that `ParseScript` is the concatenation of its words' bytes, with the push
  lengths checked;
- the cursor discipline of `getopt`.

Three things the source does are worth knowing before reading the proofs:

- `eat_statement` looks up a builtin call in the wrong table. It checks the
  native table, then reads the call with the special table
  (`HelloDll/parser.h:264-265`). The two tables are disjoint, so a statement
  that starts with a native builtin always fails `eat_native_function`'s
  assertion. The model keeps this behaviour (`Grammar.NativeStatementFails`).
- `native_function::generate` always returns false. So in a binary
  operation with a builtin call on the left, the right operand is never
  generated (`Codegen.NativeLeftSkipsRight`).
- The peephole in `operator<<(opcodetype)` ignores the option word and
  compares an opcode with itself (`HelloDll/Hello_compiler.cpp:57-91`). So
  it removes whatever opcode comes before each TOALTSTACK or FROMALTSTACK.
  The compiler is modelled with this rule (`Pipeline.AppendOpAsWritten`).
  `Codegen` takes the rule as part of its context (`Ctx.peephole`). Its
  stack-effect lemmas, `EmitRuns` and the `*Runs` lemmas built on it, are
  proved for the corrected rule (`Pipeline.Intended`).

The script machine (`StackMachine`) runs only the opcodes the allocator and
peephole use:
- DUP, DROP, SWAP, ROLL, TOALTSTACK and FROMALTSTACK;
- data pushes and OP_0.

The Bitcoin library functions that the core calls, such as `GetOpName`,
`CScriptNum`, `ParseHex`, `HexStr`, `IsHex`, `EncodeOP_N`, `ReadLE16/32` and
`atoi`, are not part of this model's source files. Module `Script` defines
them from their documented behaviour.

## Model

| member | source | states |
|---|---|---|
| Internals.SizeT | HelloDll/Hello_compiler.cpp:88 | converting an int to size_t wraps modulo 2^64: values in range are unchanged, and a negative value becomes value + 2^64 (so -1 becomes SIZE_MAX) |
| Lexer.Start | HelloDll/tokeniser.h:256-261 | a tokeniser constructed on a stream is valid and its pushback slot is empty |
| Lexer.Partner | HelloDll/tokeniser.h:142-197 | exactly the characters = < > \| & . ! can begin a two-character operator |
| Lexer.TellPoint | HelloDll/tokeniser.h:343-351 | with a token buffered, tellg returns the position saved with it and changes nothing; otherwise it returns the stream position, line number and offset from the line start, and leaves the text and position as they were |
| Lexer.Getch | HelloDll/tokeniser.h:89-95 | getch succeeds exactly when the stream is good and not at the end; it then returns the current character and moves one on; otherwise it raises "Unexpected EOF" |
| Lexer.EatRun | HelloDll/tokeniser.h:116-131 | f_eat's loop only reads on: its result is the accumulator followed by exactly the characters between the old and the new position |
| Lexer.EatRunAccepts | HelloDll/tokeniser.h:116-131 | every character f_eat's loop collects is accepted by the character class |
| Lexer.EatRunStops | HelloDll/tokeniser.h:119-130 | on k accepted characters followed by a refused one, f_eat's loop collects exactly those k characters, puts the refused one back, and stops just before it |
| Lexer.EatRunToEnd | HelloDll/tokeniser.h:119-130 | when every remaining character is accepted, the loop takes them all; the get past the end sets failbit, and putback clears only eofbit |
| Lexer.FEat | HelloDll/tokeniser.h:115-134 | when f_eat succeeds, its token has the requested type and is exactly the non-empty run of characters it read; any failure is an abort (the "at least one character" assertion) |
| Lexer.FEatHex | HelloDll/tokeniser.h:105-113 | when f_eat_Hex succeeds, its _hex token is the even-length run of characters after the 'x' |
| Lexer.FEatHexDigits | HelloDll/tokeniser.h:105-113 | after an 'x' followed by k hex digits: k = 0 aborts, odd k is the "even number of digits" parse error, and even k > 0 gives a _hex token of exactly those digits |
| Lexer.WsLoop | HelloDll/tokeniser.h:309-333 | ws's loop only reads on and never decreases the line count |
| Lexer.Ws | HelloDll/tokeniser.h:309-333 | ws only reads on and never decreases the line count |
| Lexer.WsStep | HelloDll/tokeniser.h:314-329 | one turn over a skipped character: a newline is counted and ends a comment, '#' starts one, and the position moves by one |
| Lexer.WsSkipsBlanks | HelloDll/tokeniser.h:309-333 | outside a comment, ws skips exactly the run of white space before the next token |
| Lexer.BlanksEndCounts | HelloDll/tokeniser.h:317-321 | skipping k blanks moves k characters on and adds the number of newlines among them to the line count |
| Lexer.WsSkipsCommentText | HelloDll/tokeniser.h:322-329 | inside a comment, ws skips up to and including the next newline, counts that newline, and goes on as outside a comment |
| Lexer.WsSkipsComment | HelloDll/tokeniser.h:309-333 | a '#' comment that ends in a newline is skipped whole and counted as one line |
| Lexer.LexOperator | HelloDll/tokeniser.h:142-197 | an operator character gives a valid token and only reads on, unless it fails |
| Lexer.LexNumber | HelloDll/tokeniser.h:213-219 | a digit gives a valid token and only reads on, unless it fails |
| Lexer.LexWord | HelloDll/tokeniser.h:220-234 | a letter or '$' gives a valid token and only reads on, unless it fails |
| Lexer.LexFrom | HelloDll/tokeniser.h:140-240 | the switch of get_ftoken gives a valid token and only reads on, unless it fails |
| Lexer.GetFtoken | HelloDll/tokeniser.h:136-241 | when get_ftoken succeeds, its token is valid and at least one character has been consumed |
| Lexer.GetToken | HelloDll/tokeniser.h:243-253 | when get_token succeeds, its token is valid, the slot is empty, and the tokeniser has moved strictly on |
| Lexer.GetTokenAtToken | HelloDll/tokeniser.h:136-141 | on a token's first character ws does nothing, and get_token dispatches on that character |
| Lexer.TwoCharOperator | HelloDll/tokeniser.h:142-197 | == <= >= \|\| && .. != are read as one token of two characters, ahead of their one-character prefix |
| Lexer.LoneOperator | HelloDll/tokeniser.h:142-197 | = < > \| & ! without their partner are one-character tokens, and eofbit is set exactly when the text ends there |
| Lexer.LoneDot | HelloDll/tokeniser.h:182-189 | a '.' not followed by '.' is the "Unexpected character '.'" parse error |
| Lexer.SingleCharacter | HelloDll/tokeniser.h:198-211 | each of , ~ + - % ( ) [ ] { } : ; is a one-character _std token |
| Lexer.UnexpectedCharacterFails | HelloDll/tokeniser.h:235-239 | any other character that starts neither a number nor a word is the "Unexpected character" parse error naming it |
| Lexer.StarSlashUnderscoreRejected | HelloDll/tokeniser.h:235-239 | '*', '/' and '_' cannot start a token |
| Lexer.WordStartsApart | HelloDll/tokeniser.h:142-220 | digits, letters and '$' are neither operators nor single-character tokens |
| Lexer.GetTokenNumber | HelloDll/tokeniser.h:213-219 | a digit starts a number |
| Lexer.GetTokenWord | HelloDll/tokeniser.h:220-234 | a letter or '$' starts a word |
| Lexer.IntegerToken | HelloDll/tokeniser.h:213-219 | k digits not starting "0x" give an _integer token of exactly those digits, with the position k characters on |
| Lexer.HexToken | HelloDll/tokeniser.h:215-216 | "0x" followed by k hex digits gives a _hex token of the digits alone when k is even, and the odd-digits parse error when k is odd |
| Lexer.EmptyHexAborts | HelloDll/tokeniser.h:105-113 | "0x" with no hex digit after it fails f_eat's assertion |
| Lexer.NameToken | HelloDll/tokeniser.h:220-234 | a letter and the name characters after it: one of the nine keywords is a _std token, any other word a _name token |
| Lexer.ExternToken | HelloDll/tokeniser.h:220-234 | '$' and a name give an _extern token of the name without its '$', even when the name is a keyword |
| Lexer.DollarAloneAborts | HelloDll/tokeniser.h:220-234 | a '$' with no name character after it fails f_eat's assertion |
| Lexer.Peek | HelloDll/tokeniser.h:263-271 | when peek succeeds, its token is valid and sits in the slot, and the tokeniser has not moved backwards |
| Lexer.PeekThenGet | HelloDll/tokeniser.h:243-271 | a second peek returns the same token and changes nothing; get_token then returns that token and empties the slot |
| Lexer.PeekSavesPosition | HelloDll/tokeniser.h:263-269 | peek on an empty slot saves the position from before the white space that precedes the token |
| Lexer.PushTokenSlot | HelloDll/tokeniser.h:273-278 | push_token fills an empty slot, and raises the "only one token" parse error when the slot is full |
| Lexer.EatTokenType | HelloDll/tokeniser.h:280-292 | eat_token_type succeeds exactly when the next token has the requested type, and then the tokeniser has moved strictly on; a wrong token of type _name is an abort, because formatting it for the message indexes one past the end of token_type_names |
| Lexer.EatToken | HelloDll/tokeniser.h:296-305 | when eat(token) succeeds, the tokeniser has moved strictly on |
| Lexer.Eat | HelloDll/tokeniser.h:307 | when eat(string) succeeds, the tokeniser has moved strictly on |
| Lexer.EatComparesTypesOnly | HelloDll/tokeniser.h:36-42 | eat(string) accepts any _std token whatever its text, because token inequality compares types only; it rejects every token of another type |
| Lexer.Eof | HelloDll/tokeniser.h:335-341 | eof never moves the stream position or changes the text |
| Tokenisers.Tokeniser.constructor | HelloDll/tokeniser.h:256-261 | line 0, the line starting at offset 0, an empty slot |
| Tokenisers.Tokeniser.Tellg | HelloDll/tokeniser.h:343-351 | returns the point and leaves the state TellPoint gives |
| Tokenisers.Tokeniser.Getch | HelloDll/tokeniser.h:89-95 | reads in place exactly as Lexer.Getch specifies, raising the same error |
| Tokenisers.Tokeniser.FEat | HelloDll/tokeniser.h:116-134 | the loop of f_eat, proved to leave the token and stream state of Lexer.FEat |
| Tokenisers.Tokeniser.FEatHex | HelloDll/tokeniser.h:105-113 | leaves the token and stream state of Lexer.FEatHex |
| Tokenisers.Tokeniser.Ws | HelloDll/tokeniser.h:309-333 | the loop of ws, proved to leave the state of Lexer.Ws |
| Tokenisers.Tokeniser.GetFtoken | HelloDll/tokeniser.h:136-241 | leaves the token and state of Lexer.GetFtoken |
| Tokenisers.Tokeniser.GetToken | HelloDll/tokeniser.h:243-253 | leaves the token and state of Lexer.GetToken |
| Tokenisers.Tokeniser.Peek | HelloDll/tokeniser.h:263-271 | leaves the token and state of Lexer.Peek |
| Tokenisers.Tokeniser.PushToken | HelloDll/tokeniser.h:273-278 | leaves the state of Lexer.PushToken |
| Tokenisers.Tokeniser.EatTokenType | HelloDll/tokeniser.h:280-292 | leaves the token, state and failure (an abort for an unexpected _name) of Lexer.EatTokenType |
| Tokenisers.Tokeniser.EatAny | HelloDll/tokeniser.h:294 | eat() discards the next token, or raises get_token's error |
| Tokenisers.Tokeniser.EatToken | HelloDll/tokeniser.h:296-305 | leaves the state of Lexer.EatToken |
| Tokenisers.Tokeniser.Eat | HelloDll/tokeniser.h:307 | leaves the state of Lexer.Eat |
| Tokenisers.Tokeniser.Eof | HelloDll/tokeniser.h:335-341 | returns what Lexer.Eof returns, moving nothing |
| Builtins.Lookup | HelloDll/parser.cpp:12-48 | find succeeds exactly for a name in the table, and returns that name's entry |
| Builtins.TablesDisjoint | HelloDll/parser.cpp:12-48 | no name is both a special and a native function |
| Ast.Append | HelloDll/AST.cpp:244-252 | append always leaves a sequence node |
| Ast.AppendOrder | HelloDll/AST.cpp:244-260 | append keeps the sequence well formed, and the appended node comes last in the order generate visits |
| Ast.AppendEachOrder | HelloDll/AST.cpp:244-260 | appending statements one by one makes generate visit them in append order |
| Ast.AppendEachShape | HelloDll/AST.cpp:244-252 | the first statement appended to an empty sequence becomes `a`, the second becomes `b`, and later ones nest under `b` |
| Ast.AppendEachKeepsFirst | HelloDll/AST.cpp:246-247 | once `a` is set, later appends never change it |
| Ast.AppendEachKeepsSecond | HelloDll/AST.cpp:248-251 | once `b` is set it stays set |
| Ast.ChainItems | HelloDll/AST.cpp:251 | a chain of nested sequences holds at least one statement |
| Ast.AppendBuilt | HelloDll/AST.cpp:244-252 | appending a statement to a built sequence keeps it built and adds exactly that statement at the end |
| Ast.BuiltCount | HelloDll/parser.h:200-205 | in a built sequence, `a` is null exactly when it is empty, `b` is null exactly when it holds at most one statement, and `a` is the first statement |
| Grammar.Lookahead | HelloDll/tokeniser.h:263-271 | with a token buffered, peek returns it and changes nothing; otherwise a success leaves a valid token in the slot; no streampoint is recorded |
| Grammar.Expect | HelloDll/tokeniser.h:307 | when eat(string) succeeds the parser has moved strictly on; with a token buffered it succeeds exactly when that token is _std |
| Grammar.ExpectToken | HelloDll/tokeniser.h:296-305 | when eat(token) succeeds the parser has moved strictly on; with a token buffered it succeeds exactly when the types agree |
| Grammar.ExpectKind | HelloDll/tokeniser.h:280-292 | eat_token_type returns a token of the requested type and moves strictly on; with a token buffered it returns that token when the type agrees, and otherwise raises "Unexpected token" naming it, or aborts when that token is a _name |
| Grammar.SkipWs | HelloDll/tokeniser.h:309-333 | ws never moves back and records no streampoint |
| Grammar.DeclareStreampoint | HelloDll/parser.h:19-24 | declare_streampoint appends exactly one point, the buffered token's saved position when there is one, and touches no token |
| Grammar.Value | HelloDll/parser.h:26-32 | eat_value yields a constant node and records no streampoint |
| Grammar.ValueKeepsOtherTokens | HelloDll/parser.h:26-32 | a token that is not a number is left in place, yet still becomes a constant of its own type, so `x = ;` assigns the constant ";" |
| Grammar.NativeCall | HelloDll/parser.h:39-62 | eat_native_function consumes input and builds a call node whose name is in the table and whose opcode is that name's opcode |
| Grammar.NativeCallArgs | HelloDll/parser.h:39-62 | the call node holds the name, its opcode, and the arguments the loop reads for the name's arity |
| Grammar.NativeCallArity | HelloDll/parser.h:44-58 | a builtin of arity k >= 0 gets exactly k arguments, each a numeric expression |
| Grammar.Args | HelloDll/parser.h:50-58 | the argument loop never moves back, records no streampoint, and yields a sequence node |
| Grammar.ArgsStep | HelloDll/parser.h:55-57 | one turn of the loop reads one expression and appends it |
| Grammar.ArgsCount | HelloDll/parser.h:50-58 | with a fixed arity n, starting at argument i, the loop reads exactly n - i numeric expressions |
| Grammar.VariadicStopsAtParen | HelloDll/parser.h:52-53 | with arity -1 (SIZE_MAX once cast), a ")" ends the argument list whatever has been read so far |
| Grammar.Factor | HelloDll/parser.h:67-92 | eat_factor yields a numeric expression node and records no streampoint |
| Grammar.ExternFactorFails | HelloDll/parser.h:82-88 | a `$name` factor is always the "Unexpected token" parse error, because eat_name refuses an _extern token |
| Grammar.Term | HelloDll/parser.h:94-105 | eat_term yields a numeric expression |
| Grammar.TermRest | HelloDll/parser.h:97-103 | eat_term's loop yields a numeric expression |
| Grammar.TermRestFoldsLeft | HelloDll/parser.h:94-105 | the operators * / % \|\| group to the left: the first operand is the bottom of the left spine, so a*b*c is (a*b)*c |
| Grammar.Expression | HelloDll/parser.h:107-118 | eat_expression yields a numeric expression |
| Grammar.ExpressionRest | HelloDll/parser.h:110-116 | eat_expression's loop yields a numeric expression |
| Grammar.ExpressionRestFoldsLeft | HelloDll/parser.h:107-118 | + and - group to the left: the first operand is the bottom of the left spine, so a-b-c is (a-b)-c |
| Grammar.LeftSpineTrans | HelloDll/parser.h:107-118 | a left-grouped chain stays left-grouped when extended by the loop |
| Grammar.Comparison | HelloDll/parser.h:174-187 | eat_comparison yields a binary node whose operator is a comparison between two numeric expressions |
| Grammar.ComparisonNeedsOperator | HelloDll/parser.h:178-184 | when the token after the first expression is not a comparison operator, eat_comparison raises a parse error naming its text; when it succeeds, that token is the node's operator |
| Grammar.LogicalExpression | HelloDll/parser.h:141-152 | eat_logical_expression yields a condition node |
| Grammar.LogicalValue | HelloDll/parser.h:154-172 | eat_logical_value yields a condition node |
| Grammar.Block | HelloDll/parser.h:191-206 | eat_block consumes input and never drops a streampoint |
| Grammar.BlockRest | HelloDll/parser.h:195-198 | eat_block's loop yields a sequence |
| Grammar.BlockRestBuilt | HelloDll/parser.h:194-198 | eat_block's loop appends statements only, and its sequence is built by append |
| Grammar.BlockShape | HelloDll/parser.h:191-206 | eat_block returns null for no statement, the statement itself for one, and a sequence for two or more; every item is a statement |
| Grammar.BuiltShape | HelloDll/parser.h:200-205 | the three return cases of eat_block, stated for any sequence built by append |
| Grammar.Conditional | HelloDll/parser.h:208-225 | eat_conditional consumes input, yields an if node whose condition is a condition, and declares at least two streampoints |
| Grammar.ElsePart | HelloDll/parser.h:217-224 | the else part keeps the condition, the then-block and both points, and only decides `b` |
| Grammar.ElseBlock | HelloDll/parser.h:221-222 | the else block keeps the condition, the then-block and both points |
| Grammar.Loop | HelloDll/parser.h:227-234 | eat_loop consumes input, yields a for node, and declares at least two streampoints |
| Grammar.LoopRange | HelloDll/parser.h:230-232 | the range keeps the loop variable's name and the first point, and declares at least one more point |
| Grammar.LoopBody | HelloDll/parser.h:230-233 | the block is read after the second point; the name, the bounds and the first point are kept; the bounds are ints, and a bound an int cannot hold is an abort once the `]` has been read |
| Grammar.Assignment | HelloDll/parser.h:236-245 | eat_assignment yields an assignment of a numeric expression, and records exactly its two points in order |
| Grammar.Assert | HelloDll/parser.h:247-257 | eat_assert yields an assertion of a condition, and records exactly its two points in order |
| Grammar.Statement | HelloDll/parser.h:259-274 | eat_statement consumes input and never drops a streampoint |
| Grammar.Dispatch | HelloDll/parser.h:262-271 | each branch of the dispatch consumes input |
| Grammar.StatementShape | HelloDll/parser.h:259-274 | a statement that parses is an assertion, a conditional, a loop or an assignment |
| Grammar.DispatchShape | HelloDll/parser.h:262-271 | the same, for each branch of the dispatch |
| Grammar.NativeStatementFails | HelloDll/parser.h:264-265 | a statement that starts with a native builtin never parses: a _name token fails the special-table assertion, and any other token is the "Unexpected token" parse error |
| Grammar.NativeDispatchFails | HelloDll/parser.h:264-265 | the native branch of the dispatch always fails, in the same two ways |
| Grammar.SpecialStatementIsAssignment | HelloDll/parser.h:262-271 | a statement starting with a special builtin's name is read as an assignment to that name |
| Grammar.SpecialDispatch | HelloDll/parser.h:270-271 | such a statement takes the assignment branch |
| Grammar.AppendArithmetic | HelloDll/parser.h:57 | appending a numeric argument keeps every argument numeric and adds one |
| Grammar.AppendStatement | HelloDll/parser.h:197 | appending a statement keeps every item a statement |
| Parsers.Parser.constructor | HelloDll/parser.h:276-278 | a tokeniser on the stream, no streampoints |
| Parsers.Parser.DeclareStreampoint | HelloDll/parser.h:19-24 | returns and records the point Grammar.DeclareStreampoint gives |
| Parsers.Parser.Value | HelloDll/parser.h:26-32 | returns the node and leaves the state of Grammar.Value |
| Parsers.Parser.NativeCall | HelloDll/parser.h:39-62 | returns the node and leaves the state of Grammar.NativeCall |
| Parsers.Parser.Args | HelloDll/parser.h:50-58 | the argument loop, proved to give Grammar.Args |
| Parsers.Parser.Factor | HelloDll/parser.h:67-92 | returns the node and leaves the state of Grammar.Factor |
| Parsers.Parser.Term | HelloDll/parser.h:94-105 | the loop of eat_term, proved to give Grammar.Term |
| Parsers.Parser.Expression | HelloDll/parser.h:107-118 | the loop of eat_expression, proved to give Grammar.Expression |
| Parsers.Parser.Comparison | HelloDll/parser.h:174-187 | gives Grammar.Comparison |
| Parsers.Parser.LogicalExpression | HelloDll/parser.h:141-152 | gives Grammar.LogicalExpression |
| Parsers.Parser.LogicalValue | HelloDll/parser.h:154-172 | gives Grammar.LogicalValue |
| Parsers.Parser.Block | HelloDll/parser.h:191-206 | the loop of eat_block, proved to give Grammar.Block |
| Parsers.Parser.Conditional | HelloDll/parser.h:208-225 | gives Grammar.Conditional |
| Parsers.Parser.ElsePart | HelloDll/parser.h:217-224 | gives Grammar.ElsePart |
| Parsers.Parser.ElseBlock | HelloDll/parser.h:221-222 | gives Grammar.ElseBlock |
| Parsers.Parser.Loop | HelloDll/parser.h:227-234 | gives Grammar.Loop |
| Parsers.Parser.LoopRange | HelloDll/parser.h:230-232 | gives Grammar.LoopRange |
| Parsers.Parser.LoopBody | HelloDll/parser.h:230-233 | gives Grammar.LoopBody, including its abort for a bound outside the int range |
| Parsers.Parser.Assignment | HelloDll/parser.h:236-245 | gives Grammar.Assignment |
| Parsers.Parser.Assert | HelloDll/parser.h:247-257 | gives Grammar.Assert |
| Parsers.Parser.Statement | HelloDll/parser.h:259-274 | gives Grammar.Statement |
| Allocator.Repeat | HelloDll/Hello_compiler.cpp:251-263 | a counted loop of emissions emits k copies of its body, so k times the body's length |
| Allocator.RunFromAlt | HelloDll/Hello_compiler.cpp:283-286 | k FROMALTSTACKs move the top k alt-stack values onto the main stack in reverse order |
| Allocator.RunToAlt | HelloDll/Hello_compiler.cpp:259-263 | k TOALTSTACKs move the top k main-stack values onto the alt-stack in reverse order |
| Allocator.RunSwapToAlt | HelloDll/Hello_compiler.cpp:288-291 | the SWAP, TOALTSTACK loop sinks the copy under the values it returns to the alt-stack, in their original order |
| Allocator.PopSlots | HelloDll/Hello_compiler.cpp:283-286 | popping the slots from idx upwards leaves slot idx on top of the main stack, with the higher slots beneath it |
| Allocator.CopyRequestsCorrect | HelloDll/Hello_compiler.cpp:272-292 | copy_to_top_of_stack's opcodes keep its stated post-condition: the alt-stack is unchanged and a copy of slot idx is on top of the main stack |
| Allocator.RollRequestsThen | HelloDll/Hello_compiler.cpp:257-258 | the roll is a CScriptNum push followed by ROLL |
| Allocator.RollRequestsCorrect | HelloDll/Hello_compiler.cpp:257-258 | `k ROLL` brings the value under the top k values up to the top |
| Allocator.AssignRequestsCorrect | HelloDll/Hello_compiler.cpp:242-264 | assign_from_top_of_stack's opcodes for a known slot keep its stated post-condition: the value on top of the main stack replaces slot idx, and only slot idx |
| Allocator.AssignPushesBack | HelloDll/Hello_compiler.cpp:259-263 | the closing TOALTSTACK loop puts the slots back with the new value in slot idx |
| Allocator.NewVariableRequestsCorrect | HelloDll/Hello_compiler.cpp:265-269 | for a new variable, the value on top of the main stack becomes the new highest slot |
| Pipeline.Tag | HelloDll/Hello_compiler.cpp:88 | each instruction is tagged with the index of the last statement declared, or SIZE_MAX when none has been declared |
| Pipeline.Codes | Common/Internals.h:41-58 | the code of each instruction, in order |
| Pipeline.AsWrittenPeepholeShape | HelloDll/Hello_compiler.cpp:70-91 | the rule as written removes at most the instruction just before a TOALTSTACK or FROMALTSTACK, never touches other opcodes, and always appends the new one |
| Pipeline.AsWrittenPeepholeLosesRead | HelloDll/Hello_compiler.cpp:57-60 | with the self-comparison, reading the only variable emits FROMALTSTACK, TOALTSTACK: the DUP is dropped, and the main stack is left without the copy the unoptimised code leaves |
| Pipeline.AsWrittenCopyOne | HelloDll/Hello_compiler.cpp:70-91 | under the as-written rule, FROMALTSTACK, DUP, TOALTSTACK is emitted as FROMALTSTACK, TOALTSTACK |
| Pipeline.AppendAllOp | HelloDll/Hello_compiler.cpp:70-91 | under either rule, emitting a sequence is emitting its first opcode through the peephole, then the rest |
| Pipeline.AppendAllData | HelloDll/Hello_compiler.cpp:93-107 | data pushes are appended unchanged |
| Pipeline.AppendAllConcat | HelloDll/Hello_compiler.cpp:70-107 | under either rule, emitting a + b is emitting a, then b |
| Pipeline.AppendAllUnoptimised | HelloDll/Hello_compiler.cpp:73 | under the corrected rule without OPTIMISER_ON every request is appended exactly as given |
| Pipeline.TransferUndone | HelloDll/Hello_compiler.cpp:75-85 | the second transfer of a FROMALTSTACK/TOALTSTACK pair undoes the first |
| Pipeline.TransferPairIdentity | HelloDll/Hello_compiler.cpp:75-85 | a cancelling pair that runs has no effect on either stack |
| Pipeline.AppendOpPreservesRun | HelloDll/Hello_compiler.cpp:70-91 | the corrected rule never changes what the emitted code computes, whenever the unoptimised code runs |
| Pipeline.AppendAllPreservesRun | HelloDll/Hello_compiler.cpp:70-107 | under the corrected rule, for a whole request sequence, the pipeline computes what the requests compute, whenever they run |
| Pipeline.IntCode | HelloDll/Hello_compiler.cpp:109-117 | operator<<(int) emits OP_0 exactly for zero; a data push it emits has n as its CScriptNum value |
| Pipeline.InstructionPipeline.constructor | Common/Internals.h:80 | an empty pipeline and statement table, with the compiler's option word |
| Pipeline.InstructionPipeline.DeclareStmt | HelloDll/Hello_compiler.cpp:68 | appends the statement and changes nothing else |
| Pipeline.InstructionPipeline.EmitOp | HelloDll/Hello_compiler.cpp:57-91 | the pipeline becomes AppendOp of the old one under the as-written rule: the option word is ignored, any opcode instruction just before a TOALTSTACK or FROMALTSTACK is dropped, and the new opcode is appended tagged with the last statement |
| Pipeline.InstructionPipeline.EmitData | HelloDll/Hello_compiler.cpp:93-107 | appends one tagged data push |
| Pipeline.InstructionPipeline.EmitInt | HelloDll/Hello_compiler.cpp:109-117 | appends IntCode(n), tagged |
| Pipeline.InstructionPipeline.EmitAll | HelloDll/Hello_compiler.cpp:70-107 | the pipeline becomes AppendAll of the old one under the as-written rule |
| Pipeline.InstructionPipeline.EmitTimes | HelloDll/Hello_compiler.cpp:251-263 | a counted loop of emissions gives AppendAll of the body repeated, under the as-written rule |
| Symbols.InsertFresh | HelloDll/Hello_compiler.cpp:131-138 | a new name gets slot `size` and is appended to the names; every other name keeps its slot; the layout is kept |
| Symbols.InsertPresentAborts | HelloDll/Hello_compiler.cpp:133-134 | inserting a name already present fails the assertion on map::insert's result |
| Symbols.InsertKeepsConsistent | HelloDll/Hello_compiler.cpp:131-138 | every successful insert keeps the map and the vector in step |
| Symbols.Cleared | Common/Internals.h:25-39 | the reset the layout needs leaves both containers empty and consistent |
| Symbols.ClearAsWrittenBreaksInsert | Common/Internals.h:32 | after the inherited map clear of a non-empty table, the table is inconsistent and the next insert fails its size assertion |
| Symbols.ClearThenInsert | Common/Internals.h:25-39 | after the corrected reset, the first insert takes slot 0 |
| Symbols.SymbolTable.constructor | Common/Internals.h:25-27 | an empty map and an empty name vector |
| Symbols.SymbolTable.Size | Common/Internals.h:29 | size is the number of names in the map |
| Symbols.SymbolTable.Insert | HelloDll/Hello_compiler.cpp:131-138 | performs InsertName in place and returns its slot, or raises its failure |
| Symbols.SymbolTable.At | HelloDll/Hello_compiler.cpp:125-129 | at asserts that the sizes agree and then indexes the vector, which throws out_of_range past the end |
| Symbols.SymbolTable.Clear | Common/Internals.h:32 | clear empties the map only |
| Symbols.SymbolTable.Reset | Common/Internals.h:89-92 | empties both containers |
| Codegen.IndexOfKnown | HelloDll/Hello_compiler.cpp:220-228 | index_of on a known name returns its slot and true, and changes nothing |
| Codegen.IndexOfUnknown | HelloDll/Hello_compiler.cpp:220-228 | index_of on an unknown name returns the old size and false, and the table grows by exactly that name |
| Codegen.AssignFromTop | HelloDll/Hello_compiler.cpp:244-270 | after assign_from_top_of_stack the name has a slot, every earlier name keeps its slot, and the table stays consistent |
| Codegen.CopyToTop | HelloDll/Hello_compiler.cpp:274-292 | copy_to_top_of_stack succeeds exactly for a known name; an unknown name is inserted and then raised as "Uninitialised variable" |
| Codegen.AssignValue | HelloDll/Hello_compiler.cpp:230-240 | after assign_value_to_variable the name has a slot and every earlier name keeps its own |
| Codegen.Gen | HelloDll/AST.cpp:22-314 | generate never loses a variable's slot and never drops a declared statement |
| Codegen.GenConst | HelloDll/AST.cpp:22-37 | a constant succeeds (with true) exactly when it is hex or an integer an int can hold; an integer outside the int range is an abort that emits nothing; neither table is touched |
| Codegen.GenRValue | HelloDll/AST.cpp:51-61 | reading a value declares no statement and returns true whenever it does not raise |
| Codegen.GenBinary | HelloDll/AST.cpp:101-160 | binary_op keeps every slot and every declared statement |
| Codegen.GenAssign | HelloDll/AST.cpp:75-88 | assign_op keeps every slot and every declared statement |
| Codegen.GenIf | HelloDll/AST.cpp:173-190 | if_then_else keeps every slot and every declared statement |
| Codegen.GenBranches | HelloDll/AST.cpp:179-189 | the branches keep every slot and every declared statement |
| Codegen.GenFor | HelloDll/AST.cpp:208-231 | for_loop keeps every slot and every declared statement |
| Codegen.GenNative | HelloDll/AST.cpp:274-287 | a builtin call never returns true |
| Codegen.GenAssertion | HelloDll/AST.cpp:302-314 | without ASSERTS_ON an assertion emits nothing and returns true |
| Codegen.GenSequence | HelloDll/AST.cpp:254-260 | sequence keeps every slot and every declared statement |
| Codegen.GenLoop | HelloDll/AST.cpp:214-228 | the loop keeps every slot and every declared statement, and after at least one turn `i` has a slot |
| Codegen.LoopTurn | HelloDll/AST.cpp:216-218 | one turn gives `i` a slot and keeps every earlier slot and declared statement |
| Codegen.GenList | HelloDll/AST.cpp:254-260 | generating statements one after another keeps the table consistent |
| Codegen.GenListAppend | HelloDll/AST.cpp:254-260 | generating xs + ys is generating xs, then ys only if xs all returned true |
| Codegen.GenSequenceInOrder | HelloDll/AST.cpp:244-260 | sequence::generate visits the non-null statements in order and stops after the first that does not return true |
| Codegen.LoopValuesCount | HelloDll/AST.cpp:212-229 | the loop runs last-first+1 times with i = first, first+1, ... when first <= last, and not at all otherwise |
| Codegen.AscendingSpec | HelloDll/AST.cpp:214 | the upward loop visits lo, lo+1, ..., hi |
| Codegen.AscendingFirst | HelloDll/AST.cpp:214 | the upward loop starts at lo and continues from lo+1 |
| Codegen.DescendingFirst | HelloDll/AST.cpp:223 | the downward loop starts at hi and continues from hi-1 |
| Codegen.LoopValuesLast | HelloDll/AST.cpp:212-229 | when first <= last, the last value assigned to `i` is last |
| Codegen.AssignEach | HelloDll/AST.cpp:216 | assigning each loop value keeps every slot and the table's layout, declares nothing, and gives `i` a slot |
| Codegen.GenLoopEmptyBlock | HelloDll/AST.cpp:217-227 | with a null block the loop only assigns, and returns the ok it was given |
| Codegen.GenForEmptyBlock | HelloDll/AST.cpp:208-231 | a for loop with a null block declares its statement and only assigns its values to `i` |
| Codegen.EmitRuns | HelloDll/Hello_compiler.cpp:70-107 | under the corrected peephole, appending code that runs keeps the result of the code before it |
| Codegen.EmitIntRuns | HelloDll/Hello_compiler.cpp:109-117 | operator<<(int) pushes the CScriptNum encoding of n |
| Codegen.AssignFromTopRuns | HelloDll/Hello_compiler.cpp:242-270 | under the corrected peephole, the emitted code consumes the top of the main stack and leaves it in the variable's slot; every other variable keeps its slot and its value |
| Codegen.CopyToTopRuns | HelloDll/Hello_compiler.cpp:272-292 | under the corrected peephole, for a known variable the emitted code pushes a copy of its value and leaves the alt-stack as it was |
| Codegen.AssignValueRuns | HelloDll/Hello_compiler.cpp:230-234 | under the corrected peephole, afterwards the variable holds n's encoding, the main stack is as before, and every other variable keeps its value |
| Codegen.AssignLoopVariable | HelloDll/AST.cpp:216 | the same, for `i` |
| Codegen.AssignEachRuns | HelloDll/AST.cpp:214-216 | under the corrected peephole, assigning every loop value leaves `i` holding the last value and the main stack as before; other variables keep their values |
| Codegen.ForLoopEmptyRuns | HelloDll/AST.cpp:208-231 | under the corrected peephole, `for v in [first..last] {}` with first <= last returns true, and its code leaves the main stack as it was, `i` (not v) holding last, and every other variable's value unchanged |
| Codegen.AssignCopyRuns | HelloDll/AST.cpp:75-88 | under the corrected peephole, `name = y;` for an initialised y (neither named `tos`) returns true, keeps the main stack, and puts y's value in name's slot |
| Codegen.AssignConstRuns | HelloDll/AST.cpp:75-88 | under the corrected peephole, `name = <integer>;` returns true, keeps the main stack, stores the literal's atoi value in name's slot, and leaves every other variable's value unchanged; a literal outside the int range aborts |
| Codegen.LeftNotTrueSkipsRight | HelloDll/AST.cpp:104-105 | binary_op generates its right operand only after the left one returned true |
| Codegen.NativeNeverTrue | HelloDll/AST.cpp:286 | native_function::generate never returns true |
| Codegen.NativeLeftSkipsRight | HelloDll/AST.cpp:104-105 | with a builtin call on the left, the right operand makes no difference to the code |
| Codegen.ReadUndeclaredFails | HelloDll/Hello_compiler.cpp:274-281 | reading an undeclared variable (not `tos`) inserts it into the table and raises "Uninitialised variable" |
| Compilers.Compiler.constructor | Common/Internals.h:77-109 | an empty pipeline, statement table and symbol table, generating through the as-written peephole |
| Compilers.Compiler.SetOptions | HelloDll/Hello_compiler.cpp:214-218 | stores the option word, always reports success, and leaves the pipeline and the peephole rule alone |
| Compilers.Compiler.ResetAsWritten | Common/Internals.h:89-92 | reset empties the pipeline and statements but clears only the map of the symbol table |
| Compilers.Compiler.Reset | Common/Internals.h:89-92 | reset with both containers of the symbol table emptied leaves the initial state |
| Compilers.Compiler.IndexOf | HelloDll/Hello_compiler.cpp:220-228 | returns and leaves what Codegen.IndexOf gives |
| Compilers.Compiler.AssignValueToVariable | HelloDll/Hello_compiler.cpp:230-234 | leaves the state of Codegen.AssignValue |
| Compilers.Compiler.AssignBytesToVariable | HelloDll/Hello_compiler.cpp:236-240 | a data push followed by Codegen.AssignFromTop |
| Compilers.Compiler.AssignFromTopOfStack | HelloDll/Hello_compiler.cpp:244-270 | leaves the state of Codegen.AssignFromTop |
| Compilers.Compiler.EmitOverwrite | HelloDll/Hello_compiler.cpp:251-263 | the found branch emits AssignRequests through the as-written peephole |
| Compilers.Compiler.CopyToTopOfStack | HelloDll/Hello_compiler.cpp:274-292 | returns and leaves what Codegen.CopyToTop gives |
| Compilers.Compiler.EmitCopy | HelloDll/Hello_compiler.cpp:282-291 | emits CopyRequests through the as-written peephole |
| Compilers.Compiler.GetExternValue | HelloDll/Hello_compiler.cpp:299-306 | a set variable gives its bytes with the terminating NUL included; an unset one dereferences the NULL getenv returns (an abort) |
| Compilers.Compiler.Generate | HelloDll/Hello_compiler.cpp:294-297 | the virtual generate call leaves the state and result of Codegen.Gen |
| Compilers.Compiler.GenerateConst | HelloDll/AST.cpp:22-37 | gives Codegen.GenConst |
| Compilers.Compiler.GenerateRValue | HelloDll/AST.cpp:51-61 | gives Codegen.GenRValue |
| Compilers.Compiler.GenerateBinary | HelloDll/AST.cpp:101-160 | gives Codegen.GenBinary |
| Compilers.Compiler.GenerateAssign | HelloDll/AST.cpp:75-88 | gives Codegen.GenAssign |
| Compilers.Compiler.GenerateIf | HelloDll/AST.cpp:173-190 | gives Codegen.GenIf |
| Compilers.Compiler.GenerateBranches | HelloDll/AST.cpp:179-189 | gives Codegen.GenBranches |
| Compilers.Compiler.GenerateFor | HelloDll/AST.cpp:208-231 | gives Codegen.GenFor |
| Compilers.Compiler.CountUp | HelloDll/AST.cpp:214-219 | the upward loop gives GenLoop over first..last |
| Compilers.Compiler.CountDown | HelloDll/AST.cpp:223-228 | the downward loop gives GenLoop over last down to first |
| Compilers.Compiler.Iteration | HelloDll/AST.cpp:216-218 | one turn of either loop is the first step of GenLoop |
| Compilers.Compiler.GenerateNative | HelloDll/AST.cpp:274-287 | gives Codegen.GenNative |
| Compilers.Compiler.GenerateAssertion | HelloDll/AST.cpp:302-314 | gives Codegen.GenAssertion |
| Compilers.Compiler.GenerateSequence | HelloDll/AST.cpp:254-260 | gives Codegen.GenSequence |
| Compilers.Compiler.CompileInternal | HelloDll/Hello_compiler.cpp:336-362 | compile_internal's loop returns the report, and leaves the state, of Driver.CompileInternal |
| Compilers.Compiler.CompileStatement | HelloDll/Hello_compiler.cpp:344-359 | one turn of the loop gives Driver.Turn, and consumes input whenever the loop goes on |
| Driver.Caught | HelloDll/Hello_compiler.cpp:352-359 | exactly parse_error and runtime_error are caught; a parse error is reported with its line counted from one |
| Driver.Statements | HelloDll/Hello_compiler.cpp:342-360 | the loop keeps every slot and every declared statement |
| Driver.Turn | HelloDll/Hello_compiler.cpp:344-359 | one turn keeps every slot and every declared statement |
| Driver.StatementsNotAtEnd | HelloDll/Hello_compiler.cpp:342 | away from the end of input the loop takes another turn |
| Driver.Opened | HelloDll/Hello_compiler.cpp:338 | the parser on a fresh stream is valid and has no streampoints |
| Driver.ContinuesClean | HelloDll/Hello_compiler.cpp:339-342 | while the loop goes on, nothing has been written to err_msg |
| Driver.StopReported | HelloDll/Hello_compiler.cpp:352-359 | a caught exception ends the loop with ok false and exactly one message; any other failure escapes |
| Driver.StatementsReported | HelloDll/Hello_compiler.cpp:342-361 | the loop's result is well reported: at most one message, none when ok is set, parse-error lines counted from one; a failure escapes only when it is neither a parse_error nor a runtime_error (out_of_range or an abort) |
| Driver.TurnReported | HelloDll/Hello_compiler.cpp:344-359 | the same for one turn |
| Driver.CompileInternalReported | HelloDll/Hello_compiler.cpp:336-362 | an error in the leading ws escapes unchanged; otherwise the result is well reported |
| Driver.FalseStopsSilently | HelloDll/Hello_compiler.cpp:348-350 | a statement that generates false ends the loop without a message, and nothing after it is parsed or generated |
| Driver.TrueContinues | HelloDll/Hello_compiler.cpp:342-350 | a statement that generates true is followed by the rest of the loop, from where its parse ended and in the state its generate left |
| Driver.ParseErrorReported | HelloDll/Hello_compiler.cpp:352-355 | a parse error is reported with its line counted from one, in the state the statements before it left |
| Driver.EmptySourceCompiles | HelloDll/Hello_compiler.cpp:336-362 | an empty source compiles with ok set and no message, and leaves the compiler's state unchanged |
| Script.ScriptNumRoundTrip | HelloDll/Hello_compiler.cpp:101-117 | decoding a serialised CScriptNum gives the number back |
| Script.ParseHexOfHexStr | bitcoin/src/core_read.cpp:107-122 | ParseHex inverts HexStr |
| Script.EncodeOpN | bitcoin/src/core_read.cpp:96-98 | EncodeOP_N is defined exactly on 0..16, as OP_0 and OP_1..OP_16 |
| Script.Int32 | bitcoin/src/core_read.cpp:97 | passing the int64_t to EncodeOP_N's `int` parameter keeps the value modulo 2^32 within the int range, and leaves an int-range value unchanged |
| Script.PushData | bitcoin/src/core_read.cpp:124-131 | a data push ends with the data, behind a one-byte length for short data |
| Script.AtoiOfDigits | HelloDll/AST.cpp:31 | on a string of digits the unbounded atoi value is its decimal value, never negative (C's atoi agrees up to INT_MAX; callers check the range) |
| CoreRead.FullName | bitcoin/src/core_read.cpp:38-40 | the registered name always starts with "OP_" |
| CoreRead.ShortName | bitcoin/src/core_read.cpp:43-45 | the short name is the full name without its "OP_" |
| CoreRead.RegisterSpelled | bitcoin/src/core_read.cpp:34-45 | one turn skips OP_UNKNOWN, and otherwise registers the full and the short name |
| CoreRead.RegisterRangeSound | bitcoin/src/core_read.cpp:32-46 | every entry the loop adds names a known opcode in the loop's range, by its full or short name |
| CoreRead.RegisterRangeGrows | bitcoin/src/core_read.cpp:32-46 | the loop only adds names |
| CoreRead.RegisterRangeComplete | bitcoin/src/core_read.cpp:32-46 | every known opcode in the range gets both its full and its short name |
| CoreRead.AllNamesSpec | bitcoin/src/core_read.cpp:28-48 | the populated table maps exactly the names of the known opcodes from OP_PUSHDATA1 up, each to an opcode that bears it |
| CoreRead.OpNameTable.constructor | bitcoin/src/core_read.cpp:55 | the static map starts empty |
| CoreRead.OpNameTable.Populate | bitcoin/src/core_read.cpp:28-48 | fills an empty map with AllNames, and leaves a filled one as it is |
| CoreRead.DropSeparators | bitcoin/src/core_read.cpp:60 | dropping a leading run of separators gives a suffix of the input that does not start with a separator |
| CoreRead.Fields | bitcoin/src/core_read.cpp:60 | splitting always yields at least one word |
| CoreRead.Split | bitcoin/src/core_read.cpp:60 | boost::split with token_compress_on yields at least one word |
| CoreRead.SplitSpec | bitcoin/src/core_read.cpp:60 | splitting loses the separators and nothing else, and no word contains a separator |
| CoreRead.FieldsConcat | bitcoin/src/core_read.cpp:60 | the words, joined, are the input without its separators |
| CoreRead.FieldsClean | bitcoin/src/core_read.cpp:60 | no word contains a separator |
| CoreRead.FieldsOfWord | bitcoin/src/core_read.cpp:60 | a string without separators is a single word |
| CoreRead.Atoi64 | bitcoin/src/core_read.cpp:95 | atoi64 stays in the int64_t range |
| CoreRead.Bytes | bitcoin/src/core_read.cpp:128 | the quoted text becomes one byte per character, and each byte is that character's code |
| CoreRead.ReadLengthIsLittleEndian | bitcoin/src/core_read.cpp:157-179 | the declared PUSHDATA length is read as a little-endian number |
| CoreRead.Track | bitcoin/src/core_read.cpp:143-207 | the word's bytes are appended; a pending push size that differs from the bytes added is the "Wrong number of bytes" error |
| CoreRead.Step | bitcoin/src/core_read.cpp:67-208 | one word keeps the assembler's invariant |
| CoreRead.Assemble | bitcoin/src/core_read.cpp:67-209 | the loop keeps the assembler's invariant |
| CoreRead.ParseScript | bitcoin/src/core_read.cpp:50-212 | populates the table, then the loop over the words returns ParseScriptSpec |
| CoreRead.AddWord | bitcoin/src/core_read.cpp:76-207 | the body of the loop for one non-empty word gives Step |
| CoreRead.AssembleIsConcatenation | bitcoin/src/core_read.cpp:67-209 | when the words assemble, the script is each word's bytes in order, so the push checks only accept or reject |
| CoreRead.PendingPushChecked | bitcoin/src/core_read.cpp:143-152 | with a push pending, a word is accepted exactly when it adds the declared number of bytes |
| CoreRead.SmallPushDeclares | bitcoin/src/core_read.cpp:184-192 | with no push pending, a one-byte word below OP_PUSHDATA1 declares that many bytes for the next word |
| CoreRead.PushDataDeclares | bitcoin/src/core_read.cpp:157-206 | PUSHDATA1/2/4 makes the next word a length of 1/2/4 bytes, and that length binds the word after it |
| CoreRead.OneWordScript | bitcoin/src/core_read.cpp:67-209 | a one-word script assembles to that word's bytes |
| CoreRead.HexWordIsRaw | bitcoin/src/core_read.cpp:107-123 | "0x" followed by the hex of a non-empty b assembles to b itself, inserted and not pushed |
| CoreRead.HexWordEncodes | bitcoin/src/core_read.cpp:107-123 | the hex word encodes to b |
| CoreRead.HexWordKind | bitcoin/src/core_read.cpp:107 | a word longer than two characters that starts with "0x" takes the hex branch |
| CoreRead.QuotedWordIsPushed | bitcoin/src/core_read.cpp:124-131 | a quoted word without separators assembles to a push of its text, without the quotes |
| CoreRead.QuotedWordEncodes | bitcoin/src/core_read.cpp:124-131 | the quoted word encodes to a push of its text |
| CoreRead.NameWordKind | bitcoin/src/core_read.cpp:132 | a word spelled "OP_..." is looked up as an opcode name |
| CoreRead.NameWordLookedUp | bitcoin/src/core_read.cpp:132-137 | an "OP_..." word in the table assembles to the one opcode it names, and that opcode bears the word as its name |
| CoreRead.OpcodeNameWord | bitcoin/src/core_read.cpp:132-137 | the full name of a known opcode from OP_PUSHDATA1 up assembles to a single opcode that bears that name |
| CoreRead.NumberWordsAbort | bitcoin/src/core_read.cpp:92-100 | "17" and "-1" reach EncodeOP_N outside 0..16 and fail its assertion |
| CoreRead.NumberBytesAsWritten | bitcoin/src/core_read.cpp:92-106 | as written, a decimal word in 0..16 or from OP_PUSHDATA1 (76) up is encoded as the corrected push would; a word from INT_MIN to -1 or from 17 to 75, and any word below 76 whose 32-bit truncation is outside 0..16, fails the EncodeOP_N assertion; a word below INT_MIN whose truncation is in 0..16 pushes that truncation, not its own value |
| CoreRead.NegativeWord | bitcoin/src/core_read.cpp:92-94 | a '-' followed by digits is a decimal word whose atoi64 value is minus the digits' value, saturated at INT64_MIN |
| CoreRead.NegativeWordsWrap | bitcoin/src/core_read.cpp:92-106 | as written, "-" followed by a multiple of 2^32 up to 2^63 pushes OP_0, and followed by a multiple of 2^32 less one pushes OP_1; "-4294967296" and "-4294967295" are such words |
| CoreRead.NegativeWordWraps | bitcoin/src/core_read.cpp:92-106 | as written, a negative word in the int64_t range whose 32-bit truncation is in 0..16 is accepted and pushes that truncation, which differs from the word's value |
| CoreRead.TwoToThe32Spelled | bitcoin/src/core_read.cpp:92-94 | the decimal word for 2^32 is "4294967296" |
| CoreRead.SaturatedWordsWrap | bitcoin/src/core_read.cpp:92-106 | as written, every decimal word below INT64_MIN pushes OP_0 |
| CoreRead.NumberBytesCorrected | bitcoin/src/core_read.cpp:92-106 | the corrected number push never fails |
| CoreRead.NumberBytesCorrectedDecodes | bitcoin/src/core_read.cpp:92-106 | the corrected push leaves exactly the word's number on the stack, over the whole int64_t range |
| Getopt.Strchr | Hello/Hello.cpp:47 | strchr returns the first offset that holds the character, or none when the string has none |
| Getopt.Args.constructor | Hello/Hello.cpp:22-26 | the cursor starts at 1, past the program name |
| Getopt.Args.Eof | Hello/Hello.cpp:28 | eof moves the cursor to argc and returns -1 |
| Getopt.Args.ParseError | Hello/Hello.cpp:29 | parse_error moves the cursor to argc and returns '?' |
| Getopt.Args.GetOpt | Hello/Hello.cpp:32-61 | getopt returns, and leaves the cursor, arg and optarg, that Next gives |
| Getopt.CursorAdvances | Hello/Hello.cpp:32-61 | the cursor never moves back or past argc; a call that does not return -1 reads at least one word; once at argc, the next call returns -1 |
| Getopt.EndSticks | Hello/Hello.cpp:59-60 | at argc getopt returns -1, stays there and clears optarg |
| Getopt.OptargOnlyForParameters | Hello/Hello.cpp:46-56 | optarg is set exactly when an option marked with ':' has a word after it; that word becomes optarg and the cursor moves past both |
| Getopt.NonOptionSkipped | Hello/Hello.cpp:37-39 | a word without a leading '-' gives '?', and only that word is skipped |
| Getopt.DoubleDashEnds | Hello/Hello.cpp:40-45 | "-" and any word starting "--" end the options for good |
| Getopt.UnknownOptionStops | Hello/Hello.cpp:46-48 | an option character that the options string does not list gives '?' and ends the options |
| Getopt.ParameterTaken | Hello/Hello.cpp:49-56 | an option marked with ':' takes the next word as its parameter, or gives '?' when there is none |
| Getopt.Calls | Hello/Hello.cpp:32-61 | successive calls return values other than -1, then a single -1 |
| Getopt.CallsBounded | Hello/Hello.cpp:32-61 | there are at most argc - index calls before the -1 |
| Getopt.ColonIsAnOption | Hello/Hello.cpp:46-49 | with "f:o:O", the word "-:" is returned as option ':' |
| Getopt.CheckedReturnsDeclared | Hello/Hello.cpp:46-57 | with ':' rejected, every option getopt returns is a character the options string lists, and never ':' |
| Getopt.CheckedAgreesWithoutMarkers | Hello/Hello.cpp:46-57 | for an options string without ':', the check changes nothing |

## Left out

- Execution and debugging (`execute`, `go`, `step_over`, `step_into`, `stop`, `EvalScript`) are empty stubs or calls into the Bitcoin interpreter. They are not modelled. Neither are the `symbol_table::relocate_*` and `declare_new_variable` stubs, which emit nothing.
- `Hello_compiler::compile` is not modelled. It copies the input into a string stream, calls reset, then compile_internal, and writes the annotated script. The model covers reset, both as written (`Compilers.Compiler.ResetAsWritten`) and corrected (`Compilers.Compiler.Reset`), and compile_internal. `write_annotated_script` and `write_annotation` only format output.
- `main` in `Hello/Hello.cpp` is not modelled (opening files, usage text, and the switch over the options). After its option loop ch is always -1, so its test for '?' never fires.
- I/O: the `istream` is modelled as a text, a position, and the eofbit and failbit flags (`Streams`). Output streams and `err_msg` are modelled as a list of messages.
- `Streams`: each Dafny `char` of the input stands for one byte of the `istream`. The text is not decoded. Positions, `tellg` and line offsets count these chars. A UTF-8 'é' is therefore given as two chars, one per byte.
- `Lexer.UnexpectedCharacterFails`: a byte of 0x80 or above is a negative `char` in the source. Passing it to `isdigit`, `isalpha` or `isalnum` is undefined behaviour. The model follows glibc, where such a byte is in no class, so it gives the "Unexpected character" parse error, or ends a run in `f_eat`, and not an `Abort`. The `Lexer` character classes `IsAlpha`, `IsAlnum` and `Accepts` make the same choice.
- `CoreRead.Bytes`: a quoted word's chars are its bytes (`CharByte`). A char code of 256 or more cannot come from the source's byte string; the model reduces it modulo 256.
- `getenv` is a parameter: a map from names to C strings, fixed for a compiler (`Compilers.Compiler.env`).
- `Getopt.Args.GetOpt`: argv words are Dafny strings, not signed `char` arrays, so a character code above 127 is returned as itself rather than as a negative number.
- `Getopt.Args.Valid`: with argc == 0, the constructor's cursor of 1 is allowed. The first call then reports -1 and moves the cursor to 0. `arg` starts as the empty string, where the source leaves it uninitialised.
- `Codegen.GenFor`, `Compilers.Compiler.GenerateFor`, `Compilers.Compiler.CountUp`, `Compilers.Compiler.CountDown` and `Compilers.Compiler.Iteration`: the loop counter is an unbounded integer. Both bounds pass the `int` range check, but the source's `int i` overflows in two cases, which is undefined behaviour there and not an `Abort` here. The ascending loop's `i++` overflows after last == INT_MAX. The descending loop's `i--` overflows after first == last == INT_MIN. The model ends each loop after its last value instead.
- `Codegen.GenBinary`: only the operators `binary_op::generate` knows are given opcodes; the model does not state what the emitted opcodes compute in Bitcoin script.
- The stack machine (`StackMachine`) runs only the opcodes the allocator and the peephole rule use. Arithmetic, hashing and signature opcodes are outside it, so the run lemmas cover the allocator's code only.
- `Script.GetOpName`, `ParseHex`, `HexStr`, `CScriptNum`, `EncodeOP_N`, `ReadLE16/32`, `atoi` and `CScript <<` belong to the Bitcoin library and are not part of this model's source files. They are modelled from their documented behaviour. `EncodeOP_N` takes an `int`, so its argument goes through `Script.Int32` first.
- `Script.Atoi` gives the unbounded value of the leading digits, not a C `int`. The callers that store the result in an `int` check the range. These are `Codegen.GenConst`, `Compilers.Compiler.GenerateConst`, `Grammar.LoopBody` and `Parsers.Parser.LoopBody`. A value outside the range is an `Abort`.
- `CoreRead.Atoi64`: the saturation of `atoi64` at the int64_t bounds is modelled, but not its locale handling.
- `CoreRead.ParseScript`: the static `mapOpNames` is passed in as an `OpNameTable` object, not hidden in the function. TRACE logging is omitted.
- Instruction memory management (the union inside `instruction`, copy construction and destruction) is modelled as an immutable datatype.
- Undefined behaviour is modelled as an `Abort` failure and not caught by compile_internal. This covers failed `assert`s, dereferencing a null node, and null `getenv` results. It also covers an integer literal that an `int` cannot hold, and formatting an unexpected `_name` token, whose `type_name` reads past the end of its table.
- `Pipeline.AppendOpAsWritten`: `back()` on an empty pipeline is undefined behaviour in the source. It is reachable: `x = -1;` as the first statement emits nothing for the operand and then a TOALTSTACK. The model removes nothing there and appends the new opcode; it does not abort.
- `Pipeline.InstructionPipeline.EmitOp`: the same case of `back()` on an empty pipeline is not an `Abort`; the pipeline becomes that one opcode.

## Findings

Each finding below has both halves in the model. `InstructionPipeline`, and
so `Compiler`, emit through the peephole rule as written; `Codegen` is
parameterised by the rule, and its stack-effect lemmas hold for the
corrected one. `Compiler` has both `ResetAsWritten` and the corrected
`Reset`. `ParseScript` and `Args.GetOpt` follow the code as
written. For them, the corrected behaviour is a separate function:
`NumberBytesCorrected` and `NextChecked`.

| source | as written | input that shows it | evidently intended | confidence | as-written member | corrected member |
|---|---|---|---|---|---|---|
| HelloDll/Hello_compiler.cpp:57-91 | `instruction::operator==` compares the parameter `opcode` with itself, and `operator<<` replaces the optimiser flag with a constant that is always on. So the peephole drops any opcode instruction that comes before a TOALTSTACK or FROMALTSTACK. | reading the only variable (slot 0 of 1): FROMALTSTACK, DUP, TOALTSTACK becomes FROMALTSTACK, TOALTSTACK, which leaves no copy on the main stack | cancel only a FROMALTSTACK/TOALTSTACK pair, and only under OPTIMISER_ON; this never changes what the code computes | high (not executed) | Pipeline.AsWrittenPeepholeLosesRead | Pipeline.AppendAllPreservesRun |
| Common/Internals.h:89-92 | `reset` calls the map's `clear` that `symbol_table` re-exports, so `variable_names` keeps its entries | a table that held a variable, after reset, then any insert: the size assertion fails | reset empties both the map and the name vector | high (not executed) | Symbols.ClearAsWrittenBreaksInsert | Symbols.ClearThenInsert |
| bitcoin/src/core_read.cpp:92-106 | a decimal word below OP_PUSHDATA1 (76) goes through `EncodeOP_N`, which asserts 0 <= n <= 16 on the `int` it receives, the int64_t cut to 32 bits | the words "17" and "-1" fail the assertion; "-4294967296" pushes OP_0 (`CoreRead.NegativeWordsWrap`, `CoreRead.TwoToThe32Spelled`) | every decimal word is pushed as its number (`CScript << int64_t`) | high (not executed) | CoreRead.NumberWordsAbort | CoreRead.NumberBytesCorrectedDecodes |
| Hello/Hello.cpp:46-49 | `strchr(options, ch)` also finds the ':' that marks a parameter, so ':' is accepted as an option | argv "Hello -:" with options "f:o:O": getopt returns ':' | ':' is a marker, never an option | high (not executed) | Getopt.ColonIsAnOption | Getopt.CheckedReturnsDeclared |
