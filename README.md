# Lithium core, modelled in Dafny

The repository holds two programs, and this project models the sequential core of each.

**Lithium** is a Lua-to-.NET compiler built on the Irony parser kit.
- The two hand-written lexer terminals:
  - `LuaStringLiteral` scans `'…'`, `"…"` and long-bracket `[==[ … ]==]` string literals and decodes the escape sequences of the quoted forms.
  - `LuaLongCommentTerminal` scans `--[==[ … ]==]` block comments.
- The compilation-scope stack (block, function, loop and iterator scopes):
  - it resolves identifiers to local variables or to the global environment;
  - it records goto labels;
  - it finds the nearest return and break targets.
- The code generator, which walks a parse tree, opens and closes scopes, and emits an expression tree.
- The truthiness rule of the runtime (`TypeHelpers.ToBoolean`) and the `EnsureObject` coercion.

**The Lithium licensing tool** (Go, `src/license`):
- the validity check of a license record (`Data.IsValid`);
- the license container: a sequence of typed PEM blocks that is encoded, parsed, signed and checked against a certificate chain;
- the rule by which a certificate request and a license are turned into a certificate template (`CertManager.Prepare`).

## How the model is laid out

| module (file) | models |
|---|---|
| `Wrappers` | `Option` and `Result` |
| `Text` | the string functions the code calls, comparing characters exactly (`IndexOf`, `Split`/`Join`, `Replace("\r\n", "\n")`, `TrimStart`, ASCII `ToLower`) |
| `LongBrackets` | the regular expressions `\[(=*)\[` and `--\[(=*)\[` and the replacement `]$1]`, written out as functions |
| `Lexing` | the parts of Irony that the terminals use: `SourceStream` (text, token location, mutable preview position), `ParsingContext` (parser errors, line-scan state) and tokens |
| `LuaStringLiteral` | `LuaStringLiteral.cs` |
| `LuaLongComment` | `LuaLongCommentTerminal.cs` |
| `Ir`, `Errors` | the System.Linq.Expressions nodes the generator builds, with an evaluator for the pure forms; the exceptions the compiler throws |
| `TypeHelpers`, `Expressions` | `TypeHelpers.cs`, `Expressions.cs` |
| `CompilationScope` | `CompilationScope.cs` |
| `Grammar` | the parse-tree term names the generator's `switch` statements test, one constructor each, and `Other` for any other name |
| `Generator` | `Generator.cs` |
| `LicenseData`, `X509` | the license record, the product, and the certificate values the Go code builds |
| `Validator`, `LicenseContainer`, `CertManager` | `validator.go`, `container.go`, `cert_manager.go` |

**Scanner terminals.**
- The preview position of Irony's source stream is a field of the class `Lexing.SourceStream`, and the terminals are methods that move it.
- Each method rests on a specification function of the text and the start position (`LuaStringLiteral.Scan`/`Lex`, `LuaLongComment.Matched`).
- The lemmas about those functions state what a scan finds.

**Scope stack.**
- The scope stack is a sequence in the class `CompilationScope.ScopeChain`. Index 0 is the root, the last element is `Generator.CurrentScope`, and the parent of the scope at depth `d` is the scope at depth `d - 1`.
- A virtual method called on a scope is a function of the stack and a depth.
- Every `ParameterExpression` and `LabelTarget` gets a fresh `id` from a counter, which stands for object identity.

**Parse trees.**
- A parse-tree node keeps its term, its children and its token. The generator only compares term names with the names its `case` labels list, so each of those names is a constructor of `Grammar.Term`, and every other name is `Other(name)`.

**Go code.**
- The Go functions are functions and methods on values.
- The container is parsed from, and encoded to, the sequence of decoded PEM blocks (`seq<Block>`); the PEM text framing is not modelled.
- Base64, certificate parsing, hashing and RSA-PSS are function-valued parameters (`Codecs`, `Crypto`).
- `time.Now()` is a parameter `now` on one integer clock.

## Model

| member | source | states |
|---|---|---|
| TypeHelpers.ToBoolean | Lithium/Runtime/TypeHelpers.cs:12-15 | a value is false exactly when it is null or the boolean false; a boolean converts to itself |
| TypeHelpers.ToBooleanExpr | Lithium/Runtime/TypeHelpers.cs:17-24 | the emitted node is a bool-typed conditional whose test is the exact type test for bool |
| TypeHelpers.ToBooleanExprAgrees | Lithium/Runtime/TypeHelpers.cs:17-24 | the emitted conditional evaluates, under any binding, to the truthiness `ToBoolean` gives the operand's value |
| TypeHelpers.NumbersAndStringsAreTrue | Lithium/Runtime/TypeHelpers.cs:14 | every number and every string, 0 and the empty string included, and any other object is true |
| Expressions.EnsureObject | Lithium/Compiler/Expressions.cs:14-19 | the result is typed object; an object-typed node is returned unchanged, any other is wrapped in exactly one Convert; the value is the same under every binding |
| Expressions.EnsureObjectIdempotent | Lithium/Compiler/Expressions.cs:14-19 | applying the coercion twice gives what applying it once gives |
| Expressions.MakeGlobalVariableAccessor | Lithium/Compiler/Expressions.cs:21-24 | every call fails with NotImplementedException |
| Expressions.MakeGlobalVariableWriter | Lithium/Compiler/Expressions.cs:26-29 | every call fails with NotImplementedException |
| CompilationScope.Variables | Lithium/Compiler/CompilationScope.cs:53-62 | the environment comes first, then the scope's locals in order |
| CompilationScope.Named | Lithium/Compiler/CompilationScope.cs:98 | the variables with the name, a subsequence of the input holding exactly those |
| CompilationScope.NamedOfDistinct | Lithium/Compiler/CompilationScope.cs:199-201 | among distinctly named locals at most one has a given name, so `Single` cannot fail there |
| CompilationScope.Nearest | Lithium/Compiler/CompilationScope.cs:79-85 | the walk up the parent chain stops at the nearest scope of the wanted kind, and finds none exactly when no scope to the root is of that kind |
| CompilationScope.GetReturnLabel | Lithium/Compiler/CompilationScope.cs:122-128 | the return label of the nearest function scope; a compiler error when the walk reaches the root without one |
| CompilationScope.GetExitLabel | Lithium/Compiler/CompilationScope.cs:133-139 | the exit label of the nearest loop or iterator scope; a compiler error when there is none |
| CompilationScope.GetJumpLabel | Lithium/Compiler/CompilationScope.cs:217-223 | the label of the nearest block whose goto table holds the name; a compiler error naming the label when none does |
| CompilationScope.GetVariableForRead | Lithium/Compiler/CompilationScope.cs:92-99 | the local of the nearest scope declaring the name; with none, the global accessor or a null dereference, depending on whether the root has locals |
| CompilationScope.WriteVariable | Lithium/Compiler/CompilationScope.cs:108-117 | an assignment of the coerced value to the local of the nearest declaring scope, otherwise the outcome at the root that a read has |
| CompilationScope.ReadWriteAgree | Lithium/Compiler/CompilationScope.cs:92-117 | a read finds variable v exactly when a write assigns `EnsureObject(value)` to v |
| CompilationScope.RegisterLocalStep | Lithium/Compiler/CompilationScope.cs:197-206 | non-block scopes forward to the nearest block and a root without one refuses; the variable carries the name; only the nearest block grows; distinct local names are kept |
| CompilationScope.RegisterJumpTargetStep | Lithium/Compiler/CompilationScope.cs:209-214 | the nearest block gets a new label under the name, or a duplicate-key exception; with no block a compiler error and no change |
| CompilationScope.RegisterParameterStep | Lithium/Compiler/CompilationScope.cs:257-262 | a new object-typed parameter is appended to the function's locals and every other scope is left alone |
| CompilationScope.RegisterLocalIdempotent | Lithium/Compiler/CompilationScope.cs:199-201 | registering a name a second time returns the same outcome and changes nothing |
| CompilationScope.RegisterLocalAppendsOne | Lithium/Compiler/CompilationScope.cs:203-205 | a new name appends exactly one fresh object-typed local to the nearest block; every other scope and the block's labels are unchanged |
| CompilationScope.ReadAfterRegister | Lithium/Compiler/CompilationScope.cs:92-99 | after a registration, a read from the same depth finds the registered variable unless a nearer scope declares the name |
| CompilationScope.ReadAfterNewLocal | Lithium/Compiler/CompilationScope.cs:92-99 | the same for a name the block did not yet hold |
| CompilationScope.JumpAfterRegister | Lithium/Compiler/CompilationScope.cs:209-223 | after a label is registered, a goto from the same depth resolves to it |
| CompilationScope.RegisterJumpTargetTwiceFails | Lithium/Compiler/CompilationScope.cs:212 | registering the same label name again in that block throws a duplicate-key exception |
| CompilationScope.ScopeChain.PushBlock | Lithium/Compiler/CompilationScope.cs:178-185 | a block with a fresh environment, no locals and no labels becomes current on top of the old stack |
| CompilationScope.ScopeChain.PushFunction | Lithium/Compiler/CompilationScope.cs:228-233 | a function scope with its name, no parameters and a fresh return label becomes current |
| CompilationScope.ScopeChain.PushLoop | Lithium/Compiler/CompilationScope.cs:272-276 | a loop scope with a fresh exit label becomes current |
| CompilationScope.ScopeChain.PushIterator | Lithium/Compiler/CompilationScope.cs:289-293 | a loop scope whose only local is a double-typed loop variable becomes current |
| CompilationScope.ScopeChain.Pop | Lithium/Compiler/CompilationScope.cs:165-168 | the parent of the current scope becomes current |
| CompilationScope.ScopeChain.FindBlock | Lithium/Compiler/CompilationScope.cs:79-85 | the loop up the parent chain returns the depth of the nearest block |
| CompilationScope.ScopeChain.RegisterLocal | Lithium/Compiler/CompilationScope.cs:197-206 | the stack and the result are those `RegisterLocalStep` gives |
| CompilationScope.ScopeChain.RegisterJumpTarget | Lithium/Compiler/CompilationScope.cs:209-214 | the stack and the result are those `RegisterJumpTargetStep` gives |
| CompilationScope.ScopeChain.RegisterParameter | Lithium/Compiler/CompilationScope.cs:257-262 | the stack and the parameter are those `RegisterParameterStep` gives |
| Generator.FirstChildText | Lithium/Compiler/Generator.cs:46 | the first child's token text; an index error without children, a null dereference without a token |
| Generator.TokenText | Lithium/Compiler/Generator.cs:167-170 | the node's token text, available exactly when the node has a token |
| Generator.CompileExpression | Lithium/Compiler/Generator.cs:70-90 | Nil, True, False, Number and String become typed constants; Variable fails as not implemented (`GetVariable`); any other term is a compiler error; every result evaluates |
| Generator.CompileExpressions | Lithium/Compiler/Generator.cs:164 | all compile exactly when each does, in order; otherwise the first failing element decides the error |
| Generator.GetMultiExpressionValue | Lithium/Compiler/Generator.cs:157-165 | no expression gives a null object constant, one gives that expression, two or more an object array of them in order |
| Generator.GotoFindsRegisteredLabel | Lithium/Compiler/Generator.cs:47-48 | a goto that compiles jumps to a label some enclosing block registered under its name |
| Generator.LabelThenGoto | Lithium/Compiler/Generator.cs:45-48 | a label statement followed by a goto naming it jumps to the label it defined |
| Generator.BreakOutsideLoopFails | Lithium/Compiler/Generator.cs:49-50 | a break with no enclosing loop is the break-outside-loop compiler error |
| Generator.IfChainTakesFirstTruthy | Lithium/Compiler/Generator.cs:128-138 | the folded chain runs the block of the first condition whose value is truthy |
| Generator.IfChainFallsThrough | Lithium/Compiler/Generator.cs:123-138 | the folded chain runs the else branch when no condition is truthy |
| Generator.Generator.CompileBlock | Lithium/Compiler/Generator.cs:25-35 | the result and the new stack are those of `BlockStep`: statement i is what `CompileStatement` gives for child i on the stack of that moment; the previous current scope is restored on every path; the environment comes first and distinctly named locals after |
| Generator.Generator.CompileStatement | Lithium/Compiler/Generator.cs:37-68 | the result and the new stack are those of `StatementStep`: Label, Goto, Break and Return go to the scope stack; unimplemented kinds throw NotImplementedException and unknown terms are compiler errors; only the nearest block may grow |
| Generator.Generator.CompileLocalFunction | Lithium/Compiler/Generator.cs:94-107 | the result and the new stack are those of `LocalFunctionStep`: a lambda whose parameters are the declared names in order, registered after the body, assigned to the local `RegisterLocal` gives at the enclosing block; the stack is restored |
| Generator.Generator.LeaveFunction | Lithium/Compiler/Generator.cs:98-106 | closing the function scope leaves the stack it was opened on |
| Generator.Generator.BindClosure | Lithium/Compiler/Generator.cs:103-106 | the result and the new stack are those of `BindStep`: the closure is assigned to a local of the name registered through the parent scope; at the root this fails |
| Generator.Generator.RegisterParameters | Lithium/Compiler/Generator.cs:100-102 | the result and the new stack are those of `ParametersStep`: each declared name in order becomes a parameter of the function scope; a declaration without a token stops with its error |
| Generator.StatementStep | Lithium/Compiler/Generator.cs:37-68 | the result of a statement and the stack it leaves: nothing below the nearest block changes, and that block only grows |
| Generator.BlockStep | Lithium/Compiler/Generator.cs:25-35 | a block scope is pushed, the children compile in order, and the stack is exactly restored whatever they do |
| Generator.StatementsFrom | Lithium/Compiler/Generator.cs:29-32 | each child compiles on the stack its predecessor left, the first failure ends the block; the stack below the block is unchanged and the block only grows |
| Generator.LocalFunctionStep | Lithium/Compiler/Generator.cs:94-107 | a local function leaves the stack below the nearest block unchanged and that block only grows |
| Generator.FunctionStep | Lithium/Compiler/Generator.cs:98-106 | the function scope is pushed and disposed of on every path; only the nearest block below may grow |
| Generator.ClosureStep | Lithium/Compiler/Generator.cs:100-105 | the closure is the lambda of the body with one parameter per declared name, in order, with the identities that come next; at the root it fails |
| Generator.ParametersStep | Lithium/Compiler/Generator.cs:100 | each declared name from the i-th on becomes a new parameter, in order, with consecutive identities; no other scope changes |
| Generator.BindStep | Lithium/Compiler/Generator.cs:103-106 | the assignee is the variable `RegisterLocal` gives at the parent block, and binding fails exactly when that registration does; at the root it is a null reference |
| Generator.BindBindsLocal | Lithium/Compiler/Generator.cs:103-104 | binding through the block below the function scope makes the assignee that block's one local of the name |
| Generator.ClosureBindsLocal | Lithium/Compiler/Generator.cs:100-104 | registering the parameters leaves the parent block alone, and the closure step `r` binds the closure to that block's local of the name |
| Generator.LocalFunctionBindsBlockLocal | Lithium/Compiler/Generator.cs:94-107 | a compiled local function binds its closure to the enclosing block's one local of its name, which a read of the name then finds; a name already declared keeps its variable, and no other local appears |
| Generator.FunctionBindsLocal | Lithium/Compiler/Generator.cs:98-106 | the same, on the function scope `FunctionStep` opens |
| Generator.BoundLocalIsRead | Lithium/Compiler/CompilationScope.cs:92-99 | a block whose one local of a name is v resolves a read of the name to v |
| Generator.ParametersAfterBody | Lithium/Compiler/Generator.cs:100-102 | the body is compiled on a function scope with no parameters, and the parameters get the identities that follow the body's |
| Generator.FunctionParametersAfterBody | Lithium/Compiler/Generator.cs:100-102 | the same, on the function scope `FunctionStep` opens |
| Generator.FunctionUnfolds | Lithium/Compiler/Generator.cs:98-106 | a failing body fails the function with its error; otherwise the parameters and the binding follow on the stack the body left |
| Generator.StatementLocals | Lithium/Compiler/Generator.cs:37-68 | a compiled local function binds its variable in the enclosing block; any other statement leaves the block's locals as they were |
| Generator.StatementsLocals | Lithium/Compiler/Generator.cs:29-32 | after the children from the i-th on, each local function among them has its variable in the block, and every new local is one of theirs |
| Generator.BlockLocals | Lithium/Compiler/Generator.cs:25-35 | a compiled block's variables after the environment are exactly the locals its local functions were assigned to |
| Generator.Generator.CompileIfStatement | Lithium/Compiler/Generator.cs:113-141 | the result and the new stack are those of `IfStep`; on success the result is the right fold of the if and elseif conditions and blocks, ending in the else block or an empty node, the scope stack is restored, and the first condition is the primary one |
| Generator.Generator.CompileElse | Lithium/Compiler/Generator.cs:121-126 | the result and the new stack are those of `ElseStep`: the else block when the fourth child has children, an empty node otherwise |
| Generator.Generator.CompileElseIfs | Lithium/Compiler/Generator.cs:128-132 | the result and the new stack are those of `ElseIfsStep`: the reversed loop builds the right fold of the elseif clauses over the else branch, each condition compiled from its clause's first child |
| Generator.Generator.CompileElseIf | Lithium/Compiler/Generator.cs:129-138 | the result and the new stack are those of `ClauseStep`: the condition from the first child, then the block from the second, wrapped around what was built; a missing child is an index error |
| Generator.IfStep | Lithium/Compiler/Generator.cs:113-141 | an if statement: the else part, then the elseif clauses from the last, then the primary clause, each on the stack the previous one left; the scope stack comes back as it was |
| Generator.ElseStep | Lithium/Compiler/Generator.cs:121-126 | the else part: `BlockStep` of the fourth child when it has children, an empty node otherwise; the scope stack comes back as it was |
| Generator.ClauseStep | Lithium/Compiler/Generator.cs:129-138 | one clause: index error without children, the condition's error, index error without a block child, the block's error, or the if-then-else around what was built |
| Generator.ElseIfsStep | Lithium/Compiler/Generator.cs:128-132 | the clauses from the last to the first, each on the stack the one after it left; the first failure ends the loop |
| Generator.IfStepUnfolds | Lithium/Compiler/Generator.cs:120-138 | `IfStep` is the else part, then `ElseIfsStep` over the elseif clauses, then `ClauseStep` of the primary clause, each failure ending it |
| Generator.ElseIfsStepCons | Lithium/Compiler/Generator.cs:128-138 | a clause put in front of the others is compiled after all of them, on the stack they left |
| Generator.ElseIfsStepIsChain | Lithium/Compiler/Generator.cs:128-132 | a successful `ElseIfsStep` is the right fold of conditions and blocks over what was built, each condition compiled from its clause's first child |
| Generator.IfChainSnoc | Lithium/Compiler/Generator.cs:128-132 | folding one more last level is folding onto that level's if-then-else |
| Generator.IfChainBlocks | Lithium/Compiler/Generator.cs:128-138 | two folds of the same length that are equal have the same blocks and the same else branch |
| Generator.ElseIfsLastBlock | Lithium/Compiler/Generator.cs:128-132 | in a successful `ElseIfsStep`, the last clause is compiled first, its block is the fold's last block, and the clauses before it fold to the other blocks |
| Generator.ElseIfBlockAt | Lithium/Compiler/Generator.cs:128-132 | block k of the fold is `BlockStep`'s result on clause k's second child, compiled on the stack the clauses after k left, and it leaves the stack the clauses before k start on |
| Generator.ElseIfsSuffix | Lithium/Compiler/Generator.cs:128-132 | once the last clause has compiled, the clauses from the j-th on go on from the stack it left |
| Generator.ElseIfsStepUnfolds | Lithium/Compiler/Generator.cs:128-132 | a successful `ElseIfsStep` compiles its last clause's condition and block first, then the other clauses around them |
| Generator.ElseIfsStepLast | Lithium/Compiler/Generator.cs:128-132 | the clauses up to the i-th are clause i, then the ones before it on the stack it left |
| Generator.ElseIfsRound | Lithium/Compiler/Generator.cs:128-132 | a loop round puts clause i's condition and block in front of those of the later clauses |
| Generator.IfStepIsChain | Lithium/Compiler/Generator.cs:113-141 | a successful `IfStep` is the fold of the primary and elseif conditions and blocks over the else part's result, the primary condition from child 0 and the elseif conditions from their clauses |
| Generator.IfStepBlockAt | Lithium/Compiler/Generator.cs:126-138 | block 0 of a successful `IfStep` is `BlockStep` of child 1 and block k is that of elseif k-1's second child, each on the stack the else part and the later clauses left |
| LuaStringLiteral.MatchersWellFormed | Lithium/Compiler/LuaStringLiteral.cs:130-132 | the three matchers are `'`, `"` and the long bracket, with their flags |
| LuaStringLiteral.EscapeTable | Lithium/Compiler/LuaStringLiteral.cs:25-41 | the table holds exactly `a b t n v f r " ' \ [ ]`, mapped to BEL, BS, TAB, LF, VT, FF, CR and the five that stand for themselves |
| LuaStringLiteral.StartsAtExactly | Lithium/Compiler/LuaStringLiteral.cs:54-64 | compared case-sensitively, the character-by-character match is exactly an occurrence of the pattern at that position |
| LuaStringLiteral.StartsWith | Lithium/Compiler/LuaStringLiteral.cs:54-64 | true exactly when the text occurs at the position, comparing characters or their lower-case forms |
| LuaStringLiteral.Initiator | Lithium/Compiler/LuaStringLiteral.cs:77-112 | the regex matcher's initiator is the long-bracket opener at the position itself, its length the opener's |
| LuaStringLiteral.InitiatorMeaning | Lithium/Compiler/LuaStringLiteral.cs:77-112 | a quote matcher finds its quote; the long-bracket matcher finds exactly an opener starting at the position |
| LuaStringLiteral.TryGetInitiator | Lithium/Compiler/LuaStringLiteral.cs:77-112 | returns `Initiator` |
| LuaStringLiteral.Terminator | Lithium/Compiler/LuaStringLiteral.cs:84-117 | a standard matcher's end string; the regex replacement of a non-empty opener is non-empty |
| LuaStringLiteral.Closing | Lithium/Compiler/LuaStringLiteral.cs:114-117 | the end quote, or a closer as long as the opener's level plus two |
| LuaStringLiteral.TerminatorOfInitiator | Lithium/Compiler/LuaStringLiteral.cs:114-117 | the terminator computed from the found opener is the closer of the opener's level |
| LuaStringLiteral.LongBracketTerminator | Lithium/Compiler/LuaStringLiteral.cs:114-117 | an opener with n `=` signs is closed by `]`, n `=` signs and `]` |
| LuaStringLiteral.IsEndQuoteEscaped | Lithium/Compiler/LuaStringLiteral.cs:139-149 | an odd run of backslashes, counted down to index 1, precedes the quote |
| LuaStringLiteral.BackslashAtStartIgnored | Lithium/Compiler/LuaStringLiteral.cs:136-146 | n backslashes opening the text escape the quote after them exactly when n is even: the one at index 0 is not counted |
| LuaStringLiteral.EscapedAfterRun | Lithium/Compiler/LuaStringLiteral.cs:136-146 | after any other character, a quote is escaped exactly when an odd number of backslashes precedes it |
| LuaStringLiteral.SearchEnd | Lithium/Compiler/LuaStringLiteral.cs:170-183 | the search ends at an occurrence of the closer at or after the resume position, or with -1 |
| LuaStringLiteral.FirstUnescapedQuote | Lithium/Compiler/LuaStringLiteral.cs:170-183 | for a quote, the search finds the first unescaped occurrence, and -1 exactly when there is none |
| LuaStringLiteral.AttemptAt | Lithium/Compiler/LuaStringLiteral.cs:155-186 | one matcher's round: a found literal's body lies between its opener and the closer it ends with |
| LuaStringLiteral.CloseFrom | Lithium/Compiler/LuaStringLiteral.cs:166-186 | after an opener the search yields a closed literal whose body starts right after the opener, or an unclosed one |
| LuaStringLiteral.CloseFromSearch | Lithium/Compiler/LuaStringLiteral.cs:168-186 | the literal ends where the search result says, or is unclosed when it is -1 |
| LuaStringLiteral.Scan | Lithium/Compiler/LuaStringLiteral.cs:153-195 | the matchers in order from the position; the preview position never moves back and a found body lies inside the text |
| LuaStringLiteral.ScanFindsLiteral | Lithium/Compiler/LuaStringLiteral.cs:153-195 | a literal the scan finds is the one its matcher finds at the position the earlier matchers left |
| LuaStringLiteral.LexOutcome | Lithium/Compiler/LuaStringLiteral.cs:184-195 | no literal gives null; a literal gives a token whose value is its body, decoded unless the matcher forbids escapes |
| LuaStringLiteral.SearchEndSkip | Lithium/Compiler/LuaStringLiteral.cs:177-181 | an escaped closer makes the search go on after it |
| LuaStringLiteral.SearchEndStop | Lithium/Compiler/LuaStringLiteral.cs:172-175 | no closer, or one that is not escaped or needs no check, ends the search |
| LuaStringLiteral.FindEndRound | Lithium/Compiler/LuaStringLiteral.cs:170-183 | one round: the search ends, or goes on from after an escaped closer with the same end result |
| LuaStringLiteral.FindEnd | Lithium/Compiler/LuaStringLiteral.cs:168-183 | the retry loop gives the end position and leaves the preview position as `SearchEnd` says |
| LuaStringLiteral.EmitLiteral | Lithium/Compiler/LuaStringLiteral.cs:186-192 | the preview position moves past the closer; the token and the errors are those `LexOutcome` gives |
| LuaStringLiteral.MatchWith | Lithium/Compiler/LuaStringLiteral.cs:155-186 | one round of the matcher loop finds what `AttemptAt` says and leaves the preview position where it stops |
| LuaStringLiteral.AttemptOpened | Lithium/Compiler/LuaStringLiteral.cs:157-166 | once an opener is found, the round is the closer search from its end for its terminator |
| LuaStringLiteral.FindCloser | Lithium/Compiler/LuaStringLiteral.cs:161-186 | the closer search past the opener, moving the preview position as `CloseFrom` says |
| LuaStringLiteral.TryMatch | Lithium/Compiler/LuaStringLiteral.cs:151-196 | the preview position and the token are those of `Scan` and `Lex` from the old preview position; the line-scan state is untouched |
| LuaStringLiteral.HexDigitValue | Lithium/Compiler/LuaStringLiteral.cs:284 | a hexadecimal digit's value is below 16 |
| LuaStringLiteral.ParseHexOfDigits | Lithium/Compiler/LuaStringLiteral.cs:294 | `Convert.ToUInt32(s, 16)` of hexadecimal digits is their value |
| LuaStringLiteral.CodeUnit | Lithium/Compiler/LuaStringLiteral.cs:272 | the `(char)` cast keeps a code below U+D800 as it is |
| LuaStringLiteral.DigitRun | Lithium/Compiler/LuaStringLiteral.cs:282-286 | the digits from the index, at most the limit, ending at the limit, the text's end or a non-digit |
| LuaStringLiteral.ScanDigits | Lithium/Compiler/LuaStringLiteral.cs:281-317 | the counting loop stops right after the `DigitRun` digits |
| LuaStringLiteral.HandleSpecialEscape | Lithium/Compiler/LuaStringLiteral.cs:254-328 | the result and the reported errors are those of `SpecialEscape` |
| LuaStringLiteral.HexEscape | Lithium/Compiler/LuaStringLiteral.cs:277-297 | `\x` and one to four hexadecimal digits stand for the character of that code, followed by the rest |
| LuaStringLiteral.HexEscapeWithoutDigits | Lithium/Compiler/LuaStringLiteral.cs:288-292 | `\x` without a digit is the bad-`\x` error and no text |
| LuaStringLiteral.DecimalEscape | Lithium/Compiler/LuaStringLiteral.cs:299-323 | one to three decimal digits stand for the character of that decimal code |
| LuaStringLiteral.UnicodeEscape | Lithium/Compiler/LuaStringLiteral.cs:261-275 | `\u` takes exactly four hexadecimal digits and `\U` exactly eight |
| LuaStringLiteral.UnicodeEscapeTooShort | Lithium/Compiler/LuaStringLiteral.cs:266-270 | too few characters after `\u` or `\U` throw an out-of-range exception |
| LuaStringLiteral.OtherEscapeRejected | Lithium/Compiler/LuaStringLiteral.cs:326-327 | any other escaped character is the invalid-escape error and no text |
| LuaStringLiteral.Outcomes | Lithium/Compiler/LuaStringLiteral.cs:211-241 | one handled outcome per segment after the first |
| LuaStringLiteral.OutcomeAt | Lithium/Compiler/LuaStringLiteral.cs:211-241 | each element is the handling of its own segment, which depends only on the segments (the `ignoreNext` flag) |
| LuaStringLiteral.DecodeStep | Lithium/Compiler/LuaStringLiteral.cs:239-242 | a segment ends the decoding with its exception, or adds its piece and its errors |
| LuaStringLiteral.DecodeSegment | Lithium/Compiler/LuaStringLiteral.cs:213-240 | the loop body handles a segment as `SegmentOf` says and reports its errors |
| LuaStringLiteral.DecodeNext | Lithium/Compiler/LuaStringLiteral.cs:213-241 | the loop body is one step of `Decode` |
| LuaStringLiteral.DecodeAt | Lithium/Compiler/LuaStringLiteral.cs:211-241 | the step of the decoding at segment i |
| LuaStringLiteral.DecodeSegments | Lithium/Compiler/LuaStringLiteral.cs:208-242 | the loop and the join give the value and the errors of `Decode` over the segments |
| LuaStringLiteral.ConvertValue | Lithium/Compiler/LuaStringLiteral.cs:201-251 | the value and the errors are those `Converted` gives |
| LuaStringLiteral.ConvertedNewlines | Lithium/Compiler/LuaStringLiteral.cs:203-248 | in any text without a backslash, a CR LF becomes LF, and one that opens the literal is dropped |
| LuaStringLiteral.ConvertedEscapedBackslash | Lithium/Compiler/LuaStringLiteral.cs:219-225 | between any two backslash-free texts, `\\` gives one backslash and the text after it is kept verbatim |
| LuaStringLiteral.ZapEscape | Lithium/Compiler/LuaStringLiteral.cs:226-231 | `\z` removes the spaces, tabs, CRs and LFs after it |
| LuaStringLiteral.ConvertedInvalidEscape | Lithium/Compiler/LuaStringLiteral.cs:203-248 | between any backslash-free, CR-free texts, a backslash before a character no escape handles reports the invalid-escape error for the segment after it, and the value is the text before the backslash |
| LuaStringLiteral.BracketSkipsQuoteMatchers | Lithium/Compiler/LuaStringLiteral.cs:153-164 | at a `[` only the long-bracket matcher can open, at the same position |
| LuaStringLiteral.CloseAtFirst | Lithium/Compiler/LuaStringLiteral.cs:172-175 | without escapes the closer search stops at the first occurrence of the closer |
| LuaStringLiteral.LongBracketAttempt | Lithium/Compiler/LuaStringLiteral.cs:157-186 | at an opener of level n the long-bracket matcher closes at the first closer of level n |
| LuaStringLiteral.ScanLongBracket | Lithium/Compiler/LuaStringLiteral.cs:130-186 | a text starting with an opener of level n is a long-bracket literal up to the first closer of level n, found by a matcher without escapes |
| LuaStringLiteral.LexVerbatim | Lithium/Compiler/LuaStringLiteral.cs:186-192 | a literal of a matcher without escapes is its body unchanged: no decoding, the leading line break kept, no error |
| LuaStringLiteral.LongBracketShape | Lithium/Compiler/LuaStringLiteral.cs:132 | `[`, n `=`, `[`, a body without the closer, the closer: an opener of level n whose first closer ends the body |
| LuaStringLiteral.UnclosedQuoteMovesOn | Lithium/Compiler/LuaStringLiteral.cs:153-184 | a `'` with no quote after it opens nothing, and the next matcher starts after it since the position is not restored |
| LuaStringLiteral.QuoteSearchFails | Lithium/Compiler/LuaStringLiteral.cs:172-184 | without a later quote the search fails and leaves the position where it started |
| LongBrackets.Level | Lithium/Compiler/LuaStringLiteral.cs:132 | the number of `=` signs of an opener, followed by its `[` |
| LongBrackets.OpenerShape | Lithium/Compiler/LuaStringLiteral.cs:132 | the text matched at an opener is the prefix, `Level` equals signs and `[` |
| LongBrackets.Closer | Lithium/Compiler/LuaLongCommentTerminal.cs:81-83 | `]`, n `=` signs and `]` |
| LongBrackets.FindOpener | Lithium/Compiler/LuaLongCommentTerminal.cs:71 | the leftmost match at or after the start index, none exactly when no index matches |
| LongBrackets.ReplaceOpeners | Lithium/Compiler/LuaStringLiteral.cs:116 | the replacement of every opener with its closer, which is non-empty for a non-empty input |
| LongBrackets.OpenerOfLevel | Lithium/Compiler/LuaStringLiteral.cs:132 | `[`, n `=`, `[` is an opener of level n and length n + 2 |
| LongBrackets.ReplaceOpenerGivesCloser | Lithium/Compiler/LuaStringLiteral.cs:116 | the replacement turns an opener of level n into the closer of level n |
| LuaLongComment.Begin | Lithium/Compiler/LuaLongCommentTerminal.cs:63-76 | after `--[`, the level and the body start from the first match at or after the position |
| LuaLongComment.CloseAfter | Lithium/Compiler/LuaLongCommentTerminal.cs:77-96 | the position just past an occurrence of the closer of the level at or after the body start |
| LuaLongComment.BeginMatch | Lithium/Compiler/LuaLongCommentTerminal.cs:63-76 | false without `--[`; otherwise the level and the advanced preview position of `Begin` |
| LuaLongComment.EndSymbol | Lithium/Compiler/LuaLongCommentTerminal.cs:81-83 | the `numberOfEquals--` loop builds the closer of that level |
| LuaLongComment.CompleteMatch | Lithium/Compiler/LuaLongCommentTerminal.cs:77-96 | a comment token up to just past the closer, or none with the position at the end of the text |
| LuaLongComment.CreateIncompleteToken | Lithium/Compiler/LuaLongCommentTerminal.cs:54-61 | the rest of the text as a comment token flagged incomplete; the low byte of the line-scan state, which is the terminal index, becomes the multiline index |
| Lexing.WithLowByte | Lithium/Compiler/LuaLongCommentTerminal.cs:59 | the low byte becomes the given byte and the bytes above it keep their value |
| Lexing.ParsingContext.SetTerminalIndex | Lithium/Compiler/LuaLongCommentTerminal.cs:59 | writing the terminal index replaces the low byte of the line-scan state and keeps the bytes above it |
| LuaLongComment.TryMatch | Lithium/Compiler/LuaLongCommentTerminal.cs:33-52 | the token, the position and the line-scan state are those `Matched` gives; no parser error is reported |
| LuaLongComment.LineScanStateCleared | Lithium/Compiler/LuaLongCommentTerminal.cs:37-61 | after a match the line-scan state is 0, except after an incomplete token, where it is the multiline index |
| LuaLongComment.NoStartNoToken | Lithium/Compiler/LuaLongCommentTerminal.cs:45 | a fresh match without `--[` gives no token and moves nothing |
| LuaLongComment.BeginAtOpener | Lithium/Compiler/LuaLongCommentTerminal.cs:68-74 | at an opener the level is its number of `=` signs and the body starts right after it |
| LuaLongComment.CloseAfterFirst | Lithium/Compiler/LuaLongCommentTerminal.cs:85-94 | the comment ends just past the first closer at or after the body start |
| LuaLongComment.CloseAfterNone | Lithium/Compiler/LuaLongCommentTerminal.cs:85-91 | with no closer after the body start nothing is found |
| LuaLongComment.ClosedComment | Lithium/Compiler/LuaLongCommentTerminal.cs:47-48 | a closed comment is one token from the location to just past the first closer of its level |
| LuaLongComment.UnclosedCommentToken | Lithium/Compiler/LuaLongCommentTerminal.cs:47-51 | with no closer the position moves to the end: an unclosed-comment error token, or in line-scan mode an incomplete comment token |
| LuaLongComment.ResumedScanSearchesLevelZero | Lithium/Compiler/LuaLongCommentTerminal.cs:36-61 | a resumed line scan skips the opener and looks for `]]` from the position; found, the state is cleared, not found in line-scan mode, it holds the multiline index |
| LuaLongComment.CommentBegin | Lithium/Compiler/LuaLongCommentTerminal.cs:68-74 | at `--[`, n `=` signs and `[` the level is n and the body starts at n + 4 |
| LuaLongComment.CommentClose | Lithium/Compiler/LuaLongCommentTerminal.cs:81-94 | a body free of the closer of level n ends at the closer that follows it |
| LuaLongComment.WholeComment | Lithium/Compiler/LuaLongCommentTerminal.cs:33-52 | `--[==[ body ]==]`, with no closer inside the body, is one comment token |
| LuaLongComment.BareStartIsLongComment | Lithium/Compiler/LuaLongCommentTerminal.cs:68-74 | a `--[` with no long-bracket opener after it still opens a level-0 comment that runs to the next `]]` |
| Text.IndexOf | Lithium/Compiler/LuaLongCommentTerminal.cs:85 | -1, or an occurrence at or after the start index |
| Text.IndexOfFirst | Lithium/Compiler/LuaLongCommentTerminal.cs:85 | the first occurrence is found, and -1 exactly when there is none |
| Text.Split | Lithium/Compiler/LuaStringLiteral.cs:208 | separator-free parts whose join is the input |
| Text.SplitJoinWith | Lithium/Compiler/LuaStringLiteral.cs:208 | splitting a join of separator-free parts gives the parts back |
| Text.NormalizeNewlines | Lithium/Compiler/LuaStringLiteral.cs:203 | not longer than the input, and the input itself when it has no CR |
| Text.NormalizeNewlinesAfter | Lithium/Compiler/LuaStringLiteral.cs:203 | a prefix without CR is left as it is, and the rest is normalised on its own |
| Text.TrimStart | Lithium/Compiler/LuaStringLiteral.cs:229 | the input without its longest prefix of trimmed characters |
| Text.TrimStartPrefix | Lithium/Compiler/LuaStringLiteral.cs:229 | a prefix of trimmed characters is exactly what is removed |
| Text.LowerAscii | src/license/container.go:257 | the same length, each character lower-cased |
| Text.LowerAsciiIdempotent | src/license/container.go:257 | lower-casing twice is lower-casing once |
| Validator.IsValid | src/license/validator.go:11-31 | success, and then true, exactly when the metadata is present, `now` lies in the closed window and a payload is present; otherwise one of the four messages |
| Validator.FirstFailureDecides | src/license/validator.go:11-30 | each error corresponds exactly to the first failing check in the order metadata, activation, expiry, payload |
| Validator.WindowBoundsInclusive | src/license/validator.go:18-24 | `now` equal to the activation or the expiry time passes, and an empty payload map is accepted |
| Validator.ValidCarriesBetween | src/license/validator.go:18-24 | the instants at which a license is valid form an interval |
| Validator.ValidityIgnoresContents | src/license/validator.go:12-28 | validity depends only on the window and on whether a payload is present |
| LicenseContainer.HashByName | src/license/container.go:256-267 | the hash whose name equals the lower-cased algorithm; any other name is the unsupported-hash error naming it |
| LicenseContainer.Sign | src/license/container.go:178-200 | a bad hash name is its error; success keeps payload and certificates and records the lower-cased algorithm |
| LicenseContainer.SignRecordsUsableAlgorithm | src/license/container.go:194-197 | the recorded algorithm names the same hash as the one given |
| LicenseContainer.SignedContainerEncodes | src/license/container.go:66-72 | a signed container always encodes |
| LicenseContainer.CertificateBlocks | src/license/container.go:82-87 | one block per certificate |
| LicenseContainer.CertificateBlocksAt | src/license/container.go:82-87 | block i carries certificate i |
| LicenseContainer.EncodeContainer | src/license/container.go:48-90 | the blocks or the error `Encoding` gives |
| LicenseContainer.EncodingNeedsSignature | src/license/container.go:51-87 | failure exactly without a signature or with an empty algorithm; otherwise key, license and signature blocks, then one certificate block per certificate in order |
| LicenseContainer.ParseContainer | src/license/container.go:93-149 | the container or the error `Parsing` gives |
| LicenseContainer.ScanAppend | src/license/container.go:100-142 | scanning a concatenation scans the first part and then the second from the result |
| LicenseContainer.ScanCertificateBlocks | src/license/container.go:134-140 | certificate blocks that parse back append their certificates in order |
| LicenseContainer.ParseEncoded | src/license/container.go:48-149 | with base64 and certificate parsing undoing their encodings, parsing an encoded container gives the container back |
| LicenseContainer.ScanCertificatesInOrder | src/license/container.go:134-140 | a successful scan appends one parsed certificate per certificate block, in file order |
| LicenseContainer.UnknownBlockIgnored | src/license/container.go:108-141 | a block of another type changes nothing |
| LicenseContainer.SignatureAlgorithmDefault | src/license/container.go:123-132 | a signature block without an `algorithm` header records "sha256" |
| LicenseContainer.LaterSignatureWins | src/license/container.go:123-132 | a signature block at the end overrides any earlier signature |
| LicenseContainer.LaterKeyWins | src/license/container.go:108-110 | a license key block at the end overrides the key and nothing else |
| LicenseContainer.LaterLicenseWins | src/license/container.go:112-121 | a license block at the end with a decodable `iv` overrides data, algorithm and IV and nothing else |
| LicenseContainer.BadIvFails | src/license/container.go:116-119 | a license block whose `iv` does not decode fails the parse with the decoder's error, whatever follows |
| LicenseContainer.ParseNeedsSignatureBlock | src/license/container.go:144-146 | without a signature block parsing fails |
| LicenseContainer.NoSignatureStaysNone | src/license/container.go:144-146 | only a signature block sets the signature |
| LicenseContainer.ChainErrorNone | src/license/container.go:213-218 | no chain error exactly when every certificate from index i on checks against its predecessor |
| LicenseContainer.ValidityCharacterised | src/license/container.go:204-243 | valid exactly when the chain starts at the root, each link checks, and the payload signature verifies against the last certificate's RSA key |
| LicenseContainer.IsValid | src/license/container.go:204-243 | the chain-check loop gives the result of `Validity` |
| CertManager.Prepare | src/license/cert_manager.go:114-140 | a CA exactly for a non-empty pack, with the matching key usage; subject from the request with the product's name, the license ID, organization and unit; fixed issuer; validity from the license; names and key from the request |
| CertManager.KeyUsageOfPrepared | src/license/cert_manager.go:124-132 | certificate signing is granted exactly to a CA; signing and data encipherment always; nothing else |
| CertManager.CommonNameShape | src/license/cert_manager.go:134 | the common name is the product name, ` (`, the product ID and `)` |
| CertManager.CertificateFilePath | src/license/cert_manager.go:187-189 | the folder, a slash and the file, an empty element dropped |
| CertManager.FilePathComponents | src/license/cert_manager.go:187-189 | the path splits into the folder's components followed by the file name |

## Behaviour worth noting

The model follows the code in each of these cases.

- **Long-bracket strings.** Section 3.1 of the Lua 5.2 Reference Manual says a long bracket string skips a newline that comes right after its opening bracket. The string terminal never calls `ConvertValue` for the long-bracket matcher, which carries `NoEscapes` (Lithium/Compiler/LuaStringLiteral.cs:132, :189-190), so that newline stays in the value (`LuaStringLiteral.LexVerbatim`). A quoted literal without a backslash, by contrast, does lose a leading LF (`LuaStringLiteral.ConvertedNewlines`).
- **Missing variables.** The doc comments of `GetVariableForRead` and `WriteVariable` (Lithium/Compiler/CompilationScope.cs:87-91, :101-104) promise that a name no scope declares is read from, or written to, the global environment.
  - The code calls the global accessor only at a parentless scope without locals, and that accessor throws `NotImplementedException` (Lithium/Compiler/Expressions.cs:23, :28).
  - A missing name under a root that has locals dereferences a null parent (`CompilationScope.GetVariableForRead`, `CompilationScope.WriteVariable`).
- **Local function parameters.** The parameters are built with a lazy `Select` (Lithium/Compiler/Generator.cs:100), which runs only when `Expr.Lambda` reads them, after `CompileBlock` has compiled the body. So they are registered after the body's locals (`Generator.Generator.CompileLocalFunction`).
- **Unimplemented statements.** Statement kinds the generator names but does not implement throw `NotImplementedException` (Lithium/Compiler/Generator.cs:44, :59); only a term it does not name raises a `LithiumCompilerException` (Lithium/Compiler/Generator.cs:66; `Generator.Generator.CompileStatement`).
- **Failed string matchers.** `TryMatch` of the string literal does not restore the preview position between matchers. A quote that is never closed therefore moves the next matcher's start past it (`LuaStringLiteral.UnclosedQuoteMovesOn`).
- **Block comments.** The long-comment regex is searched from the position rather than anchored there. A `--[` with no long-bracket opener after it still starts a block comment, ending at the next `]]` (`LuaLongComment.BareStartIsLongComment`); Lua itself would read a line comment.

## Left out

- Irony itself is not part of this model: the LALR parser, `Terminal` registration, `TokenEditorInfo`, `GetFirsts`, brace pairs and the grammar in `Language.cs`.
- The terminals' `Init` is left out. For the editor it only sets up editor info; for the string literal the matcher list it builds is the constant `LuaStringLiteral.Matchers`.
- The message text of exceptions and parser errors is left out. Each is represented by its kind and its arguments.
- Evaluation of the emitted expression tree is modelled only for constants, variables and the type tests, `Not`, `Equal` and `Condition` nodes that conditions are built from. Blocks, lambdas, gotos and assignments are only built.
- The source spans of scopes and nodes are left out, because nothing the core decides depends on them.
- Statement kinds the generator does not implement (assignments, calls, loops, `IfStatement` in `CompileStatement`, global functions) are modelled only as the exception they throw.
- Go: the PEM text framing (`pem.Encode`, `pem.Decode`) is not modelled; the model takes and gives the decoded `seq<Block>`.
- Go: base64, `x509.ParseCertificate`, `CheckSignatureFrom`, `computeHash`, `rsa.SignPSS` and `rsa.VerifyPSS` are function-valued parameters, not modelled.
- Go: payload encryption (`payload.go`), JSON (`data.go`), keys and files (`key_manager.go`), `CreateRoot`, `Sign`, `GetLocal` and `SetLocal` of `cert_manager.go`, and `Container.License`/`SetLicense` are not part of this model. Each of them is I/O or a call into a cryptography library.
- Go: JSON payload values are kept as strings.
- LicenseContainer.Sign: returns the updated container instead of assigning through the receiver pointer, and the signing randomness is inside the supplied `signPSS`.
- LicenseContainer.IsValid: reading a nil `Signature` panics in Go; the model returns that run-time error as a failure value.
- CertManager.Prepare: requires the license metadata to be present, since the Go code dereferences it unconditionally (a nil `Meta` panics).
- CertManager.CertificateFilePath: `filepath.Join` also cleans the path (removes `.`, `..` and doubled separators); the model joins with `/` for non-empty elements only.
- Text.IndexOf: compares characters exactly. The code's `string.IndexOf(string, int)` calls (Lithium/Compiler/LuaStringLiteral.cs:172, Lithium/Compiler/LuaLongCommentTerminal.cs:85) are culture-sensitive in .NET and skip ignorable characters such as the soft hyphen U+00AD, so "]", U+00AD, "]" matches "]]" there but not in the model; culture data is outside the model.
- The argument checks of the System.Linq.Expressions factories are not modelled: `Expression.Block` wants at least one expression and a result type that fits the last one, `TypeAs` wants a reference or nullable type (so a `TypeAs` to `bool` throws), `Equal` wants an equality operator for its operand types (none is defined between `double` and `object`), and `NewArrayInit` wants elements of the array's type. The model builds every node it is given.
- Text.LowerAscii: `strings.ToLower` and `char.ToLower` are modelled on ASCII letters only; other characters are left as they are.
- LuaStringLiteral.CodeUnit: a decoded code in the surrogate range U+D800–U+DFFF is not a Dafny character and is mapped to U+FFFD; codes above U+FFFF are truncated to 16 bits as the cast does.
- LuaStringLiteral.StartsWith: the case-insensitive comparison uses ASCII lower-casing (the grammar is case-sensitive, so the branch does not arise in Lithium).
- LuaLongComment.TryMatch: `VsLineScanState` is modelled as its `Value`, with `TerminalIndex` as its low byte as Irony lays them out; its other overlaid fields (`TokenSubType`, `TerminalFlags`) are not read. Which `MultilineIndex` Irony assigns the terminal is a parameter: with 0 an incomplete comment leaves the state 0, and the next line is scanned afresh.
