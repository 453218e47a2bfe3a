# Kaleidoscope compiler and LLVM passes: a verified model

This project models two parts of the repository and proves what they are for.

**The Kaleidoscope front end** (`kaleidoscope/`): the tokeniser, the precedence-climbing parser with its
run-time operator table, the code generator that turns the syntax tree into blocks with stack slots,
branches and phis, and the read loop that drives them.  The main theorems go from a text to what its
functions do (`EndToEnd.TextCorrect`), and say exactly which texts are which tokens, which tokens are which
expressions and which expressions are accepted.

**The LLVM passes** (`MergeBB.cpp`, `DuplicateBB.cpp`, `RIV.cpp`, `MBAAdd.cpp`, `MBASub.cpp`): each pass is
proved to leave results and effects of every safe run as they were, for whole functions and whole runs of
the pass, and the analysis is proved equal to its declarative definition.

## How it is built

| part | files |
|---|---|
| shared | `Prelude`, `Ast` |
| target machine and source meaning | `Machine`, `Semantics` |
| code generation as functions on the generator's state | `Codegen`, `CodegenFacts` |
| the methods that update the builder in place | `Generator` |
| scopes and acceptance | `Scope`, `Scoping`, `Safety`, `Acceptance` |
| simulation | `Simulation`, `Correctness`, `Leaving`, `Programs` |
| shape of the emitted code | `WellFormed`, `SingleAssignment`, `Availability` |
| tokens and parsing functions | `Tokens`, `Lexing`, `Parsing` |
| concrete syntax | `Grammar`, `GrammarComplete`, `GrammarSound` |
| printing | `Printer`, `Shortest` |
| what tokens can be, what errors leave and where they are found | `Symbols`, `Reading`, `Offending` |
| lexer, parser and driver as classes | `Scanner`, `Descent`, `Frontend`, `Operators`, `Driver`, `EndToEnd` |
| a common form for the passes' functions | `Ssa`, `Renaming` |
| reachable integer values and block duplication | `Riv`, `Dominance`, `Duplicate`, `DuplicateProof`, `DuplicateRun`, `Shapes`, `Duplicator` |
| merging of duplicate blocks | `Merge`, `MergeProof`, `MergePass`, `Merger` |
| arithmetic rewrites | `Mba`, `MbaProof`, `MbaRun`, `MbaLeft`, `Rewriter` |

Code that updates state in the source is a class here (`Builder`, `Lexer`, `Parser`, `Loop`, `Pass`,
`LockstepReverseIterator`, `MergeBB`, `Substitution`) whose methods are proved to compute functions on
values; the theorems are about those functions.  Exceptions are results of type `Result`.

Some helper lemmas end in `== true`: written that way, a predicate in a postcondition is handled as a whole.

## What is assumed

- Doubles are bit patterns; the operations on them, `strtod` and what external functions return are
  parameters, the same for source and machine.  `if` and `for` test "ordered and not equal to 0", `<` is
  "unordered or less than".
- Prototypes seen for one name agree on the number of parameters (`Programs.Follows`).
- No `var` list repeats a name, for the theorems on behaviour; what happens otherwise is exactly
  `Scope.ScopeRestoredIff`.
- The left-hand side of `=` is cast without a check in the source; a left-hand side that is not a variable
  is an error of its own here.
- The parameters of one function have different names (`EndToEnd.NoRepeatedNames`): LLVM renames a repeated
  one, which is not modelled.
- When a definition fails and its function is erased, no code compiled before calls that function
  (`Programs.NothingDangles`).
- The passes' functions are in single-assignment form, registers and labels are numbered below known bounds,
  all inputs are set when a function is called and the original function's run is safe: it reads no undefined
  register and finds every phi entry it needs.
- Reachable integer values are computed from a dominator tree that is taken as given; the theorems require
  that it is one.
- The pass that merges blocks compares phi operands but not where they come from.  Merging is right for
  blocks without phis, and for blocks with phis when these have the same entries for the blocks that branch
  to the erased one; `MergePass.EntersAlikeIff` says that this is exactly when the phis take the same values,
  and `MergePass.MergeCanLoseEntries` and `MergePass.MergeCanSwapEntries` show what happens otherwise.  For
  the whole pass the assumption is `MergePass.AlikeFromSame`: of two blocks that end in an unconditional
  branch and consist of the same operations on the same operands, the phis take these from the same blocks.
  It says nothing about other blocks and holds when such blocks have no phis.
- Phis have a type other than void, debug intrinsics no result, and unconditional branches no operand.
- Which value is tested and in which order blocks are taken is arbitrary in block duplication; the order of
  blocks is arbitrary in the other passes.

## Model

| member | source | states |
|---|---|---|
| EndToEnd.TextCorrect | kaleidoscope/parser.cpp:387-408 | Whatever text the driver reads, every accepted function, called on the machine, ends with exactly the result and external events of its source meaning, runs forever exactly when the source does, makes the same events in the same order whether it ends or not, and never reads an undefined register or slot; given that prototypes agree on parameter counts, no list repeats a name and no erased function is still called |
| EndToEnd.TextWellFormed | kaleidoscope/ast.cpp:287-300 | Whatever text is read, every compiled function has well-formed blocks, and each register in it has one definition, which dominates its uses |
| EndToEnd.TextAccepts | kaleidoscope/parser.cpp:387-408 | Whatever text is read, if its prototypes of one name have the same parameters, the functions it compiles are those that scoping alone names: each definition whose name is new among the accepted ones and whose body is well-scoped over its parameters and the names of the items up to it, and no others |
| Programs.SessionCorrect | kaleidoscope/ast.cpp:272-306 | The same for any list of definitions and externs handled in order, mutual and self recursion included, whose operators are symbols and whose functions under an operator's name have its number of operands |
| Symbols.LoopSymbols | kaleidoscope/parser.cpp:387-408 | Every item of every token sequence that the tokeniser can produce is such an item, so that texts need no such condition |
| Programs.CallEndsIff | kaleidoscope/ast.cpp:239-254 | A call halts the machine with a result and events if and only if the source call ends with them |
| Programs.CallDivergesIff | kaleidoscope/ast.cpp:197-237 | The machine never stops if and only if the source call exceeds every bound on calls and iterations |
| Programs.CallEventsIff | kaleidoscope/ast.cpp:197-254 | Whatever sequence of events a source call begins with, its machine run begins with, and the other way round, also when neither ever ends |
| Programs.CallNeverWrong | kaleidoscope/ast.cpp:79-86 | No step of a call reads an unset register or slot, leaves the code or misses a phi entry |
| Programs.DefinitionEffect | kaleidoscope/ast.cpp:272-306 | What one definition does to the other functions and to the prototypes on success and on every kind of failure, and that the body it adds on success is the one compiled; when it succeeds is Acceptance.AcceptedIff |
| Programs.BodyAcceptedIff | kaleidoscope/ast.cpp:290-305 | A body is accepted exactly when it is well-scoped over the parameters, which have different names, and the functions known |
| Acceptance.AcceptedIff | kaleidoscope/ast.cpp:272-306 | After any items whose prototypes agree on arities, a definition is accepted, and adds its function and its meaning, if and only if no definition of its name has been and its body is well-scoped over its parameters and the names of all items so far and its own; a rejected one adds no meaning, and erases its function unless that has a body, which stays |
| Acceptance.KnownExact | kaleidoscope/ast.cpp:65-73 | The functions that can be called after any items are those the items name, externs and rejected definitions included, each with its number of parameters |
| Acceptance.ExternDeclares | kaleidoscope/parser.cpp:340-348 | An extern makes its name a function of the module without a body, unless it is one already, and changes no function and no meaning |
| Acceptance.SessionAccepts | kaleidoscope/parser.cpp:319-355 | The meanings that a whole session leaves are those that scoping alone gives, without a module |
| Programs.InvariantKept | kaleidoscope/ast.cpp:272-306 | Every session keeps: bodies compiled from their sources, arities consistent, bodies well-scoped |
| Correctness.SimExpr | kaleidoscope/ast.cpp:75-254 | From the insert point before `codegen` the machine reaches the one after it for the first time with the value in the operand returned, the slots in scope holding the variables, and earlier registers and other slots unchanged; if the source needs more than k calls and iterations, the machine has after at least k steps made the same events and not reached the end of the code |
| Leaving.ExitIff | kaleidoscope/ast.cpp:75-254 | Control leaves the code of an expression if and only if the source evaluation ends |
| Leaving.FirstExit | kaleidoscope/ast.cpp:75-254 | The first time it does, value, variables and events are those of the source |
| Leaving.EndlessIff | kaleidoscope/ast.cpp:197-237 | A source evaluation that never ends, such as an endless `for`, is a run that stays in the code emitted for it |
| Correctness.SimVar | kaleidoscope/ast.cpp:88-110 | The simulation for `var`: initial values see the names before them, shadowed names get their slot and value back |
| Correctness.SimUnary | kaleidoscope/ast.cpp:112-120 | The simulation for unary operators as calls |
| Correctness.SimAssignment | kaleidoscope/ast.cpp:123-136 | The simulation for `=`: the slot of the variable is set and the value is the result |
| Correctness.SimBinary | kaleidoscope/ast.cpp:138-163 | The simulation for binary operators; the first operand survives the evaluation of the second |
| Correctness.SimIf | kaleidoscope/ast.cpp:165-195 | The simulation for `if`: the arm chosen by "ordered and not equal to 0" is run and the phi delivers its value |
| Correctness.SimLoop | kaleidoscope/ast.cpp:212-227 | Each turn of a loop runs body, step and end condition before the variable is incremented, in slots that every iteration reuses; while the loop goes on control stays in it |
| Correctness.SimFor | kaleidoscope/ast.cpp:197-237 | The simulation for `for`, with result 0 and the outer binding of the variable restored |
| Correctness.SimCall | kaleidoscope/ast.cpp:239-254 | The simulation for calls: arguments from left to right, then the callee |
| Correctness.SimApply | kaleidoscope/ast.cpp:239-254 | A call instruction does what applying the function means: an activation of its own for a defined function, an event for an external one |
| Correctness.SimFunction | kaleidoscope/ast.cpp:287-300 | A compiled body, entered with its arguments, returns what the source body evaluates to |
| Correctness.LeaveScope | kaleidoscope/ast.cpp:102-108 | When a scope is left, the shadowed binding and its slot are as they were |
| Scope.ScopeAfter | kaleidoscope/ast.cpp:88-110 | Generating code for an expression rebinds exactly the names that leak, each to a slot of its own |
| Scope.ScopeRestoredIff | kaleidoscope/ast.cpp:92-108 | `NamedValues` is put back if and only if nothing leaks, that is no `var` list overwrites a saved binding |
| Scope.NoRepeatsNoLeaks | kaleidoscope/ast.cpp:92-108 | Nothing leaks when no `var` list repeats a name |
| Scoping.ScopingExact | kaleidoscope/ast.cpp:79-254 | `codegen` succeeds exactly for expressions that are well-scoped by a judgement on names and arities alone, and leaves the scope as it was |
| Scoping.ExprGrows | kaleidoscope/ast.cpp:65-73 | Whether it succeeds or throws, generating an expression only adds declarations of remembered prototypes |
| Safety.EvalSafe | kaleidoscope/ast.cpp:79-254 | Evaluating a well-scoped expression never gets stuck and leaves the same variables in scope |
| CodegenFacts.GenExprExtends | kaleidoscope/ast.cpp:75-254 | Code generation appends to the current block, adds blocks, and changes no other block, register or slot |
| WellFormed.ExprGrown | kaleidoscope/ast.cpp:75-254 | The blocks an expression adds are all terminated but the current one, branch only among themselves, are inserted once each, and have exact phis |
| WellFormed.IfGrown | kaleidoscope/ast.cpp:170-193 | However the arms nest, the merge block's phi lists exactly the blocks that branch to it |
| WellFormed.LoopGrown | kaleidoscope/ast.cpp:203-227 | The blocks of a loop are closed off in the same way |
| WellFormed.DefinitionWellFormed | kaleidoscope/ast.cpp:287-300 | Every block of an accepted function has one terminator, is in the layout once, branches stay inside and never return to the entry |
| SingleAssignment.DefinitionDefinesOnce | kaleidoscope/ast.cpp:287-300 | No register of an accepted function is defined by two instructions or phis |
| Availability.DefinitionDominated | kaleidoscope/ast.cpp:287-300 | On every path from the entry of an accepted function to a use of a register the register has been defined, and to a phi each operand has been when its block ends |
| Availability.ExprMore | kaleidoscope/ast.cpp:75-254 | Registers available at the start of each block, as a solution of the data-flow conditions, extend to the blocks of an expression, and its result is available where it ends |
| Availability.IfMore | kaleidoscope/ast.cpp:170-193 | Each arm of an `if` has what was available before the branch, and the phi takes each value from the end of the arm that computed it |
| Availability.CertifiedDominated | kaleidoscope/ast.cpp:287-300 | Any solution of the data-flow conditions makes definitions dominate uses |
| Generator.Builder.CreateEntryBlockAlloca | kaleidoscope/ast.cpp:59-63 | A new slot is put in front of the entry block's slots |
| Generator.Builder.FindFunction | kaleidoscope/ast.cpp:65-73 | The module is consulted first, then the prototypes, which get declared |
| Generator.Builder.CodegenVariable | kaleidoscope/ast.cpp:79-86 | The builder's fields and the result or exception are those of the specification for variables |
| Generator.Builder.CodegenVarIn | kaleidoscope/ast.cpp:88-110 | The same for `var`: the two loops over the list and the saved bindings |
| Generator.Builder.CodegenUnary | kaleidoscope/ast.cpp:112-120 | The same for unary operators |
| Generator.Builder.CodegenBinary | kaleidoscope/ast.cpp:122-163 | The same for assignment, built-in and user-defined operators |
| Generator.Builder.CodegenIf | kaleidoscope/ast.cpp:165-195 | The same for `if`, blocks inserted in the order of the source |
| Generator.Builder.CodegenFor | kaleidoscope/ast.cpp:197-237 | The same for `for` |
| Generator.Builder.CodegenCall | kaleidoscope/ast.cpp:239-254 | The same for calls |
| Generator.Builder.CodegenExpr | kaleidoscope/ast.cpp:75-254 | The same for every expression |
| Generator.Builder.CodegenPrototype | kaleidoscope/ast.cpp:256-270 | A prototype is declared unless its name is taken |
| Generator.Builder.StoreParams | kaleidoscope/ast.cpp:290-295 | Each argument is copied to a fresh slot |
| Generator.Builder.CodegenDefinition | kaleidoscope/ast.cpp:272-306 | Module and prototypes afterwards, and the function or exception, are those of the function on values that Acceptance.AcceptedIff, Programs.DefinitionEffect and Correctness.SimFunction are about |
| Parsing.ParseExpression | kaleidoscope/parser.cpp:179-182 | A success uses up at least one token and an error puts none back |
| Reading.ExpressionRemains | kaleidoscope/parser.cpp:148-215 | What `parseExpression` leaves, after a success or an error, are the last of the tokens it was given |
| Reading.PrototypeRemains | kaleidoscope/parser.cpp:219-285 | The same for prototypes |
| Symbols.PrototypePlain | kaleidoscope/parser.cpp:219-285 | A prototype that parses has the name of an operator only if it is one, with its number of operands |
| GrammarSound.AcceptsIff | kaleidoscope/parser.cpp:148-215 | `parseExpression` succeeds with an expression and a rest exactly when some well-formed tree spells the tokens before the rest: left operands bind at least as tightly, right operands more tightly, and nothing runs on into the next token |
| GrammarSound.Unambiguous | kaleidoscope/parser.cpp:148-215 | No tokens have two readings |
| Offending.GivesUpAtFirst | kaleidoscope/parser.cpp:7-215 | When `parseExpression` gives up, the tokens before the current one are the beginning of some expression, and with the current one they are not, whatever follows; so the error is found at the first token that does not fit, or at the end of the tokens |
| Offending.TableOkContinues | kaleidoscope/parser.cpp:7-215 | What has been read when it gives up always begins an expression if and only if neither `)` nor `,` is a binary operator |
| Offending.ExpressionLocal | kaleidoscope/parser.cpp:7-215 | Success or error, with expression and position, depend on the tokens used up and the one after them only |
| Offending.PrototypeLocal | kaleidoscope/parser.cpp:219-285 | The same for prototypes |
| GrammarSound.ExpressionSound | kaleidoscope/parser.cpp:179-182 | Whatever is accepted is such a tree, token for token |
| GrammarSound.SpineSound | kaleidoscope/parser.cpp:195-215 | The loop of precedence climbing turns a tree not looser than `prec` into a larger one, and stops at a token below `prec` |
| GrammarSound.UnarySound | kaleidoscope/parser.cpp:184-193 | The same for unary operators, which any ASCII token but `(` and `,` may be |
| GrammarSound.IdentifierSound | kaleidoscope/parser.cpp:23-49 | The same for variables and calls |
| GrammarSound.IfSound | kaleidoscope/parser.cpp:51-69 | The same for `if` |
| GrammarSound.ForSound | kaleidoscope/parser.cpp:71-108 | The same for `for` with its optional step |
| GrammarSound.VarSound | kaleidoscope/parser.cpp:110-146 | The same for `var` lists |
| GrammarComplete.ExpressionParsed | kaleidoscope/parser.cpp:179-182 | Every well-formed tree is parsed, up to its end and no further |
| GrammarComplete.SpineParsed | kaleidoscope/parser.cpp:195-215 | Reading the rest of a left spine builds the tree when the next token binds no tighter than its root |
| Printer.RoundTrip | kaleidoscope/parser.cpp:148-215 | Printing with only the parentheses needed and parsing gives the expression back and stops at the following token |
| Printer.WritableIff | kaleidoscope/parser.cpp:148-215 | Some tokens parse to an expression exactly when its operators are in the tables and its `var` lists are not empty |
| Printer.TableOkIff | kaleidoscope/parser.cpp:167-177 | Every such expression can be written exactly when neither `)` nor `,` is a binary operator |
| Shortest.PrintShortest | kaleidoscope/parser.cpp:13-21 | No shorter token sequence parses to the same expression than the printed one |
| Descent.Parser.GetNextToken | kaleidoscope/parser.h:23-25 | One token is dropped; at the end of the input nothing is |
| Descent.Parser.ParseNumberExpr | kaleidoscope/parser.cpp:7-11 | Result and tokens left are those of the parsing function for a number |
| Descent.Parser.ParseParenExpr | kaleidoscope/parser.cpp:13-21 | The same in parentheses, or the error |
| Descent.Parser.ParseIdentifierExpr | kaleidoscope/parser.cpp:23-49 | The same for variables and calls, the loop over the arguments included |
| Descent.Parser.ParseIfExpr | kaleidoscope/parser.cpp:51-69 | The same for `if` |
| Descent.Parser.ParseForExpr | kaleidoscope/parser.cpp:71-108 | The same for `for` |
| Descent.Parser.ParseVarExpr | kaleidoscope/parser.cpp:110-146 | The same for `var` |
| Descent.Parser.ParseVarNames | kaleidoscope/parser.cpp:118-137 | The same for the loop over the names of a `var` list |
| Descent.Parser.ParsePrimaryExpr | kaleidoscope/parser.cpp:148-165 | The same for the choice by the first token |
| Descent.Parser.ParseExpr | kaleidoscope/parser.cpp:179-182 | The same for a whole expression |
| Descent.Parser.ParseUnaryExpr | kaleidoscope/parser.cpp:184-193 | The same for unary operators |
| Descent.Parser.ParseBinaryRHS | kaleidoscope/parser.cpp:195-215 | The same for the loop of precedence climbing |
| Descent.Parser.ParseProto | kaleidoscope/parser.cpp:219-285 | The same for prototypes: operators with their operand count, precedence 30 or a number from 1 to 100 |
| Descent.Parser.ParseDef | kaleidoscope/parser.cpp:287-292 | The same for definitions |
| Descent.Parser.ParseTopLevelExpr | kaleidoscope/parser.cpp:294-299 | The same for top-level expressions |
| Descent.Parser.ParseExternDecl | kaleidoscope/parser.cpp:301-304 | The same for externs |
| Frontend.NextItem | kaleidoscope/parser.cpp:319-385 | Every turn of the loop, successful or not, leaves fewer tokens |
| Frontend.LoopHandlesItems | kaleidoscope/parser.cpp:387-408 | Whatever the mix of errors, all tokens are read, and session and precedence table are those left by handling the items that parsed, in order; what one item does to the table is Operators.TurnExact |
| Frontend.ProtoRoundTrip | kaleidoscope/parser.cpp:219-285 | A printed prototype is read back |
| Frontend.ProgramRoundTrip | kaleidoscope/parser.cpp:387-408 | A printed program, each item under the table its predecessors left, is handled item by item |
| Operators.PrototypeAcceptsIff | kaleidoscope/parser.cpp:219-285 | A prototype is accepted, with the tokens after it left, exactly when the tokens before them spell it: a name, or an operator with as many parameters as it has operands, the precedence being 30 or the whole part of a number from 1 to 100 after a binary operator, and a last comma being allowed |
| Operators.TurnExact | kaleidoscope/ast.cpp:272-285 | After any turn of the loop every token has the precedence it had, except for the character of a binary operator that the turn defines and whose function has no body yet: that has the precedence of the definition |
| Operators.OperatorRead | kaleidoscope/parser.cpp:195-215 | From then on the character between two names is read as the operator applied to them |
| Operators.ReadsBinaryIff | kaleidoscope/parser.cpp:167-215 | Under any table a character between two names is a binary operator exactly when it is ASCII and its entry is positive, and reading stops in front of it otherwise |
| Operators.ReadsUnaryIff | kaleidoscope/parser.cpp:184-193 | Under any table a character in front of a name is a unary operator exactly when it is ASCII and neither an opening parenthesis nor a comma, and an error otherwise |
| Operators.SkipsOneToken | kaleidoscope/parser.cpp:333-335 | After a token that nothing can start with, alone or behind `def` or `extern`, the loop goes on with the token that follows it |
| Operators.ErrorSkips | kaleidoscope/parser.cpp:319-385 | After an error in a definition, an extern or an expression, the loop goes on with what stands behind the token at which the parser gave up, whatever that is |
| Operators.ExpressionErrorSkips | kaleidoscope/parser.cpp:357-385 | For an expression the token skipped is the first with which the tokens begin no expression; if all of them begin one, they are used up |
| Operators.ItemReadIff | kaleidoscope/parser.cpp:287-304 | The next turn handles an item exactly when the tokens in front spell it: `extern` and a prototype, `def`, a prototype and an expression, or an expression under the name `__anon_expr` |
| Driver.Loop.Generate | kaleidoscope/ast.cpp:272-285 | Session, items and precedence table are updated as the specification says, the table before the body is generated; Operators.TurnExact and Acceptance.AcceptedIff say what that comes to |
| Driver.Loop.HandleDefinition | kaleidoscope/parser.cpp:319-338 | One turn: the definition is handled, or one token is skipped after a syntax error |
| Driver.Loop.HandleExtern | kaleidoscope/parser.cpp:340-355 | One turn for an extern, which declares and remembers it as Acceptance.ExternDeclares and Acceptance.KnownExact say, or skips one token after a syntax error |
| Driver.Loop.HandleTopLevelExpression | kaleidoscope/parser.cpp:357-385 | One turn for an expression |
| Driver.Loop.Run | kaleidoscope/parser.cpp:387-408 | The loop ends, in the state and with the items that the specification gives for the whole input |
| Symbols.LexedApart | kaleidoscope/lexer.cpp:9-69 | Whatever the text, no single-character token is a letter or digit, and names have nothing else |
| Lexing.GetTok | kaleidoscope/lexer.cpp:4-69 | Every token but the end uses up characters, and at the end nothing is left |
| Lexing.LexIff | kaleidoscope/lexer.cpp:4-69 | A text has these tokens exactly when it spells them in order with blanks and comments in between and no token running into the next character |
| Lexing.LexRender | kaleidoscope/lexer.cpp:4-69 | Any rendering of spellable tokens, whatever blanks and comments it has, is read back |
| Lexing.LayoutFor | kaleidoscope/lexer.cpp:4-69 | Every text is such a rendering |
| Lexing.LetterStartsWord | kaleidoscope/lexer.cpp:9-45 | A letter starts the longest run of ASCII letters and digits, which is a name unless it is one of the ten keywords |
| Lexing.DigitStartsNumber | kaleidoscope/lexer.cpp:46-54 | A digit or a point starts the longest run of digits and points, which is a number |
| Lexing.OtherCharacters | kaleidoscope/lexer.cpp:4-69 | The six blanks are passed over, and so is `#` with the rest of its line; any other character is a token of its own |
| Scanner.Lexer.GetToken | kaleidoscope/lexer.cpp:4-69 | The token returned, the characters left and the text of identifier and number are those of the specification |
| Scanner.Lexer.ReadWord | kaleidoscope/lexer.cpp:9-45 | The same for identifiers and keywords |
| Scanner.Lexer.ReadNumber | kaleidoscope/lexer.cpp:46-54 | The same for numbers |
| Scanner.Lexer.DropComment | kaleidoscope/lexer.cpp:55-61 | A comment is dropped up to its line end, which is left |
| EndToEnd.ExpressionText | kaleidoscope/parser.cpp:179-182 | Any layout of a printed expression is tokenised and parsed to that expression |
| EndToEnd.ProgramText | kaleidoscope/parser.cpp:387-408 | Any layout of a printed program is compiled as the list of its items |
| Riv.Run | RIV.cpp:34-51 | The worklist ends and gives each block of the dominator tree the set that the recursive definition gives it |
| Dominance.RivExact | RIV.cpp:12-51 | A value is listed for a reachable block exactly when it is an integer input or defined with integer type in a strict dominator |
| Dominance.ListedIff | RIV.cpp:12-51 | What is listed for a block, reachable or not, are exactly the integer inputs and the values that a phi or an instruction with integer type defines in a reachable strict dominator, if the block is reachable, and nothing otherwise |
| Dominance.RivAvailable | RIV.cpp:37-50 | On every run that reaches a block, every value listed for it has been computed |
| DuplicateRun.DuplicatePreserves | DuplicateBB.cpp:31-103 | Splitting one block leaves results and effects of every safe run as they were |
| DuplicateRun.DuplicatedShape | DuplicateBB.cpp:33-98 | The block becomes a null test of the check value, two arms that both repeat its instructions, and a tail with the old terminator and one phi for each result |
| DuplicateProof.TracksAll | DuplicateBB.cpp:38-102 | Each visit of the block is three steps of the new function, through one arm only |
| DuplicateProof.TailRel | DuplicateBB.cpp:92-98 | After the tail's phis every replaced instruction's value is in its phi |
| DuplicateRun.AvailableAfter | DuplicateBB.cpp:35-37 | A value that was computed where another test will stand still is, under its new name |
| DuplicateRun.TargetAfter | DuplicateBB.cpp:31-39 | Splitting one target leaves the others splittable: their check values, replaced by phis or not, are still computed there |
| DuplicateRun.ValidAfter | DuplicateBB.cpp:65-102 | Numbering, single definitions and the record of phis stay valid |
| DuplicateRun.RunPreserves | DuplicateBB.cpp:31-103 | In whatever order the targets are taken, the result behaves like the original |
| Shapes.StageAfter | DuplicateBB.cpp:32-103 | One turn of the loop makes a test, two arms and a tail with a phi for each result of its target, and keeps what earlier turns have made, under the names that values have by then |
| Shapes.AllShapes | DuplicateBB.cpp:31-103 | After all turns each target is split on the value it was paired with, and every other block has the same phis, operations, results and successors as before |
| Dominance.DuplicatePassCorrect | DuplicateBB.cpp:17-105 | The pass with the targets and values that the analysis lists preserves behaviour |
| Duplicator.Pass.CloneTail | DuplicateBB.cpp:65-99 | The loop over the instructions fills both arms, the tail and the value maps as specified |
| Duplicator.Pass.DuplicateBlock | DuplicateBB.cpp:32-103 | One turn of the loop over the targets has the specified result |
| Duplicator.Pass.DuplicateTargets | DuplicateBB.cpp:31-103 | The loop over the targets has the specified result |
| Duplicator.Pass.ChooseTargets | DuplicateBB.cpp:17-29 | Each block visited for which something is listed is paired with one of its values, once, and no other block is |
| Duplicator.Pass.Run | DuplicateBB.cpp:12-106 | The whole pass, with any order of blocks and any choice of listed values, preserves behaviour; a block that is visited ends in a branch on the null test of what stands for a value that reaches it, to two new arms that repeat its instructions, exactly when some integer input or integer value of a strict dominator does; every other block keeps its shape |
| MergeProof.ResultOnlyInPhi | MergeBB.cpp:9-41 | If the reverse walk exhausts both blocks, a result of either, phis included, has at most one use, and that is the successor's phi entry for its block |
| MergeProof.OwnPosition | MergeBB.cpp:156-164 | The two values that the successor's phi takes are results at the same position of the two blocks |
| MergeProof.RunPair | MergeBB.cpp:21-41 | Matching instructions run in step: same effects, and same values at the same positions |
| MergeProof.MergePreserves | MergeBB.cpp:103-185 | Whenever a block is redirected to its duplicate and has no phis, or its phis have the same entries for the blocks that branch to it, results and effects of every safe run stay, and so does validity |
| MergeProof.PhisPair | MergeBB.cpp:156-174 | Entered with equal values, the phis of the two blocks and then all their results agree position by position |
| Merge.MergeableIff | MergeBB.cpp:9-41 | Two blocks are merged exactly when neither is the entry, both jump to the same block and are entered by branches and switches only, their phis and instructions are the same position by position but for debug intrinsics, their results are used alike and at most once, at home or by the successor from there, and its only phi, if any, takes equal operands or a result of each |
| MergePass.EntersAlikeIff | MergeBB.cpp:21-41 | Entering the kept block gives its phis the values that the erased block's phis would have had, for all registers and all blocks that branch to the erased one, exactly when the phis have the same entries for those blocks |
| MergePass.MergeEntriesIff | MergeBB.cpp:93-102 | After a merge every remaining block has one phi entry for each branch to it exactly when the erased block had no phis or nothing branched to it |
| MergePass.MergeCanLoseEntries | MergeBB.cpp:21-41 | A function whose blocks with phis are taken for duplicates although the result is stuck |
| MergePass.MergeCanSwapEntries | MergeBB.cpp:21-41 | A function with an entry for every predecessor before and after, whose result changes from 7 to 8 |
| MergePass.InvariantAfter | MergeBB.cpp:186-191 | Each merge keeps: nothing branches to a block on the delete list, nothing outside uses its results, behaviour is that of the original |
| MergePass.UnusedAfter | MergeBB.cpp:176-178 | Results of a block on the delete list are used at most by phi entries for that block |
| MergePass.DeletePreserves | MergeBB.cpp:192-194 | Deleting blocks that nothing branches to leaves behaviour as it is |
| Merger.CountNonDbg | MergeBB.cpp:43-46 | Instructions other than debug intrinsics are counted |
| Merger.LockstepReverseIterator.Back | MergeBB.cpp:70-84 | Both positions move past debug intrinsics to the previous instruction, or the iterator fails at the start of the blocks |
| Merger.MergeBB.WalkExhausts | MergeBB.cpp:167-174 | The walk runs out of both blocks exactly when all instructions are identical position by position |
| Merger.MergeBB.UpdateBranchTargets | MergeBB.cpp:93-102 | Every branch to the erased block goes to the retained one, nothing else changes |
| Merger.MergeBB.IsDuplicate | MergeBB.cpp:136-174 | The checks on a candidate accept exactly the mergeable blocks |
| Merger.MergeBB.MergeDuplicatedBlock | MergeBB.cpp:103-185 | The block is redirected to a mergeable one and listed for deletion, or there is none and nothing changes |
| Merger.MergeBB.Run | MergeBB.cpp:186-196 | Each block in turn is redirected to a duplicate and listed for deletion exactly when the function that the turns before have left has one, and the result is the last of these functions without the listed blocks; behaviour is preserved, no branch to them is left and no use of what they computed |
| Mba.AddIdentity | MBAAdd.cpp:17-32 | (39 x + 23) * 151 + 111 modulo 256 is a + b for x = (a xor b) + 2 (a and b) |
| Mba.SubIdentity | MBASub.cpp:22-26 | a + ~b + 1 is a - b modulo 2^w for every width w |
| MbaProof.MatchRuns | MBAAdd.cpp:17-33 | The inserted instructions compute the matching instruction's value into the last of their registers and touch no other |
| MbaProof.RewritePreserves | MBASub.cpp:17-37 | Rewriting one block preserves behaviour |
| MbaRun.PassPreserves | MBAAdd.cpp:11-40 | Rewriting all blocks preserves behaviour |
| MbaRun.EachOnce | MBASub.cpp:16-37 | Each block of the result is the original with every matching instruction replaced once by instructions on new registers; nothing inserted is rewritten, all else stays but for the registers read; which instructions match is MbaLeft.TargetsGone |
| MbaLeft.TargetsGone | MBASub.cpp:16-37 | After the pass no integer subtraction with two operands, of any width, or no addition of two bytes that was there before, is left in a block visited, the instructions on old registers are the original ones that were not to be replaced, in order, and those on new registers are, for each replaced one in order, a + ~b + 1 or (39 x + 23) 151 + 111 with x = (a xor b) + 2 (a and b) |
| Rewriter.CountIsTargets | MBASub.cpp:30-33 | As many instructions are replaced as there are such subtractions or additions, whatever order the blocks are visited in |
| Rewriter.RenamedReplaces | MBAAdd.cpp:33 | Every operand in the function that was the old register is the new one, nothing else is different, and unless they are the same nothing reads the old register any more |
| Rewriter.Substitution.ReplaceAllUses | MBAAdd.cpp:33 | The update in place does that to the function |
| Rewriter.Substitution.VisitBlock | MBASub.cpp:17-33 | The loop over a block inserts before matching instructions, replaces their uses at once, and lists and counts each of them |
| Rewriter.Substitution.Run | MBASub.cpp:13-38 | The function after erasure behaves like the original; in it every subtraction, or every addition of bytes that was there before, has been replaced and everything else is still there; the counter grows by how many there were, and `changed` holds exactly if there was one |

## Left out

- ConvertFCmpEq and FindFCmpEq replace equality by a test against a tolerance and do not preserve meaning; the counting, printing and instrumentation passes are single loops.
- The JIT, object files, `main`, plugin registration and all output; the driver is the one of compile mode, where one module collects everything.
- The LLVM optimisation pipeline and `verifyFunction` that `FunctionAST::codegen` runs at the end.
- Rounding and the values of floating-point constants; `strtod` appears in prototypes as a function to the reals.
- What calls of an erased function do, and the spare function that LLVM creates when a name is declared twice, which nothing can call.
- Slot allocations are kept as a list in front of the entry block, not among its instructions.
- PrintShortest: leaves out calls whose first argument starts with a unary operator `)`, where a shorter text can exist.
- ProgramRoundTrip: an expression item that starts with a unary operator `;` is left out, since the loop takes that token for a separator.
- Landing pads and exception handling, poison and overflow flags, stack allocations in duplicated blocks, and folding of constants in the arithmetic rewrites.
- Use lists, value-map callbacks and pointer order: replacing all uses is one renaming, done at the end of a split in block duplication; predecessors are taken before branches are redirected.
- Effects are those of whole instructions in order; memory is what an opaque operation returns given everything that happened before.
