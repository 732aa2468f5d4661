# MiniC compiler core in Dafny

This project models the middle and back end of the MiniC compiler. MiniC is a small C-like teaching language. The compiler turns its parse tree into a MIPS32 listing for the SPIM simulator, in four stages:

- **Semantic analysis**
  - `CollectSymbols` builds the scope tree and defines every variable and function in it.
  - `CheckUses` reports undeclared names and calls with the wrong number of arguments.
  - `TypeChecker` types every expression along the grammar's precedence ladder.
  - All three share a `SymbolTable` made of parent-linked `BaseScope`s. `Builtins` pre-declares the output functions.
- **IR generation.** `TacGen` lowers the checked tree to three-address code (TAC).
  - Temporaries `t0, t1, …` are numbered per function.
  - Labels are numbered program-wide.
  - Row-major byte offsets are used for array elements, with 1-based indices.
- **Optimisation.** `TacOptimizer` drops self-moves and folds binary operations on two integer literals. It uses Java `int` arithmetic.
- **Code generation.** `MipsGen` translates each TAC function to MIPS:
  - it pre-scans every named operand and gives each one a word of a 16-byte-aligned frame;
  - it translates instruction by instruction through scratch registers;
  - PARAM operands are queued until a CALL takes them;
  - string literals are pooled in `.data`.

Every stage is a pure function over immutable data.

- The symbol table is a record: an arena of scopes in creation order, a stack of indices into it, and the error list. A scope's parent always has a smaller index, so resolution terminates.
- Diagnostics are a datatype rather than formatted strings.
- TAC operands are `Option<string>`, where `None` is Java's `null`.
- Anything that can throw in the source returns an `Outcome`. This covers `Integer.parseInt` on an out-of-range literal, `slotOf` on a null name, a CALL with a null callee, and the type checker's visit of an assignment expression. That visit asks for a `logicalOr` child the assignment alternative does not have, so it throws a `NullPointerException`.
- `Int32` models Java `int` wrap-around and Java's truncating division and remainder explicitly.

The model has two kinds of property modules: reference meanings, and the invariants the stages keep.

- **Reference meanings.** `TacEval` gives the meaning of straight-line TAC. `Mips` gives the meaning of the MIPS subset, and `MipsRun` runs it.
- **Invariants the stages keep:**
  - `TacGenProps`, `TacStmtProps`, `CodeShape`, `CodeFlow` and `TacFacts` describe the shape of generated code: its temporaries, labels, jumps and argument queue.
  - `TacOptimizerProps` covers what optimisation preserves.
  - `MipsLayout`, `MipsFrame` and `MipsProps` cover frame safety and the listing's structure.
  - `MipsFindings` holds concrete inputs on which the backend as written goes wrong.

`MipsGen` translates as the Java is written. `EmitLoad` has no string case. `EmitFunction` appends the fallback return only when the code has no RET. `StringLabel` uses `escapeAsciizBody` as written. The corrected variants sit beside them: `EmitOperand` for the string-aware load, `EmitFunctionCorrected` and `EscapeBody`. The frame and label properties are proved of the backend as written, under the hypothesis `NoStringLoads`: no string literal reaches `emitLoad`.

Every path below is relative to the repository root. The Java files are under `src/main/java/org/example/minic/`.

## Model

| member | source | states |
|---|---|---|
| Types.FromToken | src/main/java/org/example/minic/semantics/Type.java:6-15 | a type keyword reads as the type it spells; any other text reads as `int` |
| Types.FromTokenRoundTrip | src/main/java/org/example/minic/semantics/Type.java:39-47 | printing a type and reading the text back gives the same type, and every printed type is a keyword |
| Types.ToStringInjective | src/main/java/org/example/minic/semantics/Type.java:39-47 | distinct types print as distinct keywords |
| Types.BoolyIsNumericOrBool | src/main/java/org/example/minic/semantics/Type.java:17-18 | a type may be a condition exactly when it is numeric or `bool`; `void` and `string` never can |
| Types.AssignmentCompatibleLaws | src/main/java/org/example/minic/semantics/Type.java:20-32 | assignment compatibility is reflexive and symmetric; it relates distinct types only for the int/char pair; it refuses int/bool both ways; it coincides with `comparable` |
| Types.CompatibleReturnLaws | src/main/java/org/example/minic/semantics/Type.java:34-37 | a `void` function may return only nothing; a non-void one follows assignment compatibility; returning nothing fits only `void` |
| Symbols.NewScalar | src/main/java/org/example/minic/semantics/VarSymbol.java:9-12 | the two-argument constructor makes a scalar (rank 0) with the given name and type |
| Symbols.NewVar | src/main/java/org/example/minic/semantics/VarSymbol.java:14-17 | a null dimension array gives a scalar; otherwise the dimensions are kept and the rank is their count |
| Symbols.VarToString | src/main/java/org/example/minic/semantics/VarSymbol.java:22-25 | a scalar prints as "type name" and nothing more. An array adds a bracketed, comma-separated list; its k-th field is the decimal text of the k-th dimension and reads back as that dimension |
| Symbols.DimsToString | src/main/java/org/example/minic/semantics/VarSymbol.java:24 | `Arrays.toString` of a non-empty dimension array is bracketed, has one field per dimension, and each field reads back as its dimension |
| Common.JoinCommaFields | src/main/java/org/example/minic/semantics/VarSymbol.java:24 | joining comma-free fields with ", " and splitting the text at ", " gives the fields back, so a printed dimension list is unambiguous |
| Scopes.OnChainBelow | src/main/java/org/example/minic/semantics/BaseScope.java:6-9 | every scope enclosing a scope was created before it, so walking outward terminates |
| Scopes.ResolveScope | src/main/java/org/example/minic/semantics/BaseScope.java:13-17 | resolution fails exactly when no scope on the chain binds the name; otherwise it returns the binding from the own map of an enclosing scope |
| Scopes.ResolveScopeIsNearest | src/main/java/org/example/minic/semantics/BaseScope.java:13-17 | the binding found is the innermost one on the enclosing chain; a failed resolution means no scope on the chain binds the name |
| Scopes.DefineIn | src/main/java/org/example/minic/semantics/BaseScope.java:19-23 | a define succeeds exactly when the scope's own map lacks the name; enclosing scopes are not consulted |
| Scopes.DefineThenResolve | src/main/java/org/example/minic/semantics/BaseScope.java:19-23 | after a successful define, the name resolves to the new symbol from that scope; a refused define changes nothing and the first binding still wins |
| Scopes.DefineShadows | src/main/java/org/example/minic/semantics/BaseScope.java:19-23 | a name bound only in an enclosing scope can be defined again inside, and the inner binding then hides the outer one |
| Scopes.DefineKeepsOtherNames | src/main/java/org/example/minic/semantics/BaseScope.java:19-23 | defining one name leaves the resolution of every other name, from every scope, unchanged |
| Scopes.DefineOffChain | src/main/java/org/example/minic/semantics/BaseScope.java:19-23 | defining into a scope that is not on another scope's chain leaves resolution from that other scope unchanged |
| Scopes.Init | src/main/java/org/example/minic/semantics/SymbolTable.java:10-13 | a new table has exactly one scope, the global one; it is both current and global, it is empty, and there are no errors |
| Scopes.PushNew | src/main/java/org/example/minic/semantics/SymbolTable.java:15-18 | a push records the new scope at the end of the created list, with the previous current scope as its parent, and makes it current |
| Scopes.Pop | src/main/java/org/example/minic/semantics/SymbolTable.java:19 | a pop drops the top of the stack and keeps the created list and the errors |
| Scopes.PushThenPop | src/main/java/org/example/minic/semantics/SymbolTable.java:15-19 | popping right after a push restores the stack and the current scope; the created list keeps the popped scope |
| Scopes.Define | src/main/java/org/example/minic/semantics/SymbolTable.java:37-41 | a define into the current scope succeeds exactly when that scope lacks the name. Success binds the name. Failure changes no scope and appends exactly one redefinition error naming the scope and the symbol |
| Scopes.Error | src/main/java/org/example/minic/semantics/SymbolTable.java:43 | an error appends its message and changes nothing else |
| Scopes.ResolveFrom | src/main/java/org/example/minic/semantics/SymbolTable.java:49-51 | a null scope resolves nothing; otherwise the result is resolution from that scope |
| Scopes.ResolveFuncGlobal | src/main/java/org/example/minic/semantics/SymbolTable.java:52-59 | the result is a function exactly when the global scope's own map binds the name to a function |
| Scopes.ResolveFuncGlobalIsGlobalResolve | src/main/java/org/example/minic/semantics/SymbolTable.java:52-59 | the global-function lookup agrees with resolution from the global scope whenever that finds a function |
| Builtins.BuiltinParams | src/main/java/org/example/minic/semantics/Builtins.java:13-15 | a built-in gets one scalar parameter per requested type, in order, with that type |
| Builtins.DefineIfAbsent | src/main/java/org/example/minic/semantics/Builtins.java:9-18 | a request changes nothing when the name already resolves from the current scope; otherwise the name then resolves to the new function. No error is ever added and the stack is untouched |
| Builtins.DefineIfAbsentKeepsOthers | src/main/java/org/example/minic/semantics/Builtins.java:9-18 | a request leaves every other name resolving as before |
| Builtins.DefineIfAbsentKeepsResolving | src/main/java/org/example/minic/semantics/Builtins.java:9-18 | a name that resolves keeps its binding through any request |
| Builtins.Requests | src/main/java/org/example/minic/semantics/Builtins.java:20-32 | one group of requests (int, char and string printers, then println) never reports an error and never changes the scope stack |
| Builtins.RequestsResolve | src/main/java/org/example/minic/semantics/Builtins.java:20-32 | after a group of requests every name of the group resolves, and a name that already resolved keeps its binding |
| Builtins.RequestsKeepOthers | src/main/java/org/example/minic/semantics/Builtins.java:20-32 | a group of requests leaves every name outside the group resolving as before |
| Builtins.RequestsOnGlobalOnly | src/main/java/org/example/minic/semantics/Builtins.java:9-18 | on a global-only scope without the group's three names, the group adds exactly one void function per name with the requested parameter types, and println is added only when absent |
| Builtins.Install | src/main/java/org/example/minic/semantics/Builtins.java:20-32 | installing the built-ins never reports an error and never changes the scope stack |
| Builtins.InstallResolves | src/main/java/org/example/minic/semantics/Builtins.java:20-32 | after installing, every built-in name resolves, and a name that already resolved keeps its binding |
| Builtins.InstallIdempotent | src/main/java/org/example/minic/semantics/Builtins.java:20-32 | installing twice gives the same table as installing once |
| Builtins.InstallKeepsOthers | src/main/java/org/example/minic/semantics/Builtins.java:20-32 | names other than the seven built-ins resolve exactly as before |
| Builtins.InstallCamelOnGlobalTable | src/main/java/org/example/minic/semantics/Builtins.java:21-25 | on a table holding only a global scope without those names, the camelCase built-ins resolve to void functions with the requested parameter types, and no error is added |
| Builtins.InstallSnakeOnGlobalTable | src/main/java/org/example/minic/semantics/Builtins.java:27-31 | on the same table, the snake_case aliases resolve to functions of their own, and the second println request keeps the first |
| Common.IntToString | src/main/java/org/example/minic/ir/TacOptimizer.java:81 | the decimal text of an int matches the literal pattern and reads back as the same value |
| Common.IntToStringInjective | src/main/java/org/example/minic/ir/TacGen.java:58-64 | distinct counters render as distinct decimal texts |
| Int32.Wrap | src/main/java/org/example/minic/ir/TacOptimizer.java:44-46 | a Java int expression yields the 32-bit representative of the mathematical value: it is in range, congruent to the value, and equal to it when it fits |
| Int32.Div | src/main/java/org/example/minic/ir/TacOptimizer.java:47 | Java int division rounds toward zero and stays in range; only MIN / -1 differs from the truncated quotient |
| Int32.Rem | src/main/java/org/example/minic/ir/TacOptimizer.java:48 | Java's remainder is the dividend minus the divisor times the truncated quotient, and it stays in range |
| Int32.TruncRem | src/main/java/org/example/minic/ir/TacOptimizer.java:48 | the truncated remainder takes the dividend's sign and is smaller in magnitude than the divisor |
| Int32.DivOverflow | src/main/java/org/example/minic/ir/TacOptimizer.java:47-48 | MIN / -1 wraps back to MIN, and MIN % -1 is 0 |
| Int32.ParseInt | src/main/java/org/example/minic/ir/TacOptimizer.java:78 | literal text parses exactly when its value fits an int, and then to that value; empty text throws |
| Tac.MnemonicInjective | src/main/java/org/example/minic/ir/TacInstr.java:11-43 | distinct opcodes print with distinct mnemonics |
| Tac.InstrText | src/main/java/org/example/minic/ir/TacInstr.java:11-43 | a binary instruction prints as "r = mnemonic a, b", with null operands printed as "null" |
| Tac.JumpNamesLabel | src/main/java/org/example/minic/ir/TacInstr.java:39-41 | a goto and an ifz print the target exactly as the matching label line prints its name |
| Tac.NewFunction | src/main/java/org/example/minic/ir/TacFunction.java:11-13 | a new function has the given name, no parameters and no code |
| Tac.Emit | src/main/java/org/example/minic/ir/TacFunction.java:15 | emit appends exactly the given instruction and keeps the name, the parameters and the earlier code |
| Tac.AddFunction | src/main/java/org/example/minic/ir/TacProgram.java:10-14 | newFunction appends a fresh function to the program and returns it, keeping the globals |
| Tac.EmitText | src/main/java/org/example/minic/ir/TacFunction.java:15-25 | emitting one instruction inserts exactly its indented line before the dump's closing blank line |
| Tac.AddFunctionText | src/main/java/org/example/minic/ir/TacProgram.java:10-25 | adding a function extends the program dump by exactly the new function's empty dump and the newline that follows it |
| Tac.GlobalsSection | src/main/java/org/example/minic/ir/TacProgram.java:16-25 | the globals section appears exactly when there are globals |
| Tac.FunctionLines | src/main/java/org/example/minic/ir/TacFunction.java:17-25 | a function dump is exactly its header line, one indented line per instruction, and a blank line |
| Tac.FunctionLinesSingle | src/main/java/org/example/minic/ir/TacFunction.java:17-25 | when no operand holds a newline, every listed line is a single line, so the dump has one line per instruction |
| GenState.NewTemp | src/main/java/org/example/minic/ir/TacGen.java:58-60 | a new temporary is named after the current counter, the counter advances by one, and the code and label counter are untouched |
| GenState.TempName | src/main/java/org/example/minic/ir/TacGen.java:58-60 | a temporary's name starts with `t` and is never an integer literal, so the optimizer never folds it |
| GenState.TempNameInjective | src/main/java/org/example/minic/ir/TacGen.java:58-60 | distinct counter values give distinct temporaries, so no temporary is reused within a function |
| GenState.TempIndexOf | src/main/java/org/example/minic/ir/TacGen.java:58-60 | the counter value can be read back from a temporary's name |
| GenState.NewLabel | src/main/java/org/example/minic/ir/TacGen.java:62-64 | a new label carries the running label counter after its prefix, and the counter advances by one |
| GenState.LabelNumberOf | src/main/java/org/example/minic/ir/TacGen.java:62-64 | the label counter reads back from a label's trailing digits, whatever the prefix |
| GenState.LabelNameInjective | src/main/java/org/example/minic/ir/TacGen.java:62-64 | two labels made from different counter values differ, even with different prefixes |
| GenState.Product | src/main/java/org/example/minic/ir/TacGen.java:110-114 | the product of the dimensions is computed in Java int and stays in range |
| GenState.OffsetBytes | src/main/java/org/example/minic/ir/TacGen.java:121-148 | with no dimensions or no indices the offset is the literal "0" and no code is emitted; otherwise the offset is the last temporary made; no label is taken |
| TacEval.SubOnesAt | src/main/java/org/example/minic/ir/TacGen.java:104-131 | the k-th adjusted temporary holds the k-th index minus one |
| TacEval.LinearizeRun | src/main/java/org/example/minic/ir/TacGen.java:134-142 | the multiply-add loop leaves the Horner value of the adjusted indices over the dimensions in its last temporary |
| TacEval.OffsetCodeRun | src/main/java/org/example/minic/ir/TacGen.java:121-148 | running the emitted offset code leaves 4 × the row-major linear index of the zero-based indices in the result temporary |
| TacEval.OffsetBytesRun | src/main/java/org/example/minic/ir/TacGen.java:121-148 | for any values of the index operands, running the code `offsetBytesForArray` emits gives the byte offset `OffsetValue` of those values, using only the first min(dims, indices) of each |
| TacEval.OffsetValueHorner | src/main/java/org/example/minic/ir/TacGen.java:121-148 | the byte offset is four times the Horner evaluation of the one-based indices minus one |
| TacGen.ResolveVar | src/main/java/org/example/minic/ir/TacGen.java:85-90 | the variable lookup succeeds exactly when the name resolves from the scope to a variable, and returns that variable |
| TacGen.ResolveFunc | src/main/java/org/example/minic/ir/TacGen.java:92-97 | the function lookup succeeds exactly when the name resolves from the scope to a function, and returns that function |
| TacGen.ShadowedIsLocal | src/main/java/org/example/minic/ir/TacGen.java:79-90 | a variable bound in the current non-global scope is never treated as global, even when a global of the same name exists |
| TacGen.ChainOpFaithful | src/main/java/org/example/minic/ir/TacGen.java:394-483 | each binary source operator lowers to its own TAC opcode: `\|\|` to OR, `==` to EQ, `!=` to NEQ, `%` to MOD, and so on |
| TacGen.ParamNames | src/main/java/org/example/minic/ir/TacGen.java:216-221 | the TAC parameters are the declared parameter names in order |
| TacGen.LowerFunction | src/main/java/org/example/minic/ir/TacGen.java:212-237 | the TAC function keeps the source function's name and parameter names, and the program-wide label counter never goes back |
| TacGen.LowerProgram | src/main/java/org/example/minic/ir/TacGen.java:177-209 | the program's globals are the registrations of all top-level declarators in order. Its functions are the function declarations in order, each with its own name and parameter names |
| TacGen.LowerFunctions | src/main/java/org/example/minic/ir/TacGen.java:201-206 | the lowered functions match the function declarations one for one, in order, by name and parameter names, and the label counter never goes back |
| TacGen.RegisteredExactly | src/main/java/org/example/minic/ir/TacGen.java:178-198 | a name gets a `.data` entry exactly when some declarator declares it and the global scope binds it to a variable |
| TacGen.RegisteredSizes | src/main/java/org/example/minic/ir/TacGen.java:184-196 | every entry is a variable of the global scope; it takes 4 bytes when scalar, and 4 times the product of its dimensions in Java int when an array |
| TacGenProps.ExprFacts | src/main/java/org/example/minic/ir/TacGen.java:360-575 | every expression lowers to straight-line code: no label, jump or return; its new temporaries are defined once each, in counter order; every PARAM it queues is taken by its own CALL |
| TacGenProps.NameFacts | src/main/java/org/example/minic/ir/TacGen.java:534-544 | reading a name, scalar or global array, gives straight code with temporaries in order and nothing queued |
| TacGenProps.UnaryFacts | src/main/java/org/example/minic/ir/TacGen.java:486-500 | `!` and unary `-` lower to straight code with temporaries in order and nothing queued |
| TacGenProps.ChainFacts | src/main/java/org/example/minic/ir/TacGen.java:394-483 | a left-associated operator chain lowers to straight code with temporaries in order and nothing queued |
| TacGenProps.IndicesFacts | src/main/java/org/example/minic/ir/TacGen.java:553-575 | lowering the index expressions one after another stays straight with temporaries in order and nothing queued |
| TacGenProps.ArgsFacts | src/main/java/org/example/minic/ir/TacGen.java:511-526 | the arguments of a call, lowered left to right, queue exactly their result operands in order, and nothing else |
| TacGenProps.CallFacts | src/main/java/org/example/minic/ir/TacGen.java:511-526 | a call's PARAMs are all taken by its CALL, so the call leaves the queue as it found it |
| TacGenProps.ElemFacts | src/main/java/org/example/minic/ir/TacGen.java:534-575 | reading an array element lowers to straight code with temporaries in order and nothing queued |
| TacGenProps.AssignFacts | src/main/java/org/example/minic/ir/TacGen.java:360-391 | an assignment, scalar or element, lowers to straight code with temporaries in order and nothing queued |
| TacGenProps.ScalarElemLoadsAtZero | src/main/java/org/example/minic/ir/TacGen.java:534-575 | reading `x[i]...` when `x` has no dimensions lowers the indices and then loads from byte offset "0" into the next temporary |
| TacGenProps.ScalarElemStoresAtZero | src/main/java/org/example/minic/ir/TacGen.java:360-391 | assigning to `x[i]...` when `x` has no dimensions stores the right-hand value at byte offset "0" |
| Pipeline.CollectedGlobalsAreWords | src/main/java/org/example/minic/ir/TacGen.java:189-195 | after the symbol pass every global reserves exactly 4 bytes, arrays included, because the pass defines every declarator as a scalar |
| Pipeline.CollectedGlobalElemAtZero | src/main/java/org/example/minic/ir/TacGen.java:534-575 | after the symbol pass, reading an element of a global array from any scope in which the name resolves to the global binding loads from byte offset "0", whatever the indices |
| TacStmtProps.StmtFacts | src/main/java/org/example/minic/ir/TacGen.java:242-350 | every statement lowers to code that defines its temporaries in order, leaves the queue as it found it, defines fresh and pairwise distinct labels from the counter range it used, and jumps only to labels it defines |
| TacStmtProps.ReturnFacts | src/main/java/org/example/minic/ir/TacGen.java:256-260 | a return statement, with or without a value, is statement code |
| TacStmtProps.DeclFacts | src/main/java/org/example/minic/ir/TacGen.java:324-350 | a declaration with initialisers is statement code |
| TacStmtProps.WhileFacts | src/main/java/org/example/minic/ir/TacGen.java:284-295 | a while loop (top label, test, ifz to the exit, body, goto top, exit label) is statement code whose jumps stay inside it |
| TacStmtProps.IfFacts | src/main/java/org/example/minic/ir/TacGen.java:263-281 | an if, with or without else, is statement code whose jumps stay inside it |
| TacStmtProps.ForFacts | src/main/java/org/example/minic/ir/TacGen.java:298-321 | a for loop, with any of its three parts missing, is statement code whose jumps stay inside it |
| TacStmtProps.BlockFacts | src/main/java/org/example/minic/ir/TacGen.java:242-247 | a block's statements, one after another, form statement code |
| TacStmtProps.FunctionFacts | src/main/java/org/example/minic/ir/TacGen.java:212-237 | a function's code defines t0, t1, … once each in order, leaves the PARAM queue empty, uses distinct labels from its counter range, and every jump target is defined in the function |
| TacStmtProps.FunctionsFacts | src/main/java/org/example/minic/ir/TacGen.java:177-209 | across the functions of a program the labels are drawn from consecutive counter ranges, and each function's jumps stay inside it |
| TacStmtProps.ProgramFacts | src/main/java/org/example/minic/ir/TacGen.java:177-209 | in the whole program every label operand is non-null and no label is defined twice, and each function's jumps go to labels it defines |
| CodeFlow.WhileShape | src/main/java/org/example/minic/ir/TacGen.java:284-295 | the while layout around any test and body that are themselves well formed is statement code |
| CodeFlow.IfThenShape | src/main/java/org/example/minic/ir/TacGen.java:263-281 | the layout of an if without else is statement code when its parts are |
| CodeFlow.IfElseShape | src/main/java/org/example/minic/ir/TacGen.java:263-281 | the layout of an if with else is statement code when its parts are |
| CodeFlow.ForShape | src/main/java/org/example/minic/ir/TacGen.java:298-321 | the layout of a for loop is statement code when its parts are |
| CodeShape.ExprCodeJoin | src/main/java/org/example/minic/ir/TacGen.java:52-55 | two pieces of expression code emitted one after the other form expression code that queues both pieces' operands in order |
| CodeShape.SequentialFacts | src/main/java/org/example/minic/ir/TacGen.java:121-148 | arithmetic code that writes each new temporary once in order is straight and queues nothing |
| CodeShape.OffsetBytesCode | src/main/java/org/example/minic/ir/TacGen.java:121-148 | the offset computation is expression code: straight, temporaries in order, nothing queued, no label used |
| Collect.DefineOne | src/main/java/org/example/minic/semantics/CollectSymbols.java:26-38 | a fresh declarator is bound in the current scope with no error; a repeated one changes no scope and reports the table's redefinition error followed by the pass's duplicate-variable error |
| Collect.DefineAllBindings | src/main/java/org/example/minic/semantics/CollectSymbols.java:26-38 | after a declaration the scope's keys are its old keys plus the declared names; old bindings are kept; each name declared first in a fresh slot is bound to its own symbol |
| Collect.DefineAllErrors | src/main/java/org/example/minic/semantics/CollectSymbols.java:26-38 | a declaration adds no error exactly when every declarator is fresh, and every error it adds is a redefinition pair for this scope |
| Collect.RedefDiagsSpec | src/main/java/org/example/minic/semantics/CollectSymbols.java:26-38 | the errors of a declarator list are empty exactly when each declarator is fresh, and they come in redefinition pairs |
| Collect.DeclSymbols | src/main/java/org/example/minic/semantics/CollectSymbols.java:27-31 | every declarator becomes a scalar of the declared type under its own name, in order, array dimensions ignored |
| Collect.ParamSymbols | src/main/java/org/example/minic/semantics/CollectSymbols.java:56-67 | every parameter becomes a scalar of its declared type under its own name, in order |
| Collect.CollectBlock | src/main/java/org/example/minic/semantics/CollectSymbols.java:85-97 | a block opens a new scope named "block" under the current one, records it as the block's scope, and leaves the stack as it was |
| Collect.CollectStmts | src/main/java/org/example/minic/semantics/CollectSymbols.java:85-97 | collecting statements only adds scopes and errors; the current scope gains bindings but no existing scope is otherwise changed |
| Collect.DefineFunction | src/main/java/org/example/minic/semantics/CollectSymbols.java:41-49 | a new function name is bound to its symbol in the current scope; a repeated one changes no scope and reports the table's redefinition and the pass's function-redefinition errors |
| Collect.EnterParams | src/main/java/org/example/minic/semantics/CollectSymbols.java:52-67 | a function opens a scope named "func <name>" under the current one and pushes it |
| Collect.EnterParamsKeys | src/main/java/org/example/minic/semantics/CollectSymbols.java:56-67 | the parameter scope binds exactly the parameter names |
| Collect.BeforeBody | src/main/java/org/example/minic/semantics/CollectSymbols.java:41-76 | before the body, the table holds the parameter scope and an empty "block of <name>" scope under it, which is current |
| Collect.CollectFunction | src/main/java/org/example/minic/semantics/CollectSymbols.java:41-82 | a function restores the scope stack, adds at least three scopes, and gives its body the "block" scope nested in "block of <name>" |
| Collect.CollectFunctionParamScope | src/main/java/org/example/minic/semantics/CollectSymbols.java:52-67 | after a function the first new scope is "func <name>" under the enclosing scope, binding exactly the parameter names |
| Collect.CollectFunctionBodyScopes | src/main/java/org/example/minic/semantics/CollectSymbols.java:70-80 | after a function the second new scope is the empty "block of <name>" under the parameter scope, and the third is the body's "block" scope under it |
| Collect.CollectFunctionDefine | src/main/java/org/example/minic/semantics/CollectSymbols.java:44-49 | a new function name gains its binding in the enclosing scope; a repeated one leaves that scope unchanged and the first two errors reported are the redefinition pair |
| Collect.CollectProgram | src/main/java/org/example/minic/semantics/CollectSymbols.java:18-49 | collecting a program keeps the stack, only adds errors and scopes, and annotates every top-level declaration. The global scope's names become its old names plus every top-level variable and function name. Old bindings are kept, and every variable bound is a scalar when all were before |
| Collect.CollectDeclsBindings | src/main/java/org/example/minic/semantics/CollectSymbols.java:26-49 | from any declaration onward, collecting adds exactly the declared variable and function names to the current scope, keeps its old bindings and the earlier scopes, and binds every variable as a scalar |
| CheckUses.AllDiagsEmpty | src/main/java/org/example/minic/semantics/CheckUses.java:57-81 | the use check reports nothing exactly when every use it visits is acceptable |
| CheckUses.ExprCheckIsAllDiags | src/main/java/org/example/minic/semantics/CheckUses.java:57-81 | checking an expression is checking the list of its visited uses, in walk order |
| CheckUses.ExprCheckEmpty | src/main/java/org/example/minic/semantics/CheckUses.java:57-81 | an expression passes the use check exactly when each of its visited uses is acceptable |
| CheckUses.HiddenPrimaries | src/main/java/org/example/minic/semantics/CheckUses.java:57-81 | a parenthesised expression and an array element are never checked, so `(x)` and `x[i]` pass even when `x` is undeclared; a bare name passes exactly when it resolves |
| CheckUses.CallCheck | src/main/java/org/example/minic/semantics/CheckUses.java:66-79 | a call whose name is not a global function is reported undeclared; a call with the wrong number of arguments reports the count found and the count expected |
| CheckUses.NestedBlockScope | src/main/java/org/example/minic/semantics/CheckUses.java:38-45 | the statements of a nested block are checked in that block's own scope |
| CheckUses.CheckProgram | src/main/java/org/example/minic/semantics/CheckUses.java:20-35 | the use check adds its diagnostics after the existing errors and changes no scope |
| SemanticPasses.NameReportedByBoth | src/main/java/org/example/minic/semantics/CheckUses.java:59-64 | a name the use check reports is also rejected by the type checker; a function name used as a value passes the use check but the type checker reports it is not a variable |
| TypeChecker.LiteralType | src/main/java/org/example/minic/semantics/TypeChecker.java:306-321 | double-quoted text is a string and single-quoted text of length three or more is a char; everything else, `true` and `false` included, is an int |
| TypeChecker.LiteralKinds | src/main/java/org/example/minic/semantics/TypeChecker.java:306-321 | any quoted body gives a string; a single-quoted body gives a char only when non-empty; a digit string is an int |
| TypeChecker.NameTyped | src/main/java/org/example/minic/semantics/TypeChecker.java:341-350 | a name that resolves to a variable has its type; anything else is typed int and reported as not a variable |
| TypeChecker.NameRule | src/main/java/org/example/minic/semantics/TypeChecker.java:341-350 | a bare name types without diagnostics exactly when it resolves to a variable |
| TypeChecker.ArgMismatches | src/main/java/org/example/minic/semantics/TypeChecker.java:383-405 | one argument-type diagnostic per mismatching position, naming the callee; none exactly when every argument has its parameter's type |
| TypeChecker.CallRule | src/main/java/org/example/minic/semantics/TypeChecker.java:353-406 | printer calls are void and accepted exactly when the printer accepts the argument types. Undeclared callees are int with one diagnostic. User calls take the callee's type and are clean exactly when arity and every argument type match |
| TypeChecker.ArgsAreInt | src/main/java/org/example/minic/semantics/TypeChecker.java:353-406 | every argument is typed at the expression level, so every argument type is int |
| TypeChecker.PrinterCall | src/main/java/org/example/minic/semantics/TypeChecker.java:365-380 | a printer call is void; it reports its arguments' diagnostics plus one more unless it has exactly one argument and is not printString |
| TypeChecker.UserCall | src/main/java/org/example/minic/semantics/TypeChecker.java:383-405 | a call to a declared function has its return type, and adds nothing beyond the arguments' diagnostics exactly when arity matches and every parameter is int |
| TypeChecker.UndeclaredCall | src/main/java/org/example/minic/semantics/TypeChecker.java:353-406 | a call to anything other than a function is int, with the arguments' diagnostics followed by one undeclared-function diagnostic |
| TypeChecker.UpperLevelsAreInt | src/main/java/org/example/minic/semantics/TypeChecker.java:184-248 | any expression typed at the assignment, logicalOr, logicalAnd, equality or relational level has type int |
| TypeChecker.LinksType | src/main/java/org/example/minic/semantics/TypeChecker.java:217-279 | an equality or relational chain keeps the type of its first operand; an additive or multiplicative chain with an operator is int |
| TypeChecker.ArithChainType | src/main/java/org/example/minic/semantics/TypeChecker.java:252-279 | an additive or multiplicative node with no operator has its operand's type, otherwise int |
| TypeChecker.AddRule | src/main/java/org/example/minic/semantics/TypeChecker.java:252-264 | `a + b` is int; it reports both operands' diagnostics and one more unless both operands are numeric |
| TypeChecker.RelRule | src/main/java/org/example/minic/semantics/TypeChecker.java:234-248 | `a < b` is int; it reports both operands' diagnostics and one more unless both are int or bool |
| TypeChecker.UnaryRules | src/main/java/org/example/minic/semantics/TypeChecker.java:282-300 | `!x` is int and complains unless x is int or bool; `-x` is int and complains unless x is int |
| TypeChecker.CondHidesLadder | src/main/java/org/example/minic/semantics/TypeChecker.java:112-130 | every condition is typed int, so it is always accepted as a condition and the bad-condition diagnostics never appear |
| TypeChecker.CheckProgramHidesLadder | src/main/java/org/example/minic/semantics/TypeChecker.java:53-69 | whenever the type checker completes, it has reported no bad operand for `\|\|`, `&&`, `==` or `!=` and no bad condition: the ladder types all of those int |
| TypeChecker.ReturnStmt | src/main/java/org/example/minic/semantics/TypeChecker.java:97-109 | a bare return is accepted only in a void function; a valued return reports its value's diagnostics and one more unless the function returns int or char |
| TypeChecker.ReturnOutsideFunction | src/main/java/org/example/minic/semantics/TypeChecker.java:97-109 | a return outside any function reports nothing |
| TypeChecker.InitRule | src/main/java/org/example/minic/semantics/TypeChecker.java:146-157 | an initialised declarator reports its initialiser's diagnostics and one more unless the declared type is int or char |
| TypeChecker.MainRule | src/main/java/org/example/minic/semantics/TypeChecker.java:53-69 | the main check is silent exactly when `main` is an int function without parameters, and reports only a missing main exactly when `main` is not a function |
| TypeChecker.CheckProgram | src/main/java/org/example/minic/semantics/TypeChecker.java:53-69 | when the pass completes, it adds the declarations' diagnostics and then the main check's after the existing errors, and it changes no scope |
| TypeChecker.ThrowsOnAssign | src/main/java/org/example/minic/semantics/TypeChecker.java:162-180 | typing an expression throws exactly when it contains an assignment, because the assignment alternative visits the absent `logicalOr` child; every other expression types normally |
| TypeChecker.CheckProgramThrows | src/main/java/org/example/minic/semantics/TypeChecker.java:53-69 | the pass throws exactly when some declaration or function body it walks contains an assignment expression, and completes otherwise |
| TypeChecker.AssignmentStatementThrows | src/main/java/org/example/minic/semantics/TypeChecker.java:162-164 | an assignment statement `x = e;` in a function body makes the whole pass throw |
| TacOptimizer.Eval | src/main/java/org/example/minic/ir/TacOptimizer.java:43-61 | folding fails exactly for division or remainder by zero, and every folded value is a Java int |
| TacOptimizerProps.OptInstrSpec | src/main/java/org/example/minic/ir/TacOptimizer.java:70-87 | a self-move is dropped; a fold candidate with an out-of-range literal throws; an in-range one becomes a move of the folded value, or is kept when the fold fails; everything else is copied |
| TacOptimizerProps.DivByZeroKept | src/main/java/org/example/minic/ir/TacOptimizer.java:47-48 | a literal division or remainder by zero is left in the code |
| TacOptimizerProps.OtherMoveKept | src/main/java/org/example/minic/ir/TacOptimizer.java:72-74 | a move between different operands is kept |
| TacOptimizerProps.OptCodeAppend | src/main/java/org/example/minic/ir/TacOptimizer.java:70-88 | optimising concatenated code is optimising each part; the first exception wins |
| TacOptimizerProps.OptCodeThrows | src/main/java/org/example/minic/ir/TacOptimizer.java:70-88 | optimising code throws exactly when some instruction in it throws |
| TacOptimizerProps.OptCodeKeepsFlow | src/main/java/org/example/minic/ir/TacOptimizer.java:70-88 | optimisation keeps labels, jump targets and returns in order, so closed code stays closed |
| TacOptimizerProps.OptCodeKeepsQueue | src/main/java/org/example/minic/ir/TacOptimizer.java:70-88 | optimisation does not change how the PARAM queue evolves |
| TacOptimizerProps.OptCodeShorter | src/main/java/org/example/minic/ir/TacOptimizer.java:70-88 | optimised code is never longer |
| TacOptimizerProps.OptCodeOptimal | src/main/java/org/example/minic/ir/TacOptimizer.java:70-88 | optimised code has no self-move and no foldable instruction left, provided no instruction writes a literal |
| TacOptimizerProps.OptimalFixed | src/main/java/org/example/minic/ir/TacOptimizer.java:70-88 | code with nothing to drop or fold is left exactly as it is |
| TacOptimizerProps.OptCodeIdempotent | src/main/java/org/example/minic/ir/TacOptimizer.java:70-88 | optimising optimised code changes nothing |
| TacOptimizerProps.OptFunctionsShape | src/main/java/org/example/minic/ir/TacOptimizer.java:66-91 | every function keeps its name, parameters and position, and its code is the optimised code |
| TacOptimizerProps.OptimizeAsWrittenDropsGlobals | src/main/java/org/example/minic/ir/TacOptimizer.java:63-64 | as written, optimisation succeeds exactly when the corrected one does, and then returns no globals at all; the corrected result is that program with the input's globals restored |
| TacOptimizerProps.OptimizeShape | src/main/java/org/example/minic/ir/TacOptimizer.java:63-93 | the corrected optimizer keeps the globals, and every function keeps its name, parameters and position |
| TacOptimizerProps.OptimizeIdempotent | src/main/java/org/example/minic/ir/TacOptimizer.java:63-93 | optimising an optimised program returns it unchanged |
| MipsGen.AsOperands | src/main/java/org/example/minic/mips/MipsGen.java:471-472 | parameter names become the operands the pre-scan sees, in order |
| MipsGen.Assign | src/main/java/org/example/minic/mips/MipsGen.java:161-168 | a known name returns its slot and changes nothing. A new name gets the next free offset, the counter drops by one word, and every other slot is kept |
| MipsGen.EmitLoad | src/main/java/org/example/minic/mips/MipsGen.java:204-213 | a load fails only on null and appends one line. An int or char literal needs no slot. Everything else is read from its slot by `lw`, string literals included, and a name without a slot gets one. Data, pool, queue and frame are untouched |
| MipsGen.EmitOperand | src/main/java/org/example/minic/mips/MipsGen.java:221-235 | the load of moves and call arguments: a string literal is loaded with `la` of its pooled label and adds no slot; any other operand loads exactly as `emitLoad` does |
| MipsGen.EmitStore | src/main/java/org/example/minic/mips/MipsGen.java:215-218 | a store fails only on a null destination, and appends one `sw` to the destination's slot |
| MipsGen.EmitCall | src/main/java/org/example/minic/mips/MipsGen.java:319-363 | a null callee throws. A completed call removes exactly its argument count from the end of the queue, only appends to text and data, and keeps the frame. Which registers a user call's arguments land in is stated by `MipsCall.UserCallArgs` |
| MipsCall.OperandLoads | src/main/java/org/example/minic/mips/MipsGen.java:383-401 | one argument load appends one instruction putting the operand into the register: an int literal by `li` of its value, a char literal by `li` of its code, a string literal by `la` of its pooled label, a name by `lw` from its slot; every existing slot and label is kept |
| MipsCall.ArgsLoads | src/main/java/org/example/minic/mips/MipsGen.java:355-358 | the register loads append exactly one instruction per argument up to the fourth, the j-th loading argument j into `ArgReg(j)` |
| MipsCall.ArgsLoadsOk | src/main/java/org/example/minic/mips/MipsGen.java:355-358 | the loads fail exactly when one of the first four arguments is null |
| MipsCall.ArgsIgnoreRest | src/main/java/org/example/minic/mips/MipsGen.java:355-358 | arguments past the fourth are never read: the loads of a list equal the loads of its first four |
| MipsCall.ArgRegsDistinct | src/main/java/org/example/minic/mips/MipsGen.java:386-391 | argument k goes to `$a0`, `$a1`, `$a2`, `$a3` for k = 0..3, four distinct registers |
| MipsCall.UserCallArgs | src/main/java/org/example/minic/mips/MipsGen.java:354-360 | a call to a non-printer callee appends exactly min(4, n) loads, the j-th putting the j-th of its arguments into `$a(j)`, then `jal callee`, then one store of `$v0` when the call has a result; it fails exactly when one of the first four arguments is null |
| MipsGen.EmitRet | src/main/java/org/example/minic/mips/MipsGen.java:406-420 | a return always completes, and its text ends with the epilogue for the current frame and a blank line |
| MipsGen.EmitInstr | src/main/java/org/example/minic/mips/MipsGen.java:101-127 | every instruction only appends to text and data and keeps the frame; PARAM queues its operand, CALL removes its arguments, and every other instruction leaves the queue alone |
| MipsGen.EmitBody | src/main/java/org/example/minic/mips/MipsGen.java:68-128 | a function's text, without the fallback, only appends, and its label follows right after the optional `.globl main` |
| MipsGen.EmitFunction | src/main/java/org/example/minic/mips/MipsGen.java:68-132 | as written, a function without any RET ends with the fallback `return 0` sequence for its frame |
| MipsGen.EmitFunctionCorrected | src/main/java/org/example/minic/mips/MipsGen.java:123-132 | the corrected variant only appends to text and data |
| MipsGen.EmitProgram | src/main/java/org/example/minic/mips/MipsGen.java:38-65 | the listing opens with the entry stub, and `.data` opens with the segment directive and every global's reservation, whatever the functions add |
| MipsLayout.Align16Rounds | src/main/java/org/example/minic/mips/MipsGen.java:518-521 | rounding up to 16 gives the least multiple of 16 that is at least n |
| MipsLayout.FrameLayout | src/main/java/org/example/minic/mips/MipsGen.java:77-79 | the frame is a multiple of 16 and at least 16 bytes; it holds the slots plus the saved `$ra` and `$fp`, with under 16 bytes of padding |
| MipsLayout.CharCodeRoundTrip | src/main/java/org/example/minic/mips/MipsGen.java:183-202 | the code of a char literal written for a character is that character's code |
| MipsLayout.CharCodePlain | src/main/java/org/example/minic/mips/MipsGen.java:183-202 | a quoted single character is a char literal whose code is that character's |
| MipsLayout.CharCodeEscapes | src/main/java/org/example/minic/mips/MipsGen.java:183-202 | `\n`, `\t`, `\r`, `\\`, `\'`, `\"` and `\0` have their usual codes; any other escaped character stands for itself; an unescaped body longer than one character takes its first character |
| MipsLayout.AddNamesSpec | src/main/java/org/example/minic/mips/MipsGen.java:468-516 | adding names keeps the earlier ones first, stays free of duplicates, and holds exactly the old names plus the named operands |
| MipsLayout.ScanNamesSpec | src/main/java/org/example/minic/mips/MipsGen.java:468-510 | the pre-scan lists each named operand once, parameters first, and exactly the parameters and the named operands of the code |
| MipsLayout.AllocAllSpec | src/main/java/org/example/minic/mips/MipsGen.java:161-168 | allocating the scanned names gives the k-th name the slot -4·(k+1), one slot per name, and changes nothing else |
| MipsLayout.StrLabelInjective | src/main/java/org/example/minic/mips/MipsGen.java:441-452 | distinct string counters give distinct data labels |
| MipsLayout.StringLabelSpec | src/main/java/org/example/minic/mips/MipsGen.java:441-452 | a pooled literal returns its label and changes nothing. A new one gets the next fresh label and one `.asciiz` line of its body escaped by `escapeAsciizBody` as written. Earlier entries are kept |
| MipsLayout.PoolDedup | src/main/java/org/example/minic/mips/MipsGen.java:441-452 | two literals share a label exactly when their texts are equal, and asking again changes nothing |
| MipsLayout.EscapeOneSafe | src/main/java/org/example/minic/mips/MipsGen.java:454-465 | escaping a character other than a backslash gives text safe inside `.asciiz` quotes that decodes back to the character |
| MipsLayout.EscapeBodySafe | src/main/java/org/example/minic/mips/MipsGen.java:454-465 | the corrected escape gives text safe inside `.asciiz` quotes that decodes to what the literal's body decodes to |
| MipsLayout.EscapeAgreesWithoutBackslash | src/main/java/org/example/minic/mips/MipsGen.java:454-465 | on bodies without a backslash the corrected escape and the escape as written agree |
| MipsLayout.EscapeAsWrittenSafe | src/main/java/org/example/minic/mips/MipsGen.java:454-465 | on a body without a backslash, the escape as written gives text safe inside `.asciiz` quotes that decodes to exactly the body |
| MipsLayout.EscapeAsWrittenBreaksQuote | src/main/java/org/example/minic/mips/MipsGen.java:454-465 | as written, the body `\"` escapes to `\\"`, whose quote ends the `.asciiz` string early; the corrected escape keeps it a quote |
| MipsFrame.LoadStep | src/main/java/org/example/minic/mips/MipsGen.java:204-213 | `emitLoad` of a pre-scanned operand that is not a string literal reads only the operand's own slot, adds no slot, defines no label and leaves the queue alone |
| MipsFrame.OperandStep | src/main/java/org/example/minic/mips/MipsGen.java:221-235 | the string-aware load of moves and arguments reads only pre-scanned slots for every pre-scanned operand, string literals included; a string only adds to the pool |
| MipsFrame.StoreStep | src/main/java/org/example/minic/mips/MipsGen.java:215-218 | storing into a pre-scanned name succeeds, writes only pre-scanned slots and defines no label |
| MipsFrame.CallStep | src/main/java/org/example/minic/mips/MipsGen.java:319-363 | a call consumes exactly the arguments it takes off the queue; its text touches only pre-scanned slots and defines no label |
| MipsFrame.RetStep | src/main/java/org/example/minic/mips/MipsGen.java:406-420 | a return whose value is not a string literal touches only pre-scanned slots, defines no label and leaves the queue alone |
| MipsFrame.InstrStep | src/main/java/org/example/minic/mips/MipsGen.java:101-127 | every TAC instruction that hands no string literal to `emitLoad` translates to text that uses only its pre-scanned slots, defines exactly the label it carries, and updates the queue as the backend keeps it |
| MipsFrame.PlainInstrStep | src/main/java/org/example/minic/mips/MipsGen.java:101-127 | an instruction other than LABEL, PARAM and CALL is a step: it appends text through pre-scanned slots only, defines no label, and leaves the queue alone |
| MipsFrame.CodeStep | src/main/java/org/example/minic/mips/MipsGen.java:101-128 | a function's code translates to text whose defined labels are the TAC labels, with a null label defined only once, and whose queue matches, when no instruction hands a string literal to `emitLoad` |
| MipsFrame.Prescan | src/main/java/org/example/minic/mips/MipsGen.java:68-79 | the pre-scan gives every parameter and every operand of the code a slot, the next free offset lies just past them, and the frame leaves room for `$ra` and `$fp` |
| MipsFrame.FrameSafe | src/main/java/org/example/minic/mips/MipsGen.java:68-132 | when no string literal reaches `emitLoad`, a translated function only appends. Every `$fp`-relative access lies within its frame. Its labels are its name and then the TAC labels, and the string pool stays consistent |
| MipsProps.CallCountDecimal | src/main/java/org/example/minic/mips/MipsGen.java:321-331 | a call's decimal argument count reads back as that count |
| MipsProps.QueueAgrees | src/main/java/org/example/minic/mips/MipsGen.java:321-331 | when every call's count is a proper literal, the backend's argument queue evolves exactly as TAC's |
| MipsProps.CodeDefsSpec | src/main/java/org/example/minic/mips/MipsGen.java:423-438 | the listing defines exactly the TAC labels, with a null label standing for the fixed null label once |
| MipsProps.DefsDistinct | src/main/java/org/example/minic/mips/MipsGen.java:423-434 | when the TAC labels are distinct, the listing defines each label once |
| MipsProps.FunctionDefsDistinct | src/main/java/org/example/minic/mips/MipsGen.java:68-132 | a translated function with no string literal reaching `emitLoad` defines no label twice when its TAC labels are distinct and differ from its name |
| MipsProps.FunctionEnds | src/main/java/org/example/minic/mips/MipsGen.java:123-132 | the corrected translation of every function ends in a return sequence, so control cannot fall off the end |
| MipsProps.FunctionEndsAsWritten | src/main/java/org/example/minic/mips/MipsGen.java:99-132 | as written, a function ends in a return sequence when its code ends in a RET or has none at all |
| MipsProps.BodyEnds | src/main/java/org/example/minic/mips/MipsGen.java:123-126 | code ending in a RET translates to text ending in a return sequence, whatever its operands |
| MipsProps.GlobalDataSpec | src/main/java/org/example/minic/mips/MipsGen.java:47-51 | each global gets an alignment line, its label and a `.space` of its size, in order |
| MipsProps.GlobalDefined | src/main/java/org/example/minic/mips/MipsGen.java:47-51 | `.data` defines a global's label exactly when the program declares it |
| MipsProps.FunctionsGrow | src/main/java/org/example/minic/mips/MipsGen.java:60-62 | translating functions that hand no string literal to `emitLoad` keeps the string pool consistent |
| MipsProps.ProgramShape | src/main/java/org/example/minic/mips/MipsGen.java:38-65 | `.data` starts with the segment directive and then, for each global in order, an alignment line, its label and a `.space` of its size |
| MipsRun.PrologueSavesFp | src/main/java/org/example/minic/mips/MipsGen.java:136-144 | running the prologue sets `$fp` to the caller's `$sp` and saves the caller's `$fp` at `4($sp)`, the word above the saved `$ra` at the bottom of the frame |
| MipsRun.LoadSavedFp | src/main/java/org/example/minic/mips/MipsGen.java:136-144 | after the prologue, a load from `4 - frame($fp)` yields the caller's `$fp` |
| MipsFindings.StringLoadAsWritten | src/main/java/org/example/minic/mips/MipsGen.java:204-213 | as written, returning a string literal loads from a slot the pre-scan never sized: offset -12 in a 16-byte frame |
| MipsFindings.StringReturnValueAsWritten | src/main/java/org/example/minic/mips/MipsGen.java:406-420 | that load actually returns the caller's saved `$fp` instead of the string's address |
| MipsFindings.StringRetListing | src/main/java/org/example/minic/mips/MipsGen.java:99-132 | as written, the translation of any function whose code is one RET of a string literal contains `lw $v0` from the word just past its pre-scanned slots |
| MipsFindings.StringReturnListing | src/main/java/org/example/minic/mips/MipsGen.java:204-213 | as written, the full translation of `int f(int a, int b) { return "x"; }` contains `lw $v0, -12($fp)`, which lies outside its 16-byte frame's slot area |
| MipsFindings.StringLoadCorrected | src/main/java/org/example/minic/mips/MipsGen.java:204-213 | corrected as `emitMov` already loads, the literal is pooled and its address loaded with `la`, and no slot is made |
| MipsFindings.EarlyReturnFallsThrough | src/main/java/org/example/minic/mips/MipsGen.java:99-132 | as written, a function whose RET is followed by a label ends its listing without a return sequence |
| MipsFindings.EarlyReturnCorrected | src/main/java/org/example/minic/mips/MipsGen.java:99-132 | corrected, the same function ends in a return sequence |

## Left out

- The parser, the grammar and ANTLR's parse tree. The AST in `ast.dfy` is assumed to nest expressions through the precedence ladder (logicalOr > logicalAnd > equality > relational > additive > multiplicative > unary > primary), as the visitors' overrides imply.
- `Main`, the GUI, `ThrowingErrorListener`, `MipsEmitter` and `SymbolTable.dump`. These are I/O and presentation.
- `SymbolTable.declareBuiltins` is not part of this model: no caller in the core uses it; `Builtins.install` is modelled instead.
- Diagnostics are a datatype. Their exact Spanish text and the `line:col` prefixes are not modelled, because the AST carries no source positions.
- The exact characters of the MIPS listing: instructions are a datatype, and the data section is an ordered list of directives.
- The MIPS model `Mips` runs straight-line code only. Jumps, branches, `jal`, `jr` and syscalls are not executed. Control flow is covered by label and return-sequence facts (`MipsProps`), not by running the listing.
- `TacOp.java` does not list LOAD and STORE, but `TacInstr`, `TacGen` and `MipsGen` use both. The model has all 23 opcodes.
- `CollectSymbols` defines every declarator as a scalar (`new VarSymbol(name, t)`), so arrays get no dimensions from the symbol table. The model follows the code. A global array reserves 4 bytes, and an element of a declared array is read and written at byte offset "0" (`Pipeline`). The single-dimension fallback of `DimsFor` applies only to names that do not resolve.
- Local arrays are not modelled beyond what the code does: `TacGen` only reserves global arrays.
- TacEval.OffsetBytesRun: `TacEval` runs TAC over unbounded integers, while the MIPS code emitted for the same instructions computes in 32-bit registers that wrap. The offset it proves therefore equals the offset the program computes only modulo 2^32; indices or dimension products beyond a Java `int` are not modelled faithfully.
- `MipsGen`'s slot counter `nextSlot` is an `int`; its wrap-around after about 2^29 names is not modelled.
- The counters `tmpId` and `lblId` of `TacGen` and `strCount` of `MipsGen` are Java `int`s but `nat`s here, so they never wrap. `GenState.TempNameInjective`, `GenState.LabelNameInjective` and `MipsLayout.StrLabelInjective` rely on this; in Java a counter turns negative after 2^31 - 1 increments, and its names repeat after 2^32.
- Strings are sequences of Unicode scalar values, not of Java's UTF-16 code units. Length tests and `charAt` in the source count code units, so `MipsGen.CharCode` agrees with `charCode` only on bodies whose characters are all below U+10000. Classifying a literal by its length is unaffected, because such a character only makes the text longer.
- MipsLayout.CharCodeRoundTrip: a character is a Unicode scalar value here, while `charCode` measures and indexes the literal's body in UTF-16 code units. The two agree only for characters below U+10000. For a character outside that range the Java body is two code units long, so `charCode` returns the high surrogate.
- MipsLayout.CharCodePlain: holds of the Java code only for characters below U+10000, for the same reason.
- MipsLayout.CharCodeEscapes: the rule that any other escaped character stands for itself holds of the Java code only for characters below U+10000. After a backslash, a character outside that range makes the body three code units long, and `charCode` returns the backslash's code, 92.
- TacGen.LowerExpr: like the other `Lower*` functions, its own contract states only that the generator state is extended; what the emitted code means is stated by the `TacGenProps` and `TacStmtProps` lemmas about it.
- TacOptimizerProps.OptCodeIdempotent: holds only for code in which no instruction writes to an integer literal. `TacGen` never emits such an instruction: its results are temporaries or variables.
- TacOptimizerProps.OptimizeIdempotent: has the same hypothesis as OptCodeIdempotent.
- MipsFrame.FrameSafe: assumes every operand name is a proper identifier or temporary (`WellNamed`). It also assumes the frame size `4·names + 8` fits in a Java int after rounding; the source would overflow beyond that. It further assumes no string literal reaches `emitLoad` (`NoStringLoads`). As written, such a literal gets a slot outside the frame (`MipsFindings.StringLoadAsWritten`).
- MipsFrame.LoadStep: excludes string literals, which `emitLoad` as written loads from a slot added after the frame is sized.
- MipsFrame.RetStep: holds only when the returned value is not a string literal, for the same reason.
- MipsFrame.InstrStep: holds only for instructions that hand no string literal to `emitLoad` (`NoStringLoad`).
- MipsFrame.PlainInstrStep: has the same hypothesis as InstrStep.
- MipsFrame.CodeStep: has the same hypothesis as InstrStep, for every instruction of the run.
- MipsProps.FunctionDefsDistinct: has the same hypothesis as FrameSafe.
- MipsProps.FunctionsGrow: has the same hypothesis as FrameSafe (`Compilable` includes `NoStringLoads`).
- MipsProps.FunctionEnds: is about the corrected translation. For the translation as written, `FunctionEndsAsWritten` covers code that ends in a RET or has none. `MipsFindings.EarlyReturnFallsThrough` shows the case in between.

## Findings

| source | as written | input that shows it | evidently intended | confidence | as-written member | corrected member |
|---|---|---|---|---|---|---|
| src/main/java/org/example/minic/ir/TacOptimizer.java:63-64 | `optimize` builds a `new TacProgram()` and copies only the functions, so every global is dropped | a program with one global `g` of 4 bytes and no functions comes back with no globals; the backend then reserves no `.data` for `g` | the output keeps the input's globals | high, not executed | TacOptimizerProps.OptimizeAsWrittenDropsGlobals | TacOptimizerProps.OptimizeShape |
| src/main/java/org/example/minic/mips/MipsGen.java:204-213 | `emitLoad` treats a string literal as a variable and loads it from a slot that `slotOf` creates after the frame was sized | `int f(int a, int b) { return "x"; }`, in a program with an `int main()`, passes the type checker (a string literal types as int) and compiles `ret "x"` to `lw $v0, -12($fp)` in a 16-byte frame, which returns the caller's saved `$fp` | load the pooled label's address with `la`, as `emitMov` and the argument loaders do | high, not executed | MipsFindings.StringReturnListing | MipsFindings.StringLoadCorrected |
| src/main/java/org/example/minic/mips/MipsGen.java:99-132 | the fallback `return 0` is appended only when the function has no RET anywhere | a function whose TAC ends `ret` then `L:` (the tail of `void f(int x) { if (x) { return; } }`) translates to a listing ending at `L:`, so control that jumps to `L` runs past the function's end | append the fallback whenever the last instruction is not a RET | high, not executed | MipsFindings.EarlyReturnFallsThrough | MipsProps.FunctionEnds |
| src/main/java/org/example/minic/mips/MipsGen.java:454-465 | `escapeAsciizBody` escapes a quote but copies a backslash, so an escape already in the literal is escaped twice | the MiniC literal `"\""` (body `\"`) becomes `.asciiz "\\""`, whose third quote ends the string early | copy an existing escape pair unchanged | high, not executed | MipsLayout.EscapeAsWrittenBreaksQuote | MipsLayout.EscapeBodySafe |
