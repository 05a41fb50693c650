# YMSL verification

A Dafny model of the YMSL compiler, from characters to stack code, with proofs of what its parts are for.
`dafny verify dfyconfig.toml` checks all of it.

- **Meaning.** `Source.dfy` says what expressions and statements of the syntax tree mean, over any values, store and
  calls; names are looked up in the scopes of the place where they stand. `Kinds.dfy` proves which programs are compiled,
  `Meaning.dfy` that what a statement is elaborated to means the same, and `Program.dfy` carries that through to the
  node lists of a whole module. `Declared.dfy` and `TypeNames.dfy` say what declarations and type expressions yield.
- **Control flow.** `IrMgr::elab_stmt` turns structured statements into one list of nodes with labels, jumps and
  branches. `Elaborate.dfy` says what elaboration decides (names, types, slots), `Flatten.dfy` how the result is laid
  out, and `IrMgr.dfy` is the one-pass elaborator itself, proved to do both at once. `Semantics.dfy` has a structured
  semantics, a machine that steps through node lists, and the simulation between them; the meaning of a node is a
  parameter. `Preservation.dfy` draws the equivalences from it, `Labels.dfy` the closure of jumps.
- **Declarations.** `Slots.dfy` (dense slots), `Ownership.dfy` (whose locals a block can name), `EnumProps.dfy`
  (enum values). Named constants: what writing a definition out does (`ConstProp.dfy`), when it can be done
  (`Constants.dfy`), and that it lasts through later statements (`ConstRuns.dfy`).
- **Tables.** `Buckets.dfy` has chained tables as values, `Chains.dfy` as cells with links on the heap. `Scope.dfy`
  and `TypeTable.dfy` are the scope and the type manager on top of it; `ScopeTable.dfy` and `ScopeGraph.dfy` say what
  they mean.
- **Constants.** `Typing.dfy` has the typing rules, `Interp.dfy` the three evaluators. `Soundness.dfy` and
  `Acceptance.dfy` show how they fit, in both directions, `Arithmetic.dfy` what the operators compute, and `Folding.dfy`
  that a constant evaluated by the compiler is what execution would give.
- **Text.** `RsrvWordDic.dfy`, `Dictionary.dfy`, `Scanner.dfy`, `Tokens.dfy`, `Decimal.dfy`, `Printer.dfy`,
  `Grammar.dfy`, and the round trip in `PrintParse.dfy`, `PrintScan.dfy` and `ReadBack.dfy`.
- **Stack code.** `CodeList.dfy`, `Vsm.dfy`, `Memory.dfy` (variables from one instruction to the next), `StackCode.dfy`,
  the linker in `Link.dfy`, and the listing of node trees in `IrPrinter.dfy`.

Inputs from outside are parameters: the string hash, the arithmetic and the text of floating-point numbers, what values,
stores and calls are, the numbering of tokens, the modules already imported.

Where the code is not what one might expect, the model follows the code:

- `continue` in `for` and `do` goes to the start label, so the step or the test of that round is skipped
  (src/ir/IrMgr_stmt.cc:102-113, 171-183).
- The grammar allows `if` without `else`, but elaboration looks into the missing branch (src/ir/IrMgr_stmt.cc:224), so
  such a program ends elaboration.
- `break` and `continue` outside a loop emit nothing; a `return` whose value is rejected becomes a plain return.
- The typing rules accept an integer on the left of a float but not a float on the left of an integer, and anything at
  all on the left of a float in arithmetic; the casts they require are not inserted.
- A constant may be declared in an inner scope under the name of an outer constant that its definition uses. It gets the
  right value, but its definition then means something else (`Constants.ShadowedConstant`), so it cannot be written out
  for the name; `Constants.InlinableExactly` and `Constants.InlinableBeforehand` say when it can.
- Two booleans are not compared for equality and if-then-else needs branches of one type, although the evaluators have
  values for both (`Acceptance.RejectedOutsideRules`).
- The source semantics leaves out what the compiler rejects with a message; a rejected condition ends compilation.
- Enum constants are added to the scope of the enum without a check for an equal name.
- Two parameters of one function may have the same name: names are checked before any parameter is declared.
- Doubling a scope's table counts its handles again and reverses its chains, so which of several handles of one name is
  found changes at each doubling (`ScopeTable.AddQueue`); `f(int a, int a)` gets there when its scope is doubled.
- The scopes of the modules an imported module imports are all added under the name given for that module.
- A float that starts with a point gets two points in its text. A backslash outside a string is ignored. Inside a
  string a backslash before a newline disappears, so such a string is not printed as it was read.
- A comment directly behind a division sign is read as another comment or operator.

## Model

| member | source | states |
|---|---|---|
| Program.ModuleDoesWhatItSays | src/ir/IrMgr.cc:144-149 | from the syntax tree to the program counter, for every meaning of values, store and calls: block k of the emitted module and part k of its source (the top level, then the functions in declaration order) end alike, with the same store and returned value, at an expression without a value, or never; part k is compiled for block k |
| Program.FuncsAgree | src/ir/IrMgr_stmt.cc:555-572 | function bodies, however deeply declared, are elaborated in the order of their declarations, each for the next block, in the scope and state in which they stand |
| Meaning.StmtMeans | src/ir/IrMgr_stmt.cc:43-361 | for every accepted statement: what it compiles to has the outcome and the store that the source semantics gives the statement, with the same bound on the rounds of loops |
| Meaning.ListMeans | src/ir/IrMgr_stmt.cc:51-60 | the same for a list of statements, each standing behind the one before it |
| Meaning.IfMeans | src/ir/IrMgr_stmt.cc:213-227 | the same for if: the condition decides, in its own scope and state |
| Meaning.WhileMeans | src/ir/IrMgr_stmt.cc:345-358 | the same for while: test, body, again; break ends the loop and continue tests again |
| Meaning.DoWhileMeans | src/ir/IrMgr_stmt.cc:102-113 | the same for do-while, whose condition stands behind the body |
| Meaning.ForMeans | src/ir/IrMgr_stmt.cc:167-183 | the same for for: first part outside the loop, in a scope of its own |
| Meaning.ForLoopMeans | src/ir/IrMgr_stmt.cc:171-183 | the same for its loop: test, body, step |
| Meaning.AssignmentMeans | src/ir/IrMgr_stmt.cc:119-158 | an assignment puts the value of its right-hand side, evaluated first, into the place on its left, or what the operator makes of the old contents and that value |
| Meaning.StepMeans | src/ir/IrMgr_stmt.cc:88-100 | increment and decrement replace the contents of their place by its successor and predecessor |
| Meaning.InitMeans | src/ir/IrMgr_stmt.cc:301-343 | a declaration with an initial value is an assignment of that value to the name just declared |
| Meaning.ValueMeans | src/ir/IrMgr_stmt.cc:160-165 | a statement that is an expression has its effect; a return gives its value |
| Meaning.ExprMeans | src/ir/IrMgr_expr.cc:31-199 | the node of an accepted expression evaluates to the value, and leaves the store, that the source semantics gives the expression: operands from left to right, and, or and if-then-else evaluating what they need |
| Meaning.BinaryMeans | src/ir/IrMgr_expr.cc:121-152 | the same for binary operators, both operands in the order of the source |
| Meaning.IteMeans | src/ir/IrMgr_expr.cc:154-194 | the same for if-then-else, with its branches in the order of the source |
| Meaning.CallMeans | src/ir/IrMgr_expr.cc:77-96 | the same for calls: arguments first, in order, then the call of what is named, in the scope where it stands |
| Meaning.PlaceMeans | src/ir/IrMgr_expr.cc:205-271 | the handle of an accepted name, member or array element is the place the source means |
| Kinds.StmtCompiled | src/ir/IrMgr_stmt.cc:43-361 | elaboration gets through a statement if and only if the source semantics says so: no expression in it ends compilation, its conditions are accepted and every if has an else branch |
| Kinds.ExprKind | src/ir/IrMgr_expr.cc:31-199 | an expression is accepted with a type, rejected with a message, or the end of compilation, exactly as its kind, computed from the kinds of its parts, says; the calls recorded so far play no part |
| Kinds.PrimaryKind | src/ir/IrMgr_expr.cc:205-271 | the same for places |
| Declared.VariableDeclared | src/ir/IrMgr_stmt.cc:301-343 | behind the declaration of a variable a lookup of its name finds the next global or the next local of the block, with the type its type expression denotes |
| Declared.EnumAcceptedExactly | src/ir/IrMgr_stmt.cc:405-474 | an enum is accepted with a list of values if and only if these are the given ones, each the value of its expression behind the constants before it, pairwise distinct, and the least unused one where none is given |
| Declared.EnumDeclared | src/ir/IrMgr_stmt.cc:405-474 | behind an accepted enum its name stands for a type not used before, and each constant named through it is the integer listed for it |
| Declared.EnumConstantMeans | src/ir/IrMgr_stmt.cc:405-474 | so such a constant means that integer, whatever integers mean |
| Declared.FunctionDeclared | src/ir/IrMgr_stmt.cc:483-572 | behind an accepted function header the name finds a function of the denoted type with the next index; its scope holds its parameters as its first locals and nothing else, and its default values are those of the declaration |
| Declared.FunctionAccepted | src/ir/IrMgr_stmt.cc:483-572 | a function is declared if and only if its name is free, its type and those of its parameters denote types where it is declared, and its default values are accepted |
| TypeNames.ResolvesWhatItDenotes | src/ir/IrMgr_stmt.cc:659-737 | a type expression resolves to exactly the type it denotes, with names looked up in the scope, and to none if it denotes none |
| TypeNames.WrittenResolves | src/ir/IrMgr_stmt.cc:659-737 | every type without functions and enums in it, written as a type expression, resolves to itself in every scope |
| TypeNames.ResolvesWritten | src/ir/IrMgr_stmt.cc:659-737 | a type expression without names is what one writes for the type it resolves to |
| TypeNames.SameTypeSameExpression | src/ir/IrMgr_stmt.cc:659-737 | so two of them resolve to the same type, wherever they stand, if and only if they are the same |
| Preservation.CompilationPreservesMeaning | src/ir/IrMgr_stmt.cc:43-361 | structured big-step execution of a statement and the run of its node list from first to last node agree in both directions: same normal end, same return value and store, same fault, same divergence, in every store and for every meaning of the nodes |
| Preservation.ProgramPreservesMeaning | src/ir/IrMgr.cc:144-149 | the same for the top-level block and for the body of every function, each against its own block of the emitted program |
| Preservation.FunctionsCompiled | src/ir/IrMgr_stmt.cc:555-572 | the k-th block opened while a statement is laid out is the layout of the k-th function body in declaration order |
| Semantics.Simulate | src/ir/IrMgr_stmt.cc:43-361 | one statement placed anywhere in a block with unique labels: for every fuel of the structured execution the machine, from its first node, reaches the matching end (behind the segment, a break or continue target, return, fault) or is still running |
| Semantics.SimulateAll | src/ir/IrMgr_stmt.cc:51-60 | the same for the statements of a block, run one after another |
| Semantics.SimulateIf | src/ir/IrMgr_stmt.cc:213-227 | the same for if with its two labels, the false branch to the else part and the jump over it |
| Semantics.SimulateWhile | src/ir/IrMgr_stmt.cc:345-358 | the same for while: start label, test, body, jump back, end label; break and continue of the body go to the two labels |
| Semantics.SimulateDoWhile | src/ir/IrMgr_stmt.cc:102-113 | the same for do-while; continue goes to the start label, so the test of that round is skipped |
| Semantics.SimulateFor | src/ir/IrMgr_stmt.cc:167-183 | the same for the first part of for followed by the loop |
| Semantics.SimulateForLoop | src/ir/IrMgr_stmt.cc:171-183 | the same for the loop of for; continue goes to the start label, so the step of that round is skipped |
| Semantics.SimulateSimple | src/ir/IrMgr_stmt.cc:62-100 | break and continue emit a jump inside a loop and nothing outside one; assignments, calls and returns emit their node |
| Labels.JumpsStayInBlock | src/ir/IrMgr_stmt.cc:62-113 | in every block of an elaborated program every jump or branch goes to a label that occurs exactly once in that block and in no other block, however loops and functions nest |
| Labels.EmitTidy | src/ir/IrMgr_stmt.cc:43-361 | labels made while a statement is laid out are fresh and occur once, and its jumps go to them or to the targets the statement was given |
| Labels.BlocksApart | src/ir/IrMgr_stmt.cc:555-572 | no two blocks share a label |
| IrManager.IrMgr.ElabStmt | src/ir/IrMgr_stmt.cc:43-361 | the one-pass elaborator does to scopes, blocks, global variables, calls, labels and node lists what resolving the statement and then laying it out says; it fails exactly where that fails |
| IrManager.IrMgr.ElabSimple | src/ir/IrMgr_stmt.cc:62-165 | the same for the statements that emit at most one node: break and continue as jumps, a rejected assignment as nothing, a rejected return value as a plain return |
| IrManager.IrMgr.ElabVarDecl | src/ir/IrMgr_stmt.cc:301-343 | the same for a variable: global in the global scope, else the next slot of the block, then the store of its initial value |
| IrManager.IrMgr.DeclareVar | src/ir/IrMgr_stmt.cc:301-343 | declares the variable under the next index of the module or of the block, as specified |
| IrManager.IrMgr.ElabStep | src/ir/IrMgr_stmt.cc:88-100 | the same for increment and decrement |
| IrManager.IrMgr.ElabAssign | src/ir/IrMgr_stmt.cc:119-158 | the same for assignment and in-place operators, right-hand side first |
| IrManager.IrMgr.ElabBlock | src/ir/IrMgr_stmt.cc:51-60 | the same for a block and its scope |
| IrManager.IrMgr.ElabIf | src/ir/IrMgr_stmt.cc:213-227 | the same for if; without an else part elaboration stops |
| IrManager.IrMgr.ElabWhile | src/ir/IrMgr_stmt.cc:345-358 | the same for while |
| IrManager.IrMgr.ElabDoWhile | src/ir/IrMgr_stmt.cc:102-113 | the same for do-while |
| IrManager.IrMgr.ElabFor | src/ir/IrMgr_stmt.cc:167-183 | the same for for, in a scope of its own |
| IrManager.IrMgr.ElabFunc | src/ir/IrMgr_stmt.cc:185-187 | the same for a function declaration: nothing in the current block, the body in a new one without loop targets |
| IrManager.IrMgr.RegFunc | src/ir/IrMgr_stmt.cc:483-572 | a function header registers the scope below the global scope, the parameters, the handle with the next function index and the block, or stops where the header is rejected |
| IrManager.IrMgr.ResolveParams | src/ir/IrMgr_stmt.cc:502-541 | the parameter types are resolved in the scope of the declaration, the first failure ends it |
| IrManager.IrMgr.DeclareParams | src/ir/IrMgr_stmt.cc:543-553 | parameter i is declared as local i of the function scope, its default value is elaborated outside |
| IrManager.IrMgr.RegEnum | src/ir/IrMgr_stmt.cc:405-474 | the loop over the constants yields the scope, the values and the rejection the specification says, and the enum handle only if no constant is rejected |
| IrManager.IrMgr.RegConst | src/ir/IrMgr_stmt.cc:580-652 | a named constant gets the value of its expression, evaluated once, by the type of the expression |
| IrManager.IrMgr.ElabList | src/ir/IrMgr.cc:144-149 | a list of statements elaborates like its resolution followed by the layout of all of them |
| IrManager.IrMgr.Elaborate | src/ir/IrMgr.cc:144-149 | the node lists of a module are the blocks of its resolved program |
| IrManager.NextFree | src/ir/IrMgr_stmt.cc:424-469 | the inner loop over taken values stops at the least free one |
| IrManager.Check | src/ir/IrMgr_stmt.cc:385-396 | membership in the used values |
| Slots.ElabKeepsSlots | src/ir/IrMgr_stmt.cc:301-343 | through every statement, nested function and early rejection, variable i of each block and global variable i have local index i, function i has index i, and lists only grow at their ends |
| Slots.ElabAllKeepsSlots | src/ir/IrMgr_stmt.cc:563-572 | the same for a list of statements |
| Ownership.LocalsStayInBlock | src/ir/IrMgr_stmt.cc:495-500 | for a whole module: the node list of each block names no local variable but those of that block, each being the variable or argument its index says; a function body never names a local of an enclosing block |
| Ownership.StmtOwned | src/ir/IrMgr_stmt.cc:483-572 | elaborating any statement in a scope of block b keeps every scope with its owner and yields nodes that name locals of b, and function bodies that name their own |
| Ownership.FindOwned | src/compiler/Scope.cc:105-124 | a lookup from a scope finds only what the block owning that scope may see |
| Ownership.ExprOwned | src/ir/IrMgr_expr.cc:31-199 | an elaborated expression names only those locals |
| Ownership.EmitOwned | src/ir/IrMgr_stmt.cc:43-361 | laying the statement out as nodes keeps that |
| EnumProps.EnumValuesDistinctAndLeast | src/ir/IrMgr_stmt.cc:424-469 | the values of an accepted enum are pairwise distinct and each implicit one is the least non-negative integer unused so far |
| EnumProps.SearchIsShort | src/ir/IrMgr_stmt.cc:424-440 | the search for an implicit value ends with a value not above the number of values used |
| ScopeTable.ScopeRefinesMap | src/compiler/Scope.cc:64-153 | a scope filled with distinct names is a map: each name finds its own handle, other names find nothing, across any number of doublings; entries stay within the limit and the counter never falls behind their number |
| ScopeTable.AddAllHolds | src/compiler/Scope.cc:64-153 | after any additions every handle is in the table exactly once, in the bucket its hash selects |
| ScopeTable.FindLocalIs | src/compiler/Scope.cc:130-141 | a local lookup finds a handle of that name if and only if one was added |
| ScopeTable.FindsFirstOfQueue | src/compiler/Scope.cc:130-141 | with several handles of one name a lookup finds the first of their queue, the order in which their chain holds them |
| ScopeTable.AddQueue | src/compiler/Scope.cc:64-101 | an addition puts its handle in front of the queue of its name, and a doubling first turns every queue around: so the newest is found until the table is doubled, and then the oldest |
| ScopeClass.Scope.Add | src/compiler/Scope.cc:64-78 | the intrusive table with its links after an addition is the specified table, doubled first when the counter has reached the limit |
| ScopeClass.Scope.AllocTable | src/compiler/Scope.cc:81-101 | doubling relinks every handle in the order of the old chains and counts it again |
| ScopeClass.Scope.FindLocal | src/compiler/Scope.cc:130-141 | walking a chain returns the first handle of that name |
| Buckets.RehashConserves | src/compiler/Scope.cc:81-101 | moving all entries to a table of another size keeps each exactly once and puts it where its key says |
| Chains.ChainTable.Put | src/compiler/Scope.cc:146-153 | linking a cell in front of its chain, on the heap, is consing it to the chain; other chains keep their cells |
| Chains.ChainTable.MoveChain | src/compiler/Scope.cc:89-98 | moving one chain cell by cell reverses it into the new table |
| Chains.ChainTable.AllocTable | src/compiler/TypeMgr.cc:559-580 | after all chains are moved the new table holds the rehash of the old one |
| ScopeGraph.FindIsLexical | src/compiler/Scope.cc:105-124 | on every scope graph that can be built a lookup ends and returns the first match along the scope, its parents and its global scope |
| ScopeGraph.NewScopeWf | src/ir/IrMgr.cc:262-281 | a new scope inherits the global scope of its parent, and directly below the global scope it has no parent; parents and global scopes are always older |
| TypeTable.SameShapeSameObject | src/compiler/TypeMgr.cc:159-258 | in a table that is closed and has no two objects built alike, two types are structurally equal if and only if they are the same object (enum types by identity) |
| TypeTable.TypeMgr.RegType | src/compiler/TypeMgr.cc:513-529 | registering keeps the list canonical, numbers the type by its position and links every derived type into the bucket its lookup probes, exactly once |
| TypeTable.TypeMgr.MakeRoom | src/compiler/TypeMgr.cc:513-529 | the table is doubled when the number of hashed types reaches the limit, and keeps every type |
| TypeTable.TypeMgr.Lookup | src/compiler/TypeMgr.cc:159-171 | walking one chain finds a type built that way if and only if the list of all types holds one |
| TypeTable.TypeMgr.Get | src/compiler/TypeMgr.cc:159-171 | returns the one object built that way, new or old |
| TypeTable.TypeMgr.ArrayType | src/compiler/TypeMgr.cc:159-171 | the object for an array of that element type |
| TypeTable.TypeMgr.SetType | src/compiler/TypeMgr.cc:177-189 | the object for a set of that element type |
| TypeTable.TypeMgr.MapType | src/compiler/TypeMgr.cc:196-211 | the object for a map, whose structure is the map of the structures of its parts |
| TypeTable.TypeMgr.FunctionType | src/compiler/TypeMgr.cc:218-246 | the object for that output type and input types |
| TypeTable.TypeMgr.EnumType | src/compiler/TypeMgr.cc:251-258 | always a new object |
| TypeTable.TypeMgr.ResolveType | src/ir/IrMgr_stmt.cc:659-737 | NULL exactly when the type expression denotes nothing, else the object whose structure it denotes |
| TypeTable.TypeMgr.ResolveTwo | src/ir/IrMgr_stmt.cc:659-737 | two type expressions resolved one after the other, whatever the first registers, give the same object if and only if they denote the same type |
| TypeTable.HashFunc | src/compiler/TypeMgr.cc:51-62 | the hash computed with wrap-around over the parameter list is the one stored types are filed under |
| TypeTable.HashFunc2 | src/compiler/TypeMgr.cc:66-77 | and so is the one computed from a function type; the two agree |
| TypeTable.StoredMore | src/compiler/TypeMgr.cc:513-529 | linking a newly registered derived type keeps the table a permutation of the derived types of the list |
| Soundness.WellTypedEvaluates | src/ir/IrInterp.cc:34-446 | a constant expression accepted by the typing rules, with operands already of the required types and without strings, is evaluated by the evaluator of its type without reaching an assertion |
| Soundness.EvaluatorsExclude | src/ir/IrInterp.cc:34-446 | no expression has a value in two evaluators |
| Acceptance.AcceptsWhatEvaluates | src/compiler/TypeMgr.cc:321-441 | over operands with values the typing rules and the evaluators agree: an operator is accepted with a type, with no cast missing where evaluation gets to, if and only if the evaluator for that type reaches no assertion, except for equality of booleans and branches of different types |
| Acceptance.RejectedOutsideRules | src/compiler/TypeMgr.cc:321-441 | those exceptions are rejected although evaluation has a value for them |
| Acceptance.WidenedAccepted | src/compiler/TypeMgr.cc:342-441 | a relation or arithmetic operator over integers and floats is accepted, with the required types, whenever it is over types to which its operands widen; the one exception is a float on the left of an integer in arithmetic |
| Acceptance.RequiredTypesSuffice | src/compiler/TypeMgr.cc:321-441 | over the required types the operator is accepted as it stands, with the same result |
| Acceptance.CastableAccepted | src/compiler/TypeMgr.cc:342-351 | logical operators, not and the condition of if-then-else take exactly what can be cast to a boolean, and require booleans |
| Acceptance.StringsAndEnumsCompared | src/compiler/TypeMgr.cc:384-441 | strings are compared by every relation, values of one enum for equality, values of two enums not at all |
| Acceptance.LeftOfFloatAccepted | src/compiler/TypeMgr.cc:353-368 | whatever stands on the left of a float in arithmetic is accepted and required to be a float |
| Arithmetic.SumsAndProducts | src/ir/IrInterp.cc:247-254 | addition counts on from its left operand, a difference is what has to be added to the right operand to get the left one, multiplication is repeated addition; undefined exactly if 32 bits do not hold the result |
| Arithmetic.QuotientAndRemainder | src/ir/IrInterp.cc:256-260 | quotient and remainder are the only two numbers with dividend = quotient * divisor + remainder, a remainder smaller than the divisor and of the sign of the dividend; undefined for a zero divisor or a quotient that does not fit |
| Arithmetic.Shifts | src/ir/IrInterp.cc:262-266 | a shift to the left is repeated doubling modulo 2^32, one to the right the floor of repeated halving, for counts from 0 to 31 only |
| Arithmetic.BitsByPosition | src/ir/IrInterp.cc:238-245 | and, or and exclusive or act on each of the 32 bits by itself, and the bits determine the result |
| Arithmetic.ComplementOf | src/ir/IrInterp.cc:222-223 | the complement turns every bit around |
| Arithmetic.IntsCompared | src/ir/IrInterp.cc:76-132 | integers are ordered as counting orders them: at most if counting up reaches the other, equal if both do |
| Arithmetic.FloatsCalculated | src/ir/IrInterp.cc:354-378 | where nothing is rounded floats are calculated with as reals: a difference is what has to be added, a quotient what has to be multiplied |
| Arithmetic.FloatsCompared | src/ir/IrInterp.cc:76-132 | floats are ordered as the reals they stand for |
| Arithmetic.Selects | src/ir/IrInterp.cc:151-152 | if-then-else is the branch its condition selects, in each of the evaluators |
| Arithmetic.LogicSelects | src/ir/IrInterp.cc:56-74 | and, or and not are if-then-else on true and false |
| Arithmetic.BooleansCast | src/ir/IrInterp.cc:40-54 | casts of a boolean choose one or zero |
| Arithmetic.IntsCast | src/ir/IrInterp.cc:208-226 | an integer is cast to whether it differs from zero, and its negative is zero minus it |
| Folding.NodeFolds | src/ir/IrInterp.cc:34-446 | on every constant expression the typing rules accept, the evaluator of its type has a value if and only if execution has one, and it is the same |
| Folding.ConstantMeans | src/ir/IrMgr_expr.cc:31-199 | so a constant expression of the source means the value it is evaluated to when it is compiled |
| Folding.NameHasValue | src/ir/IrMgr_stmt.cc:580-652 | behind the declaration of a constant its name has the value that its definition has in front of it |
| Soundness.MissingCastReachesAssertion | src/ir/IrMgr_expr.cc:98-194 | casts are worked out but not inserted: over operands with values an accepted operator reaches an assertion if and only if a cast is missing and the evaluator does not stop at the first operand |
| Soundness.AssertionExactly | src/ir/IrMgr_expr.cc:98-194 | casts missing at any depth and strings anywhere: unless an operation has no defined result, evaluating an accepted constant expression reaches an assertion if and only if it comes by a string or by an operator that lacks a cast, respecting short circuits and the branch taken |
| Soundness.CleanEvaluates | src/ir/IrInterp.cc:34-446 | if it comes by neither, it reaches no assertion, defined or not |
| Soundness.ValueIsClean | src/ir/IrInterp.cc:34-446 | if it yields a value, it came by neither |
| Soundness.StringOperandStops | src/compiler/TypeMgr.cc:321-441 | every accepted operator with a string operand, with or without values, ends in an assertion; the one exception is float arithmetic whose left operand, a string, is chosen by an undefined condition |
| Soundness.UndefinedComesFirst | src/ir/IrInterp.cc:34-446 | the exception does occur: a float added to such a string has no defined result |
| Soundness.UndefinedCondition | src/ir/IrInterp.cc:34-446 | a quotient by zero compared with an integer is such a condition |
| ConstProp.StaticAccepted | src/ir/IrMgr_expr.cc:31-199 | every constant expression the elaborator makes is one the typing rules accept |
| Soundness.AcceptedYetNotEvaluable | src/compiler/TypeMgr.cc:321-441 | an integer plus a float, and two equal-typed strings compared, are accepted and reach an assertion |
| Constants.NameMeansDefinition | src/ir/IrMgr_stmt.cc:580-652 | after an accepted constant declaration the name elaborates to the same type, staticness and values as the definition did before it, without any condition |
| Constants.RegConstAdds | src/ir/IrMgr_stmt.cc:580-652 | an accepted declaration adds that one handle to its scope; any other outcome leaves the scopes alone |
| Constants.ConstantsAreClean | src/ir/IrMgr_stmt.cc:598-651 | a constant expression is accepted as a definition if and only if its evaluation yields a value, and evaluation then comes by no string and no missing cast |
| Constants.InlinableExactly | src/ir/IrMgr_stmt.cc:580-652 | after the declaration the definition can be written for the name in every expression if and only if the definition still elaborates to the same type, staticness and values as before it |
| Constants.InlinableBeforehand | src/ir/IrMgr_stmt.cc:580-652 | decided before the declaration, for a definition that does not use the name as a member: if and only if no path in it starts with the name and writing the value for the name in it changes nothing |
| Constants.FreshNameDefines | src/ir/IrMgr_stmt.cc:580-652 | a definition that does not look the name up is one: the name stands for it after the declaration |
| Constants.ShadowedConstant | src/ir/IrMgr_stmt.cc:580-652 | for every name, hash and arithmetic: with an outer constant 1, declaring the same name as its successor in an inner scope is accepted and gives 2, while the definition written out gives 3 |
| Constants.DefinesAfterDeclare | src/compiler/Scope.cc:64-124 | a later declaration in a scope of the lookup path keeps the constant unless it uses its name or a name of its definition; one off that path unless it uses a member name of the definition |
| Constants.DefinesAfterOpen | src/ir/IrMgr.cc:262-281 | opening a scope keeps the constant, and the scopes directly below see it |
| ConstRuns.StmtKeeps | src/ir/IrMgr_stmt.cc:43-652 | through any statement, however nested: names that were unique in every scope stay unique, and names it does not declare mean what they meant in every scope there was |
| ConstRuns.ConstantLasts | src/ir/IrMgr_stmt.cc:51-60 | a constant declared anywhere in a list of statements stands for its definition behind the list, if nothing after it declares its name or a name of its definition |
| ConstRuns.ConstantsWrittenOut | src/ir/IrMgr_stmt.cc:51-60 | so any number of such constants, whose definitions may name earlier ones, can be written out in any order and to any depth, in any expression |
| ConstRuns.ModuleConstantsWrittenOut | src/ir/IrMgr.cc:144-149 | the same for a module that starts with an empty global scope, without a condition on the scopes |
| ConstProp.InlineAgrees | src/ir/IrMgr_stmt.cc:598-651 | where a name stands for its definition (as the rows above establish), an expression elaborates to the same type, staticness and values as with the definition written for the name |
| ConstProp.InlineEachAgrees | src/ir/IrMgr_stmt.cc:598-651 | the same for several constants, one after the other |
| ConstProp.ConstantAgrees | src/ir/IrInterp.cc:159-165 | a load of the constant evaluates like the defining expression, in the evaluator of each type |
| RsrvWordDic.RsrvWordDic.constructor | src/parser/RsrvWordDic.cc:124-151 | the two chained tables over one cell array are built so that a bucket holds its last cell and each cell links to the one before it |
| RsrvWordDic.RsrvWordDic.Push | src/parser/RsrvWordDic.cc:136-150 | one cell pushed at the head of both its chains |
| RsrvWordDic.RsrvWordDic.Token | src/parser/RsrvWordDic.cc:164-173 | walking the chain of the hash gives what searching the whole table gives: the token of the spelling, or SYMBOL |
| RsrvWordDic.RsrvWordDic.Str | src/parser/RsrvWordDic.cc:177-186 | the spelling of a token, or none |
| Dictionary.EntryFoundBothWays | src/parser/RsrvWordDic.cc:124-186 | every entry of the table is found by its spelling and by its token: looking up the one gives the other, both ways |
| Dictionary.WordsSpelled | src/parser/RsrvWordDic.cc:164-186 | a word whose token is not SYMBOL is the spelling of that token |
| RsrvWordDic.LookUpHead | src/parser/RsrvWordDic.cc:164-173 | a search of the table can start at the last entry of the bucket |
| Scanner.YmslScanner.ScanToken | src/parser/YmslScanner.cc:54-498 | the loop over the states returns the token, text and position of the machine run from the initial state |
| Scanner.YmslScanner.ReadToken | src/parser/YmslScanner.cc:38-50 | a token that was put back comes first, once |
| Scanner.YmslScanner.UngetToken | src/parser/YmslScanner.cc:503-510 | a token is put back when none is pending |
| Tokens.LexemeReads | src/parser/YmslScanner.cc:54-498 | a spelled lexeme is read back, with its text and ending where it ends, if and only if the next character does not continue it |
| Tokens.TokensReadBack | src/parser/YmslScanner.cc:54-498 | a text of lexemes and gaps scans back to exactly those tokens, texts and places, then the end of input, if and only if no lexeme is continued by what follows |
| Tokens.SpacedTokensReadBack | src/parser/YmslScanner.cc:438-486 | with a blank or comment behind every lexeme that fails only where a comment directly follows a division sign |
| Tokens.LiteralReads | src/parser/YmslScanner.cc:403-436 | a quoted body is read back if and only if it has no bare quote or newline and no backslash at its end or before a newline |
| Tokens.SignReads | src/parser/YmslScanner.cc:177-315 | every operator and punctuation mark, by the longest match |
| Tokens.RealReads | src/parser/YmslScanner.cc:316-392 | decimals that start with a digit, with or without exponent |
| Tokens.GapSkips | src/parser/YmslScanner.cc:438-486 | the scanner looks through blanks, line comments and closed block comments |
| Decimal.IntTextReadsBack | include/YmslScanner.h:136-139 | the decimal text of a number converts back to it if and only if it fits in 32 bits |
| Printer.AstPrinter.PrintExpr | src/ast/AstPrinter.cc:309-565 | the printer appends the fully parenthesised form to its stream |
| Printer.AstPrinter.PrintOperation | src/ast/AstPrinter.cc:348-546 | the same for the operators |
| Printer.AstPrinter.PrintArgList | src/ast/AstPrinter.cc:548-562 | the argument loop puts a comma and a blank before every argument but the first |
| Grammar.Unambiguous | src/parser/grammer.yy:563-740 | a sentence whose derivation parenthesises every operator application has no other derivation by the expr, primary and expr_list productions |
| Grammar.UnambiguousArgs | src/parser/grammer.yy:725-740 | the same for argument lists, including the production that allows a leading comma |
| PrintParse.CanonBuilds | src/parser/grammer.yy:563-740 | the derivation of the printed form is fully parenthesised and its actions build the printed expression |
| PrintParse.ValueShaped | src/parser/grammer.yy:698-722 | the actions build only expressions whose members, elements and calls are taken of primaries |
| PrintScan.Prints | src/ast/AstPrinter.cc:309-565 | the printed text is the spelling of the tokens of that derivation, and what follows no token continues it |
| ReadBack.PrintedReadsBack | src/ast/AstPrinter.cc:309-565 | for every expression of that shape with unreserved names, 32-bit integers and plain strings: scanning the printed text yields the sentence of one derivation only, and that derivation builds the expression |
| ReadBack.PrintInjective | src/ast/AstPrinter.cc:309-565 | two such expressions with the same printed text are the same |
| CodeList.ReadBack | include/VsmCodeList.h:173-221 | any sequence of typed writes read back in the same order of types returns the same values and ends at the size |
| CodeList.Builder.WriteFloat | src/vsm/VsmCodeList.cc:46-62 | a float goes into two words, low half first |
| CodeList.Builder.WriteObjptr | src/vsm/VsmCodeList.cc:64-80 | a pointer goes into two words |
| CodeList.VsmCodeList.constructor | src/vsm/VsmCodeList.cc:106-113 | the code list is a copy of the builder |
| CodeList.VsmCodeList.ReadFloat | include/VsmCodeList.h:200-207 | reads two words and advances the address by two |
| Vsm.PointerMovesByEffects | src/vsm/Vsm.cc:51-465 | on straight-line code the stack pointer changes by the sum of the stack effects of the instructions |
| Vsm.Vsm.Execute | src/vsm/Vsm.cc:48-737 | the execute loop visits every instruction of straight-line code once and ends in the state they lead to |
| Vsm.Vsm.Fetch | src/vsm/Vsm.cc:51-175 | decoding at an instruction boundary gives that instruction and the next boundary |
| Vsm.Vsm.DoInstr | src/vsm/Vsm.cc:55-465 | one instruction changes stack, globals and stack pointer as specified and nothing else |
| Memory.StoreThenLoad | src/vsm/Vsm.cc:81-175 | a store to a local or global followed by a load of the same one pushes the stored value |
| Memory.StoreLeavesOthers | src/vsm/Vsm.cc:81-175 | a store leaves what loads of every other variable push |
| Memory.StoreTouchesOne | src/vsm/Vsm.cc:129-175 | a store pops its value and changes no cell but its own |
| Memory.LocalsFromBase | src/vsm/Vsm.cc:105-175 | local i from a base is local 0 from base + i; globals do not depend on the base |
| Memory.CellLoaded | src/vsm/Vsm.cc:81-127 | local 0 is the cell at the base, global i the cell at i, and a load outside the memory has no effect defined |
| Memory.CountingIsAdding | src/vsm/Vsm.cc:177-199 | increment and decrement are adding and subtracting one, minus is subtracting from zero; they are undefined together |
| Memory.NotComplements | src/vsm/Vsm.cc:201-207 | not complements every bit of the top integer |
| Memory.FloatInstructions | src/vsm/Vsm.cc:217-223 | an integer becomes the float that stands for it, zero and one push those floats, minus cancels |
| Memory.CodesCount | include/Vsm.h:24-85 | the instruction codes count the instructions in the order of their declaration |
| StackCode.CodeComputes | src/vsm/Vsm.cc:177-465 | the linear code of a constant expression, operands last to first, leaves the value of the tree evaluator on top of the stack and everything below unchanged |
| Link.CodeGen | src/vsm/VsmGen.cc:40-83 | the module holds the imported modules, the global variables and the functions in the order of their lists |
| Link.VsmModule.constructor | src/vsm/VsmModule.cc:101-124 | the tables of a module are copies of those of its builder |
| Link.Module2Scope | src/ir/IrMgr.cc:176-206 | the scope made for an importer holds the handles of imports, functions and variables, numbered by position |
| Link.HandlesAreSeen | src/ir/IrMgr.cc:191-204 | handle i made for an importer has name, type and local index of function or variable i of the defining module |
| Link.ImportedFunction | src/ir/IrMgr.cc:191-197 | looking up an exported function by a name nothing else has finds it with the index the defining module gave it |
| Link.ImportedVariable | src/ir/IrMgr.cc:198-204 | the same for a global variable |
| IrPrinter.IrPrinter.DfsNode | src/ir/IrPrinter.cc:97-163 | numbering a tree appends it in postorder and gives each node its position as id |
| IrPrinter.IrPrinter.PrintNodeList | src/ir/IrPrinter.cc:77-92 | all nodes are numbered before the first line is printed, and line k is that of node k with the final ids |
| IrPrinter.AllOperandsFirst | src/ir/IrPrinter.cc:97-189 | in the numbering order every operand, argument, array and condition node comes before its user |
| IrPrinter.NumberingOrdersOperands | src/ir/IrPrinter.cc:77-189 | operands have smaller ids than their users, and every mentioned node of the list, jump targets included, has the id of its own line |

## Left out

- goto, labels and switch: a found label is not entered in the node, and switch ignores its condition, so there is no meaning to preserve.
- Member references on variables: the member handle is unfinished in the source; elaboration of one ends like a failed assertion.
- Branches, calls, return, halt and the object opcodes of the stack machine, and its conversions to boolean and integer: branches test the opcode instead of the condition, return and halt are empty. Conversions are never elaborated either.
- The stack's capacity: the source allocates no stack; the machine here gets one and stops where an access leaves it, and `StackCode.CodeComputes` asks for enough room.
- Generation of byte code for nodes: the source emits nothing, so `StackCode.Code` is a specification of the order in which operands are pushed.
- Resolution of calls after the body (src/ir/IrMgr.cc:154-161): calls are recorded with the scope in which they will be looked up.
- Import of several modules under one dictionary key, and the search for module files: the dictionary of imported modules is an argument.
- Floats as IEEE values: bits and an arithmetic given as a parameter. Floats and their printed text are not part of the round trips.
- Overflow of 32-bit signed arithmetic is an undefined result of the evaluators, as division by zero and shifts out of range are.
- Wrap-around of table sizes and counters: these are unbounded here; the hash values do wrap.
- Preservation.CompilationPreservesMeaning: for statements whose expressions are resolved; `Program.ModuleDoesWhatItSays` starts from the syntax tree.
- Program.ModuleDoesWhatItSays: what a call does, and what values and stores are, is left open, the same on both sides; a call is named by what is called and the scope where it stands. Nothing in the source executes nodes, so the meaning of nodes is the one their names suggest.
- Meaning.ExprMeans: the source semantics takes the calls of the module as a list, since a call node only has a position in it.
- Declared.EnumDeclared: for constants with distinct names; of two with one name the table decides (`ScopeTable.AddQueue`).
- Declared.FunctionDeclared: default values are said to be elaborated in the scope of the declaration while parameters are being added to the function's own scope, not related to scopes without them.
- Arithmetic.QuotientAndRemainder: for a divisor of 32 bits, as all operands are.
- Arithmetic.FloatsCalculated: for operands on which the given float arithmetic is exact; rounding is not modelled.
- Acceptance.AcceptsWhatEvaluates: over operands with values and for operators other than casts, which the source has no rules for.
- Folding.NodeFolds: not for expressions of string type, which no evaluator takes.
- Ownership.LocalsStayInBlock: speaks of node lists; default values of parameters are elaborated in the enclosing scope, belong to no node list, and may name its locals.
- Slots.ElabKeepsSlots: parameters and declared variables are numbered separately, both from zero, so a parameter and a variable can have the same index.
- Grammar.Unambiguous: about derivations; the tables of the generated parser are not part of this model, so precedences are not either. Fully parenthesised text does not need them.
- ReadBack.PrintedReadsBack: names, numbers and strings outside the stated ones are treated token by token (`Tokens.LexemeReads`, `Tokens.LiteralReads`, `Decimal.IntTextReadsBack`).
- Tokens.TokensReadBack: floats that start with a point are scanned by the model but not among the lexemes.
- Link.ImportedFunction: for a name that no other export of the module has; which of several is found depends on the doublings since (`ScopeTable.FindsFirstOfQueue`, `ScopeTable.AddQueue`).
- RsrvWordDic.RsrvWordDic.constructor: a pointer into the cell array is an index; every spelling is ASCII, so the test for that is left out.
- IrPrinter.IrPrinter.PrintNodeList: lines are numbers, not characters; the node trees are disjoint, as the elaborator makes them.
- Vsm.Vsm.Execute: for straight-line code of the opcodes modelled.
- Vsm.Vsm.DoInstr: the object opcodes and the conversions to boolean and integer are outside.
- TypeTable.TypeMgr.ResolveType: named types come from a given map instead of a lookup in the scope, which `Elaborate.ResolveType` has.
- Soundness.MissingCastReachesAssertion: one operator over well-typed operands with values; `Soundness.AssertionExactly` has any depth and strings, but leaves out expressions whose evaluation meets an operation without a defined result, where that may come before or after a missing cast.
- Constants.InlinableBeforehand: for definitions that do not use the name as a member; for those `Constants.InlinableExactly` decides.
- ConstRuns.ConstantLasts: sufficient, not necessary: a later declaration of one of the names in a scope off the lookup path does no harm (`Constants.DefinesAfterDeclare`).
- File positions, messages, allocation and destruction, statement printing, character encodings and carriage returns.
