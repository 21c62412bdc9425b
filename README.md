# BX0 lab 1 compiler core, modelled in Dafny

This project models the core of a small compiler for BX0. BX0 is a teaching language with
64-bit integers, booleans, assignment, `print`, `if`/`else` and `while`. The model covers
two parts of the compiler.

- **The AST and the target instructions (`Ast.java`).**
  - Source side:
    - the expression and statement trees;
    - the operator mnemonic tables (`getInstr`);
    - `getStorageSize`;
    - the recursive `typeCheck`;
    - `SourceCreator`, the parse-tree listener that builds the AST. It is a stack machine over an expression stack, a stack of open statement lists and a stack of condition indexes.
  - Target side:
    - the pseudo-instructions over numbered stack slots;
    - their AT&T-syntax rendering (`toAmd64`);
    - `getStackSlot`.
- **The lab 1 code generator (`lab1/Main.java`).** `generateInstructions` and `genInstrsFromExpr` lower straight-line statements to pseudo-instructions. Every computed value gets a fresh stack slot. The generator's state is the static fields `mVarCounter`, `mVars` and `mInstrs`.

Modules:

| file | module | what it holds |
|---|---|---|
| `Base.dfy` | `Base` | Java null as `Option`, Java `int` as `int32` with explicit wrap-around |
| `Decimal.dfy` | `Decimal` | decimal numerals with ASCII digits, as `Integer.toString` writes them, with their parsers |
| `Source.dfy` | `Source` | `Ast.Source`: operators, types, expressions, statements, `typeCheck` |
| `Creator.dfy` | `Creator` | `SourceCreator`: a pure step function over listener events, the walk theorems, and the class `SourceCreator` proved against the step function |
| `Target.dfy` | `Target` | `Ast.Target`: instructions, `getStackSlot`, `toAmd64` |
| `Lab1.dfy` | `Lab1` | the lowering as functions of the generator's state, its invariants, and the class `Generator` proved against them |
| `Semantics.dfy` | `Semantics` | what lowering preserves: source and target evaluators over operators left abstract, and the proof that lowered code prints what the source prints |

How Java maps to the model:

- A Java null `Dest` is `None`.
- Rendering an instruction with a null operand throws a `NullPointerException` in Java; in the model it yields `None`.
- Popping an empty stack in `SourceCreator` makes `Creator.Step` yield `None`, which aborts the walk.
- `getStackSlot` multiplies in 32-bit `int`; the model wraps that product explicitly.

The code departs from the compiler's intended design in three places; the model follows the code.

- **Type errors.** The design calls for type errors and undeclared-variable errors during `typeCheck`. In the code, those checks are commented out, so every node returns a fixed type and nothing is thrown.
- **Reads of unassigned variables.** The design says lowering a read of a variable with no slot is an error. In the code, `mVars.get` returns null, and the null is passed on as the operand.
- **Declaration initialisers.** The design says initialisers are hoisted into assignments at the head of the program. In the code, lab 1 lowers only `prog.statements` and never looks at the initialisers.

## Model

| member | source | states |
|---|---|---|
| Base.WrapInt32 | Ast.java:670 | the Java `int` result of an exact product: congruent to it modulo 2^32, and equal to it when it is in range |
| Decimal.NatToDecimal | Ast.java:670 | the numeral `+` on an int writes: digits only, with no leading zero except for 0 |
| Decimal.DecimalRoundTrip | Ast.java:670 | reading back the numeral of `n` gives `n` |
| Decimal.NatToDecimalInjective | Ast.java:670 | distinct numbers have distinct numerals |
| Decimal.IntToDecimal | Ast.java:670 | the numeral of a signed int starts with `-` exactly when the number is negative, and is digits otherwise |
| Decimal.IntRoundTrip | Ast.java:670 | reading back the numeral of a signed integer gives the integer |
| Source.BinopInstr | Ast.java:35-48 | every binary operator has a quadword (`q`-suffixed) mnemonic |
| Source.BinopInstrCollisions | Ast.java:35-48 | two operators share a mnemonic exactly when they are equal or are `Divide` and `Modulus` (`idivq`) |
| Source.UnopInstr | Ast.java:55-61 | every unary operator has a four-letter quadword mnemonic |
| Source.UnopInstrInjective | Ast.java:55-61 | `negq` and `notq` tell the unary operators apart |
| Source.StorageSize | Ast.java:305-307 | the storage size is `max(size, 8)`: at least 8 bytes; bool (size 1) takes 8 and int64 takes 64 |
| Source.MapGet | Ast.java:109 | `HashMap.get` by Java `equals`: it finds a declaration only for a `String` key equal to a declared name |
| Source.NodeType | Ast.java:64-214 | `getType()` before type checking: `Immediate`, `UnopApp` and `BinopApp` carry int64 and `BoolOp` and `Comparison` carry bool, as their constructors set; a `Read` carries whatever type it holds, null until type checking sets one |
| Source.TypeCheck | Ast.java:82-214 | `typeCheck` returns the type it records on the node, and changes no node but the type of a `Read`; every node except a `Read` returns its fixed type |
| Source.TypeCheckFixedTypes | Ast.java:86-214 | `Immediate`, `UnopApp` and `BinopApp` type as int64, `BoolOp` and `Comparison` as bool, whatever their operands are |
| Source.ReadTypeCheck | Ast.java:105-115 | a `Read` takes the declared type when the lookup finds a declaration, and otherwise keeps and returns the type it had |
| Source.DestKeyNeverFound | Ast.java:109 | a lookup keyed by the `Dest` object never finds a declaration |
| Source.TypeCheckAsWrittenChangesNothing | Ast.java:105-115 | as written, `typeCheck` leaves every expression exactly as it was and returns its existing type |
| Source.DeclaredReadStaysUntyped | Ast.java:109 | as written, a read of a declared variable that had no type is left with null as its type |
| Source.TypeCheckByNameAnnotates | Ast.java:105-115 | with the lookup keyed by the variable's name, every read of a declared variable gets its declared type, and every other node is left as it was |
| Source.TypeCheckIdempotent | Ast.java:82-214 | type checking twice gives the same tree and type as once |
| Creator.AddStmtTo | Ast.java:346-354 | `addStmt` appends to the innermost open list when one is open, otherwise to the top-level statements; the depth of the open-list stack and everything else are unchanged |
| Creator.AddStmtToInnermost | Ast.java:346-354 | only the innermost open list grows; the lists below it and the top level are untouched |
| Creator.ReduceBinop | Ast.java:429-434 | `processBinop` is defined exactly when two operands are stacked. It replaces the top two with one `BinopApp(left, op, right)`, keeping the entries below and all other state |
| Creator.ReduceBoolOp | Ast.java:436-441 | the same for `processBoolOp` and `BoolOp` |
| Creator.ReduceComparison | Ast.java:443-448 | the same for `processComparison` and `Comparison` |
| Creator.RemoveAt | Ast.java:398 | `exprs.remove(i)` takes out the entry at `i`: the entries below keep their places and those above move down by one |
| Creator.OpenBlock | Ast.java:381-406 | `enterIfelse`, `enterElseblock` and `enterWhileloop` push one new empty statement list; `if` and `while` also push the current expression-stack size as the condition's index, `else` does not; nothing else changes |
| Creator.CloseIfelse | Ast.java:392-400 | `exitIfelse` returns exactly when there are two open lists (one without an else), a recorded index and an expression at that index. It then pops those lists and the index, removes the condition at that index, and keeps the declarations and the counter |
| Creator.CloseWhileloop | Ast.java:409-413 | `exitWhileloop` returns exactly when there is an open list, a recorded index and an expression at that index. It then pops the list and the index, removes the condition at that index, and keeps the declarations and the counter |
| Creator.PopThen | Ast.java:362-427 | the `exprs.pop()` of `exitVarinit` (with an initialiser), `exitMove`, `exitPrint` and `exitUnop` succeeds exactly when the stack is non-empty. It takes the top entry off; `exitUnop` pushes its node back in its place. Only a declaration advances the counter, and it adds exactly its name to the declarations |
| Creator.ReduceStep | Ast.java:451-516 | `exitAdd` … `exitGreater` return exactly when two operands are stacked, replace them with one node, and change nothing else |
| Creator.StepFailsExactlyWhenThrows | Ast.java:356-527 | a callback (`Creator.Step`) fails exactly when its Java code throws. That is a `pop` from an empty expression stack or list stack, or a `remove` at an index outside the expression list; `Creator.Throws` states the condition for each callback |
| Creator.StepCounts | Ast.java:356-527 | a callback that returns opens one statement list for each `enter…`, closes two (`if` with `else`) or one for each `exit…` of a block, and leaves the depth alone otherwise; `varCounter` grows by one exactly at `exitVarinit` |
| Creator.RunStopsAtThrow | Ast.java:356-527 | the walk (`Creator.Run`) fails once a callback throws, whatever events follow |
| Creator.RunCounts | Ast.java:356-527 | a walk that returns has advanced `varCounter` by the number of declarations, and changed the depth of the open-list stack by the net of its enters and exits |
| Creator.RunAppend | Ast.java:337-527 | running two event sequences one after the other is running their concatenation |
| Creator.RunSingle | Ast.java:337-527 | a walk of one event is one callback |
| Creator.BinopEventStep | Ast.java:451-484 | each arithmetic and bitwise exit callback (`exitAdd` … `exitXor`) is `processBinop` of its operator |
| Creator.BoolOpEventStep | Ast.java:487-492 | `exitBoolop` is `processBoolOp` of `&&` or `\|\|` |
| Creator.ComparisonEventStep | Ast.java:495-516 | `exitEq`, `exitLess` and `exitGreater` are `processComparison` of their operator |
| Creator.ExitIfelseCloses | Ast.java:392-400 | `exitIfelse` pops the else list only when there is an else block, then the then list. It removes the condition from its recorded index and leaves the operands stacked above it. It adds exactly one `IfElse`, and both stacks return to their depth before the `if` |
| Creator.ExitWhileloopCloses | Ast.java:409-413 | `exitWhileloop` removes the condition from its recorded index, pops the body and adds exactly one `While`; both stacks return to their depth before the loop |
| Creator.ExprWalkRebuilds | Ast.java:422-527 | the callbacks fired by a walk over an expression's parse tree push exactly that expression and change nothing else |
| Creator.WalkOperands | Ast.java:429-448 | walking two operands leaves the left one below the right one on the stack |
| Creator.AddStmtsToInnermost | Ast.java:346-354 | a run of `addStmt` calls inside an open block appends them, in order, to the innermost list |
| Creator.AddStmtsToTopLevel | Ast.java:346-354 | a run of `addStmt` calls outside every block appends them, in order, to the top level |
| Creator.RunThen | Ast.java:337-527 | a walk that reaches a state continues from it |
| Creator.OpenedBlockWalk | Ast.java:381-385 | entering an `if` or a `while`, walking its condition and its statements leaves the condition stacked, the statements in a new open list, and the condition's index recorded |
| Creator.ElseBlockWalk | Ast.java:387-389 | entering an else block and walking its statements leaves them in a new open list |
| Creator.IfElseWalk | Ast.java:381-400 | the walk over an `if`/`else` adds exactly that statement, in the right place |
| Creator.WhileWalk | Ast.java:403-413 | the walk over a `while` adds exactly that statement |
| Creator.SimpleStmtWalk | Ast.java:374-419 | the walk over an assignment or a `print` adds exactly that statement |
| Creator.StmtWalkRebuilds | Ast.java:346-419 | the walk over any statement, however deeply nested, adds exactly that statement where `addStmt` puts it |
| Creator.StmtsWalkRebuilds | Ast.java:346-419 | the walk over a statement list appends exactly those statements, in order |
| Creator.Declare | Ast.java:362-371 | after the declarations, the declared names are the earlier ones plus the new ones |
| Creator.DeclareKeeps | Ast.java:362-371 | a name not redeclared keeps its declaration |
| Creator.DeclareLastWins | Ast.java:362-371 | a redeclared name keeps the last declaration, whose order is the counter value at that declaration |
| Creator.VarInitWalk | Ast.java:362-371 | `exitVarinit` records a variable's type and initialiser (null when it has none) with the next order number, and consumes the initialiser from the stack |
| Creator.DeclWalkDeclares | Ast.java:362-371 | walking the declarations declares them in order and advances the counter by their number |
| Creator.ProgramWalkRebuilds | Ast.java:337-527 | walking a whole program from the listener's initial state yields a `Prog` with exactly its statements and declarations, and leaves every stack empty |
| Creator.SourceCreator.constructor | Ast.java:338-344 | the listener starts with empty lists, stacks and map, no program, and counter 0 |
| Creator.SourceCreator.AddStmt | Ast.java:346-354 | the fields change as `AddStmtTo` says |
| Creator.SourceCreator.PopExpr | Ast.java:418 | returns the top of the expression stack and pops it |
| Creator.SourceCreator.RemoveExpr | Ast.java:398 | returns the entry at the index and removes it |
| Creator.SourceCreator.ExitProgram | Ast.java:357-359 | sets the program to the statements and declarations built so far |
| Creator.SourceCreator.ExitVarinit | Ast.java:362-371 | the callback's step: declares the variable with the next order number, popping its initialiser if it has one |
| Creator.SourceCreator.ExitMove | Ast.java:374-378 | pops the source and adds the assignment |
| Creator.SourceCreator.EnterIfelse | Ast.java:381-385 | opens a list and records the stack size |
| Creator.SourceCreator.EnterElseblock | Ast.java:387-389 | opens a list |
| Creator.SourceCreator.ExitIfelse | Ast.java:392-400 | the callback's step (see `Creator.ExitIfelseCloses`) |
| Creator.SourceCreator.EnterWhileloop | Ast.java:403-406 | opens a list and records the stack size |
| Creator.SourceCreator.ExitWhileloop | Ast.java:409-413 | the callback's step (see `Creator.ExitWhileloopCloses`) |
| Creator.SourceCreator.ExitPrint | Ast.java:416-419 | pops the argument and adds the `print` |
| Creator.SourceCreator.ExitUnop | Ast.java:422-427 | replaces the top of the stack with its negation (`-`) or bitwise not |
| Creator.SourceCreator.ProcessBinop | Ast.java:429-434 | the fields change as `ReduceBinop` says |
| Creator.SourceCreator.ProcessBoolOp | Ast.java:436-441 | the fields change as `ReduceBoolOp` says |
| Creator.SourceCreator.ProcessComparison | Ast.java:443-448 | the fields change as `ReduceComparison` says |
| Creator.SourceCreator.ExitAdd | Ast.java:451-453 | `+` gives `Add`, anything else `Subtract`, reduced by `processBinop` |
| Creator.SourceCreator.ExitMul | Ast.java:456-461 | `*` gives `Multiply`, `/` `Divide`, anything else `Modulus` |
| Creator.SourceCreator.ExitShift | Ast.java:464-469 | `<<` gives `Lshift`, anything else `Rshift` |
| Creator.SourceCreator.ExitAnd | Ast.java:472-474 | reduces with `BitAnd` |
| Creator.SourceCreator.ExitOr | Ast.java:477-479 | reduces with `BitOr` |
| Creator.SourceCreator.ExitXor | Ast.java:482-484 | reduces with `BitXor` |
| Creator.SourceCreator.ExitBoolop | Ast.java:487-492 | `&&` gives `AND`, anything else `OR` |
| Creator.SourceCreator.ExitEq | Ast.java:495-500 | `==` gives `EQ`, anything else `NEQ` |
| Creator.SourceCreator.ExitLess | Ast.java:503-508 | `<` gives `LT`, anything else `LEQ` |
| Creator.SourceCreator.ExitGreater | Ast.java:511-516 | `>` gives `GT`, anything else `GEQ` |
| Creator.SourceCreator.ExitVariable | Ast.java:519-521 | pushes an untyped read of the variable |
| Creator.SourceCreator.ExitNumber | Ast.java:524-527 | pushes the literal |
| Target.NonNullMeansEveryOperandPresent | Ast.java:553-658 | an instruction renders without a null-pointer exception exactly when none of the operands it renders is null |
| Target.StackSlot | Ast.java:669-671 | every slot is addressed relative to `(%rsp)`, and slot 0 alone renders as the bare `(%rsp)` |
| Target.StackSlotRoundTrip | Ast.java:669-671 | below 2^28 slots, the slot number can be read back from its address (offset `8 * slot`) |
| Target.StackSlotInjective | Ast.java:669-671 | below 2^28 slots, distinct slots have distinct addresses |
| Target.StackSlotNegativeAtLimit | Ast.java:670 | at slot 2^28, the 32-bit product `loc * 8` overflows to a negative offset |
| Target.StackSlotWrapsAround | Ast.java:670 | slots 2^29 apart share an address |
| Target.TemplateLines | Ast.java:556-658 | there are lines exactly when no rendered operand is null, and at least one |
| Target.BinopLines | Ast.java:592-618 | every binary-operation template has at least three lines (load, operate, store) |
| Target.Render | Ast.java:553-658 | `toAmd64` succeeds exactly when no rendered operand is null |
| Target.ToAmd64 | Ast.java:553-671 | the same, with `getStackSlot`'s addresses |
| Target.BinopLinesEnds | Ast.java:592-618 | each binary template loads the first operand it reads into `%cl`, `%rax` or `%r11`, and stores the result register into the destination last |
| Target.Operands | Ast.java:553-658 | the operands `toAmd64` renders: every operand the instruction reads, and for a writing instruction its destination, last |
| Target.LastLineStores | Ast.java:556-633 | each writing instruction's last line is a `movq` from its result (immediate, `%r11`, `%rax` or `%rdx`) into its destination slot |
| Target.FirstLineLoads | Ast.java:569-645 | each instruction that reads a slot first loads the first operand it reads, with `movb` for a shift count and `movq` otherwise |
| Target.StoresDestLast | Ast.java:556-633 | the rendering of a writing instruction ends with `, ` and its destination slot |
| Target.LoadsFirstOperandFirst | Ast.java:569-645 | the rendering of a reading instruction begins by loading its first operand |
| Target.DivideModulusDifferOnlyInResultRegister | Ast.java:606-610 | `Divide` and `Modulus` render the same lines except the last, which stores `%rax` for `Divide` and `%rdx` for `Modulus` |
| Target.BinopLineUsesMnemonic | Ast.java:592-618 | each binary operation's template has a line that starts with its own mnemonic |
| Lab1.Binding | lab1/Main.java:64 | `mVars.get`: the bound `Dest`, or null for an unbound name |
| Lab1.LowerExpr | lab1/Main.java:56-79 | each instruction appended writes the next fresh slot, in order, so the counter advances by exactly the number of instructions. Only literals and operator nodes emit code. A read yields the bound slot (null when unbound); a boolean expression yields null. An expression that emits code leaves its value in the last slot it allocated |
| Lab1.UnopReadsEarlier | lab1/Main.java:65-69 | a unary node's instruction reads only its operand's slot, which is written before it |
| Lab1.BinopReadsEarlier | lab1/Main.java:70-76 | a binary node's instruction reads only its operands' slots, written before it (left operand first) |
| Lab1.ConcatReadsEarlier | lab1/Main.java:70-76 | the left operand's code, then the right's, then one instruction reading both results, reads only earlier slots |
| Lab1.LowerExprReadsEarlierSlots | lab1/Main.java:56-79 | every instruction emitted for an expression reads only variables' slots or slots written by earlier instructions; so does the result |
| Lab1.WrittenSlotsAppend | lab1/Main.java:9 | the slots written by a list of instructions are those of its parts, in order |
| Lab1.StartConsistent | lab1/Main.java:7-9 | the generator's initial state is consistent |
| Lab1.AppendSlotsInOrder | lab1/Main.java:58-76 | code writing the next slots in order keeps the slots written in order, each once |
| Lab1.AppendOne | lab1/Main.java:51 | appending an instruction whose operands are already written keeps definition before use |
| Lab1.AppendCode | lab1/Main.java:56-79 | appending an expression's code keeps definition before use |
| Lab1.AppendExprCode | lab1/Main.java:56-79 | lowering an expression keeps the generator's state consistent, and its result slot is null or already written |
| Lab1.AppendLowered | lab1/Main.java:56-79 | the same for any code that writes fresh slots in order and reads only earlier ones |
| Lab1.AvailableBelow | lab1/Main.java:64 | a slot reachable through a variable binding or allocated earlier is below the counter |
| Lab1.LowerStmt | lab1/Main.java:45-53 | `generateInstructions` only appends instructions and never lowers the counter. An assignment adds exactly its target to the bound names and appends its value's code; a `print` appends its argument's code and then a `Print` of its slot; `if` and `while` change nothing |
| Lab1.LowerStmts | lab1/Main.java:16-18 | lowering the statements in order only appends instructions, never lowers the counter and never unbinds a name |
| Lab1.LowerStmtConsistent | lab1/Main.java:45-53 | lowering a statement keeps the state consistent: slots written in order, each once; bindings only to written slots; every operand written before it is read |
| Lab1.AppendPrint | lab1/Main.java:51 | a `Print` of a written slot keeps the state consistent |
| Lab1.LowerStmtsConsistent | lab1/Main.java:16-18 | lowering a whole program keeps the state consistent |
| Lab1.LowerStmtAppends | lab1/Main.java:45-53 | the counter never decreases, and instructions are only appended: one per slot allocated, plus, for a `print`, a final `Print` of its argument's slot. `if` and `while` change nothing |
| Lab1.LowerStmtBindings | lab1/Main.java:46-48 | an assignment rebinds its target, and only its target, to its value's slot; a `print` binds nothing |
| Lab1.Generator.constructor | lab1/Main.java:7-9 | counter 0, no bindings, no instructions |
| Lab1.Generator.GenInstrsFromExpr | lab1/Main.java:56-79 | returns the slot `LowerExpr` gives, advances the counter and appends its code, bindings unchanged |
| Lab1.Generator.GenerateInstructions | lab1/Main.java:45-53 | updates the three fields as `LowerStmt` says |
| Lab1.Generator.GenerateAll | lab1/Main.java:16-18 | lowering the statements one by one gives the state of `LowerStmts` |
| Semantics.AgreesLater | lab1/Main.java:56-79 | variables' slots still hold their values after code that keeps the slots below the counter |
| Semantics.UnopCorrect | lab1/Main.java:65-69 | the code of a unary node leaves the node's value in its slot |
| Semantics.BinopCorrect | lab1/Main.java:70-76 | the code of a binary node leaves the node's value in its slot |
| Semantics.LowerExprCorrect | lab1/Main.java:56-79 | when an expression has a value, its code runs and leaves the value in the result slot. Every slot below the counter is kept and nothing is printed |
| Semantics.LowerStmtCorrect | lab1/Main.java:45-53 | an assignment's or a print's code runs and prints what the statement prints, and each variable's slot holds its value again |
| Semantics.LowerStmtsCorrect | lab1/Main.java:16-18 | the code of a straight-line program prints what the program prints, in order |
| Semantics.LowerStmtsStep | lab1/Main.java:16-18 | one more statement extends that correspondence |
| Semantics.ProgramCorrect | lab1/Main.java:16-18 | from the generator's initial state and an empty machine, a straight-line program that runs to the end is lowered to code that prints the same values in the same order |

The lemmas `Semantics.ExecCodeAppend`, `Semantics.ExecCodeSingle` and `Semantics.SuffixAppend` are facts about the reference machine and about sequences, which the correctness proof uses; they model no line of the program, so they have no row.

## Left out

- The ANTLR lexer and parser (`BX0Parser.java`, `BX0Listener.java`, `BX0BaseListener.java`) are not part of this model. `Creator.Event` stands for the listener callbacks a walk fires, and `Creator.ExprEvents`, `StmtEvents` and `ProgramEvents` give the order in which a walk fires them.
- The callbacks' reading of parse-tree text (`ctx.getText()`, `ctx.op.getText()`, whether `ctx.expr()` or `ctx.elseblock()` is null) is not modelled; that text and those flags are the events' parameters.
- `readProgram` is left out: it reads a file and drives the ANTLR walk.
- `Integer.parseInt` in `exitNumber` is left out; the literal arrives as an `int32`.
- `main` in `lab1/Main.java` is left out: the file-extension check, the C output, `gcc`, and `toC` (which `Ast.java` does not define). What is modelled is its loop over the statements (`Lab1.Generator.GenerateAll`).
- The top-level `Main.java` is left out: it is an unfinished draft that does not compile.
- The generator's static fields carry over from one input file to the next. The model covers one compilation.
- `mVarCounter` and `SourceCreator.varCounter` are unbounded here; their 32-bit wrap after 2^31 allocations is not modelled. `getStackSlot`'s own 32-bit product is modelled.
- Lab 1 lowers neither `if`/`while` statements nor boolean expressions. It gives them no code (`Lab1.LowerStmtAppends`, `Lab1.LowerExpr`), and the model keeps that.
- The operators' arithmetic (64-bit wrap, division by zero, shifts) is a parameter (`Semantics.Interp`); the correctness theorem holds for any meaning the source and the target share.
- Semantics.LowerStmtsCorrect: covers straight-line programs that run to the end. It says nothing about a program that reads an unassigned variable; lab 1 passes a null operand on for it.
- Creator.SourceCreator.ExitVarinit: requires enough stacked expressions. Java would throw `EmptyStackException` instead, a case the pure `Creator.Step` models as `None`.
- Creator.SourceCreator.ExitMove: requires enough stacked expressions. Java would throw `EmptyStackException` instead, a case the pure `Creator.Step` models as `None`.
- Creator.SourceCreator.ExitPrint: requires enough stacked expressions. Java would throw `EmptyStackException` instead, a case the pure `Creator.Step` models as `None`.
- Creator.SourceCreator.ExitUnop: requires enough stacked expressions. Java would throw `EmptyStackException` instead, a case the pure `Creator.Step` models as `None`.
- Creator.SourceCreator.ProcessBinop: requires enough stacked expressions. Java would throw `EmptyStackException` instead, a case the pure `Creator.Step` models as `None`.
- Creator.SourceCreator.ProcessBoolOp: requires enough stacked expressions. Java would throw `EmptyStackException` instead, a case the pure `Creator.Step` models as `None`.
- Creator.SourceCreator.ProcessComparison: requires enough stacked expressions. Java would throw `EmptyStackException` instead, a case the pure `Creator.Step` models as `None`.
- Creator.SourceCreator.ExitAdd: requires enough stacked expressions. Java would throw `EmptyStackException` instead, a case the pure `Creator.Step` models as `None`.
- Creator.SourceCreator.ExitMul: requires enough stacked expressions. Java would throw `EmptyStackException` instead, a case the pure `Creator.Step` models as `None`.
- Creator.SourceCreator.ExitShift: requires enough stacked expressions. Java would throw `EmptyStackException` instead, a case the pure `Creator.Step` models as `None`.
- Creator.SourceCreator.ExitAnd: requires enough stacked expressions. Java would throw `EmptyStackException` instead, a case the pure `Creator.Step` models as `None`.
- Creator.SourceCreator.ExitOr: requires enough stacked expressions. Java would throw `EmptyStackException` instead, a case the pure `Creator.Step` models as `None`.
- Creator.SourceCreator.ExitXor: requires enough stacked expressions. Java would throw `EmptyStackException` instead, a case the pure `Creator.Step` models as `None`.
- Creator.SourceCreator.ExitBoolop: requires enough stacked expressions. Java would throw `EmptyStackException` instead, a case the pure `Creator.Step` models as `None`.
- Creator.SourceCreator.ExitEq: requires enough stacked expressions. Java would throw `EmptyStackException` instead, a case the pure `Creator.Step` models as `None`.
- Creator.SourceCreator.ExitLess: requires enough stacked expressions. Java would throw `EmptyStackException` instead, a case the pure `Creator.Step` models as `None`.
- Creator.SourceCreator.ExitGreater: requires enough stacked expressions. Java would throw `EmptyStackException` instead, a case the pure `Creator.Step` models as `None`.
- Creator.SourceCreator.ExitIfelse: requires the open lists and a valid recorded index. Java would throw instead, a case `Creator.Step` models as `None`.
- Creator.SourceCreator.ExitWhileloop: requires the open lists and a valid recorded index. Java would throw instead, a case `Creator.Step` models as `None`.
- Creator.SourceCreator.PopExpr: requires a non-empty stack, as the callbacks that use it guarantee.
- Creator.SourceCreator.RemoveExpr: requires an index in range, as the callbacks that use it guarantee.
- Target.Render: `MoveImm.toAmd64` writes its immediate with `String.format("%d")`, which uses the digits of the JVM's default locale; the model writes ASCII digits, as in a locale that uses them (`getStackSlot`'s string concatenation does not depend on the locale).
- `Comment.toAmd64` of a null comment string (Java prints `# null`) is not modelled; a comment here is always a string.
- Aliasing is not modelled: the `List` objects on `conditionalStmts` and the `Expr` objects are values here. The listener never shares or mutates them after building.

## Findings

| source | as written | input that shows it | evidently intended | confidence | as-written member | corrected member |
|---|---|---|---|---|---|---|
| Ast.java:109 | `Read.typeCheck` calls `vars.get(this.dest)`, looking a `Dest` object up in a map keyed by `String`. `Dest` does not override `equals`, so the lookup never finds a declaration | declarations `{x: bool}` and the expression `Read(x)` with no type: its type stays null | look the variable up by its name, `vars.get(this.dest.var)`, so that a read takes its declared type | not executed | Source.DeclaredReadStaysUntyped | Source.TypeCheckByNameAnnotates |
