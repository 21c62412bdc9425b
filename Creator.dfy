/**
 * The AST builder (`Ast.Source.SourceCreator`): a stack machine driven by the events of a
 * walk over the parse tree. Each callback it overrides is an `Event`; `Step` is what the
 * callback does to the builder's state, with `None` where Java would throw (popping an empty
 * stack, removing at an index out of range), which aborts the walk.
 *
 * `ExprEvents`, `StmtEvents` and `ProgramEvents` give the events a walk fires for the parse
 * tree of a given expression, statement or program; the main results are that running those
 * events rebuilds exactly that expression, statement or program.
 *
 * The class `SourceCreator` at the end holds the same state in fields and is proved against
 * `Step`, callback by callback.
 */
module Creator {
  import opened Base
  import opened Source

  /** The builder's fields: finished top-level statements, declarations, the expression stack
      (top last), the stack of open statement lists, the stack of condition positions, the
      finished program and the declaration counter. */
  datatype Builder = Builder(
    stmts: seq<Stmt>,
    vars: map<string, VarDecl>,
    exprs: seq<Expr>,
    conditionalStmts: seq<seq<Stmt>>,
    conditionIndexes: seq<int>,
    prog: Option<Prog>,
    varCounter: int)

  function Init(): Builder {
    Builder([], map[], [], [], [], None, 0)
  }

  /** The callbacks the builder overrides; the operator text is the token the context carries. */
  datatype Event =
    | ExitProgram
    | ExitVarinit(name: string, typeText: string, hasInit: bool)
    | ExitMove(target: string)
    | EnterIfelse
    | EnterElseblock
    | ExitIfelse(hasElse: bool)
    | EnterWhileloop
    | ExitWhileloop
    | ExitPrint
    | ExitUnop(opText: string)
    | ExitAdd(opText: string)
    | ExitMul(opText: string)
    | ExitShift(opText: string)
    | ExitAnd
    | ExitOr
    | ExitXor
    | ExitBoolop(opText: string)
    | ExitEq(opText: string)
    | ExitLess(opText: string)
    | ExitGreater(opText: string)
    | ExitVariable(text: string)
    | ExitNumber(literal: int32)

  // ----- The operator each callback picks from its token -----

  function TypeOfText(t: string): Type { if t == "int64" then Int64Type else BoolType }
  function UnopOfText(t: string): Unop { if t == "-" then Negate else BitNot }
  function AddOpOfText(t: string): Binop { if t == "+" then Add else Subtract }
  function MulOpOfText(t: string): Binop { if t == "*" then Multiply else if t == "/" then Divide else Modulus }
  function ShiftOpOfText(t: string): Binop { if t == "<<" then Lshift else Rshift }
  function BoolOpOfText(t: string): BoolOpKind { if t == "&&" then AND else OR }
  function EqOpOfText(t: string): ComparisonOp { if t == "==" then EQ else NEQ }
  function LessOpOfText(t: string): ComparisonOp { if t == "<" then LT else LEQ }
  function GreaterOpOfText(t: string): ComparisonOp { if t == ">" then GT else GEQ }

  // ----- The builder's private helpers -----

  /** `addStmt`: append to the innermost open statement list, or to the top level when none is open. */
  function AddStmtTo(b: Builder, s: Stmt): (r: Builder)
    ensures |r.conditionalStmts| == |b.conditionalStmts|
    ensures b.conditionalStmts == [] ==> r == b.(stmts := b.stmts + [s])
    ensures b.conditionalStmts != [] ==>
              r == b.(conditionalStmts := DropLast(b.conditionalStmts) + [Last(b.conditionalStmts) + [s]])
  {
    if b.conditionalStmts == [] then
      b.(stmts := b.stmts + [s])
    else
      var top := Last(b.conditionalStmts);
      var rest := DropLast(b.conditionalStmts);
      b.(conditionalStmts := rest + [top + [s]])
  }

  /** `addStmt` for each statement of a list in turn. */
  function AddStmtsTo(b: Builder, ss: seq<Stmt>): Builder
    decreases |ss|
  {
    if ss == [] then b else AddStmtsTo(AddStmtTo(b, ss[0]), ss[1..])
  }

  /** `processBinop`: pop the right operand, then the left one, and push their application. */
  function ReduceBinop(b: Builder, op: Binop): (r: Option<Builder>)
    ensures r.Some? <==> |b.exprs| >= 2
    ensures r.Some? ==>
              var n := |b.exprs|;
              && r.value == b.(exprs := r.value.exprs)
              && |r.value.exprs| == n - 1
              && r.value.exprs[..n - 2] == b.exprs[..n - 2]
              && r.value.exprs[n - 2] == BinopApp(b.exprs[n - 2], op, b.exprs[n - 1])
  {
    if |b.exprs| < 2 then None
    else
      var right := Last(b.exprs);
      var left := Last(DropLast(b.exprs));
      Some(b.(exprs := DropLast(DropLast(b.exprs)) + [BinopApp(left, op, right)]))
  }

  /** `processBoolOp`: pop the right operand, then the left one, and push their conjunction or disjunction. */
  function ReduceBoolOp(b: Builder, op: BoolOpKind): (r: Option<Builder>)
    ensures r.Some? <==> |b.exprs| >= 2
    ensures r.Some? ==>
              var n := |b.exprs|;
              && r.value == b.(exprs := r.value.exprs)
              && |r.value.exprs| == n - 1
              && r.value.exprs[..n - 2] == b.exprs[..n - 2]
              && r.value.exprs[n - 2] == BoolOp(b.exprs[n - 2], op, b.exprs[n - 1])
  {
    if |b.exprs| < 2 then None
    else
      var right := Last(b.exprs);
      var left := Last(DropLast(b.exprs));
      Some(b.(exprs := DropLast(DropLast(b.exprs)) + [BoolOp(left, op, right)]))
  }

  /** `processComparison`: pop the right operand, then the left one, and push their comparison. */
  function ReduceComparison(b: Builder, op: ComparisonOp): (r: Option<Builder>)
    ensures r.Some? <==> |b.exprs| >= 2
    ensures r.Some? ==>
              var n := |b.exprs|;
              && r.value == b.(exprs := r.value.exprs)
              && |r.value.exprs| == n - 1
              && r.value.exprs[..n - 2] == b.exprs[..n - 2]
              && r.value.exprs[n - 2] == Comparison(b.exprs[n - 2], op, b.exprs[n - 1])
  {
    if |b.exprs| < 2 then None
    else
      var right := Last(b.exprs);
      var left := Last(DropLast(b.exprs));
      Some(b.(exprs := DropLast(DropLast(b.exprs)) + [Comparison(left, op, right)]))
  }

  /** `exprs.remove(i)`: the stack without its `i`-th entry. */
  function RemoveAt(s: seq<Expr>, i: nat): (r: seq<Expr>)
    requires i < |s|
    ensures |r| == |s| - 1
    ensures forall k :: 0 <= k < i ==> r[k] == s[k]
    ensures forall k :: i <= k < |r| ==> r[k] == s[k + 1]
  {
    s[..i] + s[i + 1..]
  }

  /** `exitIfelse`: close the else list if there is one, then the then list, take the condition
      recorded at `enterIfelse`, and add the finished statement. */
  function CloseIfelse(b: Builder, hasElse: bool): (r: Option<Builder>)
    ensures r.Some? <==>
              && |b.conditionalStmts| >= (if hasElse then 2 else 1)
              && b.conditionIndexes != []
              && 0 <= Last(b.conditionIndexes) < |b.exprs|
    ensures r.Some? ==>
              && |r.value.conditionalStmts| == |b.conditionalStmts| - (if hasElse then 2 else 1)
              && r.value.conditionIndexes == DropLast(b.conditionIndexes)
              && r.value.exprs == RemoveAt(b.exprs, Last(b.conditionIndexes))
              && r.value.vars == b.vars && r.value.varCounter == b.varCounter
  {
    if |b.conditionalStmts| < (if hasElse then 2 else 1) || b.conditionIndexes == [] then None
    else
      var elseBranch := if hasElse then ElseBlock(Last(b.conditionalStmts)) else NoElse;
      var open := if hasElse then DropLast(b.conditionalStmts) else b.conditionalStmts;
      var thenBranch := Last(open);
      var index := Last(b.conditionIndexes);
      if !(0 <= index < |b.exprs|) then None
      else
        var condition := b.exprs[index];
        var b' := b.(exprs := RemoveAt(b.exprs, index),
                     conditionalStmts := DropLast(open),
                     conditionIndexes := DropLast(b.conditionIndexes));
        Some(AddStmtTo(b', IfElse(condition, thenBranch, elseBranch)))
  }

  /** `exitWhileloop`: take the recorded condition, close the body, and add the finished statement. */
  function CloseWhileloop(b: Builder): (r: Option<Builder>)
    ensures r.Some? <==>
              && b.conditionalStmts != []
              && b.conditionIndexes != []
              && 0 <= Last(b.conditionIndexes) < |b.exprs|
    ensures r.Some? ==>
              && |r.value.conditionalStmts| == |b.conditionalStmts| - 1
              && r.value.conditionIndexes == DropLast(b.conditionIndexes)
              && r.value.exprs == RemoveAt(b.exprs, Last(b.conditionIndexes))
              && r.value.vars == b.vars && r.value.varCounter == b.varCounter
  {
    if b.conditionIndexes == [] then None
    else
      var index := Last(b.conditionIndexes);
      if !(0 <= index < |b.exprs|) || b.conditionalStmts == [] then None
      else
        var condition := b.exprs[index];
        var b' := b.(exprs := RemoveAt(b.exprs, index),
                     conditionalStmts := DropLast(b.conditionalStmts),
                     conditionIndexes := DropLast(b.conditionIndexes));
        Some(AddStmtTo(b', While(condition, Last(b.conditionalStmts))))
  }

  /** Open a statement list, and for `if`/`while` record where the condition will be pushed. */
  function OpenBlock(b: Builder, recordCondition: bool): (r: Builder)
    ensures |r.conditionalStmts| == |b.conditionalStmts| + 1
    ensures DropLast(r.conditionalStmts) == b.conditionalStmts && Last(r.conditionalStmts) == []
    ensures recordCondition ==>
              |r.conditionIndexes| == |b.conditionIndexes| + 1 &&
              DropLast(r.conditionIndexes) == b.conditionIndexes && Last(r.conditionIndexes) == |b.exprs|
    ensures !recordCondition ==> r.conditionIndexes == b.conditionIndexes
    ensures r.exprs == b.exprs && r.stmts == b.stmts && r.vars == b.vars && r.varCounter == b.varCounter
  {
    b.(conditionalStmts := b.conditionalStmts + [[]],
       conditionIndexes := if recordCondition then b.conditionIndexes + [|b.exprs|] else b.conditionIndexes)
  }

  /** Pop one expression and hand it to `k`. */
  function PopThen(b: Builder, k: Event): (r: Option<Builder>)
    requires k.ExitVarinit? || k.ExitMove? || k.ExitPrint? || k.ExitUnop?
    ensures r.Some? <==> b.exprs != []
    ensures r.Some? && k.ExitUnop? ==>
              |r.value.exprs| == |b.exprs| && r.value.exprs[..|b.exprs| - 1] == DropLast(b.exprs)
    ensures r.Some? && !k.ExitUnop? ==> r.value.exprs == DropLast(b.exprs)
    ensures r.Some? ==> |r.value.conditionalStmts| == |b.conditionalStmts|
    ensures r.Some? ==> r.value.varCounter == b.varCounter + (if k.ExitVarinit? then 1 else 0)
    ensures r.Some? && k.ExitVarinit? ==> r.value.vars.Keys == b.vars.Keys + {k.name}
  {
    if b.exprs == [] then None
    else
      var e := Last(b.exprs);
      var b' := b.(exprs := DropLast(b.exprs));
      match k
      case ExitVarinit(name, typeText, _) =>
        Some(b'.(vars := b'.vars[name := VarDecl(TypeOfText(typeText), Some(e), b'.varCounter)],
                 varCounter := b'.varCounter + 1))
      case ExitMove(target) => Some(AddStmtTo(b', Move(Dest(target), e)))
      case ExitPrint => Some(AddStmtTo(b', Print(e)))
      case ExitUnop(t) => Some(b'.(exprs := b'.exprs + [UnopApp(UnopOfText(t), e)]))
  }

  /** When a callback throws in Java: a `pop` of an empty stack, or a `remove` at an index that
      is not in the list. */
  predicate Throws(b: Builder, ev: Event) {
    if Reduces(ev) then |b.exprs| < 2
    else match ev
    case ExitVarinit(_, _, hasInit) => hasInit && b.exprs == []
    case ExitMove(_) => b.exprs == []
    case ExitPrint => b.exprs == []
    case ExitUnop(_) => b.exprs == []
    case ExitIfelse(hasElse) =>
      || |b.conditionalStmts| < (if hasElse then 2 else 1)
      || b.conditionIndexes == []
      || !(0 <= Last(b.conditionIndexes) < |b.exprs|)
    case ExitWhileloop =>
      || b.conditionalStmts == []
      || b.conditionIndexes == []
      || !(0 <= Last(b.conditionIndexes) < |b.exprs|)
    case _ => false
  }

  /** How a callback changes the number of open statement lists. */
  function DepthChange(ev: Event): int {
    match ev
    case EnterIfelse => 1
    case EnterElseblock => 1
    case EnterWhileloop => 1
    case ExitIfelse(hasElse) => if hasElse then -2 else -1
    case ExitWhileloop => -1
    case _ => 0
  }

  /** The callbacks that fold the top two expressions into one binary node. */
  predicate Reduces(ev: Event) {
    || ev.ExitAdd? || ev.ExitMul? || ev.ExitShift? || ev.ExitAnd? || ev.ExitOr? || ev.ExitXor?
    || ev.ExitBoolop? || ev.ExitEq? || ev.ExitLess? || ev.ExitGreater?
  }

  /** `exitAdd` … `exitGreater`: the node the callback names, built from the top two expressions. */
  function ReduceStep(b: Builder, ev: Event): (r: Option<Builder>)
    requires Reduces(ev)
    ensures r.Some? <==> |b.exprs| >= 2
    ensures r.Some? ==> r.value == b.(exprs := r.value.exprs) && |r.value.exprs| == |b.exprs| - 1
  {
    match ev
    case ExitAdd(t) => ReduceBinop(b, AddOpOfText(t))
    case ExitMul(t) => ReduceBinop(b, MulOpOfText(t))
    case ExitShift(t) => ReduceBinop(b, ShiftOpOfText(t))
    case ExitAnd => ReduceBinop(b, BitAnd)
    case ExitOr => ReduceBinop(b, BitOr)
    case ExitXor => ReduceBinop(b, BitXor)
    case ExitBoolop(t) => ReduceBoolOp(b, BoolOpOfText(t))
    case ExitEq(t) => ReduceComparison(b, EqOpOfText(t))
    case ExitLess(t) => ReduceComparison(b, LessOpOfText(t))
    case ExitGreater(t) => ReduceComparison(b, GreaterOpOfText(t))
  }

  /** What one callback does to the builder. */
  function Step(b: Builder, ev: Event): Option<Builder> {
    match ev
    case ExitProgram => Some(b.(prog := Some(Prog(b.stmts, b.vars))))
    case ExitVarinit(name, typeText, hasInit) =>
      if hasInit then PopThen(b, ev)
      else Some(b.(vars := b.vars[name := VarDecl(TypeOfText(typeText), None, b.varCounter)],
                   varCounter := b.varCounter + 1))
    case ExitMove(_) => PopThen(b, ev)
    case EnterIfelse => Some(OpenBlock(b, true))
    case EnterElseblock => Some(OpenBlock(b, false))
    case ExitIfelse(hasElse) => CloseIfelse(b, hasElse)
    case EnterWhileloop => Some(OpenBlock(b, true))
    case ExitWhileloop => CloseWhileloop(b)
    case ExitPrint => PopThen(b, ev)
    case ExitUnop(_) => PopThen(b, ev)
    case ExitAdd(_) => ReduceStep(b, ev)
    case ExitMul(_) => ReduceStep(b, ev)
    case ExitShift(_) => ReduceStep(b, ev)
    case ExitAnd => ReduceStep(b, ev)
    case ExitOr => ReduceStep(b, ev)
    case ExitXor => ReduceStep(b, ev)
    case ExitBoolop(_) => ReduceStep(b, ev)
    case ExitEq(_) => ReduceStep(b, ev)
    case ExitLess(_) => ReduceStep(b, ev)
    case ExitGreater(_) => ReduceStep(b, ev)
    case ExitVariable(t) => Some(b.(exprs := b.exprs + [Read(Dest(t), None)]))
    case ExitNumber(n) => Some(b.(exprs := b.exprs + [Immediate(n)]))
  }

  /** The number of declarations among the callbacks. */
  function Declarations(evs: seq<Event>): nat
    decreases |evs|
  {
    if evs == [] then 0 else (if evs[0].ExitVarinit? then 1 else 0) + Declarations(evs[1..])
  }

  /** The net change in the number of open statement lists over the callbacks. */
  function NetDepth(evs: seq<Event>): int
    decreases |evs|
  {
    if evs == [] then 0 else DepthChange(evs[0]) + NetDepth(evs[1..])
  }

  /** A callback fails exactly when Java throws. */
  lemma StepFailsExactlyWhenThrows(b: Builder, ev: Event)
    ensures Step(b, ev).None? <==> Throws(b, ev)
  {
    match ev
    case ExitProgram =>
    case ExitVarinit(_, _, _) =>
    case ExitMove(_) =>
    case EnterIfelse =>
    case EnterElseblock =>
    case ExitIfelse(_) =>
    case EnterWhileloop =>
    case ExitWhileloop =>
    case ExitPrint =>
    case ExitUnop(_) =>
    case ExitVariable(_) =>
    case ExitNumber(_) =>
    case _ =>
  }

  /** A callback that returns opens or closes the statement lists it names, and numbers one more
      variable exactly when it declares one. */
  lemma StepCounts(b: Builder, ev: Event)
    requires Step(b, ev).Some?
    ensures |Step(b, ev).value.conditionalStmts| == |b.conditionalStmts| + DepthChange(ev)
    ensures Step(b, ev).value.varCounter == b.varCounter + (if ev.ExitVarinit? then 1 else 0)
  {
    match ev
    case ExitProgram =>
    case ExitVarinit(_, _, _) =>
    case ExitMove(_) =>
    case EnterIfelse =>
    case EnterElseblock =>
    case ExitIfelse(_) =>
    case EnterWhileloop =>
    case ExitWhileloop =>
    case ExitPrint =>
    case ExitUnop(_) =>
    case ExitVariable(_) =>
    case ExitNumber(_) =>
    case _ =>
  }

  /** The builder after a sequence of callbacks, or `None` once one of them throws. */
  function Run(b: Builder, evs: seq<Event>): Option<Builder>
    decreases |evs|
  {
    if evs == [] then Some(b)
    else
      match Step(b, evs[0])
      case None => None
      case Some(b') => Run(b', evs[1..])
  }

  /** The walk stops at the first callback that throws: nothing after it runs. */
  lemma RunStopsAtThrow(b: Builder, xs: seq<Event>, ev: Event, ys: seq<Event>)
    requires Run(b, xs).Some? && Throws(Run(b, xs).value, ev)
    ensures Run(b, xs + [ev] + ys).None?
  {
    assert xs + [ev] + ys == xs + ([ev] + ys);
    RunAppend(b, xs, [ev] + ys);
    StepFailsExactlyWhenThrows(Run(b, xs).value, ev);
    assert ([ev] + ys)[0] == ev;
  }

  /** A walk that returns has numbered one variable per declaration and changed the number of
      open statement lists by the net of its enters and exits. */
  lemma {:induction false} RunCounts(b: Builder, evs: seq<Event>)
    requires Run(b, evs).Some?
    ensures Run(b, evs).value.varCounter == b.varCounter + Declarations(evs)
    ensures |Run(b, evs).value.conditionalStmts| == |b.conditionalStmts| + NetDepth(evs)
    decreases |evs|
  {
    if evs != [] {
      StepCounts(b, evs[0]);
      RunCounts(Step(b, evs[0]).value, evs[1..]);
    }
  }

  lemma {:induction false} RunAppend(b: Builder, xs: seq<Event>, ys: seq<Event>)
    ensures Run(b, xs + ys) == match Run(b, xs) case None => None case Some(b') => Run(b', ys)
    decreases |xs|
  {
    if xs == [] {
      assert xs + ys == ys;
    } else {
      assert (xs + ys)[0] == xs[0];
      assert (xs + ys)[1..] == xs[1..] + ys;
      match Step(b, xs[0])
      case None =>
      case Some(b') => RunAppend(b', xs[1..], ys);
    }
  }

  // ----- Per-callback properties -----

  /** `addStmt` on an open list leaves every other list, the top level and the stack depth alone. */
  lemma AddStmtToInnermost(b: Builder, s: Stmt, k: nat)
    requires b.conditionalStmts != [] && k < |b.conditionalStmts|
    ensures var r := AddStmtTo(b, s);
            && r.stmts == b.stmts
            && r.conditionalStmts[k] ==
               (if k == |b.conditionalStmts| - 1 then b.conditionalStmts[k] + [s] else b.conditionalStmts[k])
  {
  }

  /**
   * `exitIfelse` in the state its matching `enterIfelse` left behind once the condition is
   * on the stack and the branches are filled: the condition is taken from the recorded
   * position, both stacks are back to their depth before the `if`, and exactly one `IfElse`
   * is added where that `if` stands.
   */
  lemma ExitIfelseCloses(b0: Builder, cond: Expr, above: seq<Expr>, thenList: seq<Stmt>, elseList: ElseBranch)
    ensures var b := b0.(exprs := b0.exprs + [cond] + above,
                         conditionalStmts := b0.conditionalStmts + [thenList] +
                                             (if elseList.ElseBlock? then [elseList.stmts] else []),
                         conditionIndexes := b0.conditionIndexes + [|b0.exprs|]);
            Step(b, ExitIfelse(elseList.ElseBlock?)) ==
              Some(AddStmtTo(b0.(exprs := b0.exprs + above), IfElse(cond, thenList, elseList)))
  {
    var b := b0.(exprs := b0.exprs + [cond] + above,
                 conditionalStmts := b0.conditionalStmts + [thenList] +
                                     (if elseList.ElseBlock? then [elseList.stmts] else []),
                 conditionIndexes := b0.conditionIndexes + [|b0.exprs|]);
    var n := |b0.exprs|;
    assert Last(b.conditionIndexes) == n;
    assert DropLast(b.conditionIndexes) == b0.conditionIndexes;
    assert b.exprs[n] == cond;
    assert RemoveAt(b.exprs, n) == b0.exprs + above;
    var open := if elseList.ElseBlock? then DropLast(b.conditionalStmts) else b.conditionalStmts;
    assert open == b0.conditionalStmts + [thenList];
    assert Last(open) == thenList && DropLast(open) == b0.conditionalStmts;
    var b' := b.(exprs := RemoveAt(b.exprs, n),
                 conditionalStmts := DropLast(open),
                 conditionIndexes := DropLast(b.conditionIndexes));
    assert b' == b0.(exprs := b0.exprs + above);
    assert CloseIfelse(b, elseList.ElseBlock?) == Some(AddStmtTo(b', IfElse(cond, thenList, elseList)));
  }

  // ----- The events a walk over the parse tree fires -----

  function UnopText(op: Unop): string {
    match op
    case Negate => "-"
    case BitNot => "~"
  }

  function BinopEvent(op: Binop): Event {
    match op
    case Add => ExitAdd("+")
    case Subtract => ExitAdd("-")
    case Multiply => ExitMul("*")
    case Divide => ExitMul("/")
    case Modulus => ExitMul("%")
    case BitAnd => ExitAnd
    case BitOr => ExitOr
    case BitXor => ExitXor
    case Lshift => ExitShift("<<")
    case Rshift => ExitShift(">>")
  }

  function BoolOpEvent(op: BoolOpKind): Event {
    match op
    case AND => ExitBoolop("&&")
    case OR => ExitBoolop("||")
  }

  function ComparisonEvent(op: ComparisonOp): Event {
    match op
    case EQ => ExitEq("==")
    case NEQ => ExitEq("!=")
    case LT => ExitLess("<")
    case LEQ => ExitLess("<=")
    case GT => ExitGreater(">")
    case GEQ => ExitGreater(">=")
  }

  /** The walk visits operands left to right and fires an operator's exit after them. */
  function ExprEvents(e: Expr): seq<Event> {
    match e
    case Immediate(n) => [ExitNumber(n)]
    case Read(d, _) => [ExitVariable(d.name)]
    case UnopApp(op, a) => ExprEvents(a) + [ExitUnop(UnopText(op))]
    case BinopApp(l, op, r) => ExprEvents(l) + ExprEvents(r) + [BinopEvent(op)]
    case BoolOp(l, op, r) => ExprEvents(l) + ExprEvents(r) + [BoolOpEvent(op)]
    case Comparison(l, op, r) => ExprEvents(l) + ExprEvents(r) + [ComparisonEvent(op)]
  }

  function StmtEvents(s: Stmt): seq<Event>
    decreases s, 1
  {
    match s
    case Move(d, e) => ExprEvents(e) + [ExitMove(d.name)]
    case Print(e) => ExprEvents(e) + [ExitPrint]
    case IfElse(c, t, el) =>
      [EnterIfelse] + ExprEvents(c) + StmtsEvents(t) +
      (match el case NoElse => [] case ElseBlock(es) => [EnterElseblock] + StmtsEvents(es)) +
      [ExitIfelse(el.ElseBlock?)]
    case While(c, body) => [EnterWhileloop] + ExprEvents(c) + StmtsEvents(body) + [ExitWhileloop]
  }

  function StmtsEvents(ss: seq<Stmt>): seq<Event>
    decreases ss, 0
  {
    if ss == [] then [] else StmtEvents(ss[0]) + StmtsEvents(ss[1..])
  }

  /** A tree as the builder makes it: no read has a type yet. */
  predicate Parsed(e: Expr) {
    match e
    case Immediate(_) => true
    case Read(_, ty) => ty == None
    case UnopApp(_, a) => Parsed(a)
    case BinopApp(l, _, r) => Parsed(l) && Parsed(r)
    case BoolOp(l, _, r) => Parsed(l) && Parsed(r)
    case Comparison(l, _, r) => Parsed(l) && Parsed(r)
  }

  predicate ParsedStmt(s: Stmt)
    decreases s, 1
  {
    match s
    case Move(_, e) => Parsed(e)
    case Print(e) => Parsed(e)
    case IfElse(c, t, el) =>
      Parsed(c) && ParsedStmts(t) && (match el case NoElse => true case ElseBlock(es) => ParsedStmts(es))
    case While(c, body) => Parsed(c) && ParsedStmts(body)
  }

  predicate ParsedStmts(ss: seq<Stmt>)
    decreases ss, 0
  {
    forall i :: 0 <= i < |ss| ==> ParsedStmt(ss[i])
  }

  lemma RunSingle(b: Builder, ev: Event)
    ensures Run(b, [ev]) == Step(b, ev)
  {
    assert [ev][1..] == [];
  }

  lemma BinopEventStep(b: Builder, op: Binop)
    ensures Step(b, BinopEvent(op)) == ReduceBinop(b, op)
  {
  }

  lemma BoolOpEventStep(b: Builder, op: BoolOpKind)
    ensures Step(b, BoolOpEvent(op)) == ReduceBoolOp(b, op)
  {
  }

  lemma ComparisonEventStep(b: Builder, op: ComparisonOp)
    ensures Step(b, ComparisonEvent(op)) == ReduceComparison(b, op)
  {
  }

  /** The walk of an expression leaves exactly that expression on top of the stack, and nothing else changes. */
  lemma {:induction false} ExprWalkRebuilds(b: Builder, e: Expr)
    requires Parsed(e)
    ensures Run(b, ExprEvents(e)) == Some(b.(exprs := b.exprs + [e]))
    decreases e, 1
  {
    match e
    case Immediate(_) =>
    case Read(_, _) =>
    case UnopApp(op, a) =>
      ExprWalkRebuilds(b, a);
      RunAppend(b, ExprEvents(a), [ExitUnop(UnopText(op))]);
      var b1 := b.(exprs := b.exprs + [a]);
      RunSingle(b1, ExitUnop(UnopText(op)));
      assert DropLast(b1.exprs) == b.exprs;
      assert UnopOfText(UnopText(op)) == op;
    case BinopApp(l, op, r) =>
      var b2 := b.(exprs := b.exprs + [l, r]);
      WalkOperands(b, e, [BinopEvent(op)]);
      RunSingle(b2, BinopEvent(op));
      BinopEventStep(b2, op);
      assert b2.exprs[..|b.exprs|] == b.exprs;
    case BoolOp(l, op, r) =>
      var b2 := b.(exprs := b.exprs + [l, r]);
      WalkOperands(b, e, [BoolOpEvent(op)]);
      RunSingle(b2, BoolOpEvent(op));
      BoolOpEventStep(b2, op);
      assert b2.exprs[..|b.exprs|] == b.exprs;
    case Comparison(l, op, r) =>
      var b2 := b.(exprs := b.exprs + [l, r]);
      WalkOperands(b, e, [ComparisonEvent(op)]);
      RunSingle(b2, ComparisonEvent(op));
      ComparisonEventStep(b2, op);
      assert b2.exprs[..|b.exprs|] == b.exprs;
  }

  /** The walk of a binary node's two operands followed by `tail` runs `tail` with both operands pushed. */
  lemma {:induction false} WalkOperands(b: Builder, e: Expr, tail: seq<Event>)
    requires e.BinopApp? || e.BoolOp? || e.Comparison?
    requires Parsed(e.left) && Parsed(e.right)
    ensures Run(b, ExprEvents(e.left) + ExprEvents(e.right) + tail) ==
            Run(b.(exprs := b.exprs + [e.left, e.right]), tail)
    decreases e, 0
  {
    var l, r := e.left, e.right;
    ExprWalkRebuilds(b, l);
    var b1 := b.(exprs := b.exprs + [l]);
    ExprWalkRebuilds(b1, r);
    assert ExprEvents(l) + ExprEvents(r) + tail == ExprEvents(l) + (ExprEvents(r) + tail);
    RunAppend(b, ExprEvents(l), ExprEvents(r) + tail);
    RunAppend(b1, ExprEvents(r), tail);
    assert b1.(exprs := b1.exprs + [r]) == b.(exprs := b.exprs + [l, r]);
  }

  /** Adding statements one by one to an open list appends them all to that list, in order. */
  lemma {:induction false} AddStmtsToInnermost(b: Builder, ss: seq<Stmt>)
    requires b.conditionalStmts != []
    ensures AddStmtsTo(b, ss) ==
            b.(conditionalStmts := DropLast(b.conditionalStmts) + [Last(b.conditionalStmts) + ss])
    decreases |ss|
  {
    var cs := b.conditionalStmts;
    if ss == [] {
      assert Last(cs) + ss == Last(cs);
      assert DropLast(cs) + [Last(cs)] == cs;
    } else {
      var b1 := AddStmtTo(b, ss[0]);
      AddStmtsToInnermost(b1, ss[1..]);
      assert DropLast(b1.conditionalStmts) == DropLast(cs);
      assert Last(b1.conditionalStmts) == Last(cs) + [ss[0]];
      assert Last(cs) + [ss[0]] + ss[1..] == Last(cs) + ss;
    }
  }

  /** With no list open, adding statements one by one appends them all to the top level, in order. */
  lemma {:induction false} AddStmtsToTopLevel(b: Builder, ss: seq<Stmt>)
    requires b.conditionalStmts == []
    ensures AddStmtsTo(b, ss) == b.(stmts := b.stmts + ss)
    decreases |ss|
  {
    if ss == [] {
      assert b.stmts + ss == b.stmts;
    } else {
      AddStmtsToTopLevel(AddStmtTo(b, ss[0]), ss[1..]);
      assert b.stmts + [ss[0]] + ss[1..] == b.stmts + ss;
    }
  }

  /** Once a prefix of the events has run to `b'`, the rest runs from `b'`. */
  lemma RunThen(b: Builder, xs: seq<Event>, b': Builder, ys: seq<Event>)
    requires Run(b, xs) == Some(b')
    ensures Run(b, xs + ys) == Run(b', ys)
  {
    RunAppend(b, xs, ys);
  }

  /** `exitWhileloop` in the state its matching `enterWhileloop` left behind once the condition
      is on the stack and the body is filled: both stacks are back to their depth before the
      loop, and exactly one `While` is added where the loop stands. */
  lemma ExitWhileloopCloses(b0: Builder, cond: Expr, above: seq<Expr>, body: seq<Stmt>)
    ensures var b := b0.(exprs := b0.exprs + [cond] + above,
                         conditionalStmts := b0.conditionalStmts + [body],
                         conditionIndexes := b0.conditionIndexes + [|b0.exprs|]);
            Step(b, ExitWhileloop) ==
              Some(AddStmtTo(b0.(exprs := b0.exprs + above), While(cond, body)))
  {
    var b := b0.(exprs := b0.exprs + [cond] + above,
                 conditionalStmts := b0.conditionalStmts + [body],
                 conditionIndexes := b0.conditionIndexes + [|b0.exprs|]);
    var n := |b0.exprs|;
    assert Last(b.conditionIndexes) == n;
    assert DropLast(b.conditionIndexes) == b0.conditionIndexes;
    assert b.exprs[n] == cond;
    assert RemoveAt(b.exprs, n) == b0.exprs + above;
    assert DropLast(b.conditionalStmts) == b0.conditionalStmts;
    var b' := b.(exprs := RemoveAt(b.exprs, n),
                 conditionalStmts := DropLast(b.conditionalStmts),
                 conditionIndexes := DropLast(b.conditionIndexes));
    assert b' == b0.(exprs := b0.exprs + above);
  }

  /** An opened `if` or `while` once its condition and its first list have been walked: the
      condition sits on the expression stack at the index recorded for it, and the list is the
      innermost open one. */
  lemma OpenedBlockWalk(b: Builder, opener: Event, c: Expr, t: seq<Stmt>)
    requires opener == EnterIfelse || opener == EnterWhileloop
    requires Parsed(c)
    requires forall b' :: Run(b', StmtsEvents(t)) == Some(AddStmtsTo(b', t))
    ensures Run(b, [opener] + ExprEvents(c) + StmtsEvents(t)) ==
            Some(b.(exprs := b.exprs + [c], conditionalStmts := b.conditionalStmts + [t],
                    conditionIndexes := b.conditionIndexes + [|b.exprs|]))
  {
    var b1 := OpenBlock(b, true);
    var b2 := b1.(exprs := b1.exprs + [c]);
    ExprWalkRebuilds(b1, c);
    RunSingle(b, opener);
    RunThen(b, [opener], b1, ExprEvents(c));
    RunThen(b, [opener] + ExprEvents(c), b2, StmtsEvents(t));
    AddStmtsToInnermost(b2, t);
    assert [] + t == t;
  }

  /** `enterElseblock` followed by the walk of the else list leaves that list as the innermost
      open one. */
  lemma ElseBlockWalk(b: Builder, es: seq<Stmt>)
    requires forall b' :: Run(b', StmtsEvents(es)) == Some(AddStmtsTo(b', es))
    ensures Run(b, [EnterElseblock] + StmtsEvents(es)) ==
            Some(b.(conditionalStmts := b.conditionalStmts + [es]))
  {
    var b1 := OpenBlock(b, false);
    RunSingle(b, EnterElseblock);
    RunThen(b, [EnterElseblock], b1, StmtsEvents(es));
    AddStmtsToInnermost(b1, es);
    assert [] + es == es;
  }

  lemma IfElseWalk(b: Builder, c: Expr, t: seq<Stmt>, el: ElseBranch)
    requires Parsed(c)
    requires forall b' :: Run(b', StmtsEvents(t)) == Some(AddStmtsTo(b', t))
    requires el.ElseBlock? ==> forall b' :: Run(b', StmtsEvents(el.stmts)) == Some(AddStmtsTo(b', el.stmts))
    ensures Run(b, StmtEvents(IfElse(c, t, el))) == Some(AddStmtTo(b, IfElse(c, t, el)))
  {
    var b3 := b.(exprs := b.exprs + [c], conditionalStmts := b.conditionalStmts + [t],
                 conditionIndexes := b.conditionIndexes + [|b.exprs|]);
    var openEvents := [EnterIfelse] + ExprEvents(c) + StmtsEvents(t);
    var exit := [ExitIfelse(el.ElseBlock?)];
    OpenedBlockWalk(b, EnterIfelse, c, t);
    ExitIfelseCloses(b, c, [], t, el);
    assert b.exprs + [c] + [] == b.exprs + [c];
    assert b.exprs + [] == b.exprs;
    match el {
      case NoElse =>
        assert StmtEvents(IfElse(c, t, el)) == openEvents + exit;
        RunThen(b, openEvents, b3, exit);
        RunSingle(b3, ExitIfelse(false));
      case ElseBlock(es) =>
        var b5 := b3.(conditionalStmts := b3.conditionalStmts + [es]);
        var elseEvents := [EnterElseblock] + StmtsEvents(es);
        assert StmtEvents(IfElse(c, t, el)) == openEvents + elseEvents + exit;
        RunThen(b, openEvents, b3, elseEvents);
        ElseBlockWalk(b3, es);
        RunThen(b, openEvents + elseEvents, b5, exit);
        RunSingle(b5, ExitIfelse(true));
    }
  }

  lemma WhileWalk(b: Builder, c: Expr, body: seq<Stmt>)
    requires Parsed(c)
    requires forall b' :: Run(b', StmtsEvents(body)) == Some(AddStmtsTo(b', body))
    ensures Run(b, StmtEvents(While(c, body))) == Some(AddStmtTo(b, While(c, body)))
  {
    var b3 := b.(exprs := b.exprs + [c], conditionalStmts := b.conditionalStmts + [body],
                 conditionIndexes := b.conditionIndexes + [|b.exprs|]);
    var openEvents := [EnterWhileloop] + ExprEvents(c) + StmtsEvents(body);
    OpenedBlockWalk(b, EnterWhileloop, c, body);
    RunThen(b, openEvents, b3, [ExitWhileloop]);
    RunSingle(b3, ExitWhileloop);
    ExitWhileloopCloses(b, c, [], body);
    assert b.exprs + [c] + [] == b.exprs + [c];
    assert b.exprs + [] == b.exprs;
  }

  /** `exitMove` and `exitPrint` after the walk of their expression. */
  lemma SimpleStmtWalk(b: Builder, s: Stmt)
    requires s.Move? || s.Print?
    requires ParsedStmt(s)
    ensures Run(b, StmtEvents(s)) == Some(AddStmtTo(b, s))
  {
    var e := if s.Move? then s.source else s.arg;
    var k := if s.Move? then ExitMove(s.dest.name) else ExitPrint;
    var b1 := b.(exprs := b.exprs + [e]);
    ExprWalkRebuilds(b, e);
    assert StmtEvents(s) == ExprEvents(e) + [k];
    RunThen(b, ExprEvents(e), b1, [k]);
    RunSingle(b1, k);
    assert DropLast(b1.exprs) == b.exprs;
  }

  /** The walk of a statement adds exactly that statement where it stands (to the innermost
      open list, or to the top level) and leaves every stack as it found it. */
  lemma {:induction false} StmtWalkRebuilds(b: Builder, s: Stmt)
    requires ParsedStmt(s)
    ensures Run(b, StmtEvents(s)) == Some(AddStmtTo(b, s))
    decreases s, 1
  {
    match s
    case Move(_, _) => SimpleStmtWalk(b, s);
    case Print(_) => SimpleStmtWalk(b, s);
    case IfElse(c, t, el) =>
      forall b' ensures Run(b', StmtsEvents(t)) == Some(AddStmtsTo(b', t)) {
        StmtsWalkRebuilds(b', t);
      }
      if el.ElseBlock? {
        forall b' ensures Run(b', StmtsEvents(el.stmts)) == Some(AddStmtsTo(b', el.stmts)) {
          StmtsWalkRebuilds(b', el.stmts);
        }
      }
      IfElseWalk(b, c, t, el);
    case While(c, body) =>
      forall b' ensures Run(b', StmtsEvents(body)) == Some(AddStmtsTo(b', body)) {
        StmtsWalkRebuilds(b', body);
      }
      WhileWalk(b, c, body);
  }

  /** The walk of a statement list adds those statements, in order, where the list stands. */
  lemma {:induction false} StmtsWalkRebuilds(b: Builder, ss: seq<Stmt>)
    requires ParsedStmts(ss)
    ensures Run(b, StmtsEvents(ss)) == Some(AddStmtsTo(b, ss))
    decreases ss, 0
  {
    if ss != [] {
      var b1 := AddStmtTo(b, ss[0]);
      StmtWalkRebuilds(b, ss[0]);
      RunThen(b, StmtEvents(ss[0]), b1, StmtsEvents(ss[1..]));
      StmtsWalkRebuilds(b1, ss[1..]);
    }
  }

  // ----- Whole programs -----

  /** One `x := e` or `x` of a declaration: the name, the type token, the initialiser if any. */
  datatype VarInit = VarInit(name: string, typeText: string, init: Option<Expr>)

  /** The events of a walk over one declaration: the initialiser's expression, then `exitVarinit`. */
  function VarInitEvents(d: VarInit): seq<Event> {
    (match d.init case None => [] case Some(e) => ExprEvents(e)) + [ExitVarinit(d.name, d.typeText, d.init.Some?)]
  }

  /** The events of a walk over a list of declarations, in order. */
  function DeclEvents(ds: seq<VarInit>): seq<Event>
    decreases |ds|
  {
    if ds == [] then [] else VarInitEvents(ds[0]) + DeclEvents(ds[1..])
  }

  /** What `exitVarinit` records for a declaration numbered `order`. */
  function DeclOf(d: VarInit, order: int): VarDecl {
    VarDecl(TypeOfText(d.typeText), d.init, order)
  }

  /** The declaration map after entering the declarations in turn from `vars`, numbering them
      from `counter`. */
  function Declare(vars: map<string, VarDecl>, counter: int, ds: seq<VarInit>): (r: map<string, VarDecl>)
    ensures r.Keys == vars.Keys + set i | 0 <= i < |ds| :: ds[i].name
    decreases |ds|
  {
    if ds == [] then vars
    else
      var r := Declare(vars[ds[0].name := DeclOf(ds[0], counter)], counter + 1, ds[1..]);
      assert (set i | 0 <= i < |ds| :: ds[i].name) == {ds[0].name} + set i | 0 <= i < |ds[1..]| :: ds[1..][i].name;
      r
  }

  /** A name the list does not declare keeps the declaration it had. */
  lemma {:induction false} DeclareKeeps(vars: map<string, VarDecl>, counter: int, ds: seq<VarInit>, x: string)
    requires x in vars
    requires forall i :: 0 <= i < |ds| ==> ds[i].name != x
    ensures Declare(vars, counter, ds)[x] == vars[x]
    decreases |ds|
  {
    if ds != [] {
      assert forall j :: 0 <= j < |ds[1..]| ==> ds[1..][j] == ds[j + 1];
      DeclareKeeps(vars[ds[0].name := DeclOf(ds[0], counter)], counter + 1, ds[1..], x);
    }
  }

  /** A name keeps its last declaration, numbered by its position counted from `counter`. */
  lemma {:induction false} DeclareLastWins(vars: map<string, VarDecl>, counter: int, ds: seq<VarInit>, i: nat)
    requires i < |ds|
    requires forall j :: i < j < |ds| ==> ds[j].name != ds[i].name
    ensures Declare(vars, counter, ds)[ds[i].name] == DeclOf(ds[i], counter + i)
    decreases |ds|
  {
    var vars1 := vars[ds[0].name := DeclOf(ds[0], counter)];
    if i == 0 {
      assert forall j :: 0 <= j < |ds[1..]| ==> ds[1..][j] == ds[j + 1];
      DeclareKeeps(vars1, counter + 1, ds[1..], ds[0].name);
    } else {
      assert ds[1..][i - 1] == ds[i];
      assert forall j :: i - 1 < j < |ds[1..]| ==> ds[1..][j] == ds[j + 1];
      DeclareLastWins(vars1, counter + 1, ds[1..], i - 1);
    }
  }

  /** A declaration list as the builder receives it: initialisers are untyped trees. */
  predicate ParsedDecls(ds: seq<VarInit>) {
    forall i :: 0 <= i < |ds| && ds[i].init.Some? ==> Parsed(ds[i].init.value)
  }

  /** `exitVarinit` after the walk of the initialiser: the declaration is entered with the next
      number, and the expression stack is as before. */
  lemma VarInitWalk(b: Builder, d: VarInit)
    requires d.init.Some? ==> Parsed(d.init.value)
    ensures Run(b, VarInitEvents(d)) ==
            Some(b.(vars := b.vars[d.name := DeclOf(d, b.varCounter)], varCounter := b.varCounter + 1))
  {
    var k := ExitVarinit(d.name, d.typeText, d.init.Some?);
    match d.init {
      case None =>
        assert VarInitEvents(d) == [k];
        RunSingle(b, k);
      case Some(e) =>
        var b1 := b.(exprs := b.exprs + [e]);
        ExprWalkRebuilds(b, e);
        RunSingle(b1, k);
        assert DropLast(b1.exprs) == b.exprs;
        RunThen(b, ExprEvents(e), b1, [k]);
    }
  }

  /** The walk of the declarations enters each of them in turn and leaves the stacks as they were. */
  lemma {:induction false} DeclWalkDeclares(b: Builder, ds: seq<VarInit>)
    requires ParsedDecls(ds)
    ensures Run(b, DeclEvents(ds)) ==
            Some(b.(vars := Declare(b.vars, b.varCounter, ds), varCounter := b.varCounter + |ds|))
    decreases |ds|
  {
    if ds != [] {
      var b1 := b.(vars := b.vars[ds[0].name := DeclOf(ds[0], b.varCounter)], varCounter := b.varCounter + 1);
      VarInitWalk(b, ds[0]);
      RunThen(b, VarInitEvents(ds[0]), b1, DeclEvents(ds[1..]));
      assert ParsedDecls(ds[1..]) by {
        assert forall i :: 0 <= i < |ds[1..]| ==> ds[1..][i] == ds[i + 1];
      }
      DeclWalkDeclares(b1, ds[1..]);
    }
  }

  /** The events of a walk over a whole program: its declarations, its statements, `exitProgram`. */
  function ProgramEvents(ds: seq<VarInit>, ss: seq<Stmt>): seq<Event> {
    DeclEvents(ds) + StmtsEvents(ss) + [ExitProgram]
  }

  /** `readProgram`: walking a program from a fresh builder produces the `Prog` holding exactly
      its statements and its declarations, numbered in order, with every stack empty again. */
  lemma ProgramWalkRebuilds(ds: seq<VarInit>, ss: seq<Stmt>)
    requires ParsedDecls(ds) && ParsedStmts(ss)
    ensures var vars := Declare(map[], 0, ds);
            Run(Init(), ProgramEvents(ds, ss)) ==
              Some(Builder(ss, vars, [], [], [], Some(Prog(ss, vars)), |ds|))
  {
    var vars := Declare(map[], 0, ds);
    var b1 := Init().(vars := vars, varCounter := |ds|);
    var b2 := b1.(stmts := ss);
    DeclWalkDeclares(Init(), ds);
    StmtsWalkRebuilds(b1, ss);
    AddStmtsToTopLevel(b1, ss);
    assert [] + ss == ss;
    RunThen(Init(), DeclEvents(ds), b1, StmtsEvents(ss));
    RunThen(Init(), DeclEvents(ds) + StmtsEvents(ss), b2, [ExitProgram]);
    RunSingle(b2, ExitProgram);
  }

  // ----- The builder object -----

  /** `SourceCreator`: the builder's state held in fields that its callbacks update in place.
      Each callback is proved to do to `State()` exactly what `Step` does. The stacks it pops
      must be deep enough, which the tree walk guarantees (`ProgramWalkRebuilds`); in Java an
      underflow throws instead. */
  class SourceCreator {
    var stmts: seq<Stmt>
    var vars: map<string, VarDecl>
    var exprs: seq<Expr>
    var conditionalStmts: seq<seq<Stmt>>
    var conditionIndexes: seq<int>
    var prog: Option<Prog>
    var varCounter: int

    function State(): Builder
      reads this
    {
      Builder(stmts, vars, exprs, conditionalStmts, conditionIndexes, prog, varCounter)
    }

    constructor()
      ensures State() == Init()
    {
      stmts := [];
      vars := map[];
      exprs := [];
      conditionalStmts := [];
      conditionIndexes := [];
      prog := None;
      varCounter := 0;
    }

    /** `addStmt` */
    method AddStmt(s: Stmt)
      modifies this
      ensures State() == AddStmtTo(old(State()), s)
    {
      if conditionalStmts == [] {
        stmts := stmts + [s];
      } else {
        var stmtList := Last(conditionalStmts);
        conditionalStmts := DropLast(conditionalStmts);
        stmtList := stmtList + [s];
        conditionalStmts := conditionalStmts + [stmtList];
      }
    }

    /** `exprs.pop()` */
    method PopExpr() returns (e: Expr)
      requires exprs != []
      modifies this
      ensures e == Last(old(exprs))
      ensures State() == old(State()).(exprs := DropLast(old(exprs)))
    {
      e := Last(exprs);
      exprs := DropLast(exprs);
    }

    /** `exprs.remove(i)` */
    method RemoveExpr(i: nat) returns (e: Expr)
      requires i < |exprs|
      modifies this
      ensures e == old(exprs)[i]
      ensures State() == old(State()).(exprs := RemoveAt(old(exprs), i))
    {
      e := exprs[i];
      exprs := exprs[..i] + exprs[i + 1..];
    }

    method ExitProgram()
      modifies this
      ensures Step(old(State()), Event.ExitProgram) == Some(State())
    {
      prog := Some(Prog(stmts, vars));
    }

    method ExitVarinit(name: string, typeText: string, hasInit: bool)
      requires hasInit ==> exprs != []
      modifies this
      ensures Step(old(State()), Event.ExitVarinit(name, typeText, hasInit)) == Some(State())
    {
      var ty := if typeText == "int64" then Int64Type else BoolType;
      var initialValue := None;
      if hasInit {
        var e := PopExpr();
        initialValue := Some(e);
      }
      vars := vars[name := VarDecl(ty, initialValue, varCounter)];
      varCounter := varCounter + 1;
    }

    method ExitMove(target: string)
      requires exprs != []
      modifies this
      ensures Step(old(State()), Event.ExitMove(target)) == Some(State())
    {
      var source := PopExpr();
      AddStmt(Move(Dest(target), source));
    }

    method EnterIfelse()
      modifies this
      ensures Step(old(State()), Event.EnterIfelse) == Some(State())
    {
      conditionalStmts := conditionalStmts + [[]];
      conditionIndexes := conditionIndexes + [|exprs|];
    }

    method EnterElseblock()
      modifies this
      ensures Step(old(State()), Event.EnterElseblock) == Some(State())
    {
      conditionalStmts := conditionalStmts + [[]];
    }

    method ExitIfelse(hasElse: bool)
      requires |conditionalStmts| >= (if hasElse then 2 else 1)
      requires conditionIndexes != [] && 0 <= Last(conditionIndexes) < |exprs|
      modifies this
      ensures Step(old(State()), Event.ExitIfelse(hasElse)) == Some(State())
    {
      var elseBranch := NoElse;
      if hasElse {
        elseBranch := ElseBlock(Last(conditionalStmts));
        conditionalStmts := DropLast(conditionalStmts);
      }
      var thenBranch := Last(conditionalStmts);
      conditionalStmts := DropLast(conditionalStmts);
      var index := Last(conditionIndexes);
      conditionIndexes := DropLast(conditionIndexes);
      var condition := RemoveExpr(index);
      AddStmt(IfElse(condition, thenBranch, elseBranch));
    }

    method EnterWhileloop()
      modifies this
      ensures Step(old(State()), Event.EnterWhileloop) == Some(State())
    {
      conditionalStmts := conditionalStmts + [[]];
      conditionIndexes := conditionIndexes + [|exprs|];
    }

    method ExitWhileloop()
      requires conditionIndexes != [] && 0 <= Last(conditionIndexes) < |exprs|
      requires conditionalStmts != []
      modifies this
      ensures Step(old(State()), Event.ExitWhileloop) == Some(State())
    {
      var index := Last(conditionIndexes);
      conditionIndexes := DropLast(conditionIndexes);
      var condition := RemoveExpr(index);
      var body := Last(conditionalStmts);
      conditionalStmts := DropLast(conditionalStmts);
      AddStmt(While(condition, body));
    }

    method ExitPrint()
      requires exprs != []
      modifies this
      ensures Step(old(State()), Event.ExitPrint) == Some(State())
    {
      var arg := PopExpr();
      AddStmt(Print(arg));
    }

    method ExitUnop(opText: string)
      requires exprs != []
      modifies this
      ensures Step(old(State()), Event.ExitUnop(opText)) == Some(State())
    {
      var op := if opText == "-" then Negate else BitNot;
      var arg := PopExpr();
      exprs := exprs + [UnopApp(op, arg)];
    }

    /** `processBinop` */
    method ProcessBinop(op: Binop)
      requires |exprs| >= 2
      modifies this
      ensures ReduceBinop(old(State()), op) == Some(State())
    {
      var right := PopExpr();
      var left := PopExpr();
      exprs := exprs + [BinopApp(left, op, right)];
    }

    /** `processBoolOp` */
    method ProcessBoolOp(op: BoolOpKind)
      requires |exprs| >= 2
      modifies this
      ensures ReduceBoolOp(old(State()), op) == Some(State())
    {
      var right := PopExpr();
      var left := PopExpr();
      exprs := exprs + [BoolOp(left, op, right)];
    }

    /** `processComparison` */
    method ProcessComparison(op: ComparisonOp)
      requires |exprs| >= 2
      modifies this
      ensures ReduceComparison(old(State()), op) == Some(State())
    {
      var right := PopExpr();
      var left := PopExpr();
      exprs := exprs + [Comparison(left, op, right)];
    }

    method ExitAdd(opText: string)
      requires |exprs| >= 2
      modifies this
      ensures Step(old(State()), Event.ExitAdd(opText)) == Some(State())
    {
      ProcessBinop(if opText == "+" then Add else Subtract);
    }

    method ExitMul(opText: string)
      requires |exprs| >= 2
      modifies this
      ensures Step(old(State()), Event.ExitMul(opText)) == Some(State())
    {
      var op := if opText == "*" then Multiply else if opText == "/" then Divide else Modulus;
      ProcessBinop(op);
    }

    method ExitShift(opText: string)
      requires |exprs| >= 2
      modifies this
      ensures Step(old(State()), Event.ExitShift(opText)) == Some(State())
    {
      var op := if opText == "<<" then Lshift else Rshift;
      ProcessBinop(op);
    }

    method ExitAnd()
      requires |exprs| >= 2
      modifies this
      ensures Step(old(State()), Event.ExitAnd) == Some(State())
    {
      ProcessBinop(BitAnd);
    }

    method ExitOr()
      requires |exprs| >= 2
      modifies this
      ensures Step(old(State()), Event.ExitOr) == Some(State())
    {
      ProcessBinop(BitOr);
    }

    method ExitXor()
      requires |exprs| >= 2
      modifies this
      ensures Step(old(State()), Event.ExitXor) == Some(State())
    {
      ProcessBinop(BitXor);
    }

    method ExitBoolop(opText: string)
      requires |exprs| >= 2
      modifies this
      ensures Step(old(State()), Event.ExitBoolop(opText)) == Some(State())
    {
      ProcessBoolOp(if opText == "&&" then AND else OR);
    }

    method ExitEq(opText: string)
      requires |exprs| >= 2
      modifies this
      ensures Step(old(State()), Event.ExitEq(opText)) == Some(State())
    {
      ProcessComparison(if opText == "==" then EQ else NEQ);
    }

    method ExitLess(opText: string)
      requires |exprs| >= 2
      modifies this
      ensures Step(old(State()), Event.ExitLess(opText)) == Some(State())
    {
      ProcessComparison(if opText == "<" then LT else LEQ);
    }

    method ExitGreater(opText: string)
      requires |exprs| >= 2
      modifies this
      ensures Step(old(State()), Event.ExitGreater(opText)) == Some(State())
    {
      ProcessComparison(if opText == ">" then GT else GEQ);
    }

    method ExitVariable(text: string)
      modifies this
      ensures Step(old(State()), Event.ExitVariable(text)) == Some(State())
    {
      exprs := exprs + [Read(Dest(text), None)];
    }

    method ExitNumber(literal: int32)
      modifies this
      ensures Step(old(State()), Event.ExitNumber(literal)) == Some(State())
    {
      exprs := exprs + [Immediate(literal)];
    }
  }
}
