/**
 * What lab 1's lowering preserves: running the lowered instructions prints what running the
 * source statements prints.
 *
 * The operators' meaning is a parameter (`Interp`): the proof only needs the source and the
 * target to give an operator the same meaning, not what that meaning is. The source side
 * covers the fragment lab 1 lowers: straight-line programs of assignments and prints over
 * integer expressions. A read of a variable not yet assigned has no value, nor does a
 * conjunction, disjunction or comparison (lab 1 does not lower them).
 */
module Semantics {
  import opened Base
  import opened Source
  import T = Target
  import opened Lab1

  /** The meaning of literals and operators; a binary operation may fail (division by zero). */
  datatype Interp<!V> = Interp(imm: int32 -> V, unop: (Unop, V) -> V, binop: (Binop, V, V) -> Option<V>)

  /** The value of an expression over the values of the assigned variables. */
  function Eval<V>(I: Interp<V>, e: Expr, env: map<string, V>): Option<V> {
    match e
    case Immediate(v) => Some(I.imm(v))
    case Read(d, _) => if d.name in env then Some(env[d.name]) else None
    case UnopApp(op, a) =>
      (match Eval(I, a, env)
       case None => None
       case Some(v) => Some(I.unop(op, v)))
    case BinopApp(l, op, r) =>
      (match Eval(I, l, env)
       case None => None
       case Some(lv) =>
         match Eval(I, r, env)
         case None => None
         case Some(rv) => I.binop(op, lv, rv))
    case BoolOp(_, _, _) => None
    case Comparison(_, _, _) => None
  }

  /** A source run: the values of the assigned variables and what was printed. */
  datatype Run<V> = Run(env: map<string, V>, out: seq<V>)

  predicate StraightLine(ss: seq<Stmt>) {
    forall i :: 0 <= i < |ss| ==> ss[i].Move? || ss[i].Print?
  }

  /** An assignment or a print, run; `None` when its expression has no value. */
  function ExecStmt<V>(I: Interp<V>, s: Stmt, run: Run<V>): Option<Run<V>>
    requires s.Move? || s.Print?
  {
    match s
    case Move(d, e) =>
      (match Eval(I, e, run.env)
       case None => None
       case Some(v) => Some(run.(env := run.env[d.name := v])))
    case Print(e) =>
      (match Eval(I, e, run.env)
       case None => None
       case Some(v) => Some(run.(out := run.out + [v])))
  }

  function ExecStmts<V>(I: Interp<V>, ss: seq<Stmt>, run: Run<V>): Option<Run<V>>
    requires StraightLine(ss)
    decreases |ss|
  {
    if ss == [] then Some(run)
    else
      assert StraightLine(DropLast(ss)) by {
        forall i | 0 <= i < |DropLast(ss)| ensures DropLast(ss)[i] == ss[i] { }
      }
      match ExecStmts(I, DropLast(ss), run)
      case None => None
      case Some(r1) => ExecStmt(I, Last(ss), r1)
  }

  /** The target machine: the stack slots written so far and what was printed. */
  datatype Machine<V> = Machine(store: map<nat, V>, out: seq<V>)

  /** One pseudo-instruction, run; `None` on a null operand, a slot never written, or a failing
      operation. */
  function ExecInstr<V>(I: Interp<V>, i: T.Instr, m: Machine<V>): Option<Machine<V>> {
    match i
    case MoveImm(Some(d), imm) => Some(m.(store := m.store[d := I.imm(imm)]))
    case MoveCp(Some(d), Some(s)) =>
      if s in m.store then Some(m.(store := m.store[d := m.store[s]])) else None
    case MoveBinop(Some(d), Some(l), op, Some(r)) =>
      if l in m.store && r in m.store then
        match I.binop(op, m.store[l], m.store[r])
        case None => None
        case Some(v) => Some(m.(store := m.store[d := v]))
      else None
    case MoveUnop(Some(d), op, Some(a)) =>
      if a in m.store then Some(m.(store := m.store[d := I.unop(op, m.store[a])])) else None
    case Print(Some(s)) =>
      if s in m.store then Some(m.(out := m.out + [m.store[s]])) else None
    case Comment(_) => Some(m)
    case _ => None
  }

  function ExecCode<V>(I: Interp<V>, code: seq<T.Instr>, m: Machine<V>): Option<Machine<V>>
    decreases |code|
  {
    if code == [] then Some(m)
    else
      match ExecInstr(I, code[0], m)
      case None => None
      case Some(m1) => ExecCode(I, code[1..], m1)
  }

  lemma {:induction false} ExecCodeAppend<V>(I: Interp<V>, a: seq<T.Instr>, b: seq<T.Instr>, m: Machine<V>)
    ensures ExecCode(I, a + b, m) ==
            (match ExecCode(I, a, m) case None => None case Some(m1) => ExecCode(I, b, m1))
    decreases |a|
  {
    if a == [] {
      assert a + b == b;
    } else {
      assert (a + b)[1..] == a[1..] + b;
      match ExecInstr(I, a[0], m)
      case None =>
      case Some(m1) => ExecCodeAppend(I, a[1..], b, m1);
    }
  }

  lemma ExecCodeSingle<V>(I: Interp<V>, i: T.Instr, m: Machine<V>)
    ensures ExecCode(I, [i], m) == ExecInstr(I, i, m)
  {
    assert [i][1..] == [];
  }

  /** Every assigned variable is bound to a slot below `counter` that holds its value. */
  ghost predicate Agrees<V>(env: map<string, V>, vars: map<string, T.Operand>, store: map<nat, V>, counter: nat) {
    forall x :: x in env ==>
      && x in vars && vars[x].Some? && vars[x].value < counter
      && vars[x].value in store && store[vars[x].value] == env[x]
  }

  /** The slots below `counter` are kept. */
  ghost predicate Keeps<V>(store: map<nat, V>, store': map<nat, V>, counter: nat) {
    forall k :: k in store && k < counter ==> k in store' && store'[k] == store[k]
  }

  /** What running an expression's code achieves: its value in its result slot, every slot
      below the counter kept, nothing printed. */
  ghost predicate Computes<V>(I: Interp<V>, e: Expr, env: map<string, V>, vars: map<string, T.Operand>, counter: nat,
                        m: Machine<V>, m': Machine<V>)
  {
    var r := LowerExpr(e, vars, counter);
    && Eval(I, e, env).Some?
    && r.dest.Some? && r.dest.value < r.next
    && r.dest.value in m'.store && m'.store[r.dest.value] == Eval(I, e, env).value
    && Keeps(m.store, m'.store, counter)
    && m'.out == m.out
  }

  lemma AgreesLater<V>(env: map<string, V>, vars: map<string, T.Operand>, store: map<nat, V>, store': map<nat, V>,
                       counter: nat, counter': nat)
    requires Agrees(env, vars, store, counter) && Keeps(store, store', counter) && counter <= counter'
    ensures Agrees(env, vars, store', counter')
  {
  }

  lemma UnopCorrect<V>(I: Interp<V>, op: Unop, a: Expr, env: map<string, V>, vars: map<string, T.Operand>,
                       counter: nat, m: Machine<V>, m1: Machine<V>)
    requires Eval(I, UnopApp(op, a), env).Some?
    requires ExecCode(I, LowerExpr(a, vars, counter).code, m) == Some(m1)
    requires Computes(I, a, env, vars, counter, m, m1)
    ensures var m' := ExecCode(I, LowerExpr(UnopApp(op, a), vars, counter).code, m);
            m'.Some? && Computes(I, UnopApp(op, a), env, vars, counter, m, m'.value)
  {
    var ra := LowerExpr(a, vars, counter);
    var last := T.MoveUnop(Some(ra.next), op, ra.dest);
    ExecCodeAppend(I, ra.code, [last], m);
    ExecCodeSingle(I, last, m1);
  }

  lemma BinopCorrect<V>(I: Interp<V>, l: Expr, op: Binop, rt: Expr, env: map<string, V>,
                        vars: map<string, T.Operand>, counter: nat, m: Machine<V>, m1: Machine<V>, m2: Machine<V>)
    requires Eval(I, BinopApp(l, op, rt), env).Some?
    requires ExecCode(I, LowerExpr(l, vars, counter).code, m) == Some(m1)
    requires Computes(I, l, env, vars, counter, m, m1)
    requires ExecCode(I, LowerExpr(rt, vars, LowerExpr(l, vars, counter).next).code, m1) == Some(m2)
    requires Computes(I, rt, env, vars, LowerExpr(l, vars, counter).next, m1, m2)
    ensures var m' := ExecCode(I, LowerExpr(BinopApp(l, op, rt), vars, counter).code, m);
            m'.Some? && Computes(I, BinopApp(l, op, rt), env, vars, counter, m, m'.value)
  {
    var rl := LowerExpr(l, vars, counter);
    var rr := LowerExpr(rt, vars, rl.next);
    var last := T.MoveBinop(Some(rr.next), rl.dest, op, rr.dest);
    ExecCodeAppend(I, rl.code, rr.code, m);
    ExecCodeAppend(I, rl.code + rr.code, [last], m);
    ExecCodeSingle(I, last, m2);
  }

  /** Lowering an expression is correct: when the expression has a value and every assigned
      variable's slot holds its value, the lowered code runs, leaves that value in the result
      slot, keeps every slot below the counter and prints nothing. */
  lemma {:induction false} LowerExprCorrect<V>(I: Interp<V>, e: Expr, env: map<string, V>,
                                               vars: map<string, T.Operand>, counter: nat, m: Machine<V>)
    requires Agrees(env, vars, m.store, counter)
    requires Eval(I, e, env).Some?
    ensures var m' := ExecCode(I, LowerExpr(e, vars, counter).code, m);
            m'.Some? && Computes(I, e, env, vars, counter, m, m'.value)
  {
    match e
    case Immediate(v) =>
      ExecCodeSingle(I, T.MoveImm(Some(counter), v), m);
    case Read(d, _) =>
    case UnopApp(op, a) =>
      LowerExprCorrect(I, a, env, vars, counter, m);
      var m1 := ExecCode(I, LowerExpr(a, vars, counter).code, m).value;
      UnopCorrect(I, op, a, env, vars, counter, m, m1);
    case BinopApp(l, op, rt) =>
      var rl := LowerExpr(l, vars, counter);
      LowerExprCorrect(I, l, env, vars, counter, m);
      var m1 := ExecCode(I, rl.code, m).value;
      AgreesLater(env, vars, m.store, m1.store, counter, rl.next);
      LowerExprCorrect(I, rt, env, vars, rl.next, m1);
      var m2 := ExecCode(I, LowerExpr(rt, vars, rl.next).code, m1).value;
      BinopCorrect(I, l, op, rt, env, vars, counter, m, m1, m2);
  }

  /** The instructions a statement appends. */
  function StmtCode(s: Stmt, st: State): seq<T.Instr> {
    LowerStmt(s, st).instrs[|st.instrs|..]
  }

  /** Lowering an assignment or a print is correct: the appended code runs, prints what the
      statement prints, and every assigned variable's slot again holds its value. */
  lemma LowerStmtCorrect<V>(I: Interp<V>, s: Stmt, run: Run<V>, st: State, m: Machine<V>)
    requires s.Move? || s.Print?
    requires Agrees(run.env, st.vars, m.store, st.counter) && m.out == run.out
    requires ExecStmt(I, s, run).Some?
    ensures var m' := ExecCode(I, StmtCode(s, st), m);
            var run' := ExecStmt(I, s, run).value;
            && m'.Some? && m'.value.out == run'.out
            && Agrees(run'.env, LowerStmt(s, st).vars, m'.value.store, LowerStmt(s, st).counter)
  {
    var e := if s.Move? then s.source else s.arg;
    var r := LowerExpr(e, st.vars, st.counter);
    LowerExprCorrect(I, e, run.env, st.vars, st.counter, m);
    var m1 := ExecCode(I, r.code, m).value;
    AgreesLater(run.env, st.vars, m.store, m1.store, st.counter, r.next);
    if s.Move? {
      assert StmtCode(s, st) == r.code;
    } else {
      assert LowerStmt(s, st).instrs == st.instrs + (r.code + [T.Print(r.dest)]);
      assert StmtCode(s, st) == r.code + [T.Print(r.dest)];
      ExecCodeAppend(I, r.code, [T.Print(r.dest)], m);
      ExecCodeSingle(I, T.Print(r.dest), m1);
    }
  }

  /** Lowering a straight-line program is correct: whenever the source program runs to the
      end, the lowered code runs too and prints the same values in the same order. */
  lemma {:induction false} LowerStmtsCorrect<V>(I: Interp<V>, ss: seq<Stmt>, run: Run<V>, st: State, m: Machine<V>)
    requires StraightLine(ss)
    requires Agrees(run.env, st.vars, m.store, st.counter) && m.out == run.out
    requires ExecStmts(I, ss, run).Some?
    ensures |LowerStmts(ss, st).instrs| >= |st.instrs|
    ensures var m' := ExecCode(I, LowerStmts(ss, st).instrs[|st.instrs|..], m);
            var run' := ExecStmts(I, ss, run).value;
            && m'.Some? && m'.value.out == run'.out
            && Agrees(run'.env, LowerStmts(ss, st).vars, m'.value.store, LowerStmts(ss, st).counter)
    decreases |ss|
  {
    if ss == [] {
      assert st.instrs[|st.instrs|..] == [];
    } else {
      var init := DropLast(ss);
      assert StraightLine(init) by {
        forall i | 0 <= i < |init| ensures init[i] == ss[i] { }
      }
      LowerStmtsCorrect(I, init, run, st, m);
      var stA := LowerStmts(init, st);
      var runA := ExecStmts(I, init, run).value;
      LowerStmtsStep(I, Last(ss), runA, stA, st, m);
    }
  }

  /** One more statement: the code so far, run from `m`, reached `runA`'s output and bindings. */
  lemma LowerStmtsStep<V>(I: Interp<V>, s: Stmt, runA: Run<V>, stA: State, st: State, m: Machine<V>)
    requires s.Move? || s.Print?
    requires ExecStmt(I, s, runA).Some?
    requires |stA.instrs| >= |st.instrs|
    requires var mA := ExecCode(I, stA.instrs[|st.instrs|..], m);
             && mA.Some? && mA.value.out == runA.out
             && Agrees(runA.env, stA.vars, mA.value.store, stA.counter)
    ensures |LowerStmt(s, stA).instrs| >= |st.instrs|
    ensures var m' := ExecCode(I, LowerStmt(s, stA).instrs[|st.instrs|..], m);
            var run' := ExecStmt(I, s, runA).value;
            && m'.Some? && m'.value.out == run'.out
            && Agrees(run'.env, LowerStmt(s, stA).vars, m'.value.store, LowerStmt(s, stA).counter)
  {
    var mA := ExecCode(I, stA.instrs[|st.instrs|..], m).value;
    LowerStmtCorrect(I, s, runA, stA, mA);
    LowerStmtAppends(s, stA);
    assert LowerStmt(s, stA).instrs == stA.instrs + StmtCode(s, stA);
    SuffixAppend(stA.instrs, StmtCode(s, stA), |st.instrs|);
    ExecCodeAppend(I, stA.instrs[|st.instrs|..], StmtCode(s, stA), m);
  }

  lemma SuffixAppend<X>(a: seq<X>, c: seq<X>, n: nat)
    requires n <= |a|
    ensures (a + c)[n..] == a[n..] + c
  {
  }

  /** The whole pipeline from the generator's initial state: a straight-line program that runs
      to the end from no assigned variables prints, once lowered, exactly what it prints. */
  lemma ProgramCorrect<V>(I: Interp<V>, ss: seq<Stmt>)
    requires StraightLine(ss)
    requires ExecStmts(I, ss, Run(map[], [])).Some?
    ensures var m := ExecCode(I, LowerStmts(ss, Start()).instrs, Machine(map[], []));
            m.Some? && m.value.out == ExecStmts(I, ss, Run(map[], [])).value.out
  {
    LowerStmtsCorrect(I, ss, Run(map[], []), Start(), Machine(map[], []));
    assert LowerStmts(ss, Start()).instrs[0..] == LowerStmts(ss, Start()).instrs;
  }
}
