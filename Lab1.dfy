/**
 * The lab 1 code generator (`lab1/Main.java`): lowers the statements of a source program to
 * target pseudo-instructions, giving every computed value a fresh stack slot.
 *
 * Its state is three static fields: the slot counter `mVarCounter`, the map `mVars` from a
 * source variable to the `Target.Dest` that holds its value, and the instruction list
 * `mInstrs`. `LowerExpr`, `LowerStmt` and `LowerStmts` say what the generator does to that
 * state as functions of it; the class `Generator` holds the state in fields and is proved to
 * do exactly that.
 */
module Lab1 {
  import opened Base
  import opened Source
  import T = Target

  /** `mVars.get(x)`: the `Dest` bound to `x`, or null when `x` is unbound. */
  function Binding(vars: map<string, T.Operand>, x: string): (r: T.Operand)
    ensures x in vars ==> r == vars[x]
    ensures x !in vars ==> r.None?
  {
    if x in vars then vars[x] else None
  }

  /** What lowering an expression yields: the slot holding its value (null when the generator
      does not handle it), the instructions appended, and the next free slot. */
  datatype Lowered = Lowered(dest: T.Operand, code: seq<T.Instr>, next: nat)

  /** `genInstrsFromExpr`: operands first, left before right, then one instruction computing
      the node into a fresh slot. A read reuses the variable's `Dest` and emits nothing;
      conjunctions, disjunctions and comparisons match no case and give null.

      Every instruction emitted writes the next free slot, in order, so the counter advances by
      exactly the number of instructions; an expression that emits code leaves its value in the
      last slot it allocated. */
  function LowerExpr(e: Expr, vars: map<string, T.Operand>, counter: nat): (r: Lowered)
    ensures r.next == counter + |r.code|
    ensures forall k :: 0 <= k < |r.code| ==> T.Writes(r.code[k]) && r.code[k].dest == Some(counter + k)
    ensures r.code == [] <==> !(e.Immediate? || e.UnopApp? || e.BinopApp?)
    ensures r.code == [] ==> r.dest == (if e.Read? then Binding(vars, e.dest.name) else None)
    ensures r.code != [] ==> r.dest == Some(r.next - 1)
  {
    match e
    case Immediate(v) =>
      Lowered(Some(counter), [T.MoveImm(Some(counter), v)], counter + 1)
    case Read(d, _) =>
      Lowered(Binding(vars, d.name), [], counter)
    case UnopApp(op, a) =>
      var ra := LowerExpr(a, vars, counter);
      Lowered(Some(ra.next), ra.code + [T.MoveUnop(Some(ra.next), op, ra.dest)], ra.next + 1)
    case BinopApp(l, op, rt) =>
      var rl := LowerExpr(l, vars, counter);
      var rr := LowerExpr(rt, vars, rl.next);
      Lowered(Some(rr.next), rl.code + rr.code + [T.MoveBinop(Some(rr.next), rl.dest, op, rr.dest)], rr.next + 1)
    case BoolOp(_, _, _) => Lowered(None, [], counter)
    case Comparison(_, _, _) => Lowered(None, [], counter)
  }

  /** An operand an instruction at slot position `hi` may read: null, a `Dest` some variable is
      bound to, or a slot allocated since `lo` and before it. */
  predicate Available(o: T.Operand, vars: map<string, T.Operand>, lo: nat, hi: nat) {
    o.None? || o in vars.Values || lo <= o.value < hi
  }

  /** Every instruction of `r.code` reads only variables' slots and slots written by the
      instructions before it, and the result is one of those. */
  predicate ReadsEarlier(r: Lowered, vars: map<string, T.Operand>, counter: nat) {
    && Available(r.dest, vars, counter, r.next)
    && forall k, o :: 0 <= k < |r.code| && o in T.Sources(r.code[k]) ==> Available(o, vars, counter, counter + k)
  }

  lemma UnopReadsEarlier(op: Unop, a: Expr, vars: map<string, T.Operand>, counter: nat)
    requires ReadsEarlier(LowerExpr(a, vars, counter), vars, counter)
    ensures ReadsEarlier(LowerExpr(UnopApp(op, a), vars, counter), vars, counter)
  {
    var ra := LowerExpr(a, vars, counter);
    var r := LowerExpr(UnopApp(op, a), vars, counter);
    assert r.code == ra.code + [T.MoveUnop(Some(ra.next), op, ra.dest)];
    forall k, o | 0 <= k < |r.code| && o in T.Sources(r.code[k])
      ensures Available(o, vars, counter, counter + k)
    {
      if k < |ra.code| {
        assert r.code[k] == ra.code[k];
      } else {
        assert T.Sources(r.code[k]) == [ra.dest];
      }
    }
  }

  lemma BinopReadsEarlier(l: Expr, op: Binop, rt: Expr, vars: map<string, T.Operand>, counter: nat)
    requires ReadsEarlier(LowerExpr(l, vars, counter), vars, counter)
    requires ReadsEarlier(LowerExpr(rt, vars, LowerExpr(l, vars, counter).next), vars, LowerExpr(l, vars, counter).next)
    ensures ReadsEarlier(LowerExpr(BinopApp(l, op, rt), vars, counter), vars, counter)
  {
    var rl := LowerExpr(l, vars, counter);
    var rr := LowerExpr(rt, vars, rl.next);
    var r := LowerExpr(BinopApp(l, op, rt), vars, counter);
    var last := T.MoveBinop(Some(rr.next), rl.dest, op, rr.dest);
    assert r.code == rl.code + rr.code + [last];
    assert T.Sources(last) == [rl.dest, rr.dest];
    ConcatReadsEarlier(rl, rr, r, vars, counter, last);
  }

  /** The code of two operands, then one instruction reading from them. */
  lemma ConcatReadsEarlier(rl: Lowered, rr: Lowered, r: Lowered, vars: map<string, T.Operand>, counter: nat,
                           last: T.Instr)
    requires ReadsEarlier(rl, vars, counter) && ReadsEarlier(rr, vars, rl.next)
    requires rl.next == counter + |rl.code| && rr.next == rl.next + |rr.code|
    requires r.code == rl.code + rr.code + [last] && r.next == rr.next + 1 && r.dest == Some(rr.next)
    requires T.Sources(last) == [rl.dest, rr.dest]
    ensures ReadsEarlier(r, vars, counter)
  {
    forall k, o | 0 <= k < |r.code| && o in T.Sources(r.code[k])
      ensures Available(o, vars, counter, counter + k)
    {
      if k < |rl.code| {
        assert r.code[k] == rl.code[k];
      } else if k < |rl.code| + |rr.code| {
        assert r.code[k] == rr.code[k - |rl.code|];
        assert Available(o, vars, rl.next, rl.next + (k - |rl.code|));
      } else {
        assert r.code[k] == last;
      }
    }
  }

  /** Definition before use within an expression: every instruction reads only variables'
      slots and slots written by the instructions before it, and the result is one of those. */
  lemma {:induction false} LowerExprReadsEarlierSlots(e: Expr, vars: map<string, T.Operand>, counter: nat)
    ensures ReadsEarlier(LowerExpr(e, vars, counter), vars, counter)
  {
    match e
    case Immediate(_) =>
    case Read(d, _) =>
    case UnopApp(op, a) =>
      LowerExprReadsEarlierSlots(a, vars, counter);
      UnopReadsEarlier(op, a, vars, counter);
    case BinopApp(l, op, rt) =>
      LowerExprReadsEarlierSlots(l, vars, counter);
      LowerExprReadsEarlierSlots(rt, vars, LowerExpr(l, vars, counter).next);
      BinopReadsEarlier(l, op, rt, vars, counter);
    case BoolOp(_, _, _) =>
    case Comparison(_, _, _) =>
  }

  /** The generator's state: `mVarCounter`, `mVars`, `mInstrs`. */
  datatype State = State(counter: nat, vars: map<string, T.Operand>, instrs: seq<T.Instr>)

  /** The state before the first statement. */
  function Start(): State {
    State(0, map[], [])
  }

  /** `generateInstructions`: an assignment binds the variable to the slot of its value (no copy
      is made), a `print` appends a `Print` of that slot; `if` and `while` statements are not
      handled and change nothing. */
  function LowerStmt(s: Stmt, st: State): (r: State)
    ensures st.counter <= r.counter
    ensures |st.instrs| <= |r.instrs| && r.instrs[..|st.instrs|] == st.instrs
    ensures r.vars.Keys == st.vars.Keys + (if s.Move? then {s.dest.name} else {})
    ensures s.Move? ==> r.instrs == st.instrs + LowerExpr(s.source, st.vars, st.counter).code
    ensures s.Print? ==> |r.instrs| == |st.instrs| + |LowerExpr(s.arg, st.vars, st.counter).code| + 1
    ensures s.Print? ==> r.instrs[|r.instrs| - 1] == T.Print(LowerExpr(s.arg, st.vars, st.counter).dest)
    ensures s.IfElse? || s.While? ==> r == st
  {
    match s
    case Move(d, e) =>
      var r := LowerExpr(e, st.vars, st.counter);
      State(r.next, st.vars[d.name := r.dest], st.instrs + r.code)
    case Print(e) =>
      var r := LowerExpr(e, st.vars, st.counter);
      State(r.next, st.vars, st.instrs + r.code + [T.Print(r.dest)])
    case IfElse(_, _, _) => st
    case While(_, _) => st
  }

  /** The statements of a program, lowered in order. */
  function LowerStmts(ss: seq<Stmt>, st: State): (r: State)
    ensures st.counter <= r.counter
    ensures |st.instrs| <= |r.instrs| && r.instrs[..|st.instrs|] == st.instrs
    ensures st.vars.Keys <= r.vars.Keys
    decreases |ss|
  {
    if ss == [] then st else LowerStmt(Last(ss), LowerStmts(DropLast(ss), st))
  }

  /** The slots written by a list of instructions, in order. */
  function WrittenSlots(instrs: seq<T.Instr>): seq<T.Operand>
    decreases |instrs|
  {
    if instrs == [] then []
    else WrittenSlots(DropLast(instrs)) + (if T.Writes(Last(instrs)) then [Last(instrs).dest] else [])
  }

  lemma {:induction false} WrittenSlotsAppend(a: seq<T.Instr>, b: seq<T.Instr>)
    ensures WrittenSlots(a + b) == WrittenSlots(a) + WrittenSlots(b)
    decreases |b|
  {
    if b == [] {
      assert a + b == a;
    } else {
      assert DropLast(a + b) == a + DropLast(b);
      assert Last(a + b) == Last(b);
      WrittenSlotsAppend(a, DropLast(b));
    }
  }

  /** The instructions have written slots `0`, `1`, ... up to `counter`, each once and in that
      order. */
  predicate SlotsInOrder(instrs: seq<T.Instr>, counter: nat) {
    && |WrittenSlots(instrs)| == counter
    && forall k :: 0 <= k < counter ==> WrittenSlots(instrs)[k] == Some(k)
  }

  /** Every variable is bound to null or to a slot below `counter`. */
  predicate BoundBelow(vars: map<string, T.Operand>, counter: nat) {
    forall x :: x in vars && vars[x].Some? ==> vars[x].value < counter
  }

  /** Every instruction reads only slots written by the instructions before it (or a null
      operand). */
  predicate DefBeforeUse(instrs: seq<T.Instr>) {
    forall k, o :: 0 <= k < |instrs| && o in T.Sources(instrs[k]) && o.Some? ==>
      o.value < |WrittenSlots(instrs[..k])|
  }

  /** The invariant of the generator's state. */
  predicate Consistent(st: State) {
    SlotsInOrder(st.instrs, st.counter) && BoundBelow(st.vars, st.counter) && DefBeforeUse(st.instrs)
  }

  lemma StartConsistent()
    ensures Consistent(Start())
  {
  }

  /** Code that writes the next slots in order extends the written slots in order. */
  lemma {:induction false} AppendSlotsInOrder(instrs: seq<T.Instr>, counter: nat, code: seq<T.Instr>)
    requires SlotsInOrder(instrs, counter)
    requires forall k :: 0 <= k < |code| ==> T.Writes(code[k]) && code[k].dest == Some(counter + k)
    ensures SlotsInOrder(instrs + code, counter + |code|)
    decreases |code|
  {
    if code != [] {
      var init := DropLast(code);
      AppendSlotsInOrder(instrs, counter, init);
      assert instrs + code == (instrs + init) + [Last(code)];
      WrittenSlotsAppend(instrs + init, [Last(code)]);
      assert WrittenSlots([Last(code)]) == [Some(counter + |init|)];
    } else {
      assert instrs + code == instrs;
    }
  }

  /** An instruction reading only slots already written keeps definition before use. */
  lemma AppendOne(instrs: seq<T.Instr>, i: T.Instr)
    requires DefBeforeUse(instrs)
    requires forall o :: o in T.Sources(i) && o.Some? ==> o.value < |WrittenSlots(instrs)|
    ensures DefBeforeUse(instrs + [i])
  {
    var all := instrs + [i];
    forall k, o | 0 <= k < |all| && o in T.Sources(all[k]) && o.Some?
      ensures o.value < |WrittenSlots(all[..k])|
    {
      if k < |instrs| {
        assert all[..k] == instrs[..k];
        assert all[k] == instrs[k];
      } else {
        assert all[..k] == instrs;
      }
    }
  }

  /** Appending code whose instructions read only variables' slots and the slots written
      before them keeps definition before use. */
  lemma {:induction false} AppendCode(instrs: seq<T.Instr>, vars: map<string, T.Operand>, counter: nat, r: Lowered)
    requires SlotsInOrder(instrs, counter) && BoundBelow(vars, counter) && DefBeforeUse(instrs)
    requires forall k :: 0 <= k < |r.code| ==> T.Writes(r.code[k]) && r.code[k].dest == Some(counter + k)
    requires forall k, o :: 0 <= k < |r.code| && o in T.Sources(r.code[k]) ==> Available(o, vars, counter, counter + k)
    ensures DefBeforeUse(instrs + r.code)
    decreases |r.code|
  {
    if r.code != [] {
      var j := |r.code| - 1;
      var init := DropLast(r.code);
      AppendCode(instrs, vars, counter, r.(code := init));
      AppendSlotsInOrder(instrs, counter, init);
      forall o | o in T.Sources(r.code[j]) && o.Some?
        ensures o.value < |WrittenSlots(instrs + init)|
      {
        AvailableBelow(o, vars, counter, counter + j);
      }
      AppendOne(instrs + init, r.code[j]);
      assert instrs + init + [r.code[j]] == instrs + r.code;
    } else {
      assert instrs + r.code == instrs;
    }
  }

  /** Appending the code of an expression keeps the state consistent, and the expression's
      value is null or in a slot already written. */
  lemma AppendExprCode(st: State, e: Expr)
    requires Consistent(st)
    ensures var r := LowerExpr(e, st.vars, st.counter);
            && Consistent(State(r.next, st.vars, st.instrs + r.code))
            && (r.dest.Some? ==> r.dest.value < r.next)
  {
    LowerExprReadsEarlierSlots(e, st.vars, st.counter);
    AppendLowered(st, LowerExpr(e, st.vars, st.counter));
  }

  lemma AppendLowered(st: State, r: Lowered)
    requires Consistent(st)
    requires r.next == st.counter + |r.code|
    requires forall k :: 0 <= k < |r.code| ==> T.Writes(r.code[k]) && r.code[k].dest == Some(st.counter + k)
    requires ReadsEarlier(r, st.vars, st.counter)
    ensures Consistent(State(r.next, st.vars, st.instrs + r.code))
    ensures r.dest.Some? ==> r.dest.value < r.next
  {
    AppendSlotsInOrder(st.instrs, st.counter, r.code);
    AppendCode(st.instrs, st.vars, st.counter, r);
    AvailableBelow(r.dest, st.vars, st.counter, r.next);
  }

  /** An available operand is null or below the next free slot. */
  lemma AvailableBelow(o: T.Operand, vars: map<string, T.Operand>, counter: nat, next: nat)
    requires BoundBelow(vars, counter) && counter <= next && Available(o, vars, counter, next)
    ensures o.Some? ==> o.value < next
  {
    if o.Some? && o in vars.Values {
      var x :| x in vars && vars[x] == o;
    }
  }

  /** Lowering a statement keeps the generator's state consistent. */
  lemma LowerStmtConsistent(s: Stmt, st: State)
    requires Consistent(st)
    ensures Consistent(LowerStmt(s, st))
  {
    match s
    case Move(d, e) =>
      AppendExprCode(st, e);
    case Print(e) =>
      var r := LowerExpr(e, st.vars, st.counter);
      AppendExprCode(st, e);
      AppendPrint(State(r.next, st.vars, st.instrs + r.code), r.dest);
      assert LowerStmt(s, st) == State(r.next, st.vars, st.instrs + r.code + [T.Print(r.dest)]);
    case IfElse(_, _, _) =>
    case While(_, _) =>
  }

  /** A `Print` of a written slot (or of null) keeps the state consistent. */
  lemma AppendPrint(st: State, o: T.Operand)
    requires Consistent(st)
    requires o.Some? ==> o.value < st.counter
    ensures Consistent(st.(instrs := st.instrs + [T.Print(o)]))
  {
    assert T.Sources(T.Print(o)) == [o];
    AppendOne(st.instrs, T.Print(o));
    WrittenSlotsAppend(st.instrs, [T.Print(o)]);
    assert WrittenSlots([T.Print(o)]) == [];
  }

  /** Lowering a whole program keeps the state consistent. */
  lemma {:induction false} LowerStmtsConsistent(ss: seq<Stmt>, st: State)
    requires Consistent(st)
    ensures Consistent(LowerStmts(ss, st))
    decreases |ss|
  {
    if ss != [] {
      LowerStmtsConsistent(DropLast(ss), st);
      LowerStmtConsistent(Last(ss), LowerStmts(DropLast(ss), st));
    }
  }

  /** Lowering a statement only appends instructions: one per slot allocated, plus, for a
      `print`, a final `Print` of its argument's slot; the state before is kept as a prefix.
      `if` and `while` statements change nothing. */
  lemma LowerStmtAppends(s: Stmt, st: State)
    ensures var st' := LowerStmt(s, st);
            && st'.counter >= st.counter
            && st'.instrs[..|st.instrs|] == st.instrs
            && |st'.instrs| == |st.instrs| + (st'.counter - st.counter) + (if s.Print? then 1 else 0)
            && (s.Print? ==> Last(st'.instrs) == T.Print(LowerExpr(s.arg, st.vars, st.counter).dest))
            && (s.IfElse? || s.While? ==> st' == st)
  {
    var st' := LowerStmt(s, st);
    assert st'.instrs[..|st.instrs|] == st.instrs;
  }

  /** An assignment rebinds its target alone; a `print` binds nothing. */
  lemma LowerStmtBindings(s: Stmt, st: State)
    ensures var st' := LowerStmt(s, st);
            && (s.Move? ==> st'.vars == st.vars[s.dest.name := LowerExpr(s.source, st.vars, st.counter).dest])
            && (!s.Move? ==> st'.vars == st.vars)
  {
  }

  /** Main's generator: the three static fields, updated in place. */
  class Generator {
    var varCounter: nat
    var vars: map<string, T.Operand>
    var instrs: seq<T.Instr>

    function Snapshot(): State
      reads this
    {
      State(varCounter, vars, instrs)
    }

    constructor()
      ensures Snapshot() == Start()
    {
      varCounter := 0;
      vars := map[];
      instrs := [];
    }

    /** `genInstrsFromExpr` */
    method GenInstrsFromExpr(e: Expr) returns (dest: T.Operand)
      modifies this
      ensures var r := LowerExpr(e, old(vars), old(varCounter));
              && dest == r.dest
              && Snapshot() == State(r.next, old(vars), old(instrs) + r.code)
      decreases e
    {
      match e
      case Immediate(v) =>
        dest := Some(varCounter);
        varCounter := varCounter + 1;
        instrs := instrs + [T.MoveImm(dest, v)];
      case Read(d, _) =>
        dest := if d.name in vars then vars[d.name] else None;
      case UnopApp(op, a) =>
        var argDest := GenInstrsFromExpr(a);
        dest := Some(varCounter);
        varCounter := varCounter + 1;
        instrs := instrs + [T.MoveUnop(dest, op, argDest)];
      case BinopApp(l, op, rt) =>
        ghost var rl := LowerExpr(l, vars, varCounter);
        ghost var rr := LowerExpr(rt, vars, rl.next);
        var leftDest := GenInstrsFromExpr(l);
        var rightDest := GenInstrsFromExpr(rt);
        dest := Some(varCounter);
        varCounter := varCounter + 1;
        instrs := instrs + [T.MoveBinop(dest, leftDest, op, rightDest)];
        assert instrs == old(instrs) + (rl.code + rr.code + [T.MoveBinop(dest, leftDest, op, rightDest)]);
      case BoolOp(_, _, _) =>
        dest := None;
      case Comparison(_, _, _) =>
        dest := None;
    }

    /** `generateInstructions` */
    method GenerateInstructions(s: Stmt)
      modifies this
      ensures Snapshot() == LowerStmt(s, old(Snapshot()))
    {
      match s
      case Move(d, e) =>
        var dest := GenInstrsFromExpr(e);
        vars := vars[d.name := dest];
      case Print(e) =>
        var dest := GenInstrsFromExpr(e);
        instrs := instrs + [T.Print(dest)];
      case IfElse(_, _, _) =>
      case While(_, _) =>
    }

    /** The loop of `main` over the statements of a program. */
    method GenerateAll(ss: seq<Stmt>)
      modifies this
      ensures Snapshot() == LowerStmts(ss, old(Snapshot()))
    {
      var i := 0;
      while i < |ss|
        invariant 0 <= i <= |ss|
        invariant Snapshot() == LowerStmts(ss[..i], old(Snapshot()))
      {
        assert DropLast(ss[..i + 1]) == ss[..i];
        GenerateInstructions(ss[i]);
        i := i + 1;
      }
      assert ss[..i] == ss;
    }
  }
}
