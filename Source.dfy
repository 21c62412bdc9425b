/**
 * The source side of the BX0 abstract syntax (`Ast.Source`): operators and their x86-64
 * mnemonics, types and their storage sizes, expressions with their type inference, and
 * statements, variable declarations and programs as the AST builder produces them.
 */
module Source {
  import opened Base

  /** A variable named as the destination of an assignment or by a read. */
  datatype Dest = Dest(name: string)

  datatype Binop =
    | Add | Subtract | Multiply | Divide | Modulus
    | BitAnd | BitOr | BitXor | Lshift | Rshift

  /** The x86-64 mnemonic that implements a binary operator. */
  function BinopInstr(op: Binop): (r: string)
    ensures |r| >= 3 && Last(r) == 'q'
  {
    match op
    case Add => "addq"
    case Subtract => "subq"
    case Multiply => "imulq"
    case Divide => "idivq"
    case Modulus => "idivq"
    case BitAnd => "andq"
    case BitOr => "orq"
    case BitXor => "xorq"
    case Lshift => "salq"
    case Rshift => "sarq"
  }

  /** Two operators share a mnemonic exactly when they are the same operator or are division and modulus. */
  lemma BinopInstrCollisions(a: Binop, b: Binop)
    ensures BinopInstr(a) == BinopInstr(b) <==>
            a == b || ((a.Divide? || a.Modulus?) && (b.Divide? || b.Modulus?))
  {
  }

  datatype Unop = Negate | BitNot

  /** The x86-64 mnemonic that implements a unary operator. */
  function UnopInstr(op: Unop): (r: string)
    ensures |r| == 4 && Last(r) == 'q'
  {
    match op
    case Negate => "negq"
    case BitNot => "notq"
  }

  /** The two unary operators have different mnemonics. */
  lemma UnopInstrInjective(a: Unop, b: Unop)
    ensures UnopInstr(a) == UnopInstr(b) <==> a == b
  {
  }

  datatype BoolOpKind = AND | OR

  datatype ComparisonOp = EQ | NEQ | LT | LEQ | GT | GEQ

  /** A basic type: its printed label and its size as declared by the source. */
  datatype Type = BasicType(typeName: string, size: int)

  const Int64Type: Type := BasicType("int64", 64)
  const BoolType: Type := BasicType("bool", 1)

  /** The bytes a value of the type occupies: its size, but never less than one 8-byte slot. */
  function StorageSize(t: Type): (r: int)
    ensures r >= 8 && r >= t.size
    ensures r == 8 || r == t.size
    ensures t == BoolType ==> r == 8
    ensures t == Int64Type ==> r == 64
  {
    if t.size >= 8 then t.size else 8
  }

  /**
   * Expressions. A `Read` carries its mutable `type` field (`None` for Java's null); every
   * other node's type is fixed by its constructor, which is what `NodeType` gives.
   */
  datatype Expr =
    | Immediate(value: int32)
    | Read(dest: Dest, ty: Option<Type>)
    | UnopApp(uop: Unop, arg: Expr)
    | BinopApp(left: Expr, bop: Binop, right: Expr)
    | BoolOp(left: Expr, kind: BoolOpKind, right: Expr)
    | Comparison(left: Expr, cop: ComparisonOp, right: Expr)

  /** `getType()`: the node's type field. */
  function NodeType(e: Expr): (r: Option<Type>)
    ensures e.Read? ==> r == e.ty
    ensures !e.Read? ==> r.Some?
    ensures !e.Read? ==> (r == Some(Int64Type) <==> e.Immediate? || e.UnopApp? || e.BinopApp?)
    ensures !e.Read? ==> (r == Some(BoolType) <==> e.BoolOp? || e.Comparison?)
  {
    match e
    case Immediate(_) => Some(Int64Type)
    case Read(_, ty) => ty
    case UnopApp(_, _) => Some(Int64Type)
    case BinopApp(_, _, _) => Some(Int64Type)
    case BoolOp(_, _, _) => Some(BoolType)
    case Comparison(_, _, _) => Some(BoolType)
  }

  /** The tree with every read's type field cleared: what type checking may not change. */
  function Erase(e: Expr): Expr {
    match e
    case Immediate(_) => e
    case Read(d, _) => Read(d, None)
    case UnopApp(op, a) => UnopApp(op, Erase(a))
    case BinopApp(l, op, r) => BinopApp(Erase(l), op, Erase(r))
    case BoolOp(l, op, r) => BoolOp(Erase(l), op, Erase(r))
    case Comparison(l, op, r) => Comparison(Erase(l), op, Erase(r))
  }

  datatype Stmt =
    | Move(dest: Dest, source: Expr)
    | Print(arg: Expr)
    | IfElse(condition: Expr, thenBranch: seq<Stmt>, elseBranch: ElseBranch)
    | While(condition: Expr, body: seq<Stmt>)

  /** An `if`'s else list; `NoElse` is the null list of an `if` without `else`. */
  datatype ElseBranch = NoElse | ElseBlock(stmts: seq<Stmt>)

  /** A declared variable: its type, its initialiser (if any) and its position in declaration order. */
  datatype VarDecl = VarDecl(ty: Type, initialValue: Option<Expr>, order: int)

  datatype Prog = Prog(statements: seq<Stmt>, vars: map<string, VarDecl>)

  // ----- Type inference -----

  /**
   * A key handed to Java's `Map.get`. The declaration table is keyed by `String`; a `Dest`
   * object does not override `equals`, so it is equal only to itself.
   */
  datatype JavaKey = StringKey(chars: string) | DestKey(dest: Dest)

  /** `key.equals(other)` */
  predicate JavaEquals(key: JavaKey, other: JavaKey) {
    match key
    case StringKey(s) => other.StringKey? && other.chars == s
    case DestKey(_) => other == key
  }

  /** `vars.get(key)`: the declaration stored under a string equal to the key, or null. */
  function MapGet(vars: map<string, VarDecl>, key: JavaKey): (r: Option<VarDecl>)
    ensures r.Some? <==> exists s :: s in vars && JavaEquals(key, StringKey(s))
    ensures r.Some? ==> key.StringKey? && r.value == vars[key.chars]
  {
    if key.StringKey? && key.chars in vars then Some(vars[key.chars]) else None
  }

  /**
   * Which key `Read.typeCheck` looks its variable up by: the `Dest` object itself, as the
   * code does, or the variable's name, as the declaration table's keys are.
   */
  datatype KeyChoice = DestObjectKey | VarNameKey

  function ReadKey(d: Dest, choice: KeyChoice): JavaKey {
    match choice
    case DestObjectKey => DestKey(d)
    case VarNameKey => StringKey(d.name)
  }

  /** What `typeCheck` returns, together with the tree as it stands afterwards. */
  datatype Checked = Checked(ty: Option<Type>, expr: Expr)

  /**
   * `typeCheck(vars)`: recurses into every operand, and returns the node's own type field;
   * a read first overwrites its field with the declared type when the lookup finds one.
   */
  function TypeCheck(e: Expr, vars: map<string, VarDecl>, choice: KeyChoice): (r: Checked)
    ensures r.ty == NodeType(r.expr)
    ensures Erase(r.expr) == Erase(e)
    ensures !e.Read? ==> r.ty == NodeType(e)
  {
    match e
    case Immediate(_) => Checked(NodeType(e), e)
    case Read(d, _) =>
      var found := MapGet(vars, ReadKey(d, choice));
      var e' := if found.Some? then Read(d, Some(found.value.ty)) else e;
      Checked(NodeType(e'), e')
    case UnopApp(op, a) =>
      var e' := UnopApp(op, TypeCheck(a, vars, choice).expr);
      Checked(NodeType(e'), e')
    case BinopApp(l, op, r) =>
      var l' := TypeCheck(l, vars, choice).expr;
      var r' := TypeCheck(r, vars, choice).expr;
      var e' := BinopApp(l', op, r');
      Checked(NodeType(e'), e')
    case BoolOp(l, op, r) =>
      var l' := TypeCheck(l, vars, choice).expr;
      var r' := TypeCheck(r, vars, choice).expr;
      var e' := BoolOp(l', op, r');
      Checked(NodeType(e'), e')
    case Comparison(l, op, r) =>
      var l' := TypeCheck(l, vars, choice).expr;
      var r' := TypeCheck(r, vars, choice).expr;
      var e' := Comparison(l', op, r');
      Checked(NodeType(e'), e')
  }

  /** Every node kind but a read reports the same type whatever its operands are. */
  lemma TypeCheckFixedTypes(e: Expr, vars: map<string, VarDecl>, choice: KeyChoice)
    ensures (e.Immediate? || e.UnopApp? || e.BinopApp?) ==> TypeCheck(e, vars, choice).ty == Some(Int64Type)
    ensures (e.BoolOp? || e.Comparison?) ==> TypeCheck(e, vars, choice).ty == Some(BoolType)
  {
  }

  /** A read takes the declared type when the lookup finds a declaration and keeps its old type otherwise. */
  lemma ReadTypeCheck(d: Dest, ty: Option<Type>, vars: map<string, VarDecl>, choice: KeyChoice)
    ensures var found := MapGet(vars, ReadKey(d, choice));
            TypeCheck(Read(d, ty), vars, choice).ty == if found.Some? then Some(found.value.ty) else ty
  {
  }

  /** As written, the lookup by `Dest` object never finds a declaration, whatever the table holds. */
  lemma DestKeyNeverFound(d: Dest, vars: map<string, VarDecl>)
    ensures MapGet(vars, ReadKey(d, DestObjectKey)) == None
  {
  }

  /** As written, type checking changes no node: every read keeps the type it had. */
  lemma {:induction false} TypeCheckAsWrittenChangesNothing(e: Expr, vars: map<string, VarDecl>)
    ensures TypeCheck(e, vars, DestObjectKey).expr == e
    ensures TypeCheck(e, vars, DestObjectKey).ty == NodeType(e)
  {
    match e
    case Immediate(_) =>
    case Read(_, _) =>
    case UnopApp(_, a) =>
      TypeCheckAsWrittenChangesNothing(a, vars);
    case BinopApp(l, _, r) =>
      TypeCheckAsWrittenChangesNothing(l, vars);
      TypeCheckAsWrittenChangesNothing(r, vars);
    case BoolOp(l, _, r) =>
      TypeCheckAsWrittenChangesNothing(l, vars);
      TypeCheckAsWrittenChangesNothing(r, vars);
    case Comparison(l, _, r) =>
      TypeCheckAsWrittenChangesNothing(l, vars);
      TypeCheckAsWrittenChangesNothing(r, vars);
  }

  /** A declared boolean variable read as written still has no type after type checking. */
  lemma DeclaredReadStaysUntyped()
    ensures var vars := map["x" := VarDecl(BoolType, None, 0)];
            "x" in vars && TypeCheck(Read(Dest("x"), None), vars, DestObjectKey).ty == None
  {
  }

  /**
   * `after` is `before` with every read of a declared variable given its declared type and
   * every other read left as it was.
   */
  predicate Annotated(before: Expr, after: Expr, vars: map<string, VarDecl>) {
    match before
    case Immediate(_) => after == before
    case Read(d, ty) =>
      after == Read(d, if d.name in vars then Some(vars[d.name].ty) else ty)
    case UnopApp(op, a) =>
      after.UnopApp? && after.uop == op && Annotated(a, after.arg, vars)
    case BinopApp(l, op, r) =>
      after.BinopApp? && after.bop == op && Annotated(l, after.left, vars) && Annotated(r, after.right, vars)
    case BoolOp(l, op, r) =>
      after.BoolOp? && after.kind == op && Annotated(l, after.left, vars) && Annotated(r, after.right, vars)
    case Comparison(l, op, r) =>
      after.Comparison? && after.cop == op && Annotated(l, after.left, vars) && Annotated(r, after.right, vars)
  }

  /** Looked up by name, type checking reaches every read in every operand and gives it its declared type. */
  lemma {:induction false} TypeCheckByNameAnnotates(e: Expr, vars: map<string, VarDecl>)
    ensures Annotated(e, TypeCheck(e, vars, VarNameKey).expr, vars)
  {
    match e
    case Immediate(_) =>
    case Read(_, _) =>
    case UnopApp(_, a) =>
      TypeCheckByNameAnnotates(a, vars);
    case BinopApp(l, _, r) =>
      TypeCheckByNameAnnotates(l, vars);
      TypeCheckByNameAnnotates(r, vars);
    case BoolOp(l, _, r) =>
      TypeCheckByNameAnnotates(l, vars);
      TypeCheckByNameAnnotates(r, vars);
    case Comparison(l, _, r) =>
      TypeCheckByNameAnnotates(l, vars);
      TypeCheckByNameAnnotates(r, vars);
  }

  /** Checking a tree a second time changes neither the tree nor the reported type. */
  lemma {:induction false} TypeCheckIdempotent(e: Expr, vars: map<string, VarDecl>, choice: KeyChoice)
    ensures TypeCheck(TypeCheck(e, vars, choice).expr, vars, choice) == TypeCheck(e, vars, choice)
  {
    match e
    case Immediate(_) =>
    case Read(_, _) =>
    case UnopApp(_, a) =>
      TypeCheckIdempotent(a, vars, choice);
    case BinopApp(l, _, r) =>
      TypeCheckIdempotent(l, vars, choice);
      TypeCheckIdempotent(r, vars, choice);
    case BoolOp(l, _, r) =>
      TypeCheckIdempotent(l, vars, choice);
      TypeCheckIdempotent(r, vars, choice);
    case Comparison(l, _, r) =>
      TypeCheckIdempotent(l, vars, choice);
      TypeCheckIdempotent(r, vars, choice);
  }
}
