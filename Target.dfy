/**
 * The target language (`Ast.Target`): pseudo-instructions over numbered stack slots, and their
 * rendering as AMD64 assembly in AT&T syntax (`toAmd64`, `getStackSlot`).
 *
 * A `Target.Dest` is a reference that may be null; here an operand is `Option<nat>`, the slot
 * number of the `Dest` or `None` for null. Rendering an instruction with a null operand throws
 * a `NullPointerException` in Java; `ToAmd64` answers `None` for it.
 */
module Target {
  import opened Base
  import opened Decimal
  import opened Source

  /** An operand: the stack slot it names, or `None` for a null `Dest`. */
  type Operand = Option<nat>

  datatype Instr =
    | MoveImm(dest: Operand, imm: int32)
    | MoveCp(dest: Operand, source: Operand)
    | MoveBinop(dest: Operand, leftArg: Operand, op: Binop, rightArg: Operand)
    | MoveUnop(dest: Operand, uop: Unop, arg: Operand)
    | Print(src: Operand)
    | Comment(comment: string)

  /** The operands an instruction renders, in the order `toAmd64` reads them. */
  function Operands(i: Instr): (r: seq<Operand>)
    ensures |r| == |Sources(i)| + (if Writes(i) then 1 else 0)
    ensures Writes(i) ==> r[|r| - 1] == i.dest
    ensures forall o :: o in Sources(i) ==> o in r
  {
    match i
    case MoveImm(d, _) => [d]
    case MoveCp(d, s) => [s, d]
    case MoveBinop(d, l, op, r) => if op == Lshift || op == Rshift then [r, l, d] else [l, r, d]
    case MoveUnop(d, _, a) => [a, d]
    case Print(s) => [s]
    case Comment(_) => []
  }

  /** The operands an instruction reads (every operand but the one it writes). */
  function Sources(i: Instr): seq<Operand> {
    match i
    case MoveImm(_, _) => []
    case MoveCp(_, s) => [s]
    case MoveBinop(_, l, _, r) => [l, r]
    case MoveUnop(_, _, a) => [a]
    case Print(s) => [s]
    case Comment(_) => []
  }

  /** No operand the instruction renders is null. */
  predicate NonNull(i: Instr) {
    match i
    case MoveImm(d, _) => d.Some?
    case MoveCp(d, s) => d.Some? && s.Some?
    case MoveBinop(d, l, _, r) => d.Some? && l.Some? && r.Some?
    case MoveUnop(d, _, a) => d.Some? && a.Some?
    case Print(s) => s.Some?
    case Comment(_) => true
  }

  /** `NonNull` says exactly that every operand `toAmd64` reads is present. */
  lemma NonNullMeansEveryOperandPresent(i: Instr)
    ensures NonNull(i) <==> forall k :: 0 <= k < |Operands(i)| ==> Operands(i)[k].Some?
  {
    var ops := Operands(i);
    match i
    case MoveBinop(d, l, op, r) =>
      if op == Lshift || op == Rshift {
        assert ops[0] == r && ops[1] == l && ops[2] == d;
      } else {
        assert ops[0] == l && ops[1] == r && ops[2] == d;
      }
    case MoveImm(d, _) => assert ops[0] == d;
    case MoveCp(d, src) => assert ops[0] == src && ops[1] == d;
    case MoveUnop(d, _, a) => assert ops[0] == a && ops[1] == d;
    case Print(src) => assert ops[0] == src;
    case Comment(_) => assert ops == [];
  }

  /** The instruction writes a slot (every kind except `Print` and `Comment`). */
  predicate Writes(i: Instr) {
    i.MoveImm? || i.MoveCp? || i.MoveBinop? || i.MoveUnop?
  }

  // ----- Stack slots -----

  const RSP: string := "(%rsp)"

  /** `getStackSlot`: slot `loc` is `8*loc` bytes above `%rsp`, with the product computed in
      32-bit `int` arithmetic. */
  function StackSlot(loc: nat): (r: string)
    ensures EndsWith(r, RSP)
    ensures r == RSP <==> loc == 0
  {
    if loc == 0 then RSP else IntToDecimal(WrapInt32(loc * 8)) + RSP
  }

  /** Reads an address written as `getStackSlot` writes one back to its slot number. */
  function ParseStackSlot(s: string): Option<nat> {
    if s == RSP then Some(0)
    else if |s| <= |RSP| || s[|s| - |RSP|..] != RSP then None
    else
      var offset := s[..|s| - |RSP|];
      if !IsDigits(offset) || offset[0] == '0' then None
      else
        var bytes := DecimalValue(offset);
        if bytes % 8 != 0 then None else Some(bytes / 8)
  }

  /** Offsets below 2^31 bytes fit the 32-bit product. */
  const SLOT_LIMIT: nat := 0x1000_0000

  /** For every slot whose byte offset fits in an `int`, the address reads back as that slot. */
  lemma StackSlotRoundTrip(loc: nat)
    requires loc < SLOT_LIMIT
    ensures ParseStackSlot(StackSlot(loc)) == Some(loc)
  {
    if loc > 0 {
      var s := StackSlot(loc);
      assert WrapInt32(loc * 8) == loc * 8;
      var digits := NatToDecimal(loc * 8);
      assert s == digits + RSP;
      assert s[..|s| - |RSP|] == digits;
      DecimalRoundTrip(loc * 8);
    }
  }

  /** Distinct slots below the limit get distinct addresses. */
  lemma StackSlotInjective(a: nat, b: nat)
    requires a < SLOT_LIMIT && b < SLOT_LIMIT
    ensures StackSlot(a) == StackSlot(b) ==> a == b
  {
    StackSlotRoundTrip(a);
    StackSlotRoundTrip(b);
  }

  /** Beyond the limit the 32-bit product wraps: slot 2^28 is written at a negative offset. */
  lemma StackSlotNegativeAtLimit()
    ensures StackSlot(SLOT_LIMIT)[0] == '-'
  {
    assert WrapInt32(SLOT_LIMIT * 8) == INT32_MIN;
  }

  /** Beyond the limit the 32-bit product wraps: slots 2^29 apart share an address. */
  lemma StackSlotWrapsAround(loc: nat)
    requires loc > 0
    ensures StackSlot(loc + 2 * SLOT_LIMIT) == StackSlot(loc)
  {
    var x := loc * 8;
    assert (loc + 2 * SLOT_LIMIT) * 8 == x + INT32_MODULUS;
    assert (x + INT32_MODULUS) % INT32_MODULUS == x % INT32_MODULUS;
  }

  // ----- Rendering -----

  /** One AT&T line with two operands, `mnemonic src, dst`. */
  function Op2(mnemonic: string, src: string, dst: string): string {
    mnemonic + " " + src + ", " + dst
  }

  /** One AT&T line with one operand, `mnemonic arg`. */
  function Op1(mnemonic: string, arg: string): string {
    mnemonic + " " + arg
  }

  /** Lines as the templates join them: separated by a newline and a tab. */
  function JoinLines(lines: seq<string>): string
    requires |lines| >= 1
  {
    if |lines| == 1 then lines[0] else JoinLines(DropLast(lines)) + "\n\t" + Last(lines)
  }

  /** The lines the templates of `toAmd64` write for an instruction, given how a slot number
      is written (`getStackSlot` in the program, see `AsmLines`); `None` where the template
      dereferences a null operand. */
  function TemplateLines(i: Instr, slot: nat -> string): (r: Option<seq<string>>)
    ensures r.Some? <==> NonNull(i)
    ensures r.Some? ==> |r.value| >= 1
  {
    match i
    case MoveImm(d, imm) =>
      if d.None? then None
      else Some([Op2("movq", "$" + IntToDecimal(imm), slot(d.value))])
    case MoveCp(d, s) =>
      if s.None? || d.None? then None
      else Some([Op2("movq", slot(s.value), "%r11"), Op2("movq", "%r11", slot(d.value))])
    case MoveBinop(d, l, op, rr) =>
      if l.None? || rr.None? || d.None? then None
      else Some(BinopLines(slot(d.value), slot(l.value), op, slot(rr.value)))
    case MoveUnop(d, op, a) =>
      if a.None? || d.None? then None
      else Some([Op2("movq", slot(a.value), "%r11"), Op1(UnopInstr(op), "%r11"),
                 Op2("movq", "%r11", slot(d.value))])
    case Print(s) =>
      if s.None? then None
      else Some([Op2("movq", slot(s.value), "%rdi"), Op1("callq", "bx0_print")])
    case Comment(c) => Some(["# " + c])
  }

  /** The lines of `MoveBinop.toAmd64` for each operator, given the rendered slots. */
  function BinopLines(dest: string, left: string, op: Binop, right: string): (r: seq<string>)
    ensures |r| >= 3
  {
    match op
    case Multiply =>
      [Op2("movq", left, "%rax"), Op1(BinopInstr(op), right), Op2("movq", "%rax", dest)]
    case Divide =>
      [Op2("movq", left, "%rax"), "cqto", Op1(BinopInstr(op), right), Op2("movq", "%rax", dest)]
    case Modulus =>
      [Op2("movq", left, "%rax"), "cqto", Op1(BinopInstr(op), right), Op2("movq", "%rdx", dest)]
    case Lshift =>
      [Op2("movb", right, "%cl"), Op2("movq", left, "%r11"), Op2(BinopInstr(op), "%cl", "%r11"),
       Op2("movq", "%r11", dest)]
    case Rshift =>
      [Op2("movb", right, "%cl"), Op2("movq", left, "%r11"), Op2(BinopInstr(op), "%cl", "%r11"),
       Op2("movq", "%r11", dest)]
    case _ =>
      [Op2("movq", left, "%r11"), Op2(BinopInstr(op), right, "%r11"), Op2("movq", "%r11", dest)]
  }

  /** The rendering: the lines joined; `Print` ends with a newline of its own. */
  function Render(i: Instr, slot: nat -> string): (r: Option<string>)
    ensures r.Some? <==> NonNull(i)
  {
    if !NonNull(i) then None
    else
      var text := JoinLines(TemplateLines(i, slot).value);
      Some(if i.Print? then text + "\n" else text)
  }

  /** The lines `toAmd64` writes. */
  function AsmLines(i: Instr): Option<seq<string>> {
    TemplateLines(i, StackSlot)
  }

  /** `toAmd64`; `None` stands for the `NullPointerException` of a null operand. */
  function ToAmd64(i: Instr): (r: Option<string>)
    ensures r.Some? <==> NonNull(i)
  {
    Render(i, StackSlot)
  }

  /** Where the result sits when the last line stores it. */
  function ResultSource(i: Instr): string
    requires Writes(i)
  {
    match i
    case MoveImm(_, imm) => "$" + IntToDecimal(imm)
    case MoveBinop(_, _, op, _) => ResultRegister(op)
    case _ => "%r11"
  }

  /** The register a binary operation leaves its result in. */
  function ResultRegister(op: Binop): string {
    if op == Multiply || op == Divide then "%rax" else if op == Modulus then "%rdx" else "%r11"
  }

  /** The register the first line loads into. */
  function FirstLineTarget(i: Instr): string {
    if i.MoveBinop? && (i.op == Lshift || i.op == Rshift) then "%cl"
    else if i.MoveBinop? && i.op in {Multiply, Divide, Modulus} then "%rax"
    else if i.Print? then "%rdi" else "%r11"
  }

  /** Shifts take their count first, into `%cl`. */
  predicate IsShift(i: Instr) {
    i.MoveBinop? && (i.op == Lshift || i.op == Rshift)
  }

  predicate EndsWith(s: string, suffix: string) {
    |s| >= |suffix| && s[|s| - |suffix|..] == suffix
  }

  predicate StartsWith(s: string, prefix: string) {
    |s| >= |prefix| && s[..|prefix|] == prefix
  }

  lemma EndsWithConcat(a: string, b: string)
    ensures EndsWith(a + b, b)
  {
    assert (a + b)[|a + b| - |b|..] == b;
  }

  lemma EndsWithTransitive(s: string, t: string, u: string)
    requires EndsWith(s, t) && EndsWith(t, u)
    ensures EndsWith(s, u)
  {
    assert s[|s| - |u|..] == t[|t| - |u|..];
  }

  lemma StartsWithConcat(a: string, b: string)
    ensures StartsWith(a + b, a)
  {
    assert (a + b)[..|a|] == a;
  }

  lemma StartsWithTransitive(s: string, t: string, u: string)
    requires StartsWith(s, t) && StartsWith(t, u)
    ensures StartsWith(s, u)
  {
    assert s[..|u|] == t[..|u|];
  }

  lemma Op2Ends(m: string, src: string, dst: string)
    ensures EndsWith(Op2(m, src, dst), ", " + dst)
  {
    assert Op2(m, src, dst) == (m + " " + src) + (", " + dst);
    EndsWithConcat(m + " " + src, ", " + dst);
  }

  lemma Op2Starts(m: string, src: string, dst: string)
    ensures StartsWith(Op2(m, src, dst), m + " " + src + ", ")
  {
    StartsWithConcat(m + " " + src + ", ", dst);
  }

  lemma Op1Starts(m: string, arg: string)
    ensures StartsWith(Op1(m, arg), m + " ")
  {
    StartsWithConcat(m + " ", arg);
  }

  /** The joined text ends with the last line. */
  lemma JoinEndsWithLast(lines: seq<string>)
    requires |lines| >= 1
    ensures EndsWith(JoinLines(lines), Last(lines))
  {
    if |lines| > 1 {
      EndsWithConcat(JoinLines(DropLast(lines)) + "\n\t", Last(lines));
    }
  }

  /** Lines whose last one stores into `dest` join into a text that ends with it. */
  lemma JoinedEndsWithStore(lines: seq<string>, src: string, dest: string)
    requires |lines| >= 1 && Last(lines) == Op2("movq", src, dest)
    ensures EndsWith(JoinLines(lines), ", " + dest)
  {
    JoinEndsWithLast(lines);
    Op2Ends("movq", src, dest);
    EndsWithTransitive(JoinLines(lines), Last(lines), ", " + dest);
  }

  /** Lines whose first one loads `src` join into a text that starts with that load, with or
      without a newline after it. */
  lemma JoinedStartsWithLoad(lines: seq<string>, m: string, src: string, reg: string)
    requires |lines| >= 1 && lines[0] == Op2(m, src, reg)
    ensures StartsWith(JoinLines(lines), m + " " + src + ", ")
    ensures StartsWith(JoinLines(lines) + "\n", m + " " + src + ", ")
  {
    var head := m + " " + src + ", ";
    Op2Starts(m, src, reg);
    JoinStartsWithFirst(lines);
    StartsWithTransitive(JoinLines(lines), lines[0], head);
    StartsWithConcat(JoinLines(lines), "\n");
    StartsWithTransitive(JoinLines(lines) + "\n", JoinLines(lines), head);
  }

  /** The joined text starts with the first line. */
  lemma {:induction false} JoinStartsWithFirst(lines: seq<string>)
    requires |lines| >= 1
    ensures StartsWith(JoinLines(lines), lines[0])
  {
    if |lines| > 1 {
      JoinStartsWithFirst(DropLast(lines));
      StartsWithConcat(JoinLines(DropLast(lines)), "\n\t" + Last(lines));
      assert JoinLines(lines) == JoinLines(DropLast(lines)) + ("\n\t" + Last(lines));
      StartsWithTransitive(JoinLines(lines), JoinLines(DropLast(lines)), lines[0]);
    }
  }

  /** The first line loads the first operand read; the last stores the result. */
  lemma BinopLinesEnds(dest: string, left: string, op: Binop, right: string)
    ensures var lines := BinopLines(dest, left, op, right);
            && Last(lines) == Op2("movq", ResultRegister(op), dest)
            && lines[0] == (if op == Lshift || op == Rshift then Op2("movb", right, "%cl")
                            else Op2("movq", left, if op in {Multiply, Divide, Modulus} then "%rax" else "%r11"))
  {
  }

  /** The last line of every writing instruction stores from where the result sits. */
  lemma LastLineStores(i: Instr, slot: nat -> string)
    requires Writes(i) && NonNull(i)
    ensures Last(TemplateLines(i, slot).value) == Op2("movq", ResultSource(i), slot(i.dest.value))
  {
    if i.MoveBinop? {
      BinopLinesEnds(slot(i.dest.value), slot(i.leftArg.value), i.op, slot(i.rightArg.value));
    }
  }

  /** The first line of every instruction that reads a slot loads the operand read first. */
  lemma FirstLineLoads(i: Instr, slot: nat -> string)
    requires !i.Comment? && !i.MoveImm? && NonNull(i)
    ensures Operands(i)[0].Some?
    ensures TemplateLines(i, slot).value[0] ==
            Op2(if IsShift(i) then "movb" else "movq", slot(Operands(i)[0].value), FirstLineTarget(i))
  {
    if i.MoveBinop? {
      BinopLinesEnds(slot(i.dest.value), slot(i.leftArg.value), i.op, slot(i.rightArg.value));
    }
  }

  /** Every instruction that writes a slot does it in its last line, a `movq` from where the
      result sits (the immediate, `%r11`, `%rax` or `%rdx`) into the destination slot, and its
      rendering ends with that slot. */
  lemma StoresDestLast(i: Instr, slot: nat -> string)
    requires Writes(i) && NonNull(i)
    ensures Last(TemplateLines(i, slot).value) == Op2("movq", ResultSource(i), slot(i.dest.value))
    ensures EndsWith(Render(i, slot).value, ", " + slot(i.dest.value))
  {
    var lines := TemplateLines(i, slot).value;
    var dest := slot(i.dest.value);
    LastLineStores(i, slot);
    JoinedEndsWithStore(lines, ResultSource(i), dest);
  }

  /** Every instruction that reads a slot starts by loading the operand it reads first: a shift
      loads its count into `%cl` (the only register `sal`/`sar` take a variable count from),
      every other instruction `movq`s its first operand. */
  lemma LoadsFirstOperandFirst(i: Instr, slot: nat -> string)
    requires !i.Comment? && !i.MoveImm? && NonNull(i)
    ensures Operands(i)[0].Some?
    ensures StartsWith(Render(i, slot).value,
                       (if IsShift(i) then "movb " else "movq ") + slot(Operands(i)[0].value) + ", ")
  {
    FirstLineLoads(i, slot);
    var lines := TemplateLines(i, slot).value;
    var m := if IsShift(i) then "movb" else "movq";
    var src := slot(Operands(i)[0].value);
    JoinedStartsWithLoad(lines, m, src, FirstLineTarget(i));
    assert Render(i, slot).value == if i.Print? then JoinLines(lines) + "\n" else JoinLines(lines);
    assert (if IsShift(i) then "movb " else "movq ") + src + ", " == m + " " + src + ", ";
  }

  /** `Divide` and `Modulus` share the mnemonic `idivq` and every line but the last: the
      quotient is stored from `%rax`, the remainder from `%rdx`. */
  lemma DivideModulusDifferOnlyInResultRegister(d: nat, l: nat, r: nat, slot: nat -> string)
    ensures var div := TemplateLines(MoveBinop(Some(d), Some(l), Divide, Some(r)), slot).value;
            var mod := TemplateLines(MoveBinop(Some(d), Some(l), Modulus, Some(r)), slot).value;
            && DropLast(div) == DropLast(mod)
            && Last(div) == Op2("movq", "%rax", slot(d))
            && Last(mod) == Op2("movq", "%rdx", slot(d))
            && Last(div) != Last(mod)
  {
    assert Op2("movq", "%rax", slot(d))[7] == 'a';
    assert Op2("movq", "%rdx", slot(d))[7] == 'd';
  }

  /** Each binary operation is executed by a line that starts with its own mnemonic. */
  lemma BinopLineUsesMnemonic(d: nat, l: nat, op: Binop, r: nat, slot: nat -> string)
    ensures var lines := TemplateLines(MoveBinop(Some(d), Some(l), op, Some(r)), slot).value;
            exists k :: 0 <= k < |lines| && StartsWith(lines[k], BinopInstr(op) + " ")
  {
    var lines := TemplateLines(MoveBinop(Some(d), Some(l), op, Some(r)), slot).value;
    assert lines == BinopLines(slot(d), slot(l), op, slot(r));
    var k := if op in {Divide, Modulus, Lshift, Rshift} then 2 else 1;
    if op in {Lshift, Rshift} {
      assert lines[k] == Op2(BinopInstr(op), "%cl", "%r11");
      Op2Starts(BinopInstr(op), "%cl", "%r11");
      StartsWithTransitive(lines[k], BinopInstr(op) + " %cl, ", BinopInstr(op) + " ");
    } else if op in {Multiply, Divide, Modulus} {
      assert lines[k] == Op1(BinopInstr(op), slot(r));
      Op1Starts(BinopInstr(op), slot(r));
    } else {
      assert lines[k] == Op2(BinopInstr(op), slot(r), "%r11");
      Op2Starts(BinopInstr(op), slot(r), "%r11");
      StartsWithTransitive(lines[k], BinopInstr(op) + " " + slot(r) + ", ", BinopInstr(op) + " ");
    }
  }
}
