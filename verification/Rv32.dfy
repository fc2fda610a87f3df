/** The fragment of RV32IM assembly the back end emits, as structured lines, and its meaning.
    RISC-V Unprivileged ISA 20191213, sections 2.4, 2.5 and 2.6, and chapter 7. */
module Rv32 {
  import opened Word

  /** S(0) is the frame pointer. */
  datatype Reg = X0 | Ra | Sp | S(n: nat) | T(n: nat) | A(n: nat)

  datatype AluOp = Add | Sub | Mul | Mulh | Div | Rem | Slt

  datatype ImmOp = Addi | Slti | Sltiu | Xori | Andi | Slli | Srli | Srai

  datatype ZeroTest = Eqz | Nez | Ltz | Gez | Gtz | Lez

  datatype PairTest = Eq | Ne | Lt | Ge

  datatype Instr =
    | Li(rd: Reg, imm: int)
    | La(rd: Reg, sym: string)
    | Mv(rd: Reg, rs: Reg)
    | Alu(aop: AluOp, rd: Reg, rs1: Reg, rs2: Reg)
    | AluI(iop: ImmOp, rd: Reg, rs: Reg, imm: int)
    | Seqz(rd: Reg, rs: Reg)
    | Snez(rd: Reg, rs: Reg)
    | Lw(rd: Reg, off: int, base: Reg)
    | Sw(rs: Reg, off: int, base: Reg)
    | J(target: string)
    | BrZ(ztest: ZeroTest, rs: Reg, target: string)
    | Br(ptest: PairTest, rs1: Reg, rs2: Reg, target: string)
    | Lab(name: string)
    | Call(callee: string)
    | Ret

  /** Registers and memory words absent from the maps hold 0; `syms` gives the address of each
      global symbol and never changes. */
  datatype State = State(regs: map<Reg, i32>, mem: map<i32, i32>, syms: map<string, i32>)

  function R(s: State, r: Reg): i32
  {
    if r == X0 then 0 else if r in s.regs then s.regs[r] else 0
  }

  function W(s: State, r: Reg, v: i32): State
  {
    if r == X0 then s else s.(regs := s.regs[r := v])
  }

  function Load(s: State, a: i32): i32 { if a in s.mem then s.mem[a] else 0 }

  function SymAddr(s: State, g: string): i32 { if g in s.syms then s.syms[g] else 0 }

  function BitXor(a: nat, b: nat): nat
  {
    if a == 0 then b else if b == 0 then a
    else (a % 2 + b % 2) % 2 + 2 * BitXor(a / 2, b / 2)
  }

  function AluValue(op: AluOp, a: i32, b: i32): i32
  {
    match op
    case Add => Wrap(a + b)
    case Sub => Wrap(a - b)
    case Mul => Wrap(a * b)
    case Mulh => Word.Mulh(a, b)
    case Div => RvDiv(a, b)
    case Rem => RvRem(a, b)
    case Slt => if a < b then 1 else 0
  }

  function ImmValue(op: ImmOp, a: i32, imm: int): i32
  {
    match op
    case Addi => Wrap(a + imm)
    case Slti => if a < imm then 1 else 0
    case Sltiu => if Unsigned(a) < Unsigned(Wrap(imm)) then 1 else 0
    case Xori => Wrap(BitXor(Unsigned(a), Unsigned(Wrap(imm))))
    case Andi => Wrap(BitAnd(Unsigned(a), Unsigned(Wrap(imm))))
    case Slli => if imm >= 0 then Sll(a, imm) else a
    case Srli => if imm >= 0 then Srl(a, imm) else a
    case Srai => if imm >= 0 then Sra(a, imm) else a
  }

  lemma FlippedBit(x: i32)
    requires x == 0 || x == 1
    ensures ImmValue(Xori, x, 1) == 1 - x
  {
    assert BitXor(0, 1) == 1 && BitXor(1, 1) == 0;
  }

  predicate ZeroHolds(t: ZeroTest, a: i32)
  {
    match t
    case Eqz => a == 0
    case Nez => a != 0
    case Ltz => a < 0
    case Gez => a >= 0
    case Gtz => a > 0
    case Lez => a <= 0
  }

  predicate PairHolds(t: PairTest, a: i32, b: i32)
  {
    match t
    case Eq => a == b
    case Ne => a != b
    case Lt => a < b
    case Ge => a >= b
  }

  /** The registers a line reads, and those it writes. */
  function Uses(i: Instr): set<Reg>
  {
    match i
    case Mv(_, rs) => {rs}
    case Alu(_, _, a, b) => {a, b}
    case AluI(_, _, rs, _) => {rs}
    case Seqz(_, rs) => {rs}
    case Snez(_, rs) => {rs}
    case Lw(_, _, base) => {base}
    case Sw(rs, _, base) => {rs, base}
    case BrZ(_, rs, _) => {rs}
    case Br(_, a, b, _) => {a, b}
    case _ => {}
  }

  function Defs(i: Instr): set<Reg>
  {
    match i
    case Li(rd, _) => {rd}
    case La(rd, _) => {rd}
    case Mv(rd, _) => {rd}
    case Alu(_, rd, _, _) => {rd}
    case AluI(_, rd, _, _) => {rd}
    case Seqz(rd, _) => {rd}
    case Snez(rd, _) => {rd}
    case Lw(rd, _, _) => {rd}
    case _ => {}
  }

  /** The effect of a line on registers and memory; control transfers only move the program
      counter, which is not part of this state. */
  function Step(i: Instr, s: State): State
  {
    match i
    case Li(rd, imm) => W(s, rd, Wrap(imm))
    case La(rd, sym) => W(s, rd, SymAddr(s, sym))
    case Mv(rd, rs) => W(s, rd, R(s, rs))
    case Alu(op, rd, rs1, rs2) => W(s, rd, AluValue(op, R(s, rs1), R(s, rs2)))
    case AluI(op, rd, rs, imm) => W(s, rd, ImmValue(op, R(s, rs), imm))
    case Seqz(rd, rs) => W(s, rd, if R(s, rs) == 0 then 1 else 0)
    case Snez(rd, rs) => W(s, rd, if R(s, rs) != 0 then 1 else 0)
    case Lw(rd, off, base) => W(s, rd, Load(s, Wrap(R(s, base) + off)))
    case Sw(rs, off, base) => s.(mem := s.mem[Wrap(R(s, base) + off) := R(s, rs)])
    case _ => s
  }

  /** A line that changes no register. */
  predicate IsNoOp(i: Instr)
  {
    (i.Mv? && i.rd == i.rs) || (i.AluI? && (i.iop == Addi || i.iop == Xori) && i.rd == i.rs && i.imm == 0)
  }

  lemma NoOpAgrees(i: Instr, s: State)
    requires IsNoOp(i)
    ensures Step(i, s).mem == s.mem && Step(i, s).syms == s.syms
    ensures forall r :: R(Step(i, s), r) == R(s, r)
    ensures Uses(i) == Defs(i)
  {
    if i.AluI? && i.iop == Xori { XorZero(R(s, i.rs)); }
  }

  lemma XorZero(a: i32)
    ensures ImmValue(Xori, a, 0) == a
  {
    assert Unsigned(Wrap(0)) == 0;
    var u: nat := Unsigned(a);
    assert BitXor(u, 0) == u;
  }

  /** The effect of the first n lines of straight-line code. */
  function RunTo(code: seq<Instr>, n: nat, s: State): State
    requires n <= |code|
  {
    if n == 0 then s else Step(code[n - 1], RunTo(code, n - 1, s))
  }

  function Run(code: seq<Instr>, s: State): State { RunTo(code, |code|, s) }

  lemma {:induction false} RunToPrefix(a: seq<Instr>, b: seq<Instr>, n: nat, s: State)
    requires n <= |a|
    ensures RunTo(a + b, n, s) == RunTo(a, n, s)
  {
    if n > 0 { RunToPrefix(a, b, n - 1, s); }
  }

  lemma {:induction false} RunToSuffix(a: seq<Instr>, b: seq<Instr>, n: nat, s: State)
    requires n <= |b|
    ensures RunTo(a + b, |a| + n, s) == RunTo(b, n, Run(a, s))
  {
    if n == 0 {
      RunToPrefix(a, b, |a|, s);
    } else {
      RunToSuffix(a, b, n - 1, s);
      assert (a + b)[|a| + n - 1] == b[n - 1];
    }
  }

  /** A register that is written by no-ops only keeps its value. */
  lemma {:induction false} UnwrittenKept(code: seq<Instr>, n: nat, s: State, r: Reg)
    requires n <= |code| && forall l :: l in code ==> IsNoOp(l) || r !in Defs(l)
    ensures R(RunTo(code, n, s), r) == R(s, r)
  {
    if n > 0 {
      UnwrittenKept(code, n - 1, s, r);
      var l := code[n - 1];
      assert l in code;
      if IsNoOp(l) { NoOpAgrees(l, RunTo(code, n - 1, s)); } else { OthersKept(l, RunTo(code, n - 1, s), r); }
    }
  }

  lemma OthersKept(l: Instr, s: State, r: Reg)
    requires r !in Defs(l)
    ensures R(Step(l, s), r) == R(s, r)
  {
    hide Wrap, Unsigned, Load, SymAddr, AluValue, ImmValue;
  }

  lemma RunAppend(a: seq<Instr>, b: seq<Instr>, s: State)
    ensures Run(a + b, s) == Run(b, Run(a, s))
  {
    RunToSuffix(a, b, |b|, s);
  }

  lemma RunEmpty(s: State)
    ensures Run([], s) == s
  {
  }

  lemma Run1(i: Instr, s: State)
    ensures Run([i], s) == Step(i, s)
  {
    assert RunTo([i], 0, s) == s;
  }

  lemma Run2(i: Instr, j: Instr, s: State)
    ensures Run([i, j], s) == Step(j, Step(i, s))
  {
    assert RunTo([i, j], 0, s) == s;
    assert RunTo([i, j], 1, s) == Step(i, s);
  }

  lemma Run3(i: Instr, j: Instr, k: Instr, s: State)
    ensures Run([i, j, k], s) == Step(k, Step(j, Step(i, s)))
  {
    assert RunTo([i, j, k], 0, s) == s;
    assert RunTo([i, j, k], 1, s) == Step(i, s);
    assert RunTo([i, j, k], 2, s) == Step(j, Step(i, s));
  }

  predicate Fits12(x: int) { -2048 <= x <= 2047 }

  predicate IsShift(op: ImmOp) { op.Slli? || op.Srli? || op.Srai? }

  /** Whether an assembler accepts the line: the immediate fits its field. */
  predicate Encodable(i: Instr)
  {
    match i
    case Li(_, imm) => FitsInt32(imm)
    case AluI(op, _, _, imm) => if IsShift(op) then 0 <= imm < 32 else Fits12(imm)
    case Lw(_, off, _) => Fits12(off)
    case Sw(_, off, _) => Fits12(off)
    case _ => true
  }

  predicate AllEncodable(code: seq<Instr>) { forall i :: i in code ==> Encodable(i) }

  /** The registers an emitted sequence leaves alone: all but t0-t2, and t3 when `spill` is set. */
  predicate Kept(r: Reg, spill: bool) { !(r.T? && (r.n <= 2 || (spill && r.n == 3))) }

  /** t differs from s at most in scratch registers. */
  ghost predicate SameBut(s: State, t: State, spill: bool)
  {
    && t.mem == s.mem
    && t.syms == s.syms
    && forall r :: Kept(r, spill) ==> R(t, r) == R(s, r)
  }

  /** t has v in rd and is otherwise s, up to scratch registers. */
  ghost predicate Computed(s: State, t: State, rd: Reg, v: i32, spill: bool)
  {
    && R(t, rd) == v
    && t.mem == s.mem
    && t.syms == s.syms
    && forall r :: r != rd && Kept(r, spill) ==> R(t, r) == R(s, r)
  }

  /** t has v at address a and is otherwise s, up to scratch registers. */
  ghost predicate Stored(s: State, t: State, a: i32, v: i32, spill: bool)
  {
    && t.mem == s.mem[a := v]
    && t.syms == s.syms
    && forall r :: Kept(r, spill) ==> R(t, r) == R(s, r)
  }
}
