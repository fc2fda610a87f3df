/** Where a function's text jumps: to its own labels, or to the functions it calls last. */
module TextExits {
  import opened Ir
  import opened IrFlow
  import opened Rv32
  import opened Frame
  import opened Control
  import opened Selection
  import opened BinaryOp
  import opened Compare
  import opened FrameCode
  import opened Body
  import opened PlainCode
  import opened Homes
  import opened StepSim
  import opened BodyFlow
  import opened ChainSim
  import opened FunctionSim
  import opened TextLive
  import opened BodyLive
  import opened TextPlan
  import opened TailCall

  predicate Jumps(i: Instr) { i.J? || i.BrZ? || i.Br? }

  /** A name the body's lines jump to. */
  predicate Target(c: Unit, l: string)
  {
    l == BodyLabel(c.name) || l == ExitLabel(c.name) || l in BranchNames(c.ir) || l in TailNames(c)
  }

  function BranchNames(ir: seq<IrInst>): set<string>
  {
    set i | 0 <= i < |ir| && (ir[i].op.BRANCH? || ir[i].op.BEQZ? || ir[i].op.BNEZ?) :: NameOf(ir[i].dest)
  }

  function TailNames(c: Unit): set<string> { set i | i in c.tails && i < |c.ir| :: NameOf(c.ir[i].src1) }

  ghost predicate JumpsTo(c: Unit, code: seq<Instr>) { forall i :: i in code && Jumps(i) ==> Target(c, i.target) }

  lemma PlainJumps(c: Unit, code: seq<Instr>)
    requires AllPlain(code)
    ensures JumpsTo(c, code)
  {
  }

  lemma JumpsJoin(c: Unit, a: seq<Instr>, b: seq<Instr>)
    requires JumpsTo(c, a) && JumpsTo(c, b)
    ensures JumpsTo(c, a + b)
  {
    hide Target, Jumps;
  }

  lemma JumpLine(c: Unit, i: Instr)
    requires Jumps(i) ==> Target(c, i.target)
    ensures JumpsTo(c, [i])
  {
  }

  lemma StraightJumps(c: Unit, code: seq<Instr>)
    requires AllStraight(code)
    ensures JumpsTo(c, code)
  {
  }

  // ---- the lines of one instruction ----

  lemma BranchJumps(c: Unit, i: nat)
    requires i < |c.ir| && (c.ir[i].op.BEQZ? || c.ir[i].op.BNEZ?)
    ensures JumpsTo(c, BranchCode(c.f, c.ir[i]))
  {
    hide LoadCode, AllTame, RegForOperand, JumpsTo;
    var inst := c.ir[i];
    OperandPlain(c.f, inst.src1, T(0));
    TameJumps(c, LoadCode(c.f, inst.src1, T(0)));
    assert NameOf(inst.dest) in BranchNames(c.ir);
    JumpLine(c, BrZ(BranchTest(inst.op), T(0), NameOf(inst.dest)));
    JumpsJoin(c, LoadCode(c.f, inst.src1, T(0)), [BrZ(BranchTest(inst.op), T(0), NameOf(inst.dest))]);
    if RegForOperand(c.f, inst.src1).Some? {
      JumpLine(c, BrZ(BranchTest(inst.op), RegForOperand(c.f, inst.src1).value, NameOf(inst.dest)));
    }
  }

  lemma TameJumps(c: Unit, code: seq<Instr>)
    requires AllTame(code)
    ensures JumpsTo(c, code)
  {
    forall i | i in code ensures !Jumps(i) { assert Tame(i); }
  }

  lemma CallJumps(c: Unit, i: nat)
    requires i < |c.ir| && !c.draft
    ensures JumpsTo(c, CallCode(c, i))
  {
    hide StoreCode, LeaveCode, AllTame, JumpsTo, BodyLabel;
    var callee := NameOf(c.ir[i].src1);
    if i in c.tails {
      assert callee in TailNames(c);
      JumpLine(c, J(BodyLabel(c.name)));
      JumpLine(c, J(callee));
      LeaveStraight(c.f, c.size, true);
      StraightJumps(c, LeaveCode(c.f, c.size, true));
      JumpsJoin(c, LeaveCode(c.f, c.size, true), [J(callee)]);
    } else {
      OperandPlain(c.f, c.ir[i].dest, A(0));
      var store := if IsVariable(c.ir[i].dest) then StoreCode(c.f, A(0), c.ir[i].dest) else [];
      TameJumps(c, store);
      JumpLine(c, Instr.Call(callee));
      JumpsJoin(c, [Instr.Call(callee)], store);
    }
  }

  lemma LeaveStraight(f: StackFrame, size: int, restoreRa: bool)
    ensures AllStraight(LeaveCode(f, size, restoreRa))
  {
  }

  lemma ReturnJumps(c: Unit, i: nat)
    requires i < |c.ir|
    ensures JumpsTo(c, ReturnCode(c, i))
  {
    hide LoadCode, AllTame, ExitLabel, AfterTail;
    OperandPlain(c.f, c.ir[i].dest, A(0));
    TameJumps(c, LoadCode(c.f, c.ir[i].dest, A(0)));
    JumpLine(c, J(ExitLabel(c.name)));
  }

  lemma MoveJumps(c: Unit, o: Operand, dest: Operand, n: nat)
    ensures JumpsTo(c, MoveCode(c.f, o, dest)) && JumpsTo(c, ParamDeclCode(c.f, dest, n))
  {
    hide LoadCode, SettleCode, AllTame, JumpsTo, LoadAddressCode, DestRegOrT0;
    var r := DestRegOrT0(c.f, dest);
    OperandPlain(c.f, o, r);
    OperandPlain(c.f, dest, T(0));
    TameJumps(c, LoadCode(c.f, o, r));
    TameJumps(c, SettleCode(c.f, dest));
    JumpsJoin(c, LoadCode(c.f, o, r), SettleCode(c.f, dest));
    var fetch := if n >= 8 then LoadAddressCode(r, S(0), WORD_BYTES * (n - 8)) else if r != A(n) then [Mv(r, A(n))]
                 else [];
    TameJumps(c, LoadAddressCode(r, S(0), WORD_BYTES * (n - 8)));
    JumpLine(c, Mv(r, A(n)));
    NoJumps(c);
    JumpsJoin(c, fetch, SettleCode(c.f, dest));
  }

  lemma NoJumps(c: Unit)
    ensures JumpsTo(c, [])
  {
  }

  lemma ParamJumps(c: Unit, o: Operand, k: int)
    ensures JumpsTo(c, ParamCode(c.f, o, k))
  {
    hide LoadCode, StoreAddressCode, AllTame, JumpsTo;
    NoJumps(c);
    if 0 <= k < 8 { OperandPlain(c.f, o, A(k)); TameJumps(c, LoadCode(c.f, o, A(k))); }
    OperandPlain(c.f, o, T(0));
    TameJumps(c, LoadCode(c.f, o, T(0)));
    TameJumps(c, StoreAddressCode(T(0), Sp, WORD_BYTES * (k - 8)));
    JumpsJoin(c, LoadCode(c.f, o, T(0)), StoreAddressCode(T(0), Sp, WORD_BYTES * (k - 8)));
  }

  lemma InstJumps(c: Unit, i: nat)
    requires i < |c.ir| && !c.draft
    ensures JumpsTo(c, InstCode(c, i))
  {
    hide JumpsTo, BinaryCode, CompareCode, SettleCode, MoveCode, ParamDeclCode, ParamCode, CallCode, ReturnCode,
         BranchCode, ParamIndex, AllPlain;
    var inst := c.ir[i];
    NoJumps(c);
    if BinaryShaped(inst) {
      BinaryPlain(c.f, inst, i in c.nonneg);
      TameJumps(c, BinaryCode(c.f, inst, i in c.nonneg));
    } else if CompareShaped(inst) {
      ComparePlain(c.f, inst, DestRegOrT0(c.f, inst.dest));
      PlainJumps(c, CompareCode(c.f, inst, DestRegOrT0(c.f, inst.dest)));
      OperandPlain(c.f, inst.dest, T(0));
      TameJumps(c, SettleCode(c.f, inst.dest));
      JumpsJoin(c, CompareCode(c.f, inst, DestRegOrT0(c.f, inst.dest)), SettleCode(c.f, inst.dest));
    } else {
      MoveJumps(c, inst.src1, inst.dest, ParamIndex(c.ir, i));
      match inst.op
      case PARAM => ParamJumps(c, inst.dest, if inst.src1.Imm? then inst.src1.immVal else 0);
      case CALL => CallJumps(c, i);
      case RETURN => ReturnJumps(c, i);
      case LABEL => JumpLine(c, Lab(NameOf(inst.dest)));
      case BRANCH =>
        assert NameOf(inst.dest) in BranchNames(c.ir);
        JumpLine(c, J(NameOf(inst.dest)));
      case BEQZ => BranchJumps(c, i);
      case BNEZ => BranchJumps(c, i);
      case _ =>
    }
  }

  lemma {:induction false} BodyJumps(c: Unit, i: nat)
    requires !c.draft && JumpsTo(c, c.after)
    ensures JumpsTo(c, CodeFrom(c, i))
    decreases |c.ir| - i
  {
    hide CodeFrom, FusedAt, FusesChain, ChainCode, ChainLength, FusedCode, InstCode, JumpsTo, AllPlain;
    if i >= |c.ir| {
      NothingLeft(c, i);
    } else if FusesChain(c, i) {
      ChainHead(c, i);
      ChainPlain(c, i);
      TameJumps(c, ChainCode(c, i));
      BodyJumps(c, i + ChainLength(c, i));
      JumpsJoin(c, ChainCode(c, i), CodeFrom(c, i + ChainLength(c, i)));
    } else if FusedAt(c, i) {
      FusedHead(c, i);
      FusedJumps(c, i);
      BodyJumps(c, i + 2);
      JumpsJoin(c, FusedCode(c, i), CodeFrom(c, i + 2));
    } else {
      AloneCode(c, i);
      InstJumps(c, i);
      BodyJumps(c, i + 1);
      JumpsJoin(c, InstCode(c, i), CodeFrom(c, i + 1));
    }
  }

  lemma FusedJumps(c: Unit, i: nat)
    requires FusedAt(c, i)
    ensures JumpsTo(c, FusedCode(c, i))
  {
    hide CompareCode, AllPlain, JumpsTo, UseCount;
    ComparePlain(c.f, c.ir[i], T(0));
    PlainJumps(c, CompareCode(c.f, c.ir[i], T(0)));
    var br := c.ir[i + 1];
    assert NameOf(br.dest) in BranchNames(c.ir);
    JumpLine(c, BrZ(BranchTest(br.op), T(0), NameOf(br.dest)));
    JumpsJoin(c, CompareCode(c.f, c.ir[i], T(0)), [BrZ(BranchTest(br.op), T(0), NameOf(br.dest))]);
  }

  // ---- the whole text ----

  lemma TextJumps(c: Unit, constants: seq<Word.i32>, globals: seq<string>)
    requires TailsOk(c) && c.after == AfterCode(c.name, c.f, c.size, globals)
    ensures JumpsTo(c, FunctionCode(c, constants, globals))
  {
    hide CodeFrom, AfterCode, BeforeCode, BodyLabel, JumpsTo;
    AfterJumps(c, globals);
    BodyJumps(c, 0);
    BeforeShape(c, constants, globals);
    StraightJumps(c, BeforeCode(c.name, c.f, c.size, constants, globals));
    JumpLine(c, Lab(BodyLabel(c.name)));
    JumpsJoin(c, [Lab(BodyLabel(c.name))], CodeFrom(c, 0));
    JumpsJoin(c, BeforeCode(c.name, c.f, c.size, constants, globals), [Lab(BodyLabel(c.name))] + CodeFrom(c, 0));
  }

  lemma AfterJumps(c: Unit, globals: seq<string>)
    requires c.after == AfterCode(c.name, c.f, c.size, globals)
    ensures JumpsTo(c, c.after)
  {
    hide LeaveCode, StoreGlobalsCode, ExitLabel, NeedsFrame, AllStraight;
    LoadsShape(c.f, [], globals);
    LeaveStraight(c.f, c.size, c.f.hasCall);
    StraightJumps(c, StoreGlobalsCode(c.f, globals));
    StraightJumps(c, LeaveCode(c.f, c.size, c.f.hasCall));
  }

  /** What a text jumps out to returns a value if the function does. */
  ghost predicate LeavesAlike(sigs: Sigs, name: string, p: seq<Instr>)
  {
    forall i :: i in p && Jumps(i) && !HasLabel(p, i.target) ==> OutRegs(sigs, i.target) == OutRegs(sigs, name)
  }

  lemma TextLeavesAlike(c: Unit, sigs: Sigs, constants: seq<Word.i32>, globals: seq<string>)
    requires LiveUnit(c, sigs) && TailsOk(c) && ChainsSafe(c) && TextOf(c, constants, globals)
    ensures LeavesAlike(sigs, c.name, FunctionCode(c, constants, globals))
  {
    hide LiveUnit, TailsOk, ChainsSafe, FunctionCode, OutRegs, HasLabel, JumpsTo, AfterCode, BeforeCode, HasBody;
    var p := FunctionCode(c, constants, globals);
    TextJumps(c, constants, globals);
    forall i | i in p && Jumps(i) && !HasLabel(p, i.target) ensures OutRegs(sigs, i.target) == OutRegs(sigs, c.name) {
      JumpKnown(c, p, i);
      TargetAlike(c, sigs, constants, globals, i.target);
    }
  }

  lemma JumpKnown(c: Unit, p: seq<Instr>, i: Instr)
    requires JumpsTo(c, p) && i in p && Jumps(i)
    ensures Target(c, i.target)
  {
  }

  lemma TargetAlike(c: Unit, sigs: Sigs, constants: seq<Word.i32>, globals: seq<string>, l: string)
    requires LiveUnit(c, sigs) && TailsOk(c) && ChainsSafe(c) && TextOf(c, constants, globals) && Target(c, l)
    requires !HasLabel(FunctionCode(c, constants, globals), l)
    ensures OutRegs(sigs, l) == OutRegs(sigs, c.name)
  {
    hide WellFormed, Initialised, CallsTyped, TailsOk, ChainsSafe, FunctionCode, HasLabel, AfterCode, BeforeCode,
         HasBody, LabelPosition, BodyLabel, ExitLabel, Ahead, PlanOf, Shaped, IsTailCall;
    var p, before := FunctionCode(c, constants, globals), BeforeCode(c.name, c.f, c.size, constants, globals);
    HasItsText(c, constants, globals);
    if l == BodyLabel(c.name) {
      BodyAt(c, sigs, p, before);
    } else if l == ExitLabel(c.name) {
      ExitAt(c, sigs, p, before, globals);
    } else if l in BranchNames(c.ir) {
      InnerAt(c, sigs, p, before, l);
    }
  }
}
