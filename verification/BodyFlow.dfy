/** Where the jumps of a compiled body land. */
module BodyFlow {
  import opened Ir
  import opened IrFlow
  import opened Rv32
  import opened Frame
  import opened Control
  import opened Selection
  import opened BinaryOp
  import opened Compare
  import opened FrameCode
  import opened Body
  import opened Remainder
  import opened PlainCode
  import opened Homes
  import opened Allocation

  /** The whole function: what precedes the body label, the body, and what follows it. */
  predicate HasBody(c: Unit, p: seq<Instr>, before: seq<Instr>)
  {
    && p == before + ([Lab(BodyLabel(c.name))] + CodeFrom(c, 0))
    && Lab(BodyLabel(c.name)) !in before && Lab(ExitLabel(c.name)) !in before
    && (forall i :: 0 <= i < |c.ir| && c.ir[i].op.LABEL? && c.ir[i].dest.Label? ==> Lab(c.ir[i].dest.name) !in before)
    && c.after != [] && c.after[0] == Lab(ExitLabel(c.name))
  }

  ghost predicate Unlabelled(code: seq<Instr>) { forall l :: Lab(l) !in code }

  lemma PlainUnlabelled(code: seq<Instr>)
    requires AllPlain(code)
    ensures Unlabelled(code)
  {
  }

  /** Only a LABEL instruction defines a label. */
  lemma InstUnlabelled(c: Unit, i: nat)
    requires i < |c.ir| && !c.ir[i].op.LABEL?
    ensures Unlabelled(InstCode(c, i))
  {
    hide LoadCode, StoreCode, BinaryCode, CompareCode, LoadAddressCode, StoreAddressCode, Plain;
    var inst := c.ir[i];
    if BinaryShaped(inst) {
      BinaryPlain(c.f, inst, i in c.nonneg);
      PlainUnlabelled(BinaryCode(c.f, inst, i in c.nonneg));
    } else if CompareShaped(inst) {
      ComparePlain(c.f, inst, DestRegOrT0(c.f, inst.dest));
      OperandUnlabelled(c.f, inst.dest, T(0));
      PlainUnlabelled(CompareCode(c.f, inst, DestRegOrT0(c.f, inst.dest)));
    } else {
      OtherUnlabelled(c, i);
    }
  }

  lemma OperandUnlabelled(f: StackFrame, o: Operand, reg: Reg)
    ensures Unlabelled(LoadCode(f, o, reg)) && Unlabelled(StoreCode(f, reg, o))
    ensures forall base, offset :: Unlabelled(LoadAddressCode(reg, base, offset)) &&
              Unlabelled(StoreAddressCode(reg, base, offset))
  {
  }

  lemma OtherUnlabelled(c: Unit, i: nat)
    requires i < |c.ir| && !c.ir[i].op.LABEL? && !BinaryShaped(c.ir[i]) && !CompareShaped(c.ir[i])
    ensures Unlabelled(InstCode(c, i))
  {
    hide LoadCode, StoreCode, LoadAddressCode, StoreAddressCode, LeaveCode, AfterTail, RegForOperand, HasBody;
    var inst := c.ir[i];
    OperandUnlabelled(c.f, inst.dest, T(0));
    OperandUnlabelled(c.f, inst.dest, A(0));
    OperandUnlabelled(c.f, inst.src1, DestRegOrT0(c.f, inst.dest));
    OperandUnlabelled(c.f, inst.src1, T(0));
    OperandUnlabelled(c.f, inst.dest, DestRegOrT0(c.f, inst.dest));
    match inst.op
    case PARAM => if inst.src1.Imm? && inst.src1.immVal >= 0 { OperandUnlabelled(c.f, inst.dest, A(inst.src1.immVal)); }
    case CALL => LeaveUnlabelled(c.f, c.size);
    case LOCAL_VAR_DECL => OperandUnlabelled(c.f, inst.dest, DestRegOrT0(c.f, inst.dest));
    case _ =>
  }

  lemma LeaveUnlabelled(f: StackFrame, size: int)
    ensures Unlabelled(LeaveCode(f, size, true)) && Unlabelled(LeaveCode(f, size, f.hasCall))
  {
  }

  lemma FusedUnlabelled(c: Unit, i: nat)
    requires FusedAt(c, i)
    ensures Unlabelled(FusedCode(c, i))
  {
    hide CompareCode, Plain;
    ComparePlain(c.f, c.ir[i], T(0));
    PlainUnlabelled(CompareCode(c.f, c.ir[i], T(0)));
  }

  /** A jump to a label of the body lands at the code of the instruction that defines it. */
  lemma {:induction false} LabelLands(c: Unit, i: nat, j: nat)
    requires UniqueIrLabels(c.ir) && i <= j < |c.ir| && c.ir[j].op.LABEL? && c.ir[j].dest.Label?
    requires forall k :: i <= k < |c.ir| && c.ir[k].op.LABEL? ==> c.ir[k].dest.Label?
    ensures After(CodeFrom(c, i), c.ir[j].dest.name) == CodeFrom(c, j)
    ensures HasLabel(CodeFrom(c, i), c.ir[j].dest.name)
    decreases j - i
  {
    hide InstCode, FusedCode, FusedAt, FusesChain, ChainCode, ChainLength, CodeFrom, After, HasLabel, Unlabelled;
    var l := c.ir[j].dest.name;
    if FusesChain(c, i) {
      ChainHead(c, i);
      ChainUnlabelled(c, i);
      LabelOutside(c, i, j);
      LabelLands(c, i + ChainLength(c, i), j);
      LandsBehind(ChainCode(c, i), CodeFrom(c, i + ChainLength(c, i)), l);
    } else if FusedAt(c, i) {
      FusedHead(c, i);
      FusedUnlabelled(c, i);
      FusedNoLabels(c, i);
      LabelLands(c, i + 2, j);
      LandsBehind(FusedCode(c, i), CodeFrom(c, i + 2), l);
    } else {
      AloneCode(c, i);
      if i == j {
        LabelLine(c, i);
        LandsHere(l, CodeFrom(c, i + 1));
      } else {
        OtherLine(c, i, j);
        LabelLands(c, i + 1, j);
        AfterAppend(InstCode(c, i), CodeFrom(c, i + 1), l);
      }
    }
  }

  lemma LandsBehind(a: seq<Instr>, k: seq<Instr>, l: string)
    requires Unlabelled(a)
    ensures After(a + k, l) == After(k, l) && (HasLabel(a + k, l) <==> HasLabel(k, l))
  {
    AfterAppend(a, k, l);
  }

  lemma LandsHere(l: string, k: seq<Instr>)
    ensures After([Lab(l)] + k, l) == [Lab(l)] + k && HasLabel([Lab(l)] + k, l)
  {
  }

  /** Another line does not define the label. */
  lemma OtherLine(c: Unit, i: nat, j: nat)
    requires UniqueIrLabels(c.ir) && i < j < |c.ir| && c.ir[j].op.LABEL? && c.ir[j].dest.Label?
    requires c.ir[i].op.LABEL? ==> c.ir[i].dest.Label?
    ensures Lab(c.ir[j].dest.name) !in InstCode(c, i)
  {
    hide InstCode;
    if c.ir[i].op.LABEL? { LabelLine(c, i); } else { InstUnlabelled(c, i); }
  }

  /** A label is never in the middle of a chain. */
  lemma LabelOutside(c: Unit, i: nat, j: nat)
    requires FusesChain(c, i) && i <= j < |c.ir| && c.ir[j].op.LABEL?
    ensures i + ChainLength(c, i) <= j
  {
    hide MatchNormalized;
    if j < i + ChainLength(c, i) { ChainLines(c.ir, i, j); }
  }

  lemma FusedNoLabels(c: Unit, i: nat)
    requires FusedAt(c, i)
    ensures i + 1 < |c.ir| && !c.ir[i].op.LABEL? && !c.ir[i + 1].op.LABEL?
  {
  }

  lemma ChainUnlabelled(c: Unit, i: nat)
    requires FusesChain(c, i)
    ensures Unlabelled(ChainCode(c, i))
  {
    hide Plain;
    ChainPlain(c, i);
    PlainUnlabelled(ChainCode(c, i));
  }

  lemma LabelLine(c: Unit, j: nat)
    requires j < |c.ir| && c.ir[j].op.LABEL? && c.ir[j].dest.Label?
    ensures InstCode(c, j) == [Lab(c.ir[j].dest.name)]
  {
  }

  /** A label the body does not define is found after it. */
  lemma {:induction false} OtherLands(c: Unit, i: nat, l: string)
    requires forall k :: 0 <= k < |c.ir| && c.ir[k].op.LABEL? ==> c.ir[k].dest.Label? && c.ir[k].dest.name != l
    ensures After(CodeFrom(c, i), l) == After(c.after, l) && (HasLabel(CodeFrom(c, i), l) <==> HasLabel(c.after, l))
    decreases |c.ir| - i
  {
    hide InstCode, FusedCode, FusedAt, FusesChain, ChainCode, ChainLength;
    if i >= |c.ir| {
    } else if FusesChain(c, i) {
      var n := ChainLength(c, i);
      ChainHead(c, i);
      ChainUnlabelled(c, i);
      OtherLands(c, i + n, l);
      AfterAppend(ChainCode(c, i), CodeFrom(c, i + n), l);
    } else if FusedAt(c, i) {
      FusedHead(c, i);
      FusedUnlabelled(c, i);
      OtherLands(c, i + 2, l);
      AfterAppend(FusedCode(c, i), CodeFrom(c, i + 2), l);
    } else {
      AloneCode(c, i);
      if c.ir[i].op.LABEL? { LabelLine(c, i); } else { InstUnlabelled(c, i); }
      OtherLands(c, i + 1, l);
      AfterAppend(InstCode(c, i), CodeFrom(c, i + 1), l);
    }
  }

  lemma InProgram(c: Unit, p: seq<Instr>, before: seq<Instr>, l: string)
    requires HasBody(c, p, before) && Lab(l) !in before && l != BodyLabel(c.name)
    ensures After(p, l) == After(CodeFrom(c, 0), l) && (HasLabel(p, l) <==> HasLabel(CodeFrom(c, 0), l))
  {
    hide CodeFrom;
    var first := [Lab(BodyLabel(c.name))];
    AfterAppend(before, first + CodeFrom(c, 0), l);
    AfterAppend(first, CodeFrom(c, 0), l);
  }

  /** A jump of the intermediate representation and the emitted jump land together. */
  lemma JumpLands(c: Unit, p: seq<Instr>, before: seq<Instr>, target: Operand, s: State)
    requires WellFormed(c) && HasBody(c, p, before) && target.Label? && LabelPosition(c.ir, target.name).Somewhere?
    ensures Goto(p, target.name, s) == At(CodeFrom(c, LabelPosition(c.ir, target.name).at), s)
  {
    hide CodeFrom, TablesFor;
    var j := LabelPosition(c.ir, target.name).at;
    InProgram(c, p, before, target.name);
    LabelLands(c, 0, j);
  }

  lemma ExitLands(c: Unit, p: seq<Instr>, before: seq<Instr>, s: State)
    requires WellFormed(c) && HasBody(c, p, before)
    ensures Goto(p, ExitLabel(c.name), s) == At(c.after, s)
  {
    hide CodeFrom, TablesFor;
    assert ExitLabel(c.name) != BodyLabel(c.name) by { ExitIsNotBody(c.name); }
    InProgram(c, p, before, ExitLabel(c.name));
    OtherLands(c, 0, ExitLabel(c.name));
  }

  lemma ExitIsNotBody(name: string)
    ensures ExitLabel(name) != BodyLabel(name)
  {
    assert ExitLabel(name)[|".L_" + name + "_"|] == 'e';
    assert BodyLabel(name)[|".L_" + name + "_"|] == 'b';
  }

  lemma BodyLands(c: Unit, p: seq<Instr>, before: seq<Instr>, s: State)
    requires HasBody(c, p, before)
    ensures Goto(p, BodyLabel(c.name), s) == At([Lab(BodyLabel(c.name))] + CodeFrom(c, 0), s)
  {
    hide CodeFrom;
    AfterAppend(before, [Lab(BodyLabel(c.name))] + CodeFrom(c, 0), BodyLabel(c.name));
  }
}
