/** Each window of the peephole pass against its replacement: same decision, same state off the dropped registers. */
module PeepholeProof {
  import opened Word
  import opened Rv32
  import opened Peephole

  // --------------------------------------------------------------------------
  // One window
  // --------------------------------------------------------------------------

  /** The register the window computes its truth value in. */
  function TruthReg(pat: Pattern, k: seq<Instr>): Reg
    requires Matches(pat, k)
  {
    k[Length(pat) - 1].rs
  }

  /** Registers that no longer receive the window's intermediate values. */
  function Dropped(pat: Pattern, k: seq<Instr>): set<Reg>
    requires Matches(pat, k)
  {
    if pat == EqualityImm then {T(1), TruthReg(pat, k)} else {TruthReg(pat, k)}
  }

  /** Registers the window compares. */
  function Compared(pat: Pattern, k: seq<Instr>): set<Reg>
    requires Matches(pat, k)
  {
    match pat
    case Less => {k[0].rs1, k[0].rs2}
    case Equality => {k[0].rs1, k[0].rs2}
    case NotLess => {k[0].rs1, k[0].rs2}
    case EqualityImm => {k[1].rs1}
    case NotLessImm => {k[0].rs}
    case SignTest => {k[0].rs}
  }

  /** x0 is not a truth register, and the immediate is not compared with its own register t1. */
  predicate WellUsed(pat: Pattern, k: seq<Instr>)
    requires Matches(pat, k)
  {
    TruthReg(pat, k) != X0 && (pat == EqualityImm ==> k[1].rs1 != T(1))
  }

  predicate SubtractionFits(k: seq<Instr>, s: State)
  {
    MatchesNotLessImm(k) ==> FitsInt32(R(s, k[0].rs) - k[0].imm)
  }

  predicate BranchHolds(i: Instr, s: State)
    requires i.BrZ? || i.Br?
  {
    match i
    case BrZ(test, r, _) => ZeroHolds(test, R(s, r))
    case Br(test, a, b, _) => PairHolds(test, R(s, a), R(s, b))
  }

  /** The decision of a window, run as written. */
  predicate OldDecision(pat: Pattern, k: seq<Instr>, s: State)
    requires Matches(pat, k)
  {
    BranchHolds(k[Length(pat) - 1], Run(k[..Length(pat) - 1], s))
  }

  /** The decision of its replacement. */
  predicate NewDecision(pat: Pattern, k: seq<Instr>, s: State)
    requires Matches(pat, k)
  {
    var r := Replacement(pat, k);
    BranchHolds(r[|r| - 1], Run(r[..|r| - 1], s))
  }

  ghost predicate SameOutside(s: State, t: State, regs: set<Reg>)
  {
    t.mem == s.mem && t.syms == s.syms && forall r :: r !in regs ==> R(t, r) == R(s, r)
  }

  lemma LessWindow(k: seq<Instr>, s: State)
    requires MatchesLess(k) && TruthReg(Less, k) != X0
    ensures SameOutside(s, Run(k[..1], s), Dropped(Less, k))
    ensures OldDecision(Less, k, s) == NewDecision(Less, k, s)
  {
    hide Run;
    assert k[..1] == [k[0]];
    Run1(k[0], s);
    assert Replacement(Less, k)[..0] == [];
    RunEmpty(s);
  }

  lemma EqualityWindow(k: seq<Instr>, s: State)
    requires MatchesEquality(k) && TruthReg(Equality, k) != X0
    ensures SameOutside(s, Run(k[..2], s), Dropped(Equality, k))
    ensures OldDecision(Equality, k, s) == NewDecision(Equality, k, s)
  {
    hide Run, Wrap;
    assert k[..2] == [k[0], k[1]];
    Run2(k[0], k[1], s);
    ZeroDifference(R(s, k[0].rs1), R(s, k[0].rs2));
    assert Replacement(Equality, k)[..0] == [];
    RunEmpty(s);
  }

  lemma NotLessWindow(k: seq<Instr>, s: State)
    requires MatchesNotLess(k) && TruthReg(NotLess, k) != X0
    ensures SameOutside(s, Run(k[..2], s), Dropped(NotLess, k))
    ensures OldDecision(NotLess, k, s) == NewDecision(NotLess, k, s)
  {
    hide Run, Wrap, BitXor, ImmValue;
    assert k[..2] == [k[0], k[1]];
    Run2(k[0], k[1], s);
    FlippedBit(if R(s, k[0].rs1) < R(s, k[0].rs2) then 1 else 0);
    assert Replacement(NotLess, k)[..0] == [];
    RunEmpty(s);
  }

  /** The immediate comparison decides alike exactly unless it reads the stale t1. */
  lemma EqualityImmWindow(k: seq<Instr>, s: State)
    requires MatchesEqualityImm(k) && TruthReg(EqualityImm, k) != X0
    ensures SameOutside(s, Run(k[..3], s), Dropped(EqualityImm, k))
    ensures OldDecision(EqualityImm, k, s) == NewDecision(EqualityImm, k, s) <==>
            k[1].rs1 != T(1) || R(s, T(1)) == k[0].imm
  {
    hide Run, Wrap, OldDecision, NewDecision, SameOutside;
    var a := if k[1].rs1 == T(1) then k[0].imm else R(s, k[1].rs1);
    EqualityImmOld(k, s, a);
    EqualityImmNew(k, s);
  }

  /** Whether the window's branch is taken, given whether its operands are equal. */
  predicate TakenWhen(k: seq<Instr>, same: bool)
    requires MatchesEqualityImm(k)
  {
    (same == k[2].Seqz?) != (k[3].ztest == Eqz)
  }

  lemma EqualityImmOld(k: seq<Instr>, s: State, a: i32)
    requires MatchesEqualityImm(k) && TruthReg(EqualityImm, k) != X0
    requires a == if k[1].rs1 == T(1) then k[0].imm else R(s, k[1].rs1)
    ensures SameOutside(s, Run(k[..3], s), Dropped(EqualityImm, k))
    ensures OldDecision(EqualityImm, k, s) == TakenWhen(k, a == k[0].imm)
  {
    hide Run, Wrap;
    assert k[..3] == [k[0], k[1], k[2]];
    Run3(k[0], k[1], k[2], s);
    ZeroDifference(a, k[0].imm);
  }

  lemma EqualityImmNew(k: seq<Instr>, s: State)
    requires MatchesEqualityImm(k) && TruthReg(EqualityImm, k) != X0
    ensures NewDecision(EqualityImm, k, s) == TakenWhen(k, R(s, k[1].rs1) == k[0].imm)
  {
    hide Run, Wrap;
    var r := Replacement(EqualityImm, k);
    ZeroDifference(R(s, k[1].rs1), k[0].imm);
    if k[0].imm == 0 {
      assert r[..0] == [];
      RunEmpty(s);
    } else {
      assert r[..1] == [r[0]];
      Run1(r[0], s);
    }
  }

  /** The order comparison through a subtraction decides alike exactly when the difference fits in
      32 bits. */
  lemma NotLessImmWindow(k: seq<Instr>, s: State)
    requires MatchesNotLessImm(k) && TruthReg(NotLessImm, k) != X0
    ensures SameOutside(s, Run(k[..2], s), Dropped(NotLessImm, k))
    ensures Fits12(k[0].imm) ==>
      (OldDecision(NotLessImm, k, s) == NewDecision(NotLessImm, k, s) <==>
       FitsInt32(R(s, k[0].rs) - k[0].imm))
    ensures FitsInt32(R(s, k[0].rs) - k[0].imm) ==>
      OldDecision(NotLessImm, k, s) == NewDecision(NotLessImm, k, s)
  {
    hide Run, Wrap, BitXor;
    assert k[..2] == [k[0], k[1]];
    Run2(k[0], k[1], s);
    FlippedBit(if R(s, k[0].rs) < k[0].imm then 1 else 0);
    var r := Replacement(NotLessImm, k);
    assert r[..1] == [r[0]];
    Run1(r[0], s);
    SignOfDifference(R(s, k[0].rs), k[0].imm);
  }

  lemma SignOfDifference(a: i32, imm: int)
    ensures FitsInt32(a - imm) ==> (Wrap(a - imm) < 0 <==> a < imm)
    ensures Fits12(imm) && !FitsInt32(a - imm) ==> (Wrap(a - imm) < 0 <==> a >= imm)
  {
  }

  /** A run on which the two disagree: the smallest word is below 1, but its difference wraps. */
  lemma NotLessImmCounterexample()
    ensures var k := [AluI(Slti, T(0), A(0), 1), AluI(Xori, T(0), T(0), 1), BrZ(Eqz, T(0), "L")];
            var s := State(map[A(0) := INT_MIN], map[], map[]);
            && Choose(k) == Rewrite(NotLessImm)
            && OldDecision(NotLessImm, k, s) && !NewDecision(NotLessImm, k, s)
  {
    var k := [AluI(Slti, T(0), A(0), 1), AluI(Xori, T(0), T(0), 1), BrZ(Eqz, T(0), "L")];
    var s := State(map[A(0) := INT_MIN], map[], map[]);
    assert !MatchesLess(k) && !MatchesEquality(k) && !MatchesNotLess(k) && !MatchesEqualityImm(k);
    Run2(k[0], k[1], s);
    assert k[..2] == [k[0], k[1]];
    FlippedBit(1);
    NotLessImmWindow(k, s);
  }

  lemma SignTestWindow(k: seq<Instr>, s: State)
    requires MatchesSignTest(k) && TruthReg(SignTest, k) != X0
    ensures SameOutside(s, Run(k[..1], s), Dropped(SignTest, k))
    ensures OldDecision(SignTest, k, s) == NewDecision(SignTest, k, s)
  {
    hide Run;
    assert k[..1] == [k[0]];
    Run1(k[0], s);
    assert Replacement(SignTest, k)[..0] == [];
    RunEmpty(s);
  }

  /** Every window decides like its replacement and touches only the dropped registers. */
  lemma WindowDecides(pat: Pattern, k: seq<Instr>, s: State)
    requires Matches(pat, k) && WellUsed(pat, k) && (pat == NotLessImm ==> SubtractionFits(k, s))
    ensures SameOutside(s, Run(k[..Length(pat) - 1], s), Dropped(pat, k))
    ensures OldDecision(pat, k, s) == NewDecision(pat, k, s)
  {
    hide Run, OldDecision, NewDecision, SameOutside;
    match pat
    case Less => LessWindow(k, s);
    case Equality => EqualityWindow(k, s);
    case NotLess => NotLessWindow(k, s);
    case EqualityImm => EqualityImmWindow(k, s);
    case NotLessImm => NotLessImmWindow(k, s);
    case SignTest => SignTestWindow(k, s);
  }

  /** A replacement reads only the compared registers and touches only the dropped ones. */
  lemma ReplacementFrame(pat: Pattern, k: seq<Instr>, s: State, t: State)
    requires Matches(pat, k) && WellUsed(pat, k)
    requires forall r :: r in Compared(pat, k) ==> R(s, r) == R(t, r)
    ensures NewDecision(pat, k, s) == NewDecision(pat, k, t)
    ensures var r := Replacement(pat, k); SameOutside(t, Run(r[..|r| - 1], t), Dropped(pat, k))
  {
    hide Run, Wrap;
    var r := Replacement(pat, k);
    if |r| == 2 {
      assert r[..1] == [r[0]];
      Run1(r[0], s);
      Run1(r[0], t);
    } else {
      assert r[..0] == [];
      RunEmpty(s);
      RunEmpty(t);
    }
  }
}
