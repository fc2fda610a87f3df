/** The peephole pass: a left-to-right scan that replaces short windows of lines. */
module Peephole {
  import opened Rv32

  /** The compare-and-branch windows, by the lines they start with. */
  datatype Pattern = Less | Equality | NotLess | EqualityImm | NotLessImm | SignTest

  predicate ZeroBranchOn(i: Instr, rd: Reg)
  {
    i.BrZ? && (i.ztest == Eqz || i.ztest == Nez) && i.rs == rd
  }

  predicate IsAlu(i: Instr, op: AluOp) { i.Alu? && i.aop == op }

  predicate IsAluI(i: Instr, op: ImmOp) { i.AluI? && i.iop == op }

  predicate TestsZero(i: Instr, rd: Reg) { (i == Seqz(rd, rd)) || (i == Snez(rd, rd)) }

  /** slt rd, a, b; beqz or bnez rd */
  predicate MatchesLess(k: seq<Instr>)
  {
    |k| > 1 && IsAlu(k[0], Slt) && ZeroBranchOn(k[1], k[0].rd)
  }

  /** sub rd, a, b; seqz or snez rd, rd; beqz or bnez rd */
  predicate MatchesEquality(k: seq<Instr>)
  {
    |k| > 2 && IsAlu(k[0], Sub) && TestsZero(k[1], k[0].rd) && ZeroBranchOn(k[2], k[0].rd)
  }

  /** slt rd, a, b; xori rd, rd, 1; beqz or bnez rd */
  predicate MatchesNotLess(k: seq<Instr>)
  {
    |k| > 2 && IsAlu(k[0], Slt) && k[1] == AluI(Xori, k[0].rd, k[0].rd, 1) && ZeroBranchOn(k[2], k[0].rd)
  }

  /** li t1, imm; sub rd, a, t1; seqz or snez rd, rd; beqz or bnez rd, with -imm in twelve bits */
  predicate MatchesEqualityImm(k: seq<Instr>)
  {
    |k| > 3 && k[0].Li? && k[0].rd == T(1) && -2047 <= k[0].imm <= 2048
    && IsAlu(k[1], Sub) && k[1].rs2 == T(1) && TestsZero(k[2], k[1].rd) && ZeroBranchOn(k[3], k[1].rd)
  }

  /** slti rd, a, imm; xori rd, rd, 1; beqz or bnez rd, with imm not -2048 */
  predicate MatchesNotLessImm(k: seq<Instr>)
  {
    |k| > 2 && IsAluI(k[0], Slti) && k[0].imm != -2048
    && k[1] == AluI(Xori, k[0].rd, k[0].rd, 1) && ZeroBranchOn(k[2], k[0].rd)
  }

  /** slti rd, a, 0 or 1; beqz or bnez rd, with one more line to come: the test is nested in the one
      for the longer window */
  predicate MatchesSignTest(k: seq<Instr>)
  {
    |k| > 2 && IsAluI(k[0], Slti) && (k[0].imm == 0 || k[0].imm == 1) && ZeroBranchOn(k[1], k[0].rd)
  }

  predicate Matches(pat: Pattern, k: seq<Instr>)
  {
    match pat
    case Less => MatchesLess(k)
    case Equality => MatchesEquality(k)
    case NotLess => MatchesNotLess(k)
    case EqualityImm => MatchesEqualityImm(k)
    case NotLessImm => MatchesNotLessImm(k)
    case SignTest => MatchesSignTest(k)
  }

  function Length(pat: Pattern): nat
  {
    match pat
    case Less => 2
    case Equality => 3
    case NotLess => 3
    case EqualityImm => 4
    case NotLessImm => 3
    case SignTest => 2
  }

  /** The lines a matched window becomes. */
  function Replacement(pat: Pattern, k: seq<Instr>): seq<Instr>
    requires Matches(pat, k)
  {
    var br := k[Length(pat) - 1];
    var onZero := br.ztest == Eqz;
    match pat
    case Less => [Br(if onZero then Ge else Lt, k[0].rs1, k[0].rs2, br.target)]
    case Equality => [Br(if k[1].Seqz? == onZero then Ne else Eq, k[0].rs1, k[0].rs2, br.target)]
    case NotLess => [Br(if onZero then Lt else Ge, k[0].rs1, k[0].rs2, br.target)]
    case EqualityImm =>
      var test := if k[2].Seqz? == onZero then Nez else Eqz;
      if k[0].imm == 0 then [BrZ(test, k[1].rs1, br.target)]
      else [AluI(Addi, k[1].rd, k[1].rs1, -k[0].imm), BrZ(test, k[1].rd, br.target)]
    case NotLessImm =>
      [AluI(Addi, k[0].rd, k[0].rs, -k[0].imm), BrZ(if onZero then Ltz else Gez, k[0].rd, br.target)]
    case SignTest =>
      [BrZ(if k[0].imm == 1 then (if onZero then Gtz else Lez) else (if onZero then Gez else Ltz),
           k[0].rs, br.target)]
  }

  predicate JumpsToNext(k: seq<Instr>) { |k| > 1 && k[0].J? && k[1] == Lab(k[0].target) }

  predicate ReloadsStored(k: seq<Instr>) { |k| > 1 && k[0].Sw? && k[1] == Lw(k[0].rs, k[0].off, k[0].base) }

  datatype Choice = DropOne | KeepStore | Rewrite(pat: Pattern) | Copy

  /** The tests of the scan, in its order. */
  function Choose(k: seq<Instr>): Choice
    requires k != []
  {
    if JumpsToNext(k) then DropOne
    else if ReloadsStored(k) then KeepStore
    else if IsNoOp(k[0]) then DropOne
    else if MatchesLess(k) then Rewrite(Less)
    else if MatchesEquality(k) then Rewrite(Equality)
    else if MatchesNotLess(k) then Rewrite(NotLess)
    else if MatchesEqualityImm(k) then Rewrite(EqualityImm)
    else if MatchesNotLessImm(k) then Rewrite(NotLessImm)
    else if MatchesSignTest(k) then Rewrite(SignTest)
    else Copy
  }

  function Consumed(k: seq<Instr>): (n: nat)
    requires k != []
    ensures 1 <= n <= |k|
  {
    match Choose(k)
    case DropOne => 1
    case KeepStore => 2
    case Rewrite(pat) => Length(pat)
    case Copy => 1
  }

  function Produced(k: seq<Instr>): seq<Instr>
    requires k != []
  {
    match Choose(k)
    case DropOne => []
    case KeepStore => [k[0]]
    case Rewrite(pat) => Replacement(pat, k)
    case Copy => [k[0]]
  }

  function Peep(k: seq<Instr>): seq<Instr>
    decreases |k|
  {
    if k == [] then [] else Produced(k) + Peep(k[Consumed(k)..])
  }

  lemma PeepUnfold(k: seq<Instr>)
    requires k != []
    ensures Peep(k) == Produced(k) + Peep(k[Consumed(k)..])
  {
  }

  /** The replacement for the window at the head of k, and how many lines it covers. */
  method Scan(k: seq<Instr>) returns (lines: seq<Instr>, n: nat)
    requires k != []
    ensures lines == Produced(k) && n == Consumed(k)
  {
    if JumpsToNext(k) { return [], 1; }
    if ReloadsStored(k) { return [k[0]], 2; }
    if IsNoOp(k[0]) { return [], 1; }
    if MatchesLess(k) { return Replacement(Less, k), 2; }
    if MatchesEquality(k) { return Replacement(Equality, k), 3; }
    if MatchesNotLess(k) { return Replacement(NotLess, k), 3; }
    if MatchesEqualityImm(k) { return Replacement(EqualityImm, k), 4; }
    if MatchesNotLessImm(k) { return Replacement(NotLessImm, k), 3; }
    if MatchesSignTest(k) { return Replacement(SignTest, k), 2; }
    return [k[0]], 1;
  }

  /** The pass itself: one loop over the lines. */
  method ApplyPeephole(lines: seq<Instr>) returns (out: seq<Instr>)
    ensures out == Peep(lines)
  {
    hide Peep, Produced, Choose;
    out := [];
    var i := 0;
    while i < |lines|
      invariant 0 <= i <= |lines|
      invariant out + Peep(lines[i..]) == Peep(lines)
    {
      var produced, n := Scan(lines[i..]);
      PeepUnfold(lines[i..]);
      assert lines[i..][n..] == lines[i + n..];
      out := out + produced;
      i := i + n;
    }
    PeepEmpty();
    assert lines[i..] == [];
  }

  lemma PeepEmpty()
    ensures Peep([]) == []
  {
  }
}
