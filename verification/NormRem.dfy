/** The remainder that is never negative, `((x % m) + m) % m`: the shapes it takes in the intermediate
    representation, what they compute, and the shorter code that replaces them. */
module NormRem {
  import opened Word
  import opened Shifts
  import opened Ir
  import opened IrFlow
  import opened IrMachine
  import opened Rv32
  import opened Frame
  import opened Selection
  import opened BinaryOp
  import opened Remainder
  import opened BodySim
  import opened Liveness

  // --------------------------------------------------------------------------
  // What they compute
  // --------------------------------------------------------------------------

  /** What the two spellings of a remainder leave, starting from dividend x. */
  lemma RemainderParts(x: i32, m: i32)
    requires m > 1
    ensures Wrap(RvDiv(x, m) * m) == RvDiv(x, m) * m && Wrap(m * RvDiv(x, m)) == RvDiv(x, m) * m
    ensures Wrap(x - RvDiv(x, m) * m) == RvRem(x, m)
    ensures -m < RvRem(x, m) < m && (x >= 0 ==> RvRem(x, m) >= 0) &&
            (x >= 0 ==> RvDiv(x, m) * m >= 0 && RvDiv(x, m) >= 0)
  {
    TruncDivRemainder(x, m);
    ProductBound(x, m, TruncDiv(x, m));
    assert TruncDiv(x, m) * m == m * TruncDiv(x, m);
  }

  lemma ProductBound(x: int, m: int, q: int)
    requires m > 1 && q == TruncDiv(x, m)
    ensures (x >= 0 ==> 0 <= q * m <= x && q >= 0) && (x < 0 ==> x <= q * m <= 0)
  {
    if x >= 0 { DivModSplit(x, m); } else { DivModSplit(-x, m); }
    if x >= 0 {
      assert q == x / m;
      MulMono(0, q, m);
    } else {
      assert q == -((-x) / m);
      MulMono(0, -q, m);
      Distribute(0, q, m);
    }
  }

  /** The value of the whole chain for dividend x. */
  function NormalValue(x: i32, m: i32): i32
    requires m > 1
  {
    RvRem(Wrap(RvRem(x, m) + m), m)
  }

  /** Unless the addition overflows, the chain is the mathematical remainder. */
  lemma NormalIsEuclid(x: i32, m: i32)
    requires m > 1 && FitsInt32(RvRem(x, m) + m)
    ensures NormalValue(x, m) == x % m && 0 <= NormalValue(x, m) < m
  {
    RemainderParts(x, m);
    TruncDivRemainder(x, m);
    var r := RvRem(x, m);
    TruncDivRemainder(r + m, m);
    RemainderParts(r + m, m);
    var q := TruncDiv(x, m);
    EuclidOf(x, m, q, r);
    EuclidOf(r + m, m, TruncDiv(r + m, m), TruncRem(r + m, m));
    if r < 0 { DivModUnique(r + m, m, 0, r + m); } else { DivModUnique(r + m, m, 1, r); }
  }

  lemma EuclidOf(x: int, m: int, q: int, r: int)
    requires m > 1 && x == q * m + r && -m < r < m
    ensures r >= 0 ==> x % m == r
    ensures r < 0 ==> x % m == r + m
  {
    assert q * m == m * q;
    if r >= 0 {
      DivModUnique(x, m, q, r);
    } else {
      Distribute(q, 1, m);
      assert m * (q - 1) == m * q - m;
      DivModUnique(x, m, q - 1, r + m);
    }
  }

  /** For a power of two up to 2^30 two shifts give the chain's value, whatever the dividend. */
  lemma PowerFusion(x: i32, k: nat)
    requires 1 <= k <= 30
    ensures Pow2(k) > 1 && FitsInt32(Pow2(k)) && NormalValue(x, Pow2(k)) == Srl(Sll(x, 32 - k), 32 - k)
  {
    Pow2Mono(1, k);
    Pow2Range(k);
    LowBits(x, k);
    RemainderParts(x, Pow2(k));
    NormalIsEuclid(x, Pow2(k));
  }

  /** For a dividend that is not negative a single remainder gives the chain's value, exactly when the
      addition does not overflow. */
  lemma SingleFusion(x: i32, m: i32)
    requires m > 1 && x >= 0
    ensures NormalValue(x, m) == RvRem(x, m) <==> FitsInt32(RvRem(x, m) + m)
  {
    RemainderParts(x, m);
    var r := RvRem(x, m);
    if FitsInt32(r + m) {
      NormalIsEuclid(x, m);
      assert x == RvDiv(x, m) * m + r by { TruncDivRemainder(x, m); }
      EuclidOf(x, m, RvDiv(x, m), r);
    } else {
      assert Wrap(r + m) == r + m - TWO32;
      NegativeRemainder(Wrap(r + m), m);
    }
  }

  lemma NegativeRemainder(x: i32, m: i32)
    requires m > 1 && x < 0
    ensures RvRem(x, m) <= 0
  {
    TruncDivRemainder(x, m);
  }

  /** A remainder on which they differ: the sum of the first remainder and the modulus wraps. */
  lemma SingleFusionFails()
    ensures NormalValue(0x5fff_ffff, 0x6000_0000) != RvRem(0x5fff_ffff, 0x6000_0000)
  {
    SingleFusion(0x5fff_ffff, 0x6000_0000);
    DivModUnique(0x5fff_ffff, 0x6000_0000, 0, 0x5fff_ffff);
  }

  // --------------------------------------------------------------------------
  // The chain run in the intermediate representation
  // --------------------------------------------------------------------------

  predicate NoneOf(leaves: set<nat>, from: nat, to: nat) { forall k :: k in leaves ==> !(from <= k < to) }

  lemma {:induction false} RunSplit(ir: seq<IrInst>, loops: set<nat>, leaves: set<nat>, calls: IrCalls, i: nat,
                                    st: IrState,
                                    m: nat, n: nat, j: nat, st': IrState)
    requires IrRun(ir, loops, leaves, calls, i, st, m) == Goes(j, st')
    ensures IrRun(ir, loops, leaves, calls, i, st, m + n) == IrRun(ir, loops, leaves, calls, j, st', n)
    decreases m
  {
    hide IrStep;
    if m > 0 && i !in leaves {
      var x := IrStep(ir, loops, calls, i, st);
      RunSplit(ir, loops, leaves, calls, x.i, x.st, m - 1, n, j, st');
    }
  }

  lemma StoreRun(ir: seq<IrInst>, loops: set<nat>, leaves: set<nat>, calls: IrCalls, i: nat, st: IrState, v: i32)
    requires i < |ir| && i !in leaves && IsArithmetic(ir[i].op) && IsVariable(ir[i].dest) &&
             Computes(ir[i], st) == Some(v)
    ensures IrRun(ir, loops, leaves, calls, i, st, 1) == Goes(i + 1, Assign(st, ir[i].dest, v))
  {
    hide Computes;
    assert IrStep(ir, loops, calls, i, st) == Goes(i + 1, Assign(st, ir[i].dest, v));
    assert IrRun(ir, loops, leaves, calls, i + 1, Assign(st, ir[i].dest, v), 0) ==
           Goes(i + 1, Assign(st, ir[i].dest, v));
  }

  /** st' is st with v in dest and anything in the temporaries. */
  ghost predicate Became(st: IrState, st': IrState, dest: Operand, v: i32, temps: set<Operand>)
    requires IsVariable(dest)
  {
    && Eval(st', dest) == Some(v) && st'.args == st.args && st'.params == st.params
    && forall o :: o != dest && o !in temps ==> Eval(st', o) == Eval(st, o)
  }

  lemma AssignEval(st: IrState, o: Operand, v: i32)
    requires IsVariable(o)
    ensures Eval(Assign(st, o, v), o) == Some(v)
    ensures forall q :: q != o ==> Eval(Assign(st, o, v), q) == Eval(st, q)
    ensures Assign(st, o, v).args == st.args && Assign(st, o, v).params == st.params
  {
  }

  /** Either spelling leaves the remainder of the dividend. */
  lemma RawRun(ir: seq<IrInst>, loops: set<nat>, leaves: set<nat>, calls: IrCalls, a: nat, st: IrState, x: i32)
    returns (st': IrState)
    requires MatchRaw(ir, a).Some? && TempsApart(ir, a) && Eval(st, MatchRaw(ir, a).value.source) == Some(x)
    requires NoneOf(leaves, a, a + MatchRaw(ir, a).value.length)
    ensures var raw := MatchRaw(ir, a).value;
            && IrRun(ir, loops, leaves, calls, a, st, raw.length) == Goes(a + raw.length, st')
            && Became(st, st', raw.destination, RvRem(x, raw.modulus), RawTemps(ir, a))
  {
    hide IrRun, Eval, RvDiv, RvRem, Assign, Wrap;
    var raw := MatchRaw(ir, a).value;
    var m := raw.modulus;
    if raw.length == 1 {
      ComputesFrom(ir[a], st, x, m);
      StoreRun(ir, loops, leaves, calls, a, st, RvRem(x, m));
      st' := Assign(st, ir[a].dest, RvRem(x, m));
      AssignEval(st, ir[a].dest, RvRem(x, m));
    } else {
      RemainderParts(x, m);
      var q, p, d := ir[a].dest, ir[a + 1].dest, ir[a + 2].dest;
      ImmEval(st, m);
      ComputesFrom(ir[a], st, x, m);
      StoreRun(ir, loops, leaves, calls, a, st, RvDiv(x, m));
      var st1 := Assign(st, q, RvDiv(x, m));
      AssignEval(st, q, RvDiv(x, m));
      ImmEval(st1, m);
      ProductComputes(ir[a + 1], ir[a], st1, RvDiv(x, m), m);
      StoreRun(ir, loops, leaves, calls, a + 1, st1, RvDiv(x, m) * m);
      var st2 := Assign(st1, p, RvDiv(x, m) * m);
      AssignEval(st1, p, RvDiv(x, m) * m);
      ComputesFrom(ir[a + 2], st2, x, RvDiv(x, m) * m);
      StoreRun(ir, loops, leaves, calls, a + 2, st2, RvRem(x, m));
      st' := Assign(st2, d, RvRem(x, m));
      AssignEval(st2, d, RvRem(x, m));
      RunSplit(ir, loops, leaves, calls, a, st, 1, 2, a + 1, st1);
      RunSplit(ir, loops, leaves, calls, a + 1, st1, 1, 1, a + 2, st2);
    }
  }

  lemma ImmEval(st: IrState, m: i32)
    ensures Eval(st, Imm(m)) == Some(m)
  {
  }

  lemma ComputesFrom(inst: IrInst, st: IrState, a: i32, b: i32)
    requires IsArithmetic(inst.op) && Eval(st, inst.src1) == Some(a) &&
             (Eval(st, inst.src2) == Some(b) || inst.src2 == Imm(b))
    ensures Computes(inst, st) == Some(Arithmetic(inst.op, a, b))
  {
  }

  lemma ProductComputes(product: IrInst, first: IrInst, st: IrState, q: i32, m: i32)
    requires ProductOf(product, first) && first.src2 == Imm(m) && Eval(st, first.dest) == Some(q)
    requires Wrap(q * m) == q * m && Wrap(m * q) == q * m
    ensures Computes(product, st) == Some(q * m)
  {
  }

  /** The whole chain leaves its value in the destination and touches only its temporaries besides. */
  lemma ChainRun(ir: seq<IrInst>, loops: set<nat>, leaves: set<nat>, calls: IrCalls, a: nat, st: IrState, x: i32)
    returns (st': IrState)
    requires MatchNormalized(ir, a).Some? && ChainApart(ir, a) &&
             Eval(st, MatchNormalized(ir, a).value.source) == Some(x)
    requires NoneOf(leaves, a, a + MatchNormalized(ir, a).value.length)
    ensures var n := MatchNormalized(ir, a).value;
            && n.modulus > 1 && IsVariable(n.destination)
            && IrRun(ir, loops, leaves, calls, a, st, n.length) == Goes(a + n.length, st')
            && Became(st, st', n.destination, NormalValue(x, n.modulus), ChainTemps(ir, a))
  {
    hide IrRun, Eval, RvRem, Assign, Wrap;
    var n := MatchNormalized(ir, a).value;
    var first := MatchRaw(ir, a).value;
    var at := a + first.length;
    var second := MatchRaw(ir, at + 1).value;
    var r := RvRem(x, n.modulus);
    var st1 := RawRun(ir, loops, leaves, calls, a, st, x);
    ComputesFrom(ir[at], st1, r, n.modulus);
    StoreRun(ir, loops, leaves, calls, at, st1, Wrap(r + n.modulus));
    var st2 := Assign(st1, n.intermediate, Wrap(r + n.modulus));
    AssignEval(st1, n.intermediate, Wrap(r + n.modulus));
    st' := RawRun(ir, loops, leaves, calls, at + 1, st2, Wrap(r + n.modulus));
    RunSplit(ir, loops, leaves, calls, a, st, first.length, 1 + second.length, at, st1);
    RunSplit(ir, loops, leaves, calls, at, st1, 1, second.length, at + 1, st2);
  }

  // --------------------------------------------------------------------------
  // The fused code
  // --------------------------------------------------------------------------

  lemma TwoShifts(dest: Reg, k: int, s: State)
    requires dest != X0 && 0 <= k
    ensures Computed(s, Run([AluI(Slli, dest, dest, k), AluI(Srli, dest, dest, k)], s), dest,
                     Srl(Sll(R(s, dest), k), k), false)
  {
    hide Srl, Sll, Wrap;
    Run2(AluI(Slli, dest, dest, k), AluI(Srli, dest, dest, k), s);
  }

  /** With a power of two the fused code stores the chain's value for every dividend. */
  lemma FusedPowerCorrect(f: StackFrame, n: Normalized, localNonneg: bool, s: State)
    requires n.modulus > 1 && IsVariable(n.destination) && IsValue(n.source) && IsPowerOfTwo(n.modulus)
    requires OperandOk(f, n.source) && OperandOk(f, n.destination) && ConstantsHold(f, s)
    ensures Written(s, Run(FusedRemainderCode(f, n, localNonneg), s), PlaceOf(f, s, n.destination),
                    NormalValue(Val(f, s, n.source), n.modulus), false)
  {
    hide Run, LoadCode, SettleCode, IsPowerOfTwo, Ctz, NormalValue, PlaceOf, Val, R, Srl, Sll;
    WordPower(n.modulus);
    var dest, k := DestRegOrT0(f, n.destination), Ctz(n.modulus);
    var shifts := [AluI(Slli, dest, dest, 32 - k), AluI(Srli, dest, dest, 32 - k)];
    PowerFusion(Val(f, s, n.source), k);
    LoadCorrect(f, n.source, dest, s);
    var s1 := Run(LoadCode(f, n.source, dest), s);
    TwoShifts(dest, 32 - k, s1);
    RunAppend(LoadCode(f, n.source, dest), shifts, s);
    RunAppend(LoadCode(f, n.source, dest) + shifts, SettleCode(f, n.destination), s);
    Settled(f, s, Run(shifts, s1), n.destination, NormalValue(Val(f, s, n.source), n.modulus), false);
  }

  /** With any other modulus the single remainder is the chain's value when the dividend is not negative
      and the addition of the chain does not overflow. */
  lemma FusedSingleCorrect(f: StackFrame, n: Normalized, localNonneg: bool, s: State)
    requires n.modulus > 1 && IsVariable(n.destination) && IsValue(n.source) && !IsPowerOfTwo(n.modulus)
    requires Ready(f, IrInst(MOD, n.destination, n.source, Imm(n.modulus)), localNonneg, s)
    requires Val(f, s, n.source) >= 0 && FitsInt32(RvRem(Val(f, s, n.source), n.modulus) + n.modulus)
    ensures Written(s, Run(FusedRemainderCode(f, n, localNonneg), s), PlaceOf(f, s, n.destination),
                    NormalValue(Val(f, s, n.source), n.modulus),
                    SpillsT3(f, IrInst(MOD, n.destination, n.source, Imm(n.modulus))))
  {
    hide Run, BinaryCode, IsPowerOfTwo, NormalValue, PlaceOf, SpillsT3, RvRem;
    SingleFusion(Val(f, s, n.source), n.modulus);
    BinaryCorrect(f, IrInst(MOD, n.destination, n.source, Imm(n.modulus)), localNonneg, s);
  }

  // --------------------------------------------------------------------------
  // Is the intermediate still wanted?
  // --------------------------------------------------------------------------

  /** On the way straight down from `from`, before v is written again, some instruction jumps to where v is wanted. */
  ghost predicate JumpsToUse(ir: seq<IrInst>, from: nat, v: string)
    decreases |ir| - from
  {
    from < |ir| && !Defines(ir[from], v) &&
    ((exists j :: j in Successors(ir, from) && j != from + 1 && PathLive(ir, j, v)) ||
     (from + 1 in Successors(ir, from) && JumpsToUse(ir, from + 1, v)))
  }

  /** The scan follows the text, not the control flow. When it finds no use, the value is wanted all the same exactly
      if a jump that is reached straight down, before the line where the scan stops, leads to a use. */
  lemma {:induction false} ScanExactly(ir: seq<IrInst>, from: nat, v: string)
    requires !ScanLive(ir, from, v)
    ensures PathLive(ir, from, v) <==> JumpsToUse(ir, from, v)
    decreases |ir| - from
  {
    hide PathLive, Successors;
    OneStep(ir, from, v);
    if from < |ir| && !Defines(ir[from], v) { ScanExactly(ir, from + 1, v); }
  }

  /** A value not read here is wanted here if it is kept and wanted at some successor. */
  lemma OneStep(ir: seq<IrInst>, i: nat, v: string)
    requires i < |ir| ==> v !in UsedLocals(ir[i])
    ensures PathLive(ir, i, v) <==>
            i < |ir| && !Defines(ir[i], v) && exists j :: j in Successors(ir, i) && PathLive(ir, j, v)
  {
    hide Successors;
    if PathLive(ir, i, v) {
      var path :| UsePath(ir, v, path) && path[0] == i;
      assert |path| > 1;
      assert path[0 + 1] in Successors(ir, i) && !Defines(ir[i], v);
      PathTail(ir, v, path);
    }
    if i < |ir| && !Defines(ir[i], v) {
      forall j | j in Successors(ir, i) && PathLive(ir, j, v) ensures PathLive(ir, i, v) { PathBefore(ir, i, j, v); }
    }
  }

  lemma PathTail(ir: seq<IrInst>, v: string, path: seq<nat>)
    requires UsePath(ir, v, path) && |path| > 1
    ensures PathLive(ir, path[1], v)
  {
    var rest := path[1..];
    forall k | 0 <= k < |rest| - 1 ensures rest[k + 1] in Successors(ir, rest[k]) && !Defines(ir[rest[k]], v) {
      assert rest[k] == path[k + 1] && rest[k + 1] == path[(k + 1) + 1];
    }
    assert UsePath(ir, v, rest);
  }
}
