/**
  A cached global that no line of the draft names: its saved register is missing from the save list, and the function
  returns with that register changed.
 */
module SaveListShort {
  import opened Ir
  import opened IrFlow
  import opened Rv32
  import opened Frame
  import opened Control
  import opened TempRanges
  import opened Allocation
  import opened FrameCode
  import opened Remainder
  import opened Body
  import opened Homes
  import opened FunctionSim
  import opened TailCall
  import opened NonNeg
  import opened Peephole
  import opened SavedRegisters
  import opened WholeProgram
  import opened Generated
  import opened LeafUnits
  import BinaryOp
  import BodyFlow

  const COUNT := 8

  /** Eight globals, "a" to "h". */
  function GlobalAt(i: nat): string
    requires i < COUNT
  {
    ['a' + i as char]
  }

  /** The registers for cached globals: a1 to a7, then s2. */
  function RegisterAt(i: nat): Reg { if i < 7 then A(i + 1) else S(2) }

  lemma GlobalsDiffer()
    ensures forall i, j :: 0 <= i < COUNT && 0 <= j < COUNT && i != j ==> GlobalAt(i) != GlobalAt(j)
  {
    forall i, j | 0 <= i < COUNT && 0 <= j < COUNT && i != j ensures GlobalAt(i) != GlobalAt(j) {
      assert GlobalAt(i)[0] != GlobalAt(j)[0];
    }
  }

  /** The first n globals in their registers. */
  function Cached(n: nat): map<string, Reg>
    requires n <= COUNT
  {
    if n == 0 then map[] else Cached(n - 1)[GlobalAt(n - 1) := RegisterAt(n - 1)]
  }

  lemma {:induction false} CachedAt(n: nat)
    requires n <= COUNT
    ensures forall i: nat :: i < n ==> GlobalAt(i) in Cached(n) && Cached(n)[GlobalAt(i)] == RegisterAt(i)
    ensures forall g :: g in Cached(n) ==> exists i: nat :: i < n && g == GlobalAt(i) && Cached(n)[g] == RegisterAt(i)
  {
    hide GlobalAt, RegisterAt;
    GlobalsDiffer();
    if n > 0 { CachedAt(n - 1); }
  }

  function Registers(): map<string, Reg> { Cached(COUNT) }

  /** a = a; b = b; ... h = h; return */
  function SelfMoves(): seq<IrInst>
  {
    seq(COUNT, i requires 0 <= i < COUNT => IrInst(ASSIGN, Global(GlobalAt(i)), Global(GlobalAt(i)), NoOperand)) +
    [IrInst(RETURN, NoOperand, NoOperand, NoOperand)]
  }

  function ShortFrame(): StackFrame
  {
    StackFrame(false, false, 0, 0, map[], map[], map[], Registers(), map[], map[], [])
  }

  function ShortUnit(order: seq<string>): Unit
  {
    Unit("f", SelfMoves(), ShortFrame(), 0, {}, {}, false, AfterCode("f", ShortFrame(), 0, order))
  }

  function ShortDraft(): Unit { Unit("f", SelfMoves(), ShortFrame(), 0, {}, {}, true, []) }

  // ---- the tables ----

  lemma NothingLocal()
    ensures Locals(SelfMoves()) == {} && !HasCall(SelfMoves())
    ensures forall i :: 0 <= i < |SelfMoves()| ==> !DeclaresParam(SelfMoves()[i]) && !SelfMoves()[i].op.PARAM?
  {
    var ir := SelfMoves();
    assert forall i :: 0 <= i < |ir| ==> LocalName(ir[i].dest) + LocalName(ir[i].src1) + LocalName(ir[i].src2) == {};
  }

  lemma AllNamed(g: string)
    requires g in Registers()
    ensures g in NamedGlobals(SelfMoves())
  {
    var i: nat :| i < COUNT && GlobalAt(i) == g;
    assert g in GlobalName(SelfMoves()[i].dest) + GlobalName(SelfMoves()[i].src1) + GlobalName(SelfMoves()[i].src2);
  }

  lemma ShortTables()
    ensures TablesFor(SelfMoves(), ShortFrame()) && FrameSize(ShortFrame()) == 0
  {
    hide Cached, Locals, Incoming, ParamIndex, OverflowArgs, IsCandidate, HasCall, NamedGlobals, SelfMoves, Registers,
         DefinitionsSafe, RegistersSafe, TablesOk;
    NothingLocal();
    NothingComesIn(SelfMoves(), |SelfMoves()|);
    NothingDefined();
    ShortRegisters();
    forall g | g in ShortFrame().globalRegAlloc ensures g in NamedGlobals(SelfMoves()) { AllNamed(g); }
  }

  lemma NothingDefined()
    ensures DefinitionsSafe(SelfMoves(), ShortFrame())
  {
    assert forall i, d :: 0 <= i < |SelfMoves()| ==> !Defines(SelfMoves()[i], d);
  }

  lemma ShortRegisters()
    ensures TablesOk(ShortFrame()) && RegistersSafe(SelfMoves(), ShortFrame())
  {
    hide Cached, SelfMoves, Registers;
    ShortDistinct();
    CachesReal();
  }

  lemma CachesReal()
    ensures forall g :: g in Registers() ==> !Registers()[g].T? && Registers()[g] != A(0) && Allocatable(Registers()[g])
  {
    hide Cached;
    CachedAt(COUNT);
  }

  lemma ShortDistinct()
    ensures DistinctGlobals(ShortFrame())
  {
    hide Cached;
    CachesReal();
    CachedAt(COUNT);
    var m := Registers();
    forall g, h | g in m && h in m && g != h ensures m[g] != m[h] {
      var i: nat :| i < COUNT && g == GlobalAt(i) && m[g] == RegisterAt(i);
      var j: nat :| j < COUNT && h == GlobalAt(j) && m[h] == RegisterAt(j);
    }
  }

  // ---- the lines ----

  lemma NoLines(c: Unit, i: nat)
    requires c.ir == SelfMoves() && c.f == ShortFrame() && i < COUNT
    ensures Alone(c, i) && InstCode(c, i) == []
  {
    hide Cached, MatchNormalized, BinaryOp.BinaryCode;
    if FusesChain(c, i) { ChainOpens(c.ir, i); }
    CachedAt(COUNT);
    assert GlobalAt(i) in c.f.globalRegAlloc;
  }

  lemma OnlyJump(c: Unit)
    requires c.ir == SelfMoves() && c.tails == {}
    ensures Alone(c, COUNT) && InstCode(c, COUNT) == [J(ExitLabel(c.name))] && |c.ir| == COUNT + 1
  {
    hide Cached, ExitLabel;
  }

  lemma {:induction false} BodyIsJump(c: Unit, i: nat)
    requires c.ir == SelfMoves() && c.f == ShortFrame() && c.tails == {} && i <= COUNT
    ensures CodeFrom(c, i) == [J(ExitLabel(c.name))] + c.after
    decreases COUNT - i
  {
    hide Cached, CodeFrom, InstCode, Alone, SelfMoves, ExitLabel;
    OnlyJump(c);
    if i < COUNT {
      NoLines(c, i);
      AloneCode(c, i);
      BodyIsJump(c, i + 1);
      assert [] + CodeFrom(c, i + 1) == CodeFrom(c, i + 1);
    } else {
      AloneCode(c, COUNT);
      NothingLeft(c, COUNT + 1);
    }
  }

  /** The draft is one jump, which names no register. */
  lemma DraftText()
    ensures CodeFrom(ShortDraft(), 0) == [J(ExitLabel("f"))] && Peep(CodeFrom(ShortDraft(), 0)) == [J(ExitLabel("f"))]
    ensures ListsNamed([], Peep(CodeFrom(ShortDraft(), 0))) &&
            !CachesNamed(ShortFrame(), Peep(CodeFrom(ShortDraft(), 0)))
  {
    hide Cached, CodeFrom, Peep, SelfMoves, ExitLabel;
    BodyIsJump(ShortDraft(), 0);
    var k := [J(ExitLabel("f"))];
    PeepUnfold(k);
    assert k[1..] == [];
    PeepEmpty();
    CachedAt(COUNT);
    assert GlobalAt(7) in ShortFrame().globalRegAlloc;
  }

  lemma NotCovered(order: seq<string>)
    ensures !SavedCovers(ShortUnit(order))
  {
    hide Cached, CodeFrom, SelfMoves, AfterCode;
    CachedAt(COUNT);
    assert GlobalAt(7) in ShortFrame().globalRegAlloc;
  }

  lemma NoCallsHere(i: nat)
    ensures !IsTailCall(SelfMoves(), i)
  {
  }

  lemma ShortProduced(order: seq<string>)
    requires Lists(order, Registers().Keys)
    ensures Produces(Compiled(ShortUnit(order), [], order), ShortDraft())
  {
    hide Cached, CodeFrom, Peep, SelfMoves, AfterCode, TablesFor, FrameSize, SavedCovers, CachesNamed, ListsNamed,
         ScratchWindows, IsTailCall, ClaimedNonneg, Registers;
    ShortTables();
    DraftText();
    NotCovered(order);
    forall i: nat ensures !IsTailCall(ShortUnit(order).ir, i) { NoCallsHere(i); }
  }

  // ---- the run ----

  /** All lines but the last jump, label and return. */
  function Loads(order: seq<string>): seq<Instr>
  {
    [Lab("f")] + LoadGlobalsCode(ShortFrame(), order) + [Lab(BodyLabel("f"))]
  }

  function Stores(order: seq<string>): seq<Instr> { [Lab(ExitLabel("f"))] + StoreGlobalsCode(ShortFrame(), order) }

  lemma ShortText(order: seq<string>)
    ensures FunctionCode(ShortUnit(order), [], order) == Loads(order) + ([J(ExitLabel("f"))] + (Stores(order) + [Ret]))
  {
    hide Cached, CodeFrom, SelfMoves, ExitLabel, BodyLabel, LoadGlobalsCode, StoreGlobalsCode;
    var c := ShortUnit(order);
    BodyIsJump(c, 0);
    assert EpilogueCode(c.f, 0) == [Ret];
    assert c.after == Stores(order) + [Ret];
    assert BeforeCode("f", c.f, 0, [], order) == [Lab("f")] + LoadGlobalsCode(c.f, order);
  }

  lemma LoadsStraight(order: seq<string>)
    ensures AllStraight(Loads(order)) && AllStraight(Stores(order))
    ensures forall l :: Lab(l) in Loads(order) ==> l == "f" || l == BodyLabel("f")
  {
    hide Cached, ExitLabel, BodyLabel;
    LoadsShape(ShortFrame(), [], order);
  }

  /** s2 holds the eighth global from the entry on. */
  lemma LoadedState(order: seq<string>, s: State)
    requires Lists(order, Registers().Keys)
    ensures R(Run(Loads(order), s), S(2)) == Load(s, SymAddr(s, GlobalAt(7)))
  {
    hide Cached, Run, LoadGlobalsCode, Load, SymAddr, BodyLabel, R;
    ShortDistinct();
    Listed(order, Registers().Keys);
    assert GlobalAt(7) in Registers() && ShortFrame().globalRegAlloc[GlobalAt(7)] == S(2) by { SeventhAt(); }
    var loads := LoadGlobalsCode(ShortFrame(), order);
    LabelKeeps("f", s);
    RunAppend([Lab("f")], loads, s);
    GlobalsLoaded(ShortFrame(), order, s);
    LabelKeeps(BodyLabel("f"), Run(loads, s));
    RunAppend([Lab("f")] + loads, [Lab(BodyLabel("f"))], s);
  }

  lemma SeventhAt()
    ensures GlobalAt(7) in Registers() && Registers()[GlobalAt(7)] == S(2)
  {
  }

  lemma LabelKeeps(l: string, s: State)
    ensures Run([Lab(l)], s) == s
  {
    Run1(Lab(l), s);
  }

  lemma {:induction false} StoresKeepSaved(order: seq<string>, s: State)
    ensures R(Run(StoreGlobalsCode(ShortFrame(), order), s), S(2)) == R(s, S(2))
    decreases |order|
  {
    hide Cached, Run, Registers;
    if order == [] {
      RunEmpty(s);
    } else {
      var n := |order| - 1;
      var r := if order[n] in ShortFrame().globalRegAlloc then ShortFrame().globalRegAlloc[order[n]] else X0;
      StoresKeepSaved(order[..n], s);
      var t := Run(StoreGlobalsCode(ShortFrame(), order[..n]), s);
      RunAppend(StoreGlobalsCode(ShortFrame(), order[..n]), [La(T(2), order[n]), Sw(r, 0, T(2))], s);
      Run2(La(T(2), order[n]), Sw(r, 0, T(2)), t);
    }
  }

  lemma StoredState(order: seq<string>, s: State)
    ensures R(Run(Stores(order), s), S(2)) == R(s, S(2))
  {
    hide Cached, Run, StoreGlobalsCode, ExitLabel, R;
    LabelKeeps(ExitLabel("f"), s);
    RunAppend([Lab(ExitLabel("f"))], StoreGlobalsCode(ShortFrame(), order), s);
    StoresKeepSaved(order, s);
  }

  lemma ExitAt(order: seq<string>)
    ensures var p := FunctionCode(ShortUnit(order), [], order);
            HasLabel(p, ExitLabel("f")) && After(p, ExitLabel("f")) == Stores(order) + [Ret]
  {
    hide Cached, After, HasLabel, FunctionCode, StoreGlobalsCode, LoadGlobalsCode;
    BodyFlow.ExitIsNotBody("f");
    assert |ExitLabel("f")| > 1;
    hide Cached, ExitLabel, BodyLabel;
    ShortText(order);
    LoadsStraight(order);
    var a := Loads(order) + [J(ExitLabel("f"))];
    AfterAppend(a, Stores(order) + [Ret], ExitLabel("f"));
    assert a + (Stores(order) + [Ret]) == FunctionCode(ShortUnit(order), [], order);
    BodyFlow.LandsHere(ExitLabel("f"), StoreGlobalsCode(ShortFrame(), order) + [Ret]);
    assert [Lab(ExitLabel("f"))] + (StoreGlobalsCode(ShortFrame(), order) + [Ret]) == Stores(order) + [Ret];
  }

  lemma ShortRuns(order: seq<string>, s: State, calls: Calls) returns (n: nat)
    ensures var p := FunctionCode(ShortUnit(order), [], order);
            Exec(p, p, s, n, calls) == Exit(Returns, Run(Stores(order), Run(Loads(order), s)))
  {
    hide Cached, Exec, Run, Loads, Stores, FunctionCode, ExitLabel, After, HasLabel;
    var p, jump := FunctionCode(ShortUnit(order), [], order), [J(ExitLabel("f"))] + (Stores(order) + [Ret]);
    var t := Run(Loads(order), s);
    ShortText(order);
    LoadsStraight(order);
    ExitAt(order);
    ExecStraight(p, Loads(order), jump, s, calls);
    JumpTakes(p, ExitLabel("f"), Stores(order) + [Ret], t, calls);
    ExecStraight(p, Stores(order), [Ret], t, calls);
    ReturnTakes(p, Run(Stores(order), t), calls);
    ExecSplit(p, Stores(order) + [Ret], t, |Stores(order)|, 1, calls);
    ExecSplit(p, jump, t, 1, |Stores(order)| + 1, calls);
    ExecSplit(p, p, s, |Loads(order)|, 1 + (|Stores(order)| + 1), calls);
    n := |Loads(order)| + (1 + (|Stores(order)| + 1));
  }

  /**
    The generator produces this function with an empty save list, because the draft names none of its registers; the
    global in s2 is not among those the draft names. The function returns with that global's value in s2, whatever
    the caller had there.
   */
  lemma SaveListShort(order: seq<string>, s: State, calls: Calls) returns (n: nat)
    requires Lists(order, Registers().Keys)
    ensures Produces(Compiled(ShortUnit(order), [], order), ShortDraft())
    ensures !CachesNamed(ShortFrame(), Peep(CodeFrom(ShortDraft(), 0))) && !SavedCovers(ShortUnit(order))
    ensures var p := FunctionCode(ShortUnit(order), [], order);
            && Exec(p, p, s, n, calls).Exit? && Exec(p, p, s, n, calls).how == Returns
            && R(Exec(p, p, s, n, calls).s, S(2)) == Load(s, SymAddr(s, GlobalAt(7)))
  {
    hide Cached, Exec, Run, Loads, Stores, FunctionCode, Produces, CachesNamed, SavedCovers, CodeFrom, Peep, R, Load,
         SymAddr, Registers, SelfMoves, AfterCode;
    ShortProduced(order);
    DraftText();
    NotCovered(order);
    n := ShortRuns(order, s, calls);
    LoadedState(order, s);
    StoredState(order, Run(Loads(order), s));
  }
}
