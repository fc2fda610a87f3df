/** What loading the cached globals at entry does to the arguments that have not been moved yet. */
module GlobalClash {
  import opened Word
  import opened Ir
  import opened IrFlow
  import opened Rv32
  import opened Frame
  import opened TempRanges
  import opened Allocation
  import opened Coloring
  import opened Body
  import opened Homes
  import opened FunctionSim

  /** The global, if any, that lives in register r. */
  ghost predicate CachedIn(f: StackFrame, r: Reg) { exists g :: g in f.globalRegAlloc && f.globalRegAlloc[g] == r }

  function LoadsCode(f: StackFrame, constants: seq<i32>, globals: seq<string>): seq<Instr> {
    LoadConstantsCode(f, constants) + LoadGlobalsCode(f, globals)
  }

  /**
    After the entry loads an argument register holds its argument exactly when no global is cached there; when
    one is, it holds that global's value, whatever the argument was.
   */
  lemma ArgumentAfterLoads(f: StackFrame, constants: seq<i32>, globals: seq<string>, s: State, k: nat)
    requires k < 8 && DistinctConstants(f) && DistinctGlobals(f)
    requires Lists(constants, f.constantRegAlloc.Keys) && Lists(globals, f.globalRegAlloc.Keys)
    requires A(k) !in f.constantRegAlloc.Values
    ensures var t := Run(LoadsCode(f, constants, globals), s);
            && (!CachedIn(f, A(k)) ==> R(t, A(k)) == R(s, A(k)))
            && (forall g :: g in f.globalRegAlloc && f.globalRegAlloc[g] == A(k) ==>
                  R(t, A(k)) == Load(s, SymAddr(s, g)))
  {
    hide R, Load, SymAddr, LoadConstantsCode, LoadGlobalsCode;
    Listed(constants, f.constantRegAlloc.Keys);
    Listed(globals, f.globalRegAlloc.Keys);
    ConstantsLoaded(f, constants, |constants|, s);
    assert constants[..|constants|] == constants;
    OneLineEach(f, constants);
    var u := Run(LoadConstantsCode(f, constants), s);
    GlobalsLoaded(f, globals, u);
    RunAppend(LoadConstantsCode(f, constants), LoadGlobalsCode(f, globals), s);
    SameLoads(s, u);
    if !CachedIn(f, A(k)) {
      assert A(k) !in f.globalRegAlloc.Values;
    }
  }

  lemma SameLoads(s: State, u: State)
    requires u.mem == s.mem && u.syms == s.syms
    ensures forall g :: Load(u, SymAddr(u, g)) == Load(s, SymAddr(s, g))
  {
  }

  /** `int f(int a, int b) { g = a; return b; }` */
  function ClashIr(): seq<IrInst> {
    [IrInst(LOCAL_VAR_DECL, Local("a"), Param("a"), NoOperand),
     IrInst(LOCAL_VAR_DECL, Local("b"), Param("b"), NoOperand),
     IrInst(ASSIGN, Global("g"), Local("a"), NoOperand),
     IrInst(RETURN, Local("b"), NoOperand, NoOperand)]
  }

  /** Both parameters get a block-local t-register, and the global the first argument register left over. */
  function ClashFrame(): StackFrame {
    StackFrame(false, false, 0, 0, map["a" := -1, "b" := -1], map[], map[], map["g" := A(1)],
      map["a" := T(3), "b" := T(4)], map[], [])
  }

  lemma NamesDiffer()
    ensures "a" != "b"
  {
    assert "a"[0] != "b"[0];
  }

  lemma RangesNext(ir: seq<IrInst>, v: string, n: nat, rs: seq<LiveRange>)
    requires n < |ir| && Ranges(ir, v, n) == Some(rs)
    ensures Ranges(ir, v, n + 1) == AfterDef(ir, v, n, AfterUse(ir, v, n, Some(rs)))
  {
  }

  predicate IsClash(ir: seq<IrInst>) {
    && |ir| == 4
    && ir[0] == IrInst(LOCAL_VAR_DECL, Local("a"), Param("a"), NoOperand)
    && ir[1] == IrInst(LOCAL_VAR_DECL, Local("b"), Param("b"), NoOperand)
    && ir[2] == IrInst(ASSIGN, Global("g"), Local("a"), NoOperand)
    && ir[3] == IrInst(RETURN, Local("b"), NoOperand, NoOperand)
  }

  lemma OneBlock(ir: seq<IrInst>)
    requires IsClash(ir)
    ensures forall k :: 0 <= k <= 3 ==> BlockOf(ir, k) == 0
  {
    assert BlockOf(ir, 0) == 0 && BlockOf(ir, 1) == 0 && BlockOf(ir, 2) == 0 && BlockOf(ir, 3) == 0;
  }

  lemma ScanA(ir: seq<IrInst>)
    requires IsClash(ir)
    ensures IsCandidate(ir, "a")
  {
    hide BlockOf, Ranges, RefCount;
    OneBlock(ir);
    Counted(ir);
    NamesDiffer();
    NoRanges(ir, "a");
    RangesNext(ir, "a", 0, []);
    assert [] + [LiveRange(0, 0, 0)] == [LiveRange(0, 0, 0)];
    RangesNext(ir, "a", 1, [LiveRange(0, 0, 0)]);
    RangesNext(ir, "a", 2, [LiveRange(0, 0, 0)]);
    assert [LiveRange(0, 0, 0)][0 := LiveRange(0, 2, 0)] == [LiveRange(0, 2, 0)];
    RangesNext(ir, "a", 3, [LiveRange(0, 2, 0)]);
  }

  lemma ScanB(ir: seq<IrInst>)
    requires IsClash(ir)
    ensures IsCandidate(ir, "b")
  {
    hide BlockOf, Ranges, RefCount;
    OneBlock(ir);
    Counted(ir);
    NamesDiffer();
    NoRanges(ir, "b");
    RangesNext(ir, "b", 0, []);
    RangesNext(ir, "b", 1, []);
    assert [] + [LiveRange(1, 1, 0)] == [LiveRange(1, 1, 0)];
    RangesNext(ir, "b", 2, [LiveRange(1, 1, 0)]);
    RangesNext(ir, "b", 3, [LiveRange(1, 1, 0)]);
  }

  lemma NoRanges(ir: seq<IrInst>, v: string)
    ensures Ranges(ir, v, 0) == Some([])
  {
  }

  lemma Counted(ir: seq<IrInst>)
    requires IsClash(ir)
    ensures RefCount(ir, "a", |ir|) >= 2 && RefCount(ir, "b", |ir|) >= 2
  {
    NamesDiffer();
    assert RefCount(ir, "b", 1) == 0;
    assert RefCount(ir, "a", 1) == 1 && RefCount(ir, "a", 2) == 1;
    assert RefCount(ir, "b", 3) == RefCount(ir, "b", 2) == 1;
  }

  lemma ClashParams(ir: seq<IrInst>)
    requires IsClash(ir)
    ensures ParamIndex(ir, |ir|) == 2 && OverflowArgs(ir, |ir|) == 0
    ensures Incoming(ir, |ir|) == map["a" := 0, "b" := 1]
  {
    assert ParamIndex(ir, 1) == 1 && ParamIndex(ir, 2) == 2 && ParamIndex(ir, 3) == 2;
    assert Incoming(ir, 1) == map["a" := 0];
    assert Incoming(ir, 2) == map["a" := 0, "b" := 1];
    assert Incoming(ir, 3) == Incoming(ir, 2);
    assert OverflowArgs(ir, 1) == 0 && OverflowArgs(ir, 2) == 0 && OverflowArgs(ir, 3) == 0;
  }

  lemma ClashLocals(ir: seq<IrInst>)
    requires IsClash(ir)
    ensures Locals(ir) <= {"a", "b"}
  {
    forall v | v in Locals(ir) ensures v in {"a", "b"} {
      var i :| 0 <= i < |ir| && v in LocalName(ir[i].dest) + LocalName(ir[i].src1) + LocalName(ir[i].src2);
      assert i == 0 || i == 1 || i == 2 || i == 3;
    }
  }

  /** The tables meet everything the analysis promises, and yet the global takes b's argument register. */
  lemma ClashAllowed()
    ensures TablesFor(ClashIr(), ClashFrame())
    ensures ClashFrame().globalRegAlloc["g"] == A(1)
    ensures "b" in Incoming(ClashIr(), 4) && Incoming(ClashIr(), 4)["b"] == 1
  {
    var ir, f := ClashIr(), ClashFrame();
    assert IsClash(ir);
    ClashTables(ir, f);
    ClashParams(ir);
  }

  lemma ClashTables(ir: seq<IrInst>, f: StackFrame)
    requires IsClash(ir) && f == ClashFrame()
    ensures TablesFor(ir, f)
  {
    hide DefinitionsSafe, TempsOk, Locals, Incoming, ParamIndex, OverflowArgs, FrameFits, TablesOk, RegistersSafe;
    ClashParams(ir);
    ClashTemps(ir, f);
    ClashDefinitions(ir, f);
    ClashFrameFits(ir, f);
    ClashRegisters(ir, f);
    assert "g" in GlobalName(ir[2].dest) + GlobalName(ir[2].src1) + GlobalName(ir[2].src2);
  }

  lemma ClashFrameFits(ir: seq<IrInst>, f: StackFrame)
    requires IsClash(ir) && f == ClashFrame()
    ensures FrameFits(ir, f)
  {
    hide Locals, ParamIndex, OverflowArgs;
    ClashParams(ir);
    ClashLocals(ir);
  }

  lemma ClashRegisters(ir: seq<IrInst>, f: StackFrame)
    requires f == ClashFrame()
    ensures TablesOk(f) && RegistersSafe(ir, f)
  {
    NamesDiffer();
  }

  lemma ClashTemps(ir: seq<IrInst>, f: StackFrame)
    requires IsClash(ir) && f == ClashFrame()
    ensures TempsOk(ir, f.tempRegs)
  {
    hide IsCandidate, SomeOverlap;
    ScanA(ir);
    ScanB(ir);
    assert T(3) in TempRegisters(ir) && T(4) in TempRegisters(ir);
  }

  lemma ClashDefinitions(ir: seq<IrInst>, f: StackFrame)
    requires IsClash(ir) && f == ClashFrame()
    ensures DefinitionsSafe(ir, f)
  {
    hide Locals, LiveAfterInst;
    ClashLocals(ir);
    forall i, d, w | 0 <= i < |ir| && Disturbs(ir, i, d, w) ensures PlacesDiffer(f, d, w) {
      DefinedIsLocal(ir, i, d);
      LiveIsLocal(ir, i, w);
    }
  }

  /** What is then returned as b is the value g had on entry. */
  lemma ClashMisreads(s: State)
    ensures var f := ClashFrame();
            R(Run(LoadsCode(f, [], ["g"]) + ParamDeclCode(f, Local("b"), 1), s), T(4)) == Load(s, SymAddr(s, "g"))
  {
    var f := ClashFrame();
    ArgumentAfterLoads(f, [], ["g"], s, 1);
    assert ParamDeclCode(f, Local("b"), 1) == [Mv(T(4), A(1))];
    RunAppend(LoadsCode(f, [], ["g"]), [Mv(T(4), A(1))], s);
    Run1(Mv(T(4), A(1)), Run(LoadsCode(f, [], ["g"]), s));
  }

  // ---- when it can happen, read off the input ----

  /** The function calls something, or names no global, or no parameter that arrives in a1 to a7 is a candidate for a
      t-register. */
  predicate ParamsStay(ir: seq<IrInst>)
  {
    HasCall(ir) || NamedGlobals(ir) == {} ||
    forall p :: p in Incoming(ir, |ir|) && Incoming(ir, |ir|)[p] >= 1 ==> !IsCandidate(ir, p)
  }

  /** Then no global takes the register of a parameter, whatever the allocator's choices. */
  lemma StayingParams(ir: seq<IrInst>, f: StackFrame)
    requires TablesFor(ir, f) && ParamsStay(ir)
    ensures NoGlobalClash(ir, f)
  {
    hide IsCandidate, DefinitionsSafe, TablesOk, FrameFits, ScratchFree, Incoming, NamedGlobals;
    forall g, p | g in f.globalRegAlloc && p in Incoming(ir, |ir|)
      ensures f.globalRegAlloc[g] != A(Incoming(ir, |ir|)[p])
    {
      if Incoming(ir, |ir|)[p] >= 1 {
        assert p !in f.tempRegs;
        assert RegForVar(f, p) == Some(A(Incoming(ir, |ir|)[p]));
      }
    }
  }

  lemma {:induction false} SlotsExist(names: set<string>) returns (offsets: map<string, int>)
    ensures offsets.Keys == names
    ensures forall v :: v in names ==> 0 <= offsets[v] < |names|
    ensures forall u, v :: u in names && v in names && u != v ==> offsets[u] != offsets[v]
  {
    if names == {} {
      offsets := map[];
    } else {
      var v :| v in names;
      var rest := SlotsExist(names - {v});
      offsets := rest[v := |names| - 1];
    }
  }

  /** Tables in which p alone has a t-register, the other parameters keep theirs, and a global takes p's. */
  function MovedTables(ir: seq<IrInst>, p: string, g: string, slots: map<string, int>): StackFrame
    requires p in Incoming(ir, |ir|)
  {
    var ins := Incoming(ir, |ir|);
    var offsets := map v | v in slots :: if v in ins then -1 else slots[v];
    StackFrame(
      false, ParamIndex(ir, |ir|) > 8, WORD_BYTES * |slots|, WORD_BYTES * OverflowArgs(ir, |ir|), offsets, map[],
      map q | q in ins && q != p :: A(ins[q]), map[g := A(ins[p])], map[p := T(4)], map[], [])
  }

  lemma MovedTablesFit(ir: seq<IrInst>, p: string, g: string, slots: map<string, int>)
    requires !HasCall(ir) && p in Incoming(ir, |ir|) && Incoming(ir, |ir|)[p] >= 1 && IsCandidate(ir, p)
    requires g in NamedGlobals(ir)
    requires slots.Keys == Locals(ir) && |slots| < 0x400_0000
    requires forall v :: v in slots ==> 0 <= slots[v] < |slots|
    requires forall u, v :: u in slots && v in slots && u != v ==> slots[u] != slots[v]
    ensures TablesFor(ir, MovedTables(ir, p, g, slots))
  {
    hide IsCandidate, Incoming, Locals, ParamIndex, OverflowArgs, TablesOk, RegistersSafe, ScratchFree, IncomingKept,
         DefinitionsSafe, FrameFits, TempsOk;
    IncomingFresh(ir, |ir|);
    IncomingSmall(ir, |ir|);
    MovedRegisters(ir, p, g, slots);
    MovedDefinitions(ir, p, g, slots);
    MovedFrame(ir, p, g, slots);
    MovedTemps(ir, p, g, slots);
  }

  lemma MovedTemps(ir: seq<IrInst>, p: string, g: string, slots: map<string, int>)
    requires p in Incoming(ir, |ir|) && IsCandidate(ir, p)
    ensures TempsOk(ir, MovedTables(ir, p, g, slots).tempRegs)
  {
    hide IsCandidate, Incoming, ParamIndex, OverflowArgs;
    assert T(4) in TempRegisters(ir);
  }

  lemma {:induction false} IncomingSmall(ir: seq<IrInst>, n: nat)
    requires n <= |ir|
    ensures forall q :: q in Incoming(ir, n) ==> Incoming(ir, n)[q] < 8
  {
    if n > 0 { IncomingSmall(ir, n - 1); }
  }

  lemma MovedRegisters(ir: seq<IrInst>, p: string, g: string, slots: map<string, int>)
    requires !HasCall(ir) && p in Incoming(ir, |ir|) && Incoming(ir, |ir|)[p] >= 1 && IncomingOk(Incoming(ir, |ir|))
    requires forall q :: q in Incoming(ir, |ir|) ==> Incoming(ir, |ir|)[q] < 8
    requires forall v :: v in slots ==> 0 <= slots[v] < 0x400_0000
    ensures var f := MovedTables(ir, p, g, slots);
            TablesOk(f) && RegistersSafe(ir, f) && ScratchFree(ir, f) && IncomingKept(ir, f)
  {
    var f := MovedTables(ir, p, g, slots);
    assert TablesOk(f) by { MovedOk(ir, p, g, slots); }
    assert RegistersSafe(ir, f) by { MovedSafe(ir, p, g, slots); }
    hide Incoming, ParamIndex, OverflowArgs, RegForVar;
  }

  lemma MovedOk(ir: seq<IrInst>, p: string, g: string, slots: map<string, int>)
    requires p in Incoming(ir, |ir|) && Incoming(ir, |ir|)[p] >= 1
    requires forall q :: q in Incoming(ir, |ir|) ==> Incoming(ir, |ir|)[q] < 8
    requires forall v :: v in slots ==> 0 <= slots[v] < 0x400_0000
    ensures TablesOk(MovedTables(ir, p, g, slots))
  {
    hide Incoming, MovedTables, RegForVar, LocalOffset;
    var f := MovedTables(ir, p, g, slots);
    MovedBanks(ir, p, g, slots);
    forall v | v in f.localOffsets ensures FitsInt32(LocalOffset(f, v)) { MovedOffset(ir, p, g, slots, v); }
  }

  /** The registers handed out are allocatable, and no constant has one. */
  lemma MovedBanks(ir: seq<IrInst>, p: string, g: string, slots: map<string, int>)
    requires p in Incoming(ir, |ir|) && forall q :: q in Incoming(ir, |ir|) ==> Incoming(ir, |ir|)[q] < 8
    ensures var f := MovedTables(ir, p, g, slots);
            && f.regAlloc == map[] && f.constantRegAlloc == map[] && f.localOffsets.Keys <= slots.Keys
            && (forall v :: v in f.leafRegAlloc ==> Allocatable(f.leafRegAlloc[v]))
            && (forall v :: v in f.tempRegs ==> Allocatable(f.tempRegs[v]))
            && (forall v :: v in f.globalRegAlloc ==> Allocatable(f.globalRegAlloc[v]))
  {
    hide Incoming, ParamIndex, OverflowArgs;
  }

  lemma MovedSafe(ir: seq<IrInst>, p: string, g: string, slots: map<string, int>)
    requires p in Incoming(ir, |ir|) && Incoming(ir, |ir|)[p] >= 1 && IncomingOk(Incoming(ir, |ir|))
    ensures RegistersSafe(ir, MovedTables(ir, p, g, slots))
  {
    hide Incoming, ParamIndex, OverflowArgs, RegForVar;
    forall v ensures RegForVar(MovedTables(ir, p, g, slots), v) == MovedTo(ir, p, v) { MovedPlace(ir, p, g, slots, v); }
  }

  /** The register a local has in those tables. */
  function MovedTo(ir: seq<IrInst>, p: string, v: string): Frame.Option<Reg>
  {
    var ins := Incoming(ir, |ir|);
    if v == p then Some(T(4)) else if v in ins then Some(A(ins[v])) else None
  }

  lemma MovedPlace(ir: seq<IrInst>, p: string, g: string, slots: map<string, int>, v: string)
    requires p in Incoming(ir, |ir|)
    ensures RegForVar(MovedTables(ir, p, g, slots), v) == MovedTo(ir, p, v)
  {
    hide Incoming;
  }

  lemma MovedOffset(ir: seq<IrInst>, p: string, g: string, slots: map<string, int>, v: string)
    requires p in Incoming(ir, |ir|) && v in slots && 0 <= slots[v] < 0x400_0000
    ensures FitsInt32(LocalOffset(MovedTables(ir, p, g, slots), v))
  {
    hide Incoming;
  }

  lemma MovedDefinitions(ir: seq<IrInst>, p: string, g: string, slots: map<string, int>)
    requires p in Incoming(ir, |ir|) && IncomingOk(Incoming(ir, |ir|)) && slots.Keys == Locals(ir)
    requires forall u, v :: u in slots && v in slots && u != v ==> slots[u] != slots[v]
    ensures DefinitionsSafe(ir, MovedTables(ir, p, g, slots))
  {
    hide Incoming, Locals, ParamIndex, OverflowArgs, LiveAfterInst;
    var f := MovedTables(ir, p, g, slots);
    forall i, d, w | 0 <= i < |ir| && Disturbs(ir, i, d, w) ensures PlacesDiffer(f, d, w) {
      DefinedIsLocal(ir, i, d);
      LiveIsLocal(ir, i, w);
    }
  }

  lemma MovedFrame(ir: seq<IrInst>, p: string, g: string, slots: map<string, int>)
    requires p in Incoming(ir, |ir|) && slots.Keys == Locals(ir) && |slots| < 0x400_0000
    requires forall v :: v in slots ==> 0 <= slots[v] < |slots|
    ensures FrameFits(ir, MovedTables(ir, p, g, slots))
  {
    hide Incoming, Locals, ParamIndex, OverflowArgs;
  }

  /**
    The condition is exact for what the tables promise: all tables that meet it keep the globals out of the
    parameters' way if and only if the function calls something, names no global, or has no parameter arriving in a1
    to a7 that can be moved to a t-register.
   */
  lemma ClashExactly(ir: seq<IrInst>)
    requires |Locals(ir)| < 0x400_0000
    ensures (forall f :: TablesFor(ir, f) ==> NoGlobalClash(ir, f)) <==> ParamsStay(ir)
  {
    hide TablesFor, NoGlobalClash, IsCandidate, Incoming, Locals, NamedGlobals;
    if ParamsStay(ir) {
      forall f | TablesFor(ir, f) ensures NoGlobalClash(ir, f) { StayingParams(ir, f); }
    } else {
      var p :| p in Incoming(ir, |ir|) && Incoming(ir, |ir|)[p] >= 1 && IsCandidate(ir, p);
      var g :| g in NamedGlobals(ir);
      var slots := SlotsExist(Locals(ir));
      assert |slots| == |slots.Keys|;
      MovedTablesFit(ir, p, g, slots);
      var f := MovedTables(ir, p, g, slots);
      MovedClashes(ir, p, g, slots);
      assert TablesFor(ir, f) && !NoGlobalClash(ir, f);
    }
  }

  lemma MovedClashes(ir: seq<IrInst>, p: string, g: string, slots: map<string, int>)
    requires p in Incoming(ir, |ir|)
    ensures !NoGlobalClash(ir, MovedTables(ir, p, g, slots))
  {
    hide Incoming;
    assert g in MovedTables(ir, p, g, slots).globalRegAlloc;
  }
}
