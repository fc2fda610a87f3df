/** `analyzeStackFrame`: every register and slot decision for one function, and what they guarantee.
    The orders in which candidates are tried only affect speed, so they are arbitrary inputs. */
module Allocation {
  import opened Word
  import opened Ir
  import opened IrFlow
  import opened Rv32
  import opened Frame
  import opened Liveness
  import opened TempRanges
  import opened Coloring

  predicate DistinctNames(names: seq<string>) { forall i, j :: 0 <= i < j < |names| ==> names[i] != names[j] }

  function Incoming(ir: seq<IrInst>, n: nat): map<string, nat>
    requires n <= |ir|
  {
    if n == 0 then map[]
    else if DeclaresParam(ir[n - 1]) && ParamIndex(ir, n - 1) < 8 then
      Incoming(ir, n - 1)[ir[n - 1].dest.name := ParamIndex(ir, n - 1)]
    else Incoming(ir, n - 1)
  }

  lemma {:induction false} IncomingFresh(ir: seq<IrInst>, n: nat)
    requires n <= |ir|
    ensures IncomingOk(Incoming(ir, n))
    ensures forall p :: p in Incoming(ir, n) ==> Incoming(ir, n)[p] < ParamIndex(ir, n)
  {
    if n > 0 { IncomingFresh(ir, n - 1); }
  }

  method CollectIncoming(ir: seq<IrInst>) returns (incoming: map<string, nat>, hasStackParameters: bool)
    ensures incoming == Incoming(ir, |ir|)
    ensures hasStackParameters <==> ParamIndex(ir, |ir|) > 8
  {
    incoming, hasStackParameters := map[], false;
    var index := 0;
    for i := 0 to |ir|
      invariant index == ParamIndex(ir, i) && incoming == Incoming(ir, i)
      invariant hasStackParameters <==> index > 8
    {
      if DeclaresParam(ir[i]) {
        if index < 8 { incoming := incoming[ir[i].dest.name := index]; } else { hasStackParameters := true; }
        index := index + 1;
      }
    }
  }

  /** Extra words for the arguments beyond the eighth. */
  function OverflowArgs(ir: seq<IrInst>, n: nat): nat
    requires n <= |ir|
  {
    if n == 0 then 0
    else
      var m := OverflowArgs(ir, n - 1);
      if ir[n - 1].op.PARAM? && ir[n - 1].src1.Imm? && ir[n - 1].src1.immVal >= 8 && ir[n - 1].src1.immVal - 7 > m
      then ir[n - 1].src1.immVal - 7 else m
  }

  // --------------------------------------------------------------------------
  // Globals and hoisted constants
  // --------------------------------------------------------------------------

  predicate DistinctRegs(regs: seq<Reg>) { forall i, j :: 0 <= i < j < |regs| ==> regs[i] != regs[j] }

  method FreeRegisters(pool: seq<Reg>, used: set<Reg>) returns (free: seq<Reg>)
    requires DistinctRegs(pool)
    ensures DistinctRegs(free) && forall r :: r in free <==> r in pool && r !in used
  {
    free := [];
    for i := 0 to |pool|
      invariant DistinctRegs(free) && forall r :: r in free <==> r in pool[..i] && r !in used
    {
      assert pool[..i + 1] == pool[..i] + [pool[i]];
      if pool[i] !in used { free := free + [pool[i]]; }
    }
    assert pool[..|pool|] == pool;
  }

  /** Gives the first names the first free registers, one each. */
  method AssignInOrder<K(==)>(names: seq<K>, free: seq<Reg>, limit: nat) returns (m: map<K, Reg>)
    requires DistinctRegs(free)
    requires forall i, j :: 0 <= i < j < |names| ==> names[i] != names[j]
    ensures forall k :: k in m ==> k in names && m[k] in free
    ensures forall k, l :: k in m && l in m && k != l ==> m[k] != m[l]
  {
    hide DistinctRegs;
    m := map[];
    var i: nat := 0;
    while i < |names| && i < |free| && i < limit
      invariant 0 <= i <= |names| && i <= |free|
      invariant InOrder(names, free, i, m)
    {
      m := m[names[i] := free[i]];
      i := i + 1;
    }
    InOrderDistinct(names, free, i, m);
  }

  ghost predicate InOrder<K>(names: seq<K>, free: seq<Reg>, n: nat, m: map<K, Reg>)
    requires n <= |names| && n <= |free|
  {
    forall k :: k in m ==> exists j :: 0 <= j < n && k == names[j] && m[k] == free[j]
  }

  lemma InOrderDistinct<K>(names: seq<K>, free: seq<Reg>, n: nat, m: map<K, Reg>)
    requires n <= |names| && n <= |free| && InOrder(names, free, n, m) && DistinctRegs(free)
    ensures forall k :: k in m ==> k in names && m[k] in free
    ensures forall k, l :: k in m && l in m && k != l ==> m[k] != m[l]
  {
    forall k, l | k in m && l in m && k != l ensures m[k] != m[l] {
      var a :| 0 <= a < n && k == names[a] && m[k] == free[a];
      var b :| 0 <= b < n && l == names[b] && m[l] == free[b];
    }
  }

  /** Registers numbered lo up to hi of one bank. */
  function Bank(saved: bool, lo: nat, hi: nat): (regs: seq<Reg>)
    requires lo <= hi
    ensures |regs| == hi - lo
    ensures forall i :: 0 <= i < |regs| ==> regs[i] == if saved then S(lo + i) else A(lo + i)
    decreases hi - lo
  {
    seq(hi - lo, i requires 0 <= i < hi - lo => if saved then S(lo + i) else A(lo + i))
  }

  /** Argument registers from lo on, then the saved registers, after the registers of `first`. */
  function Pool(first: seq<Reg>, lo: nat): seq<Reg>
    requires lo <= 8
  {
    first + Bank(false, lo, 8) + Bank(true, 2, 12)
  }

  lemma PoolMembers(first: seq<Reg>, lo: nat)
    requires lo <= 8 && first in {[], [T(3)]}
    ensures DistinctRegs(Pool(first, lo))
    ensures forall r :: r in Pool(first, lo) <==>
              r in first || (r.A? && lo <= r.n < 8) || (r.S? && 2 <= r.n < 12)
  {
    forall r: Reg | (r.A? && lo <= r.n < 8) || (r.S? && 2 <= r.n < 12) ensures r in Pool(first, lo) {
      if r.A? { assert Bank(false, lo, 8)[r.n - lo] == r; } else { assert Bank(true, 2, 12)[r.n - 2] == r; }
    }
  }

  /** A remainder whose dividend is not in a register needs t3 to keep it. */
  predicate NeedsRemainderScratch(ir: seq<IrInst>, colors: map<string, Reg>, temps: map<string, Reg>,
                                  globals: map<string, Reg>)
  {
    exists i :: 0 <= i < |ir| && ir[i].op.MOD? &&
      !((ir[i].src1.Local? && (ir[i].src1.name in temps || ir[i].src1.name in colors)) ||
        (ir[i].src1.Global? && ir[i].src1.name in globals))
  }

  /** Globals live in registers only in a function that calls nothing; a0 stays free for the result. */
  method AssignGlobals(globalOrder: seq<string>, colors: map<string, Reg>, hasCall: bool)
    returns (globals: map<string, Reg>)
    requires DistinctNames(globalOrder)
    ensures hasCall ==> globals == map[]
    ensures forall g :: g in globals ==> g in globalOrder && LocalRegister(globals[g], false) && globals[g] != A(0)
    ensures forall g, h :: g in globals && h in globals && g != h ==> globals[g] != globals[h]
    ensures forall g, v :: g in globals && v in colors ==> globals[g] != colors[v]
  {
    if hasCall { return map[]; }
    hide Pool, DistinctRegs;
    PoolMembers([], 1);
    var free := FreeRegisters(Pool([], 1), colors.Values);
    globals := AssignInOrder(globalOrder, free, |free|);
  }

  /** Constants take what is left: t3 when no remainder needs it, argument registers that neither
      arrive with a parameter nor hold a variable, and saved registers. */
  method AssignConstants(ir: seq<IrInst>, ranked: seq<i32>, colors: map<string, Reg>, temps: map<string, Reg>,
                         globals: map<string, Reg>, incoming: map<string, nat>, hasCall: bool)
    returns (constants: map<i32, Reg>)
    requires forall i, j :: 0 <= i < j < |ranked| ==> ranked[i] != ranked[j]
    requires forall v :: v in temps ==> temps[v].T?
    requires forall v :: v in colors ==> !colors[v].T?
    requires forall g :: g in globals ==> !globals[g].T?
    ensures forall c :: c in constants ==>
              && Allocatable(constants[c])
              && constants[c] !in colors.Values + globals.Values + temps.Values
              && (forall p :: p in incoming && !hasCall ==> constants[c] != A(incoming[p]))
              && (hasCall ==> constants[c].S?)
              && (constants[c].T? ==> !NeedsRemainderScratch(ir, colors, temps, globals))
    ensures forall c, d :: c in constants && d in constants && c != d ==> constants[c] != constants[d]
  {
    hide Pool, DistinctRegs, NeedsRemainderScratch;
    PoolMembers([], 8);
    PoolMembers([], 0);
    PoolMembers([T(3)], 0);
    var pool := Pool([], 8);
    if !hasCall {
      pool := Pool(if NeedsRemainderScratch(ir, colors, temps, globals) then [] else [T(3)], 0);
    }
    var arriving := set p | p in incoming :: A(incoming[p]);
    var used := colors.Values + globals.Values + temps.Values + (if hasCall then {} else arriving);
    var free := FreeRegisters(pool, used);
    constants := AssignInOrder(ranked, free, 6);
  }

  // --------------------------------------------------------------------------
  // The whole analysis
  // --------------------------------------------------------------------------

  /** Two locals do not share a register or a slot. */
  predicate PlacesDiffer(f: StackFrame, u: string, v: string)
  {
    match (RegForVar(f, u), RegForVar(f, v))
    case (Some(a), Some(b)) => a != b
    case (None, None) => u in f.localOffsets && v in f.localOffsets && f.localOffsets[u] != f.localOffsets[v]
    case _ => true
  }

  /** Instruction i writes d while w is live after it, and is not a copy of w. */
  ghost predicate Disturbs(ir: seq<IrInst>, i: nat, d: string, w: string)
    requires i < |ir|
  {
    Defines(ir[i], d) && LiveAfterInst(ir, i, w) && d != w && !(IsCopy(ir[i]) && ir[i].src1.name == w)
  }

  /** Writing d at i disturbs nothing that is live afterwards, except the source it copies. */
  ghost predicate DefinitionsSafe(ir: seq<IrInst>, f: StackFrame)
  {
    forall i, d, w :: 0 <= i < |ir| && Disturbs(ir, i, d, w) ==> PlacesDiffer(f, d, w)
  }

  ghost predicate RegistersSafe(ir: seq<IrInst>, f: StackFrame)
  {
    && (forall g, v :: g in f.globalRegAlloc && RegForVar(f, v).Some? ==> f.globalRegAlloc[g] != RegForVar(f, v).value)
    && (forall g, h :: g in f.globalRegAlloc && h in f.globalRegAlloc && g != h ==>
          f.globalRegAlloc[g] != f.globalRegAlloc[h])
    && (forall g :: g in f.globalRegAlloc ==> f.globalRegAlloc[g] != A(0))
    && (f.hasCall ==> f.globalRegAlloc == map[])
    && (forall g :: g in f.globalRegAlloc ==> !f.globalRegAlloc[g].T?)
    && (forall v :: v in f.leafRegAlloc ==> f.leafRegAlloc[v].A? && !f.hasCall)
    && (forall c, d :: c in f.constantRegAlloc && d in f.constantRegAlloc && c != d ==>
          f.constantRegAlloc[c] != f.constantRegAlloc[d])
    && (forall v :: v in f.tempRegs ==> v !in f.leafRegAlloc && v !in f.regAlloc && f.tempRegs[v].T?)
    && (f.hasCall ==> forall c :: c in f.constantRegAlloc ==> f.constantRegAlloc[c].S?)
  }

  ghost predicate FrameFits(ir: seq<IrInst>, f: StackFrame)
  {
    && (forall v :: v in Locals(ir) ==> v in f.localOffsets)
    && (forall v :: v in f.localOffsets && RegForVar(f, v).None? ==>
          0 <= f.localOffsets[v] && WORD_BYTES * (f.localOffsets[v] + 1) <= f.localBytes)
    && (forall v :: v in f.localOffsets && RegForVar(f, v).Some? ==> f.localOffsets[v] == -1)
    && |f.usedCalleeSavedRegisters| <= 10
    && f.outgoingArgumentBytes == WORD_BYTES * OverflowArgs(ir, |ir|)
    && 0 <= f.localBytes < 0x1000_0000 && f.localBytes % WORD_BYTES == 0
    && (f.hasStackParameters <==> ParamIndex(ir, |ir|) > 8)
  }

  /** Where a remainder may save its dividend in t3, nothing else lives there. */
  ghost predicate ScratchFree(ir: seq<IrInst>, f: StackFrame)
  {
    forall i :: 0 <= i < |ir| && ir[i].op.MOD? ==>
      && (forall v :: v in f.tempRegs ==> f.tempRegs[v] != T(3))
      && (RegForOperand(f, ir[i].src1).None? ==> forall c :: c in f.constantRegAlloc ==> f.constantRegAlloc[c] != T(3))
  }

  /** A hoisted constant does not take the register a parameter arrives in. */
  ghost predicate IncomingKept(ir: seq<IrInst>, f: StackFrame)
  {
    !f.hasCall ==> forall c, p :: c in f.constantRegAlloc && p in Incoming(ir, |ir|) ==>
      f.constantRegAlloc[c] != A(Incoming(ir, |ir|)[p])
  }

  ghost predicate TablesFor(ir: seq<IrInst>, f: StackFrame)
  {
    && TempsOk(ir, f.tempRegs) && ScratchFree(ir, f) && IncomingKept(ir, f)
    && f.hasCall == HasCall(ir)
    && TablesOk(f) && DefinitionsSafe(ir, f) && RegistersSafe(ir, f) && FrameFits(ir, f)
    && (!f.hasCall ==> forall p :: p in Incoming(ir, |ir|) && p !in f.tempRegs ==>
          p in f.leafRegAlloc && f.leafRegAlloc[p] == A(Incoming(ir, |ir|)[p]))
    && (forall g :: g in f.globalRegAlloc ==> g in NamedGlobals(ir))
  }

  /** Slots for the locals that got no register, consecutive from 0; the others are marked -1. */
  method AssignSlots(order: seq<string>, inRegister: set<string>) returns (offsets: map<string, int>, spilled: nat)
    requires DistinctNames(order)
    ensures offsets.Keys == (set v | v in order) && spilled <= |order|
    ensures forall v :: v in offsets ==> if v in inRegister then offsets[v] == -1 else 0 <= offsets[v] < spilled
    ensures forall u, v :: u in offsets && v in offsets && u != v && u !in inRegister && v !in inRegister ==>
              offsets[u] != offsets[v]
  {
    offsets, spilled := map[], 0;
    for i := 0 to |order|
      invariant offsets.Keys == (set v | v in order[..i]) && spilled <= i
      invariant forall v :: v in offsets ==> if v in inRegister then offsets[v] == -1 else 0 <= offsets[v] < spilled
      invariant forall u, v :: u in offsets && v in offsets && u != v && u !in inRegister && v !in inRegister ==>
                  offsets[u] != offsets[v]
    {
      var v := order[i];
      assert order[..i + 1] == order[..i] + [v];
      if v in inRegister {
        offsets := offsets[v := -1];
      } else {
        offsets := offsets[v := spilled];
        spilled := spilled + 1;
      }
    }
    assert order[..|order|] == order;
  }

  method KeepUsed(pool: seq<Reg>, used: set<Reg>) returns (kept: seq<Reg>)
    requires DistinctRegs(pool)
    ensures |kept| <= |pool| && DistinctRegs(kept) && forall r :: r in kept <==> r in pool && r in used
  {
    kept := [];
    for i := 0 to |pool|
      invariant |kept| <= i && DistinctRegs(kept) && forall r :: r in kept <==> r in pool[..i] && r in used
    {
      assert pool[..i + 1] == pool[..i] + [pool[i]];
      if pool[i] in used { kept := kept + [pool[i]]; }
    }
    assert pool[..|pool|] == pool;
  }

  function LeafPart(colors: map<string, Reg>): map<string, Reg> { map v | v in colors && colors[v].A? :: colors[v] }

  function SavedPart(colors: map<string, Reg>): map<string, nat> { map v | v in colors && colors[v].S? :: colors[v].n }

  /** The tables as the analysis fills them in. */
  function TablesFrom(ir: seq<IrInst>, colors: map<string, Reg>, temps: map<string, Reg>, globals: map<string, Reg>,
                      constants: map<i32, Reg>, offsets: map<string, int>, spilled: nat, saved: seq<Reg>,
                      stackParams: bool): StackFrame
  {
    StackFrame(HasCall(ir), stackParams, WORD_BYTES * spilled, WORD_BYTES * OverflowArgs(ir, |ir|), offsets,
               SavedPart(colors), LeafPart(colors), globals, temps, constants, saved)
  }

  /** The chosen register of a local, read back from the tables. */
  lemma ChosenRegister(f: StackFrame, colors: map<string, Reg>, temps: map<string, Reg>, hasCall: bool, v: string)
    requires f.leafRegAlloc == LeafPart(colors) && f.regAlloc == SavedPart(colors) && f.tempRegs == temps
    requires forall u :: u in colors ==> u !in temps && LocalRegister(colors[u], hasCall)
    ensures RegForVar(f, v) == if v in colors then Some(colors[v]) else if v in temps then Some(temps[v]) else None
  {
  }

  /** What the register choices promise each other. */
  ghost predicate RegistersDecided(ir: seq<IrInst>, colors: map<string, Reg>, temps: map<string, Reg>,
                                   globals: map<string, Reg>, constants: map<i32, Reg>)
  {
    var hasCall, incoming := HasCall(ir), Incoming(ir, |ir|);
    && (forall u :: u in colors ==> u !in temps && LocalRegister(colors[u], hasCall))
    && (forall v :: v in temps ==> temps[v].T? && 3 <= temps[v].n <= 6)
    && (forall g :: g in globals ==> LocalRegister(globals[g], false) && globals[g] != A(0))
    && (forall g, v :: g in globals && v in colors ==> globals[g] != colors[v])
    && (forall g, h :: g in globals && h in globals && g != h ==> globals[g] != globals[h])
    && (hasCall ==> globals == map[]) && globals.Keys <= NamedGlobals(ir)
    && (forall c :: c in constants ==> Allocatable(constants[c]) &&
                                       constants[c] !in colors.Values + globals.Values + temps.Values)
    && (forall c, d :: c in constants && d in constants && c != d ==> constants[c] != constants[d])
    && (hasCall ==> forall c :: c in constants ==> constants[c].S?)
    && (forall c :: c in constants && constants[c].T? ==> !NeedsRemainderScratch(ir, colors, temps, globals))
    && (!hasCall ==> forall p :: p in incoming && p !in temps ==> p in colors && colors[p] == A(incoming[p]))
    && (!hasCall ==> forall c, p :: c in constants && p in incoming ==> constants[c] != A(incoming[p]))
  }

  /** What the slots and the save list promise. */
  ghost predicate SlotsDecided(inRegister: set<string>, offsets: map<string, int>, spilled: nat, saved: seq<Reg>)
  {
    && (forall v :: v in offsets ==> if v in inRegister then offsets[v] == -1 else 0 <= offsets[v] < spilled)
    && (forall u, v :: u in offsets && v in offsets && u != v && u !in inRegister && v !in inRegister ==>
          offsets[u] != offsets[v])
    && |saved| <= 10 && spilled < 0x400_0000
  }

  /** Temporaries and colours together: a definition never takes the register of a variable that is
      live after it, except that of the source it copies. */
  ghost predicate ChoicesSound(ir: seq<IrInst>, temps: map<string, Reg>, colors: map<string, Reg>)
  {
    forall i, d, w :: 0 <= i < |ir| && Disturbs(ir, i, d, w) ==>
      && (d in temps && w in temps ==> temps[d] != temps[w])
      && (d !in temps && w !in temps && d in colors && w in colors ==> colors[d] != colors[w])
  }

  method ChooseRegisters(ir: seq<IrInst>, tempOrder: seq<string>, varOrder: seq<string>, partners: Graph,
                         incoming: map<string, nat>, hasCall: bool)
                           returns (temps: map<string, Reg>, colors: map<string, Reg>)
    requires LabelsReadNothing(ir) && DistinctNames(tempOrder) && IncomingOk(incoming)
    ensures TempsOk(ir, temps) && ChoicesSound(ir, temps, colors)
    ensures forall v :: v in colors ==> v !in temps && LocalRegister(colors[v], hasCall)
    ensures !hasCall ==> forall p :: p in incoming && p !in temps ==> p in colors && colors[p] == A(incoming[p])
  {
    hide Proper, LiveAfterInst, TempsOk, Clash, Solved, PathLive, IncomingOk, LocalRegister, ChoicesSound;
    temps := AllocateTemps(ir, tempOrder);
    var liveIn, liveOut := ComputeLiveness(ir);
    var graph := BuildInterference(ir, liveOut, temps);
    NoSelfClash(ir, liveOut, temps, graph);
    colors := ColorLocals(graph, varOrder, partners, incoming, temps, hasCall);
    ChoicesAreSound(ir, liveIn, liveOut, graph, temps, colors);
  }

  lemma ChoicesAreSound(ir: seq<IrInst>, liveIn: seq<Names>, liveOut: seq<Names>, graph: Graph,
                        temps: map<string, Reg>, colors: map<string, Reg>)
    requires LabelsReadNothing(ir) && TempsOk(ir, temps) && |liveIn| == |liveOut| == |ir|
    requires forall i :: 0 <= i < |ir| ==> Solved(ir, liveIn, liveOut, i)
    requires forall i, v :: 0 <= i < |ir| ==> (v in liveIn[i] <==> PathLive(ir, i, v))
    requires forall u, v :: Edge(graph, u, v) <==> Clash(ir, liveOut, temps, |ir|, u, v)
    requires Proper(graph, colors)
    ensures ChoicesSound(ir, temps, colors)
  {
    hide TempsOk, Clash, Solved, Proper;
    forall i, d, w | 0 <= i < |ir| && Disturbs(ir, i, d, w)
      ensures d in temps && w in temps ==> temps[d] != temps[w]
      ensures d !in temps && w !in temps && d in colors && w in colors ==> colors[d] != colors[w]
    {
      LiveOutIs(ir, liveIn, liveOut, i, w);
      if d in temps && w in temps {
        TempsSound(ir, temps, i, d, w);
      } else if d !in temps && w !in temps {
        ClashDiffers(ir, liveOut, temps, graph, colors, i, d, w);
      }
    }
  }

  /** Every register decision of one function. */
  method DecideRegisters(ir: seq<IrInst>, tempOrder: seq<string>, varOrder: seq<string>, partners: Graph,
                         globalOrder: seq<string>, ranked: seq<i32>, incoming: map<string, nat>)
    returns (temps: map<string, Reg>, colors: map<string, Reg>, globals: map<string, Reg>, constants: map<i32, Reg>)
    requires LabelsReadNothing(ir) && DistinctNames(tempOrder) && DistinctNames(globalOrder)
    requires forall i, j :: 0 <= i < j < |ranked| ==> ranked[i] != ranked[j]
    requires incoming == Incoming(ir, |ir|) && IncomingOk(incoming)
    requires (set g | g in globalOrder) == NamedGlobals(ir)
    ensures TempsOk(ir, temps) && ChoicesSound(ir, temps, colors) &&
            RegistersDecided(ir, colors, temps, globals, constants)
  {
    hide NeedsRemainderScratch, TempsOk, Incoming, IncomingOk, LocalRegister, HasCall, ChoicesSound, Allocatable,
         NamedGlobals;
    var hasCall := HasCall(ir);
    temps, colors := ChooseRegisters(ir, tempOrder, varOrder, partners, incoming, hasCall);
    TempsAreT(ir, temps);
    globals := AssignGlobals(globalOrder, colors, hasCall);
    NotT(colors, hasCall);
    NotT(globals, false);
    constants := AssignConstants(ir, ranked, colors, temps, globals, incoming, hasCall);
  }

  method AnalyzeStackFrame(ir: seq<IrInst>, tempOrder: seq<string>, varOrder: seq<string>, partners: Graph,
                           globalOrder: seq<string>, ranked: seq<i32>) returns (f: StackFrame)
    requires LabelsReadNothing(ir)
    requires DistinctNames(tempOrder) && DistinctNames(varOrder) && DistinctNames(globalOrder)
    requires forall i, j :: 0 <= i < j < |ranked| ==> ranked[i] != ranked[j]
    requires (set v | v in varOrder) == Locals(ir) && |varOrder| < 0x400_0000
    requires (set g | g in globalOrder) == NamedGlobals(ir)
    ensures TablesFor(ir, f) && SavedListed(f)
  {
    hide TempsOk, Incoming, Locals, IncomingOk, TablesFor, HasCall, OverflowArgs, ChoicesSound, RegistersDecided,
         SavedListed;
    var incoming, stackParams := CollectIncoming(ir);
    IncomingFresh(ir, |ir|);
    var temps, colors, globals, constants := DecideRegisters(ir, tempOrder, varOrder, partners, globalOrder, ranked,
                                                             incoming);
    var offsets, spilled := AssignSlots(varOrder, colors.Keys + temps.Keys);
    BankDistinct();
    var saved := KeepUsed(Bank(true, 2, 12), colors.Values + globals.Values + constants.Values);
    f := TablesFrom(ir, colors, temps, globals, constants, offsets, spilled, saved, stackParams);
    TablesWellFormed(ir, f, colors, temps, globals, constants, offsets, spilled, saved);
    ListedFrom(ir, f, colors, temps, globals, constants, saved);
  }

  lemma BankDistinct()
    ensures DistinctRegs(Bank(true, 2, 12))
    ensures forall r: Reg :: r in Bank(true, 2, 12) <==> r.S? && 2 <= r.n < 12
  {
    forall r: Reg | r.S? && 2 <= r.n < 12 ensures r in Bank(true, 2, 12) { assert Bank(true, 2, 12)[r.n - 2] == r; }
  }

  /** Every saved register the tables hand out is on the save list, once. */
  ghost predicate SavedListed(f: StackFrame)
  {
    && DistinctRegs(f.usedCalleeSavedRegisters)
    && (forall r :: r in f.usedCalleeSavedRegisters ==> r.S? && 2 <= r.n < 12)
    && (forall v :: v in f.regAlloc ==> S(f.regAlloc[v]) in f.usedCalleeSavedRegisters)
    && (forall g :: g in f.globalRegAlloc && f.globalRegAlloc[g].S? ==>
          f.globalRegAlloc[g] in f.usedCalleeSavedRegisters)
    && (forall k :: k in f.constantRegAlloc && f.constantRegAlloc[k].S? ==>
          f.constantRegAlloc[k] in f.usedCalleeSavedRegisters)
  }

  lemma ListedFrom(ir: seq<IrInst>, f: StackFrame, colors: map<string, Reg>, temps: map<string, Reg>,
                   globals: map<string, Reg>, constants: map<i32, Reg>, saved: seq<Reg>)
    requires RegistersDecided(ir, colors, temps, globals, constants) && DistinctRegs(saved)
    requires forall r :: r in saved <==>
               (r.S? && 2 <= r.n < 12) && r in colors.Values + globals.Values + constants.Values
    requires f.regAlloc == SavedPart(colors) && f.globalRegAlloc == globals && f.constantRegAlloc == constants
    requires f.usedCalleeSavedRegisters == saved
    ensures SavedListed(f)
  {
    hide DistinctRegs, NeedsRemainderScratch, Incoming, HasCall;
  }

  lemma NotT(colors: map<string, Reg>, hasCall: bool)
    requires forall v :: v in colors ==> LocalRegister(colors[v], hasCall)
    ensures forall v :: v in colors ==> !colors[v].T?
  {
  }

  lemma TempsAreT(ir: seq<IrInst>, temps: map<string, Reg>)
    requires TempsOk(ir, temps)
    ensures forall v :: v in temps ==> temps[v].T? && 3 <= temps[v].n <= 6
  {
    hide IsCandidate, RangesOf, SomeOverlap;
  }

  lemma NoSelfClash(ir: seq<IrInst>, liveOut: seq<Names>, temps: map<string, Reg>, g: Graph)
    requires |liveOut| == |ir|
    requires forall u, v :: Edge(g, u, v) <==> Clash(ir, liveOut, temps, |ir|, u, v)
    ensures forall u :: !Edge(g, u, u)
  {
  }

  lemma ClashDiffers(ir: seq<IrInst>, liveOut: seq<Names>, temps: map<string, Reg>, graph: Graph,
                     colors: map<string, Reg>, i: nat, d: string, w: string)
    requires |liveOut| == |ir| && i < |ir| && Proper(graph, colors) && ClashAt(ir, liveOut, temps, i, d, w)
    requires Edge(graph, d, w) <==> Clash(ir, liveOut, temps, |ir|, d, w)
    ensures d in colors && w in colors ==> colors[d] != colors[w]
  {
  }

  lemma LiveOutIs(ir: seq<IrInst>, liveIn: seq<Names>, liveOut: seq<Names>, i: nat, w: string)
    requires |liveIn| == |liveOut| == |ir| && i < |ir| && Solved(ir, liveIn, liveOut, i)
    requires forall i, v :: 0 <= i < |ir| ==> (v in liveIn[i] <==> PathLive(ir, i, v))
    ensures w in liveOut[i] <==> LiveAfterInst(ir, i, w)
  {
    hide PathLive, Successors;
  }

  lemma LiveIsLocal(ir: seq<IrInst>, i: nat, w: string)
    requires i < |ir| && LiveAfterInst(ir, i, w)
    ensures w in Locals(ir)
  {
    var j :| j in Successors(ir, i) && PathLive(ir, j, w);
    var path :| UsePath(ir, w, path) && path[0] == j;
    LocalsHere(ir, path[|path| - 1]);
  }

  lemma DefinedIsLocal(ir: seq<IrInst>, i: nat, d: string)
    requires i < |ir| && Defines(ir[i], d)
    ensures d in Locals(ir)
  {
    assert d in LocalName(ir[i].dest) + LocalName(ir[i].src1) + LocalName(ir[i].src2);
  }

  lemma TablesWellFormed(ir: seq<IrInst>, f: StackFrame, colors: map<string, Reg>, temps: map<string, Reg>,
                         globals: map<string, Reg>, constants: map<i32, Reg>, offsets: map<string, int>, spilled: nat,
                         saved: seq<Reg>)
    requires RegistersDecided(ir, colors, temps, globals, constants)
    requires SlotsDecided(colors.Keys + temps.Keys, offsets, spilled, saved)
    requires f == TablesFrom(ir, colors, temps, globals, constants, offsets, spilled, saved, f.hasStackParameters)
    requires f.hasStackParameters <==> ParamIndex(ir, |ir|) > 8
    requires TempsOk(ir, temps) && ChoicesSound(ir, temps, colors) && offsets.Keys == Locals(ir)
    ensures TablesFor(ir, f)
  {
    hide HasCall, Incoming, Locals, RegForVar, OverflowArgs, TempsOk, ChoicesSound, ScratchFree, NeedsRemainderScratch,
         RegistersDecided, SlotsDecided, FrameFits, TablesOk, RegistersSafe, DefinitionsSafe, IncomingKept, ParamIndex,
         NamedGlobals;
    forall v
      ensures RegForVar(f, v) == if v in colors then Some(colors[v]) else if v in temps then Some(temps[v]) else None
    {
      Chosen(ir, f, colors, temps, globals, constants, v);
    }
    FitsFrom(ir, f, colors, temps, offsets, spilled, saved);
    PlacesDecided(ir, f, colors, temps, globals, constants, offsets, spilled, saved);
    TablesOkFrom(ir, f, colors, temps, globals, constants, offsets, spilled, saved);
    RegistersSafeFrom(ir, f, colors, temps, globals, constants);
    GlobalsNamed(ir, colors, temps, globals, constants);
  }

  lemma GlobalsNamed(ir: seq<IrInst>, colors: map<string, Reg>, temps: map<string, Reg>, globals: map<string, Reg>,
                     constants: map<i32, Reg>)
    requires RegistersDecided(ir, colors, temps, globals, constants)
    ensures globals.Keys <= NamedGlobals(ir)
  {
    hide HasCall, Incoming, NeedsRemainderScratch, NamedGlobals, Allocatable, LocalRegister;
  }

  lemma Chosen(ir: seq<IrInst>, f: StackFrame, colors: map<string, Reg>, temps: map<string, Reg>,
               globals: map<string, Reg>, constants: map<i32, Reg>, v: string)
    requires RegistersDecided(ir, colors, temps, globals, constants)
    requires f.leafRegAlloc == LeafPart(colors) && f.regAlloc == SavedPart(colors) && f.tempRegs == temps
    ensures RegForVar(f, v) == if v in colors then Some(colors[v]) else if v in temps then Some(temps[v]) else None
  {
    hide HasCall, Incoming, NeedsRemainderScratch, LocalRegister, RegForVar, Allocatable;
    ChosenRegister(f, colors, temps, HasCall(ir), v);
  }

  lemma FitsFrom(ir: seq<IrInst>, f: StackFrame, colors: map<string, Reg>, temps: map<string, Reg>,
                 offsets: map<string, int>,
                 spilled: nat, saved: seq<Reg>)
    requires SlotsDecided(colors.Keys + temps.Keys, offsets, spilled, saved) && offsets.Keys == Locals(ir)
    requires f.localOffsets == offsets && f.usedCalleeSavedRegisters == saved && f.localBytes == WORD_BYTES * spilled
    requires f.outgoingArgumentBytes == WORD_BYTES * OverflowArgs(ir, |ir|)
    requires f.hasStackParameters <==> ParamIndex(ir, |ir|) > 8
    requires forall v :: RegForVar(f, v) == if v in colors then Some(colors[v]) else if v in temps then Some(temps[v])
               else None
    ensures FrameFits(ir, f)
  {
    hide RegForVar, Locals, OverflowArgs, ParamIndex;
  }

  /** The parts of the decisions that the definitions rest on. */
  lemma PlacesDecided(ir: seq<IrInst>, f: StackFrame, colors: map<string, Reg>, temps: map<string, Reg>,
                      globals: map<string, Reg>, constants: map<i32, Reg>, offsets: map<string, int>, spilled: nat,
                      saved: seq<Reg>)
    requires RegistersDecided(ir, colors, temps, globals, constants)
    requires SlotsDecided(colors.Keys + temps.Keys, offsets, spilled, saved)
    requires f.localOffsets == offsets && offsets.Keys == Locals(ir) && f.tempRegs == temps &&
             f.globalRegAlloc == globals
    requires f.constantRegAlloc == constants && f.hasCall == HasCall(ir)
    requires TempsOk(ir, temps) && ChoicesSound(ir, temps, colors)
    requires forall v :: RegForVar(f, v) == if v in colors then Some(colors[v]) else if v in temps then Some(temps[v])
               else None
    ensures DefinitionsSafe(ir, f) && ScratchFree(ir, f) && IncomingKept(ir, f)
  {
    hide HasCall, Incoming, Locals, RegForVar, TempsOk, ChoicesSound, NeedsRemainderScratch, DefinitionsSafe,
         ScratchFree, Allocatable;
    ScratchIsFree(ir, f, colors, temps, globals);
    PlacesFromChoices(ir, f, colors, temps);
  }

  lemma ScratchIsFree(ir: seq<IrInst>, f: StackFrame, colors: map<string, Reg>, temps: map<string, Reg>,
                      globals: map<string, Reg>)
    requires TempsOk(ir, temps) && f.tempRegs == temps && f.globalRegAlloc == globals
    requires forall v :: RegForVar(f, v) == if v in colors then Some(colors[v]) else if v in temps then Some(temps[v])
               else None
    requires forall c :: c in f.constantRegAlloc && f.constantRegAlloc[c].T? ==>
               !NeedsRemainderScratch(ir, colors, temps, globals)
    ensures ScratchFree(ir, f)
  {
    hide RegForVar, IsCandidate, RangesOf, SomeOverlap;
    forall i | 0 <= i < |ir| && ir[i].op.MOD?
      ensures forall v :: v in f.tempRegs ==> f.tempRegs[v] != T(3)
      ensures RegForOperand(f, ir[i].src1).None? ==> forall c :: c in f.constantRegAlloc ==>
              f.constantRegAlloc[c] != T(3)
    {
      assert TempRegisters(ir) == [T(4), T(5), T(6)];
    }
  }

  lemma TablesOkFrom(ir: seq<IrInst>, f: StackFrame, colors: map<string, Reg>, temps: map<string, Reg>,
                     globals: map<string, Reg>,
                     constants: map<i32, Reg>, offsets: map<string, int>, spilled: nat, saved: seq<Reg>)
    requires RegistersDecided(ir, colors, temps, globals, constants)
    requires SlotsDecided(colors.Keys + temps.Keys, offsets, spilled, saved)
    requires f.regAlloc == SavedPart(colors) && f.leafRegAlloc == LeafPart(colors) && f.tempRegs == temps
    requires f.globalRegAlloc == globals && f.constantRegAlloc == constants
    requires f.localOffsets == offsets && f.usedCalleeSavedRegisters == saved
    requires forall v :: RegForVar(f, v) == if v in colors then Some(colors[v]) else if v in temps then Some(temps[v])
               else None
    ensures TablesOk(f)
  {
    hide RegForVar, LocalOffset, RegForOperand, RegistersDecided, Allocatable;
    OffsetsFit(f, spilled);
    hide SlotsDecided;
    VariableRegisters(ir, f, colors, temps, globals, constants);
    RegistersAllocatable(ir, f, colors, temps, globals, constants);
  }

  lemma RegistersAllocatable(ir: seq<IrInst>, f: StackFrame, colors: map<string, Reg>, temps: map<string, Reg>,
                             globals: map<string, Reg>, constants: map<i32, Reg>)
    requires RegistersDecided(ir, colors, temps, globals, constants)
    requires f.regAlloc == SavedPart(colors) && f.leafRegAlloc == LeafPart(colors) && f.tempRegs == temps
    requires f.globalRegAlloc == globals && f.constantRegAlloc == constants
    ensures forall v :: v in f.leafRegAlloc ==> Allocatable(f.leafRegAlloc[v])
    ensures forall v :: v in f.regAlloc ==> 2 <= f.regAlloc[v] <= 11
    ensures forall v :: v in f.tempRegs ==> Allocatable(f.tempRegs[v])
    ensures forall g :: g in f.globalRegAlloc ==> Allocatable(f.globalRegAlloc[g])
    ensures forall c :: c in f.constantRegAlloc ==> Allocatable(f.constantRegAlloc[c])
  {
    hide HasCall, Incoming, NeedsRemainderScratch;
  }

  lemma RegistersSafeFrom(ir: seq<IrInst>, f: StackFrame, colors: map<string, Reg>, temps: map<string, Reg>,
                          globals: map<string, Reg>, constants: map<i32, Reg>)
    requires RegistersDecided(ir, colors, temps, globals, constants)
    requires f.leafRegAlloc == LeafPart(colors) && f.regAlloc == SavedPart(colors) && f.tempRegs == temps
    requires f.hasCall == HasCall(ir) && f.globalRegAlloc == globals && f.constantRegAlloc == constants
    requires forall v :: RegForVar(f, v) == if v in colors then Some(colors[v]) else if v in temps then Some(temps[v])
               else None
    ensures RegistersSafe(ir, f)
    ensures !f.hasCall ==> forall p :: p in Incoming(ir, |ir|) && p !in f.tempRegs ==>
              p in f.leafRegAlloc && f.leafRegAlloc[p] == A(Incoming(ir, |ir|)[p])
  {
    hide RegForVar, HasCall, Incoming, NeedsRemainderScratch, Allocatable, NamedGlobals;
  }

  lemma PlacesFromChoices(ir: seq<IrInst>, f: StackFrame, colors: map<string, Reg>, temps: map<string, Reg>)
    requires ChoicesSound(ir, temps, colors) && f.localOffsets.Keys == Locals(ir)
    requires forall v :: RegForVar(f, v) == if v in colors then Some(colors[v]) else if v in temps then Some(temps[v])
               else None
    requires forall v :: v in colors ==> v !in temps && !colors[v].T?
    requires forall v :: v in temps ==> temps[v].T?
    requires var r := colors.Keys + temps.Keys;
             forall u, v :: u in f.localOffsets && v in f.localOffsets && u != v && u !in r && v !in r ==>
               f.localOffsets[u] != f.localOffsets[v]
    ensures DefinitionsSafe(ir, f)
  {
    hide Disturbs, Locals, RegForVar;
    forall i, d, w | 0 <= i < |ir| && Disturbs(ir, i, d, w) ensures PlacesDiffer(f, d, w) {
      DisturbsLocals(ir, i, d, w);
    }
  }

  lemma DisturbsLocals(ir: seq<IrInst>, i: nat, d: string, w: string)
    requires i < |ir| && Disturbs(ir, i, d, w)
    ensures d in Locals(ir) && w in Locals(ir) && d != w
  {
    LiveIsLocal(ir, i, w);
    DefinedIsLocal(ir, i, d);
  }

  lemma VariableRegisters(ir: seq<IrInst>, f: StackFrame, colors: map<string, Reg>, temps: map<string, Reg>,
                          globals: map<string, Reg>, constants: map<i32, Reg>)
    requires RegistersDecided(ir, colors, temps, globals, constants)
    requires f.globalRegAlloc == globals && f.constantRegAlloc == constants
    requires forall v :: RegForVar(f, v) == if v in colors then Some(colors[v]) else if v in temps then Some(temps[v])
               else None
    ensures forall c, o :: c in f.constantRegAlloc && IsVariable(o) && RegForOperand(f, o).Some? ==>
              RegForOperand(f, o).value != f.constantRegAlloc[c]
  {
    hide RegForVar, HasCall, Incoming, NeedsRemainderScratch, Allocatable, LocalRegister;
  }

  lemma OffsetsFit(f: StackFrame, spilled: nat)
    requires |f.usedCalleeSavedRegisters| <= 10 && spilled < 0x400_0000
    requires forall v :: v in f.localOffsets ==> -1 <= f.localOffsets[v] < spilled
    ensures forall v :: v in f.localOffsets ==> FitsInt32(LocalOffset(f, v))
  {
  }
}
