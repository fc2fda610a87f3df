/** Functions without calls all of whose locals are in registers, for examples. */
module LeafUnits {
  import opened Ir
  import opened IrFlow
  import opened Rv32
  import opened Frame
  import opened Control
  import opened Liveness
  import opened TempRanges
  import opened Allocation
  import opened FrameCode
  import opened Body
  import opened FunctionSim
  import BodyFlow

  function LeafFrame(regs: map<string, Reg>, temps: map<string, Reg>): StackFrame
  {
    StackFrame(false, false, 0, 0, map v | v in regs.Keys + temps.Keys :: -1, map[], regs, map[], temps, map[], [])
  }

  function LeafUnit(name: string, ir: seq<IrInst>, regs: map<string, Reg>, temps: map<string, Reg>): Unit
  {
    Unit(name, ir, LeafFrame(regs, temps), 0, {}, {}, false, AfterCode(name, LeafFrame(regs, temps), 0, []))
  }

  /** Every local has an argument register or a block-local register of its own. */
  predicate OwnRegisters(ir: seq<IrInst>, regs: map<string, Reg>, temps: map<string, Reg>)
  {
    && Locals(ir) <= regs.Keys + temps.Keys && regs.Keys !! temps.Keys
    && (forall v :: v in regs ==> regs[v].A? && regs[v].n <= 7)
    && (forall v :: v in temps ==> temps[v].T? && 3 <= temps[v].n <= 6)
    && (forall u, v :: u in regs && v in regs && u != v ==> regs[u] != regs[v])
    && (forall u, v :: u in temps && v in temps && u != v ==> temps[u] != temps[v])
    && (forall i :: 0 <= i < |ir| ==> !ir[i].op.PARAM? && !ir[i].op.CALL?)
    && ParamIndex(ir, |ir|) <= 8
    && (forall p :: p in Incoming(ir, |ir|) && p !in temps ==> p in regs && regs[p] == A(Incoming(ir, |ir|)[p]))
  }

  lemma {:induction false} NothingComesIn(ir: seq<IrInst>, n: nat)
    requires n <= |ir| && forall i :: 0 <= i < |ir| ==> !DeclaresParam(ir[i]) && !ir[i].op.PARAM?
    ensures ParamIndex(ir, n) == 0 && OverflowArgs(ir, n) == 0 && Incoming(ir, n) == map[]
  {
    if n > 0 { NothingComesIn(ir, n - 1); }
  }

  lemma {:induction false} NothingGoesOut(ir: seq<IrInst>, n: nat)
    requires n <= |ir| && forall i :: 0 <= i < |ir| ==> !ir[i].op.PARAM?
    ensures OverflowArgs(ir, n) == 0
  {
    if n > 0 { NothingGoesOut(ir, n - 1); }
  }

  lemma OwnDefinitions(ir: seq<IrInst>, regs: map<string, Reg>, temps: map<string, Reg>)
    requires OwnRegisters(ir, regs, temps)
    ensures DefinitionsSafe(ir, LeafFrame(regs, temps))
  {
    hide Locals, LiveAfterInst, Incoming, ParamIndex;
    forall i, d, w | 0 <= i < |ir| && Disturbs(ir, i, d, w) ensures PlacesDiffer(LeafFrame(regs, temps), d, w) {
      DefinedIsLocal(ir, i, d);
      LiveIsLocal(ir, i, w);
    }
  }

  /** The analysis may place the locals so, and no frame is needed. */
  lemma LeafTables(ir: seq<IrInst>, regs: map<string, Reg>, temps: map<string, Reg>)
    requires OwnRegisters(ir, regs, temps) && forall v :: v in temps ==>
             IsCandidate(ir, v) && temps[v] in TempRegisters(ir)
    ensures TablesFor(ir, LeafFrame(regs, temps)) && FrameSize(LeafFrame(regs, temps)) == 0
  {
    hide DefinitionsSafe, Locals, Incoming, ParamIndex, OverflowArgs, IsCandidate, TablesOk, RegistersSafe;
    NothingGoesOut(ir, |ir|);
    OwnDefinitions(ir, regs, temps);
    LeafRegisters(ir, regs, temps);
  }

  lemma LeafRegisters(ir: seq<IrInst>, regs: map<string, Reg>, temps: map<string, Reg>)
    requires OwnRegisters(ir, regs, temps)
    ensures TablesOk(LeafFrame(regs, temps)) && RegistersSafe(ir, LeafFrame(regs, temps))
  {
    hide Locals, Incoming, ParamIndex;
  }

  /** Its text: two labels, the body, and the way out. */
  lemma LeafText(name: string, ir: seq<IrInst>, regs: map<string, Reg>, temps: map<string, Reg>)
    ensures LeafUnit(name, ir, regs, temps).after == [Lab(ExitLabel(name)), Ret]
    ensures FunctionCode(LeafUnit(name, ir, regs, temps), [], []) ==
            [Lab(name), Lab(BodyLabel(name))] + CodeFrom(LeafUnit(name, ir, regs, temps), 0)
  {
    hide CodeFrom, ExitLabel, BodyLabel;
    var c := LeafUnit(name, ir, regs, temps);
    BeforeShape(c, [], []);
    assert BeforeCode(name, c.f, 0, [], []) == [Lab(name)];
  }

  // ---- candidates for block-local registers ----

  predicate Mentions(inst: IrInst, v: string) { v in UsedLocals(inst) || RecordsDef(inst, v) }

  /** A local that is mentioned in one block only, and first written, has ranges between its first and last mention. */
  lemma {:induction false} Spans(ir: seq<IrInst>, v: string, lo: nat, hi: nat, n: nat)
    requires lo <= hi < |ir| && n <= |ir| && RecordsDef(ir[lo], v) && v !in UsedLocals(ir[lo])
    requires forall k :: 0 <= k < |ir| && Mentions(ir[k], v) ==> lo <= k <= hi && BlockOf(ir, k) == BlockOf(ir, lo)
    ensures Ranges(ir, v, n).Some? && (n > lo ==> Ranges(ir, v, n).value != []) &&
            (n <= lo ==> Ranges(ir, v, n).value == [])
    ensures forall k :: 0 <= k < |Ranges(ir, v, n).value| ==>
              var r := Ranges(ir, v, n).value[k]; lo <= r.start && r.end <= hi && r.block == BlockOf(ir, lo)
    decreases n
  {
    hide BlockOf, UsedLocals;
    if n > 0 {
      Spans(ir, v, lo, hi, n - 1);
      assert Mentions(ir[n - 1], v) ==> lo <= n - 1 <= hi && BlockOf(ir, n - 1) == BlockOf(ir, lo);
    }
  }

  lemma {:induction false} CountsOnce(ir: seq<IrInst>, v: string, k: nat, n: nat)
    requires k < n <= |ir| && Mentions(ir[k], v)
    ensures RefCount(ir, v, n) >= 1
  {
    if n - 1 > k { CountsOnce(ir, v, k, n - 1); }
  }

  lemma {:induction false} CountsTwice(ir: seq<IrInst>, v: string, j: nat, k: nat, n: nat)
    requires j < k < n <= |ir| && Mentions(ir[j], v) && Mentions(ir[k], v)
    ensures RefCount(ir, v, n) >= 2
  {
    if n - 1 > k { CountsTwice(ir, v, j, k, n - 1); } else { CountsOnce(ir, v, j, n - 1); }
  }

  /** So it is a candidate. */
  lemma SpanCandidate(ir: seq<IrInst>, v: string, lo: nat, hi: nat)
    requires lo < hi < |ir| && RecordsDef(ir[lo], v) && v !in UsedLocals(ir[lo]) && Mentions(ir[hi], v)
    requires forall k :: 0 <= k < |ir| && Mentions(ir[k], v) ==> lo <= k <= hi && BlockOf(ir, k) == BlockOf(ir, lo)
    ensures IsCandidate(ir, v)
    ensures forall k :: 0 <= k < |RangesOf(ir, v)| ==> lo <= RangesOf(ir, v)[k].start && RangesOf(ir, v)[k].end <= hi
  {
    hide BlockOf, UsedLocals, RefCount, Ranges;
    Spans(ir, v, lo, hi, |ir|);
    CountsTwice(ir, v, lo, hi, |ir|);
  }

  // ---- what is live behind a line ----

  lemma NextAlone(ir: seq<IrInst>, liveIn: seq<Names>, j: nat)
    requires j < |liveIn|
    ensures LiveAfter(ir, liveIn, [j]) == liveIn[j] && LiveAfter(ir, liveIn, []) == {}
  {
  }

  lemma NextEither(ir: seq<IrInst>, liveIn: seq<Names>, j: nat, k: nat)
    requires j < |liveIn| && k < |liveIn|
    ensures LiveAfter(ir, liveIn, [j, k]) == liveIn[j] + liveIn[k]
  {
    assert j in [j, k] && k in [j, k];
  }

  // ---- runs ----

  lemma JumpTakes(p: seq<Instr>, l: string, k: seq<Instr>, t: State, calls: Calls)
    requires HasLabel(p, l) && After(p, l) == k
    ensures Exec(p, [J(l)] + k, t, 1, calls) == At(k, t)
  {
    assert ([J(l)] + k)[0] == J(l);
    assert Exec(p, k, t, 0, calls) == At(k, t);
  }

  lemma ReturnTakes(p: seq<Instr>, t: State, calls: Calls)
    ensures Exec(p, [Ret], t, 1, calls) == Exit(Returns, t)
  {
  }

  /** From the jump to the exit label the function returns. */
  lemma LeafReturns(p: seq<Instr>, l: string, rest: seq<Instr>, s: State, calls: Calls)
    requires HasLabel(p, l) && After(p, l) == [Lab(l), Ret]
    ensures Exec(p, [J(l)] + rest, s, 3, calls) == Exit(Returns, s)
  {
    var last := [Lab(l), Ret];
    assert ([J(l)] + rest)[0] == J(l) && last[1..] == [Ret];
    assert Exec(p, [Ret], s, 1, calls) == Exit(Returns, s);
    assert Exec(p, last, s, 2, calls) == Exit(Returns, s);
  }

  /** The exit label is found behind lines that do not define it. */
  lemma ExitFound(a: seq<Instr>, l: string)
    requires Lab(l) !in a
    ensures HasLabel(a + [Lab(l), Ret], l) && After(a + [Lab(l), Ret], l) == [Lab(l), Ret]
  {
    hide HasLabel;
    AfterAppend(a, [Lab(l), Ret], l);
    BodyFlow.LandsHere(l, [Ret]);
    assert [Lab(l)] + [Ret] == [Lab(l), Ret];
  }
}
