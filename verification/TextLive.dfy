/**
  Register liveness of assembly text, computed backwards from what is live at labels, at exits and in callees.
 */
module TextLive {
  import opened Rv32
  import opened Control
  import opened Peephole
  import opened PeepholeProof
  import opened PeepholeRuns
  import opened PlainCode
  import opened Exposure

  /** A function as its callers know it: how many parameters it has, and whether it returns a value. */
  datatype Sig = Sig(params: nat, valued: bool)

  type Sigs = map<string, Sig>

  /** The registers a call gives back. RISC-V ELF psABI, section 1.1. */
  const KEPT: set<Reg> :=
    {X0, Ra, Sp, S(0), S(1), S(2), S(3), S(4), S(5), S(6), S(7), S(8), S(9), S(10), S(11)}

  function ArgRegs(n: nat): set<Reg> { set k: nat | k < n && k < 8 :: A(k) }

  /** What a call of f may read. */
  function InRegs(sigs: Sigs, f: string): set<Reg> { KEPT + if f in sigs then ArgRegs(sigs[f].params) else {} }

  /** What may be read after a call of f. */
  function OutRegs(sigs: Sigs, f: string): set<Reg> { KEPT + if f in sigs && sigs[f].valued then {A(0)} else {} }

  /** What is live at each label, and what at a return, of one text. */
  datatype Plan = Plan(at: string -> set<Reg>, ret: set<Reg>)

  /** Live at an exit: what the caller may read, or the function jumped to. */
  function ExitsOf(sigs: Sigs, pl: Plan): Exits
  {
    (how: Leave) => match how { case Returns => pl.ret case FallsOff => pl.ret case JumpsOut(l) => InRegs(sigs, l) }
  }

  /** Live before the text k. */
  function Ahead(sigs: Sigs, pl: Plan, k: seq<Instr>): set<Reg>
  {
    if k == [] then pl.ret
    else match k[0]
      case J(l) => pl.at(l)
      case BrZ(_, _, l) => Uses(k[0]) + pl.at(l) + Ahead(sigs, pl, k[1..])
      case Br(_, _, _, l) => Uses(k[0]) + pl.at(l) + Ahead(sigs, pl, k[1..])
      case Ret => pl.ret
      case Call(f) => InRegs(sigs, f)
      case i => Uses(i) + (Ahead(sigs, pl, k[1..]) - Defs(i))
  }

  lemma {:induction false} AheadPlain(sigs: Sigs, pl: Plan, a: seq<Instr>, k: seq<Instr>)
    requires AllPlain(a)
    ensures Ahead(sigs, pl, a + k) == Exposed(a) + (Ahead(sigs, pl, k) - DefsOf(a))
  {
    hide Uses, Defs;
    if a == [] {
      assert a + k == k;
    } else {
      assert (a + k)[1..] == a[1..] + k && a[0] in a;
      forall i | i in a[1..] ensures Plain(i) { assert i in a; }
      AheadPlain(sigs, pl, a[1..], k);
    }
  }

  /** Plain code that reads `regs` and writes, or reads, whatever of the rest is not live before it. */
  lemma AheadWithin(sigs: Sigs, pl: Plan, a: seq<Instr>, k: seq<Instr>, regs: set<Reg>, after: set<Reg>,
                    before: set<Reg>)
    requires Reads(a, regs) && Ahead(sigs, pl, k) <= after
    requires regs <= before && after - DefsOf(a) <= before
    ensures Ahead(sigs, pl, a + k) <= before
  {
    hide Plain, Exposed, DefsOf, Ahead;
    AheadPlain(sigs, pl, a, k);
  }

  /** One line that moves control, or defines a label. */
  lemma AheadLine(sigs: Sigs, pl: Plan, i: Instr, k: seq<Instr>)
    ensures i.Lab? ==> Ahead(sigs, pl, [i] + k) == Ahead(sigs, pl, k)
    ensures i.J? ==> Ahead(sigs, pl, [i] + k) == pl.at(i.target)
    ensures i.BrZ? ==> Ahead(sigs, pl, [i] + k) == {i.rs} + pl.at(i.target) + Ahead(sigs, pl, k)
    ensures i.Ret? ==> Ahead(sigs, pl, [i] + k) == pl.ret
    ensures i.Call? ==> Ahead(sigs, pl, [i] + k) == InRegs(sigs, i.callee)
  {
    assert ([i] + k)[1..] == k;
  }

  // --------------------------------------------------------------------------
  // A plan that fits its text
  // --------------------------------------------------------------------------

  function Live(sigs: Sigs, pl: Plan, p: seq<Instr>): Annotation
  {
    (m: nat) => if m <= |p| then Ahead(sigs, pl, p[|p| - m..]) else {}
  }

  lemma LiveAt(sigs: Sigs, pl: Plan, p: seq<Instr>, k: seq<Instr>)
    requires IsSuffix(k, p)
    ensures Live(sigs, pl, p)(|k|) == Ahead(sigs, pl, k)
  {
  }

  /** Behind every call nothing is live that the call may change. */
  predicate CallsGiveBack(sigs: Sigs, pl: Plan, k: seq<Instr>)
  {
    k != [] ==>
      && (k[0].Call? ==> Ahead(sigs, pl, k[1..]) <= OutRegs(sigs, k[0].callee))
      && CallsGiveBack(sigs, pl, k[1..])
  }

  lemma {:induction false} PlainGivesBack(sigs: Sigs, pl: Plan, a: seq<Instr>, k: seq<Instr>)
    requires (forall i :: i in a ==> !i.Call?) && CallsGiveBack(sigs, pl, k)
    ensures CallsGiveBack(sigs, pl, a + k)
  {
    hide Ahead;
    if a == [] {
      assert a + k == k;
    } else {
      assert (a + k)[1..] == a[1..] + k && a[0] in a;
      forall i | i in a[1..] ensures !i.Call? { assert i in a; }
      PlainGivesBack(sigs, pl, a[1..], k);
    }
  }

  lemma {:induction false} GivesBackAt(sigs: Sigs, pl: Plan, p: seq<Instr>, k: seq<Instr>)
    requires CallsGiveBack(sigs, pl, p) && IsSuffix(k, p)
    ensures CallsGiveBack(sigs, pl, k)
    decreases |p|
  {
    hide Ahead;
    if |k| < |p| {
      assert k == p[1..][|p[1..]| - |k|..];
      GivesBackAt(sigs, pl, p[1..], k);
    } else {
      assert k == p;
    }
  }

  /** A window drops nothing that is live behind it. */
  predicate WindowSafe(sigs: Sigs, pl: Plan, k: seq<Instr>)
    requires k != []
  {
    match Choose(k)
    case Rewrite(pat) =>
      && WellUsed(pat, k)
      && Dropped(pat, k) !! (pl.at(k[Length(pat) - 1].target) + Ahead(sigs, pl, k[Length(pat)..]))
    case _ => true
  }

  /** The plan's labels are right for the text, and the pass drops nothing live. */
  ghost predicate PlanFits(sigs: Sigs, pl: Plan, p: seq<Instr>)
  {
    && UniqueLabels(p) && CallsGiveBack(sigs, pl, p)
    && (forall l :: if HasLabel(p, l) then Ahead(sigs, pl, After(p, l)) <= pl.at(l) else InRegs(sigs, l) <= pl.at(l))
    && (forall k :: IsSuffix(k, p) && k != [] ==> WindowSafe(sigs, pl, k))
  }

  /** The calls of one program leave agreeing states where those of the other do. */
  ghost predicate Agreeing(sigs: Sigs, a: Calls, b: Calls)
  {
    forall f, s, t :: Agree(s, t, InRegs(sigs, f)) ==> Agree(a(f, s), b(f, t), OutRegs(sigs, f))
  }

  lemma TargetWithin(sigs: Sigs, pl: Plan, p: seq<Instr>, l: string)
    requires PlanFits(sigs, pl, p)
    ensures TargetLive(p, l, Live(sigs, pl, p), ExitsOf(sigs, pl)) <= pl.at(l)
  {
    hide Ahead, CallsGiveBack, WindowSafe, UniqueLabels, InRegs;
    if HasLabel(p, l) {
      AfterSuffix(p, l);
      LiveAt(sigs, pl, p, After(p, l));
    }
  }

  lemma AgreeOnFewer(s: State, t: State, regs: set<Reg>, fewer: set<Reg>)
    requires Agree(s, t, regs) && fewer <= regs
    ensures Agree(s, t, fewer)
  {
    hide R;
  }

  lemma LiveCall(sigs: Sigs, pl: Plan, p: seq<Instr>, k: seq<Instr>)
    requires PlanFits(sigs, pl, p) && IsSuffix(k, p) && k != [] && k[0].Call?
    ensures Live(sigs, pl, p)(|k|) == InRegs(sigs, k[0].callee)
    ensures Live(sigs, pl, p)(|k| - 1) <= OutRegs(sigs, k[0].callee)
  {
    hide InRegs, OutRegs, WindowSafe, UniqueLabels, Live;
    GivesBackAt(sigs, pl, p, k);
    SuffixOfSuffix(k, p, 1);
    LiveAt(sigs, pl, p, k);
    LiveAt(sigs, pl, p, k[1..]);
  }

  lemma LiveEverywhere(sigs: Sigs, pl: Plan, p: seq<Instr>, k: seq<Instr>)
    requires PlanFits(sigs, pl, p) && IsSuffix(k, p)
    ensures LiveHere(p, k, Live(sigs, pl, p), ExitsOf(sigs, pl))
  {
    hide Live, Uses, Defs, TargetLive, PlanFits, InRegs, Agree;
    LiveAt(sigs, pl, p, k);
    if k != [] {
      UsesNothing(k[0]);
      SuffixOfSuffix(k, p, 1);
      LiveAt(sigs, pl, p, k[1..]);
      if k[0].J? || k[0].BrZ? || k[0].Br? { TargetWithin(sigs, pl, p, k[0].target); }
    }
  }

  lemma UsesNothing(i: Instr)
    ensures i.Call? || i.J? || i.Ret? ==> Uses(i) == {}
  {
  }

  /** Calls of agreeing programs follow one another. */
  lemma CallHere(sigs: Sigs, pl: Plan, p: seq<Instr>, k: seq<Instr>, s: State, calls: Calls, others: Calls)
    requires PlanFits(sigs, pl, p) && IsSuffix(k, p)
    requires k != [] && k[0].Call? ==> forall t :: Agree(s, t, InRegs(sigs, k[0].callee)) ==>
               Agree(calls(k[0].callee, s), others(k[0].callee, t), OutRegs(sigs, k[0].callee))
    ensures CallFollows(k, s, Live(sigs, pl, p), calls, others)
  {
    hide Live, InRegs, OutRegs, Agree, PlanFits;
    if k != [] && k[0].Call? {
      LiveCall(sigs, pl, p, k);
      var f := k[0].callee;
      forall t | Agree(s, t, Live(sigs, pl, p)(|k|))
        ensures Agree(calls(f, s), others(f, t), Live(sigs, pl, p)(|k| - 1))
      {
        AgreeOnFewer(calls(f, s), others(f, t), OutRegs(sigs, f), Live(sigs, pl, p)(|k| - 1));
      }
    }
  }

  lemma DropsDeadHere(sigs: Sigs, pl: Plan, p: seq<Instr>, k: seq<Instr>)
    requires PlanFits(sigs, pl, p) && IsSuffix(k, p) && k != []
    ensures DropsDead(p, k, Live(sigs, pl, p), ExitsOf(sigs, pl))
  {
    hide Live, TargetLive, Choose, Matches, WellUsed, Ahead;
    assert WindowSafe(sigs, pl, k);
    if Choose(k).Rewrite? {
      hide PlanFits;
      var pat := Choose(k).pat;
      ChosenMatches(k);
      WindowStraight(pat, k);
      TargetWithin(sigs, pl, p, k[Length(pat) - 1].target);
      SuffixOfSuffix(k, p, Length(pat));
      LiveAt(sigs, pl, p, k[Length(pat)..]);
    }
  }

  /** Main result: a text whose plan fits meets the condition under which the peephole pass was proved right. */
  lemma TextPrepared(sigs: Sigs, pl: Plan, p: seq<Instr>)
    requires PlanFits(sigs, pl, p)
    ensures Prepared(p, Live(sigs, pl, p), ExitsOf(sigs, pl))
  {
    hide LiveHere, DropsDead;
    assert UniqueLabels(p);
    hide PlanFits, UniqueLabels;
    forall k | IsSuffix(k, p) ensures LiveHere(p, k, Live(sigs, pl, p), ExitsOf(sigs, pl)) {
      LiveEverywhere(sigs, pl, p, k);
    }
    forall k | IsSuffix(k, p) && k != [] ensures DropsDead(p, k, Live(sigs, pl, p), ExitsOf(sigs, pl)) {
      DropsDeadHere(sigs, pl, p, k);
    }
  }
}
