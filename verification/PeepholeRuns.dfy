/** Whole runs: the output of the pass against its input, under any valid liveness annotation. */
module PeepholeRuns {
  import opened Rv32
  import opened Control
  import opened Peephole
  import opened PeepholeProof

  /** The live registers at a position, given by the number of lines that remain. */
  type Annotation = nat -> set<Reg>

  /** What is live when the text is left. */
  type Exits = Leave -> set<Reg>

  ghost predicate Agree(s: State, t: State, regs: set<Reg>)
  {
    t.mem == s.mem && t.syms == s.syms && forall r :: r in regs ==> R(t, r) == R(s, r)
  }

  function TargetLive(p: seq<Instr>, l: string, live: Annotation, atExit: Exits): set<Reg>
  {
    if HasLabel(p, l) then live(|After(p, l)|) else atExit(JumpsOut(l))
  }

  /** The dataflow condition at one position. */
  predicate LiveHere(p: seq<Instr>, k: seq<Instr>, live: Annotation, atExit: Exits)
  {
    if k == [] then atExit(FallsOff) <= live(0)
    else
      && Uses(k[0]) <= live(|k|)
      && match k[0] {
        case J(l) => TargetLive(p, l, live, atExit) <= live(|k|)
        case BrZ(_, _, l) => TargetLive(p, l, live, atExit) + live(|k| - 1) <= live(|k|)
        case Br(_, _, _, l) => TargetLive(p, l, live, atExit) + live(|k| - 1) <= live(|k|)
        case Ret => atExit(Returns) <= live(|k|)
        case Call(_) => true
        case i => live(|k| - 1) - Defs(i) <= live(|k|)
      }
  }

  predicate IsSuffix(k: seq<Instr>, p: seq<Instr>) { |k| <= |p| && k == p[|p| - |k|..] }

  /** What a dropped window must satisfy: its truth register and t1 are dead where it leads. */
  ghost predicate DropsDead(p: seq<Instr>, k: seq<Instr>, live: Annotation, atExit: Exits)
    requires k != []
  {
    match Choose(k)
    case Rewrite(pat) =>
      && WellUsed(pat, k)
      && Dropped(pat, k) !! (TargetLive(p, k[Length(pat) - 1].target, live, atExit) + live(|k| - Length(pat)))
    case _ => true
  }

  predicate UniqueLabels(p: seq<Instr>)
  {
    forall i, j :: 0 <= i < j < |p| && p[i].Lab? ==> p[i] != p[j]
  }

  ghost predicate Prepared(p: seq<Instr>, live: Annotation, atExit: Exits)
  {
    && UniqueLabels(p)
    && (forall k :: IsSuffix(k, p) ==> LiveHere(p, k, live, atExit))
    && (forall k :: IsSuffix(k, p) && k != [] ==> DropsDead(p, k, live, atExit))
  }

  /** A call made in s comes back alike in the other program, on what is live behind it. */
  ghost predicate CallFollows(k: seq<Instr>, s: State, live: Annotation, calls: Calls, others: Calls)
  {
    k != [] && k[0].Call? ==>
      forall t :: Agree(s, t, live(|k|)) ==> Agree(calls(k[0].callee, s), others(k[0].callee, t), live(|k| - 1))
  }

  /** On the run from k the order comparisons that become subtractions do not overflow, and the calls made have their
      counterparts in the program the output belongs to. */
  ghost predicate RunFits(p: seq<Instr>, k: seq<Instr>, s: State, live: Annotation, calls: Calls, others: Calls)
  {
    forall n: nat :: Exec(p, k, s, n, calls).At? ==>
      && SubtractionFits(Exec(p, k, s, n, calls).k, Exec(p, k, s, n, calls).s)
      && CallFollows(Exec(p, k, s, n, calls).k, Exec(p, k, s, n, calls).s, live, calls, others)
  }

  // --------------------------------------------------------------------------
  // Labels
  // --------------------------------------------------------------------------

  /** No window covers a label unless it is copied. */
  lemma WindowLabels(k: seq<Instr>, l: string)
    requires k != []
    ensures Choose(k).Copy? ==> k[..1] == [k[0]] == Produced(k)
    ensures !(Choose(k).Copy? && k[0] == Lab(l)) ==> Lab(l) !in k[..Consumed(k)] && Lab(l) !in Produced(k)
  {
    var n := Consumed(k);
    if !(Choose(k).Copy? && k[0] == Lab(l)) {
      forall j | 0 <= j < n ensures k[..n][j] != Lab(l) { assert k[..n][j] == k[j]; }
    }
  }

  /** Every label survives, and what follows it is the output of what followed it. */
  lemma {:induction false} PeepAfter(k: seq<Instr>, l: string)
    ensures After(Peep(k), l) == Peep(After(k, l))
    ensures HasLabel(Peep(k), l) <==> HasLabel(k, l)
    decreases |k|
  {
    hide Produced, Consumed;
    if k != [] {
      var n := Consumed(k);
      WindowLabels(k, l);
      PeepAfter(k[n..], l);
      assert k == k[..n] + k[n..];
      if Choose(k).Copy? && k[0] == Lab(l) {
        assert Peep(k)[0] == Lab(l);
      } else {
        AfterAppend(k[..n], k[n..], l);
        AfterAppend(Produced(k), Peep(k[n..]), l);
      }
    }
  }

  lemma SuffixOfSuffix(k: seq<Instr>, p: seq<Instr>, n: nat)
    requires IsSuffix(k, p) && n <= |k|
    ensures IsSuffix(k[n..], p)
  {
  }

  lemma AfterSuffix(p: seq<Instr>, l: string)
    ensures IsSuffix(After(p, l), p)
  {
    AfterHead(p, l);
  }

  lemma UniqueAfter(p: seq<Instr>, k: seq<Instr>, l: string)
    requires UniqueLabels(p) && IsSuffix(k, p) && k != [] && k[0] == Lab(l)
    ensures HasLabel(p, l) && After(p, l) == k
  {
    AfterHead(p, l);
    var i := |p| - |k|;
    assert p[i] == Lab(l);
    var j := |p| - |After(p, l)|;
    assert p[j] == After(p, l)[0];
  }

  // --------------------------------------------------------------------------
  // One window inside a run
  // --------------------------------------------------------------------------

  ghost predicate Match(p: seq<Instr>, x: Next, y: Next, live: Annotation, atExit: Exits)
  {
    match (x, y)
    case (At(k, s), At(k', t)) => IsSuffix(k, p) && k' == Peep(k) && Agree(s, t, live(|k|))
    case (Exit(how, s), Exit(how', t)) => how == how' && Agree(s, t, atExit(how))
    case _ => false
  }

  lemma GotoMatch(p: seq<Instr>, l: string, s: State, t: State, live: Annotation, atExit: Exits)
    requires Agree(s, t, TargetLive(p, l, live, atExit))
    ensures Match(p, Goto(p, l, s), Goto(Peep(p), l, t), live, atExit)
  {
    PeepAfter(p, l);
    AfterSuffix(p, l);
  }

  lemma StepAgree(i: Instr, s: State, t: State, before: set<Reg>, after: set<Reg>)
    requires IsStraight(i) && Agree(s, t, before) && Uses(i) <= before && after - Defs(i) <= before
    ensures Agree(Step(i, s), Step(i, t), after)
  {
    hide AluValue, ImmValue, Word.Wrap;
    forall r | r in after ensures R(Step(i, s), r) == R(Step(i, t), r) {
      if r !in Defs(i) { assert r in before; }
    }
  }

  lemma ExecHead(p: seq<Instr>, k: seq<Instr>, s: State, calls: Calls)
    ensures Exec(p, k, s, 1, calls) == Advance(p, k, s, calls)
    ensures Exec(p, k, s, 0, calls) == At(k, s)
  {
    match Advance(p, k, s, calls)
    case Exit(_, _) =>
    case At(k', s') => assert Exec(p, k', s', 0, calls) == At(k', s');
  }

  lemma CopyMatch(p: seq<Instr>, k: seq<Instr>, s: State, t: State, live: Annotation, atExit: Exits, calls: Calls,
                  others: Calls)
    requires IsSuffix(k, p) && k != [] && LiveHere(p, k, live, atExit) && CallFollows(k, s, live, calls, others)
    requires Agree(s, t, live(|k|))
    ensures Match(p, Advance(p, k, s, calls), Advance(Peep(p), [k[0]] + Peep(k[1..]), t, others), live, atExit)
  {
    hide Peep, Goto, Step, R, Uses, Defs, TargetLive;
    var k' := [k[0]] + Peep(k[1..]);
    assert k'[1..] == Peep(k[1..]);
    SuffixOfSuffix(k, p, 1);
    match k[0]
    case J(l) => GotoMatch(p, l, s, t, live, atExit);
    case BrZ(test, r, l) =>
      assert r in Uses(k[0]) by { UsesOf(k[0]); }
      GotoMatch(p, l, s, t, live, atExit);
    case Br(test, a, b, l) =>
      assert a in Uses(k[0]) && b in Uses(k[0]) by { UsesOf(k[0]); }
      GotoMatch(p, l, s, t, live, atExit);
    case Ret =>
    case Call(f) =>
    case i => StepAgree(i, s, t, live(|k|), live(|k| - 1));
  }

  lemma UsesOf(i: Instr)
    ensures i.BrZ? ==> Uses(i) == {i.rs}
    ensures i.Br? ==> Uses(i) == {i.rs1, i.rs2}
  {
  }

  lemma ReloadAgrees(i: Instr, j: Instr, s: State)
    requires i.Sw? && j == Lw(i.rs, i.off, i.base)
    ensures var s1 := Step(i, s); var s2 := Step(j, s1);
            s2.mem == s1.mem && s2.syms == s1.syms && forall r :: R(s2, r) == R(s1, r)
  {
    hide Word.Wrap;
  }

  lemma KeepStoreMatch(p: seq<Instr>, k: seq<Instr>, s: State, t: State, live: Annotation, atExit: Exits,
                       calls: Calls, others: Calls)
    requires Prepared(p, live, atExit) && IsSuffix(k, p) && ReloadsStored(k)
    requires Agree(s, t, live(|k|))
    ensures Match(p, Exec(p, k, s, 2, calls), Exec(Peep(p), [k[0]] + Peep(k[2..]), t, 1, others), live, atExit)
  {
    hide Peep, Step, R, Run, Prepared;
    LiveStep(p, k, live, atExit);
    LiveStep(p, k[1..], live, atExit);
    assert k[1..][1..] == k[2..];
    assert k == k[..2] + k[2..] && k[..2] == [k[0], k[1]];
    ExecStraight(p, k[..2], k[2..], s, calls);
    Run2(k[0], k[1], s);
    ExecOne(Peep(p), k[0], Peep(k[2..]), t, others);
    ReloadAgrees(k[0], k[1], s);
    StepAgree(k[0], s, t, live(|k|), live(|k| - 2));
  }

  lemma LiveStep(p: seq<Instr>, k: seq<Instr>, live: Annotation, atExit: Exits)
    requires Prepared(p, live, atExit) && IsSuffix(k, p) && k != [] && IsStraight(k[0])
    ensures IsSuffix(k[1..], p)
    ensures Uses(k[0]) <= live(|k|) && live(|k| - 1) - Defs(k[0]) <= live(|k|)
  {
    hide TargetLive, Uses, Defs;
    SuffixOfSuffix(k, p, 1);
    assert LiveHere(p, k, live, atExit);
  }

  lemma WindowStraight(pat: Pattern, k: seq<Instr>)
    requires Matches(pat, k)
    ensures |k| >= Length(pat) && |Replacement(pat, k)| >= 1
    ensures forall i :: i in k[..Length(pat) - 1] ==> IsStraight(i)
    ensures var r := Replacement(pat, k); forall i :: i in r[..|r| - 1] ==> IsStraight(i)
    ensures k[Length(pat) - 1].BrZ?
    ensures var r := Replacement(pat, k); var b := r[|r| - 1];
            (b.BrZ? || b.Br?) && b.target == k[Length(pat) - 1].target
  {
  }

  /** A straight prefix and a branch: the run decides at the branch. */
  lemma ExecBranch(p: seq<Instr>, a: seq<Instr>, b: Instr, k: seq<Instr>, s: State, calls: Calls)
    requires (forall i :: i in a ==> IsStraight(i)) && (b.BrZ? || b.Br?)
    ensures Exec(p, a + [b] + k, s, |a| + 1, calls) ==
            BranchTo(p, BranchHolds(b, Run(a, s)), b.target, k, Run(a, s))
  {
    hide Run, R, Goto;
    assert a + [b] + k == a + ([b] + k);
    ExecStraight(p, a, [b] + k, s, calls);
    ExecSplit(p, a + [b] + k, s, |a|, 1, calls);
    assert ([b] + k)[1..] == k;
    ExecHead(p, [b] + k, Run(a, s), calls);
  }

  /** What is live after the window and not dropped by it was live before it; what it compares was
      live before it. */
  lemma LiveThrough(p: seq<Instr>, k: seq<Instr>, pat: Pattern, live: Annotation, atExit: Exits)
    requires Prepared(p, live, atExit) && IsSuffix(k, p)
    requires Matches(pat, k) && WellUsed(pat, k)
    ensures Compared(pat, k) <= live(|k|)
    ensures var br := k[Length(pat) - 1];
            TargetLive(p, br.target, live, atExit) + live(|k| - Length(pat)) <= live(|k|) + Dropped(pat, k)
  {
    hide TargetLive, Prepared;
    LiveStep(p, k, live, atExit);
    if Length(pat) == 2 {
      LiveBranch(p, k[1..], live, atExit);
    } else {
      LiveStep(p, k[1..], live, atExit);
      assert k[1..][1..] == k[2..];
      if Length(pat) == 3 {
        LiveBranch(p, k[2..], live, atExit);
      } else {
        LiveStep(p, k[2..], live, atExit);
        assert k[2..][1..] == k[3..];
        LiveBranch(p, k[3..], live, atExit);
      }
    }
  }

  lemma LiveBranch(p: seq<Instr>, k: seq<Instr>, live: Annotation, atExit: Exits)
    requires Prepared(p, live, atExit) && IsSuffix(k, p) && k != [] && k[0].BrZ?
    ensures TargetLive(p, k[0].target, live, atExit) + live(|k| - 1) <= live(|k|)
  {
    assert LiveHere(p, k, live, atExit);
  }

  lemma RewriteMatch(p: seq<Instr>, k: seq<Instr>, pat: Pattern, s: State, t: State, live: Annotation, atExit: Exits,
                     calls: Calls, others: Calls)
    requires Prepared(p, live, atExit) && IsSuffix(k, p) && k != []
    requires Choose(k) == Rewrite(pat) && Matches(pat, k)
    requires Agree(s, t, live(|k|)) && SubtractionFits(k, s)
    ensures Match(p, Exec(p, k, s, Length(pat), calls),
                  Exec(Peep(p), Replacement(pat, k) + Peep(k[Length(pat)..]), t, |Replacement(pat, k)|, others),
                  live, atExit)
  {
    hide Peep, Run, Goto, Replacement, Dropped, Compared, Matches, Choose, R, SameOutside, LiveHere, TargetLive;
    var n := Length(pat);
    var r := Replacement(pat, k);
    assert DropsDead(p, k, live, atExit);
    LiveThrough(p, k, pat, live, atExit);
    WindowStraight(pat, k);
    assert k == k[..n - 1] + [k[n - 1]] + k[n..];
    assert r == r[..|r| - 1] + [r[|r| - 1]];
    ExecBranch(p, k[..n - 1], k[n - 1], k[n..], s, calls);
    ExecBranch(Peep(p), r[..|r| - 1], r[|r| - 1], Peep(k[n..]), t, others);
    WindowDecides(pat, k, s);
    ReplacementFrame(pat, k, s, t);
    SuffixOfSuffix(k, p, n);
    AgreeAfterWindow(pat, k, s, t, Run(k[..n - 1], s), Run(r[..|r| - 1], t), live(|k|),
                     TargetLive(p, k[n - 1].target, live, atExit) + live(|k| - n));
    GotoMatch(p, k[n - 1].target, Run(k[..n - 1], s), Run(r[..|r| - 1], t), live, atExit);
  }

  lemma AgreeAfterWindow(pat: Pattern, k: seq<Instr>, s: State, t: State, s1: State, t1: State,
                         before: set<Reg>, after: set<Reg>)
    requires Matches(pat, k) && Agree(s, t, before)
    requires SameOutside(s, s1, Dropped(pat, k)) && SameOutside(t, t1, Dropped(pat, k))
    requires after <= before + Dropped(pat, k) && after !! Dropped(pat, k)
    ensures Agree(s1, t1, after)
  {
    hide R, Dropped, Matches;
  }

  /** The scan's next window and the lines it produces lead to matching configurations. */
  lemma WindowMatch(p: seq<Instr>, k: seq<Instr>, s: State, t: State, live: Annotation, atExit: Exits, calls: Calls,
                    others: Calls)
    requires Prepared(p, live, atExit) && IsSuffix(k, p) && k != []
    requires Agree(s, t, live(|k|)) && SubtractionFits(k, s) && CallFollows(k, s, live, calls, others)
    ensures Match(p, Exec(p, k, s, Consumed(k), calls),
                  Exec(Peep(p), Peep(k), t, |Produced(k)|, others), live, atExit)
  {
    hide Peep, Matches, R, Step, Replacement, Goto;
    PeepUnfold(k);
    assert LiveHere(p, k, live, atExit);
    SuffixOfSuffix(k, p, 1);
    match Choose(k)
    case DropOne =>
      ExecHead(p, k, s, calls);
      ExecHead(Peep(p), Peep(k), t, others);
      assert [] + Peep(k[1..]) == Peep(k[1..]);
      DropMatch(p, k, s, t, live, atExit, calls);
    case KeepStore => KeepStoreMatch(p, k, s, t, live, atExit, calls, others);
    case Rewrite(pat) =>
      assert Matches(pat, k) by { ChosenMatches(k); }
      RewriteMatch(p, k, pat, s, t, live, atExit, calls, others);
    case Copy =>
      ExecHead(p, k, s, calls);
      ExecHead(Peep(p), Peep(k), t, others);
      CopyMatch(p, k, s, t, live, atExit, calls, others);
  }

  lemma ChosenMatches(k: seq<Instr>)
    requires k != [] && Choose(k).Rewrite?
    ensures Matches(Choose(k).pat, k)
  {
  }

  lemma DropMatch(p: seq<Instr>, k: seq<Instr>, s: State, t: State, live: Annotation, atExit: Exits, calls: Calls)
    requires Prepared(p, live, atExit) && IsSuffix(k, p) && k != [] && Choose(k).DropOne?
    requires Agree(s, t, live(|k|))
    ensures Match(p, Advance(p, k, s, calls), At(Peep(k[1..]), t), live, atExit)
  {
    hide Peep, Step, R;
    assert LiveHere(p, k, live, atExit);
    SuffixOfSuffix(k, p, 1);
    if JumpsToNext(k) {
      UniqueAfter(p, k[1..], k[0].target);
    } else {
      NoOpAgrees(k[0], s);
    }
  }

  // --------------------------------------------------------------------------
  // Whole runs
  // --------------------------------------------------------------------------

  lemma ProducedBound(k: seq<Instr>)
    requires k != []
    ensures |Produced(k)| <= Consumed(k)
    ensures |Produced(k)| == 0 ==> Consumed(k) == 1 && Choose(k).DropOne?
  {
  }

  lemma FitsLater(p: seq<Instr>, k: seq<Instr>, s: State, n: nat, live: Annotation, calls: Calls, others: Calls)
    requires RunFits(p, k, s, live, calls, others)
    ensures SubtractionFits(k, s) && CallFollows(k, s, live, calls, others)
    ensures match Exec(p, k, s, n, calls) {
              case At(k', s') => RunFits(p, k', s', live, calls, others)
              case Exit(_, _) => true
            }
  {
    hide SubtractionFits, CallFollows;
    assert Exec(p, k, s, 0, calls) == At(k, s);
    match Exec(p, k, s, n, calls)
    case Exit(_, _) =>
    case At(k', s') =>
      forall m: nat | Exec(p, k', s', m, calls).At?
        ensures SubtractionFits(Exec(p, k', s', m, calls).k, Exec(p, k', s', m, calls).s)
        ensures CallFollows(Exec(p, k', s', m, calls).k, Exec(p, k', s', m, calls).s, live, calls, others)
      {
        ExecSplit(p, k, s, n, m, calls);
      }
  }

  /** Every terminating run of the input is matched by a run of the output that is no longer,
      leaves in the same way, and agrees on memory and on what is live at exit. */
  lemma {:induction false} OutputFollowsInput(p: seq<Instr>, k: seq<Instr>, s: State, t: State, n: nat,
                                              live: Annotation, atExit: Exits, calls: Calls, others: Calls)
    returns (m: nat)
    requires Prepared(p, live, atExit) && IsSuffix(k, p) && Agree(s, t, live(|k|))
    requires RunFits(p, k, s, live, calls, others)
    requires Exec(p, k, s, n, calls).Exit?
    ensures m <= n
    ensures Match(p, Exec(p, k, s, n, calls), Exec(Peep(p), Peep(k), t, m, others), live, atExit)
    decreases n
  {
    hide Exec, Peep, Consumed, Produced, RunFits, LiveHere, DropsDead, CallFollows;
    if k == [] {
      EmptyLive(p, live, atExit);
      PeepEmpty();
      EmptyExits(p, s, n, calls);
      EmptyExits(Peep(p), t, n, others);
      return n;
    }
    var c := Consumed(k);
    ProducedBound(k);
    FitsLater(p, k, s, c, live, calls, others);
    WindowMatch(p, k, s, t, live, atExit, calls, others);
    var x, y := Exec(p, k, s, c, calls), Exec(Peep(p), Peep(k), t, |Produced(k)|, others);
    if x.Exit? {
      SameExit(p, k, s, c, n, calls);
      NoEarlyExit(p, k, s, n, calls);
      m := |Produced(k)|;
    } else {
      if n <= c {
        ExecSplit(p, k, s, n, c - n, calls);
        assert false;
      }
      ExecSplit(p, k, s, c, n - c, calls);
      var m' := OutputFollowsInput(p, x.k, x.s, y.s, n - c, live, atExit, calls, others);
      ExecSplit(Peep(p), Peep(k), t, |Produced(k)|, m', others);
      m := |Produced(k)| + m';
    }
  }

  lemma EmptyExits(p: seq<Instr>, s: State, n: nat, calls: Calls)
    requires n > 0 || Exec(p, [], s, n, calls).Exit?
    ensures Exec(p, [], s, n, calls) == Exit(FallsOff, s) && n > 0
  {
  }

  lemma EmptyLive(p: seq<Instr>, live: Annotation, atExit: Exits)
    requires Prepared(p, live, atExit)
    ensures atExit(FallsOff) <= live(0)
  {
    assert IsSuffix([], p);
    assert LiveHere(p, [], live, atExit);
  }

  lemma SameExit(p: seq<Instr>, k: seq<Instr>, s: State, m: nat, n: nat, calls: Calls)
    requires Exec(p, k, s, m, calls).Exit? && Exec(p, k, s, n, calls).Exit?
    ensures Exec(p, k, s, m, calls) == Exec(p, k, s, n, calls)
  {
    if m <= n { ExecSplit(p, k, s, m, n - m, calls); } else { ExecSplit(p, k, s, n, m - n, calls); }
  }

  /** Short of its last line a window runs straight on. */
  lemma PrefixRuns(p: seq<Instr>, k: seq<Instr>, s: State, n: nat, calls: Calls)
    requires k != [] && n < Consumed(k)
    ensures Exec(p, k, s, n, calls).At?
  {
    hide Run, Matches, Replacement;
    if Choose(k).Rewrite? {
      ChosenMatches(k);
      WindowStraight(Choose(k).pat, k);
      assert forall j :: 0 <= j < n ==> k[..n][j] == k[..Length(Choose(k).pat) - 1][j];
    }
    assert k == k[..n] + k[n..];
    ExecStraight(p, k[..n], k[n..], s, calls);
  }

  lemma NoEarlyExit(p: seq<Instr>, k: seq<Instr>, s: State, n: nat, calls: Calls)
    requires k != [] && Exec(p, k, s, n, calls).Exit?
    ensures n >= Consumed(k)
  {
    if n < Consumed(k) { PrefixRuns(p, k, s, n, calls); }
  }

  /** And conversely: when the output terminates, so does the input, in the same way. */
  lemma {:induction false} InputFollowsOutput(p: seq<Instr>, k: seq<Instr>, s: State, t: State, m: nat,
                                              live: Annotation, atExit: Exits, calls: Calls, others: Calls)
    returns (n: nat)
    requires Prepared(p, live, atExit) && IsSuffix(k, p) && Agree(s, t, live(|k|))
    requires RunFits(p, k, s, live, calls, others)
    requires Exec(Peep(p), Peep(k), t, m, others).Exit?
    ensures Match(p, Exec(p, k, s, n, calls), Exec(Peep(p), Peep(k), t, m, others), live, atExit)
    decreases m, |k|
  {
    hide Exec, Peep, Consumed, Produced, RunFits, LiveHere, DropsDead, CallFollows;
    if k == [] {
      EmptyLive(p, live, atExit);
      PeepEmpty();
      EmptyExits(Peep(p), t, m, others);
      EmptyExits(p, s, 1, calls);
      return 1;
    }
    var c := Consumed(k);
    ProducedBound(k);
    FitsLater(p, k, s, c, live, calls, others);
    WindowMatch(p, k, s, t, live, atExit, calls, others);
    var x, y := Exec(p, k, s, c, calls), Exec(Peep(p), Peep(k), t, |Produced(k)|, others);
    if y.Exit? {
      SameExit(Peep(p), Peep(k), t, |Produced(k)|, m, others);
      n := c;
    } else {
      if m < |Produced(k)| {
        ExecSplit(Peep(p), Peep(k), t, m, |Produced(k)| - m, others);
        assert false;
      }
      ExecSplit(Peep(p), Peep(k), t, |Produced(k)|, m - |Produced(k)|, others);
      if |Produced(k)| == 0 { DropShrinks(p, k, s, live, atExit, calls); }
      var n' := InputFollowsOutput(p, x.k, x.s, y.s, m - |Produced(k)|, live, atExit, calls, others);
      ExecSplit(p, k, s, c, n', calls);
      n := c + n';
    }
  }

  lemma DropShrinks(p: seq<Instr>, k: seq<Instr>, s: State, live: Annotation, atExit: Exits, calls: Calls)
    requires Prepared(p, live, atExit) && IsSuffix(k, p) && k != [] && Choose(k).DropOne?
    ensures Exec(p, k, s, 1, calls).At? && |Exec(p, k, s, 1, calls).k| < |k|
  {
    hide Step, R;
    SuffixOfSuffix(k, p, 1);
    ExecHead(p, k, s, calls);
    if JumpsToNext(k) { UniqueAfter(p, k[1..], k[0].target); }
  }
}
