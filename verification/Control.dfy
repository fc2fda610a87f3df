/** Control flow of assembly text. A position is the suffix of lines still to run; a jump moves to
    the suffix that starts at the label. Calls are an arbitrary effect on the state. */
module Control {
  import opened Rv32

  type Calls = (string, State) -> State

  datatype Leave = Returns | JumpsOut(target: string) | FallsOff

  datatype Next = At(k: seq<Instr>, s: State) | Exit(how: Leave, s: State)

  predicate HasLabel(p: seq<Instr>, l: string) { Lab(l) in p }

  /** The lines from the first occurrence of a label on. */
  function After(p: seq<Instr>, l: string): seq<Instr>
  {
    if p == [] || p[0] == Lab(l) then p else After(p[1..], l)
  }

  function Goto(p: seq<Instr>, l: string, s: State): Next
  {
    if HasLabel(p, l) then At(After(p, l), s) else Exit(JumpsOut(l), s)
  }

  function BranchTo(p: seq<Instr>, taken: bool, l: string, rest: seq<Instr>, s: State): Next
  {
    if taken then Goto(p, l, s) else At(rest, s)
  }

  predicate IsStraight(i: Instr) { !(i.J? || i.BrZ? || i.Br? || i.Ret? || i.Call?) }

  /** One line of program p at suffix k. */
  function Advance(p: seq<Instr>, k: seq<Instr>, s: State, calls: Calls): Next
  {
    if k == [] then Exit(FallsOff, s)
    else match k[0]
      case J(l) => Goto(p, l, s)
      case BrZ(test, r, l) => BranchTo(p, ZeroHolds(test, R(s, r)), l, k[1..], s)
      case Br(test, a, b, l) => BranchTo(p, PairHolds(test, R(s, a), R(s, b)), l, k[1..], s)
      case Ret => Exit(Returns, s)
      case Call(f) => At(k[1..], calls(f, s))
      case i => At(k[1..], Step(i, s))
  }

  /** At most n lines. */
  function Exec(p: seq<Instr>, k: seq<Instr>, s: State, n: nat, calls: Calls): Next
    decreases n
  {
    if n == 0 then At(k, s)
    else match Advance(p, k, s, calls)
      case Exit(how, s') => Exit(how, s')
      case At(k', s') => Exec(p, k', s', n - 1, calls)
  }

  function Continue(p: seq<Instr>, x: Next, n: nat, calls: Calls): Next
  {
    match x
    case Exit(how, s) => x
    case At(k, s) => Exec(p, k, s, n, calls)
  }

  lemma {:induction false} ExecSplit(p: seq<Instr>, k: seq<Instr>, s: State, m: nat, n: nat, calls: Calls)
    ensures Exec(p, k, s, m + n, calls) == Continue(p, Exec(p, k, s, m, calls), n, calls)
    decreases m
  {
    if m > 0 {
      match Advance(p, k, s, calls)
      case Exit(_, _) =>
      case At(k', s') => ExecSplit(p, k', s', m - 1, n, calls);
    }
  }

  lemma ExecOne(p: seq<Instr>, i: Instr, k: seq<Instr>, s: State, calls: Calls)
    requires IsStraight(i)
    ensures Exec(p, [i] + k, s, 1, calls) == At(k, Step(i, s))
  {
    hide Step;
    assert ([i] + k)[1..] == k;
    assert Advance(p, [i] + k, s, calls) == At(k, Step(i, s));
    assert Exec(p, k, Step(i, s), 0, calls) == At(k, Step(i, s));
  }

  /** A prefix of straight lines runs as straight-line code. */
  lemma {:induction false} ExecStraight(p: seq<Instr>, a: seq<Instr>, k: seq<Instr>, s: State, calls: Calls)
    requires forall i :: i in a ==> IsStraight(i)
    ensures Exec(p, a + k, s, |a|, calls) == At(k, Run(a, s))
  {
    if a == [] {
      assert a + k == k && Run(a, s) == s;
    } else {
      hide Run, Step;
      var b, i := a[..|a| - 1], a[|a| - 1];
      assert a == b + [i] && a + k == b + ([i] + k);
      ExecStraight(p, b, [i] + k, s, calls);
      RunAppend(b, [i], s);
      Run1(i, Run(b, s));
      ExecSplit(p, a + k, s, |b|, 1, calls);
      ExecOne(p, i, k, Run(b, s), calls);
    }
  }

  lemma {:induction false} AfterHead(p: seq<Instr>, l: string)
    ensures HasLabel(p, l) ==> After(p, l) != [] && After(p, l)[0] == Lab(l)
    ensures !HasLabel(p, l) ==> After(p, l) == []
    ensures |After(p, l)| <= |p| && After(p, l) == p[|p| - |After(p, l)|..]
  {
    if p != [] && p[0] != Lab(l) {
      AfterHead(p[1..], l);
      assert p == [p[0]] + p[1..];
    }
  }

  lemma {:induction false} AfterAppend(a: seq<Instr>, k: seq<Instr>, l: string)
    requires Lab(l) !in a
    ensures After(a + k, l) == After(k, l) && (HasLabel(a + k, l) <==> HasLabel(k, l))
  {
    if a == [] {
      assert a + k == k;
    } else {
      assert a[0] in a && a == [a[0]] + a[1..];
      assert (a + k)[1..] == a[1..] + k;
      AfterAppend(a[1..], k, l);
    }
  }
}
