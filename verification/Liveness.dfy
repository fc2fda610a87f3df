/** The backward liveness fixpoint, and its agreement with liveness along paths. */
module Liveness {
  import opened Ir
  import opened IrFlow

  type Names = set<string>

  function LiveAfter(ir: seq<IrInst>, liveIn: seq<Names>, succ: seq<nat>): Names
    requires forall j :: j in succ ==> j < |liveIn|
  {
    set j, v | j in succ && v in liveIn[j] :: v
  }

  function Transfer(inst: IrInst, after: Names): Names
  {
    (if DefinesLocal(inst) then after - {inst.dest.name} else after) + UsedLocals(inst)
  }

  /** The dataflow equations at one instruction. */
  ghost predicate Solved(ir: seq<IrInst>, liveIn: seq<Names>, liveOut: seq<Names>, i: nat)
    requires |liveIn| == |liveOut| == |ir| && i < |ir|
  {
    && liveOut[i] == LiveAfter(ir, liveIn, Successors(ir, i))
    && liveIn[i] == Transfer(ir[i], liveOut[i])
  }

  /** The sets so far lie below what the equations give. */
  ghost predicate Below(ir: seq<IrInst>, liveIn: seq<Names>, liveOut: seq<Names>)
    requires |liveIn| == |liveOut| == |ir|
  {
    forall i :: 0 <= i < |ir| ==>
      && liveOut[i] <= LiveAfter(ir, liveIn, Successors(ir, i))
      && liveIn[i] <= Transfer(ir[i], LiveAfter(ir, liveIn, Successors(ir, i)))
  }

  // --------------------------------------------------------------------------
  // Liveness along paths
  // --------------------------------------------------------------------------

  /** A control-flow path on which v is not written before the last instruction reads it. */
  ghost predicate UsePath(ir: seq<IrInst>, v: string, path: seq<nat>)
  {
    && path != []
    && (forall k :: 0 <= k < |path| ==> path[k] < |ir|)
    && (forall k :: 0 <= k < |path| - 1 ==> path[k + 1] in Successors(ir, path[k]) && !Defines(ir[path[k]], v))
    && v in UsedLocals(ir[path[|path| - 1]])
  }

  ghost predicate PathLive(ir: seq<IrInst>, i: nat, v: string)
  {
    exists path :: UsePath(ir, v, path) && path[0] == i
  }

  lemma PathHere(ir: seq<IrInst>, i: nat, v: string)
    requires i < |ir| && v in UsedLocals(ir[i])
    ensures PathLive(ir, i, v)
  {
    assert UsePath(ir, v, [i]);
  }

  lemma PathBefore(ir: seq<IrInst>, i: nat, j: nat, v: string)
    requires i < |ir| && j in Successors(ir, i) && !Defines(ir[i], v) && PathLive(ir, j, v)
    ensures PathLive(ir, i, v)
  {
    var path :| UsePath(ir, v, path) && path[0] == j;
    hide Successors, UsedLocals, Defines;
    var longer := [i] + path;
    forall k | 0 <= k < |longer| - 1
      ensures longer[k + 1] in Successors(ir, longer[k]) && !Defines(ir[longer[k]], v)
    {
      if k > 0 { assert longer[k] == path[k - 1] && path[(k - 1) + 1] == longer[k + 1]; }
    }
    assert longer[|longer| - 1] == path[|path| - 1];
    assert UsePath(ir, v, longer);
  }

  ghost predicate Sound(ir: seq<IrInst>, liveIn: seq<Names>)
    requires |liveIn| == |ir|
  {
    forall i, v :: 0 <= i < |ir| && v in liveIn[i] ==> PathLive(ir, i, v)
  }

  /** One application of the equations keeps the sets below path liveness. */
  lemma TransferSound(ir: seq<IrInst>, liveIn: seq<Names>, i: nat)
    requires |liveIn| == |ir| && i < |ir| && Sound(ir, liveIn)
    ensures var after := LiveAfter(ir, liveIn, Successors(ir, i));
            forall v :: v in Transfer(ir[i], after) ==> PathLive(ir, i, v)
  {
    var after := LiveAfter(ir, liveIn, Successors(ir, i));
    forall v | v in Transfer(ir[i], after) ensures PathLive(ir, i, v) {
      if v in UsedLocals(ir[i]) {
        PathHere(ir, i, v);
      } else {
        var j :| j in Successors(ir, i) && v in liveIn[j];
        PathBefore(ir, i, j, v);
      }
    }
  }

  /** A solution contains everything live along some path. */
  lemma {:induction false} SolutionComplete(ir: seq<IrInst>, liveIn: seq<Names>, liveOut: seq<Names>, v: string,
                                            path: seq<nat>)
    requires |liveIn| == |liveOut| == |ir|
    requires forall i :: 0 <= i < |ir| ==> Solved(ir, liveIn, liveOut, i)
    requires UsePath(ir, v, path)
    ensures v in liveIn[path[0]]
    decreases |path|
  {
    var i := path[0];
    assert Solved(ir, liveIn, liveOut, i);
    if |path| > 1 {
      var rest := path[1..];
      assert forall k :: 0 <= k < |rest| ==> rest[k] == path[k + 1];
      SolutionComplete(ir, liveIn, liveOut, v, rest);
      assert path[0 + 1] in Successors(ir, i);
    }
  }

  /** So what is not in a solution's sets is not live. */
  lemma LiveInSolution(ir: seq<IrInst>, liveIn: seq<Names>, liveOut: seq<Names>, i: nat, v: string)
    requires |liveIn| == |liveOut| == |ir|
    requires forall k :: 0 <= k < |ir| ==> Solved(ir, liveIn, liveOut, k)
    requires PathLive(ir, i, v)
    ensures i < |ir| && v in liveIn[i]
  {
    hide Solved;
    var path :| UsePath(ir, v, path) && path[0] == i;
    SolutionComplete(ir, liveIn, liveOut, v, path);
  }

  // --------------------------------------------------------------------------
  // Termination: the sets only grow, in a finite universe
  // --------------------------------------------------------------------------

  function Total(sets: seq<Names>): nat
  {
    if sets == [] then 0 else |sets[0]| + Total(sets[1..])
  }

  lemma SubsetSize(a: Names, b: Names)
    requires a <= b
    ensures |a| <= |b| && (|a| == |b| ==> a == b)
  {
    assert b == a + (b - a);
  }

  lemma {:induction false} TotalUpdate(sets: seq<Names>, i: nat, s: Names)
    requires i < |sets|
    ensures Total(sets[i := s]) == Total(sets) - |sets[i]| + |s|
  {
    if i > 0 {
      assert sets[i := s][1..] == sets[1..][i - 1 := s];
      TotalUpdate(sets[1..], i - 1, s);
    } else {
      assert sets[i := s][1..] == sets[1..];
    }
  }

  lemma {:induction false} TotalBound(sets: seq<Names>, u: Names)
    requires forall k :: 0 <= k < |sets| ==> sets[k] <= u
    ensures Total(sets) <= |sets| * |u|
  {
    if sets != [] {
      SubsetSize(sets[0], u);
      TotalBound(sets[1..], u);
      assert |sets| * |u| == |u| + |sets[1..]| * |u|;
    }
  }

  ghost predicate Within(sets: seq<Names>, u: Names) { forall k :: 0 <= k < |sets| ==> sets[k] <= u }

  ghost function Room(liveIn: seq<Names>, liveOut: seq<Names>, u: Names): int
  {
    |liveIn| * |u| - Total(liveIn) + (|liveOut| * |u| - Total(liveOut))
  }

  lemma LocalsHere(ir: seq<IrInst>, i: nat)
    requires i < |ir|
    ensures UsedLocals(ir[i]) <= Locals(ir)
  {
    forall v | v in UsedLocals(ir[i]) ensures v in Locals(ir) {
      assert v in LocalName(ir[i].dest) + LocalName(ir[i].src1) + LocalName(ir[i].src2);
    }
  }

  // --------------------------------------------------------------------------
  // The fixpoint
  // --------------------------------------------------------------------------

  /** Storing the recomputed sets of instruction i keeps every invariant of the iteration. */
  lemma UpdateKeeps(ir: seq<IrInst>, liveIn: seq<Names>, liveOut: seq<Names>, i: nat)
    requires |liveIn| == |liveOut| == |ir| && i < |ir|
    requires Below(ir, liveIn, liveOut) && Sound(ir, liveIn)
    requires Within(liveIn, Locals(ir)) && Within(liveOut, Locals(ir))
    ensures var out := LiveAfter(ir, liveIn, Successors(ir, i));
            var in' := Transfer(ir[i], out);
            && liveIn[i] <= in' && liveOut[i] <= out
            && Below(ir, liveIn[i := in'], liveOut[i := out])
            && Sound(ir, liveIn[i := in'])
            && Within(liveIn[i := in'], Locals(ir)) && Within(liveOut[i := out], Locals(ir))
  {
    var out := LiveAfter(ir, liveIn, Successors(ir, i));
    var in' := Transfer(ir[i], out);
    TransferSound(ir, liveIn, i);
    LocalsHere(ir, i);
    var liveIn', liveOut' := liveIn[i := in'], liveOut[i := out];
    forall k | 0 <= k < |ir|
      ensures liveOut'[k] <= LiveAfter(ir, liveIn', Successors(ir, k))
      ensures liveIn'[k] <= Transfer(ir[k], LiveAfter(ir, liveIn', Successors(ir, k)))
    {
      Grows(ir, liveIn, liveIn', k);
    }
  }

  lemma Grows(ir: seq<IrInst>, liveIn: seq<Names>, liveIn': seq<Names>, k: nat)
    requires |liveIn| == |liveIn'| == |ir| && k < |ir|
    requires forall j :: 0 <= j < |ir| ==> liveIn[j] <= liveIn'[j]
    ensures LiveAfter(ir, liveIn, Successors(ir, k)) <= LiveAfter(ir, liveIn', Successors(ir, k))
    ensures Transfer(ir[k], LiveAfter(ir, liveIn, Successors(ir, k))) <=
            Transfer(ir[k], LiveAfter(ir, liveIn', Successors(ir, k)))
  {
    hide Successors, UsedLocals;
  }

  /** The iteration: passes from the last instruction to the first until nothing changes. Its result
      is exactly liveness along paths. */
  method ComputeLiveness(ir: seq<IrInst>) returns (liveIn: seq<Names>, liveOut: seq<Names>)
    ensures |liveIn| == |liveOut| == |ir|
    ensures forall i :: 0 <= i < |ir| ==> Solved(ir, liveIn, liveOut, i)
    ensures forall i, v :: 0 <= i < |ir| ==> (v in liveIn[i] <==> PathLive(ir, i, v))
  {
    hide Below, Sound, Transfer, LiveAfter, Successors, Total;
    ghost var u := Locals(ir);
    liveIn, liveOut := seq(|ir|, _ => {}), seq(|ir|, _ => {});
    assert Below(ir, liveIn, liveOut) && Sound(ir, liveIn) by { StartInvariants(ir, liveIn, liveOut); }
    var changed := true;
    while changed
      invariant |liveIn| == |liveOut| == |ir|
      invariant Below(ir, liveIn, liveOut) && Sound(ir, liveIn)
      invariant Within(liveIn, u) && Within(liveOut, u)
      invariant !changed ==> forall i :: 0 <= i < |ir| ==> Solved(ir, liveIn, liveOut, i)
      decreases Room(liveIn, liveOut, u), changed
    {
      changed := false;
      ghost var room := Room(liveIn, liveOut, u);
      var offset := |ir|;
      while offset > 0
        invariant 0 <= offset <= |ir| && |liveIn| == |liveOut| == |ir|
        invariant Below(ir, liveIn, liveOut) && Sound(ir, liveIn)
        invariant Within(liveIn, u) && Within(liveOut, u)
        invariant !changed ==> forall i :: offset <= i < |ir| ==> Solved(ir, liveIn, liveOut, i)
        invariant if changed then Room(liveIn, liveOut, u) < room else Room(liveIn, liveOut, u) == room
      {
        offset := offset - 1;
        var newOut := LiveAfter(ir, liveIn, Successors(ir, offset));
        var newIn := Transfer(ir[offset], newOut);
        UpdateKeeps(ir, liveIn, liveOut, offset);
        if newIn != liveIn[offset] || newOut != liveOut[offset] {
          RoomShrinks(liveIn, liveOut, u, offset, newIn, newOut);
          liveIn := liveIn[offset := newIn];
          liveOut := liveOut[offset := newOut];
          changed := true;
        }
      }
      RoomBound(liveIn, liveOut, u);
    }
    forall i, v | 0 <= i < |ir| ensures v in liveIn[i] <==> PathLive(ir, i, v) {
      ExactAt(ir, liveIn, liveOut, i, v);
    }
  }

  lemma StartInvariants(ir: seq<IrInst>, liveIn: seq<Names>, liveOut: seq<Names>)
    requires |liveIn| == |liveOut| == |ir|
    requires forall i :: 0 <= i < |ir| ==> liveIn[i] == {} && liveOut[i] == {}
    ensures Below(ir, liveIn, liveOut) && Sound(ir, liveIn)
  {
  }

  lemma RoomBound(liveIn: seq<Names>, liveOut: seq<Names>, u: Names)
    requires Within(liveIn, u) && Within(liveOut, u)
    ensures Room(liveIn, liveOut, u) >= 0
  {
    TotalBound(liveIn, u);
    TotalBound(liveOut, u);
  }

  lemma RoomShrinks(liveIn: seq<Names>, liveOut: seq<Names>, u: Names, i: nat, in': Names, out': Names)
    requires |liveIn| == |liveOut| && i < |liveIn|
    requires liveIn[i] <= in' && liveOut[i] <= out' && (in' != liveIn[i] || out' != liveOut[i])
    ensures Room(liveIn[i := in'], liveOut[i := out'], u) < Room(liveIn, liveOut, u)
  {
    SubsetSize(liveIn[i], in');
    SubsetSize(liveOut[i], out');
    TotalUpdate(liveIn, i, in');
    TotalUpdate(liveOut, i, out');
  }

  lemma ExactAt(ir: seq<IrInst>, liveIn: seq<Names>, liveOut: seq<Names>, i: nat, v: string)
    requires |liveIn| == |liveOut| == |ir| && i < |ir| && Sound(ir, liveIn)
    requires forall k :: 0 <= k < |ir| ==> Solved(ir, liveIn, liveOut, k)
    ensures v in liveIn[i] <==> PathLive(ir, i, v)
  {
    if PathLive(ir, i, v) {
      var path :| UsePath(ir, v, path) && path[0] == i;
      SolutionComplete(ir, liveIn, liveOut, v, path);
    }
  }
}
