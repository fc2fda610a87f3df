/** Block-local temporaries: each definition opens a range, ranges never leave their straight-line
    block, and variables share a t-register only when none of their ranges touch. */
module TempRanges {
  import opened Ir
  import opened IrFlow
  import opened Rv32
  import opened Frame
  import opened Liveness

  datatype LiveRange = LiveRange(start: nat, end: nat, block: nat)

  predicate EndsBlock(op: IrOp)
  {
    op.LABEL? || op.BRANCH? || op.BEQZ? || op.BNEZ? || op.CALL? || op.RETURN? || op.PARAM?
  }

  /** Number of the straight-line block instruction i lies in. */
  function BlockOf(ir: seq<IrInst>, i: nat): nat
    requires i <= |ir|
  {
    if i == 0 then 0 else BlockOf(ir, i - 1) + (if EndsBlock(ir[i - 1].op) then 1 else 0)
  }

  /** The scan records every local destination as a definition, that of RETURN and PARAM included. */
  predicate RecordsDef(inst: IrInst, v: string) { inst.dest == Local(v) }

  function RefCount(ir: seq<IrInst>, v: string, n: nat): nat
    requires n <= |ir|
  {
    if n == 0 then 0
    else RefCount(ir, v, n - 1) + (if ir[n - 1].src1 == Local(v) then 1 else 0) +
         (if ir[n - 1].src2 == Local(v) then 1 else 0) +
         (if ReadsDest(ir[n - 1].op) && RecordsDef(ir[n - 1], v) then 1 else 0) +
         (if RecordsDef(ir[n - 1], v) then 1 else 0)
  }

  /** The ranges of v after the uses of instruction i: the last one is stretched to a use in its own
      block; a use anywhere else disqualifies v. */
  function AfterUse(ir: seq<IrInst>, v: string, i: nat, rs: Option<seq<LiveRange>>): Option<seq<LiveRange>>
    requires i < |ir|
  {
    if rs.None? || v !in UsedLocals(ir[i]) then rs
    else
      var n := |rs.value| - 1;
      if n < 0 || rs.value[n].block != BlockOf(ir, i) then None
      else if rs.value[n].end < i then Some(rs.value[n := rs.value[n].(end := i)])
      else rs
  }

  function AfterDef(ir: seq<IrInst>, v: string, i: nat, rs: Option<seq<LiveRange>>): Option<seq<LiveRange>>
    requires i < |ir|
  {
    if rs.Some? && RecordsDef(ir[i], v) then Some(rs.value + [LiveRange(i, i, BlockOf(ir, i))]) else rs
  }

  /** The ranges of v over the first n instructions, or none when v is disqualified. */
  function Ranges(ir: seq<IrInst>, v: string, n: nat): Option<seq<LiveRange>>
    requires n <= |ir|
  {
    if n == 0 then Some([]) else AfterDef(ir, v, n - 1, AfterUse(ir, v, n - 1, Ranges(ir, v, n - 1)))
  }

  predicate IsCandidate(ir: seq<IrInst>, v: string)
  {
    RefCount(ir, v, |ir|) >= 2 && Ranges(ir, v, |ir|).Some? && Ranges(ir, v, |ir|).value != []
  }

  function RangesOf(ir: seq<IrInst>, v: string): seq<LiveRange>
    requires IsCandidate(ir, v)
  {
    Ranges(ir, v, |ir|).value
  }

  predicate Overlaps(a: LiveRange, b: LiveRange) { a.start <= b.end && b.start <= a.end }

  predicate SomeOverlap(as': seq<LiveRange>, bs: seq<LiveRange>)
  {
    exists i, j :: 0 <= i < |as'| && 0 <= j < |bs| && Overlaps(as'[i], bs[j])
  }

  // --------------------------------------------------------------------------
  // The allocator
  // --------------------------------------------------------------------------

  method CollectRanges(ir: seq<IrInst>, v: string) returns (ok: bool, ranges: seq<LiveRange>)
    ensures ok <==> Ranges(ir, v, |ir|).Some?
    ensures ok ==> ranges == Ranges(ir, v, |ir|).value
  {
    ranges := [];
    for i := 0 to |ir|
      invariant Ranges(ir, v, i) == Some(ranges)
    {
      if v in UsedLocals(ir[i]) {
        if ranges == [] || ranges[|ranges| - 1].block != BlockOf(ir, i) {
          DisqualifiedForGood(ir, v, i + 1, |ir|);
          return false, [];
        }
        var last := ranges[|ranges| - 1];
        if i > last.end { ranges := ranges[|ranges| - 1 := last.(end := i)]; }
      }
      if RecordsDef(ir[i], v) { ranges := ranges + [LiveRange(i, i, BlockOf(ir, i))]; }
    }
    ok := true;
  }

  lemma {:induction false} DisqualifiedForGood(ir: seq<IrInst>, v: string, m: nat, n: nat)
    requires m <= n <= |ir| && Ranges(ir, v, m).None?
    ensures Ranges(ir, v, n).None?
  {
    if m < n { DisqualifiedForGood(ir, v, m, n - 1); }
  }

  /** t3 is the scratch register of a remainder, so a body with a literal MOD keeps it free. */
  function TempRegisters(ir: seq<IrInst>): seq<Reg>
  {
    if exists i :: 0 <= i < |ir| && ir[i].op.MOD? then [T(4), T(5), T(6)] else [T(3), T(4), T(5), T(6)]
  }

  method OverlapsAny(ranges: seq<LiveRange>, occupied: seq<LiveRange>) returns (b: bool)
    ensures b <==> SomeOverlap(ranges, occupied)
  {
    b := false;
    for i := 0 to |ranges|
      invariant b <==> SomeOverlap(ranges[..i], occupied)
    {
      for j := 0 to |occupied|
        invariant b <==> SomeOverlap(ranges[..i], occupied) ||
                         exists k :: 0 <= k < j && Overlaps(ranges[i], occupied[k])
      {
        b := b || Overlaps(ranges[i], occupied[j]);
      }
      OverlapSplit(ranges, occupied, i);
    }
    assert ranges[..|ranges|] == ranges;
  }

  lemma OverlapSplit(ranges: seq<LiveRange>, occupied: seq<LiveRange>, i: nat)
    requires i < |ranges|
    ensures SomeOverlap(ranges[..i + 1], occupied) <==>
            SomeOverlap(ranges[..i], occupied) || exists k :: 0 <= k < |occupied| && Overlaps(ranges[i], occupied[k])
  {
    if k :| 0 <= k < |occupied| && Overlaps(ranges[i], occupied[k]) {
      assert Overlaps(ranges[..i + 1][i], occupied[k]);
    }
    if SomeOverlap(ranges[..i], occupied) {
      var a, b :| 0 <= a < i && 0 <= b < |occupied| && Overlaps(ranges[..i][a], occupied[b]);
      assert Overlaps(ranges[..i + 1][a], occupied[b]);
    }
    if SomeOverlap(ranges[..i + 1], occupied) {
      var a, b :| 0 <= a < i + 1 && 0 <= b < |occupied| && Overlaps(ranges[..i + 1][a], occupied[b]);
      if a < i { assert Overlaps(ranges[..i][a], occupied[b]); }
    }
  }

  /** No two variables in one t-register have touching ranges, and only candidates have one. */
  ghost predicate TempsOk(ir: seq<IrInst>, temps: map<string, Reg>)
  {
    && (forall v :: v in temps ==> IsCandidate(ir, v) && temps[v] in TempRegisters(ir))
    && (forall u, v :: u in temps && v in temps && u != v && temps[u] == temps[v] ==>
          !SomeOverlap(RangesOf(ir, u), RangesOf(ir, v)))
  }

  /** What the per-register lists of occupied ranges stand for. */
  ghost predicate Occupied(ir: seq<IrInst>, temps: map<string, Reg>, reg: Reg, occupied: seq<LiveRange>)
    requires TempsOk(ir, temps)
  {
    forall v, i :: v in temps && temps[v] == reg && 0 <= i < |RangesOf(ir, v)| ==> RangesOf(ir, v)[i] in occupied
  }

  /** First-fit assignment of the candidates, in any order. */
  method AllocateTemps(ir: seq<IrInst>, order: seq<string>) returns (temps: map<string, Reg>)
    requires forall i, j :: 0 <= i < j < |order| ==> order[i] != order[j]
    ensures TempsOk(ir, temps)
    ensures temps.Keys <= set v | v in order
  {
    hide Ranges, RefCount;
    temps := map[];
    var regs := TempRegisters(ir);
    RegistersDistinct(ir);
    var taken: seq<seq<LiveRange>> := seq(|regs|, _ => []);
    for n := 0 to |order|
      invariant |taken| == |regs|
      invariant TempsOk(ir, temps)
      invariant temps.Keys <= set v | v in order[..n]
      invariant forall r :: 0 <= r < |regs| ==> Occupied(ir, temps, regs[r], taken[r])
    {
      var v := order[n];
      assert order[..n + 1] == order[..n] + [v];
      assert v !in temps;
      var ok, ranges := CollectRanges(ir, v);
      if !ok || ranges == [] || RefCount(ir, v, |ir|) < 2 { continue; }
      var color := -1;
      var r := 0;
      while r < |regs| && color < 0
        invariant 0 <= r <= |regs|
        invariant color < 0 || (color < |regs| && !SomeOverlap(ranges, taken[color]))
        decreases |regs| - r, color < 0
      {
        var conflicts := OverlapsAny(ranges, taken[r]);
        if !conflicts { color := r; }
        r := r + 1;
      }
      if color >= 0 {
        TempAdded(ir, temps, v, regs, taken, color);
        temps := temps[v := regs[color]];
        taken := taken[color := taken[color] + ranges];
      }
    }
    assert order[..|order|] == order;
  }

  lemma RegistersDistinct(ir: seq<IrInst>)
    ensures var regs := TempRegisters(ir); forall i, j :: 0 <= i < j < |regs| ==> regs[i] != regs[j]
  {
  }

  lemma TempAdded(ir: seq<IrInst>, temps: map<string, Reg>, v: string, regs: seq<Reg>, taken: seq<seq<LiveRange>>,
                  color: nat)
    requires TempsOk(ir, temps) && v !in temps && IsCandidate(ir, v)
    requires regs == TempRegisters(ir) && |taken| == |regs| && color < |regs|
    requires forall r :: 0 <= r < |regs| ==> Occupied(ir, temps, regs[r], taken[r])
    requires !SomeOverlap(RangesOf(ir, v), taken[color])
    ensures var temps' := temps[v := regs[color]];
            var taken' := taken[color := taken[color] + RangesOf(ir, v)];
            && TempsOk(ir, temps')
            && forall r :: 0 <= r < |regs| ==> Occupied(ir, temps', regs[r], taken'[r])
  {
    hide Ranges, RefCount, IsCandidate, RangesOf, Overlaps;
    var temps' := temps[v := regs[color]];
    forall u | u in temps && temps[u] == regs[color]
      ensures !SomeOverlap(RangesOf(ir, u), RangesOf(ir, v)) && !SomeOverlap(RangesOf(ir, v), RangesOf(ir, u))
    {
      NoOverlapWith(ir, temps, u, v, regs[color], taken[color]);
    }
    RegistersDistinct(ir);
  }

  lemma NoOverlapWith(ir: seq<IrInst>, temps: map<string, Reg>, u: string, v: string, reg: Reg,
                      occupied: seq<LiveRange>)
    requires TempsOk(ir, temps) && u in temps && temps[u] == reg && IsCandidate(ir, v)
    requires Occupied(ir, temps, reg, occupied) && !SomeOverlap(RangesOf(ir, v), occupied)
    ensures !SomeOverlap(RangesOf(ir, u), RangesOf(ir, v)) && !SomeOverlap(RangesOf(ir, v), RangesOf(ir, u))
  {
    hide Ranges, RefCount;
    var us, vs := RangesOf(ir, u), RangesOf(ir, v);
    forall i, j | 0 <= i < |us| && 0 <= j < |vs|
      ensures !Overlaps(us[i], vs[j]) && !Overlaps(vs[j], us[i])
    {
      assert us[i] in occupied;
    }
  }

  // --------------------------------------------------------------------------
  // What the ranges cover
  // --------------------------------------------------------------------------

  /** A label names a position and reads nothing. */
  predicate LabelsReadNothing(ir: seq<IrInst>)
  {
    forall i :: 0 <= i < |ir| && ir[i].op.LABEL? ==> UsedLocals(ir[i]) == {}
  }

  lemma {:induction false} BlockMono(ir: seq<IrInst>, i: nat, j: nat)
    requires i <= j <= |ir|
    ensures BlockOf(ir, i) <= BlockOf(ir, j)
    ensures i < j && EndsBlock(ir[i].op) ==> BlockOf(ir, i) < BlockOf(ir, j)
    decreases j
  {
    if i < j { BlockMono(ir, i, j - 1); }
  }

  /** Range r covers the use of v at u: it opened at a definition in the block of u, and no
      definition lies between. */
  predicate Covers(ir: seq<IrInst>, v: string, r: LiveRange, u: nat)
    requires u < |ir|
  {
    && r.start < u <= r.end && r.end < |ir| && RecordsDef(ir[r.start], v)
    && BlockOf(ir, r.start) == BlockOf(ir, u) == BlockOf(ir, r.end)
    && forall k :: r.start < k < u ==> !RecordsDef(ir[k], v)
  }

  /** The scan's invariant: well-placed ranges, one per definition, the last one at the last
      definition, and every use covered. */
  ghost predicate Scanned(ir: seq<IrInst>, v: string, rs: seq<LiveRange>, n: nat)
    requires n <= |ir|
  {
    && (forall k :: 0 <= k < |rs| ==>
          rs[k].start <= rs[k].end < n && RecordsDef(ir[rs[k].start], v) &&
          rs[k].block == BlockOf(ir, rs[k].start) == BlockOf(ir, rs[k].end))
    && (forall d :: 0 <= d < n && RecordsDef(ir[d], v) ==> rs != [] && d <= rs[|rs| - 1].start)
    && (forall d :: 0 <= d < n && RecordsDef(ir[d], v) ==> exists k :: 0 <= k < |rs| && rs[k].start == d)
    && (forall u :: 0 <= u < n && v in UsedLocals(ir[u]) ==> exists k :: 0 <= k < |rs| && Covers(ir, v, rs[k], u))
  }

  lemma {:induction false} RangesScanned(ir: seq<IrInst>, v: string, n: nat)
    requires n <= |ir| && Ranges(ir, v, n).Some?
    ensures Scanned(ir, v, Ranges(ir, v, n).value, n)
  {
    hide Scanned, HalfScanned, AfterUse, AfterDef;
    if n == 0 {
      NothingScanned(ir, v);
    } else {
      SomeBefore(ir, v, n);
      RangesScanned(ir, v, n - 1);
      var rs := Ranges(ir, v, n - 1);
      UseScanned(ir, v, rs.value, n - 1);
      DefScanned(ir, v, AfterUse(ir, v, n - 1, rs).value, n - 1);
    }
  }

  lemma NothingScanned(ir: seq<IrInst>, v: string)
    ensures Scanned(ir, v, [], 0)
  {
  }

  lemma SomeBefore(ir: seq<IrInst>, v: string, n: nat)
    requires 0 < n <= |ir| && Ranges(ir, v, n).Some?
    ensures Ranges(ir, v, n - 1).Some? && AfterUse(ir, v, n - 1, Ranges(ir, v, n - 1)).Some?
    ensures Ranges(ir, v, n).value == AfterDef(ir, v, n - 1, AfterUse(ir, v, n - 1, Ranges(ir, v, n - 1))).value
  {
    hide BlockOf;
  }

  /** Between the uses and the definition of instruction i. */
  ghost predicate HalfScanned(ir: seq<IrInst>, v: string, rs: seq<LiveRange>, i: nat)
    requires i < |ir|
  {
    && (forall k :: 0 <= k < |rs| ==>
          rs[k].start <= rs[k].end <= i && rs[k].start < i && RecordsDef(ir[rs[k].start], v) &&
          rs[k].block == BlockOf(ir, rs[k].start) == BlockOf(ir, rs[k].end))
    && (forall d :: 0 <= d < i && RecordsDef(ir[d], v) ==> rs != [] && d <= rs[|rs| - 1].start)
    && (forall d :: 0 <= d < i && RecordsDef(ir[d], v) ==> exists k :: 0 <= k < |rs| && rs[k].start == d)
    && (forall u :: 0 <= u <= i && v in UsedLocals(ir[u]) ==> exists k :: 0 <= k < |rs| && Covers(ir, v, rs[k], u))
  }

  lemma UseScanned(ir: seq<IrInst>, v: string, rs: seq<LiveRange>, i: nat)
    requires i < |ir| && Scanned(ir, v, rs, i) && AfterUse(ir, v, i, Some(rs)).Some?
    ensures HalfScanned(ir, v, AfterUse(ir, v, i, Some(rs)).value, i)
  {
    hide BlockOf, UsedLocals, Covers;
    var rs' := AfterUse(ir, v, i, Some(rs)).value;
    forall u | 0 <= u <= i && v in UsedLocals(ir[u])
      ensures exists k :: 0 <= k < |rs'| && Covers(ir, v, rs'[k], u)
    {
      if u < i {
        var k :| 0 <= k < |rs| && Covers(ir, v, rs[k], u);
        StretchCovers(ir, v, rs[k], rs'[k], u);
      } else {
        LastCovers(ir, v, rs, rs', i);
      }
    }
    forall d | 0 <= d < i && RecordsDef(ir[d], v) ensures exists k :: 0 <= k < |rs'| && rs'[k].start == d {
      var k :| 0 <= k < |rs| && rs[k].start == d;
      assert rs'[k].start == d;
    }
  }

  lemma StretchCovers(ir: seq<IrInst>, v: string, r: LiveRange, r': LiveRange, u: nat)
    requires u < |ir| && Covers(ir, v, r, u) && r'.start == r.start && r.end <= r'.end < |ir|
    requires BlockOf(ir, r'.end) == BlockOf(ir, r.start)
    ensures Covers(ir, v, r', u)
  {
  }

  /** A use in the block of the last range is covered by it, stretched. */
  lemma LastCovers(ir: seq<IrInst>, v: string, rs: seq<LiveRange>, rs': seq<LiveRange>, i: nat)
    requires i < |ir| && Scanned(ir, v, rs, i) && v in UsedLocals(ir[i])
    requires AfterUse(ir, v, i, Some(rs)) == Some(rs')
    ensures |rs'| > 0 && Covers(ir, v, rs'[|rs'| - 1], i)
  {
    hide BlockOf, UsedLocals;
  }

  lemma DefScanned(ir: seq<IrInst>, v: string, rs: seq<LiveRange>, i: nat)
    requires i < |ir| && HalfScanned(ir, v, rs, i)
    ensures Scanned(ir, v, AfterDef(ir, v, i, Some(rs)).value, i + 1)
  {
    hide BlockOf, UsedLocals;
    var rs' := AfterDef(ir, v, i, Some(rs)).value;
    assert forall k :: 0 <= k < |rs| ==> rs'[k] == rs[k];
    forall u | 0 <= u < i + 1 && v in UsedLocals(ir[u])
      ensures exists k :: 0 <= k < |rs'| && Covers(ir, v, rs'[k], u)
    {
      var k :| 0 <= k < |rs| && Covers(ir, v, rs[k], u);
      assert Covers(ir, v, rs'[k], u);
    }
    forall d | 0 <= d < i + 1 && RecordsDef(ir[d], v) ensures exists k :: 0 <= k < |rs'| && rs'[k].start == d {
      if d < i {
        var k :| 0 <= k < |rs| && rs[k].start == d;
        assert rs'[k].start == d;
      } else {
        assert rs'[|rs|].start == d;
      }
    }
  }

  /** v is live after i: some successor starts a path to a use. */
  ghost predicate LiveAfterInst(ir: seq<IrInst>, i: nat, v: string)
    requires i < |ir|
  {
    exists j :: j in Successors(ir, i) && PathLive(ir, j, v)
  }

  /** Tracing a path to a use back inside the covering range. */
  lemma {:induction false} TraceBack(ir: seq<IrInst>, v: string, r: LiveRange, path: seq<nat>, k: nat)
    requires LabelsReadNothing(ir) && UsePath(ir, v, path) && k < |path|
    requires Covers(ir, v, r, path[|path| - 1])
    ensures r.start < path[k] <= path[|path| - 1]
    decreases |path| - k
  {
    var u := path[|path| - 1];
    if k < |path| - 1 {
      TraceBack(ir, v, r, path, k + 1);
      OnlyFromAbove(ir, v, r, u, path[k], path[k + 1]);
    }
  }

  /** Inside a covering range control arrives only from the line above. */
  lemma OnlyFromAbove(ir: seq<IrInst>, v: string, r: LiveRange, u: nat, q: nat, p: nat)
    requires LabelsReadNothing(ir) && u < |ir| && Covers(ir, v, r, u) && v in UsedLocals(ir[u])
    requires q < |ir| && p in Successors(ir, q) && r.start < p <= u
    ensures q == p - 1
    ensures !Defines(ir[q], v) ==> r.start < q
  {
    hide UsedLocals;
    BlockMono(ir, r.start, p);
    BlockMono(ir, p, u);
    assert !ir[p].op.LABEL?;
    assert q == p - 1;
    if q == r.start { BlockMono(ir, r.start, u); }
  }

  /** A temporary live after an instruction has a range around it. */
  lemma TempRangeAround(ir: seq<IrInst>, v: string, i: nat) returns (r: LiveRange)
    requires LabelsReadNothing(ir) && IsCandidate(ir, v) && i < |ir| && LiveAfterInst(ir, i, v)
    ensures r in RangesOf(ir, v) && r.start <= i < r.end < |ir|
    ensures BlockOf(ir, r.start) == BlockOf(ir, i) == BlockOf(ir, r.end)
  {
    hide UsedLocals;
    var j :| j in Successors(ir, i) && PathLive(ir, j, v);
    var path :| UsePath(ir, v, path) && path[0] == j;
    var u := path[|path| - 1];
    RangesScanned(ir, v, |ir|);
    var k :| 0 <= k < |RangesOf(ir, v)| && Covers(ir, v, RangesOf(ir, v)[k], u);
    r := RangesOf(ir, v)[k];
    TraceBack(ir, v, r, path, 0);
    OnlyFromAbove(ir, v, r, u, i, j);
    BlockMono(ir, r.start, i);
    BlockMono(ir, i, r.end);
  }

  /** No temporary in a t-register is live across the end of a block, in particular across a call. */
  lemma NoTempAcrossBlockEnd(ir: seq<IrInst>, v: string, i: nat)
    requires LabelsReadNothing(ir) && IsCandidate(ir, v) && i < |ir| && EndsBlock(ir[i].op)
    ensures !LiveAfterInst(ir, i, v)
  {
    if LiveAfterInst(ir, i, v) {
      var r := TempRangeAround(ir, v, i);
      BlockMono(ir, i, r.end);
    }
  }

  /** A definition opens a range, even when its value is never read. */
  lemma DefinitionHasRange(ir: seq<IrInst>, v: string, i: nat) returns (r: LiveRange)
    requires IsCandidate(ir, v) && i < |ir| && Defines(ir[i], v)
    ensures r in RangesOf(ir, v) && r.start == i <= r.end
  {
    RangesScanned(ir, v, |ir|);
    var k :| 0 <= k < |RangesOf(ir, v)| && RangesOf(ir, v)[k].start == i;
    r := RangesOf(ir, v)[k];
  }

  /** Main result: a t-register written at i holds no other variable that is live after i. */
  lemma TempsSound(ir: seq<IrInst>, temps: map<string, Reg>, i: nat, d: string, v: string)
    requires LabelsReadNothing(ir) && TempsOk(ir, temps) && i < |ir|
    requires d in temps && v in temps && d != v
    requires Defines(ir[i], d) && LiveAfterInst(ir, i, v)
    ensures temps[d] != temps[v]
  {
    hide Ranges, RefCount, LiveAfterInst;
    var a := DefinitionHasRange(ir, d, i);
    var b := TempRangeAround(ir, v, i);
    var x :| 0 <= x < |RangesOf(ir, d)| && RangesOf(ir, d)[x] == a;
    var y :| 0 <= y < |RangesOf(ir, v)| && RangesOf(ir, v)[y] == b;
    assert Overlaps(RangesOf(ir, d)[x], RangesOf(ir, v)[y]);
  }
}
