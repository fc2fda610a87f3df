/** The non-negativity analysis as the generator runs it: three passes that fill a table of ranges. */
module NonNegPass {
  import opened Ir
  import opened Body
  import opened Remainder
  import opened NonNeg

  datatype NonNegRange = NonNegRange(begin: nat, end: nat)

  type Ranges = map<string, seq<NonNegRange>>

  predicate Contains(r: NonNegRange, index: nat) { r.begin <= index < r.end }

  predicate InSome(ranges: seq<NonNegRange>, index: nat) { exists k :: 0 <= k < |ranges| && Contains(ranges[k], index) }

  /** The table says v is not negative at index. */
  predicate IsNonNegative(table: Ranges, v: string, index: nat) { v in table && InSome(table[v], index) }

  method LookUp(table: Ranges, v: string, index: nat) returns (b: bool)
    ensures b <==> IsNonNegative(table, v, index)
  {
    if v !in table { return false; }
    for k := 0 to |table[v]|
      invariant forall m :: 0 <= m < k ==> !Contains(table[v][m], index)
    {
      if Contains(table[v][k], index) { return true; }
    }
    return false;
  }

  method AddRange(table: Ranges, v: string, begin: nat, end: nat) returns (table': Ranges)
    ensures forall u, i: nat :: IsNonNegative(table', u, i) <==>
              IsNonNegative(table, u, i) || (u == v && begin <= i < end)
  {
    if begin >= end { return table; }
    var before := if v in table then table[v] else [];
    var after := before + [NonNegRange(begin, end)];
    table' := table[v := after];
    forall i: nat ensures InSome(after, i) <==> InSome(before, i) || begin <= i < end {
      Appended(before, NonNegRange(begin, end), i);
    }
  }

  lemma Appended(ranges: seq<NonNegRange>, r: NonNegRange, i: nat)
    ensures InSome(ranges + [r], i) <==> InSome(ranges, i) || Contains(r, i)
  {
    if InSome(ranges, i) {
      var k :| 0 <= k < |ranges| && Contains(ranges[k], i);
      assert Contains((ranges + [r])[k], i);
    }
    if Contains(r, i) { assert Contains((ranges + [r])[|ranges|], i); }
    if InSome(ranges + [r], i) {
      var k :| 0 <= k < |ranges + [r]| && Contains((ranges + [r])[k], i);
      if k < |ranges| { assert Contains(ranges[k], i); }
    }
  }

  // --------------------------------------------------------------------------
  // First pass: locals whose every definition is non-negative
  // --------------------------------------------------------------------------

  method CollectChainEnds(ir: seq<IrInst>) returns (finals: set<nat>)
    ensures forall f: nat :: f in finals <==> EndsChain(ir, f)
  {
    hide MatchNormalized;
    finals := {};
    for a := 0 to |ir|
      invariant forall f: nat :: f in finals <==>
                  exists b :: 0 <= b < a && MatchNormalized(ir, b).Some? &&
                    f == b + MatchNormalized(ir, b).value.length - 1
    {
      if MatchNormalized(ir, a).Some? { finals := finals + {a + MatchNormalized(ir, a).value.length - 1}; }
    }
  }

  ghost predicate ProvenUpTo(ir: seq<IrInst>, proven: map<string, bool>, n: nat)
    requires n <= |ir|
  {
    forall v ::
      && (v in proven <==> exists i :: 0 <= i < n && RealDef(ir[i], v))
      && (v in proven ==> (proven[v] <==> forall i :: 0 <= i < n && RealDef(ir[i], v) ==>
                           SetsConstant(ir[i]) || EndsChain(ir, i)))
  }

  method FindAlways(ir: seq<IrInst>, finals: set<nat>) returns (always: set<string>)
    requires forall f: nat :: f in finals <==> EndsChain(ir, f)
    ensures forall v :: v in always <==> AlwaysNonneg(ir, v)
  {
    hide EndsChain;
    var proven: map<string, bool> := map[];
    for i := 0 to |ir|
      invariant ProvenUpTo(ir, proven, i)
    {
      ghost var before := proven;
      if ir[i].dest.Local? && RealDef(ir[i], ir[i].dest.name) {
        var v := ir[i].dest.name;
        var good := SetsConstant(ir[i]) || i in finals;
        proven := proven[v := (v !in proven || proven[v]) && good];
      }
      ProvenStep(ir, before, proven, i);
    }
    always := set v | v in proven && proven[v];
  }

  lemma ProvenStep(ir: seq<IrInst>, before: map<string, bool>, proven: map<string, bool>, i: nat)
    requires i < |ir| && ProvenUpTo(ir, before, i)
    requires if ir[i].dest.Local? && RealDef(ir[i], ir[i].dest.name) then
               var v := ir[i].dest.name;
               proven == before[v := (v !in before || before[v]) && (SetsConstant(ir[i]) || EndsChain(ir, i))]
             else proven == before
    ensures ProvenUpTo(ir, proven, i + 1)
  {
    hide EndsChain, SetsConstant;
    forall v
      ensures v in proven <==> exists k :: 0 <= k < i + 1 && RealDef(ir[k], v)
      ensures v in proven ==>
                (proven[v] <==> forall k :: 0 <= k < i + 1 && RealDef(ir[k], v) ==>
                 SetsConstant(ir[k]) || EndsChain(ir, k))
    {
    }
  }

  method AddAlways(ir: seq<IrInst>, always: set<string>) returns (table: Ranges)
    ensures forall v, i: nat :: IsNonNegative(table, v, i) <==> v in always && i < |ir|
  {
    table := map[];
    var rest := always;
    while rest != {}
      invariant rest <= always
      invariant forall v, i: nat :: IsNonNegative(table, v, i) <==> v in always - rest && i < |ir|
      decreases |rest|
    {
      var v :| v in rest;
      rest := rest - {v};
      table := AddRange(table, v, 0, |ir|);
    }
  }

  // --------------------------------------------------------------------------
  // Second pass: counters of reversed loops
  // --------------------------------------------------------------------------

  method LocateLabel(ir: seq<IrInst>, from: nat, name: string) returns (ci: nat)
    ensures ci == FindLabel(ir, from, name)
  {
    ci := from;
    while ci < |ir|
      invariant from <= ci && FindLabel(ir, from, name) == FindLabel(ir, ci, name)
    {
      if ir[ci].op.LABEL? && NameOf(ir[ci].dest) == name { return; }
      ci := ci + 1;
    }
  }

  method LocateBranchBack(ir: seq<IrInst>, from: nat, name: string) returns (bi: nat)
    ensures bi == FindBranchBack(ir, from, name)
  {
    bi := from;
    while bi < |ir|
      invariant from <= bi && FindBranchBack(ir, from, name) == FindBranchBack(ir, bi, name)
    {
      if ir[bi].op.BNEZ? && NameOf(ir[bi].dest) == name { return; }
      bi := bi + 1;
    }
  }

  method InitialNonneg(ir: seq<IrInst>, at: nat, v: string) returns (b: bool)
    requires at <= |ir|
    ensures b <==> StartsNonneg(ir, at, v)
  {
    var k: nat := at;
    while k > 0
      invariant k <= at && (StartsNonneg(ir, at, v) <==> StartsNonneg(ir, k, v))
    {
      if ir[k - 1].dest == Local(v) { return SetsConstant(ir[k - 1]); }
      if StopsScan(ir[k - 1].op) { return false; }
      k := k - 1;
    }
    return false;
  }

  method OnlySelfIncrements(ir: seq<IrInst>, from: nat, to: nat, v: string) returns (b: bool)
    requires from <= to <= |ir|
    ensures b <==> OnlyIncrements(ir, from, to, v)
  {
    for k := from to to
      invariant OnlyIncrements(ir, from, k, v)
    {
      if ir[k].dest == Local(v) && !Increments(ir[k], v) { return false; }
    }
    return true;
  }

  method AnalyzeLoop(ir: seq<IrInst>, s: nat) returns (found: bool, v: string, last: nat)
    requires s < |ir|
    ensures found <==> CounterLoop(ir, s).Some?
    ensures found ==> CounterLoop(ir, s).value == Counter(v, last)
  {
    found, v, last := false, "", 0;
    if s + 1 >= |ir| || !ir[s].op.BRANCH? || !ir[s].dest.Label? || !ir[s + 1].op.LABEL? { return; }
    var ci := LocateLabel(ir, s + 2, ir[s].dest.name);
    if ci >= |ir| { return; }
    FoundBelow(ir, s + 2, ir[s].dest.name);
    var bi := LocateBranchBack(ir, ci + 1, NameOf(ir[s + 1].dest));
    if bi >= |ir| || bi <= ci + 1 { return; }
    if !(ir[bi - 1].op.LT? || ir[bi - 1].op.LE?) || !ir[bi - 1].src1.Local? { return; }
    v := ir[bi - 1].src1.name;
    last := bi;
    var start := InitialNonneg(ir, s, v);
    if !start { return; }
    found := OnlySelfIncrements(ir, s + 2, bi, v);
  }

  lemma {:induction false} FoundBelow(ir: seq<IrInst>, from: nat, name: string)
    ensures FindLabel(ir, from, name) >= from
    decreases |ir| - from
  {
    if from < |ir| { FoundBelow(ir, from + 1, name); }
  }

  method AddCounters(ir: seq<IrInst>, always: Ranges) returns (table: Ranges)
    ensures forall v, i: nat :: IsNonNegative(table, v, i) <==> IsNonNegative(always, v, i) || CountsAt(ir, v, i)
  {
    hide CounterLoop, IsNonNegative;
    table := always;
    for s := 0 to |ir|
      invariant forall v, i: nat :: IsNonNegative(table, v, i) <==>
                  IsNonNegative(always, v, i) ||
                  exists r :: 0 <= r < s && CounterLoop(ir, r).Some? && CounterLoop(ir, r).value.name == v &&
                              r + 2 <= i <= CounterLoop(ir, r).value.last
    {
      var found, v, last := AnalyzeLoop(ir, s);
      if found { table := AddRange(table, v, s + 2, last + 1); }
    }
  }

  // --------------------------------------------------------------------------
  // Third pass: straight-line windows
  // --------------------------------------------------------------------------

  /** The open windows: a local and the line of its latest definition. */
  type Open = seq<(string, nat)>

  predicate OpenFor(open: Open, v: string) { exists k :: 0 <= k < |open| && open[k].0 == v }

  /** An open window of v that started at or above i. */
  predicate OpenAt(open: Open, v: string, i: nat) { exists k :: 0 <= k < |open| && open[k].0 == v && open[k].1 <= i }

  predicate OneEach(open: Open) { forall j, k :: 0 <= j < k < |open| ==> open[j].0 != open[k].0 }

  /** Closes every open window at `end`. */
  method Flush(table: Ranges, open: Open, end: nat) returns (table': Ranges)
    ensures forall v, i: nat :: IsNonNegative(table', v, i) <==>
              IsNonNegative(table, v, i) || (i < end && OpenAt(open, v, i))
  {
    hide IsNonNegative;
    table' := table;
    for k := 0 to |open|
      invariant forall v, i: nat :: IsNonNegative(table', v, i) <==>
                  IsNonNegative(table, v, i) ||
                  (i < end && exists m :: 0 <= m < k && open[m].0 == v && open[m].1 <= i)
    {
      table' := AddRange(table', open[k].0, open[k].1, end);
    }
  }

  /** Closes the window of v, if there is one, at `end`. */
  method Close(table: Ranges, open: Open, v: string, end: nat) returns (table': Ranges, open': Open)
    requires OneEach(open)
    ensures forall u, i: nat :: IsNonNegative(table', u, i) <==>
              IsNonNegative(table, u, i) || (u == v && i < end && OpenAt(open, v, i))
    ensures OneEach(open') && !OpenFor(open', v) && forall e :: e in open' ==> e in open
    ensures forall u, i: nat :: u != v ==> (OpenAt(open', u, i) <==> OpenAt(open, u, i))
  {
    for k := 0 to |open|
      invariant forall m :: 0 <= m < k ==> open[m].0 != v
    {
      if open[k].0 == v {
        table' := AddRange(table, v, open[k].1, end);
        open' := open[..k] + open[k + 1..];
        Removed(open, k);
        return;
      }
    }
    table', open' := table, open;
  }

  lemma Removed(open: Open, k: nat)
    requires OneEach(open) && k < |open|
    ensures var open' := open[..k] + open[k + 1..];
            && OneEach(open') && !OpenFor(open', open[k].0)
            && (forall u, i: nat :: u != open[k].0 ==> (OpenAt(open', u, i) <==> OpenAt(open, u, i)))
    ensures forall i: nat :: OpenAt(open, open[k].0, i) <==> open[k].1 <= i
  {
    var open' := open[..k] + open[k + 1..];
    forall u, i: nat | u != open[k].0 ensures OpenAt(open', u, i) <==> OpenAt(open, u, i) {
      if OpenAt(open, u, i) {
        var m :| 0 <= m < |open| && open[m].0 == u && open[m].1 <= i;
        assert open'[if m < k then m else m - 1] == open[m];
      }
    }
  }

  /** What the open windows and the table say between two lines. */
  ghost predicate Scanned(ir: seq<IrInst>, table: Ranges, open: Open, idx: nat)
    requires idx <= |ir|
  {
    && OneEach(open) && (forall k :: 0 <= k < |open| ==> open[k].1 < idx)
    && (forall v :: OpenFor(open, v) <==> v in KnownAt(ir, idx))
    && (forall v, i: nat :: i < idx ==> (IsNonNegative(table, v, i) || OpenAt(open, v, i) <==> ClaimedNonneg(ir, v, i)))
    && (forall v, i: nat :: idx <= i < |ir| ==> (IsNonNegative(table, v, i) <==> Seeded(ir, v, i)))
  }

  method TrustsSource(ir: seq<IrInst>, table: Ranges, open: Open, o: Operand, idx: nat) returns (b: bool)
    requires idx < |ir| && Scanned(ir, table, open, idx)
    ensures b <==> SourceNonneg(ir, KnownAt(ir, idx), o, idx)
  {
    hide KnownAt, ClaimedNonneg, Seeded, IsNonNegative;
    if o.Imm? { return o.immVal >= 0; }
    if !o.Local? { return false; }
    for k := 0 to |open|
      invariant forall m :: 0 <= m < k ==> open[m].0 != o.name
    {
      if open[k].0 == o.name {
        assert OpenFor(open, o.name);
        return true;
      }
    }
    b := LookUp(table, o.name, idx);
  }

  method DefinesNonneg(ir: seq<IrInst>, finals: set<nat>, table: Ranges, open: Open, idx: nat) returns (b: bool)
    requires idx < |ir| && Scanned(ir, table, open, idx) && forall f: nat :: f in finals <==> EndsChain(ir, f)
    ensures b <==> MakesNonneg(ir, KnownAt(ir, idx), idx)
  {
    hide KnownAt, Scanned, EndsChain, SetsConstant;
    var inst := ir[idx];
    if !inst.dest.Local? { return false; }
    if idx in finals { return true; }
    if SetsConstant(inst) { return true; }
    var first := TrustsSource(ir, table, open, inst.src1, idx);
    if inst.op.ASSIGN? && inst.src1.Local? { return first; }
    if inst.op.ADD? {
      var second := TrustsSource(ir, table, open, inst.src2, idx);
      return first && second;
    }
    return (inst.op.DIV? || inst.op.MOD?) && first && inst.src2.Imm? && inst.src2.immVal > 0;
  }

  method AddWindows(ir: seq<IrInst>, finals: set<nat>, seeds: Ranges) returns (table: Ranges)
    requires forall f: nat :: f in finals <==> EndsChain(ir, f)
    requires forall v, i: nat :: i < |ir| ==> (IsNonNegative(seeds, v, i) <==> Seeded(ir, v, i))
    ensures forall v, i: nat :: i < |ir| ==> (IsNonNegative(table, v, i) <==> ClaimedNonneg(ir, v, i))
  {
    hide EndsChain, Seeded, IsNonNegative, Scanned, ClaimedNonneg, KnownAt, MakesNonneg;
    table := seeds;
    var open: Open := [];
    StartScan(ir, table);
    for idx := 0 to |ir|
      invariant Scanned(ir, table, open, idx)
    {
      ghost var table0, open0 := table, open;
      if EndsWindow(ir[idx].op) {
        table := Flush(table, open, idx);
        open := [];
        FlushKeeps(ir, table0, open0, table, idx);
      } else {
        var nonneg := DefinesNonneg(ir, finals, table, open, idx);
        if ir[idx].dest.Local? {
          ScannedUnique(ir, table, open, idx);
          table, open := Close(table, open, ir[idx].dest.name, idx);
          ghost var open1 := open;
          if nonneg { open := open + [(ir[idx].dest.name, idx)]; }
          DefinitionKeeps(ir, table0, open0, table, open1, open, idx);
        } else {
          OtherKeeps(ir, table, open, idx);
        }
      }
    }
    table := Finish(ir, table, open);
  }

  /** At the end of the function every window still open is closed. */
  method Finish(ir: seq<IrInst>, table0: Ranges, open: Open) returns (table: Ranges)
    requires Scanned(ir, table0, open, |ir|)
    ensures forall v, i: nat :: i < |ir| ==> (IsNonNegative(table, v, i) <==> ClaimedNonneg(ir, v, i))
  {
    hide IsNonNegative, ClaimedNonneg, KnownAt, Seeded;
    table := Flush(table0, open, |ir|);
  }

  lemma ScannedUnique(ir: seq<IrInst>, table: Ranges, open: Open, idx: nat)
    requires idx <= |ir| && Scanned(ir, table, open, idx)
    ensures OneEach(open) && forall e :: e in open ==> e.1 < idx
  {
  }

  lemma StartScan(ir: seq<IrInst>, seeds: Ranges)
    requires forall v, i: nat :: i < |ir| ==> (IsNonNegative(seeds, v, i) <==> Seeded(ir, v, i))
    ensures Scanned(ir, seeds, [], 0)
  {
    hide Seeded, IsNonNegative, ClaimedNonneg;
  }

  lemma FlushKeeps(ir: seq<IrInst>, table0: Ranges, open: Open, table: Ranges, idx: nat)
    requires idx < |ir| && Scanned(ir, table0, open, idx) && EndsWindow(ir[idx].op)
    requires forall v, i: nat :: IsNonNegative(table, v, i) <==>
               IsNonNegative(table0, v, i) || (i < idx && OpenAt(open, v, i))
    ensures Scanned(ir, table, [], idx + 1)
  {
    hide Seeded, IsNonNegative, MakesNonneg;
  }

  lemma OpenedLater(open: Open, v: string, idx: nat, i: nat)
    requires (forall k :: 0 <= k < |open| ==> open[k].1 < idx) && idx <= i
    ensures OpenAt(open, v, i) <==> OpenFor(open, v)
  {
  }

  lemma OtherKeeps(ir: seq<IrInst>, table: Ranges, open: Open, idx: nat)
    requires idx < |ir| && Scanned(ir, table, open, idx) && !EndsWindow(ir[idx].op) && !ir[idx].dest.Local?
    ensures Scanned(ir, table, open, idx + 1)
  {
    hide Seeded, IsNonNegative, OpenAt, OpenFor;
    forall v ensures OpenAt(open, v, idx) <==> OpenFor(open, v) { OpenedLater(open, v, idx, idx); }
  }

  /** The open windows after a definition at idx, `open1` being what was left when its own was closed. */
  ghost predicate Reopened(ir: seq<IrInst>, open0: Open, open1: Open, open: Open, idx: nat)
    requires idx < |ir| && ir[idx].dest.Local?
  {
    var v := ir[idx].dest.name;
    && OneEach(open1) && !OpenFor(open1, v) && (forall k :: 0 <= k < |open1| ==> open1[k].1 < idx)
    && (forall u, i: nat :: u != v ==> (OpenAt(open1, u, i) <==> OpenAt(open0, u, i)))
    && open == if MakesNonneg(ir, KnownAt(ir, idx), idx) then open1 + [(v, idx)] else open1
  }

  /** An open window of u at i, after the definition at idx. */
  predicate StillOpen(ir: seq<IrInst>, open0: Open, idx: nat, u: string, i: nat)
    requires idx < |ir| && ir[idx].dest.Local?
  {
    if u == ir[idx].dest.name then MakesNonneg(ir, KnownAt(ir, idx), idx) && idx <= i else OpenAt(open0, u, i)
  }

  /** Closing the old window and opening the new one. */
  lemma DefinitionKeeps(ir: seq<IrInst>, table0: Ranges, open0: Open, table: Ranges, open1: Open, open: Open, idx: nat)
    requires idx < |ir| && Scanned(ir, table0, open0, idx) && !EndsWindow(ir[idx].op) && ir[idx].dest.Local?
    requires Reopened(ir, open0, open1, open, idx)
    requires forall u, i: nat :: IsNonNegative(table, u, i) <==>
               IsNonNegative(table0, u, i) || (u == ir[idx].dest.name && i < idx && OpenAt(open0, u, i))
    ensures Scanned(ir, table, open, idx + 1)
  {
    hide Seeded, IsNonNegative, ClaimedNonneg, KnownAt, OpenAt, OpenFor, Reopened;
    ReopenedNames(ir, open0, open1, open, idx);
    forall u, i: nat ensures OpenAt(open, u, i) <==> StillOpen(ir, open0, idx, u, i) {
      ReopenedAt(ir, open0, open1, open, idx, u, i);
    }
    hide MakesNonneg;
    forall u ensures IsNonNegative(table, u, idx) || OpenAt(open, u, idx) <==> ClaimedNonneg(ir, u, idx) {
      OpenedLater(open0, u, idx, idx);
      ClaimedHere(ir, idx, u);
    }
  }

  lemma ReopenedAt(ir: seq<IrInst>, open0: Open, open1: Open, open: Open, idx: nat, u: string, i: nat)
    requires idx < |ir| && ir[idx].dest.Local? && Reopened(ir, open0, open1, open, idx)
    ensures OpenAt(open, u, i) <==> StillOpen(ir, open0, idx, u, i)
  {
    hide MakesNonneg, KnownAt, OpenAt, OpenFor;
    OpenGrows(open1, ir[idx].dest.name, idx, u, i);
    NotOpen(open1, ir[idx].dest.name, i);
  }

  lemma ReopenedNames(ir: seq<IrInst>, open0: Open, open1: Open, open: Open, idx: nat)
    requires idx < |ir| && ir[idx].dest.Local? && Reopened(ir, open0, open1, open, idx) && !EndsWindow(ir[idx].op)
    requires (forall k :: 0 <= k < |open0| ==> open0[k].1 < idx) && forall v :: OpenFor(open0, v) <==>
             v in KnownAt(ir, idx)
    ensures OneEach(open) && (forall k :: 0 <= k < |open| ==> open[k].1 < idx + 1)
    ensures forall v :: OpenFor(open, v) <==> v in KnownAt(ir, idx + 1)
  {
    hide MakesNonneg, KnownAt, OpenAt, EndsWindow;
    var v := ir[idx].dest.name;
    NotListed(open1, v);
    hide OpenFor;
    forall u ensures OpenFor(open, u) <==> u in KnownAt(ir, idx + 1) {
      OpenedLater(open, u, idx + 1, idx + 1);
      OpenedLater(open0, u, idx, idx + 1);
      OpenedLater(open1, u, idx, idx + 1);
      OpenGrows(open1, v, idx, u, idx + 1);
      KnownNext(ir, idx, u);
    }
  }

  lemma NotListed(open: Open, v: string)
    requires !OpenFor(open, v)
    ensures forall k :: 0 <= k < |open| ==> open[k].0 != v
  {
  }

  lemma KnownNext(ir: seq<IrInst>, idx: nat, u: string)
    requires idx < |ir| && !EndsWindow(ir[idx].op) && ir[idx].dest.Local?
    ensures u in KnownAt(ir, idx + 1) <==>
            if u == ir[idx].dest.name then MakesNonneg(ir, KnownAt(ir, idx), idx) else u in KnownAt(ir, idx)
  {
    hide MakesNonneg;
  }

  lemma ClaimedHere(ir: seq<IrInst>, idx: nat, u: string)
    requires idx < |ir| && !EndsWindow(ir[idx].op) && ir[idx].dest.Local?
    ensures ClaimedNonneg(ir, u, idx) <==>
            Seeded(ir, u, idx) ||
            if u == ir[idx].dest.name then MakesNonneg(ir, KnownAt(ir, idx), idx) else u in KnownAt(ir, idx)
  {
    hide MakesNonneg, Seeded, KnownAt;
  }

  lemma NotOpen(open: Open, v: string, i: nat)
    requires !OpenFor(open, v)
    ensures !OpenAt(open, v, i)
  {
  }

  lemma OpenGrows(open: Open, v: string, idx: nat, u: string, i: nat)
    ensures OpenAt(open + [(v, idx)], u, i) <==> OpenAt(open, u, i) || (u == v && idx <= i)
  {
    var open' := open + [(v, idx)];
    if OpenAt(open, u, i) {
      var k :| 0 <= k < |open| && open[k].0 == u && open[k].1 <= i;
      assert open'[k] == open[k];
    }
    assert open'[|open|] == (v, idx);
  }

  /** The whole analysis: its table says exactly what is claimed. */
  method AnalyzeNonNegativeVars(ir: seq<IrInst>) returns (table: Ranges)
    ensures forall v, i: nat :: i < |ir| ==> (IsNonNegative(table, v, i) <==> ClaimedNonneg(ir, v, i))
  {
    hide IsNonNegative, ClaimedNonneg, AlwaysNonneg, CountsAt, EndsChain;
    var finals := CollectChainEnds(ir);
    var always := FindAlways(ir, finals);
    var table1 := AddAlways(ir, always);
    var table2 := AddCounters(ir, table1);
    table := AddWindows(ir, finals, table2);
  }
}
