/** Every label of a function's text is defined once. */
module TextLabels {
  import opened Ir
  import opened Rv32
  import opened Allocation
  import opened PeepholeRuns
  import opened FrameCode
  import opened Body
  import opened Homes
  import opened BodyFlow
  import opened FunctionSim

  lemma UniqueJoin(a: seq<Instr>, b: seq<Instr>)
    requires UniqueLabels(a) && UniqueLabels(b) && forall l :: Lab(l) in a ==> Lab(l) !in b
    ensures UniqueLabels(a + b)
  {
    forall i, j | 0 <= i < j < |a + b| && (a + b)[i].Lab? ensures (a + b)[i] != (a + b)[j] {
      if i < |a| <= j {
        assert (a + b)[i] == a[i] && a[i] == Lab(a[i].name) && (a + b)[j] == b[j - |a|];
        assert Lab(a[i].name) in a && b[j - |a|] in b;
      }
    }
  }

  lemma UnlabelledUnique(a: seq<Instr>)
    requires Unlabelled(a)
    ensures UniqueLabels(a)
  {
    forall i | 0 <= i < |a| ensures !a[i].Lab? {
      var l := if a[i].Lab? then a[i].name else "";
      assert Lab(l) !in a && a[i] in a;
    }
  }

  /** A label found in the body's code was put there by a LABEL, or follows the body. */
  lemma {:induction false} LabelOrigin(c: Unit, i: nat, l: string)
    requires forall j :: 0 <= j < |c.ir| && c.ir[j].op.LABEL? ==> c.ir[j].dest.Label?
    requires Lab(l) in CodeFrom(c, i)
    ensures Lab(l) in c.after || exists j :: i <= j < |c.ir| && c.ir[j].op.LABEL? && c.ir[j].dest == Label(l)
    decreases |c.ir| - i
  {
    hide CodeFrom, FusedAt, FusesChain, ChainCode, ChainLength, FusedCode, InstCode;
    if i >= |c.ir| {
      NothingLeft(c, i);
    } else if FusesChain(c, i) {
      ChainHead(c, i);
      ChainUnlabelled(c, i);
      LabelOrigin(c, i + ChainLength(c, i), l);
    } else if FusedAt(c, i) {
      FusedHead(c, i);
      FusedUnlabelled(c, i);
      LabelOrigin(c, i + 2, l);
    } else {
      AloneCode(c, i);
      if Lab(l) in InstCode(c, i) {
        if c.ir[i].op.LABEL? { LabelLine(c, i); } else { InstUnlabelled(c, i); }
      } else {
        LabelOrigin(c, i + 1, l);
      }
    }
  }

  lemma {:induction false} BodyUnique(c: Unit, i: nat)
    requires UniqueIrLabels(c.ir) && UniqueLabels(c.after)
    requires forall j :: 0 <= j < |c.ir| && c.ir[j].op.LABEL? ==>
               c.ir[j].dest.Label? && Lab(c.ir[j].dest.name) !in c.after
    ensures UniqueLabels(CodeFrom(c, i))
    decreases |c.ir| - i
  {
    hide CodeFrom, FusedAt, FusesChain, ChainCode, ChainLength, FusedCode, InstCode, UniqueLabels;
    if i >= |c.ir| {
      NothingLeft(c, i);
    } else if FusesChain(c, i) {
      ChainHead(c, i);
      ChainUnlabelled(c, i);
      UnlabelledUnique(ChainCode(c, i));
      BodyUnique(c, i + ChainLength(c, i));
      UniqueJoin(ChainCode(c, i), CodeFrom(c, i + ChainLength(c, i)));
    } else if FusedAt(c, i) {
      FusedHead(c, i);
      FusedUnlabelled(c, i);
      UnlabelledUnique(FusedCode(c, i));
      BodyUnique(c, i + 2);
      UniqueJoin(FusedCode(c, i), CodeFrom(c, i + 2));
    } else {
      AloneCode(c, i);
      BodyUnique(c, i + 1);
      if c.ir[i].op.LABEL? {
        LabelLine(c, i);
        OneLabel(c.ir[i].dest.name);
        if Lab(c.ir[i].dest.name) in CodeFrom(c, i + 1) { LabelOrigin(c, i + 1, c.ir[i].dest.name); }
      } else {
        InstUnlabelled(c, i);
        UnlabelledUnique(InstCode(c, i));
      }
      UniqueJoin(InstCode(c, i), CodeFrom(c, i + 1));
    }
  }

  lemma OneLabel(l: string)
    ensures UniqueLabels([Lab(l)])
  {
  }

  /** What follows the body defines the exit label only. */
  lemma AfterLabels(c: Unit, globals: seq<string>)
    requires c.after == AfterCode(c.name, c.f, c.size, globals)
    ensures UniqueLabels(c.after) && forall l :: Lab(l) in c.after ==> l == ExitLabel(c.name)
  {
    hide LeaveCode, StoreGlobalsCode, ExitLabel, NeedsFrame, UniqueLabels, AllStraight;
    LoadsShape(c.f, [], globals);
    LeaveUnlabelled(c.f, c.size);
    var rest := StoreGlobalsCode(c.f, globals) + EpilogueCode(c.f, c.size);
    assert Unlabelled(rest);
    assert c.after == [Lab(ExitLabel(c.name))] + rest;
    UnlabelledUnique(rest);
    OneLabel(ExitLabel(c.name));
    UniqueJoin([Lab(ExitLabel(c.name))], rest);
  }

  /** Every label of a function's text is defined once. */
  lemma LabelsDefinedOnce(c: Unit, constants: seq<Word.i32>, globals: seq<string>)
    requires WellFormed(c) && c.after == AfterCode(c.name, c.f, c.size, globals)
    requires forall i :: 0 <= i < |c.ir| && c.ir[i].op.LABEL? && c.ir[i].dest.Label? ==> c.ir[i].dest.name != c.name
    ensures UniqueLabels(FunctionCode(c, constants, globals))
  {
    hide TablesFor, NoGlobalClash, SavedCovers, ParamsFirst, DistinctParams, CodeFrom, AfterCode, BeforeCode,
         BodyLabel, ExitLabel, UniqueLabels;
    AfterLabels(c, globals);
    BodyUnique(c, 0);
    NameIsNoLabel(c.name);
    ExitIsNotBody(c.name);
    BeforeShape(c, constants, globals);
    var before, body := BeforeCode(c.name, c.f, c.size, constants, globals), [Lab(BodyLabel(c.name))] + CodeFrom(c, 0);
    forall l | Lab(l) in CodeFrom(c, 0) ensures l != BodyLabel(c.name) && l != c.name { LabelOrigin(c, 0, l); }
    OneLabel(BodyLabel(c.name));
    UniqueJoin([Lab(BodyLabel(c.name))], CodeFrom(c, 0));
    BeforeUnique(c, constants, globals);
    UniqueJoin(before, body);
  }

  lemma BeforeUnique(c: Unit, constants: seq<Word.i32>, globals: seq<string>)
    ensures UniqueLabels(BeforeCode(c.name, c.f, c.size, constants, globals))
  {
    hide PrologueCode, LoadConstantsCode, LoadGlobalsCode, UniqueLabels, AllStraight;
    PrologueShape(c.f, c.size);
    LoadsShape(c.f, constants, globals);
    var rest := PrologueCode(c.f, c.size) + LoadConstantsCode(c.f, constants) + LoadGlobalsCode(c.f, globals);
    assert Unlabelled(rest);
    UnlabelledUnique(rest);
    OneLabel(c.name);
    UniqueJoin([Lab(c.name)], rest);
    assert BeforeCode(c.name, c.f, c.size, constants, globals) == [Lab(c.name)] + rest;
  }
}
