/** The prologue and the epilogue, run. */
module FrameEntry {
  import opened Word
  import opened Rv32
  import opened Frame
  import opened Selection
  import opened BinaryOp
  import opened FrameCode

  /** The word at an offset from the stack pointer at entry. */
  function FrameAddress(s0: State, x: int): i32 { Wrap(R(s0, Sp) + x) }

  /** What the prologue leaves: the pointers moved, the caller's registers in their words, and nothing
      outside the frame touched. */
  ghost predicate Entered(f: StackFrame, size: int, s0: State, u: State)
  {
    && R(u, Sp) == FrameAddress(s0, -size) && R(u, S(0)) == (if NeedsFrame(f) then R(s0, Sp) else R(s0, S(0)))
    && u.syms == s0.syms
    && (forall r :: Kept(r, false) && r != Sp && r != S(0) ==> R(u, r) == R(s0, r))
    && (NeedsFrame(f) ==> CallerSaved(f, s0, u))
    && forall a :: !InsideFrame(size, s0, a) ==> Load(u, a) == Load(s0, a)
  }

  predicate InsideFrame(size: int, s0: State, a: i32)
  {
    Unsigned(R(s0, Sp)) - size <= Unsigned(a) < Unsigned(R(s0, Sp))
  }

  ghost predicate CallerSaved(f: StackFrame, s0: State, u: State)
  {
    && (f.hasCall ==> Load(u, FrameAddress(s0, -4)) == R(s0, Ra))
    && Load(u, FrameAddress(s0, -8)) == R(s0, S(0))
    && forall i :: 0 <= i < |f.usedCalleeSavedRegisters| ==>
         Load(u, FrameAddress(s0, SaveOffset(i))) == R(s0, f.usedCalleeSavedRegisters[i])
  }

  /** A frame large enough for its saved words, on a stack with room for it. */
  predicate RoomFor(f: StackFrame, size: int, s0: State)
  {
    && 0 <= size <= INT_MAX && size <= Unsigned(R(s0, Sp))
    && (NeedsFrame(f) ==> size >= WORD_BYTES * (2 + |f.usedCalleeSavedRegisters|))
    && (!NeedsFrame(f) ==> size == 0)
    && forall r :: r in f.usedCalleeSavedRegisters ==> r.S? && 2 <= r.n < 12
  }

  lemma AddressApart(s0: State, x: int, y: int)
    requires -Unsigned(R(s0, Sp)) <= x < 0 && -Unsigned(R(s0, Sp)) <= y < 0
    ensures Unsigned(FrameAddress(s0, x)) == Unsigned(R(s0, Sp)) + x
    ensures x != y ==> FrameAddress(s0, x) != FrameAddress(s0, y)
  {
  }

  lemma AdjustCorrect(amount: int, s: State)
    requires FitsInt32(amount)
    ensures Computed(s, Run(AdjustSpCode(amount), s), Sp, Wrap(R(s, Sp) + amount), false)
  {
    hide Run, Wrap, Step;
    if Fits12(amount) {
      AddImmStep(Sp, Sp, amount, s);
    } else {
      AddFar(Sp, amount, s);
    }
  }

  lemma AddFar(rd: Reg, amount: int, s: State)
    requires FitsInt32(amount) && rd != X0 && rd != T(2)
    ensures Computed(s, Run([Li(T(2), amount), Alu(Add, rd, Sp, T(2))], s), rd, Wrap(R(s, Sp) + amount), false)
  {
    hide Wrap;
    Run2(Li(T(2), amount), Alu(Add, rd, Sp, T(2)), s);
  }

  lemma SetFramePointerCorrect(size: int, s: State)
    requires FitsInt32(size)
    ensures Computed(s, Run(SetFramePointerCode(size), s), S(0), Wrap(R(s, Sp) + size), false)
  {
    hide Run, Wrap, Step;
    if Fits12(size) {
      AddImmStep(Sp, S(0), size, s);
    } else {
      AddFar(S(0), size, s);
    }
  }

  // --------------------------------------------------------------------------
  // Saving and restoring registers
  // --------------------------------------------------------------------------

  /** The first n saves. */
  lemma {:induction false} SavesRun(regs: seq<Reg>, s0: State, s: State, n: nat)
    requires n <= |regs| && R(s, S(0)) == R(s0, Sp) && WORD_BYTES * (2 + |regs|) <= Unsigned(R(s0, Sp))
    ensures var u := RunTo(SaveCode(regs), n, s);
            && u.regs == s.regs && u.syms == s.syms
            && (forall i :: 0 <= i < n ==> Load(u, FrameAddress(s0, SaveOffset(i))) == R(s, regs[i]))
            && forall a :: (forall i :: 0 <= i < n ==> a != FrameAddress(s0, SaveOffset(i))) ==>
                 Load(u, a) == Load(s, a)
  {
    if n > 0 {
      hide FrameAddress;
      SavesRun(regs, s0, s, n - 1);
      var u := RunTo(SaveCode(regs), n - 1, s);
      SaveOne(regs[n - 1], s0, u, SaveOffset(n - 1));
      forall i | 0 <= i < n - 1 ensures FrameAddress(s0, SaveOffset(i)) != FrameAddress(s0, SaveOffset(n - 1)) {
        AddressApart(s0, SaveOffset(i), SaveOffset(n - 1));
      }
    }
  }

  lemma SaveOne(r: Reg, s0: State, s: State, offset: int)
    requires R(s, S(0)) == R(s0, Sp)
    ensures var u := Step(Sw(r, offset, S(0)), s);
            && u.regs == s.regs && u.syms == s.syms
            && Load(u, FrameAddress(s0, offset)) == R(s, r)
            && forall a :: a != FrameAddress(s0, offset) ==> Load(u, a) == Load(s, a)
  {
    hide Wrap;
  }

  /** The first n restores. */
  lemma {:induction false} RestoresRun(regs: seq<Reg>, s0: State, s: State, n: nat)
    requires n <= |regs| && R(s, S(0)) == R(s0, Sp)
    requires forall i :: 0 <= i < |regs| ==> regs[i].S? && regs[i].n >= 2
    requires forall i :: 0 <= i < |regs| ==> Load(s, FrameAddress(s0, SaveOffset(i))) == R(s0, regs[i])
    ensures var u := RunTo(RestoreCode(regs), n, s);
            && u.mem == s.mem && u.syms == s.syms
            && (forall i :: 0 <= i < n ==> R(u, regs[i]) == R(s0, regs[i]))
            && forall r :: r !in regs[..n] ==> R(u, r) == R(s, r)
  {
    hide FrameAddress, SaveOffset, R, Step, Load;
    if n == 0 {
      assert regs[..0] == [];
    } else {
      RestoresRun(regs, s0, s, n - 1);
      var u := RunTo(RestoreCode(regs), n - 1, s);
      assert RunTo(RestoreCode(regs), n, s) == Step(Lw(regs[n - 1], SaveOffset(n - 1), S(0)), u);
      hide RunTo, RestoreCode;
      RestoreNext(regs, s0, s, u, n);
    }
  }

  lemma RestoreNext(regs: seq<Reg>, s0: State, s: State, u: State, n: nat)
    requires 0 < n <= |regs| && R(s, S(0)) == R(s0, Sp)
    requires forall i :: 0 <= i < |regs| ==> regs[i].S? && regs[i].n >= 2
    requires forall i :: 0 <= i < |regs| ==> Load(s, FrameAddress(s0, SaveOffset(i))) == R(s0, regs[i])
    requires u.mem == s.mem && u.syms == s.syms
    requires forall i :: 0 <= i < n - 1 ==> R(u, regs[i]) == R(s0, regs[i])
    requires forall r :: r !in regs[..n - 1] ==> R(u, r) == R(s, r)
    ensures var t := Step(Lw(regs[n - 1], SaveOffset(n - 1), S(0)), u);
            && t.mem == s.mem && t.syms == s.syms
            && (forall i :: 0 <= i < n ==> R(t, regs[i]) == R(s0, regs[i]))
            && forall r :: r !in regs[..n] ==> R(t, r) == R(s, r)
  {
    hide FrameAddress, SaveOffset, R, Step, Load;
    var r := regs[n - 1];
    assert regs[..n] == regs[..n - 1] + [r];
    assert S(0) !in regs[..n - 1];
    RestoreOne(r, s0, u, SaveOffset(n - 1));
    SameMemory(s, u);
  }

  lemma SameMemory(s: State, u: State)
    requires u.mem == s.mem
    ensures forall a :: Load(u, a) == Load(s, a)
  {
  }

  lemma RestoreOne(r: Reg, s0: State, s: State, offset: int)
    requires R(s, S(0)) == R(s0, Sp) && r != X0
    ensures var u := Step(Lw(r, offset, S(0)), s);
            && u.mem == s.mem && u.syms == s.syms && R(u, r) == Load(s, FrameAddress(s0, offset))
            && forall q :: q != r ==> R(u, q) == R(s, q)
  {
    hide Wrap;
  }

  // --------------------------------------------------------------------------
  // The prologue
  // --------------------------------------------------------------------------

  /** The saves made through the stack pointer, before the frame pointer moves. */
  function EarlySaveCode(f: StackFrame, size: int): seq<Instr>
  {
    (if f.hasCall then StoreAddressCode(Ra, Sp, size - 4) else []) + StoreAddressCode(S(0), Sp, size - 8)
  }

  lemma EarlySaves(f: StackFrame, size: int, s0: State, s: State)
    requires 8 <= size <= INT_MAX && size <= Unsigned(R(s0, Sp)) && R(s, Sp) == FrameAddress(s0, -size)
    ensures var u := Run(EarlySaveCode(f, size), s);
            && u.syms == s.syms && (forall r :: Kept(r, false) ==> R(u, r) == R(s, r))
            && (f.hasCall ==> Load(u, FrameAddress(s0, -4)) == R(s, Ra))
            && Load(u, FrameAddress(s0, -8)) == R(s, S(0))
            && forall a :: a != FrameAddress(s0, -4) && a != FrameAddress(s0, -8) ==> Load(u, a) == Load(s, a)
  {
    hide Run, StoreAddressCode, Wrap;
    BackUp(s0, s, size, 4);
    BackUp(s0, s, size, 8);
    AddressApart(s0, -4, -8);
    hide FrameAddress;
    var first := if f.hasCall then StoreAddressCode(Ra, Sp, size - 4) else [];
    RunEmpty(s);
    if f.hasCall { StoreAddressCorrect(Ra, Sp, size - 4, s); }
    var t := Run(first, s);
    StoreAddressCorrect(S(0), Sp, size - 8, t);
    RunAppend(first, StoreAddressCode(S(0), Sp, size - 8), s);
  }

  lemma BackUp(s0: State, s: State, size: int, x: int)
    requires R(s, Sp) == FrameAddress(s0, -size)
    ensures Wrap(R(s, Sp) + (size - x)) == FrameAddress(s0, -x)
    ensures Wrap(R(s, Sp) + size) == R(s0, Sp)
  {
    hide Wrap;
    WrapAddWrap(R(s0, Sp) - size, size - x);
    WrapAddWrap(R(s0, Sp) - size, size);
    assert R(s0, Sp) - size + (size - x) == R(s0, Sp) + -x;
  }

  /** Setting the frame up. */
  lemma PrologueRun(f: StackFrame, size: int, s0: State)
    requires RoomFor(f, size, s0)
    ensures Entered(f, size, s0, Run(PrologueCode(f, size), s0))
  {
    hide Run, Wrap, AdjustSpCode, SetFramePointerCode, SaveCode, EarlySaveCode;
    if size == 0 {
      RunEmpty(s0);
      NoMove(s0);
    } else {
      var saves, saved := SaveCode(f.usedCalleeSavedRegisters), f.usedCalleeSavedRegisters;
      AdjustCorrect(-size, s0);
      var s1 := Run(AdjustSpCode(-size), s0);
      EarlySaves(f, size, s0, s1);
      var s2 := Run(EarlySaveCode(f, size), s1);
      SetFramePointerCorrect(size, s2);
      BackUp(s0, s2, size, 0);
      var s3 := Run(SetFramePointerCode(size), s2);
      SavesRunAll(saved, s0, s3);
      PrologueSplit(f, size, s0);
      hide FrameAddress;
      EnteredAfter(f, size, s0, s1, s2, s3, Run(saves, s3));
    }
  }

  lemma NoMove(s0: State)
    ensures FrameAddress(s0, -0) == R(s0, Sp)
  {
  }

  lemma SavesRunAll(regs: seq<Reg>, s0: State, s: State)
    requires R(s, S(0)) == R(s0, Sp) && WORD_BYTES * (2 + |regs|) <= Unsigned(R(s0, Sp))
    ensures var u := Run(SaveCode(regs), s);
            && u.regs == s.regs && u.syms == s.syms
            && (forall i :: 0 <= i < |regs| ==> Load(u, FrameAddress(s0, SaveOffset(i))) == R(s, regs[i]))
            && forall a :: (forall i :: 0 <= i < |regs| ==> a != FrameAddress(s0, SaveOffset(i))) ==>
                 Load(u, a) == Load(s, a)
  {
    SavesRun(regs, s0, s, |regs|);
  }

  lemma PrologueSplit(f: StackFrame, size: int, s0: State)
    requires size != 0
    ensures Run(PrologueCode(f, size), s0) ==
            Run(SaveCode(f.usedCalleeSavedRegisters),
                Run(SetFramePointerCode(size), Run(EarlySaveCode(f, size), Run(AdjustSpCode(-size), s0))))
  {
    hide Run, AdjustSpCode, SetFramePointerCode, SaveCode, StoreAddressCode;
    var a, b, d, e := AdjustSpCode(-size), EarlySaveCode(f, size), SetFramePointerCode(size),
                      SaveCode(f.usedCalleeSavedRegisters);
    assert PrologueCode(f, size) == a + b + d + e;
    RunAppend(a, b, s0);
    RunAppend(a + b, d, s0);
    RunAppend(a + b + d, e, s0);
  }

  lemma EnteredAfter(f: StackFrame, size: int, s0: State, s1: State, s2: State, s3: State, u: State)
    requires RoomFor(f, size, s0) && size != 0
    requires Computed(s0, s1, Sp, FrameAddress(s0, -size), false)
    requires s2.syms == s1.syms && (forall r :: Kept(r, false) ==> R(s2, r) == R(s1, r))
    requires (f.hasCall ==> Load(s2, FrameAddress(s0, -4)) == R(s1, Ra)) &&
             Load(s2, FrameAddress(s0, -8)) == R(s1, S(0))
    requires forall a :: a != FrameAddress(s0, -4) && a != FrameAddress(s0, -8) ==> Load(s2, a) == Load(s1, a)
    requires Computed(s2, s3, S(0), R(s0, Sp), false)
    requires u.regs == s3.regs && u.syms == s3.syms
    requires forall i :: 0 <= i < |f.usedCalleeSavedRegisters| ==>
               Load(u, FrameAddress(s0, SaveOffset(i))) == R(s3, f.usedCalleeSavedRegisters[i])
    requires forall a :: (forall i :: 0 <= i < |f.usedCalleeSavedRegisters| ==>
                            a != FrameAddress(s0, SaveOffset(i))) ==>
               Load(u, a) == Load(s3, a)
    ensures Entered(f, size, s0, u)
  {
    hide FrameAddress, R, Load, SaveOffset;
    assert R(u, Sp) == R(s3, Sp) && R(u, S(0)) == R(s3, S(0)) by { SameRegisters(s3, u); }
    forall r | Kept(r, false) && r != Sp && r != S(0) ensures R(u, r) == R(s0, r) { SameRegisters(s3, u); }
    forall i | 0 <= i < |f.usedCalleeSavedRegisters|
      ensures FrameAddress(s0, SaveOffset(i)) != FrameAddress(s0, -4) &&
              FrameAddress(s0, SaveOffset(i)) != FrameAddress(s0, -8)
      ensures InsideFrame(size, s0, FrameAddress(s0, SaveOffset(i)))
    {
      SaveInside(f, size, s0, i);
    }
    TopInside(f, size, s0);
    SameMemory(s2, s3);
    SameMemory(s0, s1);
    assert CallerSaved(f, s0, u) by {
      assert Load(u, FrameAddress(s0, -4)) == Load(s2, FrameAddress(s0, -4));
      assert Load(u, FrameAddress(s0, -8)) == Load(s2, FrameAddress(s0, -8)) == R(s1, S(0)) == R(s0, S(0));
      assert R(s1, Ra) == R(s0, Ra);
      forall i | 0 <= i < |f.usedCalleeSavedRegisters|
        ensures R(s3, f.usedCalleeSavedRegisters[i]) == R(s0, f.usedCalleeSavedRegisters[i])
      {
        var r := f.usedCalleeSavedRegisters[i];
        assert r in f.usedCalleeSavedRegisters && Kept(r, false);
      }
    }
    forall a | !InsideFrame(size, s0, a) ensures Load(u, a) == Load(s0, a) {
      assert Load(u, a) == Load(s3, a);
    }
  }

  lemma SameRegisters(s: State, u: State)
    requires u.regs == s.regs
    ensures forall r :: R(u, r) == R(s, r)
  {
  }

  lemma SaveInside(f: StackFrame, size: int, s0: State, i: nat)
    requires RoomFor(f, size, s0) && size != 0 && i < |f.usedCalleeSavedRegisters|
    ensures FrameAddress(s0, SaveOffset(i)) != FrameAddress(s0, -4) &&
            FrameAddress(s0, SaveOffset(i)) != FrameAddress(s0, -8)
    ensures InsideFrame(size, s0, FrameAddress(s0, SaveOffset(i)))
  {
    hide FrameAddress;
    AddressApart(s0, SaveOffset(i), -4);
    AddressApart(s0, SaveOffset(i), -8);
  }

  lemma TopInside(f: StackFrame, size: int, s0: State)
    requires RoomFor(f, size, s0) && size != 0
    ensures InsideFrame(size, s0, FrameAddress(s0, -4)) && InsideFrame(size, s0, FrameAddress(s0, -8))
  {
    hide FrameAddress;
    AddressApart(s0, -4, -8);
    AddressApart(s0, -8, -4);
  }

  // --------------------------------------------------------------------------
  // Leaving the frame
  // --------------------------------------------------------------------------

  /** The caller's registers are back. */
  ghost predicate Left(f: StackFrame, restoreRa: bool, s0: State, t: State, u: State)
  {
    && R(u, Sp) == R(s0, Sp) && R(u, S(0)) == R(s0, S(0))
    && R(u, Ra) == (if restoreRa then R(s0, Ra) else R(t, Ra))
    && (forall r :: r in f.usedCalleeSavedRegisters ==> R(u, r) == R(s0, r))
    && u.mem == t.mem && u.syms == t.syms
    && forall r :: Kept(r, false) && r !in {Sp, S(0), Ra} && r !in f.usedCalleeSavedRegisters ==> R(u, r) == R(t, r)
  }

  /** Taking the frame down undoes the prologue, whatever happened in between to the other registers
      and to the words outside the saved ones. */
  lemma LeaveRun(f: StackFrame, size: int, restoreRa: bool, s0: State, t: State)
    requires RoomFor(f, size, s0) && NeedsFrame(f) && (restoreRa ==> f.hasCall)
    requires R(t, Sp) == FrameAddress(s0, -size) && R(t, S(0)) == R(s0, Sp) && CallerSaved(f, s0, t)
    ensures Left(f, restoreRa, s0, t, Run(LeaveCode(f, size, restoreRa), t))
  {
    hide Run, Wrap, AdjustSpCode, RestoreCode, FrameAddress, CallerSaved, SaveOffset;
    var regs := f.usedCalleeSavedRegisters;
    RestoresAll(f, size, s0, t);
    var t1 := Run(RestoreCode(regs), t);
    SameMemory(t, t1);
    var pointers := (if restoreRa then [Lw(Ra, -4, S(0))] else []) + [Lw(S(0), -8, S(0))];
    PointersRun(f, restoreRa, s0, t1);
    var t2 := Run(pointers, t1);
    assert R(t2, Sp) == FrameAddress(s0, -size);
    BackUp(s0, t2, size, 0);
    AdjustCorrect(size, t2);
    LeaveSplit(f, size, restoreRa, t);
  }

  lemma RestoresAll(f: StackFrame, size: int, s0: State, t: State)
    requires RoomFor(f, size, s0) && R(t, S(0)) == R(s0, Sp) && CallerSaved(f, s0, t)
    ensures var regs, u := f.usedCalleeSavedRegisters, Run(RestoreCode(f.usedCalleeSavedRegisters), t);
            && u.mem == t.mem && u.syms == t.syms && CallerSaved(f, s0, u)
            && (forall r :: r in regs ==> R(u, r) == R(s0, r))
            && forall r :: r !in regs ==> R(u, r) == R(t, r)
  {
    hide FrameAddress, SaveOffset, R;
    var regs := f.usedCalleeSavedRegisters;
    RestoresRun(regs, s0, t, |regs|);
    assert regs[..|regs|] == regs;
    SameMemory(t, Run(RestoreCode(regs), t));
  }

  lemma PointersRun(f: StackFrame, restoreRa: bool, s0: State, s: State)
    requires R(s, S(0)) == R(s0, Sp) && CallerSaved(f, s0, s) && (restoreRa ==> f.hasCall)
    ensures var u := Run((if restoreRa then [Lw(Ra, -4, S(0))] else []) + [Lw(S(0), -8, S(0))], s);
            && u.mem == s.mem && u.syms == s.syms
            && R(u, S(0)) == R(s0, S(0)) && R(u, Ra) == (if restoreRa then R(s0, Ra) else R(s, Ra))
            && forall r :: r != S(0) && r != Ra ==> R(u, r) == R(s, r)
  {
    hide Run, FrameAddress;
    RestoreOne(Ra, s0, s, -4);
    RestoreOne(S(0), s0, s, -8);
    if restoreRa {
      Run2(Lw(Ra, -4, S(0)), Lw(S(0), -8, S(0)), s);
      var t := Step(Lw(Ra, -4, S(0)), s);
      RestoreOne(S(0), s0, t, -8);
      SameMemory(s, t);
      assert [Lw(Ra, -4, S(0))] + [Lw(S(0), -8, S(0))] == [Lw(Ra, -4, S(0)), Lw(S(0), -8, S(0))];
    } else {
      Run1(Lw(S(0), -8, S(0)), s);
      assert [] + [Lw(S(0), -8, S(0))] == [Lw(S(0), -8, S(0))];
    }
  }

  lemma LeaveSplit(f: StackFrame, size: int, restoreRa: bool, t: State)
    ensures Run(LeaveCode(f, size, restoreRa), t) ==
            Run(AdjustSpCode(size),
                Run((if restoreRa then [Lw(Ra, -4, S(0))] else []) + [Lw(S(0), -8, S(0))],
                    Run(RestoreCode(f.usedCalleeSavedRegisters), t)))
  {
    hide Run, AdjustSpCode, RestoreCode;
    var a, b, d := RestoreCode(f.usedCalleeSavedRegisters),
                   (if restoreRa then [Lw(Ra, -4, S(0))] else []) + [Lw(S(0), -8, S(0))], AdjustSpCode(size);
    assert LeaveCode(f, size, restoreRa) == a + b + d;
    RunAppend(a, b, t);
    RunAppend(a + b, d, t);
  }
}
