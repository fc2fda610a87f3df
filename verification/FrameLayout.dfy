/** The words of a stack frame, and the code that sets the frame up and takes it down. */
module FrameLayout {
  import opened Word
  import opened Ir
  import opened IrFlow
  import opened Rv32
  import opened Frame
  import opened TempRanges
  import opened Allocation
  import opened FrameCode
  import opened Body
  import opened Homes

  // --------------------------------------------------------------------------
  // The areas of a frame
  // --------------------------------------------------------------------------

  /** The words of a frame: the return address, the caller's frame pointer, the saved registers, the
      slots of spilled locals, and the arguments for callees from the ninth on. */
  datatype FrameWord = ReturnAddress | CallerFrame | SavedRegister(i: nat) | Slot(n: nat) | OutgoingArg(k: nat)

  predicate InFrame(f: StackFrame, w: FrameWord)
  {
    match w
    case ReturnAddress => true
    case CallerFrame => true
    case SavedRegister(i) => i < |f.usedCalleeSavedRegisters|
    case Slot(n) => WORD_BYTES * (n + 1) <= f.localBytes
    case OutgoingArg(k) => 8 <= k && WORD_BYTES * (k - 7) <= f.outgoingArgumentBytes
  }

  /** Offset from the stack pointer at entry. */
  function OffsetOf(f: StackFrame, size: int, w: FrameWord): int
  {
    match w
    case ReturnAddress => -4
    case CallerFrame => -8
    case SavedRegister(i) => SaveOffset(i)
    case Slot(n) => -(WORD_BYTES * (2 + |f.usedCalleeSavedRegisters| + n + 1))
    case OutgoingArg(k) => -size + WORD_BYTES * (k - 8)
  }

  lemma SizeFacts(ir: seq<IrInst>, f: StackFrame)
    requires FrameFits(ir, f)
    ensures NeedsFrame(f) ==>
              && FrameSize(f) % STACK_ALIGNMENT == 0
              && FrameSize(f) >= WORD_BYTES * (2 + |f.usedCalleeSavedRegisters|) + f.localBytes +
                 f.outgoingArgumentBytes
    ensures !NeedsFrame(f) ==>
              && FrameSize(f) == 0 && f.usedCalleeSavedRegisters == [] && f.localBytes == 0 &&
                 f.outgoingArgumentBytes == 0
              && !f.hasCall && ParamIndex(ir, |ir|) <= 8
  {
    hide MaxSlot, OverflowArgs, Locals, RegForVar, LocalOffset, ParamIndex;
    var slots := WORD_BYTES * (MaxSlot(f.localOffsets) + 1);
    Aligned(WORD_BYTES * (2 + |f.usedCalleeSavedRegisters|) + (if f.localBytes > slots then f.localBytes else slots) +
            f.outgoingArgumentBytes);
  }

  lemma Aligned(x: int)
    requires x >= 0
    ensures AlignTo(x, STACK_ALIGNMENT) % STACK_ALIGNMENT == 0 && x <= AlignTo(x, STACK_ALIGNMENT) < x + STACK_ALIGNMENT
  {
  }

  /** Every word lies in the frame, and no two overlap. */
  lemma AreasDisjoint(ir: seq<IrInst>, f: StackFrame, a: FrameWord, b: FrameWord)
    requires FrameFits(ir, f) && NeedsFrame(f) && InFrame(f, a) && InFrame(f, b)
    ensures -FrameSize(f) <= OffsetOf(f, FrameSize(f), a) <= -WORD_BYTES
    ensures a != b ==> Abs(OffsetOf(f, FrameSize(f), a) - OffsetOf(f, FrameSize(f), b)) >= WORD_BYTES
  {
    hide FrameSize, OverflowArgs, NeedsFrame;
    SizeFacts(ir, f);
  }

  /** The slot of a spilled local is where `localOffset` says. */
  lemma SlotOffset(ir: seq<IrInst>, f: StackFrame, v: string)
    requires FrameFits(ir, f) && v in f.localOffsets && RegForVar(f, v).None?
    ensures f.localOffsets[v] >= 0 && InFrame(f, Slot(f.localOffsets[v]))
    ensures LocalOffset(f, v) == OffsetOf(f, FrameSize(f), Slot(f.localOffsets[v]))
  {
    hide OverflowArgs, Locals, RegForVar, FrameSize;
  }

  // --------------------------------------------------------------------------
  // The layout of one activation
  // --------------------------------------------------------------------------

  function StackArgs(c: Unit): nat { if ParamCount(c) > 8 then ParamCount(c) - 8 else 0 }

  /** The stack has room for the frame, and no global lies in it or among the incoming arguments. */
  ghost predicate StackRoom(c: Unit, s0: State)
  {
    var top := Unsigned(R(s0, Sp));
    && c.size == FrameSize(c.f) && c.size <= INT_MAX && c.size <= top
    && top + WORD_BYTES * StackArgs(c) <= TWO32 && WORD_BYTES * ParamCount(c) <= INT_MAX
    && (forall g, g' :: g in s0.syms && g' in s0.syms && g != g' ==> s0.syms[g] != s0.syms[g'])
    && (forall g :: g in s0.syms ==> !(top - c.size <= Unsigned(s0.syms[g]) < top + WORD_BYTES * StackArgs(c)))
  }

  /** The frame pointer, stack pointer and symbols of an activation entered in s0. */
  function HomeOf(c: Unit, s0: State, start: State): Home
  {
    Home(if NeedsFrame(c.f) then R(s0, Sp) else R(s0, S(0)), Wrap(R(s0, Sp) - c.size), R(s0, Sp), s0.syms, start)
  }

  lemma SpOf(top: i32, size: int)
    requires 0 <= size <= Unsigned(top)
    ensures Unsigned(Wrap(top - size)) == Unsigned(top) - size
  {
  }

  lemma LayoutFromFrame(c: Unit, s0: State, start: State)
    requires TablesFor(c.ir, c.f) && StackRoom(c, s0)
    ensures LayoutOk(c, HomeOf(c, s0, start))
  {
    hide TablesOk, DefinitionsSafe, RegistersSafe, TempsOk, IncomingKept, ScratchFree, FrameSize;
    var h := HomeOf(c, s0, start);
    SizeFacts(c.ir, c.f);
    SpOf(R(s0, Sp), c.size);
    forall v | v in c.f.localOffsets && RegForVar(c.f, v).None?
      ensures var a := Unsigned(h.fp) + LocalOffset(c.f, v);
              Unsigned(h.sp) + c.f.outgoingArgumentBytes <= a <
              Unsigned(h.top) - WORD_BYTES * (2 + |c.f.usedCalleeSavedRegisters|)
    {
      SlotInside(c, s0, v);
    }
    forall k: nat | 8 <= k < ParamCount(c) ensures Protected(c, h, StackWord(h.fp, k)) {
      IncomingProtected(c, s0, start, k);
    }
  }

  lemma SlotInside(c: Unit, s0: State, v: string)
    requires FrameFits(c.ir, c.f) && StackRoom(c, s0) && v in c.f.localOffsets && RegForVar(c.f, v).None?
    ensures NeedsFrame(c.f)
    ensures -c.size + c.f.outgoingArgumentBytes <= LocalOffset(c.f, v)
    ensures LocalOffset(c.f, v) < -(WORD_BYTES * (2 + |c.f.usedCalleeSavedRegisters|))
  {
    hide FrameSize, Locals, OverflowArgs, RegForVar, ParamIndex;
    SizeFacts(c.ir, c.f);
    SlotOffset(c.ir, c.f, v);
  }

  lemma IncomingProtected(c: Unit, s0: State, start: State, k: nat)
    requires FrameFits(c.ir, c.f) && StackRoom(c, s0) && 8 <= k < ParamCount(c)
    ensures Protected(c, HomeOf(c, s0, start), StackWord(HomeOf(c, s0, start).fp, k))
    ensures NeedsFrame(c.f)
  {
    hide FrameSize, Locals, OverflowArgs, RegForVar, ParamIndex, LocalOffset;
    SizeFacts(c.ir, c.f);
    AboveTop(R(s0, Sp), WORD_BYTES * (k - 8));
  }

  lemma AboveTop(top: i32, x: int)
    requires 0 <= x && Unsigned(top) + x < TWO32
    ensures Unsigned(Wrap(top + x)) == Unsigned(top) + x
  {
  }
}
