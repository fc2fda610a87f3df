/** The stack frame: its size, the code that sets it up and takes it down, and the tail-call exit. */
module FrameCode {
  import opened Word
  import opened Rv32
  import opened Frame
  import opened Selection

  function AlignTo(value: int, alignment: int): int
    requires alignment > 0
  {
    var remainder := TruncRem(value, alignment);
    if remainder == 0 then value else value + alignment - remainder
  }

  predicate NeedsFrame(f: StackFrame)
  {
    f.hasCall || f.hasStackParameters || f.localBytes != 0 || f.outgoingArgumentBytes != 0 ||
    f.usedCalleeSavedRegisters != []
  }

  /** The largest slot in use, or -1. */
  ghost function MaxSlot(offsets: map<string, int>): (m: int)
    ensures m >= -1 && (m == -1 || exists v :: v in offsets && offsets[v] == m)
    ensures forall v :: v in offsets ==> offsets[v] <= m
    decreases |offsets|
  {
    if offsets == map[] then -1
    else
      var v :| v in offsets;
      var m := MaxSlot(offsets - {v});
      assert forall u :: u in offsets ==> u == v || u in offsets - {v};
      if offsets[v] > m then offsets[v] else m
  }

  ghost function FrameSize(f: StackFrame): int
  {
    if !NeedsFrame(f) then 0
    else
      var slots := WORD_BYTES * (MaxSlot(f.localOffsets) + 1);
      AlignTo(WORD_BYTES * (2 + |f.usedCalleeSavedRegisters|) + (if f.localBytes > slots then f.localBytes else slots) +
              f.outgoingArgumentBytes, STACK_ALIGNMENT)
  }

  method FrameSizeBytes(f: StackFrame) returns (size: int)
    ensures size == FrameSize(f)
  {
    if !NeedsFrame(f) { return 0; }
    var maxSlot := -1;
    var rest := f.localOffsets.Keys;
    while rest != {}
      invariant rest <= f.localOffsets.Keys && maxSlot >= -1
      invariant maxSlot == -1 || exists v :: v in f.localOffsets && f.localOffsets[v] == maxSlot
      invariant forall v :: v in f.localOffsets && v !in rest ==> f.localOffsets[v] <= maxSlot
      decreases |rest|
    {
      var v :| v in rest;
      rest := rest - {v};
      if f.localOffsets[v] > maxSlot { maxSlot := f.localOffsets[v]; }
    }
    assert maxSlot == MaxSlot(f.localOffsets);
    var slots := WORD_BYTES * (maxSlot + 1);
    return AlignTo(WORD_BYTES * (2 + |f.usedCalleeSavedRegisters|) +
                   (if f.localBytes > slots then f.localBytes else slots) +
                   f.outgoingArgumentBytes, STACK_ALIGNMENT);
  }

  function AdjustSpCode(amount: int): seq<Instr>
  {
    if Fits12(amount) then [AluI(Addi, Sp, Sp, amount)] else [Li(T(2), amount), Alu(Add, Sp, Sp, T(2))]
  }

  /** Frame-pointer offset of the i-th saved register; -4 and -8 hold ra and the caller's s0. */
  function SaveOffset(i: nat): int { -12 - WORD_BYTES * i }

  function SaveCode(regs: seq<Reg>): seq<Instr>
  {
    seq(|regs|, i requires 0 <= i < |regs| => Sw(regs[i], SaveOffset(i), S(0)))
  }

  function RestoreCode(regs: seq<Reg>): seq<Instr>
  {
    seq(|regs|, i requires 0 <= i < |regs| => Lw(regs[i], SaveOffset(i), S(0)))
  }

  function SetFramePointerCode(size: int): seq<Instr>
  {
    if Fits12(size) then [AluI(Addi, S(0), Sp, size)] else [Li(T(2), size), Alu(Add, S(0), Sp, T(2))]
  }

  function PrologueCode(f: StackFrame, size: int): seq<Instr>
  {
    if size == 0 then []
    else
      AdjustSpCode(-size) +
      (if f.hasCall then StoreAddressCode(Ra, Sp, size - 4) else []) +
      StoreAddressCode(S(0), Sp, size - 8) +
      SetFramePointerCode(size) +
      SaveCode(f.usedCalleeSavedRegisters)
  }

  function LeaveCode(f: StackFrame, size: int, restoreRa: bool): seq<Instr>
  {
    RestoreCode(f.usedCalleeSavedRegisters) +
    (if restoreRa then [Lw(Ra, -4, S(0))] else []) +
    [Lw(S(0), -8, S(0))] +
    AdjustSpCode(size)
  }

  function EpilogueCode(f: StackFrame, size: int): seq<Instr>
  {
    (if NeedsFrame(f) then LeaveCode(f, size, f.hasCall) else []) + [Ret]
  }

  /** A tail call to another function: the frame is gone before the jump. */
  function TailCode(f: StackFrame, size: int, target: string): seq<Instr>
  {
    LeaveCode(f, size, true) + [J(target)]
  }
}
