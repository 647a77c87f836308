/** The instruction set shared by the compiler and the virtual machine, and
    the three capacities of the toolchain (src/main.rs, lines 7-27, 83-96). */
module Isa {
  import opened Words

  /** Slots in the instruction array. */
  const ProgramSize: nat := 4096
  /** Entries in the bracket stack, i.e. the deepest loop nesting. */
  const StackSize: nat := 512
  /** Cells on the data tape. */
  const DataSize: nat := 65535

  datatype Op = End | IncDp | DecDp | IncVal | DecVal | Out | In | JmpFwd | JmpBck

  /** The operand is a jump target for `JmpFwd` / `JmpBck` and unused otherwise. */
  datatype Instruction = Instruction(operator: Op, operand: u16)

  /** `Instruction::default()`: every slot of a fresh program. */
  const Blank: Instruction := Instruction(End, 0)

  datatype Status = Success | Failure

  /** The outcome of a compiler: `Statuses::Success` with the program it
      built, `Statuses::Failure`, or a crash (an index past the end of the
      instruction array, or a failed `expect`). */
  datatype Compilation<P> = Compiled(program: P) | Rejected | Panicked

  predicate IsJump(op: Op)
  {
    op == JmpFwd || op == JmpBck
  }
}
