/** Properties of the virtual machine: wrapping cells and pointer, the exit
    status, fuel, and, for programs the compiler accepted, an instruction
    index that never leaves the program and jumps that land just past the
    matching delimiter. */
module MachineTheory {
  import opened Words
  import opened Isa
  import opened Syntax
  import opened Machine

  /** The loop body runs: `pc` indexes an instruction other than `End` of a
      `ProgramSize`-slot array, and the data pointer is on the tape. */
  ghost predicate Active(prog: seq<Instruction>, vm: Vm)
  {
    && |prog| == ProgramSize
    && |vm.tape| == DataSize
    && vm.pc as int < |prog|
    && prog[vm.pc].operator != End
    && vm.ptr as int < DataSize
  }

  /** `+` and `-` add and subtract one modulo 2^16 in the current cell and
      touch nothing else but `pc`. */
  lemma CellArithmeticWraps(prog: seq<Instruction>, vm: Vm)
    requires Active(prog, vm)
    requires prog[vm.pc].operator == IncVal || prog[vm.pc].operator == DecVal
    ensures Step(prog, vm).Next?
    ensures var vm' := Step(prog, vm).vm;
      && vm'.tape[vm.ptr] as int
         == (vm.tape[vm.ptr] as int + (if prog[vm.pc].operator == IncVal then 1 else -1)) % 0x1_0000
      && (forall a :: 0 <= a < DataSize && a != vm.ptr as int ==> vm'.tape[a] == vm.tape[a])
      && vm'.ptr == vm.ptr && vm'.input == vm.input && vm'.output == vm.output
      && vm'.pc as int == vm.pc as int + 1
  {
  }

  /** `>` and `<` move the data pointer modulo 2^32, not modulo the tape. */
  lemma PointerWraps(prog: seq<Instruction>, vm: Vm)
    requires Active(prog, vm)
    requires prog[vm.pc].operator == IncDp || prog[vm.pc].operator == DecDp
    ensures Step(prog, vm).Next?
    ensures var vm' := Step(prog, vm).vm;
      && vm'.ptr as int
         == (vm.ptr as int + (if prog[vm.pc].operator == IncDp then 1 else -1)) % 0x1_0000_0000
      && vm'.tape == vm.tape && vm'.input == vm.input && vm'.output == vm.output
      && vm'.pc as int == vm.pc as int + 1
  {
  }

  /** `<` on cell 0 wraps the pointer to 2^32 - 1, which leaves the loop at
      the next guard with `Success`, since the status only tests for
      `DataSize`. */
  lemma LeftOfCellZeroSucceeds(prog: seq<Instruction>, vm: Vm)
    requires Active(prog, vm) && prog[vm.pc].operator == DecDp && vm.ptr == 0
    requires Inc16(vm.pc) as int < |prog|
    ensures Step(prog, vm).Next?
    ensures Step(prog, vm).vm.ptr == 0xFFFF_FFFF
    ensures Step(prog, Step(prog, vm).vm) == Halt(Success)
  {
  }

  /** `>` on the last cell makes the pointer `DataSize`: the next guard
      leaves the loop with `Failure`. */
  lemma RightOfLastCellFails(prog: seq<Instruction>, vm: Vm)
    requires Active(prog, vm) && prog[vm.pc].operator == IncDp && vm.ptr as int == DataSize - 1
    requires Inc16(vm.pc) as int < |prog|
    ensures Step(prog, vm).Next?
    ensures Step(prog, Step(prog, vm).vm) == Halt(Failure)
  {
  }

  /** `,` stores the next two input bytes, big-endian, and consumes them; it
      panics when fewer than two remain. */
  lemma InputReadsBigEndian(prog: seq<Instruction>, vm: Vm)
    requires Active(prog, vm) && prog[vm.pc].operator == In
    ensures Step(prog, vm).Abort? <==> |vm.input| < 2
    ensures Step(prog, vm).Abort? ==> Step(prog, vm).fault == TruncatedInput
    ensures Step(prog, vm).Next? ==>
      var vm' := Step(prog, vm).vm;
      && vm'.tape[vm.ptr] as int == vm.input[0] as int * 0x100 + vm.input[1] as int
      && vm.input == vm.input[..2] + vm'.input
      && (forall a :: 0 <= a < DataSize && a != vm.ptr as int ==> vm'.tape[a] == vm.tape[a])
      && vm'.ptr == vm.ptr && vm'.output == vm.output
      && vm'.pc as int == vm.pc as int + 1
  {
  }

  /** `.` prints the current cell, or panics when it is a surrogate. */
  lemma OutputPrintsScalar(prog: seq<Instruction>, vm: Vm)
    requires Active(prog, vm) && prog[vm.pc].operator == Out
    ensures Step(prog, vm).Abort? <==> 0xD800 <= vm.tape[vm.ptr] <= 0xDFFF
    ensures Step(prog, vm).Abort? ==> Step(prog, vm).fault == InvalidScalar
    ensures Step(prog, vm).Next? ==>
      var vm' := Step(prog, vm).vm;
      && vm'.output == vm.output + [vm.tape[vm.ptr]]
      && vm'.tape == vm.tape && vm'.ptr == vm.ptr && vm'.input == vm.input
      && vm'.pc as int == vm.pc as int + 1
  {
  }

  /** The loop guard of `execute` in both directions: with `pc` inside the
      array, the loop is left exactly when the instruction is `End` or the
      pointer is off the tape. */
  lemma StepHaltsIff(prog: seq<Instruction>, vm: Vm)
    requires |vm.tape| == DataSize && vm.pc as int < |prog|
    ensures Step(prog, vm).Halt? <==> (prog[vm.pc].operator == End || vm.ptr as int >= DataSize)
    ensures Step(prog, vm).Halt? ==> (Step(prog, vm).status == Failure <==> vm.ptr as int == DataSize)
  {
  }

  /** A run that finished stopped at `End` or with the pointer off the tape,
      and it reports `Failure` exactly when the pointer is `DataSize`. */
  lemma {:induction false} RunExitStatus(prog: seq<Instruction>, vm: Vm, fuel: nat)
    requires |vm.tape| == DataSize
    ensures Run(prog, vm, fuel).Finished? ==>
      var last := Run(prog, vm, fuel).last;
      && last.pc as int < |prog|
      && (prog[last.pc].operator == End || last.ptr as int >= DataSize)
      && (Run(prog, vm, fuel).status == Failure <==> last.ptr as int == DataSize)
    decreases fuel
  {
    if fuel > 0 && Step(prog, vm).Next? {
      RunExitStatus(prog, Step(prog, vm).vm, fuel - 1);
    }
  }

  /** More fuel does not change a run that already ended. */
  lemma {:induction false} RunFuelMonotone(prog: seq<Instruction>, vm: Vm, fuel: nat, fuel': nat)
    requires |vm.tape| == DataSize
    requires fuel <= fuel' && !Run(prog, vm, fuel).OutOfFuel?
    ensures Run(prog, vm, fuel') == Run(prog, vm, fuel)
    decreases fuel
  {
    if Step(prog, vm).Next? {
      RunFuelMonotone(prog, Step(prog, vm).vm, fuel - 1, fuel' - 1);
    }
  }

  /** The programs the compiler produces for `n` symbols: `End` at `n`, no
      `End` before it, and every jump target before `n`. */
  ghost predicate Closed(prog: seq<Instruction>, n: nat)
  {
    && n < |prog|
    && prog[n].operator == End
    && forall i :: 0 <= i < n ==>
         prog[i].operator != End && (IsJump(prog[i].operator) ==> prog[i].operand as int < n)
  }

  lemma TranslationIsClosed(t: seq<char>, p: seq<Instruction>)
    requires Translates(t, p)
    ensures Closed(p, |t|)
  {
    forall i | 0 <= i < |t|
      ensures IsJump(p[i].operator) ==> p[i].operand as int < |t|
    {
      assert LinkedAt(t, p, i);
    }
  }

  /** In a closed program `pc` stays within 0..n: a plain instruction moves
      it to the next slot, a taken jump to one past a target below `n`. */
  lemma StepStaysInside(prog: seq<Instruction>, vm: Vm, n: nat)
    requires Closed(prog, n) && |vm.tape| == DataSize && vm.pc as int <= n
    ensures !Step(prog, vm).Abort? || Step(prog, vm).fault != PcOutOfBounds
    ensures Step(prog, vm).Next? ==> Step(prog, vm).vm.pc as int <= n
  {
  }

  /** So a run of a closed program never indexes past the instruction
      array. */
  lemma {:induction false} RunStaysInside(prog: seq<Instruction>, vm: Vm, n: nat, fuel: nat)
    requires Closed(prog, n) && |vm.tape| == DataSize && vm.pc as int <= n
    ensures Run(prog, vm, fuel).last.pc as int <= n
    ensures Run(prog, vm, fuel).Aborted? ==> Run(prog, vm, fuel).fault != PcOutOfBounds
    decreases fuel
  {
    StepStaysInside(prog, vm, n);
    if fuel > 0 && Step(prog, vm).Next? {
      RunStaysInside(prog, Step(prog, vm).vm, n, fuel - 1);
    }
  }

  /** In the translation of `t`, a `[` whose cell is zero resumes just past
      its matching `]`, and a `]` whose cell is non-zero resumes just past
      its matching `[`; otherwise both fall through to the next slot. */
  lemma JumpsLandPastPartner(t: seq<char>, p: seq<Instruction>, vm: Vm)
    requires Translates(t, p) && Active(p, vm) && vm.pc as int < |t|
    requires t[vm.pc] == '[' || t[vm.pc] == ']'
    ensures Step(p, vm).Next?
    ensures var i := vm.pc as int; var pc' := Step(p, vm).vm.pc as int;
      && (t[i] == '[' && vm.tape[vm.ptr] == 0 ==> exists j :: Matched(t, i, j) && pc' == j + 1)
      && (t[i] == ']' && vm.tape[vm.ptr] != 0 ==> exists j :: Matched(t, j, i) && pc' == j + 1)
      && (t[i] == '[' && vm.tape[vm.ptr] != 0 ==> pc' == i + 1)
      && (t[i] == ']' && vm.tape[vm.ptr] == 0 ==> pc' == i + 1)
    ensures var vm' := Step(p, vm).vm;
      vm'.tape == vm.tape && vm'.ptr == vm.ptr && vm'.input == vm.input && vm'.output == vm.output
  {
    var i := vm.pc as int;
    assert LinkedAt(t, p, i);
  }
}
