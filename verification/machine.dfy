/** `Program::execute` of the Rust toolchain (src/main.rs, lines 168-217):
    a fetch-decode-execute loop over the instruction array and a tape of
    `DataSize` wrapping 16-bit cells. Standard input is the byte sequence
    `input`, read two bytes at a time; standard output is the sequence of
    cell values printed. */
module Machine {
  import opened Words
  import opened Isa

  /** The two `expect` / `panic!` sites of the loop, and an instruction
      index past the end of the array (which also panics in Rust). */
  datatype Fault = PcOutOfBounds | InvalidScalar | TruncatedInput

  datatype Vm = Vm(pc: u16, ptr: u32, tape: seq<u16>, input: seq<u8>, output: seq<u16>)

  /** One trip round the loop: the next state, the loop exit with the
      returned status, or a panic. */
  datatype Stepped = Next(vm: Vm) | Halt(status: Status) | Abort(fault: Fault)

  /** A run of at most `fuel` iterations; `last` is the state in which the
      loop exited, panicked, or ran out of fuel. */
  datatype Outcome = Finished(status: Status, last: Vm) | Aborted(fault: Fault, last: Vm) | OutOfFuel(last: Vm)

  /** Zeroed tape, `pc` and `ptr` 0, nothing printed yet. */
  function Initial(input: seq<u8>): (vm: Vm)
    ensures |vm.tape| == DataSize
    ensures forall a :: 0 <= a < |vm.tape| ==> vm.tape[a] == 0
    ensures vm.pc == 0 && vm.ptr == 0 && vm.input == input && vm.output == []
  {
    Vm(0, 0, seq(DataSize, _ => 0), input, [])
  }

  /** `char::from_u32` succeeds exactly on the Unicode scalar values,
      0..0xD7FF and 0xE000..0x10FFFF; on a `u16` that leaves out only the
      surrogates. */
  function IsScalar(v: u16): (b: bool)
    ensures b <==> (0 <= v as int < 0xD800 || 0xE000 <= v as int <= 0x10FFFF)
  {
    !(0xD800 <= v <= 0xDFFF)
  }

  /** The `pc = pc.wrapping_add(1)` that ends every iteration. */
  function Advance(vm: Vm): (r: Vm)
    ensures r.pc as int == (vm.pc as int + 1) % 0x1_0000
    ensures r.ptr == vm.ptr && r.tape == vm.tape && r.input == vm.input && r.output == vm.output
  {
    vm.(pc := Inc16(vm.pc))
  }

  /** The loop guard, then the body for one instruction. The guard indexes
      the instruction array first, so a `pc` past its end panics. The
      source's catch-all arm returning `Failure` matches only `End`, which
      the guard has already excluded, so it is absent here. */
  function Step(prog: seq<Instruction>, vm: Vm): (r: Stepped)
    requires |vm.tape| == DataSize
    ensures r.Next? ==> |r.vm.tape| == DataSize && vm.output <= r.vm.output
    ensures r.Halt? ==> (r.status == Failure <==> vm.ptr as int == DataSize)
  {
    if vm.pc as int >= |prog| then Abort(PcOutOfBounds)
    else
      var ins := prog[vm.pc];
      if ins.operator == End || vm.ptr as int >= DataSize then
        Halt(if vm.ptr as int != DataSize then Success else Failure)
      else
        var cell := vm.tape[vm.ptr];
        match ins.operator
        case IncDp => Next(Advance(vm.(ptr := Inc32(vm.ptr))))
        case DecDp => Next(Advance(vm.(ptr := Dec32(vm.ptr))))
        case IncVal => Next(Advance(vm.(tape := vm.tape[vm.ptr := Inc16(cell)])))
        case DecVal => Next(Advance(vm.(tape := vm.tape[vm.ptr := Dec16(cell)])))
        case Out =>
          if IsScalar(cell) then Next(Advance(vm.(output := vm.output + [cell])))
          else Abort(InvalidScalar)
        case In =>
          if |vm.input| < 2 then Abort(TruncatedInput)
          else Next(Advance(vm.(tape := vm.tape[vm.ptr := FromBeBytes(vm.input[0], vm.input[1])],
                                input := vm.input[2..])))
        case JmpFwd => Next(Advance(if cell == 0 then vm.(pc := ins.operand) else vm))
        case JmpBck => Next(Advance(if cell != 0 then vm.(pc := ins.operand) else vm))
  }

  /** At most `fuel` iterations of the loop from `vm`. */
  function Run(prog: seq<Instruction>, vm: Vm, fuel: nat): (r: Outcome)
    requires |vm.tape| == DataSize
    ensures |r.last.tape| == DataSize
    ensures vm.output <= r.last.output
    ensures r.Finished? ==> (r.status == Failure <==> r.last.ptr as int == DataSize)
    decreases fuel
  {
    if fuel == 0 then OutOfFuel(vm)
    else match Step(prog, vm)
      case Next(vm') => Run(prog, vm', fuel - 1)
      case Halt(s) => Finished(s, vm)
      case Abort(f) => Aborted(f, vm)
  }

  /** `Program::execute` on the compiled array, given the bytes standard
      input will deliver and a bound on the iterations. */
  function Execute(prog: seq<Instruction>, input: seq<u8>, fuel: nat): (r: Outcome)
    ensures |r.last.tape| == DataSize
    ensures r.Finished? ==> (r.status == Failure <==> r.last.ptr as int == DataSize)
  {
    Run(prog, Initial(input), fuel)
  }
}
