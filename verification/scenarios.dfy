/** The toolchain end to end on small sources: the compiler's verdicts on
    malformed and oversized sources, and the machine on small accepted
    programs. Every verdict other than the panic holds for both guards, the
    code as written included. */
module Scenarios {
  import opened Words
  import opened Isa
  import opened Syntax
  import opened Compiler
  import opened CompilerTheory
  import opened Machine
  import opened MachineTheory
  import Py = PyCompiler
  import Agreement

  lemma {:induction false} DepthOfBracketFree(t: seq<char>, q: nat)
    requires q <= |t|
    requires forall i :: 0 <= i < q ==> t[i] != '[' && t[i] != ']'
    ensures Depth(t, q) == 0
    decreases q
  {
    if q > 0 {
      DepthOfBracketFree(t, q - 1);
    }
  }

  lemma {:induction false} DepthOfOpeners(t: seq<char>, q: nat)
    requires q <= |t|
    requires forall i :: 0 <= i < q ==> t[i] == '['
    ensures Depth(t, q) == q
    decreases q
  {
    if q > 0 {
      DepthOfOpeners(t, q - 1);
    }
  }

  /** A program the compiler accepted never runs its `pc` off the
      instruction array, whatever the input and however long it runs. */
  lemma CompiledProgramsStayInside(src: seq<char>, g: Guard, input: seq<u8>, fuel: nat)
    requires Compile(src, g).Compiled?
    ensures Execute(Compile(src, g).program, input, fuel).Aborted? ==>
      Execute(Compile(src, g).program, input, fuel).fault != PcOutOfBounds
  {
    CompileCorrect(src, g);
    TranslationIsClosed(Symbols(src), Compile(src, g).program);
    RunStaysInside(Compile(src, g).program, Initial(input), |Symbols(src)|, fuel);
  }

  /** A `]` with no pending `[`, and a `[` never closed, are rejected. */
  lemma UnmatchedDelimitersRejected(g: Guard)
    ensures Compile("]", g) == Rejected
    ensures Compile("[", g) == Rejected
    ensures Compile("[[]", g) == Rejected
    ensures Compile("[]]", g) == Rejected
  {
    SymbolsOfSymbols("]");
    CompileCorrect("]", g);
    assert Depth("]", 1) == -1;
    SymbolsOfSymbols("[");
    CompileCorrect("[", g);
    assert Depth("[", 1) == 1;
    SymbolsOfSymbols("[[]");
    CompileCorrect("[[]", g);
    assert Depth("[[]", 3) == 1;
    SymbolsOfSymbols("[]]");
    CompileCorrect("[]]", g);
    assert Depth("[]]", 3) == -1;
  }

  /** Nesting one loop deeper than the bracket stack holds is rejected. */
  lemma TooDeepRejected(g: Guard)
    ensures Compile(seq(StackSize + 1, _ => '['), g) == Rejected
  {
    var src := seq(StackSize + 1, _ => '[');
    SymbolsOfSymbols(src);
    CompileCorrect(src, g);
    DepthOfOpeners(src, StackSize + 1);
  }

  /** `ProgramSize` symbols leave no slot for `End`. */
  lemma FullProgramRejected(g: Guard)
    ensures Compile(seq(ProgramSize, _ => '+'), g) == Rejected
  {
    var src := seq(ProgramSize, _ => '+');
    SymbolsOfSymbols(src);
    CompileCorrect(src, g);
  }

  /** One symbol more: the Rust guard as written lets it through and the
      compiler writes slot `ProgramSize` of a `ProgramSize`-slot array, while
      the intended guard and the Python compiler reject the source. */
  lemma OverlongSourcePanics()
    ensures Compile(seq(ProgramSize + 1, _ => '+'), AsWritten) == Panicked
    ensures Compile(seq(ProgramSize + 1, _ => '+'), Intended) == Rejected
    ensures Py.Compile(seq(ProgramSize + 1, _ => '+')) == Rejected
  {
    var src := seq(ProgramSize + 1, _ => '+');
    SymbolsOfSymbols(src);
    CompileCorrect(src, AsWritten);
    CompileCorrect(src, Intended);
    Agreement.PyCompileCorrect(src);
    forall q | 0 <= q <= ProgramSize
      ensures Depth(src, q) == 0
    {
      DepthOfBracketFree(src, q);
    }
  }

  /** A long source is rejected, not a panic, when a `]` with no loop open
      comes before slot `ProgramSize`: `]` followed by 4096 `+` fails on its
      first character under either guard. */
  lemma LongSourceWithStrayCloseRejected(g: Guard)
    ensures Compile("]" + seq(ProgramSize, _ => '+'), g) == Rejected
  {
    var src := "]" + seq(ProgramSize, _ => '+');
    assert AllSymbols(src);
    SymbolsOfSymbols(src);
    assert Depth(src, 1) == -1;
    CompileCorrect(src, g);
  }

  /** The empty source compiles to a lone `End` and runs to `Success`
      without printing. */
  lemma EmptyProgramSucceeds(g: Guard, input: seq<u8>)
    ensures Compile("", g).Compiled?
    ensures Compile("", g).program[0] == Instruction(End, 0)
    ensures Execute(Compile("", g).program, input, 1) == Finished(Success, Initial(input))
    ensures Initial(input).output == []
  {
    SymbolsOfSymbols("");
    CompileCorrect("", g);
  }

  /** `+++.` prints the value 3 and succeeds. */
  lemma PrintsThree(g: Guard, input: seq<u8>)
    ensures Compile("+++.", g).Compiled?
    ensures Execute(Compile("+++.", g).program, input, 5).Finished?
    ensures Execute(Compile("+++.", g).program, input, 5).status == Success
    ensures Execute(Compile("+++.", g).program, input, 5).last.output == [3]
  {
    var t := "+++.";
    SymbolsOfSymbols(t);
    forall q | 0 <= q <= |t|
      ensures Depth(t, q) == 0
    {
      DepthOfBracketFree(t, q);
    }
    CompileCorrect(t, g);
    PrintsThreeRun(Compile(t, g).program, input);
  }

  /** The run of a program that starts with `+++.` and `End`. */
  lemma PrintsThreeRun(p: seq<Instruction>, input: seq<u8>)
    requires |p| == ProgramSize
    requires p[0].operator == IncVal && p[1].operator == IncVal && p[2].operator == IncVal
    requires p[3].operator == Out && p[4].operator == End
    ensures Run(p, Initial(input), 5) == Finished(Success, Vm(4, 0, Initial(input).tape[0 := 3], input, [3]))
  {
    var vm0 := Initial(input);
    var vm1 := Vm(1, 0, vm0.tape[0 := 1], input, []);
    var vm2 := Vm(2, 0, vm0.tape[0 := 2], input, []);
    var vm3 := Vm(3, 0, vm0.tape[0 := 3], input, []);
    var vm4 := Vm(4, 0, vm0.tape[0 := 3], input, [3]);
    assert Run(p, vm0, 5) == Run(p, vm1, 4) by { assert Step(p, vm0) == Next(vm1); }
    assert Run(p, vm1, 4) == Run(p, vm2, 3) by { assert Step(p, vm1) == Next(vm2); }
    assert Run(p, vm2, 3) == Run(p, vm3, 2) by { assert Step(p, vm2) == Next(vm3); }
    assert Run(p, vm3, 2) == Run(p, vm4, 1) by { assert Step(p, vm3) == Next(vm4); }
    assert Run(p, vm4, 1) == Finished(Success, vm4) by { assert Step(p, vm4) == Halt(Success); }
  }

  /** `++[-]` compiles to two increments and a loop whose `[` and `]`
      point at each other. */
  lemma ClearLoopAccepted()
    ensures Symbols("++[-]") == "++[-]"
    ensures Accepts("++[-]")
  {
    var t := "++[-]";
    SymbolsOfSymbols(t);
    DepthOfBracketFree(t, 2);
    assert Depth(t, 3) == 1 && Depth(t, 4) == 1 && Depth(t, 5) == 0;
    forall q | 0 <= q <= |t|
      ensures 0 <= Depth(t, q) <= 1
    {
      if q <= 2 {
        DepthOfBracketFree(t, q);
      }
    }
  }

  lemma ClearLoopCompiles(g: Guard)
    ensures Compile("++[-]", g).Compiled?
    ensures IsClearLoop(Compile("++[-]", g).program)
  {
    ClearLoopAccepted();
    CompileCorrect("++[-]", g);
    ClearLoopTranslation(Compile("++[-]", g).program);
  }

  /** The only translation of `++[-]` links slots 2 and 4. */
  lemma ClearLoopTranslation(p: seq<Instruction>)
    requires Translates("++[-]", p)
    ensures IsClearLoop(p)
  {
    var t := "++[-]";
    assert LinkedAt(t, p, 2) && LinkedAt(t, p, 4);
    var j := p[2].operand as int;
    assert Matched(t, 2, j);
    assert j == 4 by {
      assert 2 < j < 5 && t[j] == ']';
      assert t[3] == '-';
    }
  }

  ghost predicate IsClearLoop(p: seq<Instruction>)
  {
    && |p| == ProgramSize
    && p[0].operator == IncVal && p[1].operator == IncVal
    && p[2] == Instruction(JmpFwd, 4) && p[3].operator == DecVal
    && p[4] == Instruction(JmpBck, 2) && p[5].operator == End
  }

  /** The two increments, up to the `[`. */
  lemma ClearLoopIncrements(p: seq<Instruction>, input: seq<u8>)
    requires IsClearLoop(p)
    ensures var tape := Initial(input).tape;
      Run(p, Initial(input), 9) == Run(p, Vm(2, 0, tape[0 := 2], input, []), 7)
  {
    var tape := Initial(input).tape;
    var vm0 := Initial(input);
    var vm1 := Vm(1, 0, tape[0 := 1], input, []);
    var vm2 := Vm(2, 0, tape[0 := 2], input, []);
    assert Run(p, vm0, 9) == Run(p, vm1, 8) by { assert Step(p, vm0) == Next(vm1); }
    assert Run(p, vm1, 8) == Run(p, vm2, 7) by { assert Step(p, vm1) == Next(vm2); }
  }

  /** The first pass through the loop: the `]` is taken back to the `-`. */
  lemma ClearLoopFirstPass(p: seq<Instruction>, input: seq<u8>)
    requires IsClearLoop(p)
    ensures var tape := Initial(input).tape;
      Run(p, Vm(2, 0, tape[0 := 2], input, []), 7) == Run(p, Vm(3, 0, tape[0 := 1], input, []), 4)
  {
    var tape := Initial(input).tape;
    var vm2 := Vm(2, 0, tape[0 := 2], input, []);
    var vm3 := Vm(3, 0, tape[0 := 2], input, []);
    var vm4 := Vm(4, 0, tape[0 := 1], input, []);
    var vm5 := Vm(3, 0, tape[0 := 1], input, []);
    assert Run(p, vm2, 7) == Run(p, vm3, 6) by { assert Step(p, vm2) == Next(vm3); }
    assert Run(p, vm3, 6) == Run(p, vm4, 5) by { assert Step(p, vm3) == Next(vm4); }
    assert Run(p, vm4, 5) == Run(p, vm5, 4) by { assert Step(p, vm4) == Next(vm5); }
  }

  /** The second pass, the fall-through at `]` and the exit at `End`. */
  lemma ClearLoopSecondPass(p: seq<Instruction>, input: seq<u8>)
    requires IsClearLoop(p)
    ensures var tape := Initial(input).tape;
      Run(p, Vm(3, 0, tape[0 := 1], input, []), 4) == Finished(Success, Vm(5, 0, tape[0 := 0], input, []))
  {
    var tape := Initial(input).tape;
    var vm5 := Vm(3, 0, tape[0 := 1], input, []);
    var vm6 := Vm(4, 0, tape[0 := 0], input, []);
    var vm7 := Vm(5, 0, tape[0 := 0], input, []);
    assert Run(p, vm5, 4) == Run(p, vm6, 3) by { assert Step(p, vm5) == Next(vm6); }
    assert Run(p, vm6, 3) == Run(p, vm7, 2) by { assert Step(p, vm6) == Next(vm7); }
    assert Run(p, vm7, 2) == Finished(Success, vm7) by { assert Step(p, vm7) == Halt(Success); }
  }

  /** `++[-]` counts the first cell down from 2 to 0 through the loop and
      succeeds; the taken `]` lands on the `-` just past its `[`. */
  lemma ClearLoopZeroesCell(g: Guard, input: seq<u8>)
    ensures Compile("++[-]", g).Compiled?
    ensures Execute(Compile("++[-]", g).program, input, 9).Finished?
    ensures Execute(Compile("++[-]", g).program, input, 9).status == Success
    ensures Execute(Compile("++[-]", g).program, input, 9).last.tape[0] == 0
  {
    ClearLoopCompiles(g);
    var p := Compile("++[-]", g).program;
    ClearLoopIncrements(p, input);
    ClearLoopFirstPass(p, input);
    ClearLoopSecondPass(p, input);
  }

  /** `<` wraps the data pointer to 2^32 - 1, which ends the run with
      `Success`. */
  lemma LeftOfOriginSucceeds(g: Guard, input: seq<u8>)
    ensures Compile("<", g).Compiled?
    ensures Execute(Compile("<", g).program, input, 2).Finished?
    ensures Execute(Compile("<", g).program, input, 2).status == Success
    ensures Execute(Compile("<", g).program, input, 2).last.ptr == 0xFFFF_FFFF
  {
    var t := "<";
    SymbolsOfSymbols(t);
    assert Depth(t, 1) == 0;
    CompileCorrect(t, g);
    var p := Compile(t, g).program;
    var vm0 := Initial(input);
    var vm1 := Vm(1, 0xFFFF_FFFF, vm0.tape, input, []);
    assert Step(p, vm0) == Next(vm1);
    assert Step(p, vm1) == Halt(Success);
    assert Run(p, vm0, 2) == Run(p, vm1, 1);
  }
}
