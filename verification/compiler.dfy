/** `Program::compile` of the Rust toolchain (src/main.rs, lines 111-166):
    one pass over the source text that writes an operator per symbol into a
    fixed array of `ProgramSize` slots and links every `[` with its `]`
    through the bracket stack.

    The loop's capacity guard is written `!pc < PROGRAM_SIZE`, a bitwise NOT
    of `pc` compared with 4096, which never holds while `pc` is at most 4096.
    `Guard` selects that test as written or the evidently intended
    `!(pc < PROGRAM_SIZE)`. */
module Compiler {
  import opened Words
  import opened Isa
  import opened Syntax
  import BracketStack

  datatype Guard = AsWritten | Intended

  /** The compiler's state inside the loop. */
  datatype Scanner = Scanner(pc: u16, prog: seq<Instruction>, stack: BracketStack.Stack<u16>)

  datatype Progress = Scanning(scanner: Scanner) | Stopped(outcome: Compilation<seq<Instruction>>)

  ghost predicate Valid(sc: Scanner)
  {
    |sc.prog| == ProgramSize && BracketStack.Valid(sc.stack)
  }

  /** `Program::new`: all slots `Blank`, empty stack, `pc` 0. */
  function Start(): (sc: Scanner)
    ensures Valid(sc)
  {
    Scanner(0, seq(ProgramSize, _ => Blank), BracketStack.New(0))
  }

  /** The test at the top of every iteration that leaves the loop. As
      written it fires only for `pc` above 0xFFFF - `ProgramSize`, never at
      or below `ProgramSize`; as intended it fires from `ProgramSize` on. */
  function Breaks(g: Guard, pc: u16): (b: bool)
    ensures g == AsWritten ==> (b <==> pc as int > 0xFFFF - ProgramSize)
    ensures g == AsWritten && pc as int <= ProgramSize ==> !b
    ensures g == Intended ==> (b <==> pc as int >= ProgramSize)
  {
    match g
    case AsWritten => Not16(pc) as int < ProgramSize
    case Intended => !(pc as int < ProgramSize)
  }

  /** One iteration of the loop body for character `c`. */
  function Feed(sc: Scanner, c: char): (r: Progress)
    requires Valid(sc)
    ensures r.Scanning? ==> Valid(r.scanner)
    ensures r.Stopped? ==> !r.outcome.Compiled?
  {
    var idx := sc.pc as int;
    if c == '[' then
      if idx >= |sc.prog| then Stopped(Panicked)
      else
        var prog := sc.prog[idx := sc.prog[idx].(operator := JmpFwd)];
        if BracketStack.IsFull(sc.stack) then Stopped(Rejected)
        else match BracketStack.Push(sc.stack, sc.pc)
          case Err(_) => Stopped(Panicked)
          case Ok(stack) => Scanning(Scanner(Inc16(sc.pc), prog, stack))
    else if c == ']' then
      if BracketStack.IsEmpty(sc.stack) then Stopped(Rejected)
      else match BracketStack.Pop(sc.stack)
        case Err(_) => Stopped(Panicked)
        case Ok(popped) =>
          var jmp := popped.top;
          if idx >= |sc.prog| then Stopped(Panicked)
          else
            var prog := sc.prog[idx := Instruction(JmpBck, jmp)];
            if jmp as int >= |prog| then Stopped(Panicked)
            else
              var prog' := prog[jmp := prog[jmp].(operand := sc.pc)];
              Scanning(Scanner(Inc16(sc.pc), prog', popped.rest))
    else if IsSymbol(c) then
      if idx >= |sc.prog| then Stopped(Panicked)
      else Scanning(sc.(pc := Inc16(sc.pc), prog := sc.prog[idx := sc.prog[idx].(operator := OpOf(c))]))
    else
      Scanning(sc.(pc := Inc16(Dec16(sc.pc))))
  }

  /** The loop over the characters `cs`, from state `sc`. */
  function Scan(g: Guard, cs: seq<char>, sc: Scanner): (r: Progress)
    requires Valid(sc)
    ensures r.Scanning? ==> Valid(r.scanner)
    ensures r.Stopped? ==> !r.outcome.Compiled?
    decreases |cs|
  {
    if |cs| == 0 || Breaks(g, sc.pc) then Scanning(sc)
    else match Feed(sc, cs[0])
      case Scanning(sc') => Scan(g, cs[1..], sc')
      case Stopped(o) => Stopped(o)
  }

  /** The checks after the loop and the `End` terminator. */
  function Finish(sc: Scanner): (r: Compilation<seq<Instruction>>)
    requires Valid(sc)
    ensures r.Rejected? <==> BracketStack.Contents(sc.stack) != [] || sc.pc as int == ProgramSize
    ensures r.Panicked? <==> BracketStack.Contents(sc.stack) == [] && sc.pc as int > ProgramSize
    ensures r.Compiled? ==>
      && |r.program| == ProgramSize
      && r.program[sc.pc] == Instruction(End, sc.prog[sc.pc].operand)
      && (forall i :: 0 <= i < ProgramSize && i != sc.pc as int ==> r.program[i] == sc.prog[i])
  {
    if !BracketStack.IsEmpty(sc.stack) || sc.pc as int == ProgramSize then Rejected
    else if sc.pc as int >= |sc.prog| then Panicked
    else Compiled(sc.prog[sc.pc := sc.prog[sc.pc].(operator := End)])
  }

  function Conclude(p: Progress): (r: Compilation<seq<Instruction>>)
    requires p.Scanning? ==> Valid(p.scanner)
    requires p.Stopped? ==> !p.outcome.Compiled?
    ensures r.Compiled? ==> |r.program| == ProgramSize
  {
    match p
    case Scanning(sc) => Finish(sc)
    case Stopped(o) => o
  }

  /** `Program::compile` on a fresh `Program`. The source's `trim()` is not
      applied: it removes only whitespace, which takes no slot anyway
      (`PaddingIsIgnored` in CompilerTheory). */
  function Compile(src: seq<char>, g: Guard): (r: Compilation<seq<Instruction>>)
    ensures r.Compiled? ==> |r.program| == ProgramSize
  {
    Conclude(Scan(g, src, Start()))
  }
}
