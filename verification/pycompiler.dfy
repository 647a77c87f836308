/** `Program.compile` of the Python variant (src/whynot.py, lines 80-140):
    the same pass as the Rust compiler over unbounded `int`s, on slots that
    start as `Op.Unknown`, with a capacity guard that leaves the loop once
    `pc` reaches `ProgramSize`. */
module PyCompiler {
  import opened Isa
  import opened Syntax
  import BracketStack

  /** Python's `Op`: the nine operators plus `Unknown`, the filler of fresh
      slots. */
  datatype PyOp = Known(op: Op) | Unknown

  datatype Slot = Slot(operator: PyOp, operand: int)

  /** `Instruction(Op.Unknown, 0)`: every slot of a fresh `Program`. */
  const Fresh: Slot := Slot(Unknown, 0)

  /** Python list indexing: a negative index counts from the end, anything
      else outside the list raises `IndexError`. */
  predicate InRange(i: int, n: nat)
  {
    -(n as int) <= i < n
  }

  function Resolve(i: int, n: nat): (r: nat)
    requires InRange(i, n)
    ensures r < n
    ensures 0 <= i ==> r == i
  {
    if i < 0 then i + n else i
  }

  datatype Scanner = Scanner(pc: int, slots: seq<Slot>, stack: BracketStack.Stack<int>)

  datatype Progress = Scanning(scanner: Scanner) | Stopped(outcome: Compilation<seq<Slot>>)

  ghost predicate Valid(sc: Scanner)
  {
    |sc.slots| == ProgramSize && BracketStack.Valid(sc.stack)
  }

  /** `Program.__init__`. */
  function Start(): (sc: Scanner)
    ensures Valid(sc)
  {
    Scanner(0, seq(ProgramSize, _ => Fresh), BracketStack.New(0))
  }

  /** One iteration of the loop body for character `c`; an uncaught
      `IndexError` is `Panicked`. */
  function Feed(sc: Scanner, c: char): (r: Progress)
    requires Valid(sc)
    ensures r.Scanning? ==> Valid(r.scanner)
    ensures r.Stopped? ==> !r.outcome.Compiled?
  {
    var n := |sc.slots|;
    if c == '[' then
      if !InRange(sc.pc, n) then Stopped(Panicked)
      else
        var at := Resolve(sc.pc, n);
        var slots := sc.slots[at := sc.slots[at].(operator := Known(JmpFwd))];
        if BracketStack.IsFull(sc.stack) then Stopped(Rejected)
        else
          // the error half of `push`'s result is not looked at
          var stack := match BracketStack.Push(sc.stack, sc.pc)
            case Ok(s) => s
            case Err(_) => sc.stack;
          Scanning(Scanner(sc.pc + 1, slots, stack))
    else if c == ']' then
      if BracketStack.IsEmpty(sc.stack) then Stopped(Rejected)
      else match BracketStack.Pop(sc.stack)
        case Err(_) => Stopped(Rejected)
        case Ok(popped) =>
          var jmp := popped.top;
          if !InRange(sc.pc, n) then Stopped(Panicked)
          else
            var slots := sc.slots[Resolve(sc.pc, n) := Slot(Known(JmpBck), jmp)];
            if !InRange(jmp, n) then Stopped(Panicked)
            else
              var at := Resolve(jmp, n);
              Scanning(Scanner(sc.pc + 1, slots[at := slots[at].(operand := sc.pc)], popped.rest))
    else if IsSymbol(c) then
      if !InRange(sc.pc, n) then Stopped(Panicked)
      else
        var at := Resolve(sc.pc, n);
        Scanning(sc.(pc := sc.pc + 1, slots := sc.slots[at := sc.slots[at].(operator := Known(OpOf(c)))]))
    else
      // `pc -= 1` in the catch-all arm, then the `pc += 1` of every iteration
      Scanning(sc.(pc := (sc.pc - 1) + 1))
  }

  /** The loop over the characters `cs`; it leaves once `pc` reaches
      `ProgramSize`. */
  function Scan(cs: seq<char>, sc: Scanner): (r: Progress)
    requires Valid(sc)
    ensures r.Scanning? ==> Valid(r.scanner)
    ensures r.Stopped? ==> !r.outcome.Compiled?
    decreases |cs|
  {
    if |cs| == 0 || !(sc.pc < ProgramSize) then Scanning(sc)
    else match Feed(sc, cs[0])
      case Scanning(sc') => Scan(cs[1..], sc')
      case Stopped(o) => Stopped(o)
  }

  /** The checks after the loop and the `OpEnd` terminator. */
  function Finish(sc: Scanner): (r: Compilation<seq<Slot>>)
    requires Valid(sc)
    ensures r.Rejected? <==> BracketStack.Contents(sc.stack) != [] || sc.pc == ProgramSize
    ensures r.Panicked? <==>
      BracketStack.Contents(sc.stack) == [] && sc.pc != ProgramSize && !InRange(sc.pc, ProgramSize)
    ensures r.Compiled? ==>
      var at := Resolve(sc.pc, ProgramSize);
      && |r.program| == ProgramSize
      && r.program[at] == Slot(Known(End), sc.slots[at].operand)
      && (forall i :: 0 <= i < ProgramSize && i != at ==> r.program[i] == sc.slots[i])
  {
    if !BracketStack.IsEmpty(sc.stack) || sc.pc == ProgramSize then Rejected
    else if !InRange(sc.pc, |sc.slots|) then Panicked
    else
      var at := Resolve(sc.pc, |sc.slots|);
      Compiled(sc.slots[at := sc.slots[at].(operator := Known(End))])
  }

  function Conclude(p: Progress): (r: Compilation<seq<Slot>>)
    requires p.Scanning? ==> Valid(p.scanner)
    requires p.Stopped? ==> !p.outcome.Compiled?
    ensures r.Compiled? ==> |r.program| == ProgramSize
  {
    match p
    case Scanning(sc) => Finish(sc)
    case Stopped(o) => o
  }

  /** `Program.compile` on a fresh `Program`; `strip()` is not applied, as
      in the Rust model. */
  function Compile(src: seq<char>): (r: Compilation<seq<Slot>>)
    ensures r.Compiled? ==> |r.program| == ProgramSize
  {
    Conclude(Scan(src, Start()))
  }
}
