/** The Python compiler against the Rust one: while fewer than
    `ProgramSize` symbols have been read the two loops take the same steps,
    so the Python compiler is the Rust compiler with the intended capacity
    guard, on slots that say `Unknown` where the Rust ones say `End`. */
module Agreement {
  import opened Words
  import opened Isa
  import opened Syntax
  import BracketStack
  import Compiler
  import CompilerTheory
  import Py = PyCompiler

  /** A Rust instruction as a Python slot. */
  function Lift(ins: Instruction): Py.Slot
  {
    Py.Slot(Py.Known(ins.operator), ins.operand as int)
  }

  /** The two loop states after the same symbols. */
  ghost predicate Corresponds(py: Py.Scanner, rs: Compiler.Scanner)
  {
    && Py.Valid(py)
    && py.pc == rs.pc as int
    && py.stack.ptr == rs.stack.ptr
    && |py.stack.arr| == |rs.stack.arr|
    && (forall m :: 0 <= m < |rs.stack.arr| ==> py.stack.arr[m] == rs.stack.arr[m] as int)
    && |py.slots| == |rs.prog|
    && (forall i :: 0 <= i < |py.slots| ==> py.slots[i] == if i < py.pc then Lift(rs.prog[i]) else Py.Fresh)
  }

  /** The two final programs for `n` symbols: equal up to and including the
      terminator at `n`, `Unknown` against `Blank` after it. */
  ghost predicate ProgramsCorrespond(pp: seq<Py.Slot>, rp: seq<Instruction>, n: nat)
  {
    && |pp| == |rp|
    && forall i :: 0 <= i < |pp| ==> pp[i] == if i <= n then Lift(rp[i]) else Py.Fresh
  }

  ghost predicate OutcomesCorrespond(pr: Compilation<seq<Py.Slot>>, rr: Compilation<seq<Instruction>>, n: nat)
  {
    match rr
    case Compiled(rp) => pr.Compiled? && ProgramsCorrespond(pr.program, rp, n)
    case Rejected => pr == Rejected
    case Panicked => pr == Panicked
  }

  /** The Python program for the symbols `t`, as `Translates` states the
      Rust one. */
  ghost predicate PyTranslates(t: seq<char>, p: seq<Py.Slot>)
  {
    && AllSymbols(t)
    && |p| == ProgramSize
    && |t| < |p|
    && (forall i :: 0 <= i < |t| ==> p[i].operator == Py.Known(OpOf(t[i])))
    && (forall i :: 0 <= i < |t| && t[i] == '[' ==>
          var j := p[i].operand; Matched(t, i, j) && p[j].operand == i)
    && (forall i :: 0 <= i < |t| && t[i] == ']' ==>
          var j := p[i].operand; Matched(t, j, i) && p[j].operand == i)
    && (forall i :: 0 <= i < |t| && t[i] != '[' && t[i] != ']' ==> p[i].operand == 0)
    && p[|t|] == Py.Slot(Py.Known(End), 0)
    && (forall i :: |t| < i < |p| ==> p[i] == Py.Fresh)
  }

  lemma LiftTranslation(t: seq<char>, pp: seq<Py.Slot>, rp: seq<Instruction>)
    requires Translates(t, rp) && ProgramsCorrespond(pp, rp, |t|)
    ensures PyTranslates(t, pp)
  {
    forall i | 0 <= i < |t|
      ensures pp[i] == Lift(rp[i]) && LinkedAt(t, rp, i)
    {
    }
  }

  lemma FeedCorresponds(t: seq<char>, k: nat, py: Py.Scanner, rs: Compiler.Scanner)
    requires CompilerTheory.Inv(t, k, rs) && Corresponds(py, rs)
    requires k < |t| && k < ProgramSize
    ensures Compiler.Feed(rs, t[k]).Stopped? ==>
      Compiler.Feed(rs, t[k]) == Compiler.Stopped(Rejected) && Py.Feed(py, t[k]) == Py.Stopped(Rejected)
    ensures Compiler.Feed(rs, t[k]).Scanning? ==>
      Py.Feed(py, t[k]).Scanning? && Corresponds(Py.Feed(py, t[k]).scanner, Compiler.Feed(rs, t[k]).scanner)
  {
    if t[k] == '[' {
      CompilerTheory.FeedOpen(t, k, rs);
    } else if t[k] == ']' {
      CompilerTheory.FeedClose(t, k, rs);
      if rs.stack.ptr > 0 {
        var o := rs.stack.arr[rs.stack.ptr - 1] as int;
        assert CompilerTheory.Opener(t, k, rs.stack.ptr - 1, o);
      }
    } else {
      CompilerTheory.FeedPlain(t, k, rs);
    }
    if Compiler.Feed(rs, t[k]).Scanning? {
      var rs' := Compiler.Feed(rs, t[k]).scanner;
      var py' := Py.Feed(py, t[k]).scanner;
      forall i | 0 <= i < |py'.slots|
        ensures py'.slots[i] == if i < py'.pc then Lift(rs'.prog[i]) else Py.Fresh
      {
        assert py.slots[i] == if i < py.pc then Lift(rs.prog[i]) else Py.Fresh;
        assert rs.prog[k] == Blank;
      }
    }
  }

  lemma {:induction false} ScanCorresponds(t: seq<char>, k: nat, py: Py.Scanner, rs: Compiler.Scanner)
    requires CompilerTheory.Inv(t, k, rs) && Corresponds(py, rs)
    ensures OutcomesCorrespond(Py.Conclude(Py.Scan(t[k..], py)),
                               Compiler.Conclude(Compiler.Scan(Compiler.Intended, t[k..], rs)), |t|)
    decreases |t| - k
  {
    if k == |t| || k == ProgramSize {
      assert Py.Scan(t[k..], py) == Py.Scanning(py);
      assert Compiler.Scan(Compiler.Intended, t[k..], rs) == Compiler.Scanning(rs);
      if Compiler.Finish(rs).Compiled? {
        var n := rs.pc as int;
        assert rs.prog[n] == Blank;
        assert py.slots[n] == Py.Fresh;
      }
    } else {
      FeedCorresponds(t, k, py, rs);
      assert t[k..][0] == t[k] && t[k..][1..] == t[k + 1..];
      CompilerTheory.FeedStep(t, k, rs);
      match Compiler.Feed(rs, t[k])
      case Scanning(rs') =>
        ScanCorresponds(t, k + 1, Py.Feed(py, t[k]).scanner, rs');
      case Stopped(_) =>
    }
  }

  lemma {:induction false} PyScanIgnoresNonSymbols(cs: seq<char>, py: Py.Scanner)
    requires Py.Valid(py) && 0 <= py.pc <= ProgramSize
    ensures Py.Scan(cs, py) == Py.Scan(Symbols(cs), py)
    decreases |cs|
  {
    if |cs| > 0 && py.pc < ProgramSize {
      var rest := Symbols(cs[1..]);
      if IsSymbol(cs[0]) {
        assert Symbols(cs) == [cs[0]] + rest;
        assert Symbols(cs)[1..] == rest;
        match Py.Feed(py, cs[0])
        case Scanning(py') =>
          PyScanIgnoresNonSymbols(cs[1..], py');
        case Stopped(_) =>
      } else {
        assert Py.Feed(py, cs[0]) == Py.Scanning(py);
        assert Symbols(cs) == rest;
        PyScanIgnoresNonSymbols(cs[1..], py);
      }
    }
  }

  /** Text without symbols around the program, such as the whitespace
      `strip()` removes, changes nothing in the Python compiler either. */
  lemma PyPaddingIsIgnored(pre: seq<char>, src: seq<char>, post: seq<char>)
    requires Symbols(pre) == [] && Symbols(post) == []
    ensures Py.Compile(pre + src + post) == Py.Compile(src)
  {
    SymbolsAppend(pre, src);
    SymbolsAppend(pre + src, post);
    assert Symbols(pre + src + post) == Symbols(src);
    PyScanIgnoresNonSymbols(pre + src + post, Py.Start());
    PyScanIgnoresNonSymbols(src, Py.Start());
  }

  /** The Python compiler is the Rust compiler with the intended guard. */
  lemma PyCompileCorresponds(src: seq<char>)
    ensures OutcomesCorrespond(Py.Compile(src), Compiler.Compile(src, Compiler.Intended), |Symbols(src)|)
  {
    var t := Symbols(src);
    PyScanIgnoresNonSymbols(src, Py.Start());
    CompilerTheory.ScanIgnoresNonSymbols(Compiler.Intended, src, Compiler.Start());
    CompilerTheory.InvStart(t);
    assert t[0..] == t;
    ScanCorresponds(t, 0, Py.Start(), Compiler.Start());
  }

  /** `Program.compile` in Python accepts exactly the sources the reference
      `Accepts` describes, never raises `IndexError`, rejects every source
      with `ProgramSize` symbols or more, and builds the linked program
      `PyTranslates` describes. */
  lemma PyCompileCorrect(src: seq<char>)
    ensures Py.Compile(src).Compiled? <==> Accepts(Symbols(src))
    ensures !Py.Compile(src).Panicked?
    ensures |Symbols(src)| >= ProgramSize ==> Py.Compile(src) == Rejected
    ensures Py.Compile(src).Compiled? ==> PyTranslates(Symbols(src), Py.Compile(src).program)
  {
    PyCompileCorresponds(src);
    CompilerTheory.CompileCorrect(src, Compiler.Intended);
    if Py.Compile(src).Compiled? {
      LiftTranslation(Symbols(src), Py.Compile(src).program, Compiler.Compile(src, Compiler.Intended).program);
    }
  }

  /** The Rust compiler as written and the Python compiler accept the same
      sources and build the same program on them, slot by slot up to the
      terminator; up to `ProgramSize` symbols they also reject the same
      sources, and past that the Rust one may panic where the Python one
      rejects. */
  lemma CompilersAgree(src: seq<char>)
    ensures Py.Compile(src).Compiled? <==> Compiler.Compile(src, Compiler.AsWritten).Compiled?
    ensures |Symbols(src)| <= ProgramSize ==>
      (Py.Compile(src).Rejected? <==> Compiler.Compile(src, Compiler.AsWritten).Rejected?)
    ensures Compiler.Compile(src, Compiler.AsWritten).Compiled? ==>
      ProgramsCorrespond(Py.Compile(src).program, Compiler.Compile(src, Compiler.AsWritten).program, |Symbols(src)|)
  {
    PyCompileCorresponds(src);
    CompilerTheory.CompileCorrect(src, Compiler.AsWritten);
    CompilerTheory.CompileCorrect(src, Compiler.Intended);
    CompilerTheory.GuardsAgree(src);
  }
}
