/** What the Rust compiler computes, proved against the reference
    definitions of `Syntax`: it accepts exactly the sources `Accepts`
    describes, produces the array `Translates` describes, and panics exactly
    on `ReachesSlotPastEnd` with the guard as written. */
module CompilerTheory {
  import opened Words
  import opened Isa
  import opened Syntax
  import BracketStack
  import opened Compiler

  /** Stack entry `m` is the `[` at `i` that opened nesting level `m` and is
      still open after `k` symbols. */
  ghost predicate Opener(t: seq<char>, k: nat, m: nat, i: int)
    requires k <= |t|
  {
    0 <= i < k && t[i] == '[' && Depth(t, i) == m && StillOpen(t, k, i)
  }

  /** The links of slot `i` after `k` symbols: a `[` is either still open
      with operand 0 or linked both ways to its `]`. */
  ghost predicate PartialLink(t: seq<char>, k: nat, p: seq<Instruction>, i: int)
    requires 0 <= i < k <= |t| && k <= |p|
  {
    var j := p[i].operand as int;
    if t[i] == '[' then
      (j == 0 && StillOpen(t, k, i)) || (j < k && Matched(t, i, j) && p[j].operand as int == i)
    else if t[i] == ']' then Matched(t, j, i) && p[j].operand as int == i
    else j == 0
  }

  /** The loop invariant of `Program::compile` after the first `k` symbols of
      the symbol sequence `t`. */
  ghost predicate Inv(t: seq<char>, k: nat, sc: Scanner)
  {
    && AllSymbols(t)
    && k <= |t| && k <= ProgramSize
    && Valid(sc)
    && sc.pc as int == k
    && DepthsWithin(t, k)
    && sc.stack.ptr == Depth(t, k)
    && (forall m :: 0 <= m < sc.stack.ptr ==> Opener(t, k, m, sc.stack.arr[m] as int))
    && (forall i :: 0 <= i < k ==> sc.prog[i].operator == OpOf(t[i]))
    && (forall i :: k <= i < ProgramSize ==> sc.prog[i] == Blank)
    && (forall i :: 0 <= i < k ==> PartialLink(t, k, sc.prog, i))
  }

  lemma InvStart(t: seq<char>)
    requires AllSymbols(t)
    ensures Inv(t, 0, Start())
  {
  }

  /** A `[` still open after `k` symbols stays open over one more symbol
      that leaves the depth above its level. */
  lemma StillOpenStep(t: seq<char>, k: nat, i: nat)
    requires i < k < |t| && StillOpen(t, k, i)
    requires Depth(t, k + 1) > Depth(t, i)
    ensures StillOpen(t, k + 1, i)
  {
  }

  /** A symbol other than a bracket, at slot `k` below the capacity. */
  lemma FeedPlain(t: seq<char>, k: nat, sc: Scanner)
    requires Inv(t, k, sc) && k < |t| && k < ProgramSize
    requires t[k] != '[' && t[k] != ']'
    ensures Feed(sc, t[k]).Scanning?
    ensures Inv(t, k + 1, Feed(sc, t[k]).scanner)
  {
    var sc' := Feed(sc, t[k]).scanner;
    var k' := k + 1;
    assert Depth(t, k + 1) == Depth(t, k);
    forall m | 0 <= m < sc'.stack.ptr
      ensures Opener(t, k + 1, m, sc'.stack.arr[m] as int)
    {
      assert Opener(t, k, m, sc.stack.arr[m] as int);
    }
    forall i | 0 <= i < k'
      ensures PartialLink(t, k', sc'.prog, i)
    {
      if i < k {
        assert PartialLink(t, k, sc.prog, i);
        if t[i] == '[' && sc.prog[i].operand == 0 && StillOpen(t, k, i) {
          StillOpenStep(t, k, i);
        }
      }
    }
  }

  /** A `[` at slot `k` below the capacity: rejected when `StackSize` loops
      are already open, otherwise pushed. */
  lemma FeedOpen(t: seq<char>, k: nat, sc: Scanner)
    requires Inv(t, k, sc) && k < |t| && k < ProgramSize
    requires t[k] == '['
    ensures sc.stack.ptr == StackSize ==> Feed(sc, t[k]) == Stopped(Rejected) && Depth(t, k + 1) > StackSize
    ensures sc.stack.ptr < StackSize ==> Feed(sc, t[k]).Scanning? && Inv(t, k + 1, Feed(sc, t[k]).scanner)
  {
    assert Depth(t, k + 1) == Depth(t, k) + 1;
    if sc.stack.ptr < StackSize {
      var sc' := Feed(sc, t[k]).scanner;
      var k' := k + 1;
      assert sc'.stack.arr == sc.stack.arr[sc.stack.ptr := k as u16];
      forall m | 0 <= m < sc'.stack.ptr
        ensures Opener(t, k + 1, m, sc'.stack.arr[m] as int)
      {
        if m < sc.stack.ptr {
          assert Opener(t, k, m, sc.stack.arr[m] as int);
          StillOpenStep(t, k, sc.stack.arr[m] as nat);
        }
      }
      forall i | 0 <= i < k'
        ensures PartialLink(t, k', sc'.prog, i)
      {
        if i < k {
          assert PartialLink(t, k, sc.prog, i);
          if t[i] == '[' && sc.prog[i].operand == 0 && StillOpen(t, k, i) {
            StillOpenStep(t, k, i);
          }
        }
      }
    }
  }

  /** A `]` at slot `k` below the capacity: rejected when no loop is open,
      otherwise it pops the innermost open `[` and links the two. */
  lemma FeedClose(t: seq<char>, k: nat, sc: Scanner)
    requires Inv(t, k, sc) && k < |t| && k < ProgramSize
    requires t[k] == ']'
    ensures sc.stack.ptr == 0 ==> Feed(sc, t[k]) == Stopped(Rejected) && Depth(t, k + 1) < 0
    ensures sc.stack.ptr > 0 ==> Feed(sc, t[k]).Scanning? && Inv(t, k + 1, Feed(sc, t[k]).scanner)
  {
    assert Depth(t, k + 1) == Depth(t, k) - 1;
    if sc.stack.ptr > 0 {
      var top := sc.stack.ptr - 1;
      assert Opener(t, k, top, sc.stack.arr[top] as int);
      CloseOpeners(t, k, sc);
      CloseLinks(t, k, sc);
    }
  }

  /** The loops still open after a `]` that pops the innermost one. */
  lemma CloseOpeners(t: seq<char>, k: nat, sc: Scanner)
    requires Inv(t, k, sc) && k < |t| && k < ProgramSize
    requires t[k] == ']' && sc.stack.ptr > 0
    ensures Feed(sc, t[k]).Scanning?
    ensures var k', st := k + 1, Feed(sc, t[k]).scanner.stack;
      && st.ptr == sc.stack.ptr - 1 && st.arr == sc.stack.arr
      && forall m :: 0 <= m < st.ptr ==> Opener(t, k', m, st.arr[m] as int)
  {
    assert Depth(t, k + 1) == Depth(t, k) - 1;
    var sc' := Feed(sc, t[k]).scanner;
    forall m | 0 <= m < sc'.stack.ptr
      ensures Opener(t, k + 1, m, sc'.stack.arr[m] as int)
    {
      assert Opener(t, k, m, sc.stack.arr[m] as int);
      StillOpenStep(t, k, sc.stack.arr[m] as nat);
    }
  }

  /** The links after a `]` that pops the `[` at `o`: the pair is linked
      both ways and every other slot keeps its links. */
  lemma CloseLinks(t: seq<char>, k: nat, sc: Scanner)
    requires Inv(t, k, sc) && k < |t| && k < ProgramSize
    requires t[k] == ']' && sc.stack.ptr > 0
    ensures Feed(sc, t[k]).Scanning?
    ensures var k', p := k + 1, Feed(sc, t[k]).scanner.prog;
      forall i :: 0 <= i < k' ==> PartialLink(t, k', p, i)
  {
    assert Depth(t, k + 1) == Depth(t, k) - 1;
    var top := sc.stack.ptr - 1;
    var o := sc.stack.arr[top] as int;
    assert Opener(t, k, top, o);
    var sc' := Feed(sc, t[k]).scanner;
    var k' := k + 1;
    var p1 := sc.prog[k := Instruction(JmpBck, o as u16)];
    assert sc'.prog == p1[o := p1[o].(operand := k as u16)];
    assert Matched(t, o, k);
    // the `[` being closed is open, so its operand is still 0
    assert PartialLink(t, k, sc.prog, o);
    assert sc.prog[o].operand == 0;
    forall i | 0 <= i < k'
      ensures PartialLink(t, k', sc'.prog, i)
    {
      if i < k && i != o {
        assert sc'.prog[i] == sc.prog[i];
        assert PartialLink(t, k, sc.prog, i);
        var j := sc.prog[i].operand as int;
        if t[i] == '[' {
          if j == 0 && StillOpen(t, k, i) {
            assert Depth(t, k) > Depth(t, i);
            StillOpenStep(t, k, i);
          } else {
            assert sc'.prog[j] == sc.prog[j];
          }
        } else if t[i] == ']' {
          assert j != o;
          assert sc'.prog[j] == sc.prog[j];
        }
      }
    }
  }

  /** Any symbol below the capacity: the loop goes on with the invariant
      kept, or rejects a nesting depth outside 0..`StackSize`. */
  lemma FeedStep(t: seq<char>, k: nat, sc: Scanner)
    requires Inv(t, k, sc) && k < |t| && k < ProgramSize
    ensures Feed(sc, t[k]).Scanning? ==> Inv(t, k + 1, Feed(sc, t[k]).scanner)
    ensures Feed(sc, t[k]).Stopped? ==> Feed(sc, t[k]).outcome == Rejected && !DepthsWithin(t, k + 1)
  {
    if t[k] == '[' {
      FeedOpen(t, k, sc);
    } else if t[k] == ']' {
      FeedClose(t, k, sc);
    } else {
      FeedPlain(t, k, sc);
    }
  }

  /** A symbol at slot `ProgramSize`, which the guard as written lets
      through: every symbol indexes past the array, except a `]` that is
      rejected first because no loop is open. */
  lemma FeedPastEnd(t: seq<char>, k: nat, sc: Scanner)
    requires Inv(t, k, sc) && k == ProgramSize < |t|
    ensures Feed(sc, t[k]) == if t[k] == ']' && Depth(t, k) == 0 then Stopped(Rejected) else Stopped(Panicked)
  {
  }

  /** After the whole symbol sequence, the checks and the terminator. */
  lemma FinishCorrect(t: seq<char>, sc: Scanner)
    requires Inv(t, |t|, sc)
    ensures Finish(sc).Compiled? <==> Accepts(t)
    ensures !Finish(sc).Panicked?
    ensures Finish(sc).Compiled? ==> Translates(t, Finish(sc).program)
  {
    var n := |t|;
    if Accepts(t) {
      var p := Finish(sc).program;
      assert p == sc.prog[n := Blank];
      forall i | 0 <= i < n
        ensures LinkedAt(t, p, i)
      {
        // a `[` still open at the end would leave the final depth above 0
        assert PartialLink(t, n, sc.prog, i);
      }
    }
  }

  /** The loop from symbol `k` to the end, and the checks after it. */
  lemma {:induction false} ScanCorrect(g: Guard, t: seq<char>, k: nat, sc: Scanner)
    requires Inv(t, k, sc)
    ensures Conclude(Scan(g, t[k..], sc)).Compiled? <==> Accepts(t)
    ensures Conclude(Scan(g, t[k..], sc)).Panicked? <==> g == AsWritten && ReachesSlotPastEnd(t)
    ensures Conclude(Scan(g, t[k..], sc)).Compiled? ==> Translates(t, Conclude(Scan(g, t[k..], sc)).program)
    decreases |t| - k
  {
    if k == |t| {
      assert Scan(g, t[k..], sc) == Scanning(sc);
      FinishCorrect(t, sc);
    } else if Breaks(g, sc.pc) {
      assert Scan(g, t[k..], sc) == Scanning(sc);
    } else if k == ProgramSize {
      FeedPastEnd(t, k, sc);
      assert Scan(g, t[k..], sc) == Feed(sc, t[k]);
    } else {
      FeedStep(t, k, sc);
      match Feed(sc, t[k])
      case Scanning(sc') =>
        assert Scan(g, t[k..], sc) == Scan(g, t[k + 1..], sc') by {
          assert t[k..][0] == t[k] && t[k..][1..] == t[k + 1..];
        }
        ScanCorrect(g, t, k + 1, sc');
      case Stopped(o) =>
        assert Scan(g, t[k..], sc) == Stopped(Rejected) by {
          assert t[k..][0] == t[k];
        }
    }
  }

  /** Characters other than the eight symbols change nothing, wherever they
      stand. */
  lemma {:induction false} ScanIgnoresNonSymbols(g: Guard, cs: seq<char>, sc: Scanner)
    requires Valid(sc) && sc.pc as int <= ProgramSize
    ensures Scan(g, cs, sc) == Scan(g, Symbols(cs), sc)
    decreases |cs|
  {
    if |cs| > 0 && !Breaks(g, sc.pc) {
      var rest := Symbols(cs[1..]);
      if IsSymbol(cs[0]) {
        assert Symbols(cs) == [cs[0]] + rest;
        assert Symbols(cs)[1..] == rest;
        match Feed(sc, cs[0])
        case Scanning(sc') =>
          ScanIgnoresNonSymbols(g, cs[1..], sc');
        case Stopped(_) =>
      } else {
        IncDec16(sc.pc);
        assert Feed(sc, cs[0]) == Scanning(sc);
        assert Symbols(cs) == rest;
        ScanIgnoresNonSymbols(g, cs[1..], sc);
      }
    }
  }

  /** `Program::compile` accepts exactly the sources whose symbols nest
      within 0..`StackSize`, close every loop and leave a slot for `End`; on
      acceptance the array is the translation of the symbols with every loop
      linked both ways. With the guard as written it panics exactly when a
      symbol reaches slot `ProgramSize`; with the intended guard it never
      panics. */
  lemma CompileCorrect(src: seq<char>, g: Guard)
    ensures Compile(src, g).Compiled? <==> Accepts(Symbols(src))
    ensures Compile(src, g).Panicked? <==> g == AsWritten && ReachesSlotPastEnd(Symbols(src))
    ensures Compile(src, g).Compiled? ==> Translates(Symbols(src), Compile(src, g).program)
  {
    var t := Symbols(src);
    ScanIgnoresNonSymbols(g, src, Start());
    InvStart(t);
    assert t[0..] == t;
    ScanCorrect(g, t, 0, Start());
  }

  /** The translation of a symbol sequence is unique: `Translates` pins
      every slot. */
  lemma TranslationUnique(t: seq<char>, p: seq<Instruction>, p': seq<Instruction>)
    requires Translates(t, p) && Translates(t, p')
    ensures p == p'
  {
    forall i | 0 <= i < |p|
      ensures p[i] == p'[i]
    {
      if i < |t| {
        assert LinkedAt(t, p, i) && LinkedAt(t, p', i);
        if t[i] == '[' {
          MatchedUnique(t, i, p[i].operand as int, i, p'[i].operand as int);
        } else if t[i] == ']' {
          MatchedUnique(t, p[i].operand as int, i, p'[i].operand as int, i);
        }
      }
    }
  }

  /** The two guards give the same compilation wherever the guard as
      written does not panic. */
  lemma GuardsAgree(src: seq<char>)
    ensures !Compile(src, AsWritten).Panicked? ==> Compile(src, AsWritten) == Compile(src, Intended)
  {
    CompileCorrect(src, AsWritten);
    CompileCorrect(src, Intended);
    if Compile(src, AsWritten).Compiled? {
      TranslationUnique(Symbols(src), Compile(src, AsWritten).program, Compile(src, Intended).program);
    }
  }

  /** With the intended guard the loop stops at slot `ProgramSize`: the
      compiler never panics and rejects every source with `ProgramSize`
      symbols or more. */
  lemma IntendedGuardNeverPanics(src: seq<char>)
    ensures !Compile(src, Intended).Panicked?
    ensures |Symbols(src)| >= ProgramSize ==> Compile(src, Intended) == Rejected
  {
    CompileCorrect(src, Intended);
  }

  /** The compilation depends on the symbols of the source alone. */
  lemma CompileDependsOnlyOnSymbols(a: seq<char>, b: seq<char>, g: Guard)
    requires Symbols(a) == Symbols(b)
    ensures Compile(a, g) == Compile(b, g)
  {
    CompileCorrect(a, g);
    CompileCorrect(b, g);
    if Compile(a, g).Compiled? {
      TranslationUnique(Symbols(a), Compile(a, g).program, Compile(b, g).program);
    }
  }

  /** Text without symbols around the program, such as the whitespace
      `trim()` removes, changes nothing. */
  lemma PaddingIsIgnored(pre: seq<char>, src: seq<char>, post: seq<char>, g: Guard)
    requires Symbols(pre) == [] && Symbols(post) == []
    ensures Compile(pre + src + post, g) == Compile(src, g)
  {
    SymbolsAppend(pre, src);
    SymbolsAppend(pre + src, post);
    assert Symbols(pre + src + post) == Symbols(src);
    CompileDependsOnlyOnSymbols(pre + src + post, src, g);
  }
}
