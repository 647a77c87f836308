/** Reference definitions of what a correct translation is, stated on the
    source text alone, without the bracket stack or the instruction array's
    pointer arithmetic: which characters are symbols, the loop nesting depth
    after every prefix, and which `[` matches which `]`. */
module Syntax {
  import opened Words
  import opened Isa

  /** The eight characters that occupy an instruction slot. */
  predicate IsSymbol(c: char)
  {
    c == '>' || c == '<' || c == '+' || c == '-' || c == '.' || c == ',' || c == '[' || c == ']'
  }

  ghost predicate AllSymbols(t: seq<char>)
  {
    forall i :: 0 <= i < |t| ==> IsSymbol(t[i])
  }

  /** The operator a symbol is translated to (src/main.rs, lines 122-149). */
  function OpOf(c: char): (op: Op)
    requires IsSymbol(c)
    ensures op != End
    ensures IsJump(op) <==> c == '[' || c == ']'
  {
    match c
    case '>' => IncDp
    case '<' => DecDp
    case '+' => IncVal
    case '-' => DecVal
    case '.' => Out
    case ',' => In
    case '[' => JmpFwd
    case ']' => JmpBck
  }

  /** The symbols of a source text, in order; everything else is dropped. */
  function Symbols(s: seq<char>): (t: seq<char>)
    ensures AllSymbols(t)
    ensures |t| <= |s|
  {
    if |s| == 0 then []
    else (if IsSymbol(s[0]) then [s[0]] else []) + Symbols(s[1..])
  }

  lemma {:induction false} SymbolsOfSymbols(t: seq<char>)
    requires AllSymbols(t)
    ensures Symbols(t) == t
  {
    if |t| > 0 {
      SymbolsOfSymbols(t[1..]);
    }
  }

  lemma {:induction false} SymbolsAppend(a: seq<char>, b: seq<char>)
    ensures Symbols(a + b) == Symbols(a) + Symbols(b)
  {
    if |a| == 0 {
      assert a + b == b;
    } else {
      var h := if IsSymbol(a[0]) then [a[0]] else [];
      assert (a + b)[0] == a[0];
      assert (a + b)[1..] == a[1..] + b;
      SymbolsAppend(a[1..], b);
      assert Symbols(a + b) == h + (Symbols(a[1..]) + Symbols(b));
      assert Symbols(a) == h + Symbols(a[1..]);
    }
  }

  /** How a symbol changes the nesting depth. */
  function Delta(c: char): int
  {
    if c == '[' then 1 else if c == ']' then -1 else 0
  }

  /** Nesting depth after the first `q` symbols: opened minus closed loops. */
  function Depth(t: seq<char>, q: nat): int
    requires q <= |t|
  {
    if q == 0 then 0 else Depth(t, q - 1) + Delta(t[q - 1])
  }

  /** Every prefix up to length `hi` nests between 0 and `StackSize` deep:
      no `]` closes a loop that was never opened, and no more than
      `StackSize` loops are open at once. */
  ghost predicate DepthsWithin(t: seq<char>, hi: nat)
    requires hi <= |t|
  {
    forall q :: 0 <= q <= hi ==> 0 <= Depth(t, q) <= StackSize
  }

  /** Every prefix after position `i`, up to length `k`, is nested deeper than
      the prefix before it: the `[` at `i` is not yet closed. */
  ghost predicate StillOpen(t: seq<char>, k: nat, i: nat)
    requires i <= k <= |t|
  {
    forall q :: i < q <= k ==> Depth(t, q) > Depth(t, i)
  }

  /** The `[` at `i` and the `]` at `j` enclose one loop: the depth returns
      to its level before `i` for the first time right after `j`. */
  ghost predicate Matched(t: seq<char>, i: int, j: int)
  {
    && 0 <= i < j < |t|
    && t[i] == '[' && t[j] == ']'
    && Depth(t, j + 1) == Depth(t, i)
    && StillOpen(t, j, i)
  }

  /** A `[` has at most one matching `]`, and a `]` at most one `[`. */
  lemma MatchedUnique(t: seq<char>, i: int, j: int, i': int, j': int)
    requires Matched(t, i, j) && Matched(t, i', j')
    ensures i == i' <==> j == j'
  {
  }

  /** The sources both compilers accept: fewer symbols than slots (one slot
      is kept for `End`), nesting always within 0..`StackSize`, and every
      loop closed at the end. */
  ghost predicate Accepts(t: seq<char>)
  {
    && |t| < ProgramSize
    && DepthsWithin(t, |t|)
    && Depth(t, |t|) == 0
  }

  /** The sources on which the Rust compiler as written indexes slot
      `ProgramSize`: a symbol after the first `ProgramSize` well-nested ones,
      unless it is a `]` that is rejected because no loop is open. */
  ghost predicate ReachesSlotPastEnd(t: seq<char>)
  {
    && |t| > ProgramSize
    && DepthsWithin(t, ProgramSize)
    && !(t[ProgramSize] == ']' && Depth(t, ProgramSize) == 0)
  }

  /** The jump links of slot `i` of a compiled program for symbols `t`. */
  ghost predicate LinkedAt(t: seq<char>, p: seq<Instruction>, i: int)
    requires 0 <= i < |t| <= |p|
  {
    var j := p[i].operand as int;
    if t[i] == '[' then j < |t| && Matched(t, i, j) && p[j].operand as int == i
    else if t[i] == ']' then Matched(t, j, i) && p[j].operand as int == i
    else j == 0
  }

  /** `p` is the instruction array for the symbols `t`: one slot per symbol
      with its operator, every loop linked both ways to its matching
      delimiter, operand 0 elsewhere, `End` right after the last symbol and
      untouched `Blank` slots beyond. */
  ghost predicate Translates(t: seq<char>, p: seq<Instruction>)
  {
    && AllSymbols(t)
    && |p| == ProgramSize
    && |t| < |p|
    && (forall i :: 0 <= i < |t| ==> p[i].operator == OpOf(t[i]))
    && (forall i :: 0 <= i < |t| ==> LinkedAt(t, p, i))
    && p[|t|] == Instruction(End, 0)
    && (forall i :: |t| < i < |p| ==> p[i] == Blank)
  }
}
