# mindsuck in Dafny

A model of the core of *mindsuck*, a Brainfuck toolchain written twice:
once in Rust (`src/main.rs`) and once in Python (`src/whynot.py`). Both
versions have:

- a bounded **bracket stack** of 512 entries;
- a **compiler** that turns a source text into a fixed array of 4096
  instructions. Each recognised symbol takes one slot. Loops are linked both
  ways: a `[` holds the slot of its `]` and a `]` holds the slot of its `[`.
  `End` goes right after the last symbol.

The Rust version adds a **virtual machine** that runs the array over a tape
of 65535 cells of 16 bits. Its program counter is 16 bits and its data
pointer is 32 bits, both wrapping, and input arrives two bytes at a time.
The Python version's machine works on unbounded integers and reads input
line by line; it is not modelled.

The modules follow that structure:

| file | module | contents |
|---|---|---|
| `words.dfy` | `Words` | `u8`, `u16`, `u32` as integer newtypes, with wrapping `+1`/`-1`, the Rust `!` on `u16`, and big-endian byte pairs |
| `isa.dfy` | `Isa` | sizes, operators, instructions, statuses, and a compiler's three possible outcomes: compiled, rejected (`Failure`) or panicked |
| `stack.dfy` | `BracketStack` | the stack shared by both versions. It is generic in the element type: `u16` for Rust, `int` for Python |
| `syntax.dfy` | `Syntax` | recognised symbols, nesting depth, matching delimiters, and the reference definitions `Accepts` and `Translates` |
| `compiler.dfy` | `Compiler` | `Program::compile` of the Rust version, one character per `Feed` |
| `compiler_theory.dfy` | `CompilerTheory` | the correctness proof of the Rust compiler against `Syntax` |
| `pycompiler.dfy` | `PyCompiler` | `Program.compile` of the Python version, including Python's negative indexing |
| `agreement.dfy` | `Agreement` | a simulation proof relating the Python compiler to the Rust one |
| `machine.dfy` | `Machine` | `Program::execute` as a small-step machine with a fuel-bounded run |
| `machine_theory.dfy` | `MachineTheory` | wrap-around, exit status, input/output, and jumps landing where the compiler linked them |
| `scenarios.dfy` | `Scenarios` | concrete sources with their compiler verdicts and runs |

The Rust compiler's loop guard is `if !pc < PROGRAM_SIZE` (`src/main.rs:115`).
In Rust `!` on a `u16` is bitwise NOT, so the guard reads `(0xFFFF - pc) < 4096`.
That never holds while `pc <= 4096`. `Compiler.Guard` names both readings:

- `AsWritten` is the code as it stands;
- `Intended` is `!(pc < 4096)`, which is what the Python version writes at
  `src/whynot.py:89`.

`CompilerTheory.CompileCorrect` covers both guards. The two agree on every
source where the code as written does not panic (`CompilerTheory.GuardsAgree`).

Two behaviours of the code are easy to miss, and the model keeps both:

- the Rust compiler panics instead of rejecting a source when the first
  4096 recognised symbols nest within 0..512 and a 4097th symbol follows that
  is not a `]` with no loop open (`Syntax.ReachesSlotPastEnd`). Other long
  sources are still rejected, for example `]` followed by 4096 `+`, which
  fails on its first character;
- execution fails only when the data pointer equals 65535 exactly. Moving left
  of cell 0 wraps the pointer to 2^32 - 1, which also ends the loop, but with
  `Success`.

## Model

| member | source | states |
|---|---|---|
| BracketStack.New | src/main.rs:41-46 | A new stack is well formed and holds nothing. |
| BracketStack.Push | src/main.rs:48-58 | Fails with `OverFlow` exactly when 512 entries are live. Otherwise the live entries become the old ones followed by the pushed value. |
| BracketStack.Pop | src/main.rs:60-69 | Fails with `UnderFlow` exactly when nothing is live. Otherwise it returns the last live entry, and the remaining entries followed by it are the old entries. |
| BracketStack.PushPopRoundTrip | src/main.rs:48-69 | A successful push followed by a pop returns the pushed value, the old pointer and the old contents. |
| BracketStack.GuardsMatchFailures | src/whynot.py:41-71 | `is_full` holds exactly when `push` fails and `is_empty` exactly when `pop` fails. So the compilers' checks before push and pop make those calls succeed, and the Rust `expect`s never fire. |
| BracketStack.IsEmpty | src/main.rs:71-76 | On a well-formed stack, `is_empty` holds exactly when no entry is live. |
| BracketStack.IsFull | src/main.rs:78-80 | On a well-formed stack, `is_full` holds exactly when all 512 entries are live. |
| Words.Inc16 | src/main.rs:156 | `wrapping_add(1)` on `u16`: the successor modulo 2^16. |
| Words.Dec16 | src/main.rs:153 | `wrapping_sub(1)` on `u16`: the predecessor modulo 2^16. |
| Words.Inc32 | src/main.rs:176 | `wrapping_add(1)` on the `u32` data pointer: the successor modulo 2^32. |
| Words.Dec32 | src/main.rs:178 | `wrapping_sub(1)` on the `u32` data pointer: the predecessor modulo 2^32. |
| Compiler.Start | src/main.rs:104-109 | A fresh `Program` is a well-formed compiler state: 4096 slots and a valid empty stack. `CompilerTheory.InvStart` shows it satisfies the loop invariant. |
| Compiler.Breaks | src/main.rs:115 | The capacity guard. `AsWritten` is `(0xFFFF - pc) < 4096`, which fires only for `pc` above 61439 and never at or below 4096. `Intended` is `pc >= 4096`, as at src/whynot.py:89. |
| Compiler.Feed | src/main.rs:119-156 | One loop iteration keeps the state well formed, and a stop is never a success. Its behaviour per symbol is in `CompilerTheory.FeedPlain`, `FeedOpen`, `FeedClose` and `FeedPastEnd`. |
| Compiler.Scan | src/main.rs:114-157 | The loop keeps the state well formed, and a stop is never a success. Its outcome is characterised by `CompilerTheory.ScanCorrect`. |
| Compiler.Finish | src/main.rs:159-165 | `Failure` exactly when a loop is still open or `pc` is 4096. A panic exactly when the stack is empty and `pc` is past 4096. Otherwise `End` is written at `pc`, keeping that slot's operand, and every other slot is unchanged. |
| Compiler.Compile | src/main.rs:111-166 | A compiled program has 4096 slots. Which sources compile, and to what, is `CompilerTheory.CompileCorrect`. |
| PyCompiler.Start | src/whynot.py:80-84 | A fresh Python `Program` is a well-formed compiler state. |
| PyCompiler.Feed | src/whynot.py:92-131 | One Python loop iteration keeps the state well formed, and a stop is never a success. It matches the Rust step by `Agreement.FeedCorresponds`. |
| PyCompiler.Scan | src/whynot.py:88-131 | The Python loop keeps the state well formed, and a stop is never a success. It matches the Rust loop by `Agreement.ScanCorresponds`. |
| PyCompiler.Finish | src/whynot.py:133-140 | `Failure` exactly when a loop is still open or `pc` is 4096. An `IndexError` exactly when the stack is empty and `pc` lies outside Python's index range. Otherwise `OpEnd` is written at the resolved index, keeping that slot's operand, and every other slot is unchanged. |
| PyCompiler.Compile | src/whynot.py:86-140 | A compiled program has 4096 slots. Which sources compile, and to what, is `Agreement.PyCompileCorrect`. |
| Syntax.OpOf | src/main.rs:121-149 | Each of the eight symbols maps to an operator other than `End`, and it is a jump exactly for `[` and `]`. |
| Syntax.SymbolsAppend | src/main.rs:114-156 | The recognised symbols of a concatenation are the symbols of each part, concatenated. |
| CompilerTheory.FeedPlain | src/main.rs:121-127 | A non-bracket symbol in the first 4096 writes its operator at the next slot, and the compiler's invariant carries over. |
| CompilerTheory.FeedOpen | src/main.rs:128-138 | A `[` is rejected exactly when 512 loops are open, that is when the nesting would exceed 512. Otherwise it is pushed and the invariant carries over. |
| CompilerTheory.FeedClose | src/main.rs:139-152 | A `]` is rejected exactly when no loop is open, that is when the depth would go negative. Otherwise it is linked both ways to its matching `[` and the invariant carries over. |
| CompilerTheory.FeedStep | src/main.rs:119-156 | Every symbol either keeps the invariant or stops with `Failure`, and `Failure` happens only when the nesting left 0..512. |
| CompilerTheory.FeedPastEnd | src/main.rs:115-129 | With the guard as written, the symbol after 4096 well-nested ones panics on slot 4096, unless it is a `]` with no loop open. |
| CompilerTheory.FinishCorrect | src/main.rs:159-165 | After the loop, compilation succeeds exactly when the symbols are accepted. It never panics here, and on success it writes `End` after the last symbol. |
| CompilerTheory.ScanCorrect | src/main.rs:114-157 | From any state satisfying the invariant, the rest of the scan ends compiled iff the symbols are accepted. It panics iff the guard is as written and slot 4096 is reached, and on success it yields exactly `Translates`. |
| CompilerTheory.ScanIgnoresNonSymbols | src/main.rs:153-156 | Characters other than the eight symbols leave the compiler state unchanged, so scanning a text equals scanning its symbols. |
| CompilerTheory.CompileCorrect | src/main.rs:111-166 | `compile` succeeds iff the symbols are accepted: fewer than 4096, nesting within 0..512, all loops closed. It panics iff the guard is as written and a symbol reaches slot 4096. On success the array is the reference translation, with every loop linked both ways. |
| CompilerTheory.TranslationUnique | src/main.rs:98-109 | At most one instruction array is the translation of a symbol sequence, so the untouched slots of a fresh `Program` are fully determined. |
| CompilerTheory.GuardsAgree | src/main.rs:115-117 | Wherever the guard as written does not panic, it gives the same outcome and array as the intended guard. |
| CompilerTheory.IntendedGuardNeverPanics | src/whynot.py:89-90 | With the intended guard the compiler never panics, and it rejects every source with 4096 symbols or more. |
| CompilerTheory.CompileDependsOnlyOnSymbols | src/main.rs:121-156 | Two sources with the same recognised symbols compile to the same outcome. |
| CompilerTheory.PaddingIsIgnored | src/main.rs:114 | Text without symbols before or after a source does not change its compilation. So the `trim()` has no effect on the result. |
| Agreement.PyPaddingIsIgnored | src/whynot.py:88 | Text without symbols before or after a source does not change the Python compilation either. So the `strip()` has no effect on the result. |
| Agreement.FeedCorresponds | src/whynot.py:92-131 | One Python step on a symbol matches one Rust step: same stop or continue, same stack, and the written slots lifted to Python instructions. |
| Agreement.ScanCorresponds | src/whynot.py:87-134 | The Python scan ends in an outcome corresponding to the Rust scan with the intended guard. |
| Agreement.PyScanIgnoresNonSymbols | src/whynot.py:128-131 | In the Python loop, `pc -= 1` then `pc += 1` makes other characters no-ops. |
| Agreement.LiftTranslation | src/whynot.py:82 | A Python array that corresponds to a Rust translation is itself the reference translation, with `Unknown` left in the slots never written. |
| Agreement.PyCompileCorresponds | src/whynot.py:86-140 | Python `compile` and Rust `compile` with the intended guard reach corresponding outcomes on every source. |
| Agreement.PyCompileCorrect | src/whynot.py:86-140 | Python `compile` succeeds iff the symbols are accepted, never crashes, and rejects 4096 symbols or more. On success the array is the reference translation. |
| Agreement.CompilersAgree | src/whynot.py:86-136 | The Python and Rust compilers accept the same sources with the same linked arrays. Up to 4096 symbols they also reject the same sources; past that the Rust one may panic where the Python one rejects. |
| Words.FromBeBytes | src/main.rs:192 | `u16::from_be_bytes` puts the first byte in the high half and the second in the low half. |
| Words.BeBytesRoundTrip | src/main.rs:192 | Splitting a `u16` into big-endian bytes and joining them gives it back. |
| Words.IncDec16 | src/main.rs:153-156 | `wrapping_sub(1)` followed by `wrapping_add(1)` restores any `u16`. |
| Machine.Initial | src/main.rs:169-171 | The state `execute` starts from: 65535 zero cells, `pc` and `ptr` 0, the whole input unread and nothing printed. |
| Machine.IsScalar | src/main.rs:185-186 | `char::from_u32` succeeds exactly on Unicode scalar values, 0..0xD7FF and 0xE000..0x10FFFF. |
| Machine.Advance | src/main.rs:210 | The `pc.wrapping_add(1)` at the end of every iteration: `pc` plus one modulo 2^16, nothing else changed. |
| Machine.Step | src/main.rs:173-211 | One iteration of `execute` keeps the tape size and only appends output. The loop ends with `Failure` exactly when the pointer equals 65535. |
| Machine.Run | src/main.rs:173-216 | Iterating `Step` keeps the tape size and never retracts output, and a finished run reports `Failure` exactly when the pointer is 65535. |
| Machine.Execute | src/main.rs:168-217 | `execute` from a zeroed tape keeps the tape at 65535 cells, and if it finishes it reports `Failure` exactly when the pointer is 65535. The run's properties are in `MachineTheory`. |
| MachineTheory.CellArithmeticWraps | src/main.rs:180-182 | `+` and `-` change the current cell by one modulo 2^16 and nothing else but the program counter. |
| MachineTheory.PointerWraps | src/main.rs:176-178 | `>` and `<` move the data pointer by one modulo 2^32, advance `pc` by one, and change nothing else. |
| MachineTheory.LeftOfCellZeroSucceeds | src/main.rs:173-178 | `<` at cell 0 wraps the pointer to 2^32 - 1, and the next check ends the run with `Success`. |
| MachineTheory.RightOfLastCellFails | src/main.rs:213-216 | `>` at the last cell sets the pointer to 65535, and the run ends with `Failure`. |
| MachineTheory.InputReadsBigEndian | src/main.rs:188-196 | `,` aborts exactly when fewer than two bytes remain. Otherwise it stores the next two bytes as a big-endian `u16` in the current cell, consumes them, advances `pc` by one, and changes nothing else. |
| MachineTheory.OutputPrintsScalar | src/main.rs:183-187 | `.` aborts with `InvalidScalar` exactly when the cell is a surrogate (0xD800..0xDFFF). Otherwise it emits the cell, advances `pc` by one, and changes nothing else. |
| MachineTheory.StepHaltsIff | src/main.rs:173 | With `pc` inside the array, a step leaves the loop exactly when the instruction is `End` or the pointer is 65535 or more; otherwise it executes the instruction or panics. |
| MachineTheory.RunExitStatus | src/main.rs:173-216 | A finished run stopped on `End` or with the pointer off the tape, and reports `Failure` iff the pointer is 65535. |
| MachineTheory.RunFuelMonotone | src/main.rs:168-217 | Once a run ends within some fuel, more fuel gives the same outcome, so the result does not depend on the bound. |
| MachineTheory.TranslationIsClosed | src/main.rs:150-151 | Every jump operand of a compiled program points inside the compiled symbols. |
| MachineTheory.StepStaysInside | src/main.rs:197-210 | In a closed program a step never leaves the compiled region plus its `End` slot. |
| MachineTheory.RunStaysInside | src/main.rs:168-217 | A run of a closed program never indexes past the instruction array. |
| MachineTheory.JumpsLandPastPartner | src/main.rs:197-210 | A taken `[` continues just past its matching `]`, and a taken `]` continues just past its matching `[`. An untaken jump falls through. A jump changes nothing but `pc`. |
| Scenarios.CompiledProgramsStayInside | src/main.rs:246-250 | Running what `compile` produced never aborts on the program counter. |
| Scenarios.UnmatchedDelimitersRejected | src/main.rs:139-142 | `]`, `[`, `[[]` and `[]]` are rejected. |
| Scenarios.TooDeepRejected | src/main.rs:131-133 | 513 nested `[` are rejected. |
| Scenarios.FullProgramRejected | src/main.rs:159-161 | 4096 symbols leave no slot for `End` and are rejected. |
| Scenarios.LongSourceWithStrayCloseRejected | src/main.rs:139-142 | Under either guard, `]` followed by 4096 `+` is rejected on its first character instead of panicking. |
| Scenarios.OverlongSourcePanics | src/main.rs:115-124 | 4097 `+` panic under the guard as written, and are rejected under the intended guard and by the Python compiler. |
| Scenarios.EmptyProgramSucceeds | src/main.rs:159-165 | Under either guard, the code as written included, the empty source compiles to `End` and runs to `Success` without output. |
| Scenarios.PrintsThree | src/main.rs:180-187 | Under either guard, `+++.` compiles and runs to `Success`, emitting the value 3. |
| Scenarios.ClearLoopZeroesCell | src/main.rs:197-210 | Under either guard, `++[-]` ends within 9 steps with `Success` and cell 0 cleared. |
| Scenarios.LeftOfOriginSucceeds | src/main.rs:178 | Under either guard, `<` ends with the pointer at 2^32 - 1 and `Success`. |

## Left out

- `main` in both files is left out: argument checks, reading the file, the process exit code and the usage message. The model starts from the source text as a string.
- The Python `Program.execute` and its `print_buffer` are left out. Only the Python stack and compiler are modelled.
- Real standard input and output are left out. Input is a byte sequence given to the machine. Output is the sequence of emitted cell values, and printing a value as a `char` is reduced to the check that it is a Unicode scalar value.
- The "Compilation successful!" message of the Python compiler is left out, since it is output only.
- `trim()`/`strip()` is not applied. `CompilerTheory.PaddingIsIgnored` shows that removing leading and trailing text without symbols cannot change the outcome, and whitespace is never a symbol.
- Machine.Run: it takes a fuel bound, because a Brainfuck program may run forever. A run that exhausts its fuel reports `OutOfFuel` and says nothing about the program's eventual outcome.
- The array contents after a `Failure` are left out. Both versions return at that point, and nothing reads the array afterwards.
- The Rust `Stack.ptr` is a `u32`. The model uses an unbounded `nat`, because the pointer stays within 0..512.
- Machine.Step: the `_ => return Statuses::Failure` arm of `execute` (src/main.rs:207) is not modelled. The loop guard already excludes `End`, the only operator that arm could catch.
- Words.Not16: it is defined as `0xFFFF - a`, the integer value of bitwise NOT on 16 bits, with no lemma relating it to bit operations.

## Findings

| source | as written | input that shows it | evidently intended | confidence | as-written member | corrected member |
|---|---|---|---|---|---|---|
| src/main.rs:115 | `if !pc < PROGRAM_SIZE` applies bitwise NOT to `pc`, so the guard never fires while `pc <= 4096` | a source of 4097 `+`: the 4097th writes slot 4096 of a 4096-slot array and panics | `if !(pc < PROGRAM_SIZE)`, as in src/whynot.py:89: stop at slot 4096 and report `Failure` | high; not executed | Scenarios.OverlongSourcePanics | CompilerTheory.IntendedGuardNeverPanics |
