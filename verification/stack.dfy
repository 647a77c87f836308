/** The bounded bracket stack of both compilers (src/main.rs, lines 35-81;
    src/whynot.py, lines 36-71): a fixed array of `StackSize` entries and a
    pointer to the first free one. The Rust stack holds `u16` values and the
    Python stack holds `int`s; the logic is the same, so it is one generic
    definition. */
module BracketStack {
  import opened Isa

  datatype StackError = OverFlow | UnderFlow

  datatype Result<T> = Ok(value: T) | Err(error: StackError)

  datatype Stack<T> = Stack(ptr: nat, arr: seq<T>)

  /** A popped entry and the stack left behind. */
  datatype Popped<T> = Popped(rest: Stack<T>, top: T)

  /** What `Stack::new` establishes and `Push` / `Pop` keep. */
  ghost predicate Valid<T>(s: Stack<T>)
  {
    |s.arr| == StackSize && s.ptr <= StackSize
  }

  /** The live entries, bottom first. */
  function Contents<T>(s: Stack<T>): seq<T>
    requires Valid(s)
  {
    s.arr[..s.ptr]
  }

  /** `Stack::new`; `zero` is the filler of the unused entries. */
  function New<T>(zero: T): (s: Stack<T>)
    ensures Valid(s) && Contents(s) == []
  {
    Stack(0, seq(StackSize, _ => zero))
  }

  function Push<T>(s: Stack<T>, a: T): (r: Result<Stack<T>>)
    requires Valid(s)
    ensures r.Err? <==> s.ptr == StackSize
    ensures r.Err? ==> r.error == OverFlow
    ensures r.Ok? ==> Valid(r.value) && Contents(r.value) == Contents(s) + [a]
  {
    if s.ptr >= StackSize then Err(OverFlow)
    else Ok(Stack(s.ptr + 1, s.arr[s.ptr := a]))
  }

  function Pop<T>(s: Stack<T>): (r: Result<Popped<T>>)
    requires Valid(s)
    ensures r.Err? <==> Contents(s) == []
    ensures r.Err? ==> r.error == UnderFlow
    ensures r.Ok? ==> Valid(r.value.rest) && Contents(s) == Contents(r.value.rest) + [r.value.top]
  {
    if s.ptr == 0 then Err(UnderFlow)
    else Ok(Popped(Stack(s.ptr - 1, s.arr), s.arr[s.ptr - 1]))
  }

  /** `is_empty`: no live entries. */
  function IsEmpty<T>(s: Stack<T>): (b: bool)
    ensures Valid(s) ==> (b <==> Contents(s) == [])
  {
    s.ptr == 0
  }

  /** `is_full`: all `StackSize` entries live. */
  function IsFull<T>(s: Stack<T>): (b: bool)
    ensures Valid(s) ==> (b <==> |Contents(s)| == StackSize)
  {
    s.ptr == StackSize
  }

  /** Push then pop hands back the pushed value and restores the pointer and
      the live entries. */
  lemma PushPopRoundTrip<T>(s: Stack<T>, a: T)
    requires Valid(s) && !IsFull(s)
    ensures Push(s, a).Ok?
    ensures Pop(Push(s, a).value).Ok?
    ensures Pop(Push(s, a).value).value.top == a
    ensures Pop(Push(s, a).value).value.rest.ptr == s.ptr
    ensures Contents(Pop(Push(s, a).value).value.rest) == Contents(s)
  {
    var r := Pop(Push(s, a).value).value;
    assert Contents(s) + [a] == Contents(r.rest) + [r.top];
    assert (Contents(s) + [a])[..|Contents(s)|] == Contents(s);
    assert (Contents(r.rest) + [r.top])[..|Contents(r.rest)|] == Contents(r.rest);
  }

  /** The compilers ask `is_full` before pushing and `is_empty` before
      popping, so on a valid stack the `expect` after either call cannot fire:
      the predicates agree exactly with the failure of the operation. */
  lemma GuardsMatchFailures<T>(s: Stack<T>, a: T)
    requires Valid(s)
    ensures IsFull(s) <==> Push(s, a).Err?
    ensures IsEmpty(s) <==> Pop(s).Err?
  {
  }
}
