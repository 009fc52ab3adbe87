/** `jQuery.Callbacks` as a state machine. `fire` is never re-entered, so the machine is flat: it stops
    whenever a callback is called, and goes on when that callback returns; in between, the callback may
    perform any operation on the same list. */
module CallbacksModel {
  import opened Options

  /** A function in a list; the serial number tells apart several additions of one function. */
  datatype Entry = Entry(fn: nat, serial: nat)

  /** What a pass hands to its callbacks: `[ context, args ]`. */
  type Args = nat

  datatype Call = Call(entry: Entry, args: Option<Args>, pass: nat)

  datatype Flags = Flags(once: bool, memory: bool, unique: bool, stopOnFalse: bool)

  /** An argument of `add`: a function, a possibly nested collection, or something that is ignored. */
  datatype Arg = Function(fn: nat) | Nested(args: seq<Arg>) | Other

  /** `list` is None once it is `""`; `memory` is None when falsy. The last four fields are history: all
      calls made, all entries added, the arguments of every pass begun, and the list at the end of every
      pass ended. */
  datatype State = State(
    flags: Flags, list: Option<seq<Entry>>, queue: seq<Args>, firingIndex: int, firing: bool,
    memory: Option<Args>, fired: bool, locked: bool,
    calls: seq<Call>, added: seq<Entry>, passes: seq<Args>, ended: seq<seq<Entry>>)
  {
    function Entries(): seq<Entry> {
      if list.Some? then list.value else []
    }
  }

  function Initial(flags: Flags): State {
    State(flags, Some([]), [], -1, false, None, false, false, [], [], [], [])
  }

  // ----- fire

  /** From one callback to the next one, through the queue, or to the end of `fire`. */
  function Proceed(s: State): State
    decreases |s.queue|
  {
    if 0 <= s.firingIndex + 1 < |s.Entries()| then CallNext(s)
    else if s.queue == [] then Finish(EndPass(s))
    else Proceed(NextPass(EndPass(s)))
  }

  function CallNext(s: State): State
    requires 0 <= s.firingIndex + 1 < |s.Entries()|
  {
    var i := s.firingIndex + 1;
    s.(firingIndex := i, calls := s.calls + [Call(s.Entries()[i], s.memory, |s.passes|)])
  }

  function EndPass(s: State): State {
    s.(firingIndex := -1, ended := s.ended + [s.Entries()])
  }

  function NextPass(s: State): State
    requires s.queue != []
  {
    s.(memory := Some(s.queue[0]), queue := s.queue[1..], passes := s.passes + [s.queue[0]])
  }

  function Finish(s: State): State {
    var memory := if s.flags.memory then s.memory else None;
    s.(memory := memory, firing := false,
       list := if !s.locked then s.list else if memory.Some? then Some([]) else None)
  }

  function Fire(s: State): State
    requires s.queue != []
  {
    Proceed(NextPass(s.(locked := s.locked || s.flags.once, fired := true, firing := true)))
  }

  // ----- operations

  datatype Op =
    | Add(args: seq<Arg>)
    | Remove(fn: nat)
    | Empty
    | Disable
    | Lock
    | FireWith(data: Args)
    | Return(isFalse: bool)

  function Flatten(args: seq<Arg>): seq<nat> {
    if args == [] then []
    else (match args[0]
          case Function(f) => [f]
          case Nested(inner) => Flatten(inner)
          case Other => []) + Flatten(args[1..])
  }

  predicate Holds(list: seq<Entry>, fn: nat) {
    exists i: nat :: i < |list| && list[i].fn == fn
  }

  function Push(s: State, fn: nat): State
    requires s.list.Some?
  {
    if s.flags.unique && Holds(s.list.value, fn) then s
    else var e := Entry(fn, |s.added|); s.(list := Some(s.list.value + [e]), added := s.added + [e])
  }

  function PushAll(s: State, fns: seq<nat>): (t: State)
    requires s.list.Some?
    ensures t.list.Some? && t.firing == s.firing && t.memory == s.memory && t.queue == s.queue
    decreases |fns|
  {
    if fns == [] then s else PushAll(Push(s, fns[0]), fns[1..])
  }

  function Without(list: seq<Entry>, fn: nat): (r: seq<Entry>)
    ensures |r| <= |list|
  {
    if list == [] then []
    else Without(list[..|list| - 1], fn) + (if list[|list| - 1].fn == fn then [] else [list[|list| - 1]])
  }

  function AddStep(s: State, fns: seq<nat>): State {
    if s.list.None? then s
    else if s.memory.Some? && !s.firing then
      Fire(PushAll(s.(firingIndex := |s.list.value| - 1, queue := s.queue + [s.memory.value]), fns))
    else PushAll(s, fns)
  }

  /** The index moves down by the number of removed entries up to it. */
  function IndexWithout(list: seq<Entry>, f: int, fn: nat): int {
    if f < 0 then f
    else
      var n := if f < |list| then f + 1 else |list|;
      f - (n - |Without(list[..n], fn)|)
  }

  function RemoveStep(s: State, fn: nat): State {
    if s.list.None? then s
    else s.(list := Some(Without(s.list.value, fn)), firingIndex := IndexWithout(s.list.value, s.firingIndex, fn))
  }

  /** A Return with no callback running is no step. */
  function Step(s: State, op: Op): State {
    match op
    case Add(args) => AddStep(s, Flatten(args))
    case Remove(fn) => RemoveStep(s, fn)
    case Empty => if s.list.Some? then s.(list := Some([])) else s
    case Disable => s.(locked := true, queue := [], list := None, memory := None)
    case Lock =>
      if s.memory.None? && !s.firing then s.(locked := true, queue := [], list := None)
      else s.(locked := true, queue := [])
    case FireWith(data) =>
      if s.locked then s
      else if s.firing then s.(queue := s.queue + [data])
      else Fire(s.(queue := s.queue + [data]))
    case Return(isFalse) =>
      if !s.firing then s
      else Proceed(if isFalse && s.flags.stopOnFalse then s.(firingIndex := |s.Entries()|, memory := None) else s)
  }

  function Run(s: State, ops: seq<Op>): State
    decreases |ops|
  {
    if ops == [] then s else Step(Run(s, ops[..|ops| - 1]), ops[|ops| - 1])
  }

  function Removals(fns: seq<nat>): seq<Op> {
    seq(|fns|, i requires 0 <= i < |fns| => Remove(fns[i]))
  }
}
