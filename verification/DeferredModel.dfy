/** `jQuery.Deferred` on its six callback lists. Like the lists, the machine stops whenever a callback
    that was added from outside is called; the callbacks that the constructor itself adds run at once. */
module DeferredModel {
  import opened Options
  import CB = CallbacksModel

  /** The third and fourth entries of the three tuples. */
  datatype Which = Done | Fail | Progress | DoneHandlers | FailHandlers | ProgressHandlers

  datatype Phase = Pending | Resolved | Rejected

  /** A callback from outside was called, and what `state()` would tell it. */
  datatype Seen = Seen(list: Which, fn: nat, phase: Phase)

  datatype Deferred = Deferred(
    done: CB.State, fail: CB.State, progress: CB.State,
    doneHandlers: CB.State, failHandlers: CB.State, progressHandlers: CB.State,
    phase: Phase, stack: seq<Which>, seen: seq<Seen>)
  {
    function Get(w: Which): CB.State {
      match w
      case Done => done
      case Fail => fail
      case Progress => progress
      case DoneHandlers => doneHandlers
      case FailHandlers => failHandlers
      case ProgressHandlers => progressHandlers
    }

    function With(w: Which, s: CB.State): (d: Deferred)
      ensures d.Get(w) == s && d.phase == phase && d.stack == stack && d.seen == seen
      ensures forall v: Which | v != w :: d.Get(v) == Get(v)
    {
      match w
      case Done => this.(done := s)
      case Fail => this.(fail := s)
      case Progress => this.(progress := s)
      case DoneHandlers => this.(doneHandlers := s)
      case FailHandlers => this.(failHandlers := s)
      case ProgressHandlers => this.(progressHandlers := s)
    }
  }

  // ----- the constructor

  /** Functions numbered below 6 are the constructor's own. */
  const OWN := 6

  datatype Internal =
    | SetPhase(phase: Phase)
    | DisableList(list: Which)
    | LockList(list: Which)
    | FireHandlers(list: Which)

  /** The other outcome, the handlers that go with an outcome, and the state it stands for. */
  function Other(w: Which): Which {
    if w.Done? then Fail else Done
  }

  function Handlers(w: Which): Which {
    if w.Done? then DoneHandlers else FailHandlers
  }

  function PhaseOf(w: Which): Phase {
    if w.Done? then Resolved else Rejected
  }

  /** The constructor's callbacks in the lists of the second and third tuple, in the order of addition. */
  function Meaning(w: Which, fn: nat): (b: Option<Internal>)
    ensures b.Some? && !b.value.SetPhase? ==> b.value.list != w
  {
    if (w.Done? || w.Fail?) && fn < OWN then
      Some([SetPhase(PhaseOf(w)), DisableList(Other(w)), DisableList(Handlers(Other(w))),
            LockList(Progress), LockList(ProgressHandlers), FireHandlers(Handlers(w))][fn])
    else if w.Progress? && fn == 0 then Some(FireHandlers(ProgressHandlers))
    else None
  }

  const ONCE_MEMORY := CB.Flags(true, true, false, false)
  const MEMORY := CB.Flags(false, true, false, false)

  function NewList(flags: CB.Flags, own: nat): CB.State {
    CB.Step(CB.Initial(flags), CB.Add(seq(own, i requires 0 <= i => CB.Function(i))))
  }

  function Initial(): Deferred {
    Deferred(NewList(ONCE_MEMORY, OWN), NewList(ONCE_MEMORY, OWN), NewList(MEMORY, 1),
             NewList(ONCE_MEMORY, 0), NewList(ONCE_MEMORY, 0), NewList(MEMORY, 0),
             Pending, [], [])
  }

  // ----- running

  /** The entries of this pass from the current one on. */
  function Left(s: CB.State): nat {
    if s.firingIndex < |s.Entries()| then |s.Entries()| - s.firingIndex else 0
  }

  lemma {:induction false} ProceedShrinks(s: CB.State)
    ensures var t := CB.Proceed(s);
            t.firing ==> |t.queue| < |s.queue| || (|t.queue| == |s.queue| && Left(t) < Left(s))
    decreases |s.queue|
  {
    if 0 <= s.firingIndex + 1 < |s.Entries()| {
    } else if s.queue != [] {
      ProceedShrinks(CB.NextPass(CB.EndPass(s)));
    }
  }

  function Resume(s: CB.State): (t: CB.State)
    requires s.firing
    ensures t.firing ==> |t.queue| < |s.queue| || (|t.queue| == |s.queue| && Left(t) < Left(s))
  {
    ProceedShrinks(s);
    CB.Step(s, CB.Return(false))
  }

  /** Handler lists hold only functions that schedule something for later, so they run to the end. */
  function Drain(s: CB.State): CB.State
    decreases s.firing, |s.queue|, Left(s)
  {
    if s.firing then Drain(Resume(s)) else s
  }

  /** What one of the constructor's callbacks does, called with `args`. */
  function Effect(d: Deferred, b: Internal, args: CB.Args): (e: Deferred)
    ensures e.stack == d.stack && e.seen == d.seen
    ensures forall w: Which | b.SetPhase? || b.list != w :: e.Get(w) == d.Get(w)
  {
    match b
    case SetPhase(p) => d.(phase := p)
    case DisableList(w) => d.With(w, CB.Step(d.Get(w), CB.Disable))
    case LockList(w) => d.With(w, CB.Step(d.Get(w), CB.Lock))
    case FireHandlers(w) => d.With(w, Drain(CB.Step(d.Get(w), CB.FireWith(args))))
  }

  /** The callback that list `s` is calling. */
  function Current(s: CB.State): Option<CB.Call> {
    if s.firing && s.calls != [] then Some(s.calls[|s.calls| - 1]) else None
  }

  /** List `w` has just made a call or come to its end: the constructor's callbacks run and return, a
      callback from outside is left running, and an ended list leaves the stack. */
  function GoOn(d: Deferred, w: Which): Deferred
    decreases d.Get(w).firing, |d.Get(w).queue|, Left(d.Get(w))
  {
    match Current(d.Get(w))
    case None => d.(stack := if d.stack != [] then d.stack[..|d.stack| - 1] else [])
    case Some(call) =>
      match Meaning(w, call.entry.fn)
      case None => d.(seen := d.seen + [Seen(w, call.entry.fn, d.phase)])
      case Some(b) =>
        var e := Effect(d, b, if call.args.Some? then call.args.value else 0);
        GoOn(e.With(w, Resume(e.Get(w))), w)
  }

  /** An operation on list `w` that may start it. */
  function On(d: Deferred, w: Which, op: CB.Op): Deferred {
    var s := CB.Step(d.Get(w), op);
    var e := d.With(w, s);
    if s.firing && !d.Get(w).firing then GoOn(e.(stack := d.stack + [w]), w) else e
  }

  datatype Op =
    | Settle(resolve: bool, data: CB.Args)          // resolveWith, rejectWith
    | Notify(data: CB.Args)
    | AddTo(list: Which, args: seq<CB.Arg>)         // done, fail, progress
    | Then(onFulfilled: nat, onRejected: nat, onProgress: nat)
    | Return(isFalse: bool)

  /** The public operations reach the handler lists only through `then`, and never hand over one of the
      constructor's own functions. */
  predicate Public(op: Op) {
    match op
    case AddTo(w, args) => (w.Done? || w.Fail? || w.Progress?) && FromOutside(CB.Flatten(args))
    case _ => true
  }

  predicate FromOutside(fns: seq<nat>) {
    forall i: nat | i < |fns| :: fns[i] >= OWN
  }

  function AddHandler(d: Deferred, w: Which, fn: nat): Deferred {
    d.With(w, Drain(CB.Step(d.Get(w), CB.Add([CB.Function(fn)]))))
  }

  function Step(d: Deferred, op: Op): Deferred {
    match op
    case Settle(resolve, data) => On(d, if resolve then Done else Fail, CB.FireWith(data))
    case Notify(data) => On(d, Progress, CB.FireWith(data))
    case AddTo(w, args) => On(d, w, CB.Add(args))
    case Then(f, r, p) => AddHandler(AddHandler(AddHandler(d, ProgressHandlers, p), DoneHandlers, f), FailHandlers, r)
    case Return(isFalse) =>
      if d.stack == [] then d
      else
        var w := d.stack[|d.stack| - 1];
        GoOn(d.With(w, CB.Step(d.Get(w), CB.Return(isFalse))), w)
  }

  function Run(d: Deferred, ops: seq<Op>): Deferred {
    if ops == [] then d else Step(Run(d, ops[..|ops| - 1]), ops[|ops| - 1])
  }
}
