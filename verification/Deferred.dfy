/** The object that `jQuery.Deferred` returns, over six callback lists. Its methods refine the steps of
    DeferredModel. */
module Deferreds {
  import opened Options
  import CB = CallbacksModel
  import opened Callbacks
  import opened DeferredModel

  /** Deferreds agree when their lists and the rest do. */
  lemma ByList(d: Deferred, e: Deferred)
    requires forall v: Which :: d.Get(v) == e.Get(v)
    requires d.phase == e.phase && d.stack == e.stack && d.seen == e.seen
    ensures d == e
  {
    assert d.Get(Done) == e.Get(Done) && d.Get(Fail) == e.Get(Fail) && d.Get(Progress) == e.Get(Progress);
    assert d.Get(DoneHandlers) == e.Get(DoneHandlers) && d.Get(FailHandlers) == e.Get(FailHandlers)
           && d.Get(ProgressHandlers) == e.Get(ProgressHandlers);
  }

  /** A list with the constructor's own callbacks in it. */
  method NewCallbacks(flags: CB.Flags, own: nat, ghost want: CB.State) returns (c: Callbacks)
    requires want == NewList(flags, own)
    ensures fresh(c) && c.Valid() && c.Model() == want
  {
    c := new Callbacks(flags);
    c.Add(seq(own, i requires 0 <= i => CB.Function(i)));
  }

  lemma InitialLists(d: Deferred)
    requires d == Initial()
    ensures d.done == NewList(ONCE_MEMORY, OWN) && d.fail == NewList(ONCE_MEMORY, OWN) &&
            d.progress == NewList(MEMORY, 1)
    ensures d.doneHandlers == NewList(ONCE_MEMORY, 0) && d.failHandlers == NewList(ONCE_MEMORY, 0) &&
            d.progressHandlers == NewList(MEMORY, 0)
    ensures d.phase == Pending && d.stack == [] && d.seen == []
  {
  }

  method NewDeferred(ghost want: Deferred) returns (r: JQueryDeferred)
    requires want == Initial()
    ensures fresh(r) && r.Valid() && r.Model() == want
    ensures fresh(r.done) && fresh(r.fail) && fresh(r.progress) && fresh(r.doneHandlers) && fresh(r.failHandlers) &&
            fresh(r.progressHandlers)
  {
    InitialLists(want);
    var d := NewCallbacks(ONCE_MEMORY, OWN, want.done);
    var f := NewCallbacks(ONCE_MEMORY, OWN, want.fail);
    var p := NewCallbacks(MEMORY, 1, want.progress);
    var dh := NewCallbacks(ONCE_MEMORY, 0, want.doneHandlers);
    var fh := NewCallbacks(ONCE_MEMORY, 0, want.failHandlers);
    var ph := NewCallbacks(MEMORY, 0, want.progressHandlers);
    r := new JQueryDeferred(d, f, p, dh, fh, ph);
  }

  class JQueryDeferred {
    const done: Callbacks
    const fail: Callbacks
    const progress: Callbacks
    const doneHandlers: Callbacks
    const failHandlers: Callbacks
    const progressHandlers: Callbacks
    var phase: Phase
    /** The lists whose `fire` is on the call stack. */
    var stack: seq<Which>
    ghost var seen: seq<Seen>

    function List(w: Which): Callbacks {
      match w
      case Done => done
      case Fail => fail
      case Progress => progress
      case DoneHandlers => doneHandlers
      case FailHandlers => failHandlers
      case ProgressHandlers => progressHandlers
    }

    ghost function Lists(): set<Callbacks> {
      {done, fail, progress, doneHandlers, failHandlers, progressHandlers}
    }

    /** Six lists, none of them twice. */
    ghost predicate Apart() {
      && done !in {fail, progress, doneHandlers, failHandlers, progressHandlers}
      && fail !in {progress, doneHandlers, failHandlers, progressHandlers}
      && progress !in {doneHandlers, failHandlers, progressHandlers}
      && doneHandlers !in {failHandlers, progressHandlers} && failHandlers != progressHandlers
    }

    ghost predicate Valid()
      reads this, Lists()
    {
      && Apart() && done.Valid() && fail.Valid() && progress.Valid()
      && doneHandlers.Valid() && failHandlers.Valid() && progressHandlers.Valid()
    }

    lemma ListsApart(v: Which, w: Which)
      requires Apart()
      ensures v != w ==> List(v) != List(w)
    {
      match v
      case Done => case Fail => case Progress =>
      case DoneHandlers => case FailHandlers => case ProgressHandlers =>
    }

    lemma ListValid(v: Which)
      requires Valid()
      ensures List(v).Valid() && List(v) in Lists()
    {
      match v
      case Done => case Fail => case Progress =>
      case DoneHandlers => case FailHandlers => case ProgressHandlers =>
    }

    ghost function Model(): Deferred
      reads this, Lists()
    {
      Deferred(done.Model(), fail.Model(), progress.Model(),
               doneHandlers.Model(), failHandlers.Model(), progressHandlers.Model(), phase, stack, seen)
    }

    constructor (d: Callbacks, f: Callbacks, p: Callbacks, dh: Callbacks, fh: Callbacks, ph: Callbacks)
      requires d !in {f, p, dh, fh, ph} && f !in {p, dh, fh, ph} && p !in {dh, fh, ph} && dh !in {fh, ph} && fh != ph
      requires d.Valid() && f.Valid() && p.Valid() && dh.Valid() && fh.Valid() && ph.Valid()
      ensures Valid() && done == d && fail == f && progress == p && doneHandlers == dh && failHandlers == fh &&
              progressHandlers == ph
      ensures Model() == Deferred(d.Model(), f.Model(), p.Model(), dh.Model(), fh.Model(), ph.Model(), Pending, [], [])
    {
      done, fail, progress, doneHandlers, failHandlers, progressHandlers := d, f, p, dh, fh, ph;
      phase, stack, seen := Pending, [], [];
    }

    lemma ModelGet()
      ensures forall v: Which :: Model().Get(v) == List(v).Model() && List(v) in Lists()
    {
      forall v: Which ensures Model().Get(v) == List(v).Model() && List(v) in Lists() {
        match v
        case Done => case Fail => case Progress =>
        case DoneHandlers => case FailHandlers => case ProgressHandlers =>
      }
    }

    /** A list operation keeps the other lists. */
    twostate lemma OneList(w: Which)
      requires old(Valid()) && List(w).Valid() && phase == old(phase) && stack == old(stack) && seen == old(seen)
      requires forall c | c in Lists() && c != List(w) :: unchanged(c)
      ensures Valid() && Model() == old(Model()).With(w, List(w).Model())
    {
      ModelGet();
      forall v: Which | v != w
        ensures List(v).Valid() && List(v).Model() == old(List(v).Model())
        ensures old(Model()).Get(v) == old(List(v).Model())
      {
        ListsApart(v, w);
        match v
        case Done => case Fail => case Progress =>
        case DoneHandlers => case FailHandlers => case ProgressHandlers =>
      }
      ByList(Model(), old(Model()).With(w, List(w).Model()));
    }

    /** Runs a handler list to its end. */
    method DrainList(w: Which)
      requires Valid()
      modifies List(w)
      ensures Valid() && Model() == old(Model()).With(w, Drain(old(Model()).Get(w)))
    {
      var c := List(w);
      while c.firing
        invariant c.Valid() && Drain(c.Model()) == Drain(old(c.Model()))
        decreases c.firing, |c.queue|, Left(c.Model())
      {
        ghost var before := c.Model();
        c.Return(false);
        assert c.Model() == Resume(before);
      }
      OneList(w);
    }

    /** One operation on one list. */
    method ListDo(w: Which, op: CB.Op)
      requires Valid()
      modifies List(w)
      ensures Valid() && Model() == old(Model()).With(w, CB.Step(old(Model()).Get(w), op))
    {
      ListValid(w);
      ModelGet();
      match op {
        case Add(args) => List(w).Add(args);
        case Remove(fn) => List(w).Remove(fn);
        case Empty => List(w).Empty();
        case Disable => List(w).Disable();
        case Lock => List(w).Lock();
        case FireWith(data) => List(w).FireWith(data);
        case Return(isFalse) => List(w).Return(isFalse);
      }
      OneList(w);
    }

    /** What one of the constructor's callbacks does. */
    method RunInternal(b: Internal, args: CB.Args)
      requires Valid()
      modifies this, Lists()
      ensures Valid() && Model() == Effect(old(Model()), b, args)
    {
      if !b.SetPhase? {
        ListValid(b.list);
      }
      match b
      case SetPhase(p) => phase := p;
      case DisableList(w) => ListDo(w, CB.Disable);
      case LockList(w) => ListDo(w, CB.Lock);
      case FireHandlers(w) =>
        ListDo(w, CB.FireWith(args));
        DrainList(w);
    }

    method RunningCall(w: Which) returns (call: Option<CB.Call>)
      requires Valid()
      ensures call == Current(Model().Get(w))
    {
      ModelGet();
      var c := List(w);
      call := if c.firing && c.calls != [] then Some(c.calls[|c.calls| - 1]) else None;
    }

    /** After a call or the end of list `w`: see DeferredModel.GoOn. */
    method Proceed(w: Which)
      requires Valid()
      modifies this, Lists()
      ensures Valid() && Model() == GoOn(old(Model()), w)
    {
      var over := false;
      while !over
        invariant Valid()
        invariant if over then Model() == GoOn(old(Model()), w) else GoOn(Model(), w) == GoOn(old(Model()), w)
        decreases !over, Model().Get(w).firing, |Model().Get(w).queue|, Left(Model().Get(w))
      {
        over := Turn(w);
      }
    }

    /** One turn of Proceed; it is over when an outside callback runs, or the list has come to its end. */
    method Turn(w: Which) returns (over: bool)
      requires Valid()
      modifies this, Lists()
      ensures Valid()
      ensures if over then Model() == GoOn(old(Model()), w) else GoOn(Model(), w) == GoOn(old(Model()), w)
      ensures var s, t := old(Model()).Get(w), Model().Get(w);
              over || (s.firing && (!t.firing || |t.queue| < |s.queue| ||
                                    (|t.queue| == |s.queue| && Left(t) < Left(s))))
    {
      var running := RunningCall(w);
      if running.None? {
        stack := if stack != [] then stack[..|stack| - 1] else [];
        return true;
      }
      var call := running.value;
      var b := Meaning(w, call.entry.fn);
      if b.None? {
        seen := seen + [Seen(w, call.entry.fn, phase)];
        return true;
      }
      Internally(w, b.value, if call.args.Some? then call.args.value else 0);
      over := false;
    }

    /** One of the constructor's callbacks runs and returns. */
    method Internally(w: Which, b: Internal, args: CB.Args)
      requires Valid() && Model().Get(w).firing && (b.SetPhase? || b.list != w)
      modifies this, Lists()
      ensures Valid() && var e := Effect(old(Model()), b, args); Model() == e.With(w, Resume(e.Get(w)))
      ensures old(Model()).Get(w).firing && Model().Get(w) == Resume(old(Model()).Get(w))
    {
      ModelGet();
      RunInternal(b, args);
      ListValid(w);
      ModelGet();
      ListDo(w, CB.Return(false));
    }

    method IsFiring(w: Which) returns (b: bool)
      requires Valid()
      ensures b == Model().Get(w).firing
    {
      ModelGet();
      b := List(w).firing;
    }

    /** An operation on list `w`, and whether it has started the list. */
    method Begin(w: Which, op: CB.Op) returns (started: bool)
      requires Valid()
      modifies this`stack, List(w)
      ensures Valid()
      ensures var d, e := old(Model()), old(Model()).With(w, CB.Step(old(Model()).Get(w), op));
              && started == (e.Get(w).firing && !d.Get(w).firing)
              && Model() == if started then e.(stack := d.stack + [w]) else e
    {
      var was := IsFiring(w);
      ListDo(w, op);
      var running := IsFiring(w);
      started := running && !was;
      if started {
        stack := stack + [w];
      }
    }

    /** An operation on list `w` that may start it. */
    method Operate(w: Which, op: CB.Op)
      requires Valid()
      modifies this, Lists()
      ensures Valid() && Model() == On(old(Model()), w, op)
    {
      ModelGet();
      var started := Begin(w, op);
      if started {
        Proceed(w);
      }
    }

    /** `resolveWith` and `rejectWith`. */
    method SettleWith(resolve: bool, data: CB.Args)
      requires Valid()
      modifies this, Lists()
      ensures Valid() && Model() == Step(old(Model()), Settle(resolve, data))
    {
      Operate(if resolve then Done else Fail, CB.FireWith(data));
    }

    method NotifyWith(data: CB.Args)
      requires Valid()
      modifies this, Lists()
      ensures Valid() && Model() == Step(old(Model()), Notify(data))
    {
      Operate(Progress, CB.FireWith(data));
    }

    /** `done`, `fail` and `progress`. */
    method Listen(w: Which, args: seq<CB.Arg>)
      requires Valid()
      modifies this, Lists()
      ensures Valid() && Model() == Step(old(Model()), AddTo(w, args))
    {
      Operate(w, CB.Add(args));
    }

    /** The three additions that `then` makes. */
    method Chain(onFulfilled: nat, onRejected: nat, onProgress: nat)
      requires Valid()
      modifies this, Lists()
      ensures Valid() && Model() == Step(old(Model()), Then(onFulfilled, onRejected, onProgress))
    {
      ListDo(ProgressHandlers, CB.Add([CB.Function(onProgress)]));
      DrainList(ProgressHandlers);
      ListDo(DoneHandlers, CB.Add([CB.Function(onFulfilled)]));
      DrainList(DoneHandlers);
      ListDo(FailHandlers, CB.Add([CB.Function(onRejected)]));
      DrainList(FailHandlers);
    }

    /** The callback that runs returns. */
    method ReturnFrom(isFalse: bool)
      requires Valid()
      modifies this, Lists()
      ensures Valid() && Model() == Step(old(Model()), Return(isFalse))
    {
      if stack != [] {
        var w := stack[|stack| - 1];
        ListValid(w);
        ListDo(w, CB.Return(isFalse));
        Proceed(w);
      }
    }
  }
}
