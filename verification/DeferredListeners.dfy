/** Which listeners a deferred calls: all that were ever handed over, in their order. */
module DeferredListeners {
  import opened Options
  import CB = CallbacksModel
  import CT = CallbacksTheorems
  import CM = CallbacksMemory
  import opened DeferredModel
  import opened DeferredTheorems

  // ----- nothing but an addition adds

  lemma {:induction false} ProceedKeeps(s: CB.State)
    ensures CB.Proceed(s).added == s.added
    decreases |s.queue|
  {
    if 0 <= s.firingIndex + 1 < |s.Entries()| {
    } else if s.queue != [] {
      ProceedKeeps(CB.NextPass(CB.EndPass(s)));
    }
  }

  lemma FireKeeps(s: CB.State)
    requires s.queue != []
    ensures CB.Fire(s).added == s.added
  {
    ProceedKeeps(CB.NextPass(s.(locked := s.locked || s.flags.once, fired := true, firing := true)));
  }

  lemma StepKeeps(s: CB.State, op: CB.Op)
    requires !op.Add?
    ensures CB.Step(s, op).added == s.added
  {
    if op.FireWith? && !s.locked && !s.firing {
      FireKeeps(s.(queue := s.queue + [op.data]));
    }
    if op.Return? && s.firing {
      ProceedKeeps(if op.isFalse && s.flags.stopOnFalse then s.(firingIndex := |s.Entries()|, memory := None) else s);
    }
  }

  lemma {:induction false} DrainKeeps(s: CB.State)
    ensures Drain(s).added == s.added
    decreases s.firing, |s.queue|, Left(s)
  {
    if s.firing {
      StepKeeps(s, CB.Return(false));
      DrainKeeps(Resume(s));
    }
  }

  lemma EffectKeeps(d: Deferred, b: Internal, args: CB.Args, w: Which)
    ensures Effect(d, b, args).Get(w).added == d.Get(w).added
  {
    match b
    case SetPhase(_) =>
    case DisableList(v) => StepKeeps(d.Get(v), CB.Disable);
    case LockList(v) => StepKeeps(d.Get(v), CB.Lock);
    case FireHandlers(v) =>
      StepKeeps(d.Get(v), CB.FireWith(args));
      DrainKeeps(CB.Step(d.Get(v), CB.FireWith(args)));
  }

  /** One turn of GoOn. */
  lemma TurnKeeps(d: Deferred, v: Which, w: Which) returns (t: Deferred)
    requires Current(d.Get(v)).Some? && Meaning(v, Current(d.Get(v)).value.entry.fn).Some?
    ensures t.Get(w).added == d.Get(w).added && GoOn(d, v) == GoOn(t, v)
    ensures d.Get(v).firing && t.Get(v) == Resume(d.Get(v))
  {
    var call := Current(d.Get(v)).value;
    var b := Meaning(v, call.entry.fn).value;
    var args := if call.args.Some? then call.args.value else 0;
    EffectKeeps(d, b, args, w);
    StepKeeps(d.Get(v), CB.Return(false));
    t := Effect(d, b, args).With(v, Resume(d.Get(v)));
  }

  lemma {:induction false} GoOnKeeps(d: Deferred, v: Which, w: Which)
    ensures GoOn(d, v).Get(w).added == d.Get(w).added
    decreases d.Get(v).firing, |d.Get(v).queue|, Left(d.Get(v))
  {
    var call := Current(d.Get(v));
    if call.Some? && Meaning(v, call.value.entry.fn).Some? {
      var t := TurnKeeps(d, v, w);
      GoOnKeeps(t, v, w);
    }
  }

  lemma OnKeeps(d: Deferred, v: Which, op: CB.Op, w: Which)
    ensures On(d, v, op).Get(w).added == (if v == w then CB.Step(d.Get(v), op) else d.Get(w)).added
  {
    var e := d.With(v, CB.Step(d.Get(v), op));
    GoOnKeeps(e.(stack := d.stack + [v]), v, w);
  }

  // ----- what is added

  ghost predicate Extends(before: seq<CB.Entry>, after: seq<CB.Entry>, fns: seq<nat>) {
    && |after| == |before| + |fns| && before <= after
    && forall i: nat | i < |fns| :: after[|before| + i].fn == fns[i]
  }

  lemma AddExtends(s: CB.State, args: seq<CB.Arg>)
    requires s.list.Some? && !s.flags.unique
    ensures Extends(s.added, CB.Step(s, CB.Add(args)).added, CB.Flatten(args))
  {
    var fns := CB.Flatten(args);
    if s.memory.Some? && !s.firing {
      var t := s.(firingIndex := |s.list.value| - 1, queue := s.queue + [s.memory.value]);
      var more := CT.PushAllAppends(t, fns);
      FireKeeps(CB.PushAll(t, fns));
    } else {
      var more := CT.PushAllAppends(s, fns);
    }
  }

  /** The listeners that the operations hand to list `w`. */
  function Listeners(ops: seq<Op>, w: Which): seq<nat> {
    if ops == [] then []
    else
      var last := ops[|ops| - 1];
      Listeners(ops[..|ops| - 1], w) + if last.AddTo? && last.list == w then CB.Flatten(last.args) else []
  }

  lemma StepAdds(d: Deferred, op: Op, w: Which)
    requires (w.Done? || w.Fail?) && d.Get(w).list.Some? && !d.Get(w).flags.unique
    ensures Extends(d.Get(w).added, Step(d, op).Get(w).added,
                    if op.AddTo? && op.list == w then CB.Flatten(op.args) else [])
  {
    match op
    case Settle(resolve, data) =>
      var v := if resolve then Done else Fail;
      OnKeeps(d, v, CB.FireWith(data), w);
      StepKeeps(d.Get(v), CB.FireWith(data));
    case Notify(data) => OnKeeps(d, Progress, CB.FireWith(data), w);
    case AddTo(v, args) =>
      OnKeeps(d, v, CB.Add(args), w);
      if v == w {
        AddExtends(d.Get(w), args);
      }
    case Then(_, _, _) =>
    case Return(isFalse) =>
      if d.stack != [] {
        var v := d.stack[|d.stack| - 1];
        StepKeeps(d.Get(v), CB.Return(isFalse));
        GoOnKeeps(d.With(v, CB.Step(d.Get(v), CB.Return(isFalse))), v, w);
      }
  }

  lemma InitialAdded(w: Which)
    requires w.Done? || w.Fail?
    ensures |Initial().Get(w).added| == OWN
  {
    var fns := seq(OWN, i requires 0 <= i => CB.Function(i));
    OwnFlatten(fns, OWN);
    var more := CT.PushAllAppends(CB.Initial(ONCE_MEMORY), CB.Flatten(fns));
  }

  /** Behind the constructor's own functions stand `fns`. */
  ghost predicate Takes(added: seq<CB.Entry>, fns: seq<nat>) {
    |added| == OWN + |fns| && forall i: nat | i < |fns| :: added[OWN + i].fn == fns[i]
  }

  lemma TakesMore(before: seq<CB.Entry>, after: seq<CB.Entry>, fns: seq<nat>, more: seq<nat>)
    requires Takes(before, fns) && Extends(before, after, more)
    ensures Takes(after, fns + more)
  {
    forall i: nat | i < |fns + more| ensures after[OWN + i].fn == (fns + more)[i] {
      if i < |fns| {
        assert after[OWN + i] == before[OWN + i];
      } else {
        assert after[|before| + (i - |fns|)].fn == more[i - |fns|];
      }
    }
  }

  /** A pending list, and one that has won, takes what it is handed. */
  lemma ListIsOpen(ops: seq<Op>, w: Which)
    requires AllPublic(ops) && (w.Done? || w.Fail?)
    requires Decision(ops).Some? ==> w == if Decision(ops).value.resolve then Done else Fail
    ensures var s := Run(Initial(), ops).Get(w); s.list.Some? && !s.flags.unique
  {
    RunKeeps(ops);
  }

  lemma {:induction false} ListenersAdded(ops: seq<Op>, w: Which)
    requires AllPublic(ops) && (w.Done? || w.Fail?)
    requires Decision(ops).Some? ==> w == if Decision(ops).value.resolve then Done else Fail
    ensures Takes(Run(Initial(), ops).Get(w).added, Listeners(ops, w))
  {
    if ops == [] {
      InitialAdded(w);
    } else {
      var front, op := ops[..|ops| - 1], ops[|ops| - 1];
      ListenersAdded(front, w);
      ListIsOpen(front, w);
      StepTakes(Run(Initial(), front), op, w, Listeners(front, w));
    }
  }

  lemma StepTakes(d: Deferred, op: Op, w: Which, fns: seq<nat>)
    requires (w.Done? || w.Fail?) && d.Get(w).list.Some? && !d.Get(w).flags.unique && Takes(d.Get(w).added, fns)
    ensures Takes(Step(d, op).Get(w).added, fns + if op.AddTo? && op.list == w then CB.Flatten(op.args) else [])
  {
    StepAdds(d, op, w);
    TakesMore(d.Get(w).added, Step(d, op).Get(w).added, fns,
              if op.AddTo? && op.list == w then CB.Flatten(op.args) else []);
  }

  /** The winner's listeners, whenever they were handed over, are called once each, in their order, with the
      value of the first settlement; all of them, once the deferred is idle. */
  lemma EveryListenerCalled(ops: seq<Op>)
    requires AllPublic(ops) && Decision(ops).Some?
    ensures var first := Decision(ops).value;
            var w := if first.resolve then Done else Fail;
            var s, fns := Run(Initial(), ops).Get(w), Listeners(ops, w);
            && OWN <= |s.calls| <= OWN + |fns| && (!s.firing ==> |s.calls| == OWN + |fns|)
            && forall i: nat | OWN <= i < |s.calls| ::
                 s.calls[i].entry.fn == fns[i - OWN] && s.calls[i].args == Some(first.data)
  {
    var first := Decision(ops).value;
    var w := if first.resolve then Done else Fail;
    Exclusive(ops);
    ListenersAdded(ops, w);
    var s, fns := Run(Initial(), ops).Get(w), Listeners(ops, w);
    forall i: nat | OWN <= i < |s.calls| ensures s.calls[i].entry.fn == fns[i - OWN] {
      assert s.added[OWN + (i - OWN)].fn == fns[i - OWN];
    }
  }

  // ----- the functions given to `then`

  /** The function that a call of `then` gives for outcome `w`: the first argument if it is resolved, the second
      if it is rejected. */
  function GivenBy(op: Op, w: Which): seq<nat> {
    if !op.Then? then [] else if w.Done? then [op.onFulfilled] else [op.onRejected]
  }

  function Given(ops: seq<Op>, w: Which): seq<nat> {
    if ops == [] then [] else Given(ops[..|ops| - 1], w) + GivenBy(ops[|ops| - 1], w)
  }

  /** A handler list takes one function. */
  lemma HandlerExtends(s: CB.State, fn: nat)
    requires s.list.Some? && !s.flags.unique
    ensures Extends(s.added, Drain(CB.Step(s, CB.Add([CB.Function(fn)]))).added, [fn])
  {
    assert CB.Flatten([CB.Function(fn)]) == [fn];
    AddExtends(s, [CB.Function(fn)]);
    DrainKeeps(CB.Step(s, CB.Add([CB.Function(fn)])));
  }

  /** `then` gives the handlers of an outcome the function meant for it; no other operation gives them anything. */
  lemma StepGives(d: Deferred, op: Op, w: Which)
    requires Public(op) && (w.Done? || w.Fail?)
    requires d.Get(Handlers(w)).list.Some? && !d.Get(Handlers(w)).flags.unique
    ensures Extends(d.Get(Handlers(w)).added, Step(d, op).Get(Handlers(w)).added, GivenBy(op, w))
  {
    var h := Handlers(w);
    match op
    case Settle(resolve, data) => OnKeeps(d, if resolve then Done else Fail, CB.FireWith(data), h);
    case Notify(data) => OnKeeps(d, Progress, CB.FireWith(data), h);
    case AddTo(v, args) => OnKeeps(d, v, CB.Add(args), h);
    case Then(f, r, p) => HandlerExtends(d.Get(h), if w.Done? then f else r);
    case Return(isFalse) =>
      if d.stack != [] {
        var v := d.stack[|d.stack| - 1];
        StepKeeps(d.Get(v), CB.Return(isFalse));
        GoOnKeeps(d.With(v, CB.Step(d.Get(v), CB.Return(isFalse))), v, h);
      }
  }

  lemma TookMore(before: seq<CB.Entry>, after: seq<CB.Entry>, fns: seq<nat>, more: seq<nat>)
    requires CM.Took(before, fns) && Extends(before, after, more)
    ensures CM.Took(after, fns + more)
  {
    forall i: nat | i < |fns + more| ensures after[i].fn == (fns + more)[i] {
      if i < |fns| {
        assert after[i] == before[i];
      } else {
        assert after[|before| + (i - |fns|)].fn == more[i - |fns|];
      }
    }
  }

  lemma HandlersAreOpen(ops: seq<Op>, w: Which)
    requires AllPublic(ops) && (w.Done? || w.Fail?)
    requires Decision(ops).Some? ==> w == if Decision(ops).value.resolve then Done else Fail
    ensures var s := Run(Initial(), ops).Get(Handlers(w)); s.list.Some? && !s.flags.unique
  {
    RunKeeps(ops);
  }

  lemma {:induction false} HandlersGiven(ops: seq<Op>, w: Which)
    requires AllPublic(ops) && (w.Done? || w.Fail?)
    requires Decision(ops).Some? ==> w == if Decision(ops).value.resolve then Done else Fail
    ensures CM.Took(Run(Initial(), ops).Get(Handlers(w)).added, Given(ops, w))
  {
    if ops == [] {
      assert Run(Initial(), ops).Get(Handlers(w)).added == [];
    } else {
      var front, op := ops[..|ops| - 1], ops[|ops| - 1];
      HandlersGiven(front, w);
      HandlersAreOpen(front, w);
      var d := Run(Initial(), front);
      StepGives(d, op, w);
      TookMore(d.Get(Handlers(w)).added, Step(d, op).Get(Handlers(w)).added, Given(front, w), GivenBy(op, w));
    }
  }

  /** Of the functions given to `then`, before or after the settlement, those for the outcome of the first settlement
      have all been called, in the order of the calls of `then`, each once, with its value; the others never. While
      nothing is settled, none is called. */
  lemma EveryHandlerCalled(ops: seq<Op>)
    requires AllPublic(ops)
    ensures var d := Run(Initial(), ops);
            match Decision(ops)
            case None => d.doneHandlers.calls == [] && d.failHandlers.calls == []
            case Some(first) =>
              var w := if first.resolve then Done else Fail;
              var calls, fns := d.Get(Handlers(w)).calls, Given(ops, w);
              && d.Get(Handlers(Other(w))).calls == [] && |calls| == |fns|
              && forall i: nat | i < |calls| :: calls[i].entry.fn == fns[i] && calls[i].args == Some(first.data)
  {
    RunKeeps(ops);
    if Decision(ops).Some? {
      HandlersGiven(ops, if Decision(ops).value.resolve then Done else Fail);
    }
  }
}
