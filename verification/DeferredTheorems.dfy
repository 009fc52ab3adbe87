/** What a deferred promises over all runs, whatever its callbacks do to it. */
module DeferredTheorems {
  import opened Options
  import CB = CallbacksModel
  import CT = CallbacksTheorems
  import opened DeferredModel

  // ----- progress: it may do as it likes, on its own

  /** Between steps: a running list is in a call, an idle list has no pass waiting, a locked one never has. */
  ghost predicate ProgressOk(s: CB.State) {
    && s.flags == MEMORY && (s.firing ==> s.calls != []) && (!s.firing ==> s.queue == []) &&
       (s.locked ==> s.queue == [])
  }

  lemma {:induction false} ProgressProceeds(s: CB.State)
    requires s.flags == MEMORY && s.firing && (s.locked ==> s.queue == [])
    ensures ProgressOk(CB.Proceed(s)) && CB.Proceed(s).locked == s.locked
    decreases |s.queue|
  {
    if 0 <= s.firingIndex + 1 < |s.Entries()| {
      assert CB.Proceed(s) == CB.CallNext(s);
    } else if s.queue == [] {
      assert CB.Proceed(s) == CB.Finish(CB.EndPass(s));
    } else {
      ProgressProceeds(CB.NextPass(CB.EndPass(s)));
    }
  }

  lemma ProgressFires(s: CB.State)
    requires s.flags == MEMORY && s.queue != [] && (s.locked ==> |s.queue| == 1)
    ensures ProgressOk(CB.Fire(s)) && CB.Fire(s).locked == s.locked
  {
    ProgressProceeds(CB.NextPass(s.(locked := s.locked || s.flags.once, fired := true, firing := true)));
  }

  lemma ProgressSteps(s: CB.State, op: CB.Op)
    requires ProgressOk(s) && (op.Add? || op.FireWith? || op.Return? || op.Lock?)
    ensures ProgressOk(CB.Step(s, op))
    ensures CB.Step(s, op).locked == (s.locked || op.Lock?)
    ensures op.Lock? ==> CB.Step(s, op).firing == s.firing
    ensures s.firing && !op.Return? ==> CB.Step(s, op).firing
  {
    match op
    case Add(args) =>
      var fns := CB.Flatten(args);
      if s.list.Some? {
        if s.memory.Some? && !s.firing {
          var t := s.(firingIndex := |s.list.value| - 1, queue := s.queue + [s.memory.value]);
          var new_ := CT.PushAllAppends(t, fns);
          ProgressFires(CB.PushAll(t, fns));
        } else {
          var new_ := CT.PushAllAppends(s, fns);
        }
      }
    case FireWith(data) =>
      if !s.locked && !s.firing {
        ProgressFires(s.(queue := s.queue + [data]));
      }
    case Return(_) =>
      if s.firing {
        ProgressProceeds(s);
      }
    case Lock =>
  }

  lemma {:induction false} DrainEnds(s: CB.State)
    ensures !Drain(s).firing
    decreases s.firing, |s.queue|, Left(s)
  {
    if s.firing {
      DrainEnds(Resume(s));
    }
  }

  lemma {:induction false} ProceedLocked(s: CB.State)
    ensures CB.Proceed(s).locked == s.locked
    decreases |s.queue|
  {
    if 0 <= s.firingIndex + 1 < |s.Entries()| {
    } else if s.queue != [] {
      ProceedLocked(CB.NextPass(CB.EndPass(s)));
    }
  }

  lemma {:induction false} DrainLocked(s: CB.State)
    requires s.locked
    ensures Drain(s).locked
    decreases s.firing, |s.queue|, Left(s)
  {
    if s.firing {
      ProceedLocked(s);
      DrainLocked(Resume(s));
    }
  }

  /** A locked handler list stays locked when it takes a function. */
  lemma TakesLocked(s: CB.State, fn: nat)
    requires s.locked
    ensures Drain(CB.Step(s, CB.Add([CB.Function(fn)]))).locked
  {
    var fns := CB.Flatten([CB.Function(fn)]);
    if s.list.Some? {
      if s.memory.Some? && !s.firing {
        var t := s.(firingIndex := |s.list.value| - 1, queue := s.queue + [s.memory.value]);
        var more := CT.PushAllAppends(t, fns);
        ProceedLocked(CB.NextPass(CB.PushAll(t, fns).(locked := true, fired := true, firing := true)));
      } else {
        var more := CT.PushAllAppends(s, fns);
      }
    }
    DrainLocked(CB.Step(s, CB.Add([CB.Function(fn)])));
  }

  /** Only the progress lists, the stack and the observations changed, and every observation is one of
      progress. */
  ghost predicate OnlyProgress(d: Deferred, e: Deferred) {
    && e.done == d.done && e.fail == d.fail && e.doneHandlers == d.doneHandlers && e.failHandlers == d.failHandlers
    && e.phase == d.phase && d.seen <= e.seen && (d.progressHandlers.locked ==> e.progressHandlers.locked)
    && forall i: nat | |d.seen| <= i < |e.seen| :: e.seen[i].list == Progress
  }

  /** One turn of GoOn on the progress list: its one internal callback fires the handlers. */
  lemma ProgressTurn(d: Deferred) returns (t: Deferred)
    requires ProgressOk(d.progress) && !d.progressHandlers.firing && Current(d.progress).Some?
    requires Meaning(Progress, Current(d.progress).value.entry.fn).Some?
    ensures OnlyProgress(d, t) && ProgressOk(t.progress) && t.progress.locked == d.progress.locked
    ensures !t.progressHandlers.firing && t.stack == d.stack && t.seen == d.seen
    ensures GoOn(d, Progress) == GoOn(t, Progress) && t.progress == Resume(d.progress) && d.progress.firing
  {
    var s := d.progress;
    var call := Current(s).value;
    var args := if call.args.Some? then call.args.value else 0;
    var e := Effect(d, FireHandlers(ProgressHandlers), args);
    DrainEnds(CB.Step(d.progressHandlers, CB.FireWith(args)));
    ProgressSteps(s, CB.Return(false));
    t := e.With(Progress, Resume(s));
  }

  lemma {:induction false} ProgressGoesOn(d: Deferred)
    requires ProgressOk(d.progress) && !d.progressHandlers.firing && d.stack != []
    ensures var e := GoOn(d, Progress);
            && OnlyProgress(d, e) && ProgressOk(e.progress) && e.progress.locked == d.progress.locked
            && !e.progressHandlers.firing
            && e.stack == if e.progress.firing then d.stack else d.stack[..|d.stack| - 1]
    decreases d.progress.firing, |d.progress.queue|, Left(d.progress)
  {
    var s := d.progress;
    var call := Current(s);
    if call.Some? && Meaning(Progress, call.value.entry.fn).Some? {
      var t := ProgressTurn(d);
      ProgressGoesOn(t);
    }
  }

  // ----- the two outcomes

  /** The list of an outcome: the constructor's six callbacks come first. */
  ghost predicate OutcomeOk(s: CB.State, first: Option<CB.Args>) {
    && s.flags == ONCE_MEMORY && CT.OnceInv(s, first) && |s.added| >= OWN
    && forall i: nat | i < |s.added| :: if i < OWN then s.added[i].fn == i else s.added[i].fn >= OWN
  }

  ghost predicate HandlersOk(s: CB.State, first: Option<CB.Args>) {
    s.flags == ONCE_MEMORY && CT.OnceInv(s, first) && !s.firing
  }

  /** Disabled before it ever ran. */
  ghost predicate Off(s: CB.State) {
    s.list == None && s.locked && s.queue == [] && !s.firing && s.calls == []
  }

  ghost predicate IsPending(d: Deferred) {
    && d.phase == Pending
    && OutcomeOk(d.done, None) && OutcomeOk(d.fail, None) && HandlersOk(d.doneHandlers, None) &&
       HandlersOk(d.failHandlers, None)
    && (forall i: nat | i < |d.seen| :: d.seen[i].list == Progress)
  }

  /** `w` won: its own callbacks all ran, the other outcome is off, and progress is locked. */
  ghost predicate IsSettled(d: Deferred, w: Which, data: CB.Args) {
    && (w.Done? || w.Fail?) && d.phase == PhaseOf(w)
    && OutcomeOk(d.Get(w), Some(data)) && |d.Get(w).calls| >= (if d.Get(w).firing then OWN + 1 else OWN)
    && HandlersOk(d.Get(Handlers(w)), Some(data))
    && Off(d.Get(Other(w))) && Off(d.Get(Handlers(Other(w)))) && d.progress.locked && d.progressHandlers.locked
    && (forall i: nat | i < |d.seen| ::
        d.seen[i].list == Progress || (d.seen[i].list == w && d.seen[i].phase == d.phase))
  }

  /** The stack holds exactly the running lists, once each. */
  ghost predicate StackOk(d: Deferred) {
    && (forall v: Which :: v in d.stack <==> d.Get(v).firing)
    && (forall i: nat, j: nat | i < j < |d.stack| :: d.stack[i] != d.stack[j])
  }

  ghost predicate Inv(d: Deferred) {
    && ProgressOk(d.progress) && StackOk(d) && !d.doneHandlers.firing && !d.failHandlers.firing &&
       !d.progressHandlers.firing
    && (IsPending(d) || exists w, data :: IsSettled(d, w, data))
  }

  // ----- settling

  /** The first `k` of the winner's callbacks took effect. */
  ghost predicate EffectsDone(d: Deferred, w: Which, data: CB.Args, k: nat) {
    && (w.Done? || w.Fail?) && ProgressOk(d.progress) && !d.progressHandlers.firing
    && d.phase == (if k >= 1 then PhaseOf(w) else Pending)
    && (if k >= 2 then Off(d.Get(Other(w))) else OutcomeOk(d.Get(Other(w)), None))
    && (if k >= 3 then Off(d.Get(Handlers(Other(w)))) else HandlersOk(d.Get(Handlers(Other(w))), None))
    && (k >= 4 ==> d.progress.locked) && (k >= 5 ==> d.progressHandlers.locked)
    && HandlersOk(d.Get(Handlers(w)), if k >= 6 then Some(data) else None)
  }

  lemma {:induction false} HandlersDrain(s: CB.State, data: CB.Args)
    requires s.flags == ONCE_MEMORY && CT.OnceInv(s, Some(data))
    ensures HandlersOk(Drain(s), Some(data))
    decreases s.firing, |s.queue|, Left(s)
  {
    if s.firing {
      CT.OnceStep(s, CB.Return(false), Some(data));
      HandlersDrain(Resume(s), data);
    }
  }

  lemma OneEffect(d: Deferred, w: Which, data: CB.Args, k: nat)
    requires k < OWN && EffectsDone(d, w, data, k)
    ensures EffectsDone(Effect(d, Meaning(w, k).value, data), w, data, k + 1)
    ensures Effect(d, Meaning(w, k).value, data).progress.firing == d.progress.firing
    ensures Effect(d, Meaning(w, k).value, data).Get(w) == d.Get(w)
  {
    if k == 3 {
      ProgressSteps(d.progress, CB.Lock);
    } else if k == 5 {
      CT.OnceStep(d.Get(Handlers(w)), CB.FireWith(data), None);
      HandlersDrain(CB.Step(d.Get(Handlers(w)), CB.FireWith(data)), data);
    }
  }

  /** The winner's list is at call number `k` (from 0); from OWN on it calls callbacks from outside, or
      is through. */
  ghost predicate AtCall(s: CB.State, data: CB.Args, k: nat) {
    OutcomeOk(s, Some(data)) &&
    if k < OWN then s.firing && |s.calls| == k + 1 else |s.calls| >= (if s.firing then OWN + 1 else OWN)
  }

  lemma WinnerCalls(s: CB.State, data: CB.Args, k: nat)
    requires AtCall(s, data, k) && s.firing
    ensures Current(s).Some? && Current(s).value.args == Some(data)
    ensures if k < OWN then Current(s).value.entry.fn == k else Current(s).value.entry.fn >= OWN
    ensures AtCall(Resume(s), data, k + 1)
  {
    assert s.calls[|s.calls| - 1].entry == s.added[|s.calls| - 1];
    CT.OnceStep(s, CB.Return(false), Some(data));
    if s.firingIndex + 1 < |s.list.value| {
      assert Resume(s) == CB.CallNext(s);
    } else {
      assert Resume(s) == CB.Finish(CB.EndPass(s));
    }
  }

  /** Everything about a settled deferred but the list of the winner itself. */
  lemma WinnerStops(d: Deferred, w: Which, data: CB.Args)
    requires EffectsDone(d, w, data, OWN) && d.stack != [] && AtCall(d.Get(w), data, OWN)
    requires forall i: nat | i < |d.seen| ::
             d.seen[i].list == Progress || (d.seen[i].list == w && d.seen[i].phase == d.phase)
    ensures var e := GoOn(d, w);
            && IsSettled(e, w, data) && e.progress == d.progress && e.progressHandlers == d.progressHandlers
            && e.stack == if e.Get(w).firing then d.stack else d.stack[..|d.stack| - 1]
  {
    var s := d.Get(w);
    if s.firing {
      WinnerCalls(s, data, OWN);
      var fn := Current(s).value.entry.fn;
      assert GoOn(d, w) == d.(seen := d.seen + [Seen(w, fn, d.phase)]);
    } else {
      assert GoOn(d, w) == d.(stack := d.stack[..|d.stack| - 1]);
    }
  }

  /** From the winner's `k`-th callback on, its pass runs until a callback from outside, or its end. */
  lemma {:induction false} WinnerGoesOn(d: Deferred, w: Which, data: CB.Args, k: nat)
    requires k <= OWN && EffectsDone(d, w, data, k) && d.stack != [] && AtCall(d.Get(w), data, k)
    requires forall i: nat | i < |d.seen| :: d.seen[i].list == Progress
    ensures var e := GoOn(d, w);
            && IsSettled(e, w, data) && ProgressOk(e.progress) && !e.progressHandlers.firing &&
               e.progress.firing == d.progress.firing
            && e.stack == if e.Get(w).firing then d.stack else d.stack[..|d.stack| - 1]
    decreases OWN - k
  {
    if k < OWN {
      WinnerCalls(d.Get(w), data, k);
      OneEffect(d, w, data, k);
      var e := Effect(d, Meaning(w, k).value, data);
      var t := e.With(w, Resume(e.Get(w)));
      assert GoOn(d, w) == GoOn(t, w);
      StillDone(e, w, data, k + 1, Resume(e.Get(w)));
      WinnerGoesOn(t, w, data, k + 1);
    } else {
      WinnerStops(d, w, data);
    }
  }

  lemma StillDone(d: Deferred, w: Which, data: CB.Args, k: nat, s: CB.State)
    requires EffectsDone(d, w, data, k)
    ensures EffectsDone(d.With(w, s), w, data, k) && d.With(w, s).progress == d.progress
  {
  }

  // ----- every step

  lemma {:induction false} ProceedCalls(s: CB.State)
    ensures s.calls <= CB.Proceed(s).calls
    ensures s.firing && CB.Proceed(s).firing ==> |s.calls| < |CB.Proceed(s).calls|
    decreases |s.queue|
  {
    if 0 <= s.firingIndex + 1 < |s.Entries()| {
    } else if s.queue != [] {
      ProceedCalls(CB.NextPass(CB.EndPass(s)));
    }
  }

  lemma OutcomeAdds(s: CB.State, fns: seq<nat>, first: Option<CB.Args>)
    requires OutcomeOk(s, first) && FromOutside(fns)
    requires first.Some? ==> AtCall(s, first.value, OWN)
    ensures OutcomeOk(CB.AddStep(s, fns), first) && (s.firing ==> CB.AddStep(s, fns).firing)
    ensures first.None? ==> !CB.AddStep(s, fns).firing
    ensures first.Some? ==> AtCall(CB.AddStep(s, fns), first.value, OWN)
  {
    CT.OnceAdd(s, fns, first);
    var t := CB.AddStep(s, fns);
    forall i: nat | i < |t.added| ensures if i < OWN then t.added[i].fn == i else t.added[i].fn >= OWN {
      assert i >= |s.added| ==> t.added[|s.added| + (i - |s.added|)].fn == fns[i - |s.added|];
    }
    if first.Some? && !s.firing {
      var u := s.(firingIndex := |s.list.value| - 1, queue := s.queue + [first.value]);
      var new_ := CT.PushAllAppends(u, fns);
      ProceedCalls(CB.NextPass(CB.PushAll(u, fns).(locked := true, fired := true, firing := true)));
    } else {
      var new_ := CT.PushAllAppends(s, fns);
    }
  }

  /** Changes to progress alone keep what is known about the outcomes. */
  lemma OutcomesKept(d: Deferred, e: Deferred)
    requires OnlyProgress(d, e) && (d.progress.locked ==> e.progress.locked)
    ensures IsPending(d) ==> IsPending(e)
    ensures forall w: Which, data | IsSettled(d, w, data) :: IsSettled(e, w, data)
  {
    forall i: nat | i < |e.seen| ensures i < |d.seen| ==> e.seen[i] == d.seen[i] {
    }
  }

  /** A list that was idle may be running on top of the stack now. */
  lemma StackGrows(d: Deferred, e: Deferred, w: Which)
    requires StackOk(d) && !d.Get(w).firing && forall v: Which | v != w :: e.Get(v).firing == d.Get(v).firing
    requires e.stack == if e.Get(w).firing then d.stack + [w] else d.stack
    ensures StackOk(e)
  {
    assert w !in d.stack;
  }

  /** The list on top of the stack may have come to its end. */
  lemma StackShrinks(d: Deferred, e: Deferred, w: Which)
    requires StackOk(d) && d.stack != [] && d.stack[|d.stack| - 1] == w
    requires forall v: Which | v != w :: e.Get(v).firing == d.Get(v).firing
    requires e.stack == if e.Get(w).firing then d.stack else d.stack[..|d.stack| - 1]
    ensures StackOk(e)
  {
    assert d.stack == d.stack[..|d.stack| - 1] + [w];
    assert w !in d.stack[..|d.stack| - 1];
  }

  lemma OnlyProgressFiring(d: Deferred, e: Deferred)
    requires OnlyProgress(d, e) && !d.progressHandlers.firing && !e.progressHandlers.firing
    ensures forall v: Which | v != Progress :: e.Get(v).firing == d.Get(v).firing
  {
    forall v: Which | v != Progress ensures e.Get(v).firing == d.Get(v).firing {
      match v
      case Done => case Fail => case Progress =>
      case DoneHandlers => case FailHandlers => case ProgressHandlers =>
    }
  }

  lemma ProgressOn(d: Deferred, op: CB.Op)
    requires Inv(d) && (op.Add? || op.FireWith?)
    ensures Inv(On(d, Progress, op)) && OnlyProgress(d, On(d, Progress, op)) &&
            (d.progress.locked ==> On(d, Progress, op).progress.locked)
  {
    var s, r := CB.Step(d.progress, op), On(d, Progress, op);
    var e := d.With(Progress, s);
    ProgressSteps(d.progress, op);
    if s.firing && !d.progress.firing {
      ProgressGoesOn(e.(stack := d.stack + [Progress]));
      assert (d.stack + [Progress])[..|d.stack|] == d.stack;
      OnlyProgressFiring(d, r);
      StackGrows(d, r, Progress);
    } else {
      OnlyProgressFiring(d, r);
      SameStack(d, r);
    }
    OutcomesKept(d, r);
  }

  lemma SameStack(d: Deferred, e: Deferred)
    requires StackOk(d) && e.stack == d.stack && forall v: Which :: e.Get(v).firing == d.Get(v).firing
    ensures StackOk(e)
  {
  }

  lemma ProgressReturns(d: Deferred, isFalse: bool)
    requires Inv(d) && d.stack != [] && d.stack[|d.stack| - 1] == Progress
    ensures var e := Step(d, Return(isFalse));
            Inv(e) && OnlyProgress(d, e) && (d.progress.locked ==> e.progress.locked)
  {
    var e := d.With(Progress, CB.Step(d.progress, CB.Return(isFalse)));
    ProgressSteps(d.progress, CB.Return(isFalse));
    ProgressGoesOn(e);
    var r := GoOn(e, Progress);
    assert r == Step(d, Return(isFalse));
    OnlyProgressFiring(d, r);
    StackShrinks(d, r, Progress);
    OutcomesKept(d, r);
  }

  lemma FireFirst(s: CB.State, data: CB.Args)
    requires OutcomeOk(s, None)
    ensures AtCall(CB.Step(s, CB.FireWith(data)), data, 0)
  {
    CT.OnceFire(s, data);
    var u := CB.NextPass(s.(queue := s.queue + [data], locked := true, fired := true, firing := true));
    assert CB.Step(s, CB.FireWith(data)) == CB.Proceed(u) == CB.CallNext(u);
  }

  /** The winner's list is started with everything else untouched. */
  lemma WinnerStarts(d: Deferred, w: Which, data: CB.Args) returns (e: Deferred)
    requires IsPending(d) && ProgressOk(d.progress) && !d.progressHandlers.firing && (w.Done? || w.Fail?)
    ensures On(d, w, CB.FireWith(data)) == GoOn(e, w) && e.stack == d.stack + [w] && e.seen == d.seen &&
            e.progress == d.progress
    ensures EffectsDone(e, w, data, 0) && AtCall(e.Get(w), data, 0)
  {
    var t := CB.Step(d.Get(w), CB.FireWith(data));
    FireFirst(d.Get(w), data);
    e := d.With(w, t).(stack := d.stack + [w]);
  }

  /** The first call of resolve or reject decides. */
  lemma FirstSettles(d: Deferred, resolve: bool, data: CB.Args)
    requires Inv(d) && IsPending(d)
    ensures var e := Step(d, Settle(resolve, data)); Inv(e) && IsSettled(e, if resolve then Done else Fail, data)
  {
    var w := if resolve then Done else Fail;
    var e := WinnerStarts(d, w, data);
    WinnerGoesOn(e, w, data, 0);
    var r := GoOn(e, w);
    assert e.stack[..|e.stack| - 1] == d.stack;
    SettledFiring(d, r, w, data);
    StackGrows(d, r, w);
    AssembleSettled(r, w, data);
  }

  lemma AssembleSettled(r: Deferred, w: Which, data: CB.Args)
    requires IsSettled(r, w, data) && StackOk(r) && ProgressOk(r.progress) && !r.progressHandlers.firing
    ensures Inv(r)
  {
  }

  lemma SettledFiring(d: Deferred, r: Deferred, w: Which, data: CB.Args)
    requires Inv(d) && IsPending(d) && IsSettled(r, w, data) && !r.progressHandlers.firing &&
             r.progress.firing == d.progress.firing
    ensures forall v: Which | v != w :: r.Get(v).firing == d.Get(v).firing
  {
    forall v: Which | v != w ensures r.Get(v).firing == d.Get(v).firing {
      match v
      case Done => case Fail => case Progress =>
      case DoneHandlers => case FailHandlers => case ProgressHandlers =>
    }
  }

  lemma PendingAdds(d: Deferred, w: Which, args: seq<CB.Arg>)
    requires Inv(d) && IsPending(d) && (w.Done? || w.Fail?) && FromOutside(CB.Flatten(args))
    ensures Inv(On(d, w, CB.Add(args))) && IsPending(On(d, w, CB.Add(args)))
  {
    OutcomeAdds(d.Get(w), CB.Flatten(args), None);
    var r := d.With(w, CB.Step(d.Get(w), CB.Add(args)));
    assert On(d, w, CB.Add(args)) == r;
    SameStack(d, r);
  }

  /** A settled deferred but for the winner's list, on which a call or the end of a pass is due. */
  ghost predicate Underway(d: Deferred, w: Which, data: CB.Args) {
    && EffectsDone(d, w, data, OWN) && AtCall(d.Get(w), data, OWN)
    && (forall i: nat | i < |d.seen| ::
        d.seen[i].list == Progress || (d.seen[i].list == w && d.seen[i].phase == d.phase))
  }

  lemma StillUnderway(d: Deferred, w: Which, data: CB.Args, s: CB.State)
    requires Inv(d) && IsSettled(d, w, data) && AtCall(s, data, OWN)
    ensures Underway(d.With(w, s), w, data) && d.With(w, s).progress == d.progress
  {
  }

  lemma NotFiringElsewhere(d: Deferred, r: Deferred, w: Which, data: CB.Args)
    requires Inv(d) && IsSettled(d, w, data) && IsSettled(r, w, data) && r.progress == d.progress &&
             r.progressHandlers == d.progressHandlers
    ensures forall v: Which | v != w :: r.Get(v).firing == d.Get(v).firing
  {
    forall v: Which | v != w ensures r.Get(v).firing == d.Get(v).firing {
      match v
      case Done => case Fail => case Progress =>
      case DoneHandlers => case FailHandlers => case ProgressHandlers =>
    }
  }

  lemma WinnerAdds(d: Deferred, w: Which, data: CB.Args, args: seq<CB.Arg>)
    requires Inv(d) && IsSettled(d, w, data) && FromOutside(CB.Flatten(args))
    ensures Inv(On(d, w, CB.Add(args))) && IsSettled(On(d, w, CB.Add(args)), w, data)
  {
    var s := CB.Step(d.Get(w), CB.Add(args));
    OutcomeAdds(d.Get(w), CB.Flatten(args), Some(data));
    StillUnderway(d, w, data, s);
    if s.firing && !d.Get(w).firing {
      WinnerFires(d, w, data, args);
    } else {
      WinnerWaits(d, w, data, args);
    }
  }

  lemma WinnerFires(d: Deferred, w: Which, data: CB.Args, args: seq<CB.Arg>)
    requires Inv(d) && IsSettled(d, w, data)
    requires var s := CB.Step(d.Get(w), CB.Add(args)); s.firing && !d.Get(w).firing && Underway(d.With(w, s), w, data)
    ensures Inv(On(d, w, CB.Add(args))) && IsSettled(On(d, w, CB.Add(args)), w, data)
  {
    var e := d.With(w, CB.Step(d.Get(w), CB.Add(args))).(stack := d.stack + [w]);
    var r := On(d, w, CB.Add(args));
    WinnerStops(e, w, data);
    assert e.stack[..|e.stack| - 1] == d.stack;
    NotFiringElsewhere(d, r, w, data);
    StackGrows(d, r, w);
    AssembleSettled(r, w, data);
  }

  lemma WinnerWaits(d: Deferred, w: Which, data: CB.Args, args: seq<CB.Arg>)
    requires Inv(d) && IsSettled(d, w, data)
    requires var s := CB.Step(d.Get(w), CB.Add(args)); (s.firing ==> d.Get(w).firing) && Underway(d.With(w, s), w, data)
    ensures Inv(On(d, w, CB.Add(args))) && IsSettled(On(d, w, CB.Add(args)), w, data)
  {
    var r := On(d, w, CB.Add(args));
    assert r == d.With(w, CB.Step(d.Get(w), CB.Add(args)));
    assert IsSettled(r, w, data);
    NotFiringElsewhere(d, r, w, data);
    SameStack(d, r);
    AssembleSettled(r, w, data);
  }

  lemma WinnerCallReturns(s: CB.State, data: CB.Args, isFalse: bool)
    requires AtCall(s, data, OWN) && s.firing
    ensures AtCall(CB.Step(s, CB.Return(isFalse)), data, OWN)
  {
    assert CB.Step(s, CB.Return(isFalse)) == Resume(s);
    WinnerCalls(s, data, OWN);
  }

  lemma WinnerReturns(d: Deferred, w: Which, data: CB.Args, isFalse: bool)
    requires Inv(d) && IsSettled(d, w, data) && d.stack != [] && d.stack[|d.stack| - 1] == w
    ensures Inv(Step(d, Return(isFalse))) && IsSettled(Step(d, Return(isFalse)), w, data)
  {
    assert w in d.stack && d.Get(w).firing;
    WinnerCallReturns(d.Get(w), data, isFalse);
    var e := d.With(w, CB.Step(d.Get(w), CB.Return(isFalse)));
    StillUnderway(d, w, data, e.Get(w));
    WinnerStops(e, w, data);
    var r := GoOn(e, w);
    assert r == Step(d, Return(isFalse));
    NotFiringElsewhere(d, r, w, data);
    StackShrinks(d, r, w);
    AssembleSettled(r, w, data);
  }

  /** A handler list takes a function from `then`. */
  lemma HandlerTaken(s: CB.State, fn: nat, first: Option<CB.Args>)
    requires HandlersOk(s, first)
    ensures HandlersOk(Drain(CB.Step(s, CB.Add([CB.Function(fn)]))), first)
  {
    CT.OnceStep(s, CB.Add([CB.Function(fn)]), first);
    var t := CB.Step(s, CB.Add([CB.Function(fn)]));
    if first.Some? {
      HandlersDrain(t, first.value);
    } else {
      assert Drain(t) == t;
    }
  }

  /** `then` reaches the handler lists only. */
  lemma ThenAdds(d: Deferred, f: nat, r: nat, p: nat)
    requires Inv(d)
    ensures var e := Step(d, Then(f, r, p));
            && Inv(e) && (IsPending(d) ==> IsPending(e)) &&
               (forall w: Which, data | IsSettled(d, w, data) :: IsSettled(e, w, data))
  {
    var e := Step(d, Then(f, r, p));
    assert e.done == d.done && e.fail == d.fail && e.progress == d.progress && e.stack == d.stack &&
           e.seen == d.seen && e.phase == d.phase;
    DrainEnds(CB.Step(d.progressHandlers, CB.Add([CB.Function(p)])));
    DrainEnds(CB.Step(d.doneHandlers, CB.Add([CB.Function(f)])));
    DrainEnds(CB.Step(d.failHandlers, CB.Add([CB.Function(r)])));
    forall v: Which ensures e.Get(v).firing == d.Get(v).firing {
      match v
      case Done => case Fail => case Progress =>
      case DoneHandlers => case FailHandlers => case ProgressHandlers =>
    }
    SameStack(d, e);
    if d.progressHandlers.locked {
      TakesLocked(d.progressHandlers, p);
    }
    if IsPending(d) {
      HandlerTaken(d.doneHandlers, f, None);
      HandlerTaken(d.failHandlers, r, None);
    }
    forall w: Which, data | IsSettled(d, w, data) ensures IsSettled(e, w, data) {
      HandlerTaken(d.Get(Handlers(w)), if w.Done? then f else r, Some(data));
      var o := d.Get(Handlers(Other(w)));
      assert Drain(o) == o;
    }
  }

  /** A list that was disabled takes nothing and calls nothing. */
  lemma OffStaysOff(s: CB.State, op: CB.Op)
    requires Off(s) && (op.Add? || op.FireWith?)
    ensures CB.Step(s, op) == s
  {
  }

  lemma Untouched(d: Deferred, w: Which, op: CB.Op)
    requires CB.Step(d.Get(w), op) == d.Get(w)
    ensures On(d, w, op) == d
  {
  }

  /** Settled is settled: resolve and reject change nothing, and notify calls nobody. */
  lemma SettledIsDeaf(d: Deferred, w: Which, data: CB.Args, op: Op)
    requires Inv(d) && IsSettled(d, w, data) && (op.Settle? || op.Notify?)
    ensures Step(d, op) == d
  {
    if op.Settle? {
      Untouched(d, if op.resolve then Done else Fail, CB.FireWith(op.data));
    } else {
      Untouched(d, Progress, CB.FireWith(op.data));
    }
  }

  lemma PendingStep(d: Deferred, op: Op)
    requires Inv(d) && IsPending(d) && Public(op)
    ensures Inv(Step(d, op))
    ensures !op.Settle? ==> IsPending(Step(d, op))
    ensures op.Settle? ==> IsSettled(Step(d, op), if op.resolve then Done else Fail, op.data)
  {
    match op
    case Settle(resolve, data) => FirstSettles(d, resolve, data);
    case Notify(data) =>
      ProgressOn(d, CB.FireWith(data));
      OutcomesKept(d, Step(d, op));
    case AddTo(w, args) =>
      if w.Progress? {
        ProgressOn(d, CB.Add(args));
        OutcomesKept(d, Step(d, op));
      } else {
        PendingAdds(d, w, args);
      }
    case Then(f, r, p) => ThenAdds(d, f, r, p);
    case Return(isFalse) =>
      if d.stack != [] {
        var w := d.stack[|d.stack| - 1];
        assert w in d.stack && d.Get(w).firing;
        assert w == Progress by {
          match w
          case Done => case Fail => case Progress =>
          case DoneHandlers => case FailHandlers => case ProgressHandlers =>
        }
        ProgressReturns(d, isFalse);
        OutcomesKept(d, Step(d, op));
      }
  }

  lemma SettledStep(d: Deferred, w: Which, data: CB.Args, op: Op)
    requires Inv(d) && IsSettled(d, w, data) && Public(op)
    ensures Inv(Step(d, op)) && IsSettled(Step(d, op), w, data)
  {
    match op
    case Settle(_, _) => SettledIsDeaf(d, w, data, op);
    case Notify(_) => SettledIsDeaf(d, w, data, op);
    case AddTo(v, args) =>
      if v.Progress? {
        ProgressOn(d, CB.Add(args));
        OutcomesKept(d, Step(d, op));
      } else if v == w {
        WinnerAdds(d, w, data, args);
      } else {
        OffStaysOff(d.Get(v), CB.Add(args));
        Untouched(d, v, CB.Add(args));
      }
    case Then(f, r, p) => ThenAdds(d, f, r, p);
    case Return(isFalse) =>
      if d.stack != [] {
        var v := d.stack[|d.stack| - 1];
        assert v in d.stack && d.Get(v).firing;
        assert v == Progress || v == w by {
          match v
          case Done => case Fail => case Progress =>
          case DoneHandlers => case FailHandlers => case ProgressHandlers =>
        }
        if v == w {
          WinnerReturns(d, w, data, isFalse);
        } else {
          ProgressReturns(d, isFalse);
          OutcomesKept(d, Step(d, op));
        }
      }
  }

  // ----- every run

  predicate AllPublic(ops: seq<Op>) {
    forall i: nat | i < |ops| :: Public(ops[i])
  }

  /** The first call of resolve or reject among the operations. */
  function Decision(ops: seq<Op>): (r: Option<Op>)
    ensures r.Some? ==> r.value.Settle?
  {
    if ops == [] then None
    else if Decision(ops[..|ops| - 1]).Some? then Decision(ops[..|ops| - 1])
    else if ops[|ops| - 1].Settle? then Some(ops[|ops| - 1]) else None
  }

  /** The calls of resolve and reject among the operations, in order. */
  function Settlements(ops: seq<Op>): seq<Op> {
    if ops == [] then []
    else
      var last := ops[|ops| - 1];
      Settlements(ops[..|ops| - 1]) + if last.Settle? then [last] else []
  }

  lemma {:induction false} FirstDecides(ops: seq<Op>)
    ensures Decision(ops) == if Settlements(ops) == [] then None else Some(Settlements(ops)[0])
    ensures forall i: nat | i < |Settlements(ops)| :: Settlements(ops)[i].Settle?
  {
    if ops != [] {
      FirstDecides(ops[..|ops| - 1]);
    }
  }

  lemma InitialOk()
    ensures Inv(Initial()) && IsPending(Initial())
  {
    var fns := seq(OWN, i requires 0 <= i => CB.Function(i));
    OwnFlatten(fns, OWN);
    var new_ := CT.PushAllAppends(CB.Initial(ONCE_MEMORY), CB.Flatten(fns));
    var own := seq(1, i requires 0 <= i => CB.Function(i));
    var more := CT.PushAllAppends(CB.Initial(MEMORY), CB.Flatten(own));
    var d := Initial();
    forall v: Which ensures !d.Get(v).firing {
      match v
      case Done => case Fail => case Progress =>
      case DoneHandlers => case FailHandlers => case ProgressHandlers =>
    }
  }

  lemma {:induction false} OwnFlatten(args: seq<CB.Arg>, n: nat)
    requires |args| <= n && forall i: nat | i < |args| :: args[i] == CB.Function(n - |args| + i)
    ensures |CB.Flatten(args)| == |args| && forall i: nat | i < |args| :: CB.Flatten(args)[i] == n - |args| + i
  {
    if args != [] {
      OwnFlatten(args[1..], n);
    }
  }

  lemma {:induction false} RunKeeps(ops: seq<Op>)
    requires AllPublic(ops)
    ensures Inv(Run(Initial(), ops))
    ensures match Decision(ops)
            case None => IsPending(Run(Initial(), ops))
            case Some(op) => IsSettled(Run(Initial(), ops), if op.resolve then Done else Fail, op.data)
  {
    if ops == [] {
      InitialOk();
    } else {
      var front, op := ops[..|ops| - 1], ops[|ops| - 1];
      RunKeeps(front);
      if Decision(front).None? {
        PendingStep(Run(Initial(), front), op);
      } else {
        var first := Decision(front).value;
        SettledStep(Run(Initial(), front), if first.resolve then Done else Fail, first.data, op);
      }
    }
  }

  /** Whatever is called in whatever order, also from inside callbacks: the first resolve or reject alone
      decides the state; done and fail callbacks never both run, and those that run see the final state;
      and every callback ever added to the list that won was called once, in order, with the value of
      that first call, as soon as that list is idle. */
  lemma Exclusive(ops: seq<Op>)
    requires AllPublic(ops)
    ensures var d := Run(Initial(), ops);
            match Decision(ops)
            case None =>
              && d.phase == Pending && d.done.calls == [] && d.fail.calls == []
              && forall i: nat | i < |d.seen| :: d.seen[i].list == Progress
            case Some(op) =>
              var w := if op.resolve then Done else Fail;
              && d.phase == PhaseOf(w) && |d.Get(w).calls| >= OWN
              && (forall i: nat | i < |d.seen| ::
                  d.seen[i].list != Other(w) && (d.seen[i].list == w ==> d.seen[i].phase == d.phase))
              && d.Get(Other(w)).calls == []
              && CT.CalledFirst(d.Get(w).calls, d.Get(w).added, op.data)
              && (!d.Get(w).firing ==> |d.Get(w).calls| == |d.Get(w).added|)
  {
    RunKeeps(ops);
  }
}
