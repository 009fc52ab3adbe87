/** Whom `notify` calls, and with what: the progress list, and the functions given to `then` for progress. */
module DeferredProgress {
  import opened Options
  import CB = CallbacksModel
  import opened CallbacksMemory
  import opened DeferredModel
  import opened DeferredTheorems
  import CT = CallbacksTheorems
  import DL = DeferredListeners

  /** A call of notify is a round, asked for when `before` functions were there. */
  function AskedBy(op: Op, before: nat): seq<Fired> {
    if op.Notify? then [Fired(op.data, before)] else []
  }

  /** The functions an operation gives to the progress list, and to `then` for progress. */
  function ListenersBy(op: Op): seq<nat> {
    if op.AddTo? && op.list == Progress then CB.Flatten(op.args) else []
  }

  function WatchersBy(op: Op): seq<nat> {
    if op.Then? then [op.onProgress] else []
  }

  /** The constructor's own function, which passes every round on, and the listeners. */
  function Everybody(ops: seq<Op>): seq<nat> {
    [0] + DL.Listeners(ops, Progress)
  }

  function Watchers(ops: seq<Op>): seq<nat> {
    if ops == [] then [] else Watchers(ops[..|ops| - 1]) + WatchersBy(ops[|ops| - 1])
  }

  /** The calls of notify, with the number of listeners then, and with the number of functions given to `then`. */
  function Notified(ops: seq<Op>): seq<Fired> {
    if ops == [] then []
    else
      var front := ops[..|ops| - 1];
      Notified(front) + AskedBy(ops[|ops| - 1], |Everybody(front)|)
  }

  function Watched(ops: seq<Op>): seq<Fired> {
    if ops == [] then []
    else
      var front := ops[..|ops| - 1];
      Watched(front) + AskedBy(ops[|ops| - 1], |Watchers(front)|)
  }

  /** The first function of the progress list is the constructor's, all others come from outside. */
  ghost predicate OwnFirst(added: seq<CB.Entry>) {
    added != [] && forall i: nat | i < |added| :: if i == 0 then added[i].fn == 0 else added[i].fn >= OWN
  }

  /** The progress list is in round `|sizes|`; of these rounds `passed` were passed on to the handlers. */
  ghost predicate Relayed(d: Deferred, fires: seq<Fired>, watched: seq<Fired>, sizes: seq<nat>, relayed: seq<nat>,
                          passed: nat) {
    && d.progress.flags == MEMORY && d.progressHandlers.flags == MEMORY && !d.progressHandlers.firing
    && OwnFirst(d.progress.added) && MemoryInv(d.progress, fires, sizes)
    && |watched| == |fires| && (forall k: nat | k < |fires| :: watched[k].data == fires[k].data)
    && (forall k: nat | k < |watched| :: watched[k].before <= |d.progressHandlers.added|)
    && passed <= |fires| && MemoryInv(d.progressHandlers, watched[..passed], relayed)
  }

  lemma {:induction false} DrainRounds(s: CB.State, fires: seq<Fired>, sizes: seq<nat>) returns (sizes': seq<nat>)
    requires Memory(s.flags) && MemoryInv(s, fires, sizes)
    ensures var t := Drain(s); MemoryInv(t, fires, sizes') && !t.firing && t.added == s.added && t.flags == s.flags
    decreases s.firing, |s.queue|, Left(s)
  {
    sizes' := sizes;
    if s.firing {
      var more := MemoryReturn(s, false, fires, sizes);
      sizes' := DrainRounds(Resume(s), fires, more);
    }
  }

  /** The handlers' list takes a round, and is through with it at once. */
  lemma HandlersRound(s: CB.State, data: CB.Args, watched: seq<Fired>, relayed: seq<nat>, passed: nat)
    returns (relayed': seq<nat>)
    requires s.flags == MEMORY && !s.firing && passed < |watched| && MemoryInv(s, watched[..passed], relayed)
    requires watched[passed].data == data && watched[passed].before <= |s.added|
    ensures var t := Drain(CB.Step(s, CB.FireWith(data)));
            && MemoryInv(t, watched[..passed + 1], relayed') && !t.firing && t.added == s.added && t.flags == s.flags
  {
    var asked := watched[..passed] + [Fired(data, |s.added|)];
    var more := MemoryFire(s, data, watched[..passed], relayed);
    var u := CB.Step(s, CB.FireWith(data));
    relayed' := DrainRounds(u, asked, more);
    AskedEarlier(Drain(u), asked, watched[..passed + 1], relayed');
  }

  /** How many rounds were passed on: all but one that is at its first call. */
  function PassedOf(s: CB.State, sizes: seq<nat>): int {
    if s.firing && sizes != [] && sizes[|sizes| - 1] < 2 then |sizes| - 1 else |sizes|
  }

  /** One turn of GoOn on the progress list: the round is passed on. */
  lemma PassOn(d: Deferred, fires: seq<Fired>, watched: seq<Fired>, sizes: seq<nat>, relayed: seq<nat>)
    returns (t: Deferred, sizes': seq<nat>, relayed': seq<nat>)
    requires d.progress.firing && sizes != [] && sizes[|sizes| - 1] == 1
    requires Relayed(d, fires, watched, sizes, relayed, |sizes| - 1)
    ensures Relayed(t, fires, watched, sizes', relayed', |sizes|) && |sizes| == PassedOf(t.progress, sizes')
    ensures GoOn(d, Progress) == GoOn(t, Progress) && t.progress == Resume(d.progress)
    ensures t.progress.added == d.progress.added && t.progressHandlers.added == d.progressHandlers.added
  {
    LastCall(d.progress, fires, sizes);
    var data := fires[|sizes| - 1].data;
    assert Current(d.progress).value.entry.fn == 0;
    relayed' := HandlersRound(d.progressHandlers, data, watched, relayed, |sizes| - 1);
    sizes' := MemoryReturn(d.progress, false, fires, sizes);
    t := Effect(d, FireHandlers(ProgressHandlers), data).With(Progress, Resume(d.progress));
  }

  lemma {:induction false} ProgressRelays(d: Deferred, fires: seq<Fired>, watched: seq<Fired>, sizes: seq<nat>,
                                          relayed: seq<nat>)
    returns (sizes': seq<nat>, relayed': seq<nat>)
    requires 0 <= PassedOf(d.progress, sizes) && Relayed(d, fires, watched, sizes, relayed, PassedOf(d.progress, sizes))
    requires d.progress.firing ==> sizes[|sizes| - 1] >= 1
    ensures var e := GoOn(d, Progress);
            && Relayed(e, fires, watched, sizes', relayed', |sizes'|) && PassedOf(e.progress, sizes') == |sizes'|
            && e.progress.added == d.progress.added && e.progressHandlers.added == d.progressHandlers.added
    decreases d.progress.firing, |d.progress.queue|, Left(d.progress)
  {
    if PassedOf(d.progress, sizes) < |sizes| {
      var t, more, passed := PassOn(d, fires, watched, sizes, relayed);
      sizes', relayed' := ProgressRelays(t, fires, watched, more, passed);
    } else {
      sizes', relayed' := sizes, relayed;
      if d.progress.firing {
        LastCall(d.progress, fires, sizes);
      }
    }
  }

  // ----- every step of a pending deferred

  /** What the progress lists were asked for and given. */
  datatype Asked = Asked(fires: seq<Fired>, watched: seq<Fired>, fns: seq<nat>, watchers: seq<nat>)

  function More(a: Asked, op: Op): Asked {
    Asked(a.fires + AskedBy(op, |a.fns|), a.watched + AskedBy(op, |a.watchers|),
          a.fns + ListenersBy(op), a.watchers + WatchersBy(op))
  }

  function AskedOf(ops: seq<Op>): Asked {
    Asked(Notified(ops), Watched(ops), Everybody(ops), Watchers(ops))
  }

  /** Between the steps all rounds begun were passed on. */
  ghost predicate Reached(d: Deferred, a: Asked, sizes: seq<nat>, relayed: seq<nat>) {
    && Relayed(d, a.fires, a.watched, sizes, relayed, |sizes|) && PassedOf(d.progress, sizes) == |sizes|
    && Took(d.progress.added, a.fns) && Took(d.progressHandlers.added, a.watchers)
  }

  lemma StillTook(added: seq<CB.Entry>, after: seq<CB.Entry>, fns: seq<nat>, more: seq<nat>)
    requires OwnFirst(added) && Took(added, fns) && FromOutside(more)
    requires added <= after && |after| == |added| + |more|
    requires forall i: nat | i < |more| :: after[|added| + i].fn == more[i]
    ensures OwnFirst(after) && Took(after, fns + more)
  {
    DL.TookMore(added, after, fns, more);
    forall i: nat | 0 < i < |after| ensures after[i].fn >= OWN {
      if i >= |added| {
        assert after[|added| + (i - |added|)].fn == more[i - |added|];
      }
    }
  }

  /** One more call of notify leaves the rounds that were passed on. */
  lemma MoreWatched(d: Deferred, s: CB.State, data: CB.Args, a: Asked, sizes: seq<nat>, sizes': seq<nat>,
                    relayed: seq<nat>)
    requires Reached(d, a, sizes, relayed) && s.added == d.progress.added && s.flags == MEMORY
    requires MemoryInv(s, a.fires + [Fired(data, |a.fns|)], sizes')
    ensures Relayed(d.With(Progress, s), a.fires + [Fired(data, |a.fns|)], a.watched + [Fired(data, |a.watchers|)],
                    sizes', relayed, |sizes|)
  {
    var watched := a.watched + [Fired(data, |a.watchers|)];
    assert watched[..|sizes|] == a.watched[..|sizes|];
  }

  /** `notify`. */
  lemma NotifyReaches(d: Deferred, data: CB.Args, a: Asked, sizes: seq<nat>, relayed: seq<nat>)
    returns (sizes': seq<nat>, relayed': seq<nat>)
    requires Reached(d, a, sizes, relayed)
    ensures Reached(Step(d, Notify(data)), More(a, Notify(data)), sizes', relayed')
  {
    var b := More(a, Notify(data));
    assert b.fns == a.fns && b.watchers == a.watchers;
    var s := CB.Step(d.progress, CB.FireWith(data));
    sizes' := MemoryFire(d.progress, data, a.fires, sizes);
    MoreWatched(d, s, data, a, sizes, sizes', relayed);
    relayed' := relayed;
    if !d.progress.firing {
      var e := d.With(Progress, s).(stack := d.stack + [Progress]);
      sizes', relayed' := ProgressRelays(e, b.fires, b.watched, sizes', relayed);
    }
  }

  /** The progress list changes, and everything else stays. */
  lemma OnlyThisList(d: Deferred, s: CB.State, fires: seq<Fired>, watched: seq<Fired>, sizes: seq<nat>,
                     sizes': seq<nat>, relayed: seq<nat>, passed: nat)
    requires Relayed(d, fires, watched, sizes, relayed, passed)
    requires s.flags == MEMORY && OwnFirst(s.added) && MemoryInv(s, fires, sizes')
    ensures Relayed(d.With(Progress, s), fires, watched, sizes', relayed, passed)
  {
  }

  /** New listeners join the round that is under way, or the last one, or wait for the first. */
  lemma ListenersJoin(s: CB.State, fires: seq<Fired>, sizes: seq<nat>, fns: seq<nat>, more: seq<nat>)
    returns (sizes': seq<nat>)
    requires s.flags == MEMORY && OwnFirst(s.added) && MemoryInv(s, fires, sizes) && PassedOf(s, sizes) == |sizes|
    requires Took(s.added, fns) && FromOutside(more)
    ensures var t := CB.AddStep(s, more);
            && t.flags == MEMORY && MemoryInv(t, fires, sizes') && |sizes'| == |sizes| == PassedOf(t, sizes')
            && OwnFirst(t.added) && Took(t.added, fns + more)
  {
    var t := CB.AddStep(s, more);
    sizes' := MemoryAdd(s, more, fires, sizes);
    assert !s.firing ==> |sizes| == |fires|;
    StillTook(s.added, t.added, fns, more);
  }

  lemma MoreListeners(d: Deferred, more: seq<nat>, a: Asked, sizes: seq<nat>, relayed: seq<nat>)
    returns (sizes': seq<nat>)
    requires Reached(d, a, sizes, relayed) && FromOutside(more)
    ensures var s := CB.AddStep(d.progress, more);
            && Relayed(d.With(Progress, s), a.fires, a.watched, sizes', relayed, |sizes'|)
            && PassedOf(s, sizes') == |sizes'| && Took(s.added, a.fns + more)
  {
    sizes' := ListenersJoin(d.progress, a.fires, sizes, a.fns, more);
    OnlyThisList(d, CB.AddStep(d.progress, more), a.fires, a.watched, sizes, sizes', relayed, |sizes|);
  }

  /** `progress`. */
  lemma ListenerReached(d: Deferred, args: seq<CB.Arg>, a: Asked, sizes: seq<nat>, relayed: seq<nat>)
    returns (sizes': seq<nat>, relayed': seq<nat>)
    requires Reached(d, a, sizes, relayed) && Public(AddTo(Progress, args))
    ensures Reached(Step(d, AddTo(Progress, args)), More(a, AddTo(Progress, args)), sizes', relayed')
  {
    var b, fns := More(a, AddTo(Progress, args)), CB.Flatten(args);
    assert b == a.(fns := a.fns + fns);
    var s := CB.AddStep(d.progress, fns);
    sizes' := MoreListeners(d, fns, a, sizes, relayed);
    var e := d.With(Progress, s);
    relayed' := relayed;
    if s.firing && !d.progress.firing {
      sizes', relayed' := ProgressRelays(e.(stack := d.stack + [Progress]), a.fires, a.watched, sizes', relayed);
    }
  }

  lemma WatcherJoins(s: CB.State, p: nat, fires: seq<Fired>, sizes: seq<nat>, fns: seq<nat>)
    returns (sizes': seq<nat>)
    requires s.flags == MEMORY && !s.firing && MemoryInv(s, fires, sizes) && Took(s.added, fns)
    ensures var t := Drain(CB.Step(s, CB.Add([CB.Function(p)])));
            && t.flags == MEMORY && !t.firing && MemoryInv(t, fires, sizes')
            && |s.added| <= |t.added| && Took(t.added, fns + [p])
  {
    assert CB.Flatten([CB.Function(p)]) == [p];
    var t := CB.Step(s, CB.Add([CB.Function(p)]));
    var more := MemoryAdd(s, [p], fires, sizes);
    sizes' := DrainRounds(t, fires, more);
    DL.TookMore(s.added, t.added, fns, [p]);
  }

  /** `then`. */
  lemma WatcherReached(d: Deferred, op: Op, a: Asked, sizes: seq<nat>, relayed: seq<nat>)
    returns (relayed': seq<nat>)
    requires op.Then? && Reached(d, a, sizes, relayed)
    ensures Reached(Step(d, op), More(a, op), sizes, relayed')
  {
    assert More(a, op) == a.(watchers := a.watchers + [op.onProgress]);
    relayed' := WatcherJoins(d.progressHandlers, op.onProgress, a.watched[..|sizes|], relayed, a.watchers);
    var e := Step(d, op);
    assert e.progress == d.progress;
    assert e.progressHandlers == Drain(CB.Step(d.progressHandlers, CB.Add([CB.Function(op.onProgress)])));
  }

  lemma AfterReturn(d: Deferred, isFalse: bool, a: Asked, sizes: seq<nat>, relayed: seq<nat>)
    returns (sizes': seq<nat>)
    requires Reached(d, a, sizes, relayed) && d.progress.firing
    ensures var s := CB.Step(d.progress, CB.Return(isFalse));
            && Relayed(d.With(Progress, s), a.fires, a.watched, sizes', relayed, |sizes|)
            && PassedOf(s, sizes') == |sizes| && (s.firing ==> sizes'[|sizes'| - 1] >= 1) && s.added == d.progress.added
  {
    var s := CB.Step(d.progress, CB.Return(isFalse));
    sizes' := MemoryReturn(d.progress, isFalse, a.fires, sizes);
    OnlyThisList(d, s, a.fires, a.watched, sizes, sizes', relayed, |sizes|);
  }

  /** A listener returns. */
  lemma ReturnReaches(d: Deferred, isFalse: bool, a: Asked, sizes: seq<nat>, relayed: seq<nat>)
    returns (sizes': seq<nat>, relayed': seq<nat>)
    requires Reached(d, a, sizes, relayed) && d.progress.firing && d.stack != [] && d.stack[|d.stack| - 1] == Progress
    ensures Reached(Step(d, Return(isFalse)), a, sizes', relayed')
  {
    var more := AfterReturn(d, isFalse, a, sizes, relayed);
    var e := d.With(Progress, CB.Step(d.progress, CB.Return(isFalse)));
    assert Step(d, Return(isFalse)) == GoOn(e, Progress);
    sizes', relayed' := ProgressRelays(e, a.fires, a.watched, more, relayed);
  }

  /** Any step of a pending deferred that does not settle it. */
  lemma StepReaches(d: Deferred, op: Op, a: Asked, sizes: seq<nat>, relayed: seq<nat>)
    returns (sizes': seq<nat>, relayed': seq<nat>)
    requires Inv(d) && IsPending(d) && Public(op) && !op.Settle? && Reached(d, a, sizes, relayed)
    ensures Reached(Step(d, op), More(a, op), sizes', relayed')
  {
    sizes', relayed' := sizes, relayed;
    match op
    case Notify(data) => sizes', relayed' := NotifyReaches(d, data, a, sizes, relayed);
    case Then(_, _, _) => relayed' := WatcherReached(d, op, a, sizes, relayed);
    case AddTo(w, args) =>
      if w.Progress? {
        sizes', relayed' := ListenerReached(d, args, a, sizes, relayed);
      } else {
        assert More(a, op) == a;
        OutcomeAdds(d.Get(w), CB.Flatten(args), None);
      }
    case Return(isFalse) =>
      assert More(a, op) == a;
      if d.stack != [] {
        TopIsProgress(d);
        sizes', relayed' := ReturnReaches(d, isFalse, a, sizes, relayed);
      }
  }

  lemma TopIsProgress(d: Deferred)
    requires Inv(d) && IsPending(d) && d.stack != []
    ensures d.stack[|d.stack| - 1] == Progress && d.progress.firing
  {
    var w := d.stack[|d.stack| - 1];
    assert w in d.stack && d.Get(w).firing;
    match w
    case Done => case Fail => case Progress =>
    case DoneHandlers => case FailHandlers => case ProgressHandlers =>
  }

  // ----- every run

  lemma InitialReached()
    ensures Reached(Initial(), AskedOf([]), [], [])
  {
    var own := seq(1, i requires 0 <= i => CB.Function(i));
    OwnFlatten(own, 1);
    var more := CT.PushAllAppends(CB.Initial(MEMORY), CB.Flatten(own));
  }

  lemma AskedMore(ops: seq<Op>)
    requires ops != []
    ensures AskedOf(ops) == More(AskedOf(ops[..|ops| - 1]), ops[|ops| - 1])
  {
    assert Everybody(ops) == Everybody(ops[..|ops| - 1]) + ListenersBy(ops[|ops| - 1]);
  }

  lemma {:induction false} RunReaches(ops: seq<Op>) returns (sizes: seq<nat>, relayed: seq<nat>)
    requires AllPublic(ops) && Decision(ops).None?
    ensures Reached(Run(Initial(), ops), AskedOf(ops), sizes, relayed)
  {
    if ops == [] {
      InitialReached();
      sizes, relayed := [], [];
    } else {
      var front, op := ops[..|ops| - 1], ops[|ops| - 1];
      sizes, relayed := RunReaches(front);
      RunKeeps(front);
      AskedMore(ops);
      sizes, relayed := StepReaches(Run(Initial(), front), op, AskedOf(front), sizes, relayed);
    }
  }

  /** The calls of a list, round after round; `whole` rounds reached all who were there when they were asked for. */
  ghost predicate CalledInRounds(s: CB.State, fns: seq<nat>, fires: seq<Fired>, sizes: seq<nat>, whole: nat) {
    && Took(s.added, fns) && Fit(s.added, fires, sizes) && CallsAre(s.calls, Rounds(s.added, fires, sizes))
    && RoundsWhole(fires, sizes, whole)
  }

  ghost predicate AllNotified(d: Deferred, a: Asked, sizes: seq<nat>, relayed: seq<nat>) {
    && |relayed| == |sizes| <= |a.fires| == |a.watched|
    && CalledInRounds(d.progress, a.fns, a.fires, sizes,
                      if d.progress.firing && sizes != [] then |sizes| - 1 else |sizes|)
    && CalledInRounds(d.progressHandlers, a.watchers, a.watched[..|sizes|], relayed, |sizes|)
    && LastReachesAll(d.progressHandlers.added, relayed)
    && (!d.progress.firing ==> |sizes| == |a.fires| && LastReachesAll(d.progress.added, sizes))
  }

  lemma ReachedAll(d: Deferred, a: Asked, sizes: seq<nat>, relayed: seq<nat>)
    requires Reached(d, a, sizes, relayed)
    ensures AllNotified(d, a, sizes, relayed)
  {
  }

  /** While the deferred is pending, every call of notify is a round, in the order of the calls, also of those made
      from inside callbacks: its data go to all listeners and to all functions given to `then` for progress, in the
      order in which they were handed over, each once; to those handed over later, too, until the next round. */
  lemma EverybodyNotified(ops: seq<Op>)
    requires AllPublic(ops) && Decision(ops).None?
    ensures exists sizes: seq<nat>, relayed: seq<nat> :: AllNotified(Run(Initial(), ops), AskedOf(ops), sizes, relayed)
  {
    var sizes, relayed := RunReaches(ops);
    ReachedAll(Run(Initial(), ops), AskedOf(ops), sizes, relayed);
  }
}
