/** "memory" lists: each `fireWith` begins a round, and functions that are added later join the last round. */
module CallbacksMemory {
  import opened Options
  import opened CallbacksModel
  import opened CallbacksTheorems

  ghost predicate Memory(flags: Flags) {
    !flags.once && flags.memory && !flags.unique && !flags.stopOnFalse
  }

  /** A call of `fireWith`: its arguments, and how many functions had been added before. */
  datatype Fired = Fired(data: Args, before: nat)

  /** What an operation asks for, and what it adds. */
  function FiresBy(op: Op, before: nat): seq<Fired> {
    if op.FireWith? then [Fired(op.data, before)] else []
  }

  function AddsBy(op: Op): seq<nat> {
    if op.Add? then Flatten(op.args) else []
  }

  function Fires(ops: seq<Op>): seq<Fired> {
    if ops == [] then []
    else
      var front, last := ops[..|ops| - 1], ops[|ops| - 1];
      Fires(front) + FiresBy(last, |AddedFns(front)|)
  }

  /** The first `n` entries, called with `data`. */
  function Round(added: seq<Entry>, n: nat, data: Args): (r: seq<(Entry, Args)>)
    requires n <= |added|
    ensures |r| == n
  {
    seq(n, i requires 0 <= i < n => (added[i], data))
  }

  /** One size for each of the first rounds. */
  ghost predicate Fit(added: seq<Entry>, fires: seq<Fired>, sizes: seq<nat>) {
    |sizes| <= |fires| && forall k: nat | k < |sizes| :: sizes[k] <= |added|
  }

  /** Round after round, each from the first entry on: round `k` reaches as far as `sizes[k]`. */
  ghost function Rounds(added: seq<Entry>, fires: seq<Fired>, sizes: seq<nat>): seq<(Entry, Args)>
    requires Fit(added, fires, sizes)
  {
    if sizes == [] then []
    else
      var k := |sizes| - 1;
      Rounds(added, fires, sizes[..k]) + Round(added, sizes[k], fires[k].data)
  }

  ghost predicate CallsAre(calls: seq<Call>, want: seq<(Entry, Args)>) {
    |calls| == |want| && forall i: nat | i < |calls| :: calls[i].entry == want[i].0 && calls[i].args == Some(want[i].1)
  }

  /** The rounds that are over reached all that had been added when they were asked for. */
  ghost predicate RoundsWhole(fires: seq<Fired>, sizes: seq<nat>, over: nat) {
    over <= |sizes| <= |fires| && forall k: nat | k < over :: fires[k].before <= sizes[k]
  }

  /** `over` rounds are over; those asked for after the last one are in the queue. */
  ghost predicate InRounds(s: State, fires: seq<Fired>, sizes: seq<nat>, over: nat) {
    && s.list == Some(s.added) && !s.locked && Fit(s.added, fires, sizes)
    && (forall k: nat | k < |fires| :: fires[k].before <= |s.added|)
    && CallsAre(s.calls, Rounds(s.added, fires, sizes)) && RoundsWhole(fires, sizes, over)
    && |s.queue| == |fires| - |sizes| && (forall k: nat | k < |s.queue| :: s.queue[k] == fires[|sizes| + k].data)
    && s.memory == (if sizes == [] then None else Some(fires[|sizes| - 1].data))
  }

  /** A round is under way: it has reached the current entry. */
  ghost predicate Underway(s: State, fires: seq<Fired>, sizes: seq<nat>) {
    && s.firing && sizes != [] && InRounds(s, fires, sizes, |sizes| - 1)
    && sizes[|sizes| - 1] == s.firingIndex + 1
  }

  /** Between the steps of a run. When nothing runs, all rounds are over, and the last has reached everybody. */
  ghost predicate MemoryInv(s: State, fires: seq<Fired>, sizes: seq<nat>) {
    if s.firing then Underway(s, fires, sizes) && s.firingIndex >= 0
    else InRounds(s, fires, sizes, |sizes|) && s.queue == [] && s.firingIndex == -1 && LastReachesAll(s.added, sizes)
  }

  ghost predicate LastReachesAll(added: seq<Entry>, sizes: seq<nat>) {
    sizes != [] ==> sizes[|sizes| - 1] == |added|
  }

  /** What one step of `fire` does to the sizes, with somebody in the list: the last round goes on, or it was the
      last entry's turn, or the next round begins. */
  ghost predicate Advances(sizes: seq<nat>, sizes': seq<nat>, goesOn: bool) {
    if goesOn then (sizes != [] && sizes' == sizes[..|sizes| - 1] + [sizes[|sizes| - 1] + 1]) || sizes' == sizes + [1]
    else sizes' == sizes
  }

  // ----- rounds

  /** The call that is running. */
  lemma LastCall(s: State, fires: seq<Fired>, sizes: seq<nat>)
    requires Underway(s, fires, sizes) && s.firingIndex >= 0
    ensures s.calls != [] && |sizes| <= |fires| && s.firingIndex < |s.added|
    ensures var c := s.calls[|s.calls| - 1];
            c.entry == s.added[s.firingIndex] && c.args == Some(fires[|sizes| - 1].data)
  {
    var want, k := Rounds(s.added, fires, sizes), |sizes| - 1;
    assert want == Rounds(s.added, fires, sizes[..k]) + Round(s.added, sizes[k], fires[k].data);
    assert want[|want| - 1] == Round(s.added, sizes[k], fires[k].data)[sizes[k] - 1];
  }

  /** A round may be counted as asked for earlier than it was. */
  lemma {:induction false} SameRounds(added: seq<Entry>, fires: seq<Fired>, other: seq<Fired>, sizes: seq<nat>)
    requires Fit(added, fires, sizes) && |other| == |fires|
    requires forall k: nat | k < |fires| :: other[k].data == fires[k].data
    ensures Fit(added, other, sizes) && Rounds(added, other, sizes) == Rounds(added, fires, sizes)
  {
    if sizes != [] {
      SameRounds(added, fires, other, sizes[..|sizes| - 1]);
    }
  }

  lemma AskedEarlier(s: State, fires: seq<Fired>, other: seq<Fired>, sizes: seq<nat>)
    requires MemoryInv(s, fires, sizes) && |other| == |fires|
    requires forall k: nat | k < |fires| :: other[k].data == fires[k].data && other[k].before <= fires[k].before
    ensures MemoryInv(s, other, sizes)
  {
    SameRounds(s.added, fires, other, sizes);
  }

  lemma {:induction false} RoundsGrown(added: seq<Entry>, more: seq<Entry>, fires: seq<Fired>, later: seq<Fired>,
                                       sizes: seq<nat>)
    requires Fit(added, fires, sizes)
    ensures Fit(added + more, fires + later, sizes)
    ensures Rounds(added + more, fires + later, sizes) == Rounds(added, fires, sizes)
  {
    if sizes != [] {
      var k := |sizes| - 1;
      RoundsGrown(added, more, fires, later, sizes[..k]);
      assert Round(added + more, sizes[k], fires[k].data) == Round(added, sizes[k], fires[k].data);
    }
  }

  lemma NextInRound(added: seq<Entry>, fires: seq<Fired>, front: seq<nat>, n: nat)
    requires Fit(added, fires, front + [n]) && n < |added|
    ensures Fit(added, fires, front + [n + 1])
    ensures Rounds(added, fires, front + [n + 1]) ==
            Rounds(added, fires, front + [n]) + [(added[n], fires[|front|].data)]
  {
    var sizes, next, data := front + [n], front + [n + 1], fires[|front|].data;
    forall k: nat | k < |next| ensures next[k] <= |added| {
      assert k < |front| ==> next[k] == sizes[k];
    }
    assert sizes[..|front|] == front && next[..|front|] == front;
    assert Fit(added, fires, front) by {
      assert forall k: nat | k < |front| :: front[k] == sizes[k];
    }
    assert Rounds(added, fires, sizes) == Rounds(added, fires, front) + Round(added, n, data);
    assert Rounds(added, fires, next) == Rounds(added, fires, front) + Round(added, n + 1, data);
    assert Round(added, n + 1, data) == Round(added, n, data) + [(added[n], data)];
  }

  lemma NewRound(added: seq<Entry>, fires: seq<Fired>, sizes: seq<nat>)
    requires |sizes| < |fires| && Fit(added, fires, sizes)
    ensures Fit(added, fires, sizes + [0])
    ensures Rounds(added, fires, sizes + [0]) == Rounds(added, fires, sizes)
  {
    assert (sizes + [0])[..|sizes|] == sizes;
  }

  // ----- steps

  lemma CallsNext(s: State, fires: seq<Fired>, sizes: seq<nat>) returns (sizes': seq<nat>)
    requires Underway(s, fires, sizes) && s.firingIndex + 1 < |s.added|
    ensures Underway(CallNext(s), fires, sizes') && Advances(sizes, sizes', true)
  {
    var front, n := sizes[..|sizes| - 1], sizes[|sizes| - 1];
    sizes' := front + [n + 1];
    assert sizes == front + [n];
    NextInRound(s.added, fires, front, n);
    forall k: nat | k < |front| ensures sizes'[k] == sizes[k] {
    }
  }

  lemma RoundTurns(s: State, fires: seq<Fired>, sizes: seq<nat>) returns (sizes': seq<nat>)
    requires InRounds(s, fires, sizes, |sizes|) && s.firing && s.queue != [] && s.firingIndex == -1
    ensures Underway(NextPass(s), fires, sizes') && sizes' == sizes + [0]
  {
    sizes' := sizes + [0];
    NewRound(s.added, fires, sizes);
    var t := NextPass(s);
    forall k: nat | k < |t.queue| ensures t.queue[k] == fires[|sizes'| + k].data {
      assert t.queue[k] == s.queue[k + 1];
    }
  }

  /** The round under way has reached everybody. */
  lemma RoundOver(s: State, fires: seq<Fired>, sizes: seq<nat>)
    requires Underway(s, fires, sizes) && s.firingIndex + 1 == |s.added|
    ensures InRounds(EndPass(s), fires, sizes, |sizes|) && LastReachesAll(s.added, sizes)
  {
  }

  lemma {:induction false} RoundProceeds(s: State, fires: seq<Fired>, sizes: seq<nat>) returns (sizes': seq<nat>)
    requires Memory(s.flags) && Underway(s, fires, sizes)
    ensures MemoryInv(Proceed(s), fires, sizes') && Proceed(s).flags == s.flags && Proceed(s).added == s.added
    ensures s.added != [] ==> Advances(sizes, sizes', Proceed(s).firing)
    decreases |s.queue|
  {
    if s.firingIndex + 1 < |s.added| {
      sizes' := CallsNext(s, fires, sizes);
      assert Proceed(s) == CallNext(s);
    } else if s.queue == [] {
      sizes' := sizes;
      RoundOver(s, fires, sizes);
      assert Proceed(s) == Finish(EndPass(s));
    } else {
      var t := EndPass(s);
      RoundOver(s, fires, sizes);
      var more := RoundTurns(t, fires, sizes);
      assert Proceed(s) == Proceed(NextPass(t));
      sizes' := RoundProceeds(NextPass(t), fires, more);
      assert more[..|sizes|] == sizes;
    }
  }

  /** One more round is asked for. */
  lemma MoreAsked(s: State, data: Args, fires: seq<Fired>, sizes: seq<nat>, over: nat)
    requires InRounds(s, fires, sizes, over)
    ensures InRounds(s.(queue := s.queue + [data]), fires + [Fired(data, |s.added|)], sizes, over)
  {
    RoundsGrown(s.added, [], fires, [Fired(data, |s.added|)], sizes);
    assert s.added + [] == s.added;
  }

  lemma MemoryFire(s: State, data: Args, fires: seq<Fired>, sizes: seq<nat>) returns (sizes': seq<nat>)
    requires Memory(s.flags) && MemoryInv(s, fires, sizes)
    ensures var t := Step(s, FireWith(data));
            && MemoryInv(t, fires + [Fired(data, |s.added|)], sizes') && t.flags == s.flags && t.added == s.added
            && (s.firing ==> sizes' == sizes && t.firing)
            && (!s.firing && s.added != [] ==> sizes' == sizes + [1] && t.firing)
  {
    var fires' := fires + [Fired(data, |s.added|)];
    MoreAsked(s, data, fires, sizes, if s.firing then |sizes| - 1 else |sizes|);
    sizes' := sizes;
    if !s.firing {
      var t := s.(queue := s.queue + [data], fired := true, firing := true);
      var more := RoundTurns(t, fires', sizes);
      var u := NextPass(t);
      assert Step(s, FireWith(data)) == Proceed(u);
      sizes' := RoundProceeds(u, fires', more);
      if s.added != [] {
        assert Proceed(u) == CallNext(u);
        assert sizes' == sizes + [1] by {
          OneRound(sizes, more, sizes');
        }
      }
    }
  }

  lemma OneRound(sizes: seq<nat>, more: seq<nat>, sizes': seq<nat>)
    requires more == sizes + [0] && Advances(more, sizes', true) && |sizes'| == |more|
    ensures sizes' == sizes + [1]
  {
  }

  lemma MemoryAdd(s: State, fns: seq<nat>, fires: seq<Fired>, sizes: seq<nat>) returns (sizes': seq<nat>)
    requires Memory(s.flags) && MemoryInv(s, fires, sizes)
    ensures var t := AddStep(s, fns);
            && MemoryInv(t, fires, sizes') && t.flags == s.flags && s.added <= t.added
            && |t.added| == |s.added| + |fns| && (forall i: nat | i < |fns| :: t.added[|s.added| + i].fn == fns[i])
            && (s.firing || s.memory.None? ==> sizes' == sizes && t.firing == s.firing)
            && (!s.firing && t.added != [] ==> Advances(sizes, sizes', t.firing))
  {
    if s.memory.Some? && !s.firing {
      var t := s.(firingIndex := |s.list.value| - 1, queue := s.queue + [s.memory.value]);
      var more := PushAllAppends(t, fns);
      RoundsGrown(s.added, more, fires, [], sizes);
      assert fires + [] == fires;
      var u := NextPass(PushAll(t, fns).(fired := true, firing := true));
      assert u.queue == [];
      assert Underway(u, fires, sizes);
      assert AddStep(s, fns) == Proceed(u);
      sizes' := RoundProceeds(u, fires, sizes);
    } else {
      var more := PushAllAppends(s, fns);
      RoundsGrown(s.added, more, fires, [], sizes);
      assert fires + [] == fires;
      sizes' := sizes;
    }
  }

  lemma MemoryReturn(s: State, isFalse: bool, fires: seq<Fired>, sizes: seq<nat>) returns (sizes': seq<nat>)
    requires Memory(s.flags) && MemoryInv(s, fires, sizes)
    ensures var t := Step(s, Return(isFalse));
            && MemoryInv(t, fires, sizes') && t.flags == s.flags && t.added == s.added
            && (s.firing && s.added != [] ==> Advances(sizes, sizes', t.firing))
  {
    if s.firing {
      sizes' := RoundProceeds(s, fires, sizes);
    } else {
      sizes' := sizes;
    }
  }

  // ----- runs

  ghost predicate Took(added: seq<Entry>, fns: seq<nat>) {
    |added| == |fns| && forall i: nat | i < |fns| :: added[i].fn == fns[i]
  }

  lemma MemoryStep(s: State, op: Op, fires: seq<Fired>, sizes: seq<nat>, fns: seq<nat>) returns (sizes': seq<nat>)
    requires Memory(s.flags) && MemoryInv(s, fires, sizes) && Took(s.added, fns)
    requires op.Add? || op.FireWith? || op.Return?
    ensures MemoryInv(Step(s, op), fires + FiresBy(op, |fns|), sizes')
    ensures Step(s, op).flags == s.flags && Took(Step(s, op).added, fns + AddsBy(op))
  {
    assert fires + [] == fires && fns + [] == fns;
    match op
    case Add(args) =>
      sizes' := MemoryAdd(s, Flatten(args), fires, sizes);
      var t := Step(s, op);
      forall i: nat | i < |fns + Flatten(args)| ensures t.added[i].fn == (fns + Flatten(args))[i] {
        assert i >= |fns| ==> t.added[|s.added| + (i - |fns|)].fn == Flatten(args)[i - |fns|];
      }
    case FireWith(data) => sizes' := MemoryFire(s, data, fires, sizes);
    case Return(isFalse) => sizes' := MemoryReturn(s, isFalse, fires, sizes);
  }

  lemma {:induction false} MemoryRuns(flags: Flags, ops: seq<Op>) returns (sizes: seq<nat>)
    requires Memory(flags) && AddsOrFires(ops)
    ensures MemoryInv(Run(Initial(flags), ops), Fires(ops), sizes)
    ensures Run(Initial(flags), ops).flags == flags && Took(Run(Initial(flags), ops).added, AddedFns(ops))
    decreases |ops|
  {
    sizes := [];
    if ops != [] {
      var front, op := ops[..|ops| - 1], ops[|ops| - 1];
      var before := MemoryRuns(flags, front);
      sizes := MemoryStep(Run(Initial(flags), front), op, Fires(front), before, AddedFns(front));
    }
  }

  /** Every `fireWith` begins one round, in the order of the calls. A round calls the functions in the order of
      addition, each once, from the first on, with its arguments: all that had been added before it, and those
      added since, up to the next round. When nothing runs, all rounds are over and the last has reached everybody. */
  lemma EverybodyEveryRound(flags: Flags, ops: seq<Op>)
    requires Memory(flags) && AddsOrFires(ops)
    ensures var s := Run(Initial(flags), ops);
            Took(s.added, AddedFns(ops)) && exists sizes: seq<nat> ::
              && Fit(s.added, Fires(ops), sizes) && CallsAre(s.calls, Rounds(s.added, Fires(ops), sizes))
              && RoundsWhole(Fires(ops), sizes, if s.firing && sizes != [] then |sizes| - 1 else |sizes|)
              && (!s.firing ==> |sizes| == |Fires(ops)| && LastReachesAll(s.added, sizes))
  {
    var sizes := MemoryRuns(flags, ops);
  }
}
