/** What the flags `unique` and `stopOnFalse` and the methods `disable` and `lock` promise, whatever follows. */
module CallbacksFlags {
  import opened Options
  import opened CallbacksModel

  /** All calls made since `before` are made in passes behind number `k`. */
  ghost predicate CallsBeyond(before: seq<Call>, after: seq<Call>, k: nat) {
    before <= after && forall i: nat | |before| <= i < |after| :: after[i].pass > k
  }

  /** All calls made since `before` are made with `value`. */
  ghost predicate CallsWith(before: seq<Call>, after: seq<Call>, value: Option<Args>) {
    before <= after && forall i: nat | |before| <= i < |after| :: after[i].args == value
  }

  // ----- unique

  /** No function stands in the list twice. */
  ghost predicate NoneTwice(list: seq<Entry>) {
    forall i: nat, j: nat | i < j < |list| :: list[i].fn != list[j].fn
  }

  lemma {:induction false} PushedOnce(s: State, fns: seq<nat>)
    requires s.list.Some? && s.flags.unique && NoneTwice(s.list.value)
    ensures NoneTwice(PushAll(s, fns).list.value) && s.list.value <= PushAll(s, fns).list.value
    ensures forall i: nat | i < |fns| :: Holds(PushAll(s, fns).list.value, fns[i])
    ensures PushAll(s, fns).flags == s.flags
    decreases |fns|
  {
    if fns != [] {
      var t := Push(s, fns[0]);
      assert Holds(t.list.value, fns[0]) by {
        if t != s {
          assert t.list.value[|s.list.value|].fn == fns[0];
        }
      }
      PushedOnce(t, fns[1..]);
      var j: nat :| j < |t.list.value| && t.list.value[j].fn == fns[0];
      assert PushAll(s, fns).list.value[j].fn == fns[0];
      forall i: nat | 0 < i < |fns| ensures Holds(PushAll(s, fns).list.value, fns[i]) {
        assert fns[i] == fns[1..][i - 1];
      }
    }
  }

  lemma {:induction false} WithoutTwice(list: seq<Entry>, fn: nat)
    requires NoneTwice(list)
    ensures NoneTwice(Without(list, fn)) && forall e | e in Without(list, fn) :: e in list
  {
    if list != [] {
      var front := list[..|list| - 1];
      WithoutTwice(front, fn);
      forall e | e in Without(front, fn) ensures e.fn != list[|list| - 1].fn {
        var i: nat :| i < |front| && front[i] == e;
      }
    }
  }

  lemma {:induction false} ProceedUnique(s: State)
    requires NoneTwice(s.Entries())
    ensures NoneTwice(Proceed(s).Entries()) && Proceed(s).flags == s.flags
    decreases |s.queue|
  {
    if 0 <= s.firingIndex + 1 < |s.Entries()| {
    } else if s.queue != [] {
      ProceedUnique(NextPass(EndPass(s)));
    }
  }

  lemma StepUnique(s: State, op: Op)
    requires s.flags.unique && NoneTwice(s.Entries())
    ensures NoneTwice(Step(s, op).Entries()) && Step(s, op).flags == s.flags
  {
    match op
    case Add(args) =>
      if s.list.Some? {
        if s.memory.Some? && !s.firing {
          var t := s.(firingIndex := |s.list.value| - 1, queue := s.queue + [s.memory.value]);
          PushedOnce(t, Flatten(args));
          var u := PushAll(t, Flatten(args));
          ProceedUnique(NextPass(u.(locked := u.locked || u.flags.once, fired := true, firing := true)));
        } else {
          PushedOnce(s, Flatten(args));
        }
      }
    case Remove(fn) => WithoutTwice(s.Entries(), fn);
    case FireWith(data) =>
      if !s.locked && !s.firing {
        var u := s.(queue := s.queue + [data]);
        ProceedUnique(NextPass(u.(locked := u.locked || u.flags.once, fired := true, firing := true)));
      }
    case Return(isFalse) =>
      if s.firing {
        ProceedUnique(if isFalse && s.flags.stopOnFalse then s.(firingIndex := |s.Entries()|, memory := None) else s);
      }
    case Empty => case Disable => case Lock =>
  }

  /** "unique": in every run, no function stands in the list twice; and one that is handed over while nothing
      replays stands in it then. */
  lemma {:induction false} UniqueRuns(flags: Flags, ops: seq<Op>)
    requires flags.unique
    ensures var s := Run(Initial(flags), ops);
            && NoneTwice(s.Entries()) && s.flags == flags
            && forall fns: seq<nat>, i: nat {:trigger AddStep(s, fns), fns[i]} | i < |fns| && s.list.Some? &&
                  (s.memory.None? || s.firing) ::
                 Holds(AddStep(s, fns).Entries(), fns[i])
    decreases |ops|
  {
    if ops != [] {
      UniqueRuns(flags, ops[..|ops| - 1]);
      StepUnique(Run(Initial(flags), ops[..|ops| - 1]), ops[|ops| - 1]);
    }
    var s := Run(Initial(flags), ops);
    forall fns: seq<nat>, i: nat | i < |fns| && s.list.Some? && (s.memory.None? || s.firing)
      ensures Holds(AddStep(s, fns).Entries(), fns[i])
    {
      PushedOnce(s, fns);
    }
  }

  // ----- stopOnFalse

  /** Pass number `k` is over. */
  ghost predicate PassOver(s: State, k: nat) {
    |s.passes| >= k && (s.firing ==> |s.passes| > k)
  }

  lemma {:induction false} ProceedBeyond(s: State, k: nat)
    requires |s.passes| > k || (|s.passes| == k && !(0 <= s.firingIndex + 1 < |s.Entries()|))
    ensures PassOver(Proceed(s), k) && CallsBeyond(s.calls, Proceed(s).calls, k)
    decreases |s.queue|
  {
    if 0 <= s.firingIndex + 1 < |s.Entries()| {
    } else if s.queue != [] {
      ProceedBeyond(NextPass(EndPass(s)), k);
    }
  }

  lemma {:induction false} PushKeeps(s: State, fns: seq<nat>)
    requires s.list.Some?
    ensures var t := PushAll(s, fns);
            && t.calls == s.calls && t.passes == s.passes && t.locked == s.locked && t.flags == s.flags
            && t.firingIndex == s.firingIndex && t.fired == s.fired
    decreases |fns|
  {
    if fns != [] {
      PushKeeps(Push(s, fns[0]), fns[1..]);
    }
  }

  lemma StepBeyond(s: State, op: Op, k: nat)
    requires PassOver(s, k)
    ensures PassOver(Step(s, op), k) && CallsBeyond(s.calls, Step(s, op).calls, k)
  {
    match op
    case Add(args) =>
      if s.list.Some? {
        if s.memory.Some? && !s.firing {
          var t := s.(firingIndex := |s.list.value| - 1, queue := s.queue + [s.memory.value]);
          PushKeeps(t, Flatten(args));
          var u := PushAll(t, Flatten(args));
          ProceedBeyond(NextPass(u.(locked := u.locked || u.flags.once, fired := true, firing := true)), k);
        } else {
          PushKeeps(s, Flatten(args));
        }
      }
    case FireWith(data) =>
      if !s.locked && !s.firing {
        var u := s.(queue := s.queue + [data]);
        ProceedBeyond(NextPass(u.(locked := u.locked || u.flags.once, fired := true, firing := true)), k);
      }
    case Return(isFalse) =>
      if s.firing {
        ProceedBeyond(if isFalse && s.flags.stopOnFalse then s.(firingIndex := |s.Entries()|, memory := None) else s,
                      k);
      }
    case Remove(_) => case Empty => case Disable => case Lock =>
  }

  lemma {:induction false} RunBeyond(s: State, ops: seq<Op>, k: nat)
    requires PassOver(s, k)
    ensures PassOver(Run(s, ops), k) && CallsBeyond(s.calls, Run(s, ops).calls, k)
    decreases |ops|
  {
    if ops != [] {
      RunBeyond(s, ops[..|ops| - 1], k);
      StepBeyond(Run(s, ops[..|ops| - 1]), ops[|ops| - 1], k);
    }
  }

  /** "stopOnFalse": when a callback returns false, its pass calls nobody any more, whatever follows; when it returns
      anything else, or the flag is not set, the next entry is called with the same arguments. */
  lemma StopsOnFalse(flags: Flags, before: seq<Op>, isFalse: bool, after: seq<Op>)
    requires Run(Initial(flags), before).firing
    ensures var s := Run(Initial(flags), before);
            var t := Step(s, Return(isFalse));
            if isFalse && s.flags.stopOnFalse then CallsBeyond(s.calls, Run(t, after).calls, |s.passes|)
            else 0 <= s.firingIndex + 1 < |s.Entries()| ==>
                 t.calls == s.calls + [Call(s.Entries()[s.firingIndex + 1], s.memory, |s.passes|)]
  {
    var s := Run(Initial(flags), before);
    RunsAreSound(flags, before);
    if isFalse && s.flags.stopOnFalse {
      ProceedBeyond(s.(firingIndex := |s.Entries()|, memory := None), |s.passes|);
      RunBeyond(Step(s, Return(isFalse)), after, |s.passes|);
    }
  }

  // ----- disable and lock

  /** True of every state that can be reached. */
  ghost predicate Sound(s: State) {
    && s.firingIndex >= -1 && (s.list.None? ==> s.memory.None? && s.locked)
    && (s.firing && s.list.Some? ==> s.memory.Some?) && (s.locked || !s.firing ==> s.queue == [])
    && (s.fired <==> s.passes != []) && (s.firing ==> s.fired)
  }

  lemma {:induction false} ProceedSound(s: State)
    requires s.firing && s.firingIndex >= -1 && (s.list.None? ==> s.memory.None? && s.locked)
    requires s.locked ==> s.queue == []
    requires s.list.Some? ==> s.memory.Some? || s.firingIndex >= |s.list.value|
    requires s.fired && s.passes != []
    ensures Sound(Proceed(s))
    decreases |s.queue|
  {
    if 0 <= s.firingIndex + 1 < |s.Entries()| {
    } else if s.queue != [] {
      ProceedSound(NextPass(EndPass(s)));
    }
  }

  lemma StepSound(s: State, op: Op)
    requires Sound(s)
    ensures Sound(Step(s, op))
  {
    match op
    case Add(args) =>
      if s.list.Some? {
        if s.memory.Some? && !s.firing {
          var t := s.(firingIndex := |s.list.value| - 1, queue := s.queue + [s.memory.value]);
          PushKeeps(t, Flatten(args));
          var u := PushAll(t, Flatten(args));
          ProceedSound(NextPass(u.(locked := u.locked || u.flags.once, fired := true, firing := true)));
        } else {
          PushKeeps(s, Flatten(args));
        }
      }
    case FireWith(data) =>
      if !s.locked && !s.firing {
        var u := s.(queue := s.queue + [data]);
        ProceedSound(NextPass(u.(locked := u.locked || u.flags.once, fired := true, firing := true)));
      }
    case Return(isFalse) =>
      if s.firing {
        ProceedSound(if isFalse && s.flags.stopOnFalse then s.(firingIndex := |s.Entries()|, memory := None) else s);
      }
    case Remove(_) => case Empty => case Disable => case Lock =>
  }

  /** Among others: `fired` tells whether a pass was ever begun. */
  lemma {:induction false} RunsAreSound(flags: Flags, ops: seq<Op>)
    ensures Sound(Run(Initial(flags), ops))
    decreases |ops|
  {
    if ops != [] {
      RunsAreSound(flags, ops[..|ops| - 1]);
      StepSound(Run(Initial(flags), ops[..|ops| - 1]), ops[|ops| - 1]);
    }
  }

  /** Nobody new is let in, and whoever is still called is called with `value`. */
  ghost predicate Frozen(s: State, value: Option<Args>) {
    Sound(s) && s.locked && (s.list.Some? ==> s.memory.None? || s.memory == value)
  }

  lemma ProceedFrozen(s: State, value: Option<Args>)
    requires s.locked && s.queue == [] && s.firingIndex >= -1 && (s.list.None? ==> s.memory.None?)
    requires s.list.Some? ==> s.memory == value || s.firingIndex >= |s.list.value|
    requires s.memory.None? || s.memory == value
    ensures var t := Proceed(s);
            && t.locked && (t.list.Some? ==> t.memory.None? || t.memory == value)
            && CallsWith(s.calls, t.calls, value) && (s.list.None? ==> t.list.None?)
  {
  }

  lemma StepFrozen(s: State, op: Op, value: Option<Args>)
    requires Frozen(s, value)
    ensures Frozen(Step(s, op), value) && CallsWith(s.calls, Step(s, op).calls, value)
    ensures s.list.None? ==> Step(s, op).list.None? && Step(s, op).calls == s.calls
  {
    StepSound(s, op);
    match op
    case Add(args) =>
      if s.list.Some? {
        if s.memory.Some? && !s.firing {
          var t := s.(firingIndex := |s.list.value| - 1, queue := s.queue + [s.memory.value]);
          PushKeeps(t, Flatten(args));
          var u := PushAll(t, Flatten(args));
          ProceedFrozen(NextPass(u.(locked := u.locked || u.flags.once, fired := true, firing := true)), value);
        } else {
          PushKeeps(s, Flatten(args));
        }
      }
    case Return(isFalse) =>
      if s.firing {
        ProceedFrozen(if isFalse && s.flags.stopOnFalse then s.(firingIndex := |s.Entries()|, memory := None) else s,
                      value);
      }
    case Remove(_) => case FireWith(_) => case Empty => case Disable => case Lock =>
  }

  lemma {:induction false} RunFrozen(s: State, ops: seq<Op>, value: Option<Args>)
    requires Frozen(s, value)
    ensures Frozen(Run(s, ops), value) && CallsWith(s.calls, Run(s, ops).calls, value)
    ensures s.list.None? ==> Run(s, ops).list.None? && Run(s, ops).calls == s.calls
    decreases |ops|
  {
    if ops != [] {
      RunFrozen(s, ops[..|ops| - 1], value);
      StepFrozen(Run(s, ops[..|ops| - 1]), ops[|ops| - 1], value);
    }
  }

  /** From any state of any run on: a disabled list calls nobody any more, whatever is done to it; a locked one calls
      those left in it, and those added later, with the value that it had when it was locked, and with no other. */
  lemma DisableAndLock(flags: Flags, before: seq<Op>, after: seq<Op>)
    ensures var s := Run(Initial(flags), before);
            && Run(Step(s, Disable), after).calls == s.calls
            && CallsWith(s.calls, Run(Step(s, Lock), after).calls, s.memory)
  {
    RunsAreSound(flags, before);
    var s := Run(Initial(flags), before);
    StepSound(s, Disable);
    StepSound(s, Lock);
    RunFrozen(Step(s, Disable), after, None);
    RunFrozen(Step(s, Lock), after, s.memory);
  }
}
