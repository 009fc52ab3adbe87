/** What callback lists promise over whole runs, however their callbacks re-enter. */
module CallbacksTheorems {
  import opened Options
  import opened CallbacksModel

  // ----- "once memory" lists

  ghost predicate OnceMemory(flags: Flags) {
    flags.once && flags.memory && !flags.stopOnFalse
  }

  predicate AddsOrFires(ops: seq<Op>) {
    forall i: nat | i < |ops| :: ops[i].Add? || ops[i].FireWith? || ops[i].Return?
  }

  /** The arguments of the first `fireWith`. */
  function FirstFire(ops: seq<Op>): Option<Args> {
    if ops == [] then None
    else if FirstFire(ops[..|ops| - 1]).Some? then FirstFire(ops[..|ops| - 1])
    else if ops[|ops| - 1].FireWith? then Some(ops[|ops| - 1].data) else None
  }

  /** The calls went to the entries added first, one each and in order, all with the same arguments. */
  ghost predicate CalledFirst(calls: seq<Call>, added: seq<Entry>, args: Args) {
    |calls| <= |added| && forall i: nat | i < |calls| :: calls[i].entry == added[i] && calls[i].args == Some(args)
  }

  ghost predicate IsTail(list: seq<Entry>, added: seq<Entry>) {
    |list| <= |added| && forall i: nat | i < |list| :: list[i] == added[|added| - |list| + i]
  }

  /** After the first fire the list is the tail of all additions, and the calls reach up to the index. */
  ghost predicate OnceRunning(s: State, args: Args) {
    && s.list.Some? && s.queue == [] && s.memory == Some(args) && s.locked && IsTail(s.list.value, s.added)
    && CalledFirst(s.calls, s.added, args) && |s.calls| == |s.added| - |s.list.value| + s.firingIndex + 1
  }

  ghost predicate OnceInv(s: State, first: Option<Args>) {
    match first
    case None =>
      s.list == Some(s.added) && s.queue == [] && s.firingIndex == -1 && !s.firing && s.memory == None && !s.locked &&
          s.calls == []
    case Some(args) =>
      OnceRunning(s, args) &&
      if s.firing then 0 <= s.firingIndex < |s.list.value| else s.firingIndex == -1 && s.list.value == []
  }

  lemma {:induction false} PushAllAppends(s: State, fns: seq<nat>) returns (new_: seq<Entry>)
    requires s.list.Some?
    ensures PushAll(s, fns) == s.(list := Some(s.list.value + new_), added := s.added + new_)
    ensures !s.flags.unique ==> |new_| == |fns| && forall i: nat | i < |fns| :: new_[i].fn == fns[i]
    ensures forall i: nat | i < |new_| :: new_[i].serial == |s.added| + i
    decreases |fns|
  {
    if fns == [] {
      new_ := [];
      assert s.list.value + [] == s.list.value && s.added + [] == s.added;
    } else {
      var t := Push(s, fns[0]);
      var rest := PushAllAppends(t, fns[1..]);
      if t == s {
        new_ := rest;
      } else {
        var e := Entry(fns[0], |s.added|);
        new_ := [e] + rest;
        assert s.list.value + [e] + rest == s.list.value + new_ && s.added + [e] + rest == s.added + new_;
      }
    }
  }

  /** The loop of `fire` keeps this. */
  lemma OnceProceed(s: State, args: Args)
    requires OnceMemory(s.flags) && s.firing && OnceRunning(s, args) && -1 <= s.firingIndex < |s.list.value|
    ensures OnceInv(Proceed(s), Some(args)) && Proceed(s).added == s.added && Proceed(s).flags == s.flags
  {
    if s.firingIndex + 1 < |s.list.value| {
      assert Proceed(s) == CallNext(s);
    } else {
      assert Proceed(s) == Finish(EndPass(s));
    }
  }

  lemma OnceMore(s: State, new_: seq<Entry>, args: Args)
    requires OnceRunning(s, args)
    ensures OnceRunning(s.(list := Some(s.list.value + new_), added := s.added + new_), args)
  {
  }

  lemma OnceAdd(s: State, fns: seq<nat>, first: Option<Args>)
    requires OnceMemory(s.flags) && OnceInv(s, first)
    ensures OnceInv(AddStep(s, fns), first) && AddStep(s, fns).flags == s.flags
    ensures !s.flags.unique ==> |AddStep(s, fns).added| == |s.added| + |fns|
    ensures s.added <= AddStep(s, fns).added
    ensures !s.flags.unique ==> forall i: nat | i < |fns| :: AddStep(s, fns).added[|s.added| + i].fn == fns[i]
  {
    if first.None? || s.firing {
      var new_ := PushAllAppends(s, fns);
      if first.Some? {
        OnceMore(s, new_, first.value);
      }
    } else {
      var args := first.value;
      var t := s.(firingIndex := |s.list.value| - 1, queue := s.queue + [args]);
      var new_ := PushAllAppends(t, fns);
      var u := NextPass(PushAll(t, fns).(locked := true, fired := true, firing := true));
      assert AddStep(s, fns) == Proceed(u);
      OnceMore(s, new_, args);
      OnceProceed(u, args);
    }
  }

  lemma OnceFire(s: State, data: Args)
    requires OnceMemory(s.flags) && OnceInv(s, None)
    ensures var t := Step(s, FireWith(data)); OnceInv(t, Some(data)) && t.flags == s.flags && t.added == s.added
  {
    var u := NextPass(s.(queue := [data], locked := true, fired := true, firing := true));
    assert s.queue + [data] == [data];
    assert Step(s, FireWith(data)) == Proceed(u);
    OnceProceed(u, data);
  }

  /** The functions handed to `add`, in the order of the calls. */
  function AddedFns(ops: seq<Op>): seq<nat> {
    if ops == [] then []
    else AddedFns(ops[..|ops| - 1]) + (if ops[|ops| - 1].Add? then Flatten(ops[|ops| - 1].args) else [])
  }

  lemma OnceStep(s: State, op: Op, first: Option<Args>)
    requires OnceMemory(s.flags) && OnceInv(s, first) && (op.Add? || op.FireWith? || op.Return?)
    ensures OnceInv(Step(s, op), if first.None? && op.FireWith? then Some(op.data) else first)
    ensures Step(s, op).flags == s.flags
    ensures !op.Add? ==> Step(s, op).added == s.added
  {
    match op
    case Add(args) => OnceAdd(s, Flatten(args), first);
    case FireWith(data) =>
      if first.None? {
        OnceFire(s, data);
      }
    case Return(_) =>
      if s.firing {
        OnceProceed(s, first.value);
      }
  }

  lemma {:induction false} OnceMemoryRuns(flags: Flags, ops: seq<Op>)
    requires OnceMemory(flags) && AddsOrFires(ops)
    ensures OnceInv(Run(Initial(flags), ops), FirstFire(ops)) && Run(Initial(flags), ops).flags == flags
    decreases |ops|
  {
    if ops != [] {
      var front := ops[..|ops| - 1];
      OnceMemoryRuns(flags, front);
      OnceStep(Run(Initial(flags), front), ops[|ops| - 1], FirstFire(front));
    }
  }

  lemma {:induction false} AddedInOrder(flags: Flags, ops: seq<Op>)
    requires OnceMemory(flags) && !flags.unique && AddsOrFires(ops)
    ensures |Run(Initial(flags), ops).added| == |AddedFns(ops)|
    ensures forall i: nat | i < |AddedFns(ops)| :: Run(Initial(flags), ops).added[i].fn == AddedFns(ops)[i]
    decreases |ops|
  {
    if ops != [] {
      var front, op := ops[..|ops| - 1], ops[|ops| - 1];
      AddedInOrder(flags, front);
      OnceMemoryRuns(flags, front);
      var s := Run(Initial(flags), front);
      if op.Add? {
        OnceAdd(s, Flatten(op.args), FirstFire(front));
      } else {
        OnceStep(s, op, FirstFire(front));
      }
    }
  }

  /** "once memory": whenever nothing is running after the first fire, every function ever added was
      called exactly once, in the order of addition, with the arguments of that first fire. */
  lemma EverythingOnce(flags: Flags, ops: seq<Op>)
    requires OnceMemory(flags) && !flags.unique && AddsOrFires(ops)
    ensures var s := Run(Initial(flags), ops);
            FirstFire(ops).Some? && !s.firing ==>
            && |s.calls| == |AddedFns(ops)|
            && forall i: nat | i < |s.calls| ::
               s.calls[i].entry.fn == AddedFns(ops)[i] && s.calls[i].args == FirstFire(ops)
  {
    OnceMemoryRuns(flags, ops);
    AddedInOrder(flags, ops);
  }

  // ----- plain lists

  predicate Plain(flags: Flags) {
    !flags.once && !flags.memory && !flags.stopOnFalse
  }

  predicate PlainOp(op: Op) {
    op.Add? || op.Remove? || op.FireWith? || op.Return?
  }

  predicate PlainOps(ops: seq<Op>) {
    forall i: nat | i < |ops| :: PlainOp(ops[i])
  }

  /** The arguments of all calls of `fireWith`, in order. */
  function Requests(ops: seq<Op>): seq<Args> {
    if ops == [] then []
    else Requests(ops[..|ops| - 1]) + (if ops[|ops| - 1].FireWith? then [ops[|ops| - 1].data] else [])
  }

  /** The entries called in pass number `k`, counted from 1. */
  function CalledIn(calls: seq<Call>, k: nat): seq<Entry> {
    if calls == [] then []
    else CalledIn(calls[..|calls| - 1], k) + (if calls[|calls| - 1].pass == k then [calls[|calls| - 1].entry] else [])
  }

  /** In order of addition, without repetition. */
  ghost predicate Increasing(entries: seq<Entry>) {
    forall i: nat, j: nat | i < j < |entries| :: entries[i].serial < entries[j].serial
  }

  /** The list is in order of addition and holds nothing that was never added. */
  ghost predicate Orderly(list: seq<Entry>, next: nat) {
    Increasing(list) && forall i: nat | i < |list| :: list[i].serial < next
  }

  /** Calls are made pass after pass, each with the arguments of its pass. */
  ghost predicate InPasses(calls: seq<Call>, passes: seq<Args>) {
    && (forall i: nat | i < |calls| ::
        1 <= calls[i].pass <= |passes| && calls[i].args == Some(passes[calls[i].pass - 1]))
    && (forall i: nat, j: nat | i < j < |calls| :: calls[i].pass <= calls[j].pass)
  }

  /** Pass number `k` called, once each and in order, all entries that were left in the list at its end. */
  ghost predicate PassDone(calls: seq<Call>, k: nat, left: seq<Entry>) {
    Increasing(CalledIn(calls, k)) && forall i: nat | i < |left| :: left[i] in CalledIn(calls, k)
  }

  ghost predicate Complete(calls: seq<Call>, ended: seq<seq<Entry>>) {
    forall k: nat | k < |ended| :: PassDone(calls, k + 1, ended[k])
  }

  /** `firingIndex` splits the list into the entries called in this pass and those still to be called. */
  ghost predicate Split(list: seq<Entry>, f: int, called: seq<Entry>) {
    && -1 <= f < |list|
    && Increasing(called)
    && (forall i: nat | i <= f :: list[i] in called)
    && (forall i: nat, j: nat | f < i < |list| && j < |called| :: called[j].serial < list[i].serial)
  }

  ghost predicate PlainInv(s: State, requests: seq<Args>) {
    && s.list.Some? && !s.locked && Orderly(s.list.value, |s.added|)
    && s.passes + s.queue == requests
    && InPasses(s.calls, s.passes) && Complete(s.calls, s.ended)
    && (forall i: nat | i < |s.calls| :: s.calls[i].entry.serial < |s.added|)
    && (if s.firing then |s.ended| + 1 == |s.passes| && s.memory == Some(s.passes[|s.passes| - 1]) &&
                         Split(s.list.value, s.firingIndex, CalledIn(s.calls, |s.passes|))
        else |s.ended| == |s.passes| && s.queue == [] && s.firingIndex == -1 && s.memory == None)
  }

  lemma {:induction false} NoCallsYet(calls: seq<Call>, k: nat)
    requires forall i: nat | i < |calls| :: calls[i].pass < k
    ensures CalledIn(calls, k) == []
  {
    if calls != [] {
      NoCallsYet(calls[..|calls| - 1], k);
    }
  }

  lemma CalledInMore(calls: seq<Call>, c: Call, k: nat)
    ensures CalledIn(calls + [c], k) == CalledIn(calls, k) + (if c.pass == k then [c.entry] else [])
  {
    assert (calls + [c])[..|calls|] == calls;
  }

  /** A call in the running pass leaves the ended passes as they were. */
  lemma CompleteMore(calls: seq<Call>, c: Call, ended: seq<seq<Entry>>)
    requires Complete(calls, ended) && c.pass == |ended| + 1
    ensures Complete(calls + [c], ended)
  {
    forall k: nat | k < |ended| ensures PassDone(calls + [c], k + 1, ended[k]) {
      CalledInMore(calls, c, k + 1);
      assert CalledIn(calls, k + 1) + [] == CalledIn(calls, k + 1);
      assert PassDone(calls, k + 1, ended[k]);
    }
  }

  lemma SplitMore(list: seq<Entry>, f: int, called: seq<Entry>, next: nat)
    requires Split(list, f, called) && f + 1 < |list| && Orderly(list, next)
    ensures Split(list, f + 1, called + [list[f + 1]])
  {
  }

  /** Calling the next entry. */
  lemma SplitNext(s: State, requests: seq<Args>)
    requires Plain(s.flags) && s.firing && PlainInv(s, requests) && s.firingIndex + 1 < |s.list.value|
    ensures PlainInv(CallNext(s), requests)
  {
    var c := Call(s.list.value[s.firingIndex + 1], s.memory, |s.passes|);
    assert CallNext(s).calls == s.calls + [c];
    CompleteMore(s.calls, c, s.ended);
    CalledInMore(s.calls, c, |s.passes|);
    SplitMore(s.list.value, s.firingIndex, CalledIn(s.calls, |s.passes|), |s.added|);
  }

  /** The end of a pass: everything left in the list was called. */
  lemma PassEnds(s: State, requests: seq<Args>)
    requires Plain(s.flags) && s.firing && PlainInv(s, requests) && s.firingIndex + 1 == |s.list.value|
    ensures Complete(s.calls, s.ended + [s.list.value])
  {
    var ended := s.ended + [s.list.value];
    forall k: nat | k < |ended| ensures PassDone(s.calls, k + 1, ended[k]) {
      assert k < |s.ended| ==> ended[k] == s.ended[k] && PassDone(s.calls, k + 1, s.ended[k]);
    }
  }

  /** The pass ends and the next one in the queue begins. */
  lemma PassTurns(s: State, requests: seq<Args>)
    requires Plain(s.flags) && s.firing && PlainInv(s, requests) && s.firingIndex + 1 == |s.list.value| && s.queue != []
    ensures PlainInv(NextPass(EndPass(s)), requests)
  {
    PassEnds(s, requests);
    var u := NextPass(EndPass(s));
    assert u.passes + u.queue == s.passes + s.queue;
    NoCallsYet(u.calls, |u.passes|);
    assert InPasses(u.calls, u.passes);
  }

  lemma PassStops(s: State, requests: seq<Args>)
    requires Plain(s.flags) && s.firing && PlainInv(s, requests) && s.firingIndex + 1 == |s.list.value| && s.queue == []
    ensures PlainInv(Finish(EndPass(s)), requests)
  {
    PassEnds(s, requests);
  }

  lemma {:induction false} PlainProceed(s: State, requests: seq<Args>)
    requires Plain(s.flags) && s.firing && PlainInv(s, requests)
    ensures PlainInv(Proceed(s), requests) && Proceed(s).flags == s.flags
    decreases |s.queue|
  {
    if s.firingIndex + 1 < |s.list.value| {
      SplitNext(s, requests);
    } else if s.queue == [] {
      PassStops(s, requests);
    } else {
      PassTurns(s, requests);
      PlainProceed(NextPass(EndPass(s)), requests);
    }
  }

  lemma PlainFire(s: State, requests: seq<Args>, data: Args)
    requires Plain(s.flags) && !s.firing && PlainInv(s, requests)
    ensures var t := Step(s, FireWith(data)); PlainInv(t, requests + [data]) && t.flags == s.flags
  {
    var u := NextPass(s.(queue := s.queue + [data], fired := true, firing := true));
    assert Step(s, FireWith(data)) == Proceed(u);
    assert s.queue + [data] == [data] && u.passes + u.queue == requests + [data];
    NoCallsYet(u.calls, |u.passes|);
    PlainProceed(u, requests + [data]);
  }

  lemma {:induction false} CalledWereCalls(calls: seq<Call>, k: nat, next: nat)
    requires forall i: nat | i < |calls| :: calls[i].entry.serial < next
    ensures forall i: nat | i < |CalledIn(calls, k)| :: CalledIn(calls, k)[i].serial < next
  {
    if calls != [] {
      CalledWereCalls(calls[..|calls| - 1], k, next);
    }
  }

  lemma PlainAdd(s: State, requests: seq<Args>, fns: seq<nat>)
    requires Plain(s.flags) && PlainInv(s, requests)
    ensures PlainInv(AddStep(s, fns), requests) && AddStep(s, fns).flags == s.flags
  {
    CalledWereCalls(s.calls, |s.passes|, |s.added|);
    var new_ := PushAllAppends(s, fns);
    assert AddStep(s, fns) == s.(list := Some(s.list.value + new_), added := s.added + new_);
  }

  lemma {:induction false} WithoutMembers(list: seq<Entry>, fn: nat)
    ensures forall e :: e in Without(list, fn) <==> e in list && e.fn != fn
  {
    if list != [] {
      WithoutMembers(list[..|list| - 1], fn);
      assert list == list[..|list| - 1] + [list[|list| - 1]];
    }
  }

  lemma {:induction false} WithoutKeeps(list: seq<Entry>, fn: nat, next: nat)
    requires Orderly(list, next)
    ensures Orderly(Without(list, fn), next)
  {
    if list != [] {
      var front := list[..|list| - 1];
      WithoutKeeps(front, fn, next);
      forall e | e in Without(front, fn) ensures e.serial < list[|list| - 1].serial {
        WithoutMembers(front, fn);
        var i: nat :| i < |front| && front[i] == e;
      }
    }
  }

  lemma {:induction false} WithoutPrefix(list: seq<Entry>, fn: nat, n: nat)
    requires n <= |list|
    ensures Without(list[..n], fn) <= Without(list, fn)
    ensures forall i: nat | |Without(list[..n], fn)| <= i < |Without(list, fn)| :: Without(list, fn)[i] in list[n..]
    decreases |list|
  {
    if n < |list| {
      WithoutPrefix(list[..|list| - 1], fn, n);
      assert list[..|list| - 1][..n] == list[..n];
      assert list[n..] == list[..|list| - 1][n..] + [list[|list| - 1]];
    } else {
      assert list[..n] == list;
    }
  }

  /** Removing entries during a pass leaves the split where it was. */
  lemma SplitWithout(list: seq<Entry>, f: int, called: seq<Entry>, fn: nat, next: nat)
    requires Split(list, f, called) && Orderly(list, next)
    ensures Split(Without(list, fn), IndexWithout(list, f, fn), called)
  {
    var n := f + 1;
    WithoutPrefix(list, fn, n);
    WithoutMembers(list[..n], fn);
    var after, g := Without(list, fn), IndexWithout(list, f, fn);
    assert g + 1 == |Without(list[..n], fn)|;
    forall i: nat | i <= g ensures after[i] in called {
      assert after[i] == Without(list[..n], fn)[i] && after[i] in list[..n];
    }
    forall i: nat, j: nat | g < i < |after| && j < |called| ensures called[j].serial < after[i].serial {
      assert after[i] in list[n..];
    }
  }

  lemma PlainRemove(s: State, requests: seq<Args>, fn: nat)
    requires Plain(s.flags) && PlainInv(s, requests)
    ensures PlainInv(RemoveStep(s, fn), requests) && RemoveStep(s, fn).flags == s.flags
  {
    WithoutKeeps(s.list.value, fn, |s.added|);
    if s.firing {
      SplitWithout(s.list.value, s.firingIndex, CalledIn(s.calls, |s.passes|), fn, |s.added|);
    }
  }

  lemma {:induction false} PlainRuns(flags: Flags, ops: seq<Op>)
    requires Plain(flags) && PlainOps(ops)
    ensures PlainInv(Run(Initial(flags), ops), Requests(ops)) && Run(Initial(flags), ops).flags == flags
    decreases |ops|
  {
    if ops != [] {
      var front, op := ops[..|ops| - 1], ops[|ops| - 1];
      PlainRuns(flags, front);
      var s, requests := Run(Initial(flags), front), Requests(front);
      assert requests + [] == requests;
      match op
      case Add(args) => PlainAdd(s, requests, Flatten(args));
      case Remove(fn) => PlainRemove(s, requests, fn);
      case FireWith(data) =>
        if s.firing {
          assert s.passes + (s.queue + [data]) == requests + [data];
        } else {
          PlainFire(s, requests, data);
        }
      case Return(_) =>
        if s.firing {
          PlainProceed(s, requests);
        }
    }
  }

  /** Passes are whole and first in, first out: when nothing is running, there was one pass per
      `fireWith`, in the order of the calls; every call was made in its pass, with the arguments of
      that pass; and every pass called all entries left at its end, once each and in list order. */
  lemma PassesAreWhole(flags: Flags, ops: seq<Op>)
    requires Plain(flags) && PlainOps(ops)
    ensures var s := Run(Initial(flags), ops);
            && InPasses(s.calls, Requests(ops)) && Complete(s.calls, s.ended)
            && (!s.firing ==>
                  |s.ended| == |Requests(ops)| && s.passes == Requests(ops) && s.firingIndex == -1 && s.queue == [])
  {
    PlainRuns(flags, ops);
    var s := Run(Initial(flags), ops);
    assert s.passes == Requests(ops)[..|s.passes|];
    assert s.queue == [] ==> s.passes + s.queue == s.passes;
  }
}
