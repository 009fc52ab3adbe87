/** One call of `then`: the closures made by its inner function `resolve`, which adopt thenables level by
    level under the counter `maxDepth`, against the promise resolution procedure of Promises/A+. */
module ThenProtocol {
  import opened Options
  import D = DeferredModel
  import DT = DeferredTheorems
  import DL = DeferredListeners

  /** What a handler returns or a thenable passes on: something without properties to look at, an object
      or function whose `then` has to be read, or the promise of the new deferred itself. */
  datatype Value = Primitive(id: nat) | Object(id: nat) | Own

  /** The data of the TypeError for a promise that is resolved with itself, and of that promise. */
  const SELF_RESOLUTION: nat := 0
  const OWN_PROMISE: nat := 1

  /** The data of any other value or error; `id` tells them apart. */
  function Datum(id: nat): nat {
    id + 2
  }

  /** Level 0 is the handler given to `then`; level k > 0 is the k-th thenable adopted. */
  datatype Event =
    | Callback(level: nat, rejects: bool, value: Value)  // the handler ends, or a thenable calls back
    | ReadFunction                                       // reading `returned.then` gives a function
    | ReadOther                                          // ... or something else
    | ReadThrows(error: nat)                             // ... or throws
    | ThenReturns                                        // `then.call( returned, ... )` returns
    | ThenThrows(error: nat)                             // ... or throws

  /** A call of `process` that is waiting for the code of a thenable. */
  datatype Frame = Reading(depth: nat, value: Value) | Calling(depth: nat)

  /** The closures' state: the counter, the pending calls of `process`, innermost last, and what was
      done to the new deferred. */
  datatype State = State(maxDepth: nat, frames: seq<Frame>, issued: seq<D.Op>)
  {
    function Settles(resolve: bool, data: nat): State {
      this.(issued := issued + [D.Settle(resolve, data)])
    }

    function Top(): Option<Frame> {
      if frames == [] then None else Some(frames[|frames| - 1])
    }

    function Pop(): State
      requires frames != []
    {
      this.(frames := frames[..|frames| - 1])
    }

    /** The first settlement issued; Deferred makes the others void. */
    function Fate(): Option<D.Op> {
      if issued == [] then None else Some(issued[0])
    }
  }

  const START := State(0, [], [])

  function Data(v: Value): nat {
    if v.Own? then OWN_PROMISE else Datum(v.id)
  }

  /** The `catch` clause of `process`. */
  function Caught(s: State, depth: nat, error: nat): State {
    if depth + 1 >= s.maxDepth then s.Settles(false, error) else s
  }

  /** An event that cannot happen is no step. */
  function Step(s: State, e: Event): State {
    match e
    case Callback(depth, rejects, v) =>
      if depth < s.maxDepth then s                                  // a level left behind
      else if rejects then Caught(s, depth, Data(v))
      else if v.Own? then Caught(s, depth, SELF_RESOLUTION)
      else if v.Primitive? then s.Settles(true, Data(v))
      else s.(frames := s.frames + [Reading(depth, v)])
    case ReadFunction =>
      if s.Top().Some? && s.Top().value.Reading? then
        var depth := s.Top().value.depth;
        s.(maxDepth := s.maxDepth + 1, frames := s.Pop().frames + [Calling(depth)])
      else s
    case ReadOther =>
      if s.Top().Some? && s.Top().value.Reading? then s.Pop().Settles(true, Data(s.Top().value.value)) else s
    case ReadThrows(error) =>
      if s.Top().Some? && s.Top().value.Reading? then Caught(s.Pop(), s.Top().value.depth, Datum(error)) else s
    case ThenReturns => if s.Top().Some? && s.Top().value.Calling? then s.Pop() else s
    case ThenThrows(error) =>
      if s.Top().Some? && s.Top().value.Calling? then Caught(s.Pop(), s.Top().value.depth, Datum(error)) else s
  }

  // ----- the promise resolution procedure

  /** Where the resolution of the promise stands: waiting for the first callback of a level, reading the
      `then` of the value it passed, or done. */
  datatype Promise = Waiting(level: nat) | Examining(level: nat, value: Value) | Settled(resolved: bool, data: nat)

  /** Only the first callback of the thenable last adopted counts; a throw counts if it made none. `top`
      is the code that ends with this event. */
  function Resolve(p: Promise, top: Option<Frame>, e: Event): Promise {
    match e
    case Callback(level, rejects, v) =>
      if p != Waiting(level) then p
      else if rejects then Settled(false, Data(v))
      else if v.Own? then Settled(false, SELF_RESOLUTION)
      else if v.Primitive? then Settled(true, Data(v))
      else Examining(level, v)
    case ReadFunction => if p.Examining? && top == Some(Reading(p.level, p.value)) then Waiting(p.level + 1) else p
    case ReadOther => if p.Examining? && top == Some(Reading(p.level, p.value)) then Settled(true, Data(p.value)) else p
    case ReadThrows(error) =>
      if p.Examining? && top == Some(Reading(p.level, p.value)) then Settled(false, Datum(error)) else p
    case ThenReturns => p
    case ThenThrows(error) =>
      if p.Waiting? && top.Some? && top.value.Calling? && p.level == top.value.depth + 1
      then Settled(false, Datum(error)) else p
  }

  /** Events a run may consist of: level 0 ends once, before everything else, and only adopted thenables
      call back. */
  predicate Possible(s: State, first: bool, e: Event) {
    if first then e.Callback? && e.level == 0 else e.Callback? ==> 1 <= e.level <= s.maxDepth
  }

  /** While the `then` of a value is read, the level that passed the value does not call back: true of
      every `then` that is a plain property. */
  predicate QuietRead(s: State, e: Event) {
    s.issued == [] && s.Top().Some? && s.Top().value.Reading? ==> !(e.Callback? && e.level == s.maxDepth)
  }

  predicate PossibleRun(events: seq<Event>) {
    events == [] ||
    var front, e := events[..|events| - 1], events[|events| - 1];
    PossibleRun(front) && Possible(RunClosures(front), front == [], e)
  }

  predicate Orderly(events: seq<Event>) {
    events == [] ||
    var front, e := events[..|events| - 1], events[|events| - 1];
    Orderly(front) && Possible(RunClosures(front), front == [], e) && QuietRead(RunClosures(front), e)
  }

  function RunClosures(events: seq<Event>): State {
    if events == [] then START else Step(RunClosures(events[..|events| - 1]), events[|events| - 1])
  }

  function RunPromise(events: seq<Event>): Promise {
    if events == [] then Waiting(0)
    else Resolve(RunPromise(events[..|events| - 1]), RunClosures(events[..|events| - 1]).Top(), events[|events| - 1])
  }

  /** The closures stand where the promise stands. */
  ghost predicate Stands(s: State, p: Promise) {
    match p
    case Settled(resolved, data) => s.Fate() == Some(D.Settle(resolved, data))
    case Waiting(level) =>
      && s.issued == [] && s.maxDepth == level
      && forall i: nat | i < |s.frames| :: s.frames[i].Calling? && s.frames[i].depth < level
    case Examining(level, v) =>
      && s.issued == [] && s.maxDepth == level && s.Top() == Some(Reading(level, v))
      && forall i: nat | i < |s.frames| - 1 :: s.frames[i].Calling? && s.frames[i].depth < level
  }

  /** One event moves both alike exactly if it does not disturb the reading of a `then`. */
  lemma StepStands(s: State, p: Promise, e: Event)
    requires Stands(s, p) && (e.Callback? ==> e.level <= s.maxDepth)
    ensures Stands(Step(s, e), Resolve(p, s.Top(), e)) <==> QuietRead(s, e)
  {
    if !QuietRead(s, e) {
      assert p.Examining? && s.frames[|s.frames| - 1].Reading?;
      var t := Step(s, e);
      assert t.issued == [] ==> |t.frames| == |s.frames| + 1 && t.frames[|s.frames| - 1] == s.frames[|s.frames| - 1];
    }
  }

  /** Closures and promise stand together after every event. */
  ghost predicate Together(events: seq<Event>) {
    events == [] || (Together(events[..|events| - 1]) && Stands(RunClosures(events), RunPromise(events)))
  }

  /** In every run, the closures stand where the promise stands, all the way, exactly if the run is orderly. */
  lemma {:induction false} ClosuresRefinePromise(events: seq<Event>)
    requires PossibleRun(events)
    ensures Together(events) <==> Orderly(events)
    ensures Orderly(events) ==> Stands(RunClosures(events), RunPromise(events))
  {
    if events != [] {
      var front := events[..|events| - 1];
      ClosuresRefinePromise(front);
      if Orderly(front) {
        StepStands(RunClosures(front), RunPromise(front), events[|events| - 1]);
      }
    }
  }

  lemma {:induction false} OrderlyIsPossible(events: seq<Event>)
    requires Orderly(events)
    ensures PossibleRun(events)
  {
    if events != [] {
      OrderlyIsPossible(events[..|events| - 1]);
    }
  }

  lemma {:induction false} OnlySettles(events: seq<Event>)
    ensures forall i: nat | i < |RunClosures(events).issued| :: RunClosures(events).issued[i].Settle?
    ensures RunClosures(events).Fate().Some? ==> RunClosures(events).Fate().value.Settle?
  {
    if events != [] {
      OnlySettles(events[..|events| - 1]);
    }
  }

  // ----- the new deferred and its listeners

  /** After `ops` the deferred is in the state that the promise is in. Settled, it has called the listeners of
      its outcome that it was given in `ops`, behind the constructor's own, from the first on, each once, in
      order and with its value, all of them when it is idle; of the other outcome, and while it is pending, none. */
  ghost predicate Shows(ops: seq<D.Op>, p: Promise) {
    var d := D.Run(D.Initial(), ops);
    match p
    case Settled(resolved, data) =>
      var w := if resolved then D.Done else D.Fail;
      var calls, fns := d.Get(w).calls, DL.Listeners(ops, w);
      && d.phase == D.PhaseOf(w) && d.Get(D.Other(w)).calls == []
      && D.OWN <= |calls| <= D.OWN + |fns| && (!d.Get(w).firing ==> |calls| == D.OWN + |fns|)
      && (forall i: nat | i < |calls| :: calls[i].args == Some(data))
      && forall i: nat | D.OWN <= i < |calls| :: calls[i].entry.fn == fns[i - D.OWN]
    case _ => d.phase == D.Pending && d.done.calls == [] && d.fail.calls == []
  }

  /** `ops` is what the new deferred may go through when `issued` is done to it: these settlements in their
      order, with listeners, notifications and returns of callbacks anywhere between. */
  ghost predicate Goes(ops: seq<D.Op>, issued: seq<D.Op>) {
    DT.AllPublic(ops) && DT.Settlements(ops) == issued
  }

  /** Whatever else happens to it, a deferred to which `issued` is done shows the promise. */
  ghost predicate Bears(issued: seq<D.Op>, p: Promise) {
    forall ops | Goes(ops, issued) :: Shows(ops, p)
  }

  /** The fate that a sequence of settlements means. */
  function FateOf(issued: seq<D.Op>): Promise {
    if issued == [] || !issued[0].Settle? then Waiting(0) else Settled(issued[0].resolve, issued[0].data)
  }

  lemma FirstIsFate(issued: seq<D.Op>)
    ensures Bears(issued, FateOf(issued))
  {
    forall ops | Goes(ops, issued) ensures Shows(ops, FateOf(issued)) {
      DT.FirstDecides(ops);
      DT.Exclusive(ops);
      if issued != [] {
        DL.EveryListenerCalled(ops);
      }
    }
  }

  /** No deferred shows two values. */
  lemma OneValue(ops: seq<D.Op>, p: Promise, q: Promise)
    requires Shows(ops, p) && Shows(ops, q) && p.Settled?
    ensures p == q
  {
    var calls := D.Run(D.Initial(), ops).Get(if p.resolved then D.Done else D.Fail).calls;
    assert calls[0].args == Some(p.data);
  }

  /** Whatever the thenables do, in any order, however often, at once or late, and whether they throw
      afterwards or not; and whatever listeners the new deferred has, and when they come: it is settled by
      the first settlement issued and by no other, and where closures and promise stand together, it is in
      the state, and calls its listeners with the value, that the promise resolution procedure gives it. */
  lemma ThenRefinesPromise(events: seq<Event>)
    requires PossibleRun(events)
    ensures var issued := RunClosures(events).issued;
            && (forall i: nat | i < |issued| :: issued[i].Settle?) && Bears(issued, FateOf(issued))
            && (Together(events) ==> Bears(issued, RunPromise(events)))
  {
    var issued := RunClosures(events).issued;
    OnlySettles(events);
    FirstIsFate(issued);
    ClosuresRefinePromise(events);
    if Together(events) {
      SamePromise(RunClosures(events), RunPromise(events));
    }
  }

  lemma SamePromise(s: State, p: Promise)
    requires Stands(s, p) && Bears(s.issued, FateOf(s.issued)) && (s.Fate().Some? ==> s.Fate().value.Settle?)
    ensures Bears(s.issued, p)
  {
    forall ops | Goes(ops, s.issued) ensures Shows(ops, p) {
    }
  }

  lemma OrderlyShows(events: seq<Event>)
    ensures Orderly(events) ==> Bears(RunClosures(events).issued, RunPromise(events))
  {
    if Orderly(events) {
      OrderlyIsPossible(events);
      ClosuresRefinePromise(events);
      ThenRefinesPromise(events);
    }
  }

  /** Once settled, no event changes the fate. */
  lemma {:induction false} FateIsFinal(events: seq<Event>, n: nat)
    requires n <= |events| && RunClosures(events[..n]).Fate().Some?
    ensures RunClosures(events).Fate() == RunClosures(events[..n]).Fate()
    decreases |events|
  {
    if n < |events| {
      assert events[..|events| - 1][..n] == events[..n];
      FateIsFinal(events[..|events| - 1], n);
    } else {
      assert events[..n] == events;
    }
  }

  lemma {:induction false} SameFromHere(a: seq<Event>, b: seq<Event>, rest: seq<Event>)
    requires RunClosures(a) == RunClosures(b)
    ensures RunClosures(a + rest) == RunClosures(b + rest)
  {
    if rest == [] {
      assert a + rest == a && b + rest == b;
    } else {
      var front := rest[..|rest| - 1];
      SameFromHere(a, b, front);
      assert (a + rest)[..|a + rest| - 1] == a + front && (b + rest)[..|b + rest| - 1] == b + front;
    }
  }

  /** A callback of a level that was left behind might as well not have been made, whatever follows: no
      deferred with any listeners can tell. */
  lemma VoidCallback(before: seq<Event>, e: Event, rest: seq<Event>, p: Promise)
    requires e.Callback? && e.level < RunClosures(before).maxDepth
    ensures RunClosures(before + [e] + rest) == RunClosures(before + rest)
    ensures Bears(RunClosures(before + [e] + rest).issued, p) <==> Bears(RunClosures(before + rest).issued, p)
  {
    assert (before + [e])[..|before|] == before;
    SameFromHere(before + [e], before, rest);
  }

  /** A thenable that throws after its value was adopted might as well have returned. */
  lemma VoidThrow(before: seq<Event>, e: Event, rest: seq<Event>, p: Promise)
    requires var top := RunClosures(before).Top();
             e.ThenThrows? && top.Some? && top.value.Calling? && top.value.depth + 1 < RunClosures(before).maxDepth
    ensures RunClosures(before + [e] + rest) == RunClosures(before + [ThenReturns] + rest)
    ensures Bears(RunClosures(before + [e] + rest).issued, p) <==>
            Bears(RunClosures(before + [ThenReturns] + rest).issued, p)
  {
    assert (before + [e])[..|before|] == before && (before + [ThenReturns])[..|before|] == before;
    SameFromHere(before + [e], before + [ThenReturns], rest);
  }

  /** Without the quiet read this fails: a callback made from inside the `then` getter of the value that
      its own level has just passed takes effect before that value does, ... */
  lemma LoudReadRunsAhead(s: State, level: nat, v: Value, e: Event)
    requires Stands(s, Examining(level, v)) && e.Callback? && e.level == level && (e.rejects || !e.value.Object?)
    ensures Resolve(Examining(level, v), s.Top(), e) == Examining(level, v)
    ensures Step(s, e).Fate().Some? && !Stands(Step(s, e), Examining(level, v))
  {
  }

  /** ... so that a thenable that passes an object whose `then` getter resolves the same thenable with 7
      settles the deferred with 7 and not with that object. */
  lemma GetterWins(s: State)
    requires s == Step(Step(START, Callback(0, false, Object(1))), ReadFunction)
    ensures var passes, getter := Callback(1, false, Object(2)), Callback(1, false, Primitive(7));
            var t := Step(s, passes);
            var u := Step(t, getter);
            && Stands(s, Waiting(1)) && !QuietRead(t, getter)
            && Resolve(Resolve(Resolve(Waiting(1), s.Top(), passes), t.Top(), getter), u.Top(), ReadOther) ==
               Settled(true, Datum(2))
            && Step(u, ReadOther).Fate() == Some(D.Settle(true, Datum(7)))
  {
  }

  // ----- the closures

  /** The closures of one call of `then`. */
  class ThenCall {
    var maxDepth: nat
    var frames: seq<Frame>
    /** The calls of `resolveWith` and `rejectWith` of the new deferred. */
    var issued: seq<D.Op>
    /** What has happened so far. */
    ghost var events: seq<Event>

    ghost function Model(): State
      reads this
    {
      State(maxDepth, frames, issued)
    }

    ghost predicate Valid()
      reads this
    {
      Model() == RunClosures(events)
    }

    constructor ()
      ensures Valid() && events == []
    {
      maxDepth, frames, issued, events := 0, [], [], [];
    }

    method Settle(resolve: bool, data: nat)
      modifies this`issued
      ensures issued == old(issued) + [D.Settle(resolve, data)]
    {
      issued := issued + [D.Settle(resolve, data)];
    }

    method Catch(depth: nat, error: nat)
      modifies this`issued
      ensures issued == if depth + 1 >= maxDepth then old(issued) + [D.Settle(false, error)] else old(issued)
    {
      if depth + 1 >= maxDepth {
        Settle(false, error);
      }
    }

    /** `process`, up to the point where it looks at a returned object. */
    method Process(depth: nat, rejects: bool, value: Value)
      modifies this`frames, this`issued
      ensures Model() == Step(old(Model()), Callback(depth, rejects, value))
    {
      if depth < maxDepth {
        return;
      }
      if rejects {
        Catch(depth, Data(value));
      } else if value.Own? {
        Catch(depth, SELF_RESOLUTION);
      } else if value.Primitive? {
        Settle(true, Data(value));
      } else {
        frames := frames + [Reading(depth, value)];
      }
    }

    /** A closure is called. One of a level that was left behind touches nothing; none undoes what was done to
        the deferred; and in an orderly run, the deferred then shows the promise. */
    method Called(depth: nat, rejects: bool, value: Value)
      requires Valid()
      modifies this
      ensures Valid() && events == old(events) + [Callback(depth, rejects, value)]
      ensures maxDepth == old(maxDepth) && old(issued) <= issued
      ensures depth < maxDepth ==> frames == old(frames) && issued == old(issued)
      ensures Orderly(events) ==> Bears(issued, RunPromise(events))
    {
      events := events + [Callback(depth, rejects, value)];
      assert events[..|events| - 1] == old(events);
      Process(depth, rejects, value);
      OrderlyShows(events);
    }

    /** `process` goes on when `returned.then` was read. The counter goes up exactly when there is a thenable
        to adopt, and then nothing is done to the deferred. */
    method ThenRead(result: Event)
      requires Valid() && (result.ReadFunction? || result.ReadOther? || result.ReadThrows?)
      modifies this
      ensures Valid() && events == old(events) + [result] && old(issued) <= issued
      ensures if result.ReadFunction? && old(Model()).Top().Some? && old(Model()).Top().value.Reading?
              then maxDepth == old(maxDepth) + 1 && issued == old(issued) else maxDepth == old(maxDepth)
      ensures Orderly(events) ==> Bears(issued, RunPromise(events))
    {
      events := events + [result];
      assert events[..|events| - 1] == old(events);
      OrderlyShows(events);
      if frames == [] || !frames[|frames| - 1].Reading? {
        return;
      }
      var top := frames[|frames| - 1];
      frames := frames[..|frames| - 1];
      match result
      case ReadFunction =>
        maxDepth := maxDepth + 1;
        frames := frames + [Calling(top.depth)];
      case ReadOther => Settle(true, Data(top.value));
      case ReadThrows(error) => Catch(top.depth, Datum(error));
    }

    /** `process` goes on when `then.call` ended. A throw is passed on only by the innermost adoption. */
    method ThenEnded(result: Event)
      requires Valid() && (result.ThenReturns? || result.ThenThrows?)
      modifies this
      ensures Valid() && events == old(events) + [result] && maxDepth == old(maxDepth) && old(issued) <= issued
      ensures result.ThenReturns? || (old(frames) != [] && old(frames[|frames| - 1]).depth + 1 < maxDepth) ==>
                issued == old(issued)
      ensures Orderly(events) ==> Bears(issued, RunPromise(events))
    {
      events := events + [result];
      assert events[..|events| - 1] == old(events);
      OrderlyShows(events);
      if frames == [] || !frames[|frames| - 1].Calling? {
        return;
      }
      var top := frames[|frames| - 1];
      frames := frames[..|frames| - 1];
      if result.ThenThrows? {
        Catch(top.depth, Datum(result.error));
      }
    }
  }
}
