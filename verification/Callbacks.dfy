/** The object that `jQuery.Callbacks` returns. Its methods refine the steps of CallbacksModel. */
module Callbacks {
  import opened Options
  import opened CallbacksModel

  class Callbacks {
    const flags: Flags
    /** None once it is `""`. */
    var list: Option<seq<Entry>>
    var queue: seq<Args>
    var firingIndex: int
    var firing: bool
    var memory: Option<Args>
    var fired: bool
    var locked: bool
    /** Every call made so far; the last one is the one that runs. */
    var calls: seq<Call>
    ghost var added: seq<Entry>
    var passes: seq<Args>
    ghost var ended: seq<seq<Entry>>
    var serial: nat

    ghost function Model(): State
      reads this
    {
      State(flags, list, queue, firingIndex, firing, memory, fired, locked, calls, added, passes, ended)
    }

    ghost predicate Valid()
      reads this
    {
      serial == |added|
    }

    constructor (flags: Flags)
      ensures Valid() && Model() == Initial(flags)
    {
      this.flags, list, queue, firingIndex, firing := flags, Some([]), [], -1, false;
      memory, fired, locked, calls, added, passes, ended, serial := None, false, false, [], [], [], [], 0;
    }

    /** The loop of `fire`, from where it stands to the next call of a callback or to its end. */
    method GoOn()
      requires Valid()
      modifies this
      ensures Valid() && Model() == Proceed(old(Model()))
    {
      while true
        invariant Valid() && Proceed(Model()) == Proceed(old(Model()))
        decreases |queue|
      {
        var called := TryNext();
        if called {
          return;
        }
        if queue == [] {
          break;
        }
        Shift();
      }
      Forget();
    }

    /** `++firingIndex < list.length`, with the call or the reset that follows. */
    method TryNext() returns (called: bool)
      requires Valid()
      modifies this
      ensures Valid() && called == (0 <= old(firingIndex) + 1 < |old(Model().Entries())|)
      ensures Model() == if called then CallNext(old(Model())) else EndPass(old(Model()))
    {
      firingIndex := firingIndex + 1;
      called := 0 <= firingIndex && list.Some? && firingIndex < |list.value|;
      if called {
        calls := calls + [Call(list.value[firingIndex], memory, |passes|)];
      } else {
        firingIndex, ended := -1, ended + [Model().Entries()];
      }
    }

    /** What `fire` does behind its loop. */
    method Forget()
      requires Valid()
      modifies this
      ensures Valid() && Model() == Finish(old(Model()))
    {
      if !flags.memory {
        memory := None;
      }
      firing := false;
      if locked {
        list := if memory.Some? then Some([]) else None;
      }
    }

    method Shift()
      requires Valid() && queue != []
      modifies this
      ensures Valid() && Model() == NextPass(old(Model()))
    {
      memory, passes := Some(queue[0]), passes + [queue[0]];
      queue := queue[1..];
    }

    method Start()
      requires Valid() && queue != []
      modifies this
      ensures Valid() && Model() == Fire(old(Model()))
    {
      locked := locked || flags.once;
      fired, firing := true, true;
      Shift();
      GoOn();
    }

    /** The running callback returns. */
    method Return(isFalse: bool)
      requires Valid()
      modifies this
      ensures Valid() && Model() == Step(old(Model()), CallbacksModel.Return(isFalse))
    {
      if firing {
        if isFalse && flags.stopOnFalse {
          firingIndex := if list.Some? then |list.value| else 0;
          memory := None;
        }
        GoOn();
      }
    }

    /** `inArray( fn, list, from )`, with |list| for "not found". */
    method InArray(fn: nat, from: nat) returns (i: nat)
      requires list.Some? && from <= |list.value|
      ensures from <= i <= |list.value| && (i < |list.value| ==> list.value[i].fn == fn)
      ensures forall j: nat | from <= j < i :: list.value[j].fn != fn
    {
      i := from;
      while i < |list.value|
        invariant from <= i <= |list.value| && forall j: nat | from <= j < i :: list.value[j].fn != fn
      {
        if list.value[i].fn == fn {
          return;
        }
        i := i + 1;
      }
    }

    /** The inner function `add`. */
    method AddAll(args: seq<Arg>)
      requires Valid() && list.Some?
      modifies this
      ensures Valid() && list.Some? && Model() == PushAll(old(Model()), Flatten(args))
      decreases args
    {
      ghost var before := Model();
      var i := 0;
      while i < |args|
        invariant i <= |args| && Valid() && list.Some?
        invariant PushAll(before, Flatten(args)) == PushAll(Model(), Flatten(args[i..]))
      {
        ghost var rest := args[i..];
        assert rest[0] == args[i] && rest[1..] == args[i + 1..];
        match args[i] {
          case Function(fn) =>
            var found := InArray(fn, 0);
            if !flags.unique || found == |list.value| {
              ghost var e := Entry(fn, serial);
              list := Some(list.value + [Entry(fn, serial)]);
              added, serial := added + [e], serial + 1;
            }
          case Nested(inner) =>
            ghost var here := Model();
            AddAll(inner);
            PushAllConcat(here, Flatten(inner), Flatten(args[i + 1..]));
          case Other =>
            assert [] + Flatten(args[i + 1..]) == Flatten(args[i + 1..]);
        }
        i := i + 1;
      }
    }

    method Add(args: seq<Arg>)
      requires Valid()
      modifies this
      ensures Valid() && Model() == Step(old(Model()), CallbacksModel.Add(args))
    {
      if list.Some? {
        if memory.Some? && !firing {
          firingIndex := |list.value| - 1;
          queue := queue + [memory.value];
        }
        AddAll(args);
        if memory.Some? && !firing {
          Start();
        }
      }
    }

    /** `remove`, with one function. */
    method Remove(fn: nat)
      requires Valid()
      modifies this
      ensures Valid() && Model() == Step(old(Model()), CallbacksModel.Remove(fn))
    {
      if list.None? {
        return;
      }
      var index := InArray(fn, 0);
      while index < |list.value|
        invariant Valid() && list.Some? && index <= |list.value| &&
                  (index < |list.value| ==> list.value[index].fn == fn)
        invariant forall j: nat | j < index :: list.value[j].fn != fn
        invariant RemoveStep(Model(), fn) == RemoveStep(old(Model()), fn)
        decreases |list.value| - index
      {
        RemoveOne(Model(), fn, index);
        list := Some(list.value[..index] + list.value[index + 1..]);
        if index <= firingIndex {
          firingIndex := firingIndex - 1;
        }
        index := InArray(fn, index);
      }
      RemoveNone(Model(), fn);
    }

    /** `remove`, with all its arguments. */
    method RemoveEach(fns: seq<nat>)
      requires Valid()
      modifies this
      ensures Valid() && Model() == Run(old(Model()), Removals(fns))
    {
      for i := 0 to |fns|
        invariant Valid() && Model() == Run(old(Model()), Removals(fns[..i]))
      {
        Remove(fns[i]);
        assert Removals(fns[..i + 1])[..i] == Removals(fns[..i]);
      }
      assert fns[..|fns|] == fns;
    }

    method Empty()
      requires Valid()
      modifies this
      ensures Valid() && Model() == Step(old(Model()), CallbacksModel.Empty)
    {
      if list.Some? {
        list := Some([]);
      }
    }

    method Disable()
      requires Valid()
      modifies this
      ensures Valid() && Model() == Step(old(Model()), CallbacksModel.Disable)
    {
      locked, queue := true, [];
      list, memory := None, None;
    }

    method Lock()
      requires Valid()
      modifies this
      ensures Valid() && Model() == Step(old(Model()), CallbacksModel.Lock)
    {
      locked, queue := true, [];
      if memory.None? && !firing {
        list, memory := None, None;
      }
    }

    method FireWith(data: Args)
      requires Valid()
      modifies this
      ensures Valid() && Model() == Step(old(Model()), CallbacksModel.FireWith(data))
    {
      if !locked {
        queue := queue + [data];
        if !firing {
          Start();
        }
      }
    }
  }

  lemma {:induction false} PushAllConcat(s: State, a: seq<nat>, b: seq<nat>)
    requires s.list.Some?
    ensures PushAll(s, a + b) == PushAll(PushAll(s, a), b)
    decreases |a|
  {
    if a == [] {
      assert a + b == b;
    } else {
      assert (a + b)[0] == a[0] && (a + b)[1..] == a[1..] + b;
      PushAllConcat(Push(s, a[0]), a[1..], b);
    }
  }

  lemma {:induction false} WithoutConcat(a: seq<Entry>, b: seq<Entry>, fn: nat)
    ensures Without(a + b, fn) == Without(a, fn) + Without(b, fn)
  {
    if b == [] {
      assert a + b == a;
    } else {
      assert (a + b)[..|a + b| - 1] == a + b[..|b| - 1];
      WithoutConcat(a, b[..|b| - 1], fn);
    }
  }

  lemma WithoutOne(list: seq<Entry>, fn: nat, i: nat, n: nat)
    requires i < n <= |list| && list[i].fn == fn
    ensures Without(list[..n], fn) == Without((list[..i] + list[i + 1..])[..n - 1], fn)
  {
    var a, b := list[..i], list[i + 1..n];
    assert list[..n] == a + ([list[i]] + b) && (list[..i] + list[i + 1..])[..n - 1] == a + b;
    WithoutConcat(a, [list[i]] + b, fn);
    WithoutConcat([list[i]], b, fn);
    WithoutConcat(a, b, fn);
    assert Without([list[i]], fn) == [];
  }

  lemma IndexWithoutOne(list: seq<Entry>, f: int, fn: nat, i: nat)
    requires i < |list| && list[i].fn == fn
    ensures IndexWithout(list[..i] + list[i + 1..], if i <= f then f - 1 else f, fn) == IndexWithout(list, f, fn)
  {
    var list' := list[..i] + list[i + 1..];
    if i <= f {
      var n := if f < |list| then f + 1 else |list|;
      WithoutOne(list, fn, i, n);
    } else if f >= 0 {
      assert list'[..f + 1] == list[..f + 1];
    }
  }

  /** Splicing out one occurrence is part of removing them all. */
  lemma RemoveOne(s: State, fn: nat, i: nat)
    requires s.list.Some? && i < |s.list.value| && s.list.value[i].fn == fn
    ensures RemoveStep(s.(list := Some(s.list.value[..i] + s.list.value[i + 1..]),
                          firingIndex := if i <= s.firingIndex then s.firingIndex - 1 else s.firingIndex), fn)
            == RemoveStep(s, fn)
  {
    var list := s.list.value;
    WithoutOne(list, fn, i, |list|);
    assert list[..|list|] == list && (list[..i] + list[i + 1..])[..|list| - 1] == list[..i] + list[i + 1..];
    IndexWithoutOne(list, s.firingIndex, fn, i);
  }

  lemma IndexWithoutNone(list: seq<Entry>, f: int, fn: nat)
    requires forall j: nat | j < |list| :: list[j].fn != fn
    ensures IndexWithout(list, f, fn) == f
  {
    if f >= 0 {
      WithoutNone(list[..if f < |list| then f + 1 else |list|], fn);
    }
  }

  lemma RemoveNone(s: State, fn: nat)
    requires s.list.Some? && forall j: nat | j < |s.list.value| :: s.list.value[j].fn != fn
    ensures RemoveStep(s, fn) == s
  {
    WithoutNone(s.list.value, fn);
    IndexWithoutNone(s.list.value, s.firingIndex, fn);
  }

  lemma {:induction false} WithoutNone(list: seq<Entry>, fn: nat)
    requires forall j: nat | j < |list| :: list[j].fn != fn
    ensures Without(list, fn) == list
  {
    if list != [] {
      WithoutNone(list[..|list| - 1], fn);
    }
  }
}
