/** `superMatcher`, called with a seed: element matchers first, set matchers on what they leave, and
    both kinds of matches put back into seed order without sorting. */
module SuperMatcher {
  import opened Options
  import opened Dom
  import opened Selector
  import opened Compile
  import opened Engine
  import opened SetMatchers

  /** The first `n` set matchers, one after another. */
  ghost function RunSets(q: Query, sms: seq<SetMatcher>, n: nat, s: Slots): (t: Slots)
    requires q.doc.Valid() && s.Valid() && n <= |sms|
    ensures t.Valid() && |t.unmatched| == |s.unmatched|
  {
    if n == 0 then s else StepSets(q, sms[n - 1], RunSets(q, sms, n - 1, s))
  }

  /** Some element matcher accepts. */
  ghost predicate Accepted(q: Query, ms: seq<Matcher>, n: nat)
    requires q.doc.Valid()
  {
    q.doc.Has(n) && exists j: nat :: j < |ms| && Accepts(q, ms[j], n)
  }

  /** Elements that no element matcher accepts start out unmatched. */
  ghost function Initial(q: Query, ms: seq<Matcher>, elems: seq<nat>): (s: Slots)
    requires q.doc.Valid()
    ensures s.Valid() && |s.unmatched| == |elems|
  {
    Slots(seq(|elems|, p requires 0 <= p < |elems| => if Accepted(q, ms, elems[p]) then None else Some(elems[p])),
          seq(|elems|, p => None))
  }

  /** The element in slot `p` is accepted by an element matcher or ends up a set match. */
  ghost predicate IsMatch(q: Query, ms: seq<Matcher>, sms: seq<SetMatcher>, elems: seq<nat>, p: nat)
    requires q.doc.Valid() && p < |elems|
  {
    Accepted(q, ms, elems[p]) || RunSets(q, sms, |sms|, Initial(q, ms, elems)).matched[p].Some?
  }

  /** The first `n` elements for which `yes` holds, in order. */
  function Filtered(elems: seq<nat>, yes: seq<bool>, n: nat): (r: seq<Option<nat>>)
    requires n <= |elems| == |yes|
    ensures |r| <= n
  {
    if n == 0 then []
    else if yes[n - 1] then Filtered(elems, yes, n - 1) + [Some(elems[n - 1])]
    else Filtered(elems, yes, n - 1)
  }

  lemma {:induction false} FilteredCount(elems: seq<nat>, yes: seq<bool>, n: nat)
    requires n <= |elems| == |yes|
    ensures |Filtered(elems, yes, n)| == n ==> forall p: nat | p < n :: yes[p]
    ensures |Filtered(elems, yes, n)| == 0 ==> forall p: nat | p < n :: !yes[p]
  {
    if n > 0 {
      FilteredCount(elems, yes, n - 1);
    }
  }

  /** Every element is in exactly one place: accepted, unmatched, or a set match. */
  ghost predicate Partitioned(elems: seq<nat>, accepted: seq<bool>, s: Slots) {
    && |elems| == |accepted| == |s.unmatched| && s.Valid()
    && forall p: nat {:trigger s.unmatched[p]} {:trigger s.matched[p]} | p < |elems| ::
      || (accepted[p] && s.unmatched[p] == None && s.matched[p] == None)
      || (!accepted[p] && s.unmatched[p] == Some(elems[p]) && s.matched[p] == None)
      || (!accepted[p] && s.unmatched[p] == None && s.matched[p] == Some(elems[p]))
  }

  /** A slot of the seed and the slot of the results behind it: nothing moves, or the element moves over, or
      back. */
  lemma {:induction false} SlotMoves(q: Query, sm: SetMatcher, seed: seq<Option<nat>>, results: seq<Option<nat>>,
                                     p: nat)
    requires q.doc.Valid() && p < |seed| == |results|
    ensures var u, m, o := seed[p], results[p], Outcome(q, sm, seed, results, p);
            || o == (u, m) || (u.Some? && (o == (None, u) || o == (u, None))) || (m.Some? && o == (m, None))
  {
  }

  lemma {:induction false} StepPartitioned(q: Query, elems: seq<nat>, accepted: seq<bool>, sm: SetMatcher, s: Slots)
    requires q.doc.Valid() && Partitioned(elems, accepted, s)
    ensures Partitioned(elems, accepted, StepSets(q, sm, s))
  {
    var t := StepSets(q, sm, s);
    forall p: nat | p < |elems|
      ensures (t.unmatched[p], t.matched[p]) == Outcome(q, sm, s.unmatched, s.matched, p)
      ensures (t.unmatched[p] == s.unmatched[p] && t.matched[p] == s.matched[p]) ||
              (t.unmatched[p] == s.matched[p] && t.matched[p] == s.unmatched[p])
    {
      SlotMoves(q, sm, s.unmatched, s.matched, p);
    }
  }

  lemma {:induction false} NextPartitioned(q: Query, elems: seq<nat>, accepted: seq<bool>, sms: seq<SetMatcher>,
                                           n: nat, s: Slots)
    requires q.doc.Valid() && s.Valid() && 0 < n <= |sms| && Partitioned(elems, accepted, RunSets(q, sms, n - 1, s))
    ensures RunSets(q, sms, n, s) == StepSets(q, sms[n - 1], RunSets(q, sms, n - 1, s))
    ensures Partitioned(elems, accepted, RunSets(q, sms, n, s))
  {
    StepPartitioned(q, elems, accepted, sms[n - 1], RunSets(q, sms, n - 1, s));
  }

  /** Set matchers only move elements, slot for slot. */
  lemma {:induction false} StaysPartitioned(q: Query, elems: seq<nat>, accepted: seq<bool>, sms: seq<SetMatcher>,
                                            n: nat, s: Slots)
    requires q.doc.Valid() && n <= |sms| && Partitioned(elems, accepted, s)
    ensures Partitioned(elems, accepted, RunSets(q, sms, n, s))
  {
    if n > 0 {
      StaysPartitioned(q, elems, accepted, sms, n - 1, s);
      NextPartitioned(q, elems, accepted, sms, n, s);
    }
  }

  ghost function Flags(q: Query, ms: seq<Matcher>, elems: seq<nat>): (f: seq<bool>)
    requires q.doc.Valid()
    ensures |f| == |elems|
  {
    seq(|elems|, p requires 0 <= p < |elems| => Accepted(q, ms, elems[p]))
  }

  ghost function Wins(q: Query, ms: seq<Matcher>, sms: seq<SetMatcher>, elems: seq<nat>): (f: seq<bool>)
    requires q.doc.Valid()
    ensures |f| == |elems|
  {
    seq(|elems|, p requires 0 <= p < |elems| => IsMatch(q, ms, sms, elems, p))
  }

  ghost predicate Runnable(sz: Sizzle, ms: seq<Matcher>, sms: seq<SetMatcher>)
    reads sz, sz.slots.Values
  {
    && sz.Valid({})
    && (forall j: nat | j < |ms| :: Known(sz.registry, ms[j], sz.done))
    && (forall j: nat | j < |sms| :: Applicable(sz, sms[j]))
  }

  ghost predicate Same(xs: JsArray, ys: seq<Option<nat>>)
    reads xs
  {
    |xs.items| <= |ys| && forall p: nat | p < |ys| :: xs.At(p) == ys[p]
  }

  /** One element against the element matchers. */
  method AnyMatcher(sz: Sizzle, ms: seq<Matcher>, sms: seq<SetMatcher>, elem: nat) returns (r: bool)
    requires Runnable(sz, ms, sms) && sz.q.doc.Has(elem)
    modifies sz`slots
    ensures Runnable(sz, ms, sms) && r == Accepted(sz.q, ms, elem)
  {
    var j := 0;
    while j < |ms|
      invariant j <= |ms| && Runnable(sz, ms, sms)
      invariant forall k: nat | k < j :: !Accepts(sz.q, ms[k], elem)
    {
      r := sz.Matches(ms[j], elem);
      if r {
        return;
      }
      j := j + 1;
    }
    r := false;
  }

  /** One set matcher, on the unmatched seed and the set matches. */
  method ApplyOne(sz: Sizzle, ms: seq<Matcher>, sms: seq<SetMatcher>, sm: SetMatcher, elems: seq<nat>,
                  ghost accepted: seq<bool>, ghost before: Slots, unmatched: JsArray, setMatched: JsArray)
    requires Runnable(sz, ms, sms) && sm in sms && unmatched != setMatched
    requires forall p: nat | p < |elems| :: sz.q.doc.Has(elems[p])
    requires Partitioned(elems, accepted, before)
    requires unmatched.items == before.unmatched && Same(setMatched, before.matched)
    modifies sz`slots, unmatched, setMatched
    ensures Runnable(sz, ms, sms)
    ensures unmatched.items == StepSets(sz.q, sm, before).unmatched
    ensures Same(setMatched, StepSets(sz.q, sm, before).matched)
  {
    assert before.matched == Padded(setMatched.items, |elems|) by {
      assert forall p: nat | p < |elems| :: before.matched[p] == setMatched.At(p);
    }
    assert Nodes(sz.q.doc, setMatched.items) by {
      assert forall p: nat | p < |setMatched.items| :: setMatched.items[p] == setMatched.At(p);
    }
    Apply(sz, sm, unmatched, setMatched);
    forall p: nat | p < |elems|
      ensures unmatched.items[p] == unmatched.At(p)
      ensures (unmatched.At(p), setMatched.At(p)) == Outcome(sz.q, sm, before.unmatched, before.matched, p)
    {
    }
  }

  /** The set matchers in turn, on the same two arrays. */
  method ApplySets(sz: Sizzle, ms: seq<Matcher>, sms: seq<SetMatcher>, elems: seq<nat>, unmatched: JsArray,
                   setMatched: JsArray)
    requires Runnable(sz, ms, sms) && unmatched != setMatched
    requires forall p: nat | p < |elems| :: sz.q.doc.Has(elems[p])
    requires unmatched.items == Initial(sz.q, ms, elems).unmatched && setMatched.items == []
    modifies sz`slots, unmatched, setMatched
    ensures Runnable(sz, ms, sms)
    ensures unmatched.items == RunSets(sz.q, sms, |sms|, Initial(sz.q, ms, elems)).unmatched
    ensures Same(setMatched, RunSets(sz.q, sms, |sms|, Initial(sz.q, ms, elems)).matched)
  {
    ghost var accepted, start := Flags(sz.q, ms, elems), Initial(sz.q, ms, elems);
    ghost var s := start;
    var j := 0;
    while j < |sms|
      invariant j <= |sms| && Runnable(sz, ms, sms)
      invariant s == RunSets(sz.q, sms, j, start) && Partitioned(elems, accepted, s)
      invariant unmatched.items == s.unmatched && Same(setMatched, s.matched)
    {
      ApplyOne(sz, ms, sms, sms[j], elems, accepted, s, unmatched, setMatched);
      j := j + 1;
      NextPartitioned(sz.q, elems, accepted, sms, j, start);
      s := RunSets(sz.q, sms, j, start);
    }
  }

  /** Pops the element matches back off the results, last first, into their own slots. */
  method Reintegrate(elems: seq<nat>, ghost accepted: seq<bool>, ghost s: Slots, ghost before: seq<Option<nat>>,
                     unmatched: JsArray, setMatched: JsArray, results: JsArray)
    requires Partitioned(elems, accepted, s)
    requires unmatched != setMatched && unmatched != results && setMatched != results
    requires unmatched.items == s.unmatched && Same(setMatched, s.matched)
    requires results.items == before + Filtered(elems, accepted, |elems|)
    modifies setMatched, results
    ensures results.items == before
    ensures |setMatched.items| <= |elems| && forall p: nat | p < |elems| ::
              setMatched.At(p) == if accepted[p] then Some(elems[p]) else s.matched[p]
  {
    var i := |elems|;
    while i > 0
      invariant 0 <= i <= |elems| && |setMatched.items| <= |elems|
      invariant results.items == before + Filtered(elems, accepted, i)
      invariant forall p: nat | p < |elems| ::
                  setMatched.At(p) == if p >= i && accepted[p] then Some(elems[p]) else s.matched[p]
    {
      i := i - 1;
      if unmatched.At(i).None? && setMatched.At(i).None? {
        assert results.items == before + Filtered(elems, accepted, i) + [Some(elems[i])];
        var x := results.Pop();
        setMatched.Put(i, x);
      }
    }
  }

  /** Condensing the set matches leaves the winners in seed order. */
  lemma {:induction false} CondensedWinners(q: Query, elems: seq<nat>, yes: seq<bool>, xs: seq<Option<nat>>, n: nat)
    requires q.doc.Valid() && |elems| == |yes| && |xs| <= |elems| && n <= |xs|
    requires forall p: nat | p < |elems| ::
             (if p < |xs| then xs[p] else None) == if yes[p] then Some(elems[p]) else None
    ensures seq(|Kept(q, None, xs, n)|, i requires 0 <= i < |Kept(q, None, xs, n)| => xs[Kept(q, None, xs, n)[i]]) ==
            Filtered(elems, yes, n)
  {
    if n > 0 {
      CondensedWinners(q, elems, yes, xs, n - 1);
    }
  }

  lemma {:induction false} NothingBeyond(elems: seq<nat>, yes: seq<bool>, m: nat, n: nat)
    requires m <= n <= |elems| == |yes| && forall p: nat | m <= p < n :: !yes[p]
    ensures Filtered(elems, yes, n) == Filtered(elems, yes, m)
  {
    if m < n {
      NothingBeyond(elems, yes, m, n - 1);
    }
  }

  /** Nothing is unmatched, and there are no set matches. */
  ghost predicate Bare(s: Slots)
    requires s.Valid()
  {
    forall p: nat {:trigger s.unmatched[p]} {:trigger s.matched[p]} | p < |s.unmatched| ::
      s.unmatched[p] == None && s.matched[p] == None
  }

  lemma {:induction false} NothingMoves(q: Query, sm: SetMatcher, s: Slots)
    requires q.doc.Valid() && s.Valid() && Bare(s)
    ensures Bare(StepSets(q, sm, s))
  {
    forall p: nat | p < |s.unmatched| ensures Outcome(q, sm, s.unmatched, s.matched, p) == (None, None) {
      SlotMoves(q, sm, s.unmatched, s.matched, p);
    }
  }

  /** With nothing unmatched the set matchers find nothing. */
  lemma {:induction false} NothingToFind(q: Query, sms: seq<SetMatcher>, n: nat, s: Slots)
    requires q.doc.Valid() && s.Valid() && n <= |sms| && Bare(s)
    ensures Bare(RunSets(q, sms, n, s))
  {
    if n > 0 {
      NothingToFind(q, sms, n - 1, s);
      NothingMoves(q, sms[n - 1], RunSets(q, sms, n - 1, s));
    }
  }

  /** One element of the seed; the count goes down with each that no element matcher accepts. */
  method MatchElement(sz: Sizzle, ms: seq<Matcher>, sms: seq<SetMatcher>, elem: nat, results: JsArray,
                      unmatched: JsArray,
                      matchedCount: int)
    returns (count: int)
    requires Runnable(sz, ms, sms) && sz.q.doc.Has(elem) && results != unmatched
    modifies sz`slots, results, unmatched
    ensures Runnable(sz, ms, sms)
    ensures var yes := Accepted(sz.q, ms, elem);
            && results.items == old(results.items) + (if yes then [Some(elem)] else [])
            && (|sms| > 0 ==> unmatched.items == old(unmatched.items) + [if yes then None else Some(elem)])
            && (|sms| > 0 ==> count == if yes then matchedCount else matchedCount - 1)
  {
    count := matchedCount;
    var matcher := false;
    if |ms| > 0 {
      matcher := AnyMatcher(sz, ms, sms, elem);
      if matcher {
        results.Push(Some(elem));
      }
    }
    if |sms| > 0 {
      if !matcher {
        count := count - 1;
      }
      unmatched.Push(if matcher then None else Some(elem));
    }
  }

  /** Element matches go straight to the results; the rest is kept for the set matchers. */
  method MatchElements(sz: Sizzle, ms: seq<Matcher>, sms: seq<SetMatcher>, elems: seq<nat>, results: JsArray)
    returns (unmatched: JsArray, matchedCount: int)
    requires Runnable(sz, ms, sms)
    requires forall p: nat | p < |elems| :: sz.q.doc.Has(elems[p])
    modifies sz`slots, results
    ensures Runnable(sz, ms, sms) && fresh(unmatched)
    ensures results.items == old(results.items) + Filtered(elems, Flags(sz.q, ms, elems), |elems|)
    ensures |sms| > 0 ==> unmatched.items == Initial(sz.q, ms, elems).unmatched
    ensures |sms| > 0 ==> matchedCount == |Filtered(elems, Flags(sz.q, ms, elems), |elems|)|
  {
    ghost var accepted, start := Flags(sz.q, ms, elems), Initial(sz.q, ms, elems);
    unmatched := new JsArray([]);
    var i := 0;
    matchedCount := 0;
    while i < |elems|
      invariant i <= |elems| && Runnable(sz, ms, sms) && results != unmatched
      invariant results.items == old(results.items) + Filtered(elems, accepted, i)
      invariant |sms| > 0 ==> unmatched.items == start.unmatched[..i]
      invariant |sms| > 0 ==> matchedCount + i == |Filtered(elems, accepted, i)|
    {
      matchedCount := MatchElement(sz, ms, sms, elems[i], results, unmatched, matchedCount);
      assert start.unmatched[..i + 1] == start.unmatched[..i] + [start.unmatched[i]];
      i := i + 1;
    }
    assert start.unmatched[..i] == start.unmatched;
    matchedCount := matchedCount + i;
  }

  /** Condenses the set matches and appends them. */
  method AppendWinners(sz: Sizzle, ms: seq<Matcher>, sms: seq<SetMatcher>, elems: seq<nat>, ghost yes: seq<bool>,
                       setMatched: JsArray, results: JsArray)
    requires Runnable(sz, ms, sms) && setMatched != results && |elems| == |yes| && |setMatched.items| <= |elems|
    requires forall p: nat | p < |elems| :: setMatched.At(p) == if yes[p] then Some(elems[p]) else None
    requires forall p: nat | p < |elems| :: sz.q.doc.Has(elems[p])
    modifies sz`slots, results
    ensures Runnable(sz, ms, sms) && results.items == old(results.items) + Filtered(elems, yes, |elems|)
  {
    ghost var xs := setMatched.items;
    assert forall p: nat | p < |elems| :: (if p < |xs| then xs[p] else None) == setMatched.At(p);
    CondensedWinners(sz.q, elems, yes, xs, |xs|);
    NothingBeyond(elems, yes, |xs|, |elems|);
    var condensed, _ := Condense(sz, setMatched, None);
    assert condensed.items == Filtered(elems, yes, |elems|);
    results.items := results.items + condensed.items;
  }

  /** With every element accepted, or no set matchers, nothing else wins. */
  lemma {:induction false} OnlyAccepted(q: Query, ms: seq<Matcher>, sms: seq<SetMatcher>, elems: seq<nat>)
    requires q.doc.Valid()
    requires |sms| == 0 || forall p: nat | p < |elems| :: Flags(q, ms, elems)[p]
    ensures Wins(q, ms, sms, elems) == Flags(q, ms, elems)
  {
    var start := Initial(q, ms, elems);
    if |sms| > 0 {
      forall p: nat | p < |elems| ensures start.unmatched[p] == None && start.matched[p] == None {
        assert Flags(q, ms, elems)[p];
      }
      NothingToFind(q, sms, |sms|, start);
    }
    forall p: nat | p < |elems| ensures Wins(q, ms, sms, elems)[p] == Flags(q, ms, elems)[p] {
    }
  }

  /** The set matchers' part. */
  method AddSetMatches(sz: Sizzle, ms: seq<Matcher>, sms: seq<SetMatcher>, elems: seq<nat>, unmatched: JsArray,
                       matchedCount: int,
                       results: JsArray, ghost before: seq<Option<nat>>)
    requires Runnable(sz, ms, sms) && unmatched != results
    requires forall p: nat | p < |elems| :: sz.q.doc.Has(elems[p])
    requires unmatched.items == Initial(sz.q, ms, elems).unmatched
    requires results.items == before + Filtered(elems, Flags(sz.q, ms, elems), |elems|)
    requires matchedCount == |Filtered(elems, Flags(sz.q, ms, elems), |elems|)|
    modifies sz`slots, results, unmatched
    ensures Runnable(sz, ms, sms)
    ensures results.items == before + Filtered(elems, Wins(sz.q, ms, sms, elems), |elems|)
  {
    ghost var accepted, start := Flags(sz.q, ms, elems), Initial(sz.q, ms, elems);
    ghost var final := RunSets(sz.q, sms, |sms|, start);
    var setMatched := new JsArray([]);
    ApplySets(sz, ms, sms, elems, unmatched, setMatched);
    StaysPartitioned(sz.q, elems, accepted, sms, |sms|, start);
    PutTogether(sz, ms, sms, elems, accepted, final, unmatched, setMatched, matchedCount, results, before);
    ghost var yes := Together(accepted, final);
    assert yes == Wins(sz.q, ms, sms, elems);
  }

  /** Accepted, or a set match. */
  function Together(accepted: seq<bool>, s: Slots): (yes: seq<bool>)
    requires |accepted| == |s.matched|
    ensures |yes| == |accepted| && forall p: nat | p < |yes| :: yes[p] == (accepted[p] || s.matched[p].Some?)
  {
    seq(|accepted|, p requires 0 <= p < |accepted| => accepted[p] || s.matched[p].Some?)
  }

  /** Both kinds of matches, in seed order, behind the old results. */
  method PutTogether(sz: Sizzle, ms: seq<Matcher>, sms: seq<SetMatcher>, elems: seq<nat>, ghost accepted: seq<bool>,
                     ghost s: Slots, unmatched: JsArray, setMatched: JsArray, matchedCount: int, results: JsArray,
                     ghost before: seq<Option<nat>>)
    requires Runnable(sz, ms, sms) && unmatched != setMatched && unmatched != results && setMatched != results
    requires Partitioned(elems, accepted, s)
    requires forall p: nat | p < |elems| :: sz.q.doc.Has(elems[p])
    requires unmatched.items == s.unmatched && Same(setMatched, s.matched)
    requires results.items == before + Filtered(elems, accepted, |elems|)
    requires matchedCount == |Filtered(elems, accepted, |elems|)|
    modifies sz`slots, setMatched, results
    ensures Runnable(sz, ms, sms) && results.items == before + Filtered(elems, Together(accepted, s), |elems|)
  {
    FilteredCount(elems, accepted, |elems|);
    if matchedCount > 0 {
      Reintegrate(elems, accepted, s, before, unmatched, setMatched, results);
    }
    AppendWinners(sz, ms, sms, elems, Together(accepted, s), setMatched, results);
  }

  /** The old results, followed by exactly the matched elements of the seed, in seed order. */
  method SuperMatcher(sz: Sizzle, ms: seq<Matcher>, sms: seq<SetMatcher>, elems: seq<nat>, results: JsArray)
    requires Runnable(sz, ms, sms)
    requires forall p: nat | p < |elems| :: sz.q.doc.Has(elems[p])
    modifies sz`slots, results
    ensures Runnable(sz, ms, sms)
    ensures results.items == old(results.items) + Filtered(elems, Wins(sz.q, ms, sms, elems), |elems|)
    ensures forall p: nat | p < |elems| :: Wins(sz.q, ms, sms, elems)[p] <==> Wanted(sz.q, ms, sms, elems, p)
  {
    forall p: nat | p < |elems| ensures Wins(sz.q, ms, sms, elems)[p] <==> Wanted(sz.q, ms, sms, elems, p) {
      WinnersAreWanted(sz.q, ms, sms, elems, p);
    }
    var unmatched, matchedCount := MatchElements(sz, ms, sms, elems, results);
    // After no iteration the count is the string "00", which differs from the string "0".
    if |sms| > 0 && (|elems| == 0 || |elems| != matchedCount) {
      AddSetMatches(sz, ms, sms, elems, unmatched, matchedCount, results, old(results.items));
    } else {
      FilteredCount(elems, Flags(sz.q, ms, elems), |elems|);
      OnlyAccepted(sz.q, ms, sms, elems);
    }
  }

  // ----- whole selectors

  /** A comma separated selector without positional pseudos. */
  predicate Groups(groups: seq<seq<Token>>) {
    forall j: nat | j < |groups| :: |groups[j]| > 0
  }

  /** Groups are compiled last to first. */
  function CompiledGroups(groups: seq<seq<Token>>, names: seq<nat>): (ms: seq<Matcher>)
    requires |groups| == |names| && Groups(groups)
    ensures |ms| == |groups| && forall j: nat | j < |ms| :: ms[j] == Compiled(groups[|groups| - 1 - j], names[j])
  {
    seq(|groups|, j requires 0 <= j < |groups| => Compiled(groups[|groups| - 1 - j], names[j]))
  }

  ghost predicate SelectedByGroup(q: Query, groups: seq<seq<Token>>, n: nat)
    requires q.doc.Valid() && Groups(groups)
  {
    exists j: nat :: j < |groups| && Selects(q, Parse(groups[j], |groups[j]|), n)
  }

  lemma {:induction false} GroupsPreserveMeaning(q: Query, groups: seq<seq<Token>>, names: seq<nat>, n: nat)
    requires q.doc.Valid() && q.doc.Has(n) && Groups(groups) && |groups| == |names|
    ensures Accepted(q, CompiledGroups(groups, names), n) <==> SelectedByGroup(q, groups, n)
  {
    var ms, last := CompiledGroups(groups, names), |groups| - 1;
    forall j: nat | j < |groups|
      ensures Accepts(q, ms[last - j], n) <==> Selects(q, Parse(groups[j], |groups[j]|), n)
    {
      CompilationPreservesMeaning(q, groups[j], names[last - j], n);
    }
    if j: nat :| j < |ms| && Accepts(q, ms[j], n) {
      assert ms[last - (last - j)] == ms[j];
    }
  }

  /** The part of `compile` that makes element matchers, for groups without positional pseudos. */
  method CompileGroups(sz: Sizzle, groups: seq<seq<Token>>) returns (ms: seq<Matcher>, ghost names: seq<nat>)
    requires sz.Valid({}) && Groups(groups)
    modifies sz`done, sz`registry
    ensures |names| == |groups| && ms == CompiledGroups(groups, names) && Runnable(sz, ms, [])
  {
    ms, names := [], [];
    var i := |groups|;
    while i > 0
      invariant Runnable(sz, ms, []) && 0 <= i && |names| == |ms| == |groups| - i
      invariant forall j: nat | j < |ms| :: ms[j] == Compiled(groups[|groups| - 1 - j], names[j])
    {
      i := i - 1;
      label Before:
      var m := sz.MatcherFromTokens(groups[i]);
      forall j: nat | j < |ms| ensures Known(sz.registry, ms[j], sz.done) {
        KnownStill(old@Before(sz.registry), sz.registry, ms[j], old@Before(sz.done), sz.done);
      }
      ms, names := ms + [m], names + [old@Before(sz.done)];
    }
  }

  /** From the tokens to the results: a selector without positional pseudos, compiled and run on a seed with
      all caches, appends exactly the elements that end a chain of one of its groups, in seed order. */
  method Select(sz: Sizzle, groups: seq<seq<Token>>, elems: seq<nat>, results: JsArray, ghost selected: seq<bool>)
    requires sz.Valid({}) && Groups(groups)
    requires |selected| == |elems| && forall p: nat | p < |elems| ::
               sz.q.doc.Has(elems[p]) && (selected[p] <==> SelectedByGroup(sz.q, groups, elems[p]))
    modifies sz`done, sz`registry, sz`slots, results
    ensures sz.Valid({}) && results.items == old(results.items) + Filtered(elems, selected, |elems|)
  {
    ghost var names;
    var ms;
    ms, names := CompileGroups(sz, groups);
    forall p: nat | p < |elems| ensures selected[p] == Flags(sz.q, ms, elems)[p] {
      GroupsPreserveMeaning(sz.q, groups, names, elems[p]);
    }
    OnlyAccepted(sz.q, ms, [], elems);
    assert selected == Wins(sz.q, ms, [], elems);
    SuperMatcher(sz, ms, [], elems, results);
  }

  // ----- what several set matchers select together

  /** A set matcher that cannot take earlier matches back. */
  predicate Guarded(sm: SetMatcher) {
    sm.preFilter.Some? || sm.postFilter.None?
  }

  /** Set matcher `k` selects slot `p` from what the ones before it have left. */
  ghost predicate SelectedBy(q: Query, sms: seq<SetMatcher>, k: nat, s: Slots, p: nat)
    requires q.doc.Valid() && s.Valid() && k < |sms| && p < |s.unmatched|
  {
    var t := RunSets(q, sms, k, s);
    Selected(q, sms[k], t.unmatched, t.matched, p)
  }

  /** Set matcher `sm` leaves a match in slot `p` alone. */
  ghost predicate Spares(q: Query, sm: SetMatcher, s: Slots, p: nat)
    requires q.doc.Valid() && s.Valid() && p < |s.unmatched|
  {
    Guarded(sm) || Lets(q, sm.postFilter, Outs(q, sm, s.unmatched, s.matched), p)
  }

  ghost predicate SparedBy(q: Query, sms: seq<SetMatcher>, k: nat, s: Slots, p: nat)
    requires q.doc.Valid() && s.Valid() && k < |sms| && p < |s.unmatched|
  {
    Spares(q, sms[k], RunSets(q, sms, k, s), p)
  }

  /** Which set matchers select slot `p`, and which leave a match there alone. */
  ghost function Selecting(q: Query, sms: seq<SetMatcher>, s: Slots, p: nat): (f: seq<bool>)
    requires q.doc.Valid() && s.Valid() && p < |s.unmatched|
    ensures |f| == |sms|
  {
    seq(|sms|, k requires 0 <= k < |sms| => SelectedBy(q, sms, k, s, p))
  }

  ghost function Sparing(q: Query, sms: seq<SetMatcher>, s: Slots, p: nat): (f: seq<bool>)
    requires q.doc.Valid() && s.Valid() && p < |s.unmatched|
    ensures |f| == |sms|
  {
    seq(|sms|, k requires 0 <= k < |sms| => SparedBy(q, sms, k, s, p))
  }

  /** Number `k`, one of the first `n`, selects, and all later ones spare. */
  predicate LastingMatch(selecting: seq<bool>, sparing: seq<bool>, k: nat, n: nat)
    requires n <= |selecting| == |sparing|
  {
    k < n && selecting[k] && forall l: nat | k < l < n :: sparing[l]
  }

  predicate Lasts(selecting: seq<bool>, sparing: seq<bool>, n: nat)
    requires n <= |selecting| == |sparing|
  {
    exists k: nat | k < n :: LastingMatch(selecting, sparing, k, n)
  }

  lemma {:induction false} MatchStep(q: Query, elems: seq<nat>, accepted: seq<bool>, sm: SetMatcher, s: Slots, p: nat)
    requires q.doc.Valid() && Partitioned(elems, accepted, s) && p < |elems|
    ensures StepSets(q, sm, s).matched[p].Some? <==>
            Selected(q, sm, s.unmatched, s.matched, p) || (s.matched[p].Some? && Spares(q, sm, s, p))
  {
    assert StepSets(q, sm, s).matched[p] == Outcome(q, sm, s.unmatched, s.matched, p).1;
  }

  lemma {:induction false} NextMatch(q: Query, elems: seq<nat>, accepted: seq<bool>, sms: seq<SetMatcher>, n: nat,
                                     s: Slots, p: nat)
    requires q.doc.Valid() && s.Valid() && 0 < n <= |sms| && p < |elems|
    requires Partitioned(elems, accepted, RunSets(q, sms, n - 1, s))
    ensures RunSets(q, sms, n, s).matched[p].Some? <==>
            || SelectedBy(q, sms, n - 1, s, p)
            || (SparedBy(q, sms, n - 1, s, p) && RunSets(q, sms, n - 1, s).matched[p].Some?)
  {
    MatchStep(q, elems, accepted, sms[n - 1], RunSets(q, sms, n - 1, s), p);
  }

  lemma {:induction false} LastsNext(q: Query, sms: seq<SetMatcher>, n: nat, s: Slots, p: nat)
    requires q.doc.Valid() && s.Valid() && 0 < n <= |sms| && p < |s.unmatched|
    ensures Lasts(Selecting(q, sms, s, p), Sparing(q, sms, s, p), n) <==>
            || SelectedBy(q, sms, n - 1, s, p)
            || (SparedBy(q, sms, n - 1, s, p) && Lasts(Selecting(q, sms, s, p), Sparing(q, sms, s, p), n - 1))
  {
    LastingStep(Selecting(q, sms, s, p), Sparing(q, sms, s, p), n);
  }

  lemma {:induction false} MatchedNext(q: Query, elems: seq<nat>, accepted: seq<bool>, sms: seq<SetMatcher>, n: nat,
                                       s: Slots, p: nat)
    requires q.doc.Valid() && 0 < n <= |sms| && p < |elems| && Partitioned(elems, accepted, s)
    requires RunSets(q, sms, n - 1, s).matched[p].Some? <==>
             Lasts(Selecting(q, sms, s, p), Sparing(q, sms, s, p), n - 1)
    ensures RunSets(q, sms, n, s).matched[p].Some? <==> Lasts(Selecting(q, sms, s, p), Sparing(q, sms, s, p), n)
  {
    StaysPartitioned(q, elems, accepted, sms, n - 1, s);
    NextMatch(q, elems, accepted, sms, n, s, p);
    LastsNext(q, sms, n, s, p);
  }

  /** A slot ends up matched exactly when some set matcher selected it from what the ones before it had
      left, and every later one spared it. */
  lemma {:induction false} MatchedWhen(q: Query, elems: seq<nat>, accepted: seq<bool>, sms: seq<SetMatcher>, n: nat,
                                       s: Slots, p: nat)
    requires q.doc.Valid() && n <= |sms| && p < |elems| && Partitioned(elems, accepted, s) && s.matched[p] == None
    ensures RunSets(q, sms, n, s).matched[p].Some? <==> Lasts(Selecting(q, sms, s, p), Sparing(q, sms, s, p), n)
  {
    if n > 0 {
      MatchedWhen(q, elems, accepted, sms, n - 1, s, p);
      MatchedNext(q, elems, accepted, sms, n, s, p);
    }
  }

  lemma LastingStep(selecting: seq<bool>, sparing: seq<bool>, n: nat)
    requires 0 < n <= |selecting| == |sparing|
    ensures Lasts(selecting, sparing, n) <==> selecting[n - 1] || (sparing[n - 1] && Lasts(selecting, sparing, n - 1))
  {
    if Lasts(selecting, sparing, n) {
      var k: nat :| k < n && LastingMatch(selecting, sparing, k, n);
      assert k < n - 1 ==> LastingMatch(selecting, sparing, k, n - 1);
    }
    if selecting[n - 1] {
      assert LastingMatch(selecting, sparing, n - 1, n);
    } else if sparing[n - 1] && Lasts(selecting, sparing, n - 1) {
      var k: nat :| k < n - 1 && LastingMatch(selecting, sparing, k, n - 1);
      assert LastingMatch(selecting, sparing, k, n);
    }
  }

  /** Guarded set matchers add up: a slot is matched exactly when one of them selected it from what
      the ones before it had left. */
  lemma {:induction false} GuardedUnion(q: Query, elems: seq<nat>, accepted: seq<bool>, sms: seq<SetMatcher>, n: nat,
                                        s: Slots, p: nat)
    requires q.doc.Valid() && n <= |sms| && p < |elems| && Partitioned(elems, accepted, s) && s.matched[p] == None
    requires forall k: nat | k < n :: Guarded(sms[k])
    ensures RunSets(q, sms, n, s).matched[p].Some? <==> exists k: nat :: k < n && SelectedBy(q, sms, k, s, p)
  {
    MatchedWhen(q, elems, accepted, sms, n, s, p);
    var selecting, sparing := Selecting(q, sms, s, p), Sparing(q, sms, s, p);
    forall k: nat | k < n ensures selecting[k] == SelectedBy(q, sms, k, s, p) && sparing[k] {
      assert SparedBy(q, sms, k, s, p);
    }
    forall k: nat | k < n && selecting[k] ensures LastingMatch(selecting, sparing, k, n) {
    }
  }

  /** What the results gain: elements that an element matcher accepts, and lasting set matches. */
  ghost predicate Wanted(q: Query, ms: seq<Matcher>, sms: seq<SetMatcher>, elems: seq<nat>, p: nat)
    requires q.doc.Valid() && p < |elems|
  {
    || Accepted(q, ms, elems[p])
    || var s := Initial(q, ms, elems);
       Lasts(Selecting(q, sms, s, p), Sparing(q, sms, s, p), |sms|)
  }

  lemma {:induction false} WinnersAreWanted(q: Query, ms: seq<Matcher>, sms: seq<SetMatcher>, elems: seq<nat>, p: nat)
    requires q.doc.Valid() && p < |elems|
    ensures Wins(q, ms, sms, elems)[p] <==> Wanted(q, ms, sms, elems, p)
  {
    MatchedWhen(q, elems, Flags(q, ms, elems), sms, |sms|, Initial(q, ms, elems), p);
  }

  /** `:last.x, :first` on two elements of which only the second has the class: the set matcher of
      `:first` runs first and selects the first element, and `:last.x` then takes it back. */
  lemma {:induction false} FirstIsLost(q: Query)
    requires q.doc.Valid() && q.doc.Has(0) && q.doc.Has(1)
    requires !q.holds(0, 0) && q.holds(0, 1) && !q.outermost
    ensures var x := SetMatcher(Some(Compiled([Simple(0)], 0)), None, None);
            var first, lastX := SetMatcher(None, Some(First), None), SetMatcher(None, Some(Last), Some(x));
            var s := Initial(q, [], [0, 1]);
            && Selected(q, first, s.unmatched, s.matched, 0)
            && RunSets(q, [first, lastX], 2, s) == Slots([Some(0), None], [None, Some(1)])
  {
    var x := SetMatcher(Some(Compiled([Simple(0)], 0)), None, None);
    var first, lastX := SetMatcher(None, Some(First), None), SetMatcher(None, Some(Last), Some(x));
    var s, sms := Initial(q, [], [0, 1]), [first, lastX];
    var t := Slots([None, Some(1)], [Some(0), None]);
    assert s == Slots([Some(0), Some(1)], [None, None]);
    FirstTakesOne(q, first);
    assert RunSets(q, sms, 1, s) == StepSets(q, first, RunSets(q, sms, 0, s)) == t;
    SecondOnly(q, x);
    LastTakesBack(q, lastX, x);
    assert RunSets(q, sms, 2, s) == StepSets(q, lastX, t);
  }

  lemma {:induction false} FirstTakesOne(q: Query, sm: SetMatcher)
    requires q.doc.Valid() && sm == SetMatcher(None, Some(First), None)
    ensures Selected(q, sm, [Some(0), Some(1)], [None, None], 0)
    ensures StepSets(q, sm, Slots([Some(0), Some(1)], [None, None])) == Slots([None, Some(1)], [Some(0), None])
  {
  }

  /** The postFilter of `:last.x` on both elements. */
  lemma {:induction false} SecondOnly(q: Query, x: SetMatcher)
    requires q.doc.Valid() && q.doc.Has(0) && q.doc.Has(1)
    requires !q.holds(0, 0) && q.holds(0, 1) && !q.outermost
    requires x == SetMatcher(Some(Compiled([Simple(0)], 0)), None, None)
    ensures !Lets(q, Some(x), [Some(0), Some(1)], 0) && Lets(q, Some(x), [Some(0), Some(1)], 1)
  {
    NestedCompound(q, 0);
    NestedCompound(q, 1);
    ElementLets(q, x, [Some(0), Some(1)], 0);
    ElementLets(q, x, [Some(0), Some(1)], 1);
  }

  lemma {:induction false} LastTakesBack(q: Query, sm: SetMatcher, x: SetMatcher)
    requires q.doc.Valid() && sm == SetMatcher(None, Some(Last), Some(x))
    requires !Lets(q, Some(x), [Some(0), Some(1)], 0) && Lets(q, Some(x), [Some(0), Some(1)], 1)
    ensures StepSets(q, sm, Slots([None, Some(1)], [Some(0), None])) == Slots([Some(0), None], [None, Some(1)])
  {
    var t := Slots([None, Some(1)], [Some(0), None]);
    assert Outs(q, sm, t.unmatched, t.matched) == [Some(0), Some(1)];
    StepAt(q, sm, t, 0);
    StepAt(q, sm, t, 1);
  }

  lemma NestedCompound(q: Query, n: nat)
    requires q.doc.Valid() && q.doc.Has(n) && !q.outermost
    ensures Accepts(q, Compiled([Simple(0)], 0), n) <==> q.holds(0, n)
  {
    assert Compiled([Simple(0)], 0) == ElementMatcher([FoundationFor(None, 0), Test(0)]) by {
      assert Matchers([Simple(0)], 1, 0).0 == [FoundationFor(None, 0)] + [Test(0)];
    }
    AcceptsAll(q, [FoundationFor(None, 0), Test(0)], n);
    assert Accepts(q, FoundationFor(None, 0), n);
    assert [FoundationFor(None, 0), Test(0)][1] == Test(0);
  }
}
