/** Seeded set matchers: positional pseudos between a filter in front and a filter behind. */
module SetMatchers {
  import opened Options
  import opened Dom
  import opened Selector
  import opened Compile
  import opened Engine

  /** A JavaScript array of nodes; a hole and `false` are both None. */
  class JsArray {
    var items: seq<Option<nat>>

    constructor (items: seq<Option<nat>>)
      ensures this.items == items
    {
      this.items := items;
    }

    function At(i: int): Option<nat>
      reads this
    {
      if 0 <= i < |items| then items[i] else None
    }

    /** `this[i] = x`: writing past the end leaves holes. */
    method Put(i: nat, x: Option<nat>)
      modifies this
      ensures forall j :: At(j) == if j == i then x else old(At(j))
      ensures |items| == if i < |old(items)| then |old(items)| else i + 1
    {
      if i < |items| {
        items := items[i := x];
      } else {
        items := items + seq(i - |items|, _ => None) + [x];
      }
    }

    method Push(x: Option<nat>)
      modifies this
      ensures items == old(items) + [x]
    {
      items := items + [x];
    }

    method Pop() returns (x: Option<nat>)
      modifies this
      ensures old(items) == [] ==> x == None && items == []
      ensures old(items) != [] ==> items == old(items)[..|old(items)| - 1] && x == old(items)[|old(items)| - 1]
    {
      if items == [] {
        return None;
      }
      x, items := items[|items| - 1], items[..|items| - 1];
    }
  }

  datatype Pick = First | Last | Eq(a: int) | Even | Odd | Lt(a: int) | Gt(a: int)

  /** The place `k` among `len` candidates is one the positional pseudo names; negative arguments
      count from the end. */
  predicate Chosen(pick: Pick, k: nat, len: nat) {
    match pick
    case First => k == 0
    case Last => k == len - 1
    case Eq(a) => k == if a < 0 then a + len else a
    case Even => k % 2 == 0
    case Odd => k % 2 == 1
    case Lt(a) => k < if a < 0 then a + len else a
    case Gt(a) => k > if a < 0 then a + len else a
  }

  /** How the pseudos go together: first and last are the places 0 and -1; even and odd take turns, even first;
      every place is below, at or above the one given, and the places below come first. */
  lemma PicksGoTogether(a: int, j: nat, k: nat, len: nat)
    requires j < k < len
    ensures Chosen(First, k, len) <==> Chosen(Eq(0), k, len)
    ensures Chosen(Last, k, len) <==> Chosen(Eq(-1), k, len)
    ensures Chosen(Eq(k), k, len) && Chosen(Eq(k - len), k, len) && !Chosen(Eq(j), k, len)
    ensures Chosen(Even, 0, len) && (Chosen(Even, k, len) <==> !Chosen(Even, k - 1, len))
    ensures Chosen(Odd, k, len) <==> !Chosen(Even, k, len)
    ensures Chosen(Lt(a), k, len) ==> !Chosen(Eq(a), k, len) && !Chosen(Gt(a), k, len)
    ensures Chosen(Gt(a), k, len) ==> !Chosen(Eq(a), k, len)
    ensures Chosen(Lt(a), k, len) || Chosen(Eq(a), k, len) || Chosen(Gt(a), k, len)
    ensures Chosen(Lt(a), k, len) || Chosen(Eq(a), k, len) ==> Chosen(Lt(a), j, len)
    ensures Chosen(Gt(a), j, len) || Chosen(Eq(a), j, len) ==> Chosen(Gt(a), k, len)
  {
  }

  /** The `fn` given to `createPositionalPseudo`; indexes outside the list may be produced. */
  method MatchIndexes(pick: Pick, len: nat) returns (indexes: seq<int>)
    ensures forall k: nat | k < len :: k in indexes <==> Chosen(pick, k, len)
  {
    match pick
    case First => indexes := [0];
    case Last => indexes := [len - 1];
    case Eq(a) => indexes := [if a < 0 then a + len else a];
    case Even => indexes := EveryOther(0, len);
    case Odd => indexes := EveryOther(1, len);
    case Lt(a) =>
      indexes := [];
      var i := if a < 0 then a + len else if a > len then len else a;
      ghost var top := i;
      i := i - 1;
      while i >= 0
        invariant forall k: nat :: k in indexes <==> i < k < top
        decreases i
      {
        indexes := indexes + [i];
        i := i - 1;
      }
    case Gt(a) =>
      indexes := [];
      var i := if a < 0 then a + len else a;
      ghost var bottom := i;
      i := i + 1;
      while i < len
        invariant bottom < i && forall k: nat | k < len :: k in indexes <==> bottom < k < i
      {
        indexes := indexes + [i];
        i := i + 1;
      }
  }

  method EveryOther(from: nat, len: nat) returns (indexes: seq<int>)
    requires from < 2
    ensures forall k: nat | k < len :: k in indexes <==> k % 2 == from
  {
    indexes := [];
    var i := from;
    while i < len
      invariant i % 2 == from && forall k: nat | k < len :: k in indexes <==> k % 2 == from && k < i
    {
      indexes := indexes + [i];
      i := i + 2;
    }
  }

  /** The matcher `createPositionalPseudo` returns: chosen elements move, slot for slot. */
  method PickOut(pick: Pick, seed: JsArray, matches: JsArray)
    requires seed != matches
    modifies seed, matches
    ensures |seed.items| == |old(seed.items)| && |matches.items| <= Max(|old(matches.items)|, |seed.items|)
    ensures forall p: nat :: seed.At(p) == if p < |seed.items| &&
            Chosen(pick, p, |seed.items|) then None else old(seed.At(p))
    ensures forall p: nat :: matches.At(p) ==
              if p < |seed.items| && Chosen(pick, p, |seed.items|) &&
                  old(seed.At(p)).Some? then old(seed.At(p)) else old(matches.At(p))
  {
    var indexes := MatchIndexes(pick, |seed.items|);
    var i := |indexes|;
    while i > 0
      invariant 0 <= i <= |indexes| && |seed.items| == |old(seed.items)|
      invariant |matches.items| <= Max(|old(matches.items)|, |seed.items|)
      invariant forall p: nat :: seed.At(p) == if p in indexes[i..] then None else old(seed.At(p))
      invariant forall p: nat :: matches.At(p) == if p in indexes[i..] &&
                old(seed.At(p)).Some? then old(seed.At(p)) else old(matches.At(p))
    {
      i := i - 1;
      var j := indexes[i];
      assert indexes[i..] == [j] + indexes[i + 1..];
      if seed.At(j).Some? {
        matches.Put(j, seed.At(j));
        seed.Put(j, None);
      }
    }
    assert indexes[0..] == indexes;
  }

  function Max(a: int, b: int): int {
    if a < b then b else a
  }

  // ----- condense

  /** `x` is an element that the filter lets through; no filter lets everything through. */
  ghost predicate Passes(q: Query, filter: Option<Matcher>, x: Option<nat>)
    requires q.doc.Valid()
  {
    x.Some? && (filter.None? || (q.doc.Has(x.value) && Accepts(q, filter.value, x.value)))
  }

  /** The indexes below `n` whose element passes, in order. */
  ghost function Kept(q: Query, filter: Option<Matcher>, xs: seq<Option<nat>>, n: nat): (ks: seq<nat>)
    requires q.doc.Valid() && n <= |xs|
    ensures |ks| <= n && forall i: nat | i < |ks| :: ks[i] < n && Passes(q, filter, xs[ks[i]])
    ensures forall i: nat, j: nat | i < j < |ks| :: ks[i] < ks[j]
  {
    if n == 0 then []
    else if Passes(q, filter, xs[n - 1]) then Kept(q, filter, xs, n - 1) + [n - 1]
    else Kept(q, filter, xs, n - 1)
  }

  /** The place of a passing element among those that pass. */
  lemma {:induction false} KeptAt(q: Query, filter: Option<Matcher>, xs: seq<Option<nat>>, p: nat, n: nat)
    requires q.doc.Valid() && p < n <= |xs| && Passes(q, filter, xs[p])
    ensures |Kept(q, filter, xs, p)| < |Kept(q, filter, xs, n)|
    ensures Kept(q, filter, xs, n)[|Kept(q, filter, xs, p)|] == p
  {
    if p < n - 1 {
      KeptAt(q, filter, xs, p, n - 1);
    }
  }

  ghost predicate Usable(sz: Sizzle, filter: Option<Matcher>)
    reads sz, sz.slots.Values
  {
    sz.Valid({}) && (filter.Some? ==> Known(sz.registry, filter.value, sz.done))
  }

  ghost predicate Nodes(doc: Doc, xs: seq<Option<nat>>) {
    forall i: nat | i < |xs| && xs[i].Some? :: doc.Has(xs[i].value)
  }

  method LetThrough(sz: Sizzle, filter: Option<Matcher>, elem: nat) returns (keep: bool)
    requires Usable(sz, filter) && sz.q.doc.Has(elem)
    modifies sz`slots
    ensures Usable(sz, filter) && keep == Passes(sz.q, filter, Some(elem))
  {
    keep := true;
    if filter.Some? {
      keep := sz.Matches(filter.value, elem);
    }
  }

  /** Entry `i` goes to the end of `out`, and its index to the end of the map, if the filter lets it through. */
  method KeepIf(sz: Sizzle, unmatched: JsArray, filter: Option<Matcher>, i: nat, out: JsArray, map_: seq<nat>)
    returns (more: seq<nat>)
    requires Usable(sz, filter) && Nodes(sz.q.doc, unmatched.items) && i < |unmatched.items| && out != unmatched
    requires map_ == Kept(sz.q, filter, unmatched.items, i)
    modifies sz`slots, out
    ensures Usable(sz, filter) && more == Kept(sz.q, filter, unmatched.items, i + 1) && map_ <= more
    ensures out.items == old(out.items) + if |more| > |map_| then [unmatched.items[i]] else []
    ensures |more| <= |map_| + 1 && (|more| > |map_| ==> more[|map_|] == i)
  {
    more := map_;
    var elem := unmatched.items[i];
    if elem.Some? {
      var keep := LetThrough(sz, filter, elem.value);
      if keep {
        out.Push(elem);
        more := more + [i];
      }
    }
  }

  method Condense(sz: Sizzle, unmatched: JsArray, filter: Option<Matcher>) returns (out: JsArray, map_: seq<nat>)
    requires Usable(sz, filter) && Nodes(sz.q.doc, unmatched.items)
    modifies sz`slots
    ensures Usable(sz, filter) && fresh(out)
    ensures map_ == Kept(sz.q, filter, unmatched.items, |unmatched.items|)
    ensures |out.items| == |map_| && forall i: nat | i < |map_| :: out.items[i] == unmatched.items[map_[i]]
  {
    out := new JsArray([]);
    map_ := [];
    for i: nat := 0 to |unmatched.items|
      invariant Usable(sz, filter) && unmatched.items == old(unmatched.items)
      invariant map_ == Kept(sz.q, filter, unmatched.items, i)
      invariant |out.items| == |map_| && forall j: nat | j < |map_| :: out.items[j] == unmatched.items[map_[j]]
    {
      map_ := KeepIf(sz, unmatched, filter, i, out, map_);
    }
  }

  /** What condensing leaves, in order. */
  ghost function Condensed(q: Query, filter: Option<Matcher>, xs: seq<Option<nat>>): (ys: seq<Option<nat>>)
    requires q.doc.Valid()
    ensures |ys| == |Kept(q, filter, xs, |xs|)|
    ensures forall i: nat | i < |ys| :: ys[i] == xs[Kept(q, filter, xs, |xs|)[i]] && Passes(q, filter, ys[i])
  {
    var ks := Kept(q, filter, xs, |xs|);
    seq(|ks|, i requires 0 <= i < |ks| => xs[ks[i]])
  }

  lemma {:induction false} KeptMember(q: Query, filter: Option<Matcher>, xs: seq<Option<nat>>, p: nat, n: nat)
    requires q.doc.Valid() && n <= |xs|
    ensures p in Kept(q, filter, xs, n) <==> p < n && Passes(q, filter, xs[p])
  {
    if p < n && Passes(q, filter, xs[p]) {
      KeptAt(q, filter, xs, p, n);
    }
  }

  lemma {:induction false} KeptPlace(q: Query, filter: Option<Matcher>, xs: seq<Option<nat>>, i: nat, n: nat)
    requires q.doc.Valid() && n <= |xs| && i < |Kept(q, filter, xs, n)|
    ensures |Kept(q, filter, xs, Kept(q, filter, xs, n)[i])| == i
  {
    var p := Kept(q, filter, xs, n)[i];
    KeptAt(q, filter, xs, p, n);
  }

  /** Holes at the end make no difference. */
  lemma {:induction false} KeptPadded(q: Query, xs: seq<Option<nat>>, ys: seq<Option<nat>>, n: nat)
    requires q.doc.Valid() && n <= |ys| && |xs| <= |ys|
    requires forall i: nat | i < |ys| :: ys[i] == if i < |xs| then xs[i] else None
    ensures Kept(q, None, ys, n) == Kept(q, None, xs, if n <= |xs| then n else |xs|)
  {
    if n > 0 {
      KeptPadded(q, xs, ys, n - 1);
    }
  }

  // ----- setMatcher with a seed and without a postFinder

  /** The arguments of `setMatcher`. Without a preFilter there is a positional matcher (`matcherFromTokens`
      makes no other kind). A postFilter that is an element matcher is wrapped as the preFilter of another. */
  datatype SetMatcher = SetMatcher(preFilter: Option<Matcher>, pick: Option<Pick>, postFilter: Option<SetMatcher>)

  /** Shapes that `matcherFromTokens` makes, with walks that the registry knows. */
  ghost predicate KnownSets(registry: map<nat, Matcher>, sm: SetMatcher, bound: nat)
    decreases sm
  {
    && (sm.preFilter.Some? || sm.pick.Some?) && (sm.pick.None? ==> sm.postFilter.None?)
    && (sm.preFilter.Some? ==> Known(registry, sm.preFilter.value, bound))
    && (sm.postFilter.Some? ==> KnownSets(registry, sm.postFilter.value, bound))
  }

  ghost predicate Applicable(sz: Sizzle, sm: SetMatcher)
    reads sz, sz.slots.Values
  {
    sz.Valid({}) && KnownSets(sz.registry, sm, sz.done)
  }

  /** The candidates of the positional matcher: holes count only when nothing was filtered out in front. */
  ghost function Cands(q: Query, sm: SetMatcher, seed: seq<Option<nat>>): (c: seq<Option<nat>>)
    requires q.doc.Valid()
    ensures |c| == Place(q, sm, seed, |seed|)
  {
    if sm.preFilter.Some? then Condensed(q, sm.preFilter, seed) else seed
  }

  /** The place of slot `p` among the candidates. */
  ghost function Place(q: Query, sm: SetMatcher, seed: seq<Option<nat>>, p: nat): nat
    requires q.doc.Valid() && p <= |seed|
  {
    if sm.preFilter.Some? then |Kept(q, sm.preFilter, seed, p)| else p
  }

  /** The element in slot `p` passes the preFilter and is picked positionally among those that pass. */
  ghost predicate Picked(q: Query, sm: SetMatcher, seed: seq<Option<nat>>, p: nat)
    requires q.doc.Valid() && p < |seed|
  {
    && Passes(q, sm.preFilter, seed[p])
    && (sm.pick.Some? ==> Chosen(sm.pick.value, Place(q, sm, seed, p), Place(q, sm, seed, |seed|)))
  }

  /** What the positional matcher alone would leave in place `i` of the results. */
  function Moved(pick: Option<Pick>, x: Option<nat>, y: Option<nat>, i: nat, len: nat): Option<nat> {
    if (pick.Some? ==> Chosen(pick.value, i, len)) && x.Some? then x else y
  }

  /** The output of the positional matcher on candidates `c`, on top of `r`. */
  ghost function Output(pick: Option<Pick>, c: seq<Option<nat>>, r: seq<Option<nat>>): (outs: seq<Option<nat>>)
    ensures |outs| == |c|
    ensures forall i: nat | i < |c| :: outs[i] == Moved(pick, c[i], if i < |r| then r[i] else None, i, |c|)
  {
    seq(|c|, i requires 0 <= i < |c| => Moved(pick, c[i], if i < |r| then r[i] else None, i, |c|))
  }

  /** What the positional matcher leaves in its output; without a preFilter on top of earlier results. */
  ghost function Outs(q: Query, sm: SetMatcher, seed: seq<Option<nat>>, results: seq<Option<nat>>):
    (outs: seq<Option<nat>>)
    requires q.doc.Valid() && |results| == |seed|
    ensures |outs| == |Cands(q, sm, seed)|
  {
    Output(sm.pick, Cands(q, sm, seed), if sm.preFilter.None? then results else [])
  }

  function Blank(n: nat): (xs: seq<Option<nat>>)
    ensures |xs| == n && forall i: nat | i < n :: xs[i] == None
  {
    seq(n, i => None)
  }

  /** The unmatched seed and the set matches, slot by slot. */
  datatype Slots = Slots(unmatched: seq<Option<nat>>, matched: seq<Option<nat>>) {
    predicate Valid() {
      |unmatched| == |matched|
    }
  }

  /** The postFilter is put to what is left when `outs` is condensed, and takes out of it what is to stay; it
      lets place `i` be. */
  ghost predicate Lets(q: Query, postFilter: Option<SetMatcher>, outs: seq<Option<nat>>, i: nat)
    requires q.doc.Valid() && i < |outs|
    decreases postFilter, 0
  {
    && outs[i].Some?
    && (postFilter.Some? ==>
          var temp, k := Condensed(q, None, outs), |Kept(q, None, outs, i)|;
          k < |temp| && StepSets(q, postFilter.value, Slots(temp, Blank(|temp|))).unmatched[k].None?)
  }

  /** The element in slot `p` is picked, and the postFilter lets it be. */
  ghost predicate Selected(q: Query, sm: SetMatcher, seed: seq<Option<nat>>, results: seq<Option<nat>>, p: nat)
    requires q.doc.Valid() && p < |seed| == |results|
    decreases sm, 1
  {
    && Picked(q, sm, seed, p)
    && var i := Place(q, sm, seed, p);
       i < |Cands(q, sm, seed)| && Lets(q, sm.postFilter, Outs(q, sm, seed, results), i)
  }

  /** What the set matcher leaves in slot `p` of the seed and of the results. Without a preFilter the
      postFilter is put to earlier results as well, and takes back those that it does not let be. */
  ghost function Outcome(q: Query, sm: SetMatcher, seed: seq<Option<nat>>, results: seq<Option<nat>>, p: nat):
    (Option<nat>, Option<nat>)
    requires q.doc.Valid() && p < |seed| == |results|
    decreases sm, 2
  {
    var outs := Outs(q, sm, seed, results);
    if Selected(q, sm, seed, results, p) then (None, seed[p])
    else if sm.preFilter.None? && outs[p].Some? && !Lets(q, sm.postFilter, outs, p) then (outs[p], None)
    else (seed[p], results[p])
  }

  ghost function StepSets(q: Query, sm: SetMatcher, s: Slots): (t: Slots)
    requires q.doc.Valid() && s.Valid()
    ensures t.Valid() && |t.unmatched| == |s.unmatched|
    decreases sm, 3
  {
    Slots(seq(|s.unmatched|, p requires 0 <= p < |s.unmatched| => Outcome(q, sm, s.unmatched, s.matched, p).0),
          seq(|s.unmatched|, p requires 0 <= p < |s.unmatched| => Outcome(q, sm, s.unmatched, s.matched, p).1))
  }

  lemma {:induction false} StepAt(q: Query, sm: SetMatcher, s: Slots, p: nat)
    requires q.doc.Valid() && s.Valid() && p < |s.unmatched|
    ensures var t := StepSets(q, sm, s); (t.unmatched[p], t.matched[p]) == Outcome(q, sm, s.unmatched, s.matched, p)
  {
  }

  /** With no earlier results, what is not selected stays. */
  lemma {:induction false} BlankStep(q: Query, sm: SetMatcher, seed: seq<Option<nat>>, p: nat)
    requires q.doc.Valid() && p < |seed|
    ensures StepSets(q, sm, Slots(seed, Blank(|seed|))).unmatched[p] ==
            if Selected(q, sm, seed, Blank(|seed|), p) then None else seed[p]
  {
    StepAt(q, sm, Slots(seed, Blank(|seed|)), p);
  }

  /** The postFilter lets be what it selects of what is left when `outs` is condensed. */
  lemma {:induction false} LetsSelected(q: Query, sm: SetMatcher, outs: seq<Option<nat>>, i: nat)
    requires q.doc.Valid() && i < |outs|
    ensures Lets(q, Some(sm), outs, i) <==>
            && outs[i].Some?
            && var temp, k := Condensed(q, None, outs), |Kept(q, None, outs, i)|;
               k < |temp| && Selected(q, sm, temp, Blank(|temp|), k)
  {
    if outs[i].Some? {
      KeptAt(q, None, outs, i, |outs|);
      var temp, k := Condensed(q, None, outs), |Kept(q, None, outs, i)|;
      assert temp[k] == outs[i];
      BlankStep(q, sm, temp, k);
    }
  }

  lemma {:induction false} FilterSelects(q: Query, sm: SetMatcher, seed: seq<Option<nat>>, results: seq<Option<nat>>,
                                         p: nat)
    requires q.doc.Valid() && p < |seed| == |results|
    requires sm.preFilter.Some? && sm.pick.None? && sm.postFilter.None?
    ensures Selected(q, sm, seed, results, p) <==> Passes(q, sm.preFilter, seed[p])
  {
    if Passes(q, sm.preFilter, seed[p]) {
      KeptAt(q, sm.preFilter, seed, p, |seed|);
      var i, c := Place(q, sm, seed, p), Cands(q, sm, seed);
      assert i < |c| && c[i] == seed[p];
      assert Outs(q, sm, seed, results)[i] == Moved(sm.pick, c[i], None, i, |c|) == c[i];
    }
  }

  /** A postFilter that is an element matcher lets each place be or not by its element alone. */
  lemma {:induction false} ElementLets(q: Query, sm: SetMatcher, outs: seq<Option<nat>>, i: nat)
    requires q.doc.Valid() && i < |outs| && sm.preFilter.Some? && sm.pick.None? && sm.postFilter.None?
    ensures Lets(q, Some(sm), outs, i) <==> Passes(q, sm.preFilter, outs[i])
  {
    if outs[i].Some? {
      KeptAt(q, None, outs, i, |outs|);
      var temp, k := Condensed(q, None, outs), |Kept(q, None, outs, i)|;
      LetsSelected(q, sm, outs, i);
      FilterSelects(q, sm, temp, Blank(|temp|), k);
    }
  }

  /** Moves the failing candidates back to the slots that the map gives. */
  method PutBack(map_: seq<nat>, temp: JsArray, matcherIn: JsArray, matcherOut: JsArray)
    requires matcherIn != matcherOut && temp != matcherIn && temp != matcherOut && |temp.items| == |map_|
    requires forall i: nat, j: nat | i < j < |map_| :: map_[i] < map_[j]
    requires forall i: nat | i < |map_| :: map_[i] < |matcherOut.items|
    modifies matcherIn, matcherOut
    ensures |matcherOut.items| == |old(matcherOut.items)|
    ensures |old(matcherIn.items)| <= |matcherIn.items| <= Max(|old(matcherIn.items)|, |matcherOut.items|)
    ensures forall i: nat | i < |map_| && temp.items[i].Some? ::
              matcherOut.At(map_[i]) == None && matcherIn.At(map_[i]) == temp.items[i]
    ensures forall p: nat | forall i: nat | i < |map_| && map_[i] == p :: temp.items[i].None? ::
              matcherOut.At(p) == old(matcherOut.At(p)) && matcherIn.At(p) == old(matcherIn.At(p))
  {
    var i := |temp.items|;
    while i > 0
      invariant i <= |map_| && |matcherOut.items| == |old(matcherOut.items)| && temp.items == old(temp.items)
      invariant |old(matcherIn.items)| <= |matcherIn.items| <= Max(|old(matcherIn.items)|, |matcherOut.items|)
      invariant forall j: nat | i <= j < |map_| && temp.items[j].Some? ::
                  matcherOut.At(map_[j]) == None && matcherIn.At(map_[j]) == temp.items[j]
      invariant forall p: nat | forall j: nat | i <= j < |map_| && map_[j] == p :: temp.items[j].None? ::
                  matcherOut.At(p) == old(matcherOut.At(p)) && matcherIn.At(p) == old(matcherIn.At(p))
    {
      i := i - 1;
      if temp.items[i].Some? {
        matcherIn.Put(map_[i], temp.items[i]);
        matcherOut.Put(map_[i], None);
      }
    }
  }

  /** The entry of place `p` in the condensed list stays. */
  ghost predicate Stays(q: Query, outs: seq<Option<nat>>, stays: seq<bool>, p: nat)
    requires q.doc.Valid()
  {
    p < |outs| && outs[p].Some? && var k := |Kept(q, None, outs, p)|; k < |stays| && stays[k]
  }

  /** A place goes back exactly when its entry in `temp` was left behind. */
  lemma {:induction false} LeftBehind(q: Query, stays: seq<bool>, outs: seq<Option<nat>>, temp: seq<Option<nat>>,
                                      p: nat)
    requires q.doc.Valid() && |temp| == |stays| == |Kept(q, None, outs, |outs|)|
    requires forall i: nat | i < |temp| ::
               temp[i] == if stays[i] then None else outs[Kept(q, None, outs, |outs|)[i]]
    ensures p < |outs| && outs[p].Some? && !Stays(q, outs, stays, p) ==>
              exists i: nat :: i < |temp| && Kept(q, None, outs, |outs|)[i] == p && temp[i] == outs[p]
    ensures Stays(q, outs, stays, p) ==>
              forall i: nat | i < |temp| && Kept(q, None, outs, |outs|)[i] == p :: temp[i].None?
    ensures p < |outs| && outs[p].None? ==> p !in Kept(q, None, outs, |outs|)
  {
    KeptMember(q, None, outs, p, |outs|);
    if p < |outs| && outs[p].Some? {
      KeptAt(q, None, outs, p, |outs|);
    }
  }

  /** The last part of the postFilter step, with `temp` already filtered. */
  method Settle(ghost q: Query, ghost stays: seq<bool>, map_: seq<nat>, temp: JsArray, matcherIn: JsArray,
                matcherOut: JsArray)
    requires q.doc.Valid() && matcherIn != matcherOut && temp != matcherIn && temp != matcherOut
    requires map_ == Kept(q, None, matcherOut.items, |matcherOut.items|) && |temp.items| == |map_| == |stays|
    requires forall i: nat | i < |map_| :: temp.items[i] == if stays[i] then None else matcherOut.items[map_[i]]
    modifies matcherIn, matcherOut
    ensures |matcherOut.items| == |old(matcherOut.items)|
    ensures |old(matcherIn.items)| <= |matcherIn.items| <= Max(|old(matcherIn.items)|, |matcherOut.items|)
    ensures forall p: nat :: matcherOut.At(p) ==
              if Stays(q, old(matcherOut.items), stays, p) then old(matcherOut.At(p)) else None
    ensures forall p: nat :: matcherIn.At(p) ==
              if old(matcherOut.At(p)).Some? && !Stays(q, old(matcherOut.items), stays, p) then old(matcherOut.At(p))
              else old(matcherIn.At(p))
  {
    ghost var outs, left := matcherOut.items, temp.items;
    PutBack(map_, temp, matcherIn, matcherOut);
    forall p: nat
      ensures matcherOut.At(p) == if Stays(q, outs, stays, p) then old(matcherOut.At(p)) else None
      ensures matcherIn.At(p) ==
              if old(matcherOut.At(p)).Some? && !Stays(q, outs, stays, p) then old(matcherOut.At(p))
              else old(matcherIn.At(p))
    {
      LeftBehind(q, stays, outs, left, p);
    }
  }

  ghost function Flagged(q: Query, sm: SetMatcher, seed: seq<Option<nat>>): (f: seq<bool>)
    requires q.doc.Valid()
    ensures |f| == |seed| && forall i: nat | i < |seed| :: f[i] == Selected(q, sm, seed, Blank(|seed|), i)
  {
    seq(|seed|, i requires 0 <= i < |seed| => Selected(q, sm, seed, Blank(|seed|), i))
  }

  /** Filters the candidates behind the positional matcher: those that the postFilter does not let be go back
      where they came from. */
  method Unmatch(sz: Sizzle, postFilter: SetMatcher, matcherIn: JsArray, matcherOut: JsArray)
    requires Applicable(sz, postFilter) && Nodes(sz.q.doc, matcherOut.items) && matcherIn != matcherOut
    modifies sz`slots, matcherIn, matcherOut
    ensures Applicable(sz, postFilter)
    ensures |matcherOut.items| == |old(matcherOut.items)|
    ensures |old(matcherIn.items)| <= |matcherIn.items| <= Max(|old(matcherIn.items)|, |matcherOut.items|)
    ensures var outs := old(matcherOut.items);
            forall p: nat :: matcherOut.At(p) ==
              if p < |outs| && Lets(sz.q, Some(postFilter), outs, p) then outs[p] else None
    ensures var outs := old(matcherOut.items);
            forall p: nat :: matcherIn.At(p) ==
              if p < |outs| && outs[p].Some? && !Lets(sz.q, Some(postFilter), outs, p) then outs[p]
              else old(matcherIn.At(p))
    decreases postFilter, 4
  {
    ghost var outs := matcherOut.items;
    var temp, postMap := Condense(sz, matcherOut, None);
    var discarded := new JsArray([]);
    ghost var all := temp.items;
    ghost var stays := Flagged(sz.q, postFilter, all);
    assert all == Condensed(sz.q, None, outs);
    Apply(sz, postFilter, temp, discarded);
    forall i: nat | i < |all| ensures temp.items[i] == if stays[i] then None else all[i] {
      assert temp.At(i) == Outcome(sz.q, postFilter, all, Padded([], |all|), i).0;
      assert Padded([], |all|) == Blank(|all|);
      StepAt(sz.q, postFilter, Slots(all, Blank(|all|)), i);
      BlankStep(sz.q, postFilter, all, i);
    }
    Settle(sz.q, stays, postMap, temp, matcherIn, matcherOut);
    forall p: nat | p < |outs| ensures Stays(sz.q, outs, stays, p) <==> Lets(sz.q, Some(postFilter), outs, p) {
      LetsSelected(sz.q, postFilter, outs, p);
    }
  }

  /** Moves matched elements from the seed to the same slots of the results. */
  method Transfer(map_: seq<nat>, matcherOut: JsArray, seed: JsArray, results: JsArray)
    requires seed != results && matcherOut != seed && matcherOut != results && |matcherOut.items| <= |map_|
    requires forall i: nat, j: nat | i < j < |map_| :: map_[i] < map_[j]
    requires forall i: nat | i < |map_| :: map_[i] < |seed.items|
    requires |results.items| <= |seed.items|
    modifies seed, results
    ensures |seed.items| == |old(seed.items)| && |results.items| <= |seed.items|
    ensures forall i: nat | i < |matcherOut.items| && matcherOut.items[i].Some? ::
              seed.At(map_[i]) == None && results.At(map_[i]) == matcherOut.items[i]
    ensures forall p: nat | forall i: nat | i < |matcherOut.items| && map_[i] == p :: matcherOut.items[i].None? ::
              seed.At(p) == old(seed.At(p)) && results.At(p) == old(results.At(p))
  {
    var i := |matcherOut.items|;
    while i > 0
      invariant i <= |matcherOut.items| == |old(matcherOut.items)| && matcherOut.items == old(matcherOut.items)
      invariant |seed.items| == |old(seed.items)| && |results.items| <= |seed.items|
      invariant forall j: nat | i <= j < |matcherOut.items| && matcherOut.items[j].Some? ::
                  seed.At(map_[j]) == None && results.At(map_[j]) == matcherOut.items[j]
      invariant forall p: nat | forall j: nat | i <= j < |matcherOut.items| && map_[j] == p ::
                matcherOut.items[j].None? ::
                  seed.At(p) == old(seed.At(p)) && results.At(p) == old(results.At(p))
    {
      i := i - 1;
      if matcherOut.items[i].Some? {
        results.Put(map_[i], matcherOut.items[i]);
        seed.Put(map_[i], None);
      }
    }
  }

  /** The last step behind a preFilter: what is left of the candidates is exactly the selection. */
  method Collect(ghost q: Query, ghost sm: SetMatcher, map_: seq<nat>, matcherOut: JsArray, seed: JsArray,
                 results: JsArray)
    requires q.doc.Valid() && sm.preFilter.Some? && seed != results && matcherOut != seed && matcherOut != results
    requires map_ == Kept(q, sm.preFilter, seed.items, |seed.items|)
    requires |matcherOut.items| <= |map_| && |results.items| <= |seed.items|
    requires forall i: nat | i < |map_| :: matcherOut.At(i) ==
               if Selected(q, sm, seed.items, Padded(results.items, |seed.items|), map_[i]) then seed.items[map_[i]]
               else None
    modifies seed, results
    ensures |seed.items| == |old(seed.items)| && |results.items| <= |seed.items|
    ensures var s, r := old(seed.items), old(results.items);
            forall p: nat | p < |s| :: (seed.At(p), results.At(p)) == Outcome(q, sm, s, Padded(r, |s|), p)
  {
    ghost var s, r := seed.items, Padded(results.items, |seed.items|);
    Transfer(map_, matcherOut, seed, results);
    forall p: nat | p < |s| ensures (seed.At(p), results.At(p)) == Outcome(q, sm, s, r, p) {
      KeptMember(q, sm.preFilter, s, p, |s|);
      if i: nat :| i < |map_| && map_[i] == p {
        assert matcherOut.At(i) == if Selected(q, sm, s, r, p) then s[p] else None;
        assert i < |matcherOut.items| ==> matcherOut.items[i] == matcherOut.At(i);
        assert forall j: nat | j < |map_| && map_[j] == p :: j == i;
      }
    }
  }

  /** `xs` with holes up to length `n`. */
  function Padded(xs: seq<Option<nat>>, n: nat): (ys: seq<Option<nat>>)
    ensures |ys| == n && forall i: nat | i < n :: ys[i] == if i < |xs| then xs[i] else None
  {
    seq(n, i requires 0 <= i < n => if i < |xs| then xs[i] else None)
  }

  lemma {:induction false} LetsPadded(q: Query, postFilter: Option<SetMatcher>, xs: seq<Option<nat>>,
                                      ys: seq<Option<nat>>, i: nat)
    requires q.doc.Valid() && |xs| <= |ys| && ys == Padded(xs, |ys|) && i < |ys|
    ensures Lets(q, postFilter, ys, i) <==> i < |xs| && Lets(q, postFilter, xs, i)
  {
    CondensedPadded(q, xs, ys);
    KeptPadded(q, xs, ys, i);
  }

  lemma {:induction false} CondensedPadded(q: Query, xs: seq<Option<nat>>, ys: seq<Option<nat>>)
    requires q.doc.Valid() && |xs| <= |ys| && ys == Padded(xs, |ys|)
    ensures Condensed(q, None, ys) == Condensed(q, None, xs)
  {
    KeptPadded(q, xs, ys, |ys|);
  }

  /** The positional matcher, and the postFilter behind it. */
  method PickAndFilter(sz: Sizzle, sm: SetMatcher, matcherIn: JsArray, matcherOut: JsArray)
    requires Applicable(sz, sm) && sm.pick.Some? && matcherIn != matcherOut
    requires Nodes(sz.q.doc, matcherIn.items) && Nodes(sz.q.doc, matcherOut.items)
    requires |matcherOut.items| <= |matcherIn.items|
    modifies sz`slots, matcherIn, matcherOut
    ensures Applicable(sz, sm)
    ensures |matcherOut.items| <= |matcherIn.items| == |old(matcherIn.items)|
    ensures var c := old(matcherIn.items);
            var outs := Output(sm.pick, c, old(matcherOut.items));
            forall p: nat | p < |c| ::
              && matcherOut.At(p) == (if Lets(sz.q, sm.postFilter, outs, p) then outs[p] else None)
              && matcherIn.At(p) == (if outs[p].Some? && !Lets(sz.q, sm.postFilter, outs, p) then outs[p]
                                     else if Chosen(sm.pick.value, p, |c|) then None
                                     else c[p])
    decreases sm, 1
  {
    ghost var c, outs := matcherIn.items, Output(sm.pick, matcherIn.items, matcherOut.items);
    PickOut(sm.pick.value, matcherIn, matcherOut);
    ghost var m := matcherOut.items;
    forall p: nat | p < |c| ensures outs[p] == matcherOut.At(p) {
      assert matcherOut.At(p) == Moved(sm.pick, c[p], old(matcherOut.At(p)), p, |c|);
    }
    if sm.postFilter.Some? {
      forall i: nat | i < |m| && m[i].Some? ensures sz.q.doc.Has(m[i].value) {
        assert matcherOut.At(i) == m[i];
      }
      Unmatch(sz, sm.postFilter.value, matcherIn, matcherOut);
    }
    forall p: nat | p < |c| ensures Lets(sz.q, sm.postFilter, outs, p) <==> p < |m| && Lets(sz.q, sm.postFilter, m, p) {
      LetsPadded(sz.q, sm.postFilter, m, outs, p);
    }
  }

  /** `setMatcher`'s closure, called with a seed. */
  method Apply(sz: Sizzle, sm: SetMatcher, seed: JsArray, results: JsArray)
    requires Applicable(sz, sm) && seed != results && |results.items| <= |seed.items|
    requires Nodes(sz.q.doc, seed.items) && Nodes(sz.q.doc, results.items)
    modifies sz`slots, seed, results
    ensures Applicable(sz, sm)
    ensures |seed.items| == |old(seed.items)| && |results.items| <= |seed.items|
    ensures var s, r := old(seed.items), old(results.items);
            forall p: nat | p < |s| :: (seed.At(p), results.At(p)) == Outcome(sz.q, sm, s, Padded(r, |s|), p)
    decreases sm, 3
  {
    if sm.preFilter.Some? {
      ApplyFiltered(sz, sm, seed, results);
    } else {
      ghost var s, r := seed.items, results.items;
      PickAndFilter(sz, sm, seed, results);
      assert Output(sm.pick, s, r) == Outs(sz.q, sm, s, Padded(r, |s|));
    }
  }

  /** ... with a preFilter: the candidates are condensed, and matches found through the map. */
  method ApplyFiltered(sz: Sizzle, sm: SetMatcher, seed: JsArray, results: JsArray)
    requires Applicable(sz, sm) && sm.preFilter.Some? && seed != results && |results.items| <= |seed.items|
    requires Nodes(sz.q.doc, seed.items)
    modifies sz`slots, seed, results
    ensures Applicable(sz, sm)
    ensures |seed.items| == |old(seed.items)| && |results.items| <= |seed.items|
    ensures var s, r := old(seed.items), old(results.items);
            forall p: nat | p < |s| :: (seed.At(p), results.At(p)) == Outcome(sz.q, sm, s, Padded(r, |s|), p)
    decreases sm, 2
  {
    ghost var s, r := seed.items, Padded(results.items, |seed.items|);
    var matcherIn, preMap := Condense(sz, seed, sm.preFilter);
    ghost var c := matcherIn.items;
    assert c == Cands(sz.q, sm, s);
    var matcherOut := matcherIn;
    if sm.pick.Some? {
      matcherOut := new JsArray([]);
      PickAndFilter(sz, sm, matcherIn, matcherOut);
      assert Output(sm.pick, c, []) == Outs(sz.q, sm, s, r);
    } else {
      assert c == Outs(sz.q, sm, s, r);
    }
    forall i: nat | i < |preMap|
      ensures matcherOut.At(i) == if Selected(sz.q, sm, s, r, preMap[i]) then s[preMap[i]] else None
    {
      KeptPlace(sz.q, sm.preFilter, s, i, |s|);
      assert c[i] == s[preMap[i]];
    }
    Collect(sz.q, sm, preMap, matcherOut, seed, results);
  }
}
