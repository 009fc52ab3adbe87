/** Selectors with positional pseudos, such as `ul > li.a:even.b:first`, from their tokens to their results: filter,
    pick by position, filter what was picked, pick again. */
module Positional {
  import opened Options
  import opened Dom
  import opened Selector
  import opened Compile
  import opened Engine
  import opened SetMatchers
  import SM = SuperMatcher

  /** A token of one selector: an ordinary one, or a positional pseudo. */
  datatype Item = Plain(token: Token) | Position(pick: Pick)

  /** The place of the first positional pseudo. */
  function FirstAt(items: seq<Item>): (k: nat)
    ensures k <= |items| && (k < |items| ==> items[k].Position?) && forall i: nat | i < k :: items[i].Plain?
  {
    if items == [] || items[0].Position? then 0 else 1 + FirstAt(items[1..])
  }

  function Tokens(items: seq<Item>, n: nat): (tokens: seq<Token>)
    requires n <= |items| && forall i: nat | i < n :: items[i].Plain?
    ensures |tokens| == n && forall i: nat | i < n :: tokens[i] == items[i].token
  {
    seq(n, i requires 0 <= i < n => items[i].token)
  }

  /** No combinator follows a positional pseudo. */
  predicate Shaped(items: seq<Item>) {
    var k := FirstAt(items);
    forall i: nat | k < i < |items| && items[i].Plain? :: items[i].token.Simple?
  }

  lemma {:induction false} ShapedRest(items: seq<Item>, k: nat)
    requires Shaped(items) && FirstAt(items) <= k <= |items|
    ensures Shaped(items[k..])
  {
  }

  // ----- what such a selector means

  /** The entries of `xs` whose flags are set, in order. */
  function Sub<T>(xs: seq<T>, flags: seq<bool>): (ys: seq<T>)
    requires |xs| == |flags|
    ensures |ys| == Count(flags, |flags|)
  {
    if xs == [] then []
    else
      var n := |xs| - 1;
      assert forall m: nat | m <= n :: Count(flags[..n], m) == Count(flags, m) by {
        CountPrefix(flags, n);
      }
      Sub(xs[..n], flags[..n]) + if flags[n] then [xs[n]] else []
  }

  function Count(flags: seq<bool>, n: nat): (c: nat)
    requires n <= |flags|
    ensures c <= n
  {
    if n == 0 then 0 else Count(flags, n - 1) + if flags[n - 1] then 1 else 0
  }

  lemma {:induction false} CountPrefix(flags: seq<bool>, n: nat)
    requires n <= |flags|
    ensures forall m: nat | m <= n :: Count(flags[..n], m) == Count(flags, m)
  {
    forall m: nat | m <= n ensures Count(flags[..n], m) == Count(flags, m) {
      CountSame(flags[..n], flags, m);
    }
  }

  lemma {:induction false} CountSame(f: seq<bool>, g: seq<bool>, n: nat)
    requires n <= |f| && n <= |g| && forall i: nat | i < n :: f[i] == g[i]
    ensures Count(f, n) == Count(g, n)
  {
    if n > 0 {
      CountSame(f, g, n - 1);
    }
  }

  ghost function Matches(q: Query, tokens: seq<Token>, xs: seq<nat>): (f: seq<bool>)
    requires q.doc.Valid() && 0 < |tokens|
    ensures |f| == |xs| && forall p: nat | p < |xs| :: f[p] == Selects(q, Parse(tokens, |tokens|), xs[p])
  {
    seq(|xs|, p requires 0 <= p < |xs| => Selects(q, Parse(tokens, |tokens|), xs[p]))
  }

  /** The elements that the tokens select. */
  ghost function Matching(q: Query, tokens: seq<Token>, xs: seq<nat>): seq<nat>
    requires q.doc.Valid() && 0 < |tokens|
  {
    Sub(xs, Matches(q, tokens, xs))
  }

  function Places(pick: Pick, n: nat): (f: seq<bool>)
    ensures |f| == n && forall i: nat | i < n :: f[i] == Chosen(pick, i, n)
  {
    seq(n, i requires 0 <= i < n => Chosen(pick, i, n))
  }

  /** The elements in the places that the pseudo names. */
  function PickFrom(pick: Pick, xs: seq<nat>): seq<nat> {
    Sub(xs, Places(pick, |xs|))
  }

  /** Filter by what stands in front of the first positional pseudo, pick, and go on with what stands behind. */
  ghost function Pipeline(q: Query, items: seq<Item>, xs: seq<nat>): seq<nat>
    requires q.doc.Valid()
    decreases |items|
  {
    var k := FirstAt(items);
    var ys := if k == 0 then xs else Matching(q, Tokens(items, k), xs);
    if k == |items| then ys else Pipeline(q, items[k + 1..], PickFrom(items[k].pick, ys))
  }

  // ----- compilation

  ghost predicate CompilesFront(m: Option<Matcher>, items: seq<Item>, k: nat)
    requires k <= |items| && forall i: nat | i < k :: items[i].Plain?
  {
    if k == 0 then m.None? else exists name: nat :: m == Some(Compiled(Tokens(items, k), name))
  }

  /** `sm` is what `matcherFromTokens` makes of `items`, an element matcher wrapped. */
  ghost predicate Compiles(sm: SetMatcher, items: seq<Item>)
    decreases |items|, 0
  {
    var k := FirstAt(items);
    && items != [] && CompilesFront(sm.preFilter, items, k)
    && if k == |items| then sm.pick.None? && sm.postFilter.None?
       else sm.pick == Some(items[k].pick) && CompilesRest(sm.postFilter, items[k + 1..])
  }

  ghost predicate CompilesRest(postFilter: Option<SetMatcher>, rest: seq<Item>)
    decreases |rest|, 1
  {
    if rest == [] then postFilter.None? else postFilter.Some? && Compiles(postFilter.value, rest)
  }

  lemma {:induction false} SetsStill(before: map<nat, Matcher>, after: map<nat, Matcher>, sm: SetMatcher, bound: nat,
                                     bound': nat)
    requires KnownSets(before, sm, bound) && bound <= bound'
    requires forall k | k in before :: k in after && after[k] == before[k]
    ensures KnownSets(after, sm, bound')
    decreases sm
  {
    if sm.preFilter.Some? {
      KnownStill(before, after, sm.preFilter.value, bound, bound');
    }
    if sm.postFilter.Some? {
      SetsStill(before, after, sm.postFilter.value, bound, bound');
    }
  }

  /** The names of a selector's context walks are used up even where nothing stands in front. */
  method CompileFront(sz: Sizzle, items: seq<Item>, k: nat) returns (m: Option<Matcher>)
    requires sz.Valid({}) && k <= |items| && forall i: nat | i < k :: items[i].Plain?
    modifies sz`done, sz`registry
    ensures sz.Valid({}) && CompilesFront(m, items, k) && (m.Some? ==> Known(sz.registry, m.value, sz.done))
    ensures old(sz.done) <= sz.done
    ensures forall n | n in old(sz.registry) :: n in sz.registry && sz.registry[n] == old(sz.registry)[n]
  {
    if k == 0 {
      var one := sz.AddCombinator(IsContext, Descendant, true);
      var any := sz.AddCombinator(InContexts, Descendant, true);
      return None;
    }
    var matcher := sz.MatcherFromTokens(Tokens(items, k));
    m := Some(matcher);
  }

  /** `matcherFromTokens` for tokens with positional pseudos and no combinator behind the first. */
  method MatcherFromItems(sz: Sizzle, items: seq<Item>) returns (sm: SetMatcher)
    requires sz.Valid({}) && items != [] && Shaped(items)
    modifies sz`done, sz`registry
    ensures Compiles(sm, items) && Applicable(sz, sm)
    ensures old(sz.done) <= sz.done
    ensures forall n | n in old(sz.registry) :: n in sz.registry && sz.registry[n] == old(sz.registry)[n]
    decreases |items|
  {
    var k := FirstAt(items);
    var preFilter := CompileFront(sz, items, k);
    if k == |items| {
      return SetMatcher(preFilter, None, None);
    }
    var postFilter := None;
    if k + 1 < |items| {
      ShapedRest(items, k + 1);
      label Front:
      var post := MatcherFromItems(sz, items[k + 1..]);
      if preFilter.Some? {
        KnownStill(old@Front(sz.registry), sz.registry, preFilter.value, old@Front(sz.done), sz.done);
      }
      postFilter := Some(post);
    }
    sm := SetMatcher(preFilter, Some(items[k].pick), postFilter);
  }

  // ----- flags

  lemma {:induction false} CountStrict(f: seq<bool>, p: nat, n: nat)
    requires p < n <= |f| && f[p]
    ensures Count(f, p) < Count(f, n)
  {
    if p < n - 1 {
      CountStrict(f, p, n - 1);
    }
  }

  lemma {:induction false} AllSet<T>(xs: seq<T>, f: seq<bool>)
    requires |xs| == |f| && forall p: nat | p < |f| :: f[p]
    ensures Sub(xs, f) == xs && forall n: nat | n <= |f| :: Count(f, n) == n
  {
    if xs != [] {
      AllSet(xs[..|xs| - 1], f[..|xs| - 1]);
      CountPrefix(f, |xs| - 1);
      forall n: nat | n <= |f| ensures Count(f, n) == n {
        if n < |f| {
          assert Count(f[..|xs| - 1], n) == n;
        }
      }
    }
  }

  /** Flags `h` choose what `g` chooses from what `f` chooses. */
  ghost predicate Composed(f: seq<bool>, g: seq<bool>, h: seq<bool>) {
    && |f| == |h| && |g| == Count(f, |f|)
    && forall p: nat | p < |f| :: h[p] == (f[p] && Count(f, p) < |g| && g[Count(f, p)])
  }

  lemma {:induction false} SubPremise(f: seq<bool>, g: seq<bool>, h: seq<bool>, n: nat)
    requires Composed(f, g, h) && n < |f|
    ensures Count(f, n) + (if f[n] then 1 else 0) <= |g|
    ensures Composed(f[..n], g[..Count(f, n)], h[..n])
    ensures h[n] == (f[n] && g[Count(f, n)])
  {
    var c := Count(f, n);
    CountPrefix(f, n);
    CountStep(f, n);
    forall p: nat | p < n
      ensures h[..n][p] == (f[..n][p] && Count(f[..n], p) < |g[..c]| && g[..c][Count(f[..n], p)])
    {
      if f[p] {
        CountStrict(f, p, n);
      }
    }
  }

  lemma {:induction false} CountStep(f: seq<bool>, n: nat)
    requires n < |f|
    ensures Count(f, n) + (if f[n] then 1 else 0) <= Count(f, |f|)
    decreases |f| - n
  {
    if n + 1 < |f| {
      CountStep(f, n + 1);
    }
  }

  /** Choosing from what was chosen is choosing once. */
  lemma {:induction false} SubSub<T>(xs: seq<T>, f: seq<bool>, g: seq<bool>, h: seq<bool>)
    requires |xs| == |f| && Composed(f, g, h)
    ensures Sub(Sub(xs, f), g) == Sub(xs, h)
    decreases |xs|
  {
    if xs != [] {
      var n := |xs| - 1;
      var c := Count(f, n);
      CountPrefix(f, n);
      assert |Sub(xs[..n], f[..n])| == Count(f[..n], n) == c;
      SubPremise(f, g, h, n);
      SubSub(xs[..n], f[..n], g[..c], h[..n]);
      SubStep(Sub(xs[..n], f[..n]), xs[n], f[n], g);
    }
  }

  lemma {:induction false} SubStep<T>(ys: seq<T>, x: T, more: bool, g: seq<bool>)
    requires |g| == |ys| + if more then 1 else 0
    ensures Sub(ys + (if more then [x] else []), g) == Sub(ys, g[..|ys|]) + if more && g[|ys|] then [x] else []
  {
    if more {
      assert (ys + [x])[..|ys|] == ys;
    } else {
      assert ys + [] == ys && g[..|ys|] == g;
    }
  }

  // ----- arrays of elements, and what is condensed

  function Somes(xs: seq<nat>): (os: seq<Option<nat>>)
    ensures |os| == |xs| && forall p: nat | p < |xs| :: os[p] == Some(xs[p])
  {
    seq(|xs|, p requires 0 <= p < |xs| => Some(xs[p]))
  }

  /** The entries of `os` that pass are the elements of `ys` whose flags are set. */
  ghost predicate Masks(q: Query, filter: Option<Matcher>, os: seq<Option<nat>>, ys: seq<nat>, f: seq<bool>)
    requires q.doc.Valid()
  {
    && |os| == |ys| == |f|
    && forall i: nat | i < |f| :: f[i] == Passes(q, filter, os[i]) && (f[i] ==> os[i] == Some(ys[i]))
  }

  lemma {:induction false} KeptCount(q: Query, filter: Option<Matcher>, os: seq<Option<nat>>, ys: seq<nat>,
                                     f: seq<bool>, n: nat)
    requires q.doc.Valid() && Masks(q, filter, os, ys, f) && n <= |f|
    ensures |Kept(q, filter, os, n)| == Count(f, n)
  {
    if n > 0 {
      KeptCount(q, filter, os, ys, f, n - 1);
    }
  }

  lemma {:induction false} KeptSub(q: Query, filter: Option<Matcher>, os: seq<Option<nat>>, ys: seq<nat>,
                                   f: seq<bool>, n: nat)
    requires q.doc.Valid() && Masks(q, filter, os, ys, f) && n <= |f|
    ensures var ks, zs := Kept(q, filter, os, n), Sub(ys[..n], f[..n]);
            |ks| == |zs| && forall i: nat | i < |ks| :: os[ks[i]] == Some(zs[i])
  {
    if n > 0 {
      KeptSub(q, filter, os, ys, f, n - 1);
      assert ys[..n][..n - 1] == ys[..n - 1] && f[..n][..n - 1] == f[..n - 1];
    }
  }

  lemma {:induction false} CondensedSub(q: Query, filter: Option<Matcher>, os: seq<Option<nat>>, ys: seq<nat>,
                                        f: seq<bool>)
    requires q.doc.Valid() && Masks(q, filter, os, ys, f)
    ensures Condensed(q, filter, os) == Somes(Sub(ys, f))
  {
    KeptSub(q, filter, os, ys, f, |f|);
    assert ys[..|f|] == ys && f[..|f|] == f;
  }

  // ----- one stage

  ghost predicate Have(doc: Doc, xs: seq<nat>) {
    forall p: nat | p < |xs| :: doc.Has(xs[p])
  }

  /** Which elements pass a filter, and which of a seed without holes a set matcher selects. */
  ghost function Passing(q: Query, filter: Option<Matcher>, xs: seq<nat>): (f: seq<bool>)
    requires q.doc.Valid()
    ensures |f| == |xs| && forall p: nat | p < |xs| :: f[p] == Passes(q, filter, Some(xs[p]))
  {
    seq(|xs|, p requires 0 <= p < |xs| => Passes(q, filter, Some(xs[p])))
  }

  ghost function Selection(q: Query, sm: SetMatcher, xs: seq<nat>): (f: seq<bool>)
    requires q.doc.Valid()
    ensures |f| == |xs| && forall p: nat | p < |xs| :: f[p] == Selected(q, sm, Somes(xs), Blank(|xs|), p)
  {
    seq(|xs|, p requires 0 <= p < |xs| => Selected(q, sm, Somes(xs), Blank(|xs|), p))
  }

  /** What the postFilter selects of the elements picked; with none, all. */
  ghost function After(q: Query, postFilter: Option<SetMatcher>, zs: seq<nat>): (f: seq<bool>)
    requires q.doc.Valid()
    ensures |f| == |zs|
  {
    if postFilter.Some? then Selection(q, postFilter.value, zs) else seq(|zs|, i => true)
  }

  lemma {:induction false} FrontStage(q: Query, sm: SetMatcher, xs: seq<nat>)
    requires q.doc.Valid()
    ensures var f := Passing(q, sm.preFilter, xs);
            && Cands(q, sm, Somes(xs)) == Somes(Sub(xs, f))
            && forall p: nat | p <= |xs| :: Place(q, sm, Somes(xs), p) == Count(f, p)
  {
    var f := Passing(q, sm.preFilter, xs);
    if sm.preFilter.Some? {
      CondensedSub(q, sm.preFilter, Somes(xs), xs, f);
      forall p: nat | p <= |xs| ensures Place(q, sm, Somes(xs), p) == Count(f, p) {
        KeptCount(q, sm.preFilter, Somes(xs), xs, f, p);
      }
    } else {
      AllSet(xs, f);
    }
  }

  lemma {:induction false} PickStage(q: Query, sm: SetMatcher, xs: seq<nat>, i: nat)
    requires q.doc.Valid() && sm.pick.Some?
    requires var ys := Sub(xs, Passing(q, sm.preFilter, xs)); i < |ys| && Cands(q, sm, Somes(xs)) == Somes(ys)
    ensures var ys := Sub(xs, Passing(q, sm.preFilter, xs));
            var c := Places(sm.pick.value, |ys|);
            var after := After(q, sm.postFilter, Sub(ys, c));
            Lets(q, sm.postFilter, Outs(q, sm, Somes(xs), Blank(|xs|)), i) <==>
            c[i] && Count(c, i) < |after| && after[Count(c, i)]
  {
    var ys := Sub(xs, Passing(q, sm.preFilter, xs));
    var c, outs := Places(sm.pick.value, |ys|), Outs(q, sm, Somes(xs), Blank(|xs|));
    forall j: nat | j < |ys| ensures outs[j] == if c[j] then Some(ys[j]) else None {
    }
    assert Masks(q, None, outs, ys, c);
    CondensedSub(q, None, outs, ys, c);
    KeptCount(q, None, outs, ys, c, i);
    if sm.postFilter.Some? {
      LetsSelected(q, sm.postFilter.value, outs, i);
    }
    if c[i] {
      CountStrict(c, i, |c|);
    }
  }

  /** The set matcher selects what passes, is picked, and is selected behind. */
  lemma {:induction false} StageSelects(q: Query, sm: SetMatcher, xs: seq<nat>)
    requires q.doc.Valid() && sm.pick.Some?
    ensures var ys := Sub(xs, Passing(q, sm.preFilter, xs));
            var zs := Sub(ys, Places(sm.pick.value, |ys|));
            Sub(xs, Selection(q, sm, xs)) == Sub(zs, After(q, sm.postFilter, zs))
  {
    var f := Passing(q, sm.preFilter, xs);
    var ys := Sub(xs, f);
    var c := Places(sm.pick.value, |ys|);
    var after := After(q, sm.postFilter, Sub(ys, c));
    var g := seq(|ys|, i requires 0 <= i < |ys| => c[i] && Count(c, i) < |after| && after[Count(c, i)]);
    SubSub(ys, c, after, g);
    FrontStage(q, sm, xs);
    forall p: nat | p < |xs| ensures Selection(q, sm, xs)[p] == (f[p] && Count(f, p) < |g| && g[Count(f, p)]) {
      if f[p] {
        CountStrict(f, p, |f|);
        PickStage(q, sm, xs, Count(f, p));
      }
    }
    SubSub(xs, f, g, Selection(q, sm, xs));
  }

  // ----- the pipeline

  lemma {:induction false} FrontMatches(q: Query, m: Option<Matcher>, items: seq<Item>, k: nat, xs: seq<nat>)
    requires q.doc.Valid() && Have(q.doc, xs) && k <= |items| && forall i: nat | i < k :: items[i].Plain?
    requires CompilesFront(m, items, k)
    ensures Sub(xs, Passing(q, m, xs)) == if k == 0 then xs else Matching(q, Tokens(items, k), xs)
  {
    if k == 0 {
      AllSet(xs, Passing(q, m, xs));
    } else {
      var tokens := Tokens(items, k);
      var name :| m == Some(Compiled(tokens, name));
      var g := Matches(q, tokens, xs);
      forall p: nat | p < |xs| ensures Passing(q, m, xs)[p] == g[p] {
        CompilationPreservesMeaning(q, tokens, name, xs[p]);
      }
      assert Passing(q, m, xs) == g;
    }
  }

  /** On a seed without holes the compiled set matcher selects what the pipeline lets through. */
  lemma {:induction false} PipelineSelects(q: Query, sm: SetMatcher, items: seq<Item>, xs: seq<nat>)
    requires q.doc.Valid() && Have(q.doc, xs) && Compiles(sm, items)
    ensures Sub(xs, Selection(q, sm, xs)) == Pipeline(q, items, xs)
    decreases |items|, 0
  {
    var k := FirstAt(items);
    if k == |items| {
      PlainSelects(q, sm, items, xs);
    } else {
      var rest, zs := PickSelects(q, sm, items, xs);
      RestSelects(q, sm.postFilter, rest, zs);
    }
  }

  lemma {:induction false} RestSelects(q: Query, postFilter: Option<SetMatcher>, rest: seq<Item>, zs: seq<nat>)
    requires q.doc.Valid() && Have(q.doc, zs)
    requires CompilesRest(postFilter, rest)
    ensures Sub(zs, After(q, postFilter, zs)) == Pipeline(q, rest, zs)
    decreases |rest|, 1
  {
    if rest == [] {
      AllSet(zs, After(q, postFilter, zs));
    } else {
      PipelineSelects(q, postFilter.value, rest, zs);
    }
  }

  /** Without a positional pseudo: one filter. */
  lemma {:induction false} PlainSelects(q: Query, sm: SetMatcher, items: seq<Item>, xs: seq<nat>)
    requires q.doc.Valid() && Have(q.doc, xs) && Compiles(sm, items) && FirstAt(items) == |items|
    ensures Sub(xs, Selection(q, sm, xs)) == Pipeline(q, items, xs)
  {
    FrontMatches(q, sm.preFilter, items, |items|, xs);
    forall p: nat | p < |xs| ensures Selection(q, sm, xs)[p] == Passing(q, sm.preFilter, xs)[p] {
      FilterSelects(q, sm, Somes(xs), Blank(|xs|), p);
    }
    assert Selection(q, sm, xs) == Passing(q, sm.preFilter, xs);
  }

  /** With one: the filter in front, the pick, and the rest on what was picked. */
  lemma {:induction false} PickSelects(q: Query, sm: SetMatcher, items: seq<Item>, xs: seq<nat>)
    returns (rest: seq<Item>, zs: seq<nat>)
    requires q.doc.Valid() && Have(q.doc, xs) && Compiles(sm, items) && FirstAt(items) < |items|
    ensures |rest| < |items| && CompilesRest(sm.postFilter, rest) && Have(q.doc, zs)
    ensures Sub(xs, Selection(q, sm, xs)) == Sub(zs, After(q, sm.postFilter, zs))
    ensures Pipeline(q, items, xs) == Pipeline(q, rest, zs)
  {
    var k := FirstAt(items);
    var f := Passing(q, sm.preFilter, xs);
    var ys := Sub(xs, f);
    rest, zs := items[k + 1..], PickFrom(items[k].pick, ys);
    FrontMatches(q, sm.preFilter, items, k, xs);
    StageSelects(q, sm, xs);
    PickedHave(q.doc, xs, f, items[k].pick);
  }

  lemma {:induction false} SubHas(doc: Doc, xs: seq<nat>, f: seq<bool>)
    requires |xs| == |f| && Have(doc, xs)
    ensures Have(doc, Sub(xs, f))
  {
    if xs != [] {
      SubHas(doc, xs[..|xs| - 1], f[..|xs| - 1]);
    }
  }

  lemma {:induction false} PickedHave(doc: Doc, xs: seq<nat>, f: seq<bool>, pick: Pick)
    requires |xs| == |f| && Have(doc, xs)
    ensures Have(doc, PickFrom(pick, Sub(xs, f)))
  {
    var ys := Sub(xs, f);
    SubHas(doc, xs, f);
    SubHas(doc, ys, Places(pick, |ys|));
  }

  // ----- from the tokens to the results

  lemma {:induction false} FilteredSub(elems: seq<nat>, yes: seq<bool>, n: nat)
    requires n <= |elems| == |yes|
    ensures SM.Filtered(elems, yes, n) == Somes(Sub(elems[..n], yes[..n]))
  {
    if n > 0 {
      FilteredSub(elems, yes, n - 1);
      assert elems[..n][..n - 1] == elems[..n - 1] && yes[..n][..n - 1] == yes[..n - 1];
    }
  }

  lemma {:induction false} OnlySetMatcher(q: Query, sm: SetMatcher, elems: seq<nat>)
    requires q.doc.Valid()
    ensures SM.Wins(q, [], [sm], elems) == Selection(q, sm, elems)
  {
    var s := SM.Initial(q, [], elems);
    assert s.unmatched == Somes(elems) && s.matched == Blank(|elems|);
    assert SM.RunSets(q, [sm], 1, s) == StepSets(q, sm, SM.RunSets(q, [sm], 0, s));
    forall p: nat | p < |elems| ensures SM.Wins(q, [], [sm], elems)[p] == Selection(q, sm, elems)[p] {
      StepAt(q, sm, s, p);
    }
  }

  lemma {:induction false} WinsIsPipeline(q: Query, sm: SetMatcher, items: seq<Item>, elems: seq<nat>)
    requires q.doc.Valid() && Have(q.doc, elems) && Compiles(sm, items)
    ensures SM.Filtered(elems, SM.Wins(q, [], [sm], elems), |elems|) == Somes(Pipeline(q, items, elems))
  {
    OnlySetMatcher(q, sm, elems);
    FilteredSub(elems, Selection(q, sm, elems), |elems|);
    PipelineSelects(q, sm, items, elems);
    assert elems[..|elems|] == elems && Selection(q, sm, elems)[..|elems|] == Selection(q, sm, elems);
  }

  /** A selector with positional pseudos and no combinator behind the first, compiled and run on a seed with
      all caches, appends what its pipeline makes of the seed. */
  method Select(sz: Sizzle, items: seq<Item>, elems: seq<nat>, results: JsArray)
    requires sz.Valid({}) && items != [] && Shaped(items) && FirstAt(items) < |items| && Have(sz.q.doc, elems)
    modifies sz`done, sz`registry, sz`slots, results
    ensures sz.Valid({}) && results.items == old(results.items) + Somes(Pipeline(sz.q, items, elems))
  {
    var sm := MatcherFromItems(sz, items);
    WinsIsPipeline(sz.q, sm, items, elems);
    SM.SuperMatcher(sz, [], [sm], elems, results);
  }
}
