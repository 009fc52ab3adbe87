/** The matchers at work: closures are compiled one after another, and their walks leave cache cells
    on the nodes they pass. */
module Engine {
  import opened Options
  import opened Dom
  import opened Selector
  import opened Compile

  /** The array `[ dirruns, doneName, result ]`. One cell is shared by every node of one walk. */
  class Cell {
    const run: nat
    const doneName: nat
    var result: Option<bool>

    constructor (run: nat, doneName: nat)
      ensures this.run == run && this.doneName == doneName && result == None
    {
      this.run, this.doneName, result := run, doneName, None;
    }
  }

  type Key = (nat, Dir)

  /** `registry` knows every walk inside `m` by its name; names are below `bound`, and smaller inside. */
  ghost predicate Known(registry: map<nat, Matcher>, m: Matcher, bound: nat) {
    match m
    case Walk(inner, _, _, _, name) =>
      name < bound && name in registry && registry[name] == m && Known(registry, inner, name)
    case Foundation(_, one, any) => Known(registry, one, bound) && Known(registry, any, bound)
    case All(ms) => forall i: nat | i < |ms| :: Known(registry, ms[i], bound)
    case _ => true
  }

  lemma KnownStill(before: map<nat, Matcher>, after: map<nat, Matcher>, m: Matcher, bound: nat, bound': nat)
    requires Known(before, m, bound) && bound <= bound'
    requires forall k | k in before :: k in after && after[k] == before[k]
    ensures Known(after, m, bound')
  {
    match m
    case Walk(inner, _, _, _, name) => KnownStill(before, after, inner, name, name);
    case Foundation(_, one, any) =>
      KnownStill(before, after, one, bound, bound');
      KnownStill(before, after, any, bound, bound');
    case All(ms) =>
      forall i: nat | i < |ms| ensures Known(after, ms[i], bound') {
        KnownStill(before, after, ms[i], bound, bound');
      }
    case _ =>
  }

  class Sizzle {
    var q: Query
    var dirruns: nat
    var done: nat
    /** `node[ expando ][ uniqueID ][ key ]`: at most one cell per node and direction. */
    var slots: map<Key, Cell>
    /** Every walk compiled so far, by name. */
    ghost var registry: map<nat, Matcher>

    /** The document is sound, and every name was handed out once. */
    ghost predicate Sound()
      reads this
    {
      q.doc.Valid() && forall k | k in registry :: k < done && registry[k].Walk?
    }

    /** A finished cell of this run, wherever it is stored, tells whether the walk it is named after
        finds its match at or beyond that node. */
    ghost predicate Truthful(k: Key)
      requires Sound() && k in slots
      reads this, slots.Values
    {
      var c := slots[k];
      q.doc.Has(k.0) &&
      (c.run == dirruns ==>
         c.doneName in registry && registry[c.doneName].dir == k.1 &&
         c.result == Some(AtOrAhead(q, registry[c.doneName], k.0)))
    }

    /** Cells of walks still in progress, `busy`, may hold anything. */
    ghost predicate Valid(busy: set<Cell>)
      reads this, slots.Values
    {
      Sound() && forall k | k in slots :: slots[k].run <= dirruns && (slots[k] in busy || Truthful(k))
    }

    constructor (q: Query)
      requires q.doc.Valid()
      ensures Valid({}) && this.q == q && done == 0
    {
      this.q, dirruns, done, slots, registry := q, 0, 0, map[], map[];
    }

    /** A new run on the same document: stale cells stay where they are. */
    method BeginRun(context: Context, outermost: bool, xml: bool)
      requires Valid({})
      modifies this
      ensures Valid({})
      ensures q == old(q).(context := context, outermost := outermost, xml := xml)
      ensures slots == old(slots) && done == old(done) && registry == old(registry) && dirruns == old(dirruns) + 1
    {
      dirruns := dirruns + 1;
      q := q.(context := context, outermost := outermost, xml := xml);
    }

    /** Only this call's own cells were stored. */
    twostate predicate Stored()
      reads this
    {
      forall k | k in slots :: fresh(slots[k]) || (k in old(slots) && old(slots)[k] == slots[k])
    }

    method Run(m: Matcher, elem: nat, ghost busy: set<Cell>, ghost bound: nat) returns (r: bool)
      requires Valid(busy) && q.doc.Has(elem) && Known(registry, m, bound)
      requires forall c | c in busy :: c.doneName >= bound
      modifies this`slots
      ensures Valid(busy) && Stored()
      ensures r == Accepts(q, m, elem)
      decreases m, 1
    {
      match m
      case Test(f) => r := q.holds(f, elem);
      case IsContext => r := q.context == One(elem);
      case InContexts => r := q.context.Many? && elem in q.context.nodes;
      case Foundation(leading, one, any) =>
        r := !leading && (q.xml || !q.outermost);
        if !r {
          if q.context.One? {
            r := Run(one, elem, busy, bound);
          } else {
            r := Run(any, elem, busy, bound);
          }
        }
      case Walk(_, _, first, _, _) =>
        if first || q.xml {
          r := WalkPlain(m, elem, busy, bound);
        } else {
          r := WalkCached(m, elem, busy);
        }
      case All(ms) =>
        var i := |ms|;
        r := true;
        while i > 0
          invariant 0 <= i <= |ms| && Valid(busy) && Stored()
          invariant forall j: nat | i <= j < |ms| :: Accepts(q, ms[j], elem)
        {
          i := i - 1;
          r := Run(ms[i], elem, busy, bound);
          if !r {
            return;
          }
        }
    }

    /** The `first` closure, and the closure for XML nodes: no cell is written. */
    method WalkPlain(w: Matcher, elem: nat, ghost busy: set<Cell>, ghost bound: nat) returns (r: bool)
      requires Valid(busy) && q.doc.Has(elem) && Known(registry, w, bound) && w.Walk?
      requires forall c | c in busy :: c.doneName >= bound
      modifies this`slots
      ensures Valid(busy) && Stored()
      ensures r == Ahead(q, w, elem)
      decreases w, 0
    {
      var cur := elem;
      while q.doc.Step(cur, w.dir).Some?
        invariant Valid(busy) && Stored() && q.doc.Has(cur)
        invariant Ahead(q, w, elem) == Ahead(q, w, cur)
        decreases q.doc.Rank(cur, w.dir)
      {
        q.doc.StepDescends(cur, w.dir);
        cur := q.doc.Step(cur, w.dir).value;
        if Eligible(q, w, cur) {
          r := Run(w.inner, cur, busy, w.doneName);
          if w.first || r {
            return;
          }
        }
      }
      r := false;
    }

    /** Every node that points at the unfinished cell `c` was passed in vain by a walk at least `rank`
        steps from its end: the answer there is the answer of the whole walk. */
    ghost predicate Pending(c: Cell, w: Matcher, answer: bool, rank: nat)
      requires Sound() && w.Walk?
      reads this
    {
      forall k | k in slots && slots[k] == c ::
        k.1 == w.dir && q.doc.Has(k.0) && rank <= q.doc.Rank(k.0, w.dir) && AtOrAhead(q, w, k.0) == answer
    }

    ghost predicate Unused(c: Cell)
      reads this
    {
      forall k | k in slots :: slots[k] != c
    }

    /** Once the answer is in the shared cell, every node that points at it is served. */
    lemma Finish(c: Cell, w: Matcher, answer: bool, rank: nat, busy: set<Cell>)
      requires Valid(busy + {c}) && w.Walk? && w.doneName in registry && registry[w.doneName] == w
      requires c.run == dirruns && c.doneName == w.doneName
      requires Pending(c, w, answer, rank) && (c.result == Some(answer) || Unused(c))
      ensures Valid(busy)
    {
      forall k | k in slots ensures slots[k].run <= dirruns && (slots[k] in busy || Truthful(k)) {
        if slots[k] == c {
          assert Truthful(k);
        }
      }
    }

    /** Stores the shared cell on a node and asks the inner matcher about that node. */
    method Visit(w: Matcher, n: nat, newCache: Cell, ghost busy: set<Cell>, ghost answer: bool) returns (r: bool)
      requires newCache in busy && Valid(busy) && q.doc.Has(n) && w.Walk? && Known(registry, w.inner, w.doneName)
      requires newCache.run <= dirruns && forall c | c in busy :: c.doneName >= w.doneName
      requires AtOrAhead(q, w, n) == answer && Pending(newCache, w, answer, q.doc.Rank(n, w.dir))
      modifies this`slots
      ensures Valid(busy) && Pending(newCache, w, answer, q.doc.Rank(n, w.dir)) && StoredOr(newCache)
      ensures r == Accepts(q, w.inner, n)
      decreases w, 0, 0
    {
      slots := slots[(n, w.dir) := newCache];
      assert Valid(busy);
      r := Run(w.inner, n, busy, w.doneName);
    }

    twostate predicate StoredOr(c: Cell)
      reads this
    {
      forall k | k in slots :: fresh(slots[k]) || slots[k] == c || (k in old(slots) && old(slots)[k] == slots[k])
    }

    /** One eligible node of a caching walk: an old cell of this walk and run answers, otherwise the
        inner matcher does. Either way the shared cell takes the answer so far. */
    method Look(w: Matcher, n: nat, newCache: Cell, ghost busy: set<Cell>, ghost answer: bool) returns (found: bool)
      requires Valid(busy + {newCache}) && q.doc.Has(n) && w.Walk? && !w.first && Eligible(q, w, n) &&
               Known(registry, w.inner, w.doneName)
      requires w.doneName in registry && registry[w.doneName] == w && forall c | c in busy :: c.doneName > w.doneName
      requires newCache.run == dirruns && newCache.doneName == w.doneName
      requires AtOrAhead(q, w, n) == answer && Pending(newCache, w, answer, q.doc.Rank(n, w.dir) + 1)
      modifies this`slots, newCache`result
      ensures Valid(busy + {newCache}) && Pending(newCache, w, answer, q.doc.Rank(n, w.dir)) && StoredOr(newCache)
      ensures found ==> newCache.result == Some(answer)
      ensures !found ==> newCache.result == Some(false) && Ahead(q, w, n) == answer
      decreases w, 0, 1
    {
      var key := (n, w.dir);
      if key in slots && slots[key].run == dirruns && slots[key].doneName == w.doneName {
        assert slots[key] != newCache && Truthful(key);
        newCache.result := slots[key].result;
        return true;
      }
      found := Visit(w, n, newCache, busy + {newCache}, answer);
      newCache.result := Some(found);
    }

    /** The caching closure. */
    method WalkCached(w: Matcher, elem: nat, ghost busy: set<Cell>) returns (r: bool)
      requires Valid(busy) && q.doc.Has(elem) && w.Walk? && !w.first && Known(registry, w.inner, w.doneName)
      requires w.doneName in registry && registry[w.doneName] == w && forall c | c in busy :: c.doneName > w.doneName
      modifies this`slots
      ensures Valid(busy) && Stored()
      ensures r == Ahead(q, w, elem)
      decreases w, 0, 2
    {
      var newCache := new Cell(dirruns, w.doneName);
      var cur, found := elem, false;
      ghost var answer := Ahead(q, w, elem);
      while q.doc.Step(cur, w.dir).Some? && !found
        invariant Valid(busy + {newCache}) && Stored() && q.doc.Has(cur)
        invariant Pending(newCache, w, answer, q.doc.Rank(cur, w.dir))
        invariant if found then newCache.result == Some(answer)
                  else
                    answer == Ahead(q, w, cur) &&
                    (newCache.result == Some(false) || (newCache.result == None && Unused(newCache)))
        decreases !found, q.doc.Rank(cur, w.dir)
      {
        q.doc.StepDescends(cur, w.dir);
        cur := q.doc.Step(cur, w.dir).value;
        if Eligible(q, w, cur) {
          found := Look(w, cur, newCache, busy, answer);
        }
      }
      Finish(newCache, w, answer, 0, busy);
      r := newCache.result == Some(true);
    }

    /** `addCombinator`: a walk under a name never used before. */
    method AddCombinator(matcher: Matcher, rel: Relation, base: bool) returns (w: Matcher)
      requires Valid({}) && Known(registry, matcher, done)
      modifies this`done, this`registry
      ensures Valid({}) && w == WalkFor(matcher, rel, base, old(done)) && Known(registry, w, done)
      ensures done == old(done) + 1 && registry == old(registry)[old(done) := w]
    {
      w := WalkFor(matcher, rel, base, done);
      assert forall k | k in slots :: Truthful(k);
      registry := registry[done := w];
      done := done + 1;
      KnownStill(old(registry), registry, matcher, old(done), old(done));
      assert forall k | k in slots :: Truthful(k);
    }

    /** `matcherFromTokens`, for tokens without positional pseudos. */
    method MatcherFromTokens(tokens: seq<Token>) returns (m: Matcher)
      requires Valid({}) && 0 < |tokens|
      modifies this`done, this`registry
      ensures Valid({}) && m == Compiled(tokens, old(done)) && Known(registry, m, done)
      ensures old(done) <= done && forall k | k in old(registry) :: k in registry && registry[k] == old(registry)[k]
    {
      var i := if tokens[0].Combinator? then 1 else 0;
      var implicitRelative := if tokens[0].Combinator? then tokens[0].rel else Descendant;
      var matchContext := AddCombinator(IsContext, implicitRelative, true);
      label One:
      var matchAnyContext := AddCombinator(InContexts, implicitRelative, true);
      KnownStill(old@One(registry), registry, matchContext, old@One(done), done);
      var matchers := [Foundation(tokens[0].Combinator?, matchContext, matchAnyContext)];
      while i < |tokens|
        invariant Start(tokens) <= i <= |tokens| && Valid({})
        invariant (matchers, done) == Matchers(tokens, i, old(done))
        invariant forall j: nat | j < |matchers| :: Known(registry, matchers[j], done)
        invariant old(done) <= done && forall k | k in old(registry) :: k in registry && registry[k] == old(registry)[k]
      {
        match tokens[i] {
          case Combinator(rel) =>
            var w := AddCombinator(ElementMatcher(matchers), rel, false);
            matchers := [w];
          case Simple(f) =>
            matchers := matchers + [Test(f)];
        }
        i := i + 1;
      }
      m := ElementMatcher(matchers);
    }

    /** One question put to a compiled matcher; any number of questions may follow in the same run. */
    method Matches(m: Matcher, elem: nat) returns (r: bool)
      requires Valid({}) && q.doc.Has(elem) && Known(registry, m, done)
      modifies this`slots
      ensures Valid({}) && r == Accepts(q, m, elem)
    {
      r := Run(m, elem, {}, done);
    }

    /** From a token list to an answer: the compiled, caching matcher decides what the selector says. */
    method Is(tokens: seq<Token>, elem: nat) returns (r: bool)
      requires Valid({}) && q.doc.Has(elem) && 0 < |tokens|
      modifies this`done, this`registry, this`slots
      ensures Valid({}) && (r <==> Selects(q, Parse(tokens, |tokens|), elem))
    {
      var m := MatcherFromTokens(tokens);
      r := Matches(m, elem);
      CompilationPreservesMeaning(q, tokens, old(done), elem);
    }
  }
}
