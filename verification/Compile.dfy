/** What `matcherFromTokens` builds: closures as data, their meaning without any cache, and the proof
    that building them right to left keeps the meaning of the selector. */
module Compile {
  import opened Options
  import opened Dom
  import opened Selector

  datatype Matcher =
    | Test(filter: nat)
    | IsContext    // elem === checkContext
    | InContexts   // indexOf( checkContext, elem ) > -1
    | Foundation(leadingRelative: bool, matchContext: Matcher, matchAnyContext: Matcher)
    | Walk(inner: Matcher, dir: Dir, first: bool, checkNonElements: bool, doneName: nat)
    | All(matchers: seq<Matcher>)

  /** `Expr.relative`. */
  function DirOf(rel: Relation): Dir {
    if rel.Child? || rel.Descendant? then ParentNode else PreviousSibling
  }

  predicate FirstOf(rel: Relation) {
    rel.Child? || rel.Adjacent?
  }

  predicate Eligible(q: Query, w: Matcher, n: nat)
    requires q.doc.Valid() && q.doc.Has(n) && w.Walk?
  {
    q.doc.element[n] || w.checkNonElements
  }

  /** The verdict of a matcher, with every walk done in full. */
  ghost predicate Accepts(q: Query, m: Matcher, n: nat)
    requires q.doc.Valid() && q.doc.Has(n)
    decreases m, 1, 0
  {
    match m
    case Test(f) => q.holds(f, n)
    case IsContext => q.context == One(n)
    case InContexts => q.context.Many? && n in q.context.nodes
    case Foundation(leading, one, any) =>
      (!leading && (q.xml || !q.outermost)) || (if q.context.One? then Accepts(q, one, n) else Accepts(q, any, n))
    case Walk(_, _, _, _, _) => Ahead(q, m, n)
    case All(ms) => forall i: nat | i < |ms| :: Accepts(q, ms[i], n)
  }

  /** The walk `w` started at `n` succeeds: on the nearest eligible node when `first` is set, on any
      eligible node otherwise. */
  ghost predicate Ahead(q: Query, w: Matcher, n: nat)
    requires q.doc.Valid() && q.doc.Has(n) && w.Walk?
    decreases w, 0, q.doc.Rank(n, w.dir)
  {
    match q.doc.Step(n, w.dir)
    case None => false
    case Some(x) =>
      q.doc.StepDescends(n, w.dir);
      if Eligible(q, w, x) then Accepts(q, w.inner, x) || (!w.first && Ahead(q, w, x)) else Ahead(q, w, x)
  }

  /** A node at or beyond `x` on the chain satisfies the inner matcher. */
  ghost predicate AtOrAhead(q: Query, w: Matcher, x: nat)
    requires q.doc.Valid() && q.doc.Has(x) && w.Walk?
  {
    (Eligible(q, w, x) && Accepts(q, w.inner, x)) || Ahead(q, w, x)
  }

  function ElementMatcher(ms: seq<Matcher>): Matcher
    requires ms != []
  {
    if |ms| > 1 then All(ms) else ms[0]
  }

  function Leading(tokens: seq<Token>): Option<Relation>
    requires 0 < |tokens|
  {
    if tokens[0].Combinator? then Some(tokens[0].rel) else None
  }

  function Start(tokens: seq<Token>): nat
    requires 0 < |tokens|
  {
    if tokens[0].Combinator? then 1 else 0
  }

  function WalkFor(inner: Matcher, rel: Relation, base: bool, name: nat): (w: Matcher)
    ensures w.Walk?
  {
    Walk(inner, DirOf(rel), FirstOf(rel), base && DirOf(rel) == ParentNode, name)
  }

  function FoundationFor(leading: Option<Relation>, name: nat): Matcher {
    var rel := if leading.Some? then leading.value else Descendant;
    Foundation(leading.Some?, WalkFor(IsContext, rel, true, name), WalkFor(InContexts, rel, true, name + 1))
  }

  /** The array `matchers` after `i` tokens, and the next free name. */
  function Matchers(tokens: seq<Token>, i: nat, name: nat): (r: (seq<Matcher>, nat))
    requires 0 < |tokens| && Start(tokens) <= i <= |tokens|
    ensures r.0 != []
    decreases i
  {
    if i == Start(tokens) then ([FoundationFor(Leading(tokens), name)], name + 2)
    else
      var (ms, free) := Matchers(tokens, i - 1, name);
      match tokens[i - 1]
      case Combinator(rel) => ([WalkFor(ElementMatcher(ms), rel, false, free)], free + 1)
      case Simple(f) => (ms + [Test(f)], free)
  }

  function Compiled(tokens: seq<Token>, name: nat): Matcher
    requires 0 < |tokens|
  {
    ElementMatcher(Matchers(tokens, |tokens|, name).0)
  }

  // ----- walks are the declarative relations

  lemma {:induction false} AheadDescendant(q: Query, w: Matcher, n: nat)
    requires q.doc.Valid() && q.doc.Has(n) && w.Walk? && w.dir == ParentNode && !w.first
    ensures Ahead(q, w, n) <==>
            exists a: nat :: q.doc.Has(a) && q.doc.IsAncestor(a, n) && Eligible(q, w, a) && Accepts(q, w.inner, a)
    decreases n
  {
    match q.doc.parent[n]
    case None =>
    case Some(p) =>
      assert q.doc.LinkedUp(n);
      AheadDescendant(q, w, p);
  }

  lemma AheadChild(q: Query, w: Matcher, n: nat)
    requires q.doc.Valid() && q.doc.Has(n) && w.Walk? && w.dir == ParentNode && w.first
    ensures Ahead(q, w, n) <==>
            exists a: nat :: q.doc.Has(a) && q.doc.parent[n] == Some(a) && Eligible(q, w, a) && Accepts(q, w.inner, a)
  {
    match q.doc.parent[n]
    case None =>
    case Some(p) =>
      assert q.doc.LinkedUp(n);
      if !q.doc.element[p] {
        assert q.doc.Step(p, ParentNode).None?;
      }
  }

  /** Stepping to the previous sibling drops exactly the last earlier sibling. */
  lemma EarlierSiblings(doc: Doc, n: nat, a: nat)
    requires doc.Valid() && doc.Has(n) && doc.Has(a)
    ensures doc.IsEarlierSibling(a, n) <==>
            doc.Previous(n).Some? && (a == doc.Previous(n).value || doc.IsEarlierSibling(a, doc.Previous(n).value))
  {
    match doc.parent[n]
    case None =>
    case Some(p) =>
      if doc.Slot(n) > 0 {
        doc.SlotOf(p, doc.Slot(n) - 1);
      }
  }

  lemma {:induction false} AheadSibling(q: Query, w: Matcher, n: nat)
    requires q.doc.Valid() && q.doc.Has(n) && w.Walk? && w.dir == PreviousSibling && !w.first && !w.checkNonElements
    ensures Ahead(q, w, n) <==>
            exists a: nat :: q.doc.Has(a) && Linked(q.doc, Sibling, a, n) && Accepts(q, w.inner, a)
    decreases q.doc.Slot(n)
  {
    forall a: nat | q.doc.Has(a) {
      EarlierSiblings(q.doc, n, a);
    }
    match q.doc.Previous(n)
    case None =>
    case Some(x) =>
      q.doc.StepDescends(n, PreviousSibling);
      AheadSibling(q, w, x);
      if q.doc.element[x] {
        assert Linked(q.doc, Sibling, x, n);
      }
      assert forall a: nat | q.doc.Has(a) && Linked(q.doc, Sibling, a, x) :: Linked(q.doc, Sibling, a, n);
  }

  lemma {:induction false} AheadAdjacent(q: Query, w: Matcher, n: nat)
    requires q.doc.Valid() && q.doc.Has(n) && w.Walk? && w.dir == PreviousSibling && w.first && !w.checkNonElements
    ensures Ahead(q, w, n) <==>
            exists a: nat :: q.doc.Has(a) && Linked(q.doc, Adjacent, a, n) && Accepts(q, w.inner, a)
    decreases q.doc.Slot(n)
  {
    match q.doc.Previous(n)
    case None =>
    case Some(x) =>
      q.doc.StepDescends(n, PreviousSibling);
      forall a: nat | q.doc.Has(a)
        ensures q.doc.IsEarlierSibling(a, n) <==> a == x || q.doc.IsEarlierSibling(a, x)
      {
        EarlierSiblings(q.doc, n, a);
      }
      if q.doc.element[x] {
        assert Linked(q.doc, Adjacent, x, n);
        forall a: nat | q.doc.Has(a) && Linked(q.doc, Adjacent, a, n) ensures a == x {
          assert q.doc.IsEarlierSibling(x, n);
        }
      } else {
        AheadAdjacent(q, w, x);
        assert forall a: nat | q.doc.Has(a) :: Linked(q.doc, Adjacent, a, n) <==> Linked(q.doc, Adjacent, a, x);
      }
  }

  /** A walk built for a combinator succeeds exactly when some linked element passes the inner matcher. */
  lemma WalkIsLink(q: Query, inner: Matcher, rel: Relation, name: nat, n: nat)
    requires q.doc.Valid() && q.doc.Has(n)
    ensures Accepts(q, WalkFor(inner, rel, false, name), n) <==>
            exists a: nat :: q.doc.Has(a) && Linked(q.doc, rel, a, n) && Accepts(q, inner, a)
  {
    var w := WalkFor(inner, rel, false, name);
    match rel
    case Child =>
      AheadChild(q, w, n);
      assert forall a: nat | q.doc.Has(a) ::
             Linked(q.doc, rel, a, n) <==> q.doc.parent[n] == Some(a) && Eligible(q, w, a);
    case Descendant =>
      AheadDescendant(q, w, n);
      assert forall a: nat | q.doc.Has(a) :: Linked(q.doc, rel, a, n) <==> q.doc.IsAncestor(a, n) && Eligible(q, w, a);
    case Adjacent => AheadAdjacent(q, w, n);
    case Sibling => AheadSibling(q, w, n);
  }

  lemma {:induction false} AncestorExists(doc: Doc, a: nat, n: nat)
    requires doc.Valid() && doc.Has(n) && doc.IsAncestor(a, n)
    ensures doc.Has(a)
    decreases n
  {
    assert doc.LinkedUp(n);
    if a != doc.parent[n].value {
      AncestorExists(doc, a, doc.parent[n].value);
    }
  }

  /** The foundational matcher is the context test. */
  lemma FoundationIsContext(q: Query, leading: Option<Relation>, name: nat, n: nat)
    requires q.doc.Valid() && q.doc.Has(n)
    ensures Accepts(q, FoundationFor(leading, name), n) <==> FromContext(q, leading, n)
  {
    var rel := if leading.Some? then leading.value else Descendant;
    var inner := if q.context.One? then IsContext else InContexts;
    var w := WalkFor(inner, rel, true, if q.context.One? then name else name + 1);
    assert forall a: nat | q.doc.Has(a) :: Accepts(q, inner, a) <==> InContext(q, a);
    match rel {
      case Child =>
        AheadChild(q, w, n);
        assert forall a: nat | q.doc.parent[n] == Some(a) :: q.doc.Has(a) by {
          assert q.doc.parent[n].Some? ==> q.doc.LinkedUp(n);
        }
      case Descendant =>
        AheadDescendant(q, w, n);
        forall a: nat | q.doc.IsAncestor(a, n) ensures q.doc.Has(a) {
          AncestorExists(q.doc, a, n);
        }
      case Adjacent => AheadAdjacent(q, w, n);
      case Sibling => AheadSibling(q, w, n);
    }
    assert Ahead(q, w, n) <==> exists c: nat :: InContext(q, c) && Reaches(q.doc, rel, c, n);
  }

  lemma AcceptsAll(q: Query, ms: seq<Matcher>, n: nat)
    requires q.doc.Valid() && q.doc.Has(n) && ms != []
    ensures Accepts(q, ElementMatcher(ms), n) <==> forall i: nat | i < |ms| :: Accepts(q, ms[i], n)
  {
  }

  lemma AcceptsMore(q: Query, ms: seq<Matcher>, f: nat, n: nat)
    requires q.doc.Valid() && q.doc.Has(n) && ms != []
    ensures Accepts(q, ElementMatcher(ms + [Test(f)]), n) <==> Accepts(q, ElementMatcher(ms), n) && q.holds(f, n)
  {
    var more := ms + [Test(f)];
    AcceptsAll(q, ms, n);
    AcceptsAll(q, more, n);
    assert more[|ms|] == Test(f);
    assert forall i: nat | i < |ms| :: more[i] == ms[i];
  }

  /** `matchers` after `i` tokens means the selector those tokens spell. */
  ghost predicate Faithful(q: Query, tokens: seq<Token>, i: nat, name: nat, n: nat)
    requires q.doc.Valid() && q.doc.Has(n)
    requires 0 < |tokens| && Start(tokens) <= i <= |tokens|
  {
    Accepts(q, ElementMatcher(Matchers(tokens, i, name).0), n) <==> Selects(q, Parse(tokens, i), n)
  }

  lemma FaithfulSimple(q: Query, tokens: seq<Token>, i: nat, name: nat, n: nat)
    requires q.doc.Valid() && q.doc.Has(n)
    requires 0 < |tokens| && Start(tokens) < i <= |tokens| && tokens[i - 1].Simple?
    requires Faithful(q, tokens, i - 1, name, n)
    ensures Faithful(q, tokens, i, name, n)
  {
    var ms, f := Matchers(tokens, i - 1, name).0, tokens[i - 1].filter;
    assert Matchers(tokens, i, name).0 == ms + [Test(f)];
    AcceptsMore(q, ms, f, n);
    assert Parse(tokens, i) == Parse(tokens, i - 1).Append(Simple(f));
    SelectsSimple(q, Parse(tokens, i - 1), f, n);
  }

  lemma FaithfulCombinator(q: Query, tokens: seq<Token>, i: nat, name: nat, n: nat)
    requires q.doc.Valid() && q.doc.Has(n)
    requires 0 < |tokens| && Start(tokens) < i <= |tokens| && tokens[i - 1].Combinator?
    requires forall a: nat | q.doc.Has(a) :: Faithful(q, tokens, i - 1, name, a)
    ensures Faithful(q, tokens, i, name, n)
  {
    var (ms, free) := Matchers(tokens, i - 1, name);
    var rel, inner, c := tokens[i - 1].rel, ElementMatcher(ms), Parse(tokens, i - 1);
    assert Matchers(tokens, i, name).0 == [WalkFor(inner, rel, false, free)];
    WalkIsLink(q, inner, rel, free, n);
    assert Parse(tokens, i) == c.Append(Combinator(rel));
    SelectsCombinator(q, c, rel, n);
    assert forall a: nat | q.doc.Has(a) :: Accepts(q, inner, a) <==> Selects(q, c, a) by {
      assert forall a: nat | q.doc.Has(a) :: Faithful(q, tokens, i - 1, name, a);
    }
  }

  lemma {:induction false} PrefixPreservesMeaning(q: Query, tokens: seq<Token>, i: nat, name: nat, n: nat)
    requires q.doc.Valid() && q.doc.Has(n)
    requires 0 < |tokens| && Start(tokens) <= i <= |tokens|
    ensures Faithful(q, tokens, i, name, n)
    decreases i
  {
    if i == Start(tokens) {
      FoundationIsContext(q, Leading(tokens), name, n);
      SelectsStart(q, Leading(tokens), n);
    } else {
      forall a: nat | q.doc.Has(a) ensures Faithful(q, tokens, i - 1, name, a) {
        PrefixPreservesMeaning(q, tokens, i - 1, name, a);
      }
      if tokens[i - 1].Simple? {
        FaithfulSimple(q, tokens, i, name, n);
      } else {
        FaithfulCombinator(q, tokens, i, name, n);
      }
    }
  }

  /** The compiled closure accepts an element exactly when a left-to-right chain of elements, one per
      compound, linked by the combinators and reached from the context, ends at it. */
  lemma {:induction false} CompilationPreservesMeaning(q: Query, tokens: seq<Token>, name: nat, n: nat)
    requires q.doc.Valid() && q.doc.Has(n) && 0 < |tokens|
    ensures Accepts(q, Compiled(tokens, name), n) <==> Selects(q, Parse(tokens, |tokens|), n)
  {
    PrefixPreservesMeaning(q, tokens, |tokens|, name, n);
  }
}
