/** The meaning of a complex selector, read from left to right (Selectors Level 3, section 8). */
module Selector {
  import opened Options
  import opened Dom

  datatype Relation = Child | Descendant | Adjacent | Sibling

  /** A token of one selector: a combinator, or the simple selector with the given index. */
  datatype Token = Combinator(rel: Relation) | Simple(filter: nat)

  /** The context of a query: one node, or a list of nodes. */
  datatype Context = One(node: nat) | Many(nodes: seq<nat>)

  /** What stays fixed during one run: the document, the truth of each simple selector on each node,
      the context, whether that context is the outermost one, and whether the document is XML. */
  datatype Query = Query(doc: Doc, holds: (nat, nat) -> bool, context: Context, outermost: bool, xml: bool)

  /** `leading compounds[0] rels[0] compounds[1] ...`. Two combinators in a row stand around an empty
      compound, which every element satisfies. */
  datatype Complex = Complex(leading: Option<Relation>, compounds: seq<seq<nat>>, rels: seq<Relation>) {
    predicate Valid() {
      |compounds| == |rels| + 1
    }

    function Append(t: Token): (c: Complex)
      requires Valid()
      ensures c.Valid() && c.leading == leading
    {
      match t
      case Combinator(rel) => this.(compounds := compounds + [[]], rels := rels + [rel])
      case Simple(f) => this.(compounds := compounds[..|rels|] + [compounds[|rels|] + [f]])
    }
  }

  /** The selector spelled by the first `i` tokens; a combinator in front is the leading one. */
  function Parse(tokens: seq<Token>, i: nat): (c: Complex)
    requires 0 < |tokens| && (if tokens[0].Combinator? then 1 else 0) <= i <= |tokens|
    ensures c.Valid()
    ensures c.leading == if tokens[0].Combinator? then Some(tokens[0].rel) else None
  {
    if i == 0 then Complex(None, [[]], [])
    else if i == 1 && tokens[0].Combinator? then Complex(Some(tokens[0].rel), [[]], [])
    else Parse(tokens, i - 1).Append(tokens[i - 1])
  }

  /** Section 8.1 to 8.3: how the element on the left of a combinator stands to the one on its right. */
  ghost predicate Linked(doc: Doc, rel: Relation, a: nat, b: nat)
    requires doc.Valid() && doc.Has(a) && doc.Has(b)
  {
    doc.element[a] &&
    match rel
    case Child => doc.parent[b] == Some(a)
    case Descendant => doc.IsAncestor(a, b)
    case Sibling => doc.IsEarlierSibling(a, b)
    case Adjacent =>
      doc.IsEarlierSibling(a, b) &&
      forall c: nat | doc.Has(c) && doc.IsEarlierSibling(a, c) && doc.IsEarlierSibling(c, b) :: !doc.element[c]
  }

  /** How a context node stands to the first element: it need not be an element when it is reached
      upward, since a document may be a context. */
  ghost predicate Reaches(doc: Doc, rel: Relation, c: nat, n: nat)
    requires doc.Valid() && doc.Has(n)
  {
    match rel
    case Child => doc.parent[n] == Some(c)
    case Descendant => doc.IsAncestor(c, n)
    case _ => doc.Has(c) && Linked(doc, rel, c, n)
  }

  predicate InContext(q: Query, n: nat) {
    match q.context
    case One(node) => n == node
    case Many(nodes) => n in nodes
  }

  /** The first element must be reached from the context, unless the selector starts with a compound
      and the run is XML or nested in another one. */
  ghost predicate FromContext(q: Query, leading: Option<Relation>, n: nat)
    requires q.doc.Valid() && q.doc.Has(n)
  {
    || (leading.None? && (q.xml || !q.outermost))
    || exists c: nat :: InContext(q, c) && Reaches(q.doc, if leading.Some? then leading.value else Descendant, c, n)
  }

  predicate Satisfies(q: Query, compound: seq<nat>, n: nat) {
    forall i: nat | i < |compound| :: q.holds(compound[i], n)
  }

  /** One element per compound, linked by the combinators in order. */
  ghost predicate IsChain(q: Query, c: Complex, chain: seq<nat>)
    requires q.doc.Valid() && c.Valid()
  {
    && |chain| == |c.compounds|
    && (forall i: nat | i < |chain| :: q.doc.Has(chain[i]) && Satisfies(q, c.compounds[i], chain[i]))
    && (forall i: nat | i < |c.rels| :: Linked(q.doc, c.rels[i], chain[i], chain[i + 1]))
    && FromContext(q, c.leading, chain[0])
  }

  ghost predicate Selects(q: Query, c: Complex, n: nat)
    requires q.doc.Valid() && c.Valid()
  {
    exists chain :: IsChain(q, c, chain) && chain[|c.rels|] == n
  }

  /** Adding a simple selector narrows the last compound. */
  lemma {:induction false} SelectsSimple(q: Query, c: Complex, f: nat, n: nat)
    requires q.doc.Valid() && q.doc.Has(n) && c.Valid()
    ensures Selects(q, c.Append(Simple(f)), n) <==> Selects(q, c, n) && q.holds(f, n)
  {
    var d, k := c.Append(Simple(f)), |c.rels|;
    assert d.compounds[k] == c.compounds[k] + [f];
    assert forall i: nat | i < k :: d.compounds[i] == c.compounds[i];
    forall chain | IsChain(q, d, chain) && chain[k] == n ensures IsChain(q, c, chain) && q.holds(f, n) {
      assert Satisfies(q, d.compounds[k], n) && d.compounds[k][|c.compounds[k]|] == f;
      forall i: nat | i < |c.compounds[k]| ensures q.holds(c.compounds[k][i], n) {
        assert d.compounds[k][i] == c.compounds[k][i];
      }
      assert Satisfies(q, c.compounds[k], n);
    }
    forall chain | IsChain(q, c, chain) && chain[k] == n && q.holds(f, n) ensures IsChain(q, d, chain) {
      assert Satisfies(q, c.compounds[k], n);
      assert Satisfies(q, d.compounds[k], n);
    }
  }

  /** Adding a combinator moves the right end of the chain along one link. */
  lemma {:induction false} SelectsCombinator(q: Query, c: Complex, rel: Relation, n: nat)
    requires q.doc.Valid() && q.doc.Has(n) && c.Valid()
    ensures Selects(q, c.Append(Combinator(rel)), n) <==>
            exists a: nat :: q.doc.Has(a) && Linked(q.doc, rel, a, n) && Selects(q, c, a)
  {
    var d, k := c.Append(Combinator(rel)), |c.rels|;
    assert forall i: nat | i <= k :: d.compounds[i] == c.compounds[i];
    assert forall i: nat | i < k :: d.rels[i] == c.rels[i];
    if Selects(q, d, n) {
      var chain :| IsChain(q, d, chain) && chain[k + 1] == n;
      var front := chain[..k + 1];
      assert d.rels[k] == rel && Linked(q.doc, d.rels[k], chain[k], chain[k + 1]);
      assert IsChain(q, c, front) && front[k] == chain[k];
    }
    if a: nat :| q.doc.Has(a) && Linked(q.doc, rel, a, n) && Selects(q, c, a) {
      var front :| IsChain(q, c, front) && front[k] == a;
      var chain := front + [n];
      assert Satisfies(q, d.compounds[k + 1], n);
      assert IsChain(q, d, chain) && chain[k + 1] == n;
    }
  }

  /** A single compound: the chain is the element itself. */
  lemma SelectsStart(q: Query, leading: Option<Relation>, n: nat)
    requires q.doc.Valid() && q.doc.Has(n)
    ensures Selects(q, Complex(leading, [[]], []), n) <==> FromContext(q, leading, n)
  {
    var c := Complex(leading, [[]], []);
    if FromContext(q, leading, n) {
      assert Satisfies(q, c.compounds[0], n);
      assert IsChain(q, c, [n]);
    }
  }
}
