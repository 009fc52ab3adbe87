/** A document as the selector engine sees it: a finite forest with parent, sibling and child-list
    links that stays fixed while a query runs. */
module Dom {
  import opened Options

  /** The property followed by a combinator (`combinator.dir`). */
  datatype Dir = ParentNode | PreviousSibling

  /** Nodes are numbered so that a parent comes before its children; siblings may be numbered in any
      order. Several parentless nodes may exist: documents, fragments and detached elements. */
  datatype Doc = Doc(parent: seq<Option<nat>>, kids: seq<seq<nat>>, element: seq<bool>) {
    predicate Has(n: nat) {
      n < |parent|
    }

    ghost predicate Valid() {
      && |kids| == |parent| == |element|
      && (forall n: nat | Has(n) && parent[n].Some? :: LinkedUp(n))
      && (forall p: nat, i: nat | Has(p) && i < |kids[p]| :: LinkedDown(p, i))
      && (forall p: nat {:trigger Distinct(p)} | Has(p) :: Distinct(p))
    }

    /** No child is listed twice. */
    ghost predicate Distinct(p: nat)
      requires |kids| == |parent| && Has(p)
    {
      forall i: nat, j: nat | i < j < |kids[p]| :: kids[p][i] != kids[p][j]
    }

    /** A child is listed by its parent, and only elements and roots hold children. */
    ghost predicate LinkedUp(n: nat)
      requires |kids| == |parent| == |element| && Has(n) && parent[n].Some?
    {
      var p := parent[n].value;
      p < n && n in kids[p] && (element[p] || parent[p].None?)
    }

    ghost predicate LinkedDown(p: nat, i: nat)
      requires |kids| == |parent| && Has(p) && i < |kids[p]|
    {
      Has(kids[p][i]) && parent[kids[p][i]] == Some(p)
    }

    /** The index of `n` in its parent's `childNodes`; 0 for a parentless node. */
    function Slot(n: nat): (i: nat)
      requires Valid() && Has(n)
      ensures parent[n].Some? ==> i < |kids[parent[n].value]| && kids[parent[n].value][i] == n
      ensures parent[n].None? ==> i == 0
    {
      if parent[n].None? then 0 else
        assert LinkedUp(n) && Distinct(parent[n].value);
        var siblings := kids[parent[n].value];
        var i: nat :| i < |siblings| && siblings[i] == n;
        i
    }

    function Previous(n: nat): (m: Option<nat>)
      requires Valid() && Has(n)
      ensures m.Some? ==> Has(m.value)
    {
      if parent[n].None? || Slot(n) == 0 then None
      else assert LinkedDown(parent[n].value, Slot(n) - 1); Some(kids[parent[n].value][Slot(n) - 1])
    }

    function NextSibling(n: nat): (m: Option<nat>)
      requires Valid() && Has(n)
      ensures m.Some? ==> Has(m.value)
    {
      if parent[n].None? || Slot(n) + 1 == |kids[parent[n].value]| then None
      else assert LinkedDown(parent[n].value, Slot(n) + 1); Some(kids[parent[n].value][Slot(n) + 1])
    }

    /** `n[dir]` in the engine. */
    function Step(n: nat, dir: Dir): (m: Option<nat>)
      requires Valid() && Has(n)
      ensures m.Some? ==> Has(m.value)
    {
      match dir
      case ParentNode => assert parent[n].Some? ==> LinkedUp(n); parent[n]
      case PreviousSibling => Previous(n)
    }

    /** What shrinks along a chain of steps. */
    function Rank(n: nat, dir: Dir): nat
      requires Valid() && Has(n)
    {
      match dir
      case ParentNode => n
      case PreviousSibling => Slot(n)
    }

    lemma SlotOf(p: nat, i: nat)
      requires Valid() && Has(p) && i < |kids[p]|
      ensures Has(kids[p][i]) && parent[kids[p][i]] == Some(p) && Slot(kids[p][i]) == i
    {
      assert LinkedDown(p, i) && Distinct(p);
    }

    lemma StepDescends(n: nat, dir: Dir)
      requires Valid() && Has(n) && Step(n, dir).Some?
      ensures Rank(Step(n, dir).value, dir) < Rank(n, dir)
    {
      match dir
      case ParentNode => assert LinkedUp(n);
      case PreviousSibling => SlotOf(parent[n].value, Slot(n) - 1);
    }

    /** `a` is a proper ancestor of `n`. */
    ghost predicate IsAncestor(a: nat, n: nat)
      requires Valid() && Has(n)
      decreases n
    {
      parent[n].Some? && (
        assert LinkedUp(n);
        a == parent[n].value || IsAncestor(a, parent[n].value))
    }

    /** `a` is an earlier child of the same parent as `n`. */
    ghost predicate IsEarlierSibling(a: nat, n: nat)
      requires Valid() && Has(a) && Has(n)
    {
      parent[n].Some? && parent[a] == parent[n] && Slot(a) < Slot(n)
    }
  }
}
