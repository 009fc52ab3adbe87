/** `:nth-child` and `:nth-last-child` with their index caches (Selectors Level 3, sections 6.6.5.2
    and 6.6.5.3): the forward cache, the older and the newer backward cache, and the final test. */
module NthChild {
  import opened Options
  import opened Dom

  /** The number of elements among the first `i` children of `p`. */
  function Elements(doc: Doc, p: nat, i: nat): (c: nat)
    requires doc.Valid() && doc.Has(p) && i <= |doc.kids[p]|
    ensures c <= i
  {
    if i == 0 then 0
    else assert doc.LinkedDown(p, i - 1); Elements(doc, p, i - 1) + (if doc.element[doc.kids[p][i - 1]] then 1 else 0)
  }

  lemma {:induction false} ElementsGrow(doc: Doc, p: nat, i: nat, j: nat)
    requires doc.Valid() && doc.Has(p) && i <= j <= |doc.kids[p]|
    ensures Elements(doc, p, i) <= Elements(doc, p, j)
    ensures i < j && doc.Has(doc.kids[p][i]) && doc.element[doc.kids[p][i]] ==>
            Elements(doc, p, i) < Elements(doc, p, j)
    decreases j
  {
    if i < j {
      ElementsGrow(doc, p, i, j - 1);
    }
  }

  /** An element child, which is what the filter is asked about. */
  ghost predicate IsElementChild(doc: Doc, n: nat)
    requires doc.Valid()
  {
    doc.Has(n) && doc.element[n] && doc.parent[n].Some?
  }

  /** The element children of `p` that stand from place `i` up to, and without, place `j`. */
  ghost function ElementsFrom(doc: Doc, p: nat, i: nat, j: nat): set<nat>
    requires doc.Valid()
  {
    set m: nat | m < |doc.parent| && doc.element[m] && doc.parent[m] == Some(p) && i <= doc.Slot(m) < j
  }

  /** The walks count elements, and nothing else. */
  lemma {:induction false} ElementsCounted(doc: Doc, p: nat, i: nat, j: nat)
    requires doc.Valid() && doc.Has(p) && i <= j <= |doc.kids[p]|
    ensures Elements(doc, p, j) - Elements(doc, p, i) == |ElementsFrom(doc, p, i, j)|
    decreases j
  {
    var now := ElementsFrom(doc, p, i, j);
    if i < j {
      ElementsCounted(doc, p, i, j - 1);
      var before, m := ElementsFrom(doc, p, i, j - 1), doc.kids[p][j - 1];
      doc.SlotOf(p, j - 1);
      forall n: nat | n < |doc.parent| && doc.parent[n] == Some(p) && doc.Slot(n) == j - 1 ensures n == m {
      }
      assert now == if doc.element[m] then before + {m} else before;
    } else {
      assert now == {};
    }
  }

  /** The elements in front of `n` under the same parent, and those behind. */
  ghost function Earlier(doc: Doc, n: nat): set<nat>
    requires doc.Valid() && doc.Has(n)
  {
    set m: nat | m < |doc.parent| && doc.element[m] && doc.IsEarlierSibling(m, n)
  }

  ghost function Later(doc: Doc, n: nat): set<nat>
    requires doc.Valid() && doc.Has(n)
  {
    set m: nat | m < |doc.parent| && doc.element[m] && doc.IsEarlierSibling(n, m)
  }

  /** The 1-based index of `n` among its parent's element children. */
  ghost function IndexFromStart(doc: Doc, n: nat): nat
    requires doc.Valid() && IsElementChild(doc, n)
  {
    |Earlier(doc, n)| + 1
  }

  /** The same, counted from the last element child. */
  ghost function IndexFromEnd(doc: Doc, n: nat): nat
    requires doc.Valid() && IsElementChild(doc, n)
  {
    |Later(doc, n)| + 1
  }

  lemma OwnSlot(doc: Doc, n: nat)
    requires doc.Valid() && IsElementChild(doc, n)
    ensures doc.Has(doc.parent[n].value) && doc.Slot(n) < |doc.kids[doc.parent[n].value]|
    ensures forall i: nat | i < |doc.kids[doc.parent[n].value]| ::
              doc.kids[doc.parent[n].value][i] == n <==> i == doc.Slot(n)
  {
    assert doc.LinkedUp(n) && doc.Distinct(doc.parent[n].value);
  }

  /** The indexes as the walks arrive at them. */
  lemma WalkedIndexes(doc: Doc, n: nat)
    requires doc.Valid() && IsElementChild(doc, n)
    ensures var p, i := doc.parent[n].value, doc.Slot(n);
            && doc.Has(p) && i < |doc.kids[p]| && doc.kids[p][i] == n
            && IndexFromStart(doc, n) == Elements(doc, p, i + 1) == Elements(doc, p, i) + 1
            && IndexFromEnd(doc, n) == Elements(doc, p, |doc.kids[p]|) - Elements(doc, p, i)
  {
    OwnSlot(doc, n);
    var p, i := doc.parent[n].value, doc.Slot(n);
    ElementsCounted(doc, p, 0, i);
    ElementsCounted(doc, p, i + 1, |doc.kids[p]|);
    assert Earlier(doc, n) == ElementsFrom(doc, p, 0, i);
    forall m: nat | m < |doc.parent| && doc.parent[m] == Some(p) && doc.element[m]
      ensures doc.Slot(m) < |doc.kids[p]|
    {
      OwnSlot(doc, m);
    }
    assert Later(doc, n) == ElementsFrom(doc, p, i + 1, |doc.kids[p]|);
  }

  /** The element children of `p`. */
  ghost function AllElements(doc: Doc, p: nat): set<nat>
    requires doc.Valid()
  {
    set m: nat | m < |doc.parent| && doc.element[m] && doc.parent[m] == Some(p)
  }

  lemma AllCounted(doc: Doc, p: nat)
    requires doc.Valid() && doc.Has(p)
    ensures Elements(doc, p, |doc.kids[p]|) == |AllElements(doc, p)|
  {
    ElementsCounted(doc, p, 0, |doc.kids[p]|);
    forall m: nat | m in AllElements(doc, p) ensures doc.Slot(m) < |doc.kids[p]| {
      OwnSlot(doc, m);
    }
    assert AllElements(doc, p) == ElementsFrom(doc, p, 0, |doc.kids[p]|);
  }

  /** The indexes are positions: first to last they run from 1 without gaps. */
  lemma {:induction false} IndexesAreRanks(doc: Doc, m: nat, n: nat)
    requires doc.Valid() && IsElementChild(doc, m) && IsElementChild(doc, n) && doc.parent[m] == doc.parent[n]
    ensures doc.Slot(m) < doc.Slot(n) <==> IndexFromStart(doc, m) < IndexFromStart(doc, n)
    ensures doc.Slot(m) < doc.Slot(n) <==> IndexFromEnd(doc, m) > IndexFromEnd(doc, n)
    ensures IndexFromStart(doc, n) + IndexFromEnd(doc, n) == |AllElements(doc, doc.parent[n].value)| + 1
  {
    var p := doc.parent[n].value;
    WalkedIndexes(doc, m);
    WalkedIndexes(doc, n);
    AllCounted(doc, p);
    ElementsGrow(doc, p, doc.Slot(n), |doc.kids[p]|);
    if doc.Slot(m) <= doc.Slot(n) {
      ElementsGrow(doc, p, doc.Slot(m), doc.Slot(n));
    } else {
      ElementsGrow(doc, p, doc.Slot(n), doc.Slot(m));
    }
  }

  // ----- forward: the parent remembers where the last query ended

  datatype Seek = Seek(run: nat, nodeIndex: nat, diff: nat)

  class ForwardFilter {
    const doc: Doc
    var dirruns: nat
    /** `parent[ expando ].nth` */
    var cache: map<nat, Seek>

    ghost predicate Valid()
      reads this
    {
      && doc.Valid()
      && forall p | p in cache :: doc.Has(p) && cache[p].run <= dirruns &&
           (cache[p].run == dirruns ==> Remembers(p, cache[p].nodeIndex, cache[p].diff))
    }

    /** Child number `i` of `p` is an element and `diff` is its 1-based index. */
    ghost predicate Remembers(p: nat, i: nat, diff: nat)
      requires doc.Valid() && doc.Has(p)
      reads this
    {
      i < |doc.kids[p]| && doc.LinkedDown(p, i) && doc.element[doc.kids[p][i]] && diff == Elements(doc, p, i + 1)
    }

    constructor (doc: Doc)
      requires doc.Valid()
      ensures Valid() && this.doc == doc
    {
      this.doc, dirruns, cache := doc, 0, map[];
    }

    method BeginRun()
      requires Valid()
      modifies this
      ensures Valid() && cache == old(cache) && dirruns == old(dirruns) + 1
    {
      dirruns := dirruns + 1;
    }

    /** The seek stands on child number `i` of `p`, and `diff` elements were counted up to it. */
    ghost predicate At(p: nat, i: nat, node: nat, diff: nat)
      requires doc.Valid() && doc.Has(p)
    {
      i < |doc.kids[p]| && doc.kids[p][i] == node && doc.Has(node) && diff == Elements(doc, p, i + 1)
    }

    /** One step of the forward seek: the sibling behind, or, the first time there is none, the first child
        with the counts back at 0. */
    method Advance(p: nat, node: Option<nat>, nodeIndex: nat, diff: nat, start: bool)
      returns (node': Option<nat>, nodeIndex': nat, diff': nat, start': bool)
      requires doc.Valid() && doc.Has(p) && |doc.kids[p]| > 0
      requires node.Some? ==> At(p, nodeIndex, node.value, diff)
      ensures if node.Some? && nodeIndex + 1 < |doc.kids[p]| then nodeIndex' == nodeIndex + 1 && start' == start &&
              node'.Some?
              else nodeIndex' == 0 && !start' && (node'.Some? <==> start)
      ensures node'.Some? ==>
                nodeIndex' < |doc.kids[p]| && node'.value == doc.kids[p][nodeIndex'] && doc.Has(node'.value)
      ensures node'.Some? ==> diff' == Elements(doc, p, nodeIndex')
    {
      node', nodeIndex', diff', start' := None, nodeIndex + 1, diff, start;
      if node.Some? {
        doc.SlotOf(p, nodeIndex);
        node' := doc.NextSibling(node.value);
      }
      if node'.None? {
        diff', nodeIndex', start' := 0, 0, false;
        if start {
          node' := Some(doc.kids[p][0]);
          assert doc.LinkedDown(p, 0);
        }
      }
    }

    method Index(elem: nat) returns (diff: nat)
      requires Valid() && IsElementChild(doc, elem)
      modifies this`cache
      ensures Valid() && diff == IndexFromStart(doc, elem)
    {
      var parent := doc.parent[elem].value;
      OwnSlot(doc, elem);
      WalkedIndexes(doc, elem);
      ghost var slot, len := doc.Slot(elem), |doc.kids[parent]|;
      var node: Option<nat>, nodeIndex: nat, start := None, 0, true;
      diff := 0;
      if parent in cache && cache[parent].run == dirruns && cache[parent].nodeIndex != 0 {
        nodeIndex, diff := cache[parent].nodeIndex, cache[parent].diff;
        node := Some(doc.kids[parent][nodeIndex]);
      }
      while true
        invariant Valid() && (node.Some? ==> At(parent, nodeIndex, node.value, diff))
        invariant !start ==> node.Some? && nodeIndex < slot
        decreases start, if node.Some? then len - nodeIndex else len
      {
        node, nodeIndex, diff, start := Advance(parent, node, nodeIndex, diff, start);
        if doc.element[node.value] {
          diff := diff + 1;
          if node.value == elem {
            cache := cache[parent := Seek(dirruns, nodeIndex, diff)];
            return;
          }
        }
      }
    }
  }

  // ----- backward: every element remembers its own index

  /** The index that an element keeps, with the run it was found in. */
  datatype Stamp = Stamp(run: nat, diff: nat)

  /** One step of the backward seek: the sibling in front, or, the first time there is none, the last child
      with the count back at 0. `start` says that this is still to come; `at` is the place of `node`. */
  method Retreat(doc: Doc, p: nat, node: Option<nat>, ghost at: nat, diff: nat, start: bool)
    returns (node': Option<nat>, ghost at': nat, diff': nat, start': bool)
    requires doc.Valid() && doc.Has(p) && |doc.kids[p]| > 0
    requires node.Some? ==> at < |doc.kids[p]| && doc.kids[p][at] == node.value
    ensures if node.Some? && at > 0 then at' == at - 1 && start' == start && diff' == diff && node'.Some?
            else at' == |doc.kids[p]| - 1 && !start' && diff' == 0 && (node'.Some? <==> start)
    ensures node'.Some? ==> at' < |doc.kids[p]| && node'.value == doc.kids[p][at'] && doc.Has(node'.value)
    ensures node'.Some? ==> doc.parent[node'.value] == Some(p) && doc.Slot(node'.value) == at'
  {
    node', at', diff', start' := None, at, diff, start;
    if node.Some? {
      doc.SlotOf(p, at);
      node' := doc.Previous(node.value);
      at' := if at > 0 then at - 1 else |doc.kids[p]| - 1;
    }
    if node'.None? {
      diff', start' := 0, false;
      at' := |doc.kids[p]| - 1;
      if start {
        node' := Some(doc.kids[p][|doc.kids[p]| - 1]);
      }
    }
    doc.SlotOf(p, at');
  }

  /** The older engine: an uncached query walks from the last child. */
  class OldLastFilter {
    const doc: Doc
    var dirruns: nat
    var stamps: map<nat, Stamp>

    ghost predicate Valid()
      reads this
    {
      && doc.Valid()
      && forall n | n in stamps :: IsElementChild(doc, n) && stamps[n].run <= dirruns &&
           (stamps[n].run == dirruns ==> stamps[n].diff == IndexFromEnd(doc, n))
    }

    constructor (doc: Doc)
      requires doc.Valid()
      ensures Valid() && this.doc == doc
    {
      this.doc, dirruns, stamps := doc, 0, map[];
    }

    method BeginRun()
      requires Valid()
      modifies this
      ensures Valid() && stamps == old(stamps) && dirruns == old(dirruns) + 1
    {
      dirruns := dirruns + 1;
    }

    method Index(elem: nat) returns (diff: nat)
      requires Valid() && IsElementChild(doc, elem)
      modifies this`stamps
      ensures Valid() && diff == IndexFromEnd(doc, elem)
    {
      if elem in stamps && stamps[elem].run == dirruns {
        return stamps[elem].diff;
      }
      var parent := doc.parent[elem].value;
      OwnSlot(doc, elem);
      ghost var slot, len, at := doc.Slot(elem), |doc.kids[parent]|, 0;
      var node: Option<nat>, start := None, true;
      diff := 0;
      while true
        invariant Valid() && (node.None? ==> start && at == 0) &&
                  (node.Some? ==> !start && slot < at < len && doc.kids[parent][at] == node.value)
        invariant node.Some? ==> diff == Elements(doc, parent, len) - Elements(doc, parent, at)
        decreases start, at
      {
        node, at, diff, start := Retreat(doc, parent, node, at, diff, start);
        if doc.element[node.value] {
          diff := diff + 1;
          WalkedIndexes(doc, node.value);
          Mark(node.value, diff);
          if node.value == elem {
            return;
          }
        }
      }
    }

    /** Caches the index of an encountered element. */
    method Mark(node: nat, diff: nat)
      requires Valid() && IsElementChild(doc, node) && diff == IndexFromEnd(doc, node)
      modifies this`stamps
      ensures Valid()
    {
      stamps := stamps[node := Stamp(dirruns, diff)];
    }
  }

  /** What version 3.5.1 leaves on child number `j` of `p` when child number `slot` was the first one
      asked about: an uncached query starts at the element itself, so that earlier siblings are numbered
      backward from it before the walk restarts at the last child. */
  ghost function Stamped(doc: Doc, p: nat, slot: nat, j: nat): int
    requires doc.Valid() && doc.Has(p) && slot <= |doc.kids[p]| && j <= |doc.kids[p]|
  {
    if j < slot then Elements(doc, p, slot) - Elements(doc, p, j)
    else Elements(doc, p, |doc.kids[p]|) - Elements(doc, p, j)
  }

  /** The answer for `n` once `anchor` was asked about first: in front of the anchor only the elements up to the
      anchor count. */
  ghost function Answer(doc: Doc, anchor: nat, n: nat): nat
    requires doc.Valid() && IsElementChild(doc, anchor) && IsElementChild(doc, n) && doc.parent[anchor] == doc.parent[n]
  {
    if doc.Slot(n) < doc.Slot(anchor) then |Later(doc, n) * Earlier(doc, anchor)| + 1 else IndexFromEnd(doc, n)
  }

  /** The answer as the walk arrives at it. */
  lemma WalkedAnswer(doc: Doc, anchor: nat, n: nat)
    requires doc.Valid() && IsElementChild(doc, anchor) && IsElementChild(doc, n) && doc.parent[anchor] == doc.parent[n]
    ensures var p := doc.parent[n].value;
            && doc.Has(p) && doc.Slot(anchor) < |doc.kids[p]| && doc.Slot(n) < |doc.kids[p]|
            && Answer(doc, anchor, n) == Stamped(doc, p, doc.Slot(anchor), doc.Slot(n))
  {
    var p, i, j := doc.parent[n].value, doc.Slot(n), doc.Slot(anchor);
    OwnSlot(doc, anchor);
    WalkedIndexes(doc, n);
    if i < j {
      ElementsCounted(doc, p, i + 1, j);
      assert Later(doc, n) * Earlier(doc, anchor) == ElementsFrom(doc, p, i + 1, j);
    }
  }

  /** The answer is right exactly when the element does not stand before the anchor. */
  lemma AnswerIsRight(doc: Doc, anchor: nat, n: nat)
    requires doc.Valid() && IsElementChild(doc, anchor) && IsElementChild(doc, n) && doc.parent[anchor] == doc.parent[n]
    ensures Answer(doc, anchor, n) == IndexFromEnd(doc, n) <==> doc.Slot(anchor) <= doc.Slot(n)
  {
    var p := doc.parent[n].value;
    WalkedAnswer(doc, anchor, n);
    WalkedIndexes(doc, n);
    WalkedIndexes(doc, anchor);
    ElementsGrow(doc, p, doc.Slot(anchor), |doc.kids[p]|);
  }

  class LastFilter {
    const doc: Doc
    var dirruns: nat
    var stamps: map<nat, Stamp>
    /** The element first asked about in this run, by parent. */
    ghost var anchors: map<nat, nat>

    /** Child number `j` of `p` carries its stamp for the anchor in slot `slot`. */
    ghost predicate Carries(p: nat, slot: nat, j: nat)
      requires doc.Valid() && doc.Has(p) && slot <= |doc.kids[p]| && j < |doc.kids[p]|
      reads this
    {
      var n := doc.kids[p][j];
      n in stamps && stamps[n].run == dirruns && stamps[n].diff == Stamped(doc, p, slot, j)
    }

    ghost predicate Anchored(p: nat)
      requires doc.Valid() && p in anchors
      reads this
    {
      && IsElementChild(doc, anchors[p]) && doc.parent[anchors[p]] == Some(p)
      && forall j: nat | j < |doc.kids[p]| && IsElementChild(doc, doc.kids[p][j]) :: Carries(p, doc.Slot(anchors[p]), j)
    }

    ghost predicate Valid()
      reads this
    {
      && doc.Valid()
      && (forall p | p in anchors :: Anchored(p))
      && (forall n | n in stamps :: stamps[n].run <= dirruns)
      && (forall n | n in stamps && stamps[n].run == dirruns ::
          IsElementChild(doc, n) && doc.parent[n].value in anchors)
    }

    constructor (doc: Doc)
      requires doc.Valid()
      ensures Valid() && this.doc == doc && anchors == map[]
    {
      this.doc, dirruns, stamps, anchors := doc, 0, map[], map[];
    }

    method BeginRun()
      requires Valid()
      modifies this
      ensures Valid() && stamps == old(stamps) && dirruns == old(dirruns) + 1 && anchors == map[]
    {
      dirruns, anchors := dirruns + 1, map[];
    }

    ghost predicate ChildOf(p: nat, m: nat) {
      doc.Has(m) && doc.parent[m] == Some(p)
    }

    /** Nothing changed for children of other parents. */
    twostate predicate Untouched(p: nat)
      reads this
    {
      forall m {:trigger m in stamps} | !ChildOf(p, m) ::
        (m in stamps <==> m in old(stamps)) && (m in stamps ==> stamps[m] == old(stamps)[m])
    }

    /** Caches the index of an encountered element. */
    method Mark(p: nat, ghost slot: nat, ghost at: nat, node: nat, diff: nat)
      requires doc.Valid() && doc.Has(p) && slot < |doc.kids[p]| && at < |doc.kids[p]| && doc.kids[p][at] == node
      requires ChildOf(p, node) && diff == Stamped(doc, p, slot, at)
      modifies this`stamps
      ensures Untouched(p) && stamps == old(stamps)[node := Stamp(dirruns, diff)]
      ensures Carries(p, slot, at)
      ensures forall j: nat | j < |doc.kids[p]| && old(Carries(p, slot, j)) :: Carries(p, slot, j)
    {
      assert doc.Distinct(p);
      stamps := stamps[node := Stamp(dirruns, diff)];
    }

    /** The walk of an uncached query. */
    method Seek(p: nat, elem: nat, ghost slot: nat) returns (diff: nat)
      requires doc.Valid() && doc.Has(p) && slot < |doc.kids[p]| && doc.kids[p][slot] == elem &&
               IsElementChild(doc, elem)
      requires forall m | m in stamps && ChildOf(p, m) :: stamps[m].run < dirruns
      modifies this`stamps
      ensures diff == Stamped(doc, p, slot, slot) && Untouched(p)
      ensures forall j: nat | j < |doc.kids[p]| && IsElementChild(doc, doc.kids[p][j]) :: Carries(p, slot, j)
      ensures forall m | m in stamps && ChildOf(p, m) ::
              stamps[m].run <= dirruns && (stamps[m].run == dirruns ==> doc.element[m])
    {
      ghost var len: nat, at: nat := |doc.kids[p]|, slot;
      var node: Option<nat>, start := Some(elem), true;
      diff := 0;
      while true
        invariant node.Some? && at < len && doc.kids[p][at] == node.value
        invariant start ==> at <= slot && diff == Elements(doc, p, slot) - Elements(doc, p, at)
        invariant !start ==> slot < at && diff == Elements(doc, p, len) - Elements(doc, p, at)
        invariant forall j: nat | j < len && IsElementChild(doc, doc.kids[p][j]) &&
                  (if start then at <= j < slot else j < slot || at <= j) :: Carries(p, slot, j)
        invariant Untouched(p)
        invariant forall m | m in stamps && ChildOf(p, m) ::
                  stamps[m].run <= dirruns && (stamps[m].run == dirruns ==> doc.element[m])
        decreases start, at
      {
        node, at, diff, start := Retreat(doc, p, node, at, diff, start);
        if doc.element[node.value] {
          diff := diff + 1;
          Mark(p, slot, at, node.value, diff);
          if node.value == elem {
            doc.SlotOf(p, slot);
            return;
          }
        }
      }
    }

    /** A stamped element carries the answer. */
    lemma StampIsAnswer(elem: nat)
      requires Valid() && IsElementChild(doc, elem) && doc.parent[elem].value in anchors
      ensures elem in stamps && stamps[elem].run == dirruns
      ensures doc.parent[anchors[doc.parent[elem].value]] == doc.parent[elem] &&
              IsElementChild(doc, anchors[doc.parent[elem].value]) &&
              stamps[elem].diff == Answer(doc, anchors[doc.parent[elem].value], elem)
    {
      var p := doc.parent[elem].value;
      OwnSlot(doc, elem);
      assert Anchored(p) && Carries(p, doc.Slot(anchors[p]), doc.Slot(elem));
      WalkedAnswer(doc, anchors[p], elem);
    }

    method Index(elem: nat) returns (diff: nat)
      requires Valid() && IsElementChild(doc, elem)
      modifies this`stamps, this`anchors
      ensures Valid()
      ensures anchors ==
              if doc.parent[elem].value in old(anchors) then old(anchors)
              else old(anchors)[doc.parent[elem].value := elem]
      ensures diff == Answer(doc, anchors[doc.parent[elem].value], elem)
    {
      var parent := doc.parent[elem].value;
      if parent in anchors {
        StampIsAnswer(elem);
      }
      if elem in stamps && stamps[elem].run == dirruns {
        return stamps[elem].diff;
      }
      OwnSlot(doc, elem);
      diff := Seek(parent, elem, doc.Slot(elem));
      forall p | p in anchors ensures Anchored(p) {
        assert old(Anchored(p));
        forall j: nat | j < |doc.kids[p]| && IsElementChild(doc, doc.kids[p][j])
          ensures Carries(p, doc.Slot(anchors[p]), j)
        {
          assert old(Carries(p, doc.Slot(anchors[p]), j));
          doc.SlotOf(p, j);
        }
      }
      WalkedAnswer(doc, elem, elem);
      anchors := anchors[parent := elem];
    }

    method Ask(queries: seq<nat>, k: nat) returns (diff: nat)
      requires Valid() && Askable(doc, queries) && k < |queries| && anchors == AnchorsAfter(doc, queries, k)
      modifies this`stamps, this`anchors
      ensures Valid() && anchors == AnchorsAfter(doc, queries, k + 1)
      ensures Answers(doc, queries, k, diff)
    {
      diff := Index(queries[k]);
      assert anchors == AnchorsAfter(doc, queries, k + 1);
    }

    /** The queries of one run, in any order and under any parents. */
    method QueryAll(queries: seq<nat>) returns (answers: seq<nat>)
      requires Valid() && anchors == map[] && Askable(doc, queries)
      modifies this`stamps, this`anchors
      ensures Valid() && |answers| == |queries|
      ensures AllAnswered(doc, queries, answers)
    {
      answers := [];
      for i := 0 to |queries|
        invariant Valid() && |answers| == i && anchors == AnchorsAfter(doc, queries, i)
        invariant AllAnswered(doc, queries, answers)
      {
        var diff := Ask(queries, i);
        OneMoreAnswer(doc, queries, answers, diff);
        answers := answers + [diff];
      }
    }
  }

  ghost predicate Askable(doc: Doc, queries: seq<nat>) {
    doc.Valid() && forall i: nat | i < |queries| :: IsElementChild(doc, queries[i])
  }

  ghost function ParentOf(doc: Doc, n: nat): nat
    requires doc.Valid() && IsElementChild(doc, n)
  {
    doc.parent[n].value
  }

  /** The element first asked about under each parent, after `k` queries. */
  ghost function AnchorsAfter(doc: Doc, queries: seq<nat>, k: nat): (m: map<nat, nat>)
    requires Askable(doc, queries) && k <= |queries|
    ensures forall p | p in m :: IsElementChild(doc, m[p]) && ParentOf(doc, m[p]) == p
  {
    if k == 0 then map[] else
      var m, p := AnchorsAfter(doc, queries, k - 1), ParentOf(doc, queries[k - 1]);
      if p in m then m else m[p := queries[k - 1]]
  }

  ghost function AnchorOf(doc: Doc, queries: seq<nat>, i: nat): (a: nat)
    requires Askable(doc, queries) && i < |queries|
    ensures IsElementChild(doc, a) && ParentOf(doc, a) == ParentOf(doc, queries[i])
  {
    AnchorsAfter(doc, queries, i + 1)[ParentOf(doc, queries[i])]
  }

  /** What version 3.5.1 answers to query number `i`. */
  ghost predicate Answers(doc: Doc, queries: seq<nat>, i: nat, diff: int)
    requires Askable(doc, queries) && i < |queries|
  {
    diff == Answer(doc, AnchorOf(doc, queries, i), queries[i])
  }

  ghost predicate AllAnswered(doc: Doc, queries: seq<nat>, answers: seq<nat>)
    requires Askable(doc, queries)
  {
    |answers| <= |queries| && forall i: nat | i < |answers| :: Answers(doc, queries, i, answers[i])
  }

  lemma OneMoreAnswer(doc: Doc, queries: seq<nat>, answers: seq<nat>, diff: nat)
    requires Askable(doc, queries) && AllAnswered(doc, queries, answers) && |answers| < |queries|
    requires Answers(doc, queries, |answers|, diff)
    ensures AllAnswered(doc, queries, answers + [diff])
  {
    var more := answers + [diff];
    forall i: nat | i < |more| ensures Answers(doc, queries, i, more[i]) {
      assert more[i] == if i < |answers| then answers[i] else diff;
    }
  }

  /** The anchor is the first of the queries that is about a child of that parent. */
  lemma {:induction false} AnchorIsFirst(doc: Doc, queries: seq<nat>, k: nat, i: nat)
    requires Askable(doc, queries) && i < k <= |queries|
    requires forall j: nat | j < i :: ParentOf(doc, queries[j]) != ParentOf(doc, queries[i])
    ensures var m := AnchorsAfter(doc, queries, k);
            ParentOf(doc, queries[i]) in m && m[ParentOf(doc, queries[i])] == queries[i]
    decreases k
  {
    AnchorAdded(doc, queries, k);
    if i < k - 1 {
      AnchorIsFirst(doc, queries, k - 1, i);
    } else {
      NoAnchorYet(doc, queries, i, ParentOf(doc, queries[i]));
    }
  }

  lemma AnchorAdded(doc: Doc, queries: seq<nat>, k: nat)
    requires Askable(doc, queries) && 0 < k <= |queries|
    ensures var before, after, p := AnchorsAfter(doc, queries, k - 1), AnchorsAfter(doc, queries, k),
            ParentOf(doc, queries[k - 1]);
            && (forall q | q in before :: q in after && after[q] == before[q])
            && (p !in before ==> p in after && after[p] == queries[k - 1])
  {
  }

  lemma {:induction false} NoAnchorYet(doc: Doc, queries: seq<nat>, k: nat, p: nat)
    requires Askable(doc, queries) && k <= |queries|
    requires forall j: nat | j < k :: ParentOf(doc, queries[j]) != p
    ensures p !in AnchorsAfter(doc, queries, k)
  {
    if k > 0 {
      NoAnchorYet(doc, queries, k - 1, p);
    }
  }

  /** A run of version 3.5.1 answers every `:nth-last-child` query rightly exactly when no query is
      about an element in front of the one first asked about under its parent. */
  lemma RunIsRightWhen(doc: Doc, queries: seq<nat>)
    requires Askable(doc, queries)
    ensures (forall i: nat | i < |queries| ::
             Answer(doc, AnchorOf(doc, queries, i), queries[i]) == IndexFromEnd(doc, queries[i])) <==>
            (forall i: nat | i < |queries| :: doc.Slot(AnchorOf(doc, queries, i)) <= doc.Slot(queries[i]))
  {
    forall i: nat | i < |queries|
      ensures Answer(doc, AnchorOf(doc, queries, i), queries[i]) == IndexFromEnd(doc, queries[i]) <==>
              doc.Slot(AnchorOf(doc, queries, i)) <= doc.Slot(queries[i])
    {
      AnswerIsRight(doc, AnchorOf(doc, queries, i), queries[i]);
    }
  }

  lemma ThreeElements(doc: Doc)
    requires doc == Doc([None, Some(0), Some(0), Some(0)], [[1, 2, 3], [], [], []], [true, true, true, true])
    ensures doc.Valid() && Askable(doc, [2, 1])
    ensures doc.Slot(1) == 0 && doc.Slot(2) == 1 && doc.Slot(3) == 2
  {
    assert doc.kids[0][0] == 1 && doc.kids[0][1] == 2 && doc.kids[0][2] == 3;
    assert doc.Valid();
    doc.SlotOf(0, 0);
    doc.SlotOf(0, 1);
    doc.SlotOf(0, 2);
  }

  lemma BehindTheFirst(doc: Doc)
    requires doc.Valid() && |doc.parent| == 4 && doc.parent[0] == None && doc.element == [true, true, true, true]
    requires doc.parent[1] == doc.parent[2] == doc.parent[3] == Some(0)
    requires doc.Slot(1) == 0 && doc.Slot(2) == 1 && doc.Slot(3) == 2
    ensures Later(doc, 1) == {2, 3} && Later(doc, 1) * Earlier(doc, 2) == {}
  {
  }

  /** Three sibling elements, the second asked about before the first, as `:nth-last-child(1) ~ *`
      does from the third: the first then passes for the last child. */
  lemma SecondThenFirst(doc: Doc)
    requires doc == Doc([None, Some(0), Some(0), Some(0)], [[1, 2, 3], [], [], []], [true, true, true, true])
    ensures Askable(doc, [2, 1]) && AnchorOf(doc, [2, 1], 1) == 2
    ensures Answer(doc, 2, 1) == 1 && IndexFromEnd(doc, 1) == 3
  {
    ThreeElements(doc);
    AnchorIsFirst(doc, [2, 1], 2, 0);
    BehindTheFirst(doc);
  }

  // ----- the final test

  /** JavaScript's `%`: the remainder has the sign of the dividend. */
  function JsRemainder(d: int, a: int): int
    requires a != 0
  {
    var size := if a < 0 then -a else a;
    if d < 0 then -(-d % size) else d % size
  }

  /** The last step of the filter: the index less the offset is one cycle, or a multiple of the cycle on the
      same side of 0. A remainder by zero is no number. */
  predicate FinalTest(first: int, last: int, index: int) {
    var diff := index - last;
    diff == first || (first != 0 && JsRemainder(diff, first) == 0 && (diff as real) / (first as real) >= 0.0)
  }

  lemma Multiple(d: int, a: int)
    requires a > 0 && d >= 0
    ensures d % a == 0 <==> exists n: nat :: a * n == d
  {
    if d % a == 0 {
      assert a * (d / a) == d;
    }
    if n: nat :| a * n == d {
      MultipleRemainder(n, a);
    }
  }

  lemma MultipleRemainder(n: nat, a: int)
    requires a > 0
    ensures (a * n) % a == 0
  {
    var k := n - (a * n) / a;
    assert a * k == (a * n) % a;
    assert k >= 1 ==> a * k >= a;
    assert k <= -1 ==> a * k <= -a;
  }

  lemma QuotientSign(d: int, a: int)
    requires a != 0
    ensures (d as real) / (a as real) >= 0.0 <==> d == 0 || (d > 0 <==> a > 0)
  {
    var x := (d as real) / (a as real);
    assert x * (a as real) == d as real;
  }

  /** The test holds exactly when a*n + b is the index for some n >= 0. */
  lemma FinalTestIsFormula(a: int, b: int, index: int)
    ensures FinalTest(a, b, index) <==> exists n: nat :: a * n + b == index
  {
    var d := index - b;
    if a == 0 {
      if d == 0 {
        assert a * 0 + b == index;
      }
    } else {
      QuotientSign(d, a);
      var size, steps := if a < 0 then -a else a, if a < 0 then -d else d;
      if steps >= 0 {
        Multiple(steps, size);
      }
      forall n: nat ensures a * n == d <==> size * n == steps {
      }
      if d == a {
        assert a * 1 + b == index;
      }
    }
  }
}
