/** The comparator used where `compareDocumentPosition` is missing, and `uniqueSort` on top of it. */
module DocumentOrder {
  import opened Options
  import opened Dom

  // ----- tree order

  /** The nodes below and including `n`, in pre-order. */
  ghost function Preorder(doc: Doc, n: nat): (s: seq<nat>)
    requires doc.Valid() && doc.Has(n)
    ensures s != [] && s[0] == n
    decreases |doc.parent| - n, 1, 0
  {
    [n] + Forest(doc, n, |doc.kids[n]|)
  }

  /** The subtrees of the first `i` children of `p`, one after another. */
  ghost function Forest(doc: Doc, p: nat, i: nat): seq<nat>
    requires doc.Valid() && doc.Has(p) && i <= |doc.kids[p]|
    decreases |doc.parent| - p, 0, i
  {
    if i == 0 then []
    else
      assert doc.LinkedDown(p, i - 1) && doc.LinkedUp(doc.kids[p][i - 1]);
      Forest(doc, p, i - 1) + Preorder(doc, doc.kids[p][i - 1])
  }

  ghost function Root(doc: Doc, n: nat): (r: nat)
    requires doc.Valid() && doc.Has(n)
    ensures doc.Has(r) && doc.parent[r].None?
  {
    if doc.parent[n].None? then n else assert doc.LinkedUp(n); Root(doc, doc.parent[n].value)
  }

  /** The place of `n` in the pre-order of its tree. */
  ghost function Place(doc: Doc, n: nat): nat
    requires doc.Valid() && doc.Has(n)
  {
    if doc.parent[n].None? then 0
    else
      assert doc.LinkedUp(n);
      Place(doc, doc.parent[n].value) + 1 + |Forest(doc, doc.parent[n].value, doc.Slot(n))|
  }

  lemma {:induction false} ForestGrows(doc: Doc, p: nat, i: nat, j: nat)
    requires doc.Valid() && doc.Has(p) && i <= j <= |doc.kids[p]|
    ensures Forest(doc, p, i) <= Forest(doc, p, j)
    decreases j
  {
    if i < j {
      ForestGrows(doc, p, i, j - 1);
    }
  }

  /** The pre-order of `n`'s subtree is a stretch of the pre-order of `s`, starting at `at`. */
  ghost predicate Stretch(doc: Doc, s: seq<nat>, at: nat, n: nat)
    requires doc.Valid() && doc.Has(n)
  {
    at + |Preorder(doc, n)| <= |s| && s[at..at + |Preorder(doc, n)|] == Preorder(doc, n)
  }

  lemma SliceOfSlice(s: seq<nat>, a: nat, m: nat, b: nat, n: nat)
    requires a + m <= |s| && b + n <= m
    ensures s[a..a + m][b..b + n] == s[a + b..a + b + n]
  {
    var t, u := s[a..a + m][b..b + n], s[a + b..a + b + n];
    forall i: nat | i < n ensures t[i] == u[i] {
    }
  }

  lemma ChildStretch(doc: Doc, n: nat)
    requires doc.Valid() && doc.Has(n) && doc.parent[n].Some?
    ensures doc.Has(doc.parent[n].value)
    ensures Stretch(doc, Preorder(doc, doc.parent[n].value), 1 + |Forest(doc, doc.parent[n].value, doc.Slot(n))|, n)
  {
    assert doc.LinkedUp(n);
    var p, i := doc.parent[n].value, doc.Slot(n);
    assert Forest(doc, p, i + 1) == Forest(doc, p, i) + Preorder(doc, n);
    ForestGrows(doc, p, i + 1, |doc.kids[p]|);
    var s, at := Preorder(doc, p), 1 + |Forest(doc, p, i)|;
    assert s == [p] + Forest(doc, p, |doc.kids[p]|);
    assert s[at..at + |Preorder(doc, n)|] == Forest(doc, p, |doc.kids[p]|)[at - 1..at - 1 + |Preorder(doc, n)|];
  }

  /** Every subtree is where its place says, as one stretch. */
  lemma {:induction false} SubtreeStretch(doc: Doc, n: nat)
    requires doc.Valid() && doc.Has(n)
    ensures Stretch(doc, Preorder(doc, Root(doc, n)), Place(doc, n), n)
  {
    if doc.parent[n].Some? {
      assert doc.LinkedUp(n);
      var p := doc.parent[n].value;
      SubtreeStretch(doc, p);
      ChildStretch(doc, n);
      var s, at := Preorder(doc, Root(doc, n)), 1 + |Forest(doc, p, doc.Slot(n))|;
      SliceOfSlice(s, Place(doc, p), |Preorder(doc, p)|, at, |Preorder(doc, n)|);
    }
  }

  /** The place is the index in the pre-order, so places tell nodes of one tree apart. */
  lemma PlaceIsIndex(doc: Doc, n: nat)
    requires doc.Valid() && doc.Has(n)
    ensures Place(doc, n) < |Preorder(doc, Root(doc, n))| && Preorder(doc, Root(doc, n))[Place(doc, n)] == n
  {
    SubtreeStretch(doc, n);
    var s, at := Preorder(doc, Root(doc, n)), Place(doc, n);
    assert s[at..at + |Preorder(doc, n)|][0] == n;
  }

  /** A subtree lies inside the subtree of every ancestor. */
  lemma {:induction false} Nested(doc: Doc, a: nat, n: nat)
    requires doc.Valid() && doc.Has(a) && doc.Has(n) && doc.IsAncestor(a, n)
    ensures Place(doc, a) < Place(doc, n)
    ensures Place(doc, n) + |Preorder(doc, n)| <= Place(doc, a) + |Preorder(doc, a)|
    decreases n
  {
    assert doc.LinkedUp(n);
    ChildStretch(doc, n);
    if a != doc.parent[n].value {
      Nested(doc, a, doc.parent[n].value);
    }
  }

  ghost predicate IsSelfOrAncestor(doc: Doc, a: nat, n: nat)
    requires doc.Valid() && doc.Has(n)
  {
    a == n || doc.IsAncestor(a, n)
  }

  /** Under different children, order is the order of the children. */
  lemma SiblingsDecide(doc: Doc, x: nat, y: nat, a: nat, b: nat)
    requires doc.Valid() && doc.Has(x) && doc.Has(y) && doc.Has(a) && doc.Has(b)
    requires doc.IsEarlierSibling(x, y) && IsSelfOrAncestor(doc, x, a) && IsSelfOrAncestor(doc, y, b)
    ensures Place(doc, a) < Place(doc, b)
  {
    assert doc.LinkedUp(x) && doc.LinkedUp(y);
    var p := doc.parent[x].value;
    assert Forest(doc, p, doc.Slot(x) + 1) == Forest(doc, p, doc.Slot(x)) + Preorder(doc, x);
    ForestGrows(doc, p, doc.Slot(x) + 1, doc.Slot(y));
    if a != x {
      Nested(doc, x, a);
    }
    if b != y {
      Nested(doc, y, b);
    }
  }

  // ----- siblingCheck

  /** `siblingCheck`, with None for `undefined`; `sourceIndex` is an Internet Explorer property. */
  method SiblingCheck(doc: Doc, a: Option<nat>, b: Option<nat>) returns (r: int)
    requires doc.Valid() && (a.Some? ==> doc.Has(a.value)) && (b.Some? ==> doc.Has(b.value))
    requires a.Some? || b.Some?
    requires a.Some? && b.Some? ==> doc.parent[a.value].Some? && doc.parent[a.value] == doc.parent[b.value] && a != b
    ensures a.None? ==> r == -1
    ensures b.None? ==> r == 1
    ensures a.Some? && b.Some? ==> r == if doc.IsEarlierSibling(a.value, b.value) then -1 else 1
  {
    var cur: Option<nat> := if b.Some? then a else None;
    if cur.Some? {
      ghost var p := doc.parent[a.value].value;
      assert doc.LinkedUp(a.value);
      while doc.NextSibling(cur.value).Some?
        invariant cur.Some? && doc.Has(cur.value) && doc.parent[cur.value] == Some(p) &&
                  doc.Slot(a.value) <= doc.Slot(cur.value)
        invariant doc.IsEarlierSibling(a.value, b.value) <==> doc.Slot(cur.value) < doc.Slot(b.value)
        decreases |doc.kids[p]| - doc.Slot(cur.value)
      {
        doc.SlotOf(p, doc.Slot(cur.value) + 1);
        assert doc.kids[p][doc.Slot(b.value)] == b.value;
        cur := doc.NextSibling(cur.value);
        if cur == b {
          return -1;
        }
      }
      assert doc.LinkedUp(b.value);
    }
    r := if a.Some? then 1 else -1;
  }

  // ----- sortOrder

  /** The ancestors of `n` and `n` itself, outermost first. */
  ghost predicate IsPath(doc: Doc, path: seq<nat>, n: nat)
    requires doc.Valid() && doc.Has(n)
  {
    && path != [] && path[|path| - 1] == n
    && (forall i: nat | i < |path| :: doc.Has(path[i]))
    && (forall i: nat | i + 1 < |path| :: doc.parent[path[i + 1]] == Some(path[i]))
  }

  lemma {:induction false} PathFacts(doc: Doc, path: seq<nat>, n: nat, i: nat)
    requires doc.Valid() && doc.Has(n) && IsPath(doc, path, n) && i < |path|
    ensures IsSelfOrAncestor(doc, path[i], n) && Root(doc, path[i]) == Root(doc, n)
    decreases |path| - i
  {
    if i + 1 < |path| {
      PathFacts(doc, path, n, i + 1);
      assert doc.parent[path[i + 1]] == Some(path[i]) && doc.LinkedUp(path[i + 1]);
      if path[i + 1] != n {
        AncestorOfAncestor(doc, path[i], path[i + 1], n);
      }
    }
  }

  lemma {:induction false} AncestorOfAncestor(doc: Doc, a: nat, b: nat, n: nat)
    requires doc.Valid() && doc.Has(b) && doc.Has(n) && doc.parent[b] == Some(a) && doc.IsAncestor(b, n)
    ensures doc.IsAncestor(a, n)
    decreases n
  {
    assert doc.LinkedUp(n) && doc.LinkedUp(b);
    if b != doc.parent[n].value {
      AncestorOfAncestor(doc, a, b, doc.parent[n].value);
    }
  }

  function Sign(x: int): int {
    if x < 0 then -1 else if x > 0 then 1 else 0
  }

  /** What the comparator compares within one tree: the place, except that it puts the root of a tree
      other than the document last. */
  ghost function Key(doc: Doc, document: nat, n: nat): nat
    requires doc.Valid() && doc.Has(n)
  {
    if doc.parent[n].None? && n != document then |Preorder(doc, n)| else Place(doc, n)
  }

  /** The comparator can be trusted on two nodes of one tree: the tree is the document, or neither of
      them is the root of the detached tree. */
  ghost predicate Comparable(doc: Doc, document: nat, a: nat, b: nat)
    requires doc.Valid() && doc.Has(a) && doc.Has(b)
  {
    a == b || Root(doc, a) == document || (doc.parent[a].Some? && doc.parent[b].Some?)
  }

  lemma KeyBounds(doc: Doc, document: nat, n: nat)
    requires doc.Valid() && doc.Has(n)
    ensures Place(doc, n) < |Preorder(doc, Root(doc, n))| && (Place(doc, n) == 0 <==> n == Root(doc, n))
    ensures Key(doc, document, n) ==
            if n == Root(doc, n) && n != document then |Preorder(doc, Root(doc, n))| else Place(doc, n)
  {
    PlaceIsIndex(doc, n);
    if doc.parent[n].Some? {
      RootIsFirst(doc, n);
    }
  }

  /** Within one tree keys tell nodes apart, and agree with places exactly on comparable nodes. */
  lemma KeyIsPlace(doc: Doc, document: nat, a: nat, b: nat)
    requires doc.Valid() && doc.Has(a) && doc.Has(b) && Root(doc, a) == Root(doc, b)
    ensures Key(doc, document, a) == Key(doc, document, b) <==> a == b
    ensures (Key(doc, document, a) < Key(doc, document, b)) == (Place(doc, a) < Place(doc, b)) <==>
            Comparable(doc, document, a, b)
  {
    KeyBounds(doc, document, a);
    KeyBounds(doc, document, b);
    PlaceIsIndex(doc, a);
    PlaceIsIndex(doc, b);
  }

  /** In the document all nodes are comparable, and equal places mean equal nodes: the comparator is a total
      order. */
  lemma OneTreeIsOrdered(doc: Doc, document: nat, a: nat, b: nat)
    requires doc.Valid() && InTree(doc, document, a) && InTree(doc, document, b)
    ensures Comparable(doc, document, a, b) && (Place(doc, a) == Place(doc, b) <==> a == b)
  {
    PlaceIsIndex(doc, a);
    PlaceIsIndex(doc, b);
  }

  method Ancestors(doc: Doc, n: nat) returns (path: seq<nat>)
    requires doc.Valid() && doc.Has(n)
    ensures IsPath(doc, path, n) && path[0] == Root(doc, n)
  {
    var cur := n;
    path := [n];
    while doc.parent[cur].Some?
      invariant doc.Has(cur) && IsPath(doc, path, n) && path[0] == cur && Root(doc, cur) == Root(doc, n)
      decreases cur
    {
      assert doc.LinkedUp(cur);
      cur := doc.parent[cur].value;
      path := [cur] + path;
    }
  }

  function At(path: seq<nat>, i: nat): Option<nat> {
    if i < |path| then Some(path[i]) else None
  }

  /** Two paths that part at place `i` are ordered by their first different nodes. */
  lemma PathsDecide(doc: Doc, ap: seq<nat>, bp: seq<nat>, a: nat, b: nat, i: nat)
    requires doc.Valid() && doc.Has(a) && doc.Has(b) && a != b && IsPath(doc, ap, a) && IsPath(doc, bp, b)
    requires 0 < i <= |ap| && i <= |bp| && ap[i - 1] == bp[i - 1] && At(ap, i) != At(bp, i)
    ensures At(ap, i).None? ==> Place(doc, a) < Place(doc, b)
    ensures At(bp, i).None? ==> Place(doc, b) < Place(doc, a)
    ensures At(ap, i).Some? && At(bp, i).Some? ==>
              doc.parent[ap[i]].Some? && doc.parent[ap[i]] == doc.parent[bp[i]] &&
              if doc.IsEarlierSibling(ap[i], bp[i]) then Place(doc, a) < Place(doc, b)
              else Place(doc, b) < Place(doc, a)
  {
    PathFacts(doc, ap, a, i - 1);
    PathFacts(doc, bp, b, i - 1);
    if i == |ap| {
      Nested(doc, a, b);
    } else if i == |bp| {
      Nested(doc, b, a);
    } else {
      PathFacts(doc, ap, a, i);
      PathFacts(doc, bp, b, i);
      assert doc.parent[ap[i - 1 + 1]] == Some(ap[i - 1]) && doc.parent[bp[i - 1 + 1]] == Some(bp[i - 1]);
      if doc.IsEarlierSibling(ap[i], bp[i]) {
        SiblingsDecide(doc, ap[i], bp[i], a, b);
      } else {
        assert doc.kids[ap[i - 1]][doc.Slot(ap[i])] == ap[i] && doc.kids[ap[i - 1]][doc.Slot(bp[i])] == bp[i];
        SiblingsDecide(doc, bp[i], ap[i], b, a);
      }
    }
  }

  lemma RootIsFirst(doc: Doc, n: nat)
    requires doc.Valid() && doc.Has(n) && doc.parent[n].Some?
    ensures Place(doc, n) > 0 && n != Root(doc, n) && Place(doc, Root(doc, n)) == 0
  {
  }

  lemma ParentlessKeys(doc: Doc, document: nat, a: nat, b: nat)
    requires doc.Valid() && doc.Has(a) && doc.Has(b) && a != b && (doc.parent[a].None? || doc.parent[b].None?)
    ensures Root(doc, a) == Root(doc, b) ==>
              (doc.parent[a].None? <==> doc.parent[b].Some?) &&
              (Key(doc, document, a) < Key(doc, document, b) <==>
               a == document || (b != document && doc.parent[a].Some?)) &&
              Key(doc, document, a) != Key(doc, document, b)
  {
    KeyBounds(doc, document, a);
    KeyBounds(doc, document, b);
  }

  class Sorter {
    const doc: Doc
    /** The current document, and the document of the window. */
    const document: nat
    const preferred: nat
    var hasDuplicate: bool

    constructor (doc: Doc, document: nat, preferred: nat)
      ensures this.doc == doc && this.document == document && this.preferred == preferred && !hasDuplicate
    {
      this.doc, this.document, this.preferred, hasDuplicate := doc, document, preferred, false;
    }

    /** `sortOrder` without `compareDocumentPosition`, with a stable host sort. Within one tree it compares
        keys. A node of the current document comes before nodes of other trees when one of the two has no
        parent; otherwise a node of the document of the window comes first. */
    method SortOrder(a: nat, b: nat) returns (r: int)
      requires doc.Valid() && doc.Has(a) && doc.Has(b)
      modifies this`hasDuplicate
      ensures hasDuplicate == (old(hasDuplicate) || a == b)
      ensures Root(doc, a) == Root(doc, b) ==> r == Sign(Key(doc, document, a) - Key(doc, document, b))
      ensures Root(doc, a) != Root(doc, b) ==>
                var first := if doc.parent[a].None? || doc.parent[b].None? then document else preferred;
                (Root(doc, a) == first ==> r == -1) && (Root(doc, b) == first ==> r == 1)
    {
      if a == b {
        hasDuplicate := true;
        return 0;
      }
      var aup, bup := doc.parent[a], doc.parent[b];
      KeyIsPlace(doc, document, a, a);
      if aup.None? || bup.None? {
        ParentlessKeys(doc, document, a, b);
        return if a == document then -1 else if b == document then 1
               else if aup.Some? then -1 else if bup.Some? then 1 else 0;
      } else if aup == bup {
        r := SiblingOrder(a, b);
      } else {
        r := OrderByPaths(a, b);
      }
    }

    method SiblingOrder(a: nat, b: nat) returns (r: int)
      requires doc.Valid() && doc.Has(a) && doc.Has(b) && a != b && doc.parent[a].Some? &&
               doc.parent[a] == doc.parent[b]
      ensures Root(doc, a) == Root(doc, b) && r == Sign(Place(doc, a) - Place(doc, b))
    {
      var p := doc.parent[a].value;
      assert doc.LinkedUp(a) && doc.LinkedUp(b);
      r := SiblingCheck(doc, Some(a), Some(b));
      if r == -1 {
        SiblingsDecide(doc, a, b, a, b);
      } else {
        assert doc.kids[p][doc.Slot(a)] == a && doc.kids[p][doc.Slot(b)] == b;
        SiblingsDecide(doc, b, a, b, a);
      }
    }

    /** The first discrepancy of the two lists of ancestors decides. */
    method OrderByPaths(a: nat, b: nat) returns (r: int)
      requires doc.Valid() && doc.Has(a) && doc.Has(b) && a != b
      ensures Root(doc, a) == Root(doc, b) ==> r == Sign(Place(doc, a) - Place(doc, b))
      ensures Root(doc, a) != Root(doc, b) ==>
                r == if Root(doc, a) == preferred then -1 else if Root(doc, b) == preferred then 1 else 0
    {
      var ap := Ancestors(doc, a);
      var bp := Ancestors(doc, b);
      var i := 0;
      while At(ap, i) == At(bp, i)
        invariant i <= |ap| && i <= |bp| && (i > 0 ==> ap[i - 1] == bp[i - 1] && ap[0] == bp[0])
        decreases |ap| - i
      {
        i := i + 1;
      }
      if i > 0 {
        PathsDecide(doc, ap, bp, a, b, i);
        PathFacts(doc, ap, a, i - 1);
        PathFacts(doc, bp, b, i - 1);
        r := SiblingCheck(doc, At(ap, i), At(bp, i));
      } else {
        r := if ap[0] == preferred then -1 else if bp[0] == preferred then 1 else 0;
      }
    }

    /** Where `x` goes: behind every element that is not greater. */
    method FindSlot(ghost root: nat, sorted: seq<nat>, x: nat) returns (i: nat)
      requires OfTree(doc, root, sorted) && InTree(doc, root, x) && Ascending(doc, document, sorted)
      modifies this`hasDuplicate
      ensures i <= |sorted| && (old(hasDuplicate) ==> hasDuplicate)
      ensures forall j: nat | i <= j < |sorted| :: Key(doc, document, x) < Key(doc, document, sorted[j])
      ensures i > 0 ==> Key(doc, document, sorted[i - 1]) <= Key(doc, document, x)
      ensures i > 0 ==> hasDuplicate || sorted[i - 1] != x
    {
      i := |sorted|;
      while i > 0
        invariant 0 <= i <= |sorted| && (old(hasDuplicate) ==> hasDuplicate)
        invariant forall j: nat | i <= j < |sorted| :: Key(doc, document, x) < Key(doc, document, sorted[j])
      {
        var c := SortOrder(sorted[i - 1], x);
        if c <= 0 {
          return;
        }
        i := i - 1;
      }
    }

    /** The host's sort, here by insertion: any comparison sort will do. */
    method Sort(ghost root: nat, results: seq<nat>) returns (sorted: seq<nat>)
      requires OfTree(doc, root, results)
      modifies this`hasDuplicate
      ensures OfTree(doc, root, sorted) && Ascending(doc, document, sorted)
      ensures forall x :: x in sorted <==> x in results
      ensures hasDuplicate || NoRepeat(sorted)
    {
      sorted := [];
      for k := 0 to |results|
        invariant OfTree(doc, root, sorted) && Ascending(doc, document, sorted)
        invariant forall x :: x in sorted <==> x in results[..k]
        invariant hasDuplicate || NoRepeat(sorted)
      {
        var i := FindSlot(root, sorted, results[k]);
        Inserted(doc, root, sorted, results[k], i);
        InsertedAscending(doc, document, sorted, results[k], i);
        sorted := sorted[..i] + [results[k]] + sorted[i..];
        assert results[..k + 1] == results[..k] + [results[k]];
      }
      assert results[..|results|] == results;
    }

    /** `uniqueSort`, on nodes of one tree: sorts, then removes every element equal to the one before it.
        The result is in tree order exactly if all elements are comparable. */
    method UniqueSort(ghost root: nat, input: seq<nat>, detectDuplicates: bool) returns (results: seq<nat>)
      requires OfTree(doc, root, input)
      modifies this`hasDuplicate
      ensures forall x :: x in results <==> x in input
      ensures StrictlyByKey(doc, document, results)
      ensures InTreeOrder(doc, results) <==> forall x, y | x in input && y in input :: Comparable(doc, document, x, y)
    {
      hasDuplicate := !detectDuplicates;
      results := Sort(root, input);
      DedupedFacts(doc, document, root, results, 0);
      DedupedMembers(results, 0);
      if hasDuplicate {
        results := RemoveDuplicates(results);
      } else {
        NoneBetween(results, 0, |results|);
        assert results[0..|results|] + [] == results;
      }
      OrderedWhenComparable(doc, document, root, results);
    }
  }

  ghost predicate NoRepeat(s: seq<nat>) {
    forall i: nat | i + 1 < |s| :: s[i] != s[i + 1]
  }

  ghost function Keys(doc: Doc, document: nat, s: seq<nat>): (ks: seq<nat>)
    requires doc.Valid() && forall i: nat | i < |s| :: doc.Has(s[i])
    ensures |ks| == |s| && forall i: nat | i < |s| :: ks[i] == Key(doc, document, s[i])
  {
    seq(|s|, i requires 0 <= i < |s| => Key(doc, document, s[i]))
  }

  ghost predicate Sorted(ks: seq<nat>) {
    forall i: nat, j: nat | i < j < |ks| :: ks[i] <= ks[j]
  }

  lemma SortedInsert(ks: seq<nat>, k: nat, i: nat)
    requires Sorted(ks) && i <= |ks| && (i > 0 ==> ks[i - 1] <= k) && (i < |ks| ==> k <= ks[i])
    ensures Sorted(ks[..i] + [k] + ks[i..])
  {
  }

  lemma InsertedAscending(doc: Doc, document: nat, s: seq<nat>, x: nat, i: nat)
    requires doc.Valid() && doc.Has(x) && (forall j: nat | j < |s| :: doc.Has(s[j])) && i <= |s|
    requires Ascending(doc, document, s)
    requires i < |s| ==> Key(doc, document, x) <= Key(doc, document, s[i])
    requires i > 0 ==> Key(doc, document, s[i - 1]) <= Key(doc, document, x)
    ensures var t := s[..i] + [x] + s[i..]; (forall j: nat | j < |t| :: doc.Has(t[j])) && Ascending(doc, document, t)
  {
    var t, ks, k := s[..i] + [x] + s[i..], Keys(doc, document, s), Key(doc, document, x);
    assert forall j: nat | j < |t| :: t[j] == if j < i then s[j] else if j == i then x else s[j - 1];
    SortedInsert(ks, k, i);
    KeysInserted(doc, document, s, x, i);
  }

  lemma KeysInserted(doc: Doc, document: nat, s: seq<nat>, x: nat, i: nat)
    requires doc.Valid() && doc.Has(x) && (forall j: nat | j < |s| :: doc.Has(s[j])) && i <= |s|
    requires forall j: nat | j < |s[..i] + [x] + s[i..]| :: doc.Has((s[..i] + [x] + s[i..])[j])
    ensures var ks := Keys(doc, document, s);
            Keys(doc, document, s[..i] + [x] + s[i..]) == ks[..i] + [Key(doc, document, x)] + ks[i..]
  {
    var t, ks, k := s[..i] + [x] + s[i..], Keys(doc, document, s), Key(doc, document, x);
    var us := ks[..i] + [k] + ks[i..];
    forall j: nat | j < |t| ensures Keys(doc, document, t)[j] == us[j] {
      assert t[j] == if j < i then s[j] else if j == i then x else s[j - 1];
      assert us[j] == if j < i then ks[j] else if j == i then k else ks[j - 1];
    }
  }

  lemma Inserted(doc: Doc, root: nat, s: seq<nat>, x: nat, i: nat)
    requires OfTree(doc, root, s) && InTree(doc, root, x) && i <= |s|
    ensures var t := s[..i] + [x] + s[i..];
            && OfTree(doc, root, t)
            && (forall y :: y in t <==> y in s || y == x)
            && (NoRepeat(s) && (i > 0 ==> s[i - 1] != x) && (i < |s| ==> s[i] != x) ==> NoRepeat(t))
  {
    var t := s[..i] + [x] + s[i..];
    assert s == s[..i] + s[i..];
    if NoRepeat(s) && (i > 0 ==> s[i - 1] != x) {
      forall j: nat | j + 1 < |t| && j > i ensures t[j] != t[j + 1] {
        assert s[j - 1] != s[j - 1 + 1];
      }
    }
  }

  /** The indexes of entries that repeat the one in front, in order. */
  ghost predicate AreRepeats(s: seq<nat>, duplicates: seq<nat>, n: nat) {
    && (forall k: nat | k < |duplicates| ::
        0 < duplicates[k] < |s| && duplicates[k] < n && s[duplicates[k]] == s[duplicates[k] - 1])
    && (forall k: nat, l: nat | k < l < |duplicates| :: duplicates[k] < duplicates[l])
    && (forall m: nat | 0 < m < n && m < |s| && s[m] == s[m - 1] :: m in duplicates)
  }

  method FindDuplicates(sorted: seq<nat>) returns (duplicates: seq<nat>)
    ensures AreRepeats(sorted, duplicates, |sorted|)
  {
    duplicates := [];
    var i := 0;
    while i < |sorted|
      invariant i <= |sorted| && AreRepeats(sorted, duplicates, i + 1)
    {
      i := i + 1;
      if i < |sorted| && sorted[i - 1] == sorted[i] {
        duplicates := duplicates + [i];
      }
    }
  }

  /** `results.splice( d, 1 )` on what is left of the list when everything from `m` on is done. */
  lemma Spliced(s: seq<nat>, d: nat, m: nat)
    requires 0 < d < m <= |s| && s[d] == s[d - 1] && forall i: nat | d < i < m :: s[i] != s[i - 1]
    ensures var r := s[..m] + Deduped(s, m); r[..d] + r[d + 1..] == s[..d] + Deduped(s, d)
  {
    NoneBetween(s, d + 1, m);
    var r := s[..m] + Deduped(s, m);
    assert r[..d] == s[..d] && r[d + 1..] == s[d + 1..m] + Deduped(s, m);
  }

  /** The two loops behind the sort: the indexes of the repeats, then their removal from the last on. */
  method RemoveDuplicates(sorted: seq<nat>) returns (results: seq<nat>)
    ensures results == Deduped(sorted, 0)
  {
    var duplicates := FindDuplicates(sorted);
    var j := |duplicates|;
    results := sorted;
    ghost var m := |sorted|;
    assert results == sorted[..m] + Deduped(sorted, m);
    while j > 0
      invariant 0 <= j <= |duplicates| && m == if j < |duplicates| then duplicates[j] else |sorted|
      invariant results == sorted[..m] + Deduped(sorted, m)
    {
      j := j - 1;
      NotInBetween(duplicates, j);
      Spliced(sorted, duplicates[j], m);
      results := results[..duplicates[j]] + results[duplicates[j] + 1..];
      m := duplicates[j];
    }
    NoneBetween(sorted, 0, m);
    assert sorted[..m] == sorted[0..m];
  }

  lemma NotInBetween(duplicates: seq<nat>, j: nat)
    requires j < |duplicates| && forall k: nat, l: nat | k < l < |duplicates| :: duplicates[k] < duplicates[l]
    ensures forall i: nat | duplicates[j] < i && (j + 1 < |duplicates| ==> i < duplicates[j + 1]) :: i !in duplicates
  {
    forall i: nat | duplicates[j] < i && (j + 1 < |duplicates| ==> i < duplicates[j + 1]) ensures i !in duplicates {
      assert forall k: nat | k < |duplicates| && k < j :: duplicates[k] < duplicates[j];
      assert forall k: nat | j + 1 < k < |duplicates| :: duplicates[j + 1] < duplicates[k];
    }
  }

  /** Only repeats are gone. */
  lemma {:induction false} DedupedMembers(s: seq<nat>, m: nat)
    requires m <= |s|
    ensures forall x | x in Deduped(s, m) :: x in s
    ensures forall i: nat | m <= i < |s| :: s[i] in Deduped(s, m) || (m > 0 && s[i] == s[m - 1])
    decreases |s| - m
  {
    if m < |s| {
      DedupedMembers(s, m + 1);
    }
  }

  /** Of an ascending list, what is left from `m` on is strictly ascending. */
  lemma {:induction false} DedupedFacts(doc: Doc, document: nat, root: nat, s: seq<nat>, m: nat)
    requires OfTree(doc, root, s) && Ascending(doc, document, s) && m <= |s|
    ensures OfTree(doc, root, Deduped(s, m)) && StrictlyByKey(doc, document, Deduped(s, m))
    ensures m > 0 ==> forall i: nat | i < |Deduped(s, m)| ::
            Key(doc, document, s[m - 1]) < Key(doc, document, Deduped(s, m)[i])
    decreases |s| - m
  {
    if m < |s| {
      DedupedFacts(doc, document, root, s, m + 1);
      assert Keys(doc, document, s)[m] == Key(doc, document, s[m]);
      if m > 0 {
        assert Keys(doc, document, s)[m - 1] == Key(doc, document, s[m - 1]);
        KeyIsPlace(doc, document, s[m], s[m - 1]);
      }
    }
  }

  lemma OrderedWhenComparable(doc: Doc, document: nat, root: nat, s: seq<nat>)
    requires OfTree(doc, root, s) && StrictlyByKey(doc, document, s)
    ensures InTreeOrder(doc, s) <==> forall x, y | x in s && y in s :: Comparable(doc, document, x, y)
  {
    forall i: nat, j: nat | i < j < |s|
      ensures Place(doc, s[i]) < Place(doc, s[j]) <==> Comparable(doc, document, s[i], s[j])
      ensures Comparable(doc, document, s[i], s[j]) <==> Comparable(doc, document, s[j], s[i])
    {
      KeyIsPlace(doc, document, s[i], s[j]);
    }
    if forall x, y | x in s && y in s :: Comparable(doc, document, x, y) {
      forall i: nat, j: nat | i < j < |s| ensures Place(doc, s[i]) < Place(doc, s[j]) {
        assert s[i] in s && s[j] in s;
      }
    }
    if InTreeOrder(doc, s) {
      forall x, y | x in s && y in s ensures Comparable(doc, document, x, y) {
        var i: nat :| i < |s| && s[i] == x;
        var j: nat :| j < |s| && s[j] == y;
      }
    }
  }

  /** Every node of the list is in the tree. */
  ghost predicate OfTree(doc: Doc, root: nat, s: seq<nat>) {
    doc.Valid() && forall i: nat | i < |s| :: InTree(doc, root, s[i])
  }

  ghost predicate InTree(doc: Doc, root: nat, n: nat)
    requires doc.Valid()
  {
    doc.Has(n) && Root(doc, n) == root
  }

  ghost predicate Ascending(doc: Doc, document: nat, s: seq<nat>)
    requires doc.Valid() && forall i: nat | i < |s| :: doc.Has(s[i])
  {
    Sorted(Keys(doc, document, s))
  }

  ghost predicate StrictlyByKey(doc: Doc, document: nat, s: seq<nat>) {
    && doc.Valid() && (forall i: nat | i < |s| :: doc.Has(s[i]))
    && forall i: nat, j: nat | i < j < |s| :: Key(doc, document, s[i]) < Key(doc, document, s[j])
  }

  /** Strictly increasing in tree order. */
  ghost predicate InTreeOrder(doc: Doc, s: seq<nat>) {
    && doc.Valid() && (forall i: nat | i < |s| :: doc.Has(s[i]))
    && forall i: nat, j: nat | i < j < |s| :: Place(doc, s[i]) < Place(doc, s[j])
  }

  /** The entries from `m` on that differ from the entry in front of them. */
  ghost function Deduped(s: seq<nat>, m: nat): seq<nat>
    requires m <= |s|
    decreases |s| - m
  {
    if m == |s| then []
    else if m > 0 && s[m] == s[m - 1] then Deduped(s, m + 1)
    else [s[m]] + Deduped(s, m + 1)
  }

  lemma {:induction false} NoneBetween(s: seq<nat>, from: nat, m: nat)
    requires from <= m <= |s| && forall i: nat | from <= i < m && i > 0 :: s[i] != s[i - 1]
    ensures Deduped(s, from) == s[from..m] + Deduped(s, m)
    decreases m - from
  {
    if from < m {
      NoneBetween(s, from + 1, m);
    }
  }

  // ----- a detached tree

  /** A document, and a detached element with one child. */
  const DETACHED := Doc([None, None, Some(1)], [[], [2], []], [false, true, true])

  lemma DetachedIsValid()
    ensures DETACHED.Valid() && DETACHED.Has(1) && DETACHED.Has(2) && Root(DETACHED, 1) == Root(DETACHED, 2) == 1
    ensures Place(DETACHED, 1) == 0 && Place(DETACHED, 2) == 1
  {
    assert DETACHED.kids[1][0] == 2;
    assert DETACHED.LinkedUp(2) && DETACHED.LinkedDown(1, 0);
    assert Forest(DETACHED, 1, 0) == [];
  }

  /** Sorting the root and its child, in tree order already, puts the child first. */
  method DetachedRootIsLast() returns (r: int, sorted: seq<nat>)
    ensures r == 1 && sorted == [2, 1]
  {
    DetachedIsValid();
    KeyIsPlace(DETACHED, 0, 1, 2);
    var sorter := new Sorter(DETACHED, 0, 0);
    r := sorter.SortOrder(1, 2);
    sorted := sorter.UniqueSort(1, [1, 2], true);
    TwoByKey(sorted);
  }

  lemma TwoByKey(s: seq<nat>)
    requires StrictlyByKey(DETACHED, 0, s) && forall x :: x in s <==> x in [1, 2]
    ensures s == [2, 1]
  {
    DetachedIsValid();
    KeyIsPlace(DETACHED, 0, 1, 2);
    assert 1 in s && 2 in s;
    forall i: nat | i < |s| ensures s[i] == 1 || s[i] == 2 {
      assert s[i] in s;
    }
    assert |s| > 1 && s[0] == 2 && s[1] == 1;
    var last := s[|s| - 1];
    assert last == s[1] && Key(DETACHED, 0, last) == Key(DETACHED, 0, s[1]);
  }
}
