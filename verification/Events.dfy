/** The handler list that jQuery keeps for one element and one event type, and the handlers that an event
    on the element or below it runs. */
module Events {
  import opened Options
  import opened Dom
  import opened Namespaces

  /** An empty selector stands for none: the handler is bound directly. */
  datatype HandleObj = HandleObj(id: nat, origType: string, guid: nat, selector: string, namespace: string)

  /** What `remove` asks for: any type when it was called for all types, any handler without a guid, any
      namespace without a pattern. */
  datatype Removal = Removal(mapped: bool, origType: string, guid: Option<nat>, pattern: Option<string -> bool>,
                             selector: string)

  predicate IsDelegated(h: HandleObj) {
    h.selector != ""
  }

  predicate IsDirect(h: HandleObj) {
    h.selector == ""
  }

  predicate Hit(q: Removal, h: HandleObj) {
    && (q.mapped || q.origType == h.origType)
    && (q.guid.None? || q.guid.value == h.guid)
    && (q.pattern.None? || q.pattern.value(h.namespace))
    && (q.selector == "" || q.selector == h.selector || (q.selector == "**" && h.selector != ""))
  }

  function Kept(s: seq<HandleObj>, keep: HandleObj -> bool): seq<HandleObj> {
    if s == [] then [] else (if keep(s[0]) then [s[0]] else []) + Kept(s[1..], keep)
  }

  function Without(s: seq<HandleObj>, q: Removal): seq<HandleObj> {
    Kept(s, h => !Hit(q, h))
  }

  function Delegates(s: seq<HandleObj>): seq<HandleObj> {
    Kept(s, IsDelegated)
  }

  function Directs(s: seq<HandleObj>): seq<HandleObj> {
    Kept(s, IsDirect)
  }

  lemma {:induction false} KeptSplit(a: seq<HandleObj>, b: seq<HandleObj>, keep: HandleObj -> bool)
    ensures Kept(a + b, keep) == Kept(a, keep) + Kept(b, keep)
  {
    if a == [] {
      assert a + b == b;
    } else {
      KeptSplit(a[1..], b, keep);
      assert (a + b)[0] == a[0] && (a + b)[1..] == a[1..] + b;
      Grouped(if keep(a[0]) then [a[0]] else [], Kept(a[1..], keep), Kept(b, keep));
    }
  }

  lemma Grouped<T>(a: seq<T>, b: seq<T>, c: seq<T>)
    ensures a + (b + c) == a + b + c
  {
  }

  lemma {:induction false} KeptMembers(s: seq<HandleObj>, keep: HandleObj -> bool)
    ensures forall h :: h in Kept(s, keep) <==> h in s && keep(h)
  {
    if s != [] {
      KeptMembers(s[1..], keep);
    }
  }

  lemma KeptOne(h: HandleObj, keep: HandleObj -> bool)
    ensures Kept([h], keep) == if keep(h) then [h] else []
  {
  }

  lemma {:induction false} KeptCommute(s: seq<HandleObj>, f: HandleObj -> bool, g: HandleObj -> bool)
    ensures Kept(Kept(s, f), g) == Kept(Kept(s, g), f)
  {
    if s != [] {
      KeptCommute(s[1..], f, g);
      KeptFirst(s, f, g);
      KeptFirst(s, g, f);
    }
  }

  lemma KeptFirst(s: seq<HandleObj>, f: HandleObj -> bool, g: HandleObj -> bool)
    requires s != []
    ensures Kept(Kept(s, f), g) == (if f(s[0]) && g(s[0]) then [s[0]] else []) + Kept(Kept(s[1..], f), g)
  {
    KeptSplit(if f(s[0]) then [s[0]] else [], Kept(s[1..], f), g);
    KeptOne(s[0], g);
  }

  lemma {:induction false} KeptAll(s: seq<HandleObj>, keep: HandleObj -> bool)
    requires forall h | h in s :: keep(h)
    ensures Kept(s, keep) == s
  {
    if s != [] {
      KeptAll(s[1..], keep);
    }
  }

  lemma {:induction false} KeptNone(s: seq<HandleObj>, keep: HandleObj -> bool)
    requires forall h | h in s :: !keep(h)
    ensures Kept(s, keep) == []
  {
    if s != [] {
      KeptNone(s[1..], keep);
    }
  }

  class Handlers {
    var list: seq<HandleObj>
    var delegateCount: nat
    /** The handlers in the order in which they were added. */
    ghost var log: seq<HandleObj>

    ghost predicate Valid()
      reads this
    {
      list == Delegates(log) + Directs(log) && delegateCount == |Delegates(log)|
    }

    constructor ()
      ensures Valid() && log == []
    {
      list, delegateCount, log := [], 0, [];
    }

    method Add(h: HandleObj)
      requires Valid()
      modifies this
      ensures Valid() && log == old(log) + [h]
    {
      OneMore(log, h);
      if h.selector != "" {
        list, delegateCount := list[..delegateCount] + [h] + list[delegateCount..], delegateCount + 1;
      } else {
        list := list + [h];
      }
      log := log + [h];
    }

    method Remove(q: Removal)
      requires Valid()
      modifies this
      ensures Valid() && log == Without(old(log), q)
    {
      ghost var all := list;
      ghost var keep := (h: HandleObj) => !Hit(q, h);
      Untouched(log, keep);
      var j := |list|;
      while j > 0
        invariant 0 <= j <= |all| && list == Thinned(all, j, keep) && delegateCount == |Delegates(list)|
        invariant log == old(log)
      {
        j := j - 1;
        ThinnedStep(all, j, keep);
        if Hit(q, list[j]) {
          if list[j].selector != "" {
            delegateCount := delegateCount - 1;
          }
          list := list[..j] + list[j + 1..];
        }
      }
      log := Without(log, q);
      PartsKept(old(log), all, keep);
      assert Thinned(all, 0, keep) == Kept(all, keep) by {
        assert all[0..] == all;
      }
    }

    /** `handlers`: the handlers to run at each element, for an event with the given target. No delegated
        handler runs for an event that is not `delegable`: a click with another button, or a target that is
        no node. */
    method HandlerQueue(d: Dispatch, target: nat, delegable: bool) returns (queue: seq<Entry>)
      requires Valid() && d.doc.Valid() && d.doc.Has(target)
      ensures queue == QueueOf(d, target, delegable, log)
      ensures OwnerLast(d, target, queue, Delegates(log), Directs(log))
    {
      QueueOrder(d, target, delegable, log);
      queue := [];
      if delegateCount != 0 && delegable {
        queue := DelegatedQueue(d, target);
      } else if delegable {
        NoEntries(d, target);
      }
      if delegateCount < |list| {
        queue := queue + [Entry(d.owner, list[delegateCount..])];
      }
    }

    method DelegatedQueue(d: Dispatch, target: nat) returns (queue: seq<Entry>)
      requires Valid() && d.doc.Valid() && d.doc.Has(target)
      ensures queue == Entries(d, target, Delegates(log))
    {
      queue := [];
      var cur: nat := target;
      ghost var all := Entries(d, target, Delegates(log));
      while cur != d.owner
        invariant d.doc.Has(cur) || cur == d.owner
        invariant all == queue + Entries(d, cur, Delegates(log))
        decreases cur != d.owner, cur
      {
        var here := EntryFor(d, cur);
        Grouped(queue, here, Entries(d, d.Up(cur), Delegates(log)));
        queue := queue + here;
        cur := d.Up(cur);
      }
    }

    method EntryFor(d: Dispatch, cur: nat) returns (entry: seq<Entry>)
      requires Valid() && d.doc.Valid() && d.doc.Has(cur)
      ensures entry == EntryAt(d, cur, Delegates(log))
    {
      entry := [];
      if d.doc.element[cur] && !d.barred(cur) {
        var matched := Matched(cur, d.matches);
        if matched != [] {
          entry := [Entry(cur, matched)];
        }
      }
    }

    /** The delegated handlers whose selectors match; each selector is tried once. */
    method Matched(cur: nat, matches: (string, nat) -> bool) returns (matched: seq<HandleObj>)
      requires Valid()
      ensures matched == MatchedOf(Delegates(log), matches, cur)
    {
      matched := [];
      var known: map<string, bool> := map[];
      for i := 0 to delegateCount
        invariant matched == MatchedOf(list[..i], matches, cur)
        invariant forall s | s in known :: known[s] == matches(s, cur)
      {
        var h := list[i];
        if h.selector !in known {
          known := known[h.selector := matches(h.selector, cur)];
        }
        if known[h.selector] {
          matched := matched + [h];
        }
        assert list[..i + 1] == list[..i] + [h];
        MatchedOneMore(list[..i], h, matches, cur);
      }
      assert list[..delegateCount] == Delegates(log);
    }
  }

  lemma OneMore(log: seq<HandleObj>, h: HandleObj)
    ensures Delegates(log + [h]) == if IsDelegated(h) then Delegates(log) + [h] else Delegates(log)
    ensures Directs(log + [h]) == if IsDelegated(h) then Directs(log) else Directs(log) + [h]
  {
    KeptSplit(log, [h], IsDelegated);
    KeptSplit(log, [h], IsDirect);
    KeptOne(h, IsDelegated);
    KeptOne(h, IsDirect);
  }

  lemma DelegatesOf(a: seq<HandleObj>, b: seq<HandleObj>)
    requires (forall h | h in a :: IsDelegated(h)) && forall h | h in b :: !IsDelegated(h)
    ensures Delegates(a + b) == a
  {
    KeptSplit(a, b, IsDelegated);
    KeptAll(a, IsDelegated);
    KeptNone(b, IsDelegated);
  }

  /** The list when the loop of `remove` has come down to place `j`. */
  function Thinned(all: seq<HandleObj>, j: nat, keep: HandleObj -> bool): seq<HandleObj>
    requires j <= |all|
  {
    all[..j] + Kept(all[j..], keep)
  }

  lemma Untouched(log: seq<HandleObj>, keep: HandleObj -> bool)
    ensures var all := Delegates(log) + Directs(log);
            Thinned(all, |all|, keep) == all && Delegates(all) == Delegates(log)
  {
    KeptMembers(log, IsDelegated);
    KeptMembers(log, IsDirect);
    DelegatesOf(Delegates(log), Directs(log));
  }

  lemma ThinnedStep(all: seq<HandleObj>, j: nat, keep: HandleObj -> bool)
    requires j < |all|
    ensures var was, now := Thinned(all, j + 1, keep), Thinned(all, j, keep);
            && j < |was| && was[j] == all[j]
            && now == (if keep(all[j]) then was else was[..j] + was[j + 1..])
            && |Delegates(now)| == |Delegates(was)| - if IsDelegated(all[j]) && !keep(all[j]) then 1 else 0
  {
    var a, h, b := all[..j], all[j], Kept(all[j + 1..], keep);
    assert all[..j + 1] == a + [h] && all[j..][0] == h && all[j..][1..] == all[j + 1..];
    Grouped(a, [h], b);
    Middle(a, h, b);
    OneLess(a, h, b);
  }

  lemma Middle<T>(a: seq<T>, h: T, b: seq<T>)
    ensures var s := a + ([h] + b); s[|a|] == h && s[..|a|] == a && s[|a| + 1..] == b
  {
  }

  lemma OneLess(a: seq<HandleObj>, h: HandleObj, b: seq<HandleObj>)
    ensures |Delegates(a + b)| == |Delegates(a + ([h] + b))| - if IsDelegated(h) then 1 else 0
  {
    KeptSplit(a, [h] + b, IsDelegated);
    KeptSplit([h], b, IsDelegated);
    KeptOne(h, IsDelegated);
    KeptSplit(a, b, IsDelegated);
  }

  lemma PartsKept(log: seq<HandleObj>, all: seq<HandleObj>, keep: HandleObj -> bool)
    requires all == Delegates(log) + Directs(log)
    ensures Kept(all, keep) == Delegates(Kept(log, keep)) + Directs(Kept(log, keep))
    ensures Delegates(Kept(all, keep)) == Delegates(Kept(log, keep))
  {
    KeptSplit(Delegates(log), Directs(log), keep);
    KeptCommute(log, IsDelegated, keep);
    KeptCommute(log, IsDirect, keep);
    KeptMembers(Kept(log, keep), IsDelegated);
    KeptMembers(Kept(log, keep), IsDirect);
    DelegatesOf(Delegates(Kept(log, keep)), Directs(Kept(log, keep)));
  }

  // ----- the queue of an event

  datatype Entry = Entry(elem: nat, handlers: seq<HandleObj>)

  /** What an event meets: the document, the element that the list belongs to, which selectors match which
      elements seen from there, and which elements take no event of this kind. */
  datatype Dispatch = Dispatch(doc: Doc, owner: nat, matches: (string, nat) -> bool, barred: nat -> bool) {
    function Up(cur: nat): (r: nat)
      requires doc.Valid() && doc.Has(cur)
      ensures r == owner || (r < cur && doc.parent[cur] == Some(r) && doc.Has(r))
    {
      if doc.parent[cur].Some? then assert doc.LinkedUp(cur); doc.parent[cur].value else owner
    }
  }

  /** From `cur` up to the owner, or to the root where the owner is not above. */
  function Outward(d: Dispatch, cur: nat): (path: seq<nat>)
    requires d.doc.Valid() && (d.doc.Has(cur) || cur == d.owner)
    ensures forall i: nat | i < |path| :: d.doc.Has(path[i]) && path[i] != d.owner
    decreases if cur == d.owner then 0 else cur + 1
  {
    if cur == d.owner then [] else [cur] + Outward(d, d.Up(cur))
  }

  function MatchedOf(s: seq<HandleObj>, matches: (string, nat) -> bool, cur: nat): seq<HandleObj> {
    Kept(s, (h: HandleObj) => matches(h.selector, cur))
  }

  lemma MatchedOneMore(s: seq<HandleObj>, h: HandleObj, matches: (string, nat) -> bool, cur: nat)
    ensures MatchedOf(s + [h], matches, cur) ==
            MatchedOf(s, matches, cur) + if matches(h.selector, cur) then [h] else []
  {
    var keep := (h: HandleObj) => matches(h.selector, cur);
    KeptSplit(s, [h], keep);
    KeptOne(h, keep);
  }

  function EntryAt(d: Dispatch, cur: nat, s: seq<HandleObj>): seq<Entry>
    requires d.doc.Valid() && d.doc.Has(cur)
  {
    var here := MatchedOf(s, d.matches, cur);
    if d.doc.element[cur] && !d.barred(cur) && here != [] then [Entry(cur, here)] else []
  }

  /** The entries of delegated handlers from `cur` outwards. */
  function Entries(d: Dispatch, cur: nat, s: seq<HandleObj>): seq<Entry>
    requires d.doc.Valid() && (d.doc.Has(cur) || cur == d.owner)
    decreases if cur == d.owner then 0 else cur + 1
  {
    if cur == d.owner then [] else EntryAt(d, cur, s) + Entries(d, d.Up(cur), s)
  }

  function QueueOf(d: Dispatch, target: nat, delegable: bool, log: seq<HandleObj>): seq<Entry>
    requires d.doc.Valid() && d.doc.Has(target)
  {
    (if delegable then Entries(d, target, Delegates(log)) else []) +
    if Directs(log) == [] then [] else [Entry(d.owner, Directs(log))]
  }

  lemma {:induction false} NoEntries(d: Dispatch, cur: nat)
    requires d.doc.Valid() && (d.doc.Has(cur) || cur == d.owner)
    ensures Entries(d, cur, []) == []
    decreases if cur == d.owner then 0 else cur + 1
  {
    if cur != d.owner {
      NoEntries(d, d.Up(cur));
    }
  }

  // ----- what the queue promises

  ghost predicate Listed(queue: seq<Entry>, elem: nat, h: HandleObj) {
    exists i: nat :: i < |queue| && queue[i].elem == elem && h in queue[i].handlers
  }

  lemma {:induction false} EntriesList(d: Dispatch, cur: nat, s: seq<HandleObj>, elem: nat, h: HandleObj)
    requires d.doc.Valid() && (d.doc.Has(cur) || cur == d.owner)
    ensures Listed(Entries(d, cur, s), elem, h) <==>
            elem in Outward(d, cur) && h in s && d.doc.element[elem] && !d.barred(elem) && d.matches(h.selector, elem)
    decreases if cur == d.owner then 0 else cur + 1
  {
    if cur != d.owner {
      EntriesList(d, d.Up(cur), s, elem, h);
      EntryAtList(d, cur, s, elem, h);
      ListedBoth(EntryAt(d, cur, s), Entries(d, d.Up(cur), s), elem, h);
    }
  }

  lemma EntryAtList(d: Dispatch, cur: nat, s: seq<HandleObj>, elem: nat, h: HandleObj)
    requires d.doc.Valid() && d.doc.Has(cur)
    ensures Listed(EntryAt(d, cur, s), elem, h) <==>
            elem == cur && h in s && d.doc.element[elem] && !d.barred(elem) && d.matches(h.selector, elem)
  {
    KeptMembers(s, (h: HandleObj) => d.matches(h.selector, cur));
    var e := EntryAt(d, cur, s);
    if elem == cur && h in s && d.doc.element[elem] && !d.barred(elem) && d.matches(h.selector, elem) {
      assert e[0].elem == elem && h in e[0].handlers;
    }
  }

  lemma ListedBoth(a: seq<Entry>, b: seq<Entry>, elem: nat, h: HandleObj)
    ensures Listed(a + b, elem, h) <==> Listed(a, elem, h) || Listed(b, elem, h)
  {
    if Listed(a, elem, h) {
      var i: nat :| i < |a| && a[i].elem == elem && h in a[i].handlers;
      assert (a + b)[i] == a[i];
    }
    if Listed(b, elem, h) {
      var i: nat :| i < |b| && b[i].elem == elem && h in b[i].handlers;
      assert (a + b)[|a| + i] == b[i];
    }
  }

  /** `a` is `n` or above it. */
  ghost predicate OrAbove(doc: Doc, a: nat, n: nat)
    requires doc.Valid() && doc.Has(n)
  {
    a == n || doc.IsAncestor(a, n)
  }

  /** The element is the target or above it, and below the owner, if the owner is among these. */
  ghost predicate OnTheWay(d: Dispatch, target: nat, elem: nat)
    requires d.doc.Valid() && d.doc.Has(target)
  {
    && d.doc.Has(elem) && elem != d.owner && OrAbove(d.doc, elem, target)
    && (OrAbove(d.doc, d.owner, target) ==> d.doc.IsAncestor(d.owner, elem))
  }

  lemma {:induction false} AncestorIsLess(doc: Doc, a: nat, n: nat)
    requires doc.Valid() && doc.Has(n) && doc.IsAncestor(a, n)
    ensures a < n
    decreases n
  {
    assert doc.LinkedUp(n);
    if a != doc.parent[n].value {
      AncestorIsLess(doc, a, doc.parent[n].value);
    }
  }

  lemma {:induction false} OutwardIsTheWay(d: Dispatch, cur: nat, elem: nat)
    requires d.doc.Valid() && d.doc.Has(cur)
    ensures elem in Outward(d, cur) <==> OnTheWay(d, cur, elem)
    decreases cur
  {
    if d.doc.Has(elem) && d.doc.IsAncestor(d.owner, elem) {
      AncestorIsLess(d.doc, d.owner, elem);
    }
    if d.doc.IsAncestor(elem, cur) {
      AncestorIsLess(d.doc, elem, cur);
    }
    if cur != d.owner {
      StepOutward(d, cur, elem);
      if d.doc.parent[cur].Some? {
        var up := d.Up(cur);
        assert d.doc.IsAncestor(elem, cur) <==> OrAbove(d.doc, elem, up);
        assert d.doc.IsAncestor(d.owner, cur) <==> OrAbove(d.doc, d.owner, up);
        if up != d.owner {
          OutwardIsTheWay(d, up, elem);
        } else if d.doc.IsAncestor(elem, up) {
          AncestorIsLess(d.doc, elem, up);
        }
      }
    }
  }

  lemma {:induction false} StepOutward(d: Dispatch, cur: nat, elem: nat)
    requires d.doc.Valid() && d.doc.Has(cur) && cur != d.owner
    ensures elem in Outward(d, cur) <==> elem == cur || elem in Outward(d, d.Up(cur))
    ensures d.doc.parent[cur].None? ==> d.Up(cur) == d.owner
    ensures d.doc.parent[cur].Some? ==> d.doc.parent[cur] == Some(d.Up(cur)) && d.doc.Has(d.Up(cur))
  {
    assert d.doc.parent[cur].Some? ==> d.doc.LinkedUp(cur);
  }

  /** A handler runs at an element exactly if it is a delegated one, the event is delegable, the element lies
      between target and owner, takes the event and is matched; or it is a direct one, at the owner. */
  lemma RunsWhere(d: Dispatch, target: nat, delegable: bool, log: seq<HandleObj>, elem: nat, h: HandleObj)
    requires d.doc.Valid() && d.doc.Has(target) && h in log
    ensures Listed(QueueOf(d, target, delegable, log), elem, h) <==>
            if IsDelegated(h)
            then delegable && OnTheWay(d, target, elem) && d.doc.element[elem] && !d.barred(elem) &&
                d.matches(h.selector, elem)
            else elem == d.owner
  {
    var inner := if delegable then Entries(d, target, Delegates(log)) else [];
    var outer := if Directs(log) == [] then [] else [Entry(d.owner, Directs(log))];
    ListedBoth(inner, outer, elem, h);
    KeptMembers(log, IsDelegated);
    KeptMembers(log, IsDirect);
    OutwardIsTheWay(d, target, elem);
    if delegable {
      EntriesList(d, target, Delegates(log), elem, h);
    }
    if elem == d.owner && !IsDelegated(h) {
      assert outer[0].elem == elem && h in outer[0].handlers;
    }
  }

  /** Direct handlers, if there are any, come last, at the owner. Before them come, from the target outwards,
      delegated handlers at elements on the way. */
  ghost predicate OwnerLast(d: Dispatch, target: nat, queue: seq<Entry>, delegates: seq<HandleObj>,
                            directs: seq<HandleObj>)
    requires d.doc.Valid() && d.doc.Has(target)
  {
    var n := if directs == [] then |queue| else |queue| - 1;
    && 0 <= n && (directs != [] ==> queue[n] == Entry(d.owner, directs))
    && (forall i: nat | i < n :: OnTheWay(d, target, queue[i].elem))
    && (forall i: nat | i < n :: queue[i].handlers == MatchedOf(delegates, d.matches, queue[i].elem) != [])
    && (forall i: nat, j: nat | i < j < n :: d.doc.IsAncestor(queue[j].elem, queue[i].elem))
  }

  lemma QueueOrder(d: Dispatch, target: nat, delegable: bool, log: seq<HandleObj>)
    requires d.doc.Valid() && d.doc.Has(target)
    ensures OwnerLast(d, target, QueueOf(d, target, delegable, log), Delegates(log), Directs(log))
  {
    var q := QueueOf(d, target, delegable, log);
    if delegable {
      var inner := Entries(d, target, Delegates(log));
      InOrder(d, target, Delegates(log));
      assert forall i: nat | i < |inner| :: q[i] == inner[i];
      forall i: nat | i < |inner| ensures OnTheWay(d, target, inner[i].elem) {
        assert inner[i] in inner;
        OutwardIsTheWay(d, target, inner[i].elem);
      }
      forall i: nat, j: nat | i < j < |inner| ensures d.doc.IsAncestor(inner[j].elem, inner[i].elem) {
        InsideOut(d, target, Delegates(log), i, j);
      }
    }
  }

  /** Each entry is of an element between target and owner and holds its handlers in the order of registration. */
  lemma {:induction false} InOrder(d: Dispatch, cur: nat, s: seq<HandleObj>)
    requires d.doc.Valid() && (d.doc.Has(cur) || cur == d.owner)
    ensures forall e | e in Entries(d, cur, s) ::
            e.elem in Outward(d, cur) && e.handlers == MatchedOf(s, d.matches, e.elem) != []
    decreases if cur == d.owner then 0 else cur + 1
  {
    if cur != d.owner {
      InOrder(d, d.Up(cur), s);
    }
  }

  /** Entries come from the inside outwards. */
  lemma {:induction false} InsideOut(d: Dispatch, cur: nat, s: seq<HandleObj>, i: nat, j: nat)
    requires d.doc.Valid() && (d.doc.Has(cur) || cur == d.owner) && i < j < |Entries(d, cur, s)|
    ensures var q := Entries(d, cur, s); d.doc.Has(q[i].elem) && d.doc.IsAncestor(q[j].elem, q[i].elem)
    decreases if cur == d.owner then 0 else cur + 1
  {
    var here, up, rest := EntryAt(d, cur, s), d.Up(cur), Entries(d, d.Up(cur), s);
    var n := |here|;
    assert (here + rest)[j] == rest[j - n];
    if i < n {
      InOrder(d, up, s);
      assert here[i].elem == cur && rest[j - n] in rest;
      OutwardIsAbove(d, cur, rest[j - n].elem);
    } else {
      InsideOut(d, up, s, i - n, j - n);
      assert (here + rest)[i] == rest[i - n];
    }
  }

  lemma {:induction false} OutwardIsAbove(d: Dispatch, cur: nat, a: nat)
    requires d.doc.Valid() && d.doc.Has(cur) && cur != d.owner && a in Outward(d, d.Up(cur))
    ensures d.doc.IsAncestor(a, cur)
    decreases cur
  {
    var up := d.Up(cur);
    assert Outward(d, up) == [up] + Outward(d, d.Up(up));
    if a != up {
      OutwardIsAbove(d, up, a);
    }
  }

  // ----- what removal takes

  /** A removal that asks for nothing in particular. */
  const EVERYTHING := Removal(true, "", None, None, "")

  /** Each condition alone: the type, the handler, the namespace; and a selector, the double star standing for all. */
  lemma HitOne(h: HandleObj, type_: string, guid: nat, pattern: string -> bool, selector: string)
    requires selector != ""
    ensures Hit(EVERYTHING, h)
    ensures Hit(EVERYTHING.(mapped := false, origType := type_), h) <==> type_ == h.origType
    ensures Hit(EVERYTHING.(guid := Some(guid)), h) <==> guid == h.guid
    ensures Hit(EVERYTHING.(pattern := Some(pattern)), h) <==> pattern(h.namespace)
    ensures Hit(EVERYTHING.(selector := selector), h) <==>
            h.selector == selector || (selector == "**" && IsDelegated(h))
  {
  }

  /** Conditions add up: what several take together is what each alone would take. */
  lemma HitAll(q: Removal, h: HandleObj)
    ensures Hit(q, h) <==>
            && Hit(EVERYTHING.(mapped := q.mapped, origType := q.origType), h)
            && Hit(EVERYTHING.(guid := q.guid), h)
            && Hit(EVERYTHING.(pattern := q.pattern), h)
            && Hit(EVERYTHING.(selector := q.selector), h)
  {
  }

  /** The double star leaves the direct handlers, in their order. */
  lemma {:induction false} DoubleStar(log: seq<HandleObj>)
    ensures Without(log, EVERYTHING.(selector := "**")) == Directs(log)
  {
    if log != [] {
      DoubleStar(log[1..]);
    }
  }

  /** `off` with the type, handler and selector given to `on` undoes it exactly if nothing registered before agrees
      in type and handler, and in the selector as far as `off` looks at it: without one it looks at none. */
  lemma OffUndoesOn(log: seq<HandleObj>, h: HandleObj)
    ensures Without(log + [h], Removal(false, h.origType, Some(h.guid), None, h.selector)) == log <==>
            forall g | g in log :: g.origType == h.origType && g.guid == h.guid ==>
              h.selector != "" && g.selector != h.selector && (h.selector == "**" ==> IsDirect(g))
  {
    var q := Removal(false, h.origType, Some(h.guid), None, h.selector);
    var keep := (g: HandleObj) => !Hit(q, g);
    KeptSplit(log, [h], keep);
    KeptOne(h, keep);
    KeptMembers(log, keep);
    if forall g | g in log :: keep(g) {
      KeptAll(log, keep);
    }
  }

  /** With a pattern made of names, `remove` takes only handlers whose sorted namespaces hold all of them. */
  lemma HitByNamespace(q: Removal, h: HandleObj, names: seq<string>, ns: seq<string>)
    requires Names(names) && Names(ns) && Sorted(names) && Sorted(ns) && h.namespace == Join(ns)
    requires q.pattern.Some? && (q.pattern.value(h.namespace) <==> Test(h.namespace, names))
    ensures Hit(q, h) <==> Hit(q.(pattern := None), h) && multiset(names) <= multiset(ns)
  {
    TestIsInclusion(names, ns);
  }
}
