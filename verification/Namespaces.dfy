/** The pattern by which `jQuery.event.remove` finds handlers by namespace. */
module Namespaces {
  predicate Dotless(s: string) {
    forall i: nat | i < |s| :: s[i] != '.'
  }

  ghost predicate Names(ns: seq<string>) {
    ns != [] && forall i: nat | i < |ns| :: Dotless(ns[i])
  }

  /** `join( "." )`. */
  function Join(ns: seq<string>): string
    requires ns != []
  {
    if |ns| == 1 then ns[0] else ns[0] + "." + Join(ns[1..])
  }

  /** Place `m` of `s` is the first, or behind a dot. */
  predicate Begins(s: string, m: nat) {
    m == 0 || (m <= |s| && s[m - 1] == '.')
  }

  /** The name `n` stands at the beginning of `s` and ends there, or at a dot. */
  predicate Leads(s: string, n: string) {
    n <= s && (|s| > |n| ==> s[|n|] == '.')
  }

  /** `s` from its beginning on matches the pattern for `names`, without what stands before the first: the
      first name, then, where there are more, a dot, nothing or anything that ends in a dot, and the others. */
  ghost predicate Follows(s: string, names: seq<string>)
    requires names != []
    decreases |names|
  {
    && Leads(s, names[0])
    && (|names| > 1 ==> |s| > |names[0]| && var t := s[|names[0]| + 1..];
                        exists m: nat :: m <= |t| && Begins(t, m) && Follows(t[m..], names[1..]))
  }

  /** `test`: the pattern matches from some place that is the first, or behind a dot. */
  ghost predicate Test(s: string, names: seq<string>)
    requires names != []
  {
    exists m: nat :: m <= |s| && Begins(s, m) && Follows(s[m..], names)
  }

  /** The names of `a`, in this order, among those of `b`. */
  ghost predicate Embeds(a: seq<string>, b: seq<string>)
    decreases |a|
  {
    a != [] ==> exists k: nat :: k < |b| && b[k] == a[0] && Embeds(a[1..], b[k + 1..])
  }

  // ----- places of names

  lemma {:induction false} JoinFrom(ns: seq<string>, k: nat) returns (m: nat)
    requires Names(ns) && k < |ns|
    ensures m <= |Join(ns)| && Begins(Join(ns), m) && Join(ns)[m..] == Join(ns[k..])
    decreases k
  {
    if k == 0 {
      m := 0;
    } else {
      var h, t := |ns[0]| + 1, ns[1..];
      m := JoinFrom(t, k - 1);
      assert Join(ns)[h..] == Join(t) && t[k - 1..] == ns[k..];
      assert Join(ns)[h + m..] == Join(t)[m..];
      assert Begins(Join(ns), h + m) by {
        assert m > 0 ==> Join(ns)[h + m - 1] == Join(t)[m - 1];
      }
      m := h + m;
    }
  }

  lemma {:induction false} FromJoin(ns: seq<string>, m: nat) returns (k: nat)
    requires Names(ns) && m <= |Join(ns)| && Begins(Join(ns), m)
    ensures k < |ns| && Join(ns)[m..] == Join(ns[k..])
    decreases |ns|
  {
    if m == 0 {
      k := 0;
    } else {
      var h := |ns[0]| + 1;
      var t := ns[1..];
      assert |ns| > 1 && Join(ns)[h..] == Join(t);
      assert m > h ==> Join(ns)[m - 1] == Join(t)[m - 1 - h];
      k := FromJoin(t, m - h);
      assert Join(ns)[m..] == Join(t)[m - h..] && t[k..] == ns[k + 1..];
      k := k + 1;
    }
  }

  lemma LeadsIsFirst(ns: seq<string>, n: string)
    requires Names(ns) && Dotless(n)
    ensures Leads(Join(ns), n) <==> n == ns[0]
    ensures |Join(ns)| > |ns[0]| <==> |ns| > 1
    ensures |ns| > 1 ==> Join(ns)[|ns[0]| + 1..] == Join(ns[1..])
  {
    var s := Join(ns);
    assert ns[0] <= s && (|ns| > 1 ==> s[|ns[0]|] == '.');
    assert forall i: nat | i < |ns[0]| :: s[i] == ns[0][i];
  }

  /** On joined names, the pattern finds exactly the names in their order. */
  lemma {:induction false} TestIsEmbedding(names: seq<string>, ns: seq<string>)
    requires Names(names) && Names(ns)
    ensures Test(Join(ns), names) <==> Embeds(names, ns)
    decreases |names|
  {
    var s := Join(ns);
    if Test(s, names) {
      var m: nat :| m <= |s| && Begins(s, m) && Follows(s[m..], names);
      var k := FromJoin(ns, m);
      FollowsIsEmbedding(names, ns, k);
    }
    if Embeds(names, ns) {
      var k: nat :| k < |ns| && ns[k] == names[0] && Embeds(names[1..], ns[k + 1..]);
      var m := JoinFrom(ns, k);
      FollowsIsEmbedding(names, ns, k);
    }
  }

  lemma {:induction false} FollowsIsEmbedding(names: seq<string>, ns: seq<string>, k: nat)
    requires Names(names) && Names(ns) && k < |ns|
    ensures Follows(Join(ns[k..]), names) <==> ns[k] == names[0] && Embeds(names[1..], ns[k + 1..])
    decreases |names|, 0
  {
    var rest := ns[k..];
    LeadsIsFirst(rest, names[0]);
    assert rest[1..] == ns[k + 1..];
    if |names| > 1 && |rest| > 1 {
      TestIsEmbedding(names[1..], rest[1..]);
    }
  }

  // ----- sorted names

  /** The order of `sort()`. */
  predicate AtMost(a: string, b: string) {
    a == "" || (b != "" && (a[0] < b[0] || (a[0] == b[0] && AtMost(a[1..], b[1..]))))
  }

  lemma {:induction false} AtMostBoth(a: string, b: string)
    requires AtMost(a, b) && AtMost(b, a)
    ensures a == b
  {
    if a != "" {
      AtMostBoth(a[1..], b[1..]);
      assert a == [a[0]] + a[1..] && b == [b[0]] + b[1..];
    }
  }

  ghost predicate Sorted(ns: seq<string>) {
    forall i: nat, j: nat | i < j < |ns| :: AtMost(ns[i], ns[j])
  }

  lemma {:induction false} EmbeddedIsIncluded(a: seq<string>, b: seq<string>)
    requires Embeds(a, b)
    ensures multiset(a) <= multiset(b)
    decreases |a|
  {
    if a != [] {
      var k: nat :| k < |b| && b[k] == a[0] && Embeds(a[1..], b[k + 1..]);
      var a1, b0, b1 := a[1..], b[..k], b[k + 1..];
      EmbeddedIsIncluded(a1, b1);
      assert a == [a[0]] + a1 && b == b0 + ([a[0]] + b1);
      assert multiset(a) == multiset{a[0]} + multiset(a1) &&
             multiset(b) == multiset(b0) + (multiset{a[0]} + multiset(b1));
    }
  }

  lemma {:induction false} IncludedIsEmbedded(a: seq<string>, b: seq<string>)
    requires Sorted(a) && Sorted(b) && multiset(a) <= multiset(b)
    ensures Embeds(a, b)
    decreases |a| + |b|
  {
    if a != [] {
      assert a[0] in multiset(a) && a[0] in b;
      if b[0] == a[0] {
        FirstIsUsed(a, b);
        IncludedIsEmbedded(a[1..], b[1..]);
      } else {
        FirstIsNotNeeded(a, b);
        IncludedIsEmbedded(a, b[1..]);
        var k: nat :| k < |b[1..]| && b[1..][k] == a[0] && Embeds(a[1..], b[1..][k + 1..]);
        assert b[k + 1] == a[0] && b[k + 1 + 1..] == b[1..][k + 1..];
      }
    }
  }

  lemma FirstIsUsed(a: seq<string>, b: seq<string>)
    requires multiset(a) <= multiset(b) && a != [] && b != [] && a[0] == b[0]
    ensures multiset(a[1..]) <= multiset(b[1..])
  {
    var a1, b1 := a[1..], b[1..];
    assert a == [a[0]] + a1 && b == [a[0]] + b1;
    forall x ensures multiset(a1)[x] <= multiset(b1)[x] {
      assert multiset(a)[x] <= multiset(b)[x];
    }
  }

  lemma FirstIsNotNeeded(a: seq<string>, b: seq<string>)
    requires Sorted(a) && Sorted(b) && multiset(a) <= multiset(b) && a != [] && b != [] && a[0] != b[0]
    ensures multiset(a) <= multiset(b[1..])
  {
    assert b == [b[0]] + b[1..] && a[0] in multiset(a);
    var k: nat :| k < |b| && b[k] == a[0];
    if b[0] in a {
      var j: nat :| j < |a| && a[j] == b[0];
      AtMostBoth(a[0], b[0]);
      assert false;
    }
    assert multiset(a)[b[0]] == 0;
  }

  /** With the names sorted on both sides, as `add` and `remove` sort them, the pattern decides whether all
      names asked for are among the handler's. */
  lemma TestIsInclusion(names: seq<string>, ns: seq<string>)
    requires Names(names) && Names(ns) && Sorted(names) && Sorted(ns)
    ensures Test(Join(ns), names) <==> multiset(names) <= multiset(ns)
  {
    TestIsEmbedding(names, ns);
    if Embeds(names, ns) {
      EmbeddedIsIncluded(names, ns);
    }
    if multiset(names) <= multiset(ns) {
      IncludedIsEmbedded(names, ns);
    }
  }
}
