/** The lookup of the rule in force in timezoneJS: the date is sorted among the rules of one or two
    years by start times that belong to different clocks, and a place too early or too late is repaired. */
module TimezoneRules {
  import opened Options
  import opened Numbers

  /** The clock in which a rule gives its start: `u`, `g` or `z`; `s`; `w` or none. */
  datatype Clock = Utc | Standard | Wall

  datatype Until = Year(year: int) | Only | Max

  /** A rule; `save` is in minutes. */
  datatype Rule = Rule(from: int, until: Until, clock: Clock, save: real, name: nat)

  /** An entry of `applicableRules`. */
  datatype Item = TheDate | InYear(year: int, rule: Rule)

  /** What one lookup is about: the date and its year, whether it is given in UTC, the offset of the
      zone in minutes, and the start of a rule in a year as the rule writes it. Times are in milliseconds. */
  datatype Lookup = Lookup(date: real, year: int, isUTC: bool, basicOffset: real, start: (int, Rule) -> real)

  function GetAdjustedOffset(off: real, rule: Rule): int {
    -Ceil(rule.save - off)
  }

  /** What `convertDateToUTC` adds, with DST taken from `prev`. */
  function Shift(q: Lookup, clock: Clock, prev: Rule): real {
    (match clock
     case Utc => 0.0
     case Standard => q.basicOffset
     case Wall => GetAdjustedOffset(q.basicOffset, prev) as real) * 60000.0
  }

  function Raw(q: Lookup, x: Item): real {
    if x.TheDate? then q.date else q.start(x.year, x.rule)
  }

  function ClockOf(q: Lookup, x: Item): Clock {
    if x.TheDate? then (if q.isUTC then Utc else Wall) else x.rule.clock
  }

  function Converted(q: Lookup, x: Item, prev: Rule): real {
    Raw(q, x) + Shift(q, ClockOf(q, x), prev)
  }

  // ----- instants

  /** What a clock shows at instant `t`, in UTC, while a rule saves `save` minutes. */
  function Reading(q: Lookup, clock: Clock, save: real, t: real): real {
    match clock
    case Utc => t
    case Standard => t - q.basicOffset * 60000.0
    case Wall => t - q.basicOffset * 60000.0 + save * 60000.0
  }

  /** At instant `t`, while `prev` is in force, the clock of `x` shows the time written in `x`. */
  ghost predicate ShownAt(q: Lookup, x: Item, prev: Rule, t: real) {
    Reading(q, ClockOf(q, x), prev.save, t) == Raw(q, x)
  }

  ghost predicate WholeMinutes(q: Lookup, prev: Rule) {
    var m := prev.save - q.basicOffset; m.Floor as real == m
  }

  /** Conversion finds the instant that a clock shows; by the wall clock exactly if it goes by whole minutes. */
  lemma ConvertedIsInstant(q: Lookup, x: Item, prev: Rule)
    ensures ShownAt(q, x, prev, Converted(q, x, prev)) <==> (ClockOf(q, x).Wall? ==> WholeMinutes(q, prev))
    ensures forall s, t | ShownAt(q, x, prev, s) && ShownAt(q, x, prev, t) :: s == t
  {
    var m := prev.save - q.basicOffset;
    var c, n := Ceil(m), m.Floor;
    if n as real == m {
      assert (n - 1) as real < c as real < (n + 1) as real;
      assert c == n;
    }
    assert WholeMinutes(q, prev) <==> m == c as real;
  }

  // ----- the rules of a year

  /** The years that a rule is written for. */
  predicate InRange(r: Rule, year: int) {
    match r.until
    case Year(last) => r.from <= year <= last
    case Only => year == r.from
    case Max => r.from <= year
  }

  predicate Applies(r: Rule, year: int) {
    r.from <= year && ((r.until.Year? && r.until.year >= year) || (r.from == year && r.until.Only?) || r.until.Max?)
  }

  function Applicable(rules: seq<Rule>, year: int): seq<Item> {
    if rules == [] then []
    else
      var last := rules[|rules| - 1];
      Applicable(rules[..|rules| - 1], year) + if Applies(last, year) then [InYear(year, last)] else []
  }

  lemma {:induction false} ApplicableItems(rules: seq<Rule>, year: int)
    ensures forall x | x in Applicable(rules, year) ::
            x.InYear? && x.year == year && x.rule in rules && InRange(x.rule, year)
    ensures forall r | r in rules && InRange(r, year) :: InYear(year, r) in Applicable(rules, year)
  {
    if rules != [] {
      ApplicableItems(rules[..|rules| - 1], year);
      assert rules == rules[..|rules| - 1] + [rules[|rules| - 1]];
    }
  }

  method FindApplicableRules(year: int, rules: seq<Rule>) returns (found: seq<Item>)
    ensures found == Applicable(rules, year)
  {
    found := [];
    for i := 0 to |rules|
      invariant found == Applicable(rules[..i], year)
    {
      assert rules[..i + 1][..i] == rules[..i];
      if Applies(rules[i], year) {
        found := found + [InYear(year, rules[i])];
      }
    }
    assert rules[..|rules|] == rules;
  }

  // ----- the place of the date

  ghost predicate Sorted(q: Lookup, s: seq<Item>) {
    forall i: nat, j: nat | i < j < |s| :: Raw(q, s[i]) <= Raw(q, s[j])
  }

  /** The date stands at place `p`, once; entries before it are earlier, or as early and among `left`. */
  ghost predicate Pinpointed(q: Lookup, s: seq<Item>, p: nat, left: seq<Item>, right: seq<Item>) {
    && p < |s| && s[p].TheDate?
    && (forall i: nat | i < p :: s[i].InYear? && (Raw(q, s[i]) < q.date || (Raw(q, s[i]) == q.date && s[i] in left)))
    && (forall i: nat | p < i < |s| ::
        s[i].InYear? && (Raw(q, s[i]) > q.date || (Raw(q, s[i]) == q.date && s[i] in right)))
  }

  /** A memo of start times, shared by all lookups. */
  class RuleClock {
    var exact: map<(int, Rule), real>

    ghost predicate Valid(start: (int, Rule) -> real)
      reads this
    {
      forall k | k in exact :: exact[k] == start(k.0, k.1)
    }

    constructor ()
      ensures forall start :: Valid(start)
    {
      exact := map[];
    }

    /** The exact start of a rule in a year, computed at most once. */
    method ExactStart(q: Lookup, year: int, rule: Rule) returns (t: real)
      requires Valid(q.start)
      modifies this
      ensures Valid(q.start) && t == q.start(year, rule)
    {
      if (year, rule) !in exact {
        exact := exact[(year, rule) := q.start(year, rule)];
      }
      t := exact[(year, rule)];
    }

    method TimeOf(q: Lookup, x: Item, prev: Option<Rule>) returns (t: real)
      requires Valid(q.start)
      modifies this
      ensures Valid(q.start) && t == if prev.None? then Raw(q, x) else Converted(q, x, prev.value)
    {
      match x {
        case TheDate => t := q.date;
        case InYear(year, rule) => t := ExactStart(q, year, rule);
      }
      if prev.Some? {
        t := t + Shift(q, ClockOf(q, x), prev.value);
      }
    }

    method CompareDates(q: Lookup, a: Item, b: Item, prev: Option<Rule>) returns (c: real)
      requires Valid(q.start)
      modifies this
      ensures Valid(q.start)
      ensures c ==
              if prev.None? then Raw(q, a) - Raw(q, b) else Converted(q, a, prev.value) - Converted(q, b, prev.value)
      ensures prev.Some? && WholeMinutes(q, prev.value) ==>
                forall s, t | ShownAt(q, a, prev.value, s) && ShownAt(q, b, prev.value, t) :: c == s - t
    {
      var s := TimeOf(q, a, prev);
      var t := TimeOf(q, b, prev);
      c := s - t;
      if prev.Some? {
        ConvertedIsInstant(q, a, prev.value);
        ConvertedIsInstant(q, b, prev.value);
      }
    }

    /** Where the host's stable sort puts `x`: behind everything that is not later. */
    method FindSlot(q: Lookup, s: seq<Item>, x: Item) returns (i: nat)
      requires Valid(q.start) && Sorted(q, s)
      modifies this
      ensures Valid(q.start) && Fits(q, s, x, i)
    {
      i := |s|;
      while i > 0
        invariant Valid(q.start) && 0 <= i <= |s|
        invariant forall j: nat | i <= j < |s| :: Raw(q, x) < Raw(q, s[j])
      {
        var c := CompareDates(q, s[i - 1], x, None);
        if c <= 0.0 {
          return;
        }
        i := i - 1;
      }
    }

    /** The host's stable sort, by insertion. */
    method Sort(q: Lookup, xs: seq<Item>, ghost d: nat) returns (s: seq<Item>, ghost p: nat)
      requires Valid(q.start) && d < |xs| && xs[d].TheDate? && forall i: nat | i < |xs| && i != d :: xs[i].InYear?
      modifies this
      ensures Valid(q.start) && Sorted(q, s) && multiset(s) == multiset(xs)
      ensures Pinpointed(q, s, p, xs[..d], xs[d + 1..])
    {
      s, p := [], 0;
      for k: nat := 0 to |xs|
        invariant Valid(q.start) && SortedSoFar(q, xs, d, k, s, p)
      {
        s, p := Insert(q, xs, d, k, s, p);
      }
      assert xs[..|xs|] == xs;
    }

    method Insert(q: Lookup, xs: seq<Item>, ghost d: nat, k: nat, s: seq<Item>, ghost p: nat)
      returns (s': seq<Item>, ghost p': nat)
      requires Valid(q.start) && k < |xs| && SortedSoFar(q, xs, d, k, s, p)
      requires xs[d].TheDate? && forall i: nat | i < |xs| && i != d :: xs[i].InYear?
      modifies this
      ensures Valid(q.start) && SortedSoFar(q, xs, d, k + 1, s', p')
    {
      var i := FindSlot(q, s, xs[k]);
      p' := SortStep(q, xs, d, k, s, p, i);
      s' := Spliced(s, xs[k], i);
    }

    /** The entries of the year, with the date among them; those of the year before, where fewer than two
        come before the date. */
    method Collect(q: Lookup, rules: seq<Rule>) returns (s: seq<Item>, ghost p: nat, ghost both: bool)
      requires Valid(q.start)
      modifies this
      ensures Valid(q.start) && Sorted(q, s) && Placed(q, s, p) && (!both ==> p >= 2)
      ensures multiset(s) == multiset(Applicable(rules, q.year)) + multiset{TheDate}
                             + (if both then multiset(Applicable(rules, q.year - 1)) else multiset{})
    {
      var found := FindApplicableRules(q.year, rules);
      ApplicableItems(rules, q.year);
      var xs := found + [TheDate];
      assert xs[..|found|] == found && xs[|found| + 1..] == [];
      s, p := Sort(q, xs, |found|);
      both := false;
      assert Placed(q, s, p) by {
        PlacedOnce(q, s, p, found, []);
      }
      var pinpoint := IndexOfDate(q, s, p);
      if pinpoint < 2 {
        var more := FindApplicableRules(q.year - 1, rules);
        ApplicableItems(rules, q.year - 1);
        ghost var front, back := s[..p], s[p + 1..] + more;
        var ys := s + more;
        assert ys[..p] == front && ys[p + 1..] == back;
        ghost var first := s;
        s, p := Sort(q, ys, pinpoint);
        PlacedTwice(q, s, p, front, back, first[|front| + 1..], more);
        both := true;
      }
    }

    /** `indexOf( date )`. */
    method IndexOfDate(q: Lookup, s: seq<Item>, ghost p: nat) returns (i: nat)
      requires Placed(q, s, p)
      ensures i == p
    {
      i := 0;
      while !s[i].TheDate?
        invariant i <= p
        decreases p - i
      {
        i := i + 1;
      }
    }

    /** `getRule`: the rule in force, if any, and the entries it was chosen from. */
    method GetRule(q: Lookup, rules: seq<Rule>, ghost bound: real) returns (r: Option<Rule>, ghost collected: seq<Item>)
      requires Valid(q.start)
      modifies this
      ensures Valid(q.start) && Sorted(q, collected) && IsRules(collected)
      ensures multiset(collected) == multiset(Applicable(rules, q.year)) + multiset(Applicable(rules, q.year - 1)) ||
              (multiset(collected) == multiset(Applicable(rules, q.year)) && |collected| >= 2 &&
               SortsBefore(q, collected[1]))
      ensures r.None? <==> collected == [] || !SortsBefore(q, collected[0])
      ensures r.Some? && Spaced(q, collected, bound) ==> IsTheRule(q, collected, r.value)
    {
      var s, pinpoint;
      s, pinpoint, collected := CollectAll(q, rules);
      r := Correct(q, s, pinpoint, collected, bound);
    }

    /** The sorted entries with the date, its index, and the entries without it. */
    method CollectAll(q: Lookup, rules: seq<Rule>) returns (s: seq<Item>, pinpoint: nat, ghost collected: seq<Item>)
      requires Valid(q.start)
      modifies this
      ensures Valid(q.start) && Sorted(q, collected) && IsRules(collected) && Front(q, collected, pinpoint)
      ensures multiset(collected) == multiset(Applicable(rules, q.year)) + multiset(Applicable(rules, q.year - 1)) ||
              (multiset(collected) == multiset(Applicable(rules, q.year)) && pinpoint >= 2)
      ensures |s| == |collected| + 1
      ensures forall i: nat | i < |s| && i != pinpoint :: s[i] == collected[if i < pinpoint then i else i - 1]
    {
      ghost var p, both;
      s, p, both := Collect(q, rules);
      pinpoint := IndexOfDate(q, s, p);
      collected := s[..p] + s[p + 1..];
      ghost var items := multiset(Applicable(rules, q.year));
      CollectedRules(q, s, p, collected, if both then items + multiset(Applicable(rules, q.year - 1)) else items);
    }

    /** The entry before the date, unless the clocks say that it is too late or too early a choice. */
    method Correct(q: Lookup, s: seq<Item>, pinpoint: nat, ghost rest: seq<Item>, ghost bound: real)
      returns (r: Option<Rule>)
      requires Valid(q.start) && IsRules(rest) && Front(q, rest, pinpoint) && |s| == |rest| + 1
      requires forall i: nat | i < |s| && i != pinpoint :: s[i] == rest[if i < pinpoint then i else i - 1]
      modifies this
      ensures Valid(q.start) && (r.None? <==> pinpoint == 0)
      ensures r.Some? && Spaced(q, rest, bound) ==> IsTheRule(q, rest, r.value)
    {
      if pinpoint == 0 {
        return None;
      }
      if pinpoint > 1 {
        var c := CompareDates(q, TheDate, s[pinpoint - 1], Some(s[pinpoint - 2].rule));
        if c < 0.0 {
          // Too early for the entry in front of the date.
          PreviousNotYet(q, rest, pinpoint, bound);
          ThatIsTheRule(q, rest, bound, pinpoint - 2);
          return Some(s[pinpoint - 2].rule);
        }
      }
      if pinpoint < |s| - 1 {
        var c := CompareDates(q, TheDate, s[pinpoint + 1], Some(s[pinpoint - 1].rule));
        if c > 0.0 {
          // Late enough for the entry behind the date.
          NextAlready(q, rest, pinpoint, bound);
          ThatIsTheRule(q, rest, bound, pinpoint);
          return Some(s[pinpoint + 1].rule);
        }
      }
      ThatIsTheRule(q, rest, bound, pinpoint - 1);
      return Some(s[pinpoint - 1].rule);
    }
  }

  // ----- the rule in force

  /** The entry is sorted in front of the date. */
  predicate SortsBefore(q: Lookup, x: Item)
    requires x.InYear?
  {
    Raw(q, x) < q.date || (Raw(q, x) == q.date && x.year == q.year)
  }

  ghost predicate Placed(q: Lookup, s: seq<Item>, p: nat) {
    && p < |s| && s[p].TheDate?
    && (forall i: nat | i < p :: s[i].InYear? && SortsBefore(q, s[i]))
    && (forall i: nat | p < i < |s| :: s[i].InYear? && !SortsBefore(q, s[i]))
  }

  ghost predicate IsRules(s: seq<Item>) {
    forall i: nat | i < |s| :: s[i].InYear?
  }

  lemma PlacedOnce(q: Lookup, s: seq<Item>, p: nat, left: seq<Item>, right: seq<Item>)
    requires Pinpointed(q, s, p, left, right) && right == [] && forall x | x in left :: x.InYear? && x.year == q.year
    ensures Placed(q, s, p)
  {
  }

  lemma PlacedTwice(q: Lookup, s: seq<Item>, p: nat, left: seq<Item>, right: seq<Item>, later: seq<Item>,
                    more: seq<Item>)
    requires Pinpointed(q, s, p, left, right) && right == later + more
    requires forall x | x in left :: x.InYear? && SortsBefore(q, x)
    requires forall x | x in later :: x.InYear? && !SortsBefore(q, x)
    requires forall x | x in more :: x.InYear? && x.year == q.year - 1
    ensures Placed(q, s, p)
  {
  }

  lemma CollectedRules(q: Lookup, s: seq<Item>, p: nat, collected: seq<Item>, items: multiset<Item>)
    requires Sorted(q, s) && Placed(q, s, p) && collected == s[..p] + s[p + 1..]
    requires multiset(s) == items + multiset{TheDate}
    ensures Sorted(q, collected) && IsRules(collected) && multiset(collected) == items && Front(q, collected, p)
    ensures forall i: nat | i < |s| && i != p :: s[i] == collected[if i < p then i else i - 1]
  {
    WithoutDate(s, p, collected, items);
    forall i: nat | i < |s| && i != p ensures s[i] == collected[if i < p then i else i - 1] {
    }
    forall i: nat | i < |collected| ensures collected[i] == s[if i < p then i else i + 1] {
    }
  }

  lemma WithoutDate(s: seq<Item>, p: nat, rest: seq<Item>, items: multiset<Item>)
    requires p < |s| && s[p] == TheDate && rest == s[..p] + s[p + 1..] && multiset(s) == items + multiset{TheDate}
    ensures multiset(rest) == items
  {
    assert s == s[..p] + [s[p]] + s[p + 1..];
    assert multiset(s) == multiset(rest) + multiset{TheDate};
    assert multiset(rest) == multiset(s) - multiset{TheDate} == items;
  }

  /** At the moment of the date, with `prev` in force until then, the rule of `x` has begun. At the very
      instant of the start the sorting decides. */
  predicate Begun(q: Lookup, x: Item, prev: Rule)
    requires x.InYear?
  {
    var now, start := Converted(q, TheDate, prev), Converted(q, x, prev);
    now > start || (now == start && SortsBefore(q, x))
  }

  /** Entry `k` has begun, its start converted with the entry before it, where there is one; and the
      entry after it has not, its start converted with entry `k`. */
  ghost predicate InForce(q: Lookup, s: seq<Item>, k: nat)
    requires IsRules(s) && k < |s|
  {
    && (k > 0 ==> Begun(q, s[k], s[k - 1].rule))
    && (k + 1 < |s| ==> !Begun(q, s[k + 1], s[k].rule))
  }

  /** How far conversion moves the start of `x` against the date. */
  function Skew(q: Lookup, x: Item, prev: Rule): real {
    Shift(q, ClockOf(q, x), prev) - Shift(q, ClockOf(q, TheDate), prev)
  }

  /** No conversion moves a start by more than `bound` against the date, and written starts are more than
      twice that apart. */
  ghost predicate Spaced(q: Lookup, s: seq<Item>, bound: real)
    requires IsRules(s)
  {
    && (forall i: nat, j: nat | i < |s| && j < |s| :: -bound <= Skew(q, s[i], s[j].rule) <= bound)
    && (forall i: nat, j: nat | i < j < |s| :: Raw(q, s[i]) + 2.0 * bound < Raw(q, s[j]))
  }

  /** Entries that sort before the date are in front. */
  ghost predicate Front(q: Lookup, s: seq<Item>, p: nat)
    requires IsRules(s)
  {
    p <= |s| && forall i: nat | i < |s| :: SortsBefore(q, s[i]) <==> i < p
  }

  lemma PreviousNotYet(q: Lookup, s: seq<Item>, p: nat, bound: real)
    requires IsRules(s) && Front(q, s, p) && p > 1
    requires Converted(q, TheDate, s[p - 2].rule) < Converted(q, s[p - 1], s[p - 2].rule)
    ensures Spaced(q, s, bound) ==> InForce(q, s, p - 2)
  {
    if Spaced(q, s, bound) && p > 2 {
      assert -bound <= Skew(q, s[p - 2], s[p - 3].rule) <= bound;
      assert Raw(q, s[p - 2]) + 2.0 * bound < Raw(q, s[p - 1]) <= q.date;
    }
  }

  lemma NextAlready(q: Lookup, s: seq<Item>, p: nat, bound: real)
    requires IsRules(s) && Front(q, s, p) && 0 < p < |s|
    requires Converted(q, TheDate, s[p - 1].rule) > Converted(q, s[p], s[p - 1].rule)
    ensures Spaced(q, s, bound) ==> InForce(q, s, p)
  {
    if Spaced(q, s, bound) && p + 1 < |s| {
      assert -bound <= Skew(q, s[p + 1], s[p].rule) <= bound;
      assert q.date <= Raw(q, s[p]) && Raw(q, s[p]) + 2.0 * bound < Raw(q, s[p + 1]);
    }
  }

  /** Once a rule has begun, be it only by the clocks, so have all before it, whichever rule each is
      converted with. */
  lemma BegunInOrder(q: Lookup, s: seq<Item>, bound: real, j: nat, k: nat, prev: nat, before: nat)
    requires IsRules(s) && Spaced(q, s, bound) && j < k < |s| && prev < |s| && before < |s|
    ensures BegunByClock(q, s[k], s[prev].rule) ==> Begun(q, s[j], s[before].rule)
  {
    assert -bound <= Skew(q, s[k], s[prev].rule) && Skew(q, s[j], s[before].rule) <= bound;
  }

  lemma LaterNotInForce(q: Lookup, s: seq<Item>, bound: real, j: nat, k: nat)
    requires IsRules(s) && Spaced(q, s, bound) && j < k < |s| && !Begun(q, s[j + 1], s[j].rule)
    ensures !Begun(q, s[k], s[k - 1].rule)
  {
    if j + 1 < k {
      BegunInOrder(q, s, bound, j + 1, k, k - 1, j);
    }
  }

  /** There is no second rule in force. */
  lemma OnlyOneInForce(q: Lookup, s: seq<Item>, bound: real, j: nat, k: nat)
    requires IsRules(s) && Spaced(q, s, bound) && j < |s| && k < |s| && InForce(q, s, j) && InForce(q, s, k)
    ensures j == k
  {
    if j < k {
      LaterNotInForce(q, s, bound, j, k);
    } else if k < j {
      LaterNotInForce(q, s, bound, k, j);
    }
  }

  /** Beginning by the converted clocks alone: a rule has begun at the instant of its start. */
  predicate BegunByClock(q: Lookup, x: Item, prev: Rule) {
    Converted(q, TheDate, prev) >= Converted(q, x, prev)
  }

  /** As InForce, with the clocks alone. */
  ghost predicate InForceByClock(q: Lookup, s: seq<Item>, k: nat)
    requires IsRules(s) && k < |s|
  {
    && (k > 0 ==> BegunByClock(q, s[k], s[k - 1].rule))
    && (k + 1 < |s| ==> !BegunByClock(q, s[k + 1], s[k].rule))
  }

  /** The date is the very instant at which entry `j` starts, but sorts before it. */
  predicate Misses(q: Lookup, s: seq<Item>, j: nat)
    requires IsRules(s) && 0 < j < |s|
  {
    Converted(q, TheDate, s[j - 1].rule) == Converted(q, s[j], s[j - 1].rule) && !SortsBefore(q, s[j])
  }

  /** The date is nowhere the instant of a start that sorts behind it. */
  ghost predicate Unambiguous(q: Lookup, s: seq<Item>)
    requires IsRules(s)
  {
    forall j: nat | 0 < j < |s| :: !Misses(q, s, j)
  }

  lemma NoEarlierMiss(q: Lookup, s: seq<Item>, bound: real, k: nat, j: nat)
    requires IsRules(s) && Spaced(q, s, bound) && k < |s| && InForce(q, s, k) && 0 < j <= k
    ensures !Misses(q, s, j)
  {
    if j < k {
      BegunInOrder(q, s, bound, j, k, k - 1, j - 1);
    }
  }

  lemma NoLaterMiss(q: Lookup, s: seq<Item>, bound: real, k: nat, j: nat)
    requires IsRules(s) && Spaced(q, s, bound) && k < |s| && InForce(q, s, k) && k + 1 < j < |s|
    ensures !Misses(q, s, j)
  {
    BegunInOrder(q, s, bound, k + 1, j, j - 1, k);
  }

  /** What the lookup takes to be in force is in force by the clocks exactly if the date is unambiguous. */
  lemma InForceByBoth(q: Lookup, s: seq<Item>, bound: real, k: nat)
    requires IsRules(s) && Spaced(q, s, bound) && k < |s| && InForce(q, s, k)
    ensures InForceByClock(q, s, k) <==> Unambiguous(q, s)
  {
    forall j: nat | 0 < j < |s| && j != k + 1 ensures !Misses(q, s, j) {
      if j <= k {
        NoEarlierMiss(q, s, bound, k, j);
      } else {
        NoLaterMiss(q, s, bound, k, j);
      }
    }
    assert k + 1 < |s| ==> (BegunByClock(q, s[k + 1], s[k].rule) <==> Misses(q, s, k + 1));
  }

  /** The date is not before the instant at which `x` starts, while `prev` is in force. */
  ghost predicate BegunAt(q: Lookup, x: Item, prev: Rule) {
    exists s, t :: ShownAt(q, TheDate, prev, s) && ShownAt(q, x, prev, t) && t <= s
  }

  /** The date is the instant at which `x` starts. */
  ghost predicate AtOnce(q: Lookup, x: Item, prev: Rule) {
    exists t :: ShownAt(q, TheDate, prev, t) && ShownAt(q, x, prev, t)
  }

  /** As InForce, by instants. */
  ghost predicate InForceAt(q: Lookup, s: seq<Item>, k: nat)
    requires IsRules(s) && k < |s|
  {
    && (k > 0 ==> BegunAt(q, s[k], s[k - 1].rule))
    && (k + 1 < |s| ==> !BegunAt(q, s[k + 1], s[k].rule))
  }

  /** The date is nowhere the instant of a start that sorts behind it. */
  ghost predicate NoSuchInstant(q: Lookup, s: seq<Item>)
    requires IsRules(s)
  {
    forall j: nat | 0 < j < |s| && AtOnce(q, s[j], s[j - 1].rule) :: SortsBefore(q, s[j])
  }

  ghost predicate AllWhole(q: Lookup, s: seq<Item>)
    requires IsRules(s)
  {
    forall i: nat | i < |s| :: WholeMinutes(q, s[i].rule)
  }

  lemma ClocksGoByInstants(q: Lookup, x: Item, prev: Rule)
    requires WholeMinutes(q, prev)
    ensures BegunByClock(q, x, prev) <==> BegunAt(q, x, prev)
    ensures Converted(q, TheDate, prev) == Converted(q, x, prev) <==> AtOnce(q, x, prev)
  {
    ConvertedIsInstant(q, TheDate, prev);
    ConvertedIsInstant(q, x, prev);
  }

  /** Where clocks go by whole minutes, in force by the clocks is in force at the instant. */
  lemma InForceByInstants(q: Lookup, s: seq<Item>, k: nat)
    requires IsRules(s) && k < |s| && AllWhole(q, s)
    ensures InForceByClock(q, s, k) <==> InForceAt(q, s, k)
    ensures Unambiguous(q, s) <==> NoSuchInstant(q, s)
  {
    forall j: nat | 0 < j < |s|
      ensures BegunByClock(q, s[j], s[j - 1].rule) <==> BegunAt(q, s[j], s[j - 1].rule)
      ensures Misses(q, s, j) <==> AtOnce(q, s[j], s[j - 1].rule) && !SortsBefore(q, s[j])
    {
      ClocksGoByInstants(q, s[j], s[j - 1].rule);
    }
    assert k + 1 < |s| ==> (BegunByClock(q, s[k + 1], s[k].rule) <==> BegunAt(q, s[k + 1], s[k].rule));
    if NoSuchInstant(q, s) {
      forall j: nat | 0 < j < |s| ensures !Misses(q, s, j) {
      }
    }
  }

  /** The rule is the one in force, and it is so by the clocks exactly if the date is unambiguous. */
  ghost predicate IsTheRule(q: Lookup, s: seq<Item>, rule: Rule)
    requires IsRules(s)
  {
    exists k: nat :: && k < |s| && s[k].rule == rule && InForce(q, s, k)
                     && (InForceByClock(q, s, k) <==> Unambiguous(q, s))
                     && (AllWhole(q, s) ==> (InForceAt(q, s, k) <==> NoSuchInstant(q, s)))
  }

  lemma ThatIsTheRule(q: Lookup, s: seq<Item>, bound: real, k: nat)
    requires IsRules(s) && k < |s|
    ensures Spaced(q, s, bound) && InForce(q, s, k) ==> IsTheRule(q, s, s[k].rule)
  {
    if Spaced(q, s, bound) && InForce(q, s, k) {
      InForceByBoth(q, s, bound, k);
      if AllWhole(q, s) {
        InForceByInstants(q, s, k);
      }
    }
  }

  // ----- an hour east of Greenwich

  const WINTER := Rule(2000, Only, Wall, 0.0, 0)
  const SUMMER := Rule(2000, Only, Wall, 60.0, 1)

  /** The summer rule takes effect at 3600000 by the wall clock, which is 0 in UTC, the date asked for. */
  function OnTheHour(): Lookup {
    Lookup(0.0, 2000, true, -60.0, (year: int, rule: Rule) => if rule == SUMMER then 3600000.0 else -100000000.0)
  }

  lemma OnlyTheseTwo()
    ensures Applicable([WINTER, SUMMER], 2000) == [InYear(2000, WINTER), InYear(2000, SUMMER)]
    ensures Applicable([WINTER, SUMMER], 1999) == []
  {
    var rules := [WINTER, SUMMER];
    assert rules[..1] == [WINTER] && [WINTER][..0] == [];
    assert Applicable([WINTER], 2000) == [InYear(2000, WINTER)] && Applicable([WINTER], 1999) == [];
  }

  lemma WinterThenSummer(s: seq<Item>)
    requires IsRules(s) && Sorted(OnTheHour(), s)
    requires multiset(s) == multiset{InYear(2000, WINTER), InYear(2000, SUMMER)}
    ensures s == [InYear(2000, WINTER), InYear(2000, SUMMER)]
  {
    assert |s| == |multiset(s)| == 2;
    assert s[0] in multiset(s) && s[1] in multiset(s);
    assert s == [s[0], s[1]];
  }

  lemma Skews(x: Item)
    requires x.InYear? && x.rule.clock == Wall
    ensures Skew(OnTheHour(), x, WINTER) == -3600000.0 && Skew(OnTheHour(), x, SUMMER) == -7200000.0
  {
    assert GetAdjustedOffset(-60.0, WINTER) == -60 && GetAdjustedOffset(-60.0, SUMMER) == -120;
  }

  lemma StillWinter(s: seq<Item>)
    requires s == [InYear(2000, WINTER), InYear(2000, SUMMER)]
    ensures IsRules(s) && Spaced(OnTheHour(), s, 7200000.0) && SortsBefore(OnTheHour(), s[0])
    ensures InForce(OnTheHour(), s, 0) && InForceByClock(OnTheHour(), s, 1) && Misses(OnTheHour(), s, 1)
  {
    Skews(s[0]);
    Skews(s[1]);
  }

  /** At the very instant at which summer time takes effect, a date given in UTC still gets winter time. */
  method EastOfGreenwich() returns (r: Option<Rule>)
    ensures r == Some(WINTER)
    ensures InForceByClock(OnTheHour(), [InYear(2000, WINTER), InYear(2000, SUMMER)], 1)
  {
    var clock := new RuleClock();
    ghost var collected;
    OnlyTheseTwo();
    r, collected := clock.GetRule(OnTheHour(), [WINTER, SUMMER], 7200000.0);
    WinterThenSummer(collected);
    StillWinter(collected);
    ghost var k: nat :| k < |collected| && collected[k].rule == r.value && InForce(OnTheHour(), collected, k);
    OnlyOneInForce(OnTheHour(), collected, 7200000.0, 0, k);
  }

  /** `x` goes to place `i` of `s` as FindSlot says. */
  ghost predicate Fits(q: Lookup, s: seq<Item>, x: Item, i: nat) {
    i <= |s| && forall j: nat | j < |s| :: if j < i then Raw(q, s[j]) <= Raw(q, x) else Raw(q, x) < Raw(q, s[j])
  }

  function Spliced(s: seq<Item>, x: Item, i: nat): (t: seq<Item>)
    requires i <= |s|
    ensures |t| == |s| + 1 && forall j: nat | j < |t| :: t[j] == if j < i then s[j] else if j == i then x else s[j - 1]
    ensures multiset(t) == multiset(s) + multiset{x}
  {
    assert s == s[..i] + s[i..];
    s[..i] + [x] + s[i..]
  }

  /** The first `k` entries of `xs` are sorted; the date is the one at place `d` of `xs`. */
  ghost predicate SortedSoFar(q: Lookup, xs: seq<Item>, d: nat, k: nat, s: seq<Item>, p: nat) {
    && k <= |xs| && d < |xs| && Sorted(q, s) && multiset(s) == multiset(xs[..k])
    && (k <= d ==> forall i: nat | i < |s| :: s[i].InYear? && s[i] in xs[..d])
    && (k > d ==> Pinpointed(q, s, p, xs[..d], xs[d + 1..]))
  }

  lemma SortStep(q: Lookup, xs: seq<Item>, d: nat, k: nat, s: seq<Item>, p: nat, i: nat) returns (p': nat)
    requires k < |xs| && SortedSoFar(q, xs, d, k, s, p) && Fits(q, s, xs[k], i)
    requires xs[d].TheDate? && forall j: nat | j < |xs| && j != d :: xs[j].InYear?
    ensures SortedSoFar(q, xs, d, k + 1, Spliced(s, xs[k], i), p')
  {
    SplicedSorted(q, s, xs[k], i);
    assert xs[..k + 1] == xs[..k] + [xs[k]];
    if k < d {
      SplicedBefore(q, s, xs[k], i, xs[..d], k);
      p' := p;
    } else if k == d {
      SplicedDate(q, s, i, xs[..d], xs[d + 1..]);
      p' := i;
    } else {
      assert xs[k] == xs[d + 1..][k - d - 1];
      SplicedRule(q, s, xs[k], i, p, xs[..d], xs[d + 1..]);
      p' := if i <= p then p + 1 else p;
    }
  }

  lemma SplicedBefore(q: Lookup, s: seq<Item>, x: Item, i: nat, left: seq<Item>, k: nat)
    requires i <= |s| && k < |left| && left[k] == x && x.InYear?
    requires forall j: nat | j < |s| :: s[j].InYear? && s[j] in left
    ensures forall j: nat | j < |s| + 1 :: Spliced(s, x, i)[j].InYear? && Spliced(s, x, i)[j] in left
  {
  }

  lemma SplicedSorted(q: Lookup, s: seq<Item>, x: Item, i: nat)
    requires Sorted(q, s) && Fits(q, s, x, i)
    ensures Sorted(q, Spliced(s, x, i))
  {
    var t := Spliced(s, x, i);
    forall j: nat, k: nat | j < k < |t| ensures Raw(q, t[j]) <= Raw(q, t[k]) {
    }
  }

  /** The date itself is sorted in behind everything not later. */
  lemma SplicedDate(q: Lookup, s: seq<Item>, i: nat, left: seq<Item>, right: seq<Item>)
    requires Fits(q, s, TheDate, i) && forall j: nat | j < |s| :: s[j].InYear? && s[j] in left
    ensures Pinpointed(q, Spliced(s, TheDate, i), i, left, right)
  {
  }

  /** A rule is sorted in after the date was. */
  lemma SplicedRule(q: Lookup, s: seq<Item>, x: Item, i: nat, p: nat, left: seq<Item>, right: seq<Item>)
    requires Fits(q, s, x, i) && Pinpointed(q, s, p, left, right) && x.InYear? && x in right
    ensures Pinpointed(q, Spliced(s, x, i), if i <= p then p + 1 else p, left, right)
  {
    assert Raw(q, s[p]) == q.date;
  }
}
