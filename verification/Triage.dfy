/**
The QoS ladder: a registry of capability costs, and the greedy choice of what to disable to free a target.
*/
module Triage {
  import opened Common

  datatype Cost = Cost(name: string, rssMb: int, peakMb: int, tier: string)

  datatype Decision = Decision(
    disableOrder: seq<string>, totalSavingsMb: int, remainingMb: nat, targetMb: int, targetMet: bool)

  const CRITICAL := "critical"

  function TierPriority(tier: string): nat {
    if tier == CRITICAL then 0
    else if tier == "heavy" then 1
    else if tier == "medium" then 2
    else if tier == "light" then 3
    else 99
  }

  /** `_tier_sort_key(a) <= _tier_sort_key(b)`: lower tier number first, then higher peak. */
  predicate Before(a: Cost, b: Cost) {
    || TierPriority(a.tier) < TierPriority(b.tier)
    || (TierPriority(a.tier) == TierPriority(b.tier) && a.peakMb >= b.peakMb)
  }

  ghost predicate Sorted(s: seq<Cost>) {
    forall i, j :: 0 <= i < j < |s| ==> Before(s[i], s[j])
  }

  /** Stable insertion: before the first element that does not come earlier. */
  function Inserted(c: Cost, s: seq<Cost>): seq<Cost> {
    if s == [] || Before(c, s[0]) then [c] + s else [s[0]] + Inserted(c, s[1..])
  }

  function SortedByTier(s: seq<Cost>): seq<Cost> {
    if s == [] then [] else Inserted(s[0], SortedByTier(s[1..]))
  }

  lemma {:induction false} InsertedElements(c: Cost, s: seq<Cost>, x: Cost)
    ensures x in Inserted(c, s) <==> x == c || x in s
  {
    if s != [] && !Before(c, s[0]) {
      InsertedElements(c, s[1..], x);
    }
  }

  lemma {:induction false} InsertedSorted(c: Cost, s: seq<Cost>)
    requires Sorted(s)
    ensures Sorted(Inserted(c, s))
  {
    if s != [] && !Before(c, s[0]) {
      var rest := Inserted(c, s[1..]);
      InsertedSorted(c, s[1..]);
      forall j | 0 <= j < |rest|
        ensures Before(s[0], rest[j])
      {
        InsertedElements(c, s[1..], rest[j]);
      }
      SortedCons(s[0], rest);
    }
  }

  lemma SortedCons(c: Cost, s: seq<Cost>)
    requires Sorted(s) && forall j :: 0 <= j < |s| ==> Before(c, s[j])
    ensures Sorted([c] + s)
  {
  }

  lemma {:induction false} InsertedContents(c: Cost, s: seq<Cost>)
    ensures multiset(Inserted(c, s)) == multiset(s) + multiset{c}
  {
    if s != [] && !Before(c, s[0]) {
      InsertedContents(c, s[1..]);
      assert s == [s[0]] + s[1..];
    }
  }

  /** The sort gives the same costs, in tier order with higher peaks first. */
  lemma {:induction false} SortMeaning(s: seq<Cost>)
    ensures Sorted(SortedByTier(s)) && multiset(SortedByTier(s)) == multiset(s)
  {
    if s != [] {
      SortMeaning(s[1..]);
      InsertedSorted(s[0], SortedByTier(s[1..]));
      InsertedContents(s[0], SortedByTier(s[1..]));
      assert s == [s[0]] + s[1..];
    }
  }

  /** The costs with the sort key of `k`, in their order. */
  function WithKeyOf(k: Cost, s: seq<Cost>): seq<Cost> {
    if s == [] then [] else (if Before(s[0], k) && Before(k, s[0]) then [s[0]] else []) + WithKeyOf(k, s[1..])
  }

  lemma {:induction false} InsertedIsStable(k: Cost, c: Cost, s: seq<Cost>)
    ensures WithKeyOf(k, Inserted(c, s)) == WithKeyOf(k, [c] + s)
  {
    if s != [] && !Before(c, s[0]) {
      InsertedIsStable(k, c, s[1..]);
      assert Inserted(c, s)[1..] == Inserted(c, s[1..]) && ([c] + s)[1..] == s && ([c] + s[1..])[1..] == s[1..];
    }
  }

  /** The sort is stable: costs with the same tier and peak stay in the order of registration. */
  lemma {:induction false} SortIsStable(k: Cost, s: seq<Cost>)
    ensures WithKeyOf(k, SortedByTier(s)) == WithKeyOf(k, s)
  {
    if s != [] {
      SortIsStable(k, s[1..]);
      InsertedIsStable(k, s[0], SortedByTier(s[1..]));
      assert ([s[0]] + SortedByTier(s[1..]))[1..] == SortedByTier(s[1..]);
    }
  }

  predicate Eligible(c: Cost, disabled: set<string>) {
    c.name !in disabled && c.tier != CRITICAL
  }

  function Filtered(costs: seq<Cost>, disabled: set<string>): seq<Cost> {
    if costs == [] then []
    else
      var front, last := costs[..|costs| - 1], costs[|costs| - 1];
      Filtered(front, disabled) + if Eligible(last, disabled) then [last] else []
  }

  function Candidates(costs: seq<Cost>, disabled: set<string>): seq<Cost> {
    SortedByTier(Filtered(costs, disabled))
  }

  function Savings(costs: seq<Cost>): int {
    if costs == [] then 0 else Savings(costs[..|costs| - 1]) + costs[|costs| - 1].rssMb
  }

  function Names(costs: seq<Cost>): (r: seq<string>)
    ensures |r| == |costs|
  {
    seq(|costs|, i requires 0 <= i < |costs| => costs[i].name)
  }

  /** `n` is the number of candidates taken: the least whose savings meet the target, or all of them. */
  ghost predicate Taken(cands: seq<Cost>, target: int, n: nat) {
    && n <= |cands|
    && (forall i :: 0 <= i < n ==> Savings(cands[..i]) < target)
    && (n == |cands| || Savings(cands[..n]) >= target)
  }

  /** The number taken, by search from `from` on. */
  function TakeFrom(cands: seq<Cost>, target: int, from: nat): (n: nat)
    requires from <= |cands| && forall i :: 0 <= i < from ==> Savings(cands[..i]) < target
    ensures Taken(cands, target, n)
    decreases |cands| - from
  {
    if from == |cands| || Savings(cands[..from]) >= target then from else TakeFrom(cands, target, from + 1)
  }

  function Picks(costs: seq<Cost>, disabled: set<string>, target: int): seq<Cost> {
    Candidates(costs, disabled)[..TakeFrom(Candidates(costs, disabled), target, 0)]
  }

  lemma TakenUnique(cands: seq<Cost>, target: int, m: nat, n: nat)
    requires Taken(cands, target, m) && Taken(cands, target, n)
    ensures m == n
  {
  }

  ghost predicate NamesDistinct(costs: seq<Cost>) {
    forall i, j :: 0 <= i < j < |costs| ==> costs[i].name != costs[j].name
  }

  lemma {:induction false} FilteredMeaning(costs: seq<Cost>, disabled: set<string>)
    ensures forall c :: c in Filtered(costs, disabled) <==> c in costs && Eligible(c, disabled)
    ensures NamesDistinct(costs) ==> NamesDistinct(Filtered(costs, disabled))
  {
    if costs != [] {
      var front, last := costs[..|costs| - 1], costs[|costs| - 1];
      FilteredMeaning(front, disabled);
      assert costs == front + [last];
      if NamesDistinct(costs) {
        forall i | 0 <= i < |Filtered(front, disabled)|
          ensures Filtered(front, disabled)[i].name != last.name
        {
          assert Filtered(front, disabled)[i] in front;
        }
      }
    }
  }

  /** Distinct names survive reordering. */
  lemma NamesDistinctPermuted(a: seq<Cost>, b: seq<Cost>)
    requires NamesDistinct(a) && multiset(a) == multiset(b)
    ensures NamesDistinct(b)
  {
    forall i, j | 0 <= i < j < |b|
      ensures b[i].name != b[j].name
    {
      if b[i].name == b[j].name {
        assert b[i] in multiset(a) && b[j] in multiset(a);
        var x :| 0 <= x < |a| && a[x] == b[i];
        var y :| 0 <= y < |a| && a[y] == b[j];
        assert x == y;
        TwiceInMultiset(b, i, j);
        OnceInMultiset(a, x);
      }
    }
  }

  lemma TwiceInMultiset(s: seq<Cost>, i: nat, j: nat)
    requires i < j < |s| && s[i] == s[j]
    ensures multiset(s)[s[i]] >= 2
  {
    assert s == s[..j] + [s[j]] + s[j + 1..];
    assert s[i] in s[..j];
  }

  lemma OnceInMultiset(s: seq<Cost>, i: nat)
    requires NamesDistinct(s) && i < |s|
    ensures multiset(s)[s[i]] == 1
  {
    assert s == s[..i] + [s[i]] + s[i + 1..];
    assert s[i] !in s[..i] && s[i] !in s[i + 1..];
  }

  /** The picks are the front of the candidates, which are exactly the eligible costs in tier order. */
  lemma PicksAreAFrontOfTheLadder(costs: seq<Cost>, disabled: set<string>, target: int)
    ensures var cands, picks := Candidates(costs, disabled), Picks(costs, disabled, target);
      && picks <= cands && Sorted(cands)
      && (forall c :: c in cands <==> c in costs && Eligible(c, disabled))
      && (NamesDistinct(costs) ==> NamesDistinct(picks))
  {
    FilteredMeaning(costs, disabled);
    SortMeaning(Filtered(costs, disabled));
    var cands := Candidates(costs, disabled);
    forall c
      ensures c in cands <==> c in Filtered(costs, disabled)
    {
      assert c in multiset(cands) <==> c in multiset(Filtered(costs, disabled));
    }
    if NamesDistinct(costs) {
      NamesDistinctPermuted(Filtered(costs, disabled), cands);
    }
  }

  /** Nothing critical and nothing named as disabled is ever picked. */
  lemma PicksAreEligible(costs: seq<Cost>, disabled: set<string>, target: int, c: Cost)
    requires c in Picks(costs, disabled, target)
    ensures c in costs && c.tier != "critical" && c.name !in disabled
  {
    PicksAreAFrontOfTheLadder(costs, disabled, target);
    assert c in Candidates(costs, disabled);
  }

  ghost predicate NonNegative(costs: seq<Cost>) {
    forall i :: 0 <= i < |costs| ==> costs[i].rssMb >= 0
  }

  lemma {:induction false} SavingsMonotone(costs: seq<Cost>, n: nat)
    requires NonNegative(costs) && n <= |costs|
    ensures Savings(costs[..n]) <= Savings(costs)
    decreases |costs|
  {
    if n < |costs| {
      SavingsMonotone(costs[..|costs| - 1], n);
      assert costs[..|costs| - 1][..n] == costs[..n];
    } else {
      assert costs[..n] == costs;
    }
  }

  /** With costs that are not negative the target is met if and only if all candidates together would meet it. */
  lemma MeetsTargetIffAllWould(costs: seq<Cost>, disabled: set<string>, target: int)
    requires NonNegative(costs)
    ensures Savings(Picks(costs, disabled, target)) >= target <==> Savings(Candidates(costs, disabled)) >= target
  {
    var cands := Candidates(costs, disabled);
    PicksAreAFrontOfTheLadder(costs, disabled, target);
    assert NonNegative(cands) by {
      forall i | 0 <= i < |cands|
        ensures cands[i].rssMb >= 0
      {
        assert cands[i] in cands;
      }
    }
    SavingsMonotone(cands, TakeFrom(cands, target, 0));
    assert cands[..|cands|] == cands;
  }

  /** No pick is idle: without the last one the savings fall short of the target. */
  lemma LastPickIsNeeded(costs: seq<Cost>, disabled: set<string>, target: int)
    requires Picks(costs, disabled, target) != []
    ensures var picks := Picks(costs, disabled, target); Savings(picks[..|picks| - 1]) < target
  {
    var cands, picks := Candidates(costs, disabled), Picks(costs, disabled, target);
    assert picks[..|picks| - 1] == cands[..|picks| - 1];
  }

  /** A smaller target picks a front of what a larger one picks. */
  lemma SmallerTargetPicksAPrefix(costs: seq<Cost>, disabled: set<string>, target: int, larger: int)
    requires target <= larger
    ensures Picks(costs, disabled, target) <= Picks(costs, disabled, larger)
  {
    var cands := Candidates(costs, disabled);
    var m, n := TakeFrom(cands, target, 0), TakeFrom(cands, larger, 0);
    assert m <= n;
    assert cands[..n][..m] == cands[..m];
  }

  /** `x` stands before `c` on the ladder: heavy, medium, light, anything else; within a tier the higher peak first. */
  ghost predicate HigherOnLadder(x: Cost, c: Cost) {
    || (x.tier == "heavy" && c.tier in {"medium", "light"})
    || (x.tier == "medium" && c.tier == "light")
    || (x.tier in {"heavy", "medium", "light"} && c.tier !in {"heavy", "medium", "light"})
    || (x.tier == c.tier && x.peakMb > c.peakMb)
    || (x.tier !in {"heavy", "medium", "light"} && c.tier !in {"heavy", "medium", "light"} && x.peakMb > c.peakMb)
  }

  /** The ladder: when a cost is picked, every eligible cost higher on the ladder is picked too, and earlier. */
  lemma HigherIsPickedEarlier(costs: seq<Cost>, disabled: set<string>, target: int, j: nat, x: Cost) returns (i: nat)
    requires j < |Picks(costs, disabled, target)| && HigherOnLadder(x, Picks(costs, disabled, target)[j])
    requires x in costs && x.tier != "critical" && x.name !in disabled
    ensures i < j && Picks(costs, disabled, target)[i] == x
  {
    var cands := Candidates(costs, disabled);
    PicksAreAFrontOfTheLadder(costs, disabled, target);
    assert cands[j] in cands;
    assert x in cands;
    i :| 0 <= i < |cands| && cands[i] == x;
    assert !Before(cands[j], x);
  }

  /** The savings are the sum of the resident megabytes. */
  lemma {:induction false} SavingsAdd(a: seq<Cost>, b: seq<Cost>)
    ensures Savings(a + b) == Savings(a) + Savings(b)
    ensures |b| == 1 ==> Savings(b) == b[0].rssMb
  {
    if b == [] {
      assert a + b == a;
    } else {
      SavingsAdd(a, b[..|b| - 1]);
      assert (a + b)[..|a + b| - 1] == a + b[..|b| - 1];
    }
  }

  /** A target beyond the savings of the first `n` fronts takes more than them. */
  lemma {:induction false} TargetBeyond(cands: seq<Cost>, n: nat) returns (target: int)
    requires n <= |cands|
    ensures forall i :: 0 <= i < n ==> Savings(cands[..i]) < target
  {
    target := 0;
    if n > 0 {
      target := TargetBeyond(cands, n - 1);
      if target <= Savings(cands[..n - 1]) {
        target := Savings(cands[..n - 1]) + 1;
      }
    }
  }

  /** Some target makes the picks contain a candidate, whichever it is: a large enough one takes them all. */
  lemma EveryCandidateCanBePicked(costs: seq<Cost>, disabled: set<string>, c: Cost)
    ensures (exists target :: c in Picks(costs, disabled, target)) <==> c in costs && Eligible(c, disabled)
  {
    PicksAreAFrontOfTheLadder(costs, disabled, 0);
    var cands := Candidates(costs, disabled);
    if c in costs && Eligible(c, disabled) {
      var target := TargetBeyond(cands, |cands|);
      TakenUnique(cands, target, TakeFrom(cands, target, 0), |cands|);
      assert c in Picks(costs, disabled, target);
    }
  }

  // ---------------------------------------------------------------- registry and controller

  class Registry {
    var names: seq<string>
    var costs: map<string, Cost>
    var disabled: set<string>

    ghost predicate Valid()
      reads this
    {
      && Distinct(names)
      && (forall n :: n in names <==> n in costs)
      && (forall n :: n in costs ==> costs[n].name == n)
    }

    constructor ()
      ensures Valid() && names == [] && disabled == {}
    {
      names, costs, disabled := [], map[], {};
    }

    /** The registered costs in the order of first registration. */
    function All(): (r: seq<Cost>)
      requires Valid()
      reads this
      ensures |r| == |names| && Names(r) == names && NamesDistinct(r)
    {
      seq(|names|, i requires 0 <= i < |names| && names[i] in costs reads this => costs[names[i]])
    }

    method Register(cost: Cost)
      requires Valid()
      modifies this
      ensures Valid() && costs == old(costs)[cost.name := cost] && disabled == old(disabled)
      ensures names == if cost.name in old(names) then old(names) else old(names) + [cost.name]
    {
      if cost.name !in costs {
        names := names + [cost.name];
      }
      costs := costs[cost.name := cost];
    }

    /** An unknown capability gets a light default. */
    function Get(name: string): (c: Cost)
      reads this
      ensures name in costs ==> c == costs[name]
      ensures name !in costs ==> c == Cost(name, 128, 128, "light")
    {
      if name in costs then costs[name] else Cost(name, 128, 128, "light")
    }

    method Disable(name: string)
      requires Valid()
      modifies this
      ensures Valid() && disabled == old(disabled) + {name} && names == old(names) && costs == old(costs)
    {
      disabled := disabled + {name};
    }

    method Enable(name: string)
      requires Valid()
      modifies this
      ensures Valid() && disabled == old(disabled) - {name} && names == old(names) && costs == old(costs)
    {
      disabled := disabled - {name};
    }
  }

  ghost predicate PicksFlagged(registry: Registry, already: set<string>, target: int, c: Cost)
    requires registry.Valid()
    reads registry
  {
    c in Picks(registry.All(), already, target) && c.name in registry.disabled
  }

  /**
  The flags of the registry are not consulted: with some target, `triage` picks a capability that the registry
  has disabled already if and only if one of these is not critical and not named in the argument.
  */
  lemma RegistryFlagsAreIgnored(registry: Registry, already: set<string>)
    requires registry.Valid()
    ensures (exists target, c :: PicksFlagged(registry, already, target, c))
       <==> exists c :: c in registry.All() && Eligible(c, already) && c.name in registry.disabled
  {
    if target, c :| PicksFlagged(registry, already, target, c) {
      EveryCandidateCanBePicked(registry.All(), already, c);
    }
    if c :| c in registry.All() && Eligible(c, already) && c.name in registry.disabled {
      EveryCandidateCanBePicked(registry.All(), already, c);
      var target :| c in Picks(registry.All(), already, target);
      assert PicksFlagged(registry, already, target, c);
    }
  }

  /** Looking up by name: the registered cost is found, and anything else is taken for a light 128 MB. */
  lemma LookupFindsRegistered(registry: Registry, c: Cost)
    requires registry.Valid()
    ensures registry.Get(c.name) == c <==>
      c in registry.All() || (c.name !in registry.costs && c == Cost(c.name, 128, 128, "light"))
    ensures registry.Get(c.name).name == c.name
  {
    if c.name in registry.costs {
      var i :| 0 <= i < |registry.names| && registry.names[i] == c.name;
      assert registry.All()[i] == registry.costs[c.name];
      assert c in registry.All() ==> Names(registry.All())[i] == c.name;
    }
  }

  /** `triage`: the flags of the registry are not consulted, only the argument. */
  method Decide(registry: Registry, target: int, alreadyDisabled: set<string>, currentRssMb: int) returns (d: Decision)
    requires registry.Valid()
    ensures var picks := Picks(registry.All(), alreadyDisabled, target);
      && d.disableOrder == Names(picks) && d.totalSavingsMb == Savings(picks)
      && d.targetMb == target && (d.targetMet <==> Savings(picks) >= target)
      && d.remainingMb == if currentRssMb > Savings(picks) && currentRssMb > 0 then currentRssMb - Savings(picks) else 0
  {
    var filtered := Filter(registry.All(), alreadyDisabled);
    var candidates := SortedByTier(filtered);
    var n, order, total := Accumulate(candidates, target);
    TakenUnique(candidates, target, n, TakeFrom(candidates, target, 0));
    var remaining := if currentRssMb > 0 then currentRssMb - total else 0;
    d := Decision(order, total, if remaining > 0 then remaining else 0, target, total >= target);
  }

  /** Skip what is disabled and what is critical. */
  method Filter(all: seq<Cost>, disabled: set<string>) returns (filtered: seq<Cost>)
    ensures filtered == Filtered(all, disabled)
  {
    filtered := [];
    for i := 0 to |all|
      invariant filtered == Filtered(all[..i], disabled)
    {
      assert all[..i + 1][..i] == all[..i];
      if all[i].name !in disabled && all[i].tier != CRITICAL {
        filtered := filtered + [all[i]];
      }
    }
    assert all[..|all|] == all;
  }

  /** Accumulate savings until the target is met. */
  method Accumulate(candidates: seq<Cost>, target: int) returns (n: nat, order: seq<string>, total: int)
    ensures Taken(candidates, target, n) && order == Names(candidates[..n]) && total == Savings(candidates[..n])
  {
    order, total, n := [], 0, 0;
    while n < |candidates| && total < target
      invariant n <= |candidates| && total == Savings(candidates[..n]) && order == Names(candidates[..n])
      invariant forall i :: 0 <= i < n ==> Savings(candidates[..i]) < target
    {
      assert candidates[..n + 1][..n] == candidates[..n];
      order := order + [candidates[n].name];
      total := total + candidates[n].rssMb;
      n := n + 1;
    }
  }

  /** The savings looked up for a list of names. */
  function LookedUp(registry: Registry, names: seq<string>): int
    reads registry
  {
    if names == [] then 0 else LookedUp(registry, names[..|names| - 1]) + registry.Get(names[|names| - 1]).rssMb
  }

  method EstimateSavings(registry: Registry, names: seq<string>) returns (total: int)
    ensures total == LookedUp(registry, names)
  {
    total := 0;
    for i := 0 to |names|
      invariant total == LookedUp(registry, names[..i])
    {
      assert names[..i + 1][..i] == names[..i];
      total := total + registry.Get(names[i]).rssMb;
    }
    assert names[..|names|] == names;
  }

  lemma {:induction false} LookupOfRegistered(registry: Registry, costs: seq<Cost>)
    requires registry.Valid() && forall i :: 0 <= i < |costs| ==> costs[i] in registry.All()
    ensures LookedUp(registry, Names(costs)) == Savings(costs)
  {
    if costs != [] {
      var n := |costs| - 1;
      LookupOfRegistered(registry, costs[..n]);
      assert Names(costs)[..n] == Names(costs[..n]) && Names(costs)[n] == costs[n].name;
      LookupFindsRegistered(registry, costs[n]);
    }
  }

  /** The total of a decision is what `estimate_savings` gives for its list. */
  lemma TotalIsEstimate(registry: Registry, disabled: set<string>, target: int)
    requires registry.Valid()
    ensures var picks := Picks(registry.All(), disabled, target); LookedUp(registry, Names(picks)) == Savings(picks)
  {
    var picks := Picks(registry.All(), disabled, target);
    PicksAreAFrontOfTheLadder(registry.All(), disabled, target);
    forall i | 0 <= i < |picks|
      ensures picks[i] in registry.All()
    {
      assert picks[i] in Candidates(registry.All(), disabled);
    }
    LookupOfRegistered(registry, picks);
  }

  /** `get_triage_preview`: name, savings and tier of each pick. */
  method Preview(registry: Registry, target: int) returns (preview: seq<(string, int, string)>)
    requires registry.Valid()
    ensures var picks := Picks(registry.All(), {}, target);
      && |preview| == |picks|
      && forall i :: 0 <= i < |picks| ==> preview[i] == (picks[i].name, picks[i].rssMb, picks[i].tier)
  {
    var d := Decide(registry, target, {}, 0);
    ghost var picks := Picks(registry.All(), {}, target);
    PicksAreAFrontOfTheLadder(registry.All(), {}, target);
    preview := [];
    for i := 0 to |d.disableOrder|
      invariant |preview| == i
      invariant forall j :: 0 <= j < i ==> preview[j] == (picks[j].name, picks[j].rssMb, picks[j].tier)
    {
      assert picks[i] in Candidates(registry.All(), {});
      ghost var k :| 0 <= k < |registry.names| && registry.All()[k] == picks[i];
      var cost := registry.Get(d.disableOrder[i]);
      preview := preview + [(d.disableOrder[i], cost.rssMb, cost.tier)];
    }
  }
}
