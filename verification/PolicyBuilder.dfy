/**
 * The policy builder behind done_authentication: it walks all method subsets, all provider
 * assignments and a bounded number of policy map stacks, updating one shared object in place.
 */
module PolicyBuilder {
  import opened Wrappers
  import opened Sequences
  import opened Products
  import opened Subsets
  import opened Costs
  import opened Providers
  import opened Stacks

  const MAX_EVALUATIONS: nat := 1024 * 16

  /** One entry of a policy handed back to the user. */
  datatype MethodUse = MethodUse(method_: nat, provider: string)

  // ----- specification of the walk over subsets

  /** The policy list answers the subsets tried, newest first; the first subset is pruned. */
  ghost predicate Answers(su: Setup, ps: seq<Policy>, tried: seq<seq<nat>>) {
    |ps| == |tried| && forall k :: 0 <= k < |tried| ==> ps[|tried| - 1 - k] == PolicyFor(su, k == 0, tried[k])
  }

  lemma AnswersSnoc(su: Setup, ps: seq<Policy>, tried: seq<seq<nat>>, idx: seq<nat>)
    requires Answers(su, ps, tried)
    ensures Answers(su, [PolicyFor(su, tried == [], idx)] + ps, tried + [idx])
  {
  }

  ghost function PolicyFor(su: Setup, first: bool, idx: seq<nat>): Policy {
    Policy(idx, MapsFor(su, first, idx))
  }

  /** Trying x after the choices xs, each followed by all tails, behind the same prefix. */
  lemma PrefixSpreadSnoc(p: seq<string>, xs: seq<string>, x: string, tails: seq<seq<string>>)
    ensures PrefixAll(p, Spread(xs + [x], tails)) == PrefixAll(p, Spread(xs, tails)) + PrefixAll(p + [x], tails)
  {
    SpreadSnoc(xs, x, tails);
    PrefixAllConcat(p, Spread(xs, tails), PrependAll(x, tails));
    PrefixAllPrepend(p, x, tails);
  }

  lemma NoChoice(p: seq<string>, tails: seq<seq<string>>)
    ensures PrefixAll(p, Spread([], tails)) == []
  {
  }

  // ----- the order in which subsets are tried

  function Start(p: seq<nat>): nat {
    if p == [] then 0 else p[|p| - 1] + 1
  }

  /** All ways to complete the choice p to r methods, as the recursion finds them. */
  ghost function Completions(p: seq<nat>, n: nat, r: nat): seq<seq<nat>>
    requires |p| <= r
    decreases r - |p|, n + 1
  {
    if |p| == r then [p] else From(p, Start(p), n, r)
  }

  /** Those of them whose next method is j or later. */
  ghost function From(p: seq<nat>, j: nat, n: nat, r: nat): seq<seq<nat>>
    requires |p| < r
    decreases r - |p|, if j < n then n - j else 0
  {
    if j >= n then [] else Completions(p + [j], n, r) + From(p, j + 1, n, r)
  }

  /** The recursion visits the subsets of the enumeration, in its order. */
  lemma {:induction false} CompletionsAreCombos(p: seq<nat>, n: nat, r: nat)
    requires |p| <= r
    ensures Completions(p, n, r) == PrefixAll(p, Combos(Start(p), n, r - |p|))
    decreases r - |p|, n + 1
  {
    if |p| == r {
      assert PrefixAll(p, [[]])[0] == p;
    } else {
      FromIsCombos(p, Start(p), n, r);
    }
  }

  lemma {:induction false} AllCompletions(n: nat, r: nat)
    ensures Completions([], n, r) == Combos(0, n, r)
  {
    CompletionsAreCombos([], n, r);
    PrefixAllEmpty(Combos(0, n, r));
  }

  lemma {:induction false} FromIsCombos(p: seq<nat>, j: nat, n: nat, r: nat)
    requires |p| < r
    ensures From(p, j, n, r) == PrefixAll(p, Combos(j, n, r - |p|))
    decreases r - |p|, if j < n then n - j else 0
  {
    if j < n {
      var q := p + [j];
      assert Start(q) == j + 1 && |q| == |p| + 1;
      CompletionsAreCombos(q, n, r);
      FromIsCombos(p, j + 1, n, r);
      CombosStep(p, j, n, r - |p|);
      assert From(p, j, n, r) == Completions(q, n, r) + From(p, j + 1, n, r);
    }
  }

  /** The subsets that continue p with j, then those that continue it with something larger. */
  lemma CombosStep(p: seq<nat>, j: nat, n: nat, q: nat)
    requires j < n && q > 0
    ensures var with, without := PrefixAll(p + [j], Combos(j + 1, n, q - 1)), PrefixAll(p, Combos(j + 1, n, q));
            PrefixAll(p, Combos(j, n, q)) == with + without
  {
    var tails, later := Combos(j + 1, n, q - 1), Combos(j + 1, n, q);
    PrefixAllConcat(p, PrependAll(j, tails), later);
    PrefixAllPrepend(p, j, tails);
  }

  // ----- specification of the walk over stacks

  ghost function MapLists(ps: seq<Policy>): seq<seq<PolicyMap>> {
    seq(|ps|, i requires 0 <= i < |ps| => ps[i].maps)
  }

  /** All stacks, in the order they are evaluated. */
  ghost function StacksOf(ps: seq<Policy>): seq<seq<PolicyMap>> {
    Product(MapLists(ps))
  }

  ghost predicate ShapedPolicies(ps: seq<Policy>, r: nat) {
    forall i :: 0 <= i < |ps| ==>
      |ps[i].challenges| == r && forall m :: m in ps[i].maps ==> |m.entries| == r
  }

  ghost predicate Partial(ps: seq<Policy>, r: nat, p: seq<PolicyMap>) {
    |p| <= |ps| && forall i :: 0 <= i < |p| ==> |p[i].entries| == r
  }

  lemma StacksShaped(ps: seq<Policy>, r: nat, p: seq<PolicyMap>)
    requires ShapedPolicies(ps, r) && Partial(ps, r, p)
    ensures AllShaped(ps, PrefixAll(p, StacksOf(ps[|p|..])), r)
  {
    var rest := StacksOf(ps[|p|..]);
    forall k | 0 <= k < |rest| ensures Shaped(ps, p + rest[k], r) {
      ProductMembers(MapLists(ps[|p|..]), rest[k]);
      forall i | 0 <= i < |ps| ensures |(p + rest[k])[i].entries| == r {
        if i >= |p| {
          assert rest[k][i - |p|] in ps[i].maps;
        }
      }
    }
  }

  lemma StacksCons(ps: seq<Policy>)
    requires ps != []
    ensures StacksOf(ps) == Spread(ps[0].maps, StacksOf(ps[1..]))
  {
    assert MapLists(ps)[1..] == MapLists(ps[1..]);
  }

  // ----- the builder

  class Builder {
    const su: Setup
    const numMethods: nat
    const reqMethods: nat
    const mIdx: array<nat>

    /** Newest policy first. */
    var policies: seq<Policy>
    /** Subsets go_with was called on, in order. */
    ghost var tried: seq<seq<nat>>
    /** Maps of the policy being built, newest first. */
    var currentMaps: seq<PolicyMap>
    var bestDiversity: nat
    /** Provider selections of the policy being built that were evaluated, in order. */
    ghost var selected: seq<seq<string>>

    var bestCost: seq<Amount>
    var bestDuplicates: nat
    var evaluations: nat
    /** Stacks evaluated, in order, and what the best fields held before the first. */
    ghost var evaluated: seq<seq<PolicyMap>>
    ghost var best0: Best
    var bestMap: array<PolicyMap>
    var currMap: array<PolicyMap>

    constructor (su: Setup)
      requires |su.methods| >= 2
      ensures this.su == su && numMethods == |su.methods| && reqMethods == ReqMethods(|su.methods|)
      ensures mIdx.Length == reqMethods && fresh(mIdx)
      ensures policies == [] && tried == [] && bestCost == [] && evaluations == 0
    {
      this.su := su;
      numMethods := |su.methods|;
      reqMethods := ReqMethods(|su.methods|);
      mIdx := new nat[ReqMethods(|su.methods|)];
      policies, tried, currentMaps, bestDiversity, selected := [], [], [], 0, [];
      bestCost, bestDuplicates, evaluations, evaluated, best0 := [], 0, 0, [], Best([], 0, []);
      bestMap, currMap := new PolicyMap[0], new PolicyMap[0];
    }

    ghost predicate Valid()
      reads this
    {
      numMethods == |su.methods| && mIdx.Length == reqMethods && 1 <= reqMethods
    }

    /** Every map of the policy being built has one entry per slot. */
    ghost predicate MapsShaped()
      reads this
    {
      forall m :: m in currentMaps ==> |m.entries| == reqMethods
    }

    /** The maps kept are those to keep of the selections evaluated. */
    ghost predicate KeptSoFar()
      reads this, mIdx
    {
      && MapsShaped()
      && Kept(bestDiversity, currentMaps) == KeepAll(su, policies == [], mIdx[..], Kept(0, []), selected)
    }

    method EquivProvider(p1: string, p2: string) returns (equiv: bool)
      ensures equiv == Equiv(su, p1, p2)
    {
      var j1, j2 := Lookup(su.providers, p1), Lookup(su.providers, p2);
      if j1.None? || j2.None? || j1.value.config.None? || j2.value.config.None? {
        return false;
      }
      var c1, c2 := j1.value.config.value, j2.value.config.value;
      if c1.uploadFee != c2.uploadFee || |c1.offers| != |c2.offers| {
        return false;
      }
      for idx1 := 0 to |c1.offers|
        invariant forall k :: 0 <= k < idx1 ==> c1.offers[k] in c2.offers
      {
        var matched := false;
        for idx2 := 0 to |c2.offers|
          invariant matched <==> c1.offers[idx1] in c2.offers[..idx2]
        {
          if c1.offers[idx1] == c2.offers[idx2] {
            matched := true;
            break;
          }
        }
        if !matched {
          assert c2.offers[..|c2.offers|] == c2.offers;
          return false;
        }
      }
      return true;
    }

    /** The entry for one slot, or None if the provider cannot serve the method. */
    method SlotEntry(mi: nat, url: string) returns (r: Option<PolicyEntry>)
      requires mi < |su.methods|
      ensures r == if Fits(su, mi, url) then Some(PolicyEntry(url, SlotFee(su, mi, url))) else None
    {
      var cfg := Lookup(su.providers, url);
      if cfg.None? || cfg.value.httpStatus != HTTP_OK || cfg.value.config.None? {
        return None;
      }
      var c, m := cfg.value.config.value, su.methods[mi];
      var found := false;
      var usageFee := new CostList();
      for index := 0 to |c.offers|
        invariant fresh(usageFee)
        invariant usageFee.list == FeeUpTo(m, c, index)
        invariant found <==> exists k :: 0 <= k < index && Matches(m, c, c.offers[k])
      {
        if c.offers[index].kind == m.kind && SizeOk(c.sizeLimitMb, m.challengeSize) {
          found := true;
          usageFee.AddCost(c.offers[index].usageFee);
          usageFee.AddCost(c.uploadFee);
        }
      }
      return if found then Some(PolicyEntry(url, usageFee.list)) else None;
    }

    method EvalProviderSelection(provSel: array<string>)
      requires Valid() && MapsShaped() && provSel.Length == reqMethods
      requires forall k :: 0 <= k < reqMethods ==> mIdx[k] < |su.methods|
      modifies `currentMaps, `bestDiversity
      ensures MapsShaped()
      ensures Kept(bestDiversity, currentMaps)
           == KeepStep(su, policies == [], mIdx[..], Kept(old(bestDiversity), old(currentMaps)), provSel[..])
    {
      var policyEnt := new PolicyEntry[reqMethods];
      for i := 0 to reqMethods
        invariant currentMaps == old(currentMaps) && bestDiversity == old(bestDiversity)
        invariant forall k :: 0 <= k < i ==>
                    && Fits(su, mIdx[k], provSel[k])
                    && policyEnt[k] == PolicyEntry(provSel[k], SlotFee(su, mIdx[k], provSel[k]))
      {
        var e := SlotEntry(mIdx[i], provSel[i]);
        if e.None? {
          assert !Fits(su, mIdx[..][i], provSel[..][i]);
          assert !Feasible(su, mIdx[..], provSel[..]);
          return;
        }
        policyEnt[i] := e.value;
      }
      var currDiversity := CountProviders(provSel);
      ghost var m := MapOf(su, mIdx[..], provSel[..]);
      assert policyEnt[..] == m.entries;
      if currDiversity < bestDiversity {
        return;
      }
      if currDiversity > bestDiversity {
        currentMaps := [];
        bestDiversity := currDiversity;
      }
      if policies == [] {
        var equiv := HasEquivalent(policyEnt);
        if equiv {
          return;
        }
      }
      currentMaps := [PolicyMap(policyEnt[..], currDiversity)] + currentMaps;
    }

    method CountProviders(provSel: array<string>) returns (n: nat)
      ensures n == Diversity(provSel[..])
    {
      n := 0;
      assert Elements(provSel[..0]) == {};
      for i := 0 to provSel.Length
        invariant n == |Elements(provSel[..i])|
      {
        var found := false;
        for j := 0 to i
          invariant found <==> provSel[i] in provSel[..j]
        {
          if provSel[i] == provSel[j] {
            found := true;
            assert provSel[..i][j] == provSel[i];
            break;
          }
        }
        assert found <==> provSel[i] in provSel[..i];
        if !found {
          n := n + 1;
        }
        assert provSel[..i + 1] == provSel[..i] + [provSel[i]];
        assert Elements(provSel[..i + 1]) == Elements(provSel[..i]) + {provSel[i]};
        assert found ==> Elements(provSel[..i + 1]) == Elements(provSel[..i]);
      }
      assert provSel[..provSel.Length] == provSel[..];
    }

    method HasEquivalent(policyEnt: array<PolicyEntry>) returns (r: bool)
      ensures r <==> exists k :: 0 <= k < |currentMaps| && EquivEntries(su, currentMaps[k].entries, policyEnt[..])
      requires forall m :: m in currentMaps ==> |m.entries| == policyEnt.Length
    {
      for k := 0 to |currentMaps|
        invariant forall l :: 0 <= l < k ==> !EquivEntries(su, currentMaps[l].entries, policyEnt[..])
      {
        var equiv := true;
        var m := currentMaps[k];
        for i := 0 to policyEnt.Length
          invariant equiv <==> forall l :: 0 <= l < i ==> Equiv(su, m.entries[l].provider, policyEnt[l].provider)
        {
          var e := EquivProvider(m.entries[i].provider, policyEnt[i].provider);
          if !e {
            equiv := false;
            break;
          }
        }
        if equiv {
          return true;
        }
      }
      return false;
    }

    method ProviderCandidate(provSel: array<string>, i: nat)
      requires Valid() && KeptSoFar() && provSel.Length == reqMethods && i < reqMethods
      requires forall k :: 0 <= k < reqMethods ==> mIdx[k] < |su.methods|
      modifies provSel, `currentMaps, `bestDiversity, `selected
      ensures KeptSoFar()
      ensures provSel[..i] == old(provSel[..i])
      ensures selected == old(selected) + PrefixAll(old(provSel[..i]), Selections(su, reqMethods - i))
      decreases reqMethods - i
    {
      hide KeepAll, KeepStep, Spread, Selections, PrefixAll, ActiveUrls;
      ActiveUrlsNone();
      assert su.providers[..0] == [];
      ghost var p, rest := provSel[..i], Selections(su, reqMethods - i - 1);
      ghost var selected0, urls := selected, [];
      NoChoice(p, rest);
      for k := 0 to |su.providers|
        invariant KeptSoFar() && provSel[..i] == p
        invariant urls == ActiveUrls(su.providers[..k])
        invariant selected == selected0 + PrefixAll(p, Spread(urls, rest))
      {
        ActiveUrlsSnoc(su.providers, k);
        var pconfig := su.providers[k];
        if pconfig.httpStatus != HTTP_OK || pconfig.disabled {
          continue;
        }
        PrefixSpreadSnoc(p, urls, pconfig.url, rest);
        Associative(selected0, PrefixAll(p, Spread(urls, rest)), PrefixAll(p + [pconfig.url], rest));
        urls := urls + [pconfig.url];
        provSel[i] := pconfig.url;
        assert provSel[..i + 1] == p + [pconfig.url];
        if i == reqMethods - 1 {
          assert provSel[..] == p + [pconfig.url];
          OneSelection(su, provSel[..]);
          EvalProviderSelection(provSel);
          KeepAllSnoc(su, policies == [], mIdx[..], Kept(0, []), selected, provSel[..]);
          selected := selected + [provSel[..]];
          continue;
        }
        ProviderCandidate(provSel, i + 1);
        assert provSel[..i] == provSel[..i + 1][..i];
      }
      assert su.providers[..|su.providers|] == su.providers;
      SelectionsCons(su, reqMethods - i);
    }

    /** The policies built so far answer the subsets tried so far. */
    ghost predicate PoliciesBuilt()
      reads this
    {
      Answers(su, policies, tried)
    }

    method GoWith()
      requires Valid() && PoliciesBuilt()
      requires forall k :: 0 <= k < reqMethods ==> mIdx[k] < |su.methods|
      modifies `currentMaps, `bestDiversity, `selected, `policies, `tried
      ensures PoliciesBuilt()
      ensures tried == old(tried) + [mIdx[..]]
    {
      hide KeepAll, Spread, Selections, PrefixAll;
      var provSel := new string[reqMethods];
      currentMaps := [];
      bestDiversity := 0;
      selected := [];
      KeepNone(su, policies == [], mIdx[..], Kept(0, []));
      assert provSel[..0] == [];
      ProviderCandidate(provSel, 0);
      NothingBefore(Selections(su, reqMethods));
      AnswersSnoc(su, policies, tried, mIdx[..]);
      policies := [Policy(mIdx[..], currentMaps)] + policies;
      currentMaps := [];
      tried := tried + [mIdx[..]];
    }

    method MethodCandidate(i: nat)
      requires Valid() && PoliciesBuilt() && i < reqMethods
      requires forall k :: 0 <= k < i ==> mIdx[k] < numMethods
      modifies mIdx, `currentMaps, `bestDiversity, `selected, `policies, `tried
      ensures PoliciesBuilt()
      ensures mIdx[..i] == old(mIdx[..i])
      ensures tried == old(tried) + Completions(old(mIdx[..i]), numMethods, reqMethods)
      decreases reqMethods - i
    {
      hide PolicyFor;
      var start := if i > 0 then mIdx[i - 1] + 1 else 0;
      ghost var p := mIdx[..i];
      ghost var goal := tried + From(p, start, numMethods, reqMethods);
      for j := start to numMethods
        invariant PoliciesBuilt()
        invariant mIdx[..i] == p
        invariant tried + From(p, j, numMethods, reqMethods) == goal
      {
        Associative(tried, Completions(p + [j], numMethods, reqMethods), From(p, j + 1, numMethods, reqMethods));
        assert forall k :: 0 <= k < i ==> mIdx[k] == p[k];
        mIdx[i] := j;
        assert mIdx[..i + 1] == p + [j];
        if i == reqMethods - 1 {
          assert mIdx[..] == p + [j];
          GoWith();
          continue;
        }
        MethodCandidate(i + 1);
        assert mIdx[..i] == mIdx[..i + 1][..i];
      }
    }

    /** Tries every subset once and builds its policy. */
    method BuildPolicies()
      requires Valid() && numMethods >= 2 && reqMethods == ReqMethods(numMethods)
      requires policies == [] && tried == []
      modifies mIdx, `currentMaps, `bestDiversity, `selected, `policies, `tried
      ensures tried == SubsetsFor(numMethods)
      ensures policies == PoliciesOf(su)
    {
      MethodCandidate(0);
      assert old(mIdx[..0]) == [];
      AllCompletions(numMethods, reqMethods);
      assert tried == [] + SubsetsFor(numMethods) == SubsetsFor(numMethods);
      AnswersUnique(su, policies, PoliciesOf(su), SubsetsFor(numMethods));
    }

    // ----- the search for the cheapest stack

    ghost predicate SearchReady()
      reads this, currMap, bestMap
    {
      && 1 <= reqMethods && ShapedPolicies(policies, reqMethods)
      && bestMap != currMap && bestMap.Length == currMap.Length == |policies|
      && Unique(bestCost)
    }

    ghost function BestSoFar(): Best
      reads this, bestMap
    {
      Best(bestCost, bestDuplicates, bestMap[..])
    }

    /** Compares slot (i, j) with every slot of the policies before policy i. */
    method CheckDuplicates(i: nat, j: nat, duplicates0: nat, ghost n: nat) returns (found: bool, duplicates: nat)
      requires duplicates0 == Wrap(n)
      requires Shaped(policies, currMap[..], reqMethods) && i < |policies| == currMap.Length && j < reqMethods
      ensures found <==> Found(policies, currMap[..], reqMethods, i, j)
      ensures duplicates == Wrap(n + |Clashes(policies, currMap[..], reqMethods, i, j)|)
    {
      ghost var st, r := currMap[..], reqMethods;
      found, duplicates := false, duplicates0;
      assert ClashesUpTo(policies, st, r, i, j, 0, 0) == {};
      for i2 := 0 to i
        invariant found <==> FoundUpTo(policies, st, r, i, j, i2, 0)
        invariant duplicates == Wrap(n + |ClashesUpTo(policies, st, r, i, j, i2, 0)|)
      {
        for j2 := 0 to reqMethods
          invariant found <==> FoundUpTo(policies, st, r, i, j, i2, j2)
          invariant duplicates == Wrap(n + |ClashesUpTo(policies, st, r, i, j, i2, j2)|)
        {
          UpToSnoc(policies, st, r, i, j, i2, j2);
          if policies[i].challenges[j] != policies[i2].challenges[j2] {
            continue;
          }
          if currMap[i].entries[j].provider == currMap[i2].entries[j2].provider {
            found := true;
          } else {
            WrapNext(n + |ClashesUpTo(policies, st, r, i, j, i2, j2)|);
            duplicates := Increment(duplicates);
          }
        }
        UpToNextRow(policies, st, r, i, j, i2);
      }
    }

    /** First half of evaluate_map: cost and duplicates of the stack in currMap. */
    method AssessStack() returns (cost: seq<Amount>, duplicates: nat)
      requires Shaped(policies, currMap[..], reqMethods) && currMap.Length == |policies|
      ensures cost == StackCost(policies, currMap[..], reqMethods)
      ensures duplicates == Wrap(StackClashes(policies, currMap[..], reqMethods))
    {
      hide Found, Clashes;
      ghost var st, r := currMap[..], reqMethods;
      var myCost := new CostList();
      duplicates := 0;
      for i := 0 to |policies|
        invariant fresh(myCost)
        invariant myCost.list == CostUpTo(policies, st, r, i, 0)
        invariant duplicates == Wrap(ClashCount(policies, st, r, i, 0))
      {
        for j := 0 to reqMethods
          invariant fresh(myCost)
          invariant myCost.list == CostUpTo(policies, st, r, i, j)
          invariant duplicates == Wrap(ClashCount(policies, st, r, i, j))
        {
          var found;
          found, duplicates := CheckDuplicates(i, j, duplicates, ClashCount(policies, st, r, i, j));
          if !found {
            myCost.AddCosts(currMap[i].entries[j].usageFee);
          }
        }
      }
      cost := myCost.list;
    }

    method EvaluateMap(numPolicies: nat)
      requires SearchReady() && numPolicies == |policies| && Shaped(policies, currMap[..], reqMethods)
      modifies `bestCost, `bestDuplicates, bestMap
      ensures SearchReady()
      ensures BestSoFar() == EvalStep(policies, reqMethods, old(BestSoFar()), currMap[..])
    {
      ghost var st := currMap[..];
      var myCost, duplicates := AssessStack();
      CostUnique(policies, st, reqMethods, |policies|, 0);
      if bestDuplicates != UINT_MAX {
        var ccmp := CompareCosts(myCost, bestCost);
        if ccmp < 0 {
          return;
        }
        if ccmp == 0 && duplicates > bestDuplicates {
          return;
        }
      }
      bestCost := myCost;
      bestDuplicates := duplicates;
      forall k | 0 <= k < numPolicies {
        bestMap[k] := currMap[k];
      }
      assert bestMap[..] == st && currMap[..] == st;
      assert BestSoFar() == Best(myCost, duplicates, st);
    }

    /** Evaluations so far are counted, and the best fields reflect them. */
    ghost predicate Searched()
      reads this, currMap, bestMap
    {
      && SearchReady() && evaluations == |evaluated|
      && AllShaped(policies, evaluated, reqMethods)
      && BestSoFar() == EvalAll(policies, reqMethods, best0, evaluated)
    }

    method FindBestMap(pos: seq<Policy>, off: nat)
      requires Searched() && off <= |policies| && pos == policies[off..]
      requires Partial(policies, reqMethods, currMap[..off])
      requires evaluations < MAX_EVALUATIONS
      modifies `bestCost, `bestDuplicates, `evaluations, `evaluated, bestMap, currMap
      ensures Searched()
      ensures currMap[..off] == old(currMap[..off])
      ensures evaluated == Bounded(old(evaluated) + Leaves(old(currMap[..off]), pos))
      decreases |pos|
    {
      hide EvalAll, StackCost, StackClashes, Shaped;
      ghost var p := currMap[..off];
      if pos == [] {
        assert currMap[..] == p;
        Evaluated();
        return;
      }
      ghost var goal := Bounded(evaluated + LeavesFrom(p, pos, 0));
      for k := 0 to |pos[0].maps|
        invariant Searched()
        invariant currMap[..off] == p
        invariant evaluations < MAX_EVALUATIONS
        invariant Bounded(evaluated + LeavesFrom(p, pos, k)) == goal
      {
        var pm := pos[0].maps[k];
        BoundedStep(evaluated, Leaves(p + [pm], pos[1..]), LeavesFrom(p, pos, k + 1));
        assert pm in policies[off].maps;
        currMap[off] := pm;
        assert currMap[..off + 1] == p + [pm];
        FindBestMap(pos[1..], off + 1);
        assert currMap[..off] == currMap[..off + 1][..off];
        if evaluations >= MAX_EVALUATIONS {
          BoundedFull(evaluated, LeavesFrom(p, pos, k + 1));
          return;
        }
      }
      BoundedShort(evaluated);
    }

    /** The stack is complete: evaluate it and count it. */
    method Evaluated()
      requires Searched() && Partial(policies, reqMethods, currMap[..])
      modifies `bestCost, `bestDuplicates, `evaluations, `evaluated, bestMap
      ensures Searched()
      ensures evaluated == old(evaluated) + [currMap[..]]
    {
      hide EvalAll, EvalStep;
      EvaluateMap(|policies|);
      evaluations := evaluations + 1;
      EvalAllSnoc(policies, reqMethods, best0, evaluated, currMap[..]);
      evaluated := evaluated + [currMap[..]];
    }

    /** Runs the search. If some policy has no map, nothing is evaluated and best stays as allocated. */
    method Search()
      requires Valid() && ShapedPolicies(policies, reqMethods)
      requires evaluations == 0 && bestCost == []
      modifies this
      ensures policies == old(policies) && SearchReady()
      ensures evaluated == BoundedStacks(policies) && evaluations == |evaluated|
      ensures AllShaped(policies, evaluated, reqMethods) && best0.clashes == UINT_MAX
      ensures BestSoFar() == EvalAll(policies, reqMethods, best0, evaluated)
      ensures evaluated != [] <==> NoneEmpty(policies)
    {
      bestMap := new PolicyMap[|policies|];
      currMap := new PolicyMap[|policies|];
      bestDuplicates := UINT_MAX;
      evaluated, best0 := [], Best([], UINT_MAX, bestMap[..]);
      assert currMap[..0] == [];
      FindBestMap(policies, 0);
      LeavesAreStacks([], policies);
      PrefixAllEmpty(StacksOf(policies));
      assert [] + StacksOf(policies) == StacksOf(policies);
      StacksExist(policies);
    }

    /** Runs the search and reports the stack it settled on. */
    method SelectPolicies() returns (out: seq<seq<MethodUse>>)
      requires Valid() && ShapedPolicies(policies, reqMethods)
      requires NoneEmpty(policies)
      requires evaluations == 0 && bestCost == []
      modifies this
      ensures policies == old(policies)
      ensures evaluations == |BoundedStacks(policies)|
      ensures Shaped(policies, SearchResult(policies, reqMethods).stack, reqMethods)
      ensures out == Render(policies, SearchResult(policies, reqMethods).stack, reqMethods)
    {
      Search();
      SearchSettles(policies, reqMethods, best0);
      out := Report();
    }

    /** Converts the best maps into the policies array. */
    method Report() returns (out: seq<seq<MethodUse>>)
      requires Shaped(policies, bestMap[..], reqMethods)
      ensures out == Render(policies, bestMap[..], reqMethods)
    {
      ghost var goal := Render(policies, bestMap[..], reqMethods);
      out := [];
      for i := 0 to |policies|
        invariant out == goal[..i]
      {
        var methodArr := [];
        for j := 0 to reqMethods
          invariant methodArr == goal[i][..j]
        {
          methodArr := methodArr + [MethodUse(policies[i].challenges[j], bestMap[i].entries[j].provider)];
        }
        assert methodArr == goal[i];
        out := out + [methodArr];
      }
    }
  }

  /** The policies as reported: the challenges with the providers of the best maps. */
  function Render(ps: seq<Policy>, st: seq<PolicyMap>, r: nat): (out: seq<seq<MethodUse>>)
    requires |ps| == |st|
    requires forall i :: 0 <= i < |ps| ==> |ps[i].challenges| == |st[i].entries| == r
    ensures |out| == |ps|
    ensures forall i :: 0 <= i < |ps| ==> |out[i]| == r
    ensures forall i, j :: 0 <= i < |ps| && 0 <= j < r ==>
              out[i][j] == MethodUse(ps[i].challenges[j], st[i].entries[j].provider)
  {
    seq(|ps|, i requires 0 <= i < |ps| =>
      seq(r, j requires 0 <= j < r => MethodUse(ps[i].challenges[j], st[i].entries[j].provider)))
  }

  ghost function Bounded(s: seq<seq<PolicyMap>>): seq<seq<PolicyMap>> {
    if |s| > MAX_EVALUATIONS then s[..MAX_EVALUATIONS] else s
  }

  lemma BoundedStep(e: seq<seq<PolicyMap>>, a: seq<seq<PolicyMap>>, b: seq<seq<PolicyMap>>)
    requires |e| < MAX_EVALUATIONS
    ensures Bounded(Bounded(e + a) + b) == Bounded(e + (a + b))
  {
  }

  lemma BoundedFull(e: seq<seq<PolicyMap>>, b: seq<seq<PolicyMap>>)
    requires |e| == MAX_EVALUATIONS
    ensures Bounded(e + b) == e
  {
  }

  lemma BoundedShort(e: seq<seq<PolicyMap>>)
    ensures |e| < MAX_EVALUATIONS ==> Bounded(e + []) == e
  {
    assert e + [] == e;
  }

  /** All ways to complete the stack p with maps of the policies pos, as the recursion finds them. */
  ghost function Leaves(p: seq<PolicyMap>, pos: seq<Policy>): seq<seq<PolicyMap>>
    decreases |pos|, 0
  {
    if pos == [] then [p] else LeavesFrom(p, pos, 0)
  }

  ghost function LeavesFrom(p: seq<PolicyMap>, pos: seq<Policy>, k: nat): seq<seq<PolicyMap>>
    requires pos != [] && k <= |pos[0].maps|
    decreases |pos| - 1, |pos[0].maps| - k + 1
  {
    if k == |pos[0].maps| then []
    else Leaves(p + [pos[0].maps[k]], pos[1..]) + LeavesFrom(p, pos, k + 1)
  }

  lemma {:induction false} LeavesAreStacks(p: seq<PolicyMap>, pos: seq<Policy>)
    ensures Leaves(p, pos) == PrefixAll(p, StacksOf(pos))
    decreases |pos|, 0
  {
    if pos == [] {
      assert PrefixAll(p, [[]])[0] == p;
    } else {
      LeavesFromSpread(p, pos, 0);
      StacksCons(pos);
    }
  }

  lemma {:induction false} LeavesFromSpread(p: seq<PolicyMap>, pos: seq<Policy>, k: nat)
    requires pos != [] && k <= |pos[0].maps|
    ensures LeavesFrom(p, pos, k) == PrefixAll(p, Spread(pos[0].maps[k..], StacksOf(pos[1..])))
    decreases |pos| - 1, |pos[0].maps| - k + 1
  {
    var xs, tails := pos[0].maps, StacksOf(pos[1..]);
    if k < |xs| {
      LeavesAreStacks(p + [xs[k]], pos[1..]);
      LeavesFromSpread(p, pos, k + 1);
      SpreadCons(xs[k], xs[k + 1..], tails);
      assert xs[k..] == [xs[k]] + xs[k + 1..];
      PrefixAllConcat(p, PrependAll(xs[k], tails), Spread(xs[k + 1..], tails));
      PrefixAllPrepend(p, xs[k], tails);
    }
  }

  lemma SpreadCons(x: PolicyMap, xs: seq<PolicyMap>, tails: seq<seq<PolicyMap>>)
    ensures Spread([x] + xs, tails) == PrependAll(x, tails) + Spread(xs, tails)
  {
    SpreadConcat([x], xs, tails);
    assert [x][..0] == [];
    assert Spread([x], tails) == PrependAll(x, tails);
  }

  /** The stacks that are evaluated: all of them, or as many as the limit allows. */
  ghost function BoundedStacks(ps: seq<Policy>): seq<seq<PolicyMap>> {
    Bounded(StacksOf(ps))
  }

  lemma BoundedStacksShaped(ps: seq<Policy>, r: nat)
    requires ShapedPolicies(ps, r)
    ensures AllShaped(ps, StacksOf(ps), r) && AllShaped(ps, BoundedStacks(ps), r)
  {
    StacksShaped(ps, r, []);
    PrefixAllEmpty(StacksOf(ps));
    assert ps[0..] == ps;
  }

  ghost function SearchResult(ps: seq<Policy>, r: nat): Best
    requires ShapedPolicies(ps, r)
  {
    BoundedStacksShaped(ps, r);
    EvalAll(ps, r, Best([], UINT_MAX, []), BoundedStacks(ps))
  }

  /** Whatever best held before, after one stack it holds that stack or a later one. */
  lemma {:induction false} FirstEvaluationSets(ps: seq<Policy>, r: nat, a: Best, b: Best, sts: seq<seq<PolicyMap>>)
    requires AllShaped(ps, sts, r) && sts != [] && a.clashes == b.clashes == UINT_MAX
    ensures EvalAll(ps, r, a, sts) == EvalAll(ps, r, b, sts)
    ensures EvalAll(ps, r, a, sts).stack in sts
  {
    var front, st := sts[..|sts| - 1], sts[|sts| - 1];
    if front != [] {
      FirstEvaluationSets(ps, r, a, b, front);
    }
    assert sts == front + [st];
  }

  lemma SearchSettles(ps: seq<Policy>, r: nat, b: Best)
    requires ShapedPolicies(ps, r) && b.clashes == UINT_MAX
    requires NoneEmpty(ps)
    ensures AllShaped(ps, BoundedStacks(ps), r) && BoundedStacks(ps) != []
    ensures EvalAll(ps, r, b, BoundedStacks(ps)) == SearchResult(ps, r)
    ensures SearchResult(ps, r).stack in BoundedStacks(ps)
    ensures Shaped(ps, SearchResult(ps, r).stack, r)
  {
    BoundedStacksShaped(ps, r);
    StacksExist(ps);
    FirstEvaluationSets(ps, r, b, Best([], UINT_MAX, []), BoundedStacks(ps));
    var k :| 0 <= k < |BoundedStacks(ps)| && BoundedStacks(ps)[k] == SearchResult(ps, r).stack;
  }

  /** Some stack is evaluated exactly if no policy is without a map. */
  lemma StacksExist(ps: seq<Policy>)
    ensures BoundedStacks(ps) != [] <==> NoneEmpty(ps)
  {
    if NoneEmpty(ps) {
      var pick := seq(|ps|, i requires 0 <= i < |ps| => ps[i].maps[0]);
      ProductMembers(MapLists(ps), pick);
    }
    if BoundedStacks(ps) != [] {
      var st := StacksOf(ps)[0];
      assert st in StacksOf(ps);
      ProductMembers(MapLists(ps), st);
      forall i | 0 <= i < |ps| ensures ps[i].maps != [] {
        assert st[i] in MapLists(ps)[i];
      }
    }
  }

  lemma OneSelection(su: Setup, sel: seq<string>)
    ensures PrefixAll(sel, Selections(su, 0)) == [sel]
  {
    assert PrefixAll(sel, [[]])[0] == sel;
  }

  lemma SelectionsCons(su: Setup, r: nat)
    requires r > 0
    ensures Selections(su, r) == Spread(ActiveUrls(su.providers), Selections(su, r - 1))
  {
    assert seq(r, i => ActiveUrls(su.providers))[1..] == seq(r - 1, i => ActiveUrls(su.providers));
  }

  // ----- done_authentication

  datatype Outcome = Failed(hint: string) | Policies(list: seq<seq<MethodUse>>)

  /** The subsets for n methods, in the order they are tried. */
  ghost function SubsetsFor(n: nat): seq<seq<nat>>
    requires n >= 2
  {
    Combos(0, n, ReqMethods(n))
  }

  /** The policies built for a setup, newest first. */
  ghost function PoliciesOf(su: Setup): (ps: seq<Policy>)
    requires |su.methods| >= 2
    ensures Answers(su, ps, SubsetsFor(|su.methods|))
  {
    AnswersTo(su, SubsetsFor(|su.methods|))
  }

  ghost function AnswersTo(su: Setup, tried: seq<seq<nat>>): (ps: seq<Policy>)
    ensures Answers(su, ps, tried)
  {
    if tried == [] then []
    else
      var front, last := tried[..|tried| - 1], tried[|tried| - 1];
      AnswersSnoc(su, AnswersTo(su, front), front, last);
      assert tried == front + [last];
      [PolicyFor(su, front == [], last)] + AnswersTo(su, front)
  }

  lemma AnswersUnique(su: Setup, ps: seq<Policy>, qs: seq<Policy>, tried: seq<seq<nat>>)
    requires Answers(su, ps, tried) && Answers(su, qs, tried)
    ensures ps == qs
  {
    forall i | 0 <= i < |ps| ensures ps[i] == qs[i] {
      var k := |tried| - 1 - i;
      assert ps[|tried| - 1 - k] == PolicyFor(su, k == 0, tried[k]) == qs[|tried| - 1 - k];
    }
  }

  ghost predicate AllServed(su: Setup) {
    forall mi :: 0 <= mi < |su.methods| ==> Served(su, mi)
  }

  lemma PolicyShaped(su: Setup, first: bool, c: seq<nat>)
    requires ValidSetup(su) && c != []
    ensures forall m :: m in PolicyFor(su, first, c).maps ==> |m.entries| == |c|
  {
    KeptAreMostDiverse(su, first, c);
  }

  lemma PoliciesShaped(su: Setup)
    requires ValidSetup(su) && |su.methods| >= 2
    ensures ShapedPolicies(PoliciesOf(su), ReqMethods(|su.methods|))
    ensures DistinctChallenges(PoliciesOf(su))
  {
    var n := |su.methods|;
    var ps, subs := PoliciesOf(su), SubsetsFor(n);
    forall i | 0 <= i < |ps|
      ensures |ps[i].challenges| == ReqMethods(n) && NoDuplicates(ps[i].challenges)
      ensures forall m :: m in ps[i].maps ==> |m.entries| == ReqMethods(n)
    {
      var k := |subs| - 1 - i;
      assert ps[|subs| - 1 - k] == PolicyFor(su, k == 0, subs[k]);
      CombosMembers(0, n, ReqMethods(n), subs[k]);
      PolicyShaped(su, k == 0, subs[k]);
    }
  }

  ghost predicate NoneEmpty(ps: seq<Policy>) {
    forall i :: 0 <= i < |ps| ==> ps[i].maps != []
  }

  /** No policy lacks a map exactly when every method is served by an active provider. */
  lemma NoEmptyPolicy(su: Setup)
    requires ValidSetup(su) && |su.methods| >= 2
    ensures NoneEmpty(PoliciesOf(su)) <==> AllServed(su)
  {
    if AllServed(su) {
      ServedGivesMaps(su);
    } else {
      UnservedGivesEmpty(su);
    }
  }

  lemma ServedGivesMaps(su: Setup)
    requires ValidSetup(su) && |su.methods| >= 2 && AllServed(su)
    ensures NoneEmpty(PoliciesOf(su))
  {
    hide Served, Combos, MapsFor, PoliciesOf;
    var n, ps, subs := |su.methods|, PoliciesOf(su), SubsetsFor(|su.methods|);
    forall i | 0 <= i < |ps| ensures ps[i].maps != [] {
      var k := |subs| - 1 - i;
      PolicyServed(su, k);
      CombosMembers(0, n, ReqMethods(n), subs[k]);
    }
  }

  lemma UnservedGivesEmpty(su: Setup)
    requires ValidSetup(su) && |su.methods| >= 2 && !AllServed(su)
    ensures !NoneEmpty(PoliciesOf(su))
  {
    hide Served, Combos, MapsFor, PoliciesOf;
    var n, ps, subs := |su.methods|, PoliciesOf(su), SubsetsFor(|su.methods|);
    var mi :| 0 <= mi < n && !Served(su, mi);
    var c := SubsetWith(n, ReqMethods(n), mi);
    var k :| 0 <= k < |subs| && subs[k] == c;
    PolicyServed(su, k);
    assert ps[|subs| - 1 - k].maps == [];
  }

  lemma PolicyServed(su: Setup, k: nat)
    requires ValidSetup(su) && |su.methods| >= 2 && k < |SubsetsFor(|su.methods|)|
    ensures var subs := SubsetsFor(|su.methods|);
            PoliciesOf(su)[|subs| - 1 - k].maps != [] <==> forall mi :: mi in subs[k] ==> Served(su, mi)
  {
    hide Served, Combos, MapsFor;
    var n, subs := |su.methods|, SubsetsFor(|su.methods|);
    assert PoliciesOf(su)[|subs| - 1 - k] == PolicyFor(su, k == 0, subs[k]);
    CombosMembers(0, n, ReqMethods(n), subs[k]);
    NonEmptyIffServed(su, k == 0, subs[k]);
  }

  /** Every method is in some subset. */
  lemma SubsetWith(n: nat, r: nat, mi: nat) returns (c: seq<nat>)
    requires mi < n && 1 <= r <= n
    ensures c in Combos(0, n, r) && mi in c
  {
    var lo := if mi + r <= n then mi else n - r;
    c := seq(r, i requires 0 <= i < r => lo + i);
    CombosMembers(0, n, r, c);
    assert c[mi - lo] == mi;
  }

  /** done_authentication up to the policies array; the provider list of the state is not built here. */
  method DoneAuthentication(su: Setup) returns (r: Outcome)
    requires ValidSetup(su)
    requires |su.methods| >= 2 ==> AllServed(su)
    ensures |su.methods| == 0 ==> r == Failed("'authentication_methods' must not be empty")
    ensures |su.methods| == 1 ==> r == Failed("Two factor authentication (2-FA) is required")
    ensures |su.methods| >= 2 ==>
              && ShapedPolicies(PoliciesOf(su), ReqMethods(|su.methods|))
              && var st := SearchResult(PoliciesOf(su), ReqMethods(|su.methods|)).stack;
              && Shaped(PoliciesOf(su), st, ReqMethods(|su.methods|))
              && r == Policies(Render(PoliciesOf(su), st, ReqMethods(|su.methods|)))
  {
    if |su.methods| == 0 {
      return Failed("'authentication_methods' must not be empty");
    }
    if |su.methods| == 1 {
      return Failed("Two factor authentication (2-FA) is required");
    }
    var pb := new Builder(su);
    pb.BuildPolicies();
    PoliciesShaped(su);
    NoEmptyPolicy(su);
    var list := pb.SelectPolicies();
    return Policies(list);
  }
}
