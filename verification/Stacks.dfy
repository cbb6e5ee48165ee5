/**
 * Stacks of policy maps, one map per policy: what a stack costs, how many challenges it places
 * twice, and which of several stacks the search keeps.
 */
module Stacks {
  import opened Sequences
  import opened Costs
  import opened Providers

  /** A policy: its challenges, and the provider maps worth considering for it. */
  datatype Policy = Policy(challenges: seq<nat>, maps: seq<PolicyMap>)

  const UINT_MAX: nat := 0xFFFF_FFFF

  /** The value of an unsigned 32-bit counter after n increments. */
  function Wrap(n: nat): (r: nat)
    ensures r <= UINT_MAX && exists q :: n == q * 0x1_0000_0000 + r
  {
    assert n == (n / (UINT_MAX + 1)) * 0x1_0000_0000 + n % (UINT_MAX + 1);
    n % (UINT_MAX + 1)
  }

  function Increment(n: nat): nat {
    if n >= UINT_MAX then 0 else n + 1
  }

  lemma WrapNext(n: nat)
    ensures Wrap(n + 1) == Increment(Wrap(n))
  {
  }

  /** One map per policy, one entry per challenge. */
  ghost predicate Shaped(ps: seq<Policy>, st: seq<PolicyMap>, r: nat) {
    && |st| == |ps|
    && forall i :: 0 <= i < |ps| ==> |ps[i].challenges| == r && |st[i].entries| == r
  }

  ghost predicate SameChallenge(ps: seq<Policy>, r: nat, i: nat, j: nat, i2: nat, j2: nat)
    requires i < |ps| && i2 < |ps| && j < r && j2 < r
    requires |ps[i].challenges| == r && |ps[i2].challenges| == r
  {
    ps[i].challenges[j] == ps[i2].challenges[j2]
  }

  ghost predicate SameProvider(st: seq<PolicyMap>, r: nat, i: nat, j: nat, i2: nat, j2: nat)
    requires i < |st| && i2 < |st| && j < r && j2 < r
    requires |st[i].entries| == r && |st[i2].entries| == r
  {
    st[i].entries[j].provider == st[i2].entries[j2].provider
  }

  /** An earlier policy puts the challenge of slot (i, j) at the same provider. */
  ghost predicate Found(ps: seq<Policy>, st: seq<PolicyMap>, r: nat, i: nat, j: nat)
    requires Shaped(ps, st, r) && i < |ps| && j < r
  {
    exists i2: nat, j2: nat :: i2 < i && j2 < r && SameChallenge(ps, r, i, j, i2, j2) &&
      SameProvider(st, r, i, j, i2, j2)
  }

  /** Earlier slots with the challenge of slot (i, j) at another provider, up to slot (i2, j2). */
  ghost function ClashesUpTo(ps: seq<Policy>, st: seq<PolicyMap>, r: nat, i: nat, j: nat,
                             i2: nat, j2: nat): set<(nat, nat)>
    requires Shaped(ps, st, r) && i < |ps| && j < r && i2 <= i && j2 <= r
  {
    set k: nat, l: nat | k < i && l < r && (k < i2 || (k == i2 && l < j2))
                         && SameChallenge(ps, r, i, j, k, l) && !SameProvider(st, r, i, j, k, l) :: (k, l)
  }

  /** As Found, for the slots before (i2, j2) only. */
  ghost predicate FoundUpTo(ps: seq<Policy>, st: seq<PolicyMap>, r: nat, i: nat, j: nat, i2: nat, j2: nat)
    requires Shaped(ps, st, r) && i < |ps| && j < r && i2 <= i && j2 <= r
  {
    exists k: nat, l: nat :: k < i && l < r && (k < i2 || (k == i2 && l < j2))
                             && SameChallenge(ps, r, i, j, k, l) && SameProvider(st, r, i, j, k, l)
  }

  /** One more slot looked at. */
  lemma UpToSnoc(ps: seq<Policy>, st: seq<PolicyMap>, r: nat, i: nat, j: nat, i2: nat, j2: nat)
    requires Shaped(ps, st, r) && i < |ps| && j < r && i2 < i && j2 < r
    ensures var same, at := SameChallenge(ps, r, i, j, i2, j2), SameProvider(st, r, i, j, i2, j2);
            && (FoundUpTo(ps, st, r, i, j, i2, j2 + 1) <==> FoundUpTo(ps, st, r, i, j, i2, j2) || (same && at))
            && |ClashesUpTo(ps, st, r, i, j, i2, j2 + 1)|
               == |ClashesUpTo(ps, st, r, i, j, i2, j2)| + (if same && !at then 1 else 0)
  {
    hide SameChallenge, SameProvider;
    var a, b := ClashesUpTo(ps, st, r, i, j, i2, j2), ClashesUpTo(ps, st, r, i, j, i2, j2 + 1);
    if SameChallenge(ps, r, i, j, i2, j2) && !SameProvider(st, r, i, j, i2, j2) {
      assert b == a + {(i2, j2)};
    } else {
      assert b == a;
    }
  }

  lemma UpToNextRow(ps: seq<Policy>, st: seq<PolicyMap>, r: nat, i: nat, j: nat, i2: nat)
    requires Shaped(ps, st, r) && i < |ps| && j < r && i2 < i
    ensures FoundUpTo(ps, st, r, i, j, i2 + 1, 0) <==> FoundUpTo(ps, st, r, i, j, i2, r)
    ensures ClashesUpTo(ps, st, r, i, j, i2 + 1, 0) == ClashesUpTo(ps, st, r, i, j, i2, r)
  {
  }

  ghost function Clashes(ps: seq<Policy>, st: seq<PolicyMap>, r: nat, i: nat, j: nat): set<(nat, nat)>
    requires Shaped(ps, st, r) && i < |ps| && j < r
  {
    ClashesUpTo(ps, st, r, i, j, i, 0)
  }

  /** The cost list after all slots before (i, j). */
  ghost function CostUpTo(ps: seq<Policy>, st: seq<PolicyMap>, r: nat, i: nat, j: nat): seq<Amount>
    requires Shaped(ps, st, r) && i <= |ps| && j <= r && (i == |ps| ==> j == 0)
    decreases i, j
  {
    if j > 0 then
      var cost := CostUpTo(ps, st, r, i, j - 1);
      if Found(ps, st, r, i, j - 1) then cost else AddedAll(cost, st[i].entries[j - 1].usageFee)
    else if i > 0 then CostUpTo(ps, st, r, i - 1, r)
    else []
  }

  /** The penalty counter after all slots before (i, j), without wrap-around. */
  ghost function ClashCount(ps: seq<Policy>, st: seq<PolicyMap>, r: nat, i: nat, j: nat): nat
    requires Shaped(ps, st, r) && i <= |ps| && j <= r && (i == |ps| ==> j == 0)
    decreases i, j
  {
    if j > 0 then ClashCount(ps, st, r, i, j - 1) + |Clashes(ps, st, r, i, j - 1)|
    else if i > 0 then ClashCount(ps, st, r, i - 1, r)
    else 0
  }

  ghost function StackCost(ps: seq<Policy>, st: seq<PolicyMap>, r: nat): seq<Amount>
    requires Shaped(ps, st, r)
  {
    CostUpTo(ps, st, r, |ps|, 0)
  }

  ghost function StackClashes(ps: seq<Policy>, st: seq<PolicyMap>, r: nat): nat
    requires Shaped(ps, st, r)
  {
    ClashCount(ps, st, r, |ps|, 0)
  }

  // ----- what a stack costs

  /** Challenges are not repeated within a policy. */
  ghost predicate DistinctChallenges(ps: seq<Policy>) {
    forall i :: 0 <= i < |ps| ==> NoDuplicates(ps[i].challenges)
  }

  /** The (challenge, provider) pairs of the slots before (i, j). */
  ghost function PairsUpTo(ps: seq<Policy>, st: seq<PolicyMap>, r: nat, i: nat, j: nat): set<(nat, string)>
    requires Shaped(ps, st, r) && i <= |ps| && j <= r
  {
    set k: nat, l: nat | k < |ps| && l < r && (k < i || (k == i && l < j))
                         :: (ps[k].challenges[l], st[k].entries[l].provider)
  }

  ghost function Pairs(ps: seq<Policy>, st: seq<PolicyMap>, r: nat): set<(nat, string)>
    requires Shaped(ps, st, r)
  {
    PairsUpTo(ps, st, r, |ps|, 0)
  }

  /** The fee of a slot depends on its challenge and provider only. */
  ghost predicate FeesBy(ps: seq<Policy>, st: seq<PolicyMap>, r: nat, currency: string, fee: ((nat, string)) -> nat)
    requires Shaped(ps, st, r)
  {
    forall i, j :: 0 <= i < |ps| && 0 <= j < r ==>
      Total(st[i].entries[j].usageFee, currency) == fee((ps[i].challenges[j], st[i].entries[j].provider))
  }

  lemma PairsSnoc(ps: seq<Policy>, st: seq<PolicyMap>, r: nat, i: nat, j: nat)
    requires Shaped(ps, st, r) && i < |ps| && j < r && DistinctChallenges(ps)
    ensures PairsUpTo(ps, st, r, i, j + 1)
      == PairsUpTo(ps, st, r, i, j) + {(ps[i].challenges[j], st[i].entries[j].provider)}
    ensures (ps[i].challenges[j], st[i].entries[j].provider) in PairsUpTo(ps, st, r, i, j) <==> Found(ps, st, r, i, j)
  {
    var pair := (ps[i].challenges[j], st[i].entries[j].provider);
    if pair in PairsUpTo(ps, st, r, i, j) {
      var k: nat, l: nat :| k < |ps| && l < r && (k < i || (k == i && l < j))
                            && pair == (ps[k].challenges[l], st[k].entries[l].provider);
      assert k < i && SameChallenge(ps, r, i, j, k, l) && SameProvider(st, r, i, j, k, l);
    }
    if Found(ps, st, r, i, j) {
      var k: nat, l: nat :| k < i && l < r && SameChallenge(ps, r, i, j, k, l) && SameProvider(st, r, i, j, k, l);
      assert pair == (ps[k].challenges[l], st[k].entries[l].provider);
    }
  }

  /**
   * The cost list charges, in each currency, the fee of every (challenge, provider) pair in use
   * exactly once, and has one entry per currency.
   */
  lemma {:induction false} CostIsSumOverPairs(ps: seq<Policy>, st: seq<PolicyMap>, r: nat, i: nat, j: nat,
                                              currency: string, fee: ((nat, string)) -> nat)
    requires Shaped(ps, st, r) && i <= |ps| && j <= r && (i == |ps| ==> j == 0)
    requires DistinctChallenges(ps) && FeesBy(ps, st, r, currency, fee)
    ensures Total(CostUpTo(ps, st, r, i, j), currency) == SumOver(PairsUpTo(ps, st, r, i, j), fee)
    ensures Unique(CostUpTo(ps, st, r, i, j))
    decreases i, j
  {
    if j > 0 {
      CostIsSumOverPairs(ps, st, r, i, j - 1, currency, fee);
      SlotCharged(ps, st, r, i, j - 1, currency, fee);
    } else if i > 0 {
      CostIsSumOverPairs(ps, st, r, i - 1, r, currency, fee);
      assert PairsUpTo(ps, st, r, i, 0) == PairsUpTo(ps, st, r, i - 1, r);
    } else {
      assert PairsUpTo(ps, st, r, 0, 0) == {};
    }
  }

  /** A slot is charged when its pair is new. */
  lemma SlotCharged(ps: seq<Policy>, st: seq<PolicyMap>, r: nat, i: nat, j: nat,
                    currency: string, fee: ((nat, string)) -> nat)
    requires Shaped(ps, st, r) && i < |ps| && j < r
    requires DistinctChallenges(ps) && FeesBy(ps, st, r, currency, fee)
    requires Unique(CostUpTo(ps, st, r, i, j))
    requires Total(CostUpTo(ps, st, r, i, j), currency) == SumOver(PairsUpTo(ps, st, r, i, j), fee)
    ensures Unique(CostUpTo(ps, st, r, i, j + 1))
    ensures Total(CostUpTo(ps, st, r, i, j + 1), currency) == SumOver(PairsUpTo(ps, st, r, i, j + 1), fee)
  {
    var pairs, pair := PairsUpTo(ps, st, r, i, j), (ps[i].challenges[j], st[i].entries[j].provider);
    PairsSnoc(ps, st, r, i, j);
    SumOverInsert(pairs, fee, pair);
    TotalAddedAll(CostUpTo(ps, st, r, i, j), st[i].entries[j].usageFee, currency);
    assert Total(st[i].entries[j].usageFee, currency) == fee(pair);
  }

  lemma StackCostIsSumOverPairs(ps: seq<Policy>, st: seq<PolicyMap>, r: nat, currency: string,
                                fee: ((nat, string)) -> nat)
    requires Shaped(ps, st, r) && DistinctChallenges(ps) && FeesBy(ps, st, r, currency, fee)
    ensures Total(StackCost(ps, st, r), currency) == SumOver(Pairs(ps, st, r), fee)
    ensures Unique(StackCost(ps, st, r))
  {
    CostIsSumOverPairs(ps, st, r, |ps|, 0, currency, fee);
  }

  lemma {:induction false} CostUnique(ps: seq<Policy>, st: seq<PolicyMap>, r: nat, i: nat, j: nat)
    requires Shaped(ps, st, r) && i <= |ps| && j <= r && (i == |ps| ==> j == 0)
    ensures Unique(CostUpTo(ps, st, r, i, j))
    decreases i, j
  {
    if j > 0 {
      CostUnique(ps, st, r, i, j - 1);
      TotalAddedAll(CostUpTo(ps, st, r, i, j - 1), st[i].entries[j - 1].usageFee, "");
    } else if i > 0 {
      CostUnique(ps, st, r, i - 1, r);
    }
  }

  // ----- how often it places a challenge twice

  /** Pairs of slots of different policies with the same challenge at different providers. */
  ghost function ClashPairsUpTo(ps: seq<Policy>, st: seq<PolicyMap>, r: nat, i: nat, j: nat): set<(nat, nat, nat, nat)>
    requires Shaped(ps, st, r) && i <= |ps| && j <= r
  {
    set k: nat, l: nat, k2: nat, l2: nat
      | k < |ps| && l < r && (k < i || (k == i && l < j)) && k2 < k && l2 < r
        && SameChallenge(ps, r, k, l, k2, l2) && !SameProvider(st, r, k, l, k2, l2)
      :: (k, l, k2, l2)
  }

  ghost function ClashPairs(ps: seq<Policy>, st: seq<PolicyMap>, r: nat): set<(nat, nat, nat, nat)>
    requires Shaped(ps, st, r)
  {
    ClashPairsUpTo(ps, st, r, |ps|, 0)
  }

  ghost function Tag(i: nat, j: nat, s: set<(nat, nat)>): set<(nat, nat, nat, nat)> {
    set p | p in s :: (i, j, p.0, p.1)
  }

  lemma {:induction false} TagCount(i: nat, j: nat, s: set<(nat, nat)>)
    ensures |Tag(i, j, s)| == |s|
  {
    if s != {} {
      var p :| p in s;
      TagCount(i, j, s - {p});
      assert Tag(i, j, s) == Tag(i, j, s - {p}) + {(i, j, p.0, p.1)};
    } else {
      assert Tag(i, j, s) == {};
    }
  }

  /** The counter counts each such pair of slots once. */
  lemma {:induction false} ClashCountIsPairs(ps: seq<Policy>, st: seq<PolicyMap>, r: nat, i: nat, j: nat)
    requires Shaped(ps, st, r) && i <= |ps| && j <= r && (i == |ps| ==> j == 0)
    ensures ClashCount(ps, st, r, i, j) == |ClashPairsUpTo(ps, st, r, i, j)|
    decreases i, j
  {
    hide SameChallenge, SameProvider, Tag;
    if j > 0 {
      ClashCountIsPairs(ps, st, r, i, j - 1);
      var s := Clashes(ps, st, r, i, j - 1);
      TagCount(i, j - 1, s);
      ClashPairsSnoc(ps, st, r, i, j - 1);
    } else if i > 0 {
      ClashCountIsPairs(ps, st, r, i - 1, r);
      assert ClashPairsUpTo(ps, st, r, i, 0) == ClashPairsUpTo(ps, st, r, i - 1, r);
    } else {
      assert ClashPairsUpTo(ps, st, r, 0, 0) == {};
    }
  }

  lemma ClashPairsSnoc(ps: seq<Policy>, st: seq<PolicyMap>, r: nat, i: nat, j: nat)
    requires Shaped(ps, st, r) && i < |ps| && j < r
    ensures ClashPairsUpTo(ps, st, r, i, j + 1) == ClashPairsUpTo(ps, st, r, i, j) + Tag(i, j, Clashes(ps, st, r, i, j))
    ensures ClashPairsUpTo(ps, st, r, i, j) !! Tag(i, j, Clashes(ps, st, r, i, j))
  {
    var a, b := ClashPairsUpTo(ps, st, r, i, j + 1), ClashPairsUpTo(ps, st, r, i, j);
    var c, t := Clashes(ps, st, r, i, j), Tag(i, j, Clashes(ps, st, r, i, j));
    forall q | q in a ensures q in b + t {
      if q !in b {
        assert (q.2, q.3) in c;
      }
    }
    forall q | q in t ensures q in a {
      assert (q.2, q.3) in c;
    }
  }

  lemma StackClashesCounted(ps: seq<Policy>, st: seq<PolicyMap>, r: nat)
    requires Shaped(ps, st, r)
    ensures StackClashes(ps, st, r) == |ClashPairs(ps, st, r)|
  {
    ClashCountIsPairs(ps, st, r, |ps|, 0);
  }

  // ----- keeping the best

  /** Best stack so far; clashes == UINT_MAX marks that none was kept yet. */
  datatype Best = Best(cost: seq<Amount>, clashes: nat, stack: seq<PolicyMap>)

  ghost function EvalStep(ps: seq<Policy>, r: nat, b: Best, st: seq<PolicyMap>): Best
    requires Shaped(ps, st, r)
  {
    var cost, clashes := StackCost(ps, st, r), Wrap(StackClashes(ps, st, r));
    if b.clashes != UINT_MAX then
      var cmp := Sign(Ranking(AsMap(cost), AsMap(b.cost)));
      if cmp < 0 || (cmp == 0 && clashes > b.clashes) then b else Best(cost, clashes, st)
    else Best(cost, clashes, st)
  }

  ghost predicate AllShaped(ps: seq<Policy>, sts: seq<seq<PolicyMap>>, r: nat) {
    forall k :: 0 <= k < |sts| ==> Shaped(ps, sts[k], r)
  }

  ghost function EvalAll(ps: seq<Policy>, r: nat, b: Best, sts: seq<seq<PolicyMap>>): Best
    requires AllShaped(ps, sts, r)
  {
    if sts == [] then b
    else EvalStep(ps, r, EvalAll(ps, r, b, sts[..|sts| - 1]), sts[|sts| - 1])
  }

  lemma EvalAllSnoc(ps: seq<Policy>, r: nat, b: Best, sts: seq<seq<PolicyMap>>, st: seq<PolicyMap>)
    requires AllShaped(ps, sts, r) && Shaped(ps, st, r)
    ensures AllShaped(ps, sts + [st], r)
    ensures EvalAll(ps, r, b, sts + [st]) == EvalStep(ps, r, EvalAll(ps, r, b, sts), st)
  {
    assert (sts + [st])[..|sts|] == sts;
  }

  /** a is at least as good as b: cheaper, or as cheap with a penalty counter no higher. */
  ghost predicate AtMost(ps: seq<Policy>, r: nat, currency: string, a: seq<PolicyMap>, b: seq<PolicyMap>)
    requires Shaped(ps, a, r) && Shaped(ps, b, r)
  {
    var x, y := Total(StackCost(ps, a, r), currency), Total(StackCost(ps, b, r), currency);
    x < y || (x == y && Wrap(StackClashes(ps, a, r)) <= Wrap(StackClashes(ps, b, r)))
  }

  /** The stack at position k is at least as good as all, and better than all after it. */
  ghost predicate LastBest(ps: seq<Policy>, r: nat, currency: string, sts: seq<seq<PolicyMap>>, k: nat)
    requires AllShaped(ps, sts, r)
  {
    && k < |sts|
    && (forall m :: 0 <= m < |sts| ==> AtMost(ps, r, currency, sts[k], sts[m]))
    && (forall m :: k < m < |sts| ==> !AtMost(ps, r, currency, sts[m], sts[k]))
  }

  /** The cost list is one amount in the given currency, and the penalty counter is not the mark of an empty best. */
  ghost predicate Priced(ps: seq<Policy>, r: nat, currency: string, st: seq<PolicyMap>)
    requires Shaped(ps, st, r)
  {
    && Unique(StackCost(ps, st, r))
    && AsMap(StackCost(ps, st, r)) == map[currency := Total(StackCost(ps, st, r), currency)]
    && Wrap(StackClashes(ps, st, r)) != UINT_MAX
  }

  ghost function BestOf(ps: seq<Policy>, r: nat, st: seq<PolicyMap>): Best
    requires Shaped(ps, st, r)
  {
    Best(StackCost(ps, st, r), Wrap(StackClashes(ps, st, r)), st)
  }

  /** Against a stack priced in the same currency, a new one wins if and only if it is as good. */
  lemma NewWinsIfAsGood(ps: seq<Policy>, r: nat, currency: string, prev: seq<PolicyMap>, st: seq<PolicyMap>)
    requires Shaped(ps, prev, r) && Shaped(ps, st, r)
    requires Priced(ps, r, currency, prev) && Priced(ps, r, currency, st)
    ensures EvalStep(ps, r, BestOf(ps, r, prev), st)
      == BestOf(ps, r, if AtMost(ps, r, currency, st, prev) then st else prev)
  {
    hide AsMap, StackCost, StackClashes, Ranking, Wrap;
    var mine, kept := AsMap(StackCost(ps, st, r)), AsMap(StackCost(ps, prev, r));
    assert mine.Keys == kept.Keys == {currency};
    OneCurrency(mine, kept, currency);
  }

  lemma LastBestSnoc(ps: seq<Policy>, r: nat, currency: string, front: seq<seq<PolicyMap>>, st: seq<PolicyMap>, k: nat)
    requires AllShaped(ps, front, r) && Shaped(ps, st, r) && LastBest(ps, r, currency, front, k)
    ensures AllShaped(ps, front + [st], r)
    ensures LastBest(ps, r, currency, front + [st], if AtMost(ps, r, currency, st, front[k]) then |front| else k)
  {
    var sts := front + [st];
    var k' := if AtMost(ps, r, currency, st, front[k]) then |front| else k;
    forall m | 0 <= m < |sts| ensures AtMost(ps, r, currency, sts[k'], sts[m]) {
      if m < |front| {
        assert AtMost(ps, r, currency, front[k], front[m]);
      }
    }
    forall m | k' < m < |sts| ensures !AtMost(ps, r, currency, sts[m], sts[k']) {
      if m < |front| {
        assert !AtMost(ps, r, currency, front[m], front[k]);
      }
    }
  }

  /** Of stacks priced in one currency the search keeps the last of the best. */
  lemma {:induction false} KeepsLastBest(ps: seq<Policy>, r: nat, currency: string, b: Best,
                                         sts: seq<seq<PolicyMap>>) returns (k: nat)
    requires AllShaped(ps, sts, r) && sts != [] && b.clashes == UINT_MAX
    requires forall m :: 0 <= m < |sts| ==> Priced(ps, r, currency, sts[m])
    ensures LastBest(ps, r, currency, sts, k)
    ensures EvalAll(ps, r, b, sts) == BestOf(ps, r, sts[k])
  {
    if |sts| == 1 {
      k := 0;
      assert sts == [sts[0]];
      OnlyStackIsKept(ps, r, currency, b, sts[0]);
    } else {
      var front, st := sts[..|sts| - 1], sts[|sts| - 1];
      forall m | 0 <= m < |front| ensures Shaped(ps, front[m], r) && Priced(ps, r, currency, front[m]) {
        assert front[m] == sts[m];
      }
      k := KeepsLastBest(ps, r, currency, b, front);
      assert sts == front + [st];
      k := KeepsLastBestStep(ps, r, currency, b, front, st, k);
    }
  }

  lemma OnlyStackIsKept(ps: seq<Policy>, r: nat, currency: string, b: Best, st: seq<PolicyMap>)
    requires Shaped(ps, st, r) && Priced(ps, r, currency, st) && b.clashes == UINT_MAX
    ensures AllShaped(ps, [st], r)
    ensures LastBest(ps, r, currency, [st], 0) && EvalAll(ps, r, b, [st]) == BestOf(ps, r, st)
  {
    assert [st][..0] == [];
  }

  lemma KeepsLastBestStep(ps: seq<Policy>, r: nat, currency: string, b: Best, front: seq<seq<PolicyMap>>,
                          st: seq<PolicyMap>, k: nat)
    returns (k': nat)
    requires AllShaped(ps, front, r) && Shaped(ps, st, r) && LastBest(ps, r, currency, front, k)
    requires Priced(ps, r, currency, front[k]) && Priced(ps, r, currency, st)
    requires EvalAll(ps, r, b, front) == BestOf(ps, r, front[k])
    ensures AllShaped(ps, front + [st], r)
    ensures LastBest(ps, r, currency, front + [st], k')
    ensures EvalAll(ps, r, b, front + [st]) == BestOf(ps, r, (front + [st])[k'])
  {
    assert (front + [st])[..|front|] == front;
    NewWinsIfAsGood(ps, r, currency, front[k], st);
    LastBestSnoc(ps, r, currency, front, st, k);
    k' := if AtMost(ps, r, currency, st, front[k]) then |front| else k;
  }

  // ----- which stack is kept, whatever the currencies

  /** Against the other stack this one is turned down: dearer by the vote, or a tie with a higher penalty counter. */
  ghost predicate Loses(ps: seq<Policy>, r: nat, st: seq<PolicyMap>, other: seq<PolicyMap>)
    requires Shaped(ps, st, r) && Shaped(ps, other, r)
  {
    var vote := Ranking(AsMap(StackCost(ps, st, r)), AsMap(StackCost(ps, other, r)));
    vote < 0 || (vote == 0 && Wrap(StackClashes(ps, st, r)) > Wrap(StackClashes(ps, other, r)))
  }

  /** No stack has a penalty counter that marks an empty best. */
  ghost predicate NoneMarked(ps: seq<Policy>, r: nat, sts: seq<seq<PolicyMap>>)
    requires AllShaped(ps, sts, r)
  {
    forall m :: 0 <= m < |sts| ==> Wrap(StackClashes(ps, sts[m], r)) != UINT_MAX
  }

  lemma LoserIsTurnedDown(ps: seq<Policy>, r: nat, kept: seq<PolicyMap>, st: seq<PolicyMap>)
    requires Shaped(ps, kept, r) && Shaped(ps, st, r) && Wrap(StackClashes(ps, kept, r)) != UINT_MAX
    ensures EvalStep(ps, r, BestOf(ps, r, kept), st) == BestOf(ps, r, if Loses(ps, r, st, kept) then kept else st)
  {
  }

  /** What is kept is an evaluated stack, and every stack evaluated after it was turned down against it. */
  lemma {:induction false} KeptRejectsLater(ps: seq<Policy>, r: nat, b: Best, sts: seq<seq<PolicyMap>>) returns (k: nat)
    requires AllShaped(ps, sts, r) && NoneMarked(ps, r, sts) && sts != [] && b.clashes == UINT_MAX
    ensures k < |sts| && EvalAll(ps, r, b, sts) == BestOf(ps, r, sts[k])
    ensures forall m :: k < m < |sts| ==> Loses(ps, r, sts[m], sts[k])
  {
    hide Loses, EvalStep, BestOf;
    var n := |sts| - 1;
    assert sts == sts[..n] + [sts[n]];
    EvalAllSnoc(ps, r, b, sts[..n], sts[n]);
    if n == 0 {
      k := 0;
      FirstIsKept(ps, r, b, sts[0]);
    } else {
      k := KeptRejectsLater(ps, r, b, sts[..n]);
      LoserIsTurnedDown(ps, r, sts[k], sts[n]);
      if !Loses(ps, r, sts[n], sts[k]) {
        k := n;
      }
    }
  }

  lemma FirstIsKept(ps: seq<Policy>, r: nat, b: Best, st: seq<PolicyMap>)
    requires Shaped(ps, st, r) && b.clashes == UINT_MAX
    ensures EvalAll(ps, r, b, [st][..0]) == b
    ensures EvalStep(ps, r, b, st) == BestOf(ps, r, st)
  {
  }

  /** A stack that loses against none evaluated before it, and against which all after it lose, is kept. */
  lemma {:induction false} WinnerIsKept(ps: seq<Policy>, r: nat, b: Best, sts: seq<seq<PolicyMap>>, k: nat)
    requires AllShaped(ps, sts, r) && NoneMarked(ps, r, sts) && k < |sts| && b.clashes == UINT_MAX
    requires forall m :: 0 <= m < k ==> !Loses(ps, r, sts[k], sts[m])
    requires forall m :: k < m < |sts| ==> Loses(ps, r, sts[m], sts[k])
    ensures EvalAll(ps, r, b, sts) == BestOf(ps, r, sts[k])
  {
    hide Loses, EvalStep, BestOf;
    var n := |sts| - 1;
    var front := sts[..n];
    assert sts == front + [sts[n]];
    EvalAllSnoc(ps, r, b, front, sts[n]);
    if k < n {
      WinnerIsKept(ps, r, b, front, k);
      LoserIsTurnedDown(ps, r, sts[k], sts[n]);
    } else if n == 0 {
      FirstIsKept(ps, r, b, sts[0]);
      assert front == [sts[0]][..0];
    } else {
      var m := KeptRejectsLater(ps, r, b, front);
      LoserIsTurnedDown(ps, r, sts[m], sts[n]);
    }
  }
}
