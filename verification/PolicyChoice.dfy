/** What the policies reported by done_authentication are worth to the user. */
module PolicyChoice {
  import opened Sequences
  import opened Products
  import opened Subsets
  import opened Costs
  import opened Providers
  import opened Stacks
  import opened PolicyBuilder

  /** The policies reported for a setup in which every method is served. */
  ghost function Reported(su: Setup): (out: seq<seq<MethodUse>>)
    requires ValidSetup(su) && |su.methods| >= 2 && AllServed(su)
    ensures |out| == |PoliciesOf(su)|
  {
    PoliciesShaped(su);
    NoEmptyPolicy(su);
    var ps, r := PoliciesOf(su), ReqMethods(|su.methods|);
    SearchSettles(ps, r, Best([], UINT_MAX, []));
    Render(ps, SearchResult(ps, r).stack, r)
  }

  ghost function MethodsOf(uses: seq<MethodUse>): set<nat> {
    set u | u in uses :: u.method_
  }

  /**
   * One policy per subset of the methods, last subset first, and every provider named is active
   * and offers the method it is named for.
   */
  lemma ReportedPolicies(su: Setup, k: nat)
    requires ValidSetup(su) && |su.methods| >= 2 && AllServed(su)
    requires k < |SubsetsFor(|su.methods|)|
    ensures var subs, out := SubsetsFor(|su.methods|), Reported(su);
            && |out| == |subs|
            && var p := out[|subs| - 1 - k];
            && |p| == |subs[k]|
            && forall j :: 0 <= j < |p| ==> p[j].method_ == subs[k][j] && Fits(su, p[j].method_, p[j].provider)
                                            && p[j].provider in ActiveUrls(su.providers)
  {
    hide SearchResult, Combos, MapsFor, Fits, ActiveUrls, AllServed, NoneEmpty;
    var n, r, ps := |su.methods|, ReqMethods(|su.methods|), PoliciesOf(su);
    var subs := SubsetsFor(n);
    PoliciesShaped(su);
    NoEmptyPolicy(su);
    SearchSettles(ps, r, Best([], UINT_MAX, []));
    var i, st := |subs| - 1 - k, SearchResult(ps, r).stack;
    assert ps[|subs| - 1 - k] == PolicyFor(su, k == 0, subs[k]);
    StackPicksMaps(ps, r, i);
    CombosMembers(0, n, r, subs[k]);
    KeptMapServes(su, k == 0, subs[k], st[i]);
  }

  /** A map worth keeping names active providers that offer what they are named for. */
  lemma KeptMapServes(su: Setup, first: bool, idx: seq<nat>, m: PolicyMap)
    requires ValidSetup(su) && idx != [] && m in MapsFor(su, first, idx)
    ensures |m.entries| == |idx|
    ensures forall j :: 0 <= j < |idx| ==>
              Fits(su, idx[j], m.entries[j].provider) && m.entries[j].provider in ActiveUrls(su.providers)
  {
    hide MapsFor, Fits;
    KeptAreMostDiverse(su, first, idx);
    var sel :| MostDiverse(su, idx, sel) && m == MapOf(su, idx, sel);
    assert forall j :: 0 <= j < |idx| ==> m.entries[j].provider == sel[j];
  }

  lemma StackPicksMaps(ps: seq<Policy>, r: nat, i: nat)
    requires ShapedPolicies(ps, r) && NoneEmpty(ps) && i < |ps|
    ensures |SearchResult(ps, r).stack| == |ps| && SearchResult(ps, r).stack[i] in ps[i].maps
  {
    var st := SearchResult(ps, r).stack;
    SearchSettles(ps, r, Best([], UINT_MAX, []));
    assert st in StacksOf(ps);
    ProductMembers(MapLists(ps), st);
    assert st[i] in MapLists(ps)[i];
  }

  /** Every use reported names an enabled provider that is up and offers the method at a size that fits. */
  lemma ReportedCanHold(su: Setup, i: nat, j: nat)
    requires ValidSetup(su) && |su.methods| >= 2 && AllServed(su)
    requires i < |Reported(su)| && j < |Reported(su)[i]|
    ensures var u := Reported(su)[i][j];
            u.method_ < |su.methods|
            && exists p :: p in su.providers && p.url == u.provider && CanHold(p, su.methods[u.method_])
  {
    hide Reported, Combos, ActiveUrls, AllServed;
    var subs := SubsetsFor(|su.methods|);
    ReportedReverses(su);
    var k := |subs| - 1 - i;
    ReportedPolicies(su, k);
    var u := Reported(su)[|subs| - 1 - k][j];
    UsableIff(su, u.method_, u.provider);
  }

  ghost predicate Satisfied(uses: seq<MethodUse>, solved: set<nat>) {
    MethodsOf(uses) <= solved
  }

  lemma MethodsOfReported(su: Setup, k: nat)
    requires ValidSetup(su) && |su.methods| >= 2 && AllServed(su)
    requires k < |SubsetsFor(|su.methods|)| == |Reported(su)|
    ensures var subs := SubsetsFor(|su.methods|);
            MethodsOf(Reported(su)[|subs| - 1 - k]) == Elements(subs[k])
  {
    hide Combos, Fits, ActiveUrls, Reported;
    ReportedPolicies(su, k);
    var subs := SubsetsFor(|su.methods|);
    var p := Reported(su)[|subs| - 1 - k];
    forall x | x in Elements(subs[k]) ensures x in MethodsOf(p) {
      var j :| 0 <= j < |subs[k]| && subs[k][j] == x;
      assert p[j] in p && p[j].method_ == x;
    }
  }

  /** The reported policies ask for the methods of the subsets, in reverse order. */
  ghost predicate Reverses(out: seq<seq<MethodUse>>, subs: seq<seq<nat>>) {
    |out| == |subs| && forall k :: 0 <= k < |subs| ==> MethodsOf(out[|subs| - 1 - k]) == Elements(subs[k])
  }

  lemma ReportedReverses(su: Setup)
    requires ValidSetup(su) && |su.methods| >= 2 && AllServed(su)
    ensures Reverses(Reported(su), SubsetsFor(|su.methods|))
  {
    hide Reported, Combos, MethodsOf, AllServed;
    var subs := SubsetsFor(|su.methods|);
    forall k | 0 <= k < |subs| ensures MethodsOf(Reported(su)[|subs| - 1 - k]) == Elements(subs[k]) {
      MethodsOfReported(su, k);
    }
  }

  lemma SatisfiedInReverse(out: seq<seq<MethodUse>>, subs: seq<seq<nat>>, solved: set<nat>)
    requires Reverses(out, subs)
    ensures (exists p :: p in out && Satisfied(p, solved)) <==> exists c :: c in subs && Elements(c) <= solved
  {
    if p :| p in out && Satisfied(p, solved) {
      var i :| 0 <= i < |out| && out[i] == p;
      assert MethodsOf(out[|subs| - 1 - (|subs| - 1 - i)]) == Elements(subs[|subs| - 1 - i]);
    }
    if c :| c in subs && Elements(c) <= solved {
      var k :| 0 <= k < |subs| && subs[k] == c;
      assert Satisfied(out[|subs| - 1 - k], solved);
    }
  }

  ghost predicate ReportsMeet(out: seq<seq<MethodUse>>) {
    forall p, q :: p in out && q in out ==> MethodsOf(p) * MethodsOf(q) != {}
  }

  lemma MeetInReverse(out: seq<seq<MethodUse>>, subs: seq<seq<nat>>)
    requires Reverses(out, subs)
    ensures ReportsMeet(out) <==> AllPairsMeet(subs)
  {
    if AllPairsMeet(subs) {
      forall p, q | p in out && q in out ensures MethodsOf(p) * MethodsOf(q) != {} {
        var i :| 0 <= i < |out| && out[i] == p;
        var j :| 0 <= j < |out| && out[j] == q;
        assert subs[|subs| - 1 - i] in subs && subs[|subs| - 1 - j] in subs;
        assert MethodsOf(out[|subs| - 1 - (|subs| - 1 - i)]) == Elements(subs[|subs| - 1 - i]);
        assert MethodsOf(out[|subs| - 1 - (|subs| - 1 - j)]) == Elements(subs[|subs| - 1 - j]);
      }
    }
    if ReportsMeet(out) {
      forall c, d | c in subs && d in subs ensures Elements(c) * Elements(d) != {} {
        var k :| 0 <= k < |subs| && subs[k] == c;
        var l :| 0 <= l < |subs| && subs[l] == d;
        assert out[|subs| - 1 - k] in out && out[|subs| - 1 - l] in out;
      }
    }
  }

  /** Solving any req_methods methods satisfies some reported policy; solving fewer satisfies none. */
  lemma ThresholdRecovery(su: Setup, solved: set<nat>)
    requires ValidSetup(su) && |su.methods| >= 2 && AllServed(su)
    requires forall x :: x in solved ==> x < |su.methods|
    ensures (exists p :: p in Reported(su) && Satisfied(p, solved)) <==> |solved| >= ReqMethods(|su.methods|)
  {
    ReportedReverses(su);
    SatisfiedInReverse(Reported(su), SubsetsFor(|su.methods|), solved);
    Threshold(|su.methods|, ReqMethods(|su.methods|), solved);
  }

  /** Any two reported policies share a method exactly for up to seven methods. */
  lemma PoliciesOverlap(su: Setup)
    requires ValidSetup(su) && |su.methods| >= 2 && AllServed(su)
    ensures ReportsMeet(Reported(su)) <==> |su.methods| <= 7
  {
    ReportedReverses(su);
    MeetInReverse(Reported(su), SubsetsFor(|su.methods|));
    OverlapUpToSeven(|su.methods|);
  }

  // ----- the cheapest stack

  /** The fee of a (challenge, provider) pair in one currency. */
  ghost function PairFee(su: Setup, currency: string): ((nat, string)) -> nat {
    (p: (nat, string)) => Total(SlotFee(su, p.0, p.1), currency)
  }

  /** A stack of maps kept for the setup's policies. */
  ghost predicate Candidate(su: Setup, st: seq<PolicyMap>)
    requires |su.methods| >= 2
  {
    Picks(MapLists(PoliciesOf(su)), st)
  }

  lemma CandidateShaped(su: Setup, st: seq<PolicyMap>)
    requires ValidSetup(su) && |su.methods| >= 2 && Candidate(su, st)
    ensures Shaped(PoliciesOf(su), st, ReqMethods(|su.methods|))
  {
    PoliciesShaped(su);
    forall i | 0 <= i < |st| ensures |st[i].entries| == ReqMethods(|su.methods|) {
      assert st[i] in MapLists(PoliciesOf(su))[i];
    }
  }

  /** The entries of a candidate carry the fees of their slots, at providers that serve them. */
  lemma CandidateEntry(su: Setup, st: seq<PolicyMap>, i: nat, j: nat)
    requires ValidSetup(su) && |su.methods| >= 2 && Candidate(su, st)
    requires i < |st| && j < ReqMethods(|su.methods|)
    ensures Shaped(PoliciesOf(su), st, ReqMethods(|su.methods|))
    ensures var e, c := st[i].entries[j], PoliciesOf(su)[i].challenges[j];
            e.usageFee == SlotFee(su, c, e.provider) && Fits(su, c, e.provider)
  {
    var n, ps, subs := |su.methods|, PoliciesOf(su), SubsetsFor(|su.methods|);
    CandidateShaped(su, st);
    var k := |subs| - 1 - i;
    assert ps[|subs| - 1 - k] == PolicyFor(su, k == 0, subs[k]);
    assert st[i] in MapLists(ps)[i];
    CombosMembers(0, n, ReqMethods(n), subs[k]);
    KeptAreMostDiverse(su, k == 0, subs[k]);
    var sel :| MostDiverse(su, subs[k], sel) && st[i] == MapOf(su, subs[k], sel);
    assert st[i].entries[j] == PolicyEntry(sel[j], SlotFee(su, subs[k][j], sel[j]));
  }

  /** A candidate costs, per currency, the fees of its distinct (challenge, provider) pairs. */
  lemma CandidateCost(su: Setup, st: seq<PolicyMap>, currency: string)
    requires ValidSetup(su) && |su.methods| >= 2 && Candidate(su, st)
    ensures var ps, r := PoliciesOf(su), ReqMethods(|su.methods|);
            && Shaped(ps, st, r)
            && Total(StackCost(ps, st, r), currency) == SumOver(Pairs(ps, st, r), PairFee(su, currency))
            && StackClashes(ps, st, r) == |ClashPairs(ps, st, r)|
  {
    var ps, r := PoliciesOf(su), ReqMethods(|su.methods|);
    CandidateShaped(su, st);
    PoliciesShaped(su);
    forall i, j | 0 <= i < |ps| && 0 <= j < r
      ensures Total(st[i].entries[j].usageFee, currency)
           == PairFee(su, currency)((ps[i].challenges[j], st[i].entries[j].provider))
    {
      CandidateEntry(su, st, i, j);
    }
    StackCostIsSumOverPairs(ps, st, r, currency, PairFee(su, currency));
    StackClashesCounted(ps, st, r);
  }

  /** All fees of all configured providers are in one currency. */
  ghost predicate OneCurrencySetup(su: Setup, currency: string) {
    forall p :: p in su.providers && p.config.Some? ==>
      && p.config.value.uploadFee.currency == currency
      && forall o :: o in p.config.value.offers ==> o.usageFee.currency == currency
  }

  ghost predicate OnlyIn(l: seq<Amount>, currency: string) {
    forall i :: 0 <= i < |l| ==> l[i].currency == currency
  }

  lemma {:induction false} FeeOneCurrency(m: AuthMethod, c: Config, n: nat, currency: string)
    requires n <= |c.offers| && c.uploadFee.currency == currency
    requires forall o :: o in c.offers ==> o.usageFee.currency == currency
    ensures OnlyIn(FeeUpTo(m, c, n), currency)
    ensures (exists k :: 0 <= k < n && Matches(m, c, c.offers[k])) ==> FeeUpTo(m, c, n) != []
  {
    if n > 0 {
      FeeOneCurrency(m, c, n - 1, currency);
      assert c.offers[n - 1].usageFee.currency == currency;
    }
  }

  lemma SlotFeeOneCurrency(su: Setup, mi: nat, url: string, currency: string)
    requires OneCurrencySetup(su, currency) && Fits(su, mi, url)
    ensures OnlyIn(SlotFee(su, mi, url), currency) && SlotFee(su, mi, url) != []
  {
    LookupMember(su.providers, url);
    var c := Lookup(su.providers, url).value.config.value;
    FeeOneCurrency(su.methods[mi], c, |c.offers|, currency);
    var o :| o in c.offers && Matches(su.methods[mi], c, o);
    var k :| 0 <= k < |c.offers| && c.offers[k] == o;
  }

  lemma {:induction false} AddedAllOneCurrency(l: seq<Amount>, cs: seq<Amount>, currency: string)
    requires OnlyIn(l, currency) && OnlyIn(cs, currency)
    ensures OnlyIn(AddedAll(l, cs), currency)
    ensures l != [] || cs != [] ==> AddedAll(l, cs) != []
    decreases |cs|
  {
    if cs != [] {
      AddedAllOneCurrency(l, cs[..|cs| - 1], currency);
    }
  }

  lemma {:induction false} CostOneCurrency(ps: seq<Policy>, st: seq<PolicyMap>, r: nat, i: nat, j: nat,
                                           currency: string)
    requires Shaped(ps, st, r) && i <= |ps| && j <= r && (i == |ps| ==> j == 0) && r >= 1
    requires forall k, l :: 0 <= k < |ps| && 0 <= l < r ==>
               OnlyIn(st[k].entries[l].usageFee, currency) && st[k].entries[l].usageFee != []
    ensures OnlyIn(CostUpTo(ps, st, r, i, j), currency)
    ensures i > 0 || j > 0 ==> CostUpTo(ps, st, r, i, j) != []
    decreases i, j
  {
    if j > 0 {
      CostOneCurrency(ps, st, r, i, j - 1, currency);
      AddedAllOneCurrency(CostUpTo(ps, st, r, i, j - 1), st[i].entries[j - 1].usageFee, currency);
    } else if i > 0 {
      CostOneCurrency(ps, st, r, i - 1, r, currency);
    }
  }

  lemma AtMostOneAmount(l: seq<Amount>, currency: string)
    requires OnlyIn(l, currency)
    ensures Unique(l) ==> |l| <= 1
  {
    if |l| > 1 {
      assert l[0].currency == l[1].currency;
    }
  }

  lemma SingleAmount(l: seq<Amount>, currency: string)
    requires Unique(l) && OnlyIn(l, currency) && l != []
    ensures AsMap(l) == map[currency := Total(l, currency)]
  {
    AtMostOneAmount(l, currency);
    assert l[1..] == [] && l[..0] == [];
    assert AsMap(l) == AsMap([])[currency := l[0].value];
  }

  /** The challenge of a slot occurs once at most in each earlier policy, so it clashes at most that often. */
  lemma {:induction false} SlotClashes(ps: seq<Policy>, st: seq<PolicyMap>, r: nat, i: nat, j: nat, i2: nat)
    requires Shaped(ps, st, r) && DistinctChallenges(ps) && i < |ps| && j < r && i2 <= i
    ensures |ClashesUpTo(ps, st, r, i, j, i2, 0)| <= i2
  {
    if i2 == 0 {
      assert ClashesUpTo(ps, st, r, i, j, 0, 0) == {};
    } else {
      var k: nat := i2 - 1;
      SlotClashes(ps, st, r, i, j, k);
      var before, all := ClashesUpTo(ps, st, r, i, j, k, 0), ClashesUpTo(ps, st, r, i, j, i2, 0);
      if l: nat :| l < r && SameChallenge(ps, r, i, j, k, l) {
        assert NoDuplicates(ps[k].challenges);
        SubsetCount(all, before + {(k, l)});
      } else {
        SubsetCount(all, before);
      }
    }
  }

  /** Each slot clashes at most once with each earlier policy. */
  lemma {:induction false} ClashBound(ps: seq<Policy>, st: seq<PolicyMap>, r: nat, i: nat, j: nat)
    requires Shaped(ps, st, r) && DistinctChallenges(ps) && i <= |ps| && j <= r && (i == |ps| ==> j == 0)
    ensures 2 * ClashCount(ps, st, r, i, j) <= if i == 0 then 0 else r * (i * (i - 1)) + 2 * (j * i)
    decreases i, j
  {
    if j > 0 {
      ClashBound(ps, st, r, i, j - 1);
      SlotClashes(ps, st, r, i, j - 1, i);
      assert j * i == (j - 1) * i + i;
    } else if i > 0 {
      ClashBound(ps, st, r, i - 1, r);
      if i > 1 {
        NextTriangle(r, i);
      }
    }
  }

  lemma NextTriangle(r: nat, i: nat)
    requires i >= 2
    ensures r * ((i - 1) * (i - 2)) + 2 * (r * (i - 1)) == r * (i * (i - 1))
  {
    assert i * (i - 1) == (i - 1) * (i - 2) + 2 * (i - 1);
    assert r * ((i - 1) * (i - 2) + 2 * (i - 1)) == r * ((i - 1) * (i - 2)) + r * (2 * (i - 1));
  }

  /** The penalty counter of no evaluated stack reaches the value that marks an empty best. */
  ghost predicate CountersFit(su: Setup)
    requires ValidSetup(su) && |su.methods| >= 2
  {
    forall st :: st in BoundedStacks(PoliciesOf(su)) ==> ClashesFit(su, st)
  }

  ghost predicate ClashesFit(su: Setup, st: seq<PolicyMap>)
    requires ValidSetup(su) && |su.methods| >= 2
  {
    var ps, r := PoliciesOf(su), ReqMethods(|su.methods|);
    Shaped(ps, st, r) ==> Wrap(StackClashes(ps, st, r)) != UINT_MAX
  }

  /** Up to 33 methods the counters fit and do not wrap around, whatever the providers. */
  lemma FewMethodsFit(su: Setup)
    requires ValidSetup(su) && 2 <= |su.methods| <= 33
    ensures CountersFit(su)
    ensures var ps, r := PoliciesOf(su), ReqMethods(|su.methods|);
            forall st :: st in BoundedStacks(ps) && Shaped(ps, st, r) ==>
              Wrap(StackClashes(ps, st, r)) == StackClashes(ps, st, r)
  {
    var ps, r := PoliciesOf(su), ReqMethods(|su.methods|);
    FewSlots(|su.methods|);
    PoliciesShaped(su);
    forall st | st in BoundedStacks(ps) && Shaped(ps, st, r) ensures StackClashes(ps, st, r) < UINT_MAX {
      ClashBound(ps, st, r, |ps|, 0);
    }
  }

  lemma FewSlots(n: nat)
    requires 2 <= n <= 33
    ensures 0 < |SubsetsFor(n)|
    ensures ReqMethods(n) * (|SubsetsFor(n)| * (|SubsetsFor(n)| - 1)) < 2 * UINT_MAX
  {
    hide Combos, Factorial;
    var c, r := |SubsetsFor(n)|, ReqMethods(n);
    PoliciesExist(n);
    FewSubsets(n);
    ProductBound(c, c - 1, 40920, 40919);
    ProductBound(r, c * (c - 1), 4, 40920 * 40919);
  }

  lemma FewSubsets(n: nat)
    requires 2 <= n <= 33
    ensures |SubsetsFor(n)| <= 40920
  {
    hide Combos, Factorial;
    var c, r := |SubsetsFor(n)|, ReqMethods(n);
    CombosCount(0, n, r);
    if n >= 6 {
      FallingProduct(c, n);
      ProductBound(n, n - 1, 33, 32);
      ProductBound(n - 2, n - 3, 31, 30);
      ProductBound(n * (n - 1), (n - 2) * (n - 3), 1056, 930);
    } else {
      FactorialsTo5();
      var d := Factorial(r) * Factorial(n - r);
      assert c * Factorial(r) * Factorial(n - r) == c * d by {
        MulAssoc(c, Factorial(r), Factorial(n - r));
      }
      ProductBound(1, 1, Factorial(r), Factorial(n - r));
      AtMostWhole(c, d, Factorial(n));
    }
  }

  lemma MulAssoc(a: nat, b: nat, c: nat)
    ensures a * b * c == a * (b * c)
  {
  }

  lemma FactorialsTo5()
    ensures Factorial(0) == Factorial(1) == 1 && Factorial(2) == 2 && Factorial(3) == 6 && Factorial(4) == 24 &&
      Factorial(5) == 120
  {
  }

  lemma AtMostWhole(c: nat, d: nat, w: nat)
    requires c * d == w && d > 0
    ensures c <= w
  {
  }

  lemma ProductBound(a: nat, b: nat, x: nat, y: nat)
    requires a <= x && b <= y
    ensures a * b <= x * y
  {
  }

  /** The number of subsets of four, without factorials. */
  lemma FallingProduct(c: nat, n: nat)
    requires n >= 4 && c * Factorial(4) * Factorial(n - 4) == Factorial(n)
    ensures c * 24 == n * (n - 1) * ((n - 2) * (n - 3))
  {
    hide Factorial;
    var f := Factorial(n - 4);
    FactorialsTo5();
    FactorialPositive(n - 4);
    TwoFactors(n);
    TwoFactors(n - 2);
    MulAssoc(n * (n - 1), (n - 2) * (n - 3), f);
    CancelFactor(c * 24, n * (n - 1) * ((n - 2) * (n - 3)), f);
  }

  lemma TwoFactors(n: nat)
    requires n >= 2
    ensures Factorial(n) == n * (n - 1) * Factorial(n - 2)
  {
    MulAssoc(n, n - 1, Factorial(n - 2));
  }

  lemma {:induction false} FactorialPositive(n: nat)
    ensures Factorial(n) > 0
  {
    if n > 0 {
      FactorialPositive(n - 1);
    }
  }

  lemma CancelFactor(a: nat, b: nat, f: nat)
    requires f > 0 && a * f == b * f
    ensures a == b
  {
  }

  /** With fees in one currency and a counter that fits a candidate has one plain price. */
  lemma CandidatePriced(su: Setup, st: seq<PolicyMap>, currency: string)
    requires ValidSetup(su) && |su.methods| >= 2 && Candidate(su, st) && OneCurrencySetup(su, currency)
    requires ClashesFit(su, st)
    ensures Shaped(PoliciesOf(su), st, ReqMethods(|su.methods|))
    ensures Priced(PoliciesOf(su), ReqMethods(|su.methods|), currency, st)
  {
    var ps, r := PoliciesOf(su), ReqMethods(|su.methods|);
    CandidateShaped(su, st);
    CandidateFees(su, st, currency);
    PoliciesExist(|su.methods|);
    CostOneCurrency(ps, st, r, |ps|, 0, currency);
    CostUnique(ps, st, r, |ps|, 0);
    SingleAmount(StackCost(ps, st, r), currency);
  }

  lemma CandidateFees(su: Setup, st: seq<PolicyMap>, currency: string)
    requires ValidSetup(su) && |su.methods| >= 2 && Candidate(su, st) && OneCurrencySetup(su, currency)
    ensures Shaped(PoliciesOf(su), st, ReqMethods(|su.methods|))
    ensures forall k, l :: 0 <= k < |st| && 0 <= l < ReqMethods(|su.methods|) ==>
               OnlyIn(st[k].entries[l].usageFee, currency) && st[k].entries[l].usageFee != []
  {
    var ps, r := PoliciesOf(su), ReqMethods(|su.methods|);
    CandidateShaped(su, st);
    forall k, l | 0 <= k < |ps| && 0 <= l < r
      ensures OnlyIn(st[k].entries[l].usageFee, currency) && st[k].entries[l].usageFee != []
    {
      CandidateEntry(su, st, k, l);
      SlotFeeOneCurrency(su, ps[k].challenges[l], st[k].entries[l].provider, currency);
    }
  }

  lemma PoliciesExist(n: nat)
    requires n >= 2
    ensures SubsetsFor(n) != []
  {
    var c := SubsetWith(n, ReqMethods(n), 0);
  }

  /**
   * With fees in one currency the stack reported is at least as good (cheaper, or as cheap with a
   * penalty counter no higher) as every stack evaluated and better than every one evaluated after it. The stacks
   * evaluated are the candidates in lexicographic order, cut off at the limit; if there are no more
   * candidates than that, the stack reported is at least as good as any candidate.
   */
  lemma CheapestStack(su: Setup, currency: string) returns (k: nat)
    requires ValidSetup(su) && |su.methods| >= 2 && AllServed(su) && OneCurrencySetup(su, currency)
    requires CountersFit(su)
    ensures var ps, r := PoliciesOf(su), ReqMethods(|su.methods|);
            && ShapedPolicies(ps, r)
            && var best, sts := SearchResult(ps, r).stack, BoundedStacks(ps);
            && Shaped(ps, best, r) && AllShaped(ps, sts, r)
            && LastBest(ps, r, currency, sts, k) && best == sts[k]
            && (Size(MapLists(ps)) <= MAX_EVALUATIONS ==>
                  forall st :: Candidate(su, st) ==> Shaped(ps, st, r) && AtMost(ps, r, currency, best, st))
  {
    hide StackCost, StackClashes, Combos;
    var ps, r := PoliciesOf(su), ReqMethods(|su.methods|);
    PoliciesShaped(su);
    NoEmptyPolicy(su);
    SearchSettles(ps, r, Best([], UINT_MAX, []));
    var sts := BoundedStacks(ps);
    forall m | 0 <= m < |sts| ensures Priced(ps, r, currency, sts[m]) {
      assert sts[m] in StacksOf(ps);
      ProductMembers(MapLists(ps), sts[m]);
      CandidatePriced(su, sts[m], currency);
    }
    k := KeepsLastBest(ps, r, currency, Best([], UINT_MAX, []), sts);
    if Size(MapLists(ps)) <= MAX_EVALUATIONS {
      ProductLength(MapLists(ps));
      forall st | Candidate(su, st)
        ensures Shaped(ps, st, r) && AtMost(ps, r, currency, SearchResult(ps, r).stack, st)
      {
        CandidateShaped(su, st);
        ProductMembers(MapLists(ps), st);
        var m :| 0 <= m < |sts| && sts[m] == st;
      }
    }
  }

  /** The search stops after exactly as many evaluations as there are candidates, or at the limit. */
  lemma EvaluationCount(ps: seq<Policy>)
    ensures |BoundedStacks(ps)| == if Size(MapLists(ps)) < MAX_EVALUATIONS then Size(MapLists(ps)) else MAX_EVALUATIONS
    ensures BoundedStacks(ps) <= StacksOf(ps)
    ensures forall st :: st in StacksOf(ps) <==> Picks(MapLists(ps), st)
  {
    ProductLength(MapLists(ps));
    forall st ensures st in StacksOf(ps) <==> Picks(MapLists(ps), st) {
      ProductMembers(MapLists(ps), st);
    }
  }

  // ----- any currencies

  /**
   * Whatever the currencies, of the stacks evaluated one that loses against none before it and against
   * which all after it lose is the one chosen; and all stacks after the one chosen lose against it.
   */
  lemma SearchKeepsWinner(ps: seq<Policy>, r: nat, k: nat)
    requires ShapedPolicies(ps, r) && NoneEmpty(ps) && k < |BoundedStacks(ps)|
    ensures AllShaped(ps, BoundedStacks(ps), r)
    ensures NoneMarked(ps, r, BoundedStacks(ps))
            && (forall m :: 0 <= m < k ==> !Loses(ps, r, BoundedStacks(ps)[k], BoundedStacks(ps)[m]))
            && (forall m :: k < m < |BoundedStacks(ps)| ==> Loses(ps, r, BoundedStacks(ps)[m], BoundedStacks(ps)[k]))
            ==> SearchResult(ps, r).stack == BoundedStacks(ps)[k]
  {
    hide Loses;
    var sts := BoundedStacks(ps);
    BoundedStacksShaped(ps, r);
    if NoneMarked(ps, r, sts)
      && (forall m :: 0 <= m < k ==> !Loses(ps, r, sts[k], sts[m]))
      && (forall m :: k < m < |sts| ==> Loses(ps, r, sts[m], sts[k])) {
      WinnerIsKept(ps, r, Best([], UINT_MAX, []), sts, k);
    }
  }

  lemma ChosenRejectsLater(ps: seq<Policy>, r: nat) returns (k: nat)
    requires ShapedPolicies(ps, r) && NoneEmpty(ps) && AllShaped(ps, BoundedStacks(ps), r)
    requires NoneMarked(ps, r, BoundedStacks(ps))
    ensures k < |BoundedStacks(ps)| && SearchResult(ps, r).stack == BoundedStacks(ps)[k]
    ensures forall m :: k < m < |BoundedStacks(ps)| ==> Loses(ps, r, BoundedStacks(ps)[m], BoundedStacks(ps)[k])
  {
    StacksExist(ps);
    k := KeptRejectsLater(ps, r, Best([], UINT_MAX, []), BoundedStacks(ps));
  }

  /** The vote prefers the k-th of the stacks evaluated to every other of them. */
  ghost predicate ClearWinner(ps: seq<Policy>, r: nat, sts: seq<seq<PolicyMap>>, k: nat)
    requires AllShaped(ps, sts, r) && k < |sts|
  {
    forall m :: 0 <= m < |sts| && m != k ==>
      Ranking(AsMap(StackCost(ps, sts[k], r)), AsMap(StackCost(ps, sts[m], r))) > 0
  }

  /** In particular a stack that the vote prefers to every other evaluated one is chosen. */
  lemma ClearWinnerIsChosen(ps: seq<Policy>, r: nat, k: nat)
    requires ShapedPolicies(ps, r) && NoneEmpty(ps) && k < |BoundedStacks(ps)| && AllShaped(ps, BoundedStacks(ps), r)
    requires NoneMarked(ps, r, BoundedStacks(ps)) && ClearWinner(ps, r, BoundedStacks(ps), k)
    ensures SearchResult(ps, r).stack == BoundedStacks(ps)[k]
  {
    hide StackCost, StackClashes, AsMap, Wrap, BoundedStacks;
    var sts := BoundedStacks(ps);
    forall m | 0 <= m < |sts| && m != k ensures Loses(ps, r, sts[m], sts[k]) && !Loses(ps, r, sts[k], sts[m]) {
      RankingAntisymmetric(AsMap(StackCost(ps, sts[k], r)), AsMap(StackCost(ps, sts[m], r)));
    }
    SearchKeepsWinner(ps, r, k);
  }

  // ----- two currencies

  /** A map of one slot that charges u in x and v in y. */
  function TwoFees(provider: string, x: string, u: nat, y: string, v: nat): PolicyMap {
    PolicyMap([PolicyEntry(provider, [Amount(x, u), Amount(y, v)])], 1)
  }

  lemma OneSlotCost(ps: seq<Policy>, x: string, u: nat, y: string, v: nat, provider: string)
    requires |ps| == 1 && |ps[0].challenges| == 1 && x != y
    ensures var st := [TwoFees(provider, x, u, y, v)];
            && Shaped(ps, st, 1) && StackClashes(ps, st, 1) == 0
            && AsMap(StackCost(ps, st, 1)) == map[x := u, y := v]
  {
    var st := [TwoFees(provider, x, u, y, v)];
    var fee := st[0].entries[0].usageFee;
    assert StackCost(ps, st, 1) == CostUpTo(ps, st, 1, 0, 1) == AddedAll([], fee);
    TwoAdded(x, u, y, v);
    assert Clashes(ps, st, 1, 0, 0) == {};
    assert StackClashes(ps, st, 1) == ClashCount(ps, st, 1, 0, 1) == 0;
  }

  lemma TwoAdded(x: string, u: nat, y: string, v: nat)
    requires x != y
    ensures AsMap(AddedAll([], [Amount(x, u), Amount(y, v)])) == map[x := u, y := v]
  {
    var fee, none := [Amount(x, u), Amount(y, v)], [Amount(x, u)][..0];
    assert fee[..1] == [Amount(x, u)];
    assert AddedAll([], [Amount(x, u)]) == [Amount(x, u)] + none;
    var l := AddedAll([], fee);
    assert l == [Amount(y, v)] + [Amount(x, u)];
    assert l[..1] == [Amount(y, v)] && l[..1][..0] == none;
    assert AsMap(none) == map[];
    assert AsMap(l[..1]) == map[y := v];
  }

  /**
   * Two currencies already mislead the search: of three maps it settles on the third, although it
   * evaluated the first, which is preferred to the third.
   */
  lemma SearchKeepsDearer(p: string, q: string, s: string, x: string, y: string)
    requires x != y
    ensures var first, second, third := TwoFees(p, x, 1, y, 3), TwoFees(q, x, 2, y, 2), TwoFees(s, x, 1, y, 4);
            var ps := [Policy([0], [first, second, third])];
            && ShapedPolicies(ps, 1) && BoundedStacks(ps) == [[first], [second], [third]]
            && SearchResult(ps, 1).stack == [third]
            && Shaped(ps, [first], 1) && Shaped(ps, [third], 1)
            && Ranking(AsMap(StackCost(ps, [first], 1)), AsMap(StackCost(ps, [third], 1))) > 0
  {
    hide StackCost, StackClashes, AsMap, EvalAll, EvalStep, BoundedStacks, StacksOf, Ranking;
    var a, b, c := TwoFees(p, x, 1, y, 3), TwoFees(q, x, 2, y, 2), TwoFees(s, x, 1, y, 4);
    var ps := [Policy([0], [a, b, c])];
    OneSlotCost(ps, x, 1, y, 3, p);
    OneSlotCost(ps, x, 2, y, 2, q);
    OneSlotCost(ps, x, 1, y, 4, s);
    RankingInTwo(x, y, 2, 2, 1, 3);
    RankingInTwo(x, y, 1, 4, 2, 2);
    RankingInTwo(x, y, 1, 3, 1, 4);
    ThreeStacks(ps, a, b, c);
    TiesReplace(ps, [a], [b], [c]);
  }

  /** Of three stacks without clashes the last is kept if it ties with the second, and the second with the first. */
  lemma TiesReplace(ps: seq<Policy>, a: seq<PolicyMap>, b: seq<PolicyMap>, c: seq<PolicyMap>)
    requires Shaped(ps, a, 1) && Shaped(ps, b, 1) && Shaped(ps, c, 1) && ShapedPolicies(ps, 1)
    requires BoundedStacks(ps) == [a, b, c]
    requires StackClashes(ps, a, 1) == StackClashes(ps, b, 1) == StackClashes(ps, c, 1) == 0
    requires Ranking(AsMap(StackCost(ps, b, 1)), AsMap(StackCost(ps, a, 1))) == 0
    requires Ranking(AsMap(StackCost(ps, c, 1)), AsMap(StackCost(ps, b, 1))) == 0
    ensures SearchResult(ps, 1).stack == c
  {
    hide StackCost, StackClashes, AsMap, BoundedStacks, Ranking;
    var none := Best([], UINT_MAX, []);
    var start: seq<seq<PolicyMap>> := [a][..0];
    BoundedStacksShaped(ps, 1);
    assert start + [a] == [a] && [a] + [b] == [a, b] && [a, b] + [c] == [a, b, c];
    EvalAllSnoc(ps, 1, none, start, a);
    EvalAllSnoc(ps, 1, none, [a], b);
    EvalAllSnoc(ps, 1, none, [a, b], c);
    hide EvalAll;
    assert EvalAll(ps, 1, none, [a]) == Best(StackCost(ps, a, 1), 0, a);
    assert EvalAll(ps, 1, none, [a, b]) == Best(StackCost(ps, b, 1), 0, b);
  }

  lemma RankingInTwo(x: string, y: string, u: nat, v: nat, u': nat, v': nat)
    requires x != y
    ensures Ranking(map[x := u, y := v], map[x := u', y := v']) == Sign(u' - u) + Sign(v' - v)
  {
    hide Ranking;
    RankingOnTwo({x, y}, x, y, u, v, u', v');
    assert OnTwo({x, y}, x, y, u, v) == map[x := u, y := v];
    assert OnTwo({x, y}, x, y, u', v') == map[x := u', y := v'];
  }

  lemma ThreeStacks(ps: seq<Policy>, a: PolicyMap, b: PolicyMap, c: PolicyMap)
    requires |ps| == 1 && ps[0].maps == [a, b, c]
    ensures BoundedStacks(ps) == StacksOf(ps) == [[a], [b], [c]]
  {
    var ls := MapLists(ps);
    assert ls == [[a, b, c]] && ls[1..] == [];
    var tails := Product(ls[1..]);
    assert tails == [[]];
    assert [a] + tails[0] == [a] && [b] + tails[0] == [b] && [c] + tails[0] == [c];
    assert PrependAll(a, tails) == [[a]] && PrependAll(b, tails) == [[b]] && PrependAll(c, tails) == [[c]];
    assert [a, b, c] == ([a] + [b]) + [c];
    SpreadSnoc([a] + [b], c, tails);
    SpreadSnoc([a], b, tails);
    assert [a][..0] == [];
    assert Spread([a], tails) == [[a]];
  }
}
