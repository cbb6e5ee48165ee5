/** Per-currency cost lists of the policy builder: add_cost, add_costs and compare_costs. */
module Costs {
  import opened Sequences


  /** What a cost list charges, per currency. */
  type Charges = map<string, nat>

  /** An amount in the smallest unit of its currency. */
  datatype Amount = Amount(currency: string, value: nat)

  /** Position of the first entry in the given currency, or the length of the list. */
  function FirstWith(l: seq<Amount>, currency: string): (k: nat)
    ensures k <= |l|
    ensures forall i :: 0 <= i < k ==> l[i].currency != currency
    ensures k < |l| ==> l[k].currency == currency
  {
    if l == [] || l[0].currency == currency then 0 else 1 + FirstWith(l[1..], currency)
  }

  function Added(l: seq<Amount>, c: Amount): seq<Amount> {
    var k := FirstWith(l, c.currency);
    if k < |l| then l[k := Amount(c.currency, l[k].value + c.value)] else [c] + l
  }

  function AddedAll(l: seq<Amount>, cs: seq<Amount>): seq<Amount> {
    if cs == [] then l else Added(AddedAll(l, cs[..|cs| - 1]), cs[|cs| - 1])
  }

  ghost function Share(a: Amount, currency: string): nat {
    if a.currency == currency then a.value else 0
  }

  /** What a list charges in one currency. */
  ghost function Total(l: seq<Amount>, currency: string): nat {
    if l == [] then 0 else Share(l[0], currency) + Total(l[1..], currency)
  }

  /** At most one entry per currency. */
  ghost predicate Unique(l: seq<Amount>) {
    forall i, j :: 0 <= i < j < |l| ==> l[i].currency != l[j].currency
  }

  lemma {:induction false} TotalUpdate(l: seq<Amount>, k: nat, a: Amount, currency: string)
    requires k < |l|
    ensures Total(l[k := a], currency) + Share(l[k], currency) == Total(l, currency) + Share(a, currency)
  {
    var u := l[k := a];
    if k == 0 {
      assert u[1..] == l[1..];
    } else {
      assert u[1..] == l[1..][k - 1 := a];
      TotalUpdate(l[1..], k - 1, a, currency);
    }
  }

  /** Adding one amount changes the total of its own currency, and of no other, by its value. */
  lemma TotalAdded(l: seq<Amount>, c: Amount, currency: string)
    ensures Total(Added(l, c), currency) == Total(l, currency) + Share(c, currency)
    ensures Unique(l) ==> Unique(Added(l, c))
  {
    var k := FirstWith(l, c.currency);
    if k < |l| {
      TotalUpdate(l, k, Amount(c.currency, l[k].value + c.value), currency);
    } else {
      assert ([c] + l)[1..] == l;
    }
  }

  lemma {:induction false} TotalSnoc(l: seq<Amount>, a: Amount, currency: string)
    ensures Total(l + [a], currency) == Total(l, currency) + Share(a, currency)
  {
    if l == [] {
      assert (l + [a])[1..] == [];
    } else {
      assert (l + [a])[1..] == l[1..] + [a];
      TotalSnoc(l[1..], a, currency);
    }
  }

  /** Adding a whole list adds its totals currency by currency and keeps currencies unique. */
  lemma {:induction false} TotalAddedAll(l: seq<Amount>, cs: seq<Amount>, currency: string)
    ensures Total(AddedAll(l, cs), currency) == Total(l, currency) + Total(cs, currency)
    ensures Unique(l) ==> Unique(AddedAll(l, cs))
    decreases |cs|
  {
    if cs != [] {
      var front, last := cs[..|cs| - 1], cs[|cs| - 1];
      TotalAddedAll(l, front, currency);
      TotalAdded(AddedAll(l, front), last, currency);
      TotalSnoc(front, last, currency);
      assert front + [last] == cs;
    }
  }

  /** A cost list that is filled in place. */
  class CostList {
    var list: seq<Amount>

    constructor ()
      ensures list == []
    {
      list := [];
    }

    method AddCost(cost: Amount)
      modifies this
      ensures list == Added(old(list), cost)
    {
      for pos := 0 to |list|
        invariant list == old(list)
        invariant forall k :: 0 <= k < pos ==> list[k].currency != cost.currency
      {
        if list[pos].currency != cost.currency {
          continue;
        }
        list := list[pos := Amount(cost.currency, list[pos].value + cost.value)];
        return;
      }
      list := [cost] + list;
    }

    method AddCosts(costs: seq<Amount>)
      modifies this
      ensures list == AddedAll(old(list), costs)
    {
      for pos := 0 to |costs|
        invariant list == AddedAll(old(list), costs[..pos])
      {
        AddCost(costs[pos]);
        assert costs[..pos + 1][..pos] == costs[..pos];
      }
      assert costs[..|costs|] == costs;
    }
  }

  // ----- comparing two lists

  /** The amount charged per currency. */
  ghost function AsMap(l: seq<Amount>): Charges {
    if l == [] then map[]
    else
      var last := l[|l| - 1];
      AsMap(l[..|l| - 1])[last.currency := last.value]
  }

  lemma AsMapNil()
    ensures AsMap([]) == map[]
  {
  }

  lemma {:induction false} AsMapHas(l: seq<Amount>, i: nat)
    requires Unique(l) && i < |l|
    ensures l[i].currency in AsMap(l) && AsMap(l)[l[i].currency] == l[i].value
  {
    if i < |l| - 1 {
      AsMapHas(l[..|l| - 1], i);
    }
  }

  lemma {:induction false} AsMapOnly(l: seq<Amount>, c: string)
    requires forall i :: 0 <= i < |l| ==> l[i].currency != c
    ensures c !in AsMap(l)
  {
    if l != [] {
      AsMapOnly(l[..|l| - 1], c);
    }
  }

  lemma AsMapSnoc(l: seq<Amount>, k: nat)
    requires Unique(l) && k < |l|
    ensures l[k].currency !in AsMap(l[..k])
    ensures AsMap(l[..k + 1]) == AsMap(l[..k])[l[k].currency := l[k].value]
  {
    assert l[..k + 1][..k] == l[..k];
    AsMapOnly(l[..k], l[k].currency);
  }

  /** Currencies charged by a alone. */
  ghost function Only(a: Charges, b: Charges): set<string> {
    a.Keys - b.Keys
  }

  ghost function Cheaper(a: Charges, b: Charges): set<string> {
    set c | c in a && c in b && a[c] < b[c]
  }

  /** One vote per currency: for a where it is cheaper or charges alone, for b likewise. */
  ghost function Ranking(a: Charges, b: Charges): int {
    |Only(a, b)| + |Cheaper(a, b)| - |Only(b, a)| - |Cheaper(b, a)|
  }

  function Sign(x: int): int {
    if x == 0 then 0 else if x < 0 then -1 else 1
  }

  lemma NoVotes(b: Charges)
    ensures Only(map[], b) == Cheaper(map[], b) == Cheaper(b, map[]) == {}
  {
  }

  /** Effect on the vote of one more currency in the first list. */
  lemma VoteSnoc(m: Charges, c: string, v: nat, b: Charges)
    requires c !in m
    ensures |Only(m[c := v], b)| == |Only(m, b)| + (if c in b then 0 else 1)
    ensures |Cheaper(m[c := v], b)| == |Cheaper(m, b)| + (if c in b && v < b[c] then 1 else 0)
    ensures |Cheaper(b, m[c := v])| == |Cheaper(b, m)| + (if c in b && v > b[c] then 1 else 0)
  {
    assert m[c := v].Keys == m.Keys + {c};
    OnlySnoc(m.Keys, c, b.Keys);
    CheaperSnoc(m, c, v, b);
    DearerSnoc(m, c, v, b);
  }

  lemma OnlySnoc(m: set<string>, c: string, b: set<string>)
    requires c !in m
    ensures |m + {c} - b| == |m - b| + (if c in b then 0 else 1)
  {
    if c in b {
      assert m + {c} - b == m - b;
    } else {
      assert m + {c} - b == m - b + {c};
    }
  }

  lemma CheaperSnoc(m: Charges, c: string, v: nat, b: Charges)
    requires c !in m
    ensures |Cheaper(m[c := v], b)| == |Cheaper(m, b)| + (if c in b && v < b[c] then 1 else 0)
  {
    if c in b && v < b[c] {
      assert Cheaper(m[c := v], b) == Cheaper(m, b) + {c};
    } else {
      assert Cheaper(m[c := v], b) == Cheaper(m, b);
    }
  }

  lemma DearerSnoc(m: Charges, c: string, v: nat, b: Charges)
    requires c !in m
    ensures |Cheaper(b, m[c := v])| == |Cheaper(b, m)| + (if c in b && v > b[c] then 1 else 0)
  {
    if c in b && v > b[c] {
      assert Cheaper(b, m[c := v]) == Cheaper(b, m) + {c};
    } else {
      assert Cheaper(b, m[c := v]) == Cheaper(b, m);
    }
  }

  /** How the entry pos fares against the list be, and whether be has its currency at all. */
  method EntryVote(pos: Amount, be: seq<Amount>) returns (vote: int)
    requires Unique(be)
    ensures var b := AsMap(be);
            vote == if pos.currency !in b || pos.value < b[pos.currency] then 1
                    else if pos.value > b[pos.currency] then -1
                    else 0
  {
    for j := 0 to |be|
      invariant forall i :: 0 <= i < j ==> be[i].currency != pos.currency
    {
      if be[j].currency != pos.currency {
        continue;
      }
      AsMapHas(be, j);
      return if be[j].value < pos.value then -1 else if be[j].value > pos.value then 1 else 0;
    }
    AsMapOnly(be, pos.currency);
    return 1;
  }

  method HasCurrency(my: seq<Amount>, currency: string) returns (found: bool)
    requires Unique(my)
    ensures found <==> currency in AsMap(my)
  {
    found := false;
    ghost var at: nat := |my|;
    for j := 0 to |my|
      invariant found ==> at < j <= |my| && my[at].currency == currency
      invariant !found ==> forall i :: 0 <= i < j ==> my[i].currency != currency
    {
      if my[j].currency != currency {
        continue;
      }
      found := true;
      at := j;
    }
    if found {
      AsMapHas(my, at);
    } else {
      AsMapOnly(my, currency);
    }
  }

  method CompareCosts(my: seq<Amount>, be: seq<Amount>) returns (r: int)
    requires Unique(my) && Unique(be)
    ensures r == Sign(Ranking(AsMap(my), AsMap(be)))
  {
    hide AsMap, Only, Cheaper;
    ghost var a, b := AsMap(my), AsMap(be);
    AsMapNil();
    NoVotes(a);
    NoVotes(b);
    var ranking := 0;
    for k := 0 to |be|
      invariant ranking == -|Only(AsMap(be[..k]), a)|
    {
      var found := HasCurrency(my, be[k].currency);
      if !found {
        ranking := ranking - 1;
      }
      AsMapSnoc(be, k);
      VoteSnoc(AsMap(be[..k]), be[k].currency, be[k].value, a);
    }
    assert be[..|be|] == be;
    for k := 0 to |my|
      invariant ranking == |Only(AsMap(my[..k]), b)| + |Cheaper(AsMap(my[..k]), b)|
                           - |Only(b, a)| - |Cheaper(b, AsMap(my[..k]))|
    {
      var vote := EntryVote(my[k], be);
      ranking := ranking + vote;
      AsMapSnoc(my, k);
      VoteSnoc(AsMap(my[..k]), my[k].currency, my[k].value, b);
    }
    assert my[..|my|] == my;
    r := if ranking == 0 then 0 else if ranking < 0 then -1 else 1;
  }

  /** Swapping the lists negates the verdict. */
  lemma RankingAntisymmetric(a: Charges, b: Charges)
    ensures Sign(Ranking(a, b)) == -Sign(Ranking(b, a))
  {
  }

  /** The verdict depends on the amounts per currency only, not on the order of the list. */
  lemma OrderIrrelevant(x: seq<Amount>, y: seq<Amount>)
    requires Unique(x) && Unique(y) && multiset(x) == multiset(y)
    ensures AsMap(x) == AsMap(y)
  {
    SameEntries(x, y);
    SameEntries(y, x);
  }

  lemma SameEntries(x: seq<Amount>, y: seq<Amount>)
    requires Unique(x) && Unique(y) && multiset(x) == multiset(y)
    ensures forall c :: c in AsMap(x) ==> c in AsMap(y) && AsMap(x)[c] == AsMap(y)[c]
  {
    forall c | c in AsMap(x) ensures c in AsMap(y) && AsMap(x)[c] == AsMap(y)[c] {
      if i :| 0 <= i < |x| && x[i].currency == c {
        assert x[i] in multiset(y);
        var j :| 0 <= j < |y| && y[j] == x[i];
        AsMapHas(x, i);
        AsMapHas(y, j);
      } else {
        AsMapOnly(x, c);
      }
    }
  }

  /** With one common currency the verdict is the order of the two amounts. */
  lemma OneCurrency(a: Charges, b: Charges, c: string)
    requires a.Keys == b.Keys == {c}
    ensures Sign(Ranking(a, b)) == if a[c] < b[c] then 1 else if a[c] == b[c] then 0 else -1
  {
    assert Only(a, b) == {} && Only(b, a) == {};
    assert Cheaper(a, b) == if a[c] < b[c] then {c} else {};
    assert Cheaper(b, a) == if b[c] < a[c] then {c} else {};
  }

  /**
   * A list that is nowhere dearer keeps its place exactly if it is cheaper in as many common
   * currencies as the other has to itself: each of those counts against it.
   */
  lemma NowhereDearer(a: Charges, b: Charges)
    requires a.Keys <= b.Keys && forall c :: c in a ==> a[c] <= b[c]
    ensures Sign(Ranking(a, b)) >= 0 <==> |b.Keys - a.Keys| <= |Cheaper(a, b)|
  {
    assert Only(a, b) == {};
    assert Cheaper(b, a) == {};
  }

  /** So a list that charges the same but for leaving out some currencies of the other always loses. */
  lemma MissingCurrencyLoses(a: Charges, b: Charges)
    requires a.Keys < b.Keys && forall c :: c in a ==> a[c] == b[c]
    ensures Sign(Ranking(a, b)) == -1
  {
    assert Only(a, b) == {};
    assert Cheaper(a, b) == {} && Cheaper(b, a) == {};
    var c :| c in b.Keys && c !in a.Keys;
    assert c in Only(b, a);
  }

  // ----- lists that charge in the same currencies

  /** A list that does not lose against a second, which does not lose against a third, does not lose there. */
  ghost predicate Transitive(ks: set<string>) {
    forall a: Charges, b: Charges, c: Charges ::
      a.Keys == b.Keys == c.Keys == ks && Ranking(a, b) >= 0 && Ranking(b, c) >= 0 ==> Ranking(a, c) >= 0
  }

  ghost predicate StrictlyTransitive(ks: set<string>) {
    forall a: Charges, b: Charges, c: Charges ::
      a.Keys == b.Keys == c.Keys == ks && Ranking(a, b) > 0 && Ranking(b, c) > 0 ==> Ranking(a, c) > 0
  }

  ghost function OnTwo(ks: set<string>, x: string, y: string, u: nat, v: nat): (m: Charges)
    ensures m.Keys == ks
  {
    map k | k in ks :: if k == x then u else if k == y then v else 0
  }

  /** Lists that differ in two currencies at most are ranked by these two. */
  lemma RankingOnTwo(ks: set<string>, x: string, y: string, u: nat, v: nat, u': nat, v': nat)
    requires x in ks && y in ks && x != y
    ensures Ranking(OnTwo(ks, x, y, u, v), OnTwo(ks, x, y, u', v')) == Sign(u' - u) + Sign(v' - v)
  {
    CheaperOnTwo(ks, x, y, u, v, u', v');
    CheaperOnTwo(ks, x, y, u', v', u, v);
    var a, b := OnTwo(ks, x, y, u, v), OnTwo(ks, x, y, u', v');
    assert Only(a, b) == Only(b, a) == {};
  }

  lemma CheaperOnTwo(ks: set<string>, x: string, y: string, u: nat, v: nat, u': nat, v': nat)
    requires x in ks && y in ks && x != y
    ensures |Cheaper(OnTwo(ks, x, y, u, v), OnTwo(ks, x, y, u', v'))|
         == (if u < u' then 1 else 0) + (if v < v' then 1 else 0)
  {
    var less := Cheaper(OnTwo(ks, x, y, u, v), OnTwo(ks, x, y, u', v'));
    if u < u' && v < v' {
      assert less == {x, y};
    } else if u < u' {
      assert less == {x};
    } else if v < v' {
      assert less == {y};
    } else {
      assert less == {};
    }
  }

  lemma TwoMembers(ks: set<string>) returns (x: string, y: string)
    requires |ks| >= 2
    ensures x in ks && y in ks && x != y
  {
    x :| x in ks;
    assert |ks - {x}| == |ks| - 1;
    y :| y in ks - {x};
  }

  lemma AtMostOneMember(ks: set<string>, x: string)
    requires |ks| <= 1 && x in ks
    ensures ks == {x}
  {
    if y :| y in ks && y != x {
      SubsetCount({x, y}, ks);
      assert false;
    }
  }

  /** Verdicts are transitive exactly if there is one currency at most. */
  lemma TransitiveIff(ks: set<string>)
    ensures Transitive(ks) <==> |ks| <= 1
  {
    hide Ranking, OnTwo;
    if |ks| <= 1 {
      forall a: Charges, b: Charges, c: Charges |
        a.Keys == b.Keys == c.Keys == ks && Ranking(a, b) >= 0 && Ranking(b, c) >= 0
        ensures Ranking(a, c) >= 0
      {
        OneCurrencyTransitive(ks, a, b, c);
      }
    } else {
      var x, y := TwoMembers(ks);
      RankingOnTwo(ks, x, y, 1, 4, 2, 2);
      RankingOnTwo(ks, x, y, 2, 2, 1, 3);
      RankingOnTwo(ks, x, y, 1, 4, 1, 3);
      var a, b, c := OnTwo(ks, x, y, 1, 4), OnTwo(ks, x, y, 2, 2), OnTwo(ks, x, y, 1, 3);
      assert Ranking(a, b) >= 0 && Ranking(b, c) >= 0 && Ranking(a, c) < 0;
    }
  }

  lemma OneCurrencyTransitive(ks: set<string>, a: Charges, b: Charges, c: Charges)
    requires |ks| <= 1 && a.Keys == b.Keys == c.Keys == ks
    requires Ranking(a, b) >= 0 && Ranking(b, c) >= 0
    ensures Ranking(a, c) >= 0
  {
    if x :| x in ks {
      AtMostOneMember(ks, x);
      OneCurrency(a, b, x);
      OneCurrency(b, c, x);
      OneCurrency(a, c, x);
    } else {
      assert Only(a, c) == Only(c, a) == Cheaper(c, a) == {};
    }
  }

  /** Strict verdicts are transitive, so never run in a circle, exactly if there are two currencies at most. */
  lemma StrictlyTransitiveIff(ks: set<string>)
    ensures StrictlyTransitive(ks) <==> |ks| <= 2
  {
    hide Ranking;
    if |ks| <= 2 {
      forall a: Charges, b: Charges, c: Charges |
        a.Keys == b.Keys == c.Keys == ks && Ranking(a, b) > 0 && Ranking(b, c) > 0
        ensures Ranking(a, c) > 0
      {
        TwoCurrenciesDominate(ks, a, b);
        TwoCurrenciesDominate(ks, b, c);
        DominatingWins(ks, a, c);
      }
    } else {
      var x, y := TwoMembers(ks);
      ThirdMember(ks, x, y);
      var z :| z in ks && z != x && z != y;
      var a, b, c := OnThree(ks, x, y, z, 1, 2, 3), OnThree(ks, x, y, z, 2, 3, 1), OnThree(ks, x, y, z, 3, 1, 2);
      TwoOfThree(a, b, x, y, z);
      TwoOfThree(b, c, z, x, y);
      TwoOfThree(c, a, y, z, x);
      RankingAntisymmetric(a, c);
    }
  }

  lemma ThirdMember(ks: set<string>, x: string, y: string)
    requires |ks| >= 3 && x in ks && y in ks
    ensures exists z :: z in ks && z != x && z != y
  {
    var rest := ks - {x} - {y};
    assert |rest| >= 1;
    var z :| z in rest;
  }

  /** Nowhere dearer, and somewhere cheaper. */
  ghost predicate Dominates(ks: set<string>, a: Charges, b: Charges)
    requires a.Keys == b.Keys == ks
  {
    (forall k :: k in ks ==> a[k] <= b[k]) && exists k :: k in ks && a[k] < b[k]
  }

  lemma TwoCurrenciesDominate(ks: set<string>, a: Charges, b: Charges)
    requires |ks| <= 2 && a.Keys == b.Keys == ks && Ranking(a, b) > 0
    ensures Dominates(ks, a, b)
  {
    assert Only(a, b) == Only(b, a) == {};
    assert Cheaper(a, b) != {};
    var x :| x in Cheaper(a, b);
    if y :| y in ks && b[y] < a[y] {
      assert y in Cheaper(b, a);
      assert Cheaper(a, b) <= ks - {y};
      SubsetCount(Cheaper(a, b), ks - {y});
    }
  }

  lemma DominatingWins(ks: set<string>, a: Charges, b: Charges)
    requires a.Keys == b.Keys == ks && Dominates(ks, a, b)
    ensures Ranking(a, b) > 0
  {
    assert Only(a, b) == Only(b, a) == {};
    assert Cheaper(b, a) == {};
    var k :| k in ks && a[k] < b[k];
    assert k in Cheaper(a, b);
  }

  ghost function OnThree(ks: set<string>, x: string, y: string, z: string, u: nat, v: nat, w: nat): (m: Charges)
    ensures m.Keys == ks
  {
    map k | k in ks :: if k == x then u else if k == y then v else if k == z then w else 0
  }

  /** With three currencies the verdicts can run in a circle, so there need be no cheapest list. */
  lemma VerdictsCanCycle(x: string, y: string, z: string)
    requires x != y && y != z && x != z
    ensures var a := map[x := 1, y := 2, z := 3];
            var b := map[x := 2, y := 3, z := 1];
            var c := map[x := 3, y := 1, z := 2];
            Ranking(a, b) > 0 && Ranking(b, c) > 0 && Ranking(c, a) > 0
  {
    hide Ranking;
    var a, b, c := map[x := 1, y := 2, z := 3], map[x := 2, y := 3, z := 1], map[x := 3, y := 1, z := 2];
    TwoOfThree(a, b, x, y, z);
    TwoOfThree(b, c, z, x, y);
    TwoOfThree(c, a, y, z, x);
  }

  /** Of two lists that differ in three currencies at most the one cheaper in two of them wins. */
  lemma TwoOfThree(a: Charges, b: Charges, x: string, y: string, z: string)
    requires x != y && y != z && x != z && a.Keys == b.Keys && {x, y, z} <= a.Keys
    requires forall k :: k in a && k != x && k != y && k != z ==> a[k] == b[k]
    requires a[x] < b[x] && a[y] < b[y] && a[z] > b[z]
    ensures Ranking(a, b) > 0
  {
    assert Cheaper(a, b) == {x, y} && Cheaper(b, a) == {z};
    assert Only(a, b) == {} && Only(b, a) == {};
  }
}
