/**
 * Which providers can hold which authentication method, at what fee, and which provider
 * assignments of one policy are worth keeping.
 */
module Providers {
  import opened Wrappers
  import opened Sequences
  import opened Products
  import opened Costs

  datatype Offer = Offer(kind: string, usageFee: Amount)

  datatype Config = Config(sizeLimitMb: nat, offers: seq<Offer>, uploadFee: Amount)

  /** A provider of the reducer state; config is None while its configuration is unusable. */
  datatype Provider = Provider(url: string, disabled: bool, httpStatus: nat, config: Option<Config>)

  datatype AuthMethod = AuthMethod(kind: string, challengeSize: nat)

  datatype Setup = Setup(providers: seq<Provider>, methods: seq<AuthMethod>)

  datatype PolicyEntry = PolicyEntry(provider: string, usageFee: seq<Amount>)

  /** One assignment of providers to the challenges of a policy. */
  datatype PolicyMap = PolicyMap(entries: seq<PolicyEntry>, diversity: nat)

  const HTTP_OK: nat := 200

  /** The provider object of the state has one entry per URL. */
  ghost predicate ValidSetup(su: Setup) {
    forall i, j :: 0 <= i < j < |su.providers| ==> su.providers[i].url != su.providers[j].url
  }

  predicate Active(p: Provider) {
    p.httpStatus == HTTP_OK && !p.disabled
  }

  function ActiveUrls(ps: seq<Provider>): seq<string> {
    if ps == [] then []
    else
      var front, last := ActiveUrls(ps[..|ps| - 1]), ps[|ps| - 1];
      if Active(last) then front + [last.url] else front
  }

  lemma ActiveUrlsNone()
    ensures ActiveUrls([]) == []
  {
  }

  lemma ActiveUrlsSnoc(ps: seq<Provider>, k: nat)
    requires k < |ps|
    ensures ActiveUrls(ps[..k + 1]) == ActiveUrls(ps[..k]) + (if Active(ps[k]) then [ps[k].url] else [])
  {
    assert ps[..k + 1][..k] == ps[..k];
  }

  function Lookup(ps: seq<Provider>, url: string): Option<Provider> {
    if ps == [] then None
    else if ps[0].url == url then Some(ps[0])
    else Lookup(ps[1..], url)
  }

  lemma {:induction false} LookupFinds(ps: seq<Provider>, k: nat)
    requires k < |ps| && forall i, j :: 0 <= i < j < |ps| ==> ps[i].url != ps[j].url
    ensures Lookup(ps, ps[k].url) == Some(ps[k])
  {
    if k > 0 {
      assert ps[0].url != ps[k].url;
      LookupFinds(ps[1..], k - 1);
    }
  }

  lemma {:induction false} ActiveUrlsMembers(ps: seq<Provider>, url: string)
    ensures url in ActiveUrls(ps) <==> exists k :: 0 <= k < |ps| && ps[k].url == url && Active(ps[k])
  {
    if ps != [] {
      var front, last := ps[..|ps| - 1], ps[|ps| - 1];
      ActiveUrlsMembers(front, url);
      if k :| 0 <= k < |ps| && ps[k].url == url && Active(ps[k]) && k < |ps| - 1 {
        assert front[k] == ps[k];
      }
      if k :| 0 <= k < |front| && front[k].url == url && Active(front[k]) {
        assert ps[k] == front[k];
      }
    }
  }

  lemma {:induction false} ActiveUrlsNoDuplicates(ps: seq<Provider>)
    requires forall i, j :: 0 <= i < j < |ps| ==> ps[i].url != ps[j].url
    ensures NoDuplicates(ActiveUrls(ps))
  {
    if ps != [] {
      var front, last := ps[..|ps| - 1], ps[|ps| - 1];
      ActiveUrlsNoDuplicates(front);
      ActiveUrlsMembers(front, last.url);
    }
  }

  // ----- one slot

  predicate SizeOk(limitMb: nat, size: nat) {
    limitMb * 1024 * 1024 >= size + 1024
  }

  predicate Matches(m: AuthMethod, c: Config, o: Offer) {
    o.kind == m.kind && SizeOk(c.sizeLimitMb, m.challengeSize)
  }

  /** The fee list built by walking the provider's offers. */
  function FeeUpTo(m: AuthMethod, c: Config, n: nat): seq<Amount>
    requires n <= |c.offers|
  {
    if n == 0 then []
    else
      var fee := FeeUpTo(m, c, n - 1);
      if Matches(m, c, c.offers[n - 1]) then Added(Added(fee, c.offers[n - 1].usageFee), c.uploadFee) else fee
  }

  /** The method is one of ours and the provider is up, configured and offers it. */
  predicate Fits(su: Setup, mi: nat, url: string) {
    && mi < |su.methods|
    && var p := Lookup(su.providers, url);
    && p.Some? && p.value.httpStatus == HTTP_OK && p.value.config.Some?
    && exists o :: o in p.value.config.value.offers && Matches(su.methods[mi], p.value.config.value, o)
  }

  function SlotFee(su: Setup, mi: nat, url: string): seq<Amount> {
    var p := Lookup(su.providers, url);
    if mi < |su.methods| && p.Some? && p.value.config.Some? then
      FeeUpTo(su.methods[mi], p.value.config.value, |p.value.config.value.offers|)
    else []
  }

  /** What the first n matching offers charge in one currency, upload included each time. */
  ghost function OfferedTotal(m: AuthMethod, c: Config, n: nat, currency: string): nat
    requires n <= |c.offers|
  {
    if n == 0 then 0
    else OfferedTotal(m, c, n - 1, currency)
         + if Matches(m, c, c.offers[n - 1])
           then Share(c.offers[n - 1].usageFee, currency) + Share(c.uploadFee, currency)
           else 0
  }

  /** A slot's fee is the sum of usage and upload fees of the matching offers, one entry a currency. */
  lemma {:induction false} FeeTotal(m: AuthMethod, c: Config, n: nat, currency: string)
    requires n <= |c.offers|
    ensures Total(FeeUpTo(m, c, n), currency) == OfferedTotal(m, c, n, currency)
    ensures Unique(FeeUpTo(m, c, n))
  {
    if n > 0 {
      FeeTotal(m, c, n - 1, currency);
      OfferAdded(FeeUpTo(m, c, n - 1), c.offers[n - 1].usageFee, c.uploadFee, currency);
    }
  }

  lemma OfferAdded(fee: seq<Amount>, usage: Amount, upload: Amount, currency: string)
    requires Unique(fee)
    ensures var sum := Added(Added(fee, usage), upload);
            && Unique(sum)
            && Total(sum, currency) == Total(fee, currency) + Share(usage, currency) + Share(upload, currency)
  {
    TotalAdded(fee, usage, currency);
    TotalAdded(Added(fee, usage), upload, currency);
  }

  // ----- one assignment

  predicate Feasible(su: Setup, idx: seq<nat>, sel: seq<string>) {
    |sel| == |idx| && forall i :: 0 <= i < |idx| ==> Fits(su, idx[i], sel[i])
  }

  /** Number of different providers used. */
  ghost function Diversity(sel: seq<string>): nat {
    |Elements(sel)|
  }

  function EntriesOf(su: Setup, idx: seq<nat>, sel: seq<string>): (es: seq<PolicyEntry>)
    requires |sel| == |idx|
    ensures |es| == |sel|
    ensures forall i :: 0 <= i < |sel| ==> es[i] == PolicyEntry(sel[i], SlotFee(su, idx[i], sel[i]))
  {
    seq(|sel|, i requires 0 <= i < |sel| => PolicyEntry(sel[i], SlotFee(su, idx[i], sel[i])))
  }

  ghost function MapOf(su: Setup, idx: seq<nat>, sel: seq<string>): PolicyMap
    requires |sel| == |idx|
  {
    PolicyMap(EntriesOf(su, idx, sel), Diversity(sel))
  }

  lemma MapOfInjective(su: Setup, idx: seq<nat>, a: seq<string>, b: seq<string>)
    requires |a| == |b| == |idx| && MapOf(su, idx, a) == MapOf(su, idx, b)
    ensures a == b
  {
    forall i | 0 <= i < |a| ensures a[i] == b[i] {
      assert EntriesOf(su, idx, a)[i].provider == EntriesOf(su, idx, b)[i].provider;
    }
  }

  /** Same upload fee, as many offers, and every offer of the first found at the second. */
  predicate Equiv(su: Setup, p1: string, p2: string) {
    var j1, j2 := Lookup(su.providers, p1), Lookup(su.providers, p2);
    && j1.Some? && j2.Some? && j1.value.config.Some? && j2.value.config.Some?
    && var c1, c2 := j1.value.config.value, j2.value.config.value;
    && c1.uploadFee == c2.uploadFee
    && |c1.offers| == |c2.offers|
    && forall o :: o in c1.offers ==> o in c2.offers
  }

  predicate EquivEntries(su: Setup, a: seq<PolicyEntry>, b: seq<PolicyEntry>) {
    |a| == |b| && forall i :: 0 <= i < |a| ==> Equiv(su, a[i].provider, b[i].provider)
  }

  // ----- the running best of one policy

  datatype Kept = Kept(diversity: nat, maps: seq<PolicyMap>)

  ghost predicate Covered(su: Setup, maps: seq<PolicyMap>, m: PolicyMap) {
    exists k :: 0 <= k < |maps| && EquivEntries(su, maps[k].entries, m.entries)
  }

  ghost function KeepStep(su: Setup, first: bool, idx: seq<nat>, k: Kept, sel: seq<string>): Kept {
    if !Feasible(su, idx, sel) || Diversity(sel) < k.diversity then k
    else
      var maps := if Diversity(sel) > k.diversity then [] else k.maps;
      var m := MapOf(su, idx, sel);
      Kept(Diversity(sel), if first && Covered(su, maps, m) then maps else [m] + maps)
  }

  ghost function KeepAll(su: Setup, first: bool, idx: seq<nat>, k: Kept, sels: seq<seq<string>>): Kept {
    if sels == [] then k
    else KeepStep(su, first, idx, KeepAll(su, first, idx, k, sels[..|sels| - 1]), sels[|sels| - 1])
  }

  lemma KeepNone(su: Setup, first: bool, idx: seq<nat>, k: Kept)
    ensures KeepAll(su, first, idx, k, []) == k
  {
  }

  lemma KeepAllSnoc(su: Setup, first: bool, idx: seq<nat>, k: Kept, sels: seq<seq<string>>, sel: seq<string>)
    ensures KeepAll(su, first, idx, k, sels + [sel]) == KeepStep(su, first, idx, KeepAll(su, first, idx, k, sels), sel)
  {
    assert (sels + [sel])[..|sels|] == sels;
  }

  /** All assignments of active providers to r slots, in the order they are tried. */
  ghost function Selections(su: Setup, r: nat): seq<seq<string>> {
    Product(seq(r, i => ActiveUrls(su.providers)))
  }

  ghost function MapsFor(su: Setup, first: bool, idx: seq<nat>): seq<PolicyMap> {
    KeepAll(su, first, idx, Kept(0, []), Selections(su, |idx|)).maps
  }

  // ----- what is kept

  /** An assignment the builder may use: active providers that offer what is asked of them. */
  ghost predicate Assignment(su: Setup, idx: seq<nat>, sel: seq<string>) {
    Feasible(su, idx, sel) && forall i :: 0 <= i < |sel| ==> sel[i] in ActiveUrls(su.providers)
  }

  ghost predicate MostDiverse(su: Setup, idx: seq<nat>, sel: seq<string>) {
    && Assignment(su, idx, sel)
    && forall other :: Assignment(su, idx, other) ==> Diversity(other) <= Diversity(sel)
  }

  lemma SelectionsMembers(su: Setup, idx: seq<nat>, sel: seq<string>)
    ensures Assignment(su, idx, sel) <==> Feasible(su, idx, sel) && sel in Selections(su, |idx|)
  {
    var choices := seq(|idx|, i => ActiveUrls(su.providers));
    ProductMembers(choices, sel);
  }

  lemma DiversityPositive(sel: seq<string>)
    requires sel != []
    ensures Diversity(sel) > 0
  {
    assert sel[0] in Elements(sel);
  }

  /** What a kept list is worth, relative to the assignments tried so far. */
  ghost predicate KeptInv(su: Setup, first: bool, idx: seq<nat>, sels: seq<seq<string>>, k: Kept) {
    && (k.diversity > 0 <==> k.maps != [])
    && (forall sel :: sel in sels && Feasible(su, idx, sel) ==> Diversity(sel) <= k.diversity)
    && (forall m :: m in k.maps ==>
          exists sel :: sel in sels && Feasible(su, idx, sel) && Diversity(sel) == k.diversity &&
            m == MapOf(su, idx, sel))
    && (forall sel :: sel in sels && Feasible(su, idx, sel) && Diversity(sel) == k.diversity ==>
          MapOf(su, idx, sel) in k.maps || (first && Covered(su, k.maps, MapOf(su, idx, sel))))
    && NoDuplicates(k.maps)
  }

  lemma {:induction false} KeptInvHolds(su: Setup, first: bool, idx: seq<nat>, sels: seq<seq<string>>)
    requires idx != [] && NoDuplicates(sels)
    ensures KeptInv(su, first, idx, sels, KeepAll(su, first, idx, Kept(0, []), sels))
  {
    if sels == [] {
      assert forall sel | sel in sels :: false;
    } else {
      var front, sel := sels[..|sels| - 1], sels[|sels| - 1];
      KeptInvHolds(su, first, idx, front);
      KeptInvStep(su, first, idx, front, sel, KeepAll(su, first, idx, Kept(0, []), front));
      assert sels == front + [sel];
    }
  }

  lemma KeptInvStep(su: Setup, first: bool, idx: seq<nat>, front: seq<seq<string>>, sel: seq<string>, k: Kept)
    requires idx != [] && sel !in front && KeptInv(su, first, idx, front, k)
    ensures KeptInv(su, first, idx, front + [sel], KeepStep(su, first, idx, k, sel))
  {
    var sels, k' := front + [sel], KeepStep(su, first, idx, k, sel);
    assert forall s :: s in sels <==> s in front || s == sel;
    if Feasible(su, idx, sel) && Diversity(sel) >= k.diversity {
      DiversityPositive(sel);
      var m := MapOf(su, idx, sel);
      var maps := if Diversity(sel) > k.diversity then [] else k.maps;
      if m in maps {
        var s :| s in front && Feasible(su, idx, s) && Diversity(s) == k.diversity && m == MapOf(su, idx, s);
        MapOfInjective(su, idx, s, sel);
        assert false;
      }
      KeptInvCover(su, first, idx, front, sel, k);
    }
  }

  lemma CoverGrows(su: Setup, maps: seq<PolicyMap>, head: PolicyMap, m: PolicyMap)
    ensures m in maps ==> m in [head] + maps
    ensures Covered(su, maps, m) ==> Covered(su, [head] + maps, m)
  {
    if k :| 0 <= k < |maps| && EquivEntries(su, maps[k].entries, m.entries) {
      assert ([head] + maps)[k + 1] == maps[k];
    }
  }

  /** Adding a map at the head keeps what was covered covered. */
  lemma KeptInvCover(su: Setup, first: bool, idx: seq<nat>, front: seq<seq<string>>, sel: seq<string>, k: Kept)
    requires KeptInv(su, first, idx, front, k)
    requires Feasible(su, idx, sel) && Diversity(sel) >= k.diversity
    ensures var k' := KeepStep(su, first, idx, k, sel);
            forall s :: (s in front || s == sel) && Feasible(su, idx, s) && Diversity(s) == k'.diversity ==>
              MapOf(su, idx, s) in k'.maps || (first && Covered(su, k'.maps, MapOf(su, idx, s)))
  {
    var k' := KeepStep(su, first, idx, k, sel);
    forall s | (s in front || s == sel) && Feasible(su, idx, s) && Diversity(s) == k'.diversity
      ensures MapOf(su, idx, s) in k'.maps || (first && Covered(su, k'.maps, MapOf(su, idx, s)))
    {
      var m := MapOf(su, idx, s);
      if s != sel {
        assert s in front;
        CoverGrows(su, k.maps, MapOf(su, idx, sel), m);
      }
    }
  }

  lemma SelectionsNoDuplicates(su: Setup, r: nat)
    requires ValidSetup(su)
    ensures NoDuplicates(Selections(su, r))
  {
    ActiveUrlsNoDuplicates(su.providers);
    ProductNoDuplicates(seq(r, i => ActiveUrls(su.providers)));
  }

  /** Every kept map is a most diverse assignment, none kept twice. */
  lemma KeptAreMostDiverse(su: Setup, first: bool, idx: seq<nat>)
    requires ValidSetup(su) && idx != []
    ensures NoDuplicates(MapsFor(su, first, idx))
    ensures forall m :: m in MapsFor(su, first, idx) ==>
              exists sel :: MostDiverse(su, idx, sel) && m == MapOf(su, idx, sel)
  {
    var sels := Selections(su, |idx|);
    var k := KeepAll(su, first, idx, Kept(0, []), sels);
    SelectionsNoDuplicates(su, |idx|);
    KeptInvHolds(su, first, idx, sels);
    forall m | m in k.maps
      ensures exists sel :: MostDiverse(su, idx, sel) && m == MapOf(su, idx, sel)
    {
      var sel :| sel in sels && Feasible(su, idx, sel) && Diversity(sel) == k.diversity && m == MapOf(su, idx, sel);
      SelectionsMembers(su, idx, sel);
      forall other | Assignment(su, idx, other) ensures Diversity(other) <= Diversity(sel) {
        SelectionsMembers(su, idx, other);
      }
      assert MostDiverse(su, idx, sel);
    }
  }

  /**
   * Every most diverse assignment is kept; the policy built first may instead keep one that is
   * equivalent to it slot by slot.
   */
  lemma MostDiverseAreKept(su: Setup, first: bool, idx: seq<nat>, sel: seq<string>)
    requires ValidSetup(su) && idx != [] && MostDiverse(su, idx, sel)
    ensures MapOf(su, idx, sel) in MapsFor(su, first, idx) ||
            (first && Covered(su, MapsFor(su, first, idx), MapOf(su, idx, sel)))
  {
    var sels := Selections(su, |idx|);
    var k := KeepAll(su, first, idx, Kept(0, []), sels);
    SelectionsNoDuplicates(su, |idx|);
    KeptInvHolds(su, first, idx, sels);
    SelectionsMembers(su, idx, sel);
    DiversityPositive(sel);
    var m := k.maps[0];
    assert m in k.maps;
    var s :| s in sels && Feasible(su, idx, s) && Diversity(s) == k.diversity && m == MapOf(su, idx, s);
    SelectionsMembers(su, idx, s);
    assert Diversity(s) <= Diversity(sel);
  }

  /** No map of the list is equivalent to one found after it, that is, standing before it. */
  ghost predicate Irredundant(su: Setup, maps: seq<PolicyMap>) {
    forall i, j :: 0 <= i < j < |maps| ==> !EquivEntries(su, maps[j].entries, maps[i].entries)
  }

  lemma {:induction false} FirstPolicyIrredundant(su: Setup, idx: seq<nat>, sels: seq<seq<string>>)
    ensures Irredundant(su, KeepAll(su, true, idx, Kept(0, []), sels).maps)
  {
    if sels != [] {
      var front, sel := sels[..|sels| - 1], sels[|sels| - 1];
      FirstPolicyIrredundant(su, idx, front);
      var k, k' := KeepAll(su, true, idx, Kept(0, []), front), KeepAll(su, true, idx, Kept(0, []), sels);
      assert Irredundant(su, k.maps);
      assert k'.maps == k.maps || |k'.maps| == 1 ||
        (k'.maps == [MapOf(su, idx, sel)] + k.maps && !Covered(su, k.maps, MapOf(su, idx, sel)));
    }
  }

  /** Method mi has an active provider that offers it. */
  ghost predicate Served(su: Setup, mi: nat) {
    exists url :: url in ActiveUrls(su.providers) && Fits(su, mi, url)
  }

  lemma NonEmptyIffAssignment(su: Setup, first: bool, idx: seq<nat>)
    requires ValidSetup(su) && idx != []
    ensures MapsFor(su, first, idx) != [] <==> exists sel :: Assignment(su, idx, sel)
  {
    var sels := Selections(su, |idx|);
    var k := KeepAll(su, first, idx, Kept(0, []), sels);
    SelectionsNoDuplicates(su, |idx|);
    KeptInvHolds(su, first, idx, sels);
    if k.maps != [] {
      assert k.maps[0] in k.maps;
      var sel :| sel in sels && Feasible(su, idx, sel) && Diversity(sel) == k.diversity &&
        k.maps[0] == MapOf(su, idx, sel);
      SelectionsMembers(su, idx, sel);
    }
    if sel :| Assignment(su, idx, sel) {
      SelectionsMembers(su, idx, sel);
      DiversityPositive(sel);
    }
  }

  lemma {:induction false} AssignmentIfServed(su: Setup, idx: seq<nat>) returns (sel: seq<string>)
    requires forall i :: 0 <= i < |idx| ==> Served(su, idx[i])
    ensures Assignment(su, idx, sel)
  {
    if idx == [] {
      sel := [];
    } else {
      var t := AssignmentIfServed(su, idx[1..]);
      assert Served(su, idx[0]);
      var url :| url in ActiveUrls(su.providers) && Fits(su, idx[0], url);
      sel := [url] + t;
    }
  }

  /** A policy has something to choose from exactly when each of its methods is served. */
  lemma NonEmptyIffServed(su: Setup, first: bool, idx: seq<nat>)
    requires ValidSetup(su) && idx != []
    ensures MapsFor(su, first, idx) != [] <==> forall i :: 0 <= i < |idx| ==> Served(su, idx[i])
  {
    NonEmptyIffAssignment(su, first, idx);
    if sel :| Assignment(su, idx, sel) {
      forall i | 0 <= i < |idx| ensures Served(su, idx[i]) {
        assert sel[i] in ActiveUrls(su.providers) && Fits(su, idx[i], sel[i]);
      }
    }
    if forall i :: 0 <= i < |idx| ==> Served(su, idx[i]) {
      var sel := AssignmentIfServed(su, idx);
    }
  }

  // ----- what equivalent providers charge

  /** What one offer of the right kind adds to the fee. */
  ghost function OfferFee(m: AuthMethod, upload: Amount, currency: string): Offer -> nat {
    (o: Offer) => if o.kind == m.kind then Share(o.usageFee, currency) + Share(upload, currency) else 0
  }

  /** Without repeated offers the fee is a sum over the set of offers. */
  lemma {:induction false} OfferedIsSum(m: AuthMethod, c: Config, n: nat, currency: string)
    requires n <= |c.offers| && NoDuplicates(c.offers) && SizeOk(c.sizeLimitMb, m.challengeSize)
    ensures OfferedTotal(m, c, n, currency) == SumOver(Elements(c.offers[..n]), OfferFee(m, c.uploadFee, currency))
  {
    if n == 0 {
      assert Elements(c.offers[..0]) == {};
    } else {
      OfferedIsSum(m, c, n - 1, currency);
      var o, before := c.offers[n - 1], c.offers[..n - 1];
      assert Elements(c.offers[..n]) == Elements(before) + {o};
      assert o !in before;
      SumOverInsert(Elements(before), OfferFee(m, c.uploadFee, currency), o);
    }
  }

  /** If the first list repeats nothing, neither does the second, and they have the same elements. */
  lemma IncludedIsPermuted<T>(a: seq<T>, b: seq<T>)
    requires NoDuplicates(a) && |a| == |b| && forall x :: x in a ==> x in b
    ensures Elements(a) == Elements(b) && NoDuplicates(b)
  {
    ElementsCount(a);
    ElementsAtMost(b);
    SubsetEqual(Elements(a), Elements(b));
    if i, j :| 0 <= i < j < |b| && b[i] == b[j] {
      var rest := b[..j] + b[j + 1..];
      assert Elements(rest) == Elements(b);
      ElementsAtMost(rest);
      assert false;
    }
  }

  lemma {:induction false} ElementsAtMost<T>(s: seq<T>)
    ensures |Elements(s)| <= |s|
  {
    if s == [] {
      assert Elements(s) == {};
    } else {
      ElementsAtMost(s[..|s| - 1]);
      assert Elements(s) == Elements(s[..|s| - 1]) + {s[|s| - 1]};
    }
  }

  lemma SubsetEqual<T>(a: set<T>, b: set<T>)
    requires a <= b && |b| <= |a|
    ensures a == b
  {
    if x :| x in b && x !in a {
      SubsetCount(a, b - {x});
      assert false;
    }
  }

  /** No provider lists an offer twice. */
  ghost predicate OffersDistinct(su: Setup) {
    forall p :: p in su.providers && p.config.Some? ==> NoDuplicates(p.config.value.offers)
  }

  lemma {:induction false} LookupMember(ps: seq<Provider>, url: string)
    ensures Lookup(ps, url).Some? ==> Lookup(ps, url).value in ps
  {
    if ps != [] && ps[0].url != url {
      LookupMember(ps[1..], url);
    }
  }

  /** If no offer is listed twice, equivalent providers that both serve a method charge the same for it. */
  lemma EquivalentFees(su: Setup, mi: nat, p1: string, p2: string, currency: string)
    requires OffersDistinct(su) && Equiv(su, p1, p2) && Fits(su, mi, p1) && Fits(su, mi, p2)
    ensures Total(SlotFee(su, mi, p1), currency) == Total(SlotFee(su, mi, p2), currency)
  {
    LookupMember(su.providers, p1);
    LookupMember(su.providers, p2);
    var m := su.methods[mi];
    var c1, c2 := Lookup(su.providers, p1).value.config.value, Lookup(su.providers, p2).value.config.value;
    IncludedIsPermuted(c1.offers, c2.offers);
    assert c1.offers[..|c1.offers|] == c1.offers && c2.offers[..|c2.offers|] == c2.offers;
    FeeTotal(m, c1, |c1.offers|, currency);
    FeeTotal(m, c2, |c2.offers|, currency);
    OfferedIsSum(m, c1, |c1.offers|, currency);
    OfferedIsSum(m, c2, |c2.offers|, currency);
  }

  /** So an assignment that is left out costs the same, slot by slot, as the map that covers it. */
  lemma CoveredCostsTheSame(su: Setup, idx: seq<nat>, sel: seq<string>, kept: seq<string>, currency: string, j: nat)
    requires OffersDistinct(su) && Feasible(su, idx, sel) && Feasible(su, idx, kept) && j < |idx|
    requires EquivEntries(su, MapOf(su, idx, kept).entries, MapOf(su, idx, sel).entries)
    ensures Total(MapOf(su, idx, sel).entries[j].usageFee, currency)
         == Total(MapOf(su, idx, kept).entries[j].usageFee, currency)
  {
    assert Equiv(su, MapOf(su, idx, kept).entries[j].provider, MapOf(su, idx, sel).entries[j].provider);
    EquivalentFees(su, idx[j], kept[j], sel[j], currency);
  }

  // ----- the rules for providers, in their own fields

  /** This provider is enabled and up, and offers the kind of the method at a size that fits. */
  ghost predicate CanHold(p: Provider, m: AuthMethod) {
    && !p.disabled && p.httpStatus == 200 && p.config.Some?
    && p.config.value.sizeLimitMb * 1048576 >= m.challengeSize + 1024
    && exists o :: o in p.config.value.offers && o.kind == m.kind
  }

  /** Some provider of that URL can hold the method with that number. */
  ghost predicate HoldsAt(su: Setup, mi: nat, url: string) {
    mi < |su.methods| && exists p :: p in su.providers && p.url == url && CanHold(p, su.methods[mi])
  }

  /** A provider may be used for a method exactly if it is enabled, up, configured and offers it. */
  lemma UsableIff(su: Setup, mi: nat, url: string)
    requires ValidSetup(su)
    ensures Fits(su, mi, url) && url in ActiveUrls(su.providers) <==> HoldsAt(su, mi, url)
  {
    var ps := su.providers;
    ActiveUrlsMembers(ps, url);
    if Fits(su, mi, url) && url in ActiveUrls(ps) {
      var k :| 0 <= k < |ps| && ps[k].url == url && Active(ps[k]);
      LookupFinds(ps, k);
      assert ps[k] in ps && CanHold(ps[k], su.methods[mi]);
    }
    if HoldsAt(su, mi, url) {
      var p :| p in ps && p.url == url && CanHold(p, su.methods[mi]);
      var k :| 0 <= k < |ps| && ps[k] == p;
      LookupFinds(ps, k);
      var o :| o in p.config.value.offers && o.kind == su.methods[mi].kind;
      assert Matches(su.methods[mi], p.config.value, o);
      assert Active(ps[k]);
    }
  }

  /** So an assignment is one provider that can hold its method for each of the slots. */
  lemma AssignmentIff(su: Setup, idx: seq<nat>, sel: seq<string>)
    requires ValidSetup(su)
    ensures Assignment(su, idx, sel) <==> |sel| == |idx| && forall i :: 0 <= i < |idx| ==> HoldsAt(su, idx[i], sel[i])
  {
    if |sel| == |idx| {
      forall i | 0 <= i < |idx|
        ensures Fits(su, idx[i], sel[i]) && sel[i] in ActiveUrls(su.providers) <==> HoldsAt(su, idx[i], sel[i])
      {
        UsableIff(su, idx[i], sel[i]);
      }
    }
  }

  /** And a method is served exactly if some provider can hold it. */
  lemma ServedIff(su: Setup, mi: nat)
    requires ValidSetup(su)
    ensures Served(su, mi) <==> mi < |su.methods| && exists p :: p in su.providers && CanHold(p, su.methods[mi])
  {
    if Served(su, mi) {
      var url :| url in ActiveUrls(su.providers) && Fits(su, mi, url);
      UsableIff(su, mi, url);
    }
    if mi < |su.methods| {
      if p :| p in su.providers && CanHold(p, su.methods[mi]) {
        UsableIff(su, mi, p.url);
      }
    }
  }
}
