/** A setup in which dropping equivalent assignments drops the cheapest one. */
module EquivalenceExample {
  import opened Wrappers
  import opened Sequences
  import opened Products
  import opened Costs
  import opened Providers

  const FEE := Amount("EUR", 1)
  const ASKED := Offer("question", FEE)
  const OTHER := Offer("sms", FEE)

  /** The first provider lists its offer twice, the others offer something else besides. */
  const TWICE := Provider("a", false, HTTP_OK, Some(Config(1, [ASKED, ASKED], FEE)))
  const ONCE := Provider("b", false, HTTP_OK, Some(Config(1, [ASKED, OTHER], FEE)))
  const AGAIN := Provider("c", false, HTTP_OK, Some(Config(1, [ASKED, OTHER], FEE)))

  const SETUP := Setup([TWICE, ONCE, AGAIN], [AuthMethod("question", 0), AuthMethod("question", 0)])

  lemma Lookups()
    ensures Lookup(SETUP.providers, "a") == Some(TWICE)
    ensures Lookup(SETUP.providers, "b") == Some(ONCE)
    ensures Lookup(SETUP.providers, "c") == Some(AGAIN)
  {
    var ps := SETUP.providers;
    assert ps[0] == TWICE && ps[1] == ONCE && ps[2] == AGAIN;
    LookupFinds(ps, 0);
    LookupFinds(ps, 1);
    LookupFinds(ps, 2);
  }

  predicate Known(url: string) {
    url == "a" || url == "b" || url == "c"
  }

  lemma AllFit(mi: nat, url: string)
    requires mi < 2 && Known(url)
    ensures Fits(SETUP, mi, url)
  {
    Lookups();
    assert Matches(SETUP.methods[mi], TWICE.config.value, TWICE.config.value.offers[0]);
    assert Matches(SETUP.methods[mi], ONCE.config.value, ONCE.config.value.offers[0]);
  }

  /** Equivalence runs one way only between the first provider and the others. */
  lemma EquivalentWhere(p: string, q: string)
    requires Known(p) && Known(q)
    ensures Equiv(SETUP, p, q) <==> p == "a" || q != "a"
  {
    Lookups();
    assert OTHER in ONCE.config.value.offers && OTHER !in TWICE.config.value.offers by {
      assert ONCE.config.value.offers[1] == OTHER;
    }
    assert ASKED in ONCE.config.value.offers by {
      assert ONCE.config.value.offers[0] == ASKED;
    }
  }

  /** The first provider charges for its offer twice. */
  lemma FeesDiffer(mi: nat, url: string)
    requires mi < 2 && Known(url)
    ensures Total(SlotFee(SETUP, mi, url), "EUR") == if url == "a" then 4 else 2
  {
    Lookups();
    var m, c := SETUP.methods[mi], if url == "a" then TWICE.config.value else ONCE.config.value;
    FeeTotal(m, c, 2, "EUR");
    assert OfferedTotal(m, c, 0, "EUR") == 0;
    assert Matches(m, c, c.offers[0]);
    assert OfferedTotal(m, c, 1, "EUR") == 2;
    assert Matches(m, c, c.offers[1]) <==> url == "a";
  }

  // ----- the assignments tried, in order

  lemma Urls()
    ensures ActiveUrls(SETUP.providers) == ["a", "b", "c"]
  {
    var ps := SETUP.providers;
    assert ps[..0] == [] && ps[..3] == ps;
    ActiveUrlsSnoc(ps, 0);
    ActiveUrlsSnoc(ps, 1);
    ActiveUrlsSnoc(ps, 2);
    hide ActiveUrls;
    assert ActiveUrls(ps[..1]) == ["a"] && ActiveUrls(ps[..2]) == ["a", "b"] by {
      assert ActiveUrls(ps[..0]) == [] by {
        ActiveUrlsNone();
      }
    }
  }

  /** The product of two lists of choices, row by row. */
  lemma ProductOfTwo(xs: seq<string>, ys: seq<string>)
    ensures Product([xs, ys]) == Spread(xs, Spread(ys, [[]]))
  {
    var choices := [xs, ys];
    assert choices[1..] == [ys] && choices[1..][1..] == [];
    assert Product(choices[1..][1..]) == [[]];
  }

  lemma Singles()
    ensures Spread(["a", "b", "c"], [[]]) == [["a"], ["b"], ["c"]]
  {
    var ends: seq<seq<string>> := [[]];
    SpreadThree("a", "b", "c", ends);
    hide Spread;
    assert ["a"] + ends[0] == ["a"] && ["b"] + ends[0] == ["b"] && ["c"] + ends[0] == ["c"];
  }

  ghost function Row(x: string): seq<seq<string>> {
    [[x, "a"], [x, "b"], [x, "c"]]
  }

  lemma Tried()
    ensures Selections(SETUP, 2) == Row("a") + Row("b") + Row("c")
  {
    var urls := ["a", "b", "c"];
    Urls();
    ProductOfTwo(urls, urls);
    Singles();
    var tails := [["a"], ["b"], ["c"]];
    SpreadThree("a", "b", "c", tails);
    PrependThree("a", tails);
    PrependThree("b", tails);
    PrependThree("c", tails);
    hide Spread, Product, PrependAll, ActiveUrls;
    assert seq(2, i => ActiveUrls(SETUP.providers)) == [urls, urls];
  }

  lemma SpreadThree(a: string, b: string, c: string, tails: seq<seq<string>>)
    ensures Spread([a, b, c], tails) == PrependAll(a, tails) + PrependAll(b, tails) + PrependAll(c, tails)
  {
    var none := [a][..0];
    assert [a, b, c] == [a, b] + [c] && [a, b] == [a] + [b] && [a] == none + [a];
    SpreadSnoc([a, b], c, tails);
    SpreadSnoc([a], b, tails);
    SpreadSnoc(none, a, tails);
  }

  lemma PrependThree(x: string, tails: seq<seq<string>>)
    requires tails == [["a"], ["b"], ["c"]]
    ensures PrependAll(x, tails) == Row(x)
  {
    assert [x] + tails[0] == [x, "a"] && [x] + tails[1] == [x, "b"] && [x] + tails[2] == [x, "c"];
  }

  // ----- what is kept of them

  ghost function MapFor(p: string, q: string): PolicyMap {
    MapOf(SETUP, [0, 1], [p, q])
  }

  lemma PairShape(p: string, q: string)
    requires Known(p) && Known(q)
    ensures Feasible(SETUP, [0, 1], [p, q]) && Diversity([p, q]) == if p == q then 1 else 2
  {
    AllFit(0, p);
    AllFit(1, q);
    assert Elements([p, q]) == {p, q};
  }

  /** A pair of different providers is dropped if a kept pair covers it, and kept at the head if none does. */
  lemma PairStep(k: Kept, p: string, q: string)
    requires Known(p) && Known(q) && p != q && k.diversity == 2
    ensures KeepStep(SETUP, true, [0, 1], k, [p, q]) ==
            if Covered(SETUP, k.maps, MapFor(p, q)) then k else Kept(2, [MapFor(p, q)] + k.maps)
  {
    PairShape(p, q);
  }

  lemma CoverWhere(p: string, q: string, p': string, q': string)
    requires Known(p) && Known(q) && Known(p') && Known(q')
    ensures EquivEntries(SETUP, MapFor(p, q).entries, MapFor(p', q').entries)
        <==> (p == "a" || p' != "a") && (q == "a" || q' != "a")
  {
    EquivalentWhere(p, p');
    EquivalentWhere(q, q');
    var es, fs := MapFor(p, q).entries, MapFor(p', q').entries;
    assert es[0].provider == p && es[1].provider == q && fs[0].provider == p' && fs[1].provider == q';
  }

  /** Two maps survive; every other pair of different providers is covered by one of them. */
  lemma KeptMaps()
    ensures MapsFor(SETUP, true, [0, 1]) == [MapFor("b", "a"), MapFor("a", "b")]
  {
    hide KeepStep, KeepAll, Selections, MapFor, EquivEntries;
    var idx, ab, ba := [0, 1], MapFor("a", "b"), MapFor("b", "a");
    var k2, k4 := Kept(2, [ab]), Kept(2, [ba] + [ab]);
    Tried();
    var s1, s2 := ["a", "a"], ["a", "b"];
    SamePairFirst();
    AfterTwo(k2, k4);
    assert Selections(SETUP, 2) == [s1] + [s2] + [["a", "c"]] + [["b", "a"]] + [["b", "b"]] + [["b", "c"]]
                                   + [["c", "a"]] + [["c", "b"]] + [["c", "c"]];
    var start := Kept(0, []);
    var l1 := [s1] + [s2];
    var l2 := l1 + [["a", "c"]];
    var l3 := l2 + [["b", "a"]];
    var l4 := l3 + [["b", "b"]];
    var l5 := l4 + [["b", "c"]];
    var l6 := l5 + [["c", "a"]];
    var l7 := l6 + [["c", "b"]];
    KeepAllSnoc(SETUP, true, idx, start, l1, ["a", "c"]);
    KeepAllSnoc(SETUP, true, idx, start, l2, ["b", "a"]);
    KeepAllSnoc(SETUP, true, idx, start, l3, ["b", "b"]);
    KeepAllSnoc(SETUP, true, idx, start, l4, ["b", "c"]);
    KeepAllSnoc(SETUP, true, idx, start, l5, ["c", "a"]);
    KeepAllSnoc(SETUP, true, idx, start, l6, ["c", "b"]);
    KeepAllSnoc(SETUP, true, idx, start, l7, ["c", "c"]);
  }

  lemma SamePairFirst()
    ensures KeepAll(SETUP, true, [0, 1], Kept(0, []), [["a", "a"]] + [["a", "b"]]) == Kept(2, [MapFor("a", "b")])
  {
    var none: seq<seq<string>> := [["a"]][..0];
    KeepNone(SETUP, true, [0, 1], Kept(0, []));
    KeepAllSnoc(SETUP, true, [0, 1], Kept(0, []), none, ["a", "a"]);
    KeepAllSnoc(SETUP, true, [0, 1], Kept(0, []), [["a", "a"]], ["a", "b"]);
    assert none + [["a", "a"]] == [["a", "a"]];
    PairShape("a", "a");
    PairShape("a", "b");
    var first := KeepStep(SETUP, true, [0, 1], Kept(0, []), ["a", "a"]);
    assert first.diversity == 1;
  }

  /** The steps from the second assignment on. */
  lemma AfterTwo(k2: Kept, k4: Kept)
    requires k2 == Kept(2, [MapFor("a", "b")]) && k4 == Kept(2, [MapFor("b", "a")] + [MapFor("a", "b")])
    ensures KeepStep(SETUP, true, [0, 1], k2, ["a", "c"]) == k2
    ensures KeepStep(SETUP, true, [0, 1], k2, ["b", "a"]) == k4
    ensures KeepStep(SETUP, true, [0, 1], k4, ["b", "b"]) == KeepStep(SETUP, true, [0, 1], k4, ["c", "c"]) == k4
    ensures KeepStep(SETUP, true, [0, 1], k4, ["b", "c"]) == KeepStep(SETUP, true, [0, 1], k4, ["c", "a"]) == k4
    ensures KeepStep(SETUP, true, [0, 1], k4, ["c", "b"]) == k4
  {
    hide MapFor, KeepStep, EquivEntries, Covered;
    PairStep(k2, "a", "c");
    PairStep(k2, "b", "a");
    PairStep(k4, "b", "c");
    PairStep(k4, "c", "a");
    PairStep(k4, "c", "b");
    SamePairDropped(k4, "b");
    SamePairDropped(k4, "c");
    CoveredBy(k2.maps, 0, "a", "b", "a", "c");
    CoveredBy(k4.maps, 1, "a", "b", "b", "c");
    CoveredBy(k4.maps, 1, "a", "b", "c", "b");
    CoveredBy(k4.maps, 0, "b", "a", "c", "a");
    NotCovered(k2.maps);
  }

  lemma SamePairDropped(k: Kept, p: string)
    requires Known(p) && k.diversity == 2
    ensures KeepStep(SETUP, true, [0, 1], k, [p, p]) == k
  {
    PairShape(p, p);
  }

  lemma CoveredBy(maps: seq<PolicyMap>, i: nat, p: string, q: string, p': string, q': string)
    requires Known(p) && Known(q) && Known(p') && Known(q') && i < |maps| && maps[i] == MapFor(p, q)
    requires (p == "a" || p' != "a") && (q == "a" || q' != "a")
    ensures Covered(SETUP, maps, MapFor(p', q'))
  {
    CoverWhere(p, q, p', q');
  }

  lemma NotCovered(maps: seq<PolicyMap>)
    requires maps == [MapFor("a", "b")]
    ensures !Covered(SETUP, maps, MapFor("b", "a"))
  {
    CoverWhere("a", "b", "b", "a");
  }

  /**
   * Both maps kept charge six. The assignment to the other two providers is as diverse and charges
   * four, but is dropped as equivalent.
   */
  lemma CheapestIsDropped()
    ensures MapFor("b", "c") !in MapsFor(SETUP, true, [0, 1])
    ensures Diversity(["b", "c"]) == Diversity(["a", "b"]) == Diversity(["b", "a"]) == 2
    ensures PairCost(MapFor("a", "b")) == PairCost(MapFor("b", "a")) == 6 && PairCost(MapFor("b", "c")) == 4
    ensures !OffersDistinct(SETUP)
  {
    KeptMaps();
    PairShape("b", "c");
    PairShape("a", "b");
    PairShape("b", "a");
    PairCostIs("a", "b");
    PairCostIs("b", "a");
    PairCostIs("b", "c");
    assert TWICE in SETUP.providers by {
      assert SETUP.providers[0] == TWICE;
    }
    assert TWICE.config.value.offers[0] == TWICE.config.value.offers[1];
  }

  ghost function PairCost(m: PolicyMap): nat
    requires |m.entries| == 2
  {
    Total(m.entries[0].usageFee, "EUR") + Total(m.entries[1].usageFee, "EUR")
  }

  lemma PairCostIs(p: string, q: string)
    requires Known(p) && Known(q)
    ensures PairCost(MapFor(p, q)) == (if p == "a" then 4 else 2) + (if q == "a" then 4 else 2)
  {
    FeesDiffer(0, p);
    FeesDiffer(1, q);
  }
}
