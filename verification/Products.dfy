/**
 * Lexicographic products of choice lists. Both recursive searches of the policy builder walk
 * such a product: provider_candidate over active providers, find_best_map over policy maps.
 */
module Products {
  import opened Sequences

  /** All ways to pick one element from each choice list; the last position varies fastest. */
  function Product<T>(choices: seq<seq<T>>): seq<seq<T>>
    decreases |choices|
  {
    if choices == [] then [[]] else Spread(choices[0], Product(choices[1..]))
  }

  /** For each element of xs in turn, that element in front of every tail. */
  function Spread<T>(xs: seq<T>, tails: seq<seq<T>>): seq<seq<T>>
    decreases |xs|
  {
    if xs == [] then []
    else Spread(xs[..|xs| - 1], tails) + PrependAll(xs[|xs| - 1], tails)
  }

  lemma SpreadSnoc<T>(xs: seq<T>, x: T, tails: seq<seq<T>>)
    ensures Spread(xs + [x], tails) == Spread(xs, tails) + PrependAll(x, tails)
  {
    assert (xs + [x])[..|xs|] == xs;
  }

  lemma {:induction false} SpreadConcat<T>(xs: seq<T>, ys: seq<T>, tails: seq<seq<T>>)
    ensures Spread(xs + ys, tails) == Spread(xs, tails) + Spread(ys, tails)
    decreases |ys|
  {
    if ys == [] {
      assert xs + ys == xs;
    } else {
      var zs, y := ys[..|ys| - 1], ys[|ys| - 1];
      calc {
        Spread(xs + ys, tails);
        { assert xs + ys == (xs + zs) + [y]; SpreadSnoc(xs + zs, y, tails); }
        Spread(xs + zs, tails) + PrependAll(y, tails);
        { SpreadConcat(xs, zs, tails); }
        (Spread(xs, tails) + Spread(zs, tails)) + PrependAll(y, tails);
        { Associative(Spread(xs, tails), Spread(zs, tails), PrependAll(y, tails)); }
        Spread(xs, tails) + (Spread(zs, tails) + PrependAll(y, tails));
      }
    }
  }

  /** Where the element at (i, k) ends up: i-th head, k-th tail. */
  lemma {:induction false} SpreadAt<T>(xs: seq<T>, tails: seq<seq<T>>, i: nat, k: nat)
    requires i < |xs| && k < |tails|
    ensures |Spread(xs, tails)| == |xs| * |tails|
    ensures i * |tails| + k < |xs| * |tails|
    ensures Spread(xs, tails)[i * |tails| + k] == [xs[i]] + tails[k]
    decreases |xs|
  {
    var n := |xs| - 1;
    SpreadLength(xs[..n], tails);
    SpreadLength(xs, tails);
    assert i * |tails| + k < (i + 1) * |tails| <= |xs| * |tails| by {
      assert (|xs| - (i + 1)) * |tails| >= 0;
    }
    if i < n {
      SpreadAt(xs[..n], tails, i, k);
    } else {
      assert n * |tails| == |Spread(xs[..n], tails)|;
    }
  }

  lemma {:induction false} SpreadLength<T>(xs: seq<T>, tails: seq<seq<T>>)
    ensures |Spread(xs, tails)| == |xs| * |tails|
    decreases |xs|
  {
    if xs != [] {
      SpreadLength(xs[..|xs| - 1], tails);
      assert |xs| * |tails| == (|xs| - 1) * |tails| + |tails|;
    }
  }

  /** A position of the spread list comes from one head and one tail. */
  lemma {:induction false} SpreadSplit<T>(xs: seq<T>, tails: seq<seq<T>>, p: nat) returns (i: nat, k: nat)
    requires p < |Spread(xs, tails)|
    ensures i < |xs| && k < |tails| && p == i * |tails| + k
    ensures Spread(xs, tails)[p] == [xs[i]] + tails[k]
    decreases |xs|
  {
    var n := |xs| - 1;
    SpreadLength(xs[..n], tails);
    if p < |Spread(xs[..n], tails)| {
      i, k := SpreadSplit(xs[..n], tails, p);
    } else {
      i, k := n, p - |Spread(xs[..n], tails)|;
    }
  }

  ghost predicate Picks<T>(choices: seq<seq<T>>, s: seq<T>) {
    |s| == |choices| && forall i :: 0 <= i < |s| ==> s[i] in choices[i]
  }

  lemma PicksCons<T>(choices: seq<seq<T>>, x: T, t: seq<T>)
    requires choices != []
    ensures Picks(choices, [x] + t) <==> x in choices[0] && Picks(choices[1..], t)
  {
    var s := [x] + t;
    if Picks(choices, s) {
      forall i | 0 <= i < |t| ensures t[i] in choices[1..][i] {
        assert s[i + 1] in choices[i + 1];
      }
      assert s[0] in choices[0];
    }
    if x in choices[0] && Picks(choices[1..], t) {
      forall i | 0 <= i < |s| ensures s[i] in choices[i] {
        if i > 0 {
          assert t[i - 1] in choices[1..][i - 1];
        }
      }
    }
  }

  lemma SpreadMembers<T>(xs: seq<T>, tails: seq<seq<T>>, x: T, t: seq<T>)
    ensures [x] + t in Spread(xs, tails) <==> x in xs && t in tails
  {
    if [x] + t in Spread(xs, tails) {
      var p :| 0 <= p < |Spread(xs, tails)| && Spread(xs, tails)[p] == [x] + t;
      var i, k := SpreadSplit(xs, tails, p);
      assert t == ([x] + t)[1..] == ([xs[i]] + tails[k])[1..] == tails[k];
      assert x == ([x] + t)[0] == ([xs[i]] + tails[k])[0] == xs[i];
    }
    if x in xs && t in tails {
      var i :| 0 <= i < |xs| && xs[i] == x;
      var k :| 0 <= k < |tails| && tails[k] == t;
      SpreadAt(xs, tails, i, k);
    }
  }

  lemma SpreadNonEmpty<T>(xs: seq<T>, tails: seq<seq<T>>)
    ensures [] !in Spread(xs, tails)
  {
    forall p | 0 <= p < |Spread(xs, tails)| ensures |Spread(xs, tails)[p]| > 0 {
      var i, k := SpreadSplit(xs, tails, p);
    }
  }

  /** The product lists exactly the picks. */
  lemma {:induction false} ProductMembers<T>(choices: seq<seq<T>>, s: seq<T>)
    ensures s in Product(choices) <==> Picks(choices, s)
    decreases |choices|
  {
    if choices == [] {
    } else if s == [] {
      SpreadNonEmpty(choices[0], Product(choices[1..]));
    } else {
      assert s == [s[0]] + s[1..];
      SpreadMembers(choices[0], Product(choices[1..]), s[0], s[1..]);
      PicksCons(choices, s[0], s[1..]);
      ProductMembers(choices[1..], s[1..]);
    }
  }

  /** Choice lists without repetition give a product without repetition. */
  lemma {:induction false} ProductNoDuplicates<T>(choices: seq<seq<T>>)
    requires forall i :: 0 <= i < |choices| ==> NoDuplicates(choices[i])
    ensures NoDuplicates(Product(choices))
    decreases |choices|
  {
    if choices != [] {
      var xs, tails := choices[0], Product(choices[1..]);
      ProductNoDuplicates(choices[1..]);
      forall p, q | 0 <= p < q < |Spread(xs, tails)|
        ensures Spread(xs, tails)[p] != Spread(xs, tails)[q]
      {
        var i, k := SpreadSplit(xs, tails, p);
        var j, l := SpreadSplit(xs, tails, q);
        assert ([xs[i]] + tails[k])[1..] == tails[k];
        assert ([xs[j]] + tails[l])[1..] == tails[l];
      }
    }
  }

  ghost function Size<T>(choices: seq<seq<T>>): nat
    decreases |choices|
  {
    if choices == [] then 1 else |choices[0]| * Size(choices[1..])
  }

  lemma {:induction false} ProductLength<T>(choices: seq<seq<T>>)
    ensures |Product(choices)| == Size(choices)
    decreases |choices|
  {
    if choices != [] {
      ProductLength(choices[1..]);
      SpreadLength(choices[0], Product(choices[1..]));
    }
  }
}
