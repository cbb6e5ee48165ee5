/**
 * The r-element subsets of the first n authentication methods, as increasing index sequences,
 * and what the choice of r means for recovery.
 */
module Subsets {
  import opened Sequences

  /** Increasing sequences of length r over lo..n-1, in lexicographic order. */
  function Combos(lo: nat, n: nat, r: nat): seq<seq<nat>>
    decreases if lo < n then n - lo else 0, r
  {
    if r == 0 then [[]]
    else if lo >= n then []
    else PrependAll(lo, Combos(lo + 1, n, r - 1)) + Combos(lo + 1, n, r)
  }

  ghost predicate Increasing(s: seq<nat>, lo: nat, n: nat) {
    && (forall i :: 0 <= i < |s| ==> lo <= s[i] < n)
    && forall i, j :: 0 <= i < j < |s| ==> s[i] < s[j]
  }

  /** Sequences starting with x, seen through their tails. */
  lemma PrependAllMembers(x: nat, css: seq<seq<nat>>, s: seq<nat>)
    ensures s in PrependAll(x, css) <==> |s| > 0 && s[0] == x && s[1..] in css
  {
    if s in PrependAll(x, css) {
      var k :| 0 <= k < |css| && s == [x] + css[k];
      assert s[1..] == css[k];
    }
    if |s| > 0 && s[0] == x && s[1..] in css {
      var k :| 0 <= k < |css| && css[k] == s[1..];
      assert s == [x] + css[k] == PrependAll(x, css)[k];
    }
  }

  lemma IncreasingCons(s: seq<nat>, lo: nat, n: nat)
    requires |s| > 0
    ensures Increasing(s, lo, n) <==>
            lo < n && ((s[0] == lo && Increasing(s[1..], lo + 1, n)) || Increasing(s, lo + 1, n))
  {
    if Increasing(s, lo, n) && s[0] != lo {
      assert forall i :: 0 <= i < |s| ==> s[0] <= s[i];
    }
    if s[0] == lo && Increasing(s[1..], lo + 1, n) {
      assert forall i :: 1 <= i < |s| ==> s[i] == s[1..][i - 1];
    }
  }

  /** The list holds every increasing sequence of the length asked for and nothing else. */
  lemma {:induction false} CombosMembers(lo: nat, n: nat, r: nat, s: seq<nat>)
    ensures s in Combos(lo, n, r) <==> |s| == r && Increasing(s, lo, n)
    decreases if lo < n then n - lo else 0, r
  {
    hide PrependAll;
    if |s| > 0 {
      IncreasingCons(s, lo, n);
    }
    if r > 0 && lo < n {
      CombosMembers(lo + 1, n, r, s);
      PrependAllMembers(lo, Combos(lo + 1, n, r - 1), s);
      if |s| > 0 {
        CombosMembers(lo + 1, n, r - 1, s[1..]);
      }
    }
  }

  /** a comes before b in dictionary order; sequences of one length. */
  ghost predicate LexLess(a: seq<nat>, b: seq<nat>) {
    |a| == |b| && exists i :: 0 <= i < |a| && a[..i] == b[..i] && a[i] < b[i]
  }

  lemma LexLessCons(x: nat, a: seq<nat>, b: seq<nat>)
    requires LexLess(a, b)
    ensures LexLess([x] + a, [x] + b)
  {
    var c, d := [x] + a, [x] + b;
    var i :| 0 <= i < |a| && a[..i] == b[..i] && a[i] < b[i];
    assert c[..i + 1] == [x] + a[..i] && d[..i + 1] == [x] + b[..i];
    assert c[i + 1] < d[i + 1];
  }

  /** The list is strictly increasing in dictionary order, so no subset is tried twice. */
  lemma {:induction false} CombosSorted(lo: nat, n: nat, r: nat, p: nat, q: nat)
    requires p < q < |Combos(lo, n, r)|
    ensures LexLess(Combos(lo, n, r)[p], Combos(lo, n, r)[q])
    decreases if lo < n then n - lo else 0, r
  {
    hide LexLess;
    var first, rest := Combos(lo + 1, n, r - 1), Combos(lo + 1, n, r);
    if q < |first| {
      CombosSorted(lo + 1, n, r - 1, p, q);
      LexLessCons(lo, first[p], first[q]);
    } else if p >= |first| {
      CombosSorted(lo + 1, n, r, p - |first|, q - |first|);
    } else {
      FirstBeforeRest(lo, n, r, first[p], rest[q - |first|]);
    }
  }

  /** Subsets with lo come before those without. */
  lemma FirstBeforeRest(lo: nat, n: nat, r: nat, a: seq<nat>, b: seq<nat>)
    requires r > 0 && a in Combos(lo + 1, n, r - 1) && b in Combos(lo + 1, n, r)
    ensures LexLess([lo] + a, b)
  {
    CombosMembers(lo + 1, n, r - 1, a);
    CombosMembers(lo + 1, n, r, b);
    assert ([lo] + a)[..0] == b[..0] && ([lo] + a)[0] < b[0];
  }

  lemma CombosNoDuplicates(lo: nat, n: nat, r: nat)
    ensures NoDuplicates(Combos(lo, n, r))
  {
    forall p, q | 0 <= p < q < |Combos(lo, n, r)|
      ensures Combos(lo, n, r)[p] != Combos(lo, n, r)[q]
    {
      CombosSorted(lo, n, r, p, q);
    }
  }

  ghost function Factorial(n: nat): nat {
    if n == 0 then 1 else n * Factorial(n - 1)
  }

  /** There are n!/(r!(n-r)!) subsets, written without division. */
  lemma {:induction false} CombosCount(lo: nat, n: nat, r: nat)
    requires lo <= n
    ensures r > n - lo ==> |Combos(lo, n, r)| == 0
    ensures r <= n - lo ==> |Combos(lo, n, r)| * Factorial(r) * Factorial(n - lo - r) == Factorial(n - lo)
    decreases n - lo, r
  {
    var m := n - lo;
    if r > 0 && lo < n {
      var a, b := |Combos(lo + 1, n, r - 1)|, |Combos(lo + 1, n, r)|;
      CombosCount(lo + 1, n, r - 1);
      CombosCount(lo + 1, n, r);
      if r == m {
        assert Factorial(0) == 1;
        PascalTop(a, m);
      } else if r < m {
        Pascal(a, b, r, m);
      }
    }
  }

  lemma PascalTop(a: nat, m: nat)
    requires m > 0 && a * Factorial(m - 1) * Factorial(0) == Factorial(m - 1)
    ensures a * Factorial(m) * Factorial(0) == Factorial(m)
  {
    calc {
      a * Factorial(m);
      a * (m * Factorial(m - 1));
      m * (a * Factorial(m - 1));
    }
  }

  lemma Pascal(a: nat, b: nat, r: nat, m: nat)
    requires 0 < r < m
    requires a * Factorial(r - 1) * Factorial(m - r) == Factorial(m - 1)
    requires b * Factorial(r) * Factorial(m - 1 - r) == Factorial(m - 1)
    ensures (a + b) * Factorial(r) * Factorial(m - r) == Factorial(m)
  {
    var x, y, w := Factorial(r - 1), Factorial(m - 1 - r), Factorial(m - 1);
    assert Factorial(r) == r * x && Factorial(m - r) == (m - r) * y && Factorial(m) == m * w;
    calc {
      (a + b) * (r * x) * ((m - r) * y);
      { Regroup(a, b, r, x, m - r, y); }
      r * (a * x * ((m - r) * y)) + (m - r) * (b * (r * x) * y);
      r * w + (m - r) * w;
      m * w;
    }
  }

  lemma Regroup(a: nat, b: nat, r: nat, x: nat, t: nat, y: nat)
    ensures (a + b) * (r * x) * (t * y) == r * (a * x * (t * y)) + t * (b * (r * x) * y)
  {
    var u, v := r * x, t * y;
    assert (a + b) * u * v == a * u * v + b * u * v;
    assert a * u * v == r * (a * x * v) by {
      assert a * (r * x) == r * (a * x);
      assert r * (a * x) * v == r * (a * x * v);
    }
    assert b * u * v == t * (b * u * y) by {
      assert b * u * (t * y) == t * (b * u * y);
    }
  }

  /** How many of n methods a policy asks for: the smallest majority, but at most four. */
  function ReqMethods(n: nat): (r: nat)
    requires n >= 2
    ensures 2 <= r <= n
    ensures r == if n / 2 + 1 <= 4 then n / 2 + 1 else 4
  {
    match n
    case 2 => 2
    case 3 => 2
    case 4 => 3
    case 5 => 3
    case 6 => 4
    case 7 => 4
    case _ => 4
  }

  /** Lists a finite set of indices below n in increasing order. */
  ghost function Sorted(s: set<nat>, n: nat): seq<nat> {
    if n == 0 then [] else Sorted(s, n - 1) + (if n - 1 in s then [n - 1] else [])
  }

  lemma {:induction false} SortedHolds(s: set<nat>, n: nat)
    ensures Increasing(Sorted(s, n), 0, n)
    ensures forall x: nat :: x in Sorted(s, n) <==> x < n && x in s
  {
    if n > 0 {
      SortedHolds(s, n - 1);
    }
  }

  lemma SortedCount(s: set<nat>, n: nat)
    requires forall x :: x in s ==> x < n
    ensures |Sorted(s, n)| == |s|
  {
    SortedHolds(s, n);
    ElementsCount(Sorted(s, n));
    assert Elements(Sorted(s, n)) == s;
  }

  /** Some generated subset lies within the solved methods exactly when r of them are solved. */
  lemma Threshold(n: nat, r: nat, solved: set<nat>)
    requires forall x :: x in solved ==> x < n
    ensures (exists c :: c in Combos(0, n, r) && Elements(c) <= solved) <==> |solved| >= r
  {
    if c :| c in Combos(0, n, r) && Elements(c) <= solved {
      CombosMembers(0, n, r, c);
      ElementsCount(c);
      SubsetCount(Elements(c), solved);
    }
    if |solved| >= r {
      SortedHolds(solved, n);
      SortedCount(solved, n);
      var c := Sorted(solved, n)[..r];
      CombosMembers(0, n, r, c);
      assert c in Combos(0, n, r) && Elements(c) <= solved;
    }
  }

  ghost predicate AllPairsMeet(css: seq<seq<nat>>) {
    forall c, d :: c in css && d in css ==> Elements(c) * Elements(d) != {}
  }

  lemma BelowCount(s: set<nat>, n: nat)
    requires forall x :: x in s ==> x < n
    ensures |s| <= n
  {
    if n > 0 {
      BelowCount(s - {n - 1}, n - 1);
    } else {
      assert s == {};
    }
  }

  /** Any two generated subsets overlap exactly when each takes more than half of the methods. */
  lemma Overlap(n: nat, r: nat)
    requires 1 <= r <= n
    ensures AllPairsMeet(Combos(0, n, r)) <==> 2 * r > n
  {
    if 2 * r > n {
      forall c, d | c in Combos(0, n, r) && d in Combos(0, n, r)
        ensures Elements(c) * Elements(d) != {}
      {
        CombosMembers(0, n, r, c);
        CombosMembers(0, n, r, d);
        ElementsCount(c);
        ElementsCount(d);
        BelowCount(Elements(c) + Elements(d), n);
      }
    } else {
      var c, d := seq(r, i => i), seq(r, i requires 0 <= i < r => r + i);
      CombosMembers(0, n, r, c);
      CombosMembers(0, n, r, d);
      assert forall x :: x in Elements(c) ==> x < r;
      assert forall x :: x in Elements(d) ==> x >= r;
      assert Elements(c) * Elements(d) == {};
      assert !AllPairsMeet(Combos(0, n, r));
    }
  }

  /** With the reducer's own choice of r, overlap is guaranteed up to seven methods and no further. */
  lemma OverlapUpToSeven(n: nat)
    requires n >= 2
    ensures AllPairsMeet(Combos(0, n, ReqMethods(n))) <==> n <= 7
  {
    Overlap(n, ReqMethods(n));
  }
}
