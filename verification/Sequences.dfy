/** Sequence facts shared by the other modules. */
module Sequences {

  ghost predicate NoDuplicates<T>(s: seq<T>) {
    forall i, j :: 0 <= i < j < |s| ==> s[i] != s[j]
  }

  lemma Associative<T>(a: seq<T>, b: seq<T>, c: seq<T>)
    ensures (a + b) + c == a + (b + c)
  {
  }

  /** Puts x in front of every sequence of the list. */
  function PrependAll<T>(x: T, xss: seq<seq<T>>): (r: seq<seq<T>>)
    ensures |r| == |xss|
    ensures forall k :: 0 <= k < |xss| ==> r[k] == [x] + xss[k]
  {
    seq(|xss|, k requires 0 <= k < |xss| => [x] + xss[k])
  }

  /** Puts the sequence p in front of every sequence of the list. */
  function PrefixAll<T>(p: seq<T>, xss: seq<seq<T>>): (r: seq<seq<T>>)
    ensures |r| == |xss|
    ensures forall k :: 0 <= k < |xss| ==> r[k] == p + xss[k]
  {
    seq(|xss|, k requires 0 <= k < |xss| => p + xss[k])
  }

  lemma PrefixAllConcat<T>(p: seq<T>, a: seq<seq<T>>, b: seq<seq<T>>)
    ensures PrefixAll(p, a + b) == PrefixAll(p, a) + PrefixAll(p, b)
  {
  }

  lemma PrefixAllPrepend<T>(p: seq<T>, x: T, a: seq<seq<T>>)
    ensures PrefixAll(p, PrependAll(x, a)) == PrefixAll(p + [x], a)
  {
    forall k | 0 <= k < |a|
      ensures PrefixAll(p, PrependAll(x, a))[k] == PrefixAll(p + [x], a)[k]
    {
      assert p + ([x] + a[k]) == (p + [x]) + a[k];
    }
  }

  lemma PrefixAllEmpty<T>(a: seq<seq<T>>)
    ensures PrefixAll([], a) == a
  {
    forall k | 0 <= k < |a| ensures PrefixAll([], a)[k] == a[k] {
      assert [] + a[k] == a[k];
    }
  }

  lemma NothingBefore<T>(a: seq<seq<T>>)
    ensures [] + PrefixAll([], a) == a
  {
    PrefixAllEmpty(a);
  }

  ghost function Elements<T>(s: seq<T>): set<T> {
    set x | x in s
  }

  /** A duplicate-free sequence has as many elements as positions. */
  lemma {:induction false} ElementsCount<T>(s: seq<T>)
    requires NoDuplicates(s)
    ensures |Elements(s)| == |s|
  {
    if s == [] {
      assert Elements(s) == {};
    } else {
      var t := s[..|s| - 1];
      ElementsCount(t);
      assert Elements(s) == Elements(t) + {s[|s| - 1]};
      assert s[|s| - 1] !in t;
    }
  }

  /** A subset is at most as large as the whole. */
  lemma {:induction false} SubsetCount<T>(a: set<T>, b: set<T>)
    requires a <= b
    ensures |a| <= |b|
  {
    if a != {} {
      var x :| x in a;
      SubsetCount(a - {x}, b - {x});
    }
  }

  /** Sum of f over a finite set, in no particular order. */
  ghost function SumOver<T(!new)>(s: set<T>, f: T -> nat): nat {
    if s == {} then 0
    else
      var x :| x in s;
      f(x) + SumOver(s - {x}, f)
  }

  /** The sum does not depend on the order in which elements are taken. */
  lemma {:induction false} SumOverRemove<T(!new)>(s: set<T>, f: T -> nat, y: T)
    requires y in s
    ensures SumOver(s, f) == f(y) + SumOver(s - {y}, f)
    decreases s
  {
    var x :| x in s && SumOver(s, f) == f(x) + SumOver(s - {x}, f);
    if x != y {
      SumOverRemove(s - {x}, f, y);
      assert s - {x} - {y} == s - {y} - {x};
      SumOverRemove(s - {y}, f, x);
    }
  }

  lemma SumOverInsert<T(!new)>(s: set<T>, f: T -> nat, y: T)
    ensures SumOver(s + {y}, f) == SumOver(s, f) + (if y in s then 0 else f(y))
  {
    if y in s {
      assert s + {y} == s;
    } else {
      SumOverRemove(s + {y}, f, y);
      assert s + {y} - {y} == s;
    }
  }
}
