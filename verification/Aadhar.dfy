/** The check digit of Indian Aadhar numbers: the Verhoeff scheme over the dihedral group of order ten. */
module Aadhar {

  /** The multiplication table. */
  const M: seq<seq<nat>> := [
    [0, 1, 2, 3, 4, 5, 6, 7, 8, 9],
    [1, 2, 3, 4, 0, 6, 7, 8, 9, 5],
    [2, 3, 4, 0, 1, 7, 8, 9, 5, 6],
    [3, 4, 0, 1, 2, 8, 9, 5, 6, 7],
    [4, 0, 1, 2, 3, 9, 5, 6, 7, 8],
    [5, 9, 8, 7, 6, 0, 4, 3, 2, 1],
    [6, 5, 9, 8, 7, 1, 0, 4, 3, 2],
    [7, 6, 5, 9, 8, 2, 1, 0, 4, 3],
    [8, 7, 6, 5, 9, 3, 2, 1, 0, 4],
    [9, 8, 7, 6, 5, 4, 3, 2, 1, 0]]

  /** The permutation table; the two rows never used are zero. */
  const P: seq<seq<nat>> := [
    [0, 1, 2, 3, 4, 5, 6, 7, 8, 9],
    [1, 5, 7, 6, 2, 8, 3, 0, 9, 4],
    [5, 8, 0, 3, 7, 9, 6, 1, 4, 2],
    [8, 9, 1, 6, 0, 4, 3, 5, 2, 7],
    [9, 4, 5, 3, 1, 2, 6, 8, 7, 0],
    [4, 2, 8, 6, 5, 7, 3, 9, 0, 1],
    [2, 7, 9, 3, 8, 0, 6, 4, 1, 5],
    [7, 0, 4, 6, 9, 1, 3, 2, 5, 8],
    [0, 0, 0, 0, 0, 0, 0, 0, 0, 0],
    [0, 0, 0, 0, 0, 0, 0, 0, 0, 0]]

  /** x modulo five, for the sums and differences of two numbers below five. */
  function Mod5(x: int): (r: nat)
    requires -5 < x < 10
    ensures r < 5
  {
    if x < 0 then x + 5 else if x >= 5 then x - 5 else x
  }

  /** Product in the dihedral group: rotations 0-4, reflections 5-9. */
  function Mul(a: nat, b: nat): (c: nat)
    requires a < 10 && b < 10
    ensures c < 10
  {
    if a < 5 then
      if b < 5 then Mod5(a + b) else 5 + Mod5(a + (b - 5))
    else
      if b < 5 then 5 + Mod5(a - 5 - b) else Mod5(a - b)
  }

  lemma RowOfM(a: nat)
    requires a < 10
    ensures |M| == 10 && |M[a]| == 10
    ensures forall b :: 0 <= b < 10 ==> M[a][b] == Mul(a, b)
  {
    if
    case a == 0 => RowIs(M[0], 0);
    case a == 1 => RowIs(M[1], 1);
    case a == 2 => RowIs(M[2], 2);
    case a == 3 => RowIs(M[3], 3);
    case a == 4 => RowIs(M[4], 4);
    case a == 5 => RowIs(M[5], 5);
    case a == 6 => RowIs(M[6], 6);
    case a == 7 => RowIs(M[7], 7);
    case a == 8 => RowIs(M[8], 8);
    case a == 9 => RowIs(M[9], 9);
  }

  lemma RowIs(row: seq<nat>, a: nat)
    requires a < 10 && |row| == 10
    requires row[0] == Mul(a, 0) && row[1] == Mul(a, 1) && row[2] == Mul(a, 2) && row[3] == Mul(a, 3)
    requires row[4] == Mul(a, 4) && row[5] == Mul(a, 5) && row[6] == Mul(a, 6) && row[7] == Mul(a, 7)
    requires row[8] == Mul(a, 8) && row[9] == Mul(a, 9)
    ensures forall b :: 0 <= b < 10 ==> row[b] == Mul(a, b)
  {
  }

  // ----- laws of the two tables

  lemma MulIdentity(a: nat)
    requires a < 10
    ensures Mul(0, a) == a == Mul(a, 0)
  {
  }

  lemma MulAssociative(a: nat, b: nat, c: nat)
    requires a < 10 && b < 10 && c < 10
    ensures Mul(Mul(a, b), c) == Mul(a, Mul(b, c))
  {
    if a < 5 {
      RotationAssociates(a, b, c);
    } else {
      ReflectionAssociates(a, b, c);
    }
  }

  lemma RotationAssociates(a: nat, b: nat, c: nat)
    requires a < 5 && b < 10 && c < 10
    ensures Mul(Mul(a, b), c) == Mul(a, Mul(b, c))
  {
  }

  lemma ReflectionAssociates(a: nat, b: nat, c: nat)
    requires 5 <= a < 10 && b < 10 && c < 10
    ensures Mul(Mul(a, b), c) == Mul(a, Mul(b, c))
  {
  }

  lemma MulCancels(a: nat, b: nat, c: nat)
    requires a < 10 && b < 10 && c < 10 && a != b
    ensures Mul(a, c) != Mul(b, c) && Mul(c, a) != Mul(c, b)
  {
  }

  ghost predicate Permutation(r: seq<nat>) {
    && |r| == 10
    && (forall a :: 0 <= a < 10 ==> r[a] < 10)
    && forall a, b :: 0 <= a < b < 10 ==> r[a] != r[b]
  }

  lemma RowsArePermutations(i: nat)
    requires i < 8
    ensures |P| == 10 && Permutation(P[i])
  {
  }

  /** The second row, as a function. */
  function Sigma(a: nat): (r: nat)
    requires a < 10
    ensures r < 10
  {
    match a
    case 0 => 1
    case 1 => 5
    case 2 => 7
    case 3 => 6
    case 4 => 2
    case 5 => 8
    case 6 => 3
    case 7 => 0
    case 8 => 9
    case _ => 4
  }

  /** Each row is the previous one followed by Sigma; after eight rows this is back at the start. */
  lemma NextRow(i: nat, d: nat)
    requires i < 8 && d < 10
    ensures |P| == 10 && Permutation(P[i]) && Permutation(P[(i + 1) % 8])
    ensures P[(i + 1) % 8][d] == Sigma(P[i][d])
  {
    RowsArePermutations(i);
    RowsArePermutations((i + 1) % 8);
    RowFollows(i, d);
    SecondRow(P[i][d]);
  }

  lemma SecondRow(a: nat)
    requires a < 10
    ensures |P| == 10 && |P[1]| == 10 && P[1][a] == Sigma(a)
  {
  }

  lemma RowFollows(i: nat, d: nat)
    requires i < 8 && d < 10
    ensures |P| == 10 && |P[1]| == |P[i]| == |P[(i + 1) % 8]| == 10
    ensures P[i][d] < 10 && P[(i + 1) % 8][d] == P[1][P[i][d]]
  {
    if
    case i == 0 => Follows(P[0], P[1], P[1], d);
    case i == 1 => Follows(P[1], P[2], P[1], d);
    case i == 2 => Follows(P[2], P[3], P[1], d);
    case i == 3 => Follows(P[3], P[4], P[1], d);
    case i == 4 => Follows(P[4], P[5], P[1], d);
    case i == 5 => Follows(P[5], P[6], P[1], d);
    case i == 6 => Follows(P[6], P[7], P[1], d);
    case i == 7 => Follows(P[7], P[0], P[1], d);
  }

  lemma Follows(r: seq<nat>, s: seq<nat>, t: seq<nat>, d: nat)
    requires |r| == |s| == |t| == 10 && d < 10
    requires r[0] < 10 && r[1] < 10 && r[2] < 10 && r[3] < 10 && r[4] < 10
    requires r[5] < 10 && r[6] < 10 && r[7] < 10 && r[8] < 10 && r[9] < 10
    requires s[0] == t[r[0]] && s[1] == t[r[1]] && s[2] == t[r[2]] && s[3] == t[r[3]] && s[4] == t[r[4]]
    requires s[5] == t[r[5]] && s[6] == t[r[6]] && s[7] == t[r[7]] && s[8] == t[r[8]] && s[9] == t[r[9]]
    ensures r[d] < 10 && s[d] == t[r[d]]
  {
  }

  /** Two different digits never give the same product when they change places. */
  lemma SwapSafe(x: nat, y: nat)
    requires x < 10 && y < 10 && x != y
    ensures Mul(x, Sigma(y)) != Mul(y, Sigma(x))
  {
  }

  // ----- the checksum of a digit sequence, least significant digit first

  ghost predicate Digits(v: seq<nat>) {
    forall i :: 0 <= i < |v| ==> v[i] < 10
  }

  /** The group element of the digit d at position i. */
  ghost function Term(i: nat, d: nat): (r: nat)
    requires d < 10
    ensures r < 10
  {
    RowsArePermutations(i % 8);
    P[i % 8][d]
  }

  /** Product of the terms of the first n positions. */
  ghost function Checksum(v: seq<nat>, n: nat): (r: nat)
    requires Digits(v) && n <= |v|
    ensures r < 10
  {
    if n == 0 then 0 else Mul(Checksum(v, n - 1), Term(n - 1, v[n - 1]))
  }

  ghost predicate Accepted(v: seq<nat>) {
    Digits(v) && Checksum(v, |v|) == 0
  }

  lemma TermInjective(i: nat, d: nat, e: nat)
    requires d < 10 && e < 10 && d != e
    ensures Term(i, d) != Term(i, e)
  {
    RowsArePermutations(i % 8);
  }

  /** A difference at position n is never undone by equal digits behind it. */
  lemma {:induction false} DifferenceStays(v: seq<nat>, w: seq<nat>, n: nat, k: nat)
    requires Digits(v) && Digits(w) && |v| == |w| && n <= k <= |v|
    requires Checksum(v, n) != Checksum(w, n)
    requires forall i :: n <= i < |v| ==> v[i] == w[i]
    ensures Checksum(v, k) != Checksum(w, k)
  {
    hide Mul, Term;
    if n < k {
      DifferenceStays(v, w, n, k - 1);
      MulCancels(Checksum(v, k - 1), Checksum(w, k - 1), Term(k - 1, v[k - 1]));
    }
  }

  lemma {:induction false} SamePrefix(v: seq<nat>, w: seq<nat>, n: nat)
    requires Digits(v) && Digits(w) && n <= |v| && n <= |w|
    requires forall i :: 0 <= i < n ==> v[i] == w[i]
    ensures Checksum(v, n) == Checksum(w, n)
  {
    hide Mul, Term;
    if n > 0 {
      SamePrefix(v, w, n - 1);
    }
  }

  /** One wrong digit in an accepted number of any length is always noticed. */
  lemma SingleErrorDetected(v: seq<nat>, k: nat, d: nat)
    requires Accepted(v) && k < |v| && d < 10 && d != v[k]
    ensures !Accepted(v[k := d])
  {
    hide Mul, Term;
    var w := v[k := d];
    SamePrefix(v, w, k);
    TermInjective(k, v[k], d);
    MulCancels(Term(k, v[k]), Term(k, d), Checksum(v, k));
    DifferenceStays(v, w, k + 1, |v|);
  }

  /** Two different neighbouring digits in the wrong order are always noticed. */
  lemma TranspositionDetected(v: seq<nat>, k: nat)
    requires Accepted(v) && k + 1 < |v| && v[k] != v[k + 1]
    ensures !Accepted(v[k := v[k + 1]][k + 1 := v[k]])
  {
    hide Mul, Term, Sigma;
    var w := v[k := v[k + 1]][k + 1 := v[k]];
    var c, a, b := Checksum(v, k), v[k], v[k + 1];
    assert Digits(w);
    SamePrefix(v, w, k);
    NextTerm(k, a);
    NextTerm(k, b);
    TermInjective(k, a, b);
    var x, y := Term(k, a), Term(k, b);
    SwapSafe(x, y);
    MulAssociative(c, x, Sigma(y));
    MulAssociative(c, y, Sigma(x));
    MulCancels(Mul(x, Sigma(y)), Mul(y, Sigma(x)), c);
    assert Checksum(v, k + 2) == Mul(Mul(c, x), Sigma(y));
    assert Checksum(w, k + 2) == Mul(Mul(c, y), Sigma(x));
    DifferenceStays(v, w, k + 2, |v|);
  }

  lemma NextTerm(k: nat, d: nat)
    requires d < 10
    ensures Term(k + 1, d) == Sigma(Term(k, d))
  {
    hide Sigma;
    NextRow(k % 8, d);
    assert (k + 1) % 8 == (k % 8 + 1) % 8;
  }

  // ----- the check digit

  /** Product of the terms from position 1 on. */
  ghost function Tail(v: seq<nat>, n: nat): (r: nat)
    requires Digits(v) && 1 <= n <= |v|
    ensures r < 10
  {
    if n == 1 then 0 else Mul(Tail(v, n - 1), Term(n - 1, v[n - 1]))
  }

  lemma FirstTerm(d: nat)
    requires d < 10
    ensures Term(0, d) == d
  {
    RowsArePermutations(0);
  }

  lemma {:induction false} ChecksumSplits(v: seq<nat>, n: nat)
    requires Digits(v) && 1 <= n <= |v|
    ensures Checksum(v, n) == Mul(v[0], Tail(v, n))
  {
    hide Mul, Term;
    if n == 1 {
      FirstTerm(v[0]);
      MulIdentity(v[0]);
      assert Checksum(v, 0) == 0;
    } else {
      ChecksumSplits(v, n - 1);
      MulAssociative(v[0], Tail(v, n - 1), Term(n - 1, v[n - 1]));
    }
  }

  /** Every digit sequence can be completed by exactly one check digit in the last place. */
  lemma CheckDigit(rest: seq<nat>) returns (d: nat)
    requires Digits(rest)
    ensures d < 10 && Accepted([d] + rest)
    ensures forall e :: 0 <= e < 10 && Accepted([e] + rest) ==> e == d
  {
    hide Mul, Term, Checksum;
    var t := Tail([0] + rest, |rest| + 1);
    d := Inverse(t);
    var v := [d] + rest;
    TailIgnoresFirst([0] + rest, v, |v|);
    ChecksumSplits(v, |v|);
    assert Accepted(v);
    forall e | 0 <= e < 10 && Accepted([e] + rest) ensures e == d {
      CheckDigitUnique(rest, d, e);
    }
  }

  /** The digit whose product with t is neutral. */
  lemma Inverse(t: nat) returns (d: nat)
    requires t < 10
    ensures d < 10 && Mul(d, t) == 0
  {
    d := if t == 0 || t >= 5 then t else 5 - t;
  }

  lemma CheckDigitUnique(rest: seq<nat>, d: nat, e: nat)
    requires d < 10 && e < 10 && Accepted([d] + rest) && Accepted([e] + rest)
    ensures d == e
  {
    var v := [d] + rest;
    assert v[0 := e] == [e] + rest;
    if d != e {
      SingleErrorDetected(v, 0, e);
    }
  }

  lemma {:induction false} TailIgnoresFirst(v: seq<nat>, w: seq<nat>, n: nat)
    requires Digits(v) && Digits(w) && |v| == |w| && 1 <= n <= |v|
    requires forall i :: 1 <= i < |v| ==> v[i] == w[i]
    ensures Tail(v, n) == Tail(w, n)
  {
    if n > 1 {
      TailIgnoresFirst(v, w, n - 1);
    }
  }

  // ----- strings

  predicate IsSpace(c: char) {
    c == ' ' || (9 as char <= c <= 13 as char)
  }

  predicate IsDigit(c: char) {
    '0' <= c <= '9'
  }

  function DigitOf(c: char): (d: nat)
    requires IsDigit(c)
    ensures d < 10
  {
    c as int - '0' as int
  }

  /** The string without its white space. */
  ghost function Strip(s: string): string {
    if s == [] then []
    else if IsSpace(s[|s| - 1]) then Strip(s[..|s| - 1])
    else Strip(s[..|s| - 1]) + [s[|s| - 1]]
  }

  ghost predicate AllDigits(s: string) {
    forall i :: 0 <= i < |s| ==> IsDigit(s[i])
  }

  /** Twelve digits, white space before and between them only. */
  ghost predicate WellFormed(s: string) {
    && AllDigits(Strip(s)) && |Strip(s)| == 12
    && s != [] && !IsSpace(s[|s| - 1])
  }

  ghost function Values(s: string): (v: seq<nat>)
    requires AllDigits(s)
    ensures |v| == |s| && Digits(v)
    ensures forall i :: 0 <= i < |s| ==> v[|s| - 1 - i] == DigitOf(s[i])
  {
    seq(|s|, i requires 0 <= i < |s| => DigitOf(s[|s| - 1 - i]))
  }

  ghost predicate Valid(s: string) {
    WellFormed(s) && Accepted(Values(Strip(s)))
  }

  lemma {:induction false} StripConcat(s: string, t: string)
    ensures Strip(s + t) == Strip(s) + Strip(t)
    decreases |t|
  {
    if t == [] {
      assert s + t == s;
    } else {
      assert (s + t)[..|s + t| - 1] == s + t[..|t| - 1];
      StripConcat(s, t[..|t| - 1]);
    }
  }

  lemma {:induction false} StripKeeps(s: string)
    ensures forall i :: 0 <= i < |Strip(s)| ==> !IsSpace(Strip(s)[i])
    ensures Strip(s) == [] <==> forall i :: 0 <= i < |s| ==> IsSpace(s[i])
  {
    if s != [] {
      StripKeeps(s[..|s| - 1]);
      assert s == s[..|s| - 1] + [s[|s| - 1]];
    }
  }

  lemma StripNothing()
    ensures Strip("") == ""
  {
  }

  lemma StripOne(c: char)
    ensures Strip([c]) == if IsSpace(c) then [] else [c]
  {
    assert [c][..0] == [];
  }

  lemma StripStep(s: string, pos: nat)
    requires pos < |s|
    ensures Strip(s[..pos + 1]) == if IsSpace(s[pos]) then Strip(s[..pos]) else Strip(s[..pos]) + [s[pos]]
    ensures Strip(s[..pos + 1]) <= Strip(s)
  {
    hide Strip;
    PrefixSnoc(s, pos);
    StripConcat(s[..pos], [s[pos]]);
    StripOne(s[pos]);
    StripConcat(s[..pos + 1], s[pos + 1..]);
  }

  lemma PrefixSnoc(s: string, pos: nat)
    requires pos < |s|
    ensures s[..pos + 1] == s[..pos] + [s[pos]] && s == s[..pos + 1] + s[pos + 1..]
  {
  }

  /** After twelve digits the string must end: anything behind them is a fault. */
  lemma EndDecides(s: string, pos: nat)
    requires 0 < pos <= |s| && !IsSpace(s[pos - 1])
    requires |Strip(s[..pos])| == 12 && AllDigits(Strip(s[..pos]))
    ensures WellFormed(s) <==> pos == |s|
  {
    if pos == |s| {
      assert s[..pos] == s;
    } else {
      assert s == s[..pos] + s[pos..];
      StripConcat(s[..pos], s[pos..]);
      StripKeeps(s[pos..]);
      if IsSpace(s[|s| - 1]) == false {
        assert !IsSpace(s[pos..][|s| - 1 - pos]);
      }
    }
  }

  /** Writes the digits in reverse order; a string that is not well formed is refused. */
  method StringToVals(input: string, output: array<nat>) returns (ok: bool)
    requires '\0' !in input && output.Length == 12
    modifies output
    ensures ok <==> WellFormed(input)
    ensures ok ==> output[..] == Values(Strip(input))
  {
    hide Strip;
    var off, i := 0, 0;
    StripNothing();
    ghost var seen := [];
    while i < 12
      invariant i <= 12 && i + off <= |input|
      invariant seen == Strip(input[..i + off]) && |seen| == i && AllDigits(seen)
      invariant forall k :: 12 - i <= k < 12 ==> output[k] == DigitOf(seen[11 - k])
      invariant i == 12 ==> !IsSpace(input[i + off - 1])
      decreases |input| - i - off
    {
      var pos := i + off;
      if pos == |input| {
        assert input[..pos] == input;
        return false;
      }
      var c := input[pos];
      StripStep(input, pos);
      if IsSpace(c) {
        off := off + 1;
        continue;
      }
      if !IsDigit(c) {
        assert Strip(input)[i] == c;
        return false;
      }
      output[11 - i] := DigitOf(c);
      seen := seen + [c];
      i := i + 1;
    }
    var pos := 12 + off;
    EndDecides(input, pos);
    if pos != |input| {
      return false;
    }
    assert input[..pos] == input;
    return true;
  }

  method Check(aadharNumber: string) returns (accepted: bool)
    requires '\0' !in aadharNumber
    ensures accepted <==> Valid(aadharNumber)
  {
    var vals := new nat[12];
    var ok := StringToVals(aadharNumber, vals);
    if !ok {
      return false;
    }
    ghost var v := Values(Strip(aadharNumber));
    var c: nat := 0;
    for i := 0 to 12
      invariant vals[..] == v && c == Checksum(v, i)
    {
      RowsArePermutations(i % 8);
      RowOfM(c);
      assert vals[i] == v[i];
      c := M[c][P[i % 8][vals[i]]];
    }
    return c == 0;
  }

  /** A valid number with one digit character replaced by another digit is not valid. */
  lemma WrongDigitRejected(a: string, x: char, y: char, b: string)
    requires IsDigit(x) && IsDigit(y) && x != y && Valid(a + [x] + b)
    ensures !Valid(a + [y] + b)
  {
    var s, t := a + [x] + b, a + [y] + b;
    StripAround(a, x, b);
    StripAround(a, y, b);
    var k := |Strip(a)|;
    if WellFormed(t) {
      assert Strip(t) == Strip(s)[k := y];
      var v := Values(Strip(s));
      assert Values(Strip(t)) == v[11 - k := DigitOf(y)];
      SingleErrorDetected(v, 11 - k, DigitOf(y));
    }
  }

  lemma StripAround(a: string, x: char, b: string)
    requires IsDigit(x)
    ensures Strip(a + [x] + b) == Strip(a) + [x] + Strip(b)
  {
    StripConcat(a + [x], b);
    StripConcat(a, [x]);
    assert [x][..0] == [];
  }

  /** A valid number with two different neighbouring digits exchanged is not valid, whatever space is between them. */
  lemma SwappedDigitsRejected(a: string, x: char, gap: string, y: char, b: string)
    requires IsDigit(x) && IsDigit(y) && x != y && Strip(gap) == []
    requires Valid(a + [x] + (gap + [y] + b))
    ensures !Valid(a + [y] + (gap + [x] + b))
  {
    var s, t := a + [x] + (gap + [y] + b), a + [y] + (gap + [x] + b);
    StripAround(a, x, gap + [y] + b);
    StripAround(a, y, gap + [x] + b);
    StripAround(gap, y, b);
    StripAround(gap, x, b);
    SwappedValuesRejected(Strip(a), x, y, Strip(b), Strip(s), Strip(t));
  }

  lemma SwappedValuesRejected(a: string, x: char, y: char, b: string, s: string, t: string)
    requires IsDigit(x) && IsDigit(y) && x != y
    requires s == a + [x] + ([] + [y] + b) && t == a + [y] + ([] + [x] + b)
    requires |s| == 12 && AllDigits(s) && Accepted(Values(s))
    ensures AllDigits(t) ==> !Accepted(Values(t))
  {
    if AllDigits(t) {
      var k, v := |a|, Values(s);
      assert s[k] == x && s[k + 1] == y && t == s[k := y][k + 1 := x];
      TranspositionDetected(v, 10 - k);
      SwappedValues(s, t, k);
    }
  }

  lemma SwappedValues(s: string, t: string, k: nat)
    requires k + 1 < |s| && AllDigits(s) && AllDigits(t) && t == s[k := s[k + 1]][k + 1 := s[k]]
    ensures var v, j := Values(s), |s| - 2 - k; Values(t) == v[j := v[j + 1]][j + 1 := v[j]]
  {
    var v, j := Values(s), |s| - 2 - k;
    var w := v[j := v[j + 1]][j + 1 := v[j]];
    forall i | 0 <= i < |s| ensures Values(t)[i] == w[i] {
      assert Values(t)[|s| - 1 - (|s| - 1 - i)] == DigitOf(t[|s| - 1 - i]);
      assert v[|s| - 1 - (|s| - 1 - i)] == DigitOf(s[|s| - 1 - i]);
      assert v[|s| - 1 - k] == DigitOf(s[k]) && v[|s| - 1 - (k + 1)] == DigitOf(s[k + 1]);
    }
  }

  /** Every eleven digits, white space before and between them or not, have exactly one check digit. */
  lemma CheckDigitOfString(a: string) returns (c: char)
    requires AllDigits(Strip(a)) && |Strip(a)| == 11
    ensures IsDigit(c) && Valid(a + [c])
    ensures forall e :: IsDigit(e) && Valid(a + [e]) ==> e == c
  {
    hide Accepted, Valid;
    var d := CheckDigit(Values(Strip(a)));
    c := '0' + d as char;
    ValidWith(a, c);
    forall e | IsDigit(e) && Valid(a + [e]) ensures e == c {
      ValidWith(a, e);
      assert DigitOf(e) == d;
    }
  }

  lemma ValidWith(a: string, c: char)
    requires AllDigits(Strip(a)) && |Strip(a)| == 11 && IsDigit(c)
    ensures Valid(a + [c]) <==> Accepted([DigitOf(c)] + Values(Strip(a)))
  {
    hide Accepted, Strip;
    StripConcat(a, [c]);
    StripOne(c);
    assert Strip(a + [c]) == Strip(a) + [c];
    assert Values(Strip(a) + [c]) == [DigitOf(c)] + Values(Strip(a));
  }

  /** White space before and between the digits makes no difference; behind them it is refused. */
  lemma WhiteSpace(a: string, space: char, b: string)
    requires IsSpace(space)
    ensures b != [] ==> (Valid(a + [space] + b) <==> Valid(a + b))
    ensures !Valid(a + [space])
  {
    hide Accepted, Strip;
    StripConcat(a, b);
    StripConcat(a + [space], b);
    StripConcat(a, [space]);
    StripOne(space);
    assert Strip(a) + [] == Strip(a);
    if b != [] {
      var s, t := a + [space] + b, a + b;
      assert s[|s| - 1] == b[|b| - 1] == t[|t| - 1];
    }
  }
}
