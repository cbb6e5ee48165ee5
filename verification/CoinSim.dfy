/** The wallet of the coin simulation: greedy withdrawal, three ways to spend, and whole runs. */
module CoinSim {

  const DENOMS: seq<nat> := [8096, 4096, 2048, 1024, 512, 256, 128, 64, 32, 16, 8, 4, 2, 1]

  const TRANS_MAX: nat := 5000
  const TRANS_MIN: nat := 4
  const WITHDRAW_MAX: nat := 10000

  // ----- wallets: coin counts per denomination, for any list of denominations

  ghost function ValueFrom(d: seq<nat>, w: seq<nat>, i: nat): nat
    requires |w| == |d| && i <= |d|
    decreases |d| - i
  {
    if i == |d| then 0 else w[i] * d[i] + ValueFrom(d, w, i + 1)
  }

  ghost function Value(d: seq<nat>, w: seq<nat>): nat
    requires |w| == |d|
  {
    ValueFrom(d, w, 0)
  }

  ghost function CoinsFrom(w: seq<nat>, i: nat): nat
    requires i <= |w|
    decreases |w| - i
  {
    if i == |w| then 0 else w[i] + CoinsFrom(w, i + 1)
  }

  ghost function Coins(w: seq<nat>): nat {
    CoinsFrom(w, 0)
  }

  ghost function Plus(w: seq<nat>, k: nat): (r: seq<nat>)
    requires k < |w|
    ensures |r| == |w|
  {
    w[k := w[k] + 1]
  }

  lemma {:induction false} PlusFrom(d: seq<nat>, w: seq<nat>, k: nat, i: nat)
    requires |w| == |d| && k < |d| && i <= |d|
    ensures ValueFrom(d, Plus(w, k), i) == ValueFrom(d, w, i) + (if i <= k then d[k] else 0)
    ensures CoinsFrom(Plus(w, k), i) == CoinsFrom(w, i) + (if i <= k then 1 else 0)
    decreases |d| - i
  {
    if i < |d| {
      PlusFrom(d, w, k, i + 1);
      if i == k {
        assert (w[k] + 1) * d[k] == w[k] * d[k] + d[k];
      }
    }
  }

  lemma {:induction false} NoCoins(d: seq<nat>, w: seq<nat>, i: nat)
    requires |w| == |d| && i <= |d| && forall k :: i <= k < |d| ==> w[k] == 0
    ensures ValueFrom(d, w, i) == 0 && CoinsFrom(w, i) == 0
    decreases |d| - i
  {
    if i < |d| {
      NoCoins(d, w, i + 1);
    }
  }

  // ----- greedy change

  /** Denominations are positive, strictly falling, and the last of them is one. */
  ghost predicate Denominations(d: seq<nat>) {
    && |d| > 0 && d[|d| - 1] == 1
    && (forall i :: 0 <= i < |d| ==> d[i] > 0)
    && forall i, j :: 0 <= i < j < |d| ==> d[i] > d[j]
  }

  /** i is the first denomination that is at most the amount. */
  ghost predicate FirstFit(d: seq<nat>, amount: nat, i: nat) {
    i < |d| && d[i] <= amount && forall j :: 0 <= j < i ==> d[j] > amount
  }

  ghost function Pick(d: seq<nat>, amount: nat, from: nat): (i: nat)
    requires Denominations(d) && amount > 0 && from < |d| && forall j :: 0 <= j < from ==> d[j] > amount
    ensures FirstFit(d, amount, i)
    decreases |d| - from
  {
    if d[from] <= amount then from else Pick(d, amount, from + 1)
  }

  /** The wallet after the greedy withdrawal of an amount. */
  ghost function Withdrawn(d: seq<nat>, w: seq<nat>, amount: nat): (r: seq<nat>)
    requires Denominations(d) && |w| == |d|
    ensures |r| == |w|
    decreases amount
  {
    if amount == 0 then w
    else
      var i := Pick(d, amount, 0);
      Withdrawn(d, Plus(w, i), amount - d[i])
  }

  /** How many coins the greedy withdrawal takes. */
  ghost function GreedyCount(d: seq<nat>, amount: nat): nat
    requires Denominations(d)
    decreases amount
  {
    if amount == 0 then 0 else 1 + GreedyCount(d, amount - d[Pick(d, amount, 0)])
  }

  /** Withdrawing adds exactly the amount, in as many coins as the greedy choice takes. */
  lemma {:induction false} WithdrawnValue(d: seq<nat>, w: seq<nat>, amount: nat)
    requires Denominations(d) && |w| == |d|
    ensures Value(d, Withdrawn(d, w, amount)) == Value(d, w) + amount
    ensures Coins(Withdrawn(d, w, amount)) == Coins(w) + GreedyCount(d, amount)
    decreases amount
  {
    if amount > 0 {
      var i := Pick(d, amount, 0);
      PlusFrom(d, w, i, 0);
      WithdrawnValue(d, Plus(w, i), amount - d[i]);
    }
  }

  // ----- fewest coins

  /** Number of one bits. */
  ghost function Bits(n: nat): nat {
    if n == 0 then 0 else n % 2 + Bits(n / 2)
  }

  ghost function Pow2(k: nat): nat {
    if k == 0 then 1 else 2 * Pow2(k - 1)
  }

  lemma {:induction false} BitsTop(k: nat, x: nat)
    requires x < Pow2(k)
    ensures Bits(Pow2(k) + x) == 1 + Bits(x)
    decreases k
  {
    if k > 0 {
      assert (Pow2(k) + x) / 2 == Pow2(k - 1) + x / 2 && (Pow2(k) + x) % 2 == x % 2;
      BitsTop(k - 1, x / 2);
    } else {
      assert Bits(1) == 1 + Bits(0);
    }
  }

  lemma {:induction false} BitsSubadditive(x: nat, y: nat)
    ensures Bits(x + y) <= Bits(x) + Bits(y)
    decreases x + y
  {
    if x + y > 0 {
      var h := x / 2 + y / 2;
      BitsHalf(x);
      BitsHalf(y);
      BitsHalf(x + y);
      if x % 2 == 1 && y % 2 == 1 {
        assert (x + y) / 2 == h + 1;
        BitsSubadditive(x / 2, y / 2);
        BitsSubadditive(h, 1);
        assert Bits(1) == 1 + Bits(0);
      } else {
        assert (x + y) / 2 == h;
        if h < x + y {
          BitsSubadditive(x / 2, y / 2);
        }
      }
    }
  }

  lemma BitsHalf(x: nat)
    ensures Bits(x) == x % 2 + Bits(x / 2)
  {
  }

  /** All denominations but the first are the powers of two in falling order. */
  ghost predicate PowersBehindFirst(d: seq<nat>) {
    |d| > 0 && forall i :: 1 <= i < |d| ==> d[i] == Pow2(|d| - 1 - i)
  }

  lemma DenomsShape()
    ensures TheDenominations(DENOMS)
    ensures Pow2(5) == 32 && Pow2(6) == 64 && Pow2(9) == 512 && Pow2(12) == 4096
  {
    assert Pow2(3) == 8;
    assert Pow2(6) == 64;
    assert Pow2(9) == 512;
    assert Pow2(12) == 4096;
  }

  /** Below twice the largest power and below the first denomination: one coin per one bit. */
  lemma {:induction false} GreedyIsBits(d: seq<nat>, amount: nat)
    requires Denominations(d) && PowersBehindFirst(d) && |d| >= 2
    requires amount < d[0] <= 2 * d[1]
    ensures GreedyCount(d, amount) == Bits(amount)
    decreases amount
  {
    if amount > 0 {
      hide Bits;
      var i := Pick(d, amount, 0);
      var k := |d| - 1 - i;
      assert amount < 2 * Pow2(k) by {
        if i >= 2 {
          assert d[i - 1] == Pow2(k + 1) > amount;
        }
      }
      BitsTop(k, amount - Pow2(k));
      GreedyIsBits(d, amount - d[i]);
    }
  }

  lemma {:induction false} BitsBelow(k: nat, x: nat)
    requires x < Pow2(k)
    ensures Bits(x) <= k
    decreases k
  {
    if k > 0 {
      BitsHalf(x);
      BitsBelow(k - 1, x / 2);
    }
  }

  /** Between 8096 and 8191 the large coin never costs more coins than it saves. */
  lemma LargeCoinPays(amount: nat)
    requires 8096 <= amount < 8192
    ensures 1 + Bits(amount - 8096) <= Bits(amount)
  {
    hide Bits;
    assert Pow2(6) == 64 && Pow2(9) == 512 && Pow2(12) == 4096 by {
      DenomsShape();
    }
    var r := amount - 8096;
    if r >= 64 {
      BitsTop(6, r - 64);
      BitsBelow(5, r - 64);
    } else {
      BitsBelow(6, r);
    }
    BitsTop(12, amount - 4096);
    BitsTop(11, amount - 4096 - 2048);
    BitsTop(10, amount - 4096 - 2048 - 1024);
    BitsTop(9, amount - 4096 - 2048 - 1024 - 512);
    BitsTop(8, amount - 4096 - 2048 - 1024 - 512 - 256);
    BitsTop(7, amount - 8064);
    BitsPositive(amount - 8064);
  }

  lemma {:induction false} BitsPositive(x: nat)
    requires x > 0
    ensures Bits(x) > 0
  {
    if x > 1 {
      BitsPositive(x / 2);
    }
  }

  // ----- how many coins of at most 4096 are needed

  /** Coins of 4096 for as much as possible, and one coin per one bit of the rest. */
  ghost function PowerCount(n: nat): nat {
    n / 4096 + Bits(n % 4096)
  }

  lemma PowerCountIs(q: nat, x: nat)
    requires x < 4096
    ensures PowerCount(4096 * q + x) == q + Bits(x)
  {
    assert (4096 * q + x) / 4096 == q && (4096 * q + x) % 4096 == x;
  }

  lemma Pow2At12()
    ensures Pow2(12) == 4096
  {
    DenomsShape();
  }

  lemma PowerCountSmall(n: nat)
    requires n < 8192
    ensures PowerCount(n) == Bits(n)
  {
    hide Bits, Pow2;
    if n >= 4096 {
      Pow2At12();
      PowerCountIs(1, n - 4096);
      BitsTop(12, n - 4096);
    } else {
      PowerCountIs(0, n);
    }
  }

  lemma PowerCountSubadditive(n: nat, m: nat)
    ensures PowerCount(n + m) <= PowerCount(n) + PowerCount(m)
  {
    hide Bits, Pow2;
    var q, x, r, y := n / 4096, n % 4096, m / 4096, m % 4096;
    BitsSubadditive(x, y);
    if x + y < 4096 {
      PowerCountIs(q + r, x + y);
    } else {
      Pow2At12();
      PowerCountIs(q + r + 1, x + y - 4096);
      BitsTop(12, x + y - 4096);
    }
  }

  lemma PowerCountOfPower(k: nat)
    requires k <= 12
    ensures PowerCount(Pow2(k)) == 1
  {
    hide Bits, Pow2, PowerCount;
    Pow2Grows(k, 12);
    Pow2At12();
    BitsOfPower(k);
    PowerCountSmall(Pow2(k));
  }

  lemma BitsOfPower(k: nat)
    ensures Bits(Pow2(k)) == 1
  {
    hide Pow2;
    Pow2Grows(k, k);
    BitsTop(k, 0);
  }

  lemma {:induction false} Pow2Grows(k: nat, l: nat)
    requires k <= l
    ensures 0 < Pow2(k) <= Pow2(l)
    decreases l
  {
    if k < l {
      Pow2Grows(k, l - 1);
    } else if k > 0 {
      Pow2Grows(k - 1, k - 1);
    }
  }

  lemma {:induction false} PowerCountScaled(p: nat, c: nat)
    requires PowerCount(p) == 1
    ensures PowerCount(c * p) <= c
  {
    if c > 0 {
      PowerCountScaled(p, c - 1);
      assert c * p == (c - 1) * p + p;
      PowerCountSubadditive((c - 1) * p, p);
    } else {
      assert c * p == 0;
      PowerCountIs(0, 0);
    }
  }

  /** Coins of at most 4096 number at least the power count of their value. */
  lemma {:induction false} PowerCoinsLowerBound(d: seq<nat>, w: seq<nat>, i: nat)
    requires |w| == |d| == 14 && 1 <= i <= |d| && PowersBehindFirst(d)
    ensures PowerCount(ValueFrom(d, w, i)) <= CoinsFrom(w, i)
    decreases |d| - i
  {
    if i < |d| {
      hide PowerCount, Pow2;
      PowerCoinsLowerBound(d, w, i + 1);
      var here, rest := w[i] * d[i], ValueFrom(d, w, i + 1);
      PowerCountOfPower(|d| - 1 - i);
      PowerCountScaled(d[i], w[i]);
      PowerCountSubadditive(here, rest);
    } else {
      PowerCountIs(0, 0);
    }
  }

  // ----- when the greedy withdrawal is optimal

  ghost predicate TheDenominations(d: seq<nat>) {
    Denominations(d) && PowersBehindFirst(d) && |d| == 14 && d[0] == 8096 && d[1] == 4096
  }

  /** No wallet of the same value has fewer coins than the greedy withdrawal. */
  ghost predicate Fewest(d: seq<nat>, amount: nat)
    requires Denominations(d)
  {
    forall w :: |w| == |d| && Value(d, w) == amount ==> GreedyCount(d, amount) <= Coins(w)
  }

  /** Coins for the amount if c of them are of the first denomination. */
  ghost function CountWith(amount: nat, c: nat): nat
    requires c * 8096 <= amount
  {
    c + PowerCount(amount - c * 8096)
  }

  lemma {:induction false} GreedyCountIs(d: seq<nat>, amount: nat)
    requires TheDenominations(d)
    ensures GreedyCount(d, amount) == amount / 8096 + Bits(amount % 8096)
    decreases amount
  {
    hide Bits;
    if amount < 8096 {
      GreedyIsBits(d, amount);
    } else {
      assert Pick(d, amount, 0) == 0;
      GreedyCountIs(d, amount - 8096);
      assert (amount - 8096) / 8096 == amount / 8096 - 1 && (amount - 8096) % 8096 == amount % 8096;
    }
  }

  lemma WalletBound(d: seq<nat>, w: seq<nat>)
    requires TheDenominations(d) && |w| == |d|
    ensures w[0] * 8096 <= Value(d, w) && CountWith(Value(d, w), w[0]) <= Coins(w)
  {
    PowerCoinsLowerBound(d, w, 1);
    assert Value(d, w) == w[0] * 8096 + ValueFrom(d, w, 1);
  }

  lemma {:induction false} AddCoins(d: seq<nat>, w: seq<nat>, k: nat, m: nat, i: nat)
    requires |w| == |d| && k < |d| && i <= |d|
    ensures ValueFrom(d, w[k := w[k] + m], i) == ValueFrom(d, w, i) + (if i <= k then m * d[k] else 0)
    ensures CoinsFrom(w[k := w[k] + m], i) == CoinsFrom(w, i) + (if i <= k then m else 0)
    decreases |d| - i
  {
    if i < |d| {
      AddCoins(d, w, k, m, i + 1);
      if i == k {
        assert (w[k] + m) * d[k] == w[k] * d[k] + m * d[k];
      }
    }
  }

  /** A wallet of the amount that has c coins of the first denomination and as few others as possible. */
  lemma WalletWith(d: seq<nat>, amount: nat, c: nat) returns (w: seq<nat>)
    requires TheDenominations(d) && c * 8096 <= amount
    ensures |w| == |d| && Value(d, w) == amount && Coins(w) == CountWith(amount, c)
  {
    hide Bits, Withdrawn, GreedyCount, Denominations, PowersBehindFirst;
    var rest := amount - c * 8096;
    var none := seq(14, i => 0);
    NoCoins(d, none, 0);
    var small := Withdrawn(d, none, rest % 4096);
    WithdrawnValue(d, none, rest % 4096);
    GreedyCountIs(d, rest % 4096);
    var more := small[1 := small[1] + rest / 4096];
    AddCoins(d, small, 1, rest / 4096, 0);
    w := more[0 := more[0] + c];
    AddCoins(d, more, 0, c, 0);
  }

  /**
   * For every amount: the greedy withdrawal takes the fewest coins exactly if no smaller number of
   * coins of 8096 does better, counting the remainder in powers of two.
   */
  lemma FewestIff(d: seq<nat>, amount: nat)
    requires TheDenominations(d)
    ensures Fewest(d, amount) <==>
      forall c: nat :: c * 8096 <= amount ==> GreedyCount(d, amount) <= CountWith(amount, c)
  {
    hide GreedyCount, CountWith;
    if Fewest(d, amount) {
      forall c: nat | c * 8096 <= amount ensures GreedyCount(d, amount) <= CountWith(amount, c) {
        var w := WalletWith(d, amount, c);
        assert Value(d, w) == amount;
      }
    }
    if forall c: nat :: c * 8096 <= amount ==> GreedyCount(d, amount) <= CountWith(amount, c) {
      forall w | |w| == |d| && Value(d, w) == amount ensures GreedyCount(d, amount) <= Coins(w) {
        WalletBound(d, w);
      }
    }
  }

  /**
   * Up to 12287, and so for every withdrawal the simulation makes: greedy change is optimal below 8192,
   * and from there on exactly if this comparison of one bits holds.
   */
  lemma GreedyIsFewest(amount: nat)
    requires amount < 12288
    ensures Denominations(DENOMS)
    ensures Fewest(DENOMS, amount) <==> amount < 8192 || Bits(amount - 8096) <= 1 + Bits(amount - 8192)
    ensures amount < 8096 ==> GreedyCount(DENOMS, amount) == Bits(amount)
  {
    hide Bits, GreedyCount, PowerCount, CountWith, Fewest;
    DenomsShape();
    GreedyCountIs(DENOMS, amount);
    NoLargeCoin(amount);
    if amount >= 8096 {
      OneLargeCoin(amount);
      if amount < 8192 {
        LargeCoinPays(amount);
      }
    } else {
      assert amount / 8096 == 0 && amount % 8096 == amount;
    }
    FewestIfNoWorse(DENOMS, amount);
  }

  /** Below 12288 only the wallet without a coin of 8096 competes. */
  lemma FewestIfNoWorse(d: seq<nat>, amount: nat)
    requires TheDenominations(d) && amount < 12288
    requires amount >= 8096 ==> GreedyCount(d, amount) == CountWith(amount, 1)
    ensures Fewest(d, amount) <==> GreedyCount(d, amount) <= CountWith(amount, 0)
  {
    hide GreedyCount, CountWith, Fewest, TheDenominations;
    FewestIff(d, amount);
    assert forall c: nat :: c * 8096 <= amount ==> c == 0 || (c == 1 && amount >= 8096);
  }

  lemma NoLargeCoin(amount: nat)
    requires amount < 12288
    ensures CountWith(amount, 0) == if amount < 8192 then Bits(amount) else 2 + Bits(amount - 8192)
  {
    hide Bits;
    if amount < 8192 {
      PowerCountSmall(amount);
    } else {
      PowerCountIs(2, amount - 8192);
    }
  }

  lemma OneLargeCoin(amount: nat)
    requires 8096 <= amount < 12288
    ensures CountWith(amount, 1) == 1 + Bits(amount - 8096)
    ensures amount / 8096 == 1 && amount % 8096 == amount - 8096
  {
    hide Bits;
    PowerCountSmall(amount - 8096);
  }

  /** The first amount where it fails: 8192 is two coins of 4096, while the greedy withdrawal takes three. */
  lemma GreedyFailsAt8192()
    ensures Denominations(DENOMS) && GreedyCount(DENOMS, 8192) == 3 && !Fewest(DENOMS, 8192)
  {
    hide GreedyCount, Fewest;
    DenomsShape();
    GreedyIsFewest(8192);
    GreedyCountIs(DENOMS, 8192);
    assert 8192 / 8096 == 1 && 8192 % 8096 == 96;
    assert Bits(96) == 2 && Bits(0) == 0;
  }

  // ----- the simulation

  /** Taking one coin away lowers value and count accordingly. */
  lemma MinusOne(d: seq<nat>, w: seq<nat>, k: nat)
    requires |w| == |d| && k < |d| && w[k] > 0
    ensures Value(d, w[k := w[k] - 1]) + d[k] == Value(d, w)
    ensures Coins(w[k := w[k] - 1]) + 1 == Coins(w)
  {
    var v := w[k := w[k] - 1];
    PlusFrom(d, v, k, 0);
    assert Plus(v, k) == w;
  }

  /** Withdrawing the value of one coin yields that coin. */
  lemma WithdrawOneCoin(d: seq<nat>, w: seq<nat>, k: nat)
    requires Denominations(d) && |w| == |d| && k < |d|
    ensures Withdrawn(d, w, d[k]) == Plus(w, k)
  {
    assert Pick(d, d[k], 0) == k;
    assert Withdrawn(d, Plus(w, k), 0) == Plus(w, k);
  }

  // ----- which coins a spend takes

  /** Of the wallet w the coins left are u: smaller ones than k are gone, larger ones are untouched. */
  ghost predicate SmallestTaken(w: seq<nat>, u: seq<nat>, k: nat) {
    && |u| == |w| && k < |w| && u[k] <= w[k]
    && (forall i :: k < i < |w| ==> u[i] == 0) && forall i :: 0 <= i < k ==> u[i] == w[i]
  }

  /** Of the wallet w the coins left are u: larger ones than k are gone, smaller ones are untouched. */
  ghost predicate LargestTaken(w: seq<nat>, u: seq<nat>, k: nat) {
    && |u| == |w| && k < |w| && u[k] <= w[k]
    && (forall i :: 0 <= i < k ==> u[i] == 0) && forall i :: k < i < |w| ==> u[i] == w[i]
  }

  /** The last coin taken is one of k; with it the cost is paid, and the change, less than it, is withdrawn greedily. */
  ghost predicate PaidFrom(d: seq<nat>, w: seq<nat>, u: seq<nat>, k: nat, cost: nat, w': seq<nat>)
    requires Denominations(d) && |w| == |u| == |d| && k < |d|
  {
    && (if cost == 0 then u == w else u[k] < w[k])
    && Value(d, u) + cost <= Value(d, w) < Value(d, u) + cost + d[k]
    && w' == Withdrawn(d, u, Value(d, w) - Value(d, u) - cost)
  }

  ghost predicate PaidSmallestFirst(d: seq<nat>, w: seq<nat>, cost: nat, w': seq<nat>)
    requires Denominations(d) && |w| == |d|
  {
    exists u, k :: SmallestTaken(w, u, k) && PaidFrom(d, w, u, k, cost, w')
  }

  ghost predicate PaidLargestFirst(d: seq<nat>, w: seq<nat>, cost: nat, w': seq<nat>)
    requires Denominations(d) && |w| == |d|
  {
    exists u, k :: LargestTaken(w, u, k) && PaidFrom(d, w, u, k, cost, w')
  }

  /** The coin k alone pays the cost. */
  ghost predicate Covers(d: seq<nat>, w: seq<nat>, cost: nat, k: nat)
    requires |w| == |d|
  {
    k < |d| && w[k] > 0 && cost <= d[k]
  }

  /** The smallest coin that covers the cost is spent, and the rest of it withdrawn. */
  ghost predicate PaidByOne(d: seq<nat>, w: seq<nat>, cost: nat, w': seq<nat>)
    requires Denominations(d) && |w| == |d|
  {
    exists k: nat :: Covers(d, w, cost, k) && (forall i: nat :: k < i < |d| ==> !Covers(d, w, cost, i))
                && w' == Withdrawn(d, w[k := w[k] - 1], d[k] - cost)
  }

  lemma NothingTaken(d: seq<nat>, w: seq<nat>, k: nat)
    requires Denominations(d) && |w| == |d| && k < |d| && (k == 0 || k == |d| - 1)
    ensures k == |d| - 1 ==> SmallestTaken(w, w, k) && PaidSmallestFirst(d, w, 0, w)
    ensures k == 0 ==> LargestTaken(w, w, k) && PaidLargestFirst(d, w, 0, w)
  {
    assert PaidFrom(d, w, w, k, 0, w);
  }

  /** Paying nothing leaves the wallet as it is. */
  lemma NothingPaid(d: seq<nat>, w: seq<nat>, w': seq<nat>)
    requires Denominations(d) && |w| == |d| && PaidSmallestFirst(d, w, 0, w')
    ensures w' == w
  {
    var u, k :| SmallestTaken(w, u, k) && PaidFrom(d, w, u, k, 0, w');
    assert u == w;
  }

  /** The next coin taken is the smallest in hand. */
  lemma TakeSmallest(d: seq<nat>, w: seq<nat>, u: seq<nat>, last: nat, k: nat, cost0: nat, cost: nat)
    requires Denominations(d) && |w| == |d| && SmallestTaken(w, u, last) && k < |d| && u[k] > 0
    requires (forall i :: k < i < |d| ==> u[i] == 0) && Value(d, u) + cost0 == Value(d, w) + cost && 0 < cost <= cost0
    ensures SmallestTaken(w, u, k) && SmallestTaken(w, u[k := u[k] - 1], k)
    ensures d[k] >= cost ==> PaidSmallestFirst(d, w, cost0, Withdrawn(d, u[k := u[k] - 1], d[k] - cost))
  {
    var v := u[k := u[k] - 1];
    ValueWithout(d, u, k);
    assert k <= last;
    if d[k] >= cost {
      assert PaidFrom(d, w, v, k, cost0, Withdrawn(d, v, d[k] - cost));
    }
  }

  /** The next coin taken is the largest in hand. */
  lemma TakeLargest(d: seq<nat>, w: seq<nat>, u: seq<nat>, last: nat, k: nat, cost0: nat, cost: nat)
    requires Denominations(d) && |w| == |d| && LargestTaken(w, u, last) && k < |d| && u[k] > 0
    requires (forall i :: 0 <= i < k ==> u[i] == 0) && Value(d, u) + cost0 == Value(d, w) + cost && 0 < cost <= cost0
    ensures LargestTaken(w, u, k) && LargestTaken(w, u[k := u[k] - 1], k)
    ensures d[k] >= cost ==> PaidLargestFirst(d, w, cost0, Withdrawn(d, u[k := u[k] - 1], d[k] - cost))
  {
    var v := u[k := u[k] - 1];
    ValueWithout(d, u, k);
    assert last <= k;
    if d[k] >= cost {
      assert PaidFrom(d, w, v, k, cost0, Withdrawn(d, v, d[k] - cost));
    }
  }

  lemma ValueWithout(d: seq<nat>, w: seq<nat>, k: nat)
    requires |w| == |d| && k < |d| && w[k] > 0
    ensures Value(d, w[k := w[k] - 1]) + d[k] == Value(d, w)
  {
    MinusOne(d, w, k);
  }

  class Simulation {
    const denoms: seq<nat>
    const wallet: array<nat>
    var ops: nat
    var opsRefresh: nat
    var opsWithdraw: nat
    var opsSpend: nat
    var refreshOutput: nat

    constructor ()
      ensures Ledger() && fresh(wallet) && denoms == DENOMS && Balance() == 0
    {
      denoms := DENOMS;
      wallet := new nat[|DENOMS|](_ => 0);
      ops, opsRefresh, opsWithdraw, opsSpend, refreshOutput := 0, 0, 0, 0, 0;
      new;
      DenomsShape();
      NoCoins(denoms, wallet[..], 0);
    }

    ghost predicate Valid()
      reads this
    {
      wallet.Length == |denoms| && Denominations(denoms)
    }

    ghost function Balance(): nat
      reads this, wallet
      requires Valid()
    {
      Value(denoms, wallet[..])
    }

    /** Every coin held was paid out by a withdrawal or refresh and not spent since; all of it counted. */
    ghost predicate Ledger()
      reads this, wallet
    {
      && Valid()
      && Coins(wallet[..]) + opsSpend == opsWithdraw + refreshOutput
      && ops == opsWithdraw + refreshOutput + opsSpend
    }

    method Withdraw(amount0: nat, isRefresh: bool)
      requires Ledger()
      modifies wallet, `ops, `opsWithdraw, `refreshOutput
      ensures Ledger()
      ensures wallet[..] == Withdrawn(denoms, old(wallet[..]), amount0)
      ensures Balance() == old(Balance()) + amount0
    {
      var amount := amount0;
      WithdrawnValue(denoms, wallet[..], amount0);
      while amount != 0
        invariant Ledger()
        invariant Withdrawn(denoms, wallet[..], amount) == Withdrawn(denoms, old(wallet[..]), amount0)
      {
        ghost var was, pick := wallet[..], Pick(denoms, amount, 0);
        ghost var start := amount;
        for i := 0 to |denoms|
          invariant amount == start && wallet[..] == was && Ledger()
          invariant i <= pick
        {
          var d := denoms[i];
          if d <= amount {
            assert i == pick;
            PlusFrom(denoms, was, i, 0);
            amount := amount - d;
            wallet[i] := wallet[i] + 1;
            assert wallet[..] == Plus(was, i);
            ops := ops + 1;
            if !isRefresh {
              opsWithdraw := opsWithdraw + 1;
            } else {
              refreshOutput := refreshOutput + 1;
            }
            break;
          }
        }
      }
    }

    /** Spends one coin. */
    method SpendCoin(k: nat)
      requires Ledger() && k < |denoms| && wallet[k] > 0
      modifies wallet, `ops, `opsSpend
      ensures Ledger() && Balance() + denoms[k] == old(Balance())
      ensures wallet[..] == old(wallet[..])[k := old(wallet[k]) - 1]
      ensures opsSpend == old(opsSpend) + 1
    {
      MinusOne(denoms, wallet[..], k);
      ghost var was := wallet[..];
      wallet[k] := wallet[k] - 1;
      assert wallet[..] == was[k := was[k] - 1];
      ops := ops + 1;
      opsSpend := opsSpend + 1;
    }

    /**
     * Spends part of a coin and withdraws the rest again. The loops call this once more with a cost
     * of zero for every larger coin in hand: that leaves the wallet as it is and costs two operations.
     */
    method SpendAndRefresh(k: nat, cost: nat)
      requires Ledger() && k < |denoms| && wallet[k] > 0 && cost <= denoms[k]
      modifies wallet, this
      ensures Ledger() && Balance() + cost == old(Balance())
      ensures wallet[..] == Withdrawn(denoms, old(wallet[..])[k := old(wallet[k]) - 1], denoms[k] - cost)
      ensures cost == 0 ==> wallet[..] == old(wallet[..]) && ops == old(ops) + 2
    {
      ghost var was := wallet[..];
      SpendCoin(k);
      var r := denoms[k] - cost;
      opsRefresh := opsRefresh + 1;
      Withdraw(r, true);
      if cost == 0 {
        WithdrawOneCoin(denoms, was[k := was[k] - 1], k);
        assert wallet[..] == was;
      }
    }

    /** Nothing in hand up to the bounds of the wallet means a balance of zero. */
    lemma NothingLeft()
      requires Valid() && forall k :: 0 <= k < |denoms| ==> wallet[k] == 0
      ensures Balance() == 0
    {
      NoCoins(denoms, wallet[..], 0);
    }

    method SpendSmallestFirst(cost0: nat)
      requires Ledger() && cost0 <= Balance()
      modifies wallet, this
      ensures Ledger() && Balance() + cost0 == old(Balance())
      ensures PaidSmallestFirst(denoms, old(wallet[..]), cost0, wallet[..])
    {
      var cost: nat := cost0;
      ghost var w, last: nat := wallet[..], |denoms| - 1;
      NothingTaken(denoms, w, last);
      while cost != 0
        invariant Ledger() && cost <= cost0 && cost <= Balance() && Balance() + cost0 == Value(denoms, w) + cost
        invariant if cost == 0 then PaidSmallestFirst(denoms, w, cost0, wallet[..])
          else SmallestTaken(w, wallet[..], last)
        decreases cost
      {
        ghost var start := cost;
        for j := 0 to |denoms|
          invariant Ledger() && cost <= cost0 && cost <= Balance() && Balance() + cost0 == Value(denoms, w) + cost
          invariant cost == 0 || cost == start
          invariant cost != 0 ==> SmallestTaken(w, wallet[..], last) && forall k :: |denoms| - j <= k < |denoms| ==>
            wallet[k] == 0
          invariant cost == 0 ==> PaidSmallestFirst(denoms, w, cost0, wallet[..])
        {
          var k := |denoms| - j - 1;
          var d := denoms[k];
          if wallet[k] == 0 {
            continue;
          }
          if cost != 0 {
            TakeSmallest(denoms, w, wallet[..], last, k, cost0, cost);
            last := k;
          }
          if d <= cost {
            SpendCoin(k);
            cost := cost - d;
            break;
          }
          SpendAndRefresh(k, cost);
          cost := 0;
        }
        if cost == start {
          NothingLeft();
        }
      }
    }

    method SpendLargestFirst(cost0: nat)
      requires Ledger() && cost0 <= Balance()
      modifies wallet, this
      ensures Ledger() && Balance() + cost0 == old(Balance())
      ensures PaidLargestFirst(denoms, old(wallet[..]), cost0, wallet[..])
    {
      var cost: nat := cost0;
      ghost var w, last: nat := wallet[..], 0;
      NothingTaken(denoms, w, last);
      while cost != 0
        invariant Ledger() && cost <= cost0 && cost <= Balance() && Balance() + cost0 == Value(denoms, w) + cost
        invariant if cost == 0 then PaidLargestFirst(denoms, w, cost0, wallet[..])
          else LargestTaken(w, wallet[..], last)
        decreases cost
      {
        ghost var start := cost;
        for j := 0 to |denoms|
          invariant Ledger() && cost <= cost0 && cost <= Balance() && Balance() + cost0 == Value(denoms, w) + cost
          invariant cost == 0 || cost == start
          invariant cost != 0 ==> LargestTaken(w, wallet[..], last) && forall k :: 0 <= k < j ==> wallet[k] == 0
          invariant cost == 0 ==> PaidLargestFirst(denoms, w, cost0, wallet[..])
        {
          var d := denoms[j];
          if wallet[j] == 0 {
            continue;
          }
          if cost != 0 {
            TakeLargest(denoms, w, wallet[..], last, j, cost0, cost);
            last := j;
          }
          if d <= cost {
            SpendCoin(j);
            cost := cost - d;
            break;
          }
          SpendAndRefresh(j, cost);
          cost := 0;
        }
        if cost == start {
          NothingLeft();
        }
      }
    }

    method SpendHybrid(cost0: nat)
      requires Ledger() && cost0 <= Balance()
      modifies wallet, this
      ensures Ledger() && Balance() + cost0 == old(Balance())
      ensures if exists k :: Covers(denoms, old(wallet[..]), cost0, k)
              then PaidByOne(denoms, old(wallet[..]), cost0, wallet[..])
              else PaidSmallestFirst(denoms, old(wallet[..]), cost0, wallet[..])
    {
      var cost: nat := cost0;
      ghost var w, covered := wallet[..], false;
      for j := 0 to |denoms|
        invariant Ledger() && cost <= Balance()
        invariant Balance() + cost0 == Value(denoms, w) + cost
        invariant if covered then cost == 0 && PaidByOne(denoms, w, cost0, wallet[..])
                  else cost == cost0 && wallet[..] == w
        invariant !covered ==> forall i :: |denoms| - j <= i < |denoms| ==> !Covers(denoms, w, cost0, i)
      {
        var k := |denoms| - j - 1;
        var d := denoms[k];
        if wallet[k] == 0 {
          continue;
        }
        if d < cost {
          continue;
        }
        SpendAndRefresh(k, cost);
        if !covered {
          assert Covers(denoms, w, cost0, k);
        }
        cost := 0;
        covered := true;
      }
      ghost var before := wallet[..];
      assert covered || forall k :: !Covers(denoms, w, cost0, k);
      SpendSmallestFirst(cost);
      if covered {
        NothingPaid(denoms, before, wallet[..]);
      }
    }

    method CountBalance() returns (balance: nat)
      requires Valid()
      ensures balance == Balance()
    {
      balance := 0;
      for j := 0 to |denoms|
        invariant balance + ValueFrom(denoms, wallet[..], j) == Balance()
      {
        balance := balance + wallet[j] * denoms[j];
      }
    }

    /**
     * The main loop; the random draws are arbitrary values of the drawn ranges. Returns whether
     * "not enough balance" was raised, and the sums withdrawn and spent.
     */
    method Run(numTransactions: nat) returns (notEnoughBalance: bool, withdrawn: nat, spent: nat)
      requires Ledger()
      modifies wallet, this
      ensures Ledger()
      ensures !notEnoughBalance
      ensures Balance() + spent == old(Balance()) + withdrawn
      ensures TRANS_MIN * numTransactions <= spent <= TRANS_MAX * numTransactions
    {
      withdrawn, spent := 0, 0;
      for i := 0 to numTransactions
        invariant Ledger()
        invariant Balance() + spent == old(Balance()) + withdrawn
        invariant TRANS_MIN * i <= spent <= TRANS_MAX * i
      {
        var balance := CountBalance();
        var cost: nat :| TRANS_MIN <= cost <= TRANS_MAX;
        if balance < cost {
          var amount: nat :| cost - balance <= amount <= WITHDRAW_MAX;
          Withdraw(amount, false);
          withdrawn := withdrawn + amount;
        }
        balance := CountBalance();
        if balance < cost {
          return true, withdrawn, spent;
        }
        SpendHybrid(cost);
        spent := spent + cost;
      }
      notEnoughBalance := false;
    }
  }
}
