/** The strategy stage: a per-symbol exponential moving average and a threshold rule. */
module SignalEngines {
  import opened Sequences

  datatype Kind = Hold | Buy | Sell

  datatype Snap = Snap(key: string, price: real, timestamp: int)

  datatype Signal = Signal(key: string, price: real, ema: real, timestamp: int, kind: Kind)

  /** The smoothing factor; a non-positive period means 20. */
  function Alpha(period: int): (a: real)
    ensures 0.0 < a <= 1.0
    ensures period > 0 ==> a * (period + 1) as real == 2.0
    ensures period <= 0 ==> a * 21.0 == 2.0
  {
    var n := if period <= 0 then 20 else period;
    2.0 / (n + 1) as real
  }

  function Classify(ema: real, price: real): Kind {
    if ema < price * 0.999 then Buy else if ema > price * 1.001 then Sell else Hold
  }

  /** One smoothing step. */
  function Mix(a: real, price: real, ema: real): real { price * a + ema * (1.0 - a) }

  /** The average over one symbol's prices, oldest first. */
  function Ema(a: real, prices: seq<real>): real
    requires prices != []
  {
    if |prices| == 1 then prices[0] else Mix(a, Last(prices), Ema(a, Front(prices)))
  }

  // ----- Real arithmetic -----

  lemma NonNegative(x: real, y: real)
    requires x >= 0.0 && y >= 0.0
    ensures x * y >= 0.0
  {
  }

  lemma SameSign(x: real, y: real)
    requires x >= 0.0
    ensures y >= 0.0 ==> x * y >= 0.0
    ensures y <= 0.0 ==> x * y <= 0.0
  {
    if y >= 0.0 { NonNegative(x, y); }
    if y <= 0.0 { NonNegative(x, -y); }
  }

  lemma TimesMonotone(x: real, y: real, s: real)
    requires x <= y && s >= 0.0
    ensures x * s <= y * s
  {
    NonNegative(y - x, s);
    assert (y - x) * s == y * s - x * s;
  }

  lemma ProductRange(x: real, y: real)
    requires 0.0 <= x <= 1.0 && 0.0 <= y <= 1.0
    ensures 0.0 <= x * y <= 1.0
  {
    NonNegative(x, y);
    NonNegative(1.0 - x, y);
    assert (1.0 - x) * y == y - x * y;
  }

  lemma MixError(a: real, p: real, e: real)
    ensures Mix(a, p, e) - p == (1.0 - a) * (e - p)
  {
    assert e * (1.0 - a) == e - e * a;
    assert (1.0 - a) * (e - p) == (e - p) - a * (e - p);
    assert a * (e - p) == a * e - a * p;
  }

  lemma MixMonotone(a: real, x: real, y: real, x': real, y': real)
    requires 0.0 <= a <= 1.0 && x <= x' && y <= y'
    ensures Mix(a, x, y) <= Mix(a, x', y')
  {
    var b := 1.0 - a;
    TimesMonotone(x, x', a);
    TimesMonotone(y, y', b);
    AddBounds(x * a, x' * a, y * b, y' * b);
  }

  lemma AddBounds(p: real, p': real, q: real, q': real)
    requires p <= p' && q <= q'
    ensures p + q <= p' + q'
  {
  }

  lemma MixSame(a: real, c: real)
    ensures Mix(a, c, c) == c
  {
    MixError(a, c, c);
    assert (1.0 - a) * 0.0 == 0.0;
  }

  lemma MixBetween(a: real, x: real, y: real, lo: real, hi: real)
    requires 0.0 <= a <= 1.0 && lo <= x <= hi && lo <= y <= hi
    ensures lo <= Mix(a, x, y) <= hi
  {
    hide Mix;
    MixMonotone(a, lo, lo, x, y);
    MixMonotone(a, x, y, hi, hi);
    MixSame(a, lo);
    MixSame(a, hi);
  }

  lemma Factor(q: real, s: real, w: real, x: real)
    ensures q * s + (q * w) * x == q * (s + w * x)
  {
    assert (q * w) * x == q * (w * x);
    assert q * (s + w * x) == q * s + q * (w * x);
  }

  lemma ShrinkAgain(q: real, r: real, d: real, before: real, after: real)
    requires before == r * d && after == q * before
    ensures after == (q * r) * d
  {
  }

  lemma ReachIsLinear(a: real, margin: real, m: real)
    ensures margin * (1.0 + m * a) == margin + m * (margin * a)
  {
    assert margin * (m * a) == m * (margin * a);
  }

  // ----- Closed form -----

  function Pow(q: real, n: nat): real { if n == 0 then 1.0 else q * Pow(q, n - 1) }

  /** The weight of price `i` among `n`: the oldest carries the whole remainder. */
  function Weight(a: real, n: nat, i: nat): real
    requires i < n
  {
    if i == 0 then Pow(1.0 - a, n - 1) else a * Pow(1.0 - a, n - 1 - i)
  }

  /** The sum of the first `k` weighted prices out of `n`. */
  function WeightedSum(a: real, n: nat, prices: seq<real>, k: nat): real
    requires k <= n <= |prices|
  {
    if k == 0 then 0.0 else WeightedSum(a, n, prices, k - 1) + Weight(a, n, k - 1) * prices[k - 1]
  }

  /** A new price scales every earlier weight by one minus alpha. */
  lemma WeightShrinks(a: real, n: nat, i: nat)
    requires i < n - 1
    ensures Weight(a, n, i) == (1.0 - a) * Weight(a, n - 1, i)
  {
    if i == 0 {
      assert Pow(1.0 - a, n - 1) == (1.0 - a) * Pow(1.0 - a, n - 2);
    } else {
      var q, r := 1.0 - a, Pow(1.0 - a, n - 2 - i);
      assert Pow(q, n - 1 - i) == q * r;
      assert a * (q * r) == q * (a * r);
    }
  }

  lemma {:induction false} SumShrinks(a: real, prices: seq<real>, k: nat)
    requires |prices| > 1 && k <= |prices| - 1
    ensures WeightedSum(a, |prices|, prices, k) == (1.0 - a) * WeightedSum(a, |prices| - 1, Front(prices), k)
  {
    hide Weight;
    if k > 0 {
      SumShrinks(a, prices, k - 1);
      var n, i := |prices|, k - 1;
      WeightShrinks(a, n, i);
      assert Front(prices)[i] == prices[i];
      Factor(1.0 - a, WeightedSum(a, n - 1, Front(prices), i), Weight(a, n - 1, i), prices[i]);
    }
  }

  lemma SinglePrice(a: real, prices: seq<real>)
    requires |prices| == 1
    ensures Ema(a, prices) == WeightedSum(a, 1, prices, 1)
  {
    assert WeightedSum(a, 1, prices, 0) == 0.0;
    assert Weight(a, 1, 0) == 1.0;
  }

  /** The recursive average is the weighted sum of the whole history. */
  lemma {:induction false} EmaIsWeightedSum(a: real, prices: seq<real>)
    requires prices != []
    ensures Ema(a, prices) == WeightedSum(a, |prices|, prices, |prices|)
    decreases |prices|
  {
    hide *;
    var n := |prices|;
    if n == 1 {
      SinglePrice(a, prices);
    } else {
      EmaIsWeightedSum(a, Front(prices));
      SumShrinks(a, prices, n - 1);
      LastWeight(a, n);
      SumSplits(a, prices);
    }
  }

  lemma LastWeight(a: real, n: nat)
    requires n > 1
    ensures Weight(a, n, n - 1) == a
  {
    assert Pow(1.0 - a, 0) == 1.0;
  }

  lemma SumLast(a: real, prices: seq<real>)
    requires prices != []
    ensures WeightedSum(a, |prices|, prices, |prices|) ==
            WeightedSum(a, |prices|, prices, |prices| - 1) + Weight(a, |prices|, |prices| - 1) * Last(prices)
  {
    hide Weight;
  }

  lemma SumSplits(a: real, prices: seq<real>)
    requires |prices| > 1 && Weight(a, |prices|, |prices| - 1) == a
    requires WeightedSum(a, |prices|, prices, |prices| - 1) == (1.0 - a) * Ema(a, Front(prices))
    ensures WeightedSum(a, |prices|, prices, |prices|) == Ema(a, prices)
  {
    hide Weight, WeightedSum, Mix;
    SumLast(a, prices);
    MixCommutes(a, Last(prices), Ema(a, Front(prices)));
  }

  lemma MixCommutes(a: real, p: real, e: real)
    ensures Mix(a, p, e) == (1.0 - a) * e + a * p
  {
  }

  lemma {:induction false} PowRange(q: real, n: nat)
    requires 0.0 <= q <= 1.0
    ensures 0.0 <= Pow(q, n) <= 1.0
  {
    if n > 0 {
      PowRange(q, n - 1);
      ProductRange(q, Pow(q, n - 1));
    }
  }

  lemma {:induction false} ConstantEma(a: real, prices: seq<real>, c: real)
    requires prices != [] && forall i :: 0 <= i < |prices| ==> prices[i] == c
    ensures Ema(a, prices) == c
  {
    hide Mix;
    if |prices| > 1 {
      ConstantEma(a, Front(prices), c);
      MixSame(a, c);
    }
  }

  /** The weights are non-negative and add up to one. */
  lemma WeightsAreConvex(a: real, n: nat)
    requires 0.0 <= a <= 1.0 && n > 0
    ensures forall i :: 0 <= i < n ==> Weight(a, n, i) >= 0.0
    ensures WeightedSum(a, n, seq(n, i => 1.0), n) == 1.0
  {
    forall i | 0 <= i < n ensures Weight(a, n, i) >= 0.0 {
      PowRange(1.0 - a, n - 1);
      PowRange(1.0 - a, n - 1 - i);
      ProductRange(a, Pow(1.0 - a, n - 1 - i));
    }
    var ones := seq(n, i => 1.0);
    ConstantEma(a, ones, 1.0);
    EmaIsWeightedSum(a, ones);
  }

  /** The average never leaves the range of the prices seen. */
  lemma {:induction false} EmaWithinRange(a: real, prices: seq<real>, lo: real, hi: real)
    requires 0.0 <= a <= 1.0 && prices != [] && forall i :: 0 <= i < |prices| ==> lo <= prices[i] <= hi
    ensures lo <= Ema(a, prices) <= hi
  {
    hide Mix;
    if |prices| > 1 {
      EmaWithinRange(a, Front(prices), lo, hi);
      MixBetween(a, Last(prices), Ema(a, Front(prices)), lo, hi);
    }
  }

  // ----- Signals -----

  lemma EmaError(a: real, prices: seq<real>)
    requires |prices| > 1
    ensures Ema(a, prices) - Last(prices) == (1.0 - a) * (Ema(a, Front(prices)) - Last(prices))
  {
    hide Mix;
    MixError(a, Last(prices), Ema(a, Front(prices)));
  }

  lemma ClassifyByError(ema: real, p: real, error: real)
    requires ema - p == error
    ensures Classify(ema, p) == Buy <==> error < -0.001 * p
    ensures Classify(ema, p) == Sell <==> error > 0.001 * p && error >= -0.001 * p
  {
  }

  /** A signal in terms of the previous average: the price must have moved past it by more than the
      threshold, counted in the part of the move that the average has not yet followed. */
  lemma SignalExactly(a: real, prices: seq<real>)
    requires |prices| > 1
    ensures var p, previous := Last(prices), Ema(a, Front(prices));
            && (Classify(Ema(a, prices), p) == Buy <==> (1.0 - a) * (previous - p) < -0.001 * p)
            && (p > 0.0 ==> (Classify(Ema(a, prices), p) == Sell <==> (1.0 - a) * (previous - p) > 0.001 * p))
  {
    hide Ema, Classify;
    EmaError(a, prices);
    ClassifyByError(Ema(a, prices), Last(prices), (1.0 - a) * (Ema(a, Front(prices)) - Last(prices)));
  }

  /** The new average lies on the same side of the price as the previous one. */
  lemma ErrorSign(a: real, prices: seq<real>)
    requires 0.0 < a <= 1.0 && |prices| > 1
    ensures Ema(a, Front(prices)) >= Last(prices) ==> Ema(a, prices) >= Last(prices)
    ensures Ema(a, Front(prices)) <= Last(prices) ==> Ema(a, prices) <= Last(prices)
  {
    hide Ema;
    EmaError(a, prices);
    SameSign(1.0 - a, Ema(a, Front(prices)) - Last(prices));
  }

  lemma ErrorDirection(ema: real, p: real, previous: real)
    requires p > 0.0 && (previous >= p ==> ema >= p) && (previous <= p ==> ema <= p)
    ensures Classify(ema, p) == Buy ==> previous < p
    ensures Classify(ema, p) == Sell ==> previous > p
  {
  }

  /** For a positive price, a buy means the average was strictly below it and a sell strictly above;
      the first price of a symbol is always a hold. */
  lemma SignalDirection(a: real, prices: seq<real>)
    requires 0.0 < a <= 1.0 && prices != [] && Last(prices) > 0.0
    ensures |prices| == 1 ==> Classify(Ema(a, prices), Last(prices)) == Hold
    ensures |prices| > 1 && Classify(Ema(a, prices), Last(prices)) == Buy ==> Ema(a, Front(prices)) < Last(prices)
    ensures |prices| > 1 && Classify(Ema(a, prices), Last(prices)) == Sell ==> Ema(a, Front(prices)) > Last(prices)
  {
    if |prices| > 1 {
      hide Ema, Classify;
      ErrorSign(a, prices);
      ErrorDirection(Ema(a, prices), Last(prices), Ema(a, Front(prices)));
    }
  }

  // ----- A constant price silences the signals -----

  function Repeat(p: real, n: nat): (r: seq<real>)
    ensures |r| == n
  {
    if n == 0 then [] else Repeat(p, n - 1) + [p]
  }

  /** Each repetition of the price shrinks the error by exactly one minus alpha. */
  lemma {:induction false} ErrorShrinks(a: real, prices: seq<real>, p: real, n: nat)
    requires prices != []
    ensures Ema(a, prices + Repeat(p, n)) - p == Pow(1.0 - a, n) * (Ema(a, prices) - p)
  {
    hide Mix, Ema;
    if n == 0 {
      assert prices + Repeat(p, 0) == prices;
    } else {
      ErrorShrinks(a, prices, p, n - 1);
      var before := prices + Repeat(p, n - 1);
      EmaSnoc(a, before, p);
      assert prices + Repeat(p, n) == before + [p];
      MixError(a, p, Ema(a, before));
      assert Pow(1.0 - a, n) == (1.0 - a) * Pow(1.0 - a, n - 1);
      ShrinkAgain(1.0 - a, Pow(1.0 - a, n - 1), Ema(a, prices) - p, Ema(a, before) - p, Ema(a, before + [p]) - p);
    }
  }

  lemma EmaSnoc(a: real, prices: seq<real>, p: real)
    requires prices != []
    ensures Ema(a, prices + [p]) == Mix(a, p, Ema(a, prices))
  {
    hide Mix;
    assert Front(prices + [p]) == prices;
  }

  /** How far a margin reaches after `m` repetitions, by Bernoulli's bound. */
  function Reach(a: real, margin: real, m: nat): real { margin * (1.0 + m as real * a) }

  lemma DecayStep(a: real, m: real, r: real)
    requires 0.0 <= a <= 1.0 && m >= 0.0 && r >= 0.0 && r * (1.0 + m * a) <= 1.0
    ensures ((1.0 - a) * r) * (1.0 + (m + 1.0) * a) <= 1.0
  {
    var k, q, ma := 1.0 + m * a, 1.0 - a, m * a;
    assert (m + 1.0) * a == ma + a;
    assert q * (k + a) == k - a * (ma + a) by {
      assert q * (k + a) == (k + a) - a * (k + a);
      assert a * (k + a) == a + a * (ma + a) by { assert k + a == 1.0 + (ma + a); }
    }
    NonNegative(m, a);
    NonNegative(a, ma + a);
    NonNegative(a * (ma + a), r);
    assert (q * (k + a)) * r == k * r - (a * (ma + a)) * r;
    assert (q * r) * (k + a) == (q * (k + a)) * r;
  }

  /** Bernoulli's bound on geometric decay. */
  lemma {:induction false} DecayBound(a: real, n: nat)
    requires 0.0 < a <= 1.0
    ensures 0.0 <= Pow(1.0 - a, n) && Pow(1.0 - a, n) * Reach(a, 1.0, n) <= 1.0
  {
    PowRange(1.0 - a, n);
    if n > 0 {
      DecayBound(a, n - 1);
      PowRange(1.0 - a, n - 1);
      DecayStep(a, (n - 1) as real, Pow(1.0 - a, n - 1));
    }
  }

  lemma SmallEnough(r: real, k: real, error: real, margin: real)
    requires 0.0 <= r && r * k <= 1.0 && 0.0 <= margin && -(margin * k) <= error <= margin * k
    ensures -margin <= r * error <= margin
  {
    TimesMonotone(error, margin * k, r);
    TimesMonotone(-(margin * k), error, r);
    assert (margin * k) * r == margin * (r * k);
    TimesMonotone(r * k, 1.0, margin);
  }

  lemma StepsToCover(size: real, step: real) returns (n: nat)
    requires size >= 0.0 && step > 0.0
    ensures n as real * step >= size
  {
    var ratio := size / step;
    assert ratio * step == size;
    n := ratio.Floor + 1;
    TimesMonotone(ratio, n as real, step);
  }

  /** A number of repetitions after which the error is within reach of the margin. */
  lemma EnoughRepetitions(a: real, error: real, margin: real) returns (n: nat)
    requires 0.0 < a && 0.0 < margin
    ensures forall m: nat :: m >= n ==> -Reach(a, margin, m) <= error <= Reach(a, margin, m)
  {
    var size := if error < 0.0 then -error else error;
    var step := margin * a;
    n := StepsToCover(size, step);
    forall m: nat | m >= n ensures -Reach(a, margin, m) <= error <= Reach(a, margin, m) {
      TimesMonotone(n as real, m as real, step);
      ReachIsLinear(a, margin, m as real);
      assert Reach(a, margin, m) == margin + m as real * step;
      assert size <= n as real * step <= m as real * step;
    }
  }

  lemma SettledAt(a: real, prices: seq<real>, p: real, m: nat)
    requires 0.0 < a <= 1.0 && prices != [] && p > 0.0
    requires -Reach(a, 0.001 * p, m) <= Ema(a, prices) - p <= Reach(a, 0.001 * p, m)
    ensures Classify(Ema(a, prices + Repeat(p, m)), p) == Hold
  {
    hide Ema, Repeat, Mix;
    ErrorShrinks(a, prices, p, m);
    DecayBound(a, m);
    var k := 1.0 + m as real * a;
    assert Reach(a, 1.0, m) == k && Reach(a, 0.001 * p, m) == (0.001 * p) * k;
    SmallEnough(Pow(1.0 - a, m), k, Ema(a, prices) - p, 0.001 * p);
  }

  /** Whatever the history and the period, a constant positive price is eventually answered by holds
      for ever. */
  lemma ConstantPriceSettles(period: int, prices: seq<real>, p: real) returns (n: nat)
    requires prices != [] && p > 0.0
    ensures forall m: nat :: m >= n ==> Classify(Ema(Alpha(period), prices + Repeat(p, m)), p) == Hold
  {
    hide Ema, Repeat, Reach, Classify;
    var a := Alpha(period);
    n := EnoughRepetitions(a, Ema(a, prices) - p, 0.001 * p);
    forall m: nat | m >= n ensures Classify(Ema(a, prices + Repeat(p, m)), p) == Hold {
      SettledAt(a, prices, p, m);
    }
  }

  // ----- The stage object -----

  function PricesOf(key: string, snaps: seq<Snap>): seq<real> {
    if snaps == [] then []
    else PricesOf(key, Front(snaps)) + (if Last(snaps).key == key then [Last(snaps).price] else [])
  }

  /** The part of the last price's move that the average has not followed; none for a first price. */
  ghost function Lag(a: real, prices: seq<real>): real
    requires prices != []
  {
    if |prices| == 1 then 0.0 else (1.0 - a) * (Ema(a, Front(prices)) - Last(prices))
  }

  /** `s` is the signal owed to the last snapshot: its own key, price and time, the weighted sum of its
      symbol's whole price history, a buy exactly when the average stayed more than the threshold below
      the price, a sell exactly when it stayed more than that above. */
  ghost predicate Owed(a: real, snaps: seq<Snap>, s: Signal)
    requires snaps != []
  {
    var snap, prices := Last(snaps), PricesOf(Last(snaps).key, snaps);
    && s.key == snap.key && s.price == snap.price && s.timestamp == snap.timestamp
    && prices != [] && s.ema == WeightedSum(a, |prices|, prices, |prices|)
    && (s.kind.Buy? <==> Lag(a, prices) < -0.001 * snap.price)
    && (s.kind.Sell? <==> Lag(a, prices) > 0.001 * snap.price && Lag(a, prices) >= -0.001 * snap.price)
  }

  /** At most one signal is owed. */
  lemma OwedIsUnique(a: real, snaps: seq<Snap>, x: Signal, y: Signal)
    requires snaps != [] && Owed(a, snaps, x) && Owed(a, snaps, y)
    ensures x == y
  {
    hide PricesOf, WeightedSum, Lag;
  }

  /** A first positive price holds; later ones signal towards the price. */
  lemma OwedDirection(a: real, snaps: seq<Snap>, s: Signal)
    requires 0.0 < a <= 1.0 && snaps != [] && Owed(a, snaps, s) && s.price > 0.0
    ensures PricesOf(s.key, snaps) != []
    ensures |PricesOf(s.key, snaps)| == 1 ==> s.kind.Hold?
    ensures |PricesOf(s.key, snaps)| > 1 && s.kind.Buy? ==> Ema(a, Front(PricesOf(s.key, snaps))) < s.price
    ensures |PricesOf(s.key, snaps)| > 1 && s.kind.Sell? ==> Ema(a, Front(PricesOf(s.key, snaps))) > s.price
  {
    PricesLast(snaps);
    var prices := PricesOf(s.key, snaps);
    hide PricesOf, Ema, WeightedSum, Lag;
    LagSign(a, prices);
  }

  lemma LagSign(a: real, prices: seq<real>)
    requires 0.0 < a <= 1.0 && prices != []
    ensures |prices| == 1 ==> Lag(a, prices) == 0.0
    ensures |prices| > 1 && Ema(a, Front(prices)) >= Last(prices) ==> Lag(a, prices) >= 0.0
    ensures |prices| > 1 && Ema(a, Front(prices)) <= Last(prices) ==> Lag(a, prices) <= 0.0
  {
    hide Ema;
    if |prices| > 1 { SameSign(1.0 - a, Ema(a, Front(prices)) - Last(prices)); }
  }

  lemma PricesLast(snaps: seq<Snap>)
    requires snaps != []
    ensures PricesOf(Last(snaps).key, snaps) != []
    ensures Last(PricesOf(Last(snaps).key, snaps)) == Last(snaps).price
  {
  }

  lemma LagIsError(a: real, prices: seq<real>)
    requires prices != []
    ensures Ema(a, prices) - Last(prices) == Lag(a, prices)
  {
    if |prices| > 1 {
      hide Ema;
      EmaError(a, prices);
    }
  }

  lemma OwedByAverage(a: real, snaps: seq<Snap>, s: Signal)
    requires snaps != [] && PricesOf(Last(snaps).key, snaps) != []
    requires s.ema == Ema(a, PricesOf(Last(snaps).key, snaps)) && s.kind == Classify(s.ema, s.price)
    requires s.key == Last(snaps).key && s.price == Last(snaps).price && s.timestamp == Last(snaps).timestamp
    ensures Owed(a, snaps, s)
  {
    PricesLast(snaps);
    var prices := PricesOf(s.key, snaps);
    hide PricesOf, Ema, WeightedSum, Lag, Classify;
    EmaIsWeightedSum(a, prices);
    LagIsError(a, prices);
    ClassifyByError(s.ema, s.price, Lag(a, prices));
  }

  ghost predicate TracksKey(a: real, emas: map<string, real>, snaps: seq<Snap>, key: string) {
    && (key in emas <==> PricesOf(key, snaps) != [])
    && (key in emas ==> emas[key] == Ema(a, PricesOf(key, snaps)))
  }

  ghost predicate Tracks(a: real, emas: map<string, real>, snaps: seq<Snap>) {
    forall key :: TracksKey(a, emas, snaps, key)
  }

  lemma PricesSnoc(key: string, snaps: seq<Snap>, s: Snap)
    ensures PricesOf(key, snaps + [s]) == PricesOf(key, snaps) + (if s.key == key then [s.price] else [])
  {
    assert Front(snaps + [s]) == snaps;
  }

  lemma OwnEma(a: real, emas: map<string, real>, earlier: seq<Snap>, s: Snap, ema: real)
    requires TracksKey(a, emas, earlier, s.key)
    requires ema == if s.key in emas then Mix(a, s.price, emas[s.key]) else s.price
    ensures PricesOf(s.key, earlier + [s]) != [] && ema == Ema(a, PricesOf(s.key, earlier + [s]))
  {
    hide Mix, PricesOf;
    var mine := PricesOf(s.key, earlier);
    PricesSnoc(s.key, earlier, s);
    if mine != [] { EmaSnoc(a, mine, s.price); }
  }

  lemma OtherEma(a: real, emas: map<string, real>, earlier: seq<Snap>, s: Snap, ema: real, key: string)
    requires TracksKey(a, emas, earlier, key) && key != s.key
    ensures TracksKey(a, emas[s.key := ema], earlier + [s], key)
  {
    hide PricesOf, Ema;
    PricesSnoc(key, earlier, s);
    assert PricesOf(key, earlier) + [] == PricesOf(key, earlier);
  }

  lemma TrackStep(a: real, emas: map<string, real>, earlier: seq<Snap>, s: Snap, ema: real)
    requires Tracks(a, emas, earlier)
    requires ema == if s.key in emas then Mix(a, s.price, emas[s.key]) else s.price
    ensures Tracks(a, emas[s.key := ema], earlier + [s])
    ensures PricesOf(s.key, earlier + [s]) != [] && ema == Ema(a, PricesOf(s.key, earlier + [s]))
  {
    hide Mix, Ema, PricesOf;
    OwnEma(a, emas, earlier, s, ema);
    var emas', snaps := emas[s.key := ema], earlier + [s];
    forall key ensures TracksKey(a, emas', snaps, key) {
      if key != s.key { OtherEma(a, emas, earlier, s, ema, key); }
    }
  }

  class SignalEngine {
    const alpha: real
    var emaMap: map<string, real>

    constructor (period: int)
      ensures alpha == Alpha(period) && Tracks(alpha, emaMap, [])
    {
      var p := if period <= 0 then 20 else period;
      alpha := 2.0 / (p + 1) as real;
      emaMap := map[];
    }

    method OnSnapshot(snap: Snap, ghost earlier: seq<Snap>) returns (signal: Signal)
      requires Tracks(alpha, emaMap, earlier)
      modifies this
      ensures Tracks(alpha, emaMap, earlier + [snap])
      ensures Owed(alpha, earlier + [snap], signal)
    {
      ghost var was := emaMap;
      var ema;
      if snap.key !in emaMap {
        ema := snap.price;
      } else {
        ema := snap.price * alpha + emaMap[snap.key] * (1.0 - alpha);
      }
      emaMap := emaMap[snap.key := ema];
      TrackStep(alpha, was, earlier, snap, ema);
      var kind := Hold;
      if ema < snap.price * 0.999 {
        kind := Buy;
      } else if ema > snap.price * 1.001 {
        kind := Sell;
      }
      signal := Signal(snap.key, snap.price, ema, snap.timestamp, kind);
      OwedByAverage(alpha, earlier + [snap], signal);
    }

    /** The loop over the input: one signal per snapshot, in order. The averages survive a stop, so
        `earlier` is everything seen in the runs before this one. */
    method Run(snaps: seq<Snap>, ghost earlier: seq<Snap>) returns (signals: seq<Signal>)
      requires Tracks(alpha, emaMap, earlier)
      modifies this
      ensures Tracks(alpha, emaMap, earlier + snaps)
      ensures |signals| == |snaps|
      ensures forall i :: 0 <= i < |snaps| ==> Owed(alpha, earlier + snaps[..i + 1], signals[i])
    {
      hide Tracks, Owed;
      signals := [];
      assert earlier + snaps[..0] == earlier;
      while |signals| < |snaps|
        invariant |signals| <= |snaps| && Tracks(alpha, emaMap, earlier + snaps[..|signals|])
        invariant forall i :: 0 <= i < |signals| ==> Owed(alpha, earlier + snaps[..i + 1], signals[i])
        decreases |snaps| - |signals|
      {
        var k := |signals|;
        assert earlier + snaps[..k] + [snaps[k]] == earlier + snaps[..k + 1];
        var signal := OnSnapshot(snaps[k], earlier + snaps[..k]);
        signals := signals + [signal];
      }
      assert snaps[..|signals|] == snaps;
    }
  }
}
