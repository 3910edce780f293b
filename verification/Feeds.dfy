/** The simulated feed: a clamped random walk per symbol, with the noise left arbitrary. */
module Feeds {
  import opened Sequences
  import opened Ticks
  import opened TickParsing
  import opened Normalizing
  import opened OrderBooks
  import opened BookProcessing
  import opened SignalEngines

  datatype SymbolState = SymbolState(symbol: string, mid: real, spread: real, bidSize: real, askSize: real)

  /** One draw from each of the four normal distributions. */
  datatype Noise = Noise(mid: real, spread: real, bidSize: real, askSize: real)

  const BTC := "BTCUSD"

  /** `r` is the point of the interval nearest to `x`. */
  predicate Clamped(r: real, x: real, lo: real, hi: real) {
    lo <= r <= hi && (x < lo ==> r == lo) && (x > hi ==> r == hi) && (lo <= x <= hi ==> r == x)
  }

  function Clamp(x: real, lo: real, hi: real): (r: real)
    requires lo <= hi
    ensures Clamped(r, x, lo, hi)
  {
    if x < lo then lo else if x > hi then hi else x
  }

  function UpdatePrice(s: SymbolState, n: Noise): SymbolState {
    var btc := s.symbol == BTC;
    var mid := Clamp(s.mid + n.mid, 10.0, if btc then 1000000.0 else 10000.0);
    var target, low, high := if btc then 5.0 else 0.01, if btc then 0.5 else 0.001, if btc then 50.0 else 0.05;
    var spread := Clamp(s.spread + (0.1 * (target - s.spread) + n.spread), low, high);
    SymbolState(s.symbol, mid, spread, Clamp(s.bidSize + n.bidSize, 1.0, 10000.0),
                Clamp(s.askSize + n.askSize, 1.0, 10000.0))
  }

  // ----- The walk, exactly -----

  /** The level a symbol's spread reverts to. */
  function Target(symbol: string): real { if symbol == "BTCUSD" then 5.0 else 0.01 }

  predicate SpreadInBand(s: SymbolState) {
    if s.symbol == "BTCUSD" then 0.5 <= s.spread <= 50.0 else 0.001 <= s.spread <= 0.05
  }

  /** Mid and sizes move by their noise; the distance of the spread from its target shrinks by a tenth and
      moves by its noise; everything stays within its bounds. */
  lemma WalkExactly(s: SymbolState, n: Noise)
    ensures var (u, target) := (UpdatePrice(s, n), Target(s.symbol));
            && u.symbol == s.symbol && SpreadInBand(u)
            && Clamped(u.mid, s.mid + n.mid, 10.0, if s.symbol == "BTCUSD" then 1000000.0 else 10000.0)
            && Clamped(u.spread, target + 0.9 * (s.spread - target) + n.spread,
                       if s.symbol == "BTCUSD" then 0.5 else 0.001, if s.symbol == "BTCUSD" then 50.0 else 0.05)
            && Clamped(u.bidSize, s.bidSize + n.bidSize, 1.0, 10000.0)
            && Clamped(u.askSize, s.askSize + n.askSize, 1.0, 10000.0)
  {
    var target := Target(s.symbol);
    assert s.spread + (0.1 * (target - s.spread) + n.spread) == target + 0.9 * (s.spread - target) + n.spread;
  }

  /** The state after one step for each noise, oldest first. */
  function Walk(s: SymbolState, noise: seq<Noise>): SymbolState {
    if noise == [] then s else UpdatePrice(Walk(s, Front(noise)), Last(noise))
  }

  lemma WalkStep(s: SymbolState, noise: seq<Noise>)
    ensures Walk(s, noise) == if noise == [] then s else UpdatePrice(Walk(s, Front(noise)), Last(noise))
  {
    hide UpdatePrice;
  }

  /** A distance after `n` tenths have gone. */
  function Decayed(d: real, n: nat): real { Pow(0.9, n) * d }

  lemma DecayedStep(d: real, n: nat)
    ensures Decayed(d, n) == if n == 0 then d else 0.9 * Decayed(d, n - 1)
  {
    if n > 0 { ShrinkAgain(0.9, Pow(0.9, n - 1), d, Decayed(d, n - 1), 0.9 * Decayed(d, n - 1)); }
  }

  lemma QuietSpread(s: SymbolState, n: Noise)
    requires SpreadInBand(s) && n.spread == 0.0
    ensures UpdatePrice(s, n).symbol == s.symbol && SpreadInBand(UpdatePrice(s, n))
    ensures UpdatePrice(s, n).spread - Target(s.symbol) == 0.9 * (s.spread - Target(s.symbol))
  {
    hide UpdatePrice;
    WalkExactly(s, n);
  }

  /** Without noise of its own the spread closes in on its target geometrically, whatever mid and sizes do. */
  lemma {:induction false} SpreadReverts(s: SymbolState, noise: seq<Noise>)
    requires SpreadInBand(s) && forall i :: 0 <= i < |noise| ==> noise[i].spread == 0.0
    ensures Walk(s, noise).symbol == s.symbol && SpreadInBand(Walk(s, noise))
    ensures Walk(s, noise).spread - Target(s.symbol) == Decayed(s.spread - Target(s.symbol), |noise|)
  {
    hide UpdatePrice, SpreadInBand, Target, Decayed, Walk;
    WalkStep(s, noise);
    DecayedStep(s.spread - Target(s.symbol), |noise|);
    if noise != [] {
      assert Last(noise) == noise[|noise| - 1];
      SpreadReverts(s, Front(noise));
      QuietSpread(Walk(s, Front(noise)), Last(noise));
    }
  }

  function BidPrice(s: SymbolState): real { s.mid - s.spread / 2.0 }

  function AskPrice(s: SymbolState): real { s.mid + s.spread / 2.0 }

  /** Sides alternate with the parity of the ticks published so far. */
  function TickOf(s: SymbolState, published: nat, clock: int): Tick {
    if published % 2 == 0 then Tick(MakeSymbol(s.symbol), Finite(BidPrice(s)), Finite(s.bidSize), clock, 0)
    else Tick(MakeSymbol(s.symbol), Finite(AskPrice(s)), Finite(s.askSize), clock, 1)
  }

  /** A symbol name that leaves something to key on. */
  predicate Named(symbol: string) { symbol != [] && symbol[0] != NUL }

  /** For every prior state and every noise, each symbol other than BTCUSD quotes ask above bid above
      zero; its tick passes the parser, is never caught by the price guard of the side inference, and
      carries at least one whole unit of volume, so it never turns into a removal. */
  lemma SimulatedTickIsGood(s: SymbolState, n: Noise, published: nat, clock: int)
    requires s.symbol != BTC && Named(s.symbol) && clock > 0
    ensures var u := UpdatePrice(s, n);
            && AskPrice(u) > BidPrice(u) > 0.0
            && var e := Enrich(TickOf(u, published, clock));
               Validate(e) && Ordinary(e) && forall side :: ToDelta(e, side).volume >= 1
  {
    var u := UpdatePrice(s, n);
    assert 10.0 <= u.mid <= 10000.0 && 0.001 <= u.spread <= 0.05;
    ValidAfterEnrich(TickOf(u, published, clock));
    var e := Enrich(TickOf(u, published, clock));
    assert 1.0 <= e.volume.value <= 10000.0;
    assert e.volume.value.Floor >= 1;
  }

  /** For BTCUSD ask exceeds bid, but the bid is positive, and a bid tick passes the parser, exactly
      when the drawn mid is above 25, or the drawn spread is below 20 or below twice the drawn mid. */
  lemma BitcoinTickIsGoodIff(s: SymbolState, n: Noise, published: nat, clock: int)
    requires s.symbol == BTC && clock > 0
    ensures var (u, mid, spread) := (UpdatePrice(s, n), s.mid + n.mid, 0.9 * s.spread + 0.5 + n.spread);
            && AskPrice(u) > BidPrice(u)
            && (BidPrice(u) > 0.0 <==> mid > 25.0 || spread < 20.0 || spread < 2.0 * mid)
            && (published % 2 == 0 ==> (Validate(Enrich(TickOf(u, published, clock))) <==> BidPrice(u) > 0.0))
            && (published % 2 == 1 ==> Validate(Enrich(TickOf(u, published, clock))))
  {
    var u := UpdatePrice(s, n);
    assert s.spread + (0.1 * (5.0 - s.spread) + n.spread) == 0.9 * s.spread + 0.5 + n.spread;
    ValidAfterEnrich(TickOf(u, published, clock));
  }

  /** The promise of a positive bid can fail at any moment: from every BTCUSD state, the initial one
      included, some noise quotes a bid of -15. */
  lemma BitcoinBidCanBeNegative(s: SymbolState) returns (n: Noise)
    requires s.symbol == BTC
    ensures BidPrice(UpdatePrice(s, n)) == -15.0
  {
    n := Noise(10.0 - s.mid, 49.5 - 0.9 * s.spread, 0.0, 0.0);
    var u := UpdatePrice(s, n);
    assert s.spread + (0.1 * (5.0 - s.spread) + n.spread) == 50.0;
    assert u.mid == 10.0 && u.spread == 50.0;
  }

  /** One step of the walk can quote any price well inside the clamps, on either side. */
  lemma AnyPriceIsNext(s: SymbolState, published: nat, clock: int, price: real) returns (n: Noise)
    requires s.symbol != BTC && 11.0 <= price <= 9999.0
    ensures TickOf(UpdatePrice(s, n), published, clock).price == Finite(price)
  {
    var half := if published % 2 == 0 then 0.005 else -0.005;
    n := Noise(price + half - s.mid, 0.01 - (s.spread + 0.1 * (0.01 - s.spread)), 0.0, 0.0);
    var u := UpdatePrice(s, n);
    assert u.spread == 0.01 && u.mid == price + half;
  }

  lemma InTurn(a: Tick, b: Tick, c: Tick)
    requires a.symbol == b.symbol == c.symbol && a.timestamp <= b.timestamp <= c.timestamp
    requires a.price != b.price && b.price != c.price
    ensures Accepted([a, b, c]) == [a, b, c]
  {
    FilterSnoc([], a);
    FilterSnoc([a], b);
    FilterSnoc([a, b], c);
    assert [] + [a] == [a] && [a] + [b] == [a, b] && [a, b] + [c] == [a, b, c];
  }

  /** The parser's reading of the tick that a symbol quotes. */
  function Quoted(s: SymbolState, published: nat, clock: int): Tick { Enrich(TickOf(s, published, clock)) }

  /** The price model does not rule refusals out: from every state of every symbol other than BTCUSD
      some noise quotes three ticks that pass the parser and the normalizer, and whose third a fresh
      book refuses, whatever the published counts and the clock. */
  lemma WalkCanBeRefused(s: SymbolState, k0: nat, k1: nat, k2: nat, c0: int, c1: int, c2: int)
    returns (n0: Noise, n1: Noise, n2: Noise)
    requires s.symbol != BTC && Named(s.symbol) && 0 < c0 <= c1 <= c2
    ensures var s0 := UpdatePrice(s, n0);
            var s1 := UpdatePrice(s0, n1);
            var s2 := UpdatePrice(s1, n2);
            var (a, b, c) := (Quoted(s0, k0, c0), Quoted(s1, k1, c1), Quoted(s2, k2, c2));
            && Validate(a) && Validate(b) && Validate(c)
            && Accepted([a, b, c]) == [a, b, c]
            && AllBookable([a, b, c])
            && Rejects(RunLane([a, b]).book, DeltaFor(RunLane([a, b]), c))
  {
    n0 := AnyPriceIsNext(s, k0, c0, 100.0);
    var s0 := UpdatePrice(s, n0);
    n1 := AnyPriceIsNext(s0, k1, c1, 99.9);
    var s1 := UpdatePrice(s0, n1);
    n2 := AnyPriceIsNext(s1, k2, c2, 99.995);
    SimulatedTickIsGood(s, n0, k0, c0);
    SimulatedTickIsGood(s0, n1, k1, c1);
    SimulatedTickIsGood(s1, n2, k2, c2);
    var a, b, c := Quoted(s0, k0, c0), Quoted(s1, k1, c1), Quoted(UpdatePrice(s1, n2), k2, c2);
    hide UpdatePrice, Accepted, RunLane, Rejects, DeltaFor, Validate;
    InTurn(a, b, c);
    ThirdIsRefusedIff(a, b, c);
  }

  function InitialState(symbol: string, price: real): SymbolState {
    if symbol == BTC then SymbolState(symbol, price, 5.0, 1.0, 1.0) else SymbolState(symbol, price, 0.02, 100.0, 100.0)
  }

  /** Without any noise a simulated symbol keeps its initial price and sizes, and its spread falls from 0.02
      to 0.01 geometrically; BTCUSD keeps a spread of 5. */
  lemma {:induction false} QuietWalk(symbol: string, price: real, noise: seq<Noise>)
    requires forall i :: 0 <= i < |noise| ==> noise[i] == Noise(0.0, 0.0, 0.0, 0.0)
    requires 10.0 <= price <= if symbol == "BTCUSD" then 1000000.0 else 10000.0
    ensures var u := Walk(InitialState(symbol, price), noise);
            && u.symbol == symbol && u.mid == price
            && u.bidSize == u.askSize == (if symbol == "BTCUSD" then 1.0 else 100.0)
            && u.spread == if symbol == "BTCUSD" then 5.0 else 0.01 + Decayed(0.01, |noise|)
  {
    SpreadReverts(InitialState(symbol, price), noise);
    assert Decayed(0.0, |noise|) == 0.0;
    hide Decayed;
    if noise != [] {
      hide UpdatePrice;
      assert Last(noise) == noise[|noise| - 1];
      QuietWalk(symbol, price, Front(noise));
      WalkExactly(Walk(InitialState(symbol, price), Front(noise)), Last(noise));
    }
  }

  /** The tick quotes the bid price and size of the state, or its ask price and size. */
  ghost predicate Quotes(t: Tick, s: SymbolState, bid: bool, clock: int) {
    && t.symbol == MakeSymbol(s.symbol) && t.timestamp == clock
    && t.side == (if bid then 0 else 1)
    && t.price == Finite(if bid then s.mid - s.spread / 2.0 else s.mid + s.spread / 2.0)
    && t.volume == Finite(if bid then s.bidSize else s.askSize)
  }

  /** The ticks that the first `k` symbols of a round publish, given their updated states. */
  function Published(states: seq<SymbolState>, clocks: seq<int>, room: seq<bool>, published: nat, k: nat): seq<Tick>
    requires k <= |states| == |clocks| == |room|
  {
    if k == 0 then []
    else
      var before := Published(states, clocks, room, published, k - 1);
      before + (if room[k - 1] then [TickOf(states[k - 1], published + |before|, clocks[k - 1])] else [])
  }

  /** The published ticks quote the states at increasing places before `k`, bid and ask in turn. */
  ghost predicate Streams(ticks: seq<Tick>, at: seq<nat>, states: seq<SymbolState>, clocks: seq<int>, published: nat,
                          k: nat)
    requires k <= |states| == |clocks|
  {
    && |ticks| == |at|
    && (forall i, j :: 0 <= i < j < |at| ==> at[i] < at[j])
    && (forall i :: 0 <= i < |at| ==>
          at[i] < k && Quotes(ticks[i], states[at[i]], (published + i) % 2 == 0, clocks[at[i]]))
  }

  lemma StreamsOn(ticks: seq<Tick>, at: seq<nat>, states: seq<SymbolState>, clocks: seq<int>, published: nat, k: nat,
                  t: Tick)
    requires k < |states| == |clocks| && Streams(ticks, at, states, clocks, published, k)
    requires Quotes(t, states[k], (published + |ticks|) % 2 == 0, clocks[k])
    ensures Streams(ticks + [t], at + [k], states, clocks, published, k + 1)
  {
    hide Quotes;
    assert forall i :: 0 <= i < |at| ==> (ticks + [t])[i] == ticks[i] && (at + [k])[i] == at[i];
  }

  lemma StreamsLater(ticks: seq<Tick>, at: seq<nat>, states: seq<SymbolState>, clocks: seq<int>, published: nat, k: nat)
    requires k < |states| == |clocks| && Streams(ticks, at, states, clocks, published, k)
    ensures Streams(ticks + [], at, states, clocks, published, k + 1)
  {
    hide Quotes;
    assert ticks + [] == ticks;
  }

  lemma MembersOn(at: seq<nat>, n: nat)
    ensures forall i: nat :: i in at + [n] <==> i in at || i == n
  {
  }

  lemma TickQuotes(s: SymbolState, published: nat, clock: int)
    ensures Quotes(TickOf(s, published, clock), s, published % 2 == 0, clock)
  {
    hide MakeSymbol;
  }

  lemma PublishedStep(states: seq<SymbolState>, clocks: seq<int>, room: seq<bool>, published: nat, k: nat)
    requires k < |states| == |clocks| == |room|
    ensures var before := Published(states, clocks, room, published, k);
            Published(states, clocks, room, published, k + 1) ==
            before + (if room[k] then [TickOf(states[k], published + |before|, clocks[k])] else [])
  {
    hide TickOf;
  }

  /** A round publishes one tick for exactly the symbols whose offer found room, in their order, quoting bid
      and ask in turn along the stream of published ticks. */
  lemma {:induction false} PublishedExactly(states: seq<SymbolState>, clocks: seq<int>, room: seq<bool>,
                                            published: nat, k: nat) returns (at: seq<nat>)
    requires k <= |states| == |clocks| == |room|
    ensures Streams(Published(states, clocks, room, published, k), at, states, clocks, published, k)
    ensures forall i: nat :: i in at <==> i < k && room[i]
  {
    if k == 0 {
      at := [];
    } else {
      hide Streams, Quotes, TickOf, Published;
      PublishedStep(states, clocks, room, published, k - 1);
      at := PublishedExactly(states, clocks, room, published, k - 1);
      var before := Published(states, clocks, room, published, k - 1);
      if room[k - 1] {
        TickQuotes(states[k - 1], published + |before|, clocks[k - 1]);
        var t := TickOf(states[k - 1], published + |before|, clocks[k - 1]);
        StreamsOn(before, at, states, clocks, published, k - 1, t);
        MembersOn(at, k - 1);
        at := at + [k - 1];
      } else {
        StreamsLater(before, at, states, clocks, published, k - 1);
      }
    }
  }

  /** Every tick a round publishes for a symbol other than BTCUSD is good. */
  lemma {:induction false} RoundIsGood(earlier: seq<SymbolState>, noise: seq<Noise>, states: seq<SymbolState>,
                                       clocks: seq<int>, room: seq<bool>, published: nat, k: nat)
    requires k <= |states| == |clocks| == |room| == |earlier| == |noise|
    requires forall i :: 0 <= i < |states| ==> states[i] == UpdatePrice(earlier[i], noise[i]) && clocks[i] > 0
    requires forall i :: 0 <= i < |states| ==> earlier[i].symbol != BTC && Named(earlier[i].symbol)
    ensures forall t :: t in Published(states, clocks, room, published, k) ==>
              Validate(Enrich(t)) && Ordinary(Enrich(t))
  {
    if k > 0 {
      RoundIsGood(earlier, noise, states, clocks, room, published, k - 1);
      var before := Published(states, clocks, room, published, k - 1);
      SimulatedTickIsGood(earlier[k - 1], noise[k - 1], published + |before|, clocks[k - 1]);
    }
  }

  class FeedSimulator {
    var states: seq<SymbolState>
    var output: seq<Tick>
    var published: nat
    var dropped: nat

    constructor (symbols: seq<string>, prices: seq<real>)
      ensures |states| == |symbols| && output == [] && published == 0 && dropped == 0
      ensures forall i :: 0 <= i < |symbols| ==>
                states[i] == InitialState(symbols[i], if i < |prices| then prices[i] else 100.0)
    {
      states := seq(|symbols|, i requires 0 <= i < |symbols| =>
        InitialState(symbols[i], if i < |prices| then prices[i] else 100.0));
      output, published, dropped := [], 0, 0;
    }

    /** One symbol walks and no other moves; its tick is a quote of its new state, and a good one for
        every named symbol other than BTCUSD. */
    method GenerateTick(i: nat, n: Noise, clock: int) returns (tick: Tick)
      requires i < |states|
      modifies this`states
      ensures |states| == |old(states)| && forall j :: 0 <= j < |states| && j != i ==> states[j] == old(states)[j]
      ensures states[i] == UpdatePrice(old(states)[i], n) && tick == TickOf(states[i], published, clock)
      ensures Quotes(tick, states[i], published % 2 == 0, clock)
      ensures old(states)[i].symbol != BTC && Named(old(states)[i].symbol) && clock > 0 ==>
                && AskPrice(states[i]) > BidPrice(states[i]) > 0.0
                && tick.price.value in {AskPrice(states[i]), BidPrice(states[i])}
                && Validate(Enrich(tick)) && Ordinary(Enrich(tick))
    {
      if states[i].symbol != BTC && Named(states[i].symbol) && clock > 0 {
        SimulatedTickIsGood(states[i], n, published, clock);
      }
      states := states[i := UpdatePrice(states[i], n)];
      tick := TickOf(states[i], published, clock);
    }

    /** One pass over the symbols: every symbol walks once, and its tick is published or dropped. */
    method RunRound(noise: seq<Noise>, clocks: seq<int>, room: seq<bool>)
      requires |noise| == |clocks| == |room| == |states|
      modifies this
      ensures |states| == old(|states|)
      ensures forall i :: 0 <= i < |states| ==> states[i] == UpdatePrice(old(states)[i], noise[i])
      ensures output == old(output) + Published(states, clocks, room, old(published), |states|)
      ensures published == old(published) + |Published(states, clocks, room, old(published), |states|)|
      ensures published + dropped == old(published) + old(dropped) + |states|
    {
      ghost var start := states;
      ghost var final := seq(|start|, i requires 0 <= i < |start| == |noise| => UpdatePrice(start[i], noise[i]));
      var k := 0;
      while k < |states|
        invariant 0 <= k <= |states| == |final|
        invariant forall i :: 0 <= i < k ==> states[i] == final[i]
        invariant forall i :: k <= i < |states| ==> states[i] == start[i]
        invariant output == old(output) + Published(final, clocks, room, old(published), k)
        invariant published == old(published) + |Published(final, clocks, room, old(published), k)|
        invariant published + dropped == old(published) + old(dropped) + k
      {
        var tick := GenerateTick(k, noise[k], clocks[k]);
        if room[k] {
          output := output + [tick];
          published := published + 1;
        } else {
          dropped := dropped + 1;
        }
        k := k + 1;
      }
      assert states == final;
    }
  }
}
