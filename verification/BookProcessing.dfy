/** One symbol of the book stage: side inference from an EMA reference, its order book, and what the
    crossed-book guard then refuses. */
module BookProcessing {
  import opened Sequences
  import opened Ticks
  import opened OrderBooks

  const ALPHA: real := 0.1
  const MIN_PRICE: real := 0.10
  const MAX_PRICE: real := 1000000.0
  const VOLUME_LIMIT: real := 18446744073709551616.0

  datatype Reference = Unset | At(price: real)

  /** Everything the stage keeps about one symbol. */
  datatype Lane = Lane(book: Book, ref: Reference)

  const NEW_LANE := Lane(EMPTY_BOOK, Unset)

  /** A tick whose volume fits the unsigned conversion, as the parser passes on for finite volumes. */
  predicate Bookable(t: Tick) {
    && t.price.Finite? && t.price.value > 0.0
    && t.volume.Finite? && 0.0 < t.volume.value < VOLUME_LIMIT
  }

  predicate InRange(price: real) { MIN_PRICE <= price <= MAX_PRICE }

  /** The reference is moved to the middle of the book when the first guess would cross it. */
  predicate WouldCross(b: Book, side: Side, price: real) {
    || (side.Bid? && BestAsk(b) > 0.0 && price >= BestAsk(b))
    || (side.Ask? && BestBid(b) > 0.0 && price <= BestBid(b))
  }

  function Guess(price: real, ref: real): Side { if price < ref then Bid else Ask }

  function Recentred(b: Book, price: real, ref: real): real {
    if WouldCross(b, Guess(price, ref), price) then (BestBid(b) + BestAsk(b)) / 2.0 else ref
  }

  function InferSide(l: Lane, price: real): Side {
    if !InRange(price) || l.ref.Unset? then Bid
    else Guess(price, Recentred(l.book, price, l.ref.price))
  }

  function NextReference(l: Lane, price: real): Reference {
    if !InRange(price) then l.ref
    else if l.ref.Unset? then At(price)
    else At(ALPHA * price + (1.0 - ALPHA) * Recentred(l.book, price, l.ref.price))
  }

  /** The volume is truncated, so a volume below one removes the level. */
  function ToDelta(t: Tick, side: Side): Delta
    requires Bookable(t)
  {
    Delta(side, t.price.value, t.volume.value.Floor)
  }

  function DeltaFor(l: Lane, t: Tick): Delta
    requires Bookable(t)
  {
    ToDelta(t, InferSide(l, t.price.value))
  }

  function LaneStep(l: Lane, t: Tick): Lane
    requires Bookable(t)
  {
    Lane(Applied(l.book, DeltaFor(l, t)), NextReference(l, t.price.value))
  }

  ghost predicate AllBookable(ticks: seq<Tick>) {
    forall i :: 0 <= i < |ticks| ==> Bookable(ticks[i])
  }

  function RunLane(ticks: seq<Tick>): Lane
    requires AllBookable(ticks)
  {
    if ticks == [] then NEW_LANE else LaneStep(RunLane(Front(ticks)), Last(ticks))
  }

  // ----- The crossed-book guard, exactly -----

  ghost predicate BidsWithin(b: Book, lo: real, hi: real) {
    forall p :: p in b.bids ==> lo <= p <= hi
  }

  ghost predicate AsksWithin(b: Book, lo: real, hi: real) {
    forall p :: p in b.asks ==> lo <= p <= hi
  }

  ghost predicate LaneOk(l: Lane) {
    && Sound(l.book)
    && (forall p :: p in l.book.bids ==> p > 0.0)
    && AsksWithin(l.book, MIN_PRICE, MAX_PRICE)
    && (HasAsks(l.book) ==> l.ref.At?)
  }

  /** A bid that would reach the best ask is re-classified as an ask at or above it. */
  lemma CrossingBidBecomesAsk(b: Book, price: real, ref: real)
    requires Uncrossed(b) && (forall p :: p in b.bids ==> p > 0.0) && AsksWithin(b, MIN_PRICE, MAX_PRICE)
    requires price < ref && WouldCross(b, Bid, price)
    ensures HasAsks(b) && Guess(price, Recentred(b, price, ref)) == Ask
    ensures HasBids(b) ==> BestBid(b) <= price
  {
    if HasBids(b) { assert BestBid(b) <= BestAsk(b); }
  }

  /** An ask that would reach the best bid of a two-sided book is re-classified as a bid, or stays an
      ask exactly on a locked book; on a bid-only book it stays an ask from half the best bid up. */
  lemma CrossingAskIsReclassified(b: Book, price: real, ref: real)
    requires Uncrossed(b) && (forall p :: p in b.bids ==> p > 0.0) && AsksWithin(b, MIN_PRICE, MAX_PRICE)
    requires price >= ref && WouldCross(b, Ask, price)
    ensures HasBids(b)
    ensures HasAsks(b) ==> price <= BestBid(b) <= BestAsk(b)
    ensures HasAsks(b) ==> (Guess(price, Recentred(b, price, ref)) == Ask <==> price == BestBid(b) == BestAsk(b))
    ensures !HasAsks(b) ==> (Guess(price, Recentred(b, price, ref)) == Ask <==> BestBid(b) / 2.0 <= price)
  {
    if HasAsks(b) { assert BestBid(b) <= BestAsk(b); }
  }

  /** When the book refuses a tick, in terms a caller can check beforehand. */
  predicate RefusalCase(l: Lane, price: real) {
    || (price > MAX_PRICE && HasAsks(l.book))
    || (&& InRange(price) && l.ref.At? && l.ref.price <= price
        && !HasAsks(l.book) && HasBids(l.book)
        && BestBid(l.book) / 2.0 <= price < BestBid(l.book))
  }

  /** A tick that carries volume is rejected by the crossed-book guard exactly in the refusal cases;
      in particular never when its price is in range and the book is two-sided. */
  lemma RejectedExactlyWhen(l: Lane, t: Tick)
    requires LaneOk(l) && Bookable(t) && t.volume.value >= 1.0
    ensures Rejects(l.book, DeltaFor(l, t)) <==> RefusalCase(l, t.price.value)
    ensures InRange(t.price.value) && HasAsks(l.book) ==> !Rejects(l.book, DeltaFor(l, t))
  {
    var price, b := t.price.value, l.book;
    assert DeltaFor(l, t).volume >= 1;
    if InRange(price) && l.ref.At? {
      InRangeRefusal(b, price, l.ref.price);
    } else if HasAsks(b) {
      assert MIN_PRICE <= BestAsk(b) <= MAX_PRICE;
    }
  }

  lemma InRangeRefusal(b: Book, price: real, ref: real)
    requires Uncrossed(b) && (forall p :: p in b.bids ==> p > 0.0) && AsksWithin(b, MIN_PRICE, MAX_PRICE)
    requires InRange(price)
    ensures forall v: nat :: v > 0 ==>
              (Rejects(b, Delta(Guess(price, Recentred(b, price, ref)), price, v)) <==>
               (ref <= price && !HasAsks(b) && HasBids(b) && BestBid(b) / 2.0 <= price < BestBid(b)))
  {
    if HasAsks(b) { assert BestAsk(b) in b.asks; }
    if HasBids(b) { assert BestBid(b) in b.bids; }
    var first := Guess(price, ref);
    if WouldCross(b, first, price) {
      if first.Bid? {
        CrossingBidBecomesAsk(b, price, ref);
      } else {
        CrossingAskIsReclassified(b, price, ref);
      }
    }
  }

  /** When a tick leaves the book locked, in terms a caller can check beforehand. */
  predicate LockCase(l: Lane, t: Tick)
    requires Bookable(t)
  {
    var price := t.price.value;
    if Locked(l.book) then t.volume.value >= 1.0 || price != BestBid(l.book)
    else
      && t.volume.value >= 1.0 && InRange(price) && l.ref.At? && l.ref.price <= price
      && !HasAsks(l.book) && HasBids(l.book) && price == BestBid(l.book)
  }

  /** A book is locked only by a tick at the best bid of a bid-only book that the reference does not
      exceed, and unlocked only by the removal of the common price. */
  lemma LockedExactlyWhen(l: Lane, t: Tick)
    requires LaneOk(l) && Bookable(t)
    ensures Locked(LaneStep(l, t).book) <==> LockCase(l, t)
    ensures HasAsks(l.book) && !Locked(l.book) ==> !Locked(LaneStep(l, t).book)
  {
    var b, price, d := l.book, t.price.value, DeltaFor(l, t);
    assert d.volume == 0 <==> t.volume.value < 1.0;
    LocksByDelta(b, d);
    hide Applied, Locked;
    if d.volume > 0 && !Locked(b) { MeetsOtherSide(l, price); }
  }

  lemma MeetsOtherSide(l: Lane, price: real)
    requires LaneOk(l) && !Locked(l.book)
    ensures var (b, side) := (l.book, InferSide(l, price));
            (side.Bid? && HasAsks(b) && price == BestAsk(b)) || (side.Ask? && HasBids(b) && price == BestBid(b)) <==>
            && InRange(price) && l.ref.At? && l.ref.price <= price
            && !HasAsks(b) && HasBids(b) && price == BestBid(b)
  {
    var b := l.book;
    if HasAsks(b) { assert BestAsk(b) in b.asks; }
    if HasBids(b) { assert BestBid(b) in b.bids; }
    if InRange(price) && l.ref.At? {
      if WouldCross(b, Guess(price, l.ref.price), price) {
        if Guess(price, l.ref.price).Bid? {
          CrossingBidBecomesAsk(b, price, l.ref.price);
        } else {
          CrossingAskIsReclassified(b, price, l.ref.price);
        }
      }
    }
  }

  /** Asks only ever come from in-range ticks of a symbol that has a reference. */
  lemma LaneStepKeepsOk(l: Lane, t: Tick)
    requires LaneOk(l) && Bookable(t)
    ensures LaneOk(LaneStep(l, t))
  {
    var d, b' := DeltaFor(l, t), LaneStep(l, t).book;
    ApplyKeepsSound(l.book, d);
    AppliedPrices(l.book, d);
    if HasAsks(b') && !HasAsks(l.book) {
      assert BestAsk(b') in b'.asks && BestAsk(b') !in l.book.asks;
    }
  }

  /** A delta adds at most its own price, on its own side. */
  lemma AppliedPrices(b: Book, d: Delta)
    ensures forall p :: p in Applied(b, d).bids ==> p in b.bids || (d.side.Bid? && p == d.price)
    ensures forall p :: p in Applied(b, d).asks ==> p in b.asks || (d.side.Ask? && p == d.price)
  {
  }

  lemma {:induction false} RunLaneOk(ticks: seq<Tick>)
    requires AllBookable(ticks)
    ensures LaneOk(RunLane(ticks))
  {
    if ticks != [] {
      RunLaneOk(Front(ticks));
      LaneStepKeepsOk(RunLane(Front(ticks)), Last(ticks));
    }
  }

  // ----- The side and the reference, exactly -----

  /** The first guess would put a bid at an ask or beyond, or an ask at a bid or below. */
  ghost predicate Collides(b: Book, price: real, ref: real) {
    || (price < ref && exists q :: q in b.asks && q <= price)
    || (price >= ref && exists q :: q in b.bids && price <= q)
  }

  lemma CollidesAtBest(b: Book, price: real, ref: real)
    ensures Collides(b, price, ref) <==>
              || (price < ref && HasAsks(b) && price >= BestAsk(b))
              || (price >= ref && HasBids(b) && price <= BestBid(b))
  {
    if q :| q in b.asks && q <= price { assert q in b.asks.Keys; }
    if q :| q in b.bids && price <= q { assert q in b.bids.Keys; }
    if HasAsks(b) { assert BestAsk(b) in b.asks; }
    if HasBids(b) { assert BestBid(b) in b.bids; }
  }

  lemma CrossingIsCollision(l: Lane, price: real)
    requires LaneOk(l) && l.ref.At? && InRange(price)
    ensures WouldCross(l.book, Guess(price, l.ref.price), price) <==> Collides(l.book, price, l.ref.price)
  {
    CollidesAtBest(l.book, price, l.ref.price);
    if HasAsks(l.book) { assert BestAsk(l.book) in l.book.asks; }
    if HasBids(l.book) { assert BestBid(l.book) in l.book.bids; }
  }

  /** The reference that a tick at `p` leaves, on the maps and the old reference. */
  ghost predicate ReferenceRule(l: Lane, p: real, after: Reference) {
    if p < 0.1 || p > 1000000.0 then after == l.ref
    else if l.ref.Unset? then after == At(p)
    else if Collides(l.book, p, l.ref.price) then after == At(0.1 * p + 0.45 * (BestBid(l.book) + BestAsk(l.book)))
    else after == At(0.1 * p + 0.9 * l.ref.price)
  }

  /** The reference after a tick: kept for a price out of the accepted band, the price itself the first
      time, and otherwise nine parts to one between the old reference and the price, with the middle of
      the book in the old reference's place exactly when the first guess collides. */
  lemma ReferenceExactly(l: Lane, t: Tick)
    requires LaneOk(l) && Bookable(t)
    ensures ReferenceRule(l, t.price.value, LaneStep(l, t).ref)
  {
    if InRange(t.price.value) && l.ref.At? { CrossingIsCollision(l, t.price.value); }
    hide WouldCross, Collides;
  }

  /** The side of a tick: a bid exactly when its price is out of the band, or the first one, or below the
      reference; when that guess collides, below the middle of the book. */
  lemma SideExactly(l: Lane, t: Tick)
    requires LaneOk(l) && Bookable(t)
    ensures var (b, p) := (l.book, t.price.value);
            InferSide(l, p) == Bid <==>
              || p < 0.1 || p > 1000000.0 || l.ref.Unset?
              || (if Collides(b, p, l.ref.price) then 2.0 * p < BestBid(b) + BestAsk(b) else p < l.ref.price)
  {
    if InRange(t.price.value) && l.ref.At? { CrossingIsCollision(l, t.price.value); }
    hide WouldCross, Collides;
  }

  /** The volume that a tick of `units` whole units leaves at a price of a side. */
  ghost predicate VolumeRule(l: Lane, t: Tick, units: nat, side: Side, price: real, after: nat)
    requires Bookable(t)
  {
    after == if side == InferSide(l, t.price.value) && price == t.price.value
                && !(t.volume.value >= 1.0 && RefusalCase(l, t.price.value))
             then units else VolumeAt(l.book, side, price)
  }

  /** A tick sets the volume at its price, on its inferred side and nowhere else, to its own volume
      without the fraction; a tick of less than one unit removes, one that is refused changes nothing. */
  lemma TickEffect(l: Lane, t: Tick, side: Side, price: real) returns (units: nat)
    requires LaneOk(l) && Bookable(t)
    ensures units as real <= t.volume.value < units as real + 1.0
    ensures VolumeRule(l, t, units, side, price, VolumeAt(LaneStep(l, t).book, side, price))
  {
    units := t.volume.value.Floor;
    var d := DeltaFor(l, t);
    if units > 0 { RejectedExactlyWhen(l, t); }
    RefusedIffCrosses(l.book, d);
    ApplyEffect(l.book, d, side, price);
    hide Rejects, Crosses, RefusalCase, InferSide, VolumeAt, Applied;
  }

  // ----- The reference stays near the prices -----

  ghost predicate PricesWithin(ticks: seq<Tick>, lo: real, hi: real)
    requires AllBookable(ticks)
  {
    forall i :: 0 <= i < |ticks| ==> lo <= ticks[i].price.value <= hi
  }

  ghost predicate LaneWithin(l: Lane, lo: real, hi: real) {
    && BidsWithin(l.book, lo, hi) && AsksWithin(l.book, lo, hi)
    && (l.ref.At? ==> lo / 2.0 <= l.ref.price <= hi)
  }

  lemma RecentredWithin(b: Book, price: real, ref: real, lo: real, hi: real)
    requires 0.0 < lo <= price <= hi && lo / 2.0 <= ref <= hi && BidsWithin(b, lo, hi) && AsksWithin(b, lo, hi)
    ensures lo / 2.0 <= Recentred(b, price, ref) <= hi
  {
    if HasBids(b) { assert BestBid(b) in b.bids; }
    if HasAsks(b) { assert BestAsk(b) in b.asks; }
  }

  lemma LaneStepWithin(l: Lane, t: Tick, lo: real, hi: real)
    requires Bookable(t) && MIN_PRICE <= lo <= t.price.value <= hi <= MAX_PRICE && LaneWithin(l, lo, hi)
    ensures LaneWithin(LaneStep(l, t), lo, hi)
  {
    AppliedPrices(l.book, DeltaFor(l, t));
    if l.ref.At? { RecentredWithin(l.book, t.price.value, l.ref.price, lo, hi); }
  }

  /** If a symbol's prices stay within `lo..hi` inside the accepted band, so do its levels, and its
      reference stays within `lo/2..hi`, through ordinary updates and resets alike. */
  lemma {:induction false} ReferenceStaysNear(ticks: seq<Tick>, lo: real, hi: real)
    requires AllBookable(ticks) && MIN_PRICE <= lo <= hi <= MAX_PRICE && PricesWithin(ticks, lo, hi)
    ensures LaneWithin(RunLane(ticks), lo, hi)
    ensures ticks != [] ==> RunLane(ticks).ref.At?
  {
    if ticks != [] {
      var f := Front(ticks);
      assert forall i :: 0 <= i < |f| ==> f[i] == ticks[i];
      ReferenceStaysNear(f, lo, hi);
      assert Last(ticks) == ticks[|ticks| - 1];
      LaneStepWithin(RunLane(f), Last(ticks), lo, hi);
    }
  }

  // ----- Refusals from a fresh symbol -----

  /** An in-range tick that carries at least one unit. */
  predicate Ordinary(t: Tick) { Bookable(t) && t.volume.value >= 1.0 && InRange(t.price.value) }

  lemma FirstTick(t: Tick)
    requires Ordinary(t)
    ensures var l := RunLane([t]);
            l.ref == At(t.price.value) && l.book.bids.Keys == {t.price.value} && l.book.asks.Keys == {}
  {
    assert Front([t]) == [];
  }

  /** A second price below the first joins the bids; any other opens the ask side. */
  lemma SecondTick(l: Lane, p: real, t: Tick)
    requires l.ref == At(p) && l.book.bids.Keys == {p} && l.book.asks.Keys == {} && InRange(p)
    requires Ordinary(t)
    ensures var (m, q) := (LaneStep(l, t), t.price.value);
            if q < p then m.ref == At(0.1 * q + 0.9 * p) && m.book.bids.Keys == {p, q} && m.book.asks.Keys == {}
            else HasAsks(m.book)
  {
    var q := t.price.value;
    assert BestBid(l.book) == p && BestAsk(l.book) == 0.0;
    if q < p {
      assert DeltaFor(l, t).side == Bid;
    } else {
      assert DeltaFor(l, t).side == Ask && q in LaneStep(l, t).book.asks.Keys;
    }
  }

  lemma TwoTicks(t1: Tick, t2: Tick)
    requires Bookable(t1) && Bookable(t2)
    ensures RunLane([t1, t2]) == LaneStep(RunLane([t1]), t2)
  {
    hide LaneStep;
    assert Front([t1, t2]) == [t1];
  }

  /** Two in-range ticks of a fresh symbol leave a locked book exactly when their prices are equal. */
  lemma PairLocksIff(t1: Tick, t2: Tick)
    requires Ordinary(t1) && Ordinary(t2)
    ensures AllBookable([t1, t2])
    ensures Locked(RunLane([t1, t2]).book) <==> t1.price.value == t2.price.value
  {
    FirstTick(t1);
    TwoTicks(t1, t2);
    RunLaneOk([t1]);
    LockedExactlyWhen(RunLane([t1]), t2);
    var p, l := t1.price.value, RunLane([t1]);
    hide LaneStep, RunLane, LaneOk;
    assert p in l.book.bids.Keys && BestBid(l.book) == p;
  }

  lemma ThirdTick(l: Lane, p1: real, p2: real, t: Tick)
    requires LaneOk(l) && Ordinary(t)
    requires if p2 < p1 then l.ref == At(0.1 * p2 + 0.9 * p1) && l.book.bids.Keys == {p1, p2} && l.book.asks.Keys == {}
             else HasAsks(l.book)
    ensures var p3 := t.price.value;
            Rejects(l.book, DeltaFor(l, t)) <==> p2 < p1 && 0.1 * p2 + 0.9 * p1 <= p3 < p1 && p1 / 2.0 <= p3
  {
    RejectedExactlyWhen(l, t);
    hide LaneOk, Rejects, DeltaFor;
    if p2 < p1 { assert p1 in l.book.bids.Keys && BestBid(l.book) == p1; }
  }

  /** Of three in-range ticks of a fresh symbol, the third is refused exactly when the second price is
      below the first and the third lies between the moved reference and the first price, not under
      half of it. */
  lemma ThirdIsRefusedIff(t1: Tick, t2: Tick, t3: Tick)
    requires Ordinary(t1) && Ordinary(t2) && Ordinary(t3)
    ensures AllBookable([t1, t2])
    ensures var (l, p1, p2, p3) := (RunLane([t1, t2]), t1.price.value, t2.price.value, t3.price.value);
            Rejects(l.book, DeltaFor(l, t3)) <==> p2 < p1 && 0.1 * p2 + 0.9 * p1 <= p3 < p1 && p1 / 2.0 <= p3
  {
    hide LaneStep, RunLane, LaneOk, Rejects, DeltaFor;
    FirstTick(t1);
    SecondTick(RunLane([t1]), t1.price.value, t2);
    TwoTicks(t1, t2);
    RunLaneOk([t1, t2]);
    ThirdTick(RunLane([t1, t2]), t1.price.value, t2.price.value, t3);
  }
}
