/** A single-symbol order book: two price maps, a crossed-book guard and three counters.
    Locked books (best bid equal to best ask) are accepted, crossed ones are not. */
module OrderBooks {
  import opened Sequences
  import opened PriceSets

  datatype Side = Bid | Ask

  /** A price-level update; volume zero removes the level. */
  datatype Delta = Delta(side: Side, price: real, volume: nat)

  datatype Book = Book(bids: map<real, nat>, asks: map<real, nat>, sequence: nat, updates: nat, removed: nat)

  const EMPTY_BOOK := Book(map[], map[], 0, 0, 0)

  predicate HasBids(b: Book) { b.bids.Keys != {} }

  predicate HasAsks(b: Book) { b.asks.Keys != {} }

  /** The highest bid, 0 when there is none. */
  function BestBid(b: Book): (p: real)
    ensures if HasBids(b) then p in b.bids && forall q :: q in b.bids ==> q <= p else p == 0.0
  {
    if !HasBids(b) then 0.0 else MaxOf(b.bids.Keys)
  }

  /** The lowest ask, 0 when there is none. */
  function BestAsk(b: Book): (p: real)
    ensures if HasAsks(b) then p in b.asks && forall q :: q in b.asks ==> p <= q else p == 0.0
  {
    if !HasAsks(b) then 0.0 else MinOf(b.asks.Keys)
  }

  // ----- Applying a delta -----

  predicate Rejects(b: Book, d: Delta) {
    && d.volume > 0
    && ( || (d.side.Bid? && HasAsks(b) && d.price > BestAsk(b))
         || (d.side.Ask? && HasBids(b) && d.price < BestBid(b)))
  }

  function SetLevel(levels: map<real, nat>, price: real, volume: nat): map<real, nat> {
    if volume == 0 then levels - {price} else levels[price := volume]
  }

  function Applied(b: Book, d: Delta): Book {
    var counted := b.(sequence := b.sequence + 1, updates := b.updates + 1);
    if Rejects(b, d) then counted
    else
      var gone := if d.volume == 0 && d.price in (if d.side.Bid? then b.bids else b.asks) then 1 else 0;
      if d.side.Bid? then counted.(bids := SetLevel(b.bids, d.price, d.volume), removed := b.removed + gone)
      else counted.(asks := SetLevel(b.asks, d.price, d.volume), removed := b.removed + gone)
  }

  // ----- What a book means -----

  /** The resting volume at a price, 0 when there is no such level. */
  function VolumeAt(b: Book, side: Side, price: real): nat {
    var levels := if side.Bid? then b.bids else b.asks;
    if price in levels then levels[price] else 0
  }

  ghost predicate Uncrossed(b: Book) {
    forall p, q :: p in b.bids && q in b.asks ==> p <= q
  }

  ghost predicate PositiveVolumes(b: Book) {
    && (forall p :: p in b.bids ==> b.bids[p] > 0)
    && (forall p :: p in b.asks ==> b.asks[p] > 0)
  }

  ghost predicate Counted(b: Book) {
    && b.sequence == b.updates
    && |b.bids| + |b.asks| + 2 * b.removed <= b.updates
  }

  ghost predicate Sound(b: Book) {
    Uncrossed(b) && PositiveVolumes(b) && Counted(b)
  }

  /** The price lies beyond a level of the other side. */
  ghost predicate Crosses(b: Book, d: Delta) {
    || (d.side.Bid? && exists q :: q in b.asks && q < d.price)
    || (d.side.Ask? && exists q :: q in b.bids && d.price < q)
  }

  /** A delta sets the volume at its own level and nowhere else, unless it carries volume to a price
      beyond a level of the other side; then it changes none. */
  lemma ApplyEffect(b: Book, d: Delta, side: Side, price: real)
    ensures VolumeAt(Applied(b, d), side, price) ==
              if side == d.side && price == d.price && !(d.volume > 0 && Crosses(b, d)) then d.volume
              else VolumeAt(b, side, price)
  {
    RefusedIffCrosses(b, d);
  }

  lemma RefusedIffCrosses(b: Book, d: Delta)
    ensures Rejects(b, d) <==> d.volume > 0 && Crosses(b, d)
  {
    if q :| q in b.asks && q < d.price { assert q in b.asks.Keys; }
    if q :| q in b.bids && d.price < q { assert q in b.bids.Keys; }
  }

  /** A removal is never refused: its level is gone, and it is counted exactly if the level was there. */
  lemma RemovalRemoves(b: Book, d: Delta)
    requires d.volume == 0
    ensures VolumeAt(Applied(b, d), d.side, d.price) == 0
    ensures d.side.Bid? ==> d.price !in Applied(b, d).bids && Applied(b, d).asks == b.asks
    ensures d.side.Ask? ==> d.price !in Applied(b, d).asks && Applied(b, d).bids == b.bids
    ensures Applied(b, d).removed == b.removed + (if d.price in (if d.side.Bid? then b.bids else b.asks) then 1 else 0)
  {
  }

  /** The guard fires exactly on the insertions that would cross an uncrossed book. */
  lemma GuardIsExact(b: Book, d: Delta)
    requires Uncrossed(b) && d.volume > 0
    ensures Rejects(b, d) <==>
              !Uncrossed(if d.side.Bid? then b.(bids := b.bids[d.price := d.volume])
                         else b.(asks := b.asks[d.price := d.volume]))
  {
    if d.side.Bid? {
      var c := b.(bids := b.bids[d.price := d.volume]);
      assert d.price in c.bids;
      if HasAsks(b) { assert BestAsk(b) in c.asks; }
    } else {
      var c := b.(asks := b.asks[d.price := d.volume]);
      assert d.price in c.asks;
      if HasBids(b) { assert BestBid(b) in c.bids; }
    }
  }

  lemma SetLevelSize(levels: map<real, nat>, price: real, volume: nat)
    ensures |SetLevel(levels, price, volume)| ==
              |levels| + (if volume > 0 && price !in levels then 1 else 0)
                       - (if volume == 0 && price in levels then 1 else 0)
  {
    var r := SetLevel(levels, price, volume);
    if volume == 0 {
      assert r.Keys == levels.Keys - {price};
    } else {
      assert r.Keys == levels.Keys + {price};
    }
    assert |r| == |r.Keys| && |levels| == |levels.Keys|;
  }

  lemma ApplyKeepsUncrossed(b: Book, d: Delta)
    requires Uncrossed(b)
    ensures Uncrossed(Applied(b, d))
  {
    if d.volume > 0 { GuardIsExact(b, d); }
  }

  lemma ApplyKeepsPositive(b: Book, d: Delta)
    requires PositiveVolumes(b)
    ensures PositiveVolumes(Applied(b, d))
  {
  }

  lemma AppliedCounts(b: Book, d: Delta)
    ensures var c := Applied(b, d);
            && c.sequence == b.sequence + 1 && c.updates == b.updates + 1
            && |c.bids| + |c.asks| + 2 * c.removed <= |b.bids| + |b.asks| + 2 * b.removed + 1
  {
    if d.side.Bid? {
      SetLevelSize(b.bids, d.price, d.volume);
    } else {
      SetLevelSize(b.asks, d.price, d.volume);
    }
  }

  lemma ApplyKeepsCounted(b: Book, d: Delta)
    requires Counted(b)
    ensures Counted(Applied(b, d))
  {
    AppliedCounts(b, d);
  }

  lemma ApplyKeepsSound(b: Book, d: Delta)
    requires Sound(b)
    ensures Sound(Applied(b, d))
  {
    ApplyKeepsUncrossed(b, d);
    ApplyKeepsPositive(b, d);
    ApplyKeepsCounted(b, d);
  }

  // ----- Locked books -----

  /** The best bid and the best ask are one price. */
  predicate Locked(b: Book) { HasBids(b) && HasAsks(b) && BestBid(b) == BestAsk(b) }

  lemma LockedByCommonPrice(b: Book)
    requires Uncrossed(b)
    ensures Locked(b) <==> exists p :: p in b.bids && p in b.asks
  {
    if Locked(b) { assert BestBid(b) in b.bids && BestBid(b) in b.asks; }
    if p :| p in b.bids && p in b.asks {
      assert p in b.bids.Keys && p in b.asks.Keys;
      assert BestBid(b) <= p <= BestBid(b) && BestAsk(b) <= p <= BestAsk(b);
    }
  }

  lemma CommonPriceIsBest(b: Book)
    requires Uncrossed(b)
    ensures forall p :: p in b.bids && p in b.asks ==> p == BestBid(b) == BestAsk(b)
  {
    forall p | p in b.bids && p in b.asks ensures p == BestBid(b) == BestAsk(b) {
      assert p in b.bids.Keys && p in b.asks.Keys;
    }
  }

  /** An insertion locks a book by meeting the other side's best price; a removal unlocks it by taking
      the common price away. */
  lemma LocksByDelta(b: Book, d: Delta)
    requires Uncrossed(b)
    ensures Locked(Applied(b, d)) <==>
              if d.volume == 0 then Locked(b) && d.price != BestBid(b)
              else || Locked(b)
                   || (d.side.Bid? && HasAsks(b) && d.price == BestAsk(b))
                   || (d.side.Ask? && HasBids(b) && d.price == BestBid(b))
  {
    var c := Applied(b, d);
    ApplyKeepsUncrossed(b, d);
    LockedByCommonPrice(b);
    LockedByCommonPrice(c);
    if Locked(b) { CommonPriceIsBest(b); }
    if d.volume == 0 {
      if Locked(b) && d.price != BestBid(b) { assert BestBid(b) in c.bids && BestBid(b) in c.asks; }
    } else if Locked(b) {
      assert BestBid(b) in c.bids && BestBid(b) in c.asks;
    } else if !Rejects(b, d) {
      assert d.price in (if d.side.Bid? then c.bids else c.asks);
    }
  }

  // ----- Histories -----

  datatype Op = Update(delta: Delta) | Reset

  function RunOps(ops: seq<Op>): Book {
    if ops == [] then EMPTY_BOOK
    else match Last(ops)
      case Update(d) => Applied(RunOps(Front(ops)), d)
      case Reset => EMPTY_BOOK
  }

  function UpdatesSinceReset(ops: seq<Op>): nat {
    if ops == [] || Last(ops).Reset? then 0 else 1 + UpdatesSinceReset(Front(ops))
  }

  /** The update puts a price on its side that was not there. */
  predicate Creates(b: Book, d: Delta) {
    d.volume > 0 && !Rejects(b, d) && d.price !in (if d.side.Bid? then b.bids else b.asks)
  }

  /** How many updates since the last clear have created a level. */
  function CreatedSinceReset(ops: seq<Op>): nat {
    if ops == [] || Last(ops).Reset? then 0
    else CreatedSinceReset(Front(ops)) + (if Creates(RunOps(Front(ops)), Last(ops).delta) then 1 else 0)
  }

  /** Every level created is still there or was counted as removed. */
  lemma LevelsBalance(b: Book, d: Delta)
    ensures var c := Applied(b, d);
            |c.bids| + |c.asks| + c.removed == |b.bids| + |b.asks| + b.removed + (if Creates(b, d) then 1 else 0)
  {
    if d.side.Bid? {
      SetLevelSize(b.bids, d.price, d.volume);
    } else {
      SetLevelSize(b.asks, d.price, d.volume);
    }
  }

  lemma EmptyIsSound()
    ensures Sound(EMPTY_BOOK)
  {
  }

  /** After every history of updates and clears the book is uncrossed, holds only positive volumes,
      its counters bound its size, rejected updates included, and the levels present and removed are
      together the levels created. */
  lemma {:induction false} HistoryIsSound(ops: seq<Op>)
    ensures Sound(RunOps(ops))
    ensures RunOps(ops).updates == UpdatesSinceReset(ops)
    ensures |RunOps(ops).bids| + |RunOps(ops).asks| + RunOps(ops).removed == CreatedSinceReset(ops)
  {
    EmptyIsSound();
    hide Sound, Applied, Creates;
    if ops != [] {
      HistoryIsSound(Front(ops));
      if Last(ops).Update? {
        ApplyKeepsSound(RunOps(Front(ops)), Last(ops).delta);
        AppliedCounts(RunOps(Front(ops)), Last(ops).delta);
        LevelsBalance(RunOps(Front(ops)), Last(ops).delta);
      }
    }
  }

  // ----- Snapshots -----

  datatype Level = Level(price: real, volume: nat)

  /** `levels` lists `side` completely, in strictly descending (or ascending) price order. */
  ghost predicate Lists(levels: seq<Level>, side: map<real, nat>, descending: bool) {
    && (forall i, j :: 0 <= i < j < |levels| ==>
          if descending then levels[i].price > levels[j].price else levels[i].price < levels[j].price)
    && (forall i :: 0 <= i < |levels| ==> levels[i].price in side && side[levels[i].price] == levels[i].volume)
    && (forall p :: p in side ==> exists i :: 0 <= i < |levels| && levels[i].price == p)
  }

  /** The snapshot's first levels are the top of the book. */
  lemma SnapshotAgreesWithTop(b: Book, bids: seq<Level>, asks: seq<Level>)
    requires Lists(bids, b.bids, true) && Lists(asks, b.asks, false)
    ensures if bids == [] then BestBid(b) == 0.0 && !HasBids(b)
            else bids[0] == Level(BestBid(b), VolumeAt(b, Bid, BestBid(b)))
    ensures if asks == [] then BestAsk(b) == 0.0 && !HasAsks(b)
            else asks[0] == Level(BestAsk(b), VolumeAt(b, Ask, BestAsk(b)))
  {
    if bids != [] {
      assert bids[0].price in b.bids;
      var i :| 0 <= i < |bids| && bids[i].price == BestBid(b);
      assert bids[0].price <= BestBid(b);
    } else {
      EmptyWithoutMembers(b.bids.Keys);
    }
    if asks != [] {
      assert asks[0].price in b.asks;
      var i :| 0 <= i < |asks| && asks[i].price == BestAsk(b);
      assert asks[0].price >= BestAsk(b);
    } else {
      EmptyWithoutMembers(b.asks.Keys);
    }
  }

  function AsDeltas(levels: seq<Level>, side: Side): (ds: seq<Delta>)
    ensures |ds| == |levels|
    ensures forall i :: 0 <= i < |ds| ==> ds[i] == Delta(side, levels[i].price, levels[i].volume)
  {
    seq(|levels|, i requires 0 <= i < |levels| => Delta(side, levels[i].price, levels[i].volume))
  }

  function AsUpdates(ds: seq<Delta>): (ops: seq<Op>)
    ensures |ops| == |ds|
  {
    seq(|ds|, i requires 0 <= i < |ds| => Update(ds[i]))
  }

  /** The book after the deltas have been applied to a fresh one. */
  function Replay(ds: seq<Delta>): Book { RunOps(AsUpdates(ds)) }

  lemma ReplayStep(ds: seq<Delta>)
    ensures Replay(ds) == if ds == [] then EMPTY_BOOK else Applied(Replay(Front(ds)), Last(ds))
  {
    hide Applied;
    if ds != [] {
      assert Front(AsUpdates(ds)) == AsUpdates(Front(ds));
    }
  }

  ghost predicate Mentions(ds: seq<Delta>, side: Side, price: real) {
    exists i :: 0 <= i < |ds| && ds[i].side == side && ds[i].price == price
  }

  ghost predicate Describes(ds: seq<Delta>, b: Book) {
    forall i :: 0 <= i < |ds| ==> ds[i].volume > 0 && ds[i].volume == VolumeAt(b, ds[i].side, ds[i].price)
  }

  lemma MentionsStep(f: seq<Delta>, d: Delta, side: Side, price: real)
    ensures Mentions(f + [d], side, price) <==> Mentions(f, side, price) || (d.side == side && d.price == price)
  {
    var ds := f + [d];
    assert ds[|f|] == d;
    assert forall i :: 0 <= i < |f| ==> ds[i] == f[i];
  }

  lemma DescribesStep(ds: seq<Delta>, b: Book)
    requires ds != [] && Describes(ds, b)
    ensures Describes(Front(ds), b) && Describes([Last(ds)], b)
  {
    assert forall i :: 0 <= i < |ds| - 1 ==> ds[i] == Front(ds)[i];
    assert Last(ds) == ds[|ds| - 1];
  }

  /** Every level replayed so far is in place, no other level exists. */
  lemma {:induction false} ReplayVolumes(ds: seq<Delta>, b: Book, side: Side, price: real)
    requires Uncrossed(b) && Describes(ds, b)
    ensures VolumeAt(Replay(ds), side, price) == if Mentions(ds, side, price) then VolumeAt(b, side, price) else 0
    decreases |ds|
  {
    ReplayStep(ds);
    if ds == [] {
      assert !Mentions(ds, side, price);
    } else {
      var f, d := Front(ds), Last(ds);
      DescribesStep(ds, b);
      assert [d][0] == d;
      ReplayVolumes(f, b, side, price);
      MentionsStep(f, d, side, price);
      AcceptedEffect(Replay(f), f, d, b, side, price);
    }
  }

  lemma AcceptedEffect(r: Book, f: seq<Delta>, d: Delta, b: Book, side: Side, price: real)
    requires r == Replay(f) && Uncrossed(b) && Describes(f, b)
    requires d.volume > 0 && d.volume == VolumeAt(b, d.side, d.price)
    ensures VolumeAt(Applied(r, d), side, price) ==
              if side == d.side && price == d.price then d.volume else VolumeAt(r, side, price)
  {
    ReplayAccepts(f, d, b);
    RefusedIffCrosses(r, d);
    ApplyEffect(r, d, side, price);
  }

  /** No level of an uncrossed book is rejected, whatever part of the book is already in place. */
  lemma {:induction false} ReplayAccepts(f: seq<Delta>, d: Delta, b: Book)
    requires Uncrossed(b) && Describes(f, b) && d.volume > 0 && d.volume == VolumeAt(b, d.side, d.price)
    ensures !Rejects(Replay(f), d)
    decreases |f|, 1
  {
    var r := Replay(f);
    if d.side.Bid? && HasAsks(r) {
      ReplayKeys(f, b);
      assert BestAsk(r) in b.asks;
    }
    if d.side.Ask? && HasBids(r) {
      ReplayKeys(f, b);
      assert BestBid(r) in b.bids;
    }
  }

  lemma {:induction false} ReplayKeys(ds: seq<Delta>, b: Book)
    requires Describes(ds, b)
    ensures Replay(ds).bids.Keys <= b.bids.Keys && Replay(ds).asks.Keys <= b.asks.Keys
    decreases |ds|, 0
  {
    ReplayStep(ds);
    if ds != [] {
      DescribesStep(ds, b);
      assert [Last(ds)][0] == Last(ds);
      ReplayKeys(Front(ds), b);
      AppliedKeys(Replay(Front(ds)), Last(ds), b);
    }
  }

  lemma AppliedKeys(r: Book, d: Delta, b: Book)
    requires r.bids.Keys <= b.bids.Keys && r.asks.Keys <= b.asks.Keys
    requires d.volume > 0 && d.volume == VolumeAt(b, d.side, d.price)
    ensures Applied(r, d).bids.Keys <= b.bids.Keys && Applied(r, d).asks.Keys <= b.asks.Keys
  {
  }

  lemma {:induction false} ReplayPositive(ds: seq<Delta>)
    requires forall i :: 0 <= i < |ds| ==> ds[i].volume > 0
    ensures PositiveVolumes(Replay(ds))
  {
    ReplayStep(ds);
    if ds != [] {
      ReplayPositive(Front(ds));
      assert Last(ds) == ds[|ds| - 1];
    }
  }

  lemma VolumesDetermineMaps(x: Book, y: Book)
    requires PositiveVolumes(x) && PositiveVolumes(y)
    requires forall side, price :: VolumeAt(x, side, price) == VolumeAt(y, side, price)
    ensures x.bids == y.bids && x.asks == y.asks
  {
    forall p ensures p in x.bids <==> p in y.bids { assert VolumeAt(x, Bid, p) == VolumeAt(y, Bid, p); }
    forall p ensures p in x.asks <==> p in y.asks { assert VolumeAt(x, Ask, p) == VolumeAt(y, Ask, p); }
    forall p | p in x.bids ensures x.bids[p] == y.bids[p] { assert VolumeAt(x, Bid, p) == VolumeAt(y, Bid, p); }
    forall p | p in x.asks ensures x.asks[p] == y.asks[p] { assert VolumeAt(x, Ask, p) == VolumeAt(y, Ask, p); }
  }

  /** Replaying a snapshot's levels into a fresh book, in any order, meets no rejection and
      reproduces both sides. */
  lemma SnapshotReplays(b: Book, bids: seq<Level>, asks: seq<Level>, ds: seq<Delta>)
    requires Uncrossed(b) && PositiveVolumes(b)
    requires Lists(bids, b.bids, true) && Lists(asks, b.asks, false)
    requires multiset(ds) == multiset(AsDeltas(bids, Bid) + AsDeltas(asks, Ask))
    ensures Replay(ds).bids == b.bids && Replay(ds).asks == b.asks
    ensures forall k :: 0 <= k < |ds| ==> !Rejects(Replay(ds[..k]), ds[k])
  {
    var all := AsDeltas(bids, Bid) + AsDeltas(asks, Ask);
    AllDescribe(b, bids, asks);
    SameElements(ds, all);
    assert Describes(ds, b) by {
      forall i | 0 <= i < |ds| ensures ds[i].volume > 0 && ds[i].volume == VolumeAt(b, ds[i].side, ds[i].price) {
        assert ds[i] in all;
      }
    }
    forall k | 0 <= k < |ds| ensures !Rejects(Replay(ds[..k]), ds[k]) {
      ReplayAccepts(ds[..k], ds[k], b);
    }
    forall side, price ensures VolumeAt(Replay(ds), side, price) == VolumeAt(b, side, price) {
      ReplayIsComplete(b, bids, asks, ds, side, price);
    }
    ReplayPositive(ds);
    VolumesDetermineMaps(Replay(ds), b);
  }

  lemma ReplayIsComplete(b: Book, bids: seq<Level>, asks: seq<Level>, ds: seq<Delta>, side: Side, price: real)
    requires Uncrossed(b) && Describes(ds, b) && Lists(bids, b.bids, true) && Lists(asks, b.asks, false)
    requires forall d :: d in AsDeltas(bids, Bid) + AsDeltas(asks, Ask) ==> d in ds
    ensures VolumeAt(Replay(ds), side, price) == VolumeAt(b, side, price)
  {
    ReplayVolumes(ds, b, side, price);
    if VolumeAt(b, side, price) > 0 {
      LevelIsListed(b, bids, asks, side, price);
      var i :| 0 <= i < |ds| && ds[i] == Delta(side, price, VolumeAt(b, side, price));
      assert Mentions(ds, side, price);
    }
  }

  lemma SameElements(x: seq<Delta>, y: seq<Delta>)
    requires multiset(x) == multiset(y)
    ensures forall d :: d in x <==> d in y
  {
    forall d ensures d in x <==> d in y {
      assert d in x <==> d in multiset(x);
      assert d in y <==> d in multiset(y);
    }
  }

  lemma AllDescribe(b: Book, bids: seq<Level>, asks: seq<Level>)
    requires PositiveVolumes(b) && Lists(bids, b.bids, true) && Lists(asks, b.asks, false)
    ensures forall d :: d in AsDeltas(bids, Bid) + AsDeltas(asks, Ask) ==>
              d.volume > 0 && d.volume == VolumeAt(b, d.side, d.price)
  {
    forall d | d in AsDeltas(bids, Bid) + AsDeltas(asks, Ask)
      ensures d.volume > 0 && d.volume == VolumeAt(b, d.side, d.price)
    {
      if d in AsDeltas(bids, Bid) {
        var i :| 0 <= i < |bids| && AsDeltas(bids, Bid)[i] == d;
        assert bids[i].price in b.bids;
      } else {
        var i :| 0 <= i < |asks| && AsDeltas(asks, Ask)[i] == d;
        assert asks[i].price in b.asks;
      }
    }
  }

  lemma LevelIsListed(b: Book, bids: seq<Level>, asks: seq<Level>, side: Side, price: real)
    requires Lists(bids, b.bids, true) && Lists(asks, b.asks, false) && VolumeAt(b, side, price) > 0
    ensures Delta(side, price, VolumeAt(b, side, price)) in AsDeltas(bids, Bid) + AsDeltas(asks, Ask)
  {
    var all := AsDeltas(bids, Bid) + AsDeltas(asks, Ask);
    if side.Bid? {
      var i :| 0 <= i < |bids| && bids[i].price == price;
      assert all[i] == Delta(side, price, VolumeAt(b, side, price));
    } else {
      var i :| 0 <= i < |asks| && asks[i].price == price;
      assert all[|bids| + i] == Delta(side, price, VolumeAt(b, side, price));
    }
  }

  lemma ListsSnoc(levels: seq<Level>, side: map<real, nat>, rest: set<real>, p: real, descending: bool)
    requires rest <= side.Keys && p in rest
    requires Lists(levels, map q | q in side && q !in rest :: side[q], descending)
    requires forall i :: 0 <= i < |levels| ==> if descending then levels[i].price > p else levels[i].price < p
    ensures Lists(levels + [Level(p, side[p])], map q | q in side && q !in rest - {p} :: side[q], descending)
  {
    var before := map q | q in side && q !in rest :: side[q];
    var after := map q | q in side && q !in rest - {p} :: side[q];
    var longer := levels + [Level(p, side[p])];
    assert forall i :: 0 <= i < |levels| ==> longer[i] == levels[i] && levels[i].price in before;
    forall q | q in after ensures exists i :: 0 <= i < |longer| && longer[i].price == q {
      if q == p {
        assert longer[|levels|].price == q;
      } else {
        assert q in before;
        var i :| 0 <= i < |levels| && levels[i].price == q;
        assert longer[i].price == q;
      }
    }
  }

  // ----- The book object -----

  datatype TopOfBook = TopOfBook(bestBid: real, bidVolume: nat, bestAsk: real, askVolume: nat, spread: real)

  class OrderBook {
    var bids: map<real, nat>
    var asks: map<real, nat>
    var sequence: nat
    var updates: nat
    var removed: nat

    ghost function State(): Book
      reads this
    {
      Book(bids, asks, sequence, updates, removed)
    }

    constructor ()
      ensures State() == EMPTY_BOOK
    {
      bids, asks, sequence, updates, removed := map[], map[], 0, 0, 0;
    }

    method Apply(delta: Delta)
      modifies this
      ensures State() == Applied(old(State()), delta)
      ensures forall side, price ::
                VolumeAt(State(), side, price) ==
                  if side == delta.side && price == delta.price && !(delta.volume > 0 && Crosses(old(State()), delta))
                  then delta.volume else VolumeAt(old(State()), side, price)
    {
      forall side, price { ApplyEffect(State(), delta, side, price); }
      sequence := sequence + 1;
      updates := updates + 1;
      if delta.volume > 0 {
        if delta.side.Bid? && asks.Keys != {} && delta.price > MinOf(asks.Keys) {
          return;
        }
        if delta.side.Ask? && bids.Keys != {} && delta.price < MaxOf(bids.Keys) {
          return;
        }
      }
      if delta.side.Bid? {
        if delta.volume == 0 {
          removed := removed + (if delta.price in bids then 1 else 0);
          bids := bids - {delta.price};
          return;
        }
        bids := bids[delta.price := delta.volume];
        return;
      }
      if delta.volume == 0 {
        removed := removed + (if delta.price in asks then 1 else 0);
        asks := asks - {delta.price};
        return;
      }
      asks := asks[delta.price := delta.volume];
    }

    method Clear()
      modifies this
      ensures State() == EMPTY_BOOK
    {
      bids, asks, sequence, updates, removed := map[], map[], 0, 0, 0;
    }

    method Top() returns (top: TopOfBook)
      ensures top.bestBid == BestBid(State()) && top.bestAsk == BestAsk(State())
      ensures top.bidVolume == if !HasBids(State()) then 0 else VolumeAt(State(), Bid, top.bestBid)
      ensures top.askVolume == if !HasAsks(State()) then 0 else VolumeAt(State(), Ask, top.bestAsk)
      ensures Uncrossed(State()) ==> top.spread >= 0.0
      ensures top.spread == if top.bestBid > 0.0 && top.bestAsk > 0.0 then top.bestAsk - top.bestBid else 0.0
    {
      top := TopOfBook(0.0, 0, 0.0, 0, 0.0);
      if bids.Keys != {} {
        var p := MaxOf(bids.Keys);
        top := top.(bestBid := p, bidVolume := bids[p]);
      }
      if asks.Keys != {} {
        var p := MinOf(asks.Keys);
        top := top.(bestAsk := p, askVolume := asks[p]);
      }
      if top.bestBid > 0.0 && top.bestAsk > 0.0 {
        top := top.(spread := top.bestAsk - top.bestBid);
      }
    }

    method Snapshot() returns (bidLevels: seq<Level>, askLevels: seq<Level>, seqNo: nat)
      ensures Lists(bidLevels, bids, true) && Lists(askLevels, asks, false)
      ensures seqNo == sequence
    {
      bidLevels := [];
      var rest := bids.Keys;
      while rest != {}
        invariant rest <= bids.Keys
        invariant Lists(bidLevels, map p | p in bids && p !in rest :: bids[p], true)
        invariant forall i, p :: 0 <= i < |bidLevels| && p in rest ==> bidLevels[i].price > p
        decreases |rest|
      {
        var p := MaxOf(rest);
        ListsSnoc(bidLevels, bids, rest, p, true);
        bidLevels := bidLevels + [Level(p, bids[p])];
        rest := rest - {p};
      }
      assert (map p | p in bids && p !in rest :: bids[p]) == bids;
      askLevels := [];
      rest := asks.Keys;
      while rest != {}
        invariant rest <= asks.Keys
        invariant Lists(askLevels, map p | p in asks && p !in rest :: asks[p], false)
        invariant forall i, p :: 0 <= i < |askLevels| && p in rest ==> askLevels[i].price < p
        decreases |rest|
      {
        var p := MinOf(rest);
        ListsSnoc(askLevels, asks, rest, p, false);
        askLevels := askLevels + [Level(p, asks[p])];
        rest := rest - {p};
      }
      assert (map p | p in asks && p !in rest :: asks[p]) == asks;
      seqNo := sequence;
    }
  }
}
