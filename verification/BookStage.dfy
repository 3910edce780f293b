/** The whole book stage: a map of books, a map of references, counters and output queues. */
module BookStage {
  import opened Words
  import opened Sequences
  import opened Ticks
  import opened OrderBooks
  import opened BookProcessing

  /** Which output queues are attached. */
  datatype Wiring = Wiring(db: bool, signals: bool)

  /** A published top-of-book change, with the two prices that triggered it. */
  datatype Emission = Emission(key: string, price: real, volume: nat, timestamp: int, sequence: nat,
                               bestBid: real, bestAsk: real)

  datatype Stage = Stage(books: map<string, Book>, refs: map<string, real>, ticks: nat,
                         emitted: seq<Emission>, db: seq<Emission>, signals: seq<Emission>, dropped: nat)

  const NEW_STAGE := Stage(map[], map[], 0, [], [], [], 0)

  /** A tick together with whether each output queue has room when it is processed. */
  datatype Offer = Offer(tick: Tick, dbRoom: bool, signalRoom: bool)

  function LaneOf(s: Stage, key: string): Lane {
    Lane(if key in s.books then s.books[key] else EMPTY_BOOK, if key in s.refs then At(s.refs[key]) else Unset)
  }

  function WithReference(refs: map<string, real>, key: string, r: Reference): map<string, real> {
    if r.At? then refs[key := r.price] else refs
  }

  function TopChanged(x: Book, y: Book): bool {
    BestBid(x) != BestBid(y) || BestAsk(x) != BestAsk(y)
  }

  /** The mid price, or the lone best price. */
  function DisplayPrice(b: Book): real {
    if BestBid(b) > 0.0 && BestAsk(b) > 0.0 then (BestBid(b) + BestAsk(b)) / 2.0
    else if BestBid(b) > 0.0 then BestBid(b)
    else BestAsk(b)
  }

  function Emit(t: Tick, b: Book): Emission {
    var volume := Wrap(VolumeAt(b, Bid, BestBid(b)) + VolumeAt(b, Ask, BestAsk(b)));
    Emission(BookKey(t), DisplayPrice(b), volume, t.timestamp, b.updates, BestBid(b), BestAsk(b))
  }

  /** The stage after the change of a book from `x` to `y` has been published, if its top changed. */
  function Published(w: Wiring, s: Stage, o: Offer, x: Book, y: Book): Stage {
    if (w.db || w.signals) && TopChanged(x, y) then
      var e := Emit(o.tick, y);
      s.(emitted := s.emitted + [e],
         db := if w.db && o.dbRoom then s.db + [e] else s.db,
         dropped := if w.db && !o.dbRoom then s.dropped + 1 else s.dropped,
         signals := if w.signals && o.signalRoom then s.signals + [e] else s.signals)
    else s
  }

  /** What a step may do to the emissions and the queues: at most one new emission, of the tick's symbol,
      which reaches each attached queue exactly if it has room, and is counted as dropped exactly if the
      attached database queue has none. */
  ghost predicate Delivers(w: Wiring, o: Offer, s: Stage, s': Stage) {
    && s.emitted <= s'.emitted
    && var e := s'.emitted[|s.emitted|..];
       && |e| <= 1 && (forall x :: x in e ==> x.key == BookKey(o.tick))
       && (!w.db && !w.signals ==> e == [])
       && s'.db == s.db + (if w.db && o.dbRoom then e else [])
       && s'.signals == s.signals + (if w.signals && o.signalRoom then e else [])
       && s'.dropped == s.dropped + (if w.db && !o.dbRoom then |e| else 0)
  }

  /** The stage after the tick's book and reference have moved. */
  function Booked(s: Stage, t: Tick, after: Lane): Stage {
    s.(books := s.books[BookKey(t) := after.book], refs := WithReference(s.refs, BookKey(t), after.ref),
       ticks := s.ticks + 1)
  }

  function Step(w: Wiring, s: Stage, o: Offer): Stage
    requires Bookable(o.tick)
  {
    var before := LaneOf(s, BookKey(o.tick));
    var after := LaneStep(before, o.tick);
    Published(w, Booked(s, o.tick, after), o, before.book, after.book)
  }

  ghost predicate Fits(offers: seq<Offer>) {
    forall i :: 0 <= i < |offers| ==> Bookable(offers[i].tick)
  }

  function Run(w: Wiring, offers: seq<Offer>): Stage
    requires Fits(offers)
  {
    if offers == [] then NEW_STAGE else Step(w, Run(w, Front(offers)), Last(offers))
  }

  lemma RunSnoc(w: Wiring, offers: seq<Offer>, o: Offer)
    requires Fits(offers) && Bookable(o.tick)
    ensures Fits(offers + [o]) && Run(w, offers + [o]) == Step(w, Run(w, offers), o)
  {
    assert Front(offers + [o]) == offers;
  }

  // ----- Symbol isolation -----

  function TicksOf(key: string, offers: seq<Offer>): seq<Tick> {
    if offers == [] then []
    else TicksOf(key, Front(offers)) + (if BookKey(Last(offers).tick) == key then [Last(offers).tick] else [])
  }

  lemma TicksSnoc(key: string, offers: seq<Offer>, o: Offer)
    ensures TicksOf(key, offers + [o]) == TicksOf(key, offers) + (if BookKey(o.tick) == key then [o.tick] else [])
  {
    assert Front(offers + [o]) == offers;
  }

  lemma {:induction false} TicksOfBookable(key: string, offers: seq<Offer>)
    requires Fits(offers)
    ensures AllBookable(TicksOf(key, offers))
  {
    if offers != [] {
      assert forall i :: 0 <= i < |offers| - 1 ==> Front(offers)[i] == offers[i];
      TicksOfBookable(key, Front(offers));
    }
  }

  lemma LaneAfterStep(w: Wiring, s: Stage, o: Offer, key: string)
    requires Bookable(o.tick)
    ensures LaneOf(Step(w, s, o), key) ==
              if BookKey(o.tick) == key then LaneStep(LaneOf(s, key), o.tick) else LaneOf(s, key)
  {
    var k := BookKey(o.tick);
    assert LaneOf(s, k).ref.At? ==> LaneStep(LaneOf(s, k), o.tick).ref.At?;
  }

  /** The book and the reference of a symbol depend on that symbol's own ticks only: interleaving
      other symbols changes nothing. */
  lemma {:induction false} SymbolsAreIsolated(w: Wiring, offers: seq<Offer>, key: string)
    requires Fits(offers)
    ensures AllBookable(TicksOf(key, offers)) && LaneOf(Run(w, offers), key) == RunLane(TicksOf(key, offers))
    ensures key in Run(w, offers).books <==> TicksOf(key, offers) != []
  {
    TicksOfBookable(key, offers);
    if offers != [] {
      var f, o := Front(offers), Last(offers);
      SymbolsAreIsolated(w, f, key);
      LaneAfterStep(w, Run(w, f), o, key);
      var mine := TicksOf(key, f);
      if BookKey(o.tick) == key {
        assert Front(mine + [o.tick]) == mine;
      } else {
        assert TicksOf(key, offers) == mine;
      }
    }
  }

  /** Every book of every reachable stage is sound, and the refusal rule holds for its next tick. */
  lemma ReachableStage(w: Wiring, offers: seq<Offer>, key: string, t: Tick)
    requires Fits(offers) && Bookable(t) && t.volume.value >= 1.0
    ensures var l := LaneOf(Run(w, offers), key);
            && LaneOk(l)
            && (Rejects(l.book, DeltaFor(l, t)) <==> RefusalCase(l, t.price.value))
  {
    SymbolsAreIsolated(w, offers, key);
    RunLaneOk(TicksOf(key, offers));
    RejectedExactlyWhen(LaneOf(Run(w, offers), key), t);
  }

  /** In every reachable stage, the next tick of a symbol moves its reference, takes its side and changes
      its book exactly by the rules for one symbol. */
  lemma ReachableTick(w: Wiring, offers: seq<Offer>, o: Offer, side: Side, price: real) returns (units: nat)
    requires Fits(offers) && Bookable(o.tick)
    ensures Fits(offers + [o]) && units as real <= o.tick.volume.value < units as real + 1.0
    ensures var l, after := LaneOf(Run(w, offers), BookKey(o.tick)), LaneOf(Run(w, offers + [o]), BookKey(o.tick));
            && ReferenceRule(l, o.tick.price.value, after.ref)
            && VolumeRule(l, o.tick, units, side, price, VolumeAt(after.book, side, price))
  {
    var key := BookKey(o.tick);
    SymbolsAreIsolated(w, offers, key);
    RunLaneOk(TicksOf(key, offers));
    RunSnoc(w, offers, o);
    LaneAfterStep(w, Run(w, offers), o, key);
    hide LaneOk, LaneStep, LaneOf, Run, Step, ReferenceRule, VolumeRule, VolumeAt;
    ReferenceExactly(LaneOf(Run(w, offers), key), o.tick);
    units := TickEffect(LaneOf(Run(w, offers), key), o.tick, side, price);
  }

  /** In every reachable stage, the next tick leaves its book locked exactly by the lock rule. */
  lemma ReachableLocks(w: Wiring, offers: seq<Offer>, key: string, t: Tick)
    requires Fits(offers) && Bookable(t)
    ensures var l := LaneOf(Run(w, offers), key);
            Locked(LaneStep(l, t).book) <==> LockCase(l, t)
  {
    hide LaneOk, Locked, LockCase, LaneStep;
    SymbolsAreIsolated(w, offers, key);
    RunLaneOk(TicksOf(key, offers));
    LockedExactlyWhen(LaneOf(Run(w, offers), key), t);
  }

  // ----- Counting -----

  ghost function TotalUpdates(m: map<string, Book>): nat
    decreases m.Keys
  {
    if exists k :: k in m then
      var k :| k in m;
      m[k].updates + TotalUpdates(m - {k})
    else 0
  }

  lemma {:induction false} TotalSplits(m: map<string, Book>, k: string)
    requires k in m
    ensures TotalUpdates(m) == m[k].updates + TotalUpdates(m - {k})
    decreases m.Keys
  {
    var j :| j in m && TotalUpdates(m) == m[j].updates + TotalUpdates(m - {j});
    if j != k {
      TotalSplits(m - {j}, k);
      TotalSplits(m - {k}, j);
      assert m - {j} - {k} == m - {k} - {j};
    }
  }

  /** The updates of all books add up to the ticks processed. */
  lemma {:induction false} UpdatesAddUp(w: Wiring, offers: seq<Offer>)
    requires Fits(offers)
    ensures Run(w, offers).ticks == |offers| == TotalUpdates(Run(w, offers).books)
  {
    if offers != [] {
      var s, o := Run(w, Front(offers)), Last(offers);
      UpdatesAddUp(w, Front(offers));
      var key := BookKey(o.tick);
      var after := LaneStep(LaneOf(s, key), o.tick).book;
      TotalAfterSet(s.books, key, after);
    }
  }

  lemma TotalAfterSet(m: map<string, Book>, key: string, b: Book)
    requires b.updates == 1 + (if key in m then m[key].updates else 0)
    ensures TotalUpdates(m[key := b]) == TotalUpdates(m) + 1
  {
    TotalSplits(m[key := b], key);
    assert m[key := b] - {key} == m - {key};
    if key in m {
      TotalSplits(m, key);
    } else {
      assert m - {key} == m;
    }
  }

  // ----- The emission stream is a faithful change log -----

  function LogOf(key: string, log: seq<Emission>): seq<Emission> {
    if log == [] then []
    else LogOf(key, Front(log)) + (if Last(log).key == key then [Last(log)] else [])
  }

  /** The log of one symbol against its current book. */
  ghost predicate FaithfulLog(log: seq<Emission>, b: Book) {
    && (forall i, j :: 0 <= i < j < |log| ==> log[i].sequence < log[j].sequence)
    && (forall i :: 0 <= i < |log| ==> log[i].sequence <= b.updates)
    && (forall i :: 0 < i < |log| ==> log[i - 1].bestBid != log[i].bestBid || log[i - 1].bestAsk != log[i].bestAsk)
    && (log == [] ==> BestBid(b) == 0.0 && BestAsk(b) == 0.0)
    && (log != [] ==>
          && Last(log).bestBid == BestBid(b) && Last(log).bestAsk == BestAsk(b)
          && Last(log).price == DisplayPrice(b))
  }

  lemma LogStep(log: seq<Emission>, b: Book, b': Book, t: Tick)
    requires FaithfulLog(log, b) && b'.updates == b.updates + 1
    ensures if TopChanged(b, b') then FaithfulLog(log + [Emit(t, b')], b') else FaithfulLog(log, b')
  {
    if TopChanged(b, b') {
      var longer := log + [Emit(t, b')];
      assert forall i :: 0 <= i < |log| ==> longer[i] == log[i];
    }
  }

  lemma LogAfterPublish(w: Wiring, s: Stage, o: Offer, x: Book, y: Book, key: string)
    requires w.db || w.signals
    ensures LogOf(key, Published(w, s, o, x, y).emitted) ==
              LogOf(key, s.emitted) + (if BookKey(o.tick) == key && TopChanged(x, y) then [Emit(o.tick, y)] else [])
  {
    hide TopChanged, DisplayPrice, VolumeAt;
    var e := Emit(o.tick, y);
    assert Front(s.emitted + [e]) == s.emitted;
  }

  /** Publishing a change keeps the log of its symbol faithful and leaves the other logs alone. */
  lemma PublishKeepsFaithful(w: Wiring, s: Stage, o: Offer, x: Book, y: Book, key: string)
    requires (w.db || w.signals) && y.updates == x.updates + 1
    ensures var log, log' := LogOf(key, s.emitted), LogOf(key, Published(w, s, o, x, y).emitted);
            if BookKey(o.tick) == key then FaithfulLog(log, x) ==> FaithfulLog(log', y) else log' == log
  {
    hide FaithfulLog, TopChanged, Emit;
    var log := LogOf(key, s.emitted);
    LogAfterPublish(w, s, o, x, y, key);
    assert log + [] == log;
    if FaithfulLog(log, x) { LogStep(log, x, y, o.tick); }
  }

  lemma FaithfulAfterStep(w: Wiring, s: Stage, o: Offer, key: string)
    requires Bookable(o.tick) && (w.db || w.signals) && FaithfulLog(LogOf(key, s.emitted), LaneOf(s, key).book)
    ensures FaithfulLog(LogOf(key, Step(w, s, o).emitted), LaneOf(Step(w, s, o), key).book)
  {
    hide FaithfulLog, TopChanged, LaneOf, Published, LogOf;
    LaneAfterStep(w, s, o, key);
    var before := LaneOf(s, BookKey(o.tick));
    var after := LaneStep(before, o.tick);
    PublishKeepsFaithful(w, Booked(s, o.tick, after), o, before.book, after.book, key);
  }

  /** With an output attached, the emissions of each symbol carry strictly increasing sequence
      numbers, consecutive ones differ at the top of the book, and the latest one shows the current
      book. */
  lemma {:induction false} EmissionsAreFaithful(w: Wiring, offers: seq<Offer>, key: string)
    requires Fits(offers) && (w.db || w.signals)
    ensures FaithfulLog(LogOf(key, Run(w, offers).emitted), LaneOf(Run(w, offers), key).book)
  {
    if offers != [] {
      EmissionsAreFaithful(w, Front(offers), key);
      hide FaithfulLog, LogOf, LaneOf, Step;
      FaithfulAfterStep(w, Run(w, Front(offers)), Last(offers), key);
    }
  }

  // ----- Every emission shows its own moment -----

  lemma {:induction false} LaneCountsTicks(ticks: seq<Tick>)
    requires AllBookable(ticks)
    ensures RunLane(ticks).book.updates == |ticks|
  {
    if ticks != [] { LaneCountsTicks(Front(ticks)); }
  }

  /** The book after the first `n` ticks of a symbol. */
  ghost function BookAt(mine: seq<Tick>, n: nat): Book
    requires AllBookable(mine) && n <= |mine|
  {
    RunLane(mine[..n]).book
  }

  /** The middle of a two-sided book, the best price of a one-sided one, 0 for an empty one. */
  ghost predicate PriceShown(b: Book, price: real) {
    if HasBids(b) && HasAsks(b) then 2.0 * price == BestBid(b) + BestAsk(b)
    else if HasBids(b) then price == BestBid(b)
    else if HasAsks(b) then price == BestAsk(b)
    else price == 0.0
  }

  lemma DisplayPriceShown(l: Lane)
    requires LaneOk(l)
    ensures PriceShown(l.book, DisplayPrice(l.book))
  {
    var b := l.book;
    if HasBids(b) { assert BestBid(b) in b.bids; }
    if HasAsks(b) { assert BestAsk(b) in b.asks; }
  }

  /** The emission shows the book after as many ticks of its symbol as its sequence number says: both
      best prices, the display price and the volume at the top, under the time of the last tick. */
  ghost predicate Shows(e: Emission, mine: seq<Tick>)
    requires AllBookable(mine)
  {
    && 1 <= e.sequence <= |mine|
    && e.timestamp == mine[e.sequence - 1].timestamp
    && var b := BookAt(mine, e.sequence);
       && e.bestBid == BestBid(b) && e.bestAsk == BestAsk(b) && PriceShown(b, e.price)
       && e.volume == Wrap(VolumeAt(b, Bid, BestBid(b)) + VolumeAt(b, Ask, BestAsk(b)))
  }

  ghost predicate ChangesAt(mine: seq<Tick>, n: nat)
    requires AllBookable(mine) && 1 <= n <= |mine|
  {
    TopChanged(BookAt(mine, n - 1), BookAt(mine, n))
  }

  ghost predicate Logged(log: seq<Emission>, n: nat) { exists i :: 0 <= i < |log| && log[i].sequence == n }

  /** The log shows moments of the symbol's history, and exactly those at which its top changed. */
  ghost predicate CompleteLog(log: seq<Emission>, mine: seq<Tick>)
    requires AllBookable(mine)
  {
    && (forall i :: 0 <= i < |log| ==> Shows(log[i], mine))
    && (forall n: nat :: 1 <= n <= |mine| ==> (Logged(log, n) <==> ChangesAt(mine, n)))
  }

  lemma BookAtEarlier(mine: seq<Tick>, t: Tick, n: nat)
    requires AllBookable(mine) && AllBookable(mine + [t]) && n <= |mine|
    ensures BookAt(mine + [t], n) == BookAt(mine, n)
  {
    assert (mine + [t])[..n] == mine[..n];
  }

  lemma ShowsLater(e: Emission, mine: seq<Tick>, t: Tick)
    requires AllBookable(mine) && AllBookable(mine + [t]) && Shows(e, mine)
    ensures Shows(e, mine + [t])
  {
    hide BookAt, PriceShown, VolumeAt;
    BookAtEarlier(mine, t, e.sequence);
  }

  lemma BookAtEnd(mine: seq<Tick>)
    requires AllBookable(mine)
    ensures BookAt(mine, |mine|) == RunLane(mine).book
  {
    hide RunLane;
    assert mine[..|mine|] == mine;
  }

  lemma ShowsBook(e: Emission, mine: seq<Tick>, b: Book)
    requires mine != [] && AllBookable(mine) && b == BookAt(mine, |mine|) && b.updates == |mine|
    requires e == Emit(Last(mine), b) && PriceShown(b, DisplayPrice(b))
    ensures Shows(e, mine)
  {
    hide DisplayPrice, PriceShown, VolumeAt, BookAt, BestBid, BestAsk, AllBookable, BookKey, Wrap;
  }

  lemma ShowsNow(mine: seq<Tick>)
    requires mine != [] && AllBookable(mine)
    ensures Shows(Emit(Last(mine), RunLane(mine).book), mine)
    ensures Emit(Last(mine), RunLane(mine).book).sequence == |mine|
  {
    hide RunLane, DisplayPrice, VolumeAt, BookAt, BestBid, BestAsk, AllBookable, BookKey, Wrap;
    LaneCountsTicks(mine);
    BookAtEnd(mine);
    RunLaneOk(mine);
    DisplayPriceShown(RunLane(mine));
    ShowsBook(Emit(Last(mine), RunLane(mine).book), mine, RunLane(mine).book);
  }

  lemma LoggedStep(log: seq<Emission>, e: Emission, n: nat)
    ensures Logged(log + [e], n) <==> Logged(log, n) || e.sequence == n
  {
    assert (log + [e])[|log|] == e && forall i :: 0 <= i < |log| ==> (log + [e])[i] == log[i];
  }

  lemma ChangesStep(mine: seq<Tick>, t: Tick, n: nat)
    requires AllBookable(mine) && AllBookable(mine + [t]) && 1 <= n <= |mine| + 1
    ensures ChangesAt(mine + [t], n) <==>
              if n <= |mine| then ChangesAt(mine, n) else TopChanged(RunLane(mine).book, RunLane(mine + [t]).book)
  {
    hide RunLane, TopChanged, BookAt;
    BookAtEarlier(mine, t, n - 1);
    if n <= |mine| {
      BookAtEarlier(mine, t, n);
    } else {
      BookAtEnd(mine);
      BookAtEnd(mine + [t]);
    }
  }

  lemma ShowsStep(log: seq<Emission>, mine: seq<Tick>, t: Tick)
    requires AllBookable(mine) && AllBookable(mine + [t]) && forall i :: 0 <= i < |log| ==> Shows(log[i], mine)
    ensures forall i :: 0 <= i < |log| ==> Shows(log[i], mine + [t])
  {
    hide Shows;
    forall i | 0 <= i < |log| ensures Shows(log[i], mine + [t]) { ShowsLater(log[i], mine, t); }
  }

  lemma LogKeepsComplete(log: seq<Emission>, mine: seq<Tick>, t: Tick)
    requires AllBookable(mine) && AllBookable(mine + [t]) && CompleteLog(log, mine)
    requires !TopChanged(RunLane(mine).book, RunLane(mine + [t]).book)
    ensures CompleteLog(log, mine + [t])
  {
    var more := mine + [t];
    assert !Logged(log, |more|) by { assert forall i :: 0 <= i < |log| ==> Shows(log[i], mine); }
    hide RunLane, TopChanged, Shows, ChangesAt, Logged;
    ShowsStep(log, mine, t);
    forall n: nat | 1 <= n <= |more| ensures Logged(log, n) <==> ChangesAt(more, n) { ChangesStep(mine, t, n); }
  }

  lemma LogGrowsComplete(log: seq<Emission>, mine: seq<Tick>, t: Tick, e: Emission)
    requires AllBookable(mine) && AllBookable(mine + [t]) && CompleteLog(log, mine)
    requires TopChanged(RunLane(mine).book, RunLane(mine + [t]).book)
    requires Shows(e, mine + [t]) && e.sequence == |mine| + 1
    ensures CompleteLog(log + [e], mine + [t])
  {
    hide RunLane, TopChanged, Shows, ChangesAt, Logged;
    var more, longer := mine + [t], log + [e];
    ShowsStep(log, mine, t);
    assert forall i :: 0 <= i < |longer| ==> longer[i] == if i < |log| then log[i] else e;
    forall n: nat | 1 <= n <= |more| ensures Logged(longer, n) <==> ChangesAt(more, n) {
      LoggedStep(log, e, n);
      ChangesStep(mine, t, n);
    }
  }

  lemma CompleteAfterTick(log: seq<Emission>, mine: seq<Tick>, t: Tick)
    requires AllBookable(mine) && AllBookable(mine + [t]) && CompleteLog(log, mine)
    ensures var x, y := RunLane(mine).book, RunLane(mine + [t]).book;
            CompleteLog(log + (if TopChanged(x, y) then [Emit(t, y)] else []), mine + [t])
  {
    hide AllBookable, CompleteLog, RunLane, TopChanged, Emit, Shows;
    assert log + [] == log;
    var x, y := RunLane(mine).book, RunLane(mine + [t]).book;
    if TopChanged(x, y) {
      ShowsNow(mine + [t]);
      LogGrowsComplete(log, mine, t, Emit(t, y));
    } else {
      LogKeepsComplete(log, mine, t);
    }
  }

  lemma RunLaneSnoc(mine: seq<Tick>, t: Tick)
    requires AllBookable(mine) && Bookable(t)
    ensures AllBookable(mine + [t]) && RunLane(mine + [t]) == LaneStep(RunLane(mine), t)
  {
    hide LaneStep;
    assert Front(mine + [t]) == mine;
  }

  /** The log of a symbol grows by its own changes. */
  lemma LogAfterOffer(w: Wiring, f: seq<Offer>, o: Offer, key: string, mine: seq<Tick>)
    requires Fits(f) && Bookable(o.tick) && (w.db || w.signals) && mine == TicksOf(key, f)
    ensures AllBookable(mine) && AllBookable(mine + [o.tick]) && Fits(f + [o])
    ensures var x, y := RunLane(mine).book, RunLane(mine + [o.tick]).book;
            LogOf(key, Run(w, f + [o]).emitted) ==
              LogOf(key, Run(w, f).emitted) +
              (if BookKey(o.tick) == key && TopChanged(x, y) then [Emit(o.tick, y)] else [])
  {
    SymbolsAreIsolated(w, f, key);
    RunLaneSnoc(mine, o.tick);
    RunSnoc(w, f, o);
    var s := Run(w, f);
    hide Run, RunLane, LaneOf, LaneStep, TopChanged, Emit, LogOf, TicksOf, Published;
    var before := LaneOf(s, BookKey(o.tick));
    var after := LaneStep(before, o.tick);
    LogAfterPublish(w, Booked(s, o.tick, after), o, before.book, after.book, key);
  }

  lemma CompleteAfterOffer(w: Wiring, f: seq<Offer>, o: Offer, key: string, mine: seq<Tick>)
    requires Fits(f) && Bookable(o.tick) && (w.db || w.signals) && mine == TicksOf(key, f) && AllBookable(mine)
    requires CompleteLog(LogOf(key, Run(w, f).emitted), mine)
    ensures Fits(f + [o]) && AllBookable(TicksOf(key, f + [o]))
    ensures CompleteLog(LogOf(key, Run(w, f + [o]).emitted), TicksOf(key, f + [o]))
  {
    hide Fits, AllBookable, Bookable, CompleteLog, LogOf, Run, TicksOf, RunLane, TopChanged, Emit, BookKey;
    LogAfterOffer(w, f, o, key, mine);
    TicksSnoc(key, f, o);
    var log := LogOf(key, Run(w, f).emitted);
    assert log + [] == log && mine + [] == mine;
    if BookKey(o.tick) == key { CompleteAfterTick(log, mine, o.tick); }
  }

  /** In every reachable stage with an output attached, the emissions of a symbol are exactly one for each
      of its ticks that changed its best prices, and each shows the book of that moment. */
  lemma {:induction false} EmissionsAreComplete(w: Wiring, offers: seq<Offer>, key: string)
    requires Fits(offers) && (w.db || w.signals)
    ensures AllBookable(TicksOf(key, offers))
    ensures CompleteLog(LogOf(key, Run(w, offers).emitted), TicksOf(key, offers))
  {
    TicksOfBookable(key, offers);
    if offers != [] {
      EmissionsAreComplete(w, Front(offers), key);
      hide CompleteLog, LogOf, Run, TicksOf;
      CompleteAfterOffer(w, Front(offers), Last(offers), key, TicksOf(key, Front(offers)));
    }
  }

  // ----- What the queues receive -----

  datatype Outlet = DbOutlet | SignalOutlet

  predicate HasRoom(o: Offer, q: Outlet) { if q.DbOutlet? then o.dbRoom else o.signalRoom }

  /** The emissions that the last offer added. */
  ghost function Added(w: Wiring, offers: seq<Offer>): seq<Emission>
    requires Fits(offers) && offers != []
  {
    var before, after := Run(w, Front(offers)).emitted, Run(w, offers).emitted;
    if |before| <= |after| then after[|before|..] else []
  }

  /** The emissions of the offers that met room at an outlet, in order. */
  ghost function WithRoom(w: Wiring, offers: seq<Offer>, q: Outlet): seq<Emission>
    requires Fits(offers)
  {
    if offers == [] then []
    else WithRoom(w, Front(offers), q) + (if HasRoom(Last(offers), q) then Added(w, offers) else [])
  }

  /** How many emissions belong to offers that met no room at an outlet. */
  ghost function WithoutRoom(w: Wiring, offers: seq<Offer>, q: Outlet): nat
    requires Fits(offers)
  {
    if offers == [] then 0
    else WithoutRoom(w, Front(offers), q) + (if HasRoom(Last(offers), q) then 0 else |Added(w, offers)|)
  }

  lemma PublishDelivers(w: Wiring, s: Stage, o: Offer, x: Book, y: Book)
    ensures Delivers(w, o, s, Published(w, s, o, x, y))
  {
    hide TopChanged, DisplayPrice, VolumeAt, Wrap;
  }

  lemma QueuesOfStep(w: Wiring, s: Stage, o: Offer)
    requires Bookable(o.tick)
    ensures Delivers(w, o, s, Step(w, s, o))
  {
    hide Published, LaneOf, LaneStep;
    var before := LaneOf(s, BookKey(o.tick));
    var after := LaneStep(before, o.tick);
    PublishDelivers(w, Booked(s, o.tick, after), o, before.book, after.book);
  }

  /** Every offer adds at most one emission, of its own symbol. */
  lemma AddedIsOwn(w: Wiring, offers: seq<Offer>)
    requires Fits(offers) && offers != []
    ensures Run(w, offers).emitted == Run(w, Front(offers)).emitted + Added(w, offers)
    ensures |Added(w, offers)| <= 1
    ensures forall e :: e in Added(w, offers) ==> e.key == BookKey(Last(offers).tick)
    ensures Delivers(w, Last(offers), Run(w, Front(offers)), Run(w, offers))
  {
    QueuesOfStep(w, Run(w, Front(offers)), Last(offers));
    hide Step;
  }

  /** An attached queue holds exactly the emissions whose offer met room at it, in order, and an unattached
      one nothing; the dropped snapshots are exactly the emissions that met no room at the attached
      database queue. */
  lemma {:induction false} QueuesReceiveExactly(w: Wiring, offers: seq<Offer>)
    requires Fits(offers)
    ensures var s := Run(w, offers);
            && s.db == (if w.db then WithRoom(w, offers, DbOutlet) else [])
            && s.signals == (if w.signals then WithRoom(w, offers, SignalOutlet) else [])
            && s.dropped == (if w.db then WithoutRoom(w, offers, DbOutlet) else 0)
            && (!w.db && !w.signals ==> s.emitted == [])
  {
    if offers != [] {
      hide Run;
      QueuesReceiveExactly(w, Front(offers));
      AddedIsOwn(w, offers);
    }
  }

  /** With room at every offer an outlet receives every emission. */
  lemma {:induction false} RoomyOutletGetsAll(w: Wiring, offers: seq<Offer>, q: Outlet)
    requires Fits(offers) && forall i :: 0 <= i < |offers| ==> HasRoom(offers[i], q)
    ensures WithRoom(w, offers, q) == Run(w, offers).emitted && WithoutRoom(w, offers, q) == 0
  {
    if offers != [] {
      assert Last(offers) == offers[|offers| - 1];
      assert forall i :: 0 <= i < |offers| - 1 ==> Front(offers)[i] == offers[i];
      RoomyOutletGetsAll(w, Front(offers), q);
      AddedIsOwn(w, offers);
    }
  }

  lemma QueuesFollow(w: Wiring, o: Offer, s: Stage, s': Stage)
    requires Delivers(w, o, s, s') && Subsequence(s.db, s.emitted) && Subsequence(s.signals, s.emitted)
    ensures Subsequence(s'.db, s'.emitted) && Subsequence(s'.signals, s'.emitted)
  {
    hide Subsequence;
    var e := s'.emitted[|s.emitted|..];
    assert s'.emitted == s.emitted + e;
    if e == [] {
      assert s'.emitted == s.emitted && s'.db == s.db && s'.signals == s.signals;
    } else {
      assert e == [e[0]];
      KeepLast(s.db, s.emitted, e[0]);
      SkipLast(s.db, s.emitted, e[0]);
      KeepLast(s.signals, s.emitted, e[0]);
      SkipLast(s.signals, s.emitted, e[0]);
      assert s'.db == s.db + [e[0]] || s'.db == s.db;
      assert s'.signals == s.signals + [e[0]] || s'.signals == s.signals;
    }
  }

  /** What a queue received is the emissions, in order and unaltered, short of those it had no room for:
      every emission was either pushed to the attached database queue or counted as dropped. */
  lemma {:induction false} EmissionsAreAccounted(w: Wiring, offers: seq<Offer>)
    requires Fits(offers)
    ensures var s := Run(w, offers);
            && Subsequence(s.db, s.emitted) && Subsequence(s.signals, s.emitted)
            && (w.db ==> |s.db| + s.dropped == |s.emitted|)
            && (w.db && s.dropped == 0 ==> s.db == s.emitted)
  {
    if offers != [] {
      EmissionsAreAccounted(w, Front(offers));
      AddedIsOwn(w, offers);
      hide Run, Subsequence;
      QueuesFollow(w, Last(offers), Run(w, Front(offers)), Run(w, offers));
    }
    SubsequenceIsShorter(Run(w, offers).db, Run(w, offers).emitted);
  }

  /** The displayed price of a reachable two-sided book lies between its best prices. */
  lemma DisplayPriceIsInside(w: Wiring, offers: seq<Offer>, key: string)
    requires Fits(offers)
    ensures var b := LaneOf(Run(w, offers), key).book;
            HasBids(b) && HasAsks(b) ==> BestBid(b) <= DisplayPrice(b) <= BestAsk(b)
  {
    SymbolsAreIsolated(w, offers, key);
    RunLaneOk(TicksOf(key, offers));
    var b := LaneOf(Run(w, offers), key).book;
    if HasBids(b) && HasAsks(b) {
      assert BestBid(b) in b.bids && BestAsk(b) in b.asks;
    }
  }

  // ----- The stage object -----

  class BookProcessor {
    const wiring: Wiring
    var books: map<string, Book>
    var referencePrice: map<string, real>
    var ticksProcessed: nat
    var snapshotsDropped: nat
    var dbQueue: seq<Emission>
    var signalQueue: seq<Emission>
    ghost var emitted: seq<Emission>
    /** Every tick processed so far, with the room it met. */
    ghost var history: seq<Offer>

    ghost predicate Valid()
      reads this
    {
      Fits(history) && State() == Run(wiring, history)
    }

    ghost function State(): Stage
      reads this
    {
      Stage(books, referencePrice, ticksProcessed, emitted, dbQueue, signalQueue, snapshotsDropped)
    }

    constructor (wiring: Wiring)
      ensures Valid() && history == [] && State() == NEW_STAGE && this.wiring == wiring
    {
      this.wiring := wiring;
      books, referencePrice, ticksProcessed, snapshotsDropped := map[], map[], 0, 0;
      dbQueue, signalQueue, emitted, history := [], [], [], [];
    }

    method DetermineSide(key: string, price: real) returns (side: Side)
      requires key in books
      modifies this`referencePrice
      ensures side == InferSide(old(LaneOf(State(), key)), price)
      ensures referencePrice == WithReference(old(referencePrice), key, NextReference(old(LaneOf(State(), key)), price))
    {
      if price < MIN_PRICE || price > MAX_PRICE {
        ghost var l := LaneOf(State(), key);
        assert WithReference(referencePrice, key, l.ref) == referencePrice;
        return Bid;
      }
      if key !in referencePrice {
        referencePrice := referencePrice[key := price];
        return Bid;
      }
      var ref := referencePrice[key];
      side := if price < ref then Bid else Ask;
      var book := books[key];
      var wouldCross :=
        (side.Bid? && BestAsk(book) > 0.0 && price >= BestAsk(book)) ||
        (side.Ask? && BestBid(book) > 0.0 && price <= BestBid(book));
      if wouldCross {
        ref := (BestBid(book) + BestAsk(book)) / 2.0;
        side := if price < ref then Bid else Ask;
      }
      referencePrice := referencePrice[key := ALPHA * price + (1.0 - ALPHA) * ref];
    }

    /** Infer the side and apply the tick to its book, created on first sight. */
    method UpdateBook(tick: Tick) returns (book: Book, updated: Book)
      requires Bookable(tick)
      modifies this`books, this`referencePrice, this`ticksProcessed
      ensures var before := old(LaneOf(State(), BookKey(tick)));
              && book == before.book && updated == LaneStep(before, tick).book
              && books == old(books)[BookKey(tick) := updated]
              && referencePrice == WithReference(old(referencePrice), BookKey(tick), LaneStep(before, tick).ref)
      ensures ticksProcessed == old(ticksProcessed) + 1
    {
      var key := BookKey(tick);
      if key !in books {
        books := books[key := EMPTY_BOOK];
      }
      assert LaneOf(State(), key) == old(LaneOf(State(), key));
      var side := DetermineSide(key, tick.price.value);
      book := books[key];
      updated := Applied(book, ToDelta(tick, side));
      books := books[key := updated];
      ticksProcessed := ticksProcessed + 1;
    }

    /** Emit a snapshot when the top of the book has changed. A log that told the book's prices before
        still does after, other symbols' logs stay, and the emission reaches each attached queue exactly
        if it has room. */
    method Publish(tick: Tick, book: Book, updated: Book, dbRoom: bool, signalRoom: bool)
      requires updated.updates == book.updates + 1
      modifies this`emitted, this`dbQueue, this`signalQueue, this`snapshotsDropped
      ensures State() == Published(wiring, old(State()), Offer(tick, dbRoom, signalRoom), book, updated)
      ensures wiring.db || wiring.signals ==>
                forall key ::
                  if key != BookKey(tick) then LogOf(key, emitted) == LogOf(key, old(emitted))
                  else FaithfulLog(LogOf(key, old(emitted)), book) ==> FaithfulLog(LogOf(key, emitted), updated)
      ensures Delivers(wiring, Offer(tick, dbRoom, signalRoom), old(State()), State())
      ensures wiring.db ==> |dbQueue| + snapshotsDropped - |emitted| == old(|dbQueue| + snapshotsDropped - |emitted|)
    {
      ghost var before, offer := State(), Offer(tick, dbRoom, signalRoom);
      if (wiring.db || wiring.signals) && (BestBid(book) != BestBid(updated) || BestAsk(book) != BestAsk(updated)) {
        var snap := Emit(tick, updated);
        emitted := emitted + [snap];
        if wiring.db {
          if dbRoom {
            dbQueue := dbQueue + [snap];
          } else {
            snapshotsDropped := snapshotsDropped + 1;
          }
        }
        if wiring.signals && signalRoom {
          signalQueue := signalQueue + [snap];
        }
      }
      assert State() == Published(wiring, before, offer, book, updated);
      PublishDelivers(wiring, before, offer, book, updated);
      hide *;
      if wiring.db || wiring.signals {
        forall key
          ensures if key != BookKey(tick) then LogOf(key, emitted) == LogOf(key, old(emitted))
                  else FaithfulLog(LogOf(key, old(emitted)), book) ==> FaithfulLog(LogOf(key, emitted), updated)
        {
          PublishKeepsFaithful(wiring, before, offer, book, updated, key);
        }
      }
    }

    method ProcessTick(tick: Tick, dbRoom: bool, signalRoom: bool)
      requires Bookable(tick)
      modifies this`books, this`referencePrice, this`ticksProcessed,
               this`emitted, this`dbQueue, this`signalQueue, this`snapshotsDropped
      ensures State() == Step(wiring, old(State()), Offer(tick, dbRoom, signalRoom))
    {
      var book, updated := UpdateBook(tick);
      Publish(tick, book, updated, dbRoom, signalRoom);
    }

    method Take(offer: Offer)
      requires Valid() && Bookable(offer.tick)
      modifies this
      ensures Valid() && history == old(history) + [offer]
    {
      RunSnoc(wiring, history, offer);
      ProcessTick(offer.tick, offer.dbRoom, offer.signalRoom);
      history := history + [offer];
    }

    /** The drain loop: everything left in the input is processed, in order. */
    method Drain(input: seq<Offer>)
      requires Valid() && Fits(input)
      modifies this
      ensures Valid() && history == old(history) + input
    {
      var rest := input;
      while rest != []
        invariant Valid() && Fits(rest)
        invariant history + rest == old(history) + input
        decreases |rest|
      {
        Take(rest[0]);
        rest := rest[1..];
      }
    }
  }
}
