/** Whole runs of the pipeline: conservation at shutdown, order at every moment, progress of drains. */
module PipelineRuns {
  import opened Sequences
  import opened Ticks
  import opened TickParsing
  import opened Normalizing
  import opened Channels
  import opened Pipelines

  ghost predicate IsRun(states: seq<Pipe>, steps: seq<Step>) {
    && |states| == |steps| + 1
    && states[0] == Init()
    && (forall i :: 0 <= i < |states| ==> ChannelsValid(states[i]))
    && (forall i {:trigger steps[i]} :: 0 <= i < |steps| ==>
          Enabled(states[i], steps[i]) && states[i + 1] == Next(states[i], steps[i]))
  }

  lemma IdleStage(c: Channel<Tick>, capacity: nat)
    requires c.Valid() && c.popped == 0
    ensures StageOk(c, 0, capacity, FRESH, 0) && DrainView(c, Looping(false))
  {
  }

  lemma InitLedger()
    ensures Ledger(Init())
  {
    hide StageOk, DrainView;
    var p := Init();
    IdleStage(p.raw, 4096);
    IdleStage(p.parsed, 4096);
  }

  lemma NothingTaken()
    ensures RejectedCount([]) == 0 && ValidPart([]) == [] && Accepted([]) == [] && CacheAfter([]) == EMPTY_CACHE
    ensures CountFate([], [], Duplicate) == 0 && CountFate([], [], Reordered) == 0
    ensures Kept([], 0, [])
  {
  }

  lemma IdleContents(p: Pipe)
    requires ChannelsValid(p) && p.raw.popped == 0 && p.parsed.pushed == p.clean.pushed == p.books.applied == []
    requires p.parser == Parser(FRESH, 0, 0) && p.norm == Norm(FRESH, EMPTY_CACHE, 0, 0, 0)
    ensures Contents(p)
  {
    NothingTaken();
    hide RejectedCount, ValidPart, Accepted, CacheAfter, CountFate, Kept;
    assert Taken(p.raw) == [] && Taken(p.parsed) == [] && Taken(p.clean) == [];
    assert p.parsed.pushed + Pending(FRESH.pc) == [] && p.clean.pushed + Pending(FRESH.pc) == [];
  }

  lemma InitContents()
    ensures ChannelsValid(Init()) && Contents(Init())
  {
    hide Contents;
    IdleContents(Init());
  }

  lemma InitInv()
    ensures Inv(Init())
  {
    hide Ledger, Contents, Init;
    InitLedger();
    InitContents();
  }

  lemma {:induction false} RunKeepsInv(states: seq<Pipe>, steps: seq<Step>, i: nat)
    requires IsRun(states, steps) && i < |states|
    ensures Inv(states[i])
  {
    hide Inv, Init, Next, Enabled;
    if i == 0 {
      InitInv();
    } else {
      RunKeepsInv(states, steps, i - 1);
      StepKeepsInv(states[i - 1], steps[i - 1]);
    }
  }

  lemma RunStep(states: seq<Pipe>, steps: seq<Step>, i: nat)
    requires IsRun(states, steps) && i < |steps|
    ensures Ledger(states[i]) && Enabled(states[i], steps[i]) && states[i + 1] == Next(states[i], steps[i])
  {
    hide Contents, Init, Next, Enabled, Ledger;
    RunKeepsInv(states, steps, i);
  }

  // ----- Conservation -----

  /** At every moment, each tick published is in exactly one place, and every counter counts what its
      name says: rejected ticks are the invalid ones taken, deduplicated and reordered ones those the
      declarative filter over everything taken calls repeats and late. */
  lemma EveryTickIsAccounted(states: seq<Pipe>, steps: seq<Step>, i: nat)
    requires IsRun(states, steps) && i < |states|
    ensures var p := states[i];
            && p.feed.published == p.parser.processed + p.parser.rejected + Lost(p.parser.w)
                                   + |Pending(p.parser.w.pc)| + |p.raw.Queue()|
            && p.parser.processed == p.norm.forwarded + p.norm.deduplicated + p.norm.reordered + Lost(p.norm.w)
                                     + |Pending(p.norm.w.pc)| + |p.parsed.Queue()|
            && p.norm.forwarded == p.books.booked + |p.clean.Queue()|
            && |p.raw.Queue()| <= 16384 && |p.parsed.Queue()| <= 4096 && |p.clean.Queue()| <= 4096
            && p.parser.rejected == RejectedCount(Taken(p.raw))
            && p.norm.deduplicated == CountFate([], Taken(p.parsed), Duplicate)
            && p.norm.reordered == CountFate([], Taken(p.parsed), Reordered)
  {
    hide Kept, RejectedCount, CountFate, CacheAfter, Init, Next, Enabled;
    RunKeepsInv(states, steps, i);
  }

  /** At every moment, a stage has sent on or has in hand, in order, all that its rule lets through of
      what it took, short of exactly as many ticks as it lost; with no loss, all of it. */
  lemma DeliveryIsExact(states: seq<Pipe>, steps: seq<Step>, i: nat)
    requires IsRun(states, steps) && i < |states|
    ensures var p := states[i];
            && Kept(p.parsed.pushed + Pending(p.parser.w.pc), Lost(p.parser.w), ValidPart(Taken(p.raw)))
            && Kept(p.clean.pushed + Pending(p.norm.w.pc), Lost(p.norm.w), Accepted(Taken(p.parsed)))
            && p.books.applied == Taken(p.clean)
    ensures var p := states[i];
            && (Lost(p.parser.w) == 0 ==> p.parsed.pushed + Pending(p.parser.w.pc) == ValidPart(Taken(p.raw)))
            && (Lost(p.norm.w) == 0 ==> p.clean.pushed + Pending(p.norm.w.pc) == Accepted(Taken(p.parsed)))
  {
    hide Subsequence, Judged, ValidPart, Accepted, ControlOk, LossOk, DrainView, Init, Next, Enabled;
    RunKeepsInv(states, steps, i);
    var p := states[i];
    SubsequenceIsShorter(p.parsed.pushed + Pending(p.parser.w.pc), ValidPart(Taken(p.raw)));
    SubsequenceIsShorter(p.clean.pushed + Pending(p.norm.w.pc), Accepted(Taken(p.parsed)));
  }

  lemma StoppedIsDrained(states: seq<Pipe>, steps: seq<Step>, i: nat)
    requires IsRun(states, steps) && i < |states| && states[i].control.joined == 4
    ensures var p := states[i];
            && p.parser.w.pc.Exited? && p.norm.w.pc.Exited? && p.books.pc.Exited?
            && Taken(p.raw) == p.raw.pushed && Taken(p.parsed) == p.parsed.pushed && Taken(p.clean) == p.clean.pushed
  {
    hide Contents, LossOk, Init, Next, Enabled;
    RunKeepsInv(states, steps, i);
  }

  /** After feed, parser, normalizer and book are stopped in that order, the three tick buffers are
      empty and the counters balance exactly over everything published. A run loses at most one tick
      per push loop, and a drain loses only if its output was filled, which takes as many forwarded
      ticks as the buffer holds. */
  lemma ShutdownConserves(states: seq<Pipe>, steps: seq<Step>, i: nat)
    requires IsRun(states, steps) && i < |states| && states[i].control.joined == 4
    ensures var p := states[i];
            && p.raw.Queue() == [] && p.parsed.Queue() == [] && p.clean.Queue() == []
            && p.feed.published == p.parser.processed + p.parser.rejected + Lost(p.parser.w)
            && p.parser.processed == p.norm.forwarded + p.norm.deduplicated + p.norm.reordered + Lost(p.norm.w)
            && p.norm.forwarded == p.books.booked == |p.books.applied|
            && p.parser.w.spinLost <= 1 && p.norm.w.spinLost <= 1
            && (p.parser.w.drainLost > 0 ==> p.parser.processed >= 4096)
            && (p.norm.w.drainLost > 0 ==> p.norm.forwarded >= 4096)
            && p.parser.rejected == RejectedCount(p.raw.pushed)
            && p.norm.deduplicated == CountFate([], p.parsed.pushed, Duplicate)
            && p.norm.reordered == CountFate([], p.parsed.pushed, Reordered)
  {
    hide Kept, RejectedCount, CountFate, CacheAfter, Init, Next, Enabled;
    RunKeepsInv(states, steps, i);
    StoppedIsDrained(states, steps, i);
  }

  /** A shutdown delivers: what was applied to books is, in order, what the parser and the normalizer
      let through of everything published, short of exactly the ticks lost; with no loss, all of it. */
  lemma ShutdownDelivers(states: seq<Pipe>, steps: seq<Step>, i: nat)
    requires IsRun(states, steps) && i < |states| && states[i].control.joined == 4
    ensures var p := states[i];
            && Kept(p.parsed.pushed, Lost(p.parser.w), ValidPart(p.raw.pushed))
            && Kept(p.books.applied, Lost(p.norm.w), Accepted(p.parsed.pushed))
    ensures var p := states[i];
            Lost(p.parser.w) == Lost(p.norm.w) == 0 ==> p.books.applied == Accepted(ValidPart(p.raw.pushed))
  {
    hide Kept, ValidPart, Accepted, Init, Next, Enabled;
    DeliveryIsExact(states, steps, i);
    StoppedIsDrained(states, steps, i);
    var p := states[i];
    assert p.parsed.pushed + [] == p.parsed.pushed && p.clean.pushed + [] == p.clean.pushed;
  }

  lemma AppliedCount(states: seq<Pipe>, steps: seq<Step>, i: nat)
    requires IsRun(states, steps) && i < |states|
    ensures states[i].books.booked == |states[i].books.applied|
  {
    hide ParserContents, NormContents, Init, Next, Enabled;
    RunKeepsInv(states, steps, i);
  }

  // ----- What the feed publishes -----

  /** The ticks the feed has offered in the first `n` steps. */
  function Offered(steps: seq<Step>, n: nat): seq<Tick>
    requires n <= |steps|
  {
    if n == 0 then []
    else Offered(steps, n - 1) + (if steps[n - 1].FeedOffer? then [steps[n - 1].tick] else [])
  }

  /** An offer is published exactly if the view of the tail leaves room, and is then the tick offered;
      otherwise it is counted as dropped. No other step publishes. */
  lemma FeedEffect(p: Pipe, s: Step)
    requires ChannelsValid(p) && Enabled(p, s)
    ensures var room := s.FeedOffer? && |p.raw.pushed| - s.at < p.raw.capacity;
            && Next(p, s).raw.pushed == p.raw.pushed + (if room then [s.tick] else [])
            && Next(p, s).feed.dropped == p.feed.dropped + (if s.FeedOffer? && !room then 1 else 0)
  {
    hide Validate, Enrich, Judge;
    assert p.raw.pushed + [] == p.raw.pushed;
  }

  /** At every moment, the published ticks are the offered ones, in order and unaltered, short of exactly
      those counted as dropped. */
  lemma {:induction false} PublishedAreOffered(states: seq<Pipe>, steps: seq<Step>, i: nat)
    requires IsRun(states, steps) && i < |states|
    ensures Kept(states[i].raw.pushed, states[i].feed.dropped, Offered(steps, i))
    ensures states[i].feed.dropped == 0 ==> states[i].raw.pushed == Offered(steps, i)
  {
    hide Next, Enabled, Ledger, Subsequence;
    if i == 0 {
      NothingTaken();
    } else {
      PublishedAreOffered(states, steps, i - 1);
      RunStep(states, steps, i - 1);
      var p, s, offered := states[i - 1], steps[i - 1], Offered(steps, i - 1);
      FeedEffect(p, s);
      assert p.raw.pushed + [] == p.raw.pushed && offered + [] == offered;
      if s.FeedOffer? {
        KeepLast(p.raw.pushed, offered, s.tick);
        SkipLast(p.raw.pushed, offered, s.tick);
      }
    }
    SubsequenceIsShorter(states[i].raw.pushed, Offered(steps, i));
  }

  // ----- Where ticks are lost -----

  /** A push loop sees stop with a tick in hand, or a drain offers a tick to a full view of its output. */
  datatype Loss = ParserSpin | ParserDrain | NormSpin | NormDrain

  predicate Loses(p: Pipe, s: Step, kind: Loss) {
    match kind
    case ParserSpin => s.ParserSeeStop? && p.parser.w.pc.Spinning?
    case ParserDrain =>
      s.ParserOffer? && p.parser.w.pc.Offering? && |p.parsed.pushed| - s.at == p.parsed.capacity
    case NormSpin => s.NormSeeStop? && p.norm.w.pc.Spinning?
    case NormDrain =>
      s.NormOffer? && p.norm.w.pc.Offering? && |p.clean.pushed| - s.at == p.clean.capacity
  }

  /** How many of the first `n` steps of a run lose a tick in the given way. */
  function Losses(states: seq<Pipe>, steps: seq<Step>, kind: Loss, n: nat): nat
    requires n <= |steps| < |states|
  {
    if n == 0 then 0
    else Losses(states, steps, kind, n - 1) + (if Loses(states[n - 1], steps[n - 1], kind) then 1 else 0)
  }

  /** What the stage has recorded of it. */
  function Recorded(p: Pipe, kind: Loss): nat {
    match kind
    case ParserSpin => p.parser.w.spinLost
    case ParserDrain => p.parser.w.drainLost
    case NormSpin => p.norm.w.spinLost
    case NormDrain => p.norm.w.drainLost
  }

  lemma LossOfStep(p: Pipe, s: Step, kind: Loss)
    requires ChannelsValid(p) && Enabled(p, s)
    ensures Recorded(Next(p, s), kind) == Recorded(p, kind) + (if Loses(p, s, kind) then 1 else 0)
  {
    hide Validate, Enrich, Judge;
  }

  lemma {:induction false} LossesAreRecorded(states: seq<Pipe>, steps: seq<Step>, kind: Loss, i: nat)
    requires IsRun(states, steps) && i < |states|
    ensures Recorded(states[i], kind) == Losses(states, steps, kind, i)
  {
    hide Next, Enabled, Ledger, Loses;
    if i > 0 {
      LossesAreRecorded(states, steps, kind, i - 1);
      RunStep(states, steps, i - 1);
      LossOfStep(states[i - 1], steps[i - 1], kind);
    }
  }

  /** The valid ticks the parser took that are missing downstream are as many as the moments at which
      its push loop saw stop with a tick in hand or its drain met a full view. Nothing else loses. */
  lemma ParserLosesExactly(states: seq<Pipe>, steps: seq<Step>, i: nat)
    requires IsRun(states, steps) && i < |states|
    ensures var p := states[i];
            |ValidPart(Taken(p.raw))| - |p.parsed.pushed| - |Pending(p.parser.w.pc)| ==
            Losses(states, steps, ParserSpin, i) + Losses(states, steps, ParserDrain, i)
  {
    hide ValidPart, Accepted, Subsequence, Init, Next, Enabled, Losses;
    DeliveryIsExact(states, steps, i);
    LossesAreRecorded(states, steps, ParserSpin, i);
    LossesAreRecorded(states, steps, ParserDrain, i);
  }

  /** The same for the accepted ticks of the normalizer. */
  lemma NormLosesExactly(states: seq<Pipe>, steps: seq<Step>, i: nat)
    requires IsRun(states, steps) && i < |states|
    ensures var p := states[i];
            |Accepted(Taken(p.parsed))| - |p.clean.pushed| - |Pending(p.norm.w.pc)| ==
            Losses(states, steps, NormSpin, i) + Losses(states, steps, NormDrain, i)
  {
    hide ValidPart, Accepted, Subsequence, Init, Next, Enabled, Losses;
    DeliveryIsExact(states, steps, i);
    LossesAreRecorded(states, steps, NormSpin, i);
    LossesAreRecorded(states, steps, NormDrain, i);
  }

  // ----- Order -----

  lemma EnrichPrefix(a: seq<Tick>, b: seq<Tick>)
    requires a <= b
    ensures EnrichAll(a) <= EnrichAll(b)
  {
  }

  lemma KeptIsSubsequence(out: seq<Tick>, pending: seq<Tick>, lost: nat, whole: seq<Tick>)
    requires Kept(out + pending, lost, whole)
    ensures Subsequence(out, whole)
  {
    PrefixIsSubsequence(out, out + pending);
    Transitive(out, out + pending, whole);
  }

  /** What was applied comes, in order, from what the normalizer accepted of what it took. */
  lemma AppliedWasAccepted(p: Pipe)
    requires Inv(p)
    ensures Subsequence(p.books.applied, Accepted(Taken(p.parsed)))
  {
    hide Kept, Subsequence, Accepted, Judged, ParserContents, ControlOk, LossOk, DrainView;
    KeptIsSubsequence(p.clean.pushed, Pending(p.norm.w.pc), Lost(p.norm.w), Accepted(Taken(p.parsed)));
    PrefixIsSubsequence(Taken(p.clean), p.clean.pushed);
    Transitive(Taken(p.clean), p.clean.pushed, Accepted(Taken(p.parsed)));
  }

  lemma ParsedWasPublished(p: Pipe)
    requires Inv(p)
    ensures Subsequence(p.parsed.pushed, EnrichAll(p.raw.pushed))
    ensures forall t :: t in p.parsed.pushed ==> Validate(t)
  {
    hide Kept, Subsequence, NormContents, ControlOk, LossOk, DrainView, Validate, EnrichAll, ValidPart, RejectedCount;
    var taken, out := Taken(p.raw), p.parsed.pushed;
    KeptIsSubsequence(out, Pending(p.parser.w.pc), Lost(p.parser.w), ValidPart(taken));
    ValidPartIsSelection(taken);
    Transitive(out, ValidPart(taken), EnrichAll(taken));
    EnrichPrefix(taken, p.raw.pushed);
    PrefixIsSubsequence(EnrichAll(taken), EnrichAll(p.raw.pushed));
    Transitive(out, EnrichAll(taken), EnrichAll(p.raw.pushed));
    forall t | t in out ensures Validate(t) { MembersCarry(out, ValidPart(taken), t); }
  }

  lemma AppliedFromParsed(p: Pipe)
    requires Inv(p)
    ensures Subsequence(p.books.applied, p.parsed.pushed)
  {
    hide Subsequence, Accepted, Contents, ControlOk, LossOk, DrainView;
    var taken := Taken(p.parsed);
    AppliedWasAccepted(p);
    AcceptedIsSubsequence(taken);
    Transitive(p.books.applied, Accepted(taken), taken);
    PrefixIsSubsequence(taken, p.parsed.pushed);
    Transitive(p.books.applied, taken, p.parsed.pushed);
  }

  /** At every moment of every run, the ticks applied to books are the enriched published ticks at some
      strictly increasing positions, all valid, and per symbol field their timestamps never decrease,
      also when shutdown drops ticks. */
  lemma AppliedInOrder(states: seq<Pipe>, steps: seq<Step>, i: nat)
    requires IsRun(states, steps) && i < |states|
    ensures exists positions :: Picks(positions, states[i].books.applied, EnrichAll(states[i].raw.pushed))
    ensures Subsequence(states[i].books.applied, EnrichAll(states[i].raw.pushed))
    ensures forall t :: t in states[i].books.applied ==> Validate(t)
    ensures MonotoneBy(RawKey, states[i].books.applied)
  {
    hide Subsequence, Picks, Accepted, EnrichAll, Validate, Contents, Ledger, Init, Next, Enabled;
    var p := states[i];
    RunKeepsInv(states, steps, i);
    AppliedFromParsed(p);
    ParsedWasPublished(p);
    Transitive(p.books.applied, p.parsed.pushed, EnrichAll(p.raw.pushed));
    SubsequenceHasPositions(p.books.applied, EnrichAll(p.raw.pushed));
    forall t | t in p.books.applied ensures Validate(t) {
      MembersCarry(p.books.applied, p.parsed.pushed, t);
    }
    AppliedWasAccepted(p);
    AcceptedIsMonotone(Taken(p.parsed));
    MonotoneCarries(RawKey, p.books.applied, Accepted(Taken(p.parsed)));
  }

  /** No two different enriched fields among the ticks share a C string. */
  ghost predicate KeysTell(ticks: seq<Tick>) {
    forall x, y :: x in EnrichAll(ticks) && y in EnrichAll(ticks) && BookKey(x) == BookKey(y) ==> x.symbol == y.symbol
  }

  /** If no two enriched fields published share a C string, the timestamps reaching each book never
      decrease. */
  lemma AppliedInOrderPerBook(states: seq<Pipe>, steps: seq<Step>, i: nat)
    requires IsRun(states, steps) && i < |states| && KeysTell(states[i].raw.pushed)
    ensures MonotoneBy(BookKey, states[i].books.applied)
  {
    hide Subsequence, EnrichAll, Inv, Init, Next, Enabled, Validate, CString;
    AppliedInOrder(states, steps, i);
    var a, published := states[i].books.applied, EnrichAll(states[i].raw.pushed);
    forall x, y | 0 <= x < y < |a| && BookKey(a[x]) == BookKey(a[y]) ensures a[x].timestamp <= a[y].timestamp {
      MembersCarry(a, published, a[x]);
      MembersCarry(a, published, a[y]);
      assert RawKey(a[x]) == RawKey(a[y]);
    }
  }

  lemma EnrichKeepsPadding(t: Tick)
    requires ZeroPadded(t.symbol.Chars())
    ensures ZeroPadded(Enrich(t).symbol.Chars())
  {
    var a, b := t.symbol.Chars(), Enrich(t).symbol.Chars();
    assert b == a[7 := NUL];
  }

  /** Zero-padded fields, as the tick factory makes them from names, are told apart by their C strings. */
  lemma PaddedKeysTell(ticks: seq<Tick>)
    requires forall t :: t in ticks ==> ZeroPadded(t.symbol.Chars())
    ensures KeysTell(ticks)
  {
    hide ZeroPadded, CString, Enrich;
    forall x, y | x in EnrichAll(ticks) && y in EnrichAll(ticks) && BookKey(x) == BookKey(y)
      ensures x.symbol == y.symbol
    {
      var i :| 0 <= i < |ticks| && EnrichAll(ticks)[i] == x;
      var j :| 0 <= j < |ticks| && EnrichAll(ticks)[j] == y;
      EnrichKeepsPadding(ticks[i]);
      EnrichKeepsPadding(ticks[j]);
      PaddedSymbolsInjective(x.symbol, y.symbol);
    }
  }

  // ----- Progress of a stage that is stopping -----

  /** What a stopping worker still has to do: its input occupancy, with its position as tie-break. */
  function WorkLeft(c: Channel<Tick>, pc: Pc): nat
    requires c.popped <= |c.pushed|
  {
    var occupancy := |c.pushed| - c.popped;
    match pc
    case Exited => 0
    case Draining => 2 * occupancy + 1
    case Offering(_) => 2 * occupancy + 2
    case Looping(_) => 2 * occupancy + 3
    case Spinning(_) => 2 * occupancy + 4
  }

  datatype Who = TheParser | TheNorm | TheBook

  predicate By(s: Step, who: Who) {
    match who
    case TheParser => ParserStep(s)
    case TheNorm => NormStep(s)
    case TheBook => BookStep(s)
  }

  function PcOf(p: Pipe, who: Who): Pc {
    match who
    case TheParser => p.parser.w.pc
    case TheNorm => p.norm.w.pc
    case TheBook => p.books.pc
  }

  function Work(p: Pipe, who: Who): (n: nat)
    requires ChannelsValid(p)
    ensures n == 0 <==> PcOf(p, who).Exited?
  {
    match who
    case TheParser => WorkLeft(p.raw, p.parser.w.pc)
    case TheNorm => WorkLeft(p.parsed, p.norm.w.pc)
    case TheBook => WorkLeft(p.clean, p.books.pc)
  }

  /** Once stop has been seen, every step of the parser reduces its remaining work, no other step
      adds to it, and until it exits some step of its own is enabled: the drain ends. */
  lemma ParserDrainEnds(p: Pipe, s: Step)
    requires Ledger(p) && Enabled(p, s) && Stopping(p.parser.w.pc)
    ensures Ledger(Next(p, s)) && Stopping(Next(p, s).parser.w.pc)
    ensures var before, after := Work(p, TheParser), Work(Next(p, s), TheParser);
            if ParserStep(s) then after < before else after == before
    ensures !p.parser.w.pc.Exited? ==>
              || Enabled(p, ParserPop(|p.raw.pushed|))
              || Enabled(p, ParserOffer(p.parsed.popped))
              || Enabled(p, ParserSeeStop)
  {
    hide Validate, Judge, LossOk;
    StepKeepsLedger(p, s);
  }

  lemma NormDrainEnds(p: Pipe, s: Step)
    requires Ledger(p) && Enabled(p, s) && Stopping(p.norm.w.pc)
    ensures Ledger(Next(p, s)) && Stopping(Next(p, s).norm.w.pc)
    ensures var before, after := Work(p, TheNorm), Work(Next(p, s), TheNorm);
            if NormStep(s) then after < before else after == before
    ensures !p.norm.w.pc.Exited? ==>
              Enabled(p, NormPop(|p.parsed.pushed|)) || Enabled(p, NormOffer(p.clean.popped)) || Enabled(p, NormSeeStop)
  {
    hide Validate, Judge, LossOk;
    StepKeepsLedger(p, s);
  }

  lemma BookDrainEnds(p: Pipe, s: Step)
    requires Ledger(p) && Enabled(p, s) && Stopping(p.books.pc)
    ensures Ledger(Next(p, s)) && Stopping(Next(p, s).books.pc)
    ensures var before, after := Work(p, TheBook), Work(Next(p, s), TheBook);
            if BookStep(s) then after < before else after == before
    ensures !p.books.pc.Exited? ==> Enabled(p, BookPop(|p.clean.pushed|)) || Enabled(p, BookSeeStop)
  {
    hide Validate, Judge, LossOk;
    StepKeepsLedger(p, s);
  }

  lemma WorkFalls(p: Pipe, s: Step, who: Who)
    requires Ledger(p) && Enabled(p, s) && Stopping(PcOf(p, who))
    ensures Ledger(Next(p, s)) && Stopping(PcOf(Next(p, s), who))
    ensures if By(s, who) then Work(Next(p, s), who) < Work(p, who) else Work(Next(p, s), who) == Work(p, who)
  {
    hide Ledger, Enabled, Next, Stopping;
    match who
    case TheParser => ParserDrainEnds(p, s);
    case TheNorm => NormDrainEnds(p, s);
    case TheBook => BookDrainEnds(p, s);
  }

  /** How many of the steps from `i` up to `j` are a stage's own. */
  function OwnSteps(steps: seq<Step>, who: Who, i: nat, j: nat): nat
    requires i <= j <= |steps|
  {
    if i == j then 0 else OwnSteps(steps, who, i, j - 1) + (if By(steps[j - 1], who) then 1 else 0)
  }

  /** In every run, a stage that has seen stop takes at most as many steps of its own as it has work
      left, and has exited once it has taken that many. */
  lemma {:induction false} StopsWithin(states: seq<Pipe>, steps: seq<Step>, who: Who, i: nat, j: nat)
    requires IsRun(states, steps) && i <= j < |states| && Stopping(PcOf(states[i], who))
    ensures Stopping(PcOf(states[j], who))
    ensures OwnSteps(steps, who, i, j) + Work(states[j], who) <= Work(states[i], who)
    ensures OwnSteps(steps, who, i, j) == Work(states[i], who) ==> PcOf(states[j], who).Exited?
  {
    hide Init, Ledger, Enabled, Next, Stopping, Work, By, PcOf;
    if i < j {
      StopsWithin(states, steps, who, i, j - 1);
      RunStep(states, steps, j - 1);
      WorkFalls(states[j - 1], steps[j - 1], who);
    }
  }

  // ----- The stop order never gets stuck -----

  lemma RunExtends(states: seq<Pipe>, steps: seq<Step>, s: Step)
    requires IsRun(states, steps) && Enabled(states[|steps|], s)
    ensures IsRun(states + [Next(states[|steps|], s)], steps + [s])
  {
    hide Contents, Init, Next, Enabled;
    RunKeepsInv(states, steps, |steps|);
    StepKeepsLedger(states[|steps|], s);
  }

  /** What the stage that is to be stopped next still has to do. */
  function StageWork(p: Pipe): nat
    requires ChannelsValid(p)
  {
    match p.control.joined
    case 0 => if p.feed.alive then 1 else 0
    case 1 => Work(p, TheParser)
    case 2 => Work(p, TheNorm)
    case _ => Work(p, TheBook)
  }

  /** A step towards the end of the stop order: the controller's when it can move, otherwise one of the
      stage it waits for. */
  function Onward(p: Pipe): Step {
    if p.control.requested == p.control.joined then RequestStop
    else if StageExited(p, p.control.joined) then Join
    else
      match p.control.joined
      case 0 => FeedExit
      case 1 =>
        if MayObserveStop(p.parser.w.pc) then ParserSeeStop
        else if Holding(p.parser.w.pc) then ParserOffer(p.parsed.popped)
        else ParserPop(|p.raw.pushed|)
      case 2 =>
        if MayObserveStop(p.norm.w.pc) then NormSeeStop
        else if Holding(p.norm.w.pc) then NormOffer(p.clean.popped)
        else NormPop(|p.parsed.pushed|)
      case _ => if MayObserveStop(p.books.pc) then BookSeeStop else BookPop(|p.clean.pushed|)
  }

  ghost predicate Closer(p: Pipe, q: Pipe)
    requires ChannelsValid(p) && ChannelsValid(q)
  {
    || q.control.joined == p.control.joined + 1
    || (&& q.control.joined == p.control.joined
        && (q.control.requested == p.control.requested + 1
            || (q.control.requested == p.control.requested && StageWork(q) < StageWork(p))))
  }

  /** Seeing stop is itself progress. */
  lemma StopSeenIsCloser(p: Pipe, s: Step)
    requires Ledger(p) && Enabled(p, s) && (s.ParserSeeStop? || s.NormSeeStop? || s.BookSeeStop?)
    ensures Ledger(Next(p, s))
    ensures s.ParserSeeStop? ==> Work(Next(p, s), TheParser) < Work(p, TheParser)
    ensures s.NormSeeStop? ==> Work(Next(p, s), TheNorm) < Work(p, TheNorm)
    ensures s.BookSeeStop? ==> Work(Next(p, s), TheBook) < Work(p, TheBook)
  {
    hide Validate, Judge, LossOk;
    StepKeepsLedger(p, s);
  }

  lemma OnwardIsEnabled(p: Pipe)
    requires Ledger(p) && p.control.joined < 4
    ensures Enabled(p, Onward(p)) && Ledger(Next(p, Onward(p)))
  {
    hide Next, LossOk;
    StepKeepsLedger(p, Onward(p));
  }

  lemma OnwardIsCloser(p: Pipe)
    requires Ledger(p) && p.control.joined < 4
    ensures Enabled(p, Onward(p)) && Ledger(Next(p, Onward(p))) && Closer(p, Next(p, Onward(p)))
  {
    hide Validate, Judge, LossOk, WorkLeft, StageOk, OnStop, OnOffer, OnEmpty, ParserOnTick, NormOnTick, DrainView;
    OnwardIsEnabled(p);
    var s := Onward(p);
    if s.ParserSeeStop? || s.NormSeeStop? || s.BookSeeStop? {
      StopSeenIsCloser(p, s);
    } else if ParserStep(s) {
      ParserDrainEnds(p, s);
    } else if NormStep(s) {
      NormDrainEnds(p, s);
    } else if BookStep(s) {
      BookDrainEnds(p, s);
    }
  }

  /** From every state that any run reaches, the stop order can be carried through to the end: the
      stages never wait for each other in a circle. */
  lemma {:induction false} ShutdownCompletes(states: seq<Pipe>, steps: seq<Step>)
    returns (states': seq<Pipe>, steps': seq<Step>)
    requires IsRun(states, steps)
    ensures IsRun(states', steps') && states <= states' && steps <= steps'
    ensures states'[|steps'|].control.joined == 4
    decreases 4 - states[|steps|].control.joined, 5 - states[|steps|].control.requested, StageWork(states[|steps|])
  {
    hide Contents, Next, Enabled, StageWork, Onward, StageOk;
    var p := states[|steps|];
    RunKeepsInv(states, steps, |steps|);
    if p.control.joined == 4 {
      states', steps' := states, steps;
    } else {
      OnwardIsCloser(p);
      RunExtends(states, steps, Onward(p));
      states', steps' := ShutdownCompletes(states + [Next(p, Onward(p))], steps + [Onward(p)]);
    }
  }
}
