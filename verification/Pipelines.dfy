/** The first four stages joined by channels, with cooperative shutdown in producer-first order.

    A step is one queue operation, one stop-flag observation, or one action of the controlling
    thread. Queue views may be stale as Channels allows. A stage that observes its stop flag also
    observes everything its upstream stage did, because the controller joined that stage before it
    raised the flag. */
module Pipelines {
  import opened Sequences
  import opened Ticks
  import opened TickParsing
  import opened Normalizing
  import opened Channels

  /** Where a worker is in its `run` function. */
  datatype Pc =
    | Looping(sawStop: bool)   // before testing the stop flag, which stays seen once seen
    | Spinning(tick: Tick)     // offering a tick under back-pressure
    | Draining                 // popping what is left
    | Offering(tick: Tick)     // offering a drained tick once
    | Exited

  datatype Worker = Worker(pc: Pc, spinLost: nat, drainLost: nat)

  datatype Feed = Feed(alive: bool, published: nat, dropped: nat)

  datatype Parser = Parser(w: Worker, processed: nat, rejected: nat)

  datatype Norm = Norm(w: Worker, cache: Cache, forwarded: nat, deduplicated: nat, reordered: nat)

  datatype Books = Books(pc: Pc, applied: seq<Tick>, booked: nat)

  /** How many stages were asked to stop, and how many were joined, upstream first. */
  datatype Control = Control(requested: nat, joined: nat)

  datatype Pipe = Pipe(raw: Channel<Tick>, parsed: Channel<Tick>, clean: Channel<Tick>,
                       feed: Feed, parser: Parser, norm: Norm, books: Books, control: Control)

  datatype Step =
    | FeedOffer(tick: Tick, at: nat) | FeedExit
    | ParserPop(at: nat) | ParserOffer(at: nat) | ParserSeeStop
    | NormPop(at: nat) | NormOffer(at: nat) | NormSeeStop
    | BookPop(at: nat) | BookSeeStop
    | RequestStop | Join

  const FRESH := Worker(Looping(false), 0, 0)

  function Init(): Pipe {
    Pipe(EmptyChannel(16384), EmptyChannel(4096), EmptyChannel(4096), Feed(true, 0, 0), Parser(FRESH, 0, 0),
         Norm(FRESH, EMPTY_CACHE, 0, 0, 0), Books(Looping(false), [], 0), Control(0, 0))
  }

  // ----- What one step of one worker does -----

  /** A loop that has not seen stop, or a drain, pops. */
  predicate AtPop(pc: Pc) { pc == Looping(false) || pc.Draining? }

  /** A worker with a tick in hand offers it. */
  predicate Holding(pc: Pc) { pc.Spinning? || pc.Offering? }

  predicate MayObserveStop(pc: Pc) { pc.Looping? || pc.Spinning? }

  /** A popped tick is offered until stop is seen in the loop, but only once in the drain. */
  function HoldAt(pc: Pc, t: Tick): Pc { if pc.Draining? then Offering(t) else Spinning(t) }

  /** A drain that finds its input empty ends; a loop goes round. */
  function OnEmpty(w: Worker): Worker { if w.pc.Draining? then w.(pc := Exited) else w }

  /** A spinning worker keeps spinning while the output is full; a drained tick is then dropped. */
  function OnOffer(w: Worker, taken: bool): Worker
    requires Holding(w.pc)
  {
    if taken then w.(pc := if w.pc.Offering? then Draining else Looping(false))
    else if w.pc.Offering? then Worker(Draining, w.spinLost, w.drainLost + 1)
    else w
  }

  /** Seeing stop loses a spinning tick, and sends a loop to the drain. */
  function OnStop(w: Worker): Worker
    requires MayObserveStop(w.pc)
  {
    if w.pc.Spinning? then Worker(Looping(true), w.spinLost + 1, w.drainLost) else w.(pc := Draining)
  }

  function ParserOnTick(s: Parser, raw: Tick): Parser {
    var t := Enrich(raw);
    if Validate(t) then s.(w := s.w.(pc := HoldAt(s.w.pc, t))) else s.(rejected := s.rejected + 1)
  }

  function NormOnTick(s: Norm, t: Tick): Norm {
    match Judge(s.cache, t)
    case Duplicate => s.(deduplicated := s.deduplicated + 1)
    case Reordered => s.(reordered := s.reordered + 1)
    case Accept => s.(cache := UpdateState(s.cache, t), w := s.w.(pc := HoldAt(s.w.pc, t)))
  }

  // ----- The pipeline -----

  predicate StageExited(p: Pipe, stage: nat) {
    if stage == 0 then !p.feed.alive
    else if stage == 1 then p.parser.w.pc.Exited?
    else if stage == 2 then p.norm.w.pc.Exited?
    else p.books.pc.Exited?
  }

  predicate Enabled(p: Pipe, s: Step) {
    match s
    case FeedOffer(_, at) => p.feed.alive && p.raw.TailView(at)
    case FeedExit => p.feed.alive
    case ParserPop(at) => AtPop(p.parser.w.pc) && p.raw.HeadView(at)
    case ParserOffer(at) => Holding(p.parser.w.pc) && p.parsed.TailView(at)
    case ParserSeeStop => MayObserveStop(p.parser.w.pc) && p.control.requested > 1
    case NormPop(at) => AtPop(p.norm.w.pc) && p.parsed.HeadView(at)
    case NormOffer(at) => Holding(p.norm.w.pc) && p.clean.TailView(at)
    case NormSeeStop => MayObserveStop(p.norm.w.pc) && p.control.requested > 2
    case BookPop(at) => AtPop(p.books.pc) && p.clean.HeadView(at)
    case BookSeeStop => p.books.pc.Looping? && p.control.requested > 3
    case RequestStop => p.control.requested == p.control.joined < 4
    case Join => p.control.requested == p.control.joined + 1 && StageExited(p, p.control.joined)
  }

  ghost predicate ChannelsValid(p: Pipe) { p.raw.Valid() && p.parsed.Valid() && p.clean.Valid() }

  function Next(p: Pipe, s: Step): Pipe
    requires ChannelsValid(p) && Enabled(p, s)
  {
    match s
    case FeedOffer(t, at) =>
      var (c, ok) := TryPush(p.raw, t, at);
      p.(raw := c,
         feed := if ok then p.feed.(published := p.feed.published + 1) else p.feed.(dropped := p.feed.dropped + 1))
    case FeedExit => p.(feed := p.feed.(alive := false))
    case ParserPop(at) =>
      var (c, x) := TryPop(p.raw, at);
      p.(raw := c,
         parser := if x.None? then p.parser.(w := OnEmpty(p.parser.w)) else ParserOnTick(p.parser, x.value))
    case ParserOffer(at) =>
      var (c, ok) := TryPush(p.parsed, p.parser.w.pc.tick, at);
      p.(parsed := c,
         parser := Parser(OnOffer(p.parser.w, ok), p.parser.processed + (if ok then 1 else 0), p.parser.rejected))
    case ParserSeeStop => p.(raw := p.raw.SeeHead(|p.raw.pushed|), parser := p.parser.(w := OnStop(p.parser.w)))
    case NormPop(at) =>
      var (c, x) := TryPop(p.parsed, at);
      p.(parsed := c,
         norm := if x.None? then p.norm.(w := OnEmpty(p.norm.w)) else NormOnTick(p.norm, x.value))
    case NormOffer(at) =>
      var (c, ok) := TryPush(p.clean, p.norm.w.pc.tick, at);
      p.(clean := c,
         norm := p.norm.(w := OnOffer(p.norm.w, ok), forwarded := p.norm.forwarded + (if ok then 1 else 0)))
    case NormSeeStop => p.(parsed := p.parsed.SeeHead(|p.parsed.pushed|), norm := p.norm.(w := OnStop(p.norm.w)))
    case BookPop(at) =>
      var (c, x) := TryPop(p.clean, at);
      p.(clean := c,
         books := if x.Some? then Books(p.books.pc, p.books.applied + [x.value], p.books.booked + 1)
                  else if p.books.pc.Draining? then p.books.(pc := Exited)
                  else p.books)
    case BookSeeStop => p.(clean := p.clean.SeeHead(|p.clean.pushed|), books := p.books.(pc := Draining))
    case RequestStop => p.(control := p.control.(requested := p.control.requested + 1))
    case Join => p.(control := p.control.(joined := p.control.joined + 1))
  }

  // ----- Invariants -----

  function Taken(c: Channel<Tick>): seq<Tick>
    requires c.popped <= |c.pushed|
  {
    c.pushed[..c.popped]
  }

  function Pending(pc: Pc): seq<Tick> {
    if Holding(pc) then [pc.tick] else []
  }

  function Lost(w: Worker): nat { w.spinLost + w.drainLost }

  /** Past the point where the stop flag was seen. */
  predicate Stopping(pc: Pc) { !MayObserveStop(pc) || pc == Looping(true) }

  /** A spin loses at most one tick, and only when stopping; a drain loses only once the output has
      been filled. */
  ghost predicate LossOk(w: Worker, sent: nat, capacity: nat) {
    && w.spinLost <= 1
    && (w.spinLost == 1 ==> Stopping(w.pc))
    && (w.drainLost > 0 ==> sent >= capacity && !MayObserveStop(w.pc))
  }

  /** From the drain on, the input view is current; on exit the input is empty. */
  ghost predicate DrainView(c: Channel<Tick>, pc: Pc) {
    && (!MayObserveStop(pc) ==> c.seenHead == |c.pushed|)
    && (pc.Exited? ==> c.popped == |c.pushed|)
  }

  /** The ledger of a forwarding stage: every tick taken was sent, refused, lost, or is in hand. */
  ghost predicate StageOk(c: Channel<Tick>, sent: nat, capacity: nat, w: Worker, refused: nat) {
    && c.Valid() && DrainView(c, w.pc) && LossOk(w, sent, capacity)
    && c.popped == sent + refused + Lost(w) + |Pending(w.pc)|
  }

  /** `kept` is `whole`, in order, without as many ticks as were lost. */
  ghost predicate Kept(kept: seq<Tick>, lost: nat, whole: seq<Tick>) {
    Subsequence(kept, whole) && |kept| + lost == |whole|
  }

  /** The normalizer's cache and counters are those of the filter over everything it took. */
  ghost predicate Judged(taken: seq<Tick>, s: Norm) {
    && s.cache == CacheAfter(taken)
    && s.deduplicated == CountFate([], taken, Duplicate)
    && s.reordered == CountFate([], taken, Reordered)
  }

  ghost predicate ControlOk(p: Pipe) {
    var k := p.control;
    && k.joined <= k.requested <= k.joined + 1 && k.requested <= 4
    && (k.joined > 0 ==> !p.feed.alive)
    && (k.joined > 1 ==> p.parser.w.pc.Exited?)
    && (k.joined > 2 ==> p.norm.w.pc.Exited?)
    && (k.joined > 3 ==> p.books.pc.Exited?)
    && (Stopping(p.parser.w.pc) ==> k.requested > 1)
    && (Stopping(p.norm.w.pc) ==> k.requested > 2)
    && (Stopping(p.books.pc) ==> k.requested > 3)
    && p.feed.published == |p.raw.pushed|
    && p.raw.capacity == 16384 && p.parsed.capacity == 4096 && p.clean.capacity == 4096
  }

  /** The counting half of the invariant. */
  ghost predicate Ledger(p: Pipe) {
    && ControlOk(p)
    && p.parser.processed == |p.parsed.pushed| && p.norm.forwarded == |p.clean.pushed|
    && StageOk(p.raw, |p.parsed.pushed|, p.parsed.capacity, p.parser.w, p.parser.rejected)
    && StageOk(p.parsed, |p.clean.pushed|, p.clean.capacity, p.norm.w, p.norm.deduplicated + p.norm.reordered)
    && p.clean.Valid() && DrainView(p.clean, p.books.pc) && !Holding(p.books.pc)
    && p.books.booked == p.clean.popped
  }

  ghost predicate ParserContents(p: Pipe)
    requires ChannelsValid(p)
  {
    && p.parser.rejected == RejectedCount(Taken(p.raw))
    && Kept(p.parsed.pushed + Pending(p.parser.w.pc), Lost(p.parser.w), ValidPart(Taken(p.raw)))
  }

  ghost predicate NormContents(p: Pipe)
    requires ChannelsValid(p)
  {
    && Judged(Taken(p.parsed), p.norm)
    && Kept(p.clean.pushed + Pending(p.norm.w.pc), Lost(p.norm.w), Accepted(Taken(p.parsed)))
  }

  /** The contents half: what each stage has made of what it took. */
  ghost predicate Contents(p: Pipe)
    requires ChannelsValid(p)
  {
    ParserContents(p) && NormContents(p) && p.books.applied == Taken(p.clean)
  }

  ghost predicate Inv(p: Pipe) { Ledger(p) && Contents(p) }

  // ----- What each operation does to what a worker has kept -----

  lemma KeepsOn(kept: seq<Tick>, lost: nat, whole: seq<Tick>, t: Tick)
    requires Kept(kept, lost, whole)
    ensures Kept(kept + [t], lost, whole + [t])
  {
    KeepLast(kept, whole, t);
  }

  lemma Loses(kept: seq<Tick>, t: Tick, lost: nat, whole: seq<Tick>)
    requires Kept(kept + [t], lost, whole)
    ensures Kept(kept, lost + 1, whole)
  {
    ForgetLast(kept + [t], whole);
    assert Front(kept + [t]) == kept;
  }

  lemma TakeKeeps(out: seq<Tick>, w: Worker, whole: seq<Tick>, t: Tick)
    requires AtPop(w.pc) && Kept(out + Pending(w.pc), Lost(w), whole)
    ensures Kept(out + Pending(HoldAt(w.pc, t)), Lost(w), whole + [t])
    ensures Kept(out + Pending(w.pc), Lost(w), whole + [])
  {
    hide Kept;
    assert out + [] == out && whole + [] == whole;
    KeepsOn(out, Lost(w), whole, t);
  }

  lemma TakeEmptyKeeps(out: seq<Tick>, w: Worker, whole: seq<Tick>)
    requires AtPop(w.pc) && Kept(out + Pending(w.pc), Lost(w), whole)
    ensures Kept(out + Pending(OnEmpty(w).pc), Lost(OnEmpty(w)), whole)
  {
    hide Kept;
  }

  lemma OfferKeeps(out: seq<Tick>, w: Worker, whole: seq<Tick>, taken: bool)
    requires Holding(w.pc) && Kept(out + Pending(w.pc), Lost(w), whole)
    ensures var (sent, v) := (if taken then out + [w.pc.tick] else out, OnOffer(w, taken));
            Kept(sent + Pending(v.pc), Lost(v), whole)
  {
    hide Kept;
    assert out + [w.pc.tick] + [] == out + Pending(w.pc) && out + [] == out;
    Loses(out, w.pc.tick, Lost(w), whole);
  }

  lemma StopKeeps(out: seq<Tick>, w: Worker, whole: seq<Tick>)
    requires MayObserveStop(w.pc) && Kept(out + Pending(w.pc), Lost(w), whole)
    ensures Kept(out + Pending(OnStop(w).pc), Lost(OnStop(w)), whole)
  {
    hide Kept;
    assert out + [] == out;
    if w.pc.Spinning? { Loses(out, w.pc.tick, Lost(w), whole); }
  }

  /** The normalizer's cache and counters follow the filter, whatever becomes of the tick later. */
  lemma JudgeKeeps(taken: seq<Tick>, s: Norm, t: Tick)
    requires Judged(taken, s)
    ensures Judged(taken + [t], NormOnTick(s, t))
    ensures Accepted(taken + [t]) == Accepted(taken) + (if Judge(s.cache, t).Accept? then [t] else [])
  {
    hide CacheAfter, Accepted, Judge, CountFate;
    FilterSnoc(taken, t);
    FateSnoc(taken, t, Duplicate);
    FateSnoc(taken, t, Reordered);
  }

  // ----- What each operation does to a stage's ledger -----

  /** `d` is `c` with possibly more pushed and a newer tail view, as its producer leaves it. */
  ghost predicate Grown(c: Channel<Tick>, d: Channel<Tick>) {
    && d.Valid() && c.pushed <= d.pushed
    && d.popped == c.popped && d.seenHead == c.seenHead && d.capacity == c.capacity
  }

  lemma StagePops(c: Channel<Tick>, at: nat, sent: nat, capacity: nat, w: Worker, refused: nat)
    requires StageOk(c, sent, capacity, w, refused) && AtPop(w.pc) && c.HeadView(at)
    ensures var (d, x) := TryPop(c, at);
            if x.None? then StageOk(d, sent, capacity, OnEmpty(w), refused)
            else && (forall t :: StageOk(d, sent, capacity, w.(pc := HoldAt(w.pc, t)), refused))
                 && StageOk(d, sent, capacity, w, refused + 1)
  {
  }

  lemma TakenAfterPop(c: Channel<Tick>, at: nat)
    requires c.Valid() && c.HeadView(at)
    ensures var (d, x) := TryPop(c, at); Taken(d) == Taken(c) + (if x.None? then [] else [x.value])
  {
  }

  lemma StageOffers(c: Channel<Tick>, sent: nat, capacity: nat, w: Worker, refused: nat)
    requires StageOk(c, sent, capacity, w, refused) && Holding(w.pc)
    ensures StageOk(c, sent + 1, capacity, OnOffer(w, true), refused)
    ensures sent >= capacity ==> StageOk(c, sent, capacity, OnOffer(w, false), refused)
  {
  }

  lemma StageStops(c: Channel<Tick>, sent: nat, capacity: nat, w: Worker, refused: nat)
    requires StageOk(c, sent, capacity, w, refused) && MayObserveStop(w.pc)
    ensures StageOk(c.SeeHead(|c.pushed|), sent, capacity, OnStop(w), refused)
  {
  }

  lemma StageInputGrows(c: Channel<Tick>, d: Channel<Tick>, sent: nat, capacity: nat, w: Worker, refused: nat)
    requires StageOk(c, sent, capacity, w, refused) && Grown(c, d) && (d.pushed == c.pushed || MayObserveStop(w.pc))
    ensures StageOk(d, sent, capacity, w, refused) && Taken(d) == Taken(c)
  {
  }

  // ----- Every step keeps the ledger -----

  predicate FeedStep(s: Step) { s.FeedOffer? || s.FeedExit? }

  predicate ParserStep(s: Step) { s.ParserPop? || s.ParserOffer? || s.ParserSeeStop? }

  predicate NormStep(s: Step) { s.NormPop? || s.NormOffer? || s.NormSeeStop? }

  predicate BookStep(s: Step) { s.BookPop? || s.BookSeeStop? }

  lemma FeedKeepsLedger(p: Pipe, s: Step)
    requires Ledger(p) && Enabled(p, s) && FeedStep(s)
    ensures Ledger(Next(p, s))
  {
    hide Validate, Judge;
    if s.FeedOffer? {
      var d := TryPush(p.raw, s.tick, s.at).0;
      assert Grown(p.raw, d);
      StageInputGrows(p.raw, d, |p.parsed.pushed|, p.parsed.capacity, p.parser.w, p.parser.rejected);
    }
  }

  lemma ParserKeepsLedger(p: Pipe, s: Step)
    requires Ledger(p) && Enabled(p, s) && ParserStep(s)
    ensures Ledger(Next(p, s))
  {
    hide Validate, Judge, TryPop, Enrich;
    var sent, n, w, refused := |p.parsed.pushed|, p.parsed.capacity, p.parser.w, p.parser.rejected;
    match s
    case ParserPop(at) => StagePops(p.raw, at, sent, n, w, refused);
    case ParserOffer(at) =>
      var d := TryPush(p.parsed, w.pc.tick, at).0;
      assert Grown(p.parsed, d);
      var dropped := p.norm.deduplicated + p.norm.reordered;
      StageInputGrows(p.parsed, d, |p.clean.pushed|, p.clean.capacity, p.norm.w, dropped);
      StageOffers(p.raw, sent, n, w, refused);
    case ParserSeeStop => StageStops(p.raw, sent, n, w, refused);
  }

  lemma NormKeepsLedger(p: Pipe, s: Step)
    requires Ledger(p) && Enabled(p, s) && NormStep(s)
    ensures Ledger(Next(p, s))
  {
    hide Validate, Judge, TryPop, IsDuplicate, IsReordered, UpdateState;
    var sent, n, w, refused := |p.clean.pushed|, p.clean.capacity, p.norm.w, p.norm.deduplicated + p.norm.reordered;
    match s
    case NormPop(at) => StagePops(p.parsed, at, sent, n, w, refused);
    case NormOffer(at) => StageOffers(p.parsed, sent, n, w, refused);
    case NormSeeStop => StageStops(p.parsed, sent, n, w, refused);
  }

  lemma StepKeepsLedger(p: Pipe, s: Step)
    requires Ledger(p) && Enabled(p, s)
    ensures Ledger(Next(p, s))
  {
    hide Validate, Judge;
    if FeedStep(s) {
      FeedKeepsLedger(p, s);
    } else if ParserStep(s) {
      ParserKeepsLedger(p, s);
    } else if NormStep(s) {
      NormKeepsLedger(p, s);
    }
  }

  // ----- Every step keeps the contents -----

  lemma ParserKeepsContents(p: Pipe, s: Step, q: Pipe)
    requires Inv(p) && Enabled(p, s) && ParserStep(s) && q == Next(p, s) && ChannelsValid(q)
    ensures ParserContents(q)
  {
    hide Kept, ValidPart, RejectedCount, Validate, Enrich, TryPop, LossOk, DrainView, NormContents;
    var out, w, taken := p.parsed.pushed, p.parser.w, Taken(p.raw);
    match s
    case ParserPop(at) =>
      var x := TryPop(p.raw, at).1;
      TakenAfterPop(p.raw, at);
      assert taken + [] == taken;
      if x.Some? {
        ValidPartSnoc(taken, x.value);
        TakeKeeps(out, w, ValidPart(taken), Enrich(x.value));
      } else {
        TakeEmptyKeeps(out, w, ValidPart(taken));
      }
    case ParserOffer(at) =>
      OfferKeeps(out, w, ValidPart(taken), TryPush(p.parsed, w.pc.tick, at).1);
    case ParserSeeStop =>
      assert Taken(q.raw) == taken;
      StopKeeps(out, w, ValidPart(taken));
  }

  lemma NormKeepsContents(p: Pipe, s: Step, q: Pipe)
    requires Inv(p) && Enabled(p, s) && NormStep(s) && q == Next(p, s) && ChannelsValid(q)
    ensures NormContents(q)
  {
    hide Kept, Accepted, CacheAfter, CountFate, Judge, TryPop, LossOk, DrainView, ParserContents;
    var out, w, taken := p.clean.pushed, p.norm.w, Taken(p.parsed);
    match s
    case NormPop(at) =>
      var x := TryPop(p.parsed, at).1;
      TakenAfterPop(p.parsed, at);
      assert taken + [] == taken;
      if x.Some? {
        JudgeKeeps(taken, p.norm, x.value);
        TakeKeeps(out, w, Accepted(taken), x.value);
      } else {
        TakeEmptyKeeps(out, w, Accepted(taken));
      }
    case NormOffer(at) =>
      OfferKeeps(out, w, Accepted(taken), TryPush(p.clean, w.pc.tick, at).1);
    case NormSeeStop =>
      assert Taken(q.parsed) == taken;
      StopKeeps(out, w, Accepted(taken));
  }

  /** A push into a stage's input leaves what the stage has taken as it was. */
  lemma StepKeepsContents(p: Pipe, s: Step, q: Pipe)
    requires Inv(p) && Enabled(p, s) && q == Next(p, s) && ChannelsValid(q)
    ensures Contents(q)
  {
    hide Kept, Judged, ValidPart, RejectedCount, Accepted, CountFate, Validate, Enrich, Judge, LossOk, DrainView;
    match s
    case FeedOffer(_, _) => assert Taken(q.raw) == Taken(p.raw);
    case ParserPop(_) => ParserKeepsContents(p, s, q);
    case ParserOffer(_) => ParserKeepsContents(p, s, q); assert Taken(q.parsed) == Taken(p.parsed);
    case ParserSeeStop => ParserKeepsContents(p, s, q);
    case NormPop(_) => NormKeepsContents(p, s, q);
    case NormOffer(_) => NormKeepsContents(p, s, q); assert Taken(q.clean) == Taken(p.clean);
    case NormSeeStop => NormKeepsContents(p, s, q);
    case BookPop(at) => TakenAfterPop(p.clean, at); assert Taken(p.clean) + [] == Taken(p.clean);
    case BookSeeStop => assert Taken(q.clean) == Taken(p.clean);
    case _ =>
  }

  lemma StepKeepsInv(p: Pipe, s: Step)
    requires Inv(p) && Enabled(p, s)
    ensures Inv(Next(p, s))
  {
    hide Contents, Next, LossOk, DrainView;
    StepKeepsLedger(p, s);
    StepKeepsContents(p, s, Next(p, s));
  }
}
