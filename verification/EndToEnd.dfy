/** The pipeline and the books together: what the books become from what the feed published. */
module EndToEnd {
  import opened Sequences
  import opened Ticks
  import opened TickParsing
  import opened Normalizing
  import opened OrderBooks
  import opened BookProcessing
  import BookStage
  import PipelineRuns
  import Pipelines

  /** A published tick that the parser rejects, or whose volume the book stage can convert. */
  predicate Convertible(t: Tick) {
    Validate(Enrich(t)) ==> t.volume.Finite? && t.volume.value < VOLUME_LIMIT
  }

  lemma ValidIsBookable(t: Tick)
    requires Convertible(t) && Validate(Enrich(t))
    ensures Bookable(Enrich(t))
  {
  }

  lemma AppliedIsBookable(applied: seq<Tick>, published: seq<Tick>, t: Tick)
    requires Subsequence(applied, EnrichAll(published)) && t in applied && Validate(t)
    requires forall p :: p in published ==> Convertible(p)
    ensures Bookable(t)
  {
    hide Subsequence, Validate, Convertible, Bookable, Enrich;
    MembersCarry(applied, EnrichAll(published), t);
    var k :| 0 <= k < |published| && EnrichAll(published)[k] == t;
    ValidIsBookable(published[k]);
  }

  ghost predicate Carries(offers: seq<BookStage.Offer>, ticks: seq<Tick>) {
    |offers| == |ticks| && forall k :: 0 <= k < |ticks| ==> offers[k].tick == ticks[k]
  }

  lemma AppliedFit(states: seq<Pipelines.Pipe>, steps: seq<Pipelines.Step>, i: nat, offers: seq<BookStage.Offer>)
    requires PipelineRuns.IsRun(states, steps) && i < |states| && Carries(offers, states[i].books.applied)
    requires forall t :: t in states[i].raw.pushed ==> Convertible(t)
    ensures BookStage.Fits(offers)
  {
    hide Subsequence, Validate, Convertible, Bookable, EnrichAll, Pipelines.Inv, PipelineRuns.IsRun;
    PipelineRuns.AppliedInOrder(states, steps, i);
    var applied := states[i].books.applied;
    forall k | 0 <= k < |offers| ensures Bookable(offers[k].tick) {
      assert applied[k] in applied;
      AppliedIsBookable(applied, states[i].raw.pushed, applied[k]);
    }
  }

  /** At every moment of every pipeline run, whatever room the outputs had, the books built from the
      applied ticks are sound, one update was counted per tick processed, and the crossed-book guard
      answers the next tick exactly by the refusal rule. */
  lemma BooksAreSoundThroughout(states: seq<Pipelines.Pipe>, steps: seq<Pipelines.Step>, i: nat,
                                w: BookStage.Wiring, offers: seq<BookStage.Offer>, key: string, t: Tick)
    requires PipelineRuns.IsRun(states, steps) && i < |states| && Carries(offers, states[i].books.applied)
    requires forall t :: t in states[i].raw.pushed ==> Convertible(t)
    requires Bookable(t) && t.volume.value >= 1.0
    ensures BookStage.Fits(offers)
    ensures BookStage.Run(w, offers).ticks == states[i].books.booked
            == BookStage.TotalUpdates(BookStage.Run(w, offers).books)
    ensures var l := BookStage.LaneOf(BookStage.Run(w, offers), key);
            && LaneOk(l)
            && (Rejects(l.book, DeltaFor(l, t)) <==> RefusalCase(l, t.price.value))
  {
    hide LaneOk, Rejects, RefusalCase, Bookable, Convertible, PipelineRuns.IsRun, BookStage.Run, BookStage.LaneOf;
    AppliedFit(states, steps, i, offers);
    PipelineRuns.AppliedCount(states, steps, i);
    BookStage.UpdatesAddUp(w, offers);
    BookStage.ReachableStage(w, offers, key, t);
  }

  // ----- Time in the emission log -----

  lemma CarriesFront(offers: seq<BookStage.Offer>, applied: seq<Tick>)
    requires Carries(offers, applied) && applied != []
    ensures offers != [] && Carries(Front(offers), Front(applied)) && Last(offers).tick == Last(applied)
  {
  }

  lemma {:induction false} TicksOfApplied(key: string, offers: seq<BookStage.Offer>, applied: seq<Tick>)
    requires Carries(offers, applied)
    ensures Subsequence(BookStage.TicksOf(key, offers), applied)
    ensures forall t :: t in BookStage.TicksOf(key, offers) ==> BookKey(t) == key
    decreases |applied|
  {
    if applied != [] {
      CarriesFront(offers, applied);
      hide Subsequence, BookKey, Carries;
      TicksOfApplied(key, Front(offers), Front(applied));
      var mine := BookStage.TicksOf(key, Front(offers));
      KeepLast(mine, Front(applied), Last(applied));
      SkipLast(mine, Front(applied), Last(applied));
      assert mine + [] == mine;
    }
  }

  lemma TimesOfShown(log: seq<BookStage.Emission>, b: Book, mine: seq<Tick>, key: string)
    requires AllBookable(mine) && BookStage.FaithfulLog(log, b) && BookStage.CompleteLog(log, mine)
    requires MonotoneBy(BookKey, mine) && forall t :: t in mine ==> BookKey(t) == key
    ensures forall i, j :: 0 <= i < j < |log| ==> log[i].timestamp <= log[j].timestamp
  {
    hide BookKey, BookStage.BookAt, BookStage.DisplayPrice;
    forall i, j | 0 <= i < j < |log| ensures log[i].timestamp <= log[j].timestamp {
      var x, y := log[i].sequence - 1, log[j].sequence - 1;
      assert BookStage.Shows(log[i], mine) && BookStage.Shows(log[j], mine);
      assert BookKey(mine[x]) == BookKey(mine[y]);
    }
  }

  /** At every moment of every pipeline run whose published fields are told apart by their C strings, the
      emissions of each book carry timestamps that never decrease. */
  lemma EmissionTimesNeverDecrease(states: seq<Pipelines.Pipe>, steps: seq<Pipelines.Step>, i: nat,
                                   w: BookStage.Wiring, offers: seq<BookStage.Offer>, key: string)
    requires PipelineRuns.IsRun(states, steps) && i < |states| && Carries(offers, states[i].books.applied)
    requires forall t :: t in states[i].raw.pushed ==> Convertible(t)
    requires PipelineRuns.KeysTell(states[i].raw.pushed) && (w.db || w.signals)
    ensures BookStage.Fits(offers)
    ensures var log := BookStage.LogOf(key, BookStage.Run(w, offers).emitted);
            forall j, k :: 0 <= j < k < |log| ==> log[j].timestamp <= log[k].timestamp
  {
    AppliedFit(states, steps, i, offers);
    PipelineRuns.AppliedInOrderPerBook(states, steps, i);
    hide PipelineRuns.IsRun, PipelineRuns.KeysTell, Convertible, Subsequence, BookKey, Carries,
      BookStage.Run, BookStage.LogOf, BookStage.TicksOf, BookStage.FaithfulLog, BookStage.CompleteLog;
    var mine := BookStage.TicksOf(key, offers);
    TicksOfApplied(key, offers, states[i].books.applied);
    MonotoneCarries(BookKey, mine, states[i].books.applied);
    BookStage.EmissionsAreComplete(w, offers, key);
    BookStage.EmissionsAreFaithful(w, offers, key);
    var s := BookStage.Run(w, offers);
    TimesOfShown(BookStage.LogOf(key, s.emitted), BookStage.LaneOf(s, key).book, mine, key);
  }

  // ----- Scheduling does not show -----

  lemma {:induction false} SameTicksOf(key: string, x: seq<BookStage.Offer>, y: seq<BookStage.Offer>)
    requires |x| == |y| && forall k :: 0 <= k < |x| ==> x[k].tick == y[k].tick
    ensures BookStage.TicksOf(key, x) == BookStage.TicksOf(key, y)
  {
    if x != [] {
      assert forall k :: 0 <= k < |x| - 1 ==> Front(x)[k] == x[k] && Front(y)[k] == y[k];
      assert Last(x) == x[|x| - 1] && Last(y) == y[|y| - 1];
      SameTicksOf(key, Front(x), Front(y));
    }
  }

  /** A run that was stopped and lost nothing. */
  ghost predicate Complete(states: seq<Pipelines.Pipe>, steps: seq<Pipelines.Step>) {
    && PipelineRuns.IsRun(states, steps)
    && states[|steps|].control.joined == 4
    && Pipelines.Lost(states[|steps|].parser.w) == 0 && Pipelines.Lost(states[|steps|].norm.w) == 0
  }

  /** Scheduling, stale views and queue room do not show in the books: any two complete runs over the
      same published ticks apply the same ticks in the same order and end in the same books and
      references, whatever outputs were attached. */
  lemma SameFeedSameBooks(states: seq<Pipelines.Pipe>, steps: seq<Pipelines.Step>, w: BookStage.Wiring,
                          offers: seq<BookStage.Offer>, states': seq<Pipelines.Pipe>, steps': seq<Pipelines.Step>,
                          w': BookStage.Wiring, offers': seq<BookStage.Offer>, key: string)
    requires Complete(states, steps) && Carries(offers, states[|steps|].books.applied)
    requires Complete(states', steps') && Carries(offers', states'[|steps'|].books.applied)
    requires states[|steps|].raw.pushed == states'[|steps'|].raw.pushed
    requires forall t :: t in states[|steps|].raw.pushed ==> Convertible(t)
    ensures states[|steps|].books.applied == states'[|steps'|].books.applied
            == Accepted(ValidPart(states[|steps|].raw.pushed))
    ensures BookStage.Fits(offers) && BookStage.Fits(offers')
    ensures BookStage.LaneOf(BookStage.Run(w, offers), key) == BookStage.LaneOf(BookStage.Run(w', offers'), key)
    ensures key in BookStage.Run(w, offers).books <==> key in BookStage.Run(w', offers').books
  {
    assert |steps| < |states| && |steps'| < |states'|;
    hide Convertible, Accepted, ValidPart, PipelineRuns.IsRun, BookStage.Run, BookStage.LaneOf, Pipelines.Kept,
      BookStage.Fits, BookStage.TicksOf, RunLane;
    PipelineRuns.ShutdownDelivers(states, steps, |steps|);
    PipelineRuns.ShutdownDelivers(states', steps', |steps'|);
    AppliedFit(states, steps, |steps|, offers);
    AppliedFit(states', steps', |steps'|, offers');
    SameTicksOf(key, offers, offers');
    BookStage.SymbolsAreIsolated(w, offers, key);
    BookStage.SymbolsAreIsolated(w', offers', key);
  }
}
