/** The parser stage: enrich, validate, forward. */
module TickParsing {
  import opened Sequences
  import opened Ticks

  /** What the parser lets through. An infinite volume passes. */
  predicate Validate(t: Tick) {
    if t.price.AtMostZero() || t.price.NaN? || t.price.PosInf? || t.price.NegInf? then false
    else if t.volume.AtMostZero() || t.volume.NaN? then false
    else if t.timestamp <= 0 then false
    else if t.side > 2 then false
    else t.symbol.c0 != NUL
  }

  /** Terminate the symbol and clamp the side; nothing else changes. */
  function Enrich(t: Tick): (e: Tick)
    ensures forall i :: 0 <= i < 8 ==> e.symbol.Chars()[i] == if i < 7 then t.symbol.Chars()[i] else NUL
    ensures e.side == (if t.side > 2 then 2 else t.side)
    ensures e.price == t.price && e.volume == t.volume && e.timestamp == t.timestamp
    ensures t.side <= 2 && t.symbol.c7 == NUL ==> e == t
  {
    t.(symbol := t.symbol.(c7 := NUL), side := if t.side < 2 then t.side else 2)
  }

  function EnrichAll(ticks: seq<Tick>): (r: seq<Tick>)
    ensures |r| == |ticks|
  {
    seq(|ticks|, i requires 0 <= i < |ticks| => Enrich(ticks[i]))
  }

  lemma EnrichAllSnoc(ticks: seq<Tick>, x: Tick)
    ensures EnrichAll(ticks + [x]) == EnrichAll(ticks) + [Enrich(x)]
  {
    hide Enrich;
  }

  /** Enriching reaches every clamped side, so only price, volume, time and name can reject. */
  lemma ValidAfterEnrich(t: Tick)
    ensures Validate(Enrich(t)) <==>
              && t.price.Finite? && t.price.value > 0.0
              && (t.volume.PosInf? || (t.volume.Finite? && t.volume.value > 0.0))
              && t.timestamp > 0
              && t.symbol.c0 != NUL
  {
  }

  // ----- One environment poll of the push loop: was stop seen, and was there room? -----

  datatype Poll = Poll(stop: bool, room: bool)

  ghost predicate Decisive(polls: seq<Poll>) {
    exists i :: 0 <= i < |polls| && (polls[i].stop || polls[i].room)
  }

  /** Some poll finds room, and neither it nor an earlier one sees a stop. */
  ghost predicate RoomBeforeStop(polls: seq<Poll>) {
    exists i :: 0 <= i < |polls| && polls[i].room && forall j :: 0 <= j <= i ==> !polls[j].stop
  }

  /** The back-pressure loop pushes if and only if it finds room before it sees a stop. */
  method Spin(polls: seq<Poll>) returns (pushed: bool)
    requires Decisive(polls)
    ensures pushed <==> RoomBeforeStop(polls)
  {
    var i := 0;
    while !polls[i].stop
      invariant 0 <= i < |polls|
      invariant forall j :: 0 <= j < i ==> !polls[j].stop && !polls[j].room
      invariant exists k :: i <= k < |polls| && (polls[k].stop || polls[k].room)
      decreases |polls| - i
    {
      if polls[i].room {
        return true;
      }
      i := i + 1;
    }
    return false;
  }

  // ----- The drain, as a function of which offers found room -----

  /** The ticks a drain of `ticks` forwards when offer `i` finds room exactly if `room[i]`. */
  function Forwarded(ticks: seq<Tick>, room: seq<bool>): (out: seq<Tick>)
    requires |ticks| <= |room|
  {
    if ticks == [] then []
    else
      var t := Enrich(Last(ticks));
      Forwarded(Front(ticks), room) + (if Validate(t) && room[|ticks| - 1] then [t] else [])
  }

  function RejectedCount(ticks: seq<Tick>): nat {
    if ticks == [] then 0
    else RejectedCount(Front(ticks)) + (if Validate(Enrich(Last(ticks))) then 0 else 1)
  }

  /** Valid ticks that met a full output. */
  function LostCount(ticks: seq<Tick>, room: seq<bool>): nat
    requires |ticks| <= |room|
  {
    if ticks == [] then 0
    else LostCount(Front(ticks), room) + (if Validate(Enrich(Last(ticks))) && !room[|ticks| - 1] then 1 else 0)
  }

  /** The valid ones among the enriched ticks: what the parser forwards when nothing is lost. */
  function ValidPart(ticks: seq<Tick>): (valid: seq<Tick>)
    ensures |valid| + RejectedCount(ticks) == |ticks|
  {
    if ticks == [] then []
    else
      var t := Enrich(Last(ticks));
      ValidPart(Front(ticks)) + (if Validate(t) then [t] else [])
  }

  lemma ValidPartSnoc(ticks: seq<Tick>, x: Tick)
    ensures ValidPart(ticks + [x]) == ValidPart(ticks) + (if Validate(Enrich(x)) then [Enrich(x)] else [])
    ensures RejectedCount(ticks + [x]) == RejectedCount(ticks) + (if Validate(Enrich(x)) then 0 else 1)
  {
    assert Front(ticks + [x]) == ticks;
  }

  /** The valid part is exactly the valid ticks of the enriched input, in their order. */
  lemma {:induction false} ValidPartIsSelection(ticks: seq<Tick>)
    ensures Subsequence(ValidPart(ticks), EnrichAll(ticks))
    ensures forall t :: t in ValidPart(ticks) <==> t in EnrichAll(ticks) && Validate(t)
  {
    if ticks != [] {
      hide Subsequence, Validate, Enrich, EnrichAll;
      var f, t := Front(ticks), Enrich(Last(ticks));
      ValidPartIsSelection(f);
      EnrichAllSnoc(f, Last(ticks));
      KeepLast(ValidPart(f), EnrichAll(f), t);
      SkipLast(ValidPart(f), EnrichAll(f), t);
      assert ValidPart(ticks) == ValidPart(f) + [t] || ValidPart(ticks) == ValidPart(f);
    }
  }

  /** The output is an order-preserving selection of the enriched input. */
  lemma {:induction false} DrainKeepsOrder(ticks: seq<Tick>, room: seq<bool>)
    requires |ticks| <= |room|
    ensures Subsequence(Forwarded(ticks, room), EnrichAll(ticks))
  {
    if ticks != [] {
      hide Subsequence, Validate, Enrich, EnrichAll;
      var f, t := Front(ticks), Enrich(Last(ticks));
      DrainKeepsOrder(f, room);
      EnrichAllSnoc(f, Last(ticks));
      var out := Forwarded(f, room);
      KeepLast(out, EnrichAll(f), t);
      SkipLast(out, EnrichAll(f), t);
      assert Forwarded(ticks, room) == out + [t] || Forwarded(ticks, room) == out;
    }
  }

  /** The offer of tick `i` passes: it is valid, and its own offer finds room. */
  ghost predicate PassesAt(ticks: seq<Tick>, room: seq<bool>, i: nat)
    requires |ticks| <= |room|
  {
    i < |ticks| && Validate(Enrich(ticks[i])) && room[i]
  }

  lemma PassesWithinFront(ticks: seq<Tick>, room: seq<bool>)
    requires ticks != [] && |ticks| <= |room|
    ensures forall i: nat :: i < |ticks| - 1 ==> (PassesAt(ticks, room, i) <==> PassesAt(Front(ticks), room, i))
  {
    hide Validate, Enrich;
    assert forall i :: 0 <= i < |ticks| - 1 ==> Front(ticks)[i] == ticks[i];
  }

  /** A drain forwards the enriched ticks at exactly the positions whose own offer passes, whatever became
      of the offers before. */
  lemma {:induction false} ForwardedExactly(ticks: seq<Tick>, room: seq<bool>) returns (positions: seq<nat>)
    requires |ticks| <= |room|
    ensures Picks(positions, Forwarded(ticks, room), EnrichAll(ticks))
    ensures forall i: nat :: i in positions <==> PassesAt(ticks, room, i)
  {
    if ticks == [] {
      positions := [];
    } else {
      hide Picks, Validate, Enrich, EnrichAll;
      var f, n := Front(ticks), |ticks| - 1;
      positions := ForwardedExactly(f, room);
      var passes := Validate(Enrich(ticks[n])) && room[n];
      positions := PicksOn(positions, Forwarded(f, room), EnrichAll(f), Enrich(ticks[n]), passes);
      EnrichAllSnoc(f, ticks[n]);
      PassesWithinFront(ticks, room);
    }
  }

  /** Every input tick is accounted for exactly once, nothing invalid gets through, and with room
      for every offer nothing is lost. */
  lemma {:induction false} DrainAccounts(ticks: seq<Tick>, room: seq<bool>)
    requires |ticks| <= |room|
    ensures |Forwarded(ticks, room)| + RejectedCount(ticks) + LostCount(ticks, room) == |ticks|
    ensures forall t :: t in Forwarded(ticks, room) ==> Validate(t)
    ensures (forall i :: 0 <= i < |ticks| ==> room[i]) ==>
              LostCount(ticks, room) == 0 && Forwarded(ticks, room) == ValidPart(ticks)
  {
    if ticks != [] {
      DrainAccounts(Front(ticks), room);
    }
  }

  /** What the stage shows: its output and its counters. */
  datatype ParserTally = ParserTally(output: seq<Tick>, processed: nat, rejected: nat)

  /** One tick, offered downstream with or without success if it is valid. */
  function ParseStep(s: ParserTally, t: Tick, taken: bool): ParserTally {
    var e := Enrich(t);
    if !Validate(e) then s.(rejected := s.rejected + 1)
    else if taken then ParserTally(s.output + [e], s.processed + 1, s.rejected)
    else s
  }

  function ParseAll(s: ParserTally, ticks: seq<Tick>, room: seq<bool>): ParserTally
    requires |ticks| <= |room|
  {
    if ticks == [] then s else ParseStep(ParseAll(s, Front(ticks), room), Last(ticks), room[|ticks| - 1])
  }

  /** A drain appends what it forwards and counts it, and counts what it rejects. */
  lemma {:induction false} ParseAllMeaning(s: ParserTally, ticks: seq<Tick>, room: seq<bool>)
    requires |ticks| <= |room|
    ensures ParseAll(s, ticks, room) ==
              ParserTally(s.output + Forwarded(ticks, room), s.processed + |Forwarded(ticks, room)|,
                          s.rejected + RejectedCount(ticks))
  {
    hide Validate, Enrich;
    if ticks != [] {
      ParseAllMeaning(s, Front(ticks), room);
    }
  }

  class TickParser {
    var input: seq<Tick>
    var output: seq<Tick>
    var processed: nat
    var rejected: nat

    ghost function State(): ParserTally
      reads this
    {
      ParserTally(output, processed, rejected)
    }

    constructor (input: seq<Tick>)
      ensures this.input == input && State() == ParserTally([], 0, 0)
    {
      this.input, output, processed, rejected := input, [], 0, 0;
    }

    /** Take one tick; a valid one is pushed unless stop is seen first, and is then lost uncounted. */
    method ProcessTick(polls: seq<Poll>) returns (popped: bool)
      requires Decisive(polls)
      modifies this
      ensures popped <==> old(input) != []
      ensures !popped ==> input == old(input) && State() == old(State())
      ensures popped ==>
                && input == old(input)[1..]
                && State() == ParseStep(old(State()), old(input)[0], RoomBeforeStop(polls))
    {
      if input == [] {
        return false;
      }
      var tick := Enrich(input[0]);
      input := input[1..];
      if Validate(tick) {
        var pushed := Spin(polls);
        if pushed {
          output := output + [tick];
          processed := processed + 1;
        }
      } else {
        rejected := rejected + 1;
      }
      return true;
    }

    /** One round of the drain: a single offer, dropped if there is no room. */
    method DrainOne(room: bool)
      requires input != []
      modifies this
      ensures input == old(input)[1..] && State() == ParseStep(old(State()), old(input)[0], room)
    {
      var tick := Enrich(input[0]);
      input := input[1..];
      if Validate(tick) {
        if room {
          output := output + [tick];
          processed := processed + 1;
        }
      } else {
        rejected := rejected + 1;
      }
    }

    method DrainInput(room: seq<bool>)
      requires |input| <= |room|
      modifies this
      ensures input == []
      ensures output == old(output) + Forwarded(old(input), room)
      ensures processed == old(processed) + |Forwarded(old(input), room)|
      ensures rejected == old(rejected) + RejectedCount(old(input))
    {
      hide ParseStep, Forwarded, RejectedCount;
      ghost var all, start := input, State();
      var k := 0;
      while input != []
        invariant 0 <= k <= |all| && input == all[k..]
        invariant State() == ParseAll(start, all[..k], room)
        decreases |input|
      {
        assert Front(all[..k + 1]) == all[..k];
        DrainOne(room[k]);
        k := k + 1;
      }
      assert all[..k] == all;
      ParseAllMeaning(start, all, room);
    }
  }
}
