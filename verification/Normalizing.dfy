/** The normalizer stage: per-symbol deduplication and monotonic timestamps. */
module Normalizing {
  import opened Sequences
  import opened Ticks
  import opened TickParsing

  /** The cached per-symbol state. */
  datatype Cache = Cache(lastTimestamp: map<Symbol, int>, lastTick: map<Symbol, Tick>)

  const EMPTY_CACHE := Cache(map[], map[])

  predicate IsDuplicate(c: Cache, t: Tick) {
    && t.symbol in c.lastTick
    && c.lastTick[t.symbol].price.Equals(t.price)
    && c.lastTick[t.symbol].timestamp == t.timestamp
  }

  predicate IsReordered(c: Cache, t: Tick) {
    t.symbol in c.lastTimestamp && t.timestamp < c.lastTimestamp[t.symbol]
  }

  function UpdateState(c: Cache, t: Tick): Cache {
    Cache(c.lastTimestamp[t.symbol := t.timestamp], c.lastTick[t.symbol := t])
  }

  datatype Verdict = Duplicate | Reordered | Accept

  function Judge(c: Cache, t: Tick): Verdict {
    if IsDuplicate(c, t) then Duplicate else if IsReordered(c, t) then Reordered else Accept
  }

  /** The cache after the greedy filter has seen `history`. */
  function CacheAfter(history: seq<Tick>): Cache {
    if history == [] then EMPTY_CACHE
    else
      var c := CacheAfter(Front(history));
      if Judge(c, Last(history)).Accept? then UpdateState(c, Last(history)) else c
  }

  /** The ticks the greedy filter accepts from `history`. */
  function Accepted(history: seq<Tick>): seq<Tick> {
    if history == [] then []
    else
      Accepted(Front(history)) +
      (if Judge(CacheAfter(Front(history)), Last(history)).Accept? then [Last(history)] else [])
  }

  lemma FilterSnoc(history: seq<Tick>, t: Tick)
    ensures var (c, v) := (CacheAfter(history), Judge(CacheAfter(history), t));
            && CacheAfter(history + [t]) == (if v.Accept? then UpdateState(c, t) else c)
            && Accepted(history + [t]) == Accepted(history) + (if v.Accept? then [t] else [])
  {
    assert Front(history + [t]) == history;
  }

  // ----- The declarative filter: no cache, only the raw history -----

  /** Tick `k` is the most recent tick of the symbol `s` with the timestamp `ts`. */
  ghost predicate IsLatestAt(h: seq<Tick>, s: Symbol, ts: int, k: int) {
    && 0 <= k < |h| && h[k].symbol == s && h[k].timestamp == ts
    && forall j :: k < j < |h| && h[j].symbol == s ==> h[j].timestamp != ts
  }

  ghost predicate IsLate(h: seq<Tick>, t: Tick) {
    exists k :: 0 <= k < |h| && h[k].symbol == t.symbol && h[k].timestamp > t.timestamp
  }

  /** Nothing of this symbol is newer, and the latest tick at this very time had the same price. */
  ghost predicate IsRepeat(h: seq<Tick>, t: Tick) {
    !IsLate(h, t) && exists k :: IsLatestAt(h, t.symbol, t.timestamp, k) && h[k].price.Equals(t.price)
  }

  ghost predicate IsMaxTimestamp(h: seq<Tick>, s: Symbol, ts: int) {
    && (exists k :: 0 <= k < |h| && h[k].symbol == s && h[k].timestamp == ts)
    && (forall k :: 0 <= k < |h| && h[k].symbol == s ==> h[k].timestamp <= ts)
  }

  /** What a cache that accepted `accepted` knows about one symbol of `h`. */
  ghost predicate Reflects(c: Cache, accepted: seq<Tick>, h: seq<Tick>, s: Symbol) {
    && (s in c.lastTimestamp <==> s in c.lastTick)
    && (s in c.lastTick <==> exists k :: 0 <= k < |h| && h[k].symbol == s)
    && (s in c.lastTick ==>
          && c.lastTimestamp[s] == c.lastTick[s].timestamp
          && c.lastTick[s].symbol == s
          && c.lastTick[s] in accepted
          && IsMaxTimestamp(h, s, c.lastTimestamp[s])
          && exists k :: IsLatestAt(h, s, c.lastTimestamp[s], k) && h[k].price == c.lastTick[s].price)
  }

  ghost predicate CacheFacts(h: seq<Tick>, s: Symbol) { Reflects(CacheAfter(h), Accepted(h), h, s) }

  /** The cached timestamp of a symbol is at once the cached tick's and the maximum over everything
      of that symbol seen so far; the cached price is the price of the latest tick at that maximum,
      whether or not that tick was itself accepted. */
  lemma {:induction false} CacheIsHistory(h: seq<Tick>, s: Symbol)
    ensures CacheFacts(h, s)
  {
    if h != [] {
      CacheIsHistory(Front(h), s);
      hide Reflects;
      var c, a, t := CacheAfter(Front(h)), Accepted(Front(h)), Last(h);
      if t.symbol != s {
        OtherStep(c, a, h, s);
      } else if Judge(c, t).Accept? {
        AcceptedStep(c, a, h, s);
      } else {
        DroppedStep(c, a, h, s);
        assert a + [] == a;
      }
    }
  }

  lemma OtherStep(c: Cache, a: seq<Tick>, h: seq<Tick>, s: Symbol)
    requires h != [] && Reflects(c, a, Front(h), s) && Last(h).symbol != s
    ensures Reflects(c, a, h, s) && Reflects(c, a + [], h, s)
    ensures Reflects(UpdateState(c, Last(h)), a + [Last(h)], h, s)
  {
    assert forall k :: 0 <= k < |h| - 1 ==> h[k] == Front(h)[k];
    assert a + [] == a;
    if s in c.lastTick {
      HistoryFactsCarry(h, s, c.lastTimestamp[s], c.lastTick[s].price);
    }
  }

  lemma HistoryFactsCarry(h: seq<Tick>, s: Symbol, m: int, price: Double)
    requires h != [] && Last(h).symbol != s && IsMaxTimestamp(Front(h), s, m)
    requires exists k :: IsLatestAt(Front(h), s, m, k) && Front(h)[k].price == price
    ensures IsMaxTimestamp(h, s, m)
    ensures exists k :: IsLatestAt(h, s, m, k) && h[k].price == price
  {
    var f := Front(h);
    assert forall k :: 0 <= k < |f| ==> h[k] == f[k];
    var k :| IsLatestAt(f, s, m, k) && f[k].price == price;
    assert IsLatestAt(h, s, m, k) && h[k].price == price;
  }

  lemma AcceptedStep(c: Cache, a: seq<Tick>, h: seq<Tick>, s: Symbol)
    requires h != [] && Reflects(c, a, Front(h), s) && Last(h).symbol == s && !IsReordered(c, Last(h))
    ensures Reflects(UpdateState(c, Last(h)), a + [Last(h)], h, s)
  {
    var t, n := Last(h), |h| - 1;
    assert forall k :: 0 <= k < n ==> h[k] == Front(h)[k];
    assert h[n] == t && IsLatestAt(h, s, t.timestamp, n);
  }

  lemma DroppedStep(c: Cache, a: seq<Tick>, h: seq<Tick>, s: Symbol)
    requires h != [] && Reflects(c, a, Front(h), s) && Last(h).symbol == s
    requires IsDuplicate(c, Last(h)) || IsReordered(c, Last(h))
    ensures Reflects(c, a, h, s)
  {
    assert h[|h| - 1].symbol == s;
    DroppedFactsCarry(h, s, c.lastTimestamp[s], c.lastTick[s].price);
  }

  lemma DroppedFactsCarry(h: seq<Tick>, s: Symbol, m: int, price: Double)
    requires h != [] && Last(h).symbol == s && IsMaxTimestamp(Front(h), s, m)
    requires exists k :: IsLatestAt(Front(h), s, m, k) && Front(h)[k].price == price
    requires Last(h).timestamp < m || (Last(h).timestamp == m && Last(h).price == price)
    ensures IsMaxTimestamp(h, s, m)
    ensures exists k :: IsLatestAt(h, s, m, k) && h[k].price == price
  {
    var f := Front(h);
    assert forall k :: 0 <= k < |f| ==> h[k] == f[k];
    var k :| IsLatestAt(f, s, m, k) && f[k].price == price;
    assert h[k].timestamp == m;
    if Last(h).timestamp == m {
      assert IsLatestAt(h, s, m, |f|);
    } else {
      assert IsLatestAt(h, s, m, k);
    }
  }

  /** The declarative verdict. */
  ghost function Fate(h: seq<Tick>, t: Tick): Verdict {
    if IsLate(h, t) then Reordered else if IsRepeat(h, t) then Duplicate else Accept
  }

  /** The greedy filter with cached state decides exactly as the declarative one over history. */
  lemma GreedyIsDeclarative(h: seq<Tick>, t: Tick)
    ensures Judge(CacheAfter(h), t) == Fate(h, t)
  {
    hide CacheAfter, Accepted;
    CacheIsHistory(h, t.symbol);
    var c := CacheAfter(h);
    if t.symbol in c.lastTick {
      var m := c.lastTimestamp[t.symbol];
      var top :| 0 <= top < |h| && h[top].symbol == t.symbol && h[top].timestamp == m;
      var k :| IsLatestAt(h, t.symbol, m, k) && h[k].price == c.lastTick[t.symbol].price;
      assert IsLate(h, t) <==> t.timestamp < m;
      if t.timestamp == m {
        forall j | IsLatestAt(h, t.symbol, m, j) ensures j == k { assert !(j < k) && !(k < j); }
      }
    }
  }

  // ----- The accepted stream -----

  lemma {:induction false} AcceptedIsSubsequence(h: seq<Tick>)
    ensures Subsequence(Accepted(h), h)
  {
    if h != [] {
      AcceptedIsSubsequence(Front(h));
      KeepLast(Accepted(Front(h)), Front(h), Last(h));
      SkipLast(Accepted(Front(h)), Front(h), Last(h));
      assert Accepted(h) == Accepted(Front(h)) + [Last(h)] || Accepted(h) == Accepted(Front(h));
    }
  }

  /** Per symbol, accepted timestamps never decrease. */
  lemma {:induction false} AcceptedIsMonotone(h: seq<Tick>)
    ensures MonotoneBy(RawKey, Accepted(h))
  {
    if h != [] {
      AcceptedIsMonotone(Front(h));
      var a, t := Accepted(Front(h)), Last(h);
      if Judge(CacheAfter(Front(h)), t).Accept? {
        AcceptedAreNotNewer(Front(h), t);
        MonotoneSnoc(RawKey, a, t);
      } else {
        assert Accepted(h) == a;
      }
    }
  }

  lemma AcceptedAreNotNewer(h: seq<Tick>, t: Tick)
    requires Judge(CacheAfter(h), t).Accept?
    ensures forall x :: x in Accepted(h) && RawKey(x) == RawKey(t) ==> x.timestamp <= t.timestamp
  {
    hide Judge, CacheAfter, Accepted, Subsequence;
    GreedyIsDeclarative(h, t);
    AcceptedIsSubsequence(h);
    forall x | x in Accepted(h) && RawKey(x) == RawKey(t) ensures x.timestamp <= t.timestamp {
      MembersCarry(Accepted(h), h, x);
    }
  }

  /** Filtering the accepted stream again changes nothing, and leaves the same cache. */
  lemma {:induction false} FilterIsIdempotent(h: seq<Tick>)
    ensures Accepted(Accepted(h)) == Accepted(h) && CacheAfter(Accepted(h)) == CacheAfter(h)
  {
    if h != [] {
      FilterIsIdempotent(Front(h));
      var a, t := Accepted(Front(h)), Last(h);
      if Judge(CacheAfter(Front(h)), t).Accept? {
        assert Front(a + [t]) == a && Last(a + [t]) == t;
      } else {
        assert Accepted(h) == a;
      }
    }
  }

  /** No accepted tick repeats the price and time of the accepted tick of its symbol before it. */
  lemma NoAcceptedRepeat(h: seq<Tick>, k: nat)
    requires k < |Accepted(h)|
    ensures !IsRepeat(Accepted(h)[..k], Accepted(h)[k])
  {
    FilterIsIdempotent(h);
    AcceptedPrefix(Accepted(h), k);
    GreedyIsDeclarative(Accepted(h)[..k], Accepted(h)[k]);
  }

  lemma {:induction false} AcceptedShrinks(h: seq<Tick>)
    ensures |Accepted(h)| <= |h|
  {
    if h != [] { AcceptedShrinks(Front(h)); }
  }

  /** In a stream that is accepted whole, every tick is accepted after those before it. */
  lemma {:induction false} AcceptedPrefix(a: seq<Tick>, k: nat)
    requires Accepted(a) == a && k < |a|
    ensures Judge(CacheAfter(a[..k]), a[k]).Accept?
    decreases |a|
  {
    AcceptedShrinks(Front(a));
    assert Judge(CacheAfter(Front(a)), Last(a)).Accept?;
    assert Accepted(Front(a)) == Front(a);
    if k < |a| - 1 {
      AcceptedPrefix(Front(a), k);
      assert Front(a)[..k] == a[..k];
    }
  }

  // ----- When an exact duplicate is accepted -----

  /** The same symbol, price and time. */
  predicate SameQuote(x: Tick, y: Tick) {
    x.symbol == y.symbol && x.timestamp == y.timestamp && x.price.Equals(y.price)
  }

  ghost predicate HoldsDuplicate(a: seq<Tick>) {
    exists i, j :: 0 <= i < j < |a| && SameQuote(a[i], a[j])
  }

  /** The price at `i` comes back at `k` after a different price at `j`, all at one time of one symbol,
      with nothing newer of that symbol before `k`. */
  ghost predicate ReturnsAt(h: seq<Tick>, i: int, j: int, k: int) {
    && 0 <= i < j < k < |h|
    && SameQuote(h[i], h[k])
    && h[j].symbol == h[k].symbol && h[j].timestamp == h[k].timestamp && !h[j].price.Equals(h[k].price)
    && forall n :: 0 <= n < k && h[n].symbol == h[k].symbol ==> h[n].timestamp <= h[k].timestamp
  }

  ghost predicate PriceReturns(h: seq<Tick>) { exists i, j, k :: ReturnsAt(h, i, j, k) }

  lemma {:induction false} LatestExists(h: seq<Tick>, s: Symbol, ts: int, i: nat) returns (k: nat)
    requires i < |h| && h[i].symbol == s && h[i].timestamp == ts
    ensures i <= k && IsLatestAt(h, s, ts, k)
    decreases |h| - i
  {
    k := i;
    if j :| i < j < |h| && h[j].symbol == s && h[j].timestamp == ts {
      k := LatestExists(h, s, ts, j);
    }
  }

  /** An accepted tick that equals an earlier one was separated from it by a different price. */
  lemma SeparatedByAnother(h: seq<Tick>, t: Tick, i: nat)
    requires Fate(h, t).Accept? && i < |h| && SameQuote(h[i], t)
    ensures PriceReturns(h + [t])
  {
    var k := LatestExists(h, t.symbol, t.timestamp, i);
    var all := h + [t];
    assert forall n :: 0 <= n < |h| ==> all[n] == h[n];
    assert ReturnsAt(all, i, k, |h|);
  }

  lemma {:induction false} DuplicateNeedsReturn(h: seq<Tick>)
    requires HoldsDuplicate(Accepted(h))
    ensures PriceReturns(h)
  {
    if h != [] {
      var f, t, a := Front(h), Last(h), Accepted(Front(h));
      assert forall n :: 0 <= n < |f| ==> h[n] == f[n];
      if HoldsDuplicate(a) {
        DuplicateNeedsReturn(f);
        var i, j, k :| ReturnsAt(f, i, j, k);
        assert ReturnsAt(h, i, j, k);
      } else {
        var i, j :| 0 <= i < j < |Accepted(h)| && SameQuote(Accepted(h)[i], Accepted(h)[j]);
        assert j == |a| && a[i] in a;
        AcceptedIsSubsequence(f);
        MembersCarry(a, f, a[i]);
        var n :| 0 <= n < |f| && f[n] == a[i];
        GreedyIsDeclarative(f, t);
        SeparatedByAnother(f, t, n);
      }
    }
  }

  lemma {:induction false} AcceptedGrows(p: seq<Tick>, h: seq<Tick>)
    requires p <= h
    ensures Accepted(p) <= Accepted(h)
    decreases |h|
  {
    if |p| < |h| {
      AcceptedGrows(p, Front(h));
    } else {
      assert p == h;
    }
  }

  /** A tick with nothing newer before it is in the accepted stream, itself or an equal one. */
  lemma QuoteWasAccepted(h: seq<Tick>) returns (x: Tick)
    requires h != []
    requires forall n :: 0 <= n < |h| && h[n].symbol == Last(h).symbol ==> h[n].timestamp <= Last(h).timestamp
    ensures x in Accepted(h)
    ensures x.symbol == Last(h).symbol && x.timestamp == Last(h).timestamp && x.price == Last(h).price
  {
    hide Accepted, CacheAfter;
    var t := Last(h);
    CacheIsHistory(h, t.symbol);
    assert h[|h| - 1] == t;
    var c := CacheAfter(h);
    var k :| IsLatestAt(h, t.symbol, c.lastTimestamp[t.symbol], k) && h[k].price == c.lastTick[t.symbol].price;
    assert k == |h| - 1;
    x := c.lastTick[t.symbol];
  }

  lemma FirstAcceptance(h: seq<Tick>, i: int, k: int) returns (n: nat)
    requires 0 <= i < k <= |h|
    requires forall m :: 0 <= m <= i && h[m].symbol == h[i].symbol ==> h[m].timestamp <= h[i].timestamp
    ensures n < |Accepted(h[..k])|
    ensures forall t :: SameQuote(h[i], t) ==> SameQuote(Accepted(h[..k])[n], t)
  {
    hide Accepted;
    var first := h[..i + 1];
    assert forall m :: 0 <= m <= i ==> first[m] == h[m];
    var x := QuoteWasAccepted(first);
    AcceptedGrows(first, h[..k]);
    n :| 0 <= n < |Accepted(first)| && Accepted(first)[n] == x;
  }

  lemma AcceptedAt(before: seq<Tick>, t: Tick, h: seq<Tick>)
    requires before + [t] <= h && Judge(CacheAfter(before), t).Accept?
    ensures Accepted(before) + [t] <= Accepted(h)
  {
    hide Accepted, CacheAfter, Judge;
    FilterSnoc(before, t);
    AcceptedGrows(before + [t], h);
  }

  lemma DuplicateWithin(a: seq<Tick>, n: nat, t: Tick, whole: seq<Tick>)
    requires n < |a| && SameQuote(a[n], t) && a + [t] <= whole
    ensures HoldsDuplicate(whole)
  {
    assert whole[n] == (a + [t])[n] && whole[|a|] == (a + [t])[|a|];
  }

  lemma SecondAcceptance(before: seq<Tick>, n: nat, t: Tick, h: seq<Tick>)
    requires before + [t] <= h && Judge(CacheAfter(before), t).Accept?
    requires n < |Accepted(before)| && SameQuote(Accepted(before)[n], t)
    ensures HoldsDuplicate(Accepted(h))
  {
    hide *;
    AcceptedAt(before, t, h);
    DuplicateWithin(Accepted(before), n, t, Accepted(h));
  }

  /** A returning price is accepted a second time, at its return or before. */
  lemma {:induction false} ReturnIsAccepted(h: seq<Tick>, i: int, j: int, k: int)
    requires ReturnsAt(h, i, j, k)
    ensures HoldsDuplicate(Accepted(h))
    decreases k
  {
    var t, before := h[k], h[..k];
    assert forall n :: 0 <= n < k ==> before[n] == h[n];
    GreedyIsDeclarative(before, t);
    if Judge(CacheAfter(before), t).Accept? {
      var n := FirstAcceptance(h, i, k);
      PrefixSnoc(h, k);
      SecondAcceptance(before, n, t, h);
    } else {
      var m := LatestExists(before, t.symbol, t.timestamp, j);
      assert ReturnsAt(h, i, j, m);
      ReturnIsAccepted(h, i, j, m);
    }
  }

  /** The accepted stream holds two ticks equal in symbol, price and time exactly when a price comes
      back within one timestamp after a different one, before anything newer of its symbol. */
  lemma DuplicateAcceptedIff(h: seq<Tick>)
    ensures HoldsDuplicate(Accepted(h)) <==> PriceReturns(h)
  {
    if HoldsDuplicate(Accepted(h)) {
      DuplicateNeedsReturn(h);
    }
    if i, j, k :| ReturnsAt(h, i, j, k) {
      ReturnIsAccepted(h, i, j, k);
    }
  }

  /** Three ticks of one symbol at one time, the third an exact duplicate of the first, all pass. */
  lemma ExactDuplicatePasses(s: Symbol, ts: int)
    ensures var x, y := Tick(s, Finite(1.0), Finite(1.0), ts, 0), Tick(s, Finite(2.0), Finite(1.0), ts, 0);
            Accepted([x, y, x]) == [x, y, x]
  {
    var x, y := Tick(s, Finite(1.0), Finite(1.0), ts, 0), Tick(s, Finite(2.0), Finite(1.0), ts, 0);
    FilterSnoc([], x);
    FilterSnoc([x], y);
    FilterSnoc([x, y], x);
    assert [] + [x] == [x] && [x] + [y] == [x, y] && [x, y] + [x] == [x, y, x];
  }

  // ----- Books are keyed by C strings, the normalizer by whole fields -----

  ghost predicate KeyInjective(symbols: set<Symbol>) {
    forall a, b :: a in symbols && b in symbols && CString(a.Chars()) == CString(b.Chars()) ==> a == b
  }

  ghost predicate Over(symbols: set<Symbol>, h: seq<Tick>) {
    forall i :: 0 <= i < |h| ==> h[i].symbol in symbols
  }

  /** The time order holds per book exactly for feeds whose symbol fields never share a C string. */
  lemma MonotonePerBookIff(symbols: set<Symbol>)
    ensures KeyInjective(symbols) <==>
              forall h :: Over(symbols, h) ==> MonotoneBy(BookKey, Accepted(h))
  {
    if KeyInjective(symbols) {
      forall h | Over(symbols, h) ensures MonotoneBy(BookKey, Accepted(h)) {
        MonotonePerBook(symbols, h);
      }
    } else {
      var a, b :| a in symbols && b in symbols && CString(a.Chars()) == CString(b.Chars()) && a != b;
      BackwardsAcrossFields(a, b);
      var h := [Tick(a, Finite(1.0), Finite(1.0), 2, 0), Tick(b, Finite(1.0), Finite(1.0), 1, 0)];
      assert Over(symbols, h) && !MonotoneBy(BookKey, Accepted(h));
    }
  }

  lemma MonotonePerBook(symbols: set<Symbol>, h: seq<Tick>)
    requires KeyInjective(symbols) && Over(symbols, h)
    ensures MonotoneBy(BookKey, Accepted(h))
  {
    hide Accepted, Subsequence, CString;
    AcceptedIsMonotone(h);
    AcceptedIsSubsequence(h);
    var a := Accepted(h);
    forall i, j | 0 <= i < j < |a| && BookKey(a[i]) == BookKey(a[j])
      ensures a[i].timestamp <= a[j].timestamp
    {
      MembersCarry(a, h, a[i]);
      MembersCarry(a, h, a[j]);
      assert RawKey(a[i]) == RawKey(a[j]);
    }
  }

  lemma BackwardsAcrossFields(a: Symbol, b: Symbol)
    requires a != b && CString(a.Chars()) == CString(b.Chars())
    ensures var x, y := Tick(a, Finite(1.0), Finite(1.0), 2, 0), Tick(b, Finite(1.0), Finite(1.0), 1, 0);
            Accepted([x, y]) == [x, y] && !MonotoneBy(BookKey, [x, y])
  {
    hide CString;
    var x, y := Tick(a, Finite(1.0), Finite(1.0), 2, 0), Tick(b, Finite(1.0), Finite(1.0), 1, 0);
    FilterSnoc([], x);
    FilterSnoc([x], y);
    assert [] + [x] == [x] && [x] + [y] == [x, y];
    assert BookKey([x, y][0]) == BookKey([x, y][1]);
  }

  // ----- The stage: one tick, a drain, and what they mean for the history -----

  /** What the stage shows: its output, its cache and its counters. */
  datatype Tally = Tally(output: seq<Tick>, cache: Cache, forwarded: nat, deduplicated: nat, reordered: nat)

  /** One tick, offered downstream with or without success if it is accepted. */
  function TallyStep(s: Tally, t: Tick, taken: bool): Tally {
    match Judge(s.cache, t)
    case Duplicate => s.(deduplicated := s.deduplicated + 1)
    case Reordered => s.(reordered := s.reordered + 1)
    case Accept =>
      var updated := s.(cache := UpdateState(s.cache, t));
      if taken then updated.(output := s.output + [t], forwarded := s.forwarded + 1) else updated
  }

  /** A drain of `ticks` when offer `i` finds room exactly if `room[i]`. */
  function DrainOf(s: Tally, ticks: seq<Tick>, room: seq<bool>): Tally
    requires |ticks| <= |room|
  {
    if ticks == [] then s else TallyStep(DrainOf(s, Front(ticks), room), Last(ticks), room[|ticks| - 1])
  }

  /** The ticks that pass, judged against history alone. */
  ghost function Passed(history: seq<Tick>, ticks: seq<Tick>, room: seq<bool>): seq<Tick>
    requires |ticks| <= |room|
  {
    if ticks == [] then []
    else
      Passed(history, Front(ticks), room) +
      (if Fate(history + Front(ticks), Last(ticks)).Accept? && room[|ticks| - 1] then [Last(ticks)] else [])
  }

  /** The offer of tick `i` passes: history accepts it, and its own offer finds room. */
  ghost predicate AcceptedWithRoom(history: seq<Tick>, ticks: seq<Tick>, room: seq<bool>, i: nat)
    requires |ticks| <= |room|
  {
    i < |ticks| && Fate(history + ticks[..i], ticks[i]).Accept? && room[i]
  }

  lemma AcceptedWithinFront(history: seq<Tick>, ticks: seq<Tick>, room: seq<bool>)
    requires ticks != [] && |ticks| <= |room|
    ensures forall i: nat :: i < |ticks| - 1 ==>
              (AcceptedWithRoom(history, ticks, room, i) <==> AcceptedWithRoom(history, Front(ticks), room, i))
  {
    hide Fate;
    forall i: nat | i < |ticks| - 1
      ensures AcceptedWithRoom(history, ticks, room, i) <==> AcceptedWithRoom(history, Front(ticks), room, i)
    {
      assert ticks[..i] == Front(ticks)[..i];
    }
  }

  /** A drain passes the ticks at exactly the positions whose own offer passes, whatever became of the
      offers before. */
  lemma {:induction false} PassedExactly(history: seq<Tick>, ticks: seq<Tick>, room: seq<bool>)
    returns (positions: seq<nat>)
    requires |ticks| <= |room|
    ensures Picks(positions, Passed(history, ticks, room), ticks)
    ensures forall i: nat :: i in positions <==> AcceptedWithRoom(history, ticks, room, i)
  {
    if ticks == [] {
      positions := [];
    } else {
      hide Picks, Fate;
      var f, n := Front(ticks), |ticks| - 1;
      positions := PassedExactly(history, f, room);
      assert ticks[..n] == f;
      var passes := Fate(history + f, ticks[n]).Accept? && room[n];
      positions := PicksOn(positions, Passed(history, f, room), f, ticks[n], passes);
      AcceptedWithinFront(history, ticks, room);
    }
  }

  ghost function CountFate(history: seq<Tick>, ticks: seq<Tick>, v: Verdict): nat {
    if ticks == [] then 0
    else CountFate(history, Front(ticks), v) + (if Fate(history + Front(ticks), Last(ticks)) == v then 1 else 0)
  }

  lemma FateSnoc(history: seq<Tick>, t: Tick, v: Verdict)
    ensures CountFate([], history + [t], v) ==
              CountFate([], history, v) + (if Judge(CacheAfter(history), t) == v then 1 else 0)
  {
    hide Fate, CacheAfter, Judge;
    assert Front(history + [t]) == history && [] + history == history;
    GreedyIsDeclarative(history, t);
  }

  /** `r` is what draining `ticks` after `history` makes of `s`, by the declarative filter. */
  ghost predicate DrainsTo(history: seq<Tick>, s: Tally, ticks: seq<Tick>, room: seq<bool>, r: Tally)
    requires |ticks| <= |room|
  {
    && r.cache == CacheAfter(history + ticks)
    && r.output == s.output + Passed(history, ticks, room)
    && r.forwarded == s.forwarded + |Passed(history, ticks, room)|
    && r.deduplicated == s.deduplicated + CountFate(history, ticks, Duplicate)
    && r.reordered == s.reordered + CountFate(history, ticks, Reordered)
  }

  /** A stage whose cache reflects `history` drains `ticks` exactly as the declarative filter says:
      cache, output and every counter. */
  lemma {:induction false} DrainMeaning(history: seq<Tick>, s: Tally, ticks: seq<Tick>, room: seq<bool>)
    requires s.cache == CacheAfter(history) && |ticks| <= |room|
    ensures DrainsTo(history, s, ticks, room, DrainOf(s, ticks, room))
  {
    if ticks == [] {
      assert history + ticks == history;
    } else {
      DrainMeaning(history, s, Front(ticks), room);
      DrainsToStep(history, s, ticks, room, DrainOf(s, Front(ticks), room));
    }
  }

  lemma DrainsToStep(history: seq<Tick>, s: Tally, ticks: seq<Tick>, room: seq<bool>, r: Tally)
    requires ticks != [] && |ticks| <= |room| && DrainsTo(history, s, Front(ticks), room, r)
    ensures DrainsTo(history, s, ticks, room, TallyStep(r, Last(ticks), room[|ticks| - 1]))
  {
    hide Fate, CacheAfter, TallyStep;
    var f, t := Front(ticks), Last(ticks);
    var fate := Fate(history + f, t);
    TallyMeaning(history + f, r, t, room[|f|], fate);
    assert history + ticks == history + f + [t];
    var more := if fate.Accept? && room[|f|] then [t] else [];
    assert Passed(history, ticks, room) == Passed(history, f, room) + more;
    assert s.output + (Passed(history, f, room) + more) == s.output + Passed(history, f, room) + more;
  }

  lemma TallyMeaning(history: seq<Tick>, s: Tally, t: Tick, taken: bool, fate: Verdict)
    requires s.cache == CacheAfter(history) && fate == Fate(history, t)
    ensures var r := TallyStep(s, t, taken);
            && r.cache == CacheAfter(history + [t])
            && r.output == s.output + (if fate.Accept? && taken then [t] else [])
            && r.forwarded == s.forwarded + (if fate.Accept? && taken then 1 else 0)
            && r.deduplicated == s.deduplicated + (if fate.Duplicate? then 1 else 0)
            && r.reordered == s.reordered + (if fate.Reordered? then 1 else 0)
  {
    GreedyIsDeclarative(history, t);
    FilterSnoc(history, t);
  }

  /** Forwarded, deduplicated, reordered and lost partition the drained ticks. */
  lemma {:induction false} DrainPartition(history: seq<Tick>, ticks: seq<Tick>, room: seq<bool>)
    requires |ticks| <= |room|
    ensures CountFate(history, ticks, Duplicate) + CountFate(history, ticks, Reordered) +
            CountFate(history, ticks, Accept) == |ticks|
    ensures |Passed(history, ticks, room)| <= CountFate(history, ticks, Accept)
    ensures (forall i :: 0 <= i < |ticks| ==> room[i]) ==>
              |Passed(history, ticks, room)| == CountFate(history, ticks, Accept)
  {
    if ticks != [] {
      DrainPartition(history, Front(ticks), room);
    }
  }

  class Normalizer {
    var input: seq<Tick>
    var output: seq<Tick>
    var lastTimestamp: map<Symbol, int>
    var lastTick: map<Symbol, Tick>
    var forwarded: nat
    var deduplicated: nat
    var reordered: nat

    ghost function State(): Tally
      reads this
    {
      Tally(output, Cache(lastTimestamp, lastTick), forwarded, deduplicated, reordered)
    }

    constructor (input: seq<Tick>)
      ensures this.input == input && State() == Tally([], CacheAfter([]), 0, 0, 0)
    {
      this.input, output := input, [];
      lastTimestamp, lastTick := map[], map[];
      forwarded, deduplicated, reordered := 0, 0, 0;
    }

    method Update(tick: Tick)
      modifies this`lastTimestamp, this`lastTick
      ensures Cache(lastTimestamp, lastTick) == UpdateState(old(Cache(lastTimestamp, lastTick)), tick)
    {
      lastTimestamp := lastTimestamp[tick.symbol := tick.timestamp];
      lastTick := lastTick[tick.symbol := tick];
    }

    /** Take one tick. An accepted one updates the state before it is offered downstream, and is
        lost uncounted if stop is seen before there is room. */
    method ProcessTick(polls: seq<Poll>) returns (popped: bool)
      requires Decisive(polls)
      modifies this
      ensures popped <==> old(input) != []
      ensures !popped ==> input == old(input) && State() == old(State())
      ensures popped ==>
                && input == old(input)[1..]
                && State() == TallyStep(old(State()), old(input)[0], RoomBeforeStop(polls))
    {
      if input == [] {
        return false;
      }
      var tick := input[0];
      input := input[1..];
      if IsDuplicate(Cache(lastTimestamp, lastTick), tick) {
        deduplicated := deduplicated + 1;
        return true;
      }
      if IsReordered(Cache(lastTimestamp, lastTick), tick) {
        reordered := reordered + 1;
        return true;
      }
      Update(tick);
      var pushed := Spin(polls);
      if pushed {
        output := output + [tick];
        forwarded := forwarded + 1;
      }
      return true;
    }

    /** One round of the drain: a single offer, dropped if there is no room. */
    method DrainOne(room: bool)
      requires input != []
      modifies this
      ensures input == old(input)[1..] && State() == TallyStep(old(State()), old(input)[0], room)
    {
      var tick := input[0];
      input := input[1..];
      if IsDuplicate(Cache(lastTimestamp, lastTick), tick) {
        deduplicated := deduplicated + 1;
        return;
      }
      if IsReordered(Cache(lastTimestamp, lastTick), tick) {
        reordered := reordered + 1;
        return;
      }
      Update(tick);
      if room {
        output := output + [tick];
        forwarded := forwarded + 1;
      }
    }

    method DrainInput(room: seq<bool>)
      requires |input| <= |room|
      modifies this
      ensures input == []
      ensures State() == DrainOf(old(State()), old(input), room)
    {
      hide TallyStep;
      ghost var all, start := input, State();
      var k := 0;
      while input != []
        invariant 0 <= k <= |all| && input == all[k..]
        invariant State() == DrainOf(start, all[..k], room)
        decreases |input|
      {
        assert Front(all[..k + 1]) == all[..k];
        DrainOne(room[k]);
        k := k + 1;
      }
      assert all[..k] == all;
    }
  }
}
