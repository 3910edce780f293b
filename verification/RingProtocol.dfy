/** The lock-free ring buffer as interleaved atomic steps of one producer and one consumer.

    An atomic counter is the sequence of values stored to it (its modification order). A
    thread that loads the other side's counter may read any store at least as recent as the
    last one it read: loads are stale but coherent. The counters hold 64-bit words that wrap.
    `pushed` and `popped` record what has been published and consumed. */
module RingProtocol {
  import opened Words
  import opened Channels

  datatype ProducerPc<T> =
    | ProducerIdle
    | OwnHead(item: T, head: nat)
    | BothLoaded(item: T, head: nat, tail: nat)
    | WillWrite(item: T, head: nat)
    | WillPublish(item: T, head: nat)

  datatype ConsumerPc<T> =
    | ConsumerIdle
    | OwnTail(tail: nat)
    | BothKnown(tail: nat, head: nat)
    | WillRead(tail: nat)
    | WillRelease(tail: nat, out: T)

  datatype Ring<T> = Ring(
    capacity: nat,
    slots: seq<T>,
    headStores: seq<nat>,
    tailStores: seq<nat>,
    seenHead: nat,
    seenTail: nat,
    producer: ProducerPc<T>,
    consumer: ConsumerPc<T>,
    pushed: seq<T>,
    popped: seq<T>)

  datatype Step<T> =
    | LoadOwnHead(item: T)
    | LoadTail(at: nat)
    | TestFull
    | WriteSlot
    | StoreHead
    | LoadOwnTail
    | LoadHead(at: nat)
    | TestEmpty
    | ReadSlot
    | StoreTail
    /** The producer has finished and its completion happens before the consumer's next load. */
    | JoinProducer

  ghost predicate Shaped<T>(r: Ring<T>) {
    && PowerOfTwo(r.capacity) && r.capacity < WORD
    && |r.slots| == r.capacity
    && 0 < |r.headStores| && 0 < |r.tailStores|
  }

  function Init<T>(slots: seq<T>): (r: Ring<T>) {
    Ring(|slots|, slots, [0], [0], 0, 0, ProducerIdle, ConsumerIdle, [], [])
  }

  predicate Enabled<T>(r: Ring<T>, s: Step<T>) {
    match s
    case LoadOwnHead(_) => r.producer.ProducerIdle?
    case LoadTail(at) => r.producer.OwnHead? && r.seenTail <= at < |r.tailStores|
    case TestFull => r.producer.BothLoaded?
    case WriteSlot => r.producer.WillWrite?
    case StoreHead => r.producer.WillPublish?
    case LoadOwnTail => r.consumer.ConsumerIdle?
    case LoadHead(at) => r.consumer.OwnTail? && r.seenHead <= at < |r.headStores|
    case TestEmpty => r.consumer.BothKnown?
    case ReadSlot => r.consumer.WillRead?
    case StoreTail => r.consumer.WillRelease?
    case JoinProducer => r.producer.ProducerIdle? && r.consumer.ConsumerIdle?
  }

  /** One atomic step of `try_push` or `try_pop`. */
  function Next<T>(r: Ring<T>, s: Step<T>): (r': Ring<T>)
    requires Shaped(r) && Enabled(r, s)
    ensures Shaped(r')
  {
    match s
    case LoadOwnHead(item) =>
      r.(producer := OwnHead(item, r.headStores[|r.headStores| - 1]))
    case LoadTail(at) =>
      r.(seenTail := at, producer := BothLoaded(r.producer.item, r.producer.head, r.tailStores[at]))
    case TestFull =>
      if WrapSub(r.producer.head, r.producer.tail) == r.capacity
      then r.(producer := ProducerIdle)
      else r.(producer := WillWrite(r.producer.item, r.producer.head))
    case WriteSlot =>
      r.(slots := r.slots[And(r.producer.head, r.capacity - 1) := r.producer.item],
         producer := WillPublish(r.producer.item, r.producer.head))
    case StoreHead =>
      r.(headStores := r.headStores + [WrapInc(r.producer.head)],
         pushed := r.pushed + [r.producer.item],
         producer := ProducerIdle)
    case LoadOwnTail =>
      r.(consumer := OwnTail(r.tailStores[|r.tailStores| - 1]))
    case LoadHead(at) =>
      r.(seenHead := at, consumer := BothKnown(r.consumer.tail, r.headStores[at]))
    case TestEmpty =>
      if r.consumer.head == r.consumer.tail
      then r.(consumer := ConsumerIdle)
      else r.(consumer := WillRead(r.consumer.tail))
    case ReadSlot =>
      r.(consumer := WillRelease(r.consumer.tail, r.slots[And(r.consumer.tail, r.capacity - 1)]))
    case StoreTail =>
      r.(tailStores := r.tailStores + [WrapInc(r.consumer.tail)],
         popped := r.popped + [r.consumer.out],
         consumer := ConsumerIdle)
    case JoinProducer =>
      r.(seenHead := |r.headStores| - 1)
  }

  // ----- The inductive invariant -----

  ghost predicate CountsUp(stores: seq<nat>, n: nat) {
    |stores| == n + 1 && forall i :: 0 <= i <= n ==> stores[i] == i % WORD
  }

  /** The channel a ring stands for. */
  function Abs<T>(r: Ring<T>): (c: Channel<T>) {
    Channel(r.capacity, r.pushed, |r.popped|, r.seenHead, r.seenTail)
  }

  ghost predicate Counters<T>(r: Ring<T>) {
    && Shaped(r)
    && Abs(r).Valid()
    && CountsUp(r.headStores, |r.pushed|)
    && CountsUp(r.tailStores, |r.popped|)
  }

  ghost predicate LiveSlots<T>(r: Ring<T>)
    requires Shaped(r)
  {
    forall i :: |r.popped| <= i < |r.pushed| ==> r.slots[i % r.capacity] == r.pushed[i]
  }

  ghost predicate ProducerOk<T>(r: Ring<T>)
    requires Shaped(r)
  {
    match r.producer
    case ProducerIdle => true
    case OwnHead(_, head) => head == |r.pushed| % WORD
    case BothLoaded(_, head, tail) => head == |r.pushed| % WORD && tail == r.seenTail % WORD
    case WillWrite(_, head) => head == |r.pushed| % WORD && !Abs(r).LooksFull()
    case WillPublish(item, head) =>
      head == |r.pushed| % WORD && !Abs(r).LooksFull() && r.slots[|r.pushed| % r.capacity] == item
  }

  ghost predicate ConsumerOk<T>(r: Ring<T>) {
    match r.consumer
    case ConsumerIdle => true
    case OwnTail(tail) => tail == |r.popped| % WORD
    case BothKnown(tail, head) => tail == |r.popped| % WORD && head == r.seenHead % WORD
    case WillRead(tail) => tail == |r.popped| % WORD && |r.popped| < r.seenHead
    case WillRelease(tail, out) =>
      tail == |r.popped| % WORD && |r.popped| < r.seenHead <= |r.pushed| && out == r.pushed[|r.popped|]
  }

  ghost predicate Inv<T>(r: Ring<T>) {
    && Counters(r)
    && LiveSlots(r)
    && ProducerOk(r)
    && ConsumerOk(r)
    && r.popped <= r.pushed
  }

  /** What a ring step means for the channel. */
  function Meaning<T>(r: Ring<T>, s: Step<T>): (a: Act<T>)
    requires Shaped(r) && Enabled(r, s)
  {
    match s
    case LoadTail(at) => SawTail(at)
    case LoadHead(at) => SawHead(at)
    case StoreHead => Pushed(r.producer.item)
    case StoreTail => Popped(r.consumer.out)
    case JoinProducer => SawHead(|r.headStores| - 1)
    case _ => Stutter
  }

  lemma TestFullIsExact<T>(r: Ring<T>)
    requires Inv(r) && r.producer.BothLoaded?
    ensures WrapSub(r.producer.head, r.producer.tail) == |r.pushed| - r.seenTail
  {
    WrapSubOfCounters(|r.pushed|, r.seenTail);
  }

  lemma TestEmptyIsExact<T>(r: Ring<T>)
    requires Inv(r) && r.consumer.BothKnown?
    ensures r.consumer.head == r.consumer.tail <==> r.seenHead == |r.popped|
  {
    WrapSubOfCounters(r.seenHead, |r.popped|);
  }

  lemma ProducerStepKeepsInv<T>(r: Ring<T>, s: Step<T>)
    requires Inv(r) && Enabled(r, s) && (s.LoadOwnHead? || s.LoadTail? || s.TestFull? || s.JoinProducer?)
    ensures Inv(Next(r, s)) && Performs(Abs(r), Meaning(r, s), Abs(Next(r, s)))
  {
    if s.TestFull? { TestFullIsExact(r); }
  }

  lemma StoreHeadKeepsInv<T>(r: Ring<T>)
    requires Inv(r) && r.producer.WillPublish?
    ensures Inv(Next(r, StoreHead)) && Performs(Abs(r), Pushed(r.producer.item), Abs(Next(r, StoreHead)))
  {
    WrapIncOfCounter(|r.pushed|);
  }

  lemma WriteSlotKeepsInv<T>(r: Ring<T>)
    requires Inv(r) && r.producer.WillWrite?
    ensures Inv(Next(r, WriteSlot)) && Abs(Next(r, WriteSlot)) == Abs(r)
  {
    SlotOfCounter(|r.pushed|, r.capacity);
    forall i | |r.popped| <= i < |r.pushed|
      ensures i % r.capacity != |r.pushed| % r.capacity
    {
      SlotsDistinct(i, |r.pushed|, r.capacity);
    }
  }

  lemma ConsumerStepKeepsInv<T>(r: Ring<T>, s: Step<T>)
    requires Inv(r) && Enabled(r, s)
    requires s.LoadOwnTail? || s.LoadHead? || s.TestEmpty? || s.ReadSlot? || s.StoreTail?
    ensures Inv(Next(r, s)) && Performs(Abs(r), Meaning(r, s), Abs(Next(r, s)))
  {
    match s
    case TestEmpty => TestEmptyIsExact(r);
    case ReadSlot => SlotOfCounter(|r.popped|, r.capacity);
    case StoreTail => WrapIncOfCounter(|r.popped|);
    case _ =>
  }

  /** Every step keeps the invariant and is a step (or no step) of the bounded FIFO. */
  lemma StepRefinesChannel<T>(r: Ring<T>, s: Step<T>)
    requires Inv(r) && Enabled(r, s)
    ensures Inv(Next(r, s)) && Performs(Abs(r), Meaning(r, s), Abs(Next(r, s)))
  {
    if s.WriteSlot? {
      WriteSlotKeepsInv(r);
    } else if s.StoreHead? {
      StoreHeadKeepsInv(r);
    } else if s.LoadOwnHead? || s.LoadTail? || s.TestFull? || s.JoinProducer? {
      ProducerStepKeepsInv(r, s);
    } else {
      ConsumerStepKeepsInv(r, s);
    }
  }

  // ----- Whole runs -----

  /** `states` is the run that `steps` drives from a fresh buffer. */
  ghost predicate IsRun<T>(states: seq<Ring<T>>, steps: seq<Step<T>>) {
    && |states| == |steps| + 1
    && states[0] == Init(states[0].slots)
    && (forall i :: 0 <= i < |states| ==> Shaped(states[i]))
    && (forall i {:trigger steps[i]} :: 0 <= i < |steps| ==>
          Enabled(states[i], steps[i]) && states[i + 1] == Next(states[i], steps[i]))
  }

  lemma {:induction false} RunKeepsInv<T>(states: seq<Ring<T>>, steps: seq<Step<T>>, i: nat)
    requires IsRun(states, steps) && i < |states|
    ensures Inv(states[i])
  {
    if i > 0 {
      RunKeepsInv(states, steps, i - 1);
      StepRefinesChannel(states[i - 1], steps[i - 1]);
    }
  }

  /** In every run, at every moment: what was popped is a prefix of what was pushed, at most
      `capacity` items are in flight, and each is in the slot its wrapped, masked counter names. */
  lemma RunIsFifo<T>(states: seq<Ring<T>>, steps: seq<Step<T>>, i: nat)
    requires IsRun(states, steps) && i < |states|
    ensures states[i].popped <= states[i].pushed
    ensures |states[i].pushed| - |states[i].popped| <= states[i].capacity == |states[i].slots|
    ensures forall j {:trigger states[i].pushed[j]} :: |states[i].popped| <= j < |states[i].pushed| ==>
              states[i].slots[And(j % WORD, states[i].capacity - 1)] == states[i].pushed[j]
  {
    RunKeepsInv(states, steps, i);
    var r := states[i];
    forall j {:trigger r.pushed[j]} | |r.popped| <= j < |r.pushed|
      ensures r.slots[And(j % WORD, r.capacity - 1)] == r.pushed[j]
    {
      SlotOfCounter(j, r.capacity);
    }
  }

  /** The run of the ring maps, step by step, onto a run of the channel from empty. */
  lemma RunRefinesChannel<T>(states: seq<Ring<T>>, steps: seq<Step<T>>, i: nat)
    requires IsRun(states, steps) && i < |steps|
    ensures Abs(states[0]) == EmptyChannel(|states[0].slots|)
    ensures Performs(Abs(states[i]), Meaning(states[i], steps[i]), Abs(states[i + 1]))
    ensures Abs(states[i + 1]).Valid()
  {
    RunKeepsInv(states, steps, i);
    StepRefinesChannel(states[i], steps[i]);
  }

  /** The two equality tests on wrapped words decide exactly what they should about the last
      counters seen: the distance never exceeds the capacity, so `== capacity` cannot be jumped
      over, and the tail never passes the head seen, so `==` cannot miss emptiness. A failed push
      therefore met a full view, a failed pop an empty one, and neither test errs the other way. */
  lemma EqualityTestsSound<T>(states: seq<Ring<T>>, steps: seq<Step<T>>, i: nat)
    requires IsRun(states, steps) && i < |steps|
    ensures |states[i].pushed| - states[i].seenTail <= states[i].capacity
    ensures |states[i].popped| <= states[i].seenHead
    ensures steps[i].TestFull? ==>
              (states[i + 1].producer.ProducerIdle? <==> |states[i].pushed| - states[i].seenTail == states[i].capacity)
    ensures steps[i].TestEmpty? ==>
              (states[i + 1].consumer.ConsumerIdle? <==> |states[i].popped| == states[i].seenHead)
    ensures steps[i].TestFull? && states[i].seenTail == |states[i].popped| ==>
              (states[i + 1].producer.ProducerIdle? <==> |states[i].pushed| - |states[i].popped| == states[i].capacity)
  {
    RunKeepsInv(states, steps, i);
    if steps[i].TestFull? { TestFullIsExact(states[i]); }
    if steps[i].TestEmpty? { TestEmptyIsExact(states[i]); }
  }

  // ----- Whole calls -----

  /** A channel that lags behind a ring: the same items, with views no newer than the ring's. */
  ghost predicate Lags<T>(c: Channel<T>, r: Ring<T>) {
    && c.Valid() && c.capacity == r.capacity && c.pushed == r.pushed && c.popped == |r.popped|
    && c.seenTail <= r.seenTail && c.seenHead <= r.seenHead
  }

  /** The argument of the call the producer made last, in the first `n` steps. */
  function Argument<T>(steps: seq<Step<T>>, n: nat): Option<T>
    requires n <= |steps|
  {
    if n == 0 then None
    else if steps[n - 1].LoadOwnHead? then Some(steps[n - 1].item)
    else Argument(steps, n - 1)
  }

  /** The arguments of the calls that have published in the first `n` steps, oldest first. */
  function PublishedArguments<T>(steps: seq<Step<T>>, n: nat): seq<T>
    requires n <= |steps|
  {
    if n == 0 then []
    else PublishedArguments(steps, n - 1) +
         (if steps[n - 1].StoreHead? && Argument(steps, n - 1).Some? then [Argument(steps, n - 1).value] else [])
  }

  /** A producer in the middle of a call carries the argument it was called with. */
  lemma {:induction false} CarriesArgument<T>(states: seq<Ring<T>>, steps: seq<Step<T>>, i: nat)
    requires IsRun(states, steps) && i < |states|
    ensures !states[i].producer.ProducerIdle? ==> Argument(steps, i) == Some(states[i].producer.item)
  {
    if i > 0 {
      CarriesArgument(states, steps, i - 1);
      assert Enabled(states[i - 1], steps[i - 1]) && states[i] == Next(states[i - 1], steps[i - 1]);
    }
  }

  lemma RunGoes<T>(states: seq<Ring<T>>, steps: seq<Step<T>>, i: nat)
    requires IsRun(states, steps) && i < |steps|
    ensures Inv(states[i]) && Enabled(states[i], steps[i]) && states[i + 1] == Next(states[i], steps[i])
    ensures !states[i].producer.ProducerIdle? ==> Argument(steps, i) == Some(states[i].producer.item)
  {
    hide Inv, Argument;
    RunKeepsInv(states, steps, i);
    CarriesArgument(states, steps, i);
  }

  lemma NextPushed<T>(r: Ring<T>, s: Step<T>)
    requires Shaped(r) && Enabled(r, s)
    ensures Next(r, s).pushed == r.pushed + (if s.StoreHead? then [r.producer.item] else [])
    ensures s.StoreHead? ==> !r.producer.ProducerIdle?
  {
  }

  /** In every run, what has been pushed is exactly the arguments of the calls that published, in order. */
  lemma {:induction false} PushedAreArguments<T>(states: seq<Ring<T>>, steps: seq<Step<T>>, i: nat)
    requires IsRun(states, steps) && i < |states|
    ensures states[i].pushed == PublishedArguments(steps, i)
  {
    hide Next, Enabled, Argument;
    if i > 0 {
      PushedAreArguments(states, steps, i - 1);
      RunGoes(states, steps, i - 1);
      NextPushed(states[i - 1], steps[i - 1]);
    }
  }

  lemma {:induction false} ArgumentStays<T>(steps: seq<Step<T>>, i: nat, j: nat)
    requires i < j <= |steps| && steps[i].LoadOwnHead? && forall k :: i < k < j ==> !steps[k].LoadOwnHead?
    ensures Argument(steps, j) == Some(steps[i].item)
  {
    if i + 1 < j { ArgumentStays(steps, i, j - 1); }
  }

  /** A call that publishes appends its own argument, however its steps and the consumer's interleave. */
  lemma CallPushesItsArgument<T>(states: seq<Ring<T>>, steps: seq<Step<T>>, i: nat, j: nat, x: T)
    requires IsRun(states, steps) && i < j < |steps| && steps[i] == LoadOwnHead(x) && steps[j].StoreHead?
    requires forall k :: i < k < j ==> !steps[k].LoadOwnHead?
    ensures states[j + 1].pushed == states[j].pushed + [x]
  {
    hide Next, Enabled, Argument;
    RunGoes(states, steps, j);
    NextPushed(states[j], steps[j]);
    ArgumentStays(steps, i, j);
  }

  /** The step that decides a call acts on the channel as the whole call, a push with its argument; all
      other steps do nothing. */
  ghost predicate ActsAsCall<T>(r: Ring<T>, s: Step<T>, r': Ring<T>, arg: Option<T>, c: Channel<T>, c': Channel<T>)
    requires Enabled(r, s) && Lags(c, r)
  {
    match s
    case StoreHead =>
      arg.Some? && c.TailView(r.seenTail) && TryPush(c, arg.value, r.seenTail) == (c', true)
    case TestFull =>
      if !r'.producer.ProducerIdle? then c' == c
      else arg.Some? && c.TailView(r.seenTail) && TryPush(c, arg.value, r.seenTail) == (c', false)
    case StoreTail => c.HeadView(r.seenHead) && TryPop(c, r.seenHead) == (c', Some(r.consumer.out))
    case TestEmpty =>
      if !r'.consumer.ConsumerIdle? then c' == c
      else c.HeadView(r.seenHead) && TryPop(c, r.seenHead) == (c', None)
    case JoinProducer => c' == c.SeeHead(|c.pushed|)
    case _ => c' == c
  }

  lemma StepActsAsCall<T>(r: Ring<T>, s: Step<T>, arg: Option<T>, c: Channel<T>) returns (c': Channel<T>)
    requires Inv(r) && Enabled(r, s) && Lags(c, r)
    requires !r.producer.ProducerIdle? ==> arg == Some(r.producer.item)
    ensures ActsAsCall(r, s, Next(r, s), arg, c, c') && Lags(c', Next(r, s))
  {
    hide LiveSlots, PowerOfTwo;
    c' := c;
    match s
    case StoreHead => c' := TryPush(c, arg.value, r.seenTail).0;
    case TestFull =>
      TestFullIsExact(r);
      if Next(r, s).producer.ProducerIdle? { c' := TryPush(c, arg.value, r.seenTail).0; }
    case StoreTail => c' := TryPop(c, r.seenHead).0;
    case TestEmpty =>
      TestEmptyIsExact(r);
      if Next(r, s).consumer.ConsumerIdle? { c' := TryPop(c, r.seenHead).0; }
    case JoinProducer =>
      assert |r.headStores| == |r.pushed| + 1;
      c' := c.SeeHead(|c.pushed|);
    case _ =>
  }

  /** `c` follows the first `i` steps of a run, call by call. */
  ghost predicate Follows<T>(c: seq<Channel<T>>, states: seq<Ring<T>>, steps: seq<Step<T>>, i: nat) {
    && i <= |steps| < |states| && |c| == i + 1
    && (forall k :: 0 <= k <= i ==> Lags(c[k], states[k]))
    && (forall k {:trigger steps[k]} :: 0 <= k < i ==>
          && Enabled(states[k], steps[k])
          && ActsAsCall(states[k], steps[k], states[k + 1], Argument(steps, k), c[k], c[k + 1]))
  }

  lemma NextCall<T>(states: seq<Ring<T>>, steps: seq<Step<T>>, i: nat, c: seq<Channel<T>>)
    returns (next: Channel<T>)
    requires IsRun(states, steps) && i < |steps| && Follows(c, states, steps, i)
    ensures Enabled(states[i], steps[i]) && Lags(next, states[i + 1])
    ensures ActsAsCall(states[i], steps[i], states[i + 1], Argument(steps, i), c[i], next)
  {
    hide Inv, Next, Lags, ActsAsCall, Enabled, Argument;
    RunGoes(states, steps, i);
    assert Lags(c[i], states[i]);
    next := StepActsAsCall(states[i], steps[i], Argument(steps, i), c[i]);
  }

  lemma FollowOn<T>(c: seq<Channel<T>>, next: Channel<T>, states: seq<Ring<T>>, steps: seq<Step<T>>, i: nat)
    requires i < |steps| && Follows(c, states, steps, i) && Enabled(states[i], steps[i])
    requires ActsAsCall(states[i], steps[i], states[i + 1], Argument(steps, i), c[i], next) && Lags(next, states[i + 1])
    ensures Follows(c + [next], states, steps, i + 1)
  {
    hide Lags, ActsAsCall, Enabled, Argument;
    var longer := c + [next];
    assert longer[i + 1] == next && forall k :: 0 <= k <= i ==> longer[k] == c[k];
  }

  /** The channel starts empty, with the capacity of the ring. */
  ghost predicate Starts<T>(c: seq<Channel<T>>, r: Ring<T>) {
    |c| > 0 && r.capacity > 0 && c[0] == EmptyChannel(r.capacity)
  }

  lemma StartsOn<T>(c: seq<Channel<T>>, next: Channel<T>, r: Ring<T>)
    requires Starts(c, r)
    ensures Starts(c + [next], r)
  {
  }

  lemma StartFollows<T>(states: seq<Ring<T>>, steps: seq<Step<T>>) returns (c: seq<Channel<T>>)
    requires IsRun(states, steps)
    ensures Follows(c, states, steps, 0) && Starts(c, states[0])
  {
    hide Next, Enabled, ActsAsCall, Argument;
    RunKeepsInv(states, steps, 0);
    c := [EmptyChannel(states[0].capacity)];
  }

  /** Every run of the ring is a run of whole calls on a channel: a push acts when it publishes or finds
      the buffer full, a pop when it releases or finds it empty, each with the view it loaded and the
      push with the argument it was called with. */
  lemma {:induction false} RunIsCalls<T>(states: seq<Ring<T>>, steps: seq<Step<T>>, i: nat) returns (c: seq<Channel<T>>)
    requires IsRun(states, steps) && i <= |steps| < |states|
    ensures Follows(c, states, steps, i) && Starts(c, states[0])
  {
    hide *;
    if i == 0 {
      c := StartFollows(states, steps);
    } else {
      var before := RunIsCalls(states, steps, i - 1);
      var next := NextCall(states, steps, i - 1, before);
      FollowOn(before, next, states, steps, i - 1);
      StartsOn(before, next, states[0]);
      c := before + [next];
    }
  }

  // ----- Progress -----

  /** A load may return exactly what coherence allows: anything from the last value seen to the newest. */
  lemma LoadsAreCoherent<T>(r: Ring<T>, at: nat)
    requires Inv(r)
    ensures Enabled(r, LoadTail(at)) <==> r.producer.OwnHead? && Abs(r).TailView(at)
    ensures Enabled(r, LoadHead(at)) <==> r.consumer.OwnTail? && Abs(r).HeadView(at)
  {
  }

  /** An upper bound on the steps left in the call of a side; 0 between calls. */
  function PushLeft<T>(p: ProducerPc<T>): nat {
    match p
    case ProducerIdle => 0
    case OwnHead(_, _) => 4
    case BothLoaded(_, _, _) => 3
    case WillWrite(_, _) => 2
    case WillPublish(_, _) => 1
  }

  function PopLeft<T>(c: ConsumerPc<T>): nat {
    match c
    case ConsumerIdle => 0
    case OwnTail(_) => 4
    case BothKnown(_, _) => 3
    case WillRead(_) => 2
    case WillRelease(_, _) => 1
  }

  predicate PushStep<T>(s: Step<T>) { s.LoadOwnHead? || s.LoadTail? || s.TestFull? || s.WriteSlot? || s.StoreHead? }

  predicate PopStep<T>(s: Step<T>) { s.LoadOwnTail? || s.LoadHead? || s.TestEmpty? || s.ReadSlot? || s.StoreTail? }

  /** Both sides are wait-free: in the middle of a call a side always has a step of its own to take, each
      brings the call nearer its end, and no step of the other side sets it back. */
  lemma CallsAreWaitFree<T>(r: Ring<T>, s: Step<T>)
    requires Inv(r) && Enabled(r, s)
    ensures !r.producer.ProducerIdle? ==> exists own :: PushStep(own) && Enabled(r, own)
    ensures !r.consumer.ConsumerIdle? ==> exists own :: PopStep(own) && Enabled(r, own)
    ensures !r.producer.ProducerIdle? ==>
              var before, after := PushLeft(r.producer), PushLeft(Next(r, s).producer);
              if PushStep(s) then after < before else after == before
    ensures !r.consumer.ConsumerIdle? ==>
              var before, after := PopLeft(r.consumer), PopLeft(Next(r, s).consumer);
              if PopStep(s) then after < before else after == before
  {
    assert Shaped(r);
    hide Inv, LiveSlots, ProducerOk, ConsumerOk;
    if !r.producer.ProducerIdle? { SomePushStep(r); }
    if !r.consumer.ConsumerIdle? { SomePopStep(r); }
  }

  lemma SomePushStep<T>(r: Ring<T>)
    requires Inv(r) && !r.producer.ProducerIdle?
    ensures exists own :: PushStep(own) && Enabled(r, own)
  {
    var own: Step<T> :=
      match r.producer
      case OwnHead(_, _) => LoadTail(r.seenTail)
      case BothLoaded(_, _, _) => TestFull
      case WillWrite(_, _) => WriteSlot
      case _ => StoreHead;
    assert PushStep(own) && Enabled(r, own);
  }

  lemma SomePopStep<T>(r: Ring<T>)
    requires Inv(r) && !r.consumer.ConsumerIdle?
    ensures exists own :: PopStep(own) && Enabled(r, own)
  {
    var own: Step<T> :=
      match r.consumer
      case OwnTail(_) => LoadHead(r.seenHead)
      case BothKnown(_, _) => TestEmpty
      case WillRead(_) => ReadSlot
      case _ => StoreTail;
    assert PopStep(own) && Enabled(r, own);
  }

  // ----- Data races -----

  /** Number of slot reads the consumer has executed, the unreleased one included. */
  function ReadsDone<T>(r: Ring<T>): nat { |r.popped| + (if r.consumer.WillRelease? then 1 else 0) }

  /** Number of slot writes the producer has executed, the unpublished one included. */
  function WritesDone<T>(r: Ring<T>): nat { |r.pushed| + (if r.producer.WillPublish? then 1 else 0) }

  /** Read number `j` happens before everything the producer does next exactly when the producer has
      loaded tail store `j + 1` or later, since that store is a release sequenced after the read;
      symmetrically for writes and head stores. No slot access ever conflicts with an access of the
      other thread that is not so ordered, and the two pending accesses never share a slot. */
  lemma NoDataRace<T>(states: seq<Ring<T>>, steps: seq<Step<T>>, i: nat)
    requires IsRun(states, steps) && i < |states|
    ensures var r := states[i];
            r.producer.WillWrite? ==>
              forall j: nat :: j < ReadsDone(r) && j % r.capacity == |r.pushed| % r.capacity ==> j < r.seenTail
    ensures var r := states[i];
            r.consumer.WillRead? ==>
              forall j: nat :: j < WritesDone(r) && j % r.capacity == |r.popped| % r.capacity ==> j < r.seenHead
    ensures var r := states[i];
            r.producer.WillWrite? && r.consumer.WillRead? ==>
              And(r.producer.head, r.capacity - 1) != And(r.consumer.tail, r.capacity - 1)
  {
    RunKeepsInv(states, steps, i);
    var r := states[i];
    if r.producer.WillWrite? {
      forall j: nat | r.seenTail <= j < ReadsDone(r)
        ensures j % r.capacity != |r.pushed| % r.capacity
      {
        SlotsDistinct(j, |r.pushed|, r.capacity);
      }
    }
    if r.consumer.WillRead? {
      forall j: nat | r.seenHead <= j < WritesDone(r)
        ensures j % r.capacity != |r.popped| % r.capacity
      {
        SlotsDistinct(|r.popped|, j, r.capacity);
      }
    }
    if r.producer.WillWrite? && r.consumer.WillRead? {
      SlotOfCounter(|r.pushed|, r.capacity);
      SlotOfCounter(|r.popped|, r.capacity);
      SlotsDistinct(|r.popped|, |r.pushed|, r.capacity);
    }
  }

  // ----- Draining after the producer has been joined -----

  ghost predicate ConsumerOnly<T>(steps: seq<Step<T>>, from: nat) {
    forall k :: from <= k < |steps| ==>
      steps[k].LoadOwnTail? || steps[k].LoadHead? || steps[k].TestEmpty? || steps[k].ReadSlot? || steps[k].StoreTail?
  }

  /** Once the producer is joined, every later pop reports empty exactly when the buffer is empty:
      stale reads are over, so a drain loop stops only with nothing left behind. */
  lemma {:induction false} JoinedDrainIsExact<T>(states: seq<Ring<T>>, steps: seq<Step<T>>, joined: nat, i: nat)
    requires IsRun(states, steps) && joined < i <= |steps|
    requires steps[joined].JoinProducer? && ConsumerOnly(steps, joined + 1)
    ensures states[i].pushed == states[joined].pushed && states[i].seenHead == |states[i].pushed|
    ensures i < |steps| && steps[i].TestEmpty? ==>
              (states[i + 1].consumer.ConsumerIdle? <==> states[i].popped == states[i].pushed)
  {
    if i > joined + 1 {
      JoinedDrainIsExact(states, steps, joined, i - 1);
    }
    RunKeepsInv(states, steps, i - 1);
    RunKeepsInv(states, steps, i);
    if i < |steps| { EqualityTestsSound(states, steps, i); }
  }

  // ----- Monitoring from a third thread -----

  function Newest(stores: seq<nat>): nat
    requires stores != []
  {
    stores[|stores| - 1]
  }

  lemma MonitoredDifference(h: nat, t: nat, capacity: nat)
    requires capacity < WORD && t - h < WORD - capacity && h - t <= capacity
    ensures WrapSub(h % WORD, t % WORD) <= capacity <==> t <= h
    ensures t <= h ==> WrapSub(h % WORD, t % WORD) == h - t
  {
    if t <= h {
      WrapSubOfCounters(h, t);
    } else {
      WrapSubOfCounters(h + WORD, t);
      assert (h + WORD) % WORD == h % WORD;
    }
  }

  /** `size()` called from a third thread. Its head load reads the store that was newest at some moment
      `m` up to the load. That load synchronises with the store, so the tail load, made by moment `j`,
      reads a store `at` no older than the one the producer had read before it. The answer is a
      possible number of elements exactly when that tail had not passed that head (barring 2^64
      operations between the two). */
  lemma MonitoredSize<T>(states: seq<Ring<T>>, steps: seq<Step<T>>, m: nat, j: nat, at: nat)
    requires IsRun(states, steps) && m <= j < |states|
    requires states[m].seenTail <= at <= |states[j].popped|
    requires at - |states[m].pushed| < WORD - states[m].capacity
    ensures |states[m].headStores| > 0 && |states[j].tailStores| > at
    ensures var size := WrapSub(Newest(states[m].headStores), states[j].tailStores[at]);
            && (size <= states[m].capacity <==> at <= |states[m].pushed|)
            && (at <= |states[m].pushed| ==> size == |states[m].pushed| - at)
  {
    RunKeepsInv(states, steps, m);
    RunKeepsInv(states, steps, j);
    MonitoredDifference(|states[m].pushed|, at, states[m].capacity);
  }

  lemma {:induction false} HeadStays<T>(states: seq<Ring<T>>, steps: seq<Step<T>>, i: nat, j: nat)
    requires IsRun(states, steps) && i <= j < |states| && forall k :: i <= k < j ==> !steps[k].StoreHead?
    ensures states[j].headStores == states[i].headStores && states[j].pushed == states[i].pushed
  {
    if i < j {
      HeadStays(states, steps, i, j - 1);
      assert states[j] == Next(states[j - 1], steps[j - 1]);
    }
  }

  lemma {:induction false} TailStays<T>(states: seq<Ring<T>>, steps: seq<Step<T>>, i: nat, j: nat)
    requires IsRun(states, steps) && i <= j < |states| && forall k :: i <= k < j ==> !steps[k].StoreTail?
    ensures states[j].tailStores == states[i].tailStores && states[j].popped == states[i].popped
  {
    if i < j {
      TailStays(states, steps, i, j - 1);
      assert states[j] == Next(states[j - 1], steps[j - 1]);
    }
  }

  /** `size()` called by the producer, which pushes nothing between the two loads: the answer is within
      the capacity, never below the number of elements at the tail load, and that number exactly when
      the tail load is current. */
  lemma ProducerMonitors<T>(states: seq<Ring<T>>, steps: seq<Step<T>>, i: nat, j: nat, at: nat)
    requires IsRun(states, steps) && i <= j < |states| && forall k :: i <= k < j ==> !steps[k].StoreHead?
    requires Abs(states[j]).TailView(at)
    ensures |states[i].headStores| > 0 && |states[j].tailStores| > at && |states[j].popped| <= |states[j].pushed|
    ensures var size := WrapSub(Newest(states[i].headStores), states[j].tailStores[at]);
            var count := |Abs(states[j]).Queue()|;
            count <= size <= states[j].capacity && (size == count <==> at == |states[j].popped|)
  {
    HeadStays(states, steps, i, j);
    RunKeepsInv(states, steps, j);
    WrapSubOfCounters(|states[j].pushed|, at);
  }

  /** `size()` called by the consumer, which pops nothing between the two loads: the answer never exceeds
      the number of elements at the head load, and is that number exactly when the head load is
      current. */
  lemma ConsumerMonitors<T>(states: seq<Ring<T>>, steps: seq<Step<T>>, i: nat, j: nat, at: nat)
    requires IsRun(states, steps) && i <= j < |states| && forall k :: i <= k < j ==> !steps[k].StoreTail?
    requires Abs(states[i]).HeadView(at)
    ensures |states[i].headStores| > at && |states[j].tailStores| > 0 && |states[i].popped| <= |states[i].pushed|
    ensures var size := WrapSub(states[i].headStores[at], Newest(states[j].tailStores));
            var count := |Abs(states[i]).Queue()|;
            size <= count <= states[i].capacity && (size == count <==> at == |states[i].pushed|)
  {
    TailStays(states, steps, i, j);
    RunKeepsInv(states, steps, i);
    WrapSubOfCounters(at, |states[i].popped|);
  }

  lemma ExtendRun<T>(states: seq<Ring<T>>, steps: seq<Step<T>>, s: Step<T>)
    returns (states': seq<Ring<T>>, steps': seq<Step<T>>)
    requires IsRun(states, steps) && Enabled(states[|steps|], s)
    ensures IsRun(states', steps') && |steps'| == |steps| + 1
    ensures states'[0] == states[0] && states'[|steps'|] == Next(states[|steps|], s)
  {
    states', steps' := states + [Next(states[|steps|], s)], steps + [s];
  }

  lemma {:induction false} RunThrough<T>(states: seq<Ring<T>>, steps: seq<Step<T>>, item: T)
    returns (states': seq<Ring<T>>, steps': seq<Step<T>>)
    requires IsRun(states, steps) && states[|steps|] == Init(states[|steps|].slots)
    ensures IsRun(states', steps') && states'[0] == states[0]
    ensures |states'[|steps'|].popped| == 1
  {
    states', steps' := ExtendRun(states, steps, LoadOwnHead(item));
    states', steps' := ExtendRun(states', steps', LoadTail(0));
    states', steps' := ExtendRun(states', steps', TestFull);
    assert states'[|steps'|].producer == WillWrite(item, 0);
    states', steps' := ExtendRun(states', steps', WriteSlot);
    states', steps' := ExtendRun(states', steps', StoreHead);
    states', steps' := ExtendRun(states', steps', LoadOwnTail);
    states', steps' := ExtendRun(states', steps', LoadHead(1));
    states', steps' := ExtendRun(states', steps', TestEmpty);
    assert states'[|steps'|].consumer == WillRead(0);
    states', steps' := ExtendRun(states', steps', ReadSlot);
    states', steps' := ExtendRun(states', steps', StoreTail);
  }

  /** One item passing through between the two loads makes the monitor report 2^64 - 1 elements,
      so the difference is not always a correct count. */
  lemma MonitorCanMisread<T>(slots: seq<T>, item: T)
    requires PowerOfTwo(|slots|) && |slots| < WORD
    ensures exists states: seq<Ring<T>>, steps: seq<Step<T>> ::
              && IsRun(states, steps) && states[0] == Init(slots)
              && WrapSub(Newest(states[0].headStores), Newest(states[|steps|].tailStores)) == WORD - 1
  {
    assert IsRun([Init(slots)], []);
    var states, steps := RunThrough([Init(slots)], [], item);
    RunKeepsInv(states, steps, |steps|);
  }
}
