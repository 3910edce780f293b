/** A bounded single-producer / single-consumer FIFO as its two users can observe it.
    Each side owns its own counter and knows the other side's counter only through the
    most recent value it has loaded, which may be stale but never goes backwards. */
module Channels {

  datatype Option<T> = None | Some(value: T)

  datatype Channel<T> = Channel(capacity: nat, pushed: seq<T>, popped: nat, seenHead: nat, seenTail: nat) {

    /** The producer's view of the tail never overstates the free room, and the
        consumer's view of the head never overstates the available items. */
    ghost predicate Valid() {
      && 0 < capacity
      && seenTail <= popped <= seenHead <= |pushed|
      && |pushed| - seenTail <= capacity
    }

    /** The items in flight, oldest first. */
    function Queue(): (q: seq<T>)
      requires popped <= |pushed|
    {
      pushed[popped..]
    }

    predicate LooksFull() { |pushed| - seenTail == capacity }

    predicate LooksEmpty() { popped == seenHead }

    /** A tail the producer may load next: no older than the last one it loaded. */
    predicate TailView(at: nat) { seenTail <= at <= popped }

    /** A head the consumer may load next: no older than the last one it loaded. */
    predicate HeadView(at: nat) { seenHead <= at <= |pushed| }

    function SeeTail(at: nat): (c: Channel<T>)
      requires Valid() && TailView(at)
      ensures c.Valid() && c.Queue() == Queue()
    {
      this.(seenTail := at)
    }

    function SeeHead(at: nat): (c: Channel<T>)
      requires Valid() && HeadView(at)
      ensures c.Valid() && c.Queue() == Queue()
    {
      this.(seenHead := at)
    }

    /** A push that found room appends at the back and stays within the capacity. */
    function Push(x: T): (c: Channel<T>)
      requires Valid() && !LooksFull()
      ensures c.Valid() && c.Queue() == Queue() + [x] && |c.Queue()| <= capacity
    {
      this.(pushed := pushed + [x])
    }

    /** A pop that found an item takes it from the front. */
    function Pop(): (c: Channel<T>)
      requires Valid() && !LooksEmpty()
      ensures c.Valid() && Queue() == [pushed[popped]] + c.Queue()
    {
      this.(popped := popped + 1)
    }
  }

  function EmptyChannel<T>(capacity: nat): (c: Channel<T>)
    requires 0 < capacity
    ensures c.Valid() && c.Queue() == []
  {
    Channel(capacity, [], 0, 0, 0)
  }

  // ----- Whole calls: load the other counter, test, and act -----

  /** One call of the producer: the channel after it, and whether the item was taken. */
  function TryPush<T>(c: Channel<T>, x: T, at: nat): (r: (Channel<T>, bool))
    requires c.Valid() && c.TailView(at)
    ensures r.0.Valid() && r.0.popped == c.popped && r.0.capacity == c.capacity && r.0.seenHead == c.seenHead
    ensures r.1 ==> r.0.pushed == c.pushed + [x]
    ensures !r.1 ==> r.0.pushed == c.pushed && |c.pushed| - at == c.capacity
  {
    var seen := c.SeeTail(at);
    if seen.LooksFull() then (seen, false) else (seen.Push(x), true)
  }

  /** One call of the consumer: the channel after it, and the item if there was one. */
  function TryPop<T>(c: Channel<T>, at: nat): (r: (Channel<T>, Option<T>))
    requires c.Valid() && c.HeadView(at)
    ensures r.0.Valid() && r.0.pushed == c.pushed && r.0.capacity == c.capacity && r.0.seenHead == at
    ensures r.1.None? ==> r.0.popped == c.popped == at
    ensures r.1.Some? ==> c.popped < |c.pushed| && r.1.value == c.pushed[c.popped] && r.0.popped == c.popped + 1
  {
    var seen := c.SeeHead(at);
    if seen.LooksEmpty() then (seen, None) else (seen.Pop(), Some(seen.pushed[seen.popped]))
  }

  /** What one atomic step of a user does to a channel. */
  datatype Act<T> = Stutter | SawTail(at: nat) | SawHead(at: nat) | Pushed(item: T) | Popped(item: T)

  ghost predicate Performs<T>(c: Channel<T>, a: Act<T>, c': Channel<T>) {
    && c.Valid()
    && match a
       case Stutter => c' == c
       case SawTail(at) => c.TailView(at) && c' == c.SeeTail(at)
       case SawHead(at) => c.HeadView(at) && c' == c.SeeHead(at)
       case Pushed(x) => !c.LooksFull() && c' == c.Push(x)
       case Popped(x) => !c.LooksEmpty() && x == c.pushed[c.popped] && c' == c.Pop()
  }
}
