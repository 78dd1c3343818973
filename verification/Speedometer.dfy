/** The transfer speed meter: a queue of samples and a running total over a time
    window. Time is in nanoseconds and never runs backwards. */
module Speedometer {
  datatype Entry = Entry(timestamp: nat, value: nat)

  /** The monotone clock behind `Instant::now` and `elapsed`: readings are whatever
      time has come, each at least the one before. */
  class Clock {
    var last: nat
    var readings: seq<nat>

    constructor (readings: seq<nat>)
    {
      last := 0;
      this.readings := readings;
    }

    /** The next reading never lies before an earlier one. */
    method Now() returns (t: nat)
      modifies this
      ensures t == last >= old(last)
    {
      if readings != [] {
        if readings[0] > last { last := readings[0]; }
        readings := readings[1..];
      }
      t := last;
    }
  }

  /** Sum of all sample values. */
  function Sum(es: seq<Entry>): nat {
    if es == [] then 0 else es[0].value + Sum(es[1..])
  }

  predicate Expired(e: Entry, now: nat, window: nat) {
    now - e.timestamp > window
  }

  /** The samples of a history that are no older than the window. */
  function Recent(es: seq<Entry>, now: nat, window: nat): seq<Entry> {
    if es == [] then []
    else if Expired(es[0], now, window) then Recent(es[1..], now, window)
    else [es[0]] + Recent(es[1..], now, window)
  }

  predicate InOrder(es: seq<Entry>, now: nat) {
    && (forall i, j | 0 <= i < j < |es| :: es[i].timestamp <= es[j].timestamp)
    && (forall i | 0 <= i < |es| :: es[i].timestamp <= now)
  }

  lemma {:induction false} SumAppend(es: seq<Entry>, e: Entry)
    ensures Sum(es + [e]) == Sum(es) + e.value
  {
    if es == [] {
      assert ([] + [e])[1..] == [];
    } else {
      assert (es + [e])[1..] == es[1..] + [e];
      SumAppend(es[1..], e);
    }
  }

  /** Once a sample is within the window, all later ones are. */
  lemma {:induction false} RecentFromFirst(es: seq<Entry>, now: nat, window: nat)
    requires InOrder(es, now)
    requires es != [] ==> !Expired(es[0], now, window)
    ensures Recent(es, now, window) == es
  {
    if es != [] {
      RecentFromFirst(es[1..], now, window);
      assert es == [es[0]] + es[1..];
    }
  }

  lemma {:induction false} RecentDrops(es: seq<Entry>, k: nat, now: nat, window: nat)
    requires k <= |es|
    requires forall i | 0 <= i < k :: Expired(es[i], now, window)
    ensures Recent(es, now, window) == Recent(es[k..], now, window)
  {
    if k != 0 {
      RecentDrops(es[1..], k - 1, now, window);
      assert es[1..][k - 1..] == es[k..];
    }
  }

  lemma QueueInOrder(es: seq<Entry>, k: nat, now: nat)
    requires InOrder(es, now) && k <= |es|
    ensures InOrder(es[k..], now)
  {
  }

  /** The first `k` samples have all expired. */
  predicate AllExpired(es: seq<Entry>, k: nat, now: nat, window: nat)
    requires k <= |es|
  {
    forall i | 0 <= i < k :: Expired(es[i], now, window)
  }

  function SaturatingSub(a: nat, b: nat): nat {
    if a >= b then a - b else 0
  }

  /** Bytes per second over a span, clamped to at least a millisecond. */
  function Rate(total: nat, span: int): nat {
    total * 1_000_000_000 / (if span < 1_000_000 then 1_000_000 else span)
  }

  /** Bytes per second, rounded down, over a span of at least a millisecond. */
  lemma RateIs(total: nat, span: int)
    ensures var nanos := if span < 1_000_000 then 1_000_000 else span;
            Rate(total, span) * nanos <= total * 1_000_000_000 < (Rate(total, span) + 1) * nanos
  {
    var nanos := if span < 1_000_000 then 1_000_000 else span;
    var n := total * 1_000_000_000;
    assert n == n / nanos * nanos + n % nanos;
  }

  /** A sample counts as recent as long as it is no older than the window. */
  lemma {:induction false} RecentIff(es: seq<Entry>, now: nat, window: nat, e: Entry)
    ensures e in Recent(es, now, window) <==> e in es && now - e.timestamp <= window
  {
    if es != [] { RecentIff(es[1..], now, window, e); }
  }

  class Speedometer {
    const clock: Clock
    const windowSize: nat
    var queue: seq<Entry>
    var totalValue: nat
    /** Every sample ever entered, and how many of them have been dropped. */
    ghost var history: seq<Entry>
    ghost var dropped: nat

    /** The queue is the history without some expired samples, the total its sum. */
    ghost predicate Valid()
      reads this, clock
    {
      && InOrder(history, clock.last)
      && dropped <= |history| && queue == history[dropped..]
      && AllExpired(history, dropped, clock.last, windowSize)
      && totalValue == Sum(queue)
    }

    constructor (windowSize: nat, clock: Clock)
      ensures Valid() && history == [] && this.windowSize == windowSize && this.clock == clock
    {
      this.clock := clock;
      this.windowSize := windowSize;
      queue, totalValue, history, dropped := [], 0, [], 0;
    }

    /** `entry` */
    method EnterSample(value: nat)
      requires Valid()
      modifies this, clock
      ensures Valid()
      ensures history == old(history) + [Entry(clock.last, value)]
      ensures queue == old(queue) + [Entry(clock.last, value)]
    {
      hide Recent;
      totalValue := totalValue + value;
      var now := clock.Now();
      SumAppend(queue, Entry(now, value));
      queue := queue + [Entry(now, value)];
      history := history + [Entry(now, value)];
    }

    /** `measure`: drop what has expired, reading the clock anew for each sample
        looked at, and estimate the speed over the span of what is left. Afterwards
        the queue is exactly the samples of the whole history no older than the
        window at the last of these readings, and the total is their sum: no
        subtraction saturated. */
    method Measure() returns (speed: nat, now: nat)
      requires Valid()
      modifies this, clock
      ensures Valid() && history == old(history)
      ensures old(clock.last) <= now <= clock.last
      ensures queue == Recent(history, now, windowSize)
      ensures totalValue == Sum(Recent(history, now, windowSize))
      ensures speed == if queue == [] then 0 else Rate(totalValue, clock.last - queue[0].timestamp)
    {
      hide Recent, Sum, Rate;
      now := DropExpired();
      QueueInOrder(history, dropped, now);
      RecentDrops(history, dropped, now, windowSize);
      RecentFromFirst(queue, now, windowSize);
      if queue == [] { return 0, now; }
      var oldest := queue[0].timestamp;
      var read := clock.Now();
      speed := Rate(totalValue, read - oldest);
    }

    method DropExpired() returns (now: nat)
      requires Valid()
      modifies this, clock
      ensures Valid() && history == old(history)
      ensures old(clock.last) <= now == clock.last
      ensures queue == [] || !Expired(queue[0], now, windowSize)
    {
      now := clock.last;
      while queue != []
        invariant Valid() && history == old(history)
        invariant old(clock.last) <= now == clock.last
        decreases |queue|
      {
        var front := queue[0];
        now := clock.Now();
        if now - front.timestamp > windowSize {
          queue := queue[1..];
          totalValue := SaturatingSub(totalValue, front.value);
          dropped := dropped + 1;
        } else {
          break;
        }
      }
    }
  }
}
