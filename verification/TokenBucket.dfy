/** Notion's token bucket. Calls come one after another, since each holds the lock until it is granted; how late a
    sleeper wakes up is a parameter. Time runs in ticks: one token flows in per tick of `period / rate` seconds. */
module TokenBucket {

  /** Tokens left, and the time of the last refill in ticks. */
  datatype Level = Level(tokens: real, lastRefill: real)

  /** A call acquires the lock at `at`; if it sleeps, it wakes `late` later than asked for. */
  datatype Call = Call(at: real, late: real)

  function Refilled(size: int, b: Level, now: real): real {
    var t := b.tokens + (now - b.lastRefill);
    if t < size as real then t else size as real
  }

  /** When the call is granted: at once, or when the missing part of a token has flowed in. */
  function Grant(size: int, b: Level, c: Call): real {
    var t := Refilled(size, b, c.at);
    if t < 1.0 then c.at + (1.0 - t) + c.late else c.at
  }

  /** A call that slept empties the bucket, but the refill clock stays at the time it acquired. */
  function Acquired(size: int, b: Level, now: real): Level {
    var t := Refilled(size, b, now);
    Level(if t < 1.0 then 0.0 else t - 1.0, now)
  }

  function Ticks(rate: int, period: real, t: real): real
    requires rate >= 1 && period > 0.0
  {
    t * (rate as real / period)
  }

  lemma TicksOfDifference(rate: int, period: real, a: real, b: real)
    requires rate >= 1 && period > 0.0
    ensures (b - a) * (rate as real / period) == Ticks(rate, period, b) - Ticks(rate, period, a)
  {
  }

  lemma TicksOfWait(rate: int, period: real, now: real, missing: real, late: real)
    requires rate >= 1 && period > 0.0
    ensures Ticks(rate, period, now + missing * (period / rate as real) + late)
         == Ticks(rate, period, now) + missing + Ticks(rate, period, late)
  {
    var f, g := rate as real / period, period / rate as real;
    assert g * f == 1.0;
    assert (missing * g) * f == missing * (g * f);
    assert (now + missing * g + late) * f == now * f + (missing * g) * f + late * f;
  }

  class Bucket {
    const rate: int
    const period: real
    var tokens: real
    var lastRefill: real

    ghost predicate Valid() {
      rate >= 1 && period > 0.0
    }

    function Look(): Level
      requires Valid()
      reads this
    {
      Level(tokens, Ticks(rate, period, lastRefill))
    }

    constructor (rate: int, period: real, now: real)
      requires rate >= 1 && period > 0.0
      ensures Valid() && this.rate == rate && this.period == period
      ensures Look() == Level(rate as real, Ticks(rate, period, now))
    {
      this.rate, this.period := rate, period;
      tokens, lastRefill := rate as real, now;
    }

    method Acquire(now: real, late: real) returns (granted: real)
      requires Valid() && late >= 0.0
      modifies this
      ensures Look() == Acquired(rate, old(Look()), Ticks(rate, period, now))
      ensures Ticks(rate, period, granted)
           == Grant(rate, old(Look()), Call(Ticks(rate, period, now), Ticks(rate, period, late)))
    {
      var elapsed := now - lastRefill;
      TicksOfDifference(rate, period, lastRefill, now);
      var t := tokens + elapsed * (rate as real / period);
      tokens := if t < rate as real then t else rate as real;
      lastRefill := now;
      if tokens < 1.0 {
        var wait := (1.0 - tokens) * (period / rate as real);
        TicksOfWait(rate, period, now, 1.0 - tokens, late);
        granted := now + wait + late;
        tokens := 0.0;
      } else {
        tokens := tokens - 1.0;
        granted := now;
      }
    }
  }

  // ----- runs, in ticks -----

  /** The bucket before call `k`, starting full at time `start`. */
  function Before(size: int, start: real, calls: seq<Call>, k: nat): Level
    requires k <= |calls|
  {
    if k == 0 then Level(size as real, start) else Acquired(size, Before(size, start, calls, k - 1), calls[k - 1].at)
  }

  function TokensAt(size: int, start: real, calls: seq<Call>, k: nat): real
    requires k < |calls|
  {
    Refilled(size, Before(size, start, calls, k), calls[k].at)
  }

  function GrantOf(size: int, start: real, calls: seq<Call>, k: nat): real
    requires k < |calls|
  {
    Grant(size, Before(size, start, calls, k), calls[k])
  }

  /** Nobody wakes early, and a call acquires the lock only after the one before it was granted. */
  ghost predicate Legal(size: int, start: real, calls: seq<Call>) {
    && size >= 1
    && (forall k :: 0 <= k < |calls| ==> calls[k].late >= 0.0)
    && (|calls| > 0 ==> start <= calls[0].at)
    && (forall k :: 0 < k < |calls| ==> Waits(size, start, calls, k))
  }

  /** Call `k` acquires the lock only after the one before it was granted. */
  ghost predicate Waits(size: int, start: real, calls: seq<Call>, k: nat)
    requires 0 < k < |calls|
  {
    GrantOf(size, start, calls, k - 1) <= calls[k].at
  }

  /** Tokens stay between zero and the rate, and a call asks to sleep for at most one tick, and for some time exactly
      when it finds less than one token. */
  lemma {:induction false} TokensBounded(size: int, start: real, calls: seq<Call>, k: nat)
    requires Legal(size, start, calls) && k < |calls|
    ensures 0.0 <= Before(size, start, calls, k).tokens && 0.0 <= Before(size, start, calls, k + 1).tokens
    ensures Before(size, start, calls, k).lastRefill <= calls[k].at
    ensures 0.0 <= TokensAt(size, start, calls, k) <= size as real
    ensures var slept := GrantOf(size, start, calls, k) - calls[k].at - Late(size, start, calls, k);
            0.0 <= slept <= 1.0 && (slept > 0.0 <==> TokensAt(size, start, calls, k) < 1.0)
  {
    if k > 0 {
      TokensBounded(size, start, calls, k - 1);
      assert Waits(size, start, calls, k);
    }
  }

  /** The amortized account of calls `i..j`: grants so far and tokens left against the tokens found at the start, what
      flowed in between the acquires, and the sleep, which is credited a second time. */
  lemma {:induction false} Account(size: int, start: real, calls: seq<Call>, i: nat, j: nat)
    requires Legal(size, start, calls) && i <= j < |calls|
    ensures (j - i + 1) as real + Before(size, start, calls, j + 1).tokens
         <= TokensAt(size, start, calls, i) + (calls[j].at - calls[i].at)
          + (GrantOf(size, start, calls, j) - calls[i].at)
    decreases j
  {
    TokensBounded(size, start, calls, j);
    if i < j {
      Account(size, start, calls, i, j - 1);
      assert Waits(size, start, calls, j);
    }
  }

  /** Any consecutive grants `i..j` number at most the rate plus twice the ticks from the first acquire to the last
      grant. */
  lemma GrantsBounded(size: int, start: real, calls: seq<Call>, i: nat, j: nat)
    requires Legal(size, start, calls) && i <= j < |calls|
    ensures (j - i + 1) as real <= size as real + 2.0 * (GrantOf(size, start, calls, j) - calls[i].at)
  {
    Account(size, start, calls, i, j);
    TokensBounded(size, start, calls, i);
    TokensBounded(size, start, calls, j);
  }

  /** Calls timed in seconds, in ticks. */
  function InTicks(rate: int, period: real, calls: seq<Call>): (ticks: seq<Call>)
    requires rate >= 1 && period > 0.0
    ensures |ticks| == |calls|
    ensures forall k :: 0 <= k < |calls| ==>
              ticks[k] == Call(Ticks(rate, period, calls[k].at), Ticks(rate, period, calls[k].late))
  {
    seq(|calls|, k requires 0 <= k < |calls| =>
          Call(Ticks(rate, period, calls[k].at), Ticks(rate, period, calls[k].late)))
  }

  /** The bound in seconds: with `granted` the second of the last grant, the grants `i..j` number at most the rate plus
      twice the rate per second times the seconds from the first acquire on. */
  lemma GrantsBoundedInSeconds(rate: int, period: real, start: real, calls: seq<Call>, i: nat, j: nat, granted: real)
    requires rate >= 1 && period > 0.0 && i <= j < |calls|
    requires Legal(rate, Ticks(rate, period, start), InTicks(rate, period, calls))
    requires Ticks(rate, period, granted) == GrantOf(rate, Ticks(rate, period, start), InTicks(rate, period, calls), j)
    ensures (j - i + 1) as real <= rate as real + 2.0 * ((granted - calls[i].at) * (rate as real / period))
  {
    GrantsBounded(rate, Ticks(rate, period, start), InTicks(rate, period, calls), i, j);
    TicksOfDifference(rate, period, calls[i].at, granted);
  }

  // ----- conservation -----

  /** The part of a token that call `k` sleeps for; it is granted that part without taking it from the bucket. */
  function Slept(size: int, start: real, calls: seq<Call>, k: nat): real
    requires k < |calls|
  {
    if TokensAt(size, start, calls, k) < 1.0 then 1.0 - TokensAt(size, start, calls, k) else 0.0
  }

  /** What flowed in before call `k` and found the bucket full. */
  function Spilled(size: int, start: real, calls: seq<Call>, k: nat): real
    requires k < |calls|
  {
    var b := Before(size, start, calls, k);
    b.tokens + (calls[k].at - b.lastRefill) - TokensAt(size, start, calls, k)
  }

  /** The sleep of calls `i` up to, not including, `j`. */
  function SleptIn(size: int, start: real, calls: seq<Call>, i: nat, j: nat): real
    requires i <= j <= |calls|
    decreases j
  {
    if i == j then 0.0 else SleptIn(size, start, calls, i, j - 1) + Slept(size, start, calls, j - 1)
  }

  /** The spill after call `i` up to call `j`. */
  function SpilledIn(size: int, start: real, calls: seq<Call>, i: nat, j: nat): real
    requires i <= j < |calls|
    decreases j
  {
    if i == j then 0.0 else SpilledIn(size, start, calls, i, j - 1) + Spilled(size, start, calls, j)
  }

  /** The exact balance of calls `i..j`: grants and tokens left are tokens found, inflow between the acquires less the
      spill, and the sleep of all of them. */
  lemma {:induction false} Balance(size: int, start: real, calls: seq<Call>, i: nat, j: nat)
    requires Legal(size, start, calls) && i <= j < |calls|
    ensures (j - i + 1) as real + Before(size, start, calls, j + 1).tokens
         == TokensAt(size, start, calls, i) + (calls[j].at - calls[i].at)
          - SpilledIn(size, start, calls, i, j) + SleptIn(size, start, calls, i, j + 1)
    decreases j
  {
    BalanceOfOne(size, start, calls, j);
    if i < j {
      Balance(size, start, calls, i, j - 1);
    } else {
      assert SleptIn(size, start, calls, i, i) == 0.0;
    }
  }

  lemma BalanceOfOne(size: int, start: real, calls: seq<Call>, k: nat)
    requires k < |calls|
    ensures 1.0 + Before(size, start, calls, k + 1).tokens
         == TokensAt(size, start, calls, k) + Slept(size, start, calls, k)
    ensures TokensAt(size, start, calls, k)
         == Before(size, start, calls, k).tokens + (calls[k].at - Before(size, start, calls, k).lastRefill)
          - Spilled(size, start, calls, k)
    ensures Before(size, start, calls, k + 1).lastRefill == calls[k].at
    ensures GrantOf(size, start, calls, k) == calls[k].at + Slept(size, start, calls, k) + Late(size, start, calls, k)
  {
  }

  /** How much later than asked for call `k` woke up. */
  function Late(size: int, start: real, calls: seq<Call>, k: nat): real
    requires k < |calls|
  {
    if TokensAt(size, start, calls, k) < 1.0 then calls[k].late else 0.0
  }

  /** The grants `i..j` keep to the rate. */
  ghost predicate KeepsRate(size: int, start: real, calls: seq<Call>, i: nat, j: nat)
    requires i <= j < |calls|
  {
    (j - i + 1) as real <= size as real + (GrantOf(size, start, calls, j) - calls[i].at)
  }

  /** Exactly when they do: the sleep of the calls before the last is no more than the room there was for tokens at the
      start, what spilled, what is left, and how late the last call woke up. */
  lemma KeepsRateIff(size: int, start: real, calls: seq<Call>, i: nat, j: nat)
    requires Legal(size, start, calls) && i <= j < |calls|
    ensures var room, spilled := size as real - TokensAt(size, start, calls, i), SpilledIn(size, start, calls, i, j);
            var left, late := Before(size, start, calls, j + 1).tokens, Late(size, start, calls, j);
            KeepsRate(size, start, calls, i, j) <==> SleptIn(size, start, calls, i, j) <= room + spilled + left + late
  {
    Balance(size, start, calls, i, j);
    BalanceOfOne(size, start, calls, j);
  }

  lemma {:induction false} NoSleep(size: int, start: real, calls: seq<Call>, i: nat, j: nat)
    requires i <= j <= |calls| && forall k :: i <= k < j ==> TokensAt(size, start, calls, k) >= 1.0
    ensures SleptIn(size, start, calls, i, j) == 0.0
    decreases j
  {
    if i < j {
      NoSleep(size, start, calls, i, j - 1);
    }
  }

  lemma {:induction false} SpillIsLoss(size: int, start: real, calls: seq<Call>, i: nat, j: nat)
    requires i <= j < |calls|
    ensures SpilledIn(size, start, calls, i, j) >= 0.0
    decreases j
  {
    if i < j {
      SpillIsLoss(size, start, calls, i, j - 1);
    }
  }

  /** In particular a window keeps to the rate when none but its last call finds less than one token. */
  lemma RateKeptWithoutSleep(size: int, start: real, calls: seq<Call>, i: nat, j: nat)
    requires Legal(size, start, calls) && i <= j < |calls|
    requires forall k :: i <= k < j ==> TokensAt(size, start, calls, k) >= 1.0
    ensures KeepsRate(size, start, calls, i, j)
  {
    NoSleep(size, start, calls, i, j);
    SpillIsLoss(size, start, calls, i, j);
    TokensBounded(size, start, calls, i);
    TokensBounded(size, start, calls, j);
    KeepsRateIff(size, start, calls, i, j);
  }

  // ----- the factor of two is real -----

  /** Back-to-back calls: the first `size` come at once, and from then on every second one finds the token its
      predecessor has just slept for. */
  function BusyCalls(size: int, n: nat): (calls: seq<Call>)
    ensures |calls| == n && forall k :: 0 <= k < n ==> calls[k] == Call(Slot(size, k) as real, 0.0)
  {
    seq(n, k requires 0 <= k < n => Call(Slot(size, k) as real, 0.0))
  }

  function Slot(size: int, k: nat): nat {
    if k < size then 0 else (k - size + 1) / 2
  }

  lemma SlotStep(size: int, k: nat)
    requires size >= 1
    ensures Slot(size, k + 1) == Slot(size, k) + (if k >= size && (k - size) % 2 == 0 then 1 else 0)
  {
  }

  /** The bucket as a busy client keeps it: first drained, then empty with every refill spent at once. */
  ghost predicate Busy(size: int, calls: seq<Call>, k: nat)
    requires k < |calls|
  {
    var b := Before(size, 0.0, calls, k);
    && b.tokens == (if k <= size then (size - k) as real else 0.0)
    && b.lastRefill == (if k == 0 then 0.0 else Slot(size, k - 1) as real)
  }

  lemma BusyGrant(size: int, calls: seq<Call>, k: nat)
    requires size >= 1 && k < |calls| && calls[k] == Call(Slot(size, k) as real, 0.0) && Busy(size, calls, k)
    ensures GrantOf(size, 0.0, calls, k) == Slot(size, k + 1) as real
    ensures k + 1 < |calls| ==> Busy(size, calls, k + 1)
  {
    SlotStep(size, k);
    if k > 0 {
      SlotStep(size, k - 1);
    }
    if k >= size {
      var t := TokensAt(size, 0.0, calls, k);
      assert t == if (k - size) % 2 == 0 then 0.0 else 1.0;
    }
  }

  lemma {:induction false} BusyRun(size: int, n: nat, k: nat)
    requires size >= 1 && k < n
    ensures Busy(size, BusyCalls(size, n), k) && GrantOf(size, 0.0, BusyCalls(size, n), k) == Slot(size, k + 1) as real
    decreases k
  {
    if k > 0 {
      BusyRun(size, n, k - 1);
      BusyGrant(size, BusyCalls(size, n), k - 1);
    }
    BusyGrant(size, BusyCalls(size, n), k);
  }

  lemma BusyIsLegal(size: int, n: nat)
    requires size >= 1
    ensures Legal(size, 0.0, BusyCalls(size, n))
  {
    var calls := BusyCalls(size, n);
    forall k: nat | 0 < k < n ensures Waits(size, 0.0, calls, k) {
      BusyRun(size, n, k - 1);
    }
  }

  /** The ticks from the first acquire to the last grant. */
  function Elapsed(size: int, calls: seq<Call>): real
    requires calls != []
  {
    GrantOf(size, 0.0, calls, |calls| - 1) - calls[0].at
  }

  lemma BusyEnd(size: int, m: nat)
    requires size >= 1 && m >= 1
    ensures Elapsed(size, BusyCalls(size, size + 2 * m)) == m as real
    ensures |BusyCalls(size, size + 2 * m)| == size + 2 * m
  {
    var calls := BusyCalls(size, size + 2 * m);
    BusyRun(size, size + 2 * m, size + 2 * m - 1);
    assert GrantOf(size, 0.0, calls, |calls| - 1) == Slot(size, |calls|) as real;
    assert Slot(size, size + 2 * m) == m && Slot(size, 0) == 0;
  }

  /** The bound is attained for every rate and duration: some client gets `size + 2m` grants within `m` ticks. So the
      bucket does not keep to its rate, and the factor of two cannot be improved. */
  lemma BoundIsAttained(size: int, m: nat)
    requires size >= 1 && m >= 1
    ensures exists calls :: Legal(size, 0.0, calls) && |calls| == size + 2 * m && Elapsed(size, calls) == m as real
  {
    var calls := BusyCalls(size, size + 2 * m);
    BusyIsLegal(size, size + 2 * m);
    BusyEnd(size, m);
    assert |calls| == size + 2 * m;
  }
}
