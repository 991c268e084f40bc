/** The port-mapping lease of `src/igd.rs`: its length, the timer that renews it, and the loop that
    polls for termination. Times are in nanoseconds. */
module Igd {
  import opened Types

  const SECOND: int := 1_000_000_000

  function CappedInterval(interval: nat): nat {
    Min(interval, U32_MAX * SECOND)
  }

  /** Whole seconds of the capped interval, as the library casts them to 32 bits. */
  function LeaseSeconds(interval: nat): nat {
    (CappedInterval(interval) / SECOND) % 0x1_0000_0000
  }

  /** The lease has the whole seconds of the interval; longer intervals than 32 bits of seconds give the
      longest lease there is. The cast loses nothing. */
  lemma CastIsLossless(interval: nat)
    ensures interval <= 4_294_967_295 * 1_000_000_000 ==> LeaseSeconds(interval) == interval / 1_000_000_000
    ensures interval > 4_294_967_295 * 1_000_000_000 ==> LeaseSeconds(interval) == 4_294_967_295
    ensures LeaseSeconds(interval) == CappedInterval(interval) / SECOND <= U32_MAX
  {
  }

  /** The time of the `k`-th tick after the mapping was made at `start`. */
  function Tick(start: nat, interval: nat, k: nat): nat {
    start + k * CappedInterval(interval)
  }

  /** When a lease granted at `at` runs out; a lease of zero seconds does not. */
  function Expiry(interval: nat, at: nat): Option<nat> {
    if LeaseSeconds(interval) == 0 then None else Some(at + LeaseSeconds(interval) * SECOND)
  }

  /** What polling the termination channel gives. */
  datatype Poll = Empty | Signalled | Closed | Lagged

  /** The lease asked for, and the renewing loop over the ticks of a run. `polls[k]` is what tick `k + 1`
      finds in the channel. Renewals happen every interval, in a row up to the first tick that finds
      anything but emptiness, and at no other time. */
  method RenewLoop(start: nat, interval: nat, polls: seq<Poll>) returns (lease: nat, renewals: seq<nat>)
    requires interval > 0
    ensures interval <= 4_294_967_295 * 1_000_000_000 ==>
              && lease == interval / 1_000_000_000
              && forall k :: 0 <= k < |renewals| ==> renewals[k] == start + (k + 1) * interval
    ensures interval > 4_294_967_295 * 1_000_000_000 ==>
              && lease == 4_294_967_295
              && forall k :: 0 <= k < |renewals| ==> renewals[k] == start + (k + 1) * 4_294_967_295_000_000_000
    ensures |renewals| <= |polls|
    ensures forall k :: 0 <= k < |renewals| ==>
              renewals[k] == Tick(start, interval, k + 1) && polls[k] == Empty
    ensures |renewals| < |polls| ==> polls[|renewals|] != Empty
    ensures forall t :: 0 <= t < |polls| && polls[t] != Empty ==> |renewals| <= t
  {
    CastIsLossless(interval);
    lease := LeaseSeconds(interval);
    renewals := [];
    var tick := 0;
    while tick < |polls|
      invariant tick == |renewals| <= |polls|
      invariant forall k :: 0 <= k < |renewals| ==>
                  renewals[k] == Tick(start, interval, k + 1) && polls[k] == Empty
    {
      if polls[tick] != Empty {
        break;
      }
      renewals := renewals + [Tick(start, interval, tick + 1)];
      tick := tick + 1;
    }
  }

  /** Lease coverage: a renewal at the next tick comes at or after the end of the lease before it,
      and less than a second after. */
  lemma RenewalGap(start: nat, interval: nat, k: nat)
    requires Expiry(interval, Tick(start, interval, k)).Some?
    ensures var gap := Tick(start, interval, k + 1) - Expiry(interval, Tick(start, interval, k)).value;
            0 <= gap < SECOND && gap == CappedInterval(interval) % SECOND
  {
    var n := CappedInterval(interval);
    assert Tick(start, interval, k + 1) - Tick(start, interval, k) == n by {
      TickStep(start, interval, k);
    }
    CastIsLossless(interval);
    assert n == n / SECOND * SECOND + n % SECOND;
  }

  lemma TickStep(start: nat, interval: nat, k: nat)
    ensures Tick(start, interval, k + 1) == Tick(start, interval, k) + CappedInterval(interval)
  {
  }

  /** The port is mapped at time `t`, when leases were granted at every tick up to the `n`-th. */
  ghost predicate Mapped(start: nat, interval: nat, n: nat, t: nat) {
    exists k: nat :: k <= n && Tick(start, interval, k) <= t
                     && (var e := Expiry(interval, Tick(start, interval, k)); e.None? || t < e.value)
  }

  /** The mapping has no gap between the first and the last renewal, however many there are, if and
      only if the interval is shorter than a second (the lease is then unlimited), a whole number of
      seconds, or so long that it is cut to the longest lease. */
  lemma UnbrokenIffWholeSeconds(start: nat, interval: nat)
    requires interval > 0
    ensures (forall n: nat, t: nat ::
               start <= t < Tick(start, interval, n) ==> Mapped(start, interval, n, t))
            <==> || interval < 1_000_000_000
                 || interval % 1_000_000_000 == 0
                 || interval > 4_294_967_295 * 1_000_000_000
  {
    var len := CappedInterval(interval);
    if len < SECOND || len % SECOND == 0 {
      forall n: nat, t: nat | start <= t < Tick(start, interval, n)
        ensures Mapped(start, interval, n, t)
      {
        MappedThroughout(start, interval, n, t);
      }
    } else {
      GapAfterFirstLease(start, interval);
    }
  }

  lemma {:induction false} MappedThroughout(start: nat, interval: nat, n: nat, t: nat)
    requires interval > 0
    requires CappedInterval(interval) < SECOND || CappedInterval(interval) % SECOND == 0
    requires start <= t < Tick(start, interval, n)
    ensures Mapped(start, interval, n, t)
  {
    CastIsLossless(interval);
    if t >= Tick(start, interval, n - 1) {
      if Expiry(interval, Tick(start, interval, n - 1)).Some? {
        RenewalGap(start, interval, n - 1);
      }
    } else {
      MappedThroughout(start, interval, n - 1, t);
      var k: nat :| k <= n - 1 && Tick(start, interval, k) <= t
                    && (var e := Expiry(interval, Tick(start, interval, k)); e.None? || t < e.value);
    }
  }

  /** With a fraction of a second in the interval, the first lease ends before the first renewal. */
  lemma GapAfterFirstLease(start: nat, interval: nat)
    requires CappedInterval(interval) >= SECOND && CappedInterval(interval) % SECOND != 0
    ensures var t := start + LeaseSeconds(interval) * SECOND;
            start <= t < Tick(start, interval, 1) && !Mapped(start, interval, 1, t)
  {
    CastIsLossless(interval);
    var len := CappedInterval(interval);
    var t := start + LeaseSeconds(interval) * SECOND;
    assert len == len / SECOND * SECOND + len % SECOND;
    assert Tick(start, interval, 1) == start + len;
    assert Tick(start, interval, 0) == start;
    forall k: nat | k <= 1 && Tick(start, interval, k) <= t
      ensures Expiry(interval, Tick(start, interval, k)) == Some(t)
    {
      assert k == 0;
    }
  }
}
