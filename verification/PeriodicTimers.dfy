/** The periodic scheduler, usr/netconf.c:184-198: 32-bit wrap-around time against an unbounded clock. */
module PeriodicTimers {

  const WRAP := 0x1_0000_0000
  const TCP_TMR_INTERVAL := 250
  const ARP_TMR_INTERVAL := 5000

  type u32 = x: int | 0 <= x < WRAP

  function Low32(t: int): u32 {
    t % WRAP
  }

  /** The code's test: the unsigned 32-bit difference has reached the interval. */
  predicate Due(now: u32, timer: u32, interval: nat) {
    Low32(now - timer) >= interval
  }

  class Scheduler {
    var tcpTimer: u32
    var arpTimer: u32
    var tcpCalls: seq<u32>
    var arpCalls: seq<u32>

    constructor ()
      ensures tcpTimer == 0 && arpTimer == 0 && tcpCalls == [] && arpCalls == []
    {
      tcpTimer, arpTimer, tcpCalls, arpCalls := 0, 0, [], [];
    }

    /** LwIP_Periodic_Handle: each timer is re-armed with the current time and its handler called. */
    method PeriodicHandle(localtime: u32)
      modifies this
      ensures Due(localtime, old(tcpTimer), TCP_TMR_INTERVAL) ==>
                tcpTimer == localtime && tcpCalls == old(tcpCalls) + [localtime]
      ensures !Due(localtime, old(tcpTimer), TCP_TMR_INTERVAL) ==>
                tcpTimer == old(tcpTimer) && tcpCalls == old(tcpCalls)
      ensures Due(localtime, old(arpTimer), ARP_TMR_INTERVAL) ==>
                arpTimer == localtime && arpCalls == old(arpCalls) + [localtime]
      ensures !Due(localtime, old(arpTimer), ARP_TMR_INTERVAL) ==>
                arpTimer == old(arpTimer) && arpCalls == old(arpCalls)
      ensures var due := (localtime - old(tcpTimer)) % 0x1_0000_0000 >= 250;
              && tcpTimer == (if due then localtime else old(tcpTimer))
              && tcpCalls == old(tcpCalls) + if due then [localtime] else []
      ensures var due := (localtime - old(arpTimer)) % 0x1_0000_0000 >= 5000;
              && arpTimer == (if due then localtime else old(arpTimer))
              && arpCalls == old(arpCalls) + if due then [localtime] else []
    {
      if Low32(localtime - tcpTimer) >= TCP_TMR_INTERVAL {
        tcpTimer := localtime;
        tcpCalls := tcpCalls + [localtime];
      }
      if Low32(localtime - arpTimer) >= ARP_TMR_INTERVAL {
        arpTimer := localtime;
        arpCalls := arpCalls + [localtime];
      }
    }

    /** Both timers and call logs are where runs of the two timers over these polls leave them. */
    ghost predicate InStep(times: seq<nat>)
      reads this
    {
      var tcp, arp := TimerRun(0, times, TCP_TMR_INTERVAL), TimerRun(0, times, ARP_TMR_INTERVAL);
      && tcpTimer == Low32(Last(0, tcp)) && tcpCalls == Stamps(tcp)
      && arpTimer == Low32(Last(0, arp)) && arpCalls == Stamps(arp)
    }

    method PollAt(times: seq<nat>, k: nat)
      requires k < |times| && InStep(times[..k])
      modifies this
      ensures InStep(times[..k + 1])
    {
      TimerRunSnoc(0, times, k, TCP_TMR_INTERVAL);
      TimerRunSnoc(0, times, k, ARP_TMR_INTERVAL);
      PeriodicHandle(Low32(times[k]));
    }

    /** The main loop polling at the given unbounded times: if no two polls are further apart than d,
        each handler runs exactly when an unbounded clock says so, independently of the other. */
    method Polls(times: seq<nat>, ghost d: nat)
      requires tcpTimer == 0 && arpTimer == 0 && tcpCalls == [] && arpCalls == []
      requires GapsAtMost(0, times, d) && d + ARP_TMR_INTERVAL <= WRAP
      modifies this
      ensures tcpCalls == Stamps(Firings(0, times, 250))
      ensures arpCalls == Stamps(Firings(0, times, 5000))
    {
      TakeAll(times);
      for k := 0 to |times|
        invariant InStep(times[..k])
      {
        PollAt(times, k);
      }
      TimerRefines(0, times, TCP_TMR_INTERVAL, d);
      TimerRefines(0, times, ARP_TMR_INTERVAL, d);
    }
  }

  // ----- Runs of one timer -----

  /** The time before the i-th entry. */
  function Prev(start: nat, ts: seq<nat>, i: nat): nat
    requires i <= |ts|
  {
    if i == 0 then start else ts[i - 1]
  }

  function Last(start: nat, ts: seq<nat>): nat {
    Prev(start, ts, |ts|)
  }

  /** The low 32 bits of a sequence of times. */
  function Stamps(ts: seq<nat>): (r: seq<u32>)
    ensures |r| == |ts| && forall i :: 0 <= i < |ts| ==> r[i] == ts[i] % 0x1_0000_0000
  {
    seq(|ts|, i requires 0 <= i < |ts| => Low32(ts[i]))
  }

  /** The poll times at which the 32-bit test fires, the timer having last been set at start. */
  function TimerRun(start: nat, times: seq<nat>, interval: nat): seq<nat>
    decreases |times|
  {
    if times == [] then [] else
      var before := TimerRun(start, times[..|times| - 1], interval);
      var now := times[|times| - 1];
      if Due(Low32(now), Low32(Last(start, before)), interval) then before + [now] else before
  }

  /** Reference: the poll times at which unbounded elapsed time has reached the interval. */
  function Firings(start: nat, times: seq<nat>, interval: nat): seq<nat>
    decreases |times|
  {
    if times == [] then [] else
      var before := Firings(start, times[..|times| - 1], interval);
      var now := times[|times| - 1];
      if now - Last(start, before) >= interval then before + [now] else before
  }

  /** Time does not run backwards, and no two polls are more than d apart. */
  predicate GapsAtMost(start: nat, times: seq<nat>, d: nat) {
    Spaced(start, times, 0, d)
  }

  predicate Spaced(start: nat, ts: seq<nat>, lo: int, hi: int) {
    forall i :: 0 <= i < |ts| ==> lo <= ts[i] - Prev(start, ts, i) <= hi
  }

  lemma SpacedFront(start: nat, ts: seq<nat>, lo: int, hi: int)
    requires ts != [] && Spaced(start, ts, lo, hi)
    ensures Spaced(start, ts[..|ts| - 1], lo, hi)
    ensures lo <= ts[|ts| - 1] - Last(start, ts[..|ts| - 1]) <= hi
  {
  }

  lemma SpacedSnoc(start: nat, ts: seq<nat>, t: nat, lo: int, hi: int)
    requires Spaced(start, ts, lo, hi) && lo <= t - Last(start, ts) <= hi
    ensures Spaced(start, ts + [t], lo, hi)
  {
    forall i | 0 <= i < |ts| + 1
      ensures lo <= (ts + [t])[i] - Prev(start, ts + [t], i) <= hi
    {
      if i < |ts| { assert Prev(start, ts + [t], i) == Prev(start, ts, i); }
    }
  }

  lemma {:induction false} SpacedTotal(start: nat, ts: seq<nat>, lo: nat, hi: nat)
    requires Spaced(start, ts, lo, hi)
    ensures |ts| * lo <= Last(start, ts) - start <= |ts| * hi
    decreases |ts|
  {
    if ts != [] {
      SpacedFront(start, ts, lo, hi);
      var n := |ts| - 1;
      SpacedTotal(start, ts[..n], lo, hi);
      assert (n + 1) * lo == n * lo + lo && (n + 1) * hi == n * hi + hi;
    }
  }

  lemma TakeAll(times: seq<nat>)
    ensures times[..|times|] == times
  {
  }

  lemma TimerRunSnoc(start: nat, times: seq<nat>, k: nat, interval: nat)
    requires k < |times|
    ensures var before := TimerRun(start, times[..k], interval);
            TimerRun(start, times[..k + 1], interval) ==
            if Due(Low32(times[k]), Low32(Last(start, before)), interval) then before + [times[k]] else before
  {
    assert times[..k + 1][..k] == times[..k];
  }

  /** One poll decides wrongly exactly when whole wraps have passed and less than an interval more. */
  lemma DueExact(now: nat, last: nat, interval: nat)
    requires last <= now
    ensures (Due(Low32(now), Low32(last), interval) <==> now - last >= interval)
            <==> !(now - last >= interval && (now - last) % WRAP < interval)
  {
    var e := now - last;
    assert Low32(Low32(now) - Low32(last)) == e % WRAP by {
      var a, b := now / WRAP, last / WRAP;
      assert now == a * WRAP + Low32(now) && last == b * WRAP + Low32(last);
      ModShift(Low32(now) - Low32(last), a - b);
    }
    assert e < interval ==> e % WRAP <= e;
  }

  lemma {:induction false} ModShift(x: int, k: int)
    ensures (x + k * WRAP) % WRAP == x % WRAP
    decreases if k < 0 then -k else k
  {
    if k > 0 {
      ModShift(x, k - 1);
    } else if k < 0 {
      ModShift(x, k + 1);
    }
  }

  /** Within one wrap the test is right. */
  lemma DueWithin(now: nat, last: nat, interval: nat)
    requires last <= now < last + WRAP
    ensures Due(Low32(now), Low32(last), interval) <==> now - last >= interval
  {
    DueExact(now, last, interval);
  }

  /** After a poll less than an interval has passed since the last firing. */
  lemma {:induction false} FiredLately(start: nat, times: seq<nat>, interval: nat, d: nat)
    requires GapsAtMost(start, times, d) && 1 <= interval
    ensures 0 <= Last(start, times) - Last(start, Firings(start, times, interval)) < interval
    decreases |times|
  {
    if times != [] {
      SpacedFront(start, times, 0, d);
      FiredLately(start, times[..|times| - 1], interval, d);
    }
  }

  /** While polls are at most d apart and d + interval <= 2^32, the wrapping timer is the unbounded
      one. */
  lemma {:induction false} TimerRefines(start: nat, times: seq<nat>, interval: nat, d: nat)
    requires GapsAtMost(start, times, d) && 1 <= interval && d + interval <= WRAP
    ensures TimerRun(start, times, interval) == Firings(start, times, interval)
    decreases |times|
  {
    if times != [] {
      var n := |times| - 1;
      SpacedFront(start, times, 0, d);
      TimerRefines(start, times[..n], interval, d);
      FiredLately(start, times[..n], interval, d);
      DueWithin(times[n], Last(start, Firings(start, times[..n], interval)), interval);
    }
  }

  /** n firings in that much time, at least lo and at most hi apart, the last less than lo ago. */
  predicate InRate(n: nat, elapsed: int, lo: nat, hi: int) {
    n * lo <= elapsed <= n * hi + lo - 1
  }

  /** Successive firings are at least the interval and less than interval + d apart; so over any run
      the number of firings times the interval is at most the elapsed time, and no firing is lost. */
  lemma FiringRate(start: nat, times: seq<nat>, interval: nat, d: nat, widest: nat)
    requires GapsAtMost(start, times, d) && 1 <= interval && d + interval <= WRAP && widest == interval + d - 1
    ensures var f := TimerRun(start, times, interval);
            Spaced(start, f, interval, widest) && InRate(|f|, Last(start, times) - start, interval, widest)
  {
    TimerRefines(start, times, interval, d);
    var f := Firings(start, times, interval);
    RateOfFirings(start, times, interval, d, widest);
    FiredLately(start, times, interval, d);
    RateFromSpacing(start, f, Last(start, times), interval, widest);
  }

  lemma RateFromSpacing(start: nat, f: seq<nat>, end: nat, lo: nat, hi: nat)
    requires Spaced(start, f, lo, hi) && 0 <= end - Last(start, f) < lo
    ensures InRate(|f|, end - start, lo, hi)
  {
    SpacedTotal(start, f, lo, hi);
  }

  lemma {:induction false} RateOfFirings(start: nat, times: seq<nat>, interval: nat, d: nat, widest: nat)
    requires GapsAtMost(start, times, d) && 1 <= interval && widest == interval + d - 1
    ensures Spaced(start, Firings(start, times, interval), interval, widest)
    decreases |times|
  {
    if times != [] {
      var n := |times| - 1;
      SpacedFront(start, times, 0, d);
      RateOfFirings(start, times[..n], interval, d, widest);
      FiredLately(start, times[..n], interval, d);
      var before := Firings(start, times[..n], interval);
      if times[n] - Last(start, before) >= interval {
        SpacedSnoc(start, before, times[n], interval, widest);
      }
    }
  }

  /** The bound is the best possible: the wrapping timer agrees with the unbounded one on every run
      whose gaps are at most d if and only if d + interval <= 2^32. */
  lemma TimerBoundExact(interval: nat, d: nat)
    requires 1 <= interval <= WRAP
    ensures (forall times: seq<nat> :: GapsAtMost(0, times, d) ==>
               TimerRun(0, times, interval) == Firings(0, times, interval))
            <==> d + interval <= WRAP
  {
    if d + interval <= WRAP {
      forall times: seq<nat> | GapsAtMost(0, times, d)
        ensures TimerRun(0, times, interval) == Firings(0, times, interval)
      {
        TimerRefines(0, times, interval, d);
      }
    } else {
      MissedFiring(interval, d);
    }
  }

  /** Climb to just below the interval, then poll again exactly one wrap after the start. */
  lemma MissedFiring(interval: nat, d: nat)
    requires 1 <= interval <= WRAP < d + interval
    ensures exists times: seq<nat> :: GapsAtMost(0, times, d)
              && TimerRun(0, times, interval) != Firings(0, times, interval)
  {
    var steps := Climb(interval - 1);
    ClimbSpaced(interval - 1, d);
    SpacedSnoc(0, steps, WRAP, 0, d);
    WrapUnseen(steps, interval);
    assert GapsAtMost(0, steps + [WRAP], d);
  }

  lemma WrapUnseen(steps: seq<nat>, interval: nat)
    requires 1 <= interval <= WRAP && forall i :: 0 <= i < |steps| ==> steps[i] < interval
    ensures TimerRun(0, steps + [WRAP], interval) == []
    ensures Firings(0, steps + [WRAP], interval) == [WRAP]
  {
    var times: seq<nat> := steps + [WRAP];
    assert times[..|steps|] == steps;
    NothingYet(steps, interval);
  }

  lemma ClimbSpaced(t: nat, d: nat)
    requires d >= 1
    ensures Spaced(0, Climb(t), 0, d)
  {
  }

  /** Polls that climb to t in steps of one. */
  function Climb(t: nat): (r: seq<nat>)
    ensures |r| == t && Last(0, r) == t && forall i :: 0 <= i < t ==> r[i] == i + 1
  {
    seq(t, i requires 0 <= i < t => i + 1)
  }

  lemma {:induction false} NothingYet(times: seq<nat>, interval: nat)
    requires interval <= WRAP && forall i :: 0 <= i < |times| ==> times[i] < interval
    ensures TimerRun(0, times, interval) == [] == Firings(0, times, interval)
    decreases |times|
  {
    if times != [] {
      NothingYet(times[..|times| - 1], interval);
    }
  }
}
