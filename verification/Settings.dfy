/** The part of the configuration that bounds leases and tool calls. */
module Settings {
  import opened Numbers

  class Settings {
    var leaseTtl: int
    var leaseHeartbeat: int
    var leaseRetryDelayMs: int
    var runLockTtl: int
    var runLockHeartbeat: int
    var maxWriteCalls: int
    var maxTotalCalls: int
    var maxTurnRuntime: int

    constructor (leaseTtl: int, leaseHeartbeat: int, leaseRetryDelayMs: int, runLockTtl: int, runLockHeartbeat: int,
                 maxWriteCalls: int, maxTotalCalls: int, maxTurnRuntime: int)
      ensures this.leaseTtl == leaseTtl && this.leaseHeartbeat == leaseHeartbeat && this.maxWriteCalls == maxWriteCalls
      ensures this.leaseRetryDelayMs == leaseRetryDelayMs && this.runLockTtl == runLockTtl
      ensures this.runLockHeartbeat == runLockHeartbeat
      ensures this.maxTotalCalls == maxTotalCalls && this.maxTurnRuntime == maxTurnRuntime
    {
      this.leaseTtl, this.leaseHeartbeat, this.leaseRetryDelayMs := leaseTtl, leaseHeartbeat, leaseRetryDelayMs;
      this.runLockTtl, this.runLockHeartbeat := runLockTtl, runLockHeartbeat;
      this.maxWriteCalls, this.maxTotalCalls, this.maxTurnRuntime := maxWriteCalls, maxTotalCalls, maxTurnRuntime;
    }

    /** What the rest of the program relies on. */
    predicate Sane()
      reads this
    {
      && 2 <= leaseHeartbeat < leaseTtl && leaseTtl >= 5 && leaseRetryDelayMs >= 0
      && 5 <= runLockHeartbeat < runLockTtl && runLockTtl >= 30
      && 1 <= maxWriteCalls <= maxTotalCalls && maxTurnRuntime >= 1
    }

    /**
     The clamps of `apply_cortex_defaults`, field after field.  Whatever was configured, both heartbeats end up
     strictly shorter than the time to live they renew, and the total budget covers the write budget; sane
     values are kept.
     */
    method ApplyDefaults()
      modifies this
      ensures Sane()
      ensures old(Sane()) && old(leaseRetryDelayMs) != 0 && old(runLockHeartbeat + 5 <= runLockTtl) ==>
                && leaseTtl == old(leaseTtl) && leaseHeartbeat == old(leaseHeartbeat)
                && leaseRetryDelayMs == old(leaseRetryDelayMs)
                && runLockTtl == old(runLockTtl) && runLockHeartbeat == old(runLockHeartbeat)
                && maxWriteCalls == old(maxWriteCalls) && maxTotalCalls == old(maxTotalCalls)
                && maxTurnRuntime == old(maxTurnRuntime)
      ensures old(leaseTtl == leaseHeartbeat == leaseRetryDelayMs == runLockTtl == runLockHeartbeat == 0) ==>
                leaseTtl == 45 && leaseHeartbeat == 15 && leaseRetryDelayMs == 2000 && runLockTtl == 60 && runLockHeartbeat == 15
      ensures old(maxWriteCalls == maxTotalCalls == maxTurnRuntime == 0) ==>
                maxWriteCalls == 5 && maxTotalCalls == 10 && maxTurnRuntime == 25
    {
      leaseTtl := Max(5, OrDefault(leaseTtl, 45));
      leaseHeartbeat := Max(2, Min(OrDefault(leaseHeartbeat, 15), Max(2, leaseTtl - 1)));
      leaseRetryDelayMs := Max(0, OrDefault(leaseRetryDelayMs, 2000));
      runLockTtl := Max(30, OrDefault(runLockTtl, 60));
      runLockHeartbeat := Max(5, Min(OrDefault(runLockHeartbeat, 15), Max(5, runLockTtl - 5)));
      maxWriteCalls := Max(1, OrDefault(maxWriteCalls, 5));
      maxTotalCalls := Max(maxWriteCalls, OrDefault(maxTotalCalls, 10));
      maxTurnRuntime := Max(1, OrDefault(maxTurnRuntime, 25));
    }
  }

  /**
   One round of the heartbeat: how long beyond its sleep the renewal takes to reach the lock store, and whether
   the store answers it.
   */
  datatype Beat = Beat(lag: nat, answered: bool)

  /** Moment of the last of these renewals. */
  function LastAt(start: int, heartbeat: int, beats: seq<Beat>): int {
    if beats == [] then start else LastAt(start, heartbeat, beats[..|beats| - 1]) + heartbeat + beats[|beats| - 1].lag
  }

  /** The store answers, before the time the previous renewal gave is over. */
  predicate InTime(b: Beat, heartbeat: int, ttl: int) { b.answered && heartbeat + b.lag < ttl }

  /** Each renewal comes before the lock set at `start` runs out exactly if heartbeat and lag are shorter than the time to live. */
  lemma RenewedInTime(start: int, heartbeat: int, ttl: int, beats: seq<Beat>)
    requires beats != []
    ensures var n := |beats| - 1;
            LastAt(start, heartbeat, beats) < LastAt(start, heartbeat, beats[..n]) + ttl <==> heartbeat + beats[n].lag < ttl
  {}

  /**
   `_run_lease_heartbeat`, from the moment the lock is set.  A renewal that is refused or not answered ends it for
   good: the lock runs out one time to live after the last renewal that was in time.
   */
  method Heartbeat(start: int, heartbeat: int, ttl: int, beats: seq<Beat>) returns (renewed: nat, runsOut: int)
    ensures renewed <= |beats| && forall k | 0 <= k < renewed :: InTime(beats[k], heartbeat, ttl)
    ensures renewed < |beats| ==> !InTime(beats[renewed], heartbeat, ttl)
    ensures runsOut == LastAt(start, heartbeat, beats[..renewed]) + ttl
  {
    renewed, runsOut := 0, start + ttl;
    var now := start;
    while renewed < |beats|
      invariant renewed <= |beats| && forall k | 0 <= k < renewed :: InTime(beats[k], heartbeat, ttl)
      invariant now == LastAt(start, heartbeat, beats[..renewed]) && runsOut == now + ttl
    {
      var beat := beats[renewed];
      assert beats[..renewed + 1][..renewed] == beats[..renewed];
      now := now + heartbeat + beat.lag;
      // The store renews the lock only while it still stands.
      if !beat.answered || now >= runsOut { return; }
      renewed, runsOut := renewed + 1, now + ttl;
    }
  }
}
