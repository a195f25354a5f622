/**
 Replay protection for write tools: a cache from operation ids to the results of earlier successful calls.

 The operation id is a digest of the call itself; ids supplied by the caller are dropped before it is
 computed.  The store behind the cache may fail to answer a read or to keep a write, and forgets an entry
 after its time to live.
 */
module OperationReplay {
  import opened Options

  type Args = map<string, string>

  const OPERATION_ID := "operation_id"

  /** Arguments as they enter every digest. */
  function Digestible(args: Args): Args { args - {OPERATION_ID} }

  /** A tool's answer; the pairs are its string-valued entries, `nested` those one level down. */
  datatype ToolResult = ToolResult(ok: bool, top: seq<(string, string)>, nested: seq<seq<(string, string)>>)

  datatype OpPayload = OpPayload(tool: string, runId: string, sessionKey: string, scopeHash: string, argsHash: string)

  datatype CacheEntry = CacheEntry(tool: string, argsHash: string, scopeHash: string, result: ToolResult, expiresAt: int)

  datatype Outcome =
    | GuardUnavailable
    | Conflict
    | Replayed(result: ToolResult)
    | Executed(result: ToolResult, stored: bool)

  /** One pass of a write call through the cache. */
  datatype Invocation = Invocation(op: OpPayload, now: int, readOk: bool, outcome: Outcome)

  datatype Decision = Run | Stop(outcome: Outcome)

  predicate Matches(e: CacheEntry, op: OpPayload) {
    e.tool == op.tool && e.argsHash == op.argsHash && e.scopeHash == op.scopeHash
  }

  predicate Stored(v: Invocation) { v.outcome.Executed? && v.outcome.stored }

  // ---------------------------------------------------------------------------
  // Properties of a log of invocations
  // ---------------------------------------------------------------------------

  ghost predicate Ordered(log: seq<Invocation>) {
    forall i, j | 0 <= i <= j < |log| :: log[i].now <= log[j].now
  }

  /** Once a call succeeded and was stored, the same call is not executed again while the entry lives and can be read. */
  ghost predicate AtMostOnce(log: seq<Invocation>, ttl: int) {
    forall i, j | 0 <= i < j < |log| :: NotRepeated(log[i], log[j], ttl)
  }

  predicate NotRepeated(v: Invocation, later: Invocation, ttl: int) {
    Stored(v) && later.outcome.Executed? && later.op == v.op ==> later.now >= v.now + ttl || !later.readOk
  }

  /** The result replayed at `j` was stored by an earlier call with the same digest, tool, arguments and scope. */
  ghost predicate ReplaySource(log: seq<Invocation>, hashOp: OpPayload -> string, i: nat, j: nat)
    requires i < |log| && j < |log| && log[j].outcome.Replayed?
  {
    && Stored(log[i]) && log[i].outcome.result == log[j].outcome.result
    && hashOp(log[i].op) == hashOp(log[j].op)
    && log[i].op.tool == log[j].op.tool && log[i].op.argsHash == log[j].op.argsHash
    && log[i].op.scopeHash == log[j].op.scopeHash
  }

  predicate Collide(a: OpPayload, b: OpPayload, hashOp: OpPayload -> string) { a != b && hashOp(a) == hashOp(b) }

  /** What is known about the record at `j`: a replay has a source, a conflict is a digest collision. */
  ghost predicate Explained(log: seq<Invocation>, hashOp: OpPayload -> string, j: nat)
    requires j < |log|
  {
    && (log[j].outcome.Replayed? ==> exists i | 0 <= i < j :: ReplaySource(log, hashOp, i, j))
    && (log[j].outcome.Conflict? ==> exists i | 0 <= i < j :: Collide(log[i].op, log[j].op, hashOp))
  }

  ghost predicate AllExplained(log: seq<Invocation>, hashOp: OpPayload -> string) {
    forall j | 0 <= j < |log| :: Explained(log, hashOp, j)
  }

  ghost predicate Injective(hashOp: OpPayload -> string) {
    forall a, b | hashOp(a) == hashOp(b) :: a == b
  }

  /** With a collision-free digest the conflict answer is never given, and replays come from the very same call. */
  lemma NoConflictWithoutCollision(log: seq<Invocation>, hashOp: OpPayload -> string, j: nat)
    requires AllExplained(log, hashOp) && j < |log|
    ensures Injective(hashOp) ==> !log[j].outcome.Conflict?
    ensures Injective(hashOp) && log[j].outcome.Replayed? ==>
              exists i | 0 <= i < j ::
                Stored(log[i]) && log[i].op == log[j].op && log[i].outcome.result == log[j].outcome.result
  {
    assert Explained(log, hashOp, j);
    if Injective(hashOp) && log[j].outcome.Replayed? {
      var i :| 0 <= i < j && ReplaySource(log, hashOp, i, j);
    }
  }

  // ---------------------------------------------------------------------------
  // Log and cache together
  // ---------------------------------------------------------------------------

  /** The entry under `k` is what some logged call stored. */
  ghost predicate Origin(log: seq<Invocation>, hashOp: OpPayload -> string, ttl: int, k: string, e: CacheEntry, i: nat)
    requires i < |log|
  {
    && Stored(log[i]) && hashOp(log[i].op) == k && Matches(e, log[i].op) && e.result == log[i].outcome.result
    && e.expiresAt == log[i].now + ttl
  }

  /** A stored call's entry has not been dropped and lives at least its full time. */
  ghost predicate KeptAlive(v: Invocation, entries: map<string, CacheEntry>, hashOp: OpPayload -> string, ttl: int) {
    Stored(v) ==> hashOp(v.op) in entries && entries[hashOp(v.op)].expiresAt >= v.now + ttl
  }

  ghost predicate CacheInv(log: seq<Invocation>, entries: map<string, CacheEntry>, hashOp: OpPayload -> string, ttl: int) {
    && ttl >= 1
    && Ordered(log) && AtMostOnce(log, ttl) && AllExplained(log, hashOp)
    && (forall i | 0 <= i < |log| :: KeptAlive(log[i], entries, hashOp, ttl))
    && (forall k | k in entries :: exists i | 0 <= i < |log| :: Origin(log, hashOp, ttl, k, entries[k], i))
  }

  predicate Alive(entries: map<string, CacheEntry>, k: string, now: int) { k in entries && now < entries[k].expiresAt }

  lemma OrderAppend(log: seq<Invocation>, v: Invocation, ttl: int)
    requires Ordered(log) && AtMostOnce(log, ttl)
    requires log != [] ==> log[|log| - 1].now <= v.now
    requires forall i | 0 <= i < |log| :: NotRepeated(log[i], v, ttl)
    ensures Ordered(log + [v]) && AtMostOnce(log + [v], ttl)
  {}

  lemma ExplainedAppend(log: seq<Invocation>, v: Invocation, hashOp: OpPayload -> string)
    requires AllExplained(log, hashOp) && Explained(log + [v], hashOp, |log|)
    ensures AllExplained(log + [v], hashOp)
  {
    var next := log + [v];
    forall j | 0 <= j < |log| ensures Explained(next, hashOp, j) {
      assert Explained(log, hashOp, j);
      if log[j].outcome.Replayed? {
        var i :| 0 <= i < j && ReplaySource(log, hashOp, i, j);
        assert ReplaySource(next, hashOp, i, j);
      }
      if log[j].outcome.Conflict? {
        var i :| 0 <= i < j && Collide(log[i].op, log[j].op, hashOp);
        assert Collide(next[i].op, next[j].op, hashOp);
      }
    }
  }

  lemma OriginsKept(log: seq<Invocation>, v: Invocation, hashOp: OpPayload -> string, ttl: int, entries: map<string, CacheEntry>)
    requires forall k | k in entries :: exists i | 0 <= i < |log| :: Origin(log, hashOp, ttl, k, entries[k], i)
    ensures forall k | k in entries :: exists i | 0 <= i < |log| + 1 :: Origin(log + [v], hashOp, ttl, k, entries[k], i)
  {
    forall k | k in entries ensures exists i | 0 <= i < |log| + 1 :: Origin(log + [v], hashOp, ttl, k, entries[k], i) {
      var i :| 0 <= i < |log| && Origin(log, hashOp, ttl, k, entries[k], i);
      assert Origin(log + [v], hashOp, ttl, k, entries[k], i);
    }
  }

  /** A call answered without running the tool. */
  lemma StopKeepsInv(log: seq<Invocation>, entries: map<string, CacheEntry>, hashOp: OpPayload -> string, ttl: int,
                     v: Invocation)
    requires CacheInv(log, entries, hashOp, ttl)
    requires log != [] ==> log[|log| - 1].now <= v.now
    requires !v.outcome.Executed?
    requires v.outcome.Replayed? || v.outcome.Conflict? ==> hashOp(v.op) in entries
    requires v.outcome.Replayed? ==>
               Matches(entries[hashOp(v.op)], v.op) && v.outcome.result == entries[hashOp(v.op)].result
    requires v.outcome.Conflict? ==> !Matches(entries[hashOp(v.op)], v.op)
    ensures CacheInv(log + [v], entries, hashOp, ttl)
  {
    var next, k := log + [v], hashOp(v.op);
    OrderAppend(log, v, ttl);
    OriginsKept(log, v, hashOp, ttl, entries);
    assert Explained(next, hashOp, |log|) by {
      if v.outcome.Replayed? || v.outcome.Conflict? {
        var i :| 0 <= i < |log| && Origin(log, hashOp, ttl, k, entries[k], i);
        if v.outcome.Replayed? {
          assert ReplaySource(next, hashOp, i, |log|);
        } else {
          assert Collide(next[i].op, next[|log|].op, hashOp);
        }
      }
    }
    ExplainedAppend(log, v, hashOp);
  }

  /** A call whose tool ran because no live entry for it could be read. */
  lemma RunKeepsInv(log: seq<Invocation>, entries: map<string, CacheEntry>, hashOp: OpPayload -> string, ttl: int,
                    v: Invocation, after: map<string, CacheEntry>)
    requires CacheInv(log, entries, hashOp, ttl)
    requires log != [] ==> log[|log| - 1].now <= v.now
    requires v.outcome.Executed? && (v.readOk ==> !Alive(entries, hashOp(v.op), v.now))
    requires after == if Stored(v)
                      then entries[hashOp(v.op) := CacheEntry(v.op.tool, v.op.argsHash, v.op.scopeHash, v.outcome.result, v.now + ttl)]
                      else entries
    ensures CacheInv(log + [v], after, hashOp, ttl)
  {
    var next, k := log + [v], hashOp(v.op);
    forall i | 0 <= i < |log| ensures NotRepeated(log[i], v, ttl) {
      assert KeptAlive(log[i], entries, hashOp, ttl);
    }
    OrderAppend(log, v, ttl);
    OriginsKept(log, v, hashOp, ttl, entries);
    assert Explained(next, hashOp, |log|);
    ExplainedAppend(log, v, hashOp);
    forall i | 0 <= i < |next| ensures KeptAlive(next[i], after, hashOp, ttl) {
      if i < |log| { assert KeptAlive(log[i], entries, hashOp, ttl) && log[i].now <= v.now; }
    }
    forall q | q in after ensures exists i | 0 <= i < |next| :: Origin(next, hashOp, ttl, q, after[q], i) {
      if Stored(v) && q == k {
        assert Origin(next, hashOp, ttl, q, after[q], |log|);
      }
    }
  }

  /**
   While an entry lives, the same call is answered from it: the lookup finds it, it matches, and what it
   returns was stored by an execution of that same call.  Nothing in a call's digest names the agenda task it
   is meant for, so this holds across the tasks of a session too.
   */
  lemma StoredCallIsReplayed(log: seq<Invocation>, entries: map<string, CacheEntry>, hashOp: OpPayload -> string, ttl: int,
                             i: nat, now: int)
    requires CacheInv(log, entries, hashOp, ttl) && Injective(hashOp)
    requires i < |log| && Stored(log[i]) && now < log[i].now + ttl
    ensures var k := hashOp(log[i].op);
            && Alive(entries, k, now) && Matches(entries[k], log[i].op)
            && exists j | 0 <= j < |log| ::
                 Stored(log[j]) && log[j].op == log[i].op && log[j].outcome.result == entries[k].result
  {
    var k := hashOp(log[i].op);
    assert KeptAlive(log[i], entries, hashOp, ttl);
    var j :| 0 <= j < |log| && Origin(log, hashOp, ttl, k, entries[k], j);
  }

  /** A call with this one's id succeeded and was stored less than the time to live before `now`. */
  ghost predicate StoredSince(log: seq<Invocation>, hashOp: OpPayload -> string, ttl: int, op: OpPayload, now: int) {
    exists i | 0 <= i < |log| :: Stored(log[i]) && hashOp(log[i].op) == hashOp(op) && now < log[i].now + ttl
  }

  /**
   An entry lives exactly as long as some stored call with its id is younger than the time to live: before that
   the call is answered from it, after that it runs again.
   */
  lemma AliveIffStoredSince(log: seq<Invocation>, entries: map<string, CacheEntry>, hashOp: OpPayload -> string, ttl: int,
                            op: OpPayload, now: int)
    requires CacheInv(log, entries, hashOp, ttl)
    ensures Alive(entries, hashOp(op), now) <==> StoredSince(log, hashOp, ttl, op, now)
  {
    var k := hashOp(op);
    if Alive(entries, k, now) {
      var i :| 0 <= i < |log| && Origin(log, hashOp, ttl, k, entries[k], i);
    }
    if i :| 0 <= i < |log| && Stored(log[i]) && hashOp(log[i].op) == k && now < log[i].now + ttl {
      assert KeptAlive(log[i], entries, hashOp, ttl);
    }
  }

  class OperationReplayCache {
    const hashOp: OpPayload -> string
    const ttl: int
    var entries: map<string, CacheEntry>
    ghost var log: seq<Invocation>

    ghost predicate Valid()
      reads this
    {
      CacheInv(log, entries, hashOp, ttl)
    }

    constructor (hashOp: OpPayload -> string, ttlSeconds: int)
      ensures Valid() && log == [] && this.hashOp == hashOp
      ensures ttl == if ttlSeconds >= 1 then ttlSeconds else 1
    {
      this.hashOp := hashOp;
      this.ttl := if ttlSeconds >= 1 then ttlSeconds else 1;
      this.entries := map[];
      this.log := [];
    }

    /** Whether a stored result for this call exists at time `now`. */
    predicate Live(op: OpPayload, now: int)
      reads this
    {
      Alive(entries, hashOp(op), now)
    }

    ghost predicate MayRecord(now: int)
      reads this
    {
      log != [] ==> log[|log| - 1].now <= now
    }

    /**
     The part of `_invoke_non_idempotent_tool` before the tool runs: refuse when the guard store is down and
     degraded mode is off, answer from a live entry, or let the call run.
     */
    method Lookup(op: OpPayload, now: int, guardOk: bool, degradedAllowed: bool, readOk: bool) returns (d: Decision)
      requires Valid() && MayRecord(now)
      modifies this`log
      ensures Valid() && MayRecord(now)
      ensures d == (if !guardOk && !degradedAllowed then Stop(GuardUnavailable)
                    else if !readOk || !Live(op, now) then Run
                    else if Matches(entries[hashOp(op)], op) then Stop(Replayed(entries[hashOp(op)].result))
                    else Stop(Conflict))
      ensures log == if d.Run? then old(log) else old(log) + [Invocation(op, now, readOk, d.outcome)]
    {
      if !guardOk && !degradedAllowed {
        d := Stop(GuardUnavailable);
      } else if readOk && Live(op, now) {
        var cached := entries[hashOp(op)];
        if cached.tool != op.tool || cached.argsHash != op.argsHash || cached.scopeHash != op.scopeHash {
          d := Stop(Conflict);
        } else {
          d := Stop(Replayed(cached.result));
        }
      } else {
        return Run;
      }
      ghost var v := Invocation(op, now, readOk, d.outcome);
      StopKeepsInv(log, entries, hashOp, ttl, v);
      log := log + [v];
    }

    /** The part after the tool ran: keep a successful result. */
    method Finish(op: OpPayload, now: int, readOk: bool, result: ToolResult, storeOk: bool)
      requires Valid() && MayRecord(now)
      requires readOk ==> !Live(op, now)
      modifies this
      ensures Valid() && MayRecord(now)
      ensures log == old(log) + [Invocation(op, now, readOk, Executed(result, result.ok && storeOk))]
      ensures entries == if result.ok && storeOk
                         then old(entries)[hashOp(op) := CacheEntry(op.tool, op.argsHash, op.scopeHash, result, now + ttl)]
                         else old(entries)
    {
      ghost var v := Invocation(op, now, readOk, Executed(result, result.ok && storeOk));
      ghost var before := entries;
      if result.ok && storeOk {
        entries := entries[hashOp(op) := CacheEntry(op.tool, op.argsHash, op.scopeHash, result, now + ttl)];
      }
      RunKeepsInv(log, before, hashOp, ttl, v, entries);
      log := log + [v];
    }
  }
}
