/**
 The session lease: any number of queued workers compete for one session while its lock may expire under them.

 A worker takes the next fence number, tries to set the lock, stamps the document without condition, and then
 writes under its lease.  The lock can vanish at any moment (its time runs out, its store fails), so two
 workers can be inside the turn body at once; what keeps them apart then is the stamp on the document.
 */
module Lease {
  import opened Options

  /** What `acquire_session_lease` returns. */
  datatype Acquire = Got(token: int) | Contended(token: int) | Unavailable

  datatype Entry = Leased(token: int) | Unleased | RetryLater | DroppedOut

  /** The decision after the first attempt. */
  function AfterFirst(a: Acquire): Entry {
    match a
    case Got(t) => Leased(t)
    case Contended(_) => RetryLater
    case Unavailable => Unleased
  }

  /** The decision after the second one. */
  function AfterSecond(a: Acquire): Entry {
    match a
    case Got(t) => Leased(t)
    case Contended(_) => DroppedOut
    case Unavailable => Unleased
  }

  predicate PositiveToken(a: Acquire) { (a.Got? ==> a.token > 0) && (a.Contended? ==> a.token > 0) }

  /**
   The acquisition part of `handle_cadence_dm_queued`, with its flag and token variables.  The turn body is
   entered unless the session was contended both times; an unavailable lock store lets the turn run without
   a lease.
   */
  method EnterTurn(enabled: bool, first: Acquire, second: Acquire) returns (entry: Entry)
    requires PositiveToken(first) && PositiveToken(second)
    ensures entry == DroppedOut <==> enabled && first.Contended? && second.Contended?
    ensures entry.Leased? <==> enabled && (first.Got? || (first.Contended? && second.Got?))
    ensures entry.Leased? ==> entry.token == if first.Got? then first.token else second.token
    ensures entry == if !enabled then Unleased else if AfterFirst(first) == RetryLater then AfterSecond(second) else AfterFirst(first)
  {
    var acquired, token := false, 0;
    if enabled {
      match first
      case Got(t) => acquired, token := true, t;
      case Contended(t) => token := t;
      case Unavailable =>
    }
    if enabled && !acquired && token > 0 {
      match second
      case Got(t) => acquired, token := true, t;
      case Contended(t) => acquired, token := false, t;
      case Unavailable => acquired, token := false, 0;
    }
    if enabled && !acquired && token > 0 { return DroppedOut; }
    entry := if enabled && acquired && token > 0 then Leased(token) else Unleased;
  }

  // ---------------------------------------------------------------------------
  // All workers together
  // ---------------------------------------------------------------------------

  /** `Stamping(t)` has the lock's token and has not stamped yet; `Body(t)` writes under lease `t`. */
  datatype Phase = Start | Retrying | Stamping(token: int) | Body(token: int) | BodyUnleased | Dropped | Done

  /** `stamped` is the token of the latest stamp, `version` what the document holds. */
  datatype State = State(lock: Option<int>, fence: nat, version: Option<int>, stamped: Option<int>, workers: seq<Phase>)

  /** How the lock store behaves in one attempt: up, or failing before or after the counter and the lock. */
  datatype Store = Up | Down(counted: bool, locked: bool)

  datatype Action =
    | TryAcquire(i: nat, store: Store)
    | Stamp(i: nat, ok: bool)
    | LeasedWrite(i: nat)
    | TaskFieldWrite(i: nat)
    | PlainWrite
    | Release(i: nat, ok: bool)
    | Expire

  function PhaseOf(e: Entry): Phase {
    match e
    case Leased(t) => Stamping(t)
    case Unleased => BodyUnleased
    case RetryLater => Retrying
    case DroppedOut => Dropped
  }

  /** `acquire_session_lease`: count first, then set the lock if it is free. */
  function Attempt(s: State, store: Store): (State, Acquire) {
    match store
    case Up =>
      var t := s.fence + 1;
      if s.lock.None? then (s.(fence := t, lock := Some(t)), Got(t)) else (s.(fence := t), Contended(t))
    case Down(counted, locked) =>
      var t := if counted then s.fence + 1 else s.fence;
      (s.(fence := t, lock := if counted && locked && s.lock.None? then Some(t) else s.lock), Unavailable)
  }

  /** The write of worker `i` takes effect. */
  predicate Commits(s: State, a: Action, enforce: bool) {
    match a
    case LeasedWrite(i) => i < |s.workers| && s.workers[i].Body? && (enforce ==> s.version == Some(s.workers[i].token))
    case TaskFieldWrite(i) =>
      i < |s.workers| && (if s.workers[i].Body? then s.version == Some(s.workers[i].token)
                          else s.workers[i] == BodyUnleased && !enforce)
    case PlainWrite => true
    case _ => false
  }

  function Fire(s: State, a: Action, enforce: bool): State {
    if !a.PlainWrite? && !a.Expire? && a.i >= |s.workers| then s
    else
      match a
      case TryAcquire(i, store) =>
        if s.workers[i] == Start then
          var (t, got) := Attempt(s, store);
          t.(workers := t.workers[i := PhaseOf(AfterFirst(got))])
        else if s.workers[i] == Retrying then
          var (t, got) := Attempt(s, store);
          t.(workers := t.workers[i := PhaseOf(AfterSecond(got))])
        else s
      case Stamp(i, ok) =>
        if !s.workers[i].Stamping? then s
        else
          var t := s.workers[i].token;
          var next := s.(workers := s.workers[i := Body(t)]);
          if ok then next.(version := Some(t), stamped := Some(t)) else next
      case LeasedWrite(i) => if Commits(s, a, enforce) then s.(version := Some(s.workers[i].token)) else s
      case TaskFieldWrite(i) =>
        if Commits(s, a, enforce) && s.workers[i].Body? then s.(version := Some(s.workers[i].token)) else s
      case PlainWrite => s
      case Release(i, ok) =>
        if !s.workers[i].Body? && s.workers[i] != BodyUnleased then s
        else s.(workers := s.workers[i := Done],
                lock := if ok && s.workers[i].Body? && s.lock == Some(s.workers[i].token) then None else s.lock)
      case Expire => s.(lock := None)
  }

  function Run(s: State, actions: seq<Action>, enforce: bool): State {
    if actions == [] then s else Fire(Run(s, actions[..|actions| - 1], enforce), actions[|actions| - 1], enforce)
  }

  predicate Holds(p: Phase) { p.Stamping? || p.Body? }

  ghost predicate DistinctTokens(s: State) {
    forall i, j | 0 <= i < j < |s.workers| && Holds(s.workers[i]) && Holds(s.workers[j]) ::
      s.workers[i].token != s.workers[j].token
  }

  predicate TokenInRange(s: State, i: nat)
    requires i < |s.workers|
  {
    Holds(s.workers[i]) ==> 0 < s.workers[i].token <= s.fence
  }

  /** A worker that has not stamped yet is not on the document. */
  predicate NotYetStamped(s: State, i: nat)
    requires i < |s.workers|
  {
    s.workers[i].Stamping? ==> s.version != Some(s.workers[i].token) && s.stamped != Some(s.workers[i].token)
  }

  predicate InRange(v: Option<int>, fence: nat) { v.Some? ==> v.value <= fence }

  ghost predicate LeaseInv(s: State, enforce: bool) {
    && DistinctTokens(s)
    && (forall i | 0 <= i < |s.workers| :: TokenInRange(s, i) && NotYetStamped(s, i))
    && InRange(s.version, s.fence) && InRange(s.stamped, s.fence) && InRange(s.lock, s.fence)
    && (enforce ==> s.version == s.stamped)
  }

  predicate Fresh(s: State) {
    s.version.None? && s.stamped.None? && s.lock.None? && forall i | 0 <= i < |s.workers| :: s.workers[i] == Start
  }

  lemma AttemptFacts(s: State, store: Store)
    ensures var (t, got) := Attempt(s, store);
            && t.fence >= s.fence && t.version == s.version && t.stamped == s.stamped && t.workers == s.workers
            && (got.Got? ==> got.token == t.fence > s.fence && t.lock == Some(t.fence) && s.lock.None?)
            && (t.lock == s.lock || t.lock == Some(t.fence))
  {}

  lemma StepKeepsDistinct(s: State, a: Action, enforce: bool)
    requires LeaseInv(s, enforce)
    ensures DistinctTokens(Fire(s, a, enforce)) && |Fire(s, a, enforce).workers| == |s.workers|
  {
    var t := Fire(s, a, enforce);
    if a.TryAcquire? { AttemptFacts(s, a.store); }
    forall i, j | 0 <= i < j < |s.workers| && Holds(t.workers[i]) && Holds(t.workers[j])
      ensures t.workers[i].token != t.workers[j].token
    {
      assert TokenInRange(s, i) && TokenInRange(s, j);
    }
  }

  lemma StepKeepsInv(s: State, a: Action, enforce: bool)
    requires LeaseInv(s, enforce)
    ensures LeaseInv(Fire(s, a, enforce), enforce) && |Fire(s, a, enforce).workers| == |s.workers|
  {
    StepKeepsDistinct(s, a, enforce);
    var t := Fire(s, a, enforce);
    if a.TryAcquire? { AttemptFacts(s, a.store); }
    if !a.PlainWrite? && !a.Expire? && a.i < |s.workers| { assert TokenInRange(s, a.i); }
    forall i | 0 <= i < |s.workers| ensures TokenInRange(t, i) && NotYetStamped(t, i) {
      assert TokenInRange(s, i) && NotYetStamped(s, i);
    }
  }

  /** No two workers ever hold the same token. */
  lemma {:induction false} TokensUnique(s: State, actions: seq<Action>, enforce: bool)
    requires Fresh(s)
    ensures LeaseInv(Run(s, actions, enforce), enforce) && |Run(s, actions, enforce).workers| == |s.workers|
  {
    if actions != [] {
      TokensUnique(s, actions[..|actions| - 1], enforce);
      StepKeepsInv(Run(s, actions[..|actions| - 1], enforce), actions[|actions| - 1], enforce);
    }
  }

  /**
   Under enforcement, between one stamp and the next the only writes made with a lease that take effect are
   those of the worker that stamped last, and task-field writes without a lease never do.
   */
  lemma OnlyLastStampCommits(s: State, actions: seq<Action>, a: Action)
    requires Fresh(s)
    ensures var t := Run(s, actions, true);
            && (a.LeasedWrite? && Commits(t, a, true) ==>
                  t.stamped == Some(t.workers[a.i].token) && Fire(t, a, true).version == t.stamped)
            && (a.TaskFieldWrite? && Commits(t, a, true) ==>
                  t.workers[a.i].Body? && t.stamped == Some(t.workers[a.i].token))
  {
    TokensUnique(s, actions, true);
  }

  /** Worker `i` is in the body under a lease the document no longer carries. */
  predicate Superseded(s: State, i: nat, token: int) {
    i < |s.workers| && (s.workers[i] == Body(token) || s.workers[i] == Done) && s.version != Some(token)
  }

  ghost predicate NooneElse(s: State, i: nat, token: int) {
    forall j | 0 <= j < |s.workers| && j != i && Holds(s.workers[j]) :: s.workers[j].token != token
  }

  lemma SupersededStep(s: State, a: Action, i: nat, token: int)
    requires LeaseInv(s, true) && Superseded(s, i, token) && NooneElse(s, i, token) && token <= s.fence
    ensures !(a.LeasedWrite? && a.i == i && Commits(s, a, true)) && !(a.TaskFieldWrite? && a.i == i && Commits(s, a, true))
    ensures Superseded(Fire(s, a, true), i, token) && NooneElse(Fire(s, a, true), i, token)
    ensures token <= Fire(s, a, true).fence
  {
    if a.TryAcquire? { AttemptFacts(s, a.store); }
  }

  /**
   Under enforcement a worker whose stamp was replaced while it is in the body stays shut out: from any such
   reachable state on, the document never carries its token again, so none of its writes takes effect.
   */
  lemma {:induction false} SupersededForever(s: State, later: seq<Action>, i: nat, token: int)
    requires LeaseInv(s, true) && Superseded(s, i, token) && s.workers[i] == Body(token)
    ensures var t := Run(s, later, true);
            && LeaseInv(t, true) && Superseded(t, i, token) && NooneElse(t, i, token) && token <= t.fence
            && !Commits(t, LeasedWrite(i), true) && !Commits(t, TaskFieldWrite(i), true)
  {
    if later == [] {
      assert TokenInRange(s, i);
    } else {
      var t := Run(s, later[..|later| - 1], true);
      SupersededForever(s, later[..|later| - 1], i, token);
      StepKeepsInv(t, later[|later| - 1], true);
      SupersededStep(t, later[|later| - 1], i, token);
    }
  }

  /** Without enforcement a superseded worker's next write goes through and takes the document back. */
  lemma UnenforcedTakesBack(s: State, i: nat, token: int)
    requires i < |s.workers| && s.workers[i] == Body(token)
    ensures Commits(s, LeasedWrite(i), false) && Fire(s, LeasedWrite(i), false).version == Some(token)
  {}

  /**
   The fence compares stamps, not numbers: a worker that lost its lock before stamping shuts out a worker
   with a higher token when it stamps at last.
   */
  lemma LateStampWins()
    ensures var s := State(None, 0, None, None, [Start, Start]);
            var t := Fire(Fire(Fire(Fire(Fire(s, TryAcquire(0, Up), true), Expire, true), TryAcquire(1, Up), true),
                               Stamp(1, true), true), Stamp(0, true), true);
            && t.workers == [Body(1), Body(2)]
            && Commits(t, LeasedWrite(0), true) && !Commits(t, LeasedWrite(1), true)
  {
    var s := State(None, 0, None, None, [Start, Start]);
    var t1 := Fire(Fire(s, TryAcquire(0, Up), true), Expire, true);
    assert t1.workers == [Stamping(1), Start] && t1.fence == 1;
    var t2 := Fire(t1, TryAcquire(1, Up), true);
    assert t2.workers == [Stamping(1), Stamping(2)];
    var t3 := Fire(t2, Stamp(1, true), true);
    assert t3.workers == [Stamping(1), Body(2)];
  }

  // ---------------------------------------------------------------------------
  // Entering the body
  // ---------------------------------------------------------------------------

  /** The lock goes away other than by its holder's release, or is set by an attempt reported as failed. */
  predicate LockLost(a: Action) { a.Expire? || (a.TryAcquire? && a.store.Down?) }

  ghost predicate Exclusive(s: State) {
    forall i | 0 <= i < |s.workers| && Holds(s.workers[i]) :: s.lock == Some(s.workers[i].token)
  }

  /** While locks are neither lost nor orphaned, at most one worker with a lease is between acquiring and releasing. */
  lemma {:induction false} ExclusiveWhileLocked(s: State, actions: seq<Action>, enforce: bool)
    requires Fresh(s) && forall k | 0 <= k < |actions| :: !LockLost(actions[k])
    ensures var t := Run(s, actions, enforce);
            && Exclusive(t)
            && forall i, j | 0 <= i < j < |t.workers| :: !(Holds(t.workers[i]) && Holds(t.workers[j]))
  {
    if actions != [] {
      var n := |actions| - 1;
      ExclusiveWhileLocked(s, actions[..n], enforce);
      TokensUnique(s, actions[..n], enforce);
      TokensUnique(s, actions, enforce);
      var t, a := Run(s, actions[..n], enforce), actions[n];
      assert !LockLost(a);
      if a.TryAcquire? { AttemptFacts(t, a.store); }
      assert Exclusive(Fire(t, a, enforce));
    }
  }

  /** A worker that was contended twice is dropped for good: it never enters the body and nothing it does commits. */
  lemma {:induction false} DroppedStaysOut(s: State, later: seq<Action>, enforce: bool, i: nat)
    requires i < |s.workers| && s.workers[i] == Dropped
    ensures var t := Run(s, later, enforce);
            && i < |t.workers| && t.workers[i] == Dropped
            && !Commits(t, LeasedWrite(i), enforce) && !Commits(t, TaskFieldWrite(i), enforce)
  {
    if later != [] { DroppedStaysOut(s, later[..|later| - 1], enforce, i); }
  }

  /** A worker that meets a free lock and is left alone gets it, stamps, writes under its lease and frees the lock again. */
  lemma UndisturbedTurn(s: State, i: nat, enforce: bool)
    requires i < |s.workers| && s.workers[i] == Start && s.lock.None?
    ensures var t := s.fence + 1;
            var got := Fire(s, TryAcquire(i, Up), enforce);
            var stamped := Fire(got, Stamp(i, true), enforce);
            var done := Fire(stamped, Release(i, true), enforce);
            && got.lock == Some(t) && got.fence == t && got.workers == s.workers[i := Stamping(t)] && got.version == s.version
            && stamped.version == stamped.stamped == Some(t) && stamped.workers == s.workers[i := Body(t)]
            && Commits(stamped, LeasedWrite(i), enforce) && Commits(stamped, TaskFieldWrite(i), enforce)
            && done.lock.None? && done.workers == s.workers[i := Done] && done.version == Some(t)
  {}

  /** A worker that meets the lock of another twice is dropped and leaves lock and document alone. */
  lemma ContendedTwice(s: State, i: nat, enforce: bool)
    requires i < |s.workers| && s.workers[i] == Start && s.lock.Some?
    ensures var again := Fire(s, TryAcquire(i, Up), enforce);
            var out := Fire(again, TryAcquire(i, Up), enforce);
            && again.workers == s.workers[i := Retrying] && out.workers == s.workers[i := Dropped]
            && out.lock == s.lock && out.version == s.version && out.fence == s.fence + 2
  {}

  /** Without an answer of the lock store a worker enters without a lease, and writes task fields exactly without enforcement. */
  lemma UnleasedEntry(s: State, i: nat, counted: bool, locked: bool, enforce: bool)
    requires i < |s.workers| && s.workers[i] in {Start, Retrying}
    ensures var t := Fire(s, TryAcquire(i, Down(counted, locked)), enforce);
            && t.workers == s.workers[i := BodyUnleased] && t.version == s.version
            && t.fence == s.fence + (if counted then 1 else 0)
            && t.lock == (if counted && locked && s.lock.None? then Some(t.fence) else s.lock)
            && (Commits(t, TaskFieldWrite(i), enforce) <==> !enforce) && !Commits(t, LeasedWrite(i), enforce)
  {}

  /** Leaving the body frees the lock exactly if it is the worker's own and the store answers; a lock can expire any time. */
  lemma ReleaseFreesOwn(s: State, i: nat, ok: bool, enforce: bool)
    requires i < |s.workers| && (s.workers[i].Body? || s.workers[i] == BodyUnleased)
    ensures var t := Fire(s, Release(i, ok), enforce);
            && t.workers == s.workers[i := Done] && t.version == s.version
            && t.lock == (if ok && s.workers[i].Body? && s.lock == Some(s.workers[i].token) then None else s.lock)
    ensures Fire(s, Expire, enforce) == s.(lock := None)
  {}

  /** A write made without a lease's filter always goes through and leaves the stamp as it is; no other step is a write. */
  lemma UnfilteredWrites(s: State, i: nat, enforce: bool, a: Action)
    ensures Commits(s, PlainWrite, enforce) && Fire(s, PlainWrite, enforce) == s
    ensures !a.LeasedWrite? && !a.TaskFieldWrite? && !a.PlainWrite? ==> !Commits(s, a, enforce)
  {}

  /** A stamp that fails leaves the worker in the body with a document that does not carry its token. */
  lemma FailedStampShutsOut(s: State, i: nat)
    requires LeaseInv(s, true) && i < |s.workers| && s.workers[i].Stamping?
    ensures var t := Fire(s, Stamp(i, false), true);
            t.workers == s.workers[i := Body(s.workers[i].token)] && t.version == s.version && !Commits(t, LeasedWrite(i), true)
  {
    assert NotYetStamped(s, i);
  }
}
