/**
 The two ways a finished session is counted: the loop behind the stored summary, and the fallback loop of the
 closing message.
 */
module Tallies {
  import opened Options
  import opened Text
  import SessionModel

  type Task = SessionModel.Task

  predicate Changed(t: Task) { t.updatedStatus.Some? && t.updatedStatus.value != t.status }

  predicate Commented(t: Task) { t.comment.Some? && Strip(t.comment.value) != "" }

  /** The four kinds of task a session can end with. */
  datatype Kind = Completed | Updated | OnlyCommented | Skipped

  function KindOf(t: Task, done: string -> bool): Kind {
    if Changed(t) then (if done(t.updatedStatus.value) then Completed else Updated)
    else if Commented(t) then OnlyCommented
    else Skipped
  }

  /** Finished and otherwise changed tasks have a status other than the one they came with; the rest is told by the comment. */
  lemma KindIff(t: Task, done: string -> bool)
    ensures var changed := t.updatedStatus != None && t.updatedStatus != Some(t.status);
            var commented := t.comment != None && Strip(t.comment.value) != "";
            && (KindOf(t, done) == Completed <==> changed && done(t.updatedStatus.value))
            && (KindOf(t, done) == Updated <==> changed && !done(t.updatedStatus.value))
            && (KindOf(t, done) == OnlyCommented <==> !changed && commented)
            && (KindOf(t, done) == Skipped <==> !changed && !commented)
  {}

  function Count(tasks: seq<Task>, done: string -> bool, kind: Kind): nat {
    if tasks == [] then 0
    else Count(tasks[..|tasks| - 1], done, kind) + (if KindOf(tasks[|tasks| - 1], done) == kind then 1 else 0)
  }

  /** Every task is of exactly one kind. */
  lemma {:induction false} KindsPartition(tasks: seq<Task>, done: string -> bool)
    ensures Count(tasks, done, Completed) + Count(tasks, done, Updated) + Count(tasks, done, OnlyCommented)
            + Count(tasks, done, Skipped) == |tasks|
  {
    if tasks != [] { KindsPartition(tasks[..|tasks| - 1], done); }
  }

  /** The loop of `build_and_store_session_summary`. */
  method StoredCounts(tasks: seq<Task>, done: string -> bool) returns (completed: nat, updated: nat, skipped: nat)
    ensures completed == Count(tasks, done, Completed) && updated == Count(tasks, done, Updated)
    ensures skipped == Count(tasks, done, Skipped)
  {
    completed, updated, skipped := 0, 0, 0;
    for i := 0 to |tasks|
      invariant completed == Count(tasks[..i], done, Completed) && updated == Count(tasks[..i], done, Updated)
      invariant skipped == Count(tasks[..i], done, Skipped)
    {
      var t := tasks[i];
      assert tasks[..i + 1][..i] == tasks[..i];
      if Changed(t) && done(t.updatedStatus.value) { completed := completed + 1; }
      else if Changed(t) { updated := updated + 1; }
      else if !Commented(t) { skipped := skipped + 1; }
    }
    assert tasks[..|tasks|] == tasks;
  }

  /** The fallback loop of `send_session_summary`; its three counts cover every task. */
  method FallbackCounts(tasks: seq<Task>, done: string -> bool) returns (completed: nat, updated: nat, skipped: nat)
    ensures completed == Count(tasks, done, Completed) && skipped == Count(tasks, done, Skipped)
    ensures updated == Count(tasks, done, Updated) + Count(tasks, done, OnlyCommented)
    ensures completed + updated + skipped == |tasks|
  {
    completed, updated, skipped := 0, 0, 0;
    for i := 0 to |tasks|
      invariant completed == Count(tasks[..i], done, Completed) && skipped == Count(tasks[..i], done, Skipped)
      invariant updated == Count(tasks[..i], done, Updated) + Count(tasks[..i], done, OnlyCommented)
    {
      var t := tasks[i];
      assert tasks[..i + 1][..i] == tasks[..i];
      if Changed(t) && done(t.updatedStatus.value) { completed := completed + 1; }
      else if Changed(t) || Commented(t) { updated := updated + 1; }
      else { skipped := skipped + 1; }
    }
    assert tasks[..|tasks|] == tasks;
    KindsPartition(tasks, done);
  }
}
