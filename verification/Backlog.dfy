/**
 The backlog phase of a session: the decision, pick and clarification replies and the buttons behind them.

 Reading a reply is not modelled: the task index it names, the verdict of the intent parser and the answer of
 the task provider are inputs.  What is proved is what the handlers then do to the session document.
 */
module Backlog {
  import opened Options
  import opened SessionModel
  import opened SessionRepositoryModel
  import opened Text

  datatype Verdict = Resolved | Unclear | Unsupported

  datatype Intent = ShowBacklog | SkipBacklog | PickTask | OtherIntent

  datatype AdapterAnswer = NoAnswer | Answer(ok: bool, statusUpdated: bool, alreadyProgressed: bool)

  /** One reply in the backlog phase, as its parsers and the outside world decide it. */
  datatype Reply = Reply(candidate: Option<nat>, verdict: Verdict, intent: Intent, expired: bool,
                         adapter: AdapterAnswer, slackUser: bool, now: int)

  datatype PickResult = Picked(remaining: nat) | NotActive | InvalidIndex | MissingExternalId | AdapterRefused
                      | StatusUpdateFailed | RemoveFailed

  /** The mutation happened at the provider. */
  predicate Progressed(a: AdapterAnswer) { a.Answer? && a.ok && (a.statusUpdated || a.alreadyProgressed) }

  /** `_interaction_session_state` says "active". */
  predicate Active(d: SessionDoc, expired: bool) { d.status != Completed && !expired }

  /** Position named by a reply, when there is one. */
  function PickIndex(r: Reply, backlog: seq<BacklogTask>): Option<nat> {
    if r.candidate.Some? && r.candidate.value < |backlog| then r.candidate else None
  }

  // ---------------------------------------------------------------------------
  // Accounting
  // ---------------------------------------------------------------------------

  function AsPicked(t: BacklogTask): PickedTask { PickedTask(t.externalId, t.title) }

  function AllAsPicked(ts: seq<BacklogTask>): seq<PickedTask> { seq(|ts|, i requires 0 <= i < |ts| => AsPicked(ts[i])) }

  /** Everything that was ever in the backlog: what remains and what was picked. */
  function Accounted(d: SessionDoc): multiset<PickedTask> { multiset(AllAsPicked(d.backlog)) + multiset(d.picked) }

  function RemoveAt<T>(s: seq<T>, i: nat): seq<T>
    requires i < |s|
  {
    s[..i] + s[i + 1..]
  }

  lemma RemovedIsAccounted(ts: seq<BacklogTask>, i: nat)
    requires i < |ts|
    ensures multiset(AllAsPicked(ts)) == multiset(AllAsPicked(RemoveAt(ts, i))) + multiset{AsPicked(ts[i])}
  {
    var all := AllAsPicked(ts);
    assert AllAsPicked(RemoveAt(ts, i)) == RemoveAt(all, i);
    assert all == all[..i] + [all[i]] + all[i + 1..];
  }

  /** Remove position `i` of the list read as `snap` and record it as picked, on the document now stored. */
  function RemoveAndRecord(d: SessionDoc, snap: SessionDoc, i: nat): (r: SessionDoc)
    requires i < |snap.backlog|
    ensures r.backlog == RemoveAt(snap.backlog, i) && r.picked == d.picked + [AsPicked(snap.backlog[i])]
  {
    Apply(Apply(d, SetBacklog(RemoveAt(snap.backlog, i))), PushPicked(AsPicked(snap.backlog[i])))
  }

  /**
   The removal is a read followed by a write.  When other writers changed the list in between, the stored
   outcome still accounts for every task exactly if the list found at the write held the same tasks as the
   copy read.
   */
  lemma RemovalConservesIff(d: SessionDoc, snap: SessionDoc, i: nat)
    requires i < |snap.backlog|
    ensures Accounted(RemoveAndRecord(d, snap, i)) == Accounted(d) <==>
            multiset(AllAsPicked(d.backlog)) == multiset(AllAsPicked(snap.backlog))
  {
    var after := RemoveAndRecord(d, snap, i);
    var now, read := multiset(AllAsPicked(d.backlog)), multiset(AllAsPicked(snap.backlog));
    RemovedIsAccounted(snap.backlog, i);
    assert Accounted(after) == read + multiset(d.picked);
    if Accounted(after) == Accounted(d) {
      assert now == Accounted(d) - multiset(d.picked) && read == Accounted(after) - multiset(d.picked);
    }
  }

  lemma SizesDiffer<T>(s: seq<T>, t: seq<T>)
    requires |s| != |t|
    ensures multiset(s) != multiset(t)
  {
    assert |multiset(s)| == |s| && |multiset(t)| == |t|;
  }

  /** A removal from a copy of another length never conserves. */
  lemma OtherLengthLoses(d: SessionDoc, snap: SessionDoc, i: nat)
    requires i < |snap.backlog| && |d.backlog| != |snap.backlog|
    ensures Accounted(RemoveAndRecord(d, snap, i)) != Accounted(d)
  {
    RemovalConservesIff(d, snap, i);
    SizesDiffer(AllAsPicked(d.backlog), AllAsPicked(snap.backlog));
  }

  /** Two picks that both read the list before either wrote it put one task back and record it as picked. */
  lemma ConcurrentPicksLoseCount(d: SessionDoc, a: BacklogTask, b: BacklogTask)
    requires d.backlog == [a, b]
    ensures var second := RemoveAndRecord(RemoveAndRecord(d, d, 0), d, 1);
            second.backlog == [a] && second.picked == d.picked + [AsPicked(a), AsPicked(b)]
            && Accounted(second) != Accounted(d)
  {
    var first := RemoveAndRecord(d, d, 0);
    assert first.backlog == [b] && RemoveAt(d.backlog, 1) == [a];
    assert first.picked == d.picked + [AsPicked(a)];
    RemovalConservesIff(d, d, 0);
    OtherLengthLoses(first, d, 1);
  }

  // ---------------------------------------------------------------------------
  // Handlers
  // ---------------------------------------------------------------------------

  /** `remove_backlog_task_at_index`. */
  method RemoveBacklogTaskAtIndex(repo: SessionRepository, index: int) returns (removed: Option<BacklogTask>)
    requires repo.Valid()
    modifies repo`doc, repo`docs, repo`events
    ensures repo.Valid() && repo.Fenced() == old(repo.Fenced()) && old(repo.docs) <= repo.docs
    ensures removed.Some? <==> 0 <= index < |old(repo.doc.backlog)|
    ensures removed.Some? ==> removed.value == old(repo.doc.backlog[index])
                              && repo.doc == old(repo.After(SetBacklog(RemoveAt(repo.doc.backlog, index)), None))
    ensures removed.None? ==> repo.doc == old(repo.doc)
  {
    var session := repo.doc;
    if index < 0 || index >= |session.backlog| { return None; }
    var _ := repo.Update(SetBacklog(RemoveAt(session.backlog, index)));
    removed := Some(session.backlog[index]);
  }

  /** The change of a pick that went through: the task moves to the record, and the phase goes on or ends. */
  ghost predicate PickApplied(before: SessionDoc, after: SessionDoc, i: nat)
    requires i < |before.backlog|
  {
    && after.backlog == RemoveAt(before.backlog, i)
    && after.picked == before.picked + [AsPicked(before.backlog[i])]
    && after.hasBacklog == (after.backlog != [])
    && (if after.backlog != [] then after.status == AwaitingBacklogDecision && after.completedAt.None?
        else after.status == Completed && after.expiredReason == Some("backlog_empty_after_pick")
             && after.terminal && after.response == Responded)
    && after.clarification == None
    && after.tasks == before.tasks && after.index == before.index
  }

  lemma PickConserves(before: SessionDoc, after: SessionDoc, i: nat)
    requires i < |before.backlog| && PickApplied(before, after, i)
    ensures Accounted(after) == Accounted(before)
  {
    RemovedIsAccounted(before.backlog, i);
  }

  /** The first two updates of a pick: take the task out and record it. */
  function TakeOut(d: SessionDoc, i: nat, stamp: Option<int>): (r: SessionDoc)
    requires i < |d.backlog|
    ensures r.backlog == RemoveAt(d.backlog, i) && r.hasBacklog == (r.backlog != [])
    ensures r.picked == d.picked + [AsPicked(d.backlog[i])] && r.tasks == d.tasks && r.index == d.index
  {
    Commit(Commit(d, SetBacklog(RemoveAt(d.backlog, i)), stamp), PushPicked(AsPicked(d.backlog[i])), stamp)
  }

  /** The three updates of a pick, in their order, under one lease. */
  function PickWrites(d: SessionDoc, i: nat, now: int, stamp: Option<int>): SessionDoc
    requires i < |d.backlog|
  {
    var taken := TakeOut(d, i, stamp);
    Commit(taken, if taken.backlog != [] then EnterBacklogDecision else Complete("backlog_empty_after_pick", now), stamp)
  }

  lemma PickWritesApply(d: SessionDoc, i: nat, now: int, stamp: Option<int>)
    requires i < |d.backlog|
    ensures PickApplied(d, PickWrites(d, i, now, stamp), i)
  {
    var taken := TakeOut(d, i, stamp);
    if taken.backlog != [] {
      assert PickWrites(d, i, now, stamp) == Commit(taken, EnterBacklogDecision, stamp);
    } else {
      assert PickWrites(d, i, now, stamp) == Commit(taken, Complete("backlog_empty_after_pick", now), stamp);
    }
  }

  /** The document part of a pick that the provider accepted; it reads the list again. */
  method RecordPick(repo: SessionRepository, index: nat, now: int) returns (remaining: Option<nat>)
    requires repo.Valid()
    modifies repo`doc, repo`docs, repo`events
    ensures repo.Valid() && repo.Fenced() == old(repo.Fenced()) && old(repo.docs) <= repo.docs
    ensures remaining.Some? <==> index < |old(repo.doc.backlog)|
    ensures remaining.Some? ==> remaining.value == |repo.doc.backlog|
    ensures repo.doc == if repo.Fenced() || remaining.None? then old(repo.doc)
                        else PickWrites(old(repo.doc), index, now, repo.Stamp())
  {
    var removed := RemoveBacklogTaskAtIndex(repo, index);
    if removed.None? { return None; }
    var _ := repo.Update(PushPicked(AsPicked(removed.value)));
    var left := |repo.doc.backlog|;
    if left > 0 {
      var _ := repo.Update(EnterBacklogDecision);
    } else {
      var _ := repo.Update(Complete("backlog_empty_after_pick", now));
    }
    remaining := Some(left);
  }

  /** The copy and the provider let the pick of position `index` through. */
  predicate PickAllowed(copy: SessionDoc, index: int, r: Reply) {
    && copy.status != Completed && !r.expired && 0 <= index < |copy.backlog|
    && Strip(copy.backlog[index].externalId) != "" && Progressed(r.adapter)
  }

  /**
   `handle_backlog_pick_start`.  Position and provider call come from the copy read at `chosenAt`; the list is
   read again when the provider has answered.  What is then recorded is whatever stands at the position.
   */
  method PickStart(repo: SessionRepository, chosenAt: nat, index: int, r: Reply) returns (result: PickResult)
    requires repo.Valid() && chosenAt < |repo.docs|
    modifies repo`doc, repo`docs, repo`events
    ensures repo.Valid() && repo.Fenced() == old(repo.Fenced()) && old(repo.docs) <= repo.docs
    ensures old(repo.Fenced()) ==> repo.doc == old(repo.doc)
    ensures Accounted(repo.doc) == Accounted(old(repo.doc))
    ensures var copy := old(repo.docs)[chosenAt];
            && (result.Picked? <==> PickAllowed(copy, index, r) && index < |old(repo.doc.backlog)|)
            && (result == RemoveFailed <==> PickAllowed(copy, index, r) && index >= |old(repo.doc.backlog)|)
            && (result == NotActive <==> copy.status == Completed || r.expired)
            && (result == InvalidIndex <==> copy.status != Completed && !r.expired && !(0 <= index < |copy.backlog|))
            && (copy.status != Completed && !r.expired && 0 <= index < |copy.backlog| ==>
                  var blank, answered := Strip(copy.backlog[index].externalId) == "", r.adapter.Answer? && r.adapter.ok;
                  && (result == MissingExternalId <==> blank)
                  && (result == AdapterRefused <==> !blank && !answered)
                  && (result == StatusUpdateFailed <==>
                        !blank && answered && !r.adapter.statusUpdated && !r.adapter.alreadyProgressed))
    ensures result.Picked? && !repo.Fenced() ==> PickApplied(old(repo.doc), repo.doc, index)
    ensures result.Picked? ==> result.remaining == |repo.doc.backlog|
    ensures !result.Picked? ==> repo.doc == old(repo.doc)
  {
    var copy := repo.docs[chosenAt];
    if !Active(copy, r.expired) { return NotActive; }
    if index < 0 || index >= |copy.backlog| { return InvalidIndex; }
    if Strip(copy.backlog[index].externalId) == "" { return MissingExternalId; }
    if r.adapter.NoAnswer? || !r.adapter.ok { return AdapterRefused; }
    if !r.adapter.statusUpdated && !r.adapter.alreadyProgressed { return StatusUpdateFailed; }
    var before := repo.doc;
    var remaining := RecordPick(repo, index, r.now);
    if remaining.None? { return RemoveFailed; }
    if !repo.Fenced() {
      PickWritesApply(before, index, r.now, repo.Stamp());
      PickConserves(before, repo.doc, index);
    }
    result := Picked(remaining.value);
  }

  /**
   The task recorded as picked is the one moved at the provider exactly if the list read at the removal still
   has that task at the position chosen from the earlier copy.
   */
  lemma RecordedIsMovedIff(copy: SessionDoc, before: SessionDoc, after: SessionDoc, i: nat)
    requires i < |copy.backlog| && i < |before.backlog| && PickApplied(before, after, i)
    ensures after.picked == before.picked + [AsPicked(copy.backlog[i])] <==>
            AsPicked(before.backlog[i]) == AsPicked(copy.backlog[i])
  {
    assert after.picked[|before.picked|] == AsPicked(before.backlog[i]);
  }

  /** A pick that overtakes another one moves one task at the provider and records its neighbour. */
  lemma OvertakenPickRecordsNeighbour(copy: SessionDoc, a: BacklogTask, b: BacklogTask, now: int)
    requires copy.backlog == [a, b] && AsPicked(a) != AsPicked(b)
    ensures var first := PickWrites(copy, 0, now, None);
            first.backlog == [b] && PickWrites(first, 0, now, None).picked == first.picked + [AsPicked(b)]
            && PickWrites(first, 0, now, None).picked != first.picked + [AsPicked(a)]
  {
    var first := PickWrites(copy, 0, now, None);
    PickWritesApply(copy, 0, now, None);
    assert first.backlog == [b];
    PickWritesApply(first, 0, now, None);
    RecordedIsMovedIff(copy, first, PickWrites(first, 0, now, None), 0);
  }

  /** Nothing but the phase and its closing fields differs; in particular no task moved. */
  ghost predicate SameBacklog(before: SessionDoc, after: SessionDoc) {
    && after.backlog == before.backlog && after.picked == before.picked && after.hasBacklog == before.hasBacklog
    && after.tasks == before.tasks && after.index == before.index
  }

  /** `_handle_view_backlog`. */
  method ShowRequest(repo: SessionRepository, r: Reply)
    requires repo.Valid()
    modifies repo`doc, repo`docs, repo`events
    ensures repo.Valid() && repo.Fenced() == old(repo.Fenced()) && old(repo.docs) <= repo.docs
    ensures old(repo.Fenced()) ==> repo.doc == old(repo.doc)
    ensures SameBacklog(old(repo.doc), repo.doc)
    ensures old(repo.doc.status) == Completed || r.expired ==> repo.doc == old(repo.doc)
    ensures old(repo.doc.status) != Completed && !r.expired && !repo.Fenced() ==>
              if repo.doc.backlog == [] then repo.doc.status == Completed && repo.doc.expiredReason == Some("backlog_exhausted")
              else if r.slackUser then repo.doc.status == AwaitingBacklogPick && repo.doc.clarification == None
              else repo.doc == old(repo.doc)
  {
    var session := repo.doc;
    if !Active(session, r.expired) { return; }
    if session.backlog == [] {
      var _ := repo.Update(Complete("backlog_exhausted", r.now));
    } else if r.slackUser {
      var _ := repo.Update(EnterBacklogPick);
    }
  }

  /** `handle_backlog_skip_request`. */
  method SkipRequest(repo: SessionRepository, r: Reply)
    requires repo.Valid()
    modifies repo`doc, repo`docs, repo`events
    ensures repo.Valid() && repo.Fenced() == old(repo.Fenced()) && old(repo.docs) <= repo.docs
    ensures old(repo.Fenced()) ==> repo.doc == old(repo.doc)
    ensures SameBacklog(old(repo.doc), repo.doc)
    ensures old(repo.doc.status) != Completed && !r.expired && !repo.Fenced() ==>
              repo.doc.status == Completed && repo.doc.expiredReason == Some("backlog_deferred")
    ensures old(repo.doc.status) == Completed || r.expired ==> repo.doc == old(repo.doc)
  {
    if Active(repo.doc, r.expired) {
      var _ := repo.Update(Complete("backlog_deferred", r.now));
    }
  }

  const DECISION_INTENTS: set<Intent> := {ShowBacklog, SkipBacklog, PickTask}

  /** What a request to show or to skip the backlog leads to on an open session. */
  ghost predicate IntentFollowed(before: SessionDoc, after: SessionDoc, r: Reply) {
    if r.intent == SkipBacklog then after.status == Completed && after.expiredReason == Some("backlog_deferred")
    else if before.backlog == [] then after.status == Completed && after.expiredReason == Some("backlog_exhausted")
    else if r.slackUser then after.status == AwaitingBacklogPick && after.clarification == None
    else after.status == before.status && after.clarification == before.clarification
  }

  /** What a reply that names no task leads to in the decision and pick states. */
  ghost predicate VerdictFollowed(before: SessionDoc, after: SessionDoc, state: Status, r: Reply) {
    if r.verdict == Unclear then
      after.status == AwaitingBacklogClarification && after.clarification == Some(BacklogClarification(0, MAX_RETRIES, state))
    else if r.verdict == Resolved && r.intent in {ShowBacklog, SkipBacklog} && before.status != Completed && !r.expired then
      IntentFollowed(before, after, r)
    else after == before
  }

  /** The part of both states for a reply that names no task. */
  method FollowVerdict(repo: SessionRepository, state: Status, r: Reply)
    requires repo.Valid() && state in BACKLOG_STATES
    modifies repo`doc, repo`docs, repo`events
    ensures repo.Valid() && repo.Fenced() == old(repo.Fenced()) && old(repo.docs) <= repo.docs
    ensures old(repo.Fenced()) ==> repo.doc == old(repo.doc)
    ensures SameBacklog(old(repo.doc), repo.doc)
    ensures !repo.Fenced() ==> VerdictFollowed(old(repo.doc), repo.doc, state, r)
  {
    if r.verdict == Unsupported { return; }
    if r.verdict == Resolved {
      if r.intent == ShowBacklog { ShowRequest(repo, r); }
      else if r.intent == SkipBacklog { SkipRequest(repo, r); }
      return;
    }
    var _ := repo.Update(EnterClarification(AwaitingBacklogClarification, BacklogClarification(0, MAX_RETRIES, state)));
  }

  /** A pick of position `i` finds its task in the list and goes through at the provider. */
  ghost predicate PickSucceeds(d: SessionDoc, i: nat, r: Reply) {
    !r.expired && i < |d.backlog| && Strip(d.backlog[i].externalId) != "" && Progressed(r.adapter)
  }

  /** What a reply leads to in the decision and pick states, handled from a copy. */
  ghost predicate ChoiceOutcome(copy: SessionDoc, before: SessionDoc, after: SessionDoc, state: Status, r: Reply) {
    if copy.backlog == [] then
      (if before.status != Completed && !r.expired then
         SameBacklog(before, after) && after.status == Completed && after.expiredReason == Some("backlog_deferred")
       else after == before)
    else if r.candidate.Some? && r.candidate.value < |copy.backlog| then
      (if before.status != Completed && PickSucceeds(before, r.candidate.value, r)
       then PickApplied(before, after, r.candidate.value)
       else after == before)
    else SameBacklog(before, after) && VerdictFollowed(before, after, state, r)
  }

  /**
   `_handle_backlog_decision_state` and `_handle_backlog_pick_state`, which differ in their state and in the
   "pick a task" intent the second ignores, for a reply handled from the copy read at `readAt`.  The position is
   found in the copy's list and used on the stored one; a task leaves the backlog only by a pick that went
   through.
   */
  method ChoiceState(repo: SessionRepository, readAt: nat, state: Status, r: Reply)
    requires repo.Valid() && readAt < |repo.docs| && state in BACKLOG_STATES
    modifies repo`doc, repo`docs, repo`events
    ensures repo.Valid() && repo.Fenced() == old(repo.Fenced()) && old(repo.docs) <= repo.docs
    ensures old(repo.Fenced()) ==> repo.doc == old(repo.doc)
    ensures Accounted(repo.doc) == Accounted(old(repo.doc))
    ensures !repo.Fenced() ==> ChoiceOutcome(old(repo.docs)[readAt], old(repo.doc), repo.doc, state, r)
  {
    var copy := repo.docs[readAt];
    if copy.backlog == [] {
      SkipRequest(repo, r);
      return;
    }
    var pick := PickIndex(r, copy.backlog);
    if pick.Some? {
      var _ := PickStart(repo, repo.Now(), pick.value, r);
      return;
    }
    FollowVerdict(repo, state, r);
  }

  /** The payload of a copy, with the defaults its handler fills in. */
  function PayloadOf(d: SessionDoc): (int, int, Status) {
    match d.clarification
    case Some(BacklogClarification(r, m, ret)) => (r, if m == 0 then MAX_RETRIES else m, ret)
    case _ => (0, MAX_RETRIES, AwaitingBacklogDecision)
  }

  /** The update an unresolved reply leads to. */
  function AfterUnresolved(d: SessionDoc): Write {
    var (retries, most, ret) := PayloadOf(d);
    if retries + 1 >= most then ClearClarification(Some(ret))
    else EnterClarification(AwaitingBacklogClarification, BacklogClarification(retries + 1, MAX_RETRIES, ret))
  }

  lemma PayloadAllows(d: SessionDoc)
    requires Inv(d) && d.status == AwaitingBacklogClarification
    ensures Emits(d, AfterUnresolved(d)) && Emits(d, ClearClarification(Some(PayloadOf(d).2)))
    ensures PayloadOf(d).2 in BACKLOG_STATES
  {}

  /** Leave the clarification, for the state it came from or for what the pick of position `i` leads to. */
  ghost predicate PickedOrBack(before: SessionDoc, after: SessionDoc, ret: Status, i: nat, r: Reply) {
    if PickSucceeds(before, i, r) then PickApplied(before, after, i)
    else SameBacklog(before, after) && after.status == ret && after.clarification == None
  }

  method LeaveAndPick(repo: SessionRepository, readAt: nat, ret: Status, index: nat, r: Reply)
    requires repo.Valid() && readAt < |repo.docs| && ret in BACKLOG_STATES
    requires Emits(repo.docs[readAt], ClearClarification(Some(ret)))
    modifies repo`doc, repo`docs, repo`events
    ensures repo.Valid() && repo.Fenced() == old(repo.Fenced()) && old(repo.docs) <= repo.docs
    ensures old(repo.Fenced()) ==> repo.doc == old(repo.doc)
    ensures Accounted(repo.doc) == Accounted(old(repo.doc))
    ensures !repo.Fenced() ==> PickedOrBack(old(repo.doc), repo.doc, ret, index, r)
  {
    var _ := repo.UpdateById(ClearClarification(Some(ret)), None, readAt);
    assert Accounted(repo.doc) == Accounted(old(repo.doc));
    var _ := PickStart(repo, repo.Now(), index, r);
  }

  /** Leave the clarification, for the state it came from or for what a resolved intent leads to. */
  ghost predicate LeftOrFollowed(before: SessionDoc, after: SessionDoc, ret: Status, r: Reply) {
    if r.intent in {ShowBacklog, SkipBacklog} && !r.expired then
      IntentFollowed(before.(status := ret, clarification := None), after, r)
    else after.status == ret && after.clarification == None
  }

  method LeaveAndFollow(repo: SessionRepository, readAt: nat, ret: Status, r: Reply)
    requires repo.Valid() && readAt < |repo.docs| && ret in BACKLOG_STATES
    requires Emits(repo.docs[readAt], ClearClarification(Some(ret)))
    modifies repo`doc, repo`docs, repo`events
    ensures repo.Valid() && repo.Fenced() == old(repo.Fenced()) && old(repo.docs) <= repo.docs
    ensures old(repo.Fenced()) ==> repo.doc == old(repo.doc)
    ensures SameBacklog(old(repo.doc), repo.doc)
    ensures !repo.Fenced() ==> LeftOrFollowed(old(repo.doc), repo.doc, ret, r)
    ensures r.intent !in {ShowBacklog, SkipBacklog} ==> repo.doc == old(repo.After(ClearClarification(Some(ret)), None))
  {
    var _ := repo.UpdateById(ClearClarification(Some(ret)), None, readAt);
    if r.intent == ShowBacklog { ShowRequest(repo, r); }
    else if r.intent == SkipBacklog { SkipRequest(repo, r); }
  }

  lemma RetryKeepsBacklog(d: SessionDoc, w: Write, stamp: Option<int>)
    requires w.EnterClarification? || w.ClearClarification?
    ensures SameBacklog(d, Commit(d, w, stamp))
  {}

  /** The payload of a document in the state, and where an unresolved reply leads from it. */
  lemma UnresolvedLeads(copy: SessionDoc, d: SessionDoc)
    requires Inv(copy) && copy.status == AwaitingBacklogClarification
    ensures copy.clarification == Some(BacklogClarification(PayloadOf(copy).0, MAX_RETRIES, PayloadOf(copy).2))
    ensures var after := Apply(d, AfterUnresolved(copy)); var (retries, _, ret) := PayloadOf(copy);
            if retries + 1 >= MAX_RETRIES then after.status == ret && after.clarification == None
            else after.status == AwaitingBacklogClarification
                 && after.clarification == Some(BacklogClarification(retries + 1, MAX_RETRIES, ret))
  {}

  /** One more retry, or the last one used up. */
  ghost predicate Retried(retries: int, ret: Status, before: SessionDoc, after: SessionDoc) {
    SameBacklog(before, after)
    && if retries + 1 >= MAX_RETRIES then after.status == ret && after.clarification == None
       else after.status == AwaitingBacklogClarification
            && after.clarification == Some(BacklogClarification(retries + 1, MAX_RETRIES, ret))
  }

  /** What a reply that names no task leads to, with so many retries counted before it. */
  ghost predicate NoTaskNamed(retries: int, ret: Status, before: SessionDoc, after: SessionDoc, r: Reply) {
    SameBacklog(before, after)
    && if r.verdict == Resolved && r.intent != OtherIntent then LeftOrFollowed(before, after, ret, r)
       else if r.verdict == Unsupported then after.status == ret && after.clarification == None
       else Retried(retries, ret, before, after)
  }

  /** What a reply to a backlog clarification leads to, handled from a copy with its payload. */
  ghost predicate ClarificationOutcome(copy: SessionDoc, before: SessionDoc, after: SessionDoc, r: Reply) {
    copy.clarification.Some? && copy.clarification.value.BacklogClarification? &&
    var retries, ret := copy.clarification.value.retryCount, copy.clarification.value.returnState;
    if r.candidate.Some? && r.candidate.value < |copy.backlog| then PickedOrBack(before, after, ret, r.candidate.value, r)
    else NoTaskNamed(retries, ret, before, after, r)
  }

  /** The part for an unresolved reply. */
  method Retry(repo: SessionRepository, readAt: nat)
    requires repo.Valid() && readAt < |repo.docs|
    requires Inv(repo.docs[readAt]) && repo.docs[readAt].status == AwaitingBacklogClarification
    modifies repo`doc, repo`docs, repo`events
    ensures repo.Valid() && repo.Fenced() == old(repo.Fenced()) && old(repo.docs) <= repo.docs
    ensures old(repo.Fenced()) ==> repo.doc == old(repo.doc)
    ensures var (retries, _, ret) := PayloadOf(old(repo.docs)[readAt]);
            !repo.Fenced() ==> Retried(retries, ret, old(repo.doc), repo.doc)
  {
    var w := AfterUnresolved(repo.docs[readAt]);
    PayloadAllows(repo.docs[readAt]);
    UnresolvedLeads(repo.docs[readAt], repo.doc);
    RetryKeepsBacklog(repo.doc, w, repo.Stamp());
    var _ := repo.UpdateById(w, None, readAt);
  }

  /** The part for a resolved one. */
  method FollowOrRetry(repo: SessionRepository, readAt: nat, r: Reply)
    requires repo.Valid() && readAt < |repo.docs| && r.verdict == Resolved
    requires Inv(repo.docs[readAt]) && repo.docs[readAt].status == AwaitingBacklogClarification
    modifies repo`doc, repo`docs, repo`events
    ensures repo.Valid() && repo.Fenced() == old(repo.Fenced()) && old(repo.docs) <= repo.docs
    ensures old(repo.Fenced()) ==> repo.doc == old(repo.doc)
    ensures var (retries, _, ret) := PayloadOf(old(repo.docs)[readAt]);
            !repo.Fenced() ==> NoTaskNamed(retries, ret, old(repo.doc), repo.doc, r)
  {
    PayloadAllows(repo.docs[readAt]);
    LeaveAndFollow(repo, readAt, PayloadOf(repo.docs[readAt]).2, r);
    if r.intent in DECISION_INTENTS { return; }
    Retry(repo, readAt);
  }

  /** The part for a rejected one. */
  method LeaveState(repo: SessionRepository, readAt: nat, r: Reply)
    requires repo.Valid() && readAt < |repo.docs| && r.verdict == Unsupported
    requires Inv(repo.docs[readAt]) && repo.docs[readAt].status == AwaitingBacklogClarification
    modifies repo`doc, repo`docs, repo`events
    ensures repo.Valid() && repo.Fenced() == old(repo.Fenced()) && old(repo.docs) <= repo.docs
    ensures old(repo.Fenced()) ==> repo.doc == old(repo.doc)
    ensures var (retries, _, ret) := PayloadOf(old(repo.docs)[readAt]);
            !repo.Fenced() ==> NoTaskNamed(retries, ret, old(repo.doc), repo.doc, r)
  {
    var ret := PayloadOf(repo.docs[readAt]).2;
    PayloadAllows(repo.docs[readAt]);
    RetryKeepsBacklog(repo.doc, ClearClarification(Some(ret)), repo.Stamp());
    var _ := repo.UpdateById(ClearClarification(Some(ret)), None, readAt);
  }

  /**
   `_handle_backlog_clarification_state`, from the copy read at `readAt`.  A pick, an unsupported request and a
   resolved intent leave the state; any other reply counts as a retry, after the retries of the copy.  Only a
   pick that went through takes a task out of the backlog.
   */
  method ClarificationState(repo: SessionRepository, readAt: nat, r: Reply)
    requires repo.Valid() && readAt < |repo.docs| && repo.docs[readAt].status == AwaitingBacklogClarification
    modifies repo`doc, repo`docs, repo`events
    ensures repo.Valid() && repo.Fenced() == old(repo.Fenced()) && old(repo.docs) <= repo.docs
    ensures old(repo.Fenced()) ==> repo.doc == old(repo.doc)
    ensures Accounted(repo.doc) == Accounted(old(repo.doc))
    ensures !repo.Fenced() ==> ClarificationOutcome(old(repo.docs)[readAt], old(repo.doc), repo.doc, r)
  {
    repo.DocumentInvariant();
    var copy := repo.docs[readAt];
    PayloadAllows(copy);
    UnresolvedLeads(copy, copy);
    var pick := PickIndex(r, copy.backlog);
    if pick.Some? {
      LeaveAndPick(repo, readAt, PayloadOf(copy).2, pick.value, r);
    } else if r.verdict == Unsupported {
      LeaveState(repo, readAt, r);
    } else if r.verdict == Resolved {
      FollowOrRetry(repo, readAt, r);
    } else {
      Retry(repo, readAt);
    }
  }

  // ---------------------------------------------------------------------------
  // How long a clarification lasts
  // ---------------------------------------------------------------------------

  /** Reply `k` was read from the document after `seen[k]` replies had been handled, so at most the `k`-th one. */
  ghost predicate ReadsPast(seen: seq<nat>) { forall k | 0 <= k < |seen| :: seen[k] <= k }

  /** The documents before and after each of a series of unresolved replies; a reply outside the state changes nothing. */
  function AfterReplies(d: SessionDoc, seen: seq<nat>): (docs: seq<SessionDoc>)
    requires ReadsPast(seen)
    ensures |docs| == |seen| + 1 && docs[0] == d
  {
    if seen == [] then [d]
    else
      var n := |seen| - 1;
      var docs := AfterReplies(d, seen[..n]);
      var copy := docs[seen[n]];
      docs + [if copy.status == AwaitingBacklogClarification then Apply(docs[n], AfterUnresolved(copy)) else docs[n]]
  }

  /** A document of such a series: in the state with some retries, or back where the clarification came from. */
  ghost predicate InSeries(d: SessionDoc, e: SessionDoc) {
    && d.clarification.Some? && d.clarification.value.BacklogClarification?
    && SameBacklog(d, e)
    && (if e.status == AwaitingBacklogClarification
        then e.clarification.Some? && e.clarification.value.BacklogClarification?
             && d.clarification.value.retryCount <= e.clarification.value.retryCount < MAX_RETRIES
             && e.clarification.value.maxRetries == MAX_RETRIES
             && e.clarification.value.returnState == d.clarification.value.returnState
        else e.status == d.clarification.value.returnState && e.clarification == None)
  }

  /** Unresolved replies counted so far. */
  function Retries(d: SessionDoc): int { if d.clarification.Some? then d.clarification.value.retryCount else 0 }

  /** Whatever copies the replies are read from, the series stays in the state or goes back, and moves no task. */
  lemma {:induction false} SeriesStays(d: SessionDoc, seen: seq<nat>)
    requires Inv(d) && d.status == AwaitingBacklogClarification && ReadsPast(seen)
    ensures forall k | 0 <= k <= |seen| :: InSeries(d, AfterReplies(d, seen)[k])
  {
    if seen != [] { SeriesStays(d, seen[..|seen| - 1]); }
  }

  /** A reply leaves the state open exactly if its own copy had room for another retry. */
  lemma OpenIffCopyHadRoom(d: SessionDoc, seen: seq<nat>)
    requires Inv(d) && d.status == AwaitingBacklogClarification && ReadsPast(seen) && seen != []
    requires AfterReplies(d, seen)[seen[|seen| - 1]].status == AwaitingBacklogClarification
    ensures var docs := AfterReplies(d, seen); var copy := docs[seen[|seen| - 1]];
            && (docs[|seen|].status == AwaitingBacklogClarification <==> Retries(copy) + 1 < MAX_RETRIES)
            && (docs[|seen|].status == AwaitingBacklogClarification ==> Retries(docs[|seen|]) == Retries(copy) + 1)
  {
    var n := |seen| - 1;
    SeriesStays(d, seen[..n]);
    assert AfterReplies(d, seen[..n])[seen[n]] == AfterReplies(d, seen)[seen[n]];
  }

  /**
   With every reply read from the document its predecessor left, a clarification with `r` retries behind it is
   left at exactly the (2 - r)-th unresolved reply, back to the state it came from.
   */
  lemma {:induction false} ClarificationBounded(d: SessionDoc, seen: seq<nat>)
    requires Inv(d) && d.status == AwaitingBacklogClarification
    requires forall k | 0 <= k < |seen| :: seen[k] == k
    ensures var e := AfterReplies(d, seen)[|seen|];
            && InSeries(d, e)
            && (e.status == AwaitingBacklogClarification <==> |seen| < MAX_RETRIES - Retries(d))
            && (e.status == AwaitingBacklogClarification ==> Retries(e) == Retries(d) + |seen|)
  {
    SeriesStays(d, seen);
    if seen != [] {
      var n := |seen| - 1;
      ClarificationBounded(d, seen[..n]);
      assert AfterReplies(d, seen[..n])[n] == AfterReplies(d, seen)[n];
    }
  }

  /**
   For a fresh clarification and whatever copies, the reply that should end it does so exactly if it was not
   read from the first document again: two replies from one copy keep asking.
   */
  lemma BoundHoldsIffReadAfterFirst(d: SessionDoc, seen: seq<nat>)
    requires Inv(d) && d.status == AwaitingBacklogClarification && Retries(d) == 0
    requires ReadsPast(seen) && |seen| == MAX_RETRIES
    ensures AfterReplies(d, seen)[|seen|].status != AwaitingBacklogClarification <==> seen[1] == 1
  {
    var first := seen[..1];
    assert forall k | 0 <= k < |first| :: first[k] == k;
    ClarificationBounded(d, first);
    assert seen[..1] == first && AfterReplies(d, seen)[1] == AfterReplies(d, first)[1] && AfterReplies(d, seen)[0] == d;
    OpenIffCopyHadRoom(d, seen);
  }

  /** Any number of replies read from the same first document leaves the clarification open. */
  lemma {:induction false} RepliesFromOneCopy(d: SessionDoc, seen: seq<nat>)
    requires Inv(d) && d.status == AwaitingBacklogClarification && Retries(d) == 0
    requires forall k | 0 <= k < |seen| :: seen[k] == 0
    ensures AfterReplies(d, seen)[|seen|].status == AwaitingBacklogClarification
  {
    if seen != [] { OpenIffCopyHadRoom(d, seen); }
  }
}
