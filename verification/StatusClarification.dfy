/**
 Replies to the question about an unclear status.

 The verdict of the parser, the status and comment it found, the task's present status in the parser's terms and
 whether the provider offers the new one are inputs.
 */
module StatusClarificationFlow {
  import opened Options
  import opened Text
  import opened SessionModel
  import opened SessionRepositoryModel
  import opened TaskUpdate
  import Backlog

  datatype StatusReply = StatusReply(verdict: Backlog.Verdict, status: string, current: string, comment: string,
                                     unavailable: bool, jiraOk: bool, now: int)

  /** The counters and the position stored with the question; position 0 counts as unset. */
  function PayloadOf(d: SessionDoc): (int, int, int) {
    match d.clarification
    case Some(StatusClarification(r, m, i)) => (r, if m == 0 then MAX_RETRIES else m, if i != 0 then i else d.index)
    case _ => (0, MAX_RETRIES, d.index)
  }

  /** The parser found a status that differs from the task's. */
  predicate StatusChanges(r: StatusReply) { r.status != "" && r.status != "no_change" && r.status != r.current }

  function ChangeOf(r: StatusReply): Change {
    Change(if StatusChanges(r) then Some(r.status) else None,
           if Strip(r.comment) != "" then Some(Strip(r.comment)) else None, r.jiraOk)
  }

  const NO_CHANGE := Change(None, None, false)

  /** The provider does not offer the status a resolved reply asks for. */
  predicate Unoffered(r: StatusReply) { r.verdict == Backlog.Resolved && StatusChanges(r) && r.unavailable }

  /** Ask again, one retry further. */
  function AskAgain(copy: SessionDoc): Write {
    var (retries, _, i) := PayloadOf(copy);
    EnterClarification(AwaitingStatusClarification, StatusClarification(retries + 1, MAX_RETRIES, i))
  }

  /** `_advance_after_task_update`. */
  method AdvanceAfterUpdate(repo: SessionRepository, readAt: nat, i: nat, c: Change, now: int)
    requires repo.Valid() && readAt < |repo.docs| && i < |repo.docs[readAt].tasks|
    modifies repo`doc, repo`docs, repo`events
    ensures repo.Valid() && repo.Fenced() == old(repo.Fenced()) && old(repo.docs) <= repo.docs
    ensures repo.Fenced() ==> repo.doc == old(repo.doc)
    ensures i < |old(repo.doc.tasks)| && repo.doc.backlog == old(repo.doc.backlog) && repo.doc.picked == old(repo.doc.picked)
    ensures !repo.Fenced() ==> WentOn(old(repo.doc), repo.doc, old(repo.docs)[readAt], i, c)
  {
    var copy := repo.docs[readAt];
    StoreChange(repo, readAt, i, c);
    if i + 1 >= |copy.tasks| {
      var _ := repo.Update(EnterOverallInput);
    } else {
      var _ := repo.MoveToNextTask(now);
    }
  }

  /** Back to the status question. */
  method Reset(repo: SessionRepository, readAt: nat)
    requires repo.Valid() && readAt < |repo.docs|
    modifies repo`doc, repo`docs, repo`events
    ensures repo.Valid() && repo.Fenced() == old(repo.Fenced()) && old(repo.docs) <= repo.docs
    ensures repo.Fenced() ==> repo.doc == old(repo.doc)
    ensures Backlog.SameBacklog(old(repo.doc), repo.doc)
    ensures !repo.Fenced() ==> repo.doc.status == AwaitingStatus && repo.doc.clarification == None
  {
    var _ := repo.UpdateById(ClearClarification(Some(AwaitingStatus)), None, readAt);
  }

  /** The question again. */
  method Ask(repo: SessionRepository, readAt: nat, copy: SessionDoc)
    requires repo.Valid() && readAt < |repo.docs|
    modifies repo`doc, repo`docs, repo`events
    ensures repo.Valid() && repo.Fenced() == old(repo.Fenced()) && old(repo.docs) <= repo.docs
    ensures repo.Fenced() ==> repo.doc == old(repo.doc)
    ensures Backlog.SameBacklog(old(repo.doc), repo.doc)
    ensures !repo.Fenced() ==>
              && repo.doc.status == AwaitingStatusClarification
              && repo.doc.clarification == Some(StatusClarification(PayloadOf(copy).0 + 1, MAX_RETRIES, PayloadOf(copy).2))
  {
    var _ := repo.UpdateById(AskAgain(copy), None, readAt);
  }

  /** What a reply leads to, handled from a copy with its payload. */
  ghost predicate ReplyOutcome(copy: SessionDoc, before: SessionDoc, after: SessionDoc, r: StatusReply) {
    copy.clarification.Some? && copy.clarification.value.StatusClarification? &&
    var p := copy.clarification.value;
    ReplyFollowed(copy, p.retryCount, if p.maxRetries == 0 then MAX_RETRIES else p.maxRetries,
                  if p.taskIndex != 0 then p.taskIndex else copy.index, before, after, r)
  }

  /** The same, with so many retries counted of so many, for the task at position `i`. */
  ghost predicate ReplyFollowed(copy: SessionDoc, retries: int, most: int, i: int, before: SessionDoc, after: SessionDoc,
                                r: StatusReply) {
    var changes := r.status !in {"", "no_change", r.current};
    if !(0 <= i < |copy.tasks|) || r.verdict == Backlog.Unsupported then
      Backlog.SameBacklog(before, after) && after.status == AwaitingStatus && after.clarification == None
    else if (r.verdict == Backlog.Resolved && changes && r.unavailable) || (r.verdict == Backlog.Unclear && retries + 1 < most) then
      Backlog.SameBacklog(before, after) && after.status == AwaitingStatusClarification
      && after.clarification == Some(StatusClarification(retries + 1, MAX_RETRIES, i))
    else
      i < |before.tasks|
      && WentOn(before, after, copy, i,
                if r.verdict == Backlog.Resolved
                then Change(if changes then Some(r.status) else None,
                            if Strip(r.comment) != "" then Some(Strip(r.comment)) else None, r.jiraOk)
                else Change(None, None, false))
  }

  lemma PayloadIs(copy: SessionDoc)
    requires Inv(copy) && copy.status == AwaitingStatusClarification
    ensures copy.clarification.Some? && copy.clarification.value.StatusClarification?
    ensures var p := copy.clarification.value;
            PayloadOf(copy) == (p.retryCount, if p.maxRetries == 0 then MAX_RETRIES else p.maxRetries,
                                if p.taskIndex != 0 then p.taskIndex else copy.index)
  {}

  /** The part for a resolved reply, and for the last unclear one. */
  method GoOn(repo: SessionRepository, readAt: nat, i: nat, r: StatusReply)
    requires repo.Valid() && readAt < |repo.docs| && i < |repo.docs[readAt].tasks| && i == PayloadOf(repo.docs[readAt]).2
    requires r.verdict == Backlog.Resolved
             || (r.verdict == Backlog.Unclear && PayloadOf(repo.docs[readAt]).0 + 1 >= PayloadOf(repo.docs[readAt]).1)
    modifies repo`doc, repo`docs, repo`events
    ensures repo.Valid() && repo.Fenced() == old(repo.Fenced()) && old(repo.docs) <= repo.docs
    ensures repo.Fenced() ==> repo.doc == old(repo.doc)
    ensures repo.doc.backlog == old(repo.doc.backlog) && repo.doc.picked == old(repo.doc.picked)
    ensures var copy := old(repo.docs)[readAt]; var (retries, most, _) := PayloadOf(copy);
            !repo.Fenced() ==> ReplyFollowed(copy, retries, most, i, old(repo.doc), repo.doc, r)
  {
    var copy := repo.docs[readAt];
    Reset(repo, readAt);
    if Unoffered(r) {
      Ask(repo, readAt, copy);
    } else {
      AdvanceAfterUpdate(repo, readAt, i, if r.verdict == Backlog.Resolved then ChangeOf(r) else NO_CHANGE, r.now);
    }
  }

  /**
   `_handle_status_clarification_state`, from the copy read at `readAt`: the question is asked again, the agenda
   is put back to the status question, or it goes on with what the reply says, or with nothing when the retries
   are used up.
   */
  method StatusClarificationState(repo: SessionRepository, readAt: nat, r: StatusReply)
    requires repo.Valid() && readAt < |repo.docs| && repo.docs[readAt].status == AwaitingStatusClarification
    modifies repo`doc, repo`docs, repo`events
    ensures repo.Valid() && repo.Fenced() == old(repo.Fenced()) && old(repo.docs) <= repo.docs
    ensures repo.Fenced() ==> repo.doc == old(repo.doc)
    ensures repo.doc.backlog == old(repo.doc.backlog) && repo.doc.picked == old(repo.doc.picked)
    ensures !repo.Fenced() ==> ReplyOutcome(old(repo.docs)[readAt], old(repo.doc), repo.doc, r)
  {
    repo.DocumentInvariant();
    var copy := repo.docs[readAt];
    PayloadIs(copy);
    var (retries, most, i) := PayloadOf(copy);
    if !(0 <= i < |copy.tasks|) || r.verdict == Backlog.Unsupported {
      Reset(repo, readAt);
    } else if r.verdict == Backlog.Unclear && retries + 1 < most {
      Ask(repo, readAt, copy);
    } else {
      GoOn(repo, readAt, i, r);
    }
  }

  /** The document after `n` replies each of which makes the handler ask again. */
  function AfterAsking(d: SessionDoc, n: nat): SessionDoc {
    if n == 0 then d else Apply(AfterAsking(d, n - 1), AskAgain(AfterAsking(d, n - 1)))
  }

  /**
   Replies that ask for a status the provider does not offer have no cap: the question stays open however many
   there are, with the retries counted beyond the maximum.  Unclear replies end it as soon as the count is reached.
   */
  lemma {:induction false} UnofferedNeverEnds(d: SessionDoc, n: nat, r: StatusReply)
    requires Inv(d) && d.status == AwaitingStatusClarification && 0 <= PayloadOf(d).2 < |d.tasks|
    ensures var e := AfterAsking(d, n);
            && e.status == AwaitingStatusClarification && PayloadOf(e).0 == PayloadOf(d).0 + n && PayloadOf(e).2 == PayloadOf(d).2
            && (forall after | ReplyOutcome(e, e, after, r) ::
                  && (Unoffered(r) ==> after.status == AwaitingStatusClarification)
                  && (n >= 1 && r.verdict == Backlog.Unclear ==>
                        (after.status == AwaitingStatusClarification <==> PayloadOf(d).0 + n + 1 < MAX_RETRIES)))
  {
    if n > 0 {
      UnofferedNeverEnds(d, n - 1, r);
      var before := AfterAsking(d, n - 1);
      AskedOnce(before);
      AskKeepsTasks(d, n);
    } else {
      assert AfterAsking(d, 0) == d;
    }
  }

  lemma AskedOnce(d: SessionDoc)
    ensures var e := Apply(d, AskAgain(d));
            e.status == AwaitingStatusClarification && e.clarification.Some? && PayloadOf(e).0 == PayloadOf(d).0 + 1
            && PayloadOf(e).1 == MAX_RETRIES && PayloadOf(e).2 == PayloadOf(d).2 && e.tasks == d.tasks
  {}

  lemma {:induction false} AskKeepsTasks(d: SessionDoc, n: nat)
    ensures AfterAsking(d, n).tasks == d.tasks
  {
    if n > 0 { AskKeepsTasks(d, n - 1); }
  }
}
