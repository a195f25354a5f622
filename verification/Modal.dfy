/** A submission of the task-update form, which names its task by position. */
module Modal {
  import opened Options
  import opened Text
  import opened SessionModel
  import opened SessionRepositoryModel
  import opened TaskUpdate

  /** The form's content and the answers around it. */
  datatype Submission = Submission(taskIndex: int, newStatus: string, comment: string, expired: bool, authorised: bool,
                                   jiraOk: bool, now: int)

  /** The submission reaches the form's logic: the session is open and the named task exists and is not behind. */
  predicate Accepted(d: SessionDoc, m: Submission) {
    d.status != Completed && !m.expired && m.authorised && 0 <= m.taskIndex < |d.tasks| && m.taskIndex >= d.index
  }

  /** The form's values as a change of the task it names: a status differing from the task's, a comment that says something. */
  function ChangeOf(t: Task, m: Submission): Change {
    Change(if m.newStatus != t.status then Some(m.newStatus) else None,
           if Strip(m.comment) != "" then Some(m.comment) else None, m.jiraOk)
  }

  /** What a submission handled from a copy leads to. */
  ghost predicate SubmissionOutcome(copy: SessionDoc, before: SessionDoc, after: SessionDoc, m: Submission) {
    var i := m.taskIndex;
    if copy.status == Completed || m.expired || !m.authorised || !(0 <= i < |copy.tasks|) || i < copy.index then after == before
    else
      i < |before.tasks|
      && WentOn(before, after, copy, i,
                Change(if m.newStatus != copy.tasks[i].status then Some(m.newStatus) else None,
                       if Strip(m.comment) != "" then Some(m.comment) else None, m.jiraOk))
  }

  /** The values of an accepted submission stored, and the agenda taken on. */
  method StoreAndMoveOn(repo: SessionRepository, readAt: nat, m: Submission)
    requires repo.Valid() && readAt < |repo.docs| && Accepted(repo.docs[readAt], m)
    modifies repo`doc, repo`docs, repo`events
    ensures repo.Valid() && repo.Fenced() == old(repo.Fenced()) && old(repo.docs) <= repo.docs
    ensures repo.Fenced() ==> repo.doc == old(repo.doc)
    ensures repo.doc.backlog == old(repo.doc.backlog) && repo.doc.picked == old(repo.doc.picked)
    ensures var copy := old(repo.docs)[readAt];
            m.taskIndex < |old(repo.doc.tasks)|
            && (!repo.Fenced() ==> WentOn(old(repo.doc), repo.doc, copy, m.taskIndex, ChangeOf(copy.tasks[m.taskIndex], m)))
  {
    var copy := repo.docs[readAt];
    var c := ChangeOf(copy.tasks[m.taskIndex], m);
    StoreChange(repo, readAt, m.taskIndex, c);
    var latest := if c.status.Some? || c.comment.Some? then repo.doc else copy;
    SameCount(repo, readAt);
    if m.taskIndex + 1 >= |latest.tasks| {
      var _ := repo.Update(EnterOverallInput);
    } else {
      var _ := repo.MoveToNextTask(m.now);
    }
  }

  /**
   `handle_modal_submission`, from the copy read at `readAt`.  A submission for a task behind the copy's index
   changes nothing; the last task may be submitted again and again, each time leading back to the overall
   question; any other stores its values and moves the stored index on by one, whatever task it names.
   */
  method HandleSubmission(repo: SessionRepository, readAt: nat, m: Submission)
    requires repo.Valid() && readAt < |repo.docs|
    modifies repo`doc, repo`docs, repo`events
    ensures repo.Valid() && repo.Fenced() == old(repo.Fenced()) && old(repo.docs) <= repo.docs
    ensures repo.Fenced() ==> repo.doc == old(repo.doc)
    ensures repo.doc.backlog == old(repo.doc.backlog) && repo.doc.picked == old(repo.doc.picked)
    ensures !repo.Fenced() ==> SubmissionOutcome(old(repo.docs)[readAt], old(repo.doc), repo.doc, m)
  {
    var copy := repo.docs[readAt];
    if !Accepted(copy, m) { return; }
    StoreAndMoveOn(repo, readAt, m);
  }

  /** A copy with tasks has as many as the stored document. */
  lemma SameCount(repo: SessionRepository, readAt: nat)
    requires repo.Valid() && readAt < |repo.docs| && repo.docs[readAt].tasks != []
    ensures |repo.doc.tasks| == |repo.docs[readAt].tasks|
  {
    SessionInvariant(repo.docs, repo.events);
  }

  /** From the present document, a submission before the last task moves the index by exactly one and completes nothing. */
  lemma FreshSubmission(d: SessionDoc, after: SessionDoc, m: Submission)
    requires Inv(d) && Accepted(d, m) && m.taskIndex + 1 < |d.tasks| && SubmissionOutcome(d, d, after, m)
    ensures after.status == AwaitingStatus && after.index == d.index + 1
  {}

  /**
   The form of the current task submitted twice: ignored the second time if its copy was read after the first,
   but otherwise accepted, and then the task after it is passed over with nothing said about it.
   */
  lemma SecondSubmission(d: SessionDoc, first: SessionDoc, second: SessionDoc, m: Submission)
    requires Inv(d) && Accepted(d, m) && m.taskIndex == d.index && m.taskIndex + 1 < |d.tasks|
    requires SubmissionOutcome(d, d, first, m) && SubmissionOutcome(d, first, second, m)
    ensures forall after | SubmissionOutcome(first, first, after, m) :: after == first
    ensures if d.index + 2 < |d.tasks| then second.status == AwaitingStatus && second.index == d.index + 2
            else second.status == Completed
    ensures second.tasks[d.index + 1] == d.tasks[d.index + 1]
  {}
}
