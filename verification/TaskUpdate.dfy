/** Storing a status and a comment on one agenda task, as the form and the status clarification do. */
module TaskUpdate {
  import opened Options
  import opened SessionModel
  import opened SessionRepositoryModel

  /** What is to be stored: a status unless it is the present one, a comment unless it is blank, and the provider's answer. */
  datatype Change = Change(status: Option<string>, comment: Option<string>, jiraOk: bool)

  /** The task afterwards; it counts as passed on only if something changed and the provider took it. */
  function Updated(t: Task, c: Change): Task {
    var t1 := if c.status.Some? then t.(updatedStatus := c.status) else t;
    var t2 := if c.comment.Some? then t1.(comment := c.comment) else t1;
    if (c.status.Some? || c.comment.Some?) && c.jiraOk then t2.(jiraUpdated := true) else t2
  }

  /** An edit that may be left out, on a list of tasks. */
  function EditIf(tasks: seq<Task>, i: nat, e: Option<TaskEdit>): seq<Task> {
    if e.Some? then EditTaskAt(tasks, i, e.value) else tasks
  }

  function StatusEdit(c: Change): Option<TaskEdit> { if c.status.Some? then Some(NewStatus(c.status.value)) else None }

  function CommentEdit(c: Change): Option<TaskEdit> { if c.comment.Some? then Some(NewComment(c.comment.value)) else None }

  function JiraEdit(c: Change): Option<TaskEdit> {
    if (c.status.Some? || c.comment.Some?) && c.jiraOk then Some(JiraDone) else None
  }

  lemma EditsCompose(tasks: seq<Task>, i: nat, c: Change)
    requires i < |tasks|
    ensures EditIf(EditIf(EditIf(tasks, i, StatusEdit(c)), i, CommentEdit(c)), i, JiraEdit(c)) == tasks[i := Updated(tasks[i], c)]
  {
    var s1 := EditIf(tasks, i, StatusEdit(c));
    var s2 := EditIf(s1, i, CommentEdit(c));
    assert |s1| == |tasks| == |s2|;
  }

  /** One edit of the task at position `i`; a new status goes with a change of state. */
  method StoreEdit(repo: SessionRepository, readAt: nat, i: nat, e: Option<TaskEdit>)
    requires repo.Valid() && readAt < |repo.docs| && i < |repo.docs[readAt].tasks|
    modifies repo`doc, repo`docs, repo`events
    ensures repo.Valid() && repo.Fenced() == old(repo.Fenced()) && old(repo.docs) <= repo.docs
    ensures repo.Fenced() || e.None? ==> repo.doc == old(repo.doc)
    ensures !repo.Fenced() ==>
              && repo.doc.tasks == EditIf(old(repo.doc.tasks), i, e) && repo.doc.index == old(repo.doc.index)
              && repo.doc.backlog == old(repo.doc.backlog) && repo.doc.picked == old(repo.doc.picked)
    ensures e.None? || !e.value.NewStatus? ==> repo.doc.status == old(repo.doc.status)
  {
    if e.None? { return; }
    var w := if e.value.NewStatus? then UpdateTaskStatus(i, e.value.status) else EditTaskField(i, e.value);
    assert Emits(repo.docs[readAt], w);
    var _ := repo.UpdateById(w, None, readAt);
  }

  /** Up to three updates of the task at position `i`, found in the copy read at `readAt`. */
  method StoreChange(repo: SessionRepository, readAt: nat, i: nat, c: Change)
    requires repo.Valid() && readAt < |repo.docs| && i < |repo.docs[readAt].tasks|
    modifies repo`doc, repo`docs, repo`events
    ensures repo.Valid() && repo.Fenced() == old(repo.Fenced()) && old(repo.docs) <= repo.docs
    ensures repo.Fenced() || (c.status.None? && c.comment.None?) ==> repo.doc == old(repo.doc)
    ensures i < |old(repo.doc.tasks)|
    ensures !repo.Fenced() ==>
              && repo.doc.tasks == old(repo.doc.tasks)[i := Updated(old(repo.doc.tasks)[i], c)]
              && repo.doc.index == old(repo.doc.index) && repo.doc.backlog == old(repo.doc.backlog)
              && repo.doc.picked == old(repo.doc.picked)
  {
    repo.DocumentInvariant();
    EditsCompose(repo.doc.tasks, i, c);
    StoreEdit(repo, readAt, i, StatusEdit(c));
    StoreEdit(repo, readAt, i, CommentEdit(c));
    StoreEdit(repo, readAt, i, JiraEdit(c));
  }

  /** Where the agenda goes on after the task at `i` of the copy is dealt with. */
  ghost predicate WentOn(before: SessionDoc, after: SessionDoc, copy: SessionDoc, i: int, c: Change)
    requires 0 <= i < |before.tasks|
  {
    && after.tasks == before.tasks[i := Updated(before.tasks[i], c)] && after.clarification == None
    && (if i + 1 >= |copy.tasks| then after.status == AwaitingOverallInput && after.index == before.index
        else if before.index + 1 < |before.tasks| then after.status == AwaitingStatus && after.index == before.index + 1
        else after.status == Completed && after.index == before.index)
  }
}
