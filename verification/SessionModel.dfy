/**
 The Cadence session document and the atomic writes made to it.

 A session lives in one database document.  Every writer (a DM turn, a modal submission, the
 expiry sweep, a check-in run) changes it by single atomic updates; what differs between writers is
 only how stale the copy is from which they computed the update.  This module gives the document,
 the updates as values, the effect of each update, and the facts that hold after every interleaving
 of updates computed from arbitrarily stale copies.
 */
module SessionModel {

  import opened Options

  /** The eight states of `StateMachine.VALID_STATES`; any other text is `Other`. */
  datatype Status =
    | AwaitingStatus
    | AwaitingStatusClarification
    | AwaitingComment
    | AwaitingOverallInput
    | AwaitingBacklogDecision
    | AwaitingBacklogPick
    | AwaitingBacklogClarification
    | Completed
    | Other(text: string)

  datatype ResponseStatus = Pending | Responded | NoResponseExpired

  datatype Task = Task(externalId: string, status: string, updatedStatus: Option<string>,
                       comment: Option<string>, jiraUpdated: bool)

  datatype BacklogTask = BacklogTask(externalId: string, title: string, status: string)

  datatype PickedTask = PickedTask(externalId: string, title: string)

  datatype Clarification =
    | BacklogClarification(retryCount: int, maxRetries: int, returnState: Status)
    | StatusClarification(retryCount: int, maxRetries: int, taskIndex: int)

  datatype SessionDoc = SessionDoc(
    status: Status,
    tasks: seq<Task>,
    index: nat,
    clarification: Option<Clarification>,
    overallInput: Option<string>,
    overallSkipped: bool,
    backlog: seq<BacklogTask>,
    hasBacklog: bool,
    picked: seq<PickedTask>,
    promptSent: bool,
    promptSkippedByPolicy: bool,
    completedAt: Option<int>,
    expiredReason: Option<string>,
    response: ResponseStatus,
    terminal: bool,
    reasonCodes: set<string>,
    noticeSentAt: Option<int>,
    noticeClaimedAt: Option<int>,
    leaseVersion: Option<int>)

  const BLANK_TASK := Task("", "", None, None, false)

  const TIMEOUT := "timeout"

  const RESPONDED_REASONS: set<string> := {
    "agenda_complete", "backlog_exhausted", "backlog_deferred", "backlog_skipped_workload_policy",
    "backlog_empty_after_pick", "agent_complete", "completed"
  }

  /** A change to one element of the task array. */
  datatype TaskEdit = NewStatus(status: string) | NewComment(comment: string) | JiraDone

  /** The update documents passed to the session repository, one constructor per store function. */
  datatype Write =
    | UpdateTaskStatus(taskIndex: nat, newStatus: string)
    | EditTaskField(taskIndex: nat, edit: TaskEdit)
    | StampLease(token: int)
    | AdvanceTo(nextIndex: nat)
    | EnterOverallInput
    | EnterBacklogDecision
    | EnterBacklogPick
    | RecordOverallInput(text: string, skipped: bool)
    | EnterClarification(state: Status, payload: Clarification)
    | ClearClarification(next: Option<Status>)
    | SetBacklog(items: seq<BacklogTask>)
    | PushPicked(item: PickedTask)
    | RecordPrompt(prompted: bool, skippedByPolicy: bool)
    | Complete(reason: string, at: int)
    | Cancel(reason: string, at: int)
    | RecordOutcome(newResponse: Option<ResponseStatus>, newTerminal: Option<bool>, code: Option<string>)
    | ClaimNotice(at: int)
    | MarkNotice(at: int)
    | ClearNoticeClaim

  // ---------------------------------------------------------------------------
  // Effect of the updates
  // ---------------------------------------------------------------------------

  function EditTask(t: Task, e: TaskEdit): Task {
    match e
    case NewStatus(s) => t.(updatedStatus := Some(s))
    case NewComment(c) => t.(comment := Some(c))
    case JiraDone => t.(jiraUpdated := true)
  }

  /** `$set` on `tasks.<i>.<field>`; an index past the end makes the database pad the array. */
  function EditTaskAt(tasks: seq<Task>, i: nat, e: TaskEdit): (r: seq<Task>)
    ensures |r| == if i < |tasks| then |tasks| else i + 1
    ensures forall k | 0 <= k < |tasks| && k != i :: r[k] == tasks[k]
  {
    if i < |tasks| then tasks[i := EditTask(tasks[i], e)]
    else tasks + seq(i - |tasks|, _ => BLANK_TASK) + [EditTask(BLANK_TASK, e)]
  }

  function Leave(d: SessionDoc, next: Status): SessionDoc {
    d.(status := next, completedAt := None, expiredReason := None, clarification := None)
  }

  function Close(d: SessionDoc, reason: string, at: int, response: ResponseStatus): SessionDoc {
    d.(status := Completed, completedAt := Some(at), expiredReason := Some(reason), response := response,
       terminal := true, reasonCodes := d.reasonCodes + {reason}, clarification := None)
  }

  /** Filter of the claim update: timed out, not yet announced, not claimed. */
  predicate Claimable(d: SessionDoc) {
    d.expiredReason == Some(TIMEOUT) && d.noticeSentAt == None && d.noticeClaimedAt == None
  }

  /** The update writes a field of a task. */
  predicate EditsTask(w: Write) { w.UpdateTaskStatus? || w.EditTaskField? }

  /** The update belongs to the expiry notice. */
  predicate NoticeWrite(w: Write) { w.ClaimNotice? || w.MarkNotice? || w.ClearNoticeClaim? }

  function Apply(d: SessionDoc, w: Write): (r: SessionDoc)
    ensures !EditsTask(w) ==> r.tasks == d.tasks
    ensures !w.AdvanceTo? ==> r.index == d.index
    ensures !NoticeWrite(w) ==> r.noticeSentAt == d.noticeSentAt && r.noticeClaimedAt == d.noticeClaimedAt
    ensures !w.Complete? && !w.Cancel? && !w.RecordOutcome? ==> r.terminal == d.terminal
    ensures !w.SetBacklog? ==> r.backlog == d.backlog && r.hasBacklog == d.hasBacklog
    ensures !w.PushPicked? ==> r.picked == d.picked
    ensures !w.RecordOverallInput? ==> r.overallInput == d.overallInput && r.overallSkipped == d.overallSkipped
  {
    match w
    case UpdateTaskStatus(i, s) =>
      d.(tasks := EditTaskAt(d.tasks, i, NewStatus(s)), status := AwaitingComment, clarification := None)
    case EditTaskField(i, e) => d.(tasks := EditTaskAt(d.tasks, i, e))
    case StampLease(t) => d.(leaseVersion := Some(t))
    case AdvanceTo(n) => d.(index := n, status := AwaitingStatus, clarification := None)
    case EnterOverallInput => Leave(d, AwaitingOverallInput)
    case EnterBacklogDecision => Leave(d, AwaitingBacklogDecision)
    case EnterBacklogPick => Leave(d, AwaitingBacklogPick)
    case RecordOverallInput(text, skipped) =>
      d.(overallInput := if text == "" then None else Some(text), overallSkipped := skipped || text == "")
    case EnterClarification(st, p) =>
      d.(status := st, clarification := Some(p), completedAt := None, expiredReason := None)
    case ClearClarification(next) =>
      d.(clarification := None, status := if next.Some? then next.value else d.status)
    case SetBacklog(items) => d.(backlog := items, hasBacklog := items != [])
    case PushPicked(p) => d.(picked := d.picked + [p])
    case RecordPrompt(p, s) => d.(promptSent := p, promptSkippedByPolicy := s)
    case Complete(reason, at) =>
      Close(d, reason, at, if reason in RESPONDED_REASONS then Responded else NoResponseExpired)
    case Cancel(reason, at) => Close(d, reason, at, NoResponseExpired)
    case RecordOutcome(resp, term, code) =>
      d.(response := if resp.Some? then resp.value else d.response,
         terminal := if term.Some? then term.value else d.terminal,
         reasonCodes := if code.Some? then d.reasonCodes + {code.value} else d.reasonCodes)
    case ClaimNotice(at) => if Claimable(d) then d.(noticeClaimedAt := Some(at)) else d
    case MarkNotice(at) => d.(noticeSentAt := Some(at), noticeClaimedAt := None)
    case ClearNoticeClaim => d.(noticeClaimedAt := None)
  }

  /** An edit changes the field it names and no other. */
  lemma EditChangesItsField(t: Task, e: TaskEdit)
    ensures var r := EditTask(t, e);
            && r.updatedStatus == (if e.NewStatus? then Some(e.status) else t.updatedStatus)
            && r.comment == (if e.NewComment? then Some(e.comment) else t.comment)
            && r.jiraUpdated == (e.JiraDone? || t.jiraUpdated)
            && r.externalId == t.externalId && r.status == t.status
  {}

  /** With the fields named in its update put back, every store function gives the document it started from. */
  lemma NothingElseChanges(d: SessionDoc, w: Write)
    ensures var r := Apply(d, w);
            d == match w
                 case UpdateTaskStatus(_, _) => r.(tasks := d.tasks, status := d.status, clarification := d.clarification)
                 case EditTaskField(_, _) => r.(tasks := d.tasks)
                 case StampLease(_) => r.(leaseVersion := d.leaseVersion)
                 case AdvanceTo(_) => r.(index := d.index, status := d.status, clarification := d.clarification)
                 case RecordOverallInput(_, _) => r.(overallInput := d.overallInput, overallSkipped := d.overallSkipped)
                 case ClearClarification(_) => r.(status := d.status, clarification := d.clarification)
                 case SetBacklog(_) => r.(backlog := d.backlog, hasBacklog := d.hasBacklog)
                 case PushPicked(_) => r.(picked := d.picked)
                 case RecordPrompt(_, _) => r.(promptSent := d.promptSent, promptSkippedByPolicy := d.promptSkippedByPolicy)
                 case RecordOutcome(_, _, _) => r.(response := d.response, terminal := d.terminal, reasonCodes := d.reasonCodes)
                 case ClaimNotice(_) => r.(noticeClaimedAt := d.noticeClaimedAt)
                 case ClearNoticeClaim => r.(noticeClaimedAt := d.noticeClaimedAt)
                 case MarkNotice(_) => r.(noticeSentAt := d.noticeSentAt, noticeClaimedAt := d.noticeClaimedAt)
                 case Complete(_, _) => Reopened(r, d)
                 case Cancel(_, _) => Reopened(r, d)
                 case _ => r.(status := d.status, clarification := d.clarification, completedAt := d.completedAt,
                              expiredReason := d.expiredReason)
  {}

  /** `r` with the fields that closing sets as they are in `d`. */
  function Reopened(r: SessionDoc, d: SessionDoc): SessionDoc {
    r.(status := d.status, clarification := d.clarification, completedAt := d.completedAt, expiredReason := d.expiredReason,
       response := d.response, terminal := d.terminal, reasonCodes := d.reasonCodes)
  }

  /** The three state setters and the two questions: the state asked for, open again, with a payload exactly for a question. */
  lemma StateSetters(d: SessionDoc, w: Write)
    requires w in {EnterOverallInput, EnterBacklogDecision, EnterBacklogPick} || w.EnterClarification?
    ensures var r := Apply(d, w);
            && r.status == (if w == EnterOverallInput then AwaitingOverallInput
                            else if w == EnterBacklogDecision then AwaitingBacklogDecision
                            else if w == EnterBacklogPick then AwaitingBacklogPick else w.state)
            && r.completedAt == None && r.expiredReason == None
            && r.clarification == if w.EnterClarification? then Some(w.payload) else None
  {}

  /**
   A question asked and left for the state before gives the document back, but for an earlier payload and the
   closing fields.
   */
  lemma QuestionRoundTrip(d: SessionDoc, state: Status, p: Clarification)
    ensures Apply(Apply(d, EnterClarification(state, p)), ClearClarification(Some(d.status))) ==
            d.(clarification := None, completedAt := None, expiredReason := None)
    ensures Apply(d, ClearClarification(None)) == d.(clarification := None)
  {}

  /** An empty answer to the overall question counts as skipped and is not kept. */
  lemma OverallAnswerKept(d: SessionDoc, text: string, skipped: bool)
    ensures var r := Apply(d, RecordOverallInput(text, skipped));
            && (r.overallInput.Some? <==> text != "") && (text != "" ==> r.overallInput.value == text)
            && (r.overallSkipped <==> skipped || text == "")
  {}

  /** The backlog as given, the picked task behind the others, and the prompt as it went out. */
  lemma BacklogUpdates(d: SessionDoc, items: seq<BacklogTask>, p: PickedTask, prompted: bool, byPolicy: bool)
    ensures Apply(d, SetBacklog(items)).backlog == items && (Apply(d, SetBacklog(items)).hasBacklog <==> items != [])
    ensures Apply(d, PushPicked(p)).picked == d.picked + [p]
    ensures Apply(d, RecordPrompt(prompted, byPolicy)).promptSent == prompted
    ensures Apply(d, RecordPrompt(prompted, byPolicy)).promptSkippedByPolicy == byPolicy
  {}

  /** A granted claim and its clear cancel out, and a mark leaves the notice as sent and unclaimed for good. */
  lemma NoticeUpdates(d: SessionDoc, at: int)
    ensures var granted := d.expiredReason == Some("timeout") && d.noticeSentAt.None? && d.noticeClaimedAt.None?;
            && Apply(d, ClaimNotice(at)).noticeClaimedAt == (if granted then Some(at) else d.noticeClaimedAt)
            && (granted ==> Apply(Apply(d, ClaimNotice(at)), ClearNoticeClaim) == d)
    ensures Apply(d, MarkNotice(at)).noticeSentAt == Some(at) && Apply(d, MarkNotice(at)).noticeClaimedAt.None?
    ensures Apply(d, ClearNoticeClaim).noticeClaimedAt.None?
  {}

  /** Recorded outcomes: what is given replaces what was there, a code is added. */
  lemma OutcomeRecorded(d: SessionDoc, response: Option<ResponseStatus>, terminal: Option<bool>, code: Option<string>)
    ensures var r := Apply(d, RecordOutcome(response, terminal, code));
            && (if response.Some? then r.response == response.value else r.response == d.response)
            && (if terminal.Some? then r.terminal == terminal.value else r.terminal == d.terminal)
            && (forall c :: c in r.reasonCodes <==> c in d.reasonCodes || code == Some(c))
  {}

  /** Moving on: the index asked for, the status question, and no payload; a status update waits for a comment. */
  lemma AgendaUpdates(d: SessionDoc, n: nat, i: nat, status: string, token: int)
    ensures var r := Apply(d, AdvanceTo(n)); r.index == n && r.status == AwaitingStatus && r.clarification == None
    ensures var r := Apply(d, UpdateTaskStatus(i, status));
            && r.status == AwaitingComment && r.clarification == None
            && (i < |d.tasks| ==> r.tasks == d.tasks[i := d.tasks[i].(updatedStatus := Some(status))])
    ensures Apply(d, StampLease(token)).leaseVersion == Some(token)
  {}

  /** The document a check-in run inserts. */
  function Created(tasks: seq<Task>, initial: Status, reason: Option<string>, codes: set<string>, at: int): SessionDoc {
    SessionDoc(initial, tasks, 0, None, None, false, [], false, [], false, false,
               if initial == Completed then Some(at) else None,
               if initial == Completed then (if reason.Some? then reason else Some("completed")) else None,
               Pending, initial == Completed, codes, None, None, None)
  }

  // ---------------------------------------------------------------------------
  // What handlers may write
  // ---------------------------------------------------------------------------

  /** `_CLARIFICATION_MAX_RETRIES`. */
  const MAX_RETRIES := 2

  const BACKLOG_STATES: set<Status> := {AwaitingBacklogDecision, AwaitingBacklogPick}

  /** State to which a backlog clarification returns, as its handler reads it from its copy. */
  function ReturnState(d: SessionDoc): Status {
    match d.clarification
    case Some(BacklogClarification(_, _, s)) => s
    case _ => AwaitingBacklogDecision
  }

  /**
   The updates that some handler may compute from the copy `snap` of the document: task edits at a
   position checked against that copy or at its current index, the successor of its index, one of the
   clarification states with the payload built for it, and the state its own payload says to return to.
   */
  predicate Emits(snap: SessionDoc, w: Write) {
    match w
    case UpdateTaskStatus(i, _) => i < |snap.tasks|
    case EditTaskField(i, _) => i < |snap.tasks| || i == snap.index
    case StampLease(t) => t > 0
    case AdvanceTo(n) => n == snap.index + 1 && n < |snap.tasks|
    case EnterClarification(st, p) =>
      match p {
        case BacklogClarification(r, m, ret) =>
          st == AwaitingBacklogClarification && 0 <= r < MAX_RETRIES && m == MAX_RETRIES && ret in BACKLOG_STATES
        case StatusClarification(_, _, _) => st == AwaitingStatusClarification
      }
    case ClearClarification(next) => next == Some(AwaitingStatus) || next == Some(ReturnState(snap))
    case _ => true
  }

  // ---------------------------------------------------------------------------
  // The invariant
  // ---------------------------------------------------------------------------

  predicate IndexInBounds(d: SessionDoc) {
    if d.tasks == [] then d.index == 0 else d.index < |d.tasks|
  }

  /** A payload is stored exactly in the clarification states, and it is the one for that state. */
  predicate PayloadMatchesState(d: SessionDoc) {
    match d.clarification
    case None => d.status != AwaitingBacklogClarification && d.status != AwaitingStatusClarification
    case Some(BacklogClarification(r, m, ret)) =>
      d.status == AwaitingBacklogClarification && 0 <= r < MAX_RETRIES && m == MAX_RETRIES && ret in BACKLOG_STATES
    case Some(StatusClarification(_, _, _)) => d.status == AwaitingStatusClarification
  }

  predicate ClosedFieldsSet(d: SessionDoc) {
    d.status == Completed ==> d.completedAt.Some? && d.expiredReason.Some?
  }

  predicate Inv(d: SessionDoc) {
    && !d.status.Other?
    && IndexInBounds(d)
    && PayloadMatchesState(d)
    && ClosedFieldsSet(d)
    && (d.hasBacklog <==> d.backlog != [])
  }

  /** A new session holds its agenda at the first task and nothing else yet; one created closed carries its reason. */
  lemma CreatedIs(tasks: seq<Task>, initial: Status, reason: Option<string>, codes: set<string>, at: int)
    ensures var d := Created(tasks, initial, reason, codes, at);
            && d.tasks == tasks && d.index == 0 && d.status == initial && d.reasonCodes == codes && d.response == Pending
            && d.clarification == None && d.overallInput == None && !d.overallSkipped && d.backlog == [] && !d.hasBacklog
            && d.picked == [] && !d.promptSent && !d.promptSkippedByPolicy
            && d.noticeSentAt == None && d.noticeClaimedAt == None && d.leaseVersion == None
            && (if initial == Completed then
                  d.completedAt == Some(at) && d.terminal && d.expiredReason == Some(if reason == None then "completed" else reason.value)
                else d.completedAt == None && !d.terminal && d.expiredReason == None)
  {}

  /** Which initial states `create_session` may be given. */
  lemma CreatedSatisfiesInv(tasks: seq<Task>, initial: Status, reason: Option<string>, codes: set<string>, at: int)
    ensures Inv(Created(tasks, initial, reason, codes, at)) <==>
            !initial.Other? && initial !in {AwaitingBacklogClarification, AwaitingStatusClarification}
    ensures Created(tasks, initial, reason, codes, at).status == Completed ==>
              Created(tasks, initial, reason, codes, at).terminal
  {}

  /** One update computed from an older copy keeps the invariant of the current document. */
  lemma StepKeepsInv(snap: SessionDoc, d: SessionDoc, w: Write)
    requires Inv(snap) && Inv(d) && |snap.tasks| <= |d.tasks|
    requires Emits(snap, w)
    ensures Inv(Apply(d, w))
    ensures |d.tasks| <= |Apply(d, w).tasks|
    ensures d.tasks != [] ==> |Apply(d, w).tasks| == |d.tasks|
    ensures |Apply(d, w).tasks| <= |d.tasks| || (d.tasks == [] && |Apply(d, w).tasks| == 1)
  {}

  // ---------------------------------------------------------------------------
  // Interleavings
  // ---------------------------------------------------------------------------

  /**
   One write attempt: the moment its writer read the document, the update, the lease token its writer holds
   (the repository stores it beside every update) and whether the update took effect.
   */
  datatype Event = Event(readAt: nat, write: Write, stamp: Option<int>, committed: bool)

  /** The stored result of an update made under a lease. */
  function Commit(d: SessionDoc, w: Write, stamp: Option<int>): SessionDoc {
    if stamp.Some? then Apply(d, w).(leaseVersion := stamp) else Apply(d, w)
  }

  /** A lease leaves its token beside the update and nothing else; without one there is only the update. */
  lemma CommitStamps(d: SessionDoc, w: Write, stamp: Option<int>)
    ensures var r := Commit(d, w, stamp);
            && r.(leaseVersion := Apply(d, w).leaseVersion) == Apply(d, w)
            && r.leaseVersion == if stamp == None then Apply(d, w).leaseVersion else stamp
  {}

  ghost predicate StepAt(docs: seq<SessionDoc>, e: Event, k: nat)
    requires k + 1 < |docs|
  {
    && e.readAt <= k
    && Emits(docs[e.readAt], e.write)
    && docs[k + 1] == if e.committed then Commit(docs[k], e.write, e.stamp) else docs[k]
  }

  /** `docs` is the history of the document under the interleaved write attempts `events`. */
  ghost predicate Interleaving(docs: seq<SessionDoc>, events: seq<Event>) {
    && |docs| == |events| + 1
    && forall k | 0 <= k < |events| :: StepAt(docs, events[k], k)
  }

  lemma InterleavingAppend(docs: seq<SessionDoc>, events: seq<Event>, e: Event, d: SessionDoc)
    requires Interleaving(docs, events) && e.readAt < |docs| && Emits(docs[e.readAt], e.write)
    requires d == if e.committed then Commit(docs[|docs| - 1], e.write, e.stamp) else docs[|docs| - 1]
    ensures Interleaving(docs + [d], events + [e])
  {
    forall k | 0 <= k < |events| + 1 ensures StepAt(docs + [d], (events + [e])[k], k) {
      if k < |events| { assert StepAt(docs, events[k], k); }
    }
  }

  /** What holds of the documents up to the `n`-th. */
  lemma {:induction false} InvariantUpTo(docs: seq<SessionDoc>, events: seq<Event>, n: nat)
    requires Interleaving(docs, events) && Inv(docs[0]) && n < |docs|
    ensures forall k | 0 <= k <= n :: Inv(docs[k]) && |docs[k].tasks| <= |docs[n].tasks|
    ensures if docs[0].tasks == [] then |docs[n].tasks| <= 1 else |docs[n].tasks| == |docs[0].tasks|
  {
    if n > 0 {
      InvariantUpTo(docs, events, n - 1);
      var e := events[n - 1];
      assert StepAt(docs, e, n - 1);
      StepKeepsInv(docs[e.readAt], docs[n - 1], e.write);
    }
  }

  /**
   In every interleaving of any number of writers the status stays one of the valid states, the index
   stays in bounds, a payload is stored exactly in the clarification states, a completed session has its
   closing fields and `has_backlog` agrees with the list.  The number of tasks never shrinks, and never
   changes once it is positive.
   */
  lemma SessionInvariant(docs: seq<SessionDoc>, events: seq<Event>)
    requires Interleaving(docs, events) && Inv(docs[0])
    ensures forall k | 0 <= k < |docs| :: Inv(docs[k])
    ensures forall i, j | 0 <= i <= j < |docs| :: |docs[i].tasks| <= |docs[j].tasks|
    ensures docs[0].tasks != [] ==> forall k | 0 <= k < |docs| :: |docs[k].tasks| == |docs[0].tasks|
    ensures docs[0].tasks == [] ==> forall k | 0 <= k < |docs| :: |docs[k].tasks| <= 1
  {
    forall n | 0 <= n < |docs|
      ensures Inv(docs[n]) && forall k | 0 <= k <= n :: |docs[k].tasks| <= |docs[n].tasks|
      ensures if docs[0].tasks == [] then |docs[n].tasks| <= 1 else |docs[n].tasks| == |docs[0].tasks|
    {
      InvariantUpTo(docs, events, n);
    }
  }

  /**
   The task count of an empty agenda is not fixed: a second reply queued before its session completed reaches
   the agent, and a tool that stores a comment at the current index makes the database create element 0.
   */
  lemma EmptyAgendaCanGrow(at: int)
    ensures var d := Created([], Completed, None, {}, at);
            var w := EditTaskField(d.index, NewComment("x"));
            Inv(d) && Emits(d, w) && |Apply(d, w).tasks| == 1
  {}

  lemma CountUnlessEdited(snap: SessionDoc, d: SessionDoc, w: Write)
    requires Inv(snap) && Inv(d) && |snap.tasks| <= |d.tasks| && Emits(snap, w)
    ensures |Apply(d, w).tasks| == |d.tasks| <==> d.tasks != [] || !EditsTask(w)
  {
    if !EditsTask(w) {
    } else if w.UpdateTaskStatus? {
      assert |Apply(d, w).tasks| == |EditTaskAt(d.tasks, w.taskIndex, NewStatus(w.newStatus))|;
    } else {
      assert |Apply(d, w).tasks| == |EditTaskAt(d.tasks, w.taskIndex, w.edit)|;
    }
  }

  /**
   Over a run the task count is constant exactly if the agenda is not empty at the start or no task-field
   edit commits.
   */
  lemma TaskCountConstantIff(docs: seq<SessionDoc>, events: seq<Event>)
    requires Interleaving(docs, events) && Inv(docs[0])
    ensures (forall k | 0 <= k < |docs| :: |docs[k].tasks| == |docs[0].tasks|) <==>
            docs[0].tasks != [] || forall k | 0 <= k < |events| :: !(events[k].committed && EditsTask(events[k].write))
  {
    SessionInvariant(docs, events);
    if docs[0].tasks == [] {
      if k :| 0 <= k < |events| && events[k].committed && EditsTask(events[k].write) {
        assert StepAt(docs, events[k], k);
        CountUnlessEdited(docs[events[k].readAt], docs[k], events[k].write);
        assert |docs[k + 1].tasks| != |docs[k].tasks| || docs[k].tasks != [];
      } else {
        forall k | 0 <= k < |docs| ensures docs[k].tasks == [] { EmptyWithoutEdits(docs, events, k); }
      }
    }
  }

  lemma {:induction false} EmptyWithoutEdits(docs: seq<SessionDoc>, events: seq<Event>, n: nat)
    requires Interleaving(docs, events) && (forall k | 0 <= k < |docs| :: Inv(docs[k])) && n < |docs|
    requires forall i, j | 0 <= i <= j < |docs| :: |docs[i].tasks| <= |docs[j].tasks|
    requires docs[0].tasks == [] && forall k | 0 <= k < |events| :: !(events[k].committed && EditsTask(events[k].write))
    ensures docs[n].tasks == []
  {
    if n > 0 {
      EmptyWithoutEdits(docs, events, n - 1);
      var e := events[n - 1];
      assert StepAt(docs, e, n - 1);
      CountUnlessEdited(docs[e.readAt], docs[n - 1], e.write);
    }
  }

  predicate TerminalWhenCompleted(d: SessionDoc) { d.status == Completed ==> d.terminal }

  /** The one update that can make a completed session non-terminal, when it commits at step `k`. */
  predicate Reopening(docs: seq<SessionDoc>, e: Event, k: nat)
    requires k < |docs|
  {
    docs[k].status == Completed && e.committed && e.write.RecordOutcome? && e.write.newTerminal == Some(false)
  }

  /** A single update keeps "completed means terminal", unless it records `terminal=False` on a completed session. */
  lemma TerminalStep(snap: SessionDoc, d: SessionDoc, w: Write)
    requires Inv(snap) && Emits(snap, w) && TerminalWhenCompleted(d)
    ensures TerminalWhenCompleted(Apply(d, w)) <==>
            !(d.status == Completed && w.RecordOutcome? && w.newTerminal == Some(false))
  {}

  lemma {:induction false} TerminalUntilReopened(docs: seq<SessionDoc>, events: seq<Event>, n: nat)
    requires Interleaving(docs, events) && (forall k | 0 <= k < |docs| :: Inv(docs[k])) && n < |docs|
    requires TerminalWhenCompleted(docs[0])
    requires forall k | 0 <= k < n :: !Reopening(docs, events[k], k)
    ensures TerminalWhenCompleted(docs[n])
  {
    if n > 0 {
      TerminalUntilReopened(docs, events, n - 1);
      assert StepAt(docs, events[n - 1], n - 1) && !Reopening(docs, events[n - 1], n - 1);
      TerminalStep(docs[events[n - 1].readAt], docs[n - 1], events[n - 1].write);
    }
  }

  /**
   Over a whole run, every completed document is terminal exactly when no committed update records
   `terminal=False` on a completed session (the check-in conflict path is the only caller that could).
   */
  lemma CompletedMeansTerminalIff(docs: seq<SessionDoc>, events: seq<Event>)
    requires Interleaving(docs, events) && Inv(docs[0]) && TerminalWhenCompleted(docs[0])
    ensures (forall k | 0 <= k < |docs| :: TerminalWhenCompleted(docs[k])) <==>
            (forall k | 0 <= k < |events| :: !Reopening(docs, events[k], k))
  {
    SessionInvariant(docs, events);
    if k :| 0 <= k < |events| && Reopening(docs, events[k], k) {
      assert StepAt(docs, events[k], k);
      assert !TerminalWhenCompleted(docs[k + 1]);
    } else {
      forall n | 0 <= n < |docs| ensures TerminalWhenCompleted(docs[n]) {
        TerminalUntilReopened(docs, events, n);
      }
    }
  }

  /** Why sessions are closed by an answer of their user. */
  predicate ClosedByAnswer(reason: string) {
    || reason == "agenda_complete" || reason == "backlog_exhausted" || reason == "backlog_deferred"
    || reason == "backlog_skipped_workload_policy" || reason == "backlog_empty_after_pick" || reason == "agent_complete"
    || reason == "completed"
  }

  /**
   A completed session counts as responded exactly for these reasons, a timed-out or cancelled one never; either
   way it is closed for good with its reason among the outcome's codes, and nothing of the agenda differs.
   */
  lemma ClosingTellsResponse(d: SessionDoc, w: Write)
    requires w.Complete? || w.Cancel?
    ensures var r := Apply(d, w);
            && r.response == (if w.Complete? && ClosedByAnswer(w.reason) then Responded else NoResponseExpired)
            && r.status == Completed && r.completedAt == Some(w.at) && r.expiredReason == Some(w.reason) && r.terminal
            && r.reasonCodes == d.reasonCodes + {w.reason} && r.clarification == None
            && r.promptSent == d.promptSent && r.promptSkippedByPolicy == d.promptSkippedByPolicy
            && r.leaseVersion == d.leaseVersion
  {}

  /** Re-entering an earlier phase leaves `outcome.terminal` as it was, so terminal does not mean completed. */
  lemma ReopenedStaysTerminal(d: SessionDoc, w: Write)
    requires d.status == Completed && d.terminal
    requires w in {EnterOverallInput, EnterBacklogDecision, EnterBacklogPick}
    ensures Apply(d, w).status != Completed && Apply(d, w).terminal
            && Apply(d, w).completedAt == None && Apply(d, w).expiredReason == None
  {}

  /** An advance moves the index back exactly when its writer's copy was at least two positions behind. */
  lemma AdvanceMonotoneIffFresh(snap: SessionDoc, d: SessionDoc, w: Write)
    requires Emits(snap, w)
    ensures Apply(d, w).index < d.index <==> w.AdvanceTo? && snap.index + 1 < d.index
  {}

  lemma IndexStep(docs: seq<SessionDoc>, events: seq<Event>, k: nat)
    requires Interleaving(docs, events) && k < |events|
    requires events[k].committed && events[k].write.AdvanceTo? ==> docs[k].index <= docs[events[k].readAt].index + 1
    ensures docs[k].index <= docs[k + 1].index
  {
    var e := events[k];
    assert StepAt(docs, e, k);
    if e.committed { AdvanceMonotoneIffFresh(docs[e.readAt], docs[k], e.write); }
  }

  /** With every advance computed from a copy at most one position old, the index never decreases. */
  lemma {:induction false} IndexMonotoneWhenSerialised(docs: seq<SessionDoc>, events: seq<Event>, i: nat, j: nat)
    requires Interleaving(docs, events) && i <= j < |docs|
    requires forall k | 0 <= k < |events| ::
               events[k].committed && events[k].write.AdvanceTo? ==> docs[k].index <= docs[events[k].readAt].index + 1
    ensures docs[i].index <= docs[j].index
    decreases j
  {
    if i < j {
      IndexMonotoneWhenSerialised(docs, events, i, j - 1);
      IndexStep(docs, events, j - 1);
    }
  }
}
