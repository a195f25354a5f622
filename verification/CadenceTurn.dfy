/**
 One direct-message turn of a cadence session, from the reply to the document it leaves behind.

 The model decides which tools to call, in which order, with which arguments and how often, over any number of
 fallback attempts; the tool runtime decides which of those calls run.  Whatever happens, the step after the
 run moves the agenda on.
 */
module CadenceTurn {
  import opened Numbers
  import opened Options
  import opened Text
  import opened SessionModel
  import opened SessionRepositoryModel
  import opened OperationReplay
  import opened ToolRuntime
  import Backlog
  import StatusClarificationFlow

  datatype CadenceTool = UpdateTaskStatusTool | AddCommentTool | AssignTaskTool | AdvanceTaskTool | AskCommentFollowupTool
                       | CompleteSessionTool

  /** The registered contracts; no cadence tool has identifier fields. */
  function Spec(t: CadenceTool): ToolSpec {
    match t
    case UpdateTaskStatusTool => ToolContract("cadence_update_task_status", NonIdempotent, [])
    case AddCommentTool => ToolContract("cadence_add_comment", NonIdempotent, [])
    case AssignTaskTool => ToolContract("cadence_assign_task", NonIdempotent, [])
    case AdvanceTaskTool => ToolContract("cadence_advance_task", NonIdempotent, [])
    case AskCommentFollowupTool => ToolContract("cadence_ask_comment_followup", Idempotent, [])
    case CompleteSessionTool => ToolContract("cadence_complete_session", NonIdempotent, [])
  }

  /** The names the tools are registered under, and the one that may be repeated. */
  lemma SpecsAre(t: CadenceTool)
    ensures Spec(t).name == match t
                            case UpdateTaskStatusTool => "cadence_update_task_status"
                            case AddCommentTool => "cadence_add_comment"
                            case AssignTaskTool => "cadence_assign_task"
                            case AdvanceTaskTool => "cadence_advance_task"
                            case AskCommentFollowupTool => "cadence_ask_comment_followup"
                            case CompleteSessionTool => "cadence_complete_session"
    ensures Spec(t).idempotency == NonIdempotent <==> t != AskCommentFollowupTool
    ensures forall f :: f !in Spec(t).identifierFields
  {}

  /**
   A call of a cadence tool: how the runtime will treat it, its texts, and the answers of the task provider,
   with whether the dispatch of a comment made in place of a status raises.
   */
  datatype ToolUse = ToolUse(tool: CadenceTool, call: CallInput, status: string, phrase: string, comment: string,
                             adapterOk: bool, statusUpdated: bool, fallbackRaised: bool)

  datatype RunAttempt = RunAttempt(uses: seq<ToolUse>, ending: Ending)

  /**
   One reply of the user with everything its turn depends on.  `readAt` is the position in the document's
   history at which the queue read its copy, before it waited for the lease; None stands for the present one.
   */
  datatype Turn = Turn(readAt: Option<nat>, attempts: seq<RunAttempt>, reply: Backlog.Reply,
                       statusReply: StatusClarificationFlow.StatusReply, overallText: string, overallSkipped: bool,
                       workloadSetting: int, message: string, now: int)

  // ---------------------------------------------------------------------------
  // Tools
  // ---------------------------------------------------------------------------

  function Underscored(c: char): char { if c == ' ' || c == '-' then '_' else c }

  function NormalizeStatus(raw: string): string {
    var s := Lower(Strip(raw));
    seq(|s|, i requires 0 <= i < |s| => Underscored(s[i]))
  }

  /** Two characters that a status makes no difference between. */
  ghost predicate SameLetter(c: char, d: char) {
    LowerChar(c) == LowerChar(d) || (c in {' ', '-', '_'} && d in {' ', '-', '_'})
  }

  /** Two statuses are one if they agree but for case, surrounding white space, and blanks, dashes and underscores. */
  lemma NormalizedAlike(a: string, b: string)
    ensures NormalizeStatus(a) == NormalizeStatus(b) <==>
              |Strip(a)| == |Strip(b)| && forall i | 0 <= i < |Strip(a)| :: SameLetter(Strip(a)[i], Strip(b)[i])
  {
    var s, t := NormalizeStatus(a), NormalizeStatus(b);
    assert |s| == |Strip(a)| && |t| == |Strip(b)|;
    forall i | 0 <= i < |s| && i < |t| ensures s[i] == t[i] <==> SameLetter(Strip(a)[i], Strip(b)[i]) {
      UnderscoredAlike(Strip(a)[i], Strip(b)[i]);
    }
    if s == t {
      forall i | 0 <= i < |s| ensures SameLetter(Strip(a)[i], Strip(b)[i]) { assert s[i] == t[i]; }
    }
  }

  lemma UnderscoredAlike(c: char, d: char)
    ensures Underscored(LowerChar(c)) == Underscored(LowerChar(d)) <==> SameLetter(c, d)
  {}

  /** The task field a tool run changes, from the copy it loads. */
  function FieldEdit(session: SessionDoc, u: ToolUse): Option<TaskEdit> {
    match u.tool
    case UpdateTaskStatusTool =>
      var status, phrase := Strip(u.status), Strip(u.phrase);
      var current := if session.index < |session.tasks| then Strip(session.tasks[session.index].status) else "";
      if NormalizeStatus(status) == NormalizeStatus(current) then
        (if u.adapterOk then Some(NewComment(if phrase != "" then phrase else "Status unchanged: " + status)) else None)
      else if u.adapterOk && u.statusUpdated then Some(NewStatus(status))
      else if u.fallbackRaised then None
      else Some(NewComment("Status note: " + (if phrase != "" then phrase else status) + " (transition not available in Jira)"))
    case AddCommentTool =>
      if u.adapterOk && Strip(u.comment) != "" then Some(NewComment(Strip(u.comment))) else None
    case _ => None
  }

  /** The status the user asked for is already the task's. */
  predicate SameStatus(session: SessionDoc, u: ToolUse) {
    NormalizeStatus(Strip(u.status)) ==
    NormalizeStatus(if session.index < |session.tasks| then Strip(session.tasks[session.index].status) else "")
  }

  /**
   What the user said about a task is kept: a new status is stored exactly when the provider applied it, and
   otherwise the words go into a comment.  They are lost exactly if the comment on an unchanged status was
   refused, or the provider did not apply a new status and the comment in its place raised.
   */
  lemma SayingIsKept(session: SessionDoc, u: ToolUse)
    requires u.tool == UpdateTaskStatusTool
    ensures FieldEdit(session, u) == Some(NewStatus(Strip(u.status))) <==>
              !SameStatus(session, u) && u.adapterOk && u.statusUpdated
    ensures FieldEdit(session, u).None? <==>
              if SameStatus(session, u) then !u.adapterOk else !(u.adapterOk && u.statusUpdated) && u.fallbackRaised
    ensures FieldEdit(session, u).Some? && !FieldEdit(session, u).value.NewStatus? ==>
              && FieldEdit(session, u).value.NewComment?
              && Contains(FieldEdit(session, u).value.comment, if Strip(u.phrase) != "" then Strip(u.phrase) else Strip(u.status))
  {
    var words := if Strip(u.phrase) != "" then Strip(u.phrase) else Strip(u.status);
    if FieldEdit(session, u).Some? && FieldEdit(session, u).value.NewComment? {
      var c := FieldEdit(session, u).value.comment;
      if SameStatus(session, u) {
        if Strip(u.phrase) != "" { Inside("", words, ""); } else { Inside("Status unchanged: ", words, ""); }
      } else {
        Inside("Status note: ", words, " (transition not available in Jira)");
      }
    }
  }

  lemma Inside(front: string, words: string, back: string)
    ensures Contains(front + words + back, words)
    ensures front == "" && back == "" ==> Contains(words, words)
    ensures back == "" ==> Contains(front + words, words)
  {
    var s := front + words + back;
    assert s[|front|..|front| + |words|] == words;
    assert OccursAt(words, s, |front|);
    assert back == "" ==> front + words == s;
    assert front == "" && back == "" ==> words == s;
  }

  /** What a tool run makes of the agenda `before`, on its current task. */
  ghost predicate ToolStored(before: SessionDoc, tasks: seq<Task>, u: ToolUse)
    requires before.index < |before.tasks|
  {
    var t := before.tasks[before.index];
    match u.tool
    case AddCommentTool =>
      tasks == if u.adapterOk && Strip(u.comment) != "" then before.tasks[before.index := t.(comment := Some(Strip(u.comment)))]
               else before.tasks
    case UpdateTaskStatusTool =>
      var same := SameStatus(before, u);
      if !same && u.adapterOk && u.statusUpdated then
        tasks == before.tasks[before.index := t.(updatedStatus := Some(Strip(u.status)))]
      else if (if same then !u.adapterOk else u.fallbackRaised) then tasks == before.tasks
      else exists c :: Contains(c, if Strip(u.phrase) != "" then Strip(u.phrase) else Strip(u.status))
                       && tasks == before.tasks[before.index := t.(comment := Some(c))]
    case _ => tasks == before.tasks
  }

  lemma EditStored(d: SessionDoc, u: ToolUse)
    requires d.index < |d.tasks|
    ensures var e := FieldEdit(d, u);
            ToolStored(d, if e.Some? then EditTaskAt(d.tasks, d.index, e.value) else d.tasks, u)
  {
    if u.tool == UpdateTaskStatusTool { SayingIsKept(d, u); }
  }

  predicate Moves(t: CadenceTool) { t == AdvanceTaskTool || t == CompleteSessionTool }

  /** What tool runs have done to the document `d0` of the turn's start. */
  ghost predicate Worked(d0: SessionDoc, d: SessionDoc, moved: bool, writes: nat) {
    && d0.index <= d.index <= d0.index + writes
    && (if moved then d.status == Completed || (d.status == AwaitingStatus && d.index > d0.index)
        else d.status == d0.status && d.index == d0.index)
    && d.backlog == d0.backlog && d.hasBacklog == d0.hasBacklog && d.picked == d0.picked
    && (d0.tasks != [] ==> |d.tasks| == |d0.tasks|)
  }

  /** Where the two moving tools take a session: on to the next task or, after the last one, to its end. */
  ghost predicate ToolMoved(d0: SessionDoc, d: SessionDoc, tool: CadenceTool, now: int) {
    match tool
    case AdvanceTaskTool =>
      if d0.index + 1 < |d0.tasks| then d.status == AwaitingStatus && d.index == d0.index + 1
      else d.status == Completed && d.expiredReason == Some("agenda_complete") && d.completedAt == Some(now)
    case CompleteSessionTool =>
      d.status == Completed && d.index == d0.index && d.expiredReason == Some("agent_complete") && d.completedAt == Some(now)
    case _ => d.status == d0.status && d.index == d0.index
  }

  lemma EditIsNoMove(d: SessionDoc, e: TaskEdit, stamp: Option<int>)
    requires Inv(d)
    ensures Worked(d, Commit(d, EditTaskField(d.index, e), stamp), false, 0)
    ensures Commit(d, EditTaskField(d.index, e), stamp).tasks == EditTaskAt(d.tasks, d.index, e)
  {}

  lemma AdvanceIsMove(d: SessionDoc, stamp: Option<int>)
    ensures Worked(d, Commit(d, AdvanceTo(d.index + 1), stamp), true, 1)
  {
    assert Apply(d, AdvanceTo(d.index + 1)) == d.(index := d.index + 1, status := AwaitingStatus, clarification := None);
  }

  lemma CompleteIsMove(d: SessionDoc, reason: string, now: int, stamp: Option<int>)
    ensures Worked(d, Commit(d, Complete(reason, now), stamp), true, 1)
  {}

  /** The tools that write a field of the current task, or none. */
  method StoreField(repo: SessionRepository, u: ToolUse, token: int)
    requires repo.Valid() && !Moves(u.tool)
    modifies repo`doc, repo`docs, repo`events
    ensures repo.Valid() && repo.Fenced() == old(repo.Fenced()) && old(repo.docs) <= repo.docs
    ensures old(repo.Fenced()) ==> repo.doc == old(repo.doc)
    ensures !repo.Fenced() ==> Worked(old(repo.doc), repo.doc, false, 0)
    ensures MayWrite(old(repo.doc), repo.lease, repo.enforceSetting, token) && old(repo.doc.index < |repo.doc.tasks|) ==>
              ToolStored(old(repo.doc), repo.doc.tasks, u)
    ensures u.tool !in {UpdateTaskStatusTool, AddCommentTool} ==> repo.doc == old(repo.doc)
    ensures token == TokenOf(repo.lease) && !MayWrite(old(repo.doc), repo.lease, repo.enforceSetting, token) ==>
              repo.doc == old(repo.doc)
  {
    var session := repo.doc;
    repo.DocumentInvariant();
    var edit := FieldEdit(session, u);
    if session.index < |session.tasks| { EditStored(session, u); }
    if edit.Some? {
      EditIsNoMove(session, edit.value, repo.Stamp());
      var _ := repo.PersistTaskField(session.index, edit.value, token, repo.Now());
    }
  }

  /** A task-field write of this worker with this token goes through. */
  ghost predicate MayWrite(d: SessionDoc, lease: Option<Lease>, enforceSetting: bool, token: int) {
    token == TokenOf(lease) && !(token == 0 && enforceSetting) && (token == 0 || d.leaseVersion == Some(token))
  }

  /** Without a lease such writes go through while the switch is off; with one, while the document carries its token. */
  lemma MayWriteIff(d: SessionDoc, lease: Option<Lease>, enforceSetting: bool, token: int)
    requires lease != None ==> lease.value.token > 0
    ensures lease == None ==> (MayWrite(d, lease, enforceSetting, token) <==> token == 0 && !enforceSetting)
    ensures lease != None ==>
              (MayWrite(d, lease, enforceSetting, token) <==>
                 token == lease.value.token && d.leaseVersion == Some(lease.value.token))
  {}

  /** One tool run. */
  method RunTool(repo: SessionRepository, u: ToolUse, token: int, now: int)
    requires repo.Valid()
    modifies repo`doc, repo`docs, repo`events
    ensures repo.Valid() && repo.Fenced() == old(repo.Fenced()) && old(repo.docs) <= repo.docs
    ensures old(repo.Fenced()) ==> repo.doc == old(repo.doc)
    ensures !repo.Fenced() ==> Worked(old(repo.doc), repo.doc, Moves(u.tool), if Moves(u.tool) then 1 else 0)
    ensures MayWrite(old(repo.doc), repo.lease, repo.enforceSetting, token) && old(repo.doc.index < |repo.doc.tasks|) ==>
              ToolStored(old(repo.doc), repo.doc.tasks, u)
    ensures !repo.Fenced() ==> ToolMoved(old(repo.doc), repo.doc, u.tool, now)
    ensures token == TokenOf(repo.lease) && !MayWrite(old(repo.doc), repo.lease, repo.enforceSetting, token) ==>
              Moves(u.tool) || repo.doc == old(repo.doc)
  {
    var session := repo.doc;
    if u.tool == AdvanceTaskTool {
      repo.DocumentInvariant();
      AdvanceIsMove(session, repo.Stamp());
      CompleteIsMove(session, "agenda_complete", now, repo.Stamp());
      var _ := repo.MoveToNextTask(now);
    } else if u.tool == CompleteSessionTool {
      CompleteIsMove(session, "agent_complete", now, repo.Stamp());
      var _ := repo.Update(Complete("agent_complete", now));
    } else {
      StoreField(repo, u, token);
    }
  }

  // ---------------------------------------------------------------------------
  // The model's run
  // ---------------------------------------------------------------------------

  /** The call ran the advance or the complete tool. */
  ghost predicate IsMove(c: CallRecord) {
    c.ranWith.Some? && (c.spec == Spec(AdvanceTaskTool) || c.spec == Spec(CompleteSessionTool))
  }

  ghost predicate MoveRan(h: seq<CallRecord>) { exists i | 0 <= i < |h| :: IsMove(h[i]) }

  /** A worker in a turn: its lease, the switch, the token it hands to the tools, and whether it is shut out. */
  datatype Worker = Worker(lease: Option<Lease>, enforceSetting: bool, token: int, fenced: bool, now: int)

  function WorkerOf(repo: SessionRepository, token: int, now: int): Worker
    reads repo
  {
    Worker(repo.lease, repo.enforceSetting, token, repo.Fenced(), now)
  }

  /** Between two calls of a turn: the document, the log of the replay cache and the time. */
  datatype Stage = Stage(doc: SessionDoc, log: seq<Invocation>, clock: int)

  /** What a tool that ran makes of the document. */
  ghost predicate ToolDone(before: SessionDoc, after: SessionDoc, u: ToolUse, w: Worker) {
    var may := MayWrite(before, w.lease, w.enforceSetting, w.token);
    && (w.fenced ==> after == before)
    && (!w.fenced ==> ToolMoved(before, after, u.tool, w.now))
    && (may && before.index < |before.tasks| ==> ToolStored(before, after.tasks, u))
    && (w.token == TokenOf(w.lease) && !may && !Moves(u.tool) ==> after == before)
  }

  /** One call in a turn, after the calls of `h`: what became of it, and of the document, which only a call that ran touches. */
  ghost predicate UseDone(exec: AgentExecutor, h: seq<CallRecord>, before: Stage, after: Stage, u: ToolUse, c: CallRecord,
                          w: Worker)
  {
    && exec.Decided(h, before.log, u.call.(spec := Spec(u.tool)), after.clock, c)
    && after.clock == before.clock + u.call.delay
    && (if c.ranWith.Some? then ToolDone(before.doc, after.doc, u, w) else after.doc == before.doc)
    && (!w.fenced && c.ranWith.Some? ==> Worked(before.doc, after.doc, Moves(u.tool), if Moves(u.tool) then 1 else 0))
  }

  /** The calls of a turn so far, one after the other. */
  ghost predicate UsesDone(exec: AgentExecutor, h: seq<CallRecord>, stages: seq<Stage>, uses: seq<ToolUse>, w: Worker) {
    && |h| == |uses| && |stages| == |uses| + 1
    && (uses == [] ||
        var n := |uses| - 1;
        && UsesDone(exec, h[..n], stages[..n + 1], uses[..n], w)
        && UseDone(exec, h[..n], stages[n], stages[n + 1], uses[n], h[n], w))
  }

  lemma UsesAppend(exec: AgentExecutor, h: seq<CallRecord>, stages: seq<Stage>, uses: seq<ToolUse>, w: Worker, u: ToolUse,
                   c: CallRecord, after: Stage)
    requires UsesDone(exec, h, stages, uses, w) && UseDone(exec, h, stages[|uses|], after, u, c, w)
    ensures UsesDone(exec, h + [c], stages + [after], uses + [u], w)
  {
    assert (h + [c])[..|uses|] == h && (stages + [after])[..|uses| + 1] == stages && (uses + [u])[..|uses|] == uses;
  }

  /** Every call of a turn was decided from those before it, and its tool, if it ran, took the document one stage on. */
  lemma {:induction false} EveryUseDone(exec: AgentExecutor, h: seq<CallRecord>, stages: seq<Stage>, uses: seq<ToolUse>,
                                        w: Worker, i: nat)
    requires UsesDone(exec, h, stages, uses, w) && i < |uses|
    ensures UseDone(exec, h[..i], stages[i], stages[i + 1], uses[i], h[i], w)
  {
    var n := |uses| - 1;
    if i < n {
      EveryUseDone(exec, h[..n], stages[..n + 1], uses[..n], w, i);
      assert h[..n][..i] == h[..i];
    }
  }

  /** What the calls of a turn have done to its document, all in all: the index rises by the admitted writes at most. */
  lemma {:induction false} TraceWorked(exec: AgentExecutor, h: seq<CallRecord>, stages: seq<Stage>, uses: seq<ToolUse>, w: Worker)
    requires UsesDone(exec, h, stages, uses, w)
    ensures w.fenced ==> stages[|uses|].doc == stages[0].doc
    ensures !w.fenced ==> Worked(stages[0].doc, stages[|uses|].doc, MoveRan(h), CountWrites(h))
  {
    if uses != [] {
      var n := |uses| - 1;
      TraceWorked(exec, h[..n], stages[..n + 1], uses[..n], w);
      assert h == h[..n] + [h[n]];
      UseWorked(exec, h[..n], stages[n], stages[n + 1], uses[n], h[n], w);
    }
  }

  lemma UseWorked(exec: AgentExecutor, h: seq<CallRecord>, before: Stage, after: Stage, u: ToolUse, c: CallRecord, w: Worker)
    requires UseDone(exec, h, before, after, u, c, w)
    ensures w.fenced ==> after.doc == before.doc
    ensures !w.fenced ==> Worked(before.doc, after.doc, IsMove(c), if IsMove(c) then 1 else 0)
    ensures CountWrites(h + [c]) >= CountWrites(h) + (if IsMove(c) then 1 else 0)
    ensures MoveRan(h + [c]) <==> MoveRan(h) || IsMove(c)
    ensures IsMove(c) <==> c.ranWith.Some? && Moves(u.tool)
  {
    MoveIff(u.tool, c);
    CountsAppend(h, c);
    MoveRanAppend(h, c);
  }

  lemma MoveIff(t: CadenceTool, c: CallRecord)
    requires c.spec == Spec(t)
    ensures IsMove(c) <==> c.ranWith.Some? && Moves(t)
    ensures Moves(t) ==> c.spec.idempotency == NonIdempotent
  {
    SpecsAre(t);
    SpecsAre(AdvanceTaskTool);
    SpecsAre(CompleteSessionTool);
  }

  /** One tool call through the runtime. */
  method CallTool(exec: AgentExecutor, u: ToolUse) returns (ran: bool, ghost record: CallRecord)
    requires exec.Valid()
    modifies exec, exec.replay
    ensures exec.Valid() && exec.attempt == old(exec.attempt) && exec.history == old(exec.history) + [record]
    ensures exec.Decided(old(exec.history), old(exec.replay.log), u.call.(spec := Spec(u.tool)), exec.clock, record)
    ensures exec.clock == old(exec.clock) + u.call.delay
    ensures record.attempt == exec.attempt && ran == record.ranWith.Some?
  {
    ran, record := exec.RunToolCall(u.call.(spec := Spec(u.tool)));
  }

  /** The same, and the tool itself when it runs. */
  method RunUse(repo: SessionRepository, exec: AgentExecutor, u: ToolUse, token: int, now: int)
    returns (moved: bool, ghost record: CallRecord)
    requires repo.Valid() && exec.Valid()
    modifies repo`doc, repo`docs, repo`events, exec, exec.replay
    ensures repo.Valid() && exec.Valid() && repo.Fenced() == old(repo.Fenced()) && old(repo.docs) <= repo.docs
    ensures exec.attempt == old(exec.attempt) && exec.history == old(exec.history) + [record]
    ensures record.attempt == exec.attempt && (moved <==> record.ranWith.Some? && Moves(u.tool))
    ensures UseDone(exec, old(exec.history), old(StageOf(repo, exec)), StageOf(repo, exec), u, record, WorkerOf(repo, token, now))
  {
    var ran;
    ran, record := CallTool(exec, u);
    moved := ran && Moves(u.tool);
    if ran { RunTool(repo, u, token, now); }
  }

  ghost function StageOf(repo: SessionRepository, exec: AgentExecutor): Stage
    reads repo, exec, exec.replay
  {
    Stage(repo.doc, exec.replay.log, exec.clock)
  }

  lemma MoveRanAppend(h: seq<CallRecord>, c: CallRecord)
    ensures MoveRan(h + [c]) <==> MoveRan(h) || IsMove(c)
  {
    var next := h + [c];
    assert next[|h|] == c;
    if MoveRan(h) {
      var i :| 0 <= i < |h| && IsMove(h[i]);
      assert IsMove(next[i]);
    }
  }

  /** The tool calls of one attempt, after the `earlier` ones. */
  method RunUses(repo: SessionRepository, exec: AgentExecutor, uses: seq<ToolUse>, token: int, now: int,
                 ghost earlier: seq<ToolUse>, ghost before: seq<Stage>, ghost w: Worker)
    returns (moved: bool, ghost stages: seq<Stage>, ghost made: seq<ToolUse>)
    requires repo.Valid() && exec.Valid() && w == WorkerOf(repo, token, now)
    requires UsesDone(exec, exec.history, before, earlier, w) && before[|earlier|] == StageOf(repo, exec)
    modifies repo`doc, repo`docs, repo`events, exec, exec.replay
    ensures repo.Valid() && exec.Valid() && w == WorkerOf(repo, token, now) && old(repo.docs) <= repo.docs
    ensures exec.attempt == old(exec.attempt)
    ensures MoveRan(exec.history) <==> moved || old(MoveRan(exec.history))
    ensures before <= stages && made == earlier + uses
    ensures UsesDone(exec, exec.history, stages, made, w) && stages[|made|] == StageOf(repo, exec)
  {
    moved, stages, made := false, before, earlier;
    for i := 0 to |uses|
      invariant repo.Valid() && exec.Valid() && w == WorkerOf(repo, token, now) && old(repo.docs) <= repo.docs
      invariant exec.attempt == old(exec.attempt) && (MoveRan(exec.history) <==> moved || old(MoveRan(exec.history)))
      invariant before <= stages && made == earlier + uses[..i] && (i == |uses| ==> made == earlier + uses)
      invariant UsesDone(exec, exec.history, stages, made, w) && stages[|made|] == StageOf(repo, exec)
    {
      var m;
      m, stages, made := NextUse(repo, exec, uses[i], token, now, made, stages, w);
      OneMoreUse(earlier, uses, i);
      moved := moved || m;
    }
  }

  lemma OneMoreUse(earlier: seq<ToolUse>, uses: seq<ToolUse>, i: nat)
    requires i < |uses|
    ensures earlier + uses[..i] + [uses[i]] == earlier + uses[..i + 1]
    ensures i + 1 == |uses| ==> uses[..i + 1] == uses
  {}

  /** One of them. */
  method NextUse(repo: SessionRepository, exec: AgentExecutor, u: ToolUse, token: int, now: int, ghost earlier: seq<ToolUse>,
                 ghost before: seq<Stage>, ghost w: Worker)
    returns (moved: bool, ghost stages: seq<Stage>, ghost made: seq<ToolUse>)
    requires repo.Valid() && exec.Valid() && w == WorkerOf(repo, token, now)
    requires UsesDone(exec, exec.history, before, earlier, w) && before[|earlier|] == StageOf(repo, exec)
    modifies repo`doc, repo`docs, repo`events, exec, exec.replay
    ensures repo.Valid() && exec.Valid() && w == WorkerOf(repo, token, now) && old(repo.docs) <= repo.docs
    ensures exec.attempt == old(exec.attempt) && (MoveRan(exec.history) <==> moved || old(MoveRan(exec.history)))
    ensures stages == before + [StageOf(repo, exec)] && made == earlier + [u]
    ensures UsesDone(exec, exec.history, stages, made, w)
  {
    ghost var h := exec.history;
    ghost var record;
    moved, record := RunUse(repo, exec, u, token, now);
    UsesAppend(exec, h, before, earlier, w, u, record, StageOf(repo, exec));
    UseWorked(exec, h, before[|earlier|], StageOf(repo, exec), u, record, w);
    stages, made := before + [StageOf(repo, exec)], earlier + [u];
  }

  /** A new attempt and its calls. */
  method OneAttempt(repo: SessionRepository, exec: AgentExecutor, uses: seq<ToolUse>, token: int, now: int,
                    ghost earlier: seq<ToolUse>, ghost before: seq<Stage>, ghost w: Worker)
    returns (moved: bool, ghost stages: seq<Stage>, ghost made: seq<ToolUse>)
    requires repo.Valid() && exec.Valid() && w == WorkerOf(repo, token, now)
    requires UsesDone(exec, exec.history, before, earlier, w) && before[|earlier|] == StageOf(repo, exec)
    modifies repo`doc, repo`docs, repo`events, exec, exec.replay
    ensures repo.Valid() && exec.Valid() && w == WorkerOf(repo, token, now) && old(repo.docs) <= repo.docs
    ensures exec.attempt == old(exec.attempt) + 1 && (MoveRan(exec.history) <==> moved || old(MoveRan(exec.history)))
    ensures before <= stages && made == earlier + uses
    ensures UsesDone(exec, exec.history, stages, made, w) && stages[|made|] == StageOf(repo, exec)
  {
    exec.StartAttempt();
    moved, stages, made := RunUses(repo, exec, uses, token, now, earlier, before, w);
  }

  /** The tool calls of the first `n` attempts. */
  function UsesMade(attempts: seq<RunAttempt>, n: nat): seq<ToolUse>
    requires n <= |attempts|
  {
    if n == 0 then [] else UsesMade(attempts, n - 1) + attempts[n - 1].uses
  }

  /** The attempts go on while they fall through. */
  ghost predicate Attempted(attempts: seq<RunAttempt>, used: nat) {
    && used <= |attempts|
    && (used > 0 ==> FellThroughBefore(attempts, used - 1))
    && (used < |attempts| ==> 0 < used && attempts[used - 1].ending != FellThrough)
  }

  ghost predicate FellThroughBefore(attempts: seq<RunAttempt>, n: nat)
    requires n <= |attempts|
  {
    forall a | 0 <= a < n :: attempts[a].ending == FellThrough
  }

  lemma NextAttempt(attempts: seq<RunAttempt>, i: nat)
    requires i < |attempts| && FellThroughBefore(attempts, i)
    ensures attempts[i].ending == FellThrough ==> FellThroughBefore(attempts, i + 1)
    ensures attempts[i].ending != FellThrough || i + 1 == |attempts| ==> Attempted(attempts, i + 1)
    ensures UsesMade(attempts, i + 1) == UsesMade(attempts, i) + attempts[i].uses
  {}

  /** The attempts of one turn, until one succeeds or runs into the turn limit. */
  method RunAttempts(repo: SessionRepository, exec: AgentExecutor, attempts: seq<RunAttempt>, token: int, now: int,
                     ghost w: Worker)
    returns (moved: bool, ghost stages: seq<Stage>, ghost made: seq<ToolUse>)
    requires repo.Valid() && exec.Valid() && exec.history == [] && exec.attempt == 0 && w == WorkerOf(repo, token, now)
    modifies repo`doc, repo`docs, repo`events, exec, exec.replay
    ensures repo.Valid() && exec.Valid() && w == WorkerOf(repo, token, now) && old(repo.docs) <= repo.docs
    ensures MoveRan(exec.history) <==> moved
    ensures Attempted(attempts, exec.attempt) && made == UsesMade(attempts, exec.attempt)
    ensures UsesDone(exec, exec.history, stages, made, w)
    ensures stages[0] == old(StageOf(repo, exec)) && stages[|made|] == StageOf(repo, exec)
  {
    moved, stages, made := false, [StageOf(repo, exec)], [];
    for i := 0 to |attempts|
      invariant repo.Valid() && exec.Valid() && w == WorkerOf(repo, token, now) && old(repo.docs) <= repo.docs
      invariant (MoveRan(exec.history) <==> moved) && exec.attempt == i
      invariant FellThroughBefore(attempts, i) && (i == |attempts| ==> Attempted(attempts, i))
      invariant UsesDone(exec, exec.history, stages, made, w) && made == UsesMade(attempts, i)
      invariant stages[0] == old(StageOf(repo, exec)) && stages[|made|] == StageOf(repo, exec)
    {
      var m;
      m, stages, made := OneAttempt(repo, exec, attempts[i].uses, token, now, made, stages, w);
      moved := moved || m;
      NextAttempt(attempts, i);
      if !attempts[i].ending.FellThrough? { return; }
    }
  }

  /** The same, and what it comes to. */
  method RunAgent(repo: SessionRepository, exec: AgentExecutor, attempts: seq<RunAttempt>, token: int, now: int,
                  ghost w: Worker)
    returns (moved: bool, ghost stages: seq<Stage>, ghost made: seq<ToolUse>)
    requires repo.Valid() && exec.Valid() && exec.history == [] && exec.attempt == 0 && w == WorkerOf(repo, token, now)
    modifies repo`doc, repo`docs, repo`events, exec, exec.replay
    ensures repo.Valid() && exec.Valid() && w == WorkerOf(repo, token, now) && old(repo.docs) <= repo.docs
    ensures MoveRan(exec.history) <==> moved
    ensures w.fenced ==> repo.doc == old(repo.doc)
    ensures !w.fenced ==> Worked(old(repo.doc), repo.doc, moved, CountWrites(exec.history))
    ensures Attempted(attempts, exec.attempt) && made == UsesMade(attempts, exec.attempt)
    ensures UsesDone(exec, exec.history, stages, made, w)
    ensures stages[0] == old(StageOf(repo, exec)) && stages[|made|] == StageOf(repo, exec)
  {
    moved, stages, made := RunAttempts(repo, exec, attempts, token, now, w);
    TraceWorked(exec, exec.history, stages, made, w);
  }

  // ---------------------------------------------------------------------------
  // After the run
  // ---------------------------------------------------------------------------

  /** The step after the model's run; `taskIndex` is the index of the copy the turn works from. */
  method PostRun(repo: SessionRepository, taskIndex: nat, now: int)
    requires repo.Valid()
    modifies repo`doc, repo`docs, repo`events
    ensures repo.Valid() && repo.Fenced() == old(repo.Fenced()) && old(repo.docs) <= repo.docs
    ensures repo.Fenced() ==> repo.doc == old(repo.doc)
    ensures !repo.Fenced() ==> MovedOn(old(repo.doc), repo.doc, taskIndex)
  {
    var latest := repo.doc;
    if latest.status == Completed {
      var _ := repo.Update(EnterOverallInput);
    } else if latest.index > taskIndex {
      if latest.index >= |latest.tasks| {
        var _ := repo.Update(EnterOverallInput);
      }
    } else if latest.index == taskIndex && latest.status == AwaitingStatus {
      var hasMore := repo.MoveToNextTask(now);
      if !hasMore {
        var _ := repo.Update(EnterOverallInput);
      }
    }
  }

  /** Where the step after the run leaves a document. */
  ghost predicate MovedOn(before: SessionDoc, after: SessionDoc, taskIndex: nat) {
    && (if before.status == Completed || (before.index > taskIndex && before.index >= |before.tasks|) then
          after.status == AwaitingOverallInput && after.index == before.index
        else if before.status == AwaitingStatus && before.index == taskIndex then
          (if before.index + 1 < |before.tasks| then after.status == AwaitingStatus && after.index == before.index + 1
           else after.status == AwaitingOverallInput && after.index == before.index)
        else after == before)
    && after.backlog == before.backlog && after.hasBacklog == before.hasBacklog && after.tasks == before.tasks
    && after.picked == before.picked
  }

  /** The agenda got further: the overall question is reached, or the status of a later task is. */
  predicate Advanced(d0: SessionDoc, d: SessionDoc) {
    d.status == AwaitingOverallInput || (d.status == AwaitingStatus && d.index > d0.index)
  }

  /** What a turn from a copy with index `taskIndex` made of the document `d0` it found in the store. */
  ghost predicate TurnDone(taskIndex: nat, d0: SessionDoc, d: SessionDoc, moved: bool, guard: GuardSettings) {
    && (if moved then Advanced(d0, d)
        else if d0.status == Completed then d.status == AwaitingOverallInput && d.index == d0.index
        else if d0.status == AwaitingStatus && d0.index == taskIndex then Advanced(d0, d)
        else d.status == d0.status && d.index == d0.index)
    && d0.index <= d.index
    && (guard.Enabled() ==> d.index <= d0.index + guard.MaxWrite() + (if taskIndex > d0.index then 1 else 0))
    && d.backlog == d0.backlog && d.hasBacklog == d0.hasBacklog && d.picked == d0.picked
    && (d0.tasks != [] ==> |d.tasks| == |d0.tasks|)
  }

  lemma TurnAdvances(taskIndex: nat, d0: SessionDoc, d1: SessionDoc, d2: SessionDoc, moved: bool, writes: nat,
                     guard: GuardSettings)
    requires Inv(d1) && Worked(d0, d1, moved, writes) && MovedOn(d1, d2, taskIndex)
    requires guard.Enabled() ==> writes <= guard.MaxWrite()
    ensures TurnDone(taskIndex, d0, d2, moved, guard)
  {}

  /**
   From an open status question the turn gets the agenda further exactly if its copy stands at the stored
   index or an advance or complete tool ran; otherwise it leaves status and index as they are.
   */
  lemma ProgressIff(taskIndex: nat, d0: SessionDoc, d: SessionDoc, moved: bool, guard: GuardSettings)
    requires d0.status == AwaitingStatus && TurnDone(taskIndex, d0, d, moved, guard)
    ensures Advanced(d0, d) <==> taskIndex == d0.index || moved
    ensures !Advanced(d0, d) ==> d.status == AwaitingStatus && d.index == d0.index
  {}

  /**
   A second reply sent before the first was dealt with: its copy still has the first task, the store the
   second.  Without a moving tool such a turn leaves the agenda where it is,
   */
  lemma QuickReplyStalls(a: Task, b: Task, d: SessionDoc, guard: GuardSettings)
    ensures var copy := Created([a, b], AwaitingStatus, None, {}, 0); var stored := Apply(copy, AdvanceTo(1));
            TurnDone(copy.index, stored, d, false, guard) ==> d.status == AwaitingStatus && d.index == 1 && !Advanced(stored, d)
  {}

  /** and so do any number of them. */
  lemma {:induction false} QuickRepliesStall(docs: seq<SessionDoc>, taskIndex: nat, guard: GuardSettings, n: nat)
    requires n < |docs| && docs[0].status == AwaitingStatus && docs[0].index != taskIndex
    requires forall k | 0 <= k < |docs| - 1 :: TurnDone(taskIndex, docs[k], docs[k + 1], false, guard)
    ensures docs[n].status == AwaitingStatus && docs[n].index == docs[0].index
  {
    if n > 0 {
      QuickRepliesStall(docs, taskIndex, guard, n - 1);
      assert TurnDone(taskIndex, docs[n - 1], docs[n - 1 + 1], false, guard);
    }
  }

  /**
   A reply handled after the session was completed reopens it: for the overall question, or for a later task
   when a moving tool ran.
   */
  lemma LateReplyReopens(taskIndex: nat, d0: SessionDoc, d: SessionDoc, moved: bool, guard: GuardSettings)
    requires d0.status == Completed && TurnDone(taskIndex, d0, d, moved, guard)
    ensures d.status != Completed && Advanced(d0, d) && (!moved ==> d.status == AwaitingOverallInput)
  {}

  /** What a turn needs besides the reply: the guard's settings, the digest and the shared replay cache. */
  datatype Surroundings = Surroundings(guard: GuardSettings, hashArgs: Args -> string, sessionKey: string, scopeHash: string)

  /** The turn's lease token as the agent context carries it. */
  function TokenOf(lease: Option<Lease>): int { if lease.Some? then lease.value.token else 0 }

  /** Position of the copy a turn works from. */
  function CopyAt(repo: SessionRepository, turn: Turn): (n: nat)
    requires repo.Valid()
    reads repo
    ensures n < |repo.docs| && (turn.readAt.None? ==> repo.docs[n] == repo.doc)
    ensures turn.readAt.Some? && turn.readAt.value < |repo.docs| ==> n == turn.readAt.value
  {
    if turn.readAt.Some? && turn.readAt.value < |repo.docs| then turn.readAt.value else repo.Now()
  }

  /** The model's run of a turn: the calls of its attempts, one after the other, from the document and log it found. */
  ghost predicate AgentRan(exec: AgentExecutor, env: Surroundings, turn: Turn, stages: seq<Stage>, w: Worker)
    reads exec
  {
    && exec.settings == env.guard && exec.hashArgs == env.hashArgs && exec.runId == "" && exec.sessionKey == env.sessionKey
    && exec.scopeHash == env.scopeHash && exec.message == turn.message && exec.snapshotRefs == exec.initialRefs == []
    && Attempted(turn.attempts, exec.attempt)
    && UsesDone(exec, exec.history, stages, UsesMade(turn.attempts, exec.attempt), w)
    && w.token == TokenOf(w.lease) && w.now == turn.now
  }

  /** A turn on the agent path from the stage `start`: the model's run, and the step after it on the document the run left. */
  ghost predicate AgentPath(exec: AgentExecutor?, env: Surroundings, turn: Turn, stages: seq<Stage>, w: Worker, start: Stage,
                            after: SessionDoc, moved: bool, taskIndex: nat)
    reads exec
  {
    && exec != null && AgentRan(exec, env, turn, stages, w) && stages[0] == start && (moved <==> MoveRan(exec.history))
    && (!w.fenced ==> MovedOn(stages[|exec.history|].doc, after, taskIndex))
  }

  /**
   The agent path of `handle_cadence_dm`, from a copy with index `taskIndex`: the model's run, and the step after
   it on the document the run left.  Cadence builds no run id, so replay entries are shared by all turns of the
   session.
   */
  method AgentTurn(repo: SessionRepository, replay: OperationReplayCache, env: Surroundings, taskIndex: nat, turn: Turn,
                   clock: int)
    returns (moved: bool, end: int, ghost exec: AgentExecutor?, ghost stages: seq<Stage>)
    requires repo.Valid() && replay.Valid() && replay.MayRecord(clock)
    modifies repo`doc, repo`docs, repo`events, replay
    ensures repo.Valid() && repo.Fenced() == old(repo.Fenced()) && old(repo.docs) <= repo.docs
    ensures replay.Valid() && replay.MayRecord(end)
    ensures repo.Fenced() ==> repo.doc == old(repo.doc)
    ensures !repo.Fenced() ==> TurnDone(taskIndex, old(repo.doc), repo.doc, moved, env.guard)
    ensures AgentPath(exec, env, turn, stages, WorkerOf(repo, TokenOf(repo.lease), turn.now),
                      Stage(old(repo.doc), old(replay.log), clock), repo.doc, moved, taskIndex)
  {
    ghost var found := repo.doc;
    var runner := new AgentExecutor(env.guard, env.hashArgs, "", env.sessionKey, env.scopeHash, turn.message, [], [], replay,
                                    clock);
    ghost var made;
    moved, stages, made := RunAgent(repo, runner, turn.attempts, TokenOf(repo.lease), turn.now,
                                    WorkerOf(repo, TokenOf(repo.lease), turn.now));
    ghost var worked := repo.doc;
    repo.DocumentInvariant();
    PostRun(repo, taskIndex, turn.now);
    if !repo.Fenced() {
      TurnAdvances(taskIndex, found, worked, repo.doc, moved, CountWrites(runner.history), env.guard);
    }
    end, exec := runner.clock, runner;
  }

  // ---------------------------------------------------------------------------
  // The overall question
  // ---------------------------------------------------------------------------

  const ACTIVE_STATUSES: set<string> := {"todo", "in_progress", "in_review", "blocked"}

  function SpaceToUnderscore(c: char): char { if c == ' ' then '_' else c }

  predicate IsActiveTask(t: Task) {
    var s := Lower(Strip(if t.updatedStatus.Some? then t.updatedStatus.value else t.status));
    seq(|s|, i requires 0 <= i < |s| => SpaceToUnderscore(s[i])) in ACTIVE_STATUSES
  }

  /** A text is this word but for surrounding white space, case, and blanks for underscores. */
  ghost predicate Reads(text: string, word: string) {
    |Strip(text)| == |word|
    && forall i | 0 <= i < |word| :: LowerChar(Strip(text)[i]) == word[i] || (Strip(text)[i] == ' ' && word[i] == '_')
  }

  /** A task counts as active exactly if its final status, the updated one if there is one, reads as one of four words. */
  lemma ActiveIff(t: Task)
    ensures var final := if t.updatedStatus.Some? then t.updatedStatus.value else t.status;
            IsActiveTask(t) <==>
              Reads(final, "todo") || Reads(final, "in_progress") || Reads(final, "in_review") || Reads(final, "blocked")
  {
    var final := if t.updatedStatus.Some? then t.updatedStatus.value else t.status;
    var s := Lower(Strip(final));
    var u := seq(|s|, i requires 0 <= i < |s| => SpaceToUnderscore(s[i]));
    ReadsIff(final, "todo");
    ReadsIff(final, "in_progress");
    ReadsIff(final, "in_review");
    ReadsIff(final, "blocked");
    assert IsActiveTask(t) <==> u == "todo" || u == "in_progress" || u == "in_review" || u == "blocked";
  }

  lemma ReadsIff(text: string, word: string)
    requires ' ' !in word
    ensures var s := Lower(Strip(text));
            seq(|s|, i requires 0 <= i < |s| => SpaceToUnderscore(s[i])) == word <==> Reads(text, word)
  {
    var s := Lower(Strip(text));
    var u := seq(|s|, i requires 0 <= i < |s| => SpaceToUnderscore(s[i]));
    assert |u| == |Strip(text)|;
    forall i | 0 <= i < |u| && i < |word|
      ensures u[i] == word[i] <==> LowerChar(Strip(text)[i]) == word[i] || (Strip(text)[i] == ' ' && word[i] == '_')
    {
      assert word[i] in word;
    }
    if Reads(text, word) { assert u == word; }
    if u == word { assert forall i | 0 <= i < |word| :: u[i] == word[i]; }
  }

  /** Positions below `n` of the tasks still being worked on. */
  function ActiveBelow(tasks: seq<Task>, n: nat): set<nat>
    requires n <= |tasks|
  {
    set i: nat | i < n && IsActiveTask(tasks[i])
  }

  function ActiveTasks(tasks: seq<Task>): set<nat> { ActiveBelow(tasks, |tasks|) }

  lemma ActiveStep(tasks: seq<Task>, n: nat)
    requires n < |tasks|
    ensures |ActiveBelow(tasks, n + 1)| == |ActiveBelow(tasks, n)| + (if IsActiveTask(tasks[n]) then 1 else 0)
  {
    var below := ActiveBelow(tasks, n);
    assert n !in below;
    if IsActiveTask(tasks[n]) {
      assert ActiveBelow(tasks, n + 1) == below + {n};
    } else {
      assert ActiveBelow(tasks, n + 1) == below;
    }
  }

  /** `calculate_active_workload_count`. */
  method CountActive(tasks: seq<Task>) returns (count: nat)
    ensures count == |ActiveTasks(tasks)|
  {
    count := 0;
    for i := 0 to |tasks|
      invariant count == |ActiveBelow(tasks, i)|
    {
      ActiveStep(tasks, i);
      if IsActiveTask(tasks[i]) { count := count + 1; }
    }
  }

  /** A zero setting counts as one, a negative one as zero. */
  function WorkloadThreshold(setting: int): (n: nat)
    ensures n == if setting > 0 then setting else if setting == 0 then 1 else 0
  {
    Max(0, OrDefault(setting, 1))
  }

  /** The prompt recorded; nothing else differs. */
  ghost predicate Prompted(d: SessionDoc, after: SessionDoc, prompted: bool) {
    && Backlog.SameBacklog(d, after)
    && after.overallInput == d.overallInput && after.overallSkipped == d.overallSkipped
    && after.promptSent == prompted && after.promptSkippedByPolicy == !prompted
  }

  lemma PromptThenDecision(d: SessionDoc, prompted: bool, stamp: Option<int>)
    ensures var after := Commit(Commit(d, RecordPrompt(prompted, !prompted), stamp), EnterBacklogDecision, stamp);
            Prompted(d, after, prompted) && after.status == AwaitingBacklogDecision
  {}

  lemma PromptThenComplete(d: SessionDoc, prompted: bool, reason: string, at: int, stamp: Option<int>)
    ensures var after := Commit(Commit(d, RecordPrompt(prompted, !prompted), stamp), Complete(reason, at), stamp);
            Prompted(d, after, prompted) && after.status == Completed && after.expiredReason == Some(reason)
  {}

  /** `_send_backlog_nudge`. */
  method SendBacklogNudge(repo: SessionRepository, workloadSetting: int, now: int)
    requires repo.Valid()
    modifies repo`doc, repo`docs, repo`events
    ensures repo.Valid() && repo.Fenced() == old(repo.Fenced()) && old(repo.docs) <= repo.docs
    ensures repo.Fenced() ==> repo.doc == old(repo.doc)
    ensures Backlog.SameBacklog(old(repo.doc), repo.doc)
    ensures repo.doc.overallInput == old(repo.doc.overallInput) && repo.doc.overallSkipped == old(repo.doc.overallSkipped)
    ensures !repo.Fenced() ==>
              if repo.doc.backlog == [] then repo.doc.status == Completed && repo.doc.expiredReason == Some("backlog_exhausted")
              else if |ActiveTasks(repo.doc.tasks)| > WorkloadThreshold(workloadSetting)
              then repo.doc.status == Completed && repo.doc.expiredReason == Some("backlog_skipped_workload_policy")
                   && repo.doc.promptSkippedByPolicy && !repo.doc.promptSent
              else repo.doc.status == AwaitingBacklogDecision && repo.doc.promptSent && !repo.doc.promptSkippedByPolicy
  {
    var session := repo.doc;
    if session.backlog == [] {
      var _ := repo.Update(Complete("backlog_exhausted", now));
      return;
    }
    var active := CountActive(session.tasks);
    if active > WorkloadThreshold(workloadSetting) {
      PromptThenComplete(session, false, "backlog_skipped_workload_policy", now, repo.Stamp());
      var _ := repo.Update(RecordPrompt(false, true));
      var _ := repo.Update(Complete("backlog_skipped_workload_policy", now));
    } else {
      PromptThenDecision(session, true, repo.Stamp());
      var _ := repo.Update(RecordPrompt(true, false));
      var _ := repo.Update(EnterBacklogDecision);
    }
  }

  /** What the answer to the overall question made of the stored document `d0`, from a copy. */
  ghost predicate OverallAnswered(copy: SessionDoc, d0: SessionDoc, d: SessionDoc, turn: Turn) {
    && Backlog.SameBacklog(d0, d)
    && d.overallSkipped == (turn.overallSkipped || Strip(turn.overallText) == "")
    && d.overallInput == (if Strip(turn.overallText) == "" then None else Some(Strip(turn.overallText)))
    && (if copy.backlog == [] then d.status == Completed && d.expiredReason == Some("agenda_complete")
        else if d0.backlog == [] then d.status == Completed && d.expiredReason == Some("backlog_exhausted")
        else if |ActiveTasks(d0.tasks)| > WorkloadThreshold(turn.workloadSetting)
        then d.status == Completed && d.expiredReason == Some("backlog_skipped_workload_policy")
        else d.status == AwaitingBacklogDecision)
  }

  lemma InputRecorded(d: SessionDoc, text: string, skipped: bool, stamp: Option<int>)
    ensures var after := Commit(d, RecordOverallInput(text, skipped), stamp);
            && Backlog.SameBacklog(d, after) && after.overallSkipped == (skipped || text == "")
            && after.overallInput == if text == "" then None else Some(text)
  {}

  /** The overall question answered; whether there is a backlog to offer is read from the copy. */
  method OverallTurn(repo: SessionRepository, copyAt: nat, turn: Turn)
    requires repo.Valid() && copyAt < |repo.docs|
    modifies repo`doc, repo`docs, repo`events
    ensures repo.Valid() && repo.Fenced() == old(repo.Fenced()) && old(repo.docs) <= repo.docs
    ensures repo.Fenced() ==> repo.doc == old(repo.doc)
    ensures !repo.Fenced() ==> OverallAnswered(old(repo.docs)[copyAt], old(repo.doc), repo.doc, turn)
  {
    var copy := repo.docs[copyAt];
    repo.DocumentInvariant();
    InputRecorded(repo.doc, Strip(turn.overallText), turn.overallSkipped, repo.Stamp());
    var _ := repo.Update(RecordOverallInput(Strip(turn.overallText), turn.overallSkipped));
    if copy.hasBacklog && copy.backlog != [] {
      SendBacklogNudge(repo, turn.workloadSetting, turn.now);
    } else {
      var _ := repo.Update(Complete("agenda_complete", turn.now));
    }
  }

  // ---------------------------------------------------------------------------
  // The turn
  // ---------------------------------------------------------------------------

  /** The states whose replies go to the agent. */
  predicate OnAgentPath(d: SessionDoc) { d.status in {AwaitingStatus, AwaitingComment, Completed} }

  /** What a reply in the backlog or a clarification state leads to, from a copy. */
  ghost predicate LaterOutcome(copy: SessionDoc, d0: SessionDoc, d: SessionDoc, turn: Turn) {
    && (copy.status in BACKLOG_STATES ==> Backlog.ChoiceOutcome(copy, d0, d, copy.status, turn.reply))
    && (copy.status == AwaitingBacklogClarification ==> Backlog.ClarificationOutcome(copy, d0, d, turn.reply))
    && (copy.status == AwaitingStatusClarification ==> StatusClarificationFlow.ReplyOutcome(copy, d0, d, turn.statusReply))
  }

  /** The backlog and clarification states. */
  method LaterTurn(repo: SessionRepository, copyAt: nat, turn: Turn)
    requires repo.Valid() && copyAt < |repo.docs|
    requires repo.docs[copyAt].status in BACKLOG_STATES + {AwaitingBacklogClarification, AwaitingStatusClarification}
    modifies repo`doc, repo`docs, repo`events
    ensures repo.Valid() && repo.Fenced() == old(repo.Fenced()) && old(repo.docs) <= repo.docs
    ensures repo.Fenced() ==> repo.doc == old(repo.doc)
    ensures Backlog.Accounted(repo.doc) == Backlog.Accounted(old(repo.doc))
    ensures !repo.Fenced() ==> LaterOutcome(old(repo.docs)[copyAt], old(repo.doc), repo.doc, turn)
  {
    var copy := repo.docs[copyAt];
    if copy.status == AwaitingBacklogClarification {
      Backlog.ClarificationState(repo, copyAt, turn.reply);
    } else if copy.status == AwaitingStatusClarification {
      StatusClarificationFlow.StatusClarificationState(repo, copyAt, turn.statusReply);
    } else {
      Backlog.ChoiceState(repo, copyAt, copy.status, turn.reply);
    }
  }

  /** What a reply outside the agent path leads to, from a copy. */
  ghost predicate OtherOutcome(copy: SessionDoc, d0: SessionDoc, d: SessionDoc, turn: Turn) {
    if copy.status == AwaitingOverallInput then OverallAnswered(copy, d0, d, turn) else LaterOutcome(copy, d0, d, turn)
  }

  /** The states outside the agent path. */
  method OtherTurn(repo: SessionRepository, copyAt: nat, turn: Turn)
    requires repo.Valid() && copyAt < |repo.docs| && !OnAgentPath(repo.docs[copyAt])
    modifies repo`doc, repo`docs, repo`events
    ensures repo.Valid() && repo.Fenced() == old(repo.Fenced()) && old(repo.docs) <= repo.docs
    ensures repo.Fenced() ==> repo.doc == old(repo.doc)
    ensures Backlog.Accounted(repo.doc) == Backlog.Accounted(old(repo.doc))
    ensures !repo.Fenced() ==> OtherOutcome(old(repo.docs)[copyAt], old(repo.doc), repo.doc, turn)
  {
    repo.DocumentInvariant();
    if repo.docs[copyAt].status == AwaitingOverallInput {
      OverallTurn(repo, copyAt, turn);
    } else {
      LaterTurn(repo, copyAt, turn);
    }
  }

  /**
   `handle_cadence_dm`, routed by the status of the turn's copy.  A turn shut out by a newer lease stamp leaves
   the document as it was, whatever the model and the user say.  Otherwise the agent works on the agenda, the
   overall question is settled, or the handlers of the later states act; what was ever in the backlog stays
   accounted for throughout.
   */
  method HandleDm(repo: SessionRepository, replay: OperationReplayCache, env: Surroundings, turn: Turn, clock: int)
    returns (moved: bool, end: int, ghost exec: AgentExecutor?, ghost stages: seq<Stage>)
    requires repo.Valid() && replay.Valid() && replay.MayRecord(clock)
    modifies repo`doc, repo`docs, repo`events, replay
    ensures repo.Valid() && repo.Fenced() == old(repo.Fenced()) && old(repo.docs) <= repo.docs
    ensures replay.Valid() && replay.MayRecord(end)
    ensures repo.Fenced() ==> repo.doc == old(repo.doc)
    ensures Backlog.Accounted(repo.doc) == Backlog.Accounted(old(repo.doc))
    ensures var copy := old(repo.docs[CopyAt(repo, turn)]);
            !repo.Fenced() && OnAgentPath(copy) ==>
              && TurnDone(copy.index, old(repo.doc), repo.doc, moved, env.guard)
              && AgentPath(exec, env, turn, stages, WorkerOf(repo, TokenOf(repo.lease), turn.now),
                           Stage(old(repo.doc), old(replay.log), clock), repo.doc, moved, copy.index)
    ensures var copy := old(repo.docs[CopyAt(repo, turn)]);
            !repo.Fenced() && !OnAgentPath(copy) ==> OtherOutcome(copy, old(repo.doc), repo.doc, turn)
  {
    moved, end, exec, stages := false, clock, null, [];
    var at := CopyAt(repo, turn);
    if !OnAgentPath(repo.docs[at]) {
      OtherTurn(repo, at, turn);
    } else {
      moved, end, exec, stages := AgentTurn(repo, replay, env, repo.docs[at].index, turn, clock);
    }
  }

  // ---------------------------------------------------------------------------
  // A whole check-in
  // ---------------------------------------------------------------------------

  /** Turns the agenda still needs at most before the overall question. */
  function TurnsLeft(d: SessionDoc): nat
    requires IndexInBounds(d)
  {
    if d.tasks == [] then 1 else |d.tasks| - d.index
  }

  /** Turns that get somewhere until the check-in is over. */
  function Distance(d: SessionDoc): nat
    requires IndexInBounds(d)
  {
    if d.status == AwaitingStatus then TurnsLeft(d) + 1 else if d.status == AwaitingOverallInput then TurnsLeft(d) else 0
  }

  /**
   The turn gets somewhere: it answers the overall question, or its copy stands at the stored index of an open
   status question, or a moving tool ran there.
   */
  predicate Productive(copy: SessionDoc, d: SessionDoc, moved: bool) {
    copy.status == AwaitingOverallInput || (d.status == AwaitingStatus && (copy.index == d.index || moved))
  }

  lemma DistanceShrinks(copy: SessionDoc, d0: SessionDoc, d: SessionDoc, moved: bool, guard: GuardSettings)
    requires Inv(d0) && Inv(d) && d0.status in {AwaitingStatus, AwaitingOverallInput}
    requires (d0.tasks == [] ==> |d.tasks| <= 1) && TurnDone(copy.index, d0, d, moved, guard) && OnAgentPath(copy)
    ensures d.status in {AwaitingStatus, AwaitingOverallInput}
    ensures Distance(d) + (if Productive(copy, d0, moved) then 1 else 0) <= Distance(d0)
  {}

  /** One turn of a check-in whose agenda or overall question is open. */
  method OneTurn(repo: SessionRepository, replay: OperationReplayCache, env: Surroundings, turn: Turn, clock: int)
    returns (productive: bool, strayed: bool, end: int, ghost moved: bool)
    requires repo.Valid() && !repo.Fenced() && Inv(repo.doc) && repo.doc.status in {AwaitingStatus, AwaitingOverallInput}
    requires replay.Valid() && replay.MayRecord(clock)
    modifies repo`doc, repo`docs, repo`events, replay
    ensures repo.Valid() && !repo.Fenced() && Inv(repo.doc) && replay.Valid() && replay.MayRecord(end)
    ensures !strayed ==>
              && repo.doc.status in {AwaitingStatus, AwaitingOverallInput, Completed, AwaitingBacklogDecision}
              && Distance(repo.doc) + (if productive then 1 else 0) <= old(Distance(repo.doc))
    ensures strayed ==> !productive
    ensures turn.readAt.None? ==> productive
    ensures var copy := old(repo.docs[CopyAt(repo, turn)]);
            && (strayed <==> copy.status !in {AwaitingStatus, AwaitingComment, Completed, AwaitingOverallInput})
            && (productive <==> !strayed && Productive(copy, old(repo.doc), moved))
            && if OnAgentPath(copy) then TurnDone(copy.index, old(repo.doc), repo.doc, moved, env.guard)
               else OtherOutcome(copy, old(repo.doc), repo.doc, turn)
    ensures Backlog.Accounted(repo.doc) == Backlog.Accounted(old(repo.doc))
  {
    var copy, before := repo.docs[CopyAt(repo, turn)], repo.doc;
    repo.DocumentInvariant();
    var m;
    ghost var exec, stages;
    m, end, exec, stages := HandleDm(repo, replay, env, turn, clock);
    moved := m;
    repo.DocumentInvariant();
    strayed := !OnAgentPath(copy) && copy.status != AwaitingOverallInput;
    productive := !strayed && Productive(copy, before, m);
    if OnAgentPath(copy) { DistanceShrinks(copy, before, repo.doc, m, env.guard); }
  }

  /**
   A whole check-in under one undisturbed lease: replies are handled one after the other, each from whatever
   copy the queue read, while the agenda or the overall question is open.  `idle` counts the turns that got
   nowhere; `strayed` says that one was routed by a copy of some other phase, which ends the series.  At most
   one turn per remaining task and one more are productive, and as soon as that many are, the session is
   completed or at the backlog decision.  Turns that read the present document are never idle.
   */
  method Conversation(repo: SessionRepository, replay: OperationReplayCache, env: Surroundings, turns: seq<Turn>, clock: int)
    returns (used: nat, idle: nat, strayed: bool)
    requires repo.Valid() && !repo.Fenced() && Inv(repo.doc) && repo.doc.status == AwaitingStatus
    requires replay.Valid() && replay.MayRecord(clock)
    modifies repo`doc, repo`docs, repo`events, replay
    ensures repo.Valid() && idle <= used <= |turns|
    ensures used - idle <= TurnsLeft(old(repo.doc)) + 1
    ensures !strayed && |turns| - idle > TurnsLeft(old(repo.doc)) ==> repo.doc.status in {Completed, AwaitingBacklogDecision}
    ensures (forall t | t in turns :: t.readAt.None?) ==> idle == 0 && !strayed
    ensures Backlog.Accounted(repo.doc) == Backlog.Accounted(old(repo.doc))
  {
    used, idle, strayed := 0, 0, false;
    var time := clock;
    while used < |turns| && repo.doc.status in {AwaitingStatus, AwaitingOverallInput} && !strayed
      invariant repo.Valid() && !repo.Fenced() && replay.Valid() && replay.MayRecord(time) && idle <= used <= |turns|
      invariant Inv(repo.doc)
      invariant !strayed ==> repo.doc.status in {AwaitingStatus, AwaitingOverallInput, Completed, AwaitingBacklogDecision}
      invariant used - idle <= Distance(old(repo.doc))
      invariant !strayed ==> used - idle + Distance(repo.doc) <= Distance(old(repo.doc))
      invariant (forall t | t in turns :: t.readAt.None?) ==> idle == 0 && !strayed
      invariant Backlog.Accounted(repo.doc) == Backlog.Accounted(old(repo.doc))
      decreases |turns| - used
    {
      var productive;
      ghost var moved;
      productive, strayed, time, moved := OneTurn(repo, replay, env, turns[used], time);
      if !productive { idle := idle + 1; }
      used := used + 1;
    }
  }
}
