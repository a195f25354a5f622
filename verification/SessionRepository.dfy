/**
 The session repository of one worker, and the store functions built on it.

 Every store function is one filtered update of the session document, or a read followed by one.  The
 repository remembers the whole history of the document: a handler may work from a copy that is one of the
 earlier states, and each update made by any handler is checked to be one that `SessionModel.Emits` allows for
 the copy it really read.  Whatever the handlers of this project write is covered by the theorems about
 interleavings.
 */
module SessionRepositoryModel {
  import opened Options
  import opened SessionModel

  /** The lease a queued worker runs under; it exists only with a positive token. */
  datatype Lease = Lease(token: int, enforce: bool)

  class SessionRepository {
    const lease: Option<Lease>
    /** The configuration switch, read directly by the task-field writes. */
    const enforceSetting: bool
    var doc: SessionDoc
    /** Every state the document has been in; a copy read earlier is one of them. */
    var docs: seq<SessionDoc>
    ghost var events: seq<Event>

    ghost predicate Valid()
      reads this
    {
      && Interleaving(docs, events)
      && Inv(docs[0])
      && doc == docs[|docs| - 1]
      && (lease.Some? ==> lease.value.token > 0)
    }

    /** Position of the current document in the history. */
    function Now(): (n: nat)
      requires Valid()
      reads this
      ensures n < |docs| && docs[n] == doc
    {
      |docs| - 1
    }

    function Stamp(): Option<int> { if lease.Some? then Some(lease.value.token) else None }

    /** Another worker's stamp shuts this worker out. */
    predicate Fenced()
      reads this
    {
      lease.Some? && lease.value.enforce && doc.leaseVersion != Some(lease.value.token)
    }

    /** Exactly a worker that enforces its lease on a document without its token is shut out. */
    lemma FencedIff()
      ensures Fenced() <==> exists l :: lease == Some(l) && l.enforce && doc.leaseVersion != Some(l.token)
    {}

    /** The filter of an update; under enforcement the active lease replaces a caller's own version condition. */
    predicate Matches(version: Option<int>)
      reads this
    {
      if lease.Some? && lease.value.enforce then !Fenced()
      else version.None? || doc.leaseVersion == version
    }

    constructor (doc: SessionDoc, lease: Option<Lease>, enforceSetting: bool)
      requires Inv(doc) && (lease.Some? ==> lease.value.token > 0)
      ensures Valid() && this.doc == doc && this.lease == lease && this.enforceSetting == enforceSetting
      ensures docs == [doc] && events == []
    {
      this.doc, this.lease, this.enforceSetting := doc, lease, enforceSetting;
      docs, events := [doc], [];
    }

    /** Everything the interleaving theorem says about the stored document. */
    lemma DocumentInvariant()
      requires Valid()
      ensures Inv(doc) && |docs[0].tasks| <= |doc.tasks|
      ensures if docs[0].tasks == [] then |doc.tasks| <= 1 else |doc.tasks| == |docs[0].tasks|
      ensures forall k | 0 <= k < |docs| :: Inv(docs[k]) && |docs[k].tasks| <= |doc.tasks|
    {
      SessionInvariant(docs, events);
    }

    /** What an update leaves behind. */
    function After(w: Write, version: Option<int>): SessionDoc
      reads this
    {
      if Matches(version) then Commit(doc, w, Stamp()) else doc
    }

    /**
     `update_session_by_id`: one atomic filtered update, computed from the copy read at `readAt`.  A worker with
     a lease stamps its token beside every update, and under enforcement only matches its own stamp.  The
     result is whether the stored document changed.
     */
    method UpdateById(w: Write, version: Option<int>, readAt: nat) returns (modified: bool)
      requires Valid() && readAt < |docs| && Emits(docs[readAt], w)
      modifies this`doc, this`docs, this`events
      ensures Valid() && doc == old(After(w, version)) && modified == (doc != old(doc))
      ensures doc == if lease == None then
                       (if version == None || old(doc.leaseVersion) == version then Apply(old(doc), w) else old(doc))
                     else if lease.value.enforce && old(doc.leaseVersion) != Some(lease.value.token) then old(doc)
                     else if !lease.value.enforce && version != None && old(doc.leaseVersion) != version then old(doc)
                     else Apply(old(doc), w).(leaseVersion := Some(lease.value.token))
      ensures Fenced() == old(Fenced())
      ensures docs == old(docs) + [doc]
      ensures events == old(events) + [Event(readAt, w, Stamp(), old(Matches(version)))]
    {
      var before := doc;
      var matched := Matches(version);
      if matched {
        doc := Commit(doc, w, Stamp());
      }
      modified := doc != before;
      ghost var e := Event(readAt, w, Stamp(), matched);
      InterleavingAppend(docs, events, e, doc);
      docs, events := docs + [doc], events + [e];
    }

    /** A store function whose update does not depend on anything read. */
    method Update(w: Write) returns (modified: bool)
      requires Valid() && Emits(doc, w)
      modifies this`doc, this`docs, this`events
      ensures Valid() && doc == old(After(w, None)) && modified == (doc != old(doc))
      ensures Fenced() == old(Fenced()) && docs == old(docs) + [doc]
    {
      modified := UpdateById(w, None, Now());
    }

    /**
     `move_to_next_task`: read, then either advance or complete.  Anything but a filter miss is reported as
     "more tasks" exactly when a successor exists in the copy read.
     */
    method MoveToNextTask(now: int) returns (hasMore: bool)
      requires Valid()
      modifies this`doc, this`docs, this`events
      ensures Valid() && hasMore == (old(doc.index) + 1 < |old(doc.tasks)|)
      ensures doc == if hasMore then old(After(AdvanceTo(doc.index + 1), None))
                     else old(After(Complete("agenda_complete", now), None))
      ensures Fenced() == old(Fenced()) && old(docs) <= docs
    {
      var session := doc;
      var next := session.index + 1;
      if next >= |session.tasks| {
        var _ := Update(Complete("agenda_complete", now));
        hasMore := false;
      } else {
        var _ := Update(AdvanceTo(next));
        hasMore := true;
      }
    }

    /**
     `_persist_task_field`: a task-level write of an agent tool with the lease token `token` from its execution
     context (0 for none).  Under the enforcement switch a call without a token writes nothing.
     */
    method PersistTaskField(taskIndex: nat, edit: TaskEdit, token: int, readAt: nat) returns (modified: bool)
      requires Valid() && readAt < |docs| && Emits(docs[readAt], EditTaskField(taskIndex, edit))
      modifies this`doc, this`docs, this`events
      ensures Valid() && modified == (doc != old(doc))
      ensures token <= 0 && enforceSetting ==> doc == old(doc)
      ensures token > 0 && old(doc.leaseVersion) != Some(token) && (lease.Some? ==> lease.value.token == token) ==>
                doc == old(doc)
      ensures !(token <= 0 && enforceSetting) ==>
                doc == old(After(EditTaskField(taskIndex, edit), if token > 0 then Some(token) else None))
      ensures Fenced() == old(Fenced()) && old(docs) <= docs
      ensures old(Fenced()) ==> doc == old(doc)
    {
      if token <= 0 && enforceSetting { return false; }
      modified := UpdateById(EditTaskField(taskIndex, edit), if token > 0 then Some(token) else None, readAt);
    }
  }
}
