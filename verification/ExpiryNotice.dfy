/**
 The expiry notice: any number of senders race to tell the user once that a session timed out.

 A sender claims the right to send in one atomic update, resolves the user, sends, and marks the notice as
 sent; when a step raises it clears its claim.  An update of the document may raise after it took effect.  The
 steps of all senders and all other writers of the session document interleave freely.
 */
module ExpiryNotice {
  import opened Options
  import opened SessionModel

  /**
   Where one sender stands: with the claim, with the claim but without a user to send to, after sending, after
   something raised (the last two remember whether the message got out), or done.
   */
  datatype Phase = Idle | Holding | Unresolved | Sent(delivered: bool) | Failed(delivered: bool) | Finished

  /** `lost` counts messages that went out but whose claim was cleared without the notice being marked. */
  datatype State = State(doc: SessionDoc, senders: seq<Phase>, messages: nat, lost: nat)

  /** `committed` says whether the update took effect, `raised` whether the call raised. */
  datatype Action =
    | TryClaim(i: nat, at: int, committed: bool, raised: bool)
    | LookUpUser(i: nat, found: bool, raised: bool)
    | ClearUnresolved(i: nat, committed: bool, raised: bool)
    | Send(i: nat, raised: bool, delivered: bool)
    | Mark(i: nat, at: int, committed: bool, raised: bool)
    | ClearClaim(i: nat, committed: bool)
    | OtherWrite(w: Write)

  function Put(s: State, i: nat, p: Phase): State
    requires i < |s.senders|
  {
    s.(senders := s.senders[i := p])
  }

  /** One step; a step that its sender cannot take changes nothing. */
  function Fire(s: State, a: Action): State {
    if !a.OtherWrite? && a.i >= |s.senders| then s
    else
      match a
      case TryClaim(i, at, committed, raised) =>
        // An attempt that raises ends outside the handler's `try`: a claim it may have taken stays.
        if s.senders[i] != Idle then s
        else Put(s, i, if !raised && Claimable(s.doc) then Holding else Finished)
             .(doc := if !raised || committed then Apply(s.doc, ClaimNotice(at)) else s.doc)
      case LookUpUser(i, found, raised) =>
        if s.senders[i] != Holding || (found && !raised) then s
        else Put(s, i, if raised then Failed(false) else Unresolved)
      case ClearUnresolved(i, committed, raised) =>
        // This clear stands inside the `try`, so that one that raises is followed by the clear of the handler.
        if s.senders[i] != Unresolved then s
        else Put(s, i, if raised then Failed(false) else Finished)
             .(doc := if committed then Apply(s.doc, ClearNoticeClaim) else s.doc)
      case Send(i, raised, delivered) =>
        // The client reports a refused message in its result, which the handler does not look at.
        if s.senders[i] != Holding then s
        else Put(s, i, if raised then Failed(delivered) else Sent(delivered))
             .(messages := s.messages + (if delivered then 1 else 0))
      case Mark(i, at, committed, raised) =>
        if !s.senders[i].Sent? then s
        else Put(s, i, if raised then Failed(s.senders[i].delivered) else Finished)
             .(doc := if committed then Apply(s.doc, MarkNotice(at)) else s.doc)
      case ClearClaim(i, committed) =>
        if !s.senders[i].Failed? then s
        else if !committed then Put(s, i, Finished)
        else Put(s, i, Finished).(doc := Apply(s.doc, ClearNoticeClaim),
                                  lost := s.lost + (if s.senders[i].delivered && s.doc.noticeSentAt.None? then 1 else 0))
      case OtherWrite(w) => if NoticeWrite(w) then s else s.(doc := Apply(s.doc, w))
  }

  function Run(s: State, actions: seq<Action>): State {
    if actions == [] then s else Fire(Run(s, actions[..|actions| - 1]), actions[|actions| - 1])
  }

  predicate HoldsClaim(p: Phase) { !p.Idle? && !p.Finished? }

  /** The message of this claim is out. */
  predicate IsOut(p: Phase) { p == Sent(true) || p == Failed(true) }

  ghost predicate OneHolder(s: State) {
    forall i, j | 0 <= i < j < |s.senders| :: !(HoldsClaim(s.senders[i]) && HoldsClaim(s.senders[j]))
  }

  predicate Locked(d: SessionDoc) { d.noticeClaimedAt.Some? || d.noticeSentAt.Some? }

  ghost predicate SenderOk(s: State, i: nat)
    requires i < |s.senders|
  {
    var p := s.senders[i];
    && (HoldsClaim(p) ==> Locked(s.doc) && s.messages == s.lost + (if IsOut(p) then 1 else 0))
    && (p == Holding || p == Unresolved || p.Sent? ==> s.doc.noticeSentAt.None?)
  }

  ghost predicate NoticeInv(s: State) {
    && OneHolder(s)
    && s.lost <= s.messages <= s.lost + 1
    && (s.messages == s.lost + 1 ==> Locked(s.doc))
    && (forall i | 0 <= i < |s.senders| :: SenderOk(s, i))
  }

  predicate Start(s: State) {
    s.messages == 0 && s.lost == 0 && forall i | 0 <= i < |s.senders| :: s.senders[i] == Idle
  }

  /** The clear of a claim without a user takes effect and raises all the same, so that it will be repeated. */
  predicate DoubleClear(s: State, a: Action) {
    a.ClearUnresolved? && a.i < |s.senders| && s.senders[a.i] == Unresolved && a.committed && a.raised
  }

  /** No step of the run is such a clear. */
  predicate Clean(s: State, actions: seq<Action>) {
    var n := |actions| - 1;
    actions == [] || (Clean(s, actions[..n]) && !DoubleClear(Run(s, actions[..n]), actions[n]))
  }

  // ---------------------------------------------------------------------------
  // One step
  // ---------------------------------------------------------------------------

  /** A claim is granted only when nobody holds one. */
  lemma ClaimNeedsFreeLock(s: State)
    requires NoticeInv(s) && Claimable(s.doc)
    ensures forall i | 0 <= i < |s.senders| :: !HoldsClaim(s.senders[i])
  {
    forall i | 0 <= i < |s.senders| ensures !HoldsClaim(s.senders[i]) { assert SenderOk(s, i); }
  }

  lemma OthersWriteKeepsInv(s: State, w: Write)
    requires NoticeInv(s)
    ensures NoticeInv(Fire(s, OtherWrite(w)))
    ensures Fire(s, OtherWrite(w)).doc.noticeSentAt == s.doc.noticeSentAt
  {
    forall i | 0 <= i < |s.senders| ensures SenderOk(Fire(s, OtherWrite(w)), i) { assert SenderOk(s, i); }
  }

  lemma ClaimStep(s: State, a: Action)
    requires NoticeInv(s) && a.TryClaim? && a.i < |s.senders|
    ensures NoticeInv(Fire(s, a)) && |Fire(s, a).senders| == |s.senders|
    ensures s.doc.noticeSentAt.Some? ==>
              Fire(s, a).doc.noticeSentAt.Some? && Fire(s, a).messages == s.messages && Fire(s, a).lost == s.lost
  {
    var t := Fire(s, a);
    if Claimable(s.doc) { ClaimNeedsFreeLock(s); }
    forall i | 0 <= i < |s.senders| ensures SenderOk(t, i) {
      assert SenderOk(s, i);
      if i != a.i { assert t.senders[i] == s.senders[i]; }
    }
  }

  lemma SenderStep(s: State, a: Action)
    requires NoticeInv(s) && !a.OtherWrite? && !a.TryClaim? && a.i < |s.senders| && !DoubleClear(s, a)
    ensures NoticeInv(Fire(s, a)) && |Fire(s, a).senders| == |s.senders|
    ensures s.doc.noticeSentAt.Some? ==>
              Fire(s, a).doc.noticeSentAt.Some? && Fire(s, a).messages == s.messages && Fire(s, a).lost == s.lost
  {
    var t := Fire(s, a);
    assert SenderOk(s, a.i);
    forall i | 0 <= i < |s.senders| ensures SenderOk(t, i) {
      assert SenderOk(s, i);
      if i != a.i { assert t.senders[i] == s.senders[i]; }
    }
  }

  /** Each clean step keeps one holder and the count of messages; a marked notice stays marked and alone. */
  lemma StepKeepsInv(s: State, a: Action)
    requires NoticeInv(s) && !DoubleClear(s, a)
    ensures NoticeInv(Fire(s, a)) && |Fire(s, a).senders| == |s.senders|
    ensures s.doc.noticeSentAt.Some? ==>
              Fire(s, a).doc.noticeSentAt.Some? && Fire(s, a).messages == s.messages && Fire(s, a).lost == s.lost
  {
    if a.OtherWrite? {
      OthersWriteKeepsInv(s, a.w);
    } else if a.i >= |s.senders| {
    } else if a.TryClaim? {
      ClaimStep(s, a);
    } else {
      SenderStep(s, a);
    }
  }

  // ---------------------------------------------------------------------------
  // Who may send
  // ---------------------------------------------------------------------------

  /** A session that timed out, with no notice claimed or sent. */
  predicate AwaitsNotice(d: SessionDoc) {
    d.expiredReason == Some("timeout") && d.noticeSentAt.None? && d.noticeClaimedAt.None?
  }

  /** A claim that does not raise is granted exactly on such a session, and otherwise ends its sender. */
  lemma ClaimGrantedIff(s: State, i: nat, at: int, committed: bool)
    requires i < |s.senders| && s.senders[i] == Idle
    ensures var t := Fire(s, TryClaim(i, at, committed, false));
            if AwaitsNotice(s.doc) then t.senders[i] == Holding && t.doc == s.doc.(noticeClaimedAt := Some(at))
            else t.senders[i] == Finished && t.doc == s.doc
  {}

  /**
   What raises inside the handler leaves its sender failed, to clear its claim; an update that raises took
   effect or not.  A claim that raises leaves nobody to clear it.
   */
  lemma RaisedSteps(s: State, i: nat, at: int, committed: bool, found: bool, delivered: bool)
    requires i < |s.senders|
    ensures s.senders[i] == Idle ==>
              var t := Fire(s, TryClaim(i, at, committed, true));
              t.senders[i] == Finished
              && t.doc == if committed && AwaitsNotice(s.doc) then s.doc.(noticeClaimedAt := Some(at)) else s.doc
    ensures s.senders[i] == Holding ==>
              && Fire(s, LookUpUser(i, found, true)) == Put(s, i, Failed(false))
              && Fire(s, Send(i, true, delivered)).senders[i] == Failed(delivered)
    ensures s.senders[i].Sent? ==>
              var t := Fire(s, Mark(i, at, committed, true));
              t.senders[i] == Failed(s.senders[i].delivered)
              && t.doc == if committed then s.doc.(noticeSentAt := Some(at), noticeClaimedAt := None) else s.doc
  {}

  /** Sender `i` was granted its claim by some step of the run. */
  predicate WasGranted(s: State, actions: seq<Action>, i: nat) {
    var n := |actions| - 1;
    actions != []
    && (WasGranted(s, actions[..n], i)
        || (actions[n].TryClaim? && actions[n].i == i && !actions[n].raised && AwaitsNotice(Run(s, actions[..n]).doc)))
  }

  /** Only a sender that was granted its claim ever holds one. */
  lemma {:induction false} HolderWasGranted(s: State, actions: seq<Action>, i: nat)
    requires Start(s) && i < |Run(s, actions).senders| && HoldsClaim(Run(s, actions).senders[i])
    ensures WasGranted(s, actions, i)
  {
    if actions != [] {
      var front, a := actions[..|actions| - 1], actions[|actions| - 1];
      var t := Run(s, front);
      if i < |t.senders| && HoldsClaim(t.senders[i]) {
        HolderWasGranted(s, front, i);
      } else {
        assert a.TryClaim? && a.i == i && t.senders[i] == Idle && !a.raised;
        ClaimGrantedIff(t, i, a.at, a.committed);
      }
    }
  }

  /** A message goes out only by a sender that claimed while the session was timed out and nobody had claimed or told. */
  lemma MessageWasGranted(s: State, actions: seq<Action>, a: Action)
    requires Start(s) && Fire(Run(s, actions), a).messages != Run(s, actions).messages
    ensures a.Send? && a.delivered && WasGranted(s, actions, a.i)
    ensures Fire(Run(s, actions), a).messages == Run(s, actions).messages + 1
  {
    HolderWasGranted(s, actions, a.i);
  }

  /** At no moment of the run is the session timed out. */
  predicate NeverTimedOut(s: State, actions: seq<Action>) {
    Run(s, actions).doc.expiredReason != Some("timeout") && (actions == [] || NeverTimedOut(s, actions[..|actions| - 1]))
  }

  /** Nobody is told about a session that is never timed out. */
  lemma {:induction false} NoTimeoutNoNotice(s: State, actions: seq<Action>)
    requires Start(s) && NeverTimedOut(s, actions)
    ensures Run(s, actions).messages == 0 && forall i: nat :: !WasGranted(s, actions, i)
  {
    if actions != [] {
      var front := actions[..|actions| - 1];
      NoTimeoutNoNotice(s, front);
      if Run(s, actions).messages != Run(s, front).messages { MessageWasGranted(s, front, actions[|actions| - 1]); }
    }
  }

  /** The claim is all that is asked: a session reopened between claim and message is told that it expired. */
  lemma ReopenedIsTold(d: SessionDoc)
    requires AwaitsNotice(d)
    ensures var reopened := Fire(Fire(State(d, [Idle], 0, 0), TryClaim(0, 1, true, false)), OtherWrite(EnterOverallInput));
            reopened.doc.expiredReason == None && Fire(reopened, Send(0, false, true)).messages == 1
  {
    var claimed := Fire(State(d, [Idle], 0, 0), TryClaim(0, 1, true, false));
    ClaimGrantedIff(State(d, [Idle], 0, 0), 0, 1, true);
    assert claimed.senders == [Holding];
  }

  /** A sender left alone tells the user once and marks the notice. */
  lemma AloneIsToldAndMarked(d: SessionDoc, at: int)
    requires AwaitsNotice(d)
    ensures var sent := Fire(Fire(Fire(State(d, [Idle], 0, 0), TryClaim(0, 1, true, false)), LookUpUser(0, true, false)),
                             Send(0, false, true));
            var t := Fire(sent, Mark(0, at, true, false));
            t.messages == 1 && t.lost == 0 && t.senders == [Finished] && t.doc == d.(noticeSentAt := Some(at))
  {
    ClaimGrantedIff(State(d, [Idle], 0, 0), 0, 1, true);
    var claimed := Fire(State(d, [Idle], 0, 0), TryClaim(0, 1, true, false));
    assert claimed.senders == [Holding];
    assert Fire(claimed, LookUpUser(0, true, false)) == claimed;
    var sent := Fire(claimed, Send(0, false, true));
    assert sent.senders == [Sent(true)] && sent.doc == claimed.doc;
  }

  /** A sender left alone that finds no user gives its claim back and tells nobody. */
  lemma AloneGivesBack(d: SessionDoc)
    requires AwaitsNotice(d)
    ensures var lost := Fire(Fire(State(d, [Idle], 0, 0), TryClaim(0, 1, true, false)), LookUpUser(0, false, false));
            var t := Fire(lost, ClearUnresolved(0, true, false));
            t.messages == 0 && t.senders == [Finished] && t.doc == d
  {
    ClaimGrantedIff(State(d, [Idle], 0, 0), 0, 1, true);
    var claimed := Fire(State(d, [Idle], 0, 0), TryClaim(0, 1, true, false));
    assert claimed.senders == [Holding];
    var lost := Fire(claimed, LookUpUser(0, false, false));
    assert lost.senders == [Unresolved] && lost.doc == claimed.doc;
  }

  // ---------------------------------------------------------------------------
  // Whole runs
  // ---------------------------------------------------------------------------

  lemma StartIsFine(s: State)
    requires Start(s)
    ensures NoticeInv(s)
  {
    assert forall i | 0 <= i < |s.senders| :: SenderOk(s, i);
  }

  lemma {:induction false} CleanRunsKeepInv(s: State, actions: seq<Action>)
    requires NoticeInv(s) && Clean(s, actions)
    ensures NoticeInv(Run(s, actions))
  {
    if actions != [] {
      CleanRunsKeepInv(s, actions[..|actions| - 1]);
      StepKeepsInv(Run(s, actions[..|actions| - 1]), actions[|actions| - 1]);
    }
  }

  /**
   In every clean interleaving at most one sender holds the claim, and the messages sent exceed by at most one
   those whose claim was cleared again although they had gone out.
   */
  lemma AtMostOneNotice(s: State, actions: seq<Action>)
    requires Start(s) && Clean(s, actions)
    ensures var t := Run(s, actions);
            OneHolder(t) && t.messages <= t.lost + 1 && NoticeInv(t)
  {
    StartIsFine(s);
    CleanRunsKeepInv(s, actions);
  }

  /** Whatever clean steps follow, there is one holder at most and the messages stay within the bound. */
  ghost predicate SafeFrom(s: State) {
    forall more | Clean(s, more) :: OneHolder(Run(s, more)) && Run(s, more).messages <= Run(s, more).lost + 1
  }

  /**
   A sound state of a timed-out session stays safe over a step exactly if the step is not a clear that takes
   effect and raises: with two more senders about, that one lets two of them hold the claim.
   */
  lemma SafeIffNoDoubleClear(s: State, a: Action, j: nat, k: nat)
    requires NoticeInv(s) && s.doc.expiredReason == Some(TIMEOUT)
    requires j < |s.senders| && k < |s.senders| && j != k && s.senders[j] == s.senders[k] == Idle
    ensures SafeFrom(Fire(s, a)) <==> !DoubleClear(s, a)
  {
    var t := Fire(s, a);
    if DoubleClear(s, a) {
      var more := [TryClaim(j, 0, true, false), ClearClaim(a.i, true), TryClaim(k, 0, true, false)];
      ThreeSteps(t, more[0], more[1], more[2]);
      TwoMoreHold(s, a, j, k);
      assert Clean(t, more) && !OneHolder(Run(t, more));
    } else {
      StepKeepsInv(s, a);
      SoundIsSafe(t);
    }
  }

  lemma SoundIsSafe(s: State)
    requires NoticeInv(s)
    ensures SafeFrom(s)
  {
    forall more | Clean(s, more) ensures OneHolder(Run(s, more)) && Run(s, more).messages <= Run(s, more).lost + 1 {
      CleanRunsKeepInv(s, more);
    }
  }

  lemma TwoMoreHold(s: State, a: Action, j: nat, k: nat)
    requires NoticeInv(s) && s.doc.expiredReason == Some(TIMEOUT) && DoubleClear(s, a)
    requires j < |s.senders| && k < |s.senders| && j != k && s.senders[j] == s.senders[k] == Idle
    ensures !OneHolder(Fire(Fire(Fire(Fire(s, a), TryClaim(j, 0, true, false)), ClearClaim(a.i, true)), TryClaim(k, 0, true, false)))
  {
    assert SenderOk(s, a.i);
    var t := Fire(s, a);
    assert Claimable(t.doc) && t.senders == s.senders[a.i := Failed(false)];
    var one := Fire(t, TryClaim(j, 0, true, false));
    assert one.senders == t.senders[j := Holding];
    var two := Fire(one, ClearClaim(a.i, true));
    assert two.senders == one.senders[a.i := Finished] && Claimable(two.doc);
    var three := Fire(two, TryClaim(k, 0, true, false));
    assert three.senders == two.senders[k := Holding];
    assert HoldsClaim(three.senders[j]) && HoldsClaim(three.senders[k]);
  }

  lemma ThreeSteps(s: State, a: Action, b: Action, c: Action)
    ensures Run(s, [a, b, c]) == Fire(Fire(Fire(s, a), b), c)
    ensures !a.ClearUnresolved? && !b.ClearUnresolved? && !c.ClearUnresolved? ==> Clean(s, [a, b, c])
  {
    assert [a, b, c][..2] == [a, b] && [a, b][..1] == [a] && [a][..0] == [];
    assert Run(s, [a]) == Fire(Run(s, []), a) && (!a.ClearUnresolved? ==> Clean(s, [a]));
    assert Run(s, [a, b]) == Fire(Run(s, [a]), b);
  }

  /** A state of a sender that found no user, cleared its claim and saw that clear raise. */
  function ClearedOnce(d: SessionDoc): State {
    State(Apply(Apply(d, ClaimNotice(1)), ClearNoticeClaim), [Failed(false), Idle, Idle], 0, 0)
  }

  lemma ClearedOnceIsReached(d: SessionDoc)
    requires Claimable(d)
    ensures var s := State(d, [Idle, Idle, Idle], 0, 0);
            Start(s) && ClearedOnce(d) == Fire(Fire(Fire(s, TryClaim(0, 1, true, false)), LookUpUser(0, false, false)),
                                               ClearUnresolved(0, true, true))
  {
    var s := Fire(Fire(State(d, [Idle, Idle, Idle], 0, 0), TryClaim(0, 1, true, false)), LookUpUser(0, false, false));
    assert s.senders == [Unresolved, Idle, Idle];
    assert Fire(s, ClearUnresolved(0, true, true)).senders == [Failed(false), Idle, Idle];
  }

  /** From there the repeated clear takes the claim of the second sender away, and the user is told twice, none lost. */
  lemma DoubleClearTellsTwice(d: SessionDoc)
    requires Claimable(d)
    ensures var two := Fire(Fire(Fire(ClearedOnce(d), TryClaim(1, 2, true, false)), ClearClaim(0, true)), TryClaim(2, 3, true, false));
            && !OneHolder(two)
            && var sent := Fire(Fire(two, Send(1, false, true)), Send(2, false, true)); sent.messages == 2 && sent.lost == 0
  {
    var two := TwoHolders(d);
    assert HoldsClaim(two.senders[1]) && HoldsClaim(two.senders[2]);
  }

  lemma TwoHolders(d: SessionDoc) returns (two: State)
    requires Claimable(d)
    ensures two == Fire(Fire(Fire(ClearedOnce(d), TryClaim(1, 2, true, false)), ClearClaim(0, true)), TryClaim(2, 3, true, false))
    ensures two.senders == [Finished, Holding, Holding] && two.messages == two.lost == 0 && two.doc.noticeSentAt.None?
  {
    var one := Fire(ClearedOnce(d), TryClaim(1, 2, true, false));
    assert one.senders == [Failed(false), Holding, Idle];
    var cleared := Fire(one, ClearClaim(0, true));
    assert cleared.senders == [Finished, Holding, Idle] && Claimable(cleared.doc);
    two := Fire(cleared, TryClaim(2, 3, true, false));
  }

  /** One of the two may even send after the other has marked the notice. */
  lemma DoubleClearSendsAfterMark(d: SessionDoc)
    requires Claimable(d)
    ensures var two := Fire(Fire(Fire(ClearedOnce(d), TryClaim(1, 2, true, false)), ClearClaim(0, true)), TryClaim(2, 3, true, false));
            var marked := Fire(Fire(two, Send(1, false, true)), Mark(1, 4, true, false));
            && marked.doc.noticeSentAt.Some? && Fire(marked, Send(2, false, true)).messages == marked.messages + 1
  {
    var two := TwoHolders(d);
    var sent := Fire(two, Send(1, false, true));
    assert sent.senders == [Finished, Sent(true), Holding];
  }

  /** Once the notice is marked no claim is granted and no message goes out any more, in clean runs. */
  lemma {:induction false} NothingAfterMark(s: State, actions: seq<Action>, n: nat)
    requires Start(s) && Clean(s, actions) && n <= |actions| && Run(s, actions[..n]).doc.noticeSentAt.Some?
    ensures var t := Run(s, actions);
            t.doc.noticeSentAt.Some? && !Claimable(t.doc)
            && t.messages == Run(s, actions[..n]).messages && t.lost == Run(s, actions[..n]).lost
    decreases |actions|
  {
    if n == |actions| {
      assert actions[..n] == actions;
    } else {
      var front := actions[..|actions| - 1];
      assert front[..n] == actions[..n];
      NothingAfterMark(s, front, n);
      AtMostOneNotice(s, front);
      StepKeepsInv(Run(s, front), actions[|actions| - 1]);
    }
  }

  // ---------------------------------------------------------------------------
  // Repeated and undelivered notices
  // ---------------------------------------------------------------------------

  /** The claim of a message that had gone out unmarked is cleared. */
  predicate Loses(s: State, a: Action) {
    a.ClearClaim? && a.i < |s.senders| && s.senders[a.i] == Failed(true) && a.committed && s.doc.noticeSentAt.None?
  }

  /** No step of the run is such a clear. */
  predicate LossFree(s: State, actions: seq<Action>) {
    var n := |actions| - 1;
    actions == [] || (LossFree(s, actions[..n]) && !Loses(Run(s, actions[..n]), actions[n]))
  }

  /** Messages are lost, and so repeated, exactly by such a clear. */
  lemma LostExactlyByClearing(s: State, a: Action)
    ensures Fire(s, a).lost == s.lost + if Loses(s, a) then 1 else 0
  {}

  /** In a clean run without such a clear the user is told at most once. */
  lemma {:induction false} ToldOnceUnlessLost(s: State, actions: seq<Action>)
    requires Start(s) && Clean(s, actions) && LossFree(s, actions)
    ensures Run(s, actions).lost == 0 && Run(s, actions).messages <= 1
  {
    AtMostOneNotice(s, actions);
    if actions != [] {
      ToldOnceUnlessLost(s, actions[..|actions| - 1]);
      LostExactlyByClearing(Run(s, actions[..|actions| - 1]), actions[|actions| - 1]);
    }
  }

  /** The first of two senders told the user, its mark raised, and its claim was cleared. */
  function AfterFailedMark(d: SessionDoc): State {
    var sent := Fire(Fire(State(d, [Idle, Idle], 0, 0), TryClaim(0, 1, true, false)), Send(0, false, true));
    Fire(Fire(sent, Mark(0, 2, false, true)), ClearClaim(0, true))
  }

  lemma AfterFailedMarkIs(d: SessionDoc)
    requires Claimable(d)
    ensures var s := AfterFailedMark(d); s.senders == [Finished, Idle] && s.messages == 1 && s.lost == 1 && Claimable(s.doc)
  {
    var sent := Fire(Fire(State(d, [Idle, Idle], 0, 0), TryClaim(0, 1, true, false)), Send(0, false, true));
    assert sent.senders == [Sent(true), Idle] && sent.messages == 1;
    var failed := Fire(sent, Mark(0, 2, false, true));
    assert failed.senders == [Failed(true), Idle] && failed.doc == sent.doc;
  }

  /** Then the second tells the user again. */
  lemma FailedMarkRepeats(d: SessionDoc)
    requires Claimable(d)
    ensures Fire(Fire(AfterFailedMark(d), TryClaim(1, 3, true, false)), Send(1, false, true)).messages == 2
  {
    AfterFailedMarkIs(d);
  }

  /** A notice that was not delivered is marked as sent. */
  predicate MarksUndelivered(s: State, a: Action) {
    a.Mark? && a.i < |s.senders| && s.senders[a.i] == Sent(false) && a.committed
  }

  /** Some step of the run does so. */
  predicate Missed(s: State, actions: seq<Action>) {
    var n := |actions| - 1;
    actions != [] && (Missed(s, actions[..n]) || MarksUndelivered(Run(s, actions[..n]), actions[n]))
  }

  /**
   In a clean run from an unmarked session, a marked notice has reached the user exactly if no undelivered one
   was marked.
   */
  lemma {:induction false} MarkedMeansToldIff(s: State, actions: seq<Action>)
    requires Start(s) && s.doc.noticeSentAt.None? && Clean(s, actions)
    ensures var t := Run(s, actions);
            && (t.doc.noticeSentAt.Some? ==> (t.messages == t.lost + 1 <==> !Missed(s, actions)))
            && (t.doc.noticeSentAt.None? ==> !Missed(s, actions))
  {
    if actions != [] {
      var front, a := actions[..|actions| - 1], actions[|actions| - 1];
      MarkedMeansToldIff(s, front);
      AtMostOneNotice(s, front);
      StepKeepsInv(Run(s, front), a);
      MarkStep(Run(s, front), a);
    }
  }

  /** The step that marks the notice: delivered or not, the count of messages says which. */
  lemma MarkStep(s: State, a: Action)
    requires NoticeInv(s)
    ensures var t := Fire(s, a);
            && (s.doc.noticeSentAt.Some? ==> !MarksUndelivered(s, a))
            && (s.doc.noticeSentAt.None? && t.doc.noticeSentAt.Some? ==>
                  (t.messages == t.lost + 1 <==> !MarksUndelivered(s, a)))
            && (t.doc.noticeSentAt.None? ==> !MarksUndelivered(s, a))
  {
    if a.Mark? && a.i < |s.senders| { assert SenderOk(s, a.i); }
  }

  /** A refused message is marked as sent, and by the mark nobody is told later either. */
  lemma RefusedIsMarked(d: SessionDoc)
    requires Claimable(d)
    ensures var sent := Fire(Fire(State(d, [Idle], 0, 0), TryClaim(0, 1, true, false)), Send(0, false, false));
            var marked := Fire(sent, Mark(0, 2, true, false));
            marked.doc.noticeSentAt.Some? && marked.messages == 0 && !Claimable(marked.doc)
  {
    var sent := Fire(Fire(State(d, [Idle], 0, 0), TryClaim(0, 1, true, false)), Send(0, false, false));
    assert sent.senders == [Sent(false)];
  }
}
