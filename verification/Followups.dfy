/**
 The scheduler's runs over open action items: the reminder to whoever created an item that still needs
 follow-up, the escalation to the project owner, and the digest per owner.
 */
module Followups {
  import opened Numbers
  import opened Options
  import opened Text
  import opened Grouping

  /** An item as the runs see it; an empty id stands for a missing one. */
  datatype Item = Item(id: string, open: bool, followup: bool, setAt: Option<int>, creator: string, owner: string,
                       remindedAt: Option<int>, escalatedAt: Option<int>)

  datatype Kind = ActorReminder | OwnerEscalation

  /** What happens when somebody is to be told: no active member or no chat identity, or a send that fails or works. */
  datatype Reach = Unreachable | SendFails | Sends

  /**
   Where an exception ends the run: after the first so many creators were dealt with and before any reminder is
   stamped, between the two halves, or after the owner was told and before that is stamped.
   */
  datatype Break = Nowhere | InReminders(groups: nat) | BetweenHalves | BeforeEscalationStamp

  /** One scheduler run with everything around it. */
  datatype RunInput = RunInput(now: int, escalatedNow: int, reminderHours: int, escalationHours: int, ignoreOwner: bool,
                               projectOwner: string, reach: string -> Reach, ownerReach: Reach, breaks: Break)

  /** The fact that an item was announced: why, when its need began, when it was announced, and the age required. */
  datatype Notice = Notice(kind: Kind, id: string, setAt: int, at: int, hours: nat)

  const LIMIT := 500

  predicate Unannounced(it: Item, kind: Kind) {
    if kind == ActorReminder then it.remindedAt.None? else it.escalatedAt.None?
  }

  /** The query: open, needing follow-up for long enough, not announced yet. */
  predicate Due(it: Item, kind: Kind, now: int, hours: nat) {
    it.open && it.followup && it.setAt.Some? && it.setAt.value <= now - 3600 * hours && Unannounced(it, kind)
  }

  function Matching(items: seq<Item>, kind: Kind, now: int, hours: nat): (r: seq<Item>)
    ensures forall it | it in r :: it in items && Due(it, kind, now, hours)
    ensures forall it | it in items && Due(it, kind, now, hours) :: it in r
  {
    if items == [] then []
    else (if Due(items[0], kind, now, hours) then [items[0]] else []) + Matching(items[1..], kind, now, hours)
  }

  /** At most five hundred of the matching items. */
  function Candidates(items: seq<Item>, kind: Kind, now: int, hours: nat): (r: seq<Item>)
    ensures |r| <= LIMIT
    ensures forall it | it in r :: it in items && Due(it, kind, now, hours)
    ensures |Matching(items, kind, now, hours)| <= LIMIT ==> r == Matching(items, kind, now, hours)
  {
    var all := Matching(items, kind, now, hours);
    if |all| <= LIMIT then all else all[..LIMIT]
  }

  // ---------------------------------------------------------------------------
  // Reminding the creators
  // ---------------------------------------------------------------------------

  /** The item has a creator to be told, and policy does not exempt them. */
  predicate Eligible(it: Item, r: RunInput) {
    Strip(it.creator) != "" && !(r.ignoreOwner && Strip(it.creator) == r.projectOwner)
  }

  predicate Told(it: Item, r: RunInput) { Eligible(it, r) && r.reach(Strip(it.creator)) == Sends }

  function Anyone(): string -> bool { k => true }

  /** Candidates whose creator is to be told and is reached in one particular way. */
  function CountBy(items: seq<Item>, r: RunInput, c: Reach): nat {
    if items == [] then 0
    else
      var n, it := |items| - 1, items[|items| - 1];
      CountBy(items[..n], r, c) + (if Eligible(it, r) && r.reach(Strip(it.creator)) == c then 1 else 0)
  }

  /** The first loop: the eligible candidates by creator, the others skipped. */
  method GroupByCreator(candidates: seq<Item>, r: RunInput) returns (groups: seq<Group<Item>>, skipped: nat)
    ensures Grouping.DistinctKeys(groups)
    ensures SizeWhere(groups, Anyone()) + skipped == |candidates|
    ensures forall k, it :: InGroup(groups, k, it) <==> it in candidates && Eligible(it, r) && Strip(it.creator) == k
    ensures forall c :: SizeWhere(groups, Reached(r.reach, c)) == CountBy(candidates, r, c)
  {
    groups, skipped := [], 0;
    for i := 0 to |candidates|
      invariant Grouping.DistinctKeys(groups)
      invariant SizeWhere(groups, Anyone()) + skipped == i
      invariant forall c :: SizeWhere(groups, Reached(r.reach, c)) == CountBy(candidates[..i], r, c)
      invariant forall k, it :: InGroup(groups, k, it) <==> it in candidates[..i] && Eligible(it, r) && Strip(it.creator) == k
    {
      var item := candidates[i];
      assert candidates[..i + 1] == candidates[..i] + [item];
      if !Eligible(item, r) {
        skipped := skipped + 1;
      } else {
        var key := Strip(item.creator);
        SizeAfterAdd(groups, key, item, Anyone());
        forall c { SizeAfterAdd(groups, key, item, Reached(r.reach, c)); }
        forall k, it ensures InGroup(Add(groups, key, item), k, it) <==> InGroup(groups, k, it) || (k == key && it == item) {
          MembersAfterAdd(groups, key, item, k, it);
        }
        MembersAfterAdd(groups, key, item, key, item);
        groups := Add(groups, key, item);
      }
    }
    assert candidates[..|candidates|] == candidates;
  }

  predicate AllHaveIds(items: seq<Item>) { forall it | it in items :: it.id != "" }

  /** The keys reached in one particular way. */
  function Reached(reach: string -> Reach, c: Reach): string -> bool { k => reach(k) == c }

  lemma {:induction false} SizeByReach(groups: seq<Group<Item>>, reach: string -> Reach)
    ensures SizeWhere(groups, Anyone()) ==
            SizeWhere(groups, Reached(reach, Sends)) + SizeWhere(groups, Reached(reach, SendFails))
            + SizeWhere(groups, Reached(reach, Unreachable))
  {
    if groups != [] {
      SizeByReach(groups[1..], reach);
      var k := groups[0].key;
      assert Anyone()(k);
      assert forall c :: Reached(reach, c)(k) <==> reach(k) == c;
    }
  }

  /** The ids of a group's items that have one. */
  method IdsOf(items: seq<Item>) returns (ids: seq<string>)
    ensures forall id :: id in ids <==> id != "" && HasId(items, id)
    ensures |ids| <= |items| && (AllHaveIds(items) ==> |ids| == |items|)
  {
    ids := [];
    for i := 0 to |items|
      invariant forall id :: id in ids <==> id != "" && HasId(items[..i], id)
      invariant |ids| <= i && (AllHaveIds(items) ==> |ids| == i)
    {
      assert items[..i + 1] == items[..i] + [items[i]];
      if items[i].id != "" { ids := ids + [items[i].id]; }
    }
    assert items[..|items|] == items;
  }

  /** An item with this id is in a group whose creator was told. */
  predicate SentIn(groups: seq<Group<Item>>, reach: string -> Reach, id: string) {
    exists g | g in groups :: reach(g.key) == Sends && HasId(g.members, id)
  }

  lemma SentStep(groups: seq<Group<Item>>, i: nat, reach: string -> Reach)
    requires i < |groups|
    ensures forall id :: SentIn(groups[..i + 1], reach, id) <==>
              SentIn(groups[..i], reach, id) || (reach(groups[i].key) == Sends && HasId(groups[i].members, id))
  {
    assert groups[..i + 1] == groups[..i] + [groups[i]];
    assert forall g :: g in groups[..i + 1] <==> g in groups[..i] || g == groups[i];
  }

  /** The second loop: one message per creator; the ids of what was sent. */
  method RemindCreators(groups: seq<Group<Item>>, reach: string -> Reach) returns (ids: seq<string>, failed: nat, skipped: nat)
    ensures failed == SizeWhere(groups, Reached(reach, SendFails)) && skipped == SizeWhere(groups, Reached(reach, Unreachable))
    ensures |ids| <= SizeWhere(groups, Reached(reach, Sends))
    ensures (forall g | g in groups :: AllHaveIds(g.members)) ==> |ids| == SizeWhere(groups, Reached(reach, Sends))
    ensures forall id :: id in ids <==> id != "" && SentIn(groups, reach, id)
  {
    ids, failed, skipped := [], 0, 0;
    for i := 0 to |groups|
      invariant failed == SizeWhere(groups[..i], Reached(reach, SendFails))
      invariant skipped == SizeWhere(groups[..i], Reached(reach, Unreachable))
      invariant |ids| <= SizeWhere(groups[..i], Reached(reach, Sends))
      invariant (forall g | g in groups :: AllHaveIds(g.members)) ==> |ids| == SizeWhere(groups[..i], Reached(reach, Sends))
      invariant forall id :: id in ids <==> id != "" && SentIn(groups[..i], reach, id)
    {
      var group := groups[i];
      SentStep(groups, i, reach);
      SizeFront(groups, i, Reached(reach, SendFails));
      SizeFront(groups, i, Reached(reach, Unreachable));
      SizeFront(groups, i, Reached(reach, Sends));
      match reach(group.key)
      case Unreachable => skipped := skipped + |group.members|;
      case SendFails => failed := failed + |group.members|;
      case Sends =>
        var more := IdsOf(group.members);
        ids := ids + more;
    }
    assert groups[..|groups|] == groups;
  }

  predicate HasId(items: seq<Item>, id: string) { exists it | it in items :: it.id == id }

  // ---------------------------------------------------------------------------
  // Runs and edits
  // ---------------------------------------------------------------------------

  function StampOne(it: Item, ids: seq<string>, kind: Kind, at: int): Item {
    if it.id == "" || it.id !in ids then it
    else if kind == ActorReminder then it.(remindedAt := Some(at))
    else it.(escalatedAt := Some(at))
  }

  /** `update_many` over the announced ids. */
  function StampAll(items: seq<Item>, ids: seq<string>, kind: Kind, at: int): (r: seq<Item>)
    ensures |r| == |items| && forall i | 0 <= i < |items| :: r[i] == StampOne(items[i], ids, kind, at)
  {
    seq(|items|, i requires 0 <= i < |items| => StampOne(items[i], ids, kind, at))
  }

  /** Items with an id have one of their own. */
  ghost predicate UniqueIds(items: seq<Item>) {
    forall i, j | 0 <= i < j < |items| :: items[i].id == "" || items[i].id != items[j].id
  }

  /** No item is announced twice for the same reason. */
  ghost predicate OncePerItem(log: set<Notice>) {
    forall a, b | a in log && b in log && a.kind == b.kind && a.id == b.id :: a == b
  }

  ghost predicate OldEnough(n: Notice) { n.at - n.setAt >= 3600 * n.hours && n.hours >= 1 }

  /** An announced item that still exists carries the stamp. */
  ghost predicate Stamped(items: seq<Item>, log: set<Notice>) {
    forall it, n | it in items && n in log && n.id == it.id :: !Unannounced(it, n.kind)
  }

  /** Nobody was told twice, and everything announced is stamped, so that nobody will be. */
  ghost predicate Once(items: seq<Item>, log: set<Notice>) { OncePerItem(log) && Stamped(items, log) }

  ghost predicate LogInv(items: seq<Item>, log: set<Notice>) {
    UniqueIds(items) && forall n | n in log :: OldEnough(n) && n.id != ""
  }

  /** The notices of one announcement of `ids`. */
  ghost function NoticesFor(announced: seq<Item>, ids: seq<string>, kind: Kind, at: int, hours: nat): set<Notice>
    requires forall it | it in announced :: it.setAt.Some?
  {
    set it | it in announced && it.id in ids :: Notice(kind, it.id, it.setAt.value, at, hours)
  }

  lemma AnnounceKeepsInv(items: seq<Item>, log: set<Notice>, announced: seq<Item>, ids: seq<string>, kind: Kind, at: int,
                         stampAt: int, hours: nat)
    requires LogInv(items, log) && hours >= 1
    requires forall it | it in announced :: it in items && Due(it, kind, at, hours) && it.setAt.Some?
    requires forall id | id in ids :: id != ""
    ensures LogInv(StampAll(items, ids, kind, stampAt), log + NoticesFor(announced, ids, kind, at, hours))
    ensures Once(items, log) ==>
              Once(StampAll(items, ids, kind, stampAt), log + NoticesFor(announced, ids, kind, at, hours))
  {
    if Once(items, log) { AnnounceKeepsOnce(items, log, announced, ids, kind, at, stampAt, hours); }
  }

  lemma AnnounceKeepsOnce(items: seq<Item>, log: set<Notice>, announced: seq<Item>, ids: seq<string>, kind: Kind, at: int,
                          stampAt: int, hours: nat)
    requires UniqueIds(items) && Once(items, log)
    requires forall it | it in announced :: it in items && Due(it, kind, at, hours) && it.setAt.Some?
    requires forall id | id in ids :: id != ""
    ensures Once(StampAll(items, ids, kind, stampAt), log + NoticesFor(announced, ids, kind, at, hours))
  {
    var after, added := StampAll(items, ids, kind, stampAt), NoticesFor(announced, ids, kind, at, hours);
    forall a, b | a in log && b in added ensures a.kind != b.kind || a.id != b.id {
      var y :| y in announced && y.id in ids && b == Notice(kind, y.id, y.setAt.value, at, hours);
      assert y in items && Unannounced(y, kind);
    }
    forall a, b | a in added && b in added && a.id == b.id ensures a == b {
      var x :| x in announced && x.id in ids && a == Notice(kind, x.id, x.setAt.value, at, hours);
      var y :| y in announced && y.id in ids && b == Notice(kind, y.id, y.setAt.value, at, hours);
      SameItem(items, x, y);
    }
    forall it, n | it in after && n in log + added && n.id == it.id ensures !Unannounced(it, n.kind) {
      var i :| 0 <= i < |items| && after[i] == it;
      assert items[i] in items;
    }
  }

  /**
   Announcing without stamping, as a run does that breaks off in between, keeps everything in order exactly if
   nothing was announced.
   */
  lemma UnstampedKeepsOnceIff(items: seq<Item>, log: set<Notice>, announced: seq<Item>, ids: seq<string>, kind: Kind,
                              at: int, hours: nat)
    requires LogInv(items, log) && Once(items, log) && hours >= 1
    requires forall it | it in announced :: it in items && Due(it, kind, at, hours) && it.setAt.Some?
    requires forall id | id in ids :: id != "" && HasId(announced, id)
    ensures LogInv(items, log + NoticesFor(announced, ids, kind, at, hours))
    ensures Once(items, log + NoticesFor(announced, ids, kind, at, hours)) <==> ids == []
  {
    var added := NoticesFor(announced, ids, kind, at, hours);
    if ids == [] {
      assert added == {};
      assert log + added == log;
    } else {
      assert ids[0] in ids;
      var it :| it in announced && it.id == ids[0];
      var n := Notice(kind, it.id, it.setAt.value, at, hours);
      assert n in log + added && it in items && Unannounced(it, kind);
    }
  }

  /** An item announced but not stamped is due again at any later run, */
  lemma UnstampedIsDueAgain(it: Item, kind: Kind, now: int, later: int, hours: nat)
    requires Due(it, kind, now, hours) && now <= later
    ensures Due(it, kind, later, hours)
  {}

  /** and a later run that announces it again tells somebody twice. */
  lemma AnnouncedAgain(log: set<Notice>, announced: seq<Item>, ids: seq<string>, it: Item, kind: Kind, now: int, later: int,
                       hours: nat)
    requires now != later && (forall x | x in announced :: x.setAt.Some?) && it in announced && it.id in ids
    requires Notice(kind, it.id, it.setAt.value, now, hours) in log
    ensures !OncePerItem(log + NoticesFor(announced, ids, kind, later, hours))
  {
    var first, second := Notice(kind, it.id, it.setAt.value, now, hours), Notice(kind, it.id, it.setAt.value, later, hours);
    assert second in NoticesFor(announced, ids, kind, later, hours);
    assert first in log + NoticesFor(announced, ids, kind, later, hours) && first != second;
  }

  lemma SameItem(items: seq<Item>, x: Item, y: Item)
    requires UniqueIds(items) && x in items && y in items && x.id == y.id != ""
    ensures x == y
  {}

  datatype Reminders = Reminders(reminded: nat, failed: nat, skipped: nat)

  /** What a run returns; the answers about an owner who could not be told leave the reminders out. */
  datatype RunResult = RunResult(reminders: Option<Reminders>, escalated: nat, notified: bool)

  class FollowupBoard {
    var items: seq<Item>
    /** Every id ever given out. */
    var used: set<string>
    ghost var log: set<Notice>

    ghost predicate Valid()
      reads this
    {
      && LogInv(items, log)
      && (forall it | it in items :: it.id in used + {""})
      && (forall n | n in log :: n.id in used)
    }

    constructor ()
      ensures Valid() && Once(items, log) && items == [] && log == {} && used == {}
    {
      items, log, used := [], {}, {};
    }

    /** Somebody edits an item: everything may change but its id and the two announcement stamps. */
    method Edit(i: nat, it: Item)
      requires Valid() && i < |items| && it.id == items[i].id
      requires it.remindedAt == items[i].remindedAt && it.escalatedAt == items[i].escalatedAt
      modifies this`items
      ensures Valid() && items == old(items)[i := it]
      ensures old(Once(items, log)) ==> Once(items, log)
    {
      if Stamped(items, log) {
        forall other, n | other in items[i := it] && n in log && n.id == other.id ensures !Unannounced(other, n.kind) {
          assert items[i] in items;
        }
      }
      items := items[i := it];
    }

    /** A new item, under an id never used before. */
    method Insert(it: Item)
      requires Valid() && it.remindedAt.None? && it.escalatedAt.None?
      requires it.id !in used
      modifies this`items, this`used
      ensures Valid() && items == old(items) + [it]
      ensures old(Once(items, log)) ==> Once(items, log)
      ensures used == if it.id == "" then old(used) else old(used) + {it.id}
    {
      items := items + [it];
      if it.id != "" { used := used + {it.id}; }
    }

    method Remove(i: nat)
      requires Valid() && i < |items|
      modifies this`items
      ensures Valid() && items == old(items)[..i] + old(items)[i + 1..]
      ensures old(Once(items, log)) ==> Once(items, log)
    {
      items := items[..i] + items[i + 1..];
    }

    /** The counts of the reminders: sent, as far as the items have ids, failed to send, and all the others skipped. */
    static ghost predicate RemindedAs(reminded: nat, failed: nat, skipped: nat, due: seq<Item>, r: RunInput) {
      && reminded <= CountBy(due, r, Sends) && (AllHaveIds(due) ==> reminded == CountBy(due, r, Sends))
      && failed == CountBy(due, r, SendFails) && skipped == |due| - CountBy(due, r, Sends) - CountBy(due, r, SendFails)
    }

    /** Remind the creators of the items due, and stamp what was sent unless the run breaks off before that. */
    method Remind(r: RunInput) returns (reminded: nat, failed: nat, skipped: nat, lost: bool)
      requires Valid()
      modifies this`items, this`log
      ensures Valid() && old(log) <= log
      ensures old(Once(items, log)) ==> (Once(items, log) <==> !lost)
      ensures r.breaks.InReminders? ==> items == old(items)
      ensures lost ==> r.breaks.InReminders? && r.breaks.groups > 0
      ensures !r.breaks.InReminders? ==>
                var hours := AtLeastOne(r.reminderHours);
                var due := Candidates(old(items), ActorReminder, r.now, hours);
                && RemindedAs(reminded, failed, skipped, due, r)
                && items == StampAll(old(items), ToldIds(due, r), ActorReminder, r.now)
                && log == old(log) + NoticesFor(due, ToldIds(due, r), ActorReminder, r.now, hours)
    {
      var hours := AtLeastOne(r.reminderHours);
      var due := Candidates(items, ActorReminder, r.now, hours);
      var ids;
      ids, failed, skipped := SendReminders(due, r);
      reminded, lost := |ids|, false;
      if r.breaks.InReminders? {
        if old(Once(items, log)) { UnstampedKeepsOnceIff(items, log, due, ids, ActorReminder, r.now, hours); }
        AnnounceKeepsInv(items, log, due, ids, ActorReminder, r.now, r.now, hours);
        lost := ids != [];
      } else {
        AnnounceKeepsInv(items, log, due, ids, ActorReminder, r.now, r.now, hours);
        SameNotices(due, ids, ToldIds(due, r), ActorReminder, r.now, hours);
        SameStamps(items, ids, ToldIds(due, r), ActorReminder, r.now);
        StampKeepsIds(items, ids, ActorReminder, r.now, used);
        items := StampAll(items, ids, ActorReminder, r.now);
      }
      log := log + NoticesFor(due, ids, ActorReminder, r.now, hours);
    }

    /** The project owner is told. */
    static predicate OwnerTold(due: seq<Item>, r: RunInput) { due != [] && !r.ignoreOwner && r.ownerReach == Sends }

    /** Escalate to the project owner what is due for it, and stamp it unless the run breaks off before that. */
    method Escalate(r: RunInput) returns (escalated: nat, notified: bool, found: bool, lost: bool)
      requires Valid()
      modifies this`items, this`log
      ensures Valid() && old(log) <= log
      ensures old(Once(items, log)) ==> (Once(items, log) <==> !lost)
      ensures var hours := AtLeastOne(r.escalationHours);
              var due := Candidates(old(items), OwnerEscalation, r.now, hours);
              && notified == OwnerTold(due, r) && found == (due != [])
              && escalated <= |due| && (notified && AllHaveIds(due) ==> escalated == |due|)
              && (!notified ==> escalated == 0 && log == old(log))
              && items == (if notified && !r.breaks.BeforeEscalationStamp?
                           then StampAll(old(items), Ids(due), OwnerEscalation, r.escalatedNow) else old(items))
              && (lost <==> notified && r.breaks.BeforeEscalationStamp? && escalated > 0)
              && (notified ==> forall it | it in due && it.id != "" ::
                    it.setAt.Some? && Notice(OwnerEscalation, it.id, it.setAt.value, r.now, hours) in log)
    {
      escalated, notified, lost := 0, false, false;
      found := true;
      var hours := AtLeastOne(r.escalationHours);
      var due := Candidates(items, OwnerEscalation, r.now, hours);
      if due == [] { return 0, false, false, false; }
      if r.ignoreOwner { return; }
      if r.ownerReach != Sends { return; }
      var ids := IdsOf(due);
      escalated, notified := |ids|, true;
      if r.breaks.BeforeEscalationStamp? {
        if old(Once(items, log)) { UnstampedKeepsOnceIff(items, log, due, ids, OwnerEscalation, r.now, hours); }
        AnnounceKeepsInv(items, log, due, ids, OwnerEscalation, r.now, r.now, hours);
        lost := ids != [];
      } else {
        AnnounceKeepsInv(items, log, due, ids, OwnerEscalation, r.now, r.escalatedNow, hours);
        SameStamps(items, ids, Ids(due), OwnerEscalation, r.escalatedNow);
        StampKeepsIds(items, ids, OwnerEscalation, r.escalatedNow, used);
        items := StampAll(items, ids, OwnerEscalation, r.escalatedNow);
      }
      log := log + NoticesFor(due, ids, OwnerEscalation, r.now, hours);
    }

    /** What a run that is not broken off leaves of the items. */
    static function Followed(before: seq<Item>, r: RunInput): seq<Item> {
      var due := Candidates(before, ActorReminder, r.now, AtLeastOne(r.reminderHours));
      var late := Candidates(before, OwnerEscalation, r.now, AtLeastOne(r.escalationHours));
      var reminded := StampAll(before, ToldIds(due, r), ActorReminder, r.now);
      if OwnerTold(late, r) then StampAll(reminded, Ids(late), OwnerEscalation, r.escalatedNow) else reminded
    }

    /** What any run leaves of them. */
    static function AfterRun(before: seq<Item>, r: RunInput): seq<Item> {
      match r.breaks
      case Nowhere => Followed(before, r)
      case InReminders(_) => before
      case _ =>
        var due := Candidates(before, ActorReminder, r.now, AtLeastOne(r.reminderHours));
        StampAll(before, ToldIds(due, r), ActorReminder, r.now)
    }

    /** What a run that went through says. */
    static ghost predicate Reported(before: seq<Item>, r: RunInput, done: RunResult) {
      var due := Candidates(before, ActorReminder, r.now, AtLeastOne(r.reminderHours));
      var late := Candidates(before, OwnerEscalation, r.now, AtLeastOne(r.escalationHours));
      && (done.reminders.Some? <==> late == [] || r.ignoreOwner || r.ownerReach == Sends)
      && (done.reminders.Some? ==>
            RemindedAs(done.reminders.value.reminded, done.reminders.value.failed, done.reminders.value.skipped, due, r))
      && (done.notified <==> late != [] && !r.ignoreOwner && r.ownerReach == Sends)
      && done.escalated <= |late| && (!done.notified ==> done.escalated == 0)
      && (done.notified && AllHaveIds(late) ==> done.escalated == |late|)
    }

    /**
     `execute_followup_escalation`.  What it says of each half and leaves of the items is fixed by the items it
     found; it says nothing of the reminders when the owner was to be told and was not.  A run that breaks off
     keeps "once only" exactly if it had announced nothing it did not stamp.
     */
    method Execute(r: RunInput) returns (result: Option<RunResult>, lost: bool)
      requires Valid()
      modifies this`items, this`log
      ensures Valid() && old(log) <= log
      ensures old(Once(items, log)) ==> (Once(items, log) <==> !lost)
      ensures r.breaks.Nowhere? ==> result.Some? && !lost
      ensures lost ==> result.None?
      ensures result.None? <==>
                || r.breaks.InReminders? || r.breaks.BetweenHalves?
                || (r.breaks.BeforeEscalationStamp?
                    && OwnerTold(Candidates(old(items), OwnerEscalation, r.now, AtLeastOne(r.escalationHours)), r))
      ensures result.Some? ==> Reported(old(items), r, result.value)
      ensures items == AfterRun(old(items), r)
    {
      var reminded, failed, skipped;
      reminded, failed, skipped, lost := Remind(r);
      if r.breaks.InReminders? || r.breaks.BetweenHalves? { return None, lost; }
      LateStays(old(items), ToldIds(Candidates(old(items), ActorReminder, r.now, AtLeastOne(r.reminderHours)), r), r.now,
                r.now, AtLeastOne(r.escalationHours));
      var escalated, notified, found;
      escalated, notified, found, lost := Escalate(r);
      if notified && r.breaks.BeforeEscalationStamp? { return None, lost; }
      var reminders := if found && !r.ignoreOwner && !notified then None else Some(Reminders(reminded, failed, skipped));
      result := Some(RunResult(reminders, escalated, notified));
    }

    /**
     Scheduler runs, edits, insertions and removals in any order.  Nothing is ever announced before its need for
     follow-up reached the age for it; and as long as no run broke off between telling and stamping, no item
     with an id is reminded about twice or escalated twice.
     */
    method Operate(steps: seq<Step>) returns (lost: bool)
      requires Valid()
      modifies this
      ensures Valid() && forall n | n in log :: OldEnough(n)
      ensures Board(items, used) == AfterSteps(Board(old(items), old(used)), steps) && old(log) <= log
      ensures old(Once(items, log)) ==> (!lost ==> OncePerItem(log) && Once(items, log))
      ensures (forall s | s in steps :: s.Scheduled? ==> s.r.breaks.Nowhere?) ==> !lost
    {
      lost := false;
      for k := 0 to |steps|
        invariant Valid() && (old(Once(items, log)) && !lost ==> Once(items, log))
        invariant Board(items, used) == AfterSteps(Board(old(items), old(used)), steps[..k]) && old(log) <= log
        invariant (forall s | s in steps :: s.Scheduled? ==> s.r.breaks.Nowhere?) ==> !lost
      {
        assert steps[..k + 1][..k] == steps[..k] && steps[k] in steps;
        var l := OneStep(steps[k]);
        lost := lost || l;
      }
      assert steps[..|steps|] == steps;
    }

    /** One of the steps. */
    method OneStep(s: Step) returns (lost: bool)
      requires Valid()
      modifies this
      ensures Valid() && Board(items, used) == AfterStep(Board(old(items), old(used)), s) && old(log) <= log
      ensures old(Once(items, log)) && !lost ==> Once(items, log)
      ensures s.Scheduled? && s.r.breaks.Nowhere? ==> !lost
      ensures !s.Scheduled? ==> !lost && log == old(log)
    {
      lost := false;
      match s
      case Scheduled(r) =>
        var _, l := Execute(r);
        lost := l;
      case Edited(i, it) =>
        if i < |items| {
          Edit(i, it.(id := items[i].id, remindedAt := items[i].remindedAt, escalatedAt := items[i].escalatedAt));
        }
      case Inserted(it) =>
        if it.id !in used { Insert(it.(remindedAt := None, escalatedAt := None)); }
      case Removed(i) => if i < |items| { Remove(i); }
    }
  }

  /** The items and every id ever given out. */
  datatype Board = Board(items: seq<Item>, used: set<string>)

  function AfterStep(b: Board, s: Step): Board {
    match s
    case Scheduled(r) => b.(items := FollowupBoard.AfterRun(b.items, r))
    case Edited(i, it) =>
      if i >= |b.items| then b
      else
        var kept := Item(b.items[i].id, it.open, it.followup, it.setAt, it.creator, it.owner, b.items[i].remindedAt,
                         b.items[i].escalatedAt);
        b.(items := b.items[i := kept])
    case Inserted(it) =>
      if it.id in b.used then b
      else Board(b.items + [Item(it.id, it.open, it.followup, it.setAt, it.creator, it.owner, None, None)],
                 b.used + (if it.id == "" then {} else {it.id}))
    case Removed(i) => if i >= |b.items| then b else b.(items := b.items[..i] + b.items[i + 1..])
  }

  function AfterSteps(b: Board, steps: seq<Step>): Board {
    if steps == [] then b else AfterStep(AfterSteps(b, steps[..|steps| - 1]), steps[|steps| - 1])
  }

  /** The item is open and in need of follow-up for at least so many hours. */
  ghost predicate Waits(it: Item, now: int, hours: nat) {
    it.open && it.followup && it.setAt != None && now - it.setAt.value >= 3600 * hours
  }

  /** Its creator is to be told and can be. */
  ghost predicate CreatorReached(it: Item, r: RunInput) {
    Strip(it.creator) != "" && (r.ignoreOwner ==> Strip(it.creator) != r.projectOwner) && r.reach(Strip(it.creator)) == Sends
  }

  /**
   What a run does to each item with an id, told from the item alone: the stamp of the reminder exactly if it
   waits, was not reminded about and its creator was told, and that of the escalation exactly if it waits, was
   not escalated and the owner was told.  Nothing else of it changes.
   */
  lemma FollowedItem(before: seq<Item>, r: RunInput, i: nat)
    requires UniqueIds(before) && i < |before| && before[i].id != ""
    requires |Matching(before, ActorReminder, r.now, AtLeastOne(r.reminderHours))| <= LIMIT
    requires |Matching(before, OwnerEscalation, r.now, AtLeastOne(r.escalationHours))| <= LIMIT
    ensures var x, after := before[i], FollowupBoard.Followed(before, r);
            var toCreator := x.remindedAt == None && Waits(x, r.now, AtLeastOne(r.reminderHours)) && CreatorReached(x, r);
            var toOwner := x.escalatedAt == None && Waits(x, r.now, AtLeastOne(r.escalationHours))
                           && !r.ignoreOwner && r.ownerReach == Sends;
            && |after| == |before|
            && after[i] == Item(x.id, x.open, x.followup, x.setAt, x.creator, x.owner,
                                if toCreator then Some(r.now) else x.remindedAt,
                                if toOwner then Some(r.escalatedNow) else x.escalatedAt)
  {
    var x := before[i];
    var due := Candidates(before, ActorReminder, r.now, AtLeastOne(r.reminderHours));
    var late := Candidates(before, OwnerEscalation, r.now, AtLeastOne(r.escalationHours));
    assert x in before;
    assert x.id in ToldIds(due, r) <==> x in due && Told(x, r) by {
      if HasTold(due, r, x.id) {
        var it :| it in due && it.id == x.id && Told(it, r);
        SameItem(before, it, x);
      }
    }
    assert x.id in Ids(late) <==> x in late by {
      if HasId(late, x.id) {
        var it :| it in late && it.id == x.id;
        SameItem(before, it, x);
      }
    }
  }

  datatype Step = Scheduled(r: RunInput) | Edited(i: nat, it: Item) | Inserted(it: Item) | Removed(i: nat)

  /** Group the candidates, send until the run breaks off, and say which ids went out. */
  method SendReminders(due: seq<Item>, r: RunInput) returns (ids: seq<string>, failed: nat, skipped: nat)
    ensures forall id | id in ids :: id != "" && HasTold(due, r, id) && HasId(due, id)
    ensures r.breaks.InReminders? && r.breaks.groups == 0 ==> ids == []
    ensures !r.breaks.InReminders? ==>
              && failed == CountBy(due, r, SendFails) && skipped == |due| - CountBy(due, r, Sends) - CountBy(due, r, SendFails)
              && |ids| <= CountBy(due, r, Sends) && (AllHaveIds(due) ==> |ids| == CountBy(due, r, Sends))
              && forall id :: id in ids <==> id != "" && HasTold(due, r, id)
  {
    var groups, exempt := GroupByCreator(due, r);
    var reached := if r.breaks.InReminders? && r.breaks.groups < |groups| then groups[..r.breaks.groups] else groups;
    var unreached;
    ids, failed, unreached := RemindCreators(reached, r.reach);
    SizeByReach(groups, r.reach);
    IdsAreTold(due, groups, r, reached, ids);
    skipped := exempt + unreached;
  }

  /** Some candidate with this id is told. */
  predicate HasTold(due: seq<Item>, r: RunInput, id: string) { exists it | it in due :: it.id == id && Told(it, r) }

  /** Ids of the candidates that are told. */
  function ToldIds(due: seq<Item>, r: RunInput): (ids: seq<string>)
    ensures forall id :: id in ids <==> id != "" && HasTold(due, r, id)
  {
    if due == [] then []
    else
      var rest := ToldIds(due[1..], r);
      if due[0].id != "" && Told(due[0], r) then [due[0].id] + rest else rest
  }

  lemma IdsAreTold(due: seq<Item>, groups: seq<Group<Item>>, r: RunInput, reached: seq<Group<Item>>, ids: seq<string>)
    requires forall k, it :: InGroup(groups, k, it) <==> it in due && Eligible(it, r) && Strip(it.creator) == k
    requires forall g | g in reached :: g in groups
    requires forall id :: id in ids <==> id != "" && SentIn(reached, r.reach, id)
    ensures forall id | id in ids :: id != "" && HasTold(due, r, id) && HasId(due, id)
    ensures reached == groups ==> forall id :: id in ids <==> id != "" && HasTold(due, r, id)
    ensures forall g | g in groups :: AllHaveIds(due) ==> AllHaveIds(g.members)
  {
    forall g, it | g in groups && it in g.members ensures it in due && Eligible(it, r) && Strip(it.creator) == g.key {
      assert InGroup(groups, g.key, it);
    }
    forall id | id in ids ensures HasTold(due, r, id) && HasId(due, id) {
      var g :| g in reached && r.reach(g.key) == Sends && HasId(g.members, id);
      var it :| it in g.members && it.id == id;
      assert Told(it, r);
    }
    if reached == groups {
      forall id | id != "" && HasTold(due, r, id) ensures id in ids {
        var it :| it in due && it.id == id && Told(it, r);
        assert InGroup(groups, Strip(it.creator), it);
        var i :| 0 <= i < |groups| && groups[i].key == Strip(it.creator) && it in groups[i].members;
        assert groups[i] in groups && HasId(groups[i].members, id);
      }
    }
  }

  /** The ids in a list, of the items that have one. */
  function Ids(items: seq<Item>): (ids: seq<string>)
    ensures forall id :: id in ids <==> id != "" && HasId(items, id)
  {
    if items == [] then []
    else
      var rest := Ids(items[1..]);
      if items[0].id != "" then [items[0].id] + rest else rest
  }

  lemma SameStamps(items: seq<Item>, ids: seq<string>, others: seq<string>, kind: Kind, at: int)
    requires forall id :: id in ids <==> id in others
    ensures StampAll(items, ids, kind, at) == StampAll(items, others, kind, at)
  {}

  lemma MatchingCons(x: Item, rest: seq<Item>, kind: Kind, now: int, hours: nat)
    ensures Matching([x] + rest, kind, now, hours) == (if Due(x, kind, now, hours) then [x] else []) + Matching(rest, kind, now, hours)
  {
    assert ([x] + rest)[0] == x && ([x] + rest)[1..] == rest;
  }

  lemma StampCons(x: Item, rest: seq<Item>, ids: seq<string>, kind: Kind, at: int)
    ensures StampAll([x] + rest, ids, kind, at) == [StampOne(x, ids, kind, at)] + StampAll(rest, ids, kind, at)
  {}

  /** The reminders change nothing about what is due for escalation but the stamps they leave. */
  lemma {:induction false} MatchingStamped(items: seq<Item>, ids: seq<string>, at: int, now: int, hours: nat)
    ensures Matching(StampAll(items, ids, ActorReminder, at), OwnerEscalation, now, hours) ==
            StampAll(Matching(items, OwnerEscalation, now, hours), ids, ActorReminder, at)
  {
    if items != [] {
      var x, rest := items[0], items[1..];
      var y, due := StampOne(x, ids, ActorReminder, at), Matching(rest, OwnerEscalation, now, hours);
      MatchingStamped(rest, ids, at, now, hours);
      assert items == [x] + rest;
      StampCons(x, rest, ids, ActorReminder, at);
      MatchingCons(x, rest, OwnerEscalation, now, hours);
      MatchingCons(y, StampAll(rest, ids, ActorReminder, at), OwnerEscalation, now, hours);
      StampCons(x, due, ids, ActorReminder, at);
      assert [] + due == due && [] + StampAll(due, ids, ActorReminder, at) == StampAll(due, ids, ActorReminder, at);
    }
  }

  lemma LateStays(items: seq<Item>, ids: seq<string>, at: int, now: int, hours: nat)
    ensures var late, found := Candidates(items, OwnerEscalation, now, hours),
                               Candidates(StampAll(items, ids, ActorReminder, at), OwnerEscalation, now, hours);
            |found| == |late| && (AllHaveIds(found) <==> AllHaveIds(late)) && Ids(found) == Ids(late)
  {
    MatchingStamped(items, ids, at, now, hours);
    var all := Matching(items, OwnerEscalation, now, hours);
    var late := Candidates(items, OwnerEscalation, now, hours);
    assert Candidates(StampAll(items, ids, ActorReminder, at), OwnerEscalation, now, hours) == StampAll(late, ids, ActorReminder, at);
    SameIds(late, StampAll(late, ids, ActorReminder, at));
  }

  lemma {:induction false} SameIds(items: seq<Item>, others: seq<Item>)
    requires |items| == |others| && forall i | 0 <= i < |items| :: others[i].id == items[i].id
    ensures Ids(items) == Ids(others) && (AllHaveIds(items) <==> AllHaveIds(others))
  {
    if items != [] {
      SameIds(items[1..], others[1..]);
      assert AllHaveIds(items) <==> items[0].id != "" && AllHaveIds(items[1..]);
      assert AllHaveIds(others) <==> others[0].id != "" && AllHaveIds(others[1..]);
    }
  }

  lemma SameNotices(due: seq<Item>, ids: seq<string>, others: seq<string>, kind: Kind, at: int, hours: nat)
    requires forall it | it in due :: it.setAt.Some?
    requires forall id :: id in ids <==> id in others
    ensures NoticesFor(due, ids, kind, at, hours) == NoticesFor(due, others, kind, at, hours)
  {}

  lemma StampKeepsIds(items: seq<Item>, ids: seq<string>, kind: Kind, at: int, used: set<string>)
    requires forall it | it in items :: it.id in used + {""}
    ensures forall it | it in StampAll(items, ids, kind, at) :: it.id in used + {""}
  {
    var after := StampAll(items, ids, kind, at);
    forall it | it in after ensures it.id in used + {""} {
      var i :| 0 <= i < |items| && after[i] == it;
      assert items[i] in items;
    }
  }

  // ---------------------------------------------------------------------------
  // The digest
  // ---------------------------------------------------------------------------

  function Owners(items: seq<Item>): set<string> { set it | it in items && Strip(it.owner) != "" :: Strip(it.owner) }

  function KeySet<T>(groups: seq<Group<T>>): set<string> { set i | 0 <= i < |groups| :: groups[i].key }

  lemma {:induction false} DistinctKeyCount<T>(groups: seq<Group<T>>)
    requires Grouping.DistinctKeys(groups)
    ensures |KeySet(groups)| == |groups|
  {
    if groups != [] {
      var rest := groups[1..];
      assert Grouping.DistinctKeys(rest);
      DistinctKeyCount(rest);
      assert forall i | 0 <= i < |rest| :: rest[i] == groups[i + 1] && groups[i + 1].key in KeySet(groups);
      assert KeySet(groups) == {groups[0].key} + KeySet(rest) by {
        forall k | k in KeySet(groups) ensures k == groups[0].key || k in KeySet(rest) {
          var i :| 0 <= i < |groups| && groups[i].key == k;
          if i > 0 { assert rest[i - 1].key == k; }
        }
      }
      assert groups[0].key !in KeySet(rest);
    }
  }

  /** Open items with an owner, by owner. */
  method GroupByOwner(items: seq<Item>) returns (groups: seq<Group<Item>>)
    ensures Grouping.DistinctKeys(groups) && KeySet(groups) == Owners(items)
  {
    groups := [];
    for i := 0 to |items|
      invariant Grouping.DistinctKeys(groups) && KeySet(groups) == Owners(items[..i])
    {
      assert items[..i + 1] == items[..i] + [items[i]];
      var key := Strip(items[i].owner);
      if key != "" {
        MembersAfterAdd(groups, key, items[i], key, items[i]);
        KeysAfterAdd(groups, key, items[i]);
        groups := Add(groups, key, items[i]);
      }
    }
    assert items[..|items|] == items;
  }

  lemma KeysAfterAdd<T>(groups: seq<Group<T>>, key: string, x: T)
    ensures KeySet(Add(groups, key, x)) == KeySet(groups) + {key}
  {
    var r := Add(groups, key, x);
    forall k | k in KeySet(groups) + {key} ensures k in KeySet(r) {
      if k in KeySet(groups) {
        var i :| 0 <= i < |groups| && groups[i].key == k;
        assert r[i].key == k;
      } else {
        assert r[|groups|].key == key;
      }
    }
    forall k | k in KeySet(r) ensures k in KeySet(groups) + {key} {
      var i :| 0 <= i < |r| && r[i].key == k;
      if i < |groups| { assert groups[i].key == k; }
    }
  }

  /** `execute_action_item_digest`: every owner's group is delivered, failed or skipped, once. */
  method ExecuteDigest(open: seq<Item>, reach: string -> Reach) returns (groups: nat, delivered: nat, failed: nat, skipped: nat)
    ensures groups == |Owners(open)| && delivered + failed + skipped == groups
    ensures delivered == |set k | k in Owners(open) && reach(k) == Sends|
    ensures failed == |set k | k in Owners(open) && reach(k) == SendFails|
  {
    var grouped := GroupByOwner(open);
    DistinctKeyCount(grouped);
    groups, delivered, failed, skipped := |grouped|, 0, 0, 0;
    for i := 0 to |grouped|
      invariant delivered + failed + skipped == i
      invariant delivered == |set k | k in KeySet(grouped[..i]) && reach(k) == Sends|
      invariant failed == |set k | k in KeySet(grouped[..i]) && reach(k) == SendFails|
    {
      var key := grouped[i].key;
      NextKey(grouped, i);
      KeyCount(KeySet(grouped[..i]), key, reach, Sends);
      KeyCount(KeySet(grouped[..i]), key, reach, SendFails);
      match reach(key)
      case Unreachable => skipped := skipped + 1;
      case SendFails => failed := failed + 1;
      case Sends => delivered := delivered + 1;
    }
    assert grouped[..|grouped|] == grouped;
  }

  lemma NextKey<T>(groups: seq<Group<T>>, i: nat)
    requires Grouping.DistinctKeys(groups) && i < |groups|
    ensures KeySet(groups[..i + 1]) == KeySet(groups[..i]) + {groups[i].key} && groups[i].key !in KeySet(groups[..i])
  {
    forall k | k in KeySet(groups[..i]) + {groups[i].key} ensures k in KeySet(groups[..i + 1]) {
      if k in KeySet(groups[..i]) {
        var j :| 0 <= j < i && groups[..i][j].key == k;
        assert groups[..i + 1][j].key == k;
      } else {
        assert groups[..i + 1][i].key == k;
      }
    }
    forall k | k in KeySet(groups[..i + 1]) ensures k in KeySet(groups[..i]) + {groups[i].key} {
      var j :| 0 <= j < i + 1 && groups[..i + 1][j].key == k;
      if j < i { assert groups[..i][j].key == k; }
    }
  }

  lemma KeyCount(keys: set<string>, key: string, reach: string -> Reach, c: Reach)
    requires key !in keys
    ensures |set k | k in keys + {key} && reach(k) == c| == |set k | k in keys && reach(k) == c| + (if reach(key) == c then 1 else 0)
  {
    assert (set k | k in keys + {key} && reach(k) == c) == (set k | k in keys && reach(k) == c) + (if reach(key) == c then {key} else {});
  }
}
