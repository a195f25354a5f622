/**
 One project's action items in their store: creation with its dedupe window and display-key counter, updates,
 closing and deletion, and the table of pending clarifications kept beside the items.
 */
module ActionItemStoreModel {
  import opened Numbers
  import opened Options
  import opened Text
  import opened ActionItems
  import opened DisplayKeys

  const SEQUENCE := "sequence:action_item:display_key"

  const LEGACY_SEQUENCES: seq<string> := ["action_item_display_key", "act_display_key"]

  type Items = map<string, Doc>

  type Counters = map<string, nat>

  datatype Role = Owner | Admin | Member

  datatype Error = MissingUser | NotAMember | NotFound | NotPermitted | OwnerNotAMember | DuplicateKey | BadStatus

  datatype Outcome = Done(id: string) | Failed(error: Error)

  function CreatedOf(d: Doc): int { if CreatedAt in d && d[CreatedAt].Moment? then d[CreatedAt].at else 0 }

  function TextOf(d: Doc, f: Field): string { if f in d && d[f].Words? then d[f].text else "" }

  // ---------------------------------------------------------------------------
  // What holds of the store
  // ---------------------------------------------------------------------------

  ghost predicate AllLifecycle(items: Items) { forall id | id in items :: Lifecycle(items[id]) }

  /** Two items made from the same event lie more than the window apart. */
  ghost predicate Apart(a: Doc, b: Doc, window: nat) {
    TextOf(a, SourceEventKey) == "" || TextOf(a, SourceEventKey) != TextOf(b, SourceEventKey)
    || CreatedOf(b) > CreatedOf(a) + window || CreatedOf(a) > CreatedOf(b) + window
  }

  ghost predicate Spaced(items: Items, window: nat) {
    forall a, b | a in items && b in items && a != b :: Apart(items[a], items[b], window)
  }

  /** What the unique index sees to; items from before there were keys have none. */
  ghost predicate DistinctKeys(items: Items) {
    forall a, b | a in items && b in items && a != b && TextOf(items[a], DisplayKey) != "" ::
      TextOf(items[a], DisplayKey) != TextOf(items[b], DisplayKey)
  }

  /** The key of this number stands on some item. */
  predicate KeyTaken(items: Items, n: nat) { exists id | id in items :: TextOf(items[id], DisplayKey) == ActionKey(n) }

  /** A clarification is pending only for an existing open item that needs follow-up. */
  ghost predicate PendingOk(items: Items, pending: set<string>) {
    forall id | id in pending :: id in items && StatusOf(items[id]) !in CLOSED && Followup(items[id])
  }

  /** The counter the next key comes from: the canonical one, else the first legacy one that exists. */
  function Effective(c: Counters): nat {
    if SEQUENCE in c then c[SEQUENCE]
    else if LEGACY_SEQUENCES[0] in c then c[LEGACY_SEQUENCES[0]]
    else if LEGACY_SEQUENCES[1] in c then c[LEGACY_SEQUENCES[1]]
    else 0
  }

  /** No item's key is numbered above the counter. */
  ghost predicate CounterAhead(items: Items, c: Counters) {
    forall id, n: nat | id in items && TextOf(items[id], DisplayKey) == ActionKey(n) :: n <= Effective(c)
  }

  // ---------------------------------------------------------------------------
  // When a creation is refused for its key
  // ---------------------------------------------------------------------------

  function KeysOf(items: Items): set<string> { set id | id in items :: TextOf(items[id], DisplayKey) }

  /** None of the `n` numbers after the counter is taken. */
  ghost predicate NextFree(used: set<string>, counter: nat, n: nat) {
    forall m: nat | counter < m <= counter + n :: ActionKey(m) !in used
  }

  /** The next number decides whether one more is free, and when it is not, no longer run is free either. */
  lemma OneMoreFree(used: set<string>, counter: nat, k: nat, n: nat)
    requires NextFree(used, counter, k) && k < n
    ensures NextFree(used, counter, k + 1) <==> ActionKey(counter + k + 1) !in used
    ensures NextFree(used, counter, n) ==> NextFree(used, counter, k + 1)
  {
    if ActionKey(counter + k + 1) !in used {
      forall m: nat | counter < m <= counter + k + 1 ensures ActionKey(m) !in used {
        if m <= counter + k { assert ActionKey(m) !in used; }
      }
    }
  }

  /** The two sets hold the same keys numbered above the counter. */
  ghost predicate SameAbove(used: set<string>, used0: set<string>, counter: nat) {
    forall m: nat | counter < m :: ActionKey(m) in used <==> ActionKey(m) in used0
  }

  /** Taking the next key leaves those above it as they are. */
  lemma NextTaken(used: set<string>, used0: set<string>, counter: nat)
    requires SameAbove(used, used0, counter)
    ensures ActionKey(counter + 1) in used <==> ActionKey(counter + 1) in used0
    ensures SameAbove(used + {ActionKey(counter + 1)}, used0, counter + 1)
  {
    forall m: nat | counter + 1 < m ensures ActionKey(m) in used + {ActionKey(counter + 1)} <==> ActionKey(m) in used0 {
      if ActionKey(m) == ActionKey(counter + 1) { ActionKeyInjective(m, counter + 1); }
    }
  }

  lemma KeysAfterInsert(items: Items, id: string, d: Doc)
    requires id !in items
    ensures KeysOf(items[id := d]) == KeysOf(items) + {TextOf(d, DisplayKey)}
  {
    var next := items[id := d];
    assert forall a | a in items :: next[a] == items[a];
    assert next[id] == d;
  }

  lemma TakenIsUsed(items: Items, n: nat)
    ensures KeyTaken(items, n) <==> ActionKey(n) in KeysOf(items)
  {}

  /** No later run of creations, however long, meets a taken key exactly if no key is numbered above the counter. */
  lemma NeverRefusedIff(items: Items, c: Counters)
    ensures (forall n: nat :: NextFree(KeysOf(items), Effective(c), n)) <==> CounterAhead(items, c)
  {
    var used, counter := KeysOf(items), Effective(c);
    if CounterAhead(items, c) {
      forall n: nat ensures NextFree(used, counter, n) {
        forall m: nat | counter < m <= counter + n ensures ActionKey(m) !in used { TakenIsUsed(items, m); }
      }
    } else {
      var id, m: nat :| id in items && TextOf(items[id], DisplayKey) == ActionKey(m) && m > counter;
      assert KeyTaken(items, m);
      TakenIsUsed(items, m);
      assert !NextFree(used, counter, m - counter);
    }
  }

  /** The highest number on a key; nought when no key has a number above nought. */
  ghost predicate HighestNumber(items: Items, h: nat) {
    (forall n: nat | KeyTaken(items, n) :: n <= h) && (h == 0 || KeyTaken(items, h))
  }

  /**
   With both legacy counters and no canonical one, only the first is taken over.  In a project whose highest key
   is the larger of the two, creations are never refused exactly if the second was not ahead of the first.
   */
  lemma TwoLegacyCountersIff(items: Items, c: Counters)
    requires SEQUENCE !in c && LEGACY_SEQUENCES[0] in c && LEGACY_SEQUENCES[1] in c
    requires HighestNumber(items, Max(c[LEGACY_SEQUENCES[0]], c[LEGACY_SEQUENCES[1]]))
    ensures (forall n: nat :: NextFree(KeysOf(items), Effective(c), n)) <==>
            c[LEGACY_SEQUENCES[1]] <= c[LEGACY_SEQUENCES[0]]
  {
    NeverRefusedIff(items, c);
    var h := Max(c[LEGACY_SEQUENCES[0]], c[LEGACY_SEQUENCES[1]]);
    assert Effective(c) == c[LEGACY_SEQUENCES[0]];
    if h <= Effective(c) {
      forall id, n: nat | id in items && TextOf(items[id], DisplayKey) == ActionKey(n) ensures n <= Effective(c) {
        assert KeyTaken(items, n);
      }
    } else {
      var id :| id in items && TextOf(items[id], DisplayKey) == ActionKey(h);
    }
  }

  /** Counters 1 and 5 and a key numbered 2: the very next creation is refused. */
  lemma SecondLegacyCounterIgnored(items: Items, id: string)
    requires id in items && TextOf(items[id], DisplayKey) == ActionKey(2)
    ensures var c: Counters := map[LEGACY_SEQUENCES[0] := 1, LEGACY_SEQUENCES[1] := 5];
            !CounterAhead(items, c) && KeyTaken(items, Effective(c) + 1)
  {
    var c: Counters := map[LEGACY_SEQUENCES[0] := 1, LEGACY_SEQUENCES[1] := 5];
    assert LEGACY_SEQUENCES[0] != LEGACY_SEQUENCES[1] && SEQUENCE != LEGACY_SEQUENCES[0] && SEQUENCE != LEGACY_SEQUENCES[1];
    assert Effective(c) == 1;
  }

  // ---------------------------------------------------------------------------
  // Inserting and replacing
  // ---------------------------------------------------------------------------

  /** An item under a key nobody has, apart from the others of its event. */
  lemma InsertKeeps(items: Items, id: string, d: Doc, window: nat, number: nat)
    requires id !in items && Spaced(items, window) && DistinctKeys(items)
    requires TextOf(d, DisplayKey) == ActionKey(number) && !KeyTaken(items, number)
    requires forall a | a in items :: Apart(items[a], d, window)
    ensures Spaced(items[id := d], window) && DistinctKeys(items[id := d])
  {
    var next := items[id := d];
    forall a, b | a in next && b in next && a != b ensures Apart(next[a], next[b], window) {
      if b == id { assert Apart(items[a], d, window); }
      if a == id { assert Apart(items[b], d, window); }
    }
  }

  /** A counter that is ahead of the keys stays ahead, and its next number is free. */
  lemma CounterStaysAhead(items: Items, id: string, d: Doc, c: Counters, c': Counters)
    requires CounterAhead(items, c) && Effective(c') == Effective(c) + 1
    requires TextOf(d, DisplayKey) == ActionKey(Effective(c'))
    ensures !KeyTaken(items, Effective(c')) && CounterAhead(items[id := d], c')
  {
    var next := items[id := d];
    forall a, n: nat | a in next && TextOf(next[a], DisplayKey) == ActionKey(n) ensures n <= Effective(c') {
      if a == id { ActionKeyInjective(n, Effective(c')); }
    }
  }

  /** A new open item disturbs neither the lifecycle of the others nor the side table. */
  lemma NewItemFits(items: Items, pending: set<string>, id: string, d: Doc)
    requires id !in items && Lifecycle(d) && StatusOf(d) == "open"
    ensures AllLifecycle(items) ==> AllLifecycle(items[id := d])
    ensures PendingOk(items, pending) ==> PendingOk(items[id := d], pending)
    ensures PendingOk(items, pending) && Followup(d) ==> PendingOk(items[id := d], pending + {id})
  {}

  /** Updates leave an item's identity fields alone, so spacing and keys do not depend on them. */
  ghost predicate SameIdentity(a: Doc, b: Doc) {
    TextOf(a, DisplayKey) == TextOf(b, DisplayKey) && TextOf(a, SourceEventKey) == TextOf(b, SourceEventKey)
    && CreatedOf(a) == CreatedOf(b)
  }

  lemma ReplaceKeeps(items: Items, id: string, d: Doc, window: nat, c: Counters)
    requires id in items && SameIdentity(items[id], d)
    requires Spaced(items, window) && DistinctKeys(items)
    ensures Spaced(items[id := d], window) && DistinctKeys(items[id := d])
    ensures CounterAhead(items, c) ==> CounterAhead(items[id := d], c)
  {
    var next := items[id := d];
    forall a, b | a in next && b in next && a != b ensures Apart(next[a], next[b], window) {
      assert Apart(items[a], items[b], window);
    }
  }

  lemma RemoveKeeps(items: Items, id: string, window: nat, c: Counters)
    requires Spaced(items, window) && DistinctKeys(items)
    ensures Spaced(items - {id}, window) && DistinctKeys(items - {id})
    ensures CounterAhead(items, c) ==> CounterAhead(items - {id}, c)
  {
    var next := items - {id};
    forall a, b | a in next && b in next && a != b ensures Apart(next[a], next[b], window) {
      assert Apart(items[a], items[b], window);
    }
  }

  lemma StatusGiven(d: Doc, p: Payload, actor: string, now: int, sets: Doc, unsets: set<Field>)
    requires WellTyped(p) && UpdateFor(d, p, actor, now, sets, unsets)
    ensures StatusOf(Patch(d, sets, unsets)) == if Given(p, Status).Some? then Given(p, Status).value else StatusOf(d)
  {
    assert SplitString(p, Status, sets, unsets);
  }

  lemma PatchKeepsIdentity(d: Doc, p: Payload, actor: string, now: int, sets: Doc, unsets: set<Field>)
    requires WellTyped(p) && UpdateFor(d, p, actor, now, sets, unsets)
    ensures SameIdentity(d, Patch(d, sets, unsets))
  {
    assert Absent(DisplayKey, sets, unsets) && Absent(SourceEventKey, sets, unsets) && Absent(CreatedAt, sets, unsets);
  }

  /** Everything a creation request settles outside the store; `base` holds its title, owner, due fields and so on. */
  datatype CreateRequest = CreateRequest(id: string, userId: string, role: Option<Role>, eventKey: string,
                                         ownerIsMember: bool, explicitFollowup: Option<bool>, base: Doc, now: int,
                                         tableOk: bool)

  /** Fields the service fills in itself; the rest comes with the request. */
  predicate IsServiceField(f: Field) { IsManaged(f) || IsIdentity(f) || f.Status? }

  predicate WellFormed(r: CreateRequest) { forall f | f in r.base :: !IsServiceField(f) }

  /** Missing title or owner asks for follow-up unless the request says otherwise. */
  predicate WantsFollowup(r: CreateRequest) {
    if r.explicitFollowup.Some? then r.explicitFollowup.value else ItemTitle(r) == "" || ItemOwner(r) == ""
  }

  function ItemTitle(r: CreateRequest): string { Strip(TextOf(r.base, Title)) }

  function ItemOwner(r: CreateRequest): string { Strip(TextOf(r.base, OwnerUserId)) }

  /** The item holds what the request says, its creator and its times, and nothing besides the service's own fields. */
  ghost predicate HoldsRequest(d: Doc, r: CreateRequest) {
    && (forall f | f in r.base :: f in d && d[f] == r.base[f])
    && d.Keys == r.base.Keys + {Status, NeedsFollowup, UpdatedAt, CreatedAt, CreatedByUserId, DisplayKey}
                 + (if Strip(r.eventKey) == "" then {} else {SourceEventKey})
                 + (if Followup(d) then {NeedsFollowupSetAt} else {})
    && d[CreatedByUserId] == Words(Strip(r.userId)) && d[CreatedAt] == d[UpdatedAt] == Moment(r.now)
    && (NeedsFollowupSetAt in d ==> d[NeedsFollowupSetAt] == Moment(r.now))
  }

  /** The fields every item gets. */
  function CommonFields(r: CreateRequest, number: nat): (d: Doc)
    requires WellFormed(r)
    ensures forall f | f in r.base :: f in d && d[f] == r.base[f]
    ensures d.Keys == r.base.Keys + {Status, NeedsFollowup, UpdatedAt, CreatedAt, CreatedByUserId, DisplayKey}
    ensures d[Status] == Words("open") && d[NeedsFollowup] == Flag(WantsFollowup(r)) && d[DisplayKey] == Words(ActionKey(number))
    ensures d[CreatedByUserId] == Words(Strip(r.userId)) && d[CreatedAt] == d[UpdatedAt] == Moment(r.now)
  {
    r.base[Status := Words("open")][NeedsFollowup := Flag(WantsFollowup(r))][UpdatedAt := Moment(r.now)]
          [CreatedAt := Moment(r.now)][CreatedByUserId := Words(Strip(r.userId))][DisplayKey := Words(ActionKey(number))]
  }

  /** The document `create` inserts. */
  function NewItem(r: CreateRequest, number: nat): (d: Doc)
    requires WellFormed(r)
    ensures Lifecycle(d) && (Followup(d) <==> WantsFollowup(r)) && StatusOf(d) == "open"
    ensures TextOf(d, DisplayKey) == ActionKey(number) && CreatedOf(d) == r.now
    ensures TextOf(d, SourceEventKey) == Strip(r.eventKey)
  {
    var common := CommonFields(r, number);
    var keyed := if Strip(r.eventKey) == "" then common else common[SourceEventKey := Words(Strip(r.eventKey))];
    if WantsFollowup(r) then keyed[NeedsFollowupSetAt := Moment(r.now)] else keyed
  }

  /** A created item is what was asked for. */
  lemma NewItemHolds(r: CreateRequest, number: nat)
    requires WellFormed(r)
    ensures HoldsRequest(NewItem(r, number), r)
  {
    var common, d := CommonFields(r, number), NewItem(r, number);
    var extra: set<Field> := (if Strip(r.eventKey) == "" then {} else {SourceEventKey})
                             + (if WantsFollowup(r) then {NeedsFollowupSetAt} else {});
    assert d.Keys == common.Keys + extra;
    assert forall f | f in common :: d[f] == common[f];
    assert forall f | f in r.base :: d[f] == common[f];
  }

  /** Unless the request settles it, an item needs follow-up exactly for want of a title or an owner. */
  lemma FollowupForWantOf(r: CreateRequest, number: nat)
    requires WellFormed(r)
    ensures var d := NewItem(r, number);
            Followup(d) <==> if r.explicitFollowup.Some? then r.explicitFollowup.value
                             else Strip(TextOf(d, Title)) == "" || Strip(TextOf(d, OwnerUserId)) == ""
  {
    var d := NewItem(r, number);
    NewItemHolds(r, number);
    TextKept(d, r, Title);
    TextKept(d, r, OwnerUserId);
  }

  lemma TextKept(d: Doc, r: CreateRequest, f: Field)
    requires HoldsRequest(d, r) && f in {Title, OwnerUserId}
    ensures TextOf(d, f) == TextOf(r.base, f)
  {
    assert f in d <==> f in r.base;
  }

  predicate HasCreator(d: Doc) { Strip(TextOf(d, CreatedByUserId)) != "" }

  /** The update ends the need for a clarification. */
  ghost predicate Settled(d: Doc) { StatusOf(d) in CLOSED || !Followup(d) }

  /** The update opens a clarification. */
  ghost predicate Opens(before: Doc, after: Doc, openOk: bool) {
    !Followup(before) && Followup(after) && openOk && HasCreator(after)
  }

  /** The side table after item `id` changed. */
  ghost function PendingAfter(pending: set<string>, id: string, before: Doc, after: Doc, openOk: bool,
                              cleanupOk: bool): set<string>
  {
    if Settled(after) && cleanupOk then pending - {id}
    else if Opens(before, after, openOk) then pending + {id}
    else pending
  }

  /**
   The side table stays right under an update exactly unless a clean-up fails that had something to remove: an
   entry from before, or one opened by this very update on an item it leaves closed.
   */
  lemma PendingKeptIff(items: Items, pending: set<string>, id: string, after: Doc, openOk: bool, cleanupOk: bool)
    requires PendingOk(items, pending) && id in items
    ensures PendingOk(items[id := after], PendingAfter(pending, id, items[id], after, openOk, cleanupOk)) <==>
            !(Settled(after) && !cleanupOk && (id in pending || Opens(items[id], after, openOk)))
  {
    var next := PendingAfter(pending, id, items[id], after, openOk, cleanupOk);
    assert id in next <==> !(Settled(after) && cleanupOk) && (id in pending || Opens(items[id], after, openOk));
    forall other | other in next && other != id ensures other in items && !Settled(items[other]) { assert other in pending; }
  }

  /**
   After an update a clarification stands for an item that had one, or whose need for follow-up just began and
   that has a creator to ask, unless the item is closed or needs none and the clean-up succeeded.
   */
  lemma ClarificationStandsIff(pending: set<string>, id: string, other: string, before: Doc, after: Doc, openOk: bool,
                               cleanupOk: bool)
    ensures var next := PendingAfter(pending, id, before, after, openOk, cleanupOk);
            && (other != id ==> (other in next <==> other in pending))
            && (id in next <==>
                  && (id in pending
                      || (openOk && !Followup(before) && Followup(after) && Strip(TextOf(after, CreatedByUserId)) != ""))
                  && !(cleanupOk && (StatusOf(after) == "done" || StatusOf(after) == "cancelled" || !Followup(after))))
  {}

  class ActionItemStore {
    const window: nat
    var items: Items
    var pending: set<string>
    var counters: Counters

    ghost predicate Valid()
      reads this
    {
      Spaced(items, window) && DistinctKeys(items)
    }

    /** The configured window is in hours and counts as at least one. */
    constructor (windowHours: int, counters: Counters)
      ensures Valid() && items == map[] && pending == {} && this.counters == counters
      ensures window == 3600 * AtLeastOne(windowHours)
    {
      this.window := 3600 * AtLeastOne(windowHours);
      items, pending, this.counters := map[], {}, counters;
    }

    /** An item made from the same event within the window. */
    predicate Recent(id: string, key: string, now: int)
      reads this
    {
      id in items && TextOf(items[id], SourceEventKey) == key && CreatedOf(items[id]) >= now - window
    }

    /** There is never more than one recent item, so "the most recent" needs no tie-break. */
    lemma RecentUnique(a: string, b: string, key: string, now: int)
      requires Valid() && key != "" && a != b && a in items && b in items
      requires CreatedOf(items[a]) <= now && CreatedOf(items[b]) <= now
      ensures !(Recent(a, key, now) && Recent(b, key, now))
    {
      assert Apart(items[a], items[b], window);
    }

    /** `_ensure_action_item_sequence_key_migration`: rename the first legacy counter found. */
    method EnsureSequenceKey()
      modifies this`counters
      ensures Effective(counters) == Effective(old(counters))
      ensures SEQUENCE !in counters ==> Effective(counters) == 0
      ensures forall k | k != SEQUENCE && k !in LEGACY_SEQUENCES ::
                (k in counters <==> k in old(counters)) && (k in counters ==> counters[k] == old(counters)[k])
    {
      if SEQUENCE in counters { return; }
      for i := 0 to |LEGACY_SEQUENCES|
        invariant counters == old(counters) && SEQUENCE !in counters
        invariant forall k | 0 <= k < i :: LEGACY_SEQUENCES[k] !in counters
      {
        var legacy := LEGACY_SEQUENCES[i];
        if legacy in counters {
          assert legacy != SEQUENCE;
          counters := (counters - {legacy})[SEQUENCE := counters[legacy]];
          return;
        }
      }
    }

    /** `next_sequence`: one atomic increment, starting from nothing at one. */
    method NextSequence() returns (n: nat)
      requires SEQUENCE !in counters ==> Effective(counters) == 0
      modifies this`counters
      ensures n == old(Effective(counters)) + 1 && Effective(counters) == n
    {
      n := (if SEQUENCE in counters then counters[SEQUENCE] else 0) + 1;
      counters := counters[SEQUENCE := n];
    }

    /** The request repeats an event for which an item was made within the window. */
    predicate Repeated(r: CreateRequest)
      reads this
    {
      Strip(r.eventKey) != "" && exists id :: id in items && Recent(id, Strip(r.eventKey), r.now)
    }

    /**
     The inserting part of `create`: the number is drawn first, and stays drawn when the unique index of the
     keys refuses the item.
     */
    method Insert(r: CreateRequest) returns (inserted: bool)
      requires Valid() && WellFormed(r) && r.id !in items && !Repeated(r)
      modifies this`items, this`counters
      ensures Valid() && Effective(counters) == old(Effective(counters)) + 1
      ensures inserted <==> !old(KeyTaken(items, Effective(counters) + 1))
      ensures items == if inserted then old(items)[r.id := NewItem(r, old(Effective(counters)) + 1)] else old(items)
      ensures old(CounterAhead(items, counters)) ==> inserted && CounterAhead(items, counters)
    {
      EnsureSequenceKey();
      var number := NextSequence();
      var d := NewItem(r, number);
      if old(CounterAhead(items, counters)) { CounterStaysAhead(items, r.id, d, old(counters), counters); }
      if KeyTaken(items, number) { return false; }
      forall a | a in items ensures Apart(items[a], d, window) {
        assert Strip(r.eventKey) != "" ==> !old(Recent(a, Strip(r.eventKey), r.now));
      }
      InsertKeeps(items, r.id, d, window, number);
      items := items[r.id := d];
      inserted := true;
    }

    /** The item, and the question about it when it needs follow-up. */
    method AddItem(r: CreateRequest) returns (added: bool)
      requires Valid() && WellFormed(r) && r.id !in items && !Repeated(r)
      modifies this
      ensures Valid() && Effective(counters) == old(Effective(counters)) + 1
      ensures added <==> !old(KeyTaken(items, Effective(counters) + 1))
      ensures !added ==> items == old(items) && pending == old(pending)
      ensures added ==>
                && items == old(items)[r.id := NewItem(r, old(Effective(counters)) + 1)] && HoldsRequest(items[r.id], r)
                && pending == old(pending) + (if WantsFollowup(r) && r.tableOk then {r.id} else {})
      ensures old(AllLifecycle(items)) ==> AllLifecycle(items)
      ensures old(PendingOk(items, pending)) ==> PendingOk(items, pending)
      ensures old(CounterAhead(items, counters)) ==> added && CounterAhead(items, counters)
    {
      added := Insert(r);
      if added {
        if WantsFollowup(r) && r.tableOk { pending := pending + {r.id}; }
        AddedFits(old(items), old(pending), r, old(Effective(counters)) + 1, pending);
      }
    }

    lemma AddedFits(before: Items, pending0: set<string>, r: CreateRequest, number: nat, after: set<string>)
      requires WellFormed(r) && r.id !in before
      requires after == pending0 + (if WantsFollowup(r) && r.tableOk then {r.id} else {})
      ensures HoldsRequest(NewItem(r, number), r)
      ensures AllLifecycle(before) ==> AllLifecycle(before[r.id := NewItem(r, number)])
      ensures PendingOk(before, pending0) ==> PendingOk(before[r.id := NewItem(r, number)], after)
    {
      NewItemHolds(r, number);
      NewItemFits(before, pending0, r.id, NewItem(r, number));
    }

    /** The request is one an item may be made for. */
    predicate Acceptable(r: CreateRequest) {
      Strip(r.userId) != "" && r.role.Some? && (ItemOwner(r) == "" || r.ownerIsMember)
    }

    /**
     `create`.  A request with an event key seen within the window returns the item made then and changes
     nothing; any other inserts one open item under a key no item has, or is refused because the key of the
     next number is taken.
     */
    method Create(r: CreateRequest) returns (out: Outcome)
      requires Valid() && WellFormed(r) && r.id !in items
      modifies this
      ensures Valid()
      ensures old(AllLifecycle(items)) ==> AllLifecycle(items)
      ensures old(PendingOk(items, pending)) ==> PendingOk(items, pending)
      ensures old(CounterAhead(items, counters)) ==> CounterAhead(items, counters) && out != Failed(DuplicateKey)
      ensures out == Failed(DuplicateKey) <==>
                !old(Repeated(r)) && Acceptable(r) && old(KeyTaken(items, Effective(counters) + 1))
      ensures out == Failed(MissingUser) <==> Strip(r.userId) == ""
      ensures out == Failed(NotAMember) <==> Strip(r.userId) != "" && r.role == None
      ensures out == Failed(OwnerNotAMember) <==>
                Strip(r.userId) != "" && r.role != None && !old(Repeated(r)) && ItemOwner(r) != "" && !r.ownerIsMember
      ensures out.Failed? ==> out.error in {MissingUser, NotAMember, OwnerNotAMember, DuplicateKey}
      ensures out.Failed? || old(Repeated(r)) ==> items == old(items) && pending == old(pending)
      ensures if !old(Repeated(r)) && Acceptable(r) then Effective(counters) == old(Effective(counters)) + 1
              else counters == old(counters)
      ensures out.Done? && old(Repeated(r)) ==> old(Recent(out.id, Strip(r.eventKey), r.now))
      ensures out.Done? && !old(Repeated(r)) ==>
                && out.id == r.id && items == old(items)[r.id := NewItem(r, old(Effective(counters)) + 1)]
                && HoldsRequest(items[r.id], r)
                && pending == old(pending) + (if WantsFollowup(r) && r.tableOk then {r.id} else {})
    {
      if Strip(r.userId) == "" { return Failed(MissingUser); }
      if r.role.None? { return Failed(NotAMember); }
      if Repeated(r) {
        var id :| id in items && Recent(id, Strip(r.eventKey), r.now);
        return Done(id);
      }
      if ItemOwner(r) != "" && !r.ownerIsMember { return Failed(OwnerNotAMember); }
      var added := AddItem(r);
      // The source looks for the event once more here, which finds nothing unless another worker inserted it.
      out := if added then Done(r.id) else Failed(DuplicateKey);
    }

    /** A request for a new item, without an event key. */
    ghost predicate Plain(r: CreateRequest) { WellFormed(r) && Acceptable(r) && Strip(r.eventKey) == "" }

    /** Such requests, each under an id of its own. */
    ghost predicate Fresh(rs: seq<CreateRequest>)
      reads this
    {
      && (forall k | 0 <= k < |rs| :: Plain(rs[k]) && rs[k].id !in items)
      && (forall j, k | 0 <= j < k < |rs| :: rs[j].id != rs[k].id)
    }

    /** One of them. */
    method CreateOne(r: CreateRequest) returns (done: bool)
      requires Valid() && Plain(r) && r.id !in items
      modifies this
      ensures Valid() && (done <==> ActionKey(old(Effective(counters)) + 1) !in old(KeysOf(items)))
      ensures done ==> items.Keys == old(items.Keys) + {r.id} && Effective(counters) == old(Effective(counters)) + 1
                       && KeysOf(items) == old(KeysOf(items)) + {ActionKey(Effective(counters))}
    {
      TakenIsUsed(items, Effective(counters) + 1);
      var out := Create(r);
      done := out.Done?;
      if done { KeysAfterInsert(old(items), r.id, items[r.id]); }
    }

    /**
     Creations one after the other until one is refused: they all go through exactly if none of the numbers they
     draw was taken at the start.
     */
    method CreateAll(rs: seq<CreateRequest>) returns (allDone: bool)
      requires Valid() && Fresh(rs)
      modifies this
      ensures Valid()
      ensures allDone <==> NextFree(old(KeysOf(items)), old(Effective(counters)), |rs|)
    {
      allDone := true;
      ghost var used0, counter0 := KeysOf(items), Effective(counters);
      ghost var used := used0;
      for k := 0 to |rs|
        invariant Valid() && allDone && used == KeysOf(items) && Effective(counters) == counter0 + k
        invariant Fresh(rs[k..]) && SameAbove(used, used0, counter0 + k) && NextFree(used0, counter0, k)
      {
        assert rs[k..][0] == rs[k] && rs[k..][1..] == rs[k + 1..];
        OneMoreFree(used0, counter0, k, |rs|);
        NextTaken(used, used0, counter0 + k);
        allDone := CreateOne(rs[k]);
        if !allDone { return; }
        used := used + {ActionKey(counter0 + k + 1)};
      }
    }

    /** The request leaves the status alone or gives a known one. */
    predicate KnownStatus(p: Payload)
      requires WellTyped(p)
    {
      Given(p, Status).Some? ==> Given(p, Status).value in STATUSES
    }

    /** What one update does to an item. */
    ghost predicate Updates(before: Doc, after: Doc, p: Payload, actor: string, now: int)
      requires WellTyped(p)
    {
      exists sets, unsets :: UpdateFor(before, p, actor, now, sets, unsets) && after == Patch(before, sets, unsets)
    }

    /** The user is neither owner nor admin of the project, and the item is not theirs. */
    ghost predicate OthersItem(role: Option<Role>, d: Doc, userId: string) {
      role != Some(Owner) && role != Some(Admin) && Strip(TextOf(d, OwnerUserId)) != Strip(userId)
    }

    /** The request gives the item an owner. */
    ghost predicate NamesOwner(p: Payload)
      requires WellTyped(p)
    {
      OwnerUserId in p && p[OwnerUserId] != None && Strip(p[OwnerUserId].value.text) != ""
    }

    /**
     `update`.  A clarification is opened when follow-up begins, and removed when the item is closed or needs
     none.  The item stays in its lifecycle exactly unless the request names a status outside the known ones.
     */
    method Update(id: string, p: Payload, userId: string, role: Option<Role>, newOwnerIsMember: bool, now: int,
                  openOk: bool, cleanupOk: bool) returns (out: Outcome)
      requires Valid() && WellTyped(p)
      modifies this`items, this`pending
      ensures Valid()
      ensures old(AllLifecycle(items)) ==> (AllLifecycle(items) <==> out.Failed? || KnownStatus(p))
      ensures old(CounterAhead(items, counters)) ==> CounterAhead(items, counters)
      ensures out.Failed? ==> items == old(items) && pending == old(pending)
      ensures out.Done? ==> id in old(items) && id in items && items == old(items)[id := items[id]]
                            && Updates(old(items)[id], items[id], p, Strip(userId), now)
      ensures out == if Strip(userId) == "" then Failed(MissingUser)
                     else if role == None then Failed(NotAMember)
                     else if id !in old(items) then Failed(NotFound)
                     else if OthersItem(role, old(items)[id], userId) then Failed(NotPermitted)
                     else if NamesOwner(p) && !newOwnerIsMember then Failed(OwnerNotAMember)
                     else Done(id)
      ensures out.Done? ==> pending == PendingAfter(old(pending), id, old(items)[id], items[id], openOk, cleanupOk)
      ensures old(PendingOk(items, pending)) && cleanupOk ==> PendingOk(items, pending)
    {
      var actor := Strip(userId);
      if actor == "" { return Failed(MissingUser); }
      if role.None? { return Failed(NotAMember); }
      if id !in items { return Failed(NotFound); }
      var existing := items[id];
      if role !in {Some(Owner), Some(Admin)} && Strip(TextOf(existing, OwnerUserId)) != actor { return Failed(NotPermitted); }
      var applied := Apply(id, p, actor, newOwnerIsMember, now, openOk, cleanupOk);
      out := if applied then Done(id) else Failed(OwnerNotAMember);
    }

    /** `update` past the permission: the item, unless it would get an owner from outside, and its clarification. */
    method Apply(id: string, p: Payload, actor: string, newOwnerIsMember: bool, now: int, openOk: bool, cleanupOk: bool)
      returns (applied: bool)
      requires Valid() && WellTyped(p) && id in items
      modifies this`items, this`pending
      ensures Valid() && (applied <==> !NamesOwner(p) || newOwnerIsMember)
      ensures old(AllLifecycle(items)) ==> (AllLifecycle(items) <==> !applied || KnownStatus(p))
      ensures old(CounterAhead(items, counters)) ==> CounterAhead(items, counters)
      ensures !applied ==> items == old(items) && pending == old(pending)
      ensures applied ==> id in items && items == old(items)[id := items[id]]
                          && Updates(old(items)[id], items[id], p, actor, now)
                          && pending == PendingAfter(old(pending), id, old(items)[id], items[id], openOk, cleanupOk)
      ensures old(PendingOk(items, pending)) && cleanupOk ==> PendingOk(items, pending)
    {
      var existing := items[id];
      var sets, unsets := BuildUpdate(existing, p, actor, now);
      assert SplitString(p, OwnerUserId, sets, unsets);
      if OwnerUserId in sets && !newOwnerIsMember { return false; }
      Store(id, p, actor, now, sets, unsets);
      Reconcile(id, existing, openOk, cleanupOk);
      if old(PendingOk(items, pending)) { PendingKeptIff(old(items), old(pending), id, items[id], openOk, cleanupOk); }
      applied := true;
    }

    /** Apply the built update to the stored item. */
    method Store(id: string, p: Payload, actor: string, now: int, sets: Doc, unsets: set<Field>)
      requires Valid() && id in items && WellTyped(p) && UpdateFor(items[id], p, actor, now, sets, unsets)
      modifies this`items
      ensures Valid() && items == old(items)[id := Patch(old(items)[id], sets, unsets)]
      ensures old(AllLifecycle(items)) ==> (AllLifecycle(items) <==> KnownStatus(p))
      ensures old(CounterAhead(items, counters)) ==> CounterAhead(items, counters)
      ensures Updates(old(items)[id], items[id], p, actor, now)
    {
      var existing := items[id];
      HalvesDisjoint(existing, p, actor, now, sets, unsets);
      if AllLifecycle(items) { LifecycleKept(existing, p, actor, now, sets, unsets); }
      PatchKeepsIdentity(existing, p, actor, now, sets, unsets);
      ReplaceKeeps(items, id, Patch(existing, sets, unsets), window, counters);
      items := items[id := Patch(existing, sets, unsets)];
      assert AllLifecycle(items) ==> Lifecycle(items[id]);
    }

    /** Open or remove the item's clarification. */
    method Reconcile(id: string, existing: Doc, openOk: bool, cleanupOk: bool)
      requires id in items
      modifies this`pending
      ensures pending == PendingAfter(old(pending), id, existing, items[id], openOk, cleanupOk)
    {
      var updated := items[id];
      if !Followup(existing) && Followup(updated) && openOk && HasCreator(updated) {
        pending := pending + {id};
      }
      if (StatusOf(updated) in CLOSED || !Followup(updated)) && cleanupOk {
        pending := pending - {id};
      }
    }

    /** `close`: an update of the status alone, for the two closed statuses only. */
    method Close(id: string, status: string, userId: string, role: Option<Role>, now: int, cleanupOk: bool)
      returns (out: Outcome)
      requires Valid()
      modifies this`items, this`pending
      ensures Valid() && (out.Failed? ==> items == old(items) && pending == old(pending))
      ensures old(AllLifecycle(items)) ==> AllLifecycle(items)
      ensures old(CounterAhead(items, counters)) ==> CounterAhead(items, counters)
      ensures out == if Lower(Strip(status)) != "done" && Lower(Strip(status)) != "cancelled" then Failed(BadStatus)
                     else if Strip(userId) == "" then Failed(MissingUser)
                     else if role == None then Failed(NotAMember)
                     else if id !in old(items) then Failed(NotFound)
                     else if OthersItem(role, old(items)[id], userId) then Failed(NotPermitted)
                     else Done(id)
      ensures out.Done? ==> id in items && items == old(items)[id := items[id]]
                            && ClosedAs(old(items)[id], items[id], Lower(Strip(status)), Strip(userId), now)
      ensures out.Done? ==> pending == PendingAfter(old(pending), id, old(items)[id], items[id], true, cleanupOk)
      ensures old(PendingOk(items, pending)) && cleanupOk ==> PendingOk(items, pending)
    {
      var normalized := Lower(Strip(status));
      if normalized !in CLOSED { return Failed(BadStatus); }
      var p: Payload := map[Status := Some(Words(normalized))];
      ClosingRequest(p, normalized);
      out := Update(id, p, userId, role, true, now, true, cleanupOk);
      if out.Done? { ClosedByUpdate(old(items)[id], items[id], p, normalized, Strip(userId), now); }
    }

    /** Closing writes the status, when and by whom, and the time of the update, and nothing else. */
    ghost predicate ClosedAs(before: Doc, after: Doc, status: string, actor: string, now: int) {
      && after.Keys == before.Keys + {Status, ClosedAt, ClosedByUserId, UpdatedAt}
      && after[Status] == Words(status) && after[ClosedAt] == Moment(now) && after[ClosedByUserId] == Words(actor)
      && after[UpdatedAt] == Moment(now)
      && forall f | f in before && f !in {Status, ClosedAt, ClosedByUserId, UpdatedAt} :: after[f] == before[f]
    }

    lemma ClosedByUpdate(before: Doc, after: Doc, p: Payload, status: string, actor: string, now: int)
      requires status in CLOSED && p == map[Status := Some(Words(status))] && Lower(Strip(status)) == status
      requires Updates(before, after, p, actor, now)
      ensures ClosedAs(before, after, status, actor, now)
    {
      var sets, unsets :| UpdateFor(before, p, actor, now, sets, unsets) && after == Patch(before, sets, unsets);
      ClosingHalves(before, p, status, actor, now, sets, unsets);
      assert after == before + sets && after.Keys == before.Keys + sets.Keys;
    }

    lemma ClosingHalves(before: Doc, p: Payload, status: string, actor: string, now: int, sets: Doc, unsets: set<Field>)
      requires status in CLOSED && p == map[Status := Some(Words(status))] && Lower(Strip(status)) == status
      requires UpdateFor(before, p, actor, now, sets, unsets)
      ensures sets.Keys == {Status, ClosedAt, ClosedByUserId, UpdatedAt} && unsets == {}
      ensures sets[Status] == Words(status) && sets[ClosedAt] == sets[UpdatedAt] == Moment(now)
      ensures sets[ClosedByUserId] == Words(actor)
    {
      forall f ensures (f in sets <==> f in {Status, ClosedAt, ClosedByUserId, UpdatedAt}) && f !in unsets {
        OnlyStatusGiven(before, p, status, actor, now, sets, unsets, f);
      }
      assert SplitString(p, Status, sets, unsets);
    }

    lemma OnlyStatusGiven(before: Doc, p: Payload, status: string, actor: string, now: int, sets: Doc, unsets: set<Field>,
                          f: Field)
      requires status in CLOSED && p == map[Status := Some(Words(status))] && Lower(Strip(status)) == status
      requires UpdateFor(before, p, actor, now, sets, unsets)
      ensures (f in sets <==> f in {Status, ClosedAt, ClosedByUserId, UpdatedAt}) && f !in unsets
    {
      assert IsString(f) ==> SplitString(p, f, sets, unsets);
      assert IsIdentity(f) ==> Absent(f, sets, unsets);
    }

    /** A request for a closed status alone. */
    lemma ClosingRequest(p: Payload, status: string)
      requires status in CLOSED && p == map[Status := Some(Words(status))]
      ensures WellTyped(p) && KnownStatus(p) && !NamesOwner(p) && Lower(Strip(status)) == status
    {
      ClosedWordsStable();
    }

    lemma ClosedWordsStable()
      ensures forall s | s in CLOSED :: Lower(Strip(s)) == s
    {
      assert Strip("done") == "done" && Strip("cancelled") == "cancelled";
      assert Lower("done") == "done" && Lower("cancelled") == "cancelled";
    }

    /** `delete`, for project owners. */
    method Delete(id: string, userId: string, role: Option<Role>, cleanupOk: bool) returns (out: Outcome)
      requires Valid()
      modifies this`items, this`pending
      ensures Valid()
      ensures old(AllLifecycle(items)) ==> AllLifecycle(items)
      ensures old(CounterAhead(items, counters)) ==> CounterAhead(items, counters)
      ensures out == if Strip(userId) == "" then Failed(MissingUser)
                     else if role != Some(Owner) then Failed(NotPermitted)
                     else if id !in old(items) then Failed(NotFound)
                     else Done(id)
      ensures items == if out.Done? then old(items) - {id} else old(items)
      ensures pending == if out.Done? && cleanupOk then old(pending) - {id} else old(pending)
      ensures old(PendingOk(items, pending)) ==> (PendingOk(items, pending) <==> out.Failed? || cleanupOk || id !in old(pending))
    {
      if Strip(userId) == "" { return Failed(MissingUser); }
      if role != Some(Owner) { return Failed(NotPermitted); }
      if id !in items { return Failed(NotFound); }
      RemoveKeeps(items, id, window, counters);
      items := items - {id};
      if cleanupOk { pending := pending - {id}; }
      out := Done(id);
    }

    /** An item was made from the request's event within the window. */
    ghost predicate Seen(items: Items, r: CreateRequest) {
      Strip(r.eventKey) != ""
      && exists id | id in items ::
           TextOf(items[id], SourceEventKey) == Strip(r.eventKey) && CreatedOf(items[id]) >= r.now - window
    }

    /** The request is for an item that may be made: the key of the next number decides whether it is. */
    ghost predicate AsksForItem(s: State, q: Request) {
      q.CreateOp? && WellFormed(q.r) && q.r.id !in s.items && Acceptable(q.r) && !Seen(s.items, q.r)
    }

    ghost predicate RefusedForKey(s: State, q: Request) { AsksForItem(s, q) && KeyTaken(s.items, Effective(s.counters) + 1) }

    /** The items after one request. */
    ghost predicate Served(s: State, q: Request, after: Items) {
      match q
      case CreateOp(r) =>
        if AsksForItem(s, q) && !RefusedForKey(s, q) then
          r.id in after && after == s.items[r.id := after[r.id]] && HoldsRequest(after[r.id], r)
          && after[r.id][DisplayKey] == Words(ActionKey(Effective(s.counters) + 1))
        else after == s.items
      case UpdateOp(id, p, user, role, member, now, _, _) =>
        if WellTyped(p) && Strip(user) != "" && role != None && id in s.items && !OthersItem(role, s.items[id], user)
           && (NamesOwner(p) ==> member) then
          id in after && after == s.items[id := after[id]] && Updates(s.items[id], after[id], p, Strip(user), now)
        else after == s.items
      case CloseOp(id, status, user, role, now, _) =>
        if Lower(Strip(status)) in {"done", "cancelled"} && Strip(user) != "" && role != None && id in s.items
           && !OthersItem(role, s.items[id], user) then
          id in after && after == s.items[id := after[id]]
          && ClosedAs(s.items[id], after[id], Lower(Strip(status)), Strip(user), now)
        else after == s.items
      case DeleteOp(id, user, role, _) =>
        after == if Strip(user) != "" && role == Some(Owner) then s.items - {id} else s.items
    }

    /** The states between the requests. */
    ghost predicate ServedAll(trace: seq<State>, requests: seq<Request>) {
      |trace| == |requests| + 1 && forall k | 0 <= k < |requests| :: Served(trace[k], requests[k], trace[k + 1].items)
    }

    ghost function CountRefused(trace: seq<State>, requests: seq<Request>): nat
      requires |trace| >= |requests|
    {
      if requests == [] then 0
      else
        var n := |requests| - 1;
        CountRefused(trace, requests[..n]) + (if RefusedForKey(trace[n], requests[n]) then 1 else 0)
    }

    lemma {:induction false} CountRefusedKept(trace: seq<State>, s: State, requests: seq<Request>)
      requires |trace| >= |requests|
      ensures CountRefused(trace + [s], requests) == CountRefused(trace, requests)
    {
      if requests != [] { CountRefusedKept(trace, s, requests[..|requests| - 1]); }
    }

    lemma ServedNext(trace: seq<State>, requests: seq<Request>, k: nat, s: State)
      requires k < |requests| && ServedAll(trace, requests[..k]) && Served(trace[k], requests[k], s.items)
      ensures ServedAll(trace + [s], requests[..k + 1]) && (trace + [s])[0] == trace[0] && (trace + [s])[k + 1] == s
      ensures CountRefused(trace + [s], requests[..k + 1]) ==
              CountRefused(trace, requests[..k]) + (if RefusedForKey(trace[k], requests[k]) then 1 else 0)
    {
      CountNext(trace, requests, k, s);
      forall j | 0 <= j <= k ensures Served((trace + [s])[j], requests[..k + 1][j], (trace + [s])[j + 1].items) {
        if j < k { assert Served(trace[j], requests[..k][j], trace[j + 1].items); }
      }
    }

    lemma CountNext(trace: seq<State>, requests: seq<Request>, k: nat, s: State)
      requires k < |requests| && |trace| == k + 1
      ensures CountRefused(trace + [s], requests[..k + 1]) ==
              CountRefused(trace, requests[..k]) + (if RefusedForKey(trace[k], requests[k]) then 1 else 0)
    {
      assert requests[..k + 1][..k] == requests[..k];
      CountRefusedKept(trace, s, requests[..k]);
    }

    /**
     Any sequence of requests, on any store, every one of them served and the creations refused for their key
     counted: same-event items stay apart and keys distinct after every one.  The side table stays right when its
     clean-ups succeed, the lifecycle fields while every status given is a known one, and no creation is ever
     refused for its key if the counter was ahead of the keys at the start.
     */
    method Serve(requests: seq<Request>) returns (refused: nat, ghost trace: seq<State>)
      requires Valid()
      modifies this
      ensures Valid()
      ensures ServedAll(trace, requests) && trace[0] == State(old(items), old(counters))
      ensures trace[|requests|] == State(items, counters) && refused == CountRefused(trace, requests)
      ensures old(PendingOk(items, pending)) && AllCleanUp(requests) ==> PendingOk(items, pending)
      ensures old(AllLifecycle(items)) && AllKeepStatuses(requests) ==> AllLifecycle(items)
      ensures old(CounterAhead(items, counters)) ==> CounterAhead(items, counters) && refused == 0
    {
      refused, trace := 0, [State(items, counters)];
      for k := 0 to |requests|
        invariant Valid()
        invariant ServedAll(trace, requests[..k]) && trace[0] == State(old(items), old(counters))
        invariant trace[k] == State(items, counters) && refused == CountRefused(trace, requests[..k])
        invariant old(PendingOk(items, pending)) && AllCleanUp(requests[..k]) ==> PendingOk(items, pending)
        invariant old(AllLifecycle(items)) && AllKeepStatuses(requests[..k]) ==> AllLifecycle(items)
        invariant old(CounterAhead(items, counters)) ==> CounterAhead(items, counters) && refused == 0
      {
        var duplicate := ServeOne(requests[k]);
        if duplicate { refused := refused + 1; }
        ServedNext(trace, requests, k, State(items, counters));
        OneMore(requests, k);
        trace := trace + [State(items, counters)];
      }
      assert requests[..|requests|] == requests;
    }

    /** One request; ids of new items are drawn at random and taken to be unused. */
    method ServeOne(request: Request) returns (duplicate: bool)
      requires Valid()
      modifies this
      ensures Valid()
      ensures Served(State(old(items), old(counters)), request, items)
      ensures duplicate <==> RefusedForKey(State(old(items), old(counters)), request)
      ensures old(PendingOk(items, pending)) && CleansUp(request) ==> PendingOk(items, pending)
      ensures old(AllLifecycle(items)) && KeepsStatuses(request) ==> AllLifecycle(items)
      ensures old(CounterAhead(items, counters)) ==> CounterAhead(items, counters) && !duplicate
    {
      duplicate := false;
      match request
      case CreateOp(r) =>
        duplicate := ServeCreation(r);
      case UpdateOp(id, p, user, role, member, now, openOk, cleanupOk) =>
        if WellTyped(p) { var _ := Update(id, p, user, role, member, now, openOk, cleanupOk); }
      case CloseOp(id, status, user, role, now, cleanupOk) =>
        var _ := Close(id, status, user, role, now, cleanupOk);
      case DeleteOp(id, user, role, cleanupOk) =>
        var _ := Delete(id, user, role, cleanupOk);
    }

    method ServeCreation(r: CreateRequest) returns (duplicate: bool)
      requires Valid()
      modifies this
      ensures Valid()
      ensures Served(State(old(items), old(counters)), CreateOp(r), items)
      ensures duplicate <==> RefusedForKey(State(old(items), old(counters)), CreateOp(r))
      ensures old(PendingOk(items, pending)) ==> PendingOk(items, pending)
      ensures old(AllLifecycle(items)) ==> AllLifecycle(items)
      ensures old(CounterAhead(items, counters)) ==> CounterAhead(items, counters) && !duplicate
    {
      assert Repeated(r) <==> Seen(items, r);
      if r.id in items || !WellFormed(r) { return false; }
      var out := Create(r);
      duplicate := out == Failed(DuplicateKey);
    }
  }

  /** The items and the counters of the store. */
  datatype State = State(items: Items, counters: Counters)

  datatype Request =
    | CreateOp(r: CreateRequest)
    | UpdateOp(id: string, p: Payload, user: string, role: Option<Role>, member: bool, now: int, openOk: bool, cleanupOk: bool)
    | CloseOp(id: string, status: string, user: string, role: Option<Role>, now: int, cleanupOk: bool)
    | DeleteOp(id: string, user: string, role: Option<Role>, cleanupOk: bool)

  ghost predicate CleansUp(r: Request) { r.CreateOp? || r.cleanupOk }

  /** The request gives no status outside the known ones. */
  ghost predicate KeepsStatuses(r: Request) {
    r.UpdateOp? && WellTyped(r.p) && Given(r.p, Status).Some? ==> Given(r.p, Status).value in STATUSES
  }

  ghost predicate AllCleanUp(requests: seq<Request>) { forall q | q in requests :: CleansUp(q) }

  ghost predicate AllKeepStatuses(requests: seq<Request>) { forall q | q in requests :: KeepsStatuses(q) }

  lemma OneMore(requests: seq<Request>, k: nat)
    requires k < |requests|
    ensures AllCleanUp(requests[..k + 1]) <==> AllCleanUp(requests[..k]) && CleansUp(requests[k])
    ensures AllKeepStatuses(requests[..k + 1]) <==> AllKeepStatuses(requests[..k]) && KeepsStatuses(requests[k])
  {
    assert requests[..k + 1] == requests[..k] + [requests[k]];
  }
}
