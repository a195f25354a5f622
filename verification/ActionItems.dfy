/**
 The action-item service of one project: items as documents with optional fields, the table of pending
 clarifications beside them, and the counters behind the display keys.
 */
module ActionItems {
  import opened Options
  import opened Text

  datatype Field = Title | OwnerUserId | RelatedTo | RelatedId | NoteColor | RelatedType | Status | DueType | DueDate
                 | TargetDatetime | NeedsFollowup | NeedsFollowupSetAt | ClosedAt | ClosedByUserId | UpdatedAt | CreatedAt
                 | CreatedByUserId | DisplayKey | SourceEventKey

  datatype Value = Words(text: string) | Moment(at: int) | Flag(on: bool)

  /** A stored document: a field without a value is absent. */
  type Doc = map<Field, Value>

  /** An update request: absent, explicitly null, or a value. */
  type Payload = map<Field, Option<Value>>

  const TEXT_FIELDS: seq<Field> := [Title, OwnerUserId, RelatedTo, RelatedId, NoteColor]

  const LOWERED_FIELDS: seq<Field> := [RelatedType, Status, DueType]

  const CLOSED: set<string> := {"done", "cancelled"}

  const STATUSES: set<string> := {"open", "done", "cancelled"}

  predicate IsLowered(f: Field) { f.RelatedType? || f.Status? || f.DueType? }

  /** Fields that hold strings in a request. */
  predicate IsString(f: Field) {
    f.Title? || f.OwnerUserId? || f.RelatedTo? || f.RelatedId? || f.NoteColor? || IsLowered(f)
  }

  lemma StringFields(f: Field)
    ensures f in LOWERED_FIELDS <==> IsLowered(f)
    ensures f in TEXT_FIELDS <==> IsString(f) && !IsLowered(f)
  {
    if IsString(f) {
      assert f == TEXT_FIELDS[0] || f == TEXT_FIELDS[1] || f == TEXT_FIELDS[2] || f == TEXT_FIELDS[3] || f == TEXT_FIELDS[4]
             || f == LOWERED_FIELDS[0] || f == LOWERED_FIELDS[1] || f == LOWERED_FIELDS[2];
    }
  }

  /** Request fields hold the kind of value their name says. */
  predicate WellTyped(p: Payload) {
    && (forall f | f in p && p[f].Some? && IsString(f) :: p[f].value.Words?)
    && (NeedsFollowup in p && p[NeedsFollowup].Some? ==> p[NeedsFollowup].value.Flag?)
  }

  function StatusOf(d: Doc): string { if Status in d && d[Status].Words? then d[Status].text else "" }

  predicate Followup(d: Doc) { NeedsFollowup in d && d[NeedsFollowup] == Flag(true) }

  // ---------------------------------------------------------------------------
  // Lifecycle fields
  // ---------------------------------------------------------------------------

  /** Closing fields are present exactly on a closed item. */
  predicate ClosedFieldsOk(d: Doc) {
    (ClosedAt in d <==> StatusOf(d) in CLOSED) && (ClosedByUserId in d <==> ClosedAt in d)
  }

  predicate FollowupFieldOk(d: Doc) { NeedsFollowupSetAt in d <==> Followup(d) }

  predicate Lifecycle(d: Doc) { StatusOf(d) in STATUSES && ClosedFieldsOk(d) && FollowupFieldOk(d) }

  /** A string request field after its normalisation. */
  function Given(p: Payload, f: Field): Option<string>
    requires WellTyped(p)
  {
    if f !in p || p[f].None? || !IsString(f) then None
    else if IsLowered(f) then Some(Lower(Strip(p[f].value.text)))
    else Some(Strip(p[f].value.text))
  }

  /** `$set` and `$unset` applied. */
  function Patch(d: Doc, sets: Doc, unsets: set<Field>): Doc { (d - unsets) + sets }

  /** Whether the item needs follow-up after the request. */
  predicate NextFollowup(d: Doc, p: Payload) {
    if NeedsFollowup in p then p[NeedsFollowup] == Some(Flag(true)) else Followup(d)
  }

  /** Where one string field of a request ends up: blank means remove. */
  predicate SplitString(p: Payload, f: Field, sets: Doc, unsets: set<Field>)
    requires WellTyped(p)
  {
    && (f in sets <==> Given(p, f).Some? && Given(p, f).value != "")
    && (f in sets ==> sets[f] == Words(Given(p, f).value))
    && (f in unsets <==> Given(p, f) == Some(""))
  }

  ghost predicate Split(p: Payload, sets: Doc, unsets: set<Field>)
    requires WellTyped(p)
  {
    forall f | IsString(f) :: SplitString(p, f, sets, unsets)
  }

  /** The loop over one list of string fields. */
  method SplitStrings(p: Payload, fields: seq<Field>, sets0: Doc, unsets0: set<Field>) returns (sets: Doc, unsets: set<Field>)
    requires WellTyped(p)
    requires forall f | f in fields :: IsString(f) && f !in sets0 && f !in unsets0
    ensures forall f | f in fields :: SplitString(p, f, sets, unsets)
    ensures forall f | f !in fields :: (f in sets <==> f in sets0) && (f in unsets <==> f in unsets0)
    ensures forall f | f !in fields && f in sets :: sets[f] == sets0[f]
  {
    sets, unsets := sets0, unsets0;
    for i := 0 to |fields|
      invariant forall f | f in fields[..i] :: SplitString(p, f, sets, unsets)
      invariant forall f | f !in fields[..i] :: (f in sets <==> f in sets0) && (f in unsets <==> f in unsets0)
      invariant forall f | f !in fields[..i] && f in sets :: sets[f] == sets0[f]
    {
      var f := fields[i];
      assert fields[..i + 1] == fields[..i] + [f];
      var given := Given(p, f);
      if given.Some? && f !in fields[..i] {
        if given.value == "" { unsets := unsets + {f}; } else { sets := sets[f := Words(given.value)]; }
      }
    }
    assert fields[..|fields|] == fields;
  }

  /** The two loops over the string fields. */
  method SplitAllStrings(p: Payload) returns (sets: Doc, unsets: set<Field>)
    requires WellTyped(p)
    ensures Split(p, sets, unsets)
    ensures forall f | !IsString(f) :: f !in sets && f !in unsets
  {
    forall f ensures (f in LOWERED_FIELDS <==> IsLowered(f)) && (f in TEXT_FIELDS <==> IsString(f) && !IsLowered(f)) {
      StringFields(f);
    }
    sets, unsets := SplitStrings(p, TEXT_FIELDS, map[], {});
    sets, unsets := SplitStrings(p, LOWERED_FIELDS, sets, unsets);
  }

  /** `due_date` and `target_datetime`: a null request removes the field, a value replaces it. */
  predicate SplitMoment(p: Payload, f: Field, sets: Doc, unsets: set<Field>) {
    && (f in sets <==> f in p && p[f].Some?) && (f in sets ==> sets[f] == p[f].value)
    && (f in unsets <==> f in p && p[f].None?)
  }

  /** What an update request does to the lifecycle fields of `existing`. */
  predicate SplitLifecycle(existing: Doc, p: Payload, actor: string, now: int, sets: Doc, unsets: set<Field>)
    requires WellTyped(p)
  {
    var next, status := NextFollowup(existing, p), Given(p, Status);
    && (NeedsFollowup in sets <==> NeedsFollowup in p) && (NeedsFollowup in sets ==> sets[NeedsFollowup] == Flag(next))
    && NeedsFollowup !in unsets
    && (NeedsFollowupSetAt in sets <==> next && (!Followup(existing) || NeedsFollowup in p))
    && (NeedsFollowupSetAt in sets ==> sets[NeedsFollowupSetAt] == Moment(now))
    && (NeedsFollowupSetAt in unsets <==> Followup(existing) && !next)
    && (ClosedAt in sets <==> status.Some? && status.value in CLOSED) && (ClosedByUserId in sets <==> ClosedAt in sets)
    && (ClosedAt in sets ==> sets[ClosedAt] == Moment(now) && sets[ClosedByUserId] == Words(actor))
    && (ClosedAt in unsets <==> status == Some("open")) && (ClosedByUserId in unsets <==> ClosedAt in unsets)
  }

  /** Field `f` stands in the halves as it did before. */
  predicate SameField(f: Field, sets0: Doc, unsets0: set<Field>, sets: Doc, unsets: set<Field>) {
    (f in sets <==> f in sets0) && (f in sets0 ==> sets[f] == sets0[f]) && (f in unsets <==> f in unsets0)
  }

  predicate Absent(f: Field, sets: Doc, unsets: set<Field>) { f !in sets && f !in unsets }

  /** The fields the service keeps up itself. */
  predicate IsManaged(f: Field) { f.NeedsFollowup? || f.NeedsFollowupSetAt? || f.ClosedAt? || f.ClosedByUserId? || f.UpdatedAt? }

  /** Fields no update touches. */
  predicate IsIdentity(f: Field) { f.CreatedAt? || f.CreatedByUserId? || f.DisplayKey? || f.SourceEventKey? }

  ghost predicate Untouched(sets: Doc, unsets: set<Field>) { forall f | IsIdentity(f) :: Absent(f, sets, unsets) }

  lemma SplitKept(p: Payload, sets0: Doc, unsets0: set<Field>, sets: Doc, unsets: set<Field>)
    requires WellTyped(p) && Split(p, sets0, unsets0)
    requires forall f | IsString(f) :: SameField(f, sets0, unsets0, sets, unsets)
    ensures Split(p, sets, unsets)
  {
    forall f | IsString(f) ensures SplitString(p, f, sets, unsets) { assert SplitString(p, f, sets0, unsets0); }
  }

  /** One date field of a request. */
  method SplitDate(p: Payload, f: Field, sets0: Doc, unsets0: set<Field>) returns (sets: Doc, unsets: set<Field>)
    requires f !in sets0 && f !in unsets0
    ensures SplitMoment(p, f, sets, unsets)
    ensures forall g | g != f :: SameField(g, sets0, unsets0, sets, unsets)
  {
    sets, unsets := sets0, unsets0;
    if f in p {
      if p[f].None? { unsets := unsets + {f}; } else { sets := sets[f := p[f].value]; }
    }
  }

  /** The plain fields of a request. */
  method SplitFields(p: Payload) returns (sets: Doc, unsets: set<Field>)
    requires WellTyped(p)
    ensures Split(p, sets, unsets)
    ensures SplitMoment(p, DueDate, sets, unsets) && SplitMoment(p, TargetDatetime, sets, unsets)
    ensures forall f | IsManaged(f) || IsIdentity(f) :: Absent(f, sets, unsets)
  {
    var sets0, unsets0 := SplitAllStrings(p);
    var sets1, unsets1 := SplitDate(p, DueDate, sets0, unsets0);
    forall f | IsString(f) ensures SameField(f, sets0, unsets0, sets1, unsets1) {}
    SplitKept(p, sets0, unsets0, sets1, unsets1);
    assert !IsString(TargetDatetime) && SameField(TargetDatetime, sets0, unsets0, sets1, unsets1);
    sets, unsets := SplitDate(p, TargetDatetime, sets1, unsets1);
    SplitKept(p, sets1, unsets1, sets, unsets);
    assert SameField(DueDate, sets1, unsets1, sets, unsets);
    forall f | IsManaged(f) || IsIdentity(f) ensures Absent(f, sets, unsets) {
      assert !IsString(f) && SameField(f, sets0, unsets0, sets1, unsets1) && SameField(f, sets1, unsets1, sets, unsets);
    }
  }

  /** The lifecycle part of an update. */
  method SplitManaged(existing: Doc, p: Payload, actor: string, now: int, sets0: Doc, unsets0: set<Field>)
    returns (sets: Doc, unsets: set<Field>)
    requires WellTyped(p) && Split(p, sets0, unsets0)
    requires forall f | IsManaged(f) :: Absent(f, sets0, unsets0)
    ensures SplitLifecycle(existing, p, actor, now, sets, unsets)
    ensures UpdatedAt in sets && sets[UpdatedAt] == Moment(now) && UpdatedAt !in unsets
    ensures forall f | !IsManaged(f) :: SameField(f, sets0, unsets0, sets, unsets)
  {
    assert SplitString(p, Status, sets0, unsets0);
    assert Absent(NeedsFollowup, sets0, unsets0) && Absent(NeedsFollowupSetAt, sets0, unsets0) && Absent(UpdatedAt, sets0, unsets0)
           && Absent(ClosedAt, sets0, unsets0) && Absent(ClosedByUserId, sets0, unsets0);
    sets, unsets := sets0, unsets0;
    if NeedsFollowup in p {
      sets := sets[NeedsFollowup := Flag(p[NeedsFollowup].Some? && p[NeedsFollowup].value.on)];
    }
    var prev := Followup(existing);
    var next := if NeedsFollowup in sets then sets[NeedsFollowup] == Flag(true) else prev;
    if !prev && next {
      sets := sets[NeedsFollowupSetAt := Moment(now)];
    } else if prev && !next {
      unsets := unsets + {NeedsFollowupSetAt};
    } else if prev && next && NeedsFollowup in sets {
      sets := sets[NeedsFollowupSetAt := Moment(now)];
    }
    if Status in sets && sets[Status].text in CLOSED {
      sets := sets[ClosedAt := Moment(now)][ClosedByUserId := Words(actor)];
    } else if Status in sets && sets[Status].text == "open" {
      unsets := unsets + {ClosedAt, ClosedByUserId};
    }
    sets := sets[UpdatedAt := Moment(now)];
  }

  /** The update document `ActionItemService.update` builds, half by half and field by field. */
  method BuildUpdate(existing: Doc, p: Payload, actor: string, now: int) returns (sets: Doc, unsets: set<Field>)
    requires WellTyped(p)
    ensures UpdateFor(existing, p, actor, now, sets, unsets)
  {
    var sets0, unsets0 := SplitFields(p);
    sets, unsets := SplitManaged(existing, p, actor, now, sets0, unsets0);
    SplitKept(p, sets0, unsets0, sets, unsets);
    assert SameField(DueDate, sets0, unsets0, sets, unsets) && SameField(TargetDatetime, sets0, unsets0, sets, unsets);
    forall f | IsIdentity(f) ensures Absent(f, sets, unsets) {
      assert !IsManaged(f) && Absent(f, sets0, unsets0) && SameField(f, sets0, unsets0, sets, unsets);
    }
  }

  /** Facts about any pair of halves that `BuildUpdate` may return. */
  ghost predicate UpdateFor(existing: Doc, p: Payload, actor: string, now: int, sets: Doc, unsets: set<Field>)
    requires WellTyped(p)
  {
    && Split(p, sets, unsets)
    && SplitMoment(p, DueDate, sets, unsets) && SplitMoment(p, TargetDatetime, sets, unsets)
    && SplitLifecycle(existing, p, actor, now, sets, unsets)
    && UpdatedAt in sets && sets[UpdatedAt] == Moment(now) && UpdatedAt !in unsets && Untouched(sets, unsets)
  }

  /** Field `f` of an item is as it was. */
  predicate FieldKept(d: Doc, after: Doc, f: Field) {
    (f in after <==> f in d) && (f in d ==> after[f] == d[f])
  }

  /** A text in a request replaces the field, stripped, and in small letters for a type or status; a blank one removes it. */
  lemma TextAfterUpdate(d: Doc, p: Payload, actor: string, now: int, sets: Doc, unsets: set<Field>, f: Field)
    requires WellTyped(p) && UpdateFor(d, p, actor, now, sets, unsets)
    requires f in {Title, OwnerUserId, RelatedTo, RelatedId, NoteColor, RelatedType, Status, DueType}
    ensures var after := Patch(d, sets, unsets);
            if f !in p || p[f].None? then FieldKept(d, after, f)
            else if Strip(p[f].value.text) == "" then f !in after
            else f in after && after[f] == Words(if f in {RelatedType, Status, DueType} then Lower(Strip(p[f].value.text))
                                                 else Strip(p[f].value.text))
  {
    assert SplitString(p, f, sets, unsets);
  }

  /** A date in a request replaces the field, a null removes it; nothing in a request reaches the fields of the creation. */
  lemma DatesAfterUpdate(d: Doc, p: Payload, actor: string, now: int, sets: Doc, unsets: set<Field>, f: Field)
    requires WellTyped(p) && UpdateFor(d, p, actor, now, sets, unsets)
    ensures var after := Patch(d, sets, unsets);
            && (f in {CreatedAt, CreatedByUserId, DisplayKey, SourceEventKey} ==> FieldKept(d, after, f))
            && (f in {DueDate, TargetDatetime} ==>
                  if f !in p then FieldKept(d, after, f)
                  else if p[f].None? then f !in after
                  else f in after && after[f] == p[f].value)
  {
    if IsIdentity(f) { assert Absent(f, sets, unsets); }
  }

  /** No field is both set and unset, so the database never sees a conflicting update. */
  lemma HalvesDisjoint(existing: Doc, p: Payload, actor: string, now: int, sets: Doc, unsets: set<Field>)
    requires WellTyped(p) && UpdateFor(existing, p, actor, now, sets, unsets)
    ensures sets.Keys !! unsets
  {
    forall f | f in unsets ensures f !in sets {
      assert IsString(f) ==> SplitString(p, f, sets, unsets);
      assert IsIdentity(f) ==> Absent(f, sets, unsets);
    }
  }

  /**
   An update keeps the closing fields in step with the status except in exactly one case: a closed item is
   given a status that is neither open nor a closed one (a blank or unknown text).
   */
  lemma ClosedFieldsKeptIff(d: Doc, p: Payload, actor: string, now: int, sets: Doc, unsets: set<Field>)
    requires WellTyped(p) && UpdateFor(d, p, actor, now, sets, unsets) && ClosedFieldsOk(d)
    ensures ClosedFieldsOk(Patch(d, sets, unsets)) <==>
            !(StatusOf(d) in CLOSED && Given(p, Status).Some? && Given(p, Status).value !in STATUSES)
  {
    assert SplitString(p, Status, sets, unsets);
  }

  /** Follow-up and its time stamp stay in step under every update. */
  lemma FollowupFieldKept(d: Doc, p: Payload, actor: string, now: int, sets: Doc, unsets: set<Field>)
    requires WellTyped(p) && UpdateFor(d, p, actor, now, sets, unsets) && FollowupFieldOk(d)
    ensures FollowupFieldOk(Patch(d, sets, unsets))
    ensures Followup(Patch(d, sets, unsets)) <==> NextFollowup(d, p)
  {}

  /** Requests with a known status, or none, keep the whole lifecycle. */
  lemma LifecycleKept(d: Doc, p: Payload, actor: string, now: int, sets: Doc, unsets: set<Field>)
    requires WellTyped(p) && UpdateFor(d, p, actor, now, sets, unsets) && Lifecycle(d)
    ensures Lifecycle(Patch(d, sets, unsets)) <==> (Given(p, Status).Some? ==> Given(p, Status).value in STATUSES)
    ensures StatusOf(Patch(d, sets, unsets)) == if Given(p, Status).Some? then Given(p, Status).value else StatusOf(d)
  {
    assert SplitString(p, Status, sets, unsets);
    ClosedFieldsKeptIff(d, p, actor, now, sets, unsets);
    FollowupFieldKept(d, p, actor, now, sets, unsets);
  }
}
