/**
 One turn of the agent executor: the guard before every tool call, the grounding of write targets and the
 bookkeeping after a call, over any sequence of calls a model may make and any number of model attempts.
 */
module ToolRuntime {
  import opened Numbers
  import opened Options
  import opened Text
  import opened OperationReplay

  datatype Idempotency = ReadOnly | Idempotent | NonIdempotent

  datatype ToolContract = ToolContract(name: string, idempotency: Idempotency, identifierFields: seq<string>)

  /** A registered tool; no contract lists the operation id among its identifier fields. */
  type ToolSpec = t: ToolContract | OPERATION_ID !in t.identifierFields witness ToolContract("", ReadOnly, [])

  /** Everything but read-only counts as a write for the guard. */
  predicate IsWrite(spec: ToolSpec) { spec.idempotency != ReadOnly }

  datatype GuardError = TotalBudget | RuntimeBudget | WriteBudget | DuplicateCall

  /** Settings as read by the guard; zero means the built-in default and anything below one counts as one. */
  datatype GuardSettings = GuardSettings(wrapperEnabled: bool, loopGuardEnabled: bool, total: int, write: int) {
    predicate Enabled() { wrapperEnabled && loopGuardEnabled }

    function MaxTotal(): (n: nat)
      ensures n >= 1 && (total >= 1 ==> n == total) && (total == 0 ==> n == 6)
    {
      AtLeastOne(OrDefault(total, 6))
    }

    function MaxWrite(): (n: nat)
      ensures n >= 1 && (write >= 1 ==> n == write) && (write == 0 ==> n == 3)
    {
      AtLeastOne(OrDefault(write, 3))
    }
  }

  // ---------------------------------------------------------------------------
  // Target references
  // ---------------------------------------------------------------------------

  /** Form in which identifiers are stored and compared: keys with a dash are upper-cased. */
  function CanonicalRef(token: string): string { if '-' in token then Upper(token) else token }

  /** The form differs from the token in case only; it has no small letters with a dash and is the token itself without one. */
  lemma CanonicalForm(token: string)
    ensures var r := CanonicalRef(token);
            && Lower(r) == Lower(token)
            && (if '-' in token then forall i | 0 <= i < |r| :: !('a' <= r[i] <= 'z') else r == token)
  {}

  const REF_KEYS: set<string> := {"external_id", "entity_id", "task_id", "issue_id", "id", "entity_key"}

  predicate EndsWithId(name: string) { |name| >= 3 && name[|name| - 3..] == "_id" }

  /** Keys of a tool result whose values become references. */
  predicate IsRefKey(key: string) {
    var name := Lower(Strip(key));
    key in REF_KEYS || (name != "" && name != OPERATION_ID && EndsWithId(name))
  }

  /** Beside the keys that end in `_id`, the operation id's apart, only `id` and `entity_key` give references. */
  lemma RefKeyIff(key: string)
    ensures IsRefKey(key) <==>
              || key == "id" || key == "entity_key"
              || (Lower(Strip(key)) != "operation_id" && exists stem :: Lower(Strip(key)) == stem + "_id")
  {
    var name := Lower(Strip(key));
    if EndsWithId(name) { assert name == name[..|name| - 3] + "_id"; }
    if stem :| name == stem + "_id" { assert name[|name| - 3..] == "_id"; }
    if key in REF_KEYS && key != "id" && key != "entity_key" { LongKeys(key); }
  }

  /** The fixed keys that end in `_id` are tokens in small letters. */
  lemma LongKeys(key: string)
    requires key in {"external_id", "entity_id", "task_id", "issue_id"}
    ensures Lower(Strip(key)) == key && EndsWithId(key)
  {
    SmallToken(key);
  }

  lemma SmallToken(key: string)
    requires forall c | c in key :: 'a' <= c <= 'z' || c == '_'
    ensures Lower(Strip(key)) == key
  {
    assert key != "" ==> key[0] in key && key[|key| - 1] in key;
    forall i | 0 <= i < |key| ensures LowerChar(key[i]) == key[i] { assert key[i] in key; }
    assert Strip(key) == key;
  }

  predicate YieldsRef(entry: (string, string), r: string) {
    IsRefKey(entry.0) && Strip(entry.1) != "" && r == CanonicalRef(Strip(entry.1))
  }

  predicate MappingYields(m: seq<(string, string)>, r: string) { exists e | e in m :: YieldsRef(e, r) }

  /** The references a tool result gives. */
  predicate IsRefOf(result: ToolResult, r: string) {
    MappingYields(result.top, r) || exists m | m in result.nested :: MappingYields(m, r)
  }

  ghost predicate NoDuplicates(s: seq<string>) { forall i, j | 0 <= i < j < |s| :: s[i] != s[j] }

  lemma MappingYieldsNext(m: seq<(string, string)>, i: nat)
    requires i < |m|
    ensures forall r :: MappingYields(m[..i + 1], r) <==> MappingYields(m[..i], r) || YieldsRef(m[i], r)
  {
    assert m[..i + 1] == m[..i] + [m[i]];
    assert forall x :: x in m[..i + 1] <==> x in m[..i] || x == m[i];
  }

  /** One entry of a mapping. */
  method AddEntry(refs0: seq<string>, e: (string, string)) returns (refs: seq<string>)
    requires NoDuplicates(refs0)
    ensures NoDuplicates(refs)
    ensures forall r :: r in refs <==> r in refs0 || YieldsRef(e, r)
  {
    refs := refs0;
    var token := Strip(e.1);
    if IsRefKey(e.0) && token != "" && CanonicalRef(token) !in refs0 {
      refs := refs0 + [CanonicalRef(token)];
    }
  }

  /** The inner `_extract_from_mapping`. */
  method ExtractFromMapping(refs0: seq<string>, m: seq<(string, string)>) returns (refs: seq<string>)
    requires NoDuplicates(refs0)
    ensures NoDuplicates(refs)
    ensures forall r :: r in refs <==> r in refs0 || MappingYields(m, r)
  {
    refs := refs0;
    for i := 0 to |m|
      invariant NoDuplicates(refs)
      invariant forall r :: r in refs <==> r in refs0 || MappingYields(m[..i], r)
    {
      MappingYieldsNext(m, i);
      refs := AddEntry(refs, m[i]);
    }
    assert m[..|m|] == m;
  }

  /** Every identifier value of the result and of its nested mappings, once each, never the operation id. */
  method ExtractTargetRefs(result: ToolResult) returns (refs: seq<string>)
    ensures NoDuplicates(refs)
    ensures forall r :: r in refs <==> IsRefOf(result, r)
  {
    refs := ExtractFromMapping([], result.top);
    for i := 0 to |result.nested|
      invariant NoDuplicates(refs)
      invariant forall r :: r in refs <==>
                  MappingYields(result.top, r) || exists m | m in result.nested[..i] :: MappingYields(m, r)
    {
      refs := ExtractFromMapping(refs, result.nested[i]);
      assert result.nested[..i + 1] == result.nested[..i] + [result.nested[i]];
    }
    assert result.nested[..|result.nested|] == result.nested;
  }

  /** `t` is an identifier target of the call. */
  predicate IsTarget(spec: ToolSpec, args: Args, t: string) {
    exists f | f in spec.identifierFields ::
      f in args && Strip(args[f]) != "" && t == CanonicalRef(Strip(args[f]))
  }

  predicate SameRef(a: string, b: string) { Lower(Strip(a)) == Lower(b) }

  /** References are compared in any case, the stored one without the white space around it. */
  lemma SameRefIff(a: string, b: string)
    ensures SameRef(a, b) <==> Upper(Strip(a)) == Upper(b)
  {
    CaseFree(Strip(a), b);
  }

  /** Two texts agree in small letters exactly if they agree in capitals. */
  lemma CaseFree(s: string, t: string)
    ensures Lower(s) == Lower(t) <==> Upper(s) == Upper(t)
  {
    if Lower(s) == Lower(t) {
      assert forall i | 0 <= i < |s| :: Lower(s)[i] == Lower(t)[i];
    }
    if Upper(s) == Upper(t) {
      assert forall i | 0 <= i < |s| :: Upper(s)[i] == Upper(t)[i];
    }
  }

  predicate AmongRefs(refs: seq<string>, t: string) { exists r | r in refs :: Strip(r) != "" && SameRef(r, t) }

  predicate InMessage(message: string, t: string) {
    Strip(message) != "" && Contains(Lower(Strip(message)), Lower(t))
  }

  /** A message names a target exactly if it has some text and spells the target somewhere, in any case. */
  lemma InMessageIff(message: string, t: string)
    ensures InMessage(message, t) <==>
              Strip(message) != ""
              && exists front, named, back :: Strip(message) == front + named + back && Upper(named) == Upper(t)
  {
    if InMessage(message, t) { MessageNames(Strip(message), t); }
    if front, named, back :| Strip(message) == front + named + back && Upper(named) == Upper(t) {
      CaseFree(named, t);
      NamedInMessage(Strip(message), front, named, back);
    }
  }

  lemma MessageNames(m: string, t: string)
    requires Contains(Lower(m), Lower(t))
    ensures exists front, named, back :: m == front + named + back && Upper(named) == Upper(t)
  {
    var k :| 0 <= k <= |m| && OccursAt(Lower(t), Lower(m), k);
    var named := m[k..k + |t|];
    assert Lower(named) == Lower(m)[k..k + |t|];
    CaseFree(named, t);
    assert m == m[..k] + named + m[k + |t|..];
  }

  lemma NamedInMessage(m: string, front: string, named: string, back: string)
    requires m == front + named + back
    ensures Contains(Lower(m), Lower(named))
  {
    assert m[|front|..|front| + |named|] == named;
    assert Lower(m)[|front|..|front| + |named|] == Lower(named);
    assert OccursAt(Lower(named), Lower(m), |front|);
  }

  // ---------------------------------------------------------------------------
  // The history of a turn
  // ---------------------------------------------------------------------------

  /**
   What happened to one tool call: the model attempt it belongs to, the arguments the guard saw and their
   de-duplication key, why the guard refused it (None when it was admitted), the arguments its tool ran with (None when it did not
   run) and the answer the model got (None for an error raised before the tool or the cache answered).
   */
  datatype CallRecord = CallRecord(attempt: nat, spec: ToolSpec, args: Args, key: string, refusal: Option<GuardError>,
                                   ranWith: Option<Args>, result: Option<ToolResult>) {
    predicate Admitted() { refusal.None? }
  }

  predicate Succeeded(c: CallRecord) { c.result.Some? && c.result.value.ok }

  function CountWrites(h: seq<CallRecord>): nat {
    if h == [] then 0
    else CountWrites(h[..|h| - 1]) + (if h[|h| - 1].Admitted() && IsWrite(h[|h| - 1].spec) then 1 else 0)
  }

  /** Admitted calls of model attempt `a`. */
  function CountAttempt(h: seq<CallRecord>, a: nat): nat {
    if h == [] then 0
    else CountAttempt(h[..|h| - 1], a) + (if h[|h| - 1].Admitted() && h[|h| - 1].attempt == a then 1 else 0)
  }

  function CountAdmitted(h: seq<CallRecord>): nat {
    if h == [] then 0 else CountAdmitted(h[..|h| - 1]) + (if h[|h| - 1].Admitted() then 1 else 0)
  }

  lemma CountsAppend(h: seq<CallRecord>, c: CallRecord)
    ensures CountWrites(h + [c]) == CountWrites(h) + (if c.Admitted() && c.spec.idempotency != ReadOnly then 1 else 0)
    ensures CountAdmitted(h + [c]) == CountAdmitted(h) + (if c.Admitted() then 1 else 0)
    ensures forall a: nat :: CountAttempt(h + [c], a) == CountAttempt(h, a) + (if c.Admitted() && c.attempt == a then 1 else 0)
  {
    assert (h + [c])[..|h|] == h;
  }

  /** No two admitted calls have the same key. */
  ghost predicate DistinctAdmitted(h: seq<CallRecord>) {
    forall i, j | 0 <= i < j < |h| && h[i].Admitted() && h[j].Admitted() :: h[i].key != h[j].key
  }

  /** Some admitted call has this key. */
  ghost predicate AdmittedWith(h: seq<CallRecord>, key: string) {
    exists i | 0 <= i < |h| :: h[i].Admitted() && h[i].key == key
  }

  lemma AdmittedWithAppend(h: seq<CallRecord>, c: CallRecord, key: string)
    ensures AdmittedWith(h + [c], key) <==> AdmittedWith(h, key) || (c.Admitted() && c.key == key)
  {
    var next := h + [c];
    assert next[|h|] == c;
    if AdmittedWith(h, key) {
      var i :| 0 <= i < |h| && h[i].Admitted() && h[i].key == key;
      assert next[i] == h[i];
    }
  }

  ghost predicate GuardInv(h: seq<CallRecord>, keys: seq<string>, writes: nat, total: nat, attempt: nat, g: GuardSettings) {
    && DistinctAdmitted(h)
    && (forall i | 0 <= i < |h| && h[i].Admitted() :: h[i].key in keys)
    && (forall k | k in keys :: AdmittedWith(h, k))
    && writes == CountWrites(h) <= g.MaxWrite()
    && total == CountAttempt(h, attempt)
    && (forall a: nat :: CountAttempt(h, a) <= g.MaxTotal())
    && (forall i | 0 <= i < |h| :: h[i].attempt <= attempt)
  }

  lemma GuardAppend(h: seq<CallRecord>, keys: seq<string>, writes: nat, total: nat, attempt: nat, g: GuardSettings,
                    c: CallRecord)
    requires GuardInv(h, keys, writes, total, attempt, g) && c.attempt == attempt
    requires c.Admitted() ==> c.key !in keys && total < g.MaxTotal() && (IsWrite(c.spec) ==> writes < g.MaxWrite())
    ensures GuardInv(h + [c], if c.Admitted() then keys + [c.key] else keys,
                     writes + (if c.Admitted() && IsWrite(c.spec) then 1 else 0),
                     total + (if c.Admitted() then 1 else 0), attempt, g)
  {
    CountsAppend(h, c);
    var after := if c.Admitted() then keys + [c.key] else keys;
    forall k | k in after ensures AdmittedWith(h + [c], k) { AdmittedWithAppend(h, c, k); }
  }

  lemma {:induction false} CountLater(h: seq<CallRecord>, a: nat)
    requires forall i | 0 <= i < |h| :: h[i].attempt < a
    ensures CountAttempt(h, a) == 0
  {
    if h != [] { CountLater(h[..|h| - 1], a); }
  }

  /** Over a whole turn the admitted calls number at most the per-attempt budget times the attempts made. */
  lemma TurnBudget(h: seq<CallRecord>, attempts: nat, budget: nat)
    requires forall i | 0 <= i < |h| :: 1 <= h[i].attempt <= attempts
    requires forall a: nat :: CountAttempt(h, a) <= budget
    ensures CountAdmitted(h) <= attempts * budget
  {
    AdmittedSplit(h, attempts);
    SumBound(h, attempts, budget);
  }

  /** Admitted calls of the attempts 1 to `n`, attempt by attempt. */
  function SumAttempts(h: seq<CallRecord>, n: nat): nat {
    if n == 0 then 0 else SumAttempts(h, n - 1) + CountAttempt(h, n)
  }

  lemma {:induction false} SumAttemptsAppend(h: seq<CallRecord>, c: CallRecord, n: nat)
    ensures SumAttempts(h + [c], n) == SumAttempts(h, n) + (if c.Admitted() && 1 <= c.attempt <= n then 1 else 0)
  {
    if n > 0 {
      SumAttemptsAppend(h, c, n - 1);
      CountsAppend(h, c);
    }
  }

  lemma {:induction false} SumAttemptsEmpty(n: nat)
    ensures SumAttempts([], n) == 0
  {
    if n > 0 { SumAttemptsEmpty(n - 1); }
  }

  lemma {:induction false} AdmittedSplit(h: seq<CallRecord>, n: nat)
    requires forall i | 0 <= i < |h| :: 1 <= h[i].attempt <= n
    ensures CountAdmitted(h) == SumAttempts(h, n)
  {
    if h == [] {
      SumAttemptsEmpty(n);
    } else {
      var front, c := h[..|h| - 1], h[|h| - 1];
      assert h == front + [c];
      AdmittedSplit(front, n);
      SumAttemptsAppend(front, c, n);
    }
  }

  lemma {:induction false} SumBound(h: seq<CallRecord>, n: nat, budget: nat)
    requires forall a: nat :: CountAttempt(h, a) <= budget
    ensures SumAttempts(h, n) <= n * budget
  {
    if n > 0 {
      SumBound(h, n - 1, budget);
      assert n * budget == (n - 1) * budget + budget;
    }
  }

  /** `t` was among the references of this call's successful answer. */
  ghost predicate AnsweredWith(c: CallRecord, t: string) {
    Succeeded(c) && exists r :: IsRefOf(c.result.value, r) && Strip(r) != "" && SameRef(r, t)
  }

  /** The places a write target may come from when call `i` is made. */
  ghost predicate Grounded(h: seq<CallRecord>, i: nat, t: string, message: string, snapshot: seq<string>, initial: seq<string>)
    requires i <= |h|
  {
    || InMessage(message, t)
    || AmongRefs(snapshot, t)
    || AmongRefs(initial, t)
    || exists j | 0 <= j < i :: AnsweredWith(h[j], t)
  }

  /** Every identifier target of a write that ran is grounded in the message, the snapshot or an earlier answer. */
  ghost predicate Provenance(h: seq<CallRecord>, message: string, snapshot: seq<string>, initial: seq<string>) {
    forall i, t | 0 <= i < |h| && h[i].ranWith.Some? && h[i].spec.idempotency == NonIdempotent
                  && IsTarget(h[i].spec, h[i].ranWith.value, t) ::
      Grounded(h, i, t, message, snapshot, initial)
  }

  /** The runtime references are the initial ones followed by exactly the references of successful answers. */
  ghost predicate RefsInv(h: seq<CallRecord>, refs: seq<string>, initial: seq<string>) {
    && initial <= refs
    && (forall r | r in refs :: r in initial || exists j | 0 <= j < |h| :: Succeeded(h[j]) && IsRefOf(h[j].result.value, r))
    && (forall j, r | 0 <= j < |h| && Succeeded(h[j]) && IsRefOf(h[j].result.value, r) :: r in refs)
  }

  lemma GroundedKept(h: seq<CallRecord>, h': seq<CallRecord>, i: nat, t: string, message: string, snapshot: seq<string>,
                     initial: seq<string>)
    requires i <= |h| && i <= |h'| && h[..i] == h'[..i]
    requires Grounded(h, i, t, message, snapshot, initial)
    ensures Grounded(h', i, t, message, snapshot, initial)
  {
    if j :| 0 <= j < i && AnsweredWith(h[j], t) {
      assert h[..i][j] == h'[..i][j];
      assert AnsweredWith(h'[j], t);
    }
  }

  /** Replacing or appending the record at the end. */
  lemma ProvenanceAppend(h: seq<CallRecord>, c: CallRecord, message: string, snapshot: seq<string>, initial: seq<string>)
    requires Provenance(h, message, snapshot, initial)
    requires c.ranWith.Some? && c.spec.idempotency == NonIdempotent ==>
               forall t | IsTarget(c.spec, c.ranWith.value, t) :: Grounded(h, |h|, t, message, snapshot, initial)
    ensures Provenance(h + [c], message, snapshot, initial)
  {
    var next := h + [c];
    forall i, t | 0 <= i < |next| && next[i].ranWith.Some? && next[i].spec.idempotency == NonIdempotent
                  && IsTarget(next[i].spec, next[i].ranWith.value, t)
      ensures Grounded(next, i, t, message, snapshot, initial)
    {
      GroundedKept(h, next, i, t, message, snapshot, initial);
    }
  }

  /** A target found among the runtime references was in the initial ones or in an earlier successful answer. */
  lemma RuntimeRefsAreGrounded(h: seq<CallRecord>, refs: seq<string>, t: string, message: string, snapshot: seq<string>,
                               initial: seq<string>)
    requires RefsInv(h, refs, initial) && AmongRefs(refs, t)
    ensures Grounded(h, |h|, t, message, snapshot, initial)
  {
    var r :| r in refs && Strip(r) != "" && SameRef(r, t);
    if r !in initial {
      var j :| 0 <= j < |h| && Succeeded(h[j]) && IsRefOf(h[j].result.value, r);
      assert AnsweredWith(h[j], t);
    }
  }

  // ---------------------------------------------------------------------------
  // The executor
  // ---------------------------------------------------------------------------

  /** Key under which the guard remembers a call; the caller's operation id does not enter it. */
  function DedupeKey(name: string, args: Args, hashArgs: Args -> string): string {
    name + ":" + hashArgs(Digestible(args))
  }

  /** The same arguments, a supplied operation id aside. */
  ghost predicate SameArgs(a: Args, b: Args) {
    forall f | f != OPERATION_ID :: (f in a <==> f in b) && (f in a ==> a[f] == b[f])
  }

  /** The digests of two argument dictionaries are of one length and do not collide. */
  ghost predicate Separates(hashArgs: Args -> string, a: Args, b: Args) {
    |hashArgs(Digestible(a))| == |hashArgs(Digestible(b))|
    && (hashArgs(Digestible(a)) == hashArgs(Digestible(b)) ==> Digestible(a) == Digestible(b))
  }

  /** Two calls have one key exactly if they are for the same tool with the same arguments. */
  lemma KeysApart(hashArgs: Args -> string, v: string, a: Args, w: string, b: Args)
    requires Separates(hashArgs, a, b)
    ensures DedupeKey(v, a, hashArgs) == DedupeKey(w, b, hashArgs) <==> v == w && SameArgs(a, b)
  {
    var x, y := hashArgs(Digestible(a)), hashArgs(Digestible(b));
    var k, l := DedupeKey(v, a, hashArgs), DedupeKey(w, b, hashArgs);
    assert k[..|v|] == v && k[|v| + 1..] == x && l[..|w|] == w && l[|w| + 1..] == y;
    if SameArgs(a, b) { assert Digestible(a) == Digestible(b); }
    if Digestible(a) == Digestible(b) {
      forall f | f != OPERATION_ID ensures (f in a <==> f in b) && (f in a ==> a[f] == b[f]) {
        assert f in Digestible(a) <==> f in a;
        assert f in Digestible(b) <==> f in b;
      }
    }
  }

  /** An admitted call of the same tool with the same arguments is in the history. */
  ghost predicate Repeats(h: seq<CallRecord>, name: string, args: Args) {
    exists i | 0 <= i < |h| :: h[i].Admitted() && h[i].spec.name == name && SameArgs(h[i].args, args)
  }

  /**
   What the guard lets through, told from the calls before: everything while one of its switches is off, and
   otherwise a call within the budgets and the running time that repeats none it let through before.
   */
  ghost predicate LetThrough(h: seq<CallRecord>, attempt: nat, c: CallInput, g: GuardSettings) {
    || !g.wrapperEnabled || !g.loopGuardEnabled
    || (CountAttempt(h, attempt) < g.MaxTotal() && !c.overtime
        && (c.spec.idempotency != ReadOnly ==> CountWrites(h) < g.MaxWrite())
        && !Repeats(h, c.spec.name, c.args))
  }

  ghost predicate AllSeparate(hashArgs: Args -> string, h: seq<CallRecord>, args: Args) {
    forall i | 0 <= i < |h| :: Separates(hashArgs, h[i].args, args)
  }

  /** Every refusal as a duplicate has an admitted call before it that it repeats. */
  ghost predicate DuplicatesRepeat(h: seq<CallRecord>, hashArgs: Args -> string) {
    forall i | 0 <= i < |h| && h[i].refusal == Some(DuplicateCall) && AllSeparate(hashArgs, h[..i], h[i].args) ::
      Repeats(h[..i], h[i].spec.name, h[i].args)
  }

  lemma DuplicatesRepeatAppend(h: seq<CallRecord>, c: CallRecord, hashArgs: Args -> string)
    requires DuplicatesRepeat(h, hashArgs)
    requires c.refusal == Some(DuplicateCall) && AllSeparate(hashArgs, h, c.args) ==> Repeats(h, c.spec.name, c.args)
    ensures DuplicatesRepeat(h + [c], hashArgs)
  {
    var next := h + [c];
    forall i | 0 <= i < |next| && next[i].refusal == Some(DuplicateCall) && AllSeparate(hashArgs, next[..i], next[i].args)
      ensures Repeats(next[..i], next[i].spec.name, next[i].args)
    {
      assert next[..i] == h[..i];
      assert h[..|h|] == h;
    }
  }

  /** With distinct digests the guard's keys tell exactly the calls that repeat an admitted one. */
  lemma KnownKey(h: seq<CallRecord>, keys: seq<string>, hashArgs: Args -> string, name: string, args: Args)
    requires KeysDerived(h, hashArgs) && AllSeparate(hashArgs, h, args)
    requires forall i | 0 <= i < |h| && h[i].Admitted() :: h[i].key in keys
    requires forall k | k in keys :: AdmittedWith(h, k)
    ensures DedupeKey(name, args, hashArgs) in keys <==> Repeats(h, name, args)
  {
    forall i | 0 <= i < |h|
      ensures h[i].key == DedupeKey(name, args, hashArgs) <==> h[i].spec.name == name && SameArgs(h[i].args, args)
    {
      KeysApart(hashArgs, h[i].spec.name, h[i].args, name, args);
    }
  }

  ghost predicate KeysDerived(h: seq<CallRecord>, hashArgs: Args -> string) {
    forall i | 0 <= i < |h| :: h[i].key == DedupeKey(h[i].spec.name, h[i].args, hashArgs)
  }

  ghost predicate SameCall(a: CallRecord, b: CallRecord) {
    a.spec.name == b.spec.name && Digestible(a.args) == Digestible(b.args)
  }

  /** A turn under the guard never admits the same tool with the same arguments twice, operation ids aside. */
  lemma NoRepeatedAdmission(h: seq<CallRecord>, hashArgs: Args -> string, i: nat, j: nat)
    requires KeysDerived(h, hashArgs) && DistinctAdmitted(h)
    requires i < j < |h| && SameCall(h[i], h[j])
    ensures !(h[i].Admitted() && h[j].Admitted())
  {
    assert h[i].key == h[j].key;
  }

  /**
   One tool call as the model and its surroundings decide it: how much time passes first, whether the turn is
   over its running time, the permission decision, the arguments after quality preparation (None for a
   preparation error), the state of the replay store and what the tool answers if it runs.
   */
  datatype CallInput = CallInput(spec: ToolSpec, args: Args, delay: nat, overtime: bool, permitted: bool,
                                 prepared: Option<Args>, guardOk: bool, degradedAllowed: bool, readOk: bool,
                                 storeOk: bool, answer: ToolResult)

  /**
   How a model attempt ends: with an answer, with the turn limit of the agent loop, or with any other exception
   or without a required tool call, after which the next model is tried.
   */
  datatype Ending = Answered | TurnLimit | FellThrough

  /** One model attempt: its calls and its ending. */
  datatype Attempt = Attempt(calls: seq<CallInput>, ending: Ending)

  class AgentExecutor {
    const settings: GuardSettings
    const hashArgs: Args -> string
    const runId: string
    const sessionKey: string
    const scopeHash: string
    const message: string
    const snapshotRefs: seq<string>
    const initialRefs: seq<string>
    const replay: OperationReplayCache
    var hashes: seq<string>
    var writeCount: nat
    var runtimeRefs: seq<string>
    var traceCount: nat
    var clock: int
    ghost var attempt: nat
    ghost var history: seq<CallRecord>

    ghost predicate Valid()
      reads this, replay
    {
      && replay.Valid() && replay.MayRecord(clock)
      && (settings.Enabled() ==> GuardInv(history, hashes, writeCount, traceCount, attempt, settings))
      && (forall i | 0 <= i < |history| :: history[i].attempt <= attempt)
      && KeysDerived(history, hashArgs) && DuplicatesRepeat(history, hashArgs)
      && Provenance(history, message, snapshotRefs, initialRefs)
      && RefsInv(history, runtimeRefs, initialRefs)
    }

    constructor (settings: GuardSettings, hashArgs: Args -> string, runId: string, sessionKey: string, scopeHash: string,
                 message: string, snapshotRefs: seq<string>, initialRefs: seq<string>, replay: OperationReplayCache,
                 clock: int)
      requires replay.Valid() && replay.MayRecord(clock)
      ensures Valid() && history == [] && attempt == 0 && runtimeRefs == initialRefs
      ensures this.settings == settings && this.replay == replay && this.clock == clock && this.hashArgs == hashArgs
      ensures this.runId == runId && this.sessionKey == sessionKey && this.scopeHash == scopeHash
      ensures this.message == message && this.snapshotRefs == snapshotRefs && this.initialRefs == initialRefs
    {
      this.settings, this.hashArgs, this.runId, this.sessionKey := settings, hashArgs, runId, sessionKey;
      this.scopeHash, this.message, this.snapshotRefs := scopeHash, message, snapshotRefs;
      this.initialRefs, this.replay, this.clock := initialRefs, replay, clock;
      hashes, writeCount, runtimeRefs, traceCount := [], 0, initialRefs, 0;
      attempt, history := 0, [];
    }

    /** A new model attempt starts with an empty trace and the turn's context as it is. */
    method StartAttempt()
      requires Valid()
      modifies this`traceCount, this`attempt
      ensures Valid() && traceCount == 0 && attempt == old(attempt) + 1
    {
      CountLater(history, attempt + 1);
      traceCount, attempt := 0, attempt + 1;
    }

    /** `_before_tool_call_guard`, followed by the counting its caller does for an admitted call. */
    method Admit(spec: ToolSpec, args: Args, overtime: bool) returns (refusal: Option<GuardError>)
      modifies this`hashes, this`writeCount, this`traceCount
      ensures refusal.None? <==> !settings.Enabled()
                                 || (old(traceCount) < settings.MaxTotal() && !overtime
                                     && (IsWrite(spec) ==> old(writeCount) < settings.MaxWrite())
                                     && DedupeKey(spec.name, args, hashArgs) !in old(hashes))
      ensures refusal == Some(DuplicateCall) ==>
                DedupeKey(spec.name, args, hashArgs) in old(hashes) && old(traceCount) < settings.MaxTotal() && !overtime
      ensures refusal == Some(WriteBudget) ==> IsWrite(spec) && old(writeCount) >= settings.MaxWrite()
      ensures refusal == Some(TotalBudget) ==> old(traceCount) >= settings.MaxTotal()
      ensures refusal == Some(RuntimeBudget) ==> overtime
      ensures traceCount == old(traceCount) + (if refusal.None? then 1 else 0)
      ensures settings.Enabled() && refusal.None? ==>
                && hashes == old(hashes) + [DedupeKey(spec.name, args, hashArgs)]
                && writeCount == old(writeCount) + (if IsWrite(spec) then 1 else 0)
      ensures !settings.Enabled() || refusal.Some? ==> hashes == old(hashes) && writeCount == old(writeCount)
    {
      refusal := None;
      if settings.Enabled() {
        var key := DedupeKey(spec.name, args, hashArgs);
        if traceCount >= settings.MaxTotal() { return Some(TotalBudget); }
        if overtime { return Some(RuntimeBudget); }
        if IsWrite(spec) && writeCount >= settings.MaxWrite() { return Some(WriteBudget); }
        if key in hashes { return Some(DuplicateCall); }
        hashes := hashes + [key];
        if IsWrite(spec) { writeCount := writeCount + 1; }
      }
      traceCount := traceCount + 1;
    }

    predicate Known(t: string)
      reads this`runtimeRefs
    {
      InMessage(message, t) || AmongRefs(snapshotRefs, t) || AmongRefs(runtimeRefs, t)
    }

    /** The turn knows exactly the targets grounded in the message, the snapshot, the given references or an earlier answer. */
    lemma KnownIffGrounded(t: string)
      requires RefsInv(history, runtimeRefs, initialRefs)
      ensures Known(t) <==> Grounded(history, |history|, t, message, snapshotRefs, initialRefs)
    {
      if AmongRefs(runtimeRefs, t) {
        RuntimeRefsAreGrounded(history, runtimeRefs, t, message, snapshotRefs, initialRefs);
      }
      if j :| 0 <= j < |history| && AnsweredWith(history[j], t) {
        var r :| IsRefOf(history[j].result.value, r) && Strip(r) != "" && SameRef(r, t);
        assert r in runtimeRefs;
      }
    }

    /** `_enforce_write_target_grounding`: the identifier targets that are known from nowhere. */
    method UngroundedTargets(spec: ToolSpec, args: Args) returns (ungrounded: seq<string>)
      ensures forall t :: t in ungrounded <==> spec.idempotency == NonIdempotent && IsTarget(spec, args, t) && !Known(t)
      ensures NoDuplicates(ungrounded)
    {
      ungrounded := [];
      if spec.idempotency != NonIdempotent { return; }
      var fields := spec.identifierFields;
      for i := 0 to |fields|
        invariant forall t :: t in ungrounded <==> IsTarget(spec.(identifierFields := fields[..i]), args, t) && !Known(t)
        invariant NoDuplicates(ungrounded)
      {
        assert fields[..i + 1] == fields[..i] + [fields[i]];
        if fields[i] in args && Strip(args[fields[i]]) != "" {
          var token := CanonicalRef(Strip(args[fields[i]]));
          if token !in ungrounded && !Known(token) {
            ungrounded := ungrounded + [token];
          }
        }
      }
      assert fields[..|fields|] == fields;
    }

    function Operation(spec: ToolSpec, args: Args): OpPayload {
      OpPayload(spec.name, runId, sessionKey, scopeHash, hashArgs(Digestible(args)))
    }

    /** The argument dictionary a write tool runs with: its operation id is the derived one, whatever was passed. */
    function WithOperationId(spec: ToolSpec, args: Args): Args {
      Digestible(args)[OPERATION_ID := "auto-" + replay.hashOp(Operation(spec, args))]
    }

    /** A write tool gets its prepared arguments, and as operation id the digest of the call in this run, session and scope. */
    lemma OperationIdDerived(spec: ToolSpec, args: Args)
      ensures var w, digest := WithOperationId(spec, args), hashArgs(map f | f in args && f != "operation_id" :: args[f]);
              && SameArgs(w, args) && OPERATION_ID in w
              && w[OPERATION_ID] == "auto-" + replay.hashOp(OpPayload(spec.name, runId, sessionKey, scopeHash, digest))
    {
      assert Digestible(args) == map f | f in args && f != "operation_id" :: args[f];
    }

    /** An operation id in the arguments changes neither the guard's key nor the cache's id nor what the tool gets. */
    lemma SuppliedIdIgnored(spec: ToolSpec, args: Args, id: string)
      ensures DedupeKey(spec.name, args[OPERATION_ID := id], hashArgs) == DedupeKey(spec.name, args, hashArgs)
      ensures Operation(spec, args[OPERATION_ID := id]) == Operation(spec, args)
      ensures WithOperationId(spec, args[OPERATION_ID := id]) == WithOperationId(spec, args)
    {
      assert Digestible(args[OPERATION_ID := id]) == Digestible(args);
    }

    /** Whether an admitted call gets as far as its tool at time `now`. */
    ghost predicate Runnable(c: CallInput, now: int)
      reads this`runtimeRefs, replay
    {
      c.permitted && c.prepared.Some?
      && (c.spec.idempotency == NonIdempotent ==>
            && (forall t | IsTarget(c.spec, c.prepared.value, t) :: Known(t))
            && (c.guardOk || c.degradedAllowed)
            && !(c.readOk && replay.Live(Operation(c.spec, c.prepared.value), now)))
    }

    /** `_invoke_tool_with_permission`, for an admitted call. */
    method Invoke(c: CallInput) returns (ranWith: Option<Args>, result: Option<ToolResult>)
      requires replay.Valid() && replay.MayRecord(clock)
      modifies replay
      ensures replay.Valid() && replay.MayRecord(clock)
      ensures ranWith.Some? <==> old(Runnable(c, clock))
      ensures ranWith.Some? ==> result == Some(c.answer)
      ensures ranWith.Some? && c.spec.idempotency != NonIdempotent ==> ranWith == c.prepared && replay.log == old(replay.log)
      ensures ranWith.Some? && c.spec.idempotency == NonIdempotent ==>
                && ranWith.value == WithOperationId(c.spec, c.prepared.value)
                && (forall t | IsTarget(c.spec, c.prepared.value, t) :: Known(t))
                && replay.log == old(replay.log) + [Invocation(Operation(c.spec, c.prepared.value), clock, c.readOk,
                                                               Executed(c.answer, c.answer.ok && c.storeOk))]
      ensures ranWith.None? && result.Some? ==>
                && c.permitted && c.prepared.Some? && c.spec.idempotency == NonIdempotent
                && replay.log == old(replay.log) + [Invocation(Operation(c.spec, c.prepared.value), clock, c.readOk,
                                                               Replayed(result.value))]
      ensures c.permitted && c.prepared.Some? && c.spec.idempotency == NonIdempotent
              && (forall t | IsTarget(c.spec, c.prepared.value, t) :: Known(t)) && (c.guardOk || c.degradedAllowed) ==>
                var op := Operation(c.spec, c.prepared.value);
                c.readOk && old(replay.Live(op, clock)) && old(Matches(replay.entries[replay.hashOp(op)], op)) ==>
                  result == Some(old(replay.entries[replay.hashOp(op)].result))
    {
      if !c.permitted || c.prepared.None? { return None, None; }
      var args := c.prepared.value;
      var ungrounded := UngroundedTargets(c.spec, args);
      if ungrounded != [] {
        assert ungrounded[0] in ungrounded;
        return None, None;
      }
      if c.spec.idempotency != NonIdempotent { return Some(args), Some(c.answer); }
      var op := Operation(c.spec, args);
      var decision := replay.Lookup(op, clock, c.guardOk, c.degradedAllowed, c.readOk);
      match decision
      case Stop(Replayed(r)) => return None, Some(r);
      case Stop(_) => return None, None;
      case Run =>
        replay.Finish(op, clock, c.readOk, c.answer, c.storeOk);
        return Some(WithOperationId(c.spec, args)), Some(c.answer);
    }

    /**
     Whether an admitted call gets as far as its tool at time `now`, told from the calls before it and the log of
     the replay cache: a write needs every target grounded, a guard store that is up or may be done without, and
     no call of its id stored within the time to live that could be read.
     */
    ghost predicate ReachesTool(h: seq<CallRecord>, log: seq<Invocation>, c: CallInput, now: int) {
      c.permitted && c.prepared.Some?
      && (c.spec.idempotency == NonIdempotent ==>
            && (forall t | IsTarget(c.spec, c.prepared.value, t) :: Grounded(h, |h|, t, message, snapshotRefs, initialRefs))
            && (c.guardOk || c.degradedAllowed)
            && !(c.readOk && StoredSince(log, replay.hashOp, replay.ttl, Operation(c.spec, c.prepared.value), now)))
    }

    lemma RunnableIffReaches(c: CallInput, now: int)
      requires replay.Valid() && RefsInv(history, runtimeRefs, initialRefs)
      ensures Runnable(c, now) <==> ReachesTool(history, replay.log, c, now)
    {
      if c.prepared.Some? {
        AliveIffStoredSince(replay.log, replay.entries, replay.hashOp, replay.ttl, Operation(c.spec, c.prepared.value), now);
        forall t ensures Known(t) <==> Grounded(history, |history|, t, message, snapshotRefs, initialRefs) {
          KnownIffGrounded(t);
        }
      }
    }

    /** The arguments the tool of a prepared call gets. */
    function ToolArgs(c: CallInput): Args
      requires c.prepared.Some?
    {
      if c.spec.idempotency == NonIdempotent then WithOperationId(c.spec, c.prepared.value) else c.prepared.value
    }

    /** Whether the guard lets this call through in the present state of the turn. */
    predicate Admissible(c: CallInput)
      reads this`hashes, this`writeCount, this`traceCount
    {
      || !settings.Enabled()
      || (traceCount < settings.MaxTotal() && !c.overtime
          && (IsWrite(c.spec) ==> writeCount < settings.MaxWrite())
          && DedupeKey(c.spec.name, c.args, hashArgs) !in hashes)
    }

    /** The guard, and the invocation of a call it lets through. */
    method GuardedInvoke(c: CallInput) returns (refusal: Option<GuardError>, ranWith: Option<Args>, result: Option<ToolResult>)
      requires replay.Valid() && replay.MayRecord(clock)
      modifies this`clock, this`hashes, this`writeCount, this`traceCount, replay
      ensures replay.Valid() && replay.MayRecord(clock) && clock == old(clock) + c.delay
      ensures refusal.None? == old(Admissible(c))
      ensures refusal == Some(DuplicateCall) ==> settings.Enabled() && DedupeKey(c.spec.name, c.args, hashArgs) in old(hashes)
      ensures settings.Enabled() ==>
                && hashes == (if refusal.None? then old(hashes) + [DedupeKey(c.spec.name, c.args, hashArgs)] else old(hashes))
                && writeCount == old(writeCount) + (if refusal.None? && IsWrite(c.spec) then 1 else 0)
                && traceCount == old(traceCount) + (if refusal.None? then 1 else 0)
      ensures ranWith.Some? <==> refusal.None? && old(Runnable(c, clock + c.delay))
      ensures ranWith.Some? ==> ranWith.value == ToolArgs(c) && result == Some(c.answer)
      ensures result.Some? ==> refusal.None?
    {
      clock := clock + c.delay;
      refusal := Admit(c.spec, c.args, c.overtime);
      ranWith, result := None, None;
      if refusal.None? {
        ranWith, result := Invoke(c);
      }
    }

    /** One call; the record says what happened. */
    method Perform(c: CallInput) returns (ran: bool, result: Option<ToolResult>, ghost record: CallRecord)
      requires replay.Valid() && replay.MayRecord(clock)
      requires settings.Enabled() ==> GuardInv(history, hashes, writeCount, traceCount, attempt, settings)
      modifies this`clock, this`hashes, this`writeCount, this`traceCount, replay
      ensures replay.Valid() && replay.MayRecord(clock) && clock == old(clock) + c.delay
      ensures settings.Enabled() ==> GuardInv(history + [record], hashes, writeCount, traceCount, attempt, settings)
      ensures record.attempt == attempt && record.spec == c.spec && record.args == c.args && record.result == result
      ensures record.key == DedupeKey(c.spec.name, c.args, hashArgs)
      ensures record.Admitted() == old(Admissible(c))
      ensures record.refusal == Some(DuplicateCall) ==> settings.Enabled() && record.key in old(hashes)
      ensures ran == record.ranWith.Some?
      ensures record.ranWith.Some? <==> record.Admitted() && old(Runnable(c, clock + c.delay))
      ensures record.ranWith.Some? ==> record.ranWith.value == ToolArgs(c) && record.result == Some(c.answer)
      ensures record.result.Some? ==> record.Admitted()
    {
      var refusal, ranWith;
      refusal, ranWith, result := GuardedInvoke(c);
      ran := ranWith.Some?;
      record := CallRecord(attempt, c.spec, c.args, DedupeKey(c.spec.name, c.args, hashArgs), refusal, ranWith, result);
      if settings.Enabled() {
        GuardAppend(history, old(hashes), old(writeCount), old(traceCount), attempt, settings, record);
      }
    }

    /** The record of a call that ran with known targets only. */
    lemma RecordGrounded(c: CallInput, record: CallRecord)
      requires RefsInv(history, runtimeRefs, initialRefs) && Provenance(history, message, snapshotRefs, initialRefs)
      requires record.spec == c.spec
      requires record.ranWith.Some? && c.spec.idempotency == NonIdempotent ==>
                 && c.prepared.Some? && record.ranWith.value == WithOperationId(c.spec, c.prepared.value)
                 && forall t | IsTarget(c.spec, c.prepared.value, t) :: Known(t)
      ensures Provenance(history + [record], message, snapshotRefs, initialRefs)
    {
      if record.ranWith.Some? && c.spec.idempotency == NonIdempotent {
        TargetsGrounded(c.spec, c.prepared.value);
      }
      ProvenanceAppend(history, record, message, snapshotRefs, initialRefs);
    }

    /** The guard's lists and counters decide as the calls before tell. */
    lemma GuardTells(c: CallInput)
      requires KeysDerived(history, hashArgs)
      requires settings.Enabled() ==> GuardInv(history, hashes, writeCount, traceCount, attempt, settings)
      ensures !settings.wrapperEnabled || !settings.loopGuardEnabled || AllSeparate(hashArgs, history, c.args) ==>
                (Admissible(c) <==> LetThrough(history, attempt, c, settings))
      ensures settings.Enabled() && AllSeparate(hashArgs, history, c.args) ==>
                (DedupeKey(c.spec.name, c.args, hashArgs) in hashes ==> Repeats(history, c.spec.name, c.args))
    {
      if settings.Enabled() && AllSeparate(hashArgs, history, c.args) {
        KnownKey(history, hashes, hashArgs, c.spec.name, c.args);
      }
    }

    /**
     What the record of a call made at time `now` says, told from the calls before it and the log of the replay
     cache: whether the guard let it through, whether its tool ran, with which arguments, and its answer then.
     */
    ghost predicate Decided(h: seq<CallRecord>, log: seq<Invocation>, c: CallInput, now: int, record: CallRecord) {
      && record.spec == c.spec && record.args == c.args
      && (!settings.wrapperEnabled || !settings.loopGuardEnabled || AllSeparate(hashArgs, h, c.args) ==>
            (record.Admitted() <==> LetThrough(h, record.attempt, c, settings)))
      && (record.ranWith.Some? <==> record.Admitted() && ReachesTool(h, log, c, now))
      && (record.ranWith.Some? ==> record.ranWith == Some(ToolArgs(c)) && record.result == Some(c.answer))
    }

    /** `_run_tool_call`: one call and the references of its successful answer; `ran` says whether its tool ran. */
    method RunToolCall(c: CallInput) returns (ran: bool, ghost record: CallRecord)
      requires Valid()
      modifies this, replay
      ensures Valid() && attempt == old(attempt) && clock == old(clock) + c.delay
      ensures history == old(history) + [record] && old(runtimeRefs) <= runtimeRefs
      ensures record.attempt == attempt && ran == record.ranWith.Some?
      ensures Decided(old(history), old(replay.log), c, clock, record)
    {
      RunnableIffReaches(c, clock + c.delay);
      GuardTells(c);
      var result;
      ran, result, record := Perform(c);
      Keep(c, result, record);
    }

    /** What stays of a call: its record and the references of a successful answer. */
    method Keep(c: CallInput, result: Option<ToolResult>, ghost record: CallRecord)
      requires replay.Valid() && replay.MayRecord(clock)
      requires forall i | 0 <= i < |history| :: history[i].attempt <= attempt
      requires settings.Enabled() ==> GuardInv(history + [record], hashes, writeCount, traceCount, attempt, settings)
      requires RefsInv(history, runtimeRefs, initialRefs) && Provenance(history, message, snapshotRefs, initialRefs)
      requires KeysDerived(history, hashArgs) && DuplicatesRepeat(history, hashArgs)
      requires record.spec == c.spec && record.args == c.args && record.attempt == attempt && record.result == result
      requires record.key == DedupeKey(c.spec.name, c.args, hashArgs)
      requires record.refusal == Some(DuplicateCall) && AllSeparate(hashArgs, history, c.args) ==>
                 Repeats(history, c.spec.name, c.args)
      requires record.ranWith.Some? && c.spec.idempotency == NonIdempotent ==>
                 && c.prepared.Some? && record.ranWith.value == WithOperationId(c.spec, c.prepared.value)
                 && forall t | IsTarget(c.spec, c.prepared.value, t) :: Known(t)
      modifies this`runtimeRefs, this`history
      ensures Valid() && history == old(history) + [record] && old(runtimeRefs) <= runtimeRefs
    {
      RecordGrounded(c, record);
      AddRefs(result, record);
      DuplicatesRepeatAppend(history, record, hashArgs);
      history := history + [record];
    }

    lemma TargetsGrounded(spec: ToolSpec, args: Args)
      requires RefsInv(history, runtimeRefs, initialRefs)
      requires forall u | IsTarget(spec, args, u) :: Known(u)
      ensures forall t | IsTarget(spec, WithOperationId(spec, args), t) ::
                Grounded(history, |history|, t, message, snapshotRefs, initialRefs)
    {
      forall t | IsTarget(spec, WithOperationId(spec, args), t)
        ensures Grounded(history, |history|, t, message, snapshotRefs, initialRefs)
      {
        assert IsTarget(spec, args, t);
        if AmongRefs(runtimeRefs, t) {
          RuntimeRefsAreGrounded(history, runtimeRefs, t, message, snapshotRefs, initialRefs);
        }
      }
    }

    /** Add the references of a successful answer to the turn's references, each once. */
    method AddRefs(result: Option<ToolResult>, ghost record: CallRecord)
      requires RefsInv(history, runtimeRefs, initialRefs) && record.result == result
      modifies this`runtimeRefs
      ensures RefsInv(history + [record], runtimeRefs, initialRefs) && old(runtimeRefs) <= runtimeRefs
      ensures NoDuplicates(old(runtimeRefs)) ==> NoDuplicates(runtimeRefs)
    {
      var refs: seq<string> := [];
      if result.Some? && result.value.ok {
        refs := ExtractTargetRefs(result.value);
      }
      ghost var before := runtimeRefs;
      for i := 0 to |refs|
        invariant before <= runtimeRefs
        invariant forall r :: r in runtimeRefs <==> r in before || r in refs[..i]
        invariant NoDuplicates(before) ==> NoDuplicates(runtimeRefs)
      {
        assert refs[..i + 1] == refs[..i] + [refs[i]];
        if refs[i] !in runtimeRefs { runtimeRefs := runtimeRefs + [refs[i]]; }
      }
      RefsAppend(history, before, record, runtimeRefs, initialRefs);
    }

    /**
     `run`: the model attempts in order, until one answers or runs into the turn limit.  The history lists
     exactly the calls of the attempts made.  With the guard on, no call is admitted twice, admitted writes stay within
     the write budget over the whole turn and admitted calls within the total budget per attempt; with it off
     every call is admitted.  Either way every write that ran has grounded targets.
     */
    method Run(attempts: seq<Attempt>) returns (ok: bool, used: nat)
      requires Valid() && history == [] && attempt == 0
      modifies this, replay
      ensures Valid() && used <= |attempts|
      ensures ok <==> 0 < used <= |attempts| && attempts[used - 1].ending == Answered
      ensures used < |attempts| ==> 0 < used && attempts[used - 1].ending != FellThrough
      ensures forall a | 0 <= a < used - 1 :: attempts[a].ending == FellThrough
      ensures RecordsCalls(history, CallsMade(attempts, used))
      ensures DuplicatesRepeat(history, hashArgs)
      ensures settings.Enabled() ==>
                && DistinctAdmitted(history) && CountWrites(history) <= settings.MaxWrite()
                && CountAdmitted(history) <= used * settings.MaxTotal()
      ensures !settings.Enabled() ==> AllAdmitted(history)
      ensures Provenance(history, message, snapshotRefs, initialRefs)
    {
      ok, used := false, 0;
      var ended := false;
      while used < |attempts| && !ended
        invariant Valid() && used <= |attempts| && attempt == used
        invariant ok <==> 0 < used && attempts[used - 1].ending == Answered
        invariant ended <==> 0 < used && attempts[used - 1].ending != FellThrough
        invariant forall a | 0 <= a < used - 1 :: attempts[a].ending == FellThrough
        invariant RecordsCalls(history, CallsMade(attempts, used))
        invariant forall i | 0 <= i < |history| :: 1 <= history[i].attempt
        invariant !settings.Enabled() ==> AllAdmitted(history)
        decreases |attempts| - used
      {
        StartAttempt();
        RunAttempt(attempts[used].calls, CallsMade(attempts, used));
        ok, ended := attempts[used].ending == Answered, attempts[used].ending != FellThrough;
        used := used + 1;
      }
      if settings.Enabled() {
        TurnBudget(history, used, settings.MaxTotal());
      }
    }

    /** One of the calls of an attempt. */
    method RecordCall(c: CallInput, ghost earlier: seq<CallInput>)
      requires Valid() && RecordsCalls(history, earlier) && attempt >= 1
      requires forall k | 0 <= k < |history| :: 1 <= history[k].attempt
      requires !settings.Enabled() ==> AllAdmitted(history)
      modifies this, replay
      ensures Valid() && attempt == old(attempt) && RecordsCalls(history, earlier + [c])
      ensures forall k | 0 <= k < |history| :: 1 <= history[k].attempt
      ensures !settings.Enabled() ==> AllAdmitted(history)
    {
      ghost var before := history;
      var _, _ := RunToolCall(c);
      RecordsAppend(before, earlier, history, c);
    }

    /** The calls of one attempt, one after the other. */
    method RunAttempt(calls: seq<CallInput>, ghost earlier: seq<CallInput>)
      requires Valid() && RecordsCalls(history, earlier) && attempt >= 1
      requires forall i | 0 <= i < |history| :: 1 <= history[i].attempt
      requires !settings.Enabled() ==> AllAdmitted(history)
      modifies this, replay
      ensures Valid() && RecordsCalls(history, earlier + calls) && attempt == old(attempt)
      ensures forall i | 0 <= i < |history| :: 1 <= history[i].attempt
      ensures !settings.Enabled() ==> AllAdmitted(history)
    {
      assert earlier + calls[..0] == earlier;
      for i := 0 to |calls|
        invariant Valid() && attempt == old(attempt) && RecordsCalls(history, earlier + calls[..i])
        invariant forall k | 0 <= k < |history| :: 1 <= history[k].attempt
        invariant !settings.Enabled() ==> AllAdmitted(history)
      {
        RecordCall(calls[i], earlier + calls[..i]);
        assert earlier + calls[..i + 1] == earlier + calls[..i] + [calls[i]];
      }
      assert calls[..|calls|] == calls;
    }
  }

  ghost predicate AllAdmitted(h: seq<CallRecord>) { forall i | 0 <= i < |h| :: h[i].Admitted() }

  /** The calls of the first `n` attempts. */
  function CallsMade(attempts: seq<Attempt>, n: nat): seq<CallInput>
    requires n <= |attempts|
  {
    if n == 0 then [] else CallsMade(attempts, n - 1) + attempts[n - 1].calls
  }

  ghost predicate RecordsCall(r: CallRecord, c: CallInput) { r.spec == c.spec && r.args == c.args }

  ghost predicate RecordsCalls(h: seq<CallRecord>, calls: seq<CallInput>) {
    |h| == |calls| && forall i | 0 <= i < |h| :: RecordsCall(h[i], calls[i])
  }

  lemma RecordsAppend(before: seq<CallRecord>, calls: seq<CallInput>, after: seq<CallRecord>, c: CallInput)
    requires RecordsCalls(before, calls)
    requires |after| == |before| + 1 && after[..|before|] == before && RecordsCall(after[|before|], c)
    ensures RecordsCalls(after, calls + [c])
  {
    assert forall i | 0 <= i < |before| :: after[i] == after[..|before|][i];
  }

  lemma RefsAppend(h: seq<CallRecord>, before: seq<string>, c: CallRecord, after: seq<string>, initial: seq<string>)
    requires RefsInv(h, before, initial) && before <= after
    requires forall r :: r in after <==> r in before || (Succeeded(c) && IsRefOf(c.result.value, r))
    ensures RefsInv(h + [c], after, initial)
  {
    var next := h + [c];
    forall r | r in after && r !in initial
      ensures exists j | 0 <= j < |next| :: Succeeded(next[j]) && IsRefOf(next[j].result.value, r)
    {
      if r in before {
        var j :| 0 <= j < |h| && Succeeded(h[j]) && IsRefOf(h[j].result.value, r);
        assert next[j] == h[j];
      } else {
        assert next[|h|] == c;
      }
    }
  }
}
