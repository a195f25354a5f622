/**
 The one-time rewrite of legacy display keys (`ACT-n`, `AI-n`, any case) of one project to `ACTION-n`, over the
 keys in scan order.
 */
module KeyMigration {
  import opened Options
  import opened Text
  import opened DisplayKeys

  // ---------------------------------------------------------------------------
  // The shape of a legacy key
  // ---------------------------------------------------------------------------

  predicate AllDigits(s: string) { s != "" && forall i | 0 <= i < |s| :: IsDigit(s[i]) }

  /** The digits of a legacy key: a match of `^(?:ACT|AI)-(\d+)$`, ignoring case, on the stripped key. */
  function LegacyDigits(key: string): (d: Option<string>)
    ensures d.Some? ==> AllDigits(d.value)
  {
    var s := Strip(key);
    if |s| > 4 && Upper(s[..4]) == "ACT-" && AllDigits(s[4..]) then Some(s[4..])
    else if |s| > 3 && Upper(s[..3]) == "AI-" && AllDigits(s[3..]) then Some(s[3..])
    else None
  }

  /** The new key of a legacy one; leading zeros stay as they are. */
  function LegacyTarget(key: string): Option<string> {
    match LegacyDigits(key)
    case Some(digits) => Some("ACTION-" + digits)
    case None => None
  }

  /** The stripped key is a prefix in any case, a dash and these digits. */
  predicate LegacyShape(key: string, prefix: string, digits: string) {
    Strip(key) == prefix + "-" + digits && (Upper(prefix) == "ACT" || Upper(prefix) == "AI") && AllDigits(digits)
  }

  /** Exactly the keys of that shape are legacy ones, each with its own digits. */
  lemma LegacyIffShape(key: string, digits: string)
    ensures LegacyTarget(key) == Some("ACTION-" + digits) <==> exists prefix :: LegacyShape(key, prefix, digits)
  {
    var s := Strip(key);
    if LegacyTarget(key) == Some("ACTION-" + digits) {
      assert LegacyDigits(key).value == ("ACTION-" + LegacyDigits(key).value)[7..] == ("ACTION-" + digits)[7..] == digits;
      var n := |s| - |digits| - 1;
      LegacyPrefix(s, n, digits);
      assert LegacyShape(key, s[..n], digits);
    }
    if prefix :| LegacyShape(key, prefix, digits) { ShapeHasDigits(key, prefix, digits); }
  }

  lemma LegacyPrefix(s: string, n: int, digits: string)
    requires n == |s| - |digits| - 1 && AllDigits(digits)
    requires (|s| > 4 && Upper(s[..4]) == "ACT-" && s[4..] == digits) || (|s| > 3 && Upper(s[..3]) == "AI-" && s[3..] == digits)
    ensures n >= 0 && s == s[..n] + "-" + digits && (Upper(s[..n]) == "ACT" || Upper(s[..n]) == "AI")
  {
    var up := Upper(s[..n + 1]);
    assert up[n] == '-' && s[n] == '-';
    assert s[..n + 1] == s[..n] + "-" && s == s[..n + 1] + digits;
    assert Upper(s[..n]) == up[..n];
  }

  lemma ShapeHasDigits(key: string, prefix: string, digits: string)
    requires LegacyShape(key, prefix, digits)
    ensures LegacyDigits(key) == Some(digits)
  {
    var s, n := Strip(key), |prefix|;
    assert |Upper(prefix)| == n;
    assert s[n + 1..] == digits && s[..n] == prefix && s[n] == '-';
    assert Upper(s[..n + 1]) == Upper(prefix) + "-";
    if n == 2 && |s| > 4 { assert Upper(s[..4])[1] == UpperChar(s[1]) == Upper(prefix)[1] == 'I'; }
  }

  /** How keys are to be renamed: nothing, or the new key. */
  type Rule = string -> Option<string>

  /** A new key is not renamed again. */
  ghost predicate Settles(rule: Rule) { forall k :: rule(k).Some? ==> rule(rule(k).value).None? }

  lemma ActionKeyNotLegacy(digits: string)
    requires AllDigits(digits)
    ensures LegacyTarget("ACTION-" + digits).None?
  {
    var t := "ACTION-" + digits;
    assert !IsSpace(t[0]) && !IsSpace(t[|t| - 1]);
    assert Strip(t) == t;
    assert t[..4] == "ACTI" && t[..3] == "ACT";
    assert Upper("ACTI")[3] == 'I' && Upper("ACT")[1] == 'C';
  }

  /** The rule of the migration never applies to its own results. */
  lemma LegacyRuleSettles()
    ensures Settles(LegacyTarget)
  {
    forall k | LegacyTarget(k).Some? ensures LegacyTarget(LegacyTarget(k).value).None? {
      ActionKeyNotLegacy(LegacyDigits(k).value);
    }
  }

  // ---------------------------------------------------------------------------
  // The scan
  // ---------------------------------------------------------------------------

  predicate Taken(ks: seq<string>, i: nat, key: string) { exists j | 0 <= j < |ks| && j != i :: ks[j] == key }

  /** One document of the scan, in apply mode. */
  function StepAt(rule: Rule, ks: seq<string>, i: nat): (r: seq<string>)
    requires i < |ks|
    ensures |r| == |ks|
  {
    if rule(ks[i]).Some? && !Taken(ks, i, rule(ks[i]).value) then ks[i := rule(ks[i]).value] else ks
  }

  /** The keys after the first `n` documents. */
  function MigratedTo(rule: Rule, ks: seq<string>, n: nat): (r: seq<string>)
    requires n <= |ks|
    ensures |r| == |ks|
  {
    if n == 0 then ks else StepAt(rule, MigratedTo(rule, ks, n - 1), n - 1)
  }

  ghost predicate Unique(ks: seq<string>) { forall i, j | 0 <= i < j < |ks| :: ks[i] != ks[j] }

  /** Keys stay unique after every single step. */
  lemma {:induction false} UniqueAtEveryStep(rule: Rule, ks: seq<string>, n: nat)
    requires Unique(ks) && n <= |ks|
    ensures Unique(MigratedTo(rule, ks, n))
  {
    if n > 0 { UniqueAtEveryStep(rule, ks, n - 1); }
  }

  // ---------------------------------------------------------------------------
  // Which documents are rewritten
  // ---------------------------------------------------------------------------

  /** Two documents that want the same new key. */
  predicate Rivals(rule: Rule, ks: seq<string>, j: nat, i: nat)
    requires j < |ks| && i < |ks|
  {
    rule(ks[i]).Some? && rule(ks[j]) == rule(ks[i])
  }

  /** A dry run counts every legacy key whose new key nobody has. */
  predicate DryConverts(rule: Rule, ks: seq<string>, i: nat)
    requires i < |ks|
  {
    rule(ks[i]).Some? && rule(ks[i]).value !in ks
  }

  /** An applied run rewrites the first of those that share a new key. */
  predicate Converts(rule: Rule, ks: seq<string>, i: nat)
    requires i < |ks|
  {
    DryConverts(rule, ks, i) && forall j | 0 <= j < i :: !Rivals(rule, ks, j, i)
  }

  function Result(rule: Rule, ks: seq<string>, n: nat, i: nat): string
    requires n <= |ks| && i < |ks|
  {
    if i < n && Converts(rule, ks, i) then rule(ks[i]).value else ks[i]
  }

  /** Some rival before `i` was rewritten when `j` is one. */
  lemma {:induction false} FirstRival(rule: Rule, ks: seq<string>, j: nat, i: nat)
    requires j < i < |ks| && DryConverts(rule, ks, i) && Rivals(rule, ks, j, i)
    ensures exists k | 0 <= k < i :: Converts(rule, ks, k) && rule(ks[k]).value == rule(ks[i]).value
    decreases j
  {
    if k :| 0 <= k < j && Rivals(rule, ks, k, j) {
      FirstRival(rule, ks, k, i);
    } else {
      assert Converts(rule, ks, j);
    }
  }

  /** At its turn, a legacy key finds its new key taken exactly when the closed form says so. */
  lemma TakenAtTurn(rule: Rule, ks: seq<string>, i: nat, prev: seq<string>)
    requires Settles(rule) && i < |ks| == |prev| && rule(ks[i]).Some?
    requires forall k | 0 <= k < |ks| :: prev[k] == Result(rule, ks, i, k)
    ensures Converts(rule, ks, i) <==> !Taken(prev, i, rule(ks[i]).value)
  {
    var t := rule(ks[i]).value;
    assert rule(t).None?;
    if !DryConverts(rule, ks, i) {
      var j :| 0 <= j < |ks| && ks[j] == t;
      assert prev[j] == t && j != i;
    } else if j :| 0 <= j < i && Rivals(rule, ks, j, i) {
      FirstRival(rule, ks, j, i);
      var k :| 0 <= k < i && Converts(rule, ks, k) && rule(ks[k]).value == t;
      assert prev[k] == t;
    } else {
      forall k | 0 <= k < |ks| ensures prev[k] != t {
        if k < i { assert !Rivals(rule, ks, k, i); }
      }
    }
  }

  /**
   What an applied run does to each key, in terms of the keys before the run alone.  Anything that is not
   legacy-shaped, an `ACTION-n` key in particular, is never touched.
   */
  lemma {:induction false} MigratedIs(rule: Rule, ks: seq<string>, n: nat)
    requires Settles(rule) && n <= |ks|
    ensures forall i | 0 <= i < |ks| :: MigratedTo(rule, ks, n)[i] == Result(rule, ks, n, i)
    ensures forall i | 0 <= i < |ks| && !rule(ks[i]).Some? :: MigratedTo(rule, ks, n)[i] == ks[i]
  {
    if n > 0 {
      MigratedIs(rule, ks, n - 1);
      if rule(ks[n - 1]).Some? { TakenAtTurn(rule, ks, n - 1, MigratedTo(rule, ks, n - 1)); }
    }
  }

  /** A second run changes nothing, whatever the keys were at first. */
  lemma SecondRunChangesNothing(rule: Rule, ks: seq<string>, n: nat)
    requires Settles(rule) && n <= |ks|
    ensures var once := MigratedTo(rule, ks, |ks|); MigratedTo(rule, once, n) == once
  {
    var once := MigratedTo(rule, ks, |ks|);
    MigratedIs(rule, ks, |ks|);
    MigratedIs(rule, once, n);
    forall i | 0 <= i < |ks| ensures !DryConverts(rule, once, i) { StuckAfterRun(rule, ks, once, i); }
    assert forall i | 0 <= i < |ks| :: MigratedTo(rule, once, n)[i] == once[i];
  }

  /** After a run, a key that is still legacy-shaped finds its new key on another document. */
  lemma StuckAfterRun(rule: Rule, ks: seq<string>, once: seq<string>, i: nat)
    requires Settles(rule) && i < |ks| == |once| && forall k | 0 <= k < |ks| :: once[k] == Result(rule, ks, |ks|, k)
    ensures !DryConverts(rule, once, i)
  {
    if rule(once[i]).Some? {
      assert !Converts(rule, ks, i);
      var t := rule(ks[i]).value;
      assert rule(t).None?;
      if !DryConverts(rule, ks, i) {
        var j :| 0 <= j < |ks| && ks[j] == t;
        assert once[j] == t;
      } else {
        var j :| 0 <= j < i && Rivals(rule, ks, j, i);
        FirstRival(rule, ks, j, i);
        var k :| 0 <= k < i && Converts(rule, ks, k) && rule(ks[k]).value == t;
        assert once[k] == t;
      }
    }
  }

  // ---------------------------------------------------------------------------
  // The counts
  // ---------------------------------------------------------------------------

  function LegacySet(rule: Rule, ks: seq<string>, n: nat): set<nat>
    requires n <= |ks|
  {
    set i: nat | i < n && rule(ks[i]).Some?
  }

  function DrySet(rule: Rule, ks: seq<string>, n: nat): set<nat>
    requires n <= |ks|
  {
    set i: nat | i < n && DryConverts(rule, ks, i)
  }

  function ConvertSet(rule: Rule, ks: seq<string>, n: nat): set<nat>
    requires n <= |ks|
  {
    set i: nat | i < n && Converts(rule, ks, i)
  }

  /** A dry run predicts the number of rewrites exactly if no two keys it would rewrite share a new key. */
  lemma DryRunExactIff(rule: Rule, ks: seq<string>)
    ensures |DrySet(rule, ks, |ks|)| == |ConvertSet(rule, ks, |ks|)| <==>
            forall i, j | 0 <= j < i < |ks| && DryConverts(rule, ks, i) && DryConverts(rule, ks, j) :: rule(ks[i]).value != rule(ks[j]).value
    ensures |ConvertSet(rule, ks, |ks|)| <= |DrySet(rule, ks, |ks|)|
  {
    var dry, done := DrySet(rule, ks, |ks|), ConvertSet(rule, ks, |ks|);
    assert done <= dry;
    SubsetSize(done, dry);
    if i, j :| 0 <= j < i < |ks| && DryConverts(rule, ks, i) && DryConverts(rule, ks, j) && rule(ks[i]).value == rule(ks[j]).value {
      assert Rivals(rule, ks, j, i) && i in dry && i !in done;
    } else {
      forall i | i in dry ensures i in done {
        forall j | 0 <= j < i ensures !Rivals(rule, ks, j, i) {
          assert !DryConverts(rule, ks, j) || rule(ks[j]) != rule(ks[i]);
        }
      }
      assert dry == done;
    }
  }

  lemma SubsetSize<T>(a: set<T>, b: set<T>)
    requires a <= b
    ensures |a| <= |b| && (|a| == |b| <==> a == b)
  {
    assert b == a + (b - a);
  }

  lemma CountStep(rule: Rule, ks: seq<string>, n: nat)
    requires n < |ks|
    ensures LegacySet(rule, ks, n + 1) == LegacySet(rule, ks, n) + (if rule(ks[n]).Some? then {n} else {})
    ensures DrySet(rule, ks, n + 1) == DrySet(rule, ks, n) + (if DryConverts(rule, ks, n) then {n} else {})
    ensures ConvertSet(rule, ks, n + 1) == ConvertSet(rule, ks, n) + (if Converts(rule, ks, n) then {n} else {})
  {}

  /** Whether another document holds `key`. */
  method FindConflict(keys: array<string>, i: nat, key: string) returns (conflict: bool)
    requires i < keys.Length
    ensures conflict <==> Taken(keys[..], i, key)
  {
    conflict := false;
    for j := 0 to keys.Length
      invariant conflict ==> Taken(keys[..], i, key)
      invariant !conflict ==> forall k | 0 <= k < j && k != i :: keys[..][k] != key
    {
      if j != i && keys[j] == key { conflict := true; }
    }
  }

  /** Without rewriting, an occupied new key is one found among the keys as they are. */
  lemma TakenInDryRun(rule: Rule, ks: seq<string>, i: nat)
    requires Settles(rule) && i < |ks| && rule(ks[i]).Some?
    ensures Taken(ks, i, rule(ks[i]).value) <==> !DryConverts(rule, ks, i)
  {
    assert rule(rule(ks[i]).value).None?;
  }

  /** The scan, renaming the keys in place when `apply` is set. */
  method RenameKeys(rule: Rule, keys: array<string>, apply: bool) returns (scanned: nat, updated: nat, conflicts: nat)
    requires Settles(rule)
    modifies keys
    ensures scanned == keys.Length
    ensures keys[..] == if apply then MigratedTo(rule, old(keys[..]), keys.Length) else old(keys[..])
    ensures updated == if apply then |ConvertSet(rule, old(keys[..]), keys.Length)| else |DrySet(rule, old(keys[..]), keys.Length)|
    ensures updated + conflicts == |LegacySet(rule, old(keys[..]), keys.Length)|
  {
    ghost var ks := keys[..];
    scanned, updated, conflicts := 0, 0, 0;
    for i := 0 to keys.Length
      invariant scanned == i
      invariant keys[..] == if apply then MigratedTo(rule, ks, i) else ks
      invariant updated == if apply then |ConvertSet(rule, ks, i)| else |DrySet(rule, ks, i)|
      invariant updated + conflicts == |LegacySet(rule, ks, i)|
    {
      MigratedIs(rule, ks, i);
      CountStep(rule, ks, i);
      ghost var before := keys[..];
      assert before[i] == ks[i];
      scanned := scanned + 1;
      var target := rule(keys[i]);
      if target.Some? {
        if apply { TakenAtTurn(rule, ks, i, before); } else { TakenInDryRun(rule, ks, i); }
        var conflict := FindConflict(keys, i, target.value);
        if conflict {
          conflicts := conflicts + 1;
        } else {
          if apply { keys[i] := target.value; }
          updated := updated + 1;
        }
      }
    }
  }

  /** `_run` on one project's keys. */
  method MigrateKeys(keys: array<string>, apply: bool) returns (scanned: nat, updated: nat, conflicts: nat)
    modifies keys
    ensures keys[..] == if apply then MigratedTo(LegacyTarget, old(keys[..]), keys.Length) else old(keys[..])
    ensures scanned == keys.Length && updated + conflicts == |LegacySet(LegacyTarget, old(keys[..]), keys.Length)|
    ensures updated == if apply then |ConvertSet(LegacyTarget, old(keys[..]), keys.Length)|
                       else |DrySet(LegacyTarget, old(keys[..]), keys.Length)|
    ensures old(Unique(keys[..])) ==> Unique(keys[..])
    ensures forall i | 0 <= i < keys.Length && LegacyTarget(old(keys[..])[i]).None? :: keys[i] == old(keys[..])[i]
  {
    LegacyRuleSettles();
    MigratedIs(LegacyTarget, keys[..], keys.Length);
    if Unique(keys[..]) { UniqueAtEveryStep(LegacyTarget, keys[..], keys.Length); }
    scanned, updated, conflicts := RenameKeys(LegacyTarget, keys, apply);
  }
}
