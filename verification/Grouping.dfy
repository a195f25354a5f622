/** Grouping by a string key in order of first appearance, as a Python dictionary of lists does it. */
module Grouping {

  datatype Group<T> = Group(key: string, members: seq<T>)

  /** `groups.setdefault(key, []).append(x)`. */
  function Add<T>(groups: seq<Group<T>>, key: string, x: T): (r: seq<Group<T>>)
    ensures |groups| <= |r| <= |groups| + 1
    ensures forall i | 0 <= i < |groups| :: r[i].key == groups[i].key
    ensures |r| > |groups| <==> forall i | 0 <= i < |groups| :: groups[i].key != key
    ensures |r| > |groups| ==> r[|groups|] == Group(key, [x])
  {
    if groups == [] then [Group(key, [x])]
    else if groups[0].key == key then [Group(key, groups[0].members + [x])] + groups[1..]
    else [groups[0]] + Add(groups[1..], key, x)
  }

  predicate DistinctKeys<T>(groups: seq<Group<T>>) { forall i, j | 0 <= i < j < |groups| :: groups[i].key != groups[j].key }

  predicate InGroup<T(==)>(groups: seq<Group<T>>, key: string, x: T) {
    exists i | 0 <= i < |groups| :: groups[i].key == key && x in groups[i].members
  }

  /** Sum of the sizes of the groups whose key satisfies `p`. */
  function SizeWhere<T>(groups: seq<Group<T>>, p: string -> bool): nat {
    if groups == [] then 0 else (if p(groups[0].key) then |groups[0].members| else 0) + SizeWhere(groups[1..], p)
  }

  lemma {:induction false} SizeAfterAdd<T>(groups: seq<Group<T>>, key: string, x: T, p: string -> bool)
    ensures SizeWhere(Add(groups, key, x), p) == SizeWhere(groups, p) + (if p(key) then 1 else 0)
  {
    if groups != [] {
      if groups[0].key == key {
        assert Add(groups, key, x)[1..] == groups[1..];
      } else {
        SizeAfterAdd(groups[1..], key, x, p);
        assert Add(groups, key, x)[1..] == Add(groups[1..], key, x);
      }
    }
  }

  lemma {:induction false} SizeFront<T>(groups: seq<Group<T>>, n: nat, p: string -> bool)
    requires n < |groups|
    ensures SizeWhere(groups[..n + 1], p) == SizeWhere(groups[..n], p) + (if p(groups[n].key) then |groups[n].members| else 0)
    decreases n
  {
    if n > 0 {
      SizeFront(groups[1..], n - 1, p);
      assert groups[..n + 1][1..] == groups[1..][..n] && groups[..n][1..] == groups[1..][..n - 1];
    } else {
      assert groups[..1][1..] == [] && groups[..0] == [];
    }
  }

  lemma {:induction false} MembersAfterAdd<T>(groups: seq<Group<T>>, key: string, x: T, k: string, y: T)
    requires DistinctKeys(groups)
    ensures DistinctKeys(Add(groups, key, x))
    ensures InGroup(Add(groups, key, x), k, y) <==> InGroup(groups, k, y) || (k == key && y == x)
  {
    var r := Add(groups, key, x);
    if groups == [] {
      assert r[0] == Group(key, [x]);
    } else {
      InGroupCons(groups, k, y);
      InGroupCons(r, k, y);
      if groups[0].key == key {
        assert r[1..] == groups[1..];
      } else {
        assert DistinctKeys(groups[1..]);
        MembersAfterAdd(groups[1..], key, x, k, y);
        assert r[1..] == Add(groups[1..], key, x);
      }
    }
  }

  lemma InGroupCons<T>(groups: seq<Group<T>>, k: string, y: T)
    requires groups != []
    ensures InGroup(groups, k, y) <==> (groups[0].key == k && y in groups[0].members) || InGroup(groups[1..], k, y)
  {
    if InGroup(groups, k, y) {
      var i :| 0 <= i < |groups| && groups[i].key == k && y in groups[i].members;
      if i > 0 { assert groups[1..][i - 1] == groups[i]; }
    }
    if InGroup(groups[1..], k, y) {
      var i :| 0 <= i < |groups[1..]| && groups[1..][i].key == k && y in groups[1..][i].members;
      assert groups[i + 1] == groups[1..][i];
    }
  }
}
