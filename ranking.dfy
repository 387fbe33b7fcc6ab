/** Ordering queries: the `k` records with the largest sort key, largest
    first, as an `orderBy … desc` with `take: k` returns them. Records with
    equal keys may come in any order. */
module Ranking {
  /** Every finite non-empty set has an element with the largest key. */
  lemma {:induction false} MaxExists(ids: set<nat>, key: nat -> int)
    requires ids != {}
    ensures exists m :: m in ids && forall y :: y in ids ==> key(y) <= key(m)
    decreases |ids|
  {
    var x :| x in ids;
    if ids != {x} {
      var rest := ids - {x};
      MaxExists(rest, key);
      var m :| m in rest && forall y :: y in rest ==> key(y) <= key(m);
      if key(x) > key(m) {
        assert forall y :: y in ids ==> key(y) <= key(x);
      } else {
        assert forall y :: y in ids ==> key(y) <= key(m);
      }
    } else {
      assert forall y :: y in ids ==> y == x;
    }
  }

  /** `r` lists `k` elements of `ids` (all of them when there are fewer),
      each once, by non-increasing key, and no element left out has a
      larger key than one listed. */
  ghost predicate IsTop(ids: set<nat>, key: nat -> int, k: nat, r: seq<nat>) {
    && |r| == (if |ids| < k then |ids| else k)
    && (forall i :: 0 <= i < |r| ==> r[i] in ids)
    && (forall i, j :: 0 <= i < j < |r| ==> r[i] != r[j])
    && (forall i, j :: 0 <= i < j < |r| ==> key(r[j]) <= key(r[i]))
    && (forall i, y :: 0 <= i < |r| && y in ids && y !in r ==> key(y) <= key(r[i]))
  }

  /** The `k` elements of `ids` with the largest keys, largest first. */
  ghost function Top(ids: set<nat>, key: nat -> int, k: nat): (r: seq<nat>)
    ensures IsTop(ids, key, k, r)
    decreases k
  {
    if k == 0 || ids == {} then []
    else
      MaxExists(ids, key);
      var m :| m in ids && forall y :: y in ids ==> key(y) <= key(m);
      var rest := Top(ids - {m}, key, k - 1);
      TopStep(ids, key, k, m, rest);
      [m] + rest
  }

  /** The element with the largest key, then the top of the others. */
  lemma TopStep(ids: set<nat>, key: nat -> int, k: nat, m: nat, rest: seq<nat>)
    requires k > 0 && m in ids && forall y :: y in ids ==> key(y) <= key(m)
    requires IsTop(ids - {m}, key, k - 1, rest)
    ensures IsTop(ids, key, k, [m] + rest)
  {
    assert |ids - {m}| == |ids| - 1;
    ConsMembers(ids, m, rest);
    ConsDistinct(ids, m, rest);
    ConsOrdered(key, m, rest);
    ConsLeftOut(ids, key, m, rest);
  }

  lemma ConsMembers(ids: set<nat>, m: nat, rest: seq<nat>)
    requires m in ids && forall i :: 0 <= i < |rest| ==> rest[i] in ids - {m}
    ensures forall i :: 0 <= i < |[m] + rest| ==> ([m] + rest)[i] in ids
  {
    forall i | 0 <= i < |[m] + rest|
      ensures ([m] + rest)[i] in ids
    {
      if i > 0 {
        assert ([m] + rest)[i] == rest[i - 1];
      }
    }
  }

  lemma ConsDistinct(ids: set<nat>, m: nat, rest: seq<nat>)
    requires forall i :: 0 <= i < |rest| ==> rest[i] in ids - {m}
    requires forall i, j :: 0 <= i < j < |rest| ==> rest[i] != rest[j]
    ensures forall i, j :: 0 <= i < j < |[m] + rest| ==> ([m] + rest)[i] != ([m] + rest)[j]
  {
    var r := [m] + rest;
    forall i, j | 0 <= i < j < |r|
      ensures r[i] != r[j]
    {
      assert r[j] == rest[j - 1];
      if i > 0 {
        assert r[i] == rest[i - 1];
      } else {
        assert rest[j - 1] in ids - {m};
      }
    }
  }

  lemma ConsOrdered(key: nat -> int, m: nat, rest: seq<nat>)
    requires forall i :: 0 <= i < |rest| ==> key(rest[i]) <= key(m)
    requires forall i, j :: 0 <= i < j < |rest| ==> key(rest[j]) <= key(rest[i])
    ensures forall i, j :: 0 <= i < j < |[m] + rest| ==> key(([m] + rest)[j]) <= key(([m] + rest)[i])
  {
    var r := [m] + rest;
    forall i, j | 0 <= i < j < |r|
      ensures key(r[j]) <= key(r[i])
    {
      assert r[j] == rest[j - 1];
      if i > 0 {
        assert r[i] == rest[i - 1];
      }
    }
  }

  lemma ConsLeftOut(ids: set<nat>, key: nat -> int, m: nat, rest: seq<nat>)
    requires m in ids && forall y :: y in ids ==> key(y) <= key(m)
    requires forall i, y :: 0 <= i < |rest| && y in ids - {m} && y !in rest ==> key(y) <= key(rest[i])
    ensures forall i, y :: 0 <= i < |[m] + rest| && y in ids && y !in [m] + rest ==> key(y) <= key(([m] + rest)[i])
  {
    var r := [m] + rest;
    forall i, y | 0 <= i < |r| && y in ids && y !in r
      ensures key(y) <= key(r[i])
    {
      if i > 0 {
        assert r[i] == rest[i - 1];
        assert y in ids - {m} && y !in rest;
      }
    }
  }

  /** Taking every element lists each element of `ids` exactly once. */
  lemma TopOfAllIsAll(ids: set<nat>, key: nat -> int, r: seq<nat>)
    requires IsTop(ids, key, |ids|, r)
    ensures forall y :: y in ids <==> y in r
    ensures |r| == |ids|
  {
    var listed := set i | 0 <= i < |r| :: r[i];
    assert listed <= ids;
    ListedCount(r);
    if listed != ids {
      SubsetSmaller(listed, ids);
    }
  }

  /** A sequence without repeats has as many distinct elements as entries. */
  lemma {:induction false} ListedCount(r: seq<nat>)
    requires forall i, j :: 0 <= i < j < |r| ==> r[i] != r[j]
    ensures |set i | 0 <= i < |r| :: r[i]| == |r|
    decreases |r|
  {
    if r != [] {
      var init := r[..|r| - 1];
      ListedCount(init);
      var a := set i | 0 <= i < |init| :: init[i];
      var b := set i | 0 <= i < |r| :: r[i];
      assert b == a + {r[|r| - 1]};
      assert r[|r| - 1] !in a;
    }
  }

  lemma SubsetSmaller(a: set<nat>, b: set<nat>)
    requires a <= b && a != b
    ensures |a| < |b|
  {
    var x :| x in b && x !in a;
    SubsetNotLarger(a, b - {x});
  }

  lemma {:induction false} SubsetNotLarger(a: set<nat>, b: set<nat>)
    requires a <= b
    ensures |a| <= |b|
    decreases |a|
  {
    if a != {} {
      var y :| y in a;
      SubsetNotLarger(a - {y}, b - {y});
    }
  }
}
