/**
 * Deterministic iteration over integer-keyed collections. Go ranges over a
 * map in an unspecified order; this model fixes ascending key order.
 */
module Keys {

  /** Strictly ascending, hence without duplicates. */
  predicate Increasing(xs: seq<int>) {
    forall i, j :: 0 <= i < j < |xs| ==> xs[i] < xs[j]
  }

  /** Some element of a non-empty set. */
  lemma PickOne(ks: set<int>) returns (x: int)
    requires ks != {}
    ensures x in ks
  {
    assert (forall y :: y !in ks) ==> ks == {};
    x :| x in ks;
  }

  /** Every finite set of integers holding `x` has a least element. */
  lemma {:induction false} MinExists(ks: set<int>, x: int)
    requires x in ks
    ensures exists m :: m in ks && forall k :: k in ks ==> m <= k
    decreases |ks|
  {
    var rest := ks - {x};
    if rest == {} {
      assert forall k :: k in ks ==> k == x;
    } else {
      var y := PickOne(rest);
      MinExists(rest, y);
      var m :| m in rest && forall k :: k in rest ==> m <= k;
      assert forall k :: k in ks ==> k == x || k in rest;
      if x < m {
        assert forall k :: k in ks ==> x <= k;
      } else {
        assert forall k :: k in ks ==> m <= k;
      }
    }
  }

  lemma HasMin(ks: set<int>)
    requires ks != {}
    ensures exists m :: m in ks && forall k :: k in ks ==> m <= k
  {
    var x := PickOne(ks);
    MinExists(ks, x);
  }

  /** The least element of a non-empty set. */
  function MinOf(ks: set<int>): (m: int)
    requires ks != {}
    ensures m in ks
    ensures forall k :: k in ks ==> m <= k
  {
    HasMin(ks);
    var m :| m in ks && forall k :: k in ks ==> m <= k;
    m
  }

  /** The elements of `ks` in ascending order. */
  function SortedKeys(ks: set<int>): (r: seq<int>)
    ensures Increasing(r)
    ensures forall k :: k in r <==> k in ks
    ensures |r| == |ks|
    decreases |ks|
  {
    if ks == {} then []
    else
      var m := MinOf(ks);
      [m] + SortedKeys(ks - {m})
  }

  /** The elements of `xs` that satisfy `p`, in their original order. */
  function Filter(xs: seq<int>, p: int -> bool): (r: seq<int>)
    ensures forall k :: k in r <==> k in xs && p(k)
    ensures Increasing(xs) ==> Increasing(r)
    ensures |r| <= |xs|
  {
    if xs == [] then []
    else
      assert Increasing(xs) ==> Increasing(xs[1..]);
      var rest := Filter(xs[1..], p);
      if p(xs[0]) then
        var r := [xs[0]] + rest;
        assert Increasing(xs) ==> Increasing(r) by {
          if Increasing(xs) {
            forall k | k in rest
              ensures xs[0] < k
            {
              var j :| 0 <= j < |xs[1..]| && xs[1..][j] == k;
              assert xs[j + 1] == k;
            }
            forall i, j | 0 <= i < j < |r|
              ensures r[i] < r[j]
            {
              if i > 0 {
                assert r[i] == rest[i - 1] && r[j] == rest[j - 1];
              } else {
                assert r[j] == rest[j - 1] && rest[j - 1] in rest;
              }
            }
          }
        }
        r
      else rest
  }

  /** The values of `m` at the keys `ks`, position by position. */
  function ValuesAt<V>(m: map<int, V>, ks: seq<int>): (r: seq<V>)
    requires forall i :: 0 <= i < |ks| ==> ks[i] in m
    ensures |r| == |ks|
    ensures forall i :: 0 <= i < |ks| ==> r[i] == m[ks[i]]
  {
    if ks == [] then [] else [m[ks[0]]] + ValuesAt(m, ks[1..])
  }

  /** An ascending sequence has as many elements as the set of its elements. */
  lemma {:induction false} IncreasingCard(xs: seq<int>)
    requires Increasing(xs)
    ensures |set k | k in xs| == |xs|
  {
    if xs != [] {
      IncreasingCard(xs[1..]);
      assert (set k | k in xs) == {xs[0]} + (set k | k in xs[1..]);
      assert xs[0] !in (set k | k in xs[1..]);
    }
  }

  /** The keys of `m` whose values satisfy `p`. */
  function SelectedKeys<V>(m: map<int, V>, p: V -> bool): set<int> {
    set k | k in m && p(m[k])
  }

  /** The keys of `m` whose values satisfy `p`, ascending. */
  function KeysWhere<V>(m: map<int, V>, p: V -> bool): (ids: seq<int>)
    ensures Increasing(ids)
    ensures forall i :: 0 <= i < |ids| ==> ids[i] in m && p(m[ids[i]])
    ensures |ids| == |SelectedKeys(m, p)|
  {
    var ids := Filter(SortedKeys(m.Keys), k => k in m && p(m[k]));
    forall i | 0 <= i < |ids|
      ensures ids[i] in m && p(m[ids[i]])
    {
      var k := ids[i];
      assert k in ids;
    }
    SelectedCount(m, p, ids);
    ids
  }

  /** No key whose value satisfies `p` is missing from the selection. */
  lemma KeysWhereComplete<V>(m: map<int, V>, p: V -> bool, k: int)
    requires k in m && p(m[k])
    ensures k in KeysWhere(m, p)
  {
  }

  /** An ascending list of exactly the selected keys is as long as the set of them. */
  lemma SelectedCount<V>(m: map<int, V>, p: V -> bool, ids: seq<int>)
    requires Increasing(ids)
    requires forall i :: 0 <= i < |ids| ==> ids[i] in m && p(m[ids[i]])
    requires forall k :: k in m && p(m[k]) ==> k in ids
    ensures |ids| == |SelectedKeys(m, p)|
  {
    var listed := set k | k in ids;
    var selected := SelectedKeys(m, p);
    forall k | k in listed
      ensures k in selected
    {
      var i :| 0 <= i < |ids| && ids[i] == k;
      assert k in m && p(m[k]);
    }
    forall k | k in selected
      ensures k in listed
    {
      assert k in m && p(m[k]);
      assert k in ids;
    }
    assert listed == selected;
    IncreasingCard(ids);
  }

  /** The values of `m` that satisfy `p`, in ascending key order. */
  function ValuesWhere<V(==)>(m: map<int, V>, p: V -> bool): (r: seq<V>)
    ensures |r| == |KeysWhere(m, p)|
    ensures forall i :: 0 <= i < |r| ==> r[i] == m[KeysWhere(m, p)[i]]
    ensures forall i :: 0 <= i < |r| ==> p(r[i])
  {
    ValuesAt(m, KeysWhere(m, p))
  }

  /** No value that satisfies `p` is missing from the selection. */
  lemma ValuesWhereComplete<V>(m: map<int, V>, p: V -> bool, k: int)
    requires k in m && p(m[k])
    ensures m[k] in ValuesWhere(m, p)
  {
    var ids := KeysWhere(m, p);
    var r := ValuesWhere(m, p);
    KeysWhereComplete(m, p, k);
    var i :| 0 <= i < |ids| && ids[i] == k;
    assert r[i] == m[k];
  }
}
