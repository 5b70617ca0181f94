/** `groupBy`: rows with the same key together, groups in the order their keys first appear. */
module Grouping {
  import opened Tables

  function WithKey<T, K(==)>(rows: seq<T>, keyOf: T -> K, k: K): seq<T> {
    if rows == [] then []
    else
      var last := rows[|rows| - 1];
      WithKey(rows[..|rows| - 1], keyOf, k) + if keyOf(last) == k then [last] else []
  }

  function Keys<T, K(==)>(rows: seq<T>, keyOf: T -> K): seq<K> {
    if rows == [] then []
    else
      var before, k := Keys(rows[..|rows| - 1], keyOf), keyOf(rows[|rows| - 1]);
      if k in before then before else before + [k]
  }

  /** The declarative meaning of the grouping loop. */
  function Groups<T(!new), K(==)>(rows: seq<T>, keyOf: T -> K): seq<seq<T>> {
    var keys := Keys(rows, keyOf);
    seq(|keys|, i requires 0 <= i < |keys| => WithKey(rows, keyOf, keys[i]))
  }

  method GroupBy<T(!new), K(==)>(rows: seq<T>, keyOf: T -> K) returns (groups: seq<seq<T>>)
    ensures groups == Groups(rows, keyOf)
  {
    // A JavaScript Map: its entries, and the order in which they were added.
    var order: seq<K> := [];
    var entries: map<K, seq<T>> := map[];
    for i := 0 to |rows|
      invariant order == Keys(rows[..i], keyOf)
      invariant entries.Keys == set k | k in order
      invariant forall k :: k in entries ==> entries[k] == WithKey(rows[..i], keyOf, k)
    {
      var k := keyOf(rows[i]);
      if k !in entries {
        entries := entries[k := []];
        order := order + [k];
      }
      entries := entries[k := entries[k] + [rows[i]]];
      Extend(rows, keyOf, i);
      assert entries[k] == WithKey(rows[..i + 1], keyOf, k);
      assert forall j :: j in entries && j != k ==> entries[j] == WithKey(rows[..i], keyOf, j) + [];
    }
    assert rows[..|rows|] == rows;
    groups := seq(|order|, i requires 0 <= i < |order| && order[i] in entries => entries[order[i]]);
  }

  lemma Extend<T(!new), K>(rows: seq<T>, keyOf: T -> K, i: nat)
    requires i < |rows|
    ensures var k := keyOf(rows[i]);
      && Keys(rows[..i + 1], keyOf) == Keys(rows[..i], keyOf) + (if k in Keys(rows[..i], keyOf) then [] else [k])
      && (k !in Keys(rows[..i], keyOf) ==> WithKey(rows[..i], keyOf, k) == [])
      && forall j :: WithKey(rows[..i + 1], keyOf, j) == WithKey(rows[..i], keyOf, j) + if j == k then [rows[i]] else []
  {
    assert rows[..i + 1][..i] == rows[..i];
    if keyOf(rows[i]) !in Keys(rows[..i], keyOf) {
      NoneWithKey(rows[..i], keyOf, keyOf(rows[i]));
    }
  }

  lemma {:induction false} NoneWithKey<T(!new), K>(rows: seq<T>, keyOf: T -> K, k: K)
    requires k !in Keys(rows, keyOf)
    ensures WithKey(rows, keyOf, k) == []
  {
    if rows != [] {
      NoneWithKey(rows[..|rows| - 1], keyOf, k);
    }
  }

  lemma {:induction false} WithKeyMembers<T(!new), K>(rows: seq<T>, keyOf: T -> K, k: K)
    ensures forall x :: x in WithKey(rows, keyOf, k) <==> x in rows && keyOf(x) == k
  {
    if rows != [] {
      WithKeyMembers(rows[..|rows| - 1], keyOf, k);
      assert rows == rows[..|rows| - 1] + [rows[|rows| - 1]];
    }
  }

  lemma {:induction false} KeysMembers<T(!new), K>(rows: seq<T>, keyOf: T -> K)
    ensures forall x :: x in rows ==> keyOf(x) in Keys(rows, keyOf)
    ensures forall k :: k in Keys(rows, keyOf) ==> exists x :: x in rows && keyOf(x) == k
    ensures forall i, j :: 0 <= i < j < |Keys(rows, keyOf)| ==> Keys(rows, keyOf)[i] != Keys(rows, keyOf)[j]
  {
    if rows != [] {
      var before, k := Keys(rows[..|rows| - 1], keyOf), keyOf(rows[|rows| - 1]);
      KeysMembers(rows[..|rows| - 1], keyOf);
      assert rows == rows[..|rows| - 1] + [rows[|rows| - 1]];
      if k in before {
        assert Keys(rows, keyOf) == before;
      } else {
        assert Keys(rows, keyOf) == before + [k];
      }
    }
  }

  ghost predicate Increasing<T>(rows: seq<T>, idOf: T -> Id) {
    forall i, j :: 0 <= i < j < |rows| ==> idOf(rows[i]) < idOf(rows[j])
  }

  /** A group keeps the order of the rows. */
  lemma {:induction false} WithKeyOrdered<T(!new), K>(rows: seq<T>, keyOf: T -> K, k: K, idOf: T -> Id)
    requires Increasing(rows, idOf)
    ensures Increasing(WithKey(rows, keyOf, k), idOf)
  {
    if rows != [] {
      var init, last := rows[..|rows| - 1], rows[|rows| - 1];
      WithKeyOrdered(init, keyOf, k, idOf);
      WithKeyMembers(init, keyOf, k);
      forall x | x in WithKey(init, keyOf, k) ensures idOf(x) < idOf(last) {
        var j :| 0 <= j < |init| && init[j] == x;
      }
      if keyOf(last) != k {
        assert WithKey(rows, keyOf, k) == WithKey(init, keyOf, k);
      } else {
        assert WithKey(rows, keyOf, k) == WithKey(init, keyOf, k) + [last];
      }
    }
  }
}
