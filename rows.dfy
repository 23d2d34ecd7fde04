/**
 * The two list updates the owner-side tables apply after a store write:
 * replacing the entries with an id, and filtering them out.
 */
module Rows {
  /** No two entries share a key. */
  predicate UniqueKeys<T>(rows: seq<T>, key: T -> int) {
    forall i, j :: 0 <= i < j < |rows| ==> key(rows[i]) != key(rows[j])
  }

  /** The map-by-id update: every entry whose key is `id` becomes `row`, the others stay in place. */
  function ReplaceById<T>(rows: seq<T>, key: T -> int, id: int, row: T): (after: seq<T>)
    ensures |after| == |rows|
    ensures forall i :: 0 <= i < |rows| && key(rows[i]) != id ==> after[i] == rows[i]
    ensures forall i :: 0 <= i < |rows| && key(rows[i]) == id ==> after[i] == row
  {
    seq(|rows|, i requires 0 <= i < |rows| => if key(rows[i]) == id then row else rows[i])
  }

  /** With unique keys, replacing by the key of entry `k` is writing entry `k` and nothing else. */
  lemma ReplaceOne<T>(rows: seq<T>, key: T -> int, k: int, row: T)
    requires UniqueKeys(rows, key) && 0 <= k < |rows|
    ensures ReplaceById(rows, key, key(rows[k]), row) == rows[k := row]
  {
    var after := ReplaceById(rows, key, key(rows[k]), row);
    forall i | 0 <= i < |rows| ensures after[i] == rows[k := row][i] {
      if i < k {
        assert key(rows[i]) != key(rows[k]);
      } else if k < i {
        assert key(rows[k]) != key(rows[i]);
      }
    }
  }

  /** Replacing an entry by one with the same key keeps the keys unique. */
  lemma ReplaceKeepsUnique<T>(rows: seq<T>, key: T -> int, id: int, row: T)
    requires UniqueKeys(rows, key) && key(row) == id
    ensures UniqueKeys(ReplaceById(rows, key, id, row), key)
  {
    var after := ReplaceById(rows, key, id, row);
    forall i, j | 0 <= i < j < |after| ensures key(after[i]) != key(after[j]) {
      assert key(after[i]) == key(rows[i]) && key(after[j]) == key(rows[j]);
    }
  }

  /** Appending an entry with a fresh key keeps the keys unique. */
  lemma AppendFreshKeepsUnique<T>(rows: seq<T>, key: T -> int, row: T)
    requires UniqueKeys(rows, key)
    requires forall i :: 0 <= i < |rows| ==> key(rows[i]) != key(row)
    ensures UniqueKeys(rows + [row], key)
  {
  }

  /** The filter-by-id update: the entries whose key is not `id`, in their order. */
  function RemoveById<T(!new)>(rows: seq<T>, key: T -> int, id: int): (after: seq<T>)
    ensures |after| <= |rows|
    ensures forall x :: x in after <==> x in rows && key(x) != id
  {
    if rows == [] then [] else KeepUnless(rows[0], key, id) + RemoveById(rows[1..], key, id)
  }

  /** One entry's contribution to the filter: itself unless its key is `id`. */
  function KeepUnless<T>(x: T, key: T -> int, id: int): seq<T> {
    if key(x) != id then [x] else []
  }

  /** Filtering keeps order: filtering two parts and joining them is filtering the whole. */
  lemma {:induction false} RemoveByIdAppend<T(!new)>(a: seq<T>, b: seq<T>, key: T -> int, id: int)
    ensures RemoveById(a + b, key, id) == RemoveById(a, key, id) + RemoveById(b, key, id)
    decreases |a|
  {
    if a == [] {
      assert a + b == b;
    } else {
      RemoveByIdCons(a, b, key, id);
      RemoveByIdAppend(a[1..], b, key, id);
      var head, x, y := KeepUnless(a[0], key, id), RemoveById(a[1..], key, id), RemoveById(b, key, id);
      assert head + (x + y) == (head + x) + y;
    }
  }

  lemma RemoveByIdCons<T(!new)>(a: seq<T>, b: seq<T>, key: T -> int, id: int)
    requires a != []
    ensures RemoveById(a + b, key, id) == KeepUnless(a[0], key, id) + RemoveById(a[1..] + b, key, id)
  {
    assert (a + b)[0] == a[0] && (a + b)[1..] == a[1..] + b;
  }

  /** Filtering out an id nothing carries changes nothing. */
  lemma {:induction false} RemoveAbsent<T(!new)>(rows: seq<T>, key: T -> int, id: int)
    requires forall i :: 0 <= i < |rows| ==> key(rows[i]) != id
    ensures RemoveById(rows, key, id) == rows
    decreases |rows|
  {
    if rows != [] {
      RemoveAbsent(rows[1..], key, id);
      assert [rows[0]] + rows[1..] == rows;
    }
  }

  /** Filtering keeps the keys unique. */
  lemma {:induction false} RemoveKeepsUnique<T(!new)>(rows: seq<T>, key: T -> int, id: int)
    requires UniqueKeys(rows, key)
    ensures UniqueKeys(RemoveById(rows, key, id), key)
    decreases |rows|
  {
    if rows != [] {
      RemoveKeepsUnique(rows[1..], key, id);
      var rest := RemoveById(rows[1..], key, id);
      forall j | 0 <= j < |rest| ensures key(rows[0]) != key(rest[j]) {
        assert rest[j] in rows[1..];
        var m :| 0 <= m < |rows[1..]| && rows[1..][m] == rest[j];
        assert rows[m + 1] == rest[j];
      }
    }
  }
}
