/** Sequences of rows: removing one, and tables kept in ascending key order. */
module Sequences {
  import opened Wrappers

  /** `s` without its element at position `i`, the others in their order. */
  function RemoveAt<T>(s: seq<T>, i: nat): (r: seq<T>)
    requires i < |s|
    ensures |r| == |s| - 1
    ensures forall k :: 0 <= k < i ==> r[k] == s[k]
    ensures forall k :: i <= k < |r| ==> r[k] == s[k + 1]
  {
    s[..i] + s[i + 1..]
  }

  /** The elements left are exactly those at the other positions. */
  lemma RemoveAtMembers<T>(s: seq<T>, i: nat)
    requires i < |s|
    ensures forall x :: x in RemoveAt(s, i) <==> exists k :: 0 <= k < |s| && k != i && s[k] == x
  {
    var r := RemoveAt(s, i);
    forall x ensures x in r <==> exists k :: 0 <= k < |s| && k != i && s[k] == x {
      if x in r {
        var k :| 0 <= k < |r| && r[k] == x;
        if k < i { assert s[k] == x; } else { assert s[k + 1] == x; }
      }
      if exists k :: 0 <= k < |s| && k != i && s[k] == x {
        var k :| 0 <= k < |s| && k != i && s[k] == x;
        if k < i { assert r[k] == x; } else { assert r[k - 1] == x; }
      }
    }
  }

  /** The keys of the elements strictly increase along the sequence. */
  predicate AscendingBy<T>(s: seq<T>, key: T -> int) {
    forall i, j :: 0 <= i < j < |s| ==> key(s[i]) < key(s[j])
  }

  /** The position of the element whose key is `k`, if there is one. */
  function IndexOfKey<T(!new)>(s: seq<T>, key: T -> int, k: int): (r: Option<nat>)
    ensures r.None? <==> forall x :: x in s ==> key(x) != k
    ensures r.Some? ==> r.value < |s| && key(s[r.value]) == k
  {
    if |s| == 0 then None
    else if key(s[|s| - 1]) == k then Some(|s| - 1)
    else
      var r := IndexOfKey(s[..|s| - 1], key, k);
      assert forall x :: x in s <==> x in s[..|s| - 1] || x == s[|s| - 1];
      r
  }

  /**
   * Removing the element at `i` from a key-ordered sequence keeps it key-ordered and
   * leaves exactly the elements with another key.
   */
  lemma RemoveKeyed<T>(s: seq<T>, key: T -> int, i: nat)
    requires i < |s| && AscendingBy(s, key)
    ensures AscendingBy(RemoveAt(s, i), key)
    ensures forall x :: x in RemoveAt(s, i) <==> x in s && key(x) != key(s[i])
  {
    var rest := RemoveAt(s, i);
    forall a, b | 0 <= a < b < |rest| ensures key(rest[a]) < key(rest[b]) {
      var a' := if a < i then a else a + 1;
      var b' := if b < i then b else b + 1;
      assert rest[a] == s[a'] && rest[b] == s[b'];
    }
    RemoveAtMembers(s, i);
    forall x | x in s && key(x) != key(s[i]) ensures x in rest {
      var k :| 0 <= k < |s| && s[k] == x;
    }
  }
}
