/** Key orders of JavaScript `Map`s: a `Map` iterates its keys in insertion order,
    `set` on a present key keeps that key's place, `delete` closes the gap. */
module OrderedKeys {

  /** No key occurs twice. */
  predicate Distinct<T(==)>(s: seq<T>) {
    forall i, j {:trigger Apart(s, i, j)} :: 0 <= i < j < |s| ==> Apart(s, i, j)
  }

  /** Positions `i` and `j` of `s` hold different keys. */
  predicate Apart<T(==)>(s: seq<T>, i: nat, j: nat)
    requires i < |s| && j < |s|
  {
    s[i] != s[j]
  }

  /** The key order after `Map.set(x, _)`: a new key goes last, a present key stays put. */
  function Insert<T(==)>(s: seq<T>, x: T): seq<T> {
    if x in s then s else s + [x]
  }

  /** The key order after `Map.delete(x)`: every other key keeps its relative place. */
  function Remove<T(==)>(s: seq<T>, x: T): seq<T> {
    if s == [] then []
    else if s[0] == x then Remove(s[1..], x)
    else [s[0]] + Remove(s[1..], x)
  }

  /** `set` holds exactly the old keys and the new one, keeps them distinct, changes nothing
      for a present key and appends a new one. */
  lemma InsertSpec<T>(s: seq<T>, x: T)
    ensures forall y :: y in Insert(s, x) <==> y in s || y == x
    ensures Distinct(s) ==> Distinct(Insert(s, x))
    ensures x in s ==> Insert(s, x) == s
    ensures x !in s ==> |Insert(s, x)| == |s| + 1 && Insert(s, x)[|s|] == x && Insert(s, x)[..|s|] == s
  {
    if x !in s {
      DistinctAppend(s, x);
    }
  }

  /** `delete` holds exactly the old keys but the deleted one, keeps them distinct, changes
      nothing for an absent key and shortens the order by one for a present key. */
  lemma {:induction false} RemoveSpec<T>(s: seq<T>, x: T)
    ensures forall y :: y in Remove(s, x) <==> y in s && y != x
    ensures Distinct(s) ==> Distinct(Remove(s, x))
    ensures x !in s ==> Remove(s, x) == s
    ensures Distinct(s) && x in s ==> |Remove(s, x)| == |s| - 1
  {
    if s != [] {
      RemoveSpec(s[1..], x);
      TailHasNotHead(s);
      assert s == [s[0]] + s[1..];
      if s[0] != x && Distinct(s) {
        var r := [s[0]] + Remove(s[1..], x);
        forall i, j | 0 <= i < j < |r| ensures r[i] != r[j] {
          if i == 0 { assert r[j] in Remove(s[1..], x); }
          else { assert Apart(Remove(s[1..], x), i - 1, j - 1); }
        }
      }
    }
  }

  /** After a `delete` that leaves keys, the first key is neither the deleted one nor new. */
  lemma RemoveFirst<T>(s: seq<T>, x: T)
    requires |Remove(s, x)| > 0
    ensures Remove(s, x)[0] in s && Remove(s, x)[0] != x
  {
    RemoveSpec(s, x);
    assert Remove(s, x)[0] in Remove(s, x);
  }

  /** In a repetition-free sequence the head does not recur in the tail. */
  lemma TailHasNotHead<T>(s: seq<T>)
    requires s != []
    ensures Distinct(s) ==> s[0] !in s[1..] && Distinct(s[1..])
  {
    if Distinct(s) {
      forall k | 0 <= k < |s[1..]| ensures s[1..][k] != s[0] {
        assert Apart(s, 0, k + 1);
      }
      forall i, j | 0 <= i < j < |s[1..]| ensures Apart(s[1..], i, j) {
        assert Apart(s, i + 1, j + 1);
      }
    }
  }

  /** A sequence without repetitions has as many distinct elements as it is long. */
  lemma {:induction false} DistinctCard<T>(s: seq<T>)
    requires Distinct(s)
    ensures |set x | x in s| == |s|
  {
    if s != [] {
      TailHasNotHead(s);
      DistinctCard(s[1..]);
      assert (set x | x in s) == {s[0]} + (set x | x in s[1..]);
    }
  }

  /** Two repetition-free orders, one inside the other and equally long, hold the same keys. */
  lemma SameSizeSubset<T>(a: seq<T>, b: seq<T>)
    requires Distinct(a) && Distinct(b)
    requires forall i :: 0 <= i < |a| ==> a[i] in b
    requires |a| == |b|
    ensures forall i :: 0 <= i < |b| ==> b[i] in a
  {
    DistinctCard(a);
    DistinctCard(b);
    var sa, sb := set x | x in a, set x | x in b;
    assert sa <= sb;
    var rest := sb - sa;
    assert sb == sa + rest && sa * rest == {};
    assert |rest| == 0;
    forall i | 0 <= i < |b| ensures b[i] in a {
      assert b[i] in sb && b[i] !in rest;
    }
  }

  /** Two repetition-free orders holding the same keys are equally long. */
  lemma SameKeysSameSize<T>(a: seq<T>, b: seq<T>)
    requires Distinct(a) && Distinct(b)
    requires forall i :: 0 <= i < |a| ==> a[i] in b
    requires forall i :: 0 <= i < |b| ==> b[i] in a
    ensures |a| == |b|
  {
    DistinctCard(a);
    DistinctCard(b);
    assert (set x | x in a) == (set x | x in b);
  }

  /** Appending a key keeps the order repetition-free exactly when the key is new. */
  lemma DistinctAppend<T>(a: seq<T>, x: T)
    ensures Distinct(a + [x]) <==> Distinct(a) && x !in a
  {
    var b := a + [x];
    assert forall k :: 0 <= k < |a| ==> b[k] == a[k];
    if Distinct(b) {
      forall k | 0 <= k < |a| ensures a[k] != x {
        assert Apart(b, k, |a|);
      }
      forall i, j | 0 <= i < j < |a| ensures Apart(a, i, j) {
        assert Apart(b, i, j);
      }
    }
    if Distinct(a) && x !in a {
      forall i, j | 0 <= i < j < |b| ensures Apart(b, i, j) {
        if j < |a| {
          assert Apart(a, i, j);
        }
      }
    }
  }
}
