/** Generic sequence helpers: filtering, key sets and keep-first de-duplication. */
module Seqs {

  /** The elements of `s` satisfying `p`, in order (a boolean-mask row selection). */
  function Filter<T(==)>(s: seq<T>, p: T -> bool): (r: seq<T>)
    ensures |r| <= |s|
    ensures forall i :: 0 <= i < |r| ==> r[i] in s && p(r[i])
    ensures forall i :: 0 <= i < |s| && p(s[i]) ==> s[i] in r
  {
    if |s| == 0 then []
    else (if p(s[0]) then [s[0]] else []) + Filter(s[1..], p)
  }

  lemma {:induction false} FilterAppend<T>(a: seq<T>, b: seq<T>, p: T -> bool)
    ensures Filter(a + b, p) == Filter(a, p) + Filter(b, p)
  {
    if |a| == 0 {
      assert a + b == b;
    } else {
      assert (a + b)[1..] == a[1..] + b;
      FilterAppend(a[1..], b, p);
    }
  }

  /** The set of keys occurring in `s`. */
  function KeySet<T(==), K>(s: seq<T>, key: T -> K): set<K> {
    set x | x in s :: key(x)
  }

  /** A key in the key set has a position that carries it. */
  lemma {:induction false} KeyPosition<T, K>(s: seq<T>, key: T -> K, k: K) returns (i: nat)
    requires k in KeySet(s, key)
    ensures i < |s| && key(s[i]) == k
  {
    var x :| x in s && key(x) == k;
    i :| 0 <= i < |s| && s[i] == x;
  }

  /** A row's key is in the key set. */
  lemma {:induction false} KeyAtPosition<T, K>(s: seq<T>, key: T -> K, i: nat)
    requires i < |s|
    ensures key(s[i]) in KeySet(s, key)
  {
    assert s[i] in s;
  }

  /** Two sequences whose keys agree position by position have the same key set. */
  lemma KeySetsAgree<A, B, K>(a: seq<A>, ka: A -> K, b: seq<B>, kb: B -> K)
    requires |a| == |b| && forall i :: 0 <= i < |a| ==> ka(a[i]) == kb(b[i])
    ensures KeySet(a, ka) == KeySet(b, kb)
  {
    forall k | k in KeySet(a, ka) ensures k in KeySet(b, kb) {
      var i := KeyPosition(a, ka, k);
      KeyAtPosition(b, kb, i);
    }
    forall k | k in KeySet(b, kb) ensures k in KeySet(a, ka) {
      var i := KeyPosition(b, kb, k);
      KeyAtPosition(a, ka, i);
    }
  }

  lemma KeySetConcat<T, K>(a: seq<T>, b: seq<T>, key: T -> K)
    ensures KeySet(a + b, key) == KeySet(a, key) + KeySet(b, key)
  {
    forall k | k in KeySet(a + b, key)
      ensures k in KeySet(a, key) + KeySet(b, key)
    {
      var x :| x in a + b && key(x) == k;
      assert x in a || x in b;
    }
  }

  /** No two positions of `s` share a key. */
  predicate DistinctKeys<T, K(==)>(s: seq<T>, key: T -> K) {
    forall i, j :: 0 <= i < j < |s| ==> key(s[i]) != key(s[j])
  }

  /** Keep-first de-duplication by `key`, where the keys in `seen` count as
      already taken: pandas `drop_duplicates(subset=...)` after a filter. */
  function KeepFirst<T(==), K(==)>(s: seq<T>, key: T -> K, seen: set<K>): (r: seq<T>)
    ensures forall i :: 0 <= i < |r| ==> r[i] in s && key(r[i]) !in seen
    ensures DistinctKeys(r, key)
    ensures KeySet(r, key) == KeySet(s, key) - seen
  {
    if |s| == 0 then []
    else if key(s[0]) in seen then KeepFirst(s[1..], key, seen)
    else
      var rest := KeepFirst(s[1..], key, seen + {key(s[0])});
      assert KeySet(s, key) == {key(s[0])} + KeySet(s[1..], key) by {
        assert s == [s[0]] + s[1..];
      }
      KeySetConcat([s[0]], rest, key);
      [s[0]] + rest
  }

  /** `drop_duplicates(subset=key)` with the default keep='first'. */
  function DropDuplicates<T(==), K(==)>(s: seq<T>, key: T -> K): seq<T> {
    KeepFirst(s, key, {})
  }

  /** Reference reading of keep-first de-duplication, built from the back:
      the last element survives iff its key is neither taken already nor
      carried by an earlier element. */
  function FirstOccurrences<T(==), K(==)>(s: seq<T>, key: T -> K, seen: set<K>): seq<T> {
    if |s| == 0 then []
    else
      var init := s[..|s| - 1];
      var last := s[|s| - 1];
      FirstOccurrences(init, key, seen)
        + (if key(last) in seen + KeySet(init, key) then [] else [last])
  }

  lemma {:induction false} KeepFirstSnoc<T, K>(s: seq<T>, x: T, key: T -> K, seen: set<K>)
    ensures KeepFirst(s + [x], key, seen)
         == KeepFirst(s, key, seen) + (if key(x) in seen + KeySet(s, key) then [] else [x])
  {
    if |s| == 0 {
      assert s + [x] == [x];
      assert KeySet(s, key) == {};
    } else {
      var y := s[0];
      assert (s + [x])[1..] == s[1..] + [x];
      assert KeySet(s, key) == {key(y)} + KeySet(s[1..], key) by {
        assert s == [y] + s[1..];
      }
      if key(y) in seen {
        KeepFirstSnoc(s[1..], x, key, seen);
      } else {
        KeepFirstSnoc(s[1..], x, key, seen + {key(y)});
      }
    }
  }

  /** Front-to-back keep-first agrees with the from-the-back reference. */
  lemma {:induction false} KeepFirstMatchesReference<T, K>(s: seq<T>, key: T -> K, seen: set<K>)
    ensures KeepFirst(s, key, seen) == FirstOccurrences(s, key, seen)
  {
    if |s| > 0 {
      var init := s[..|s| - 1];
      assert s == init + [s[|s| - 1]];
      KeepFirstMatchesReference(init, key, seen);
      KeepFirstSnoc(init, s[|s| - 1], key, seen);
    }
  }

  /** The rows whose key is not in `existing`, in order (duplicates kept). */
  function WithoutKeys<A(==), K(==)>(rows: seq<A>, key: A -> K, existing: set<K>): (r: seq<A>)
    ensures forall i :: 0 <= i < |r| ==> r[i] in rows && key(r[i]) !in existing
    ensures forall c :: c in rows && key(c) !in existing ==> c in r
  {
    if |rows| == 0 then []
    else
      assert forall c :: c in rows ==> c == rows[0] || c in rows[1..];
      (if key(rows[0]) in existing then [] else [rows[0]]) + WithoutKeys(rows[1..], key, existing)
  }

  /** Dropping rows by key commutes with concatenation, so the kept rows keep their order. */
  lemma {:induction false} WithoutKeysConcat<A, K>(a: seq<A>, b: seq<A>, key: A -> K, existing: set<K>)
    ensures WithoutKeys(a + b, key, existing) == WithoutKeys(a, key, existing) + WithoutKeys(b, key, existing)
  {
    if |a| == 0 {
      assert a + b == b;
    } else {
      assert (a + b)[0] == a[0];
      assert (a + b)[1..] == a[1..] + b;
      WithoutKeysConcat(a[1..], b, key, existing);
    }
  }

  /** A single row is kept exactly when its key is not in `existing`. */
  lemma WithoutKeysSingle<A, K>(x: A, key: A -> K, existing: set<K>)
    ensures WithoutKeys([x], key, existing) == if key(x) in existing then [] else [x]
  {
    assert [x][1..] == [];
  }

  /** Each row is kept as often as it occurs, or dropped every time when its key exists. */
  lemma {:induction false} WithoutKeysCount<A, K>(rows: seq<A>, key: A -> K, existing: set<K>)
    ensures forall x :: multiset(WithoutKeys(rows, key, existing))[x]
                     == if key(x) in existing then 0 else multiset(rows)[x]
  {
    if |rows| > 0 {
      WithoutKeysCount(rows[1..], key, existing);
      assert rows == [rows[0]] + rows[1..];
    }
  }

  lemma {:induction false} WithoutKeysEmpty<A, K>(rows: seq<A>, key: A -> K, existing: set<K>)
    ensures (forall c :: c in rows ==> key(c) in existing) ==> WithoutKeys(rows, key, existing) == []
  {
    if |rows| > 0 {
      assert forall c :: c in rows[1..] ==> c in rows;
      WithoutKeysEmpty(rows[1..], key, existing);
      assert rows[0] in rows;
    }
  }
}
