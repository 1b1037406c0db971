/**
 * Deduplication by key, keeping the first item seen for each key: the loop shared by
 * `mergeAndDeduplicate` and the harvest script. `Unique` is its specification; the
 * lemmas below are the properties both call sites rely on.
 */
module Dedup {

  /** The keys of the items of `s`. */
  function KeySet<T, K>(s: seq<T>, key: T -> K): set<K> {
    set i | 0 <= i < |s| :: key(s[i])
  }

  /** No two items of `s` share a key. */
  predicate KeyDistinct<T, K(==)>(s: seq<T>, key: T -> K) {
    forall i, j :: 0 <= i < j < |s| ==> key(s[i]) != key(s[j])
  }

  /** `s[i]` is the first item of `s` with its key. */
  predicate IsFirst<T, K(==)>(s: seq<T>, key: T -> K, i: int)
    requires 0 <= i < |s|
  {
    forall j :: 0 <= j < i ==> key(s[j]) != key(s[i])
  }

  /** `r` is `s` with some items left out, the rest in their original order. */
  predicate Subsequence<T(==)>(r: seq<T>, s: seq<T>)
    decreases |s|
  {
    if r == [] then true
    else if s == [] then false
    else
      (r[|r| - 1] == s[|s| - 1] && Subsequence(r[..|r| - 1], s[..|s| - 1]))
      || Subsequence(r, s[..|s| - 1])
  }

  /** The items of `s` whose key has not appeared earlier in `s`, in order. */
  function Unique<T, K(==)>(s: seq<T>, key: T -> K): seq<T>
    decreases |s|
  {
    if s == [] then []
    else
      var init := s[..|s| - 1];
      if key(s[|s| - 1]) in KeySet(init, key) then Unique(init, key)
      else Unique(init, key) + [s[|s| - 1]]
  }

  /** `f` applied to every item of `s`, as `Array.prototype.map` does. */
  function MapSeq<T, U>(f: T -> U, s: seq<T>): seq<U> {
    seq(|s|, i requires 0 <= i < |s| => f(s[i]))
  }

  /** The position of the first item of `s` whose key is `k`. */
  function IndexOfKey<T, K(==)>(s: seq<T>, key: T -> K, k: K): (i: nat)
    requires exists m :: 0 <= m < |s| && key(s[m]) == k
    ensures i < |s| && key(s[i]) == k && IsFirst(s, key, i)
    decreases |s|
  {
    if key(s[0]) == k then 0
    else
      var m :| 0 <= m < |s| && key(s[m]) == k;
      assert key(s[1..][m - 1]) == k;
      1 + IndexOfKey(s[1..], key, k)
  }

  lemma KeySetConcat<T, K>(a: seq<T>, b: seq<T>, key: T -> K)
    ensures KeySet(a + b, key) == KeySet(a, key) + KeySet(b, key)
  {
    var ab := a + b;
    forall k | k in KeySet(ab, key) ensures k in KeySet(a, key) + KeySet(b, key) {
      var i :| 0 <= i < |ab| && key(ab[i]) == k;
      if i < |a| { assert ab[i] == a[i]; } else { assert ab[i] == b[i - |a|]; }
    }
    forall k | k in KeySet(a, key) + KeySet(b, key) ensures k in KeySet(ab, key) {
      if k in KeySet(a, key) {
        var i :| 0 <= i < |a| && key(a[i]) == k;
        assert ab[i] == a[i];
      } else {
        var i :| 0 <= i < |b| && key(b[i]) == k;
        assert ab[|a| + i] == b[i];
      }
    }
  }

  lemma KeySetSnoc<T, K>(s: seq<T>, x: T, key: T -> K)
    ensures KeySet(s + [x], key) == KeySet(s, key) + {key(x)}
  {
    KeySetConcat(s, [x], key);
    assert KeySet([x], key) == {key(x)} by { assert [x][0] == x; }
  }

  /** One step of a dedup loop over `s`: how the seen keys and the kept items grow at index `i`. */
  lemma UniqueStep<T, K>(s: seq<T>, i: int, key: T -> K)
    requires 0 <= i < |s|
    ensures KeySet(s[..i + 1], key) == KeySet(s[..i], key) + {key(s[i])}
    ensures key(s[i]) in KeySet(s[..i], key) ==> Unique(s[..i + 1], key) == Unique(s[..i], key)
    ensures key(s[i]) !in KeySet(s[..i], key) ==> Unique(s[..i + 1], key) == Unique(s[..i], key) + [s[i]]
  {
    assert s[..i + 1][..i] == s[..i];
    KeySetSnoc(s[..i], s[i], key);
    assert s[..i + 1] == s[..i] + [s[i]];
  }

  /** Two key-distinct lists with no key in common make a key-distinct list. */
  lemma KeyDistinctConcat<T, K>(a: seq<T>, b: seq<T>, key: T -> K)
    requires KeyDistinct(a, key) && KeyDistinct(b, key)
    requires KeySet(a, key) !! KeySet(b, key)
    ensures KeyDistinct(a + b, key)
  {
    var ab := a + b;
    forall i, j | 0 <= i < j < |ab| ensures key(ab[i]) != key(ab[j]) {
      if j < |a| {
        assert ab[i] == a[i] && ab[j] == a[j];
      } else if |a| <= i {
        assert ab[i] == b[i - |a|] && ab[j] == b[j - |a|];
      } else {
        assert key(a[i]) in KeySet(a, key);
        assert key(b[j - |a|]) in KeySet(b, key);
        assert ab[i] == a[i] && ab[j] == b[j - |a|];
      }
    }
  }

  /** Deduplication loses no key: the output has an item for every key of the input. */
  lemma {:induction false} UniqueKeySet<T, K>(s: seq<T>, key: T -> K)
    ensures KeySet(Unique(s, key), key) == KeySet(s, key)
    decreases |s|
  {
    if s != [] {
      var init, x := s[..|s| - 1], s[|s| - 1];
      assert s == init + [x];
      UniqueKeySet(init, key);
      KeySetSnoc(init, x, key);
      if key(x) !in KeySet(init, key) {
        KeySetSnoc(Unique(init, key), x, key);
      }
    }
  }

  /** No two output items share a key. */
  lemma {:induction false} UniqueKeyDistinct<T, K>(s: seq<T>, key: T -> K)
    ensures KeyDistinct(Unique(s, key), key)
    decreases |s|
  {
    if s != [] {
      var init, x := s[..|s| - 1], s[|s| - 1];
      UniqueKeyDistinct(init, key);
      if key(x) !in KeySet(init, key) {
        var prev := Unique(init, key);
        UniqueKeySet(init, key);
        var r := prev + [x];
        forall i, j | 0 <= i < j < |r| ensures key(r[i]) != key(r[j]) {
          if j == |prev| {
            assert key(prev[i]) in KeySet(prev, key);
          }
        }
      }
    }
  }

  /** The output is the input with items left out, in the input's order. */
  lemma {:induction false} UniqueSubsequence<T, K>(s: seq<T>, key: T -> K)
    ensures Subsequence(Unique(s, key), s)
    decreases |s|
  {
    if s != [] {
      var init, x := s[..|s| - 1], s[|s| - 1];
      UniqueSubsequence(init, key);
      var r := Unique(s, key);
      if key(x) in KeySet(init, key) {
        if r != [] {
          assert Subsequence(r, s[..|s| - 1]);
        }
      } else {
        assert r[..|r| - 1] == Unique(init, key);
      }
    }
  }

  /** Every item of a subsequence is an item of the sequence, no more often. */
  lemma {:induction false} SubsequenceMultiset<T>(r: seq<T>, s: seq<T>)
    requires Subsequence(r, s)
    ensures multiset(r) <= multiset(s) && |r| <= |s|
    decreases |s|
  {
    if r != [] {
      var s' := s[..|s| - 1];
      assert s == s' + [s[|s| - 1]];
      if r[|r| - 1] == s[|s| - 1] && Subsequence(r[..|r| - 1], s') {
        SubsequenceMultiset(r[..|r| - 1], s');
        assert r == r[..|r| - 1] + [r[|r| - 1]];
      } else {
        SubsequenceMultiset(r, s');
      }
    }
  }

  /** Every output item is the first item of the input with its key; `i` is its position. */
  lemma {:induction false} UniqueItemIsFirst<T, K>(s: seq<T>, key: T -> K, k: int) returns (i: nat)
    requires 0 <= k < |Unique(s, key)|
    ensures i < |s| && IsFirst(s, key, i) && Unique(s, key)[k] == s[i]
    decreases |s|
  {
    var init, x := s[..|s| - 1], s[|s| - 1];
    var prev := Unique(init, key);
    if k < |prev| {
      i := UniqueItemIsFirst(init, key, k);
      assert s[i] == init[i];
      forall j | 0 <= j < i ensures key(s[j]) != key(s[i]) {
        assert s[j] == init[j];
      }
    } else {
      i := |s| - 1;
      forall j | 0 <= j < i ensures key(s[j]) != key(x) {
        assert key(init[j]) in KeySet(init, key);
      }
    }
  }

  /** An output item that is not an item of the front part has a key the front part does not have. */
  lemma UniqueItemAfterFront<T, K>(a: seq<T>, b: seq<T>, key: T -> K, k: int)
    requires 0 <= k < |Unique(a + b, key)|
    requires Unique(a + b, key)[k] !in a
    ensures key(Unique(a + b, key)[k]) !in KeySet(a, key)
  {
    var s := a + b;
    var i := UniqueItemIsFirst(s, key, k);
    assert forall j :: 0 <= j < |a| ==> s[j] == a[j];
    forall j | 0 <= j < |a| ensures key(a[j]) != key(s[i]) {
      assert s[j] == a[j];
    }
  }

  /**
   * First occurrence wins: for each input item, the output holds exactly one item with its
   * key, and that item is the earliest input item with the key.
   */
  lemma FirstOccurrenceWins<T, K>(s: seq<T>, key: T -> K, i: int)
    requires 0 <= i < |s|
    ensures var r := Unique(s, key);
      var j := IndexOfKey(s, key, key(s[i]));
      && (exists k :: 0 <= k < |r| && r[k] == s[j])
      && (forall k :: 0 <= k < |r| && key(r[k]) == key(s[i]) ==> r[k] == s[j])
  {
    var r := Unique(s, key);
    var j := IndexOfKey(s, key, key(s[i]));
    UniqueKeySet(s, key);
    assert key(s[i]) in KeySet(r, key);
    var k0 :| 0 <= k0 < |r| && key(r[k0]) == key(s[i]);
    forall k | 0 <= k < |r| && key(r[k]) == key(s[i]) ensures r[k] == s[j] {
      var m := UniqueItemIsFirst(s, key, k);
      assert !(m < j);
      assert !(j < m);
    }
    assert r[k0] == s[j];
  }

  /** The output holds one item per distinct key of the input, so never more items than the input. */
  lemma {:induction false} UniqueLength<T, K>(s: seq<T>, key: T -> K)
    ensures |Unique(s, key)| == |KeySet(s, key)| <= |s|
    decreases |s|
  {
    if s != [] {
      var init, x := s[..|s| - 1], s[|s| - 1];
      assert s == init + [x];
      UniqueLength(init, key);
      KeySetSnoc(init, x, key);
      if key(x) in KeySet(init, key) {
        assert Unique(s, key) == Unique(init, key);
        assert KeySet(s, key) == KeySet(init, key);
      } else {
        assert Unique(s, key) == Unique(init, key) + [x];
        assert |KeySet(s, key)| == |KeySet(init, key)| + 1;
      }
    }
  }

  /** A key-distinct list is its own deduplication. */
  lemma {:induction false} UniqueOfKeyDistinct<T, K>(s: seq<T>, key: T -> K)
    requires KeyDistinct(s, key)
    ensures Unique(s, key) == s
    decreases |s|
  {
    if s != [] {
      var init, x := s[..|s| - 1], s[|s| - 1];
      assert KeyDistinct(init, key);
      UniqueOfKeyDistinct(init, key);
      assert key(x) !in KeySet(init, key) by {
        forall m | 0 <= m < |init| ensures key(init[m]) != key(x) {
          assert init[m] == s[m];
        }
      }
      assert s == init + [x];
    }
  }

  /** Deduplication is idempotent. */
  lemma UniqueIdempotent<T, K>(s: seq<T>, key: T -> K)
    ensures Unique(Unique(s, key), key) == Unique(s, key)
  {
    UniqueKeyDistinct(s, key);
    UniqueOfKeyDistinct(Unique(s, key), key);
  }

  /** Appending items never changes what the deduplication of the front part kept. */
  lemma {:induction false} UniquePrefix<T, K>(a: seq<T>, b: seq<T>, key: T -> K)
    ensures |Unique(a, key)| <= |Unique(a + b, key)|
    ensures Unique(a + b, key)[..|Unique(a, key)|] == Unique(a, key)
    decreases |b|
  {
    if b == [] {
      assert a + b == a;
    } else {
      var b' := b[..|b| - 1];
      UniquePrefix(a, b', key);
      assert (a + b)[..|a + b| - 1] == a + b';
    }
  }

  /** Deduplicating the tail first and then the whole gives the same as deduplicating the whole once. */
  lemma {:induction false} UniqueAbsorbs<T, K>(a: seq<T>, b: seq<T>, key: T -> K)
    ensures Unique(a + Unique(b, key), key) == Unique(a + b, key)
    decreases |b|
  {
    if b == [] {
      assert a + [] == a;
    } else {
      var b', x := b[..|b| - 1], b[|b| - 1];
      UniqueAbsorbs(a, b', key);
      assert (a + b)[..|a + b| - 1] == a + b';
      assert (a + b)[|a + b| - 1] == x;
      KeySetConcat(a, b', key);
      if key(x) !in KeySet(b', key) {
        var u := Unique(b', key);
        assert a + (u + [x]) == (a + u) + [x];
        assert (a + u + [x])[..|a + u + [x]| - 1] == a + u;
        UniqueKeySet(b', key);
        KeySetConcat(a, u, key);
      }
    }
  }

  /**
   * Deduplication commutes with a map that preserves keys: projecting the items and
   * then deduplicating gives the projection of the deduplicated items.
   */
  lemma {:induction false} UniqueMapSeq<T, U, K>(f: T -> U, s: seq<T>, key: T -> K, key': U -> K)
    requires forall x :: key'(f(x)) == key(x)
    ensures MapSeq(f, Unique(s, key)) == Unique(MapSeq(f, s), key')
    decreases |s|
  {
    if s != [] {
      var init, x := s[..|s| - 1], s[|s| - 1];
      UniqueMapSeq(f, init, key, key');
      var fs := MapSeq(f, s);
      assert fs[..|fs| - 1] == MapSeq(f, init);
      assert KeySet(MapSeq(f, init), key') == KeySet(init, key) by {
        var fi := MapSeq(f, init);
        forall k | k in KeySet(init, key) ensures k in KeySet(fi, key') {
          var m :| 0 <= m < |init| && key(init[m]) == k;
          assert key'(fi[m]) == k;
        }
      }
      var prev := Unique(init, key);
      assert MapSeq(f, prev + [x]) == MapSeq(f, prev) + [f(x)];
    }
  }
}
