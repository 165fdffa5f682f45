/** Keyed de-duplication of a row sequence, as a dataframe's
    `drop_duplicates(subset=key, keep='last')` performs it: a row is dropped
    exactly when a LATER row carries the same key, and the surviving rows keep
    their relative order. */
module Dedup {

  /** The set of keys that occur in `s`. */
  function KeysOf<T, K>(s: seq<T>, key: T -> K): set<K> {
    set i | 0 <= i < |s| :: key(s[i])
  }

  /** No two rows of `s` share a key. */
  predicate UniqueKeys<T, K(==)>(s: seq<T>, key: T -> K) {
    forall i, j :: 0 <= i < j < |s| ==> key(s[i]) != key(s[j])
  }

  /** Row `i` of `s` is the last one carrying its key. */
  predicate IsLastOfKey<T, K(==)>(s: seq<T>, key: T -> K, i: int) {
    0 <= i < |s| && forall j :: i < j < |s| ==> key(s[j]) != key(s[i])
  }

  /** `a` is `b` with some rows removed and the others in their order. */
  predicate Subsequence<T(==)>(a: seq<T>, b: seq<T>) {
    a == [] ||
    (b != [] && ((a[0] == b[0] && Subsequence(a[1..], b[1..])) || Subsequence(a, b[1..])))
  }

  lemma {:induction false} KeysOfAppend<T, K>(a: seq<T>, b: seq<T>, key: T -> K)
    ensures KeysOf(a + b, key) == KeysOf(a, key) + KeysOf(b, key)
  {
    forall k | k in KeysOf(a + b, key) ensures k in KeysOf(a, key) + KeysOf(b, key) {
      var i :| 0 <= i < |a + b| && key((a + b)[i]) == k;
      if i >= |a| {
        assert key(b[i - |a|]) == k;
      }
    }
    forall k | k in KeysOf(a, key) + KeysOf(b, key) ensures k in KeysOf(a + b, key) {
      if k in KeysOf(a, key) {
        var i :| 0 <= i < |a| && key(a[i]) == k;
        assert key((a + b)[i]) == k;
      } else {
        var i :| 0 <= i < |b| && key(b[i]) == k;
        assert key((a + b)[|a| + i]) == k;
      }
    }
  }

  lemma KeysOfCons<T, K>(x: T, s: seq<T>, key: T -> K)
    ensures KeysOf([x] + s, key) == {key(x)} + KeysOf(s, key)
  {
    KeysOfAppend([x], s, key);
    assert KeysOf([x], key) == {key(x)} by {
      assert key([x][0]) == key(x);
    }
  }

  /** `s` with every row whose key is in `ks` removed. */
  function Without<T(==), K>(s: seq<T>, ks: set<K>, key: T -> K): (r: seq<T>)
    ensures KeysOf(r, key) == KeysOf(s, key) - ks
    ensures Subsequence(r, s)
  {
    if s == [] then []
    else
      var rest := Without(s[1..], ks, key);
      assert s == [s[0]] + s[1..];
      KeysOfCons(s[0], s[1..], key);
      KeysOfCons(s[0], rest, key);
      if key(s[0]) in ks then rest else [s[0]] + rest
  }

  /** Keep only the last row of every key (`keep='last'`). */
  function KeepLast<T(==), K(==)>(s: seq<T>, key: T -> K): (r: seq<T>)
    ensures UniqueKeys(r, key)
    ensures KeysOf(r, key) == KeysOf(s, key)
    ensures Subsequence(r, s)
  {
    if s == [] then []
    else
      var rest := KeepLast(s[1..], key);
      assert s == [s[0]] + s[1..];
      KeysOfCons(s[0], s[1..], key);
      KeysOfCons(s[0], rest, key);
      if key(s[0]) in KeysOf(s[1..], key) then rest else [s[0]] + rest
  }

  /** `KeepLast` unfolded on a sequence with first row `x`. */
  lemma KeepLastCons<T, K>(x: T, t: seq<T>, key: T -> K)
    ensures KeepLast([x] + t, key) ==
            if key(x) in KeysOf(t, key) then KeepLast(t, key) else [x] + KeepLast(t, key)
  {
    assert ([x] + t)[0] == x;
    assert ([x] + t)[1..] == t;
  }

  /** `Without` unfolded on a sequence with first row `x`. */
  lemma WithoutCons<T, K>(x: T, t: seq<T>, ks: set<K>, key: T -> K)
    ensures Without([x] + t, ks, key) ==
            if key(x) in ks then Without(t, ks, key) else [x] + Without(t, ks, key)
  {
    assert ([x] + t)[0] == x;
    assert ([x] + t)[1..] == t;
  }

  /** Every row that is the last of its key survives `KeepLast`. */
  lemma {:induction false} KeepLastKeepsLastRows<T, K>(s: seq<T>, key: T -> K)
    ensures forall i :: IsLastOfKey(s, key, i) ==> s[i] in KeepLast(s, key)
  {
    if s != [] {
      var t := s[1..];
      assert s == [s[0]] + t;
      KeepLastCons(s[0], t, key);
      KeepLastKeepsLastRows(t, key);
      forall i | IsLastOfKey(s, key, i) ensures s[i] in KeepLast(s, key) {
        if i == 0 {
          forall m | 0 <= m < |t| ensures key(t[m]) != key(s[0]) {
            assert t[m] == s[m + 1];
          }
        } else {
          assert IsLastOfKey(t, key, i - 1);
        }
      }
    }
  }

  /** Every row that survives `KeepLast` is the last of its key. */
  lemma {:induction false} KeepLastOnlyLastRows<T, K>(s: seq<T>, key: T -> K)
    ensures forall j :: 0 <= j < |KeepLast(s, key)| ==>
              exists i :: IsLastOfKey(s, key, i) && s[i] == KeepLast(s, key)[j]
  {
    if s != [] {
      var t := s[1..];
      assert s == [s[0]] + t;
      KeepLastCons(s[0], t, key);
      KeepLastOnlyLastRows(t, key);
      var r, rest := KeepLast(s, key), KeepLast(t, key);
      forall j | 0 <= j < |r| ensures exists i :: IsLastOfKey(s, key, i) && s[i] == r[j] {
        if key(s[0]) !in KeysOf(t, key) && j == 0 {
          forall m | 0 < m < |s| ensures key(s[m]) != key(s[0]) {
            assert s[m] == t[m - 1];
          }
          assert IsLastOfKey(s, key, 0) && s[0] == r[j];
        } else {
          var jt := if key(s[0]) in KeysOf(t, key) then j else j - 1;
          assert r[j] == rest[jt];
          var it :| IsLastOfKey(t, key, it) && t[it] == rest[jt];
          forall m | it + 1 < m < |s| ensures key(s[m]) != key(s[it + 1]) {
            assert s[m] == t[m - 1];
          }
          assert IsLastOfKey(s, key, it + 1) && s[it + 1] == r[j];
        }
      }
    } else {
      assert KeepLast(s, key) == [];
    }
  }

  /** A sequence whose keys are already unique is left as it is. */
  lemma {:induction false} KeepLastOfUnique<T, K>(s: seq<T>, key: T -> K)
    requires UniqueKeys(s, key)
    ensures KeepLast(s, key) == s
  {
    if s != [] {
      var t := s[1..];
      assert s == [s[0]] + t;
      assert UniqueKeys(t, key);
      KeepLastOfUnique(t, key);
      KeepLastCons(s[0], t, key);
      forall m | 0 <= m < |t| ensures key(t[m]) != key(s[0]) {
        assert t[m] == s[m + 1];
      }
    }
  }

  /** De-duplicating twice is de-duplicating once. */
  lemma KeepLastIdempotent<T, K>(s: seq<T>, key: T -> K)
    ensures KeepLast(KeepLast(s, key), key) == KeepLast(s, key)
  {
    KeepLastOfUnique(KeepLast(s, key), key);
  }

  lemma {:induction false} WithoutAppend<T, K>(a: seq<T>, b: seq<T>, ks: set<K>, key: T -> K)
    ensures Without(a + b, ks, key) == Without(a, ks, key) + Without(b, ks, key)
  {
    if a != [] {
      var x, a' := a[0], a[1..];
      assert a == [x] + a';
      assert a + b == [x] + (a' + b);
      WithoutCons(x, a' + b, ks, key);
      WithoutCons(x, a', ks, key);
      WithoutAppend(a', b, ks, key);
      if key(x) !in ks {
        calc {
          Without(a + b, ks, key);
          [x] + Without(a' + b, ks, key);
          [x] + (Without(a', ks, key) + Without(b, ks, key));
          ([x] + Without(a', ks, key)) + Without(b, ks, key);
        }
      }
    } else {
      assert a + b == b;
    }
  }

  /** Removing rows keeps the keys unique. */
  lemma {:induction false} WithoutKeepsUnique<T, K>(s: seq<T>, ks: set<K>, key: T -> K)
    requires UniqueKeys(s, key)
    ensures UniqueKeys(Without(s, ks, key), key)
  {
    if s != [] {
      var t := s[1..];
      assert s == [s[0]] + t;
      assert UniqueKeys(t, key);
      WithoutKeepsUnique(t, ks, key);
      WithoutCons(s[0], t, ks, key);
      var w := Without(t, ks, key);
      if key(s[0]) !in ks {
        forall m | 0 <= m < |w| ensures key(w[m]) != key(s[0]) {
          assert key(w[m]) in KeysOf(w, key);
          assert key(s[0]) !in KeysOf(t, key) by {
            forall n | 0 <= n < |t| ensures key(t[n]) != key(s[0]) {
              assert t[n] == s[n + 1];
            }
          }
        }
      }
    }
  }

  /** Removing keys that do not occur changes nothing. */
  lemma {:induction false} WithoutDisjoint<T, K>(s: seq<T>, ks: set<K>, key: T -> K)
    requires KeysOf(s, key) !! ks
    ensures Without(s, ks, key) == s
  {
    if s != [] {
      assert s == [s[0]] + s[1..];
      KeysOfCons(s[0], s[1..], key);
      WithoutCons(s[0], s[1..], ks, key);
      WithoutDisjoint(s[1..], ks, key);
    }
  }

  /** Removing every key that occurs leaves nothing. */
  lemma {:induction false} WithoutAll<T, K>(s: seq<T>, ks: set<K>, key: T -> K)
    requires KeysOf(s, key) <= ks
    ensures Without(s, ks, key) == []
  {
    if s != [] {
      assert s == [s[0]] + s[1..];
      KeysOfCons(s[0], s[1..], key);
      WithoutCons(s[0], s[1..], ks, key);
      WithoutAll(s[1..], ks, key);
    }
  }

  lemma AppendAssoc<T>(p: seq<T>, q: seq<T>, r: seq<T>)
    ensures p + (q + r) == (p + q) + r
  {
  }

  /** De-duplicating `a + b`: the rows of `a` whose key reappears in `b` are
      dropped, the other rows of `a` are de-duplicated among themselves and
      keep their order, and the de-duplicated `b` follows all of them. */
  lemma {:induction false} KeepLastAppend<T, K>(a: seq<T>, b: seq<T>, key: T -> K)
    ensures KeepLast(a + b, key) ==
            KeepLast(Without(a, KeysOf(b, key), key), key) + KeepLast(b, key)
  {
    if a == [] {
      assert a + b == b;
    } else {
      var kb := KeysOf(b, key);
      var x, a' := a[0], a[1..];
      var w' := Without(a', kb, key);
      assert a == [x] + a';
      assert a + b == [x] + (a' + b);
      KeepLastAppend(a', b, key);
      KeysOfAppend(a', b, key);
      KeepLastCons(x, a' + b, key);
      WithoutCons(x, a', kb, key);
      if key(x) in kb {
        assert KeepLast(a + b, key) == KeepLast(a' + b, key);
        assert Without(a, kb, key) == w';
      } else {
        assert Without(a, kb, key) == [x] + w';
        KeepLastCons(x, w', key);
        if key(x) in KeysOf(a', key) {
          assert key(x) in KeysOf(w', key);
          assert KeepLast(a + b, key) == KeepLast(a' + b, key);
        } else {
          assert key(x) !in KeysOf(a' + b, key);
          assert key(x) !in KeysOf(w', key);
          var l, r := KeepLast(w', key), KeepLast(b, key);
          assert KeepLast(a + b, key) == [x] + (l + r);
          assert KeepLast([x] + w', key) == [x] + l;
          AppendAssoc([x], l, r);
        }
      }
    }
  }
}
