/** Sequence helpers behind the grouping, capping and sorting steps of the
    briefing, the duplicate cleanup and the Hugo report: a list comprehension
    by key, Python's insertion-ordered "group into a dict of lists" idiom,
    and a stable descending sort (Python's `list.sort(key=..., reverse=True)`). */
module Seqs {

  predicate Distinct<K(==)>(ks: seq<K>) {
    forall i, j :: 0 <= i < j < |ks| ==> ks[i] != ks[j]
  }

  /** `[x for x in s if key(x) == k]`. */
  function WithKey<T(!new), K(!new)(==)>(s: seq<T>, key: T -> K, k: K): (r: seq<T>)
    ensures |r| <= |s|
    decreases |s|
  {
    if s == [] then []
    else
      var init := s[..|s| - 1];
      WithKey(init, key, k) + (if key(s[|s| - 1]) == k then [s[|s| - 1]] else [])
  }

  /** The kept elements are exactly the elements of `s` carrying key `k`. */
  lemma {:induction false} WithKeyMembers<T(!new), K(!new)>(s: seq<T>, key: T -> K, k: K)
    ensures forall x :: x in WithKey(s, key, k) <==> x in s && key(x) == k
    decreases |s|
  {
    if s != [] {
      var init := s[..|s| - 1];
      assert s == init + [s[|s| - 1]];
      WithKeyMembers(init, key, k);
    }
  }

  lemma WithKeySnoc<T(!new), K(!new)>(s: seq<T>, x: T, key: T -> K, k: K)
    ensures WithKey(s + [x], key, k) == WithKey(s, key, k) + (if key(x) == k then [x] else [])
  {
    assert (s + [x])[..|s|] == s;
  }

  lemma {:induction false} WithKeyAppend<T(!new), K(!new)>(a: seq<T>, b: seq<T>, key: T -> K, k: K)
    ensures WithKey(a + b, key, k) == WithKey(a, key, k) + WithKey(b, key, k)
    decreases |b|
  {
    if b != [] {
      var init := b[..|b| - 1];
      var x := b[|b| - 1];
      assert b == init + [x];
      assert a + b == (a + init) + [x];
      WithKeySnoc(a + init, x, key, k);
      WithKeySnoc(init, x, key, k);
      WithKeyAppend(a, init, key, k);
    } else {
      assert a + b == a;
    }
  }

  lemma WithKeySingleton<T(!new), K(!new)>(x: T, key: T -> K, k: K)
    ensures WithKey([x], key, k) == if key(x) == k then [x] else []
  {
    WithKeySnoc([], x, key, k);
    assert [] + [x] == [x];
  }

  /** The distinct keys of `s` in order of first appearance: the key order of
      a Python dict filled by `d.setdefault(key(x), []).append(x)`. */
  function Keys<T(!new), K(!new)(==)>(s: seq<T>, key: T -> K): (ks: seq<K>)
    ensures Distinct(ks)
    ensures forall k :: k in ks <==> exists x :: x in s && key(x) == k
    decreases |s|
  {
    if s == [] then []
    else
      var init := s[..|s| - 1];
      var x := s[|s| - 1];
      assert s == init + [x];
      var ks := Keys(init, key);
      if key(x) in ks then ks else ks + [key(x)]
  }

  lemma KeysSnoc<T(!new), K(!new)>(s: seq<T>, x: T, key: T -> K)
    ensures Keys(s + [x], key) == if key(x) in Keys(s, key) then Keys(s, key) else Keys(s, key) + [key(x)]
  {
    assert (s + [x])[..|s|] == s;
  }

  lemma {:induction false} NoKeyNoGroup<T(!new), K(!new)>(s: seq<T>, key: T -> K, k: K)
    requires k !in Keys(s, key)
    ensures WithKey(s, key, k) == []
    decreases |s|
  {
    if s != [] {
      var init := s[..|s| - 1];
      var x := s[|s| - 1];
      assert s == init + [x];
      KeysSnoc(init, x, key);
      NoKeyNoGroup(init, key, k);
      WithKeySnoc(init, x, key, k);
    }
  }

  /** Grouping: one list per distinct key, in order of first appearance, each
      holding the elements with that key in their original order. */
  method GroupBy<T(!new), K(!new)(==)>(s: seq<T>, key: T -> K) returns (keys: seq<K>, groups: map<K, seq<T>>)
    ensures keys == Keys(s, key)
    ensures groups.Keys == set k | k in keys
    ensures forall k :: k in groups ==> groups[k] == WithKey(s, key, k)
  {
    keys, groups := [], map[];
    for i := 0 to |s|
      invariant Grouped(s[..i], key, keys, groups)
    {
      assert s[..i + 1] == s[..i] + [s[i]];
      GroupByStep(s[..i], s[i], key, keys, groups);
      var k := key(s[i]);
      var group := if k in groups then groups[k] else [];
      keys := if k in groups then keys else keys + [k];
      groups := groups[k := group + [s[i]]];
    }
    assert s[..|s|] == s;
    assert groups.Keys == set k | k in keys;
  }

  /** The loop state of `GroupBy` after the elements `s`. */
  ghost predicate Grouped<T(!new), K(!new)>(s: seq<T>, key: T -> K, keys: seq<K>, groups: map<K, seq<T>>) {
    keys == Keys(s, key)
    && (forall k :: k in groups <==> k in keys)
    && forall k :: k in groups ==> groups[k] == WithKey(s, key, k)
  }

  /** One step of `GroupBy`: append `x` to its key's group, creating the
      group (and the key) when it is new. */
  lemma GroupByStep<T(!new), K(!new)>(s: seq<T>, x: T, key: T -> K, keys: seq<K>, groups: map<K, seq<T>>)
    requires Grouped(s, key, keys, groups)
    ensures var k := key(x);
      var keys' := if k in groups then keys else keys + [k];
      var groups' := groups[k := (if k in groups then groups[k] else []) + [x]];
      Grouped(s + [x], key, keys', groups')
  {
    var k := key(x);
    KeysSnoc(s, x, key);
    if k !in groups {
      NoKeyNoGroup(s, key, k);
    }
    var groups' := groups[k := (if k in groups then groups[k] else []) + [x]];
    forall k' | k' in groups'
      ensures groups'[k'] == WithKey(s + [x], key, k')
    {
      WithKeySnoc(s, x, key, k');
    }
  }

  /** The summed sizes of the groups named by `ks`. */
  function GroupSizes<T(!new), K(!new)(==)>(ks: seq<K>, s: seq<T>, key: T -> K): nat {
    if ks == [] then 0
    else GroupSizes(ks[..|ks| - 1], s, key) + |WithKey(s, key, ks[|ks| - 1])|
  }

  lemma {:induction false} GroupSizesSnoc<T(!new), K(!new)>(ks: seq<K>, s: seq<T>, x: T, key: T -> K)
    requires Distinct(ks)
    ensures GroupSizes(ks, s + [x], key) == GroupSizes(ks, s, key) + (if key(x) in ks then 1 else 0)
  {
    if ks != [] {
      var init := ks[..|ks| - 1];
      var k := ks[|ks| - 1];
      assert ks == init + [k];
      GroupSizesSnoc(init, s, x, key);
      WithKeySnoc(s, x, key, k);
      assert key(x) in ks <==> key(x) in init || key(x) == k;
      assert key(x) in init ==> key(x) != k;
    }
  }

  lemma GroupSizesAppendKey<T(!new), K(!new)>(ks: seq<K>, k: K, s: seq<T>, key: T -> K)
    ensures GroupSizes(ks + [k], s, key) == GroupSizes(ks, s, key) + |WithKey(s, key, k)|
  {
    assert (ks + [k])[..|ks|] == ks;
  }

  /** Every element lands in exactly one group: the groups' sizes add up to
      the length of the input. */
  lemma {:induction false} GroupsPartition<T(!new), K(!new)>(s: seq<T>, key: T -> K)
    ensures GroupSizes(Keys(s, key), s, key) == |s|
    decreases |s|
  {
    if s != [] {
      var init := s[..|s| - 1];
      var x := s[|s| - 1];
      assert s == init + [x];
      GroupsPartition(init, key);
      KeysSnoc(init, x, key);
      var ks := Keys(init, key);
      if key(x) in ks {
        GroupSizesSnoc(ks, init, x, key);
      } else {
        GroupSizesSnoc(ks, init, x, key);
        GroupSizesAppendKey(ks, key(x), s, key);
        NoKeyNoGroup(init, key, key(x));
        WithKeySnoc(init, x, key, key(x));
      }
    }
  }

  /** `a` is `b` with some elements left out, order kept. */
  predicate IsSubseq<T(==)>(a: seq<T>, b: seq<T>)
    decreases |b|
  {
    a == [] || (b != [] && ((a[0] == b[0] && IsSubseq(a[1..], b[1..])) || IsSubseq(a, b[1..])))
  }

  lemma {:induction false} WithKeyIsSubseq<T(!new), K(!new)>(s: seq<T>, key: T -> K, k: K)
    ensures IsSubseq(WithKey(s, key, k), s)
    decreases |s|
  {
    if s != [] {
      FilterFrontStep(s, key, k);
      WithKeyIsSubseq(s[1..], key, k);
      var r := WithKey(s, key, k);
      if key(s[0]) == k {
        assert r[0] == s[0] && r[1..] == WithKey(s[1..], key, k);
      } else {
        assert r == WithKey(s[1..], key, k);
      }
    }
  }

  /** `WithKey` unfolded at the front. */
  lemma FilterFrontStep<T(!new), K(!new)>(s: seq<T>, key: T -> K, k: K)
    requires s != []
    ensures WithKey(s, key, k) == (if key(s[0]) == k then [s[0]] else []) + WithKey(s[1..], key, k)
  {
    assert s == [s[0]] + s[1..];
    WithKeyAppend([s[0]], s[1..], key, k);
    WithKeySingleton(s[0], key, k);
  }

  /** Concatenation regroups freely. */
  lemma AppendAssoc<T>(a: seq<T>, b: seq<T>, c: seq<T>)
    ensures a + (b + c) == (a + b) + c
  {
  }

  /** `s[:n]`. */
  function Take<T>(s: seq<T>, n: nat): (r: seq<T>)
    ensures |r| <= n && |r| <= |s|
    ensures r <= s
    ensures |s| <= n ==> r == s
  {
    if |s| <= n then s else s[..n]
  }

  // ---------------------------------------------------------------------
  // Stable descending sort on a pair key, compared lexicographically.

  predicate KeyLe(a: (int, int), b: (int, int)) {
    a.0 < b.0 || (a.0 == b.0 && a.1 <= b.1)
  }

  predicate SortedDesc<T>(s: seq<T>, key: T -> (int, int)) {
    forall i, j :: 0 <= i < j < |s| ==> KeyLe(key(s[j]), key(s[i]))
  }

  /** Inserts `x` before the first element whose key is not above its own. */
  function Insert<T>(x: T, r: seq<T>, key: T -> (int, int)): seq<T> {
    if r == [] then [x]
    else if KeyLe(key(r[0]), key(x)) then [x] + r
    else [r[0]] + Insert(x, r[1..], key)
  }

  /** `sorted(s, key=key, reverse=True)`: keys non-increasing, and elements
      with equal keys keep their input order. */
  function SortDesc<T>(s: seq<T>, key: T -> (int, int)): seq<T> {
    if s == [] then [] else Insert(s[0], SortDesc(s[1..], key), key)
  }

  lemma {:induction false} InsertPermutes<T>(x: T, r: seq<T>, key: T -> (int, int))
    ensures multiset(Insert(x, r, key)) == multiset(r) + multiset{x}
  {
    if r != [] && !KeyLe(key(r[0]), key(x)) {
      InsertPermutes(x, r[1..], key);
      assert r == [r[0]] + r[1..];
    }
  }

  lemma {:induction false} InsertSorted<T>(x: T, r: seq<T>, key: T -> (int, int))
    requires SortedDesc(r, key)
    ensures SortedDesc(Insert(x, r, key), key)
  {
    if r == [] {
    } else if KeyLe(key(r[0]), key(x)) {
      var out := [x] + r;
      forall i, j | 0 <= i < j < |out| ensures KeyLe(key(out[j]), key(out[i])) {
        if i == 0 {
          assert out[j] == r[j - 1];
          assert KeyLe(key(r[j - 1]), key(r[0]));
        } else {
          assert out[i] == r[i - 1] && out[j] == r[j - 1];
        }
      }
    } else {
      var tail := Insert(x, r[1..], key);
      InsertSorted(x, r[1..], key);
      InsertPermutes(x, r[1..], key);
      var out := [r[0]] + tail;
      forall i, j | 0 <= i < j < |out| ensures KeyLe(key(out[j]), key(out[i])) {
        if i == 0 {
          var y := tail[j - 1];
          assert y in multiset(tail);
          assert y == x || y in multiset(r[1..]);
          if y != x {
            var m :| 0 <= m < |r[1..]| && r[1..][m] == y;
            assert r[m + 1] == y;
          }
        } else {
          assert out[i] == tail[i - 1] && out[j] == tail[j - 1];
        }
      }
    }
  }

  /** The sort's result is ordered by non-increasing key and is a permutation
      of its input. */
  lemma {:induction false} SortDescSortedPermutation<T>(s: seq<T>, key: T -> (int, int))
    ensures SortedDesc(SortDesc(s, key), key)
    ensures multiset(SortDesc(s, key)) == multiset(s)
    ensures |SortDesc(s, key)| == |s|
  {
    if s != [] {
      SortDescSortedPermutation(s[1..], key);
      InsertSorted(s[0], SortDesc(s[1..], key), key);
      InsertPermutes(s[0], SortDesc(s[1..], key), key);
      assert s == [s[0]] + s[1..];
      assert |multiset(SortDesc(s, key))| == |multiset(s)|;
    }
  }

  lemma WithKeySwap<T(!new)>(x: T, y: T, key: T -> (int, int), kv: (int, int))
    requires key(x) != key(y)
    ensures WithKey([y], key, kv) + WithKey([x], key, kv) == WithKey([x], key, kv) + WithKey([y], key, kv)
  {
    WithKeySingleton(x, key, kv);
    WithKeySingleton(y, key, kv);
  }

  lemma {:induction false} InsertStable<T(!new)>(x: T, r: seq<T>, key: T -> (int, int), kv: (int, int))
    ensures WithKey(Insert(x, r, key), key, kv) == WithKey([x], key, kv) + WithKey(r, key, kv)
  {
    if r == [] {
      assert [x] + [] == [x];
      assert WithKey(r, key, kv) == [];
    } else if KeyLe(key(r[0]), key(x)) {
      WithKeyAppend([x], r, key, kv);
    } else {
      InsertStable(x, r[1..], key, kv);
      InsertStableStep(x, r, key, kv);
    }
  }

  lemma {:induction false} InsertStableStep<T(!new)>(x: T, r: seq<T>, key: T -> (int, int), kv: (int, int))
    requires r != [] && !KeyLe(key(r[0]), key(x))
    requires WithKey(Insert(x, r[1..], key), key, kv) == WithKey([x], key, kv) + WithKey(r[1..], key, kv)
    ensures WithKey(Insert(x, r, key), key, kv) == WithKey([x], key, kv) + WithKey(r, key, kv)
  {
    var r0 := r[0];
    var tail := r[1..];
    var ins := Insert(x, tail, key);
    assert r == [r0] + tail;
    assert Insert(x, r, key) == [r0] + ins;
    WithKeyAppend([r0], ins, key, kv);
    WithKeyAppend([r0], tail, key, kv);
    WithKeySwap(x, r0, key, kv);
    var A, B, C := WithKey([x], key, kv), WithKey([r0], key, kv), WithKey(tail, key, kv);
    assert WithKey(Insert(x, r, key), key, kv) == B + (A + C);
    assert WithKey(r, key, kv) == B + C;
    AppendAssoc(B, A, C);
    AppendAssoc(A, B, C);
  }

  /** Stability: for every key value, the elements carrying it appear in the
      sorted result in the same order as in the input. */
  lemma {:induction false} SortDescStable<T(!new)>(s: seq<T>, key: T -> (int, int), kv: (int, int))
    ensures WithKey(SortDesc(s, key), key, kv) == WithKey(s, key, kv)
  {
    if s != [] {
      SortDescStable(s[1..], key, kv);
      InsertStable(s[0], SortDesc(s[1..], key), key, kv);
      WithKeyAppend([s[0]], s[1..], key, kv);
      assert s == [s[0]] + s[1..];
    }
  }

  /** Number of `true` entries. */
  function CountTrue(flags: seq<bool>): (n: nat)
    ensures n <= |flags|
  {
    if flags == [] then 0 else (if flags[0] then 1 else 0) + CountTrue(flags[1..])
  }
}
