/** Python's insertion-ordered `dict` with string keys: the keys in insertion
    order beside the values by key.  Assigning to an existing key keeps its
    place; `del` keeps the order of the others. */
module Dicts {
  import opened Models
  import opened Seqs

  datatype Dict<V> = Dict(keys: seq<string>, values: map<string, V>)

  /** Every key once, and exactly the keys that have values. */
  ghost predicate WellFormed<V>(d: Dict<V>) {
    Distinct(d.keys) && forall k :: k in d.values <==> k in d.keys
  }

  function Empty<V>(): (d: Dict<V>)
    ensures WellFormed(d)
  {
    Dict([], map[])
  }

  /** `d.get(k)`. */
  function Get<V>(d: Dict<V>, k: string): Option<V> {
    if k in d.values then Some(d.values[k]) else None
  }

  /** `d[k] = v`. */
  function Put<V>(d: Dict<V>, k: string, v: V): (r: Dict<V>)
    requires WellFormed(d)
    ensures WellFormed(r)
  {
    if k in d.values then Dict(d.keys, d.values[k := v])
    else
      DistinctSnoc(d.keys, k);
      Dict(d.keys + [k], d.values[k := v])
  }

  /** `del d[k]`, or nothing when `k` is absent. */
  function Delete<V>(d: Dict<V>, k: string): (r: Dict<V>)
    requires WellFormed(d)
    ensures WellFormed(r)
  {
    RemoveKeyDistinct(d.keys, k);
    Dict(RemoveKey(d.keys, k), d.values - {k})
  }

  /** The keys without `k`, in their order. */
  function RemoveKey(ks: seq<string>, k: string): (r: seq<string>)
    ensures forall x :: x in r <==> x in ks && x != k
  {
    if ks == [] then [] else (if ks[0] == k then [] else [ks[0]]) + RemoveKey(ks[1..], k)
  }

  lemma DistinctSnoc(ks: seq<string>, k: string)
    requires Distinct(ks) && k !in ks
    ensures Distinct(ks + [k])
  {
  }

  lemma DistinctCons(k: string, ks: seq<string>)
    ensures Distinct([k] + ks) <==> k !in ks && Distinct(ks)
  {
    var s := [k] + ks;
    if k !in ks && Distinct(ks) {
      forall i, j | 0 <= i < j < |s| ensures s[i] != s[j] {
        if i == 0 {
          assert s[j] == ks[j - 1];
        } else {
          assert s[i] == ks[i - 1] && s[j] == ks[j - 1];
        }
      }
    }
    if Distinct(s) {
      forall i, j | 0 <= i < j < |ks| ensures ks[i] != ks[j] {
        assert ks[i] == s[i + 1] && ks[j] == s[j + 1];
      }
      forall j | 0 <= j < |ks| ensures ks[j] != k {
        assert s[j + 1] == ks[j] && s[0] == k;
      }
    }
  }

  lemma {:induction false} RemoveKeyDistinct(ks: seq<string>, k: string)
    requires Distinct(ks)
    ensures Distinct(RemoveKey(ks, k))
    decreases |ks|
  {
    if ks != [] {
      assert ks == [ks[0]] + ks[1..];
      DistinctCons(ks[0], ks[1..]);
      RemoveKeyDistinct(ks[1..], k);
      if ks[0] != k {
        DistinctCons(ks[0], RemoveKey(ks[1..], k));
      }
    }
  }

  lemma {:induction false} RemoveKeyAbsent(ks: seq<string>, k: string)
    requires k !in ks
    ensures RemoveKey(ks, k) == ks
    decreases |ks|
  {
    if ks != [] {
      assert ks[0] != k;
      assert k !in ks[1..];
      RemoveKeyAbsent(ks[1..], k);
      assert ks == [ks[0]] + ks[1..];
    }
  }

  lemma {:induction false} RemoveKeySnoc(ks: seq<string>, k: string)
    ensures RemoveKey(ks + [k], k) == RemoveKey(ks, k)
    decreases |ks|
  {
    if ks == [] {
      assert [k][1..] == [];
    } else {
      assert (ks + [k])[1..] == ks[1..] + [k];
      RemoveKeySnoc(ks[1..], k);
    }
  }

  /** After `d[k] = v`, `k` maps to `v`, every other key to what it did, and
      the keys are those of `d` with `k` last when it is new. */
  lemma PutGet<V>(d: Dict<V>, k: string, v: V)
    requires WellFormed(d)
    ensures Get(Put(d, k, v), k) == Some(v)
    ensures forall j :: j != k ==> Get(Put(d, k, v), j) == Get(d, j)
    ensures k in d.keys ==> Put(d, k, v).keys == d.keys
    ensures k !in d.keys ==> Put(d, k, v).keys == d.keys + [k]
  {
  }

  /** After `del d[k]`, `k` has no value, every other key keeps its value,
      and the other keys keep their order. */
  lemma DeleteGet<V>(d: Dict<V>, k: string)
    requires WellFormed(d)
    ensures Get(Delete(d, k), k) == None
    ensures forall j :: j != k ==> Get(Delete(d, k), j) == Get(d, j)
    ensures IsSubseq(Delete(d, k).keys, d.keys)
  {
    RemoveKeyIsSubseq(d.keys, k);
  }

  lemma {:induction false} RemoveKeyIsSubseq(ks: seq<string>, k: string)
    ensures IsSubseq(RemoveKey(ks, k), ks)
    decreases |ks|
  {
    if ks != [] {
      RemoveKeyIsSubseq(ks[1..], k);
      var r := RemoveKey(ks, k);
      var t := RemoveKey(ks[1..], k);
      if ks[0] != k {
        assert r == [ks[0]] + t;
        assert r[0] == ks[0] && r[1..] == t;
      } else {
        assert r == [] + t;
        assert r == t;
      }
    }
  }

  /** Adding a new key and deleting it again gives back the dict. */
  lemma DeleteAfterPut<V>(d: Dict<V>, k: string, v: V)
    requires WellFormed(d) && k !in d.values
    ensures Delete(Put(d, k, v), k) == d
  {
    RemoveKeySnoc(d.keys, k);
    RemoveKeyAbsent(d.keys, k);
    assert d.values[k := v] - {k} == d.values;
  }
}
