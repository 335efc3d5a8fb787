/** Python's insertion-ordered `dict`, as the merge engine relies on it: the
    keys in the order they were first inserted, and the key-to-value mapping.
    Assigning to an existing key replaces its value but keeps its position. */
module Dicts {

  datatype Dict<K, V> = Dict(keys: seq<K>, entries: map<K, V>)
  {
    /** The key sequence lists every mapped key exactly once. */
    ghost predicate Valid() {
      && Distinct(keys)
      && (forall k <- entries.Keys :: k in keys)
      && (forall k <- keys :: k in entries)
    }
  }

  ghost predicate Distinct<T>(s: seq<T>) {
    forall i, j :: 0 <= i < j < |s| ==> s[i] != s[j]
  }

  /** `{}` */
  function Empty<K, V>(): (d: Dict<K, V>)
    ensures d.Valid() && |d.keys| == 0 && |d.entries| == 0
  {
    Dict([], map[])
  }

  /** `d[k] = v`: a new key is appended, an existing key keeps its place. */
  function Put<K, V>(d: Dict<K, V>, k: K, v: V): (r: Dict<K, V>)
    requires d.Valid()
    ensures r.Valid()
    ensures r.entries == d.entries[k := v]
    ensures k in d.entries ==> r.keys == d.keys
    ensures k !in d.entries ==> r.keys == d.keys + [k]
  {
    if k in d.entries then Dict(d.keys, d.entries[k := v])
    else Dict(d.keys + [k], d.entries[k := v])
  }

  /** `d.get(k, default)` */
  function Get<K, V>(d: Dict<K, V>, k: K, default: V): V {
    if k in d.entries then d.entries[k] else default
  }

  /** `list(d.items())`: the (key, value) pairs in insertion order. */
  function Items<K, V>(d: Dict<K, V>): (s: seq<(K, V)>)
    requires d.Valid()
    ensures |s| == |d.keys|
    ensures forall i :: 0 <= i < |s| ==> s[i].0 == d.keys[i] && s[i].0 in d.entries && s[i].1 == d.entries[s[i].0]
  {
    seq(|d.keys|, i requires 0 <= i < |d.keys| => (d.keys[i], d.entries[d.keys[i]]))
  }

  /** The first components of a sequence of pairs. */
  function Firsts<K, V>(s: seq<(K, V)>): (ks: seq<K>)
    ensures |ks| == |s|
    ensures forall i :: 0 <= i < |s| ==> ks[i] == s[i].0
  {
    seq(|s|, i requires 0 <= i < |s| => s[i].0)
  }

  /** `dict(pairs)`: the pairs are assigned one after another. */
  function FromItems<K, V>(s: seq<(K, V)>): (d: Dict<K, V>)
    ensures d.Valid()
  {
    PutAll(Empty(), s)
  }

  function PutAll<K, V>(acc: Dict<K, V>, s: seq<(K, V)>): (d: Dict<K, V>)
    requires acc.Valid()
    ensures d.Valid()
    ensures forall k :: k in acc.entries ==> k in d.entries
    ensures forall i :: 0 <= i < |s| ==> s[i].0 in d.entries
    decreases |s|
  {
    if s == [] then acc else PutAll(Put(acc, s[0].0, s[0].1), s[1..])
  }

  /** The keys of a tail are the tail of the keys, still distinct. */
  lemma FirstsTail<K, V>(s: seq<(K, V)>)
    requires |s| > 0 && Distinct(Firsts(s))
    ensures Firsts(s) == [s[0].0] + Firsts(s[1..])
    ensures Distinct(Firsts(s[1..]))
    ensures forall i :: 0 <= i < |s| - 1 ==> s[1..][i].0 != s[0].0
    ensures forall y :: y in s[1..] ==> y.0 != s[0].0
  {
    var fs := Firsts(s);
    assert Firsts(s[1..]) == fs[1..];
    forall i | 0 <= i < |s| - 1 ensures s[1..][i].0 != s[0].0 {
      assert s[1..][i].0 == fs[i + 1] && s[0].0 == fs[0];
    }
    forall y | y in s[1..] ensures y.0 != s[0].0 {
      var i :| 0 <= i < |s| - 1 && s[1..][i] == y;
    }
  }

  /** Appending a sequence is appending its head, then its tail. */
  lemma AppendAssoc<T>(s: seq<T>, h: seq<T>, t: seq<T>)
    ensures s + (h + t) == (s + h) + t
  {
  }

  /** Appending a non-empty sequence is appending its head, then its tail. */
  lemma AppendCons<T>(s: seq<T>, ks: seq<T>)
    requires ks != []
    ensures s + ks == (s + [ks[0]]) + ks[1..]
  {
    assert ks == [ks[0]] + ks[1..];
    AppendAssoc(s, [ks[0]], ks[1..]);
  }

  /** Assigning pairs whose keys are fresh and distinct appends those keys in
      order, leaving the old entries alone. */
  lemma {:induction false} PutAllFresh<K, V>(acc: Dict<K, V>, s: seq<(K, V)>)
    requires acc.Valid()
    requires Distinct(Firsts(s))
    requires forall i :: 0 <= i < |s| ==> s[i].0 !in acc.entries
    ensures PutAll(acc, s).keys == acc.keys + Firsts(s)
    ensures forall k :: k in acc.entries ==> PutAll(acc, s).entries[k] == acc.entries[k]
    decreases |s|
  {
    if s != [] {
      var acc' := Put(acc, s[0].0, s[0].1);
      FirstsTail(s);
      PutAllFresh(acc', s[1..]);
      AppendAssoc(acc.keys, [s[0].0], Firsts(s[1..]));
    }
  }

  /** ... and maps each of those keys to its value. */
  lemma {:induction false} PutAllFreshValues<K, V>(acc: Dict<K, V>, s: seq<(K, V)>)
    requires acc.Valid()
    requires Distinct(Firsts(s))
    requires forall i :: 0 <= i < |s| ==> s[i].0 !in acc.entries
    ensures forall i :: 0 <= i < |s| ==> PutAll(acc, s).entries[s[i].0] == s[i].1
    decreases |s|
  {
    if s != [] {
      var acc' := Put(acc, s[0].0, s[0].1);
      FirstsTail(s);
      PutAllFresh(acc', s[1..]);
      PutAllFreshValues(acc', s[1..]);
      forall i | 0 <= i < |s|
        ensures PutAll(acc, s).entries[s[i].0] == s[i].1
      {
        if i > 0 {
          assert s[i] == s[1..][i - 1];
        }
      }
    }
  }

  /** `dict(d.items()) == d` */
  lemma ItemsRoundTrip<K, V>(d: Dict<K, V>)
    requires d.Valid()
    ensures FromItems(Items(d)) == d
  {
    var s := Items(d);
    assert Firsts(s) == d.keys;
    var r := FromItems(s);
    PutAllFresh(Empty(), s);
    PutAllFreshValues(Empty(), s);
    assert r.keys == d.keys by {
      assert Empty<K, V>().keys + Firsts(s) == Firsts(s);
    }
    forall k | k in r.entries
      ensures r.entries[k] == d.entries[k]
    {
      assert k in d.keys;
      var i :| 0 <= i < |d.keys| && d.keys[i] == k;
      assert s[i].0 == k && s[i].1 == d.entries[k];
    }
    Extensionality(r, d);
  }

  /** Two valid dicts with the same key order and the same values are equal. */
  lemma Extensionality<K, V>(d: Dict<K, V>, e: Dict<K, V>)
    requires d.Valid() && e.Valid()
    requires d.keys == e.keys
    requires forall k | k in d.entries :: d.entries[k] == e.entries[k]
    ensures d == e
  {
    assert d.entries.Keys == e.entries.Keys;
  }

  /** `list(dict(pairs).items()) == pairs` when the keys are distinct. */
  lemma FromItemsRoundTrip<K, V>(s: seq<(K, V)>)
    requires Distinct(Firsts(s))
    ensures Items(FromItems(s)) == s
  {
    PutAllFresh(Empty(), s);
    PutAllFreshValues(Empty(), s);
  }

  /** A sequence without repetitions has as many elements as its set. */
  lemma {:induction false} DistinctCardinality<T>(s: seq<T>)
    requires Distinct(s)
    ensures |set x | x in s| == |s|
  {
    if s != [] {
      DistinctCardinality(s[1..]);
      assert (set x | x in s) == {s[0]} + (set x | x in s[1..]);
      assert s[0] !in (set x | x in s[1..]);
    }
  }

  /** `len(d)`: the key sequence is as long as the domain is large. */
  lemma KeyCount<K, V>(d: Dict<K, V>)
    requires d.Valid()
    ensures |d.keys| == |d.entries.Keys|
  {
    DistinctCardinality(d.keys);
    assert d.entries.Keys == set x | x in d.keys;
  }

  /** The elements of `ks`, in order, that are not in `seen`. */
  function Unseen<K(!new)>(ks: seq<K>, seen: set<K>): (r: seq<K>)
    ensures forall k :: k in r <==> k in ks && k !in seen
    ensures Distinct(ks) ==> Distinct(r)
  {
    if ks == [] then []
    else (if ks[0] in seen then [] else [ks[0]]) + Unseen(ks[1..], seen)
  }

  /** Filtering out `t`, then `s`, is filtering out both at once. */
  lemma {:induction false} UnseenUnion<K(!new)>(ks: seq<K>, s: set<K>, t: set<K>)
    ensures Unseen(Unseen(ks, t), s) == Unseen(ks, s + t)
    decreases |ks|
  {
    if ks != [] {
      UnseenUnion(ks[1..], s, t);
      var head := if ks[0] in t then [] else [ks[0]];
      UnseenAppend(head, Unseen(ks[1..], t), s);
    }
  }

  /** Filtering distributes over concatenation. */
  lemma {:induction false} UnseenAppend<K(!new)>(a: seq<K>, b: seq<K>, s: set<K>)
    ensures Unseen(a + b, s) == Unseen(a, s) + Unseen(b, s)
    decreases |a|
  {
    if a != [] {
      assert (a + b)[1..] == a[1..] + b;
      UnseenAppend(a[1..], b, s);
      AppendAssoc(if a[0] in s then [] else [a[0]], Unseen(a[1..], s), Unseen(b, s));
    } else {
      assert a + b == b;
    }
  }

  /** Filtering out nothing keeps every element. */
  lemma {:induction false} UnseenNothing<K(!new)>(ks: seq<K>)
    ensures Unseen(ks, {}) == ks
    decreases |ks|
  {
    if ks != [] {
      UnseenNothing(ks[1..]);
      assert ks == [ks[0]] + ks[1..];
    }
  }

  /** The head of a repetition-free sequence does not recur in its tail. */
  lemma DistinctTail<K>(ks: seq<K>)
    requires ks != [] && Distinct(ks)
    ensures Distinct(ks[1..])
    ensures ks[0] !in ks[1..]
  {
    forall i | 0 <= i < |ks[1..]| ensures ks[1..][i] != ks[0] {
      assert ks[1..][i] == ks[i + 1];
    }
  }
}
