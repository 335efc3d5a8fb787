/** `merge_dictionaries` (make_diploid.py:73-85): the key-wise union of two
    per-source maps, concatenating the record lists of shared keys with the
    first source's records first. */
module Merge {
  import opened Dicts

  /** The value the first loop stores under a key of the first map. */
  function Combined<K(!new), V>(a: Dict<K, seq<V>>, b: Dict<K, seq<V>>, k: K): seq<V>
    requires k in a.entries
  {
    if k in b.entries then a.entries[k] + b.entries[k] else a.entries[k]
  }

  /** The first loop, make_diploid.py:75-79, over the remaining keys `ks` of the first map. */
  function MergeFirst<K(!new), V>(acc: Dict<K, seq<V>>, a: Dict<K, seq<V>>, b: Dict<K, seq<V>>, ks: seq<K>): (r: Dict<K, seq<V>>)
    requires acc.Valid()
    requires forall k :: k in ks ==> k in a.entries
    ensures r.Valid()
    decreases |ks|
  {
    if ks == [] then acc
    else MergeFirst(Put(acc, ks[0], Combined(a, b, ks[0])), a, b, ks[1..])
  }

  /** Loop invariant of the first loop: the visited keys are appended in order ... */
  lemma {:induction false} MergeFirstKeys<K(!new), V>(acc: Dict<K, seq<V>>, a: Dict<K, seq<V>>, b: Dict<K, seq<V>>, ks: seq<K>)
    requires acc.Valid() && Distinct(ks)
    requires forall k :: k in ks ==> k in a.entries && k !in acc.entries
    ensures MergeFirst(acc, a, b, ks).keys == acc.keys + ks
    decreases |ks|
  {
    if ks != [] {
      var k, t := ks[0], ks[1..];
      var acc' := Put(acc, k, Combined(a, b, k));
      assert Distinct(t) && forall x :: x in t ==> x in a.entries && x !in acc'.entries by {
        DistinctTail(ks);
        assert forall x :: x in t ==> x in ks && x != k;
      }
      MergeFirstKeys(acc', a, b, t);
      assert MergeFirst(acc, a, b, ks) == MergeFirst(acc', a, b, t);
      AppendCons(acc.keys, ks);
    }
  }

  /** ... the entries present before stay as they were ... */
  lemma {:induction false} MergeFirstKeeps<K(!new), V>(acc: Dict<K, seq<V>>, a: Dict<K, seq<V>>, b: Dict<K, seq<V>>, ks: seq<K>)
    requires acc.Valid() && Distinct(ks)
    requires forall k :: k in ks ==> k in a.entries && k !in acc.entries
    ensures forall k :: k in acc.entries ==>
              k in MergeFirst(acc, a, b, ks).entries && MergeFirst(acc, a, b, ks).entries[k] == acc.entries[k]
    decreases |ks|
  {
    if ks != [] {
      var acc' := Put(acc, ks[0], Combined(a, b, ks[0]));
      DistinctTail(ks);
      MergeFirstKeeps(acc', a, b, ks[1..]);
    }
  }

  /** ... and each visited key is bound to its combined list. */
  lemma {:induction false} MergeFirstValues<K(!new), V>(acc: Dict<K, seq<V>>, a: Dict<K, seq<V>>, b: Dict<K, seq<V>>, ks: seq<K>)
    requires acc.Valid() && Distinct(ks)
    requires forall k :: k in ks ==> k in a.entries && k !in acc.entries
    ensures forall k :: k in ks ==>
              k in MergeFirst(acc, a, b, ks).entries && MergeFirst(acc, a, b, ks).entries[k] == Combined(a, b, k)
    decreases |ks|
  {
    if ks != [] {
      var acc' := Put(acc, ks[0], Combined(a, b, ks[0]));
      DistinctTail(ks);
      MergeFirstValues(acc', a, b, ks[1..]);
      MergeFirstKeeps(acc', a, b, ks[1..]);
      forall k | k in ks
        ensures k in MergeFirst(acc, a, b, ks).entries && MergeFirst(acc, a, b, ks).entries[k] == Combined(a, b, k)
      {
        if k != ks[0] {
          assert k in ks[1..];
        }
      }
    }
  }

  /** The second loop, make_diploid.py:81-83, over the remaining keys `ks` of the second map. */
  function MergeSecond<K(!new), V>(acc: Dict<K, seq<V>>, a: Dict<K, seq<V>>, b: Dict<K, seq<V>>, ks: seq<K>): (r: Dict<K, seq<V>>)
    requires acc.Valid()
    requires forall k :: k in ks ==> k in b.entries
    ensures r.Valid()
    decreases |ks|
  {
    if ks == [] then acc
    else if ks[0] !in a.entries then MergeSecond(Put(acc, ks[0], b.entries[ks[0]]), a, b, ks[1..])
    else MergeSecond(acc, a, b, ks[1..])
  }

  /** Loop invariant of the second loop: the visited keys the first map lacks
      are appended in order ... */
  lemma {:induction false} MergeSecondKeys<K(!new), V>(acc: Dict<K, seq<V>>, a: Dict<K, seq<V>>, b: Dict<K, seq<V>>, ks: seq<K>)
    requires acc.Valid() && Distinct(ks)
    requires forall k :: k in ks ==> k in b.entries
    requires forall k :: k in ks && k !in a.entries ==> k !in acc.entries
    ensures MergeSecond(acc, a, b, ks).keys == acc.keys + Unseen(ks, a.entries.Keys)
    decreases |ks|
  {
    if ks != [] {
      var head := if ks[0] in a.entries then [] else [ks[0]];
      var acc' := if ks[0] !in a.entries then Put(acc, ks[0], b.entries[ks[0]]) else acc;
      assert Distinct(ks[1..]) && forall k :: k in ks[1..] && k !in a.entries ==> k !in acc'.entries by {
        DistinctTail(ks);
        assert forall k :: k in ks[1..] ==> k in ks && k != ks[0];
      }
      MergeSecondKeys(acc', a, b, ks[1..]);
      assert MergeSecond(acc, a, b, ks) == MergeSecond(acc', a, b, ks[1..]);
      assert acc'.keys == acc.keys + head;
      assert Unseen(ks, a.entries.Keys) == head + Unseen(ks[1..], a.entries.Keys);
      AppendAssoc(acc.keys, head, Unseen(ks[1..], a.entries.Keys));
    }
  }

  /** ... the entries present before stay as they were ... */
  lemma {:induction false} MergeSecondKeeps<K(!new), V>(acc: Dict<K, seq<V>>, a: Dict<K, seq<V>>, b: Dict<K, seq<V>>, ks: seq<K>)
    requires acc.Valid() && Distinct(ks)
    requires forall k :: k in ks ==> k in b.entries
    requires forall k :: k in ks && k !in a.entries ==> k !in acc.entries
    ensures forall k :: k in acc.entries ==>
              k in MergeSecond(acc, a, b, ks).entries && MergeSecond(acc, a, b, ks).entries[k] == acc.entries[k]
    decreases |ks|
  {
    if ks != [] {
      var acc' := if ks[0] !in a.entries then Put(acc, ks[0], b.entries[ks[0]]) else acc;
      DistinctTail(ks);
      MergeSecondKeeps(acc', a, b, ks[1..]);
    }
  }

  /** ... and each of those keys is bound to its own list. */
  lemma {:induction false} MergeSecondValues<K(!new), V>(acc: Dict<K, seq<V>>, a: Dict<K, seq<V>>, b: Dict<K, seq<V>>, ks: seq<K>)
    requires acc.Valid() && Distinct(ks)
    requires forall k :: k in ks ==> k in b.entries
    requires forall k :: k in ks && k !in a.entries ==> k !in acc.entries
    ensures forall k :: k in ks && k !in a.entries ==>
              k in MergeSecond(acc, a, b, ks).entries && MergeSecond(acc, a, b, ks).entries[k] == b.entries[k]
    decreases |ks|
  {
    if ks != [] {
      var acc' := if ks[0] !in a.entries then Put(acc, ks[0], b.entries[ks[0]]) else acc;
      DistinctTail(ks);
      MergeSecondValues(acc', a, b, ks[1..]);
      MergeSecondKeeps(acc', a, b, ks[1..]);
      forall k | k in ks && k !in a.entries
        ensures k in MergeSecond(acc, a, b, ks).entries && MergeSecond(acc, a, b, ks).entries[k] == b.entries[k]
      {
        if k != ks[0] {
          assert k in ks[1..];
        }
      }
    }
  }

  /** Both loops in sequence. */
  function MergeLoops<K(!new), V>(a: Dict<K, seq<V>>, b: Dict<K, seq<V>>): (r: Dict<K, seq<V>>)
    requires a.Valid() && b.Valid()
    ensures r.Valid()
  {
    MergeSecond(MergeFirst(Empty(), a, b, a.keys), a, b, b.keys)
  }

  lemma MergeLoopsKeys<K(!new), V>(a: Dict<K, seq<V>>, b: Dict<K, seq<V>>)
    requires a.Valid() && b.Valid()
    ensures MergeLoops(a, b).keys == a.keys + Unseen(b.keys, a.entries.Keys)
  {
    var first := MergeFirst(Empty(), a, b, a.keys);
    MergeFirstKeys(Empty(), a, b, a.keys);
    assert first.keys == a.keys;
    FirstLoopFresh(a, b);
    MergeSecondKeys(first, a, b, b.keys);
    assert MergeLoops(a, b) == MergeSecond(first, a, b, b.keys);
  }

  /** After the first loop, the keys only the second map has are still absent. */
  lemma FirstLoopFresh<K(!new), V>(a: Dict<K, seq<V>>, b: Dict<K, seq<V>>)
    requires a.Valid() && b.Valid()
    ensures forall k :: k in b.keys && k !in a.entries ==> k !in MergeFirst(Empty(), a, b, a.keys).entries
  {
    var first := MergeFirst(Empty(), a, b, a.keys);
    MergeFirstKeys(Empty(), a, b, a.keys);
    assert first.keys == a.keys;
    forall k | k in first.entries ensures k in a.entries {
      assert k in first.keys;
    }
  }

  lemma MergeLoopsDomain<K(!new), V>(a: Dict<K, seq<V>>, b: Dict<K, seq<V>>)
    requires a.Valid() && b.Valid()
    ensures MergeLoops(a, b).entries.Keys == a.entries.Keys + b.entries.Keys
  {
    var r := MergeLoops(a, b);
    var u := Unseen(b.keys, a.entries.Keys);
    MergeLoopsKeys(a, b);
    forall k ensures k in r.entries <==> k in a.entries || k in b.entries {
      calc {
        k in r.entries;
        k in a.keys + u;
        k in a.keys || k in u;
        k in a.entries || (k in b.entries && k !in a.entries);
      }
    }
  }

  lemma MergeLoopsValues<K(!new), V>(a: Dict<K, seq<V>>, b: Dict<K, seq<V>>)
    requires a.Valid() && b.Valid()
    ensures forall k :: k in a.entries ==> k in MergeLoops(a, b).entries && MergeLoops(a, b).entries[k] == Combined(a, b, k)
    ensures forall k :: k !in a.entries && k in b.entries ==> k in MergeLoops(a, b).entries && MergeLoops(a, b).entries[k] == b.entries[k]
  {
    var first := MergeFirst(Empty(), a, b, a.keys);
    MergeFirstKeys(Empty(), a, b, a.keys);
    MergeFirstValues(Empty(), a, b, a.keys);
    FirstLoopFresh(a, b);
    MergeSecondKeeps(first, a, b, b.keys);
    MergeSecondValues(first, a, b, b.keys);
  }

  /** `merge_dictionaries(records_1, records_2)`. The result maps exactly the
      keys of either input; a shared key maps to the first list followed by
      the second, any other key to its only list, unchanged. In insertion
      order, the first map's keys come first, then the second map's new keys. */
  function MergeDictionaries<K(!new), V>(a: Dict<K, seq<V>>, b: Dict<K, seq<V>>): (r: Dict<K, seq<V>>)
    requires a.Valid() && b.Valid()
    ensures r.Valid()
    ensures r.entries.Keys == a.entries.Keys + b.entries.Keys
    ensures forall k :: k in a.entries && k in b.entries ==> r.entries[k] == a.entries[k] + b.entries[k]
    ensures forall k :: k in a.entries && k !in b.entries ==> r.entries[k] == a.entries[k]
    ensures forall k :: k !in a.entries && k in b.entries ==> r.entries[k] == b.entries[k]
    ensures r.keys == a.keys + Unseen(b.keys, a.entries.Keys)
  {
    MergeLoopsKeys(a, b);
    MergeLoopsDomain(a, b);
    MergeLoopsValues(a, b);
    MergeLoops(a, b)
  }

  /** `len(merge_dictionaries(a, b)) == len(a.keys() | b.keys())`: shared
      keys are counted once and no key is lost. */
  lemma MergeSize<K(!new), V>(a: Dict<K, seq<V>>, b: Dict<K, seq<V>>)
    requires a.Valid() && b.Valid()
    ensures |MergeDictionaries(a, b).keys| == |a.entries.Keys + b.entries.Keys|
  {
    KeyCount(MergeDictionaries(a, b));
  }

  /** A two-entry dict literal. */
  lemma TwoEntries<K, V>(k1: K, v1: V, k2: K, v2: V)
    requires k1 != k2
    ensures Put(Put(Empty(), k1, v1), k2, v2) == Dict([k1, k2], map[k1 := v1, k2 := v2])
  {
  }

  /** The shared-and-distinct-keys case of test/test_merge_dictionaries.py:
      `{k1: [a], k2: [b]}` merged with `{k1: [c], k3: [d]}` gives
      `{k1: [a, c], k2: [b], k3: [d]}`, in that key order. */
  lemma MergeExample<K(!new)>(k1: K, k2: K, k3: K)
    requires k1 != k2 && k1 != k3 && k2 != k3
    ensures var r := MergeDictionaries(Put(Put(Empty(), k1, ["a"]), k2, ["b"]),
                                       Put(Put(Empty(), k1, ["c"]), k3, ["d"]));
      && r.keys == [k1, k2, k3]
      && r.entries[k1] == ["a", "c"] && r.entries[k2] == ["b"] && r.entries[k3] == ["d"]
  {
    TwoEntries(k1, ["a"], k2, ["b"]);
    TwoEntries(k1, ["c"], k3, ["d"]);
    MergeLiterals(k1, k2, k3);
  }

  lemma MergeLiterals<K(!new)>(k1: K, k2: K, k3: K)
    requires k1 != k2 && k1 != k3 && k2 != k3
    ensures var r := MergeDictionaries(Dict([k1, k2], map[k1 := ["a"], k2 := ["b"]]),
                                       Dict([k1, k3], map[k1 := ["c"], k3 := ["d"]]));
      && r.keys == [k1, k2, k3]
      && r.entries[k1] == ["a", "c"] && r.entries[k2] == ["b"] && r.entries[k3] == ["d"]
  {
    var a := Dict([k1, k2], map[k1 := ["a"], k2 := ["b"]]);
    var b := Dict([k1, k3], map[k1 := ["c"], k3 := ["d"]]);
    LiteralKeys(a, b, k1, k2, k3);
    LiteralEntries(a, b, k1, k2, k3);
  }

  lemma LiteralKeys<K(!new)>(a: Dict<K, seq<string>>, b: Dict<K, seq<string>>, k1: K, k2: K, k3: K)
    requires k1 != k2 && k1 != k3 && k2 != k3
    requires a == Dict([k1, k2], map[k1 := ["a"], k2 := ["b"]])
    requires b == Dict([k1, k3], map[k1 := ["c"], k3 := ["d"]])
    ensures a.Valid() && b.Valid()
    ensures MergeDictionaries(a, b).keys == [k1, k2, k3]
  {
    assert Unseen(b.keys, a.entries.Keys) == [k3] by {
      assert [k1, k3][1..] == [k3];
      assert Unseen([k3], a.entries.Keys) == [k3] + Unseen([], a.entries.Keys);
    }
    assert [k1, k2] + [k3] == [k1, k2, k3];
  }

  lemma LiteralEntries<K(!new)>(a: Dict<K, seq<string>>, b: Dict<K, seq<string>>, k1: K, k2: K, k3: K)
    requires k1 != k2 && k1 != k3 && k2 != k3
    requires a == Dict([k1, k2], map[k1 := ["a"], k2 := ["b"]])
    requires b == Dict([k1, k3], map[k1 := ["c"], k3 := ["d"]])
    requires a.Valid() && b.Valid()
    ensures var r := MergeDictionaries(a, b);
      && r.entries[k1] == ["a", "c"] && r.entries[k2] == ["b"] && r.entries[k3] == ["d"]
  {
    var r := MergeDictionaries(a, b);
    assert r.entries[k1] == ["a", "c"] by {
      assert k1 in a.entries && k1 in b.entries;
      assert ["a"] + ["c"] == ["a", "c"];
    }
    assert r.entries[k2] == ["b"] by {
      assert k2 in a.entries && k2 !in b.entries;
    }
    assert r.entries[k3] == ["d"] by {
      assert k3 !in a.entries && k3 in b.entries;
    }
  }
}
