/** The counters `main` returns (make_diploid.py:179-206), in terms of the
    two inputs: homozygous loci are the loci both inputs call, heterozygous
    loci the loci exactly one input calls. */
module Counting {
  import opened Dicts
  import opened Vcf
  import opened Loader
  import Merge
  import opened Synthesis
  import opened Driver

  /** `f` applied to each element of `ks`, in order. */
  function MapSeq<K, V>(f: K -> V, ks: seq<K>): (r: seq<V>)
    ensures |r| == |ks|
  {
    if ks == [] then [] else [f(ks[0])] + MapSeq(f, ks[1..])
  }

  /** The elements of `ks` that `f` sends to `v`. */
  ghost function Matching<K, V>(ks: seq<K>, f: K -> V, v: V): set<K> {
    set k | k in ks && f(k) == v
  }

  /** Over distinct elements, a value occurs in the image as often as there
      are elements sent to it. */
  lemma {:induction false} CountDistinct<K, V>(ks: seq<K>, f: K -> V, v: V)
    requires Distinct(ks)
    ensures multiset(MapSeq(f, ks))[v] == |Matching(ks, f, v)|
    decreases |ks|
  {
    if ks != [] {
      var t := ks[1..];
      DistinctTail(ks);
      CountDistinct(t, f, v);
      ImageStep(ks, f, v);
      MatchingStep(ks, f, v);
    }
  }

  lemma ImageStep<K, V>(ks: seq<K>, f: K -> V, v: V)
    requires ks != []
    ensures multiset(MapSeq(f, ks))[v] == (if f(ks[0]) == v then 1 else 0) + multiset(MapSeq(f, ks[1..]))[v]
  {
    assert MapSeq(f, ks) == [f(ks[0])] + MapSeq(f, ks[1..]);
    assert multiset(MapSeq(f, ks)) == multiset{f(ks[0])} + multiset(MapSeq(f, ks[1..]));
  }

  lemma MatchingStep<K, V>(ks: seq<K>, f: K -> V, v: V)
    requires ks != [] && ks[0] !in ks[1..]
    ensures |Matching(ks, f, v)| == (if f(ks[0]) == v then 1 else 0) + |Matching(ks[1..], f, v)|
  {
    var t := ks[1..];
    assert ks == [ks[0]] + t;
    if f(ks[0]) == v {
      assert Matching(ks, f, v) == {ks[0]} + Matching(t, f, v);
    } else {
      assert Matching(ks, f, v) == Matching(t, f, v);
    }
  }

  /** Records written with the calls `f` gives at `ks` have those calls as genotypes. */
  lemma {:induction false} GenotypesAreCalls(written: seq<OutputRecord>, f: LocusKey -> (Allele, Allele), ks: seq<LocusKey>)
    requires |written| == |ks|
    requires forall i :: 0 <= i < |ks| ==> written[i].gt == f(ks[i])
    ensures Genotypes(written) == MapSeq(f, ks)
    decreases |ks|
  {
    if ks != [] {
      forall i | 0 <= i < |ks[1..]| ensures written[1..][i].gt == f(ks[1..][i]) {
        assert written[1..][i] == written[i + 1] && ks[1..][i] == ks[i + 1];
      }
      GenotypesAreCalls(written[1..], f, ks[1..]);
    }
  }

  /** The loci where both inputs call are exactly the loci `f` sends to `(1, 1)`. */
  lemma HomozygousLoci(l1: Loaded, l2: Loaded, f: LocusKey -> (Allele, Allele), ks: seq<LocusKey>)
    requires forall k :: f(k) == DiploidCall(l1, l2, k)
    requires forall k :: k in ks <==> k in l1.variants.entries || k in l2.variants.entries
    ensures Matching(ks, f, HomAlt) == l1.variants.entries.Keys * l2.variants.entries.Keys
  {
  }

  /** The merged, sorted dict `main` returns has one key per locus of `A + B`. */
  lemma CombineKeys(l1: Loaded, l2: Loaded, sampleName: string)
    requires l1.variants.Valid() && l2.variants.Valid()
    requires Combine(l1, l2, sampleName).Ok?
    ensures var out := Combine(l1, l2, sampleName).value;
      && Distinct(out.variants.keys)
      && (forall k :: k in out.variants.keys <==> k in l1.variants.entries || k in l2.variants.entries)
      && |out.written| == |l1.variants.entries.Keys + l2.variants.entries.Keys|
  {
    var out := Combine(l1, l2, sampleName).value;
    var merged := Merge.MergeDictionaries(l1.variants, l2.variants);
    assert out.variants.entries == merged.entries;
    assert merged.entries.Keys == l1.variants.entries.Keys + l2.variants.entries.Keys;
    KeyCount(out.variants);
  }

  /** After loading, with one call per locus in each input, distinct sample
      names and neither `"both"`: one record per locus of `A + B`, `|A * B|`
      homozygous loci and `|A - B| + |B - A|` heterozygous ones. */
  lemma CombineTally(l1: Loaded, l2: Loaded, sampleName: string)
    requires OneCallPerLocus(l1) && OneCallPerLocus(l2)
    requires l1.sample != l2.sample && l1.sample != "both" && l2.sample != "both"
    ensures Combine(l1, l2, sampleName).Ok?
    ensures var out := Combine(l1, l2, sampleName).value;
      var a := l1.variants.entries.Keys;
      var b := l2.variants.entries.Keys;
      && |out.written| == |a + b|
      && out.homozygous == |a * b|
      && out.heterozygous == |a - b| + |b - a|
  {
    CombineSucceeds(l1, l2, sampleName);
    CombineCounts(l1, l2, sampleName);
    CombineKeys(l1, l2, sampleName);
    var out := Combine(l1, l2, sampleName).value;
    var ks := out.variants.keys;
    var f := k => DiploidCall(l1, l2, k);
    forall i | 0 <= i < |ks| ensures out.written[i].gt == f(ks[i]) {
      assert Items(out.variants)[i].0 == ks[i];
    }
    GenotypesAreCalls(out.written, f, ks);
    CountDistinct(ks, f, HomAlt);
    HomozygousLoci(l1, l2, f, ks);
    UnionSplit(l1.variants.entries.Keys, l2.variants.entries.Keys);
  }

  /** The union of two sets splits into their intersection and both differences. */
  lemma UnionSplit<T>(a: set<T>, b: set<T>)
    ensures |a + b| == |a * b| + |a - b| + |b - a|
  {
    assert a + b == (a * b) + ((a - b) + (b - a));
    assert (a * b) * ((a - b) + (b - a)) == {};
    assert (a - b) * (b - a) == {};
  }

  /** For inputs `main` handles, with loaded locus sets `A` and `B`, it writes
      one record per locus of `A + B`, counts `|A * B|` homozygous loci and
      `|A - B| + |B - A|` heterozygous ones. */
  lemma MainTally(src1: VcfSource, src2: VcfSource, sampleName: string)
    requires WellFormedSource(src1) && WellFormedSource(src2)
    requires src1.samples[0] != src2.samples[0]
    requires src1.samples[0] != "both" && src2.samples[0] != "both"
    ensures Main(src1, src2, sampleName).Ok?
    ensures var out := Main(src1, src2, sampleName).value;
      var a := LoadVariants(src1).value.variants.entries.Keys;
      var b := LoadVariants(src2).value.variants.entries.Keys;
      && |out.written| == |a + b|
      && out.homozygous == |a * b|
      && out.heterozygous == |a - b| + |b - a|
  {
    WellFormedLoads(src1);
    WellFormedLoads(src2);
    var l1, l2 := LoadVariants(src1).value, LoadVariants(src2).value;
    assert Main(src1, src2, sampleName) == Combine(l1, l2, sampleName);
    CombineTally(l1, l2, sampleName);
  }

  /** The end-to-end scenario of test/test_main.py: one input calls loci
      `{x, y}`, the other `{y, z}`; three records are written, one
      homozygous and two heterozygous. */
  lemma ThreeLociScenario(src1: VcfSource, src2: VcfSource, sampleName: string, x: LocusKey, y: LocusKey, z: LocusKey)
    requires WellFormedSource(src1) && WellFormedSource(src2)
    requires src1.samples[0] != src2.samples[0]
    requires src1.samples[0] != "both" && src2.samples[0] != "both"
    requires x != y && y != z && x != z
    requires LoadVariants(src1).Ok? && LoadVariants(src1).value.variants.entries.Keys == {x, y}
    requires LoadVariants(src2).Ok? && LoadVariants(src2).value.variants.entries.Keys == {y, z}
    ensures Main(src1, src2, sampleName).Ok?
    ensures |Main(src1, src2, sampleName).value.written| == 3
    ensures Main(src1, src2, sampleName).value.homozygous == 1
    ensures Main(src1, src2, sampleName).value.heterozygous == 2
  {
    MainTally(src1, src2, sampleName);
    ThreeLoci(x, y, z);
  }

  /** Three distinct loci, two called by each input. */
  lemma ThreeLoci(x: LocusKey, y: LocusKey, z: LocusKey)
    requires x != y && y != z && x != z
    ensures |{x, y} + {y, z}| == 3 && |{x, y} * {y, z}| == 1
    ensures |{x, y} - {y, z}| == 1 && |{y, z} - {x, y}| == 1
  {
    assert {x, y} + {y, z} == {x, y, z};
    assert {x, y} * {y, z} == {y};
    assert {x, y} - {y, z} == {x};
    assert {y, z} - {x, y} == {z};
  }
}
