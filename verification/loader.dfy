/** `load_variants` (make_diploid.py:18-70): classify the records of one
    single-sample source and group the retained ones by locus key. The SNV,
    indel and drop counters only feed log lines and are not modelled. */
module Loader {
  import opened Dicts
  import opened Vcf

  /** What the loader decides about one record. */
  datatype Verdict = MultiAllelic | ReferenceHomozygous | Heterozygous | Retained

  /** The four GT values dropped as reference-homozygous: `(0,)`, `(None,)`,
      `(0, 0)` and `(None, None)`. */
  predicate IsRefHomCall(gt: Genotype) {
    gt == [Called(0)] || gt == [NoCall] || gt == [Called(0), Called(0)] || gt == [NoCall, NoCall]
  }

  /** The body of the record loop, make_diploid.py:35-50, in the source's order
      of tests. A record is kept exactly when it has one ALT, its GT is not one
      of the reference-homozygous calls, and any second allele repeats the first. */
  function Classify(r: VariantRecord): (v: Result<Verdict>)
    ensures v == Ok(Retained) <==>
              && |r.alts| == 1
              && !IsRefHomCall(r.gt)
              && |r.gt| >= 1
              && (|r.gt| != 1 ==> r.gt[0] == r.gt[1])
    ensures v == Ok(MultiAllelic) <==> |r.alts| > 1
    ensures v == Ok(ReferenceHomozygous) <==> |r.alts| == 1 && IsRefHomCall(r.gt)
    ensures v == Ok(Heterozygous) <==> |r.alts| == 1 && !IsRefHomCall(r.gt) && |r.gt| >= 2 && r.gt[0] != r.gt[1]
    ensures v == Err(MissingAlts) <==> |r.alts| == 0
    ensures v == Err(EmptyGenotype) <==> |r.alts| == 1 && |r.gt| == 0
    ensures v.Err? ==> v.error == MissingAlts || v.error == EmptyGenotype
  {
    if |r.alts| == 0 then Err(MissingAlts)
    else if |r.alts| > 1 then Ok(MultiAllelic)
    else if r.gt == [Called(0)] || r.gt == [NoCall] then Ok(ReferenceHomozygous)
    else if |r.gt| != 1 then
      if r.gt == [Called(0), Called(0)] || r.gt == [NoCall, NoCall] then Ok(ReferenceHomozygous)
      else if |r.gt| == 0 then Err(EmptyGenotype)
      else if r.gt[0] != r.gt[1] then Ok(Heterozygous)
      else Ok(Retained)
    else Ok(Retained)
  }

  /** `(r.chrom, r.pos, r.ref, r.alts[0])`, make_diploid.py:57 */
  function KeyOf(r: VariantRecord): LocusKey
    requires |r.alts| >= 1
  {
    LocusKey(r.chrom, r.pos, r.ref, r.alts[0])
  }

  predicate RetainedUnder(r: VariantRecord, k: LocusKey) {
    Classify(r) == Ok(Retained) && KeyOf(r) == k
  }

  /** The records of `rs` the loader keeps under key `k`, in input order. */
  function KeptAt(rs: seq<VariantRecord>, k: LocusKey): (kept: seq<VariantRecord>)
    ensures |kept| <= |rs|
    ensures forall x :: x in kept ==> x in rs && RetainedUnder(x, k)
  {
    if rs == [] then []
    else (if RetainedUnder(rs[0], k) then [rs[0]] else []) + KeptAt(rs[1..], k)
  }

  /** Every record of `rs` is classified without an exception. */
  ghost predicate AllClassified(rs: seq<VariantRecord>) {
    forall i :: 0 <= i < |rs| ==> Classify(rs[i]).Ok?
  }

  /** Some record of `rs` is retained. */
  ghost predicate SomeRetained(rs: seq<VariantRecord>) {
    exists i :: 0 <= i < |rs| && Classify(rs[i]) == Ok(Retained)
  }

  /** `e` is what the first record that raises raises. */
  ghost predicate FirstFailure(rs: seq<VariantRecord>, e: Error) {
    exists i ::
      && 0 <= i < |rs|
      && Classify(rs[i]) == Err(e)
      && forall j :: 0 <= j < i ==> Classify(rs[j]).Ok?
  }

  /** `result.setdefault(key, []).append(r)`, make_diploid.py:58 */
  function Append(acc: LocusMap, r: VariantRecord): (d: LocusMap)
    requires acc.Valid() && |r.alts| >= 1
    ensures d.Valid()
  {
    Put(acc, KeyOf(r), Get(acc, KeyOf(r), []) + [r])
  }

  /** The record loop, make_diploid.py:33-58, continuing from `acc`. */
  function LoadRecords(acc: LocusMap, rs: seq<VariantRecord>): (res: Result<LocusMap>)
    requires acc.Valid()
    ensures res.Ok? <==> AllClassified(rs)
    ensures res.Err? ==> FirstFailure(rs, res.error)
    ensures res.Ok? ==> res.value.Valid()
    decreases |rs|
  {
    if rs == [] then Ok(acc)
    else
      var _ :- Classify(rs[0]);
      var res := LoadRecords(Step(acc, rs[0]), rs[1..]);
      assert res.Ok? <==> AllClassified(rs) by {
        if AllClassified(rs[1..]) {
          forall i | 0 <= i < |rs| ensures Classify(rs[i]).Ok? {
            if i > 0 { assert rs[i] == rs[1..][i - 1]; }
          }
        }
        if AllClassified(rs) {
          forall i | 0 <= i < |rs[1..]| ensures Classify(rs[1..][i]).Ok? {
            assert rs[1..][i] == rs[i + 1];
          }
        }
      }
      assert res.Err? ==> FirstFailure(rs, res.error) by {
        if res.Err? {
          var i :| 0 <= i < |rs[1..]| && Classify(rs[1..][i]) == Err(res.error)
                   && forall j :: 0 <= j < i ==> Classify(rs[1..][j]).Ok?;
          assert rs[i + 1] == rs[1..][i];
          forall j | 0 <= j < i + 1 ensures Classify(rs[j]).Ok? {
            if j > 0 { assert rs[j] == rs[1..][j - 1]; }
          }
        }
      }
      res
  }

  /** The map after one record: its key, if retained, gains the record at the end. */
  function Step(acc: LocusMap, r: VariantRecord): (d: LocusMap)
    requires acc.Valid() && Classify(r).Ok?
    ensures d.Valid()
  {
    if Classify(r) == Ok(Retained) then Append(acc, r) else acc
  }

  lemma StepEffect(acc: LocusMap, r: VariantRecord, k: LocusKey)
    requires acc.Valid() && Classify(r).Ok?
    ensures Get(Step(acc, r), k, []) == Get(acc, k, []) + (if RetainedUnder(r, k) then [r] else [])
    ensures k in Step(acc, r).entries <==> k in acc.entries || RetainedUnder(r, k)
    ensures acc.keys <= Step(acc, r).keys
  {
  }

  lemma KeptAtUnfold(rs: seq<VariantRecord>, k: LocusKey)
    requires rs != []
    ensures KeptAt(rs, k) == (if RetainedUnder(rs[0], k) then [rs[0]] else []) + KeptAt(rs[1..], k)
  {
  }

  /** One induction step of LoadRecordsContents, for one key: membership ... */
  lemma MembershipStep(acc: LocusMap, rs: seq<VariantRecord>, k: LocusKey, d: LocusMap)
    requires acc.Valid() && rs != [] && Classify(rs[0]).Ok?
    requires k in d.entries <==> k in Step(acc, rs[0]).entries || KeptAt(rs[1..], k) != []
    ensures k in d.entries <==> k in acc.entries || KeptAt(rs, k) != []
  {
    StepEffect(acc, rs[0], k);
    KeptAtUnfold(rs, k);
  }

  /** ... and contents. */
  lemma ContentsStep(acc: LocusMap, rs: seq<VariantRecord>, k: LocusKey, d: LocusMap)
    requires acc.Valid() && rs != [] && Classify(rs[0]).Ok?
    requires k in d.entries ==> d.entries[k] == Get(Step(acc, rs[0]), k, []) + KeptAt(rs[1..], k)
    ensures k in d.entries ==> d.entries[k] == Get(acc, k, []) + KeptAt(rs, k)
  {
    StepEffect(acc, rs[0], k);
    KeptAtUnfold(rs, k);
    var a := Get(acc, k, []);
    var x := if RetainedUnder(rs[0], k) then [rs[0]] else [];
    var t := KeptAt(rs[1..], k);
    AppendAssoc(a, x, t);
  }

  /** The keys of the records of `rs` the loader keeps, each once, in the
      order of its first retained record: the order in which a dict filled by
      `setdefault` lists them. */
  function RetainedKeys(rs: seq<VariantRecord>): (ks: seq<LocusKey>)
    ensures Distinct(ks)
    ensures forall k :: k in ks <==> KeptAt(rs, k) != []
  {
    if rs == [] then []
    else if Classify(rs[0]) == Ok(Retained) then
      var k := KeyOf(rs[0]);
      var rest := Unseen(RetainedKeys(rs[1..]), {k});
      assert Distinct([k] + rest) by {
        forall i, j | 0 <= i < j < |[k] + rest| ensures ([k] + rest)[i] != ([k] + rest)[j] {
          if i > 0 { assert ([k] + rest)[i] == rest[i - 1]; }
          assert ([k] + rest)[j] == rest[j - 1] && rest[j - 1] in rest;
        }
      }
      [k] + rest
    else RetainedKeys(rs[1..])
  }

  /** After the loop, the keys present before keep their places at the front
      and the keys of the remaining retained records follow, each at its
      first retained occurrence. */
  lemma {:induction false} LoadRecordsKeys(acc: LocusMap, rs: seq<VariantRecord>)
    requires acc.Valid()
    requires LoadRecords(acc, rs).Ok?
    ensures LoadRecords(acc, rs).value.keys == acc.keys + Unseen(RetainedKeys(rs), acc.entries.Keys)
    decreases |rs|
  {
    if rs == [] {
      assert acc.keys + [] == acc.keys;
    } else {
      var acc' := Step(acc, rs[0]);
      assert LoadRecords(acc, rs) == LoadRecords(acc', rs[1..]);
      LoadRecordsKeys(acc', rs[1..]);
      var t := RetainedKeys(rs[1..]);
      if Classify(rs[0]) == Ok(Retained) {
        assert RetainedKeys(rs) == [KeyOf(rs[0])] + Unseen(t, {KeyOf(rs[0])});
        KeysStep(acc, rs[0], t);
      } else {
        assert RetainedKeys(rs) == t && acc' == acc;
      }
    }
  }

  /** One retained record: its key joins the end unless already present,
      and the keys still to come lose it. */
  lemma KeysStep(acc: LocusMap, r: VariantRecord, t: seq<LocusKey>)
    requires acc.Valid() && Classify(r) == Ok(Retained)
    ensures var k := KeyOf(r);
      Step(acc, r).keys + Unseen(t, Step(acc, r).entries.Keys)
        == acc.keys + Unseen([k] + Unseen(t, {k}), acc.entries.Keys)
  {
    var k := KeyOf(r);
    var acc' := Step(acc, r);
    var a := acc.entries.Keys;
    var u := Unseen(t, {k});
    assert acc'.entries.Keys == a + {k};
    UnseenAppend([k], u, a);
    UnseenUnion(t, a, {k});
    var v := Unseen(t, a + {k});
    assert Unseen([k] + u, a) == Unseen([k], a) + v;
    assert Unseen([k], a) == (if k in a then [] else [k]) + Unseen([], a);
    if k in acc.entries {
      assert acc'.keys == acc.keys;
      assert Unseen([k] + u, a) == v;
    } else {
      assert acc'.keys == acc.keys + [k];
      assert Unseen([k] + u, a) == [k] + v;
      AppendAssoc(acc.keys, [k], v);
    }
  }

  /** After the loop, each key maps to what it held before followed by the
      records retained under it, in input order, and nothing else gains a key. */
  lemma {:induction false} LoadRecordsContents(acc: LocusMap, rs: seq<VariantRecord>)
    requires acc.Valid()
    requires LoadRecords(acc, rs).Ok?
    ensures forall k :: k in LoadRecords(acc, rs).value.entries <==> k in acc.entries || KeptAt(rs, k) != []
    ensures forall k :: k in LoadRecords(acc, rs).value.entries ==>
              LoadRecords(acc, rs).value.entries[k] == Get(acc, k, []) + KeptAt(rs, k)
    decreases |rs|
  {
    if rs != [] {
      assert Classify(rs[0]).Ok?;
      var acc' := Step(acc, rs[0]);
      assert LoadRecords(acc, rs) == LoadRecords(acc', rs[1..]);
      LoadRecordsContents(acc', rs[1..]);
      var d := LoadRecords(acc, rs).value;
      forall k
        ensures k in d.entries <==> k in acc.entries || KeptAt(rs, k) != []
        ensures k in d.entries ==> d.entries[k] == Get(acc, k, []) + KeptAt(rs, k)
      {
        MembershipStep(acc, rs, k, d);
        ContentsStep(acc, rs, k, d);
      }
    }
  }

  /** A retained record shows up in the list of its own key. */
  lemma {:induction false} KeptAtContains(rs: seq<VariantRecord>, i: nat)
    requires i < |rs| && Classify(rs[i]) == Ok(Retained)
    ensures rs[i] in KeptAt(rs, KeyOf(rs[i]))
    decreases |rs|
  {
    if i > 0 {
      assert rs[1..][i - 1] == rs[i];
      KeptAtContains(rs[1..], i - 1);
    }
  }

  /** The loop ends with an empty map exactly when no record is retained. */
  lemma NonEmptyIffRetained(rs: seq<VariantRecord>)
    requires LoadRecords(Empty(), rs).Ok?
    ensures SomeRetained(rs) <==> |LoadRecords(Empty(), rs).value.keys| > 0
  {
    var d := LoadRecords(Empty(), rs).value;
    LoadRecordsContents(Empty(), rs);
    if SomeRetained(rs) {
      var i :| 0 <= i < |rs| && Classify(rs[i]) == Ok(Retained);
      KeptAtContains(rs, i);
      assert KeyOf(rs[i]) in d.entries;
    }
    if |d.keys| > 0 {
      assert d.keys[0] in d.entries;
      var kept := KeptAt(rs, d.keys[0]);
      assert kept[0] in kept;
      var i :| 0 <= i < |rs| && rs[i] == kept[0];
    }
  }

  /** What `load_variants` returns: the header's sample name and the map. */
  datatype Loaded = Loaded(sample: string, variants: LocusMap)

  /** `load_variants`, make_diploid.py:18-70. */
  function LoadVariants(src: VcfSource): (res: Result<Loaded>)
    ensures |src.samples| > 1 ==> res == Err(MultipleSamples)
    ensures |src.samples| == 0 ==> res == Err(NoSamples)
    ensures |src.samples| == 1 && !AllClassified(src.records) ==> res.Err? && FirstFailure(src.records, res.error)
    ensures res == Err(NoVariants) <==>
              |src.samples| == 1 && AllClassified(src.records) && !SomeRetained(src.records)
    ensures res.Ok? <==> |src.samples| == 1 && AllClassified(src.records) && SomeRetained(src.records)
    ensures res.Err? ==> res.error in {MultipleSamples, NoSamples, MissingAlts, EmptyGenotype, NoVariants}
    ensures res.Ok? ==> res.value.sample == src.samples[0] && res.value.variants.Valid()
    ensures res.Ok? ==> forall k :: k in res.value.variants.entries <==> KeptAt(src.records, k) != []
    ensures res.Ok? ==> forall k :: k in res.value.variants.entries ==>
              res.value.variants.entries[k] == KeptAt(src.records, k)
    ensures res.Ok? ==> res.value.variants.keys == RetainedKeys(src.records)
  {
    if |src.samples| > 1 then Err(MultipleSamples)
    else if |src.samples| == 0 then Err(NoSamples)
    else
      var d :- LoadRecords(Empty(), src.records);
      LoadRecordsContents(Empty(), src.records);
      LoadRecordsKeys(Empty(), src.records);
      UnseenNothing(RetainedKeys(src.records));
      assert [] + RetainedKeys(src.records) == RetainedKeys(src.records);
      NonEmptyIffRetained(src.records);
      if |d.keys| == 0 then Err(NoVariants)
      else Ok(Loaded(src.samples[0], d))
  }

  /** Every record in the map is a retained record of `rs` filed under its own key. */
  ghost predicate DrawnFrom(m: LocusMap, rs: seq<VariantRecord>) {
    forall k | k in m.entries :: forall x | x in m.entries[k] :: x in rs && RetainedUnder(x, k)
  }

  /** The loaded map holds only single-ALT records of the source, each under
      its own `(chrom, pos, ref, alts[0])`: no multi-allelic record contributes
      a key. */
  lemma LoadedRecordsAreRetained(src: VcfSource)
    requires LoadVariants(src).Ok?
    ensures DrawnFrom(LoadVariants(src).value.variants, src.records)
    ensures forall k | k in LoadVariants(src).value.variants.entries ::
              forall x | x in LoadVariants(src).value.variants.entries[k] :: |x.alts| == 1
  {
  }

  /** Retained records never share a key. */
  ghost predicate UniqueLoci(rs: seq<VariantRecord>) {
    forall i, j | 0 <= i < j < |rs| && Classify(rs[i]) == Ok(Retained) && Classify(rs[j]) == Ok(Retained) ::
      KeyOf(rs[i]) != KeyOf(rs[j])
  }

  lemma NothingRetainedUnder(rs: seq<VariantRecord>, k: LocusKey)
    requires forall i | 0 <= i < |rs| :: !RetainedUnder(rs[i], k)
    ensures KeptAt(rs, k) == []
  {
  }

  /** Without repeated loci, every key keeps at most one record. */
  lemma {:induction false} UniqueLociKeepOne(rs: seq<VariantRecord>, k: LocusKey)
    requires UniqueLoci(rs)
    ensures |KeptAt(rs, k)| <= 1
    decreases |rs|
  {
    if rs != [] {
      var t := rs[1..];
      assert UniqueLoci(t) by {
        forall i, j | 0 <= i < j < |t| && Classify(t[i]) == Ok(Retained) && Classify(t[j]) == Ok(Retained)
          ensures KeyOf(t[i]) != KeyOf(t[j])
        {
          assert t[i] == rs[i + 1] && t[j] == rs[j + 1];
        }
      }
      if RetainedUnder(rs[0], k) {
        forall i | 0 <= i < |t| ensures !RetainedUnder(t[i], k) {
          assert t[i] == rs[i + 1];
        }
        NothingRetainedUnder(t, k);
      } else {
        UniqueLociKeepOne(t, k);
      }
    }
  }
}
