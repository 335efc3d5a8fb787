/** The merge logic of `main`, make_diploid.py:167-206: load both inputs,
    merge them by locus, sort the loci by `(chrom, pos)`, resolve each locus
    and count it as homozygous or heterozygous. Opening, writing and the
    header are I/O and are not modelled; the records `main` writes are
    returned instead. */
module Driver {
  import opened Dicts
  import opened Vcf
  import opened Loader
  import opened Merge
  import opened Ordering
  import opened Resolver
  import opened Synthesis

  /** A diploid call counted as homozygous, make_diploid.py:188. */
  predicate IsHomozygous(gt: (Allele, Allele)) {
    gt == HomAlt
  }

  /** A diploid call counted as heterozygous, make_diploid.py:190. */
  predicate IsHeterozygous(gt: (Allele, Allele)) {
    gt == (Called(0), Called(1)) || gt == (Called(1), Called(0))
  }

  /** One entry of the sorted locus dict. */
  type Locus = (LocusKey, seq<VariantRecord>)

  /** One iteration of the output loop, make_diploid.py:185-199. */
  function WriteLocus(item: Locus, phase: PhaseTable, sampleName: string): (r: Result<OutputRecord>)
    ensures r.Ok? <==>
      ParseFields(item.1, phase).Ok? &&
      (IsHomozygous(ParseFields(item.1, phase).value.gt) || IsHeterozygous(ParseFields(item.1, phase).value.gt))
    ensures ParseFields(item.1, phase).Err? ==> r == Err(ParseFields(item.1, phase).error)
    ensures ParseFields(item.1, phase).Ok? && r.Err? ==>
      r.error == UnexpectedGenotype(item.1[0].chrom, item.1[0].pos, ParseFields(item.1, phase).value.gt)
    ensures r.Ok? ==>
      var p := ParseFields(item.1, phase).value;
      r.value == CreateVcfRecord(item.1[0], p.oq, p.dp, p.gt, p.samples, sampleName)
  {
    var p :- ParseFields(item.1, phase);
    var first := item.1[0];
    if IsHomozygous(p.gt) || IsHeterozygous(p.gt) then
      Ok(CreateVcfRecord(first, p.oq, p.dp, p.gt, p.samples, sampleName))
    else
      Err(UnexpectedGenotype(first.chrom, first.pos, p.gt))
  }

  /** A written record copies the locus's first record's contig, position, id,
      REF and ALT, carries the resolved OQ, SD, GT and SAMPLES, takes its
      QUAL by the min/max rule and is phased. */
  lemma WrittenRecordFields(item: Locus, phase: PhaseTable, sampleName: string)
    requires WriteLocus(item, phase, sampleName).Ok?
    ensures var p := ParseFields(item.1, phase).value;
      var rec := WriteLocus(item, phase, sampleName).value;
      && rec.contig == item.1[0].chrom && rec.pos == item.1[0].pos && rec.id == item.1[0].id
      && rec.ref == item.1[0].ref && rec.alts == item.1[0].alts
      && rec.oq == p.oq && rec.sd == p.dp && rec.gt == p.gt
      && rec.samplesInfo == p.samples && rec.sampleName == sampleName
      && rec.qual == Quality(p.oq, p.gt) && rec.phased
  {
  }

  /** The genotypes of the written records, in output order. */
  function Genotypes(written: seq<OutputRecord>): (gts: seq<(Allele, Allele)>)
    ensures |gts| == |written|
  {
    if written == [] then [] else [written[0].gt] + Genotypes(written[1..])
  }

  /** The counters and the records of the output loop. */
  datatype Tally = Tally(homozygous: nat, heterozygous: nat, written: seq<OutputRecord>)

  /** `e` is what the first locus that raises raises. */
  ghost predicate FirstLocusFailure(items: seq<Locus>, phase: PhaseTable, sampleName: string, e: Error) {
    exists i ::
      && 0 <= i < |items|
      && WriteLocus(items[i], phase, sampleName) == Err(e)
      && forall j :: 0 <= j < i ==> WriteLocus(items[j], phase, sampleName).Ok?
  }

  /** The tally after writing `rec` in front of the loci tallied in `t`. */
  function Count(rec: OutputRecord, t: Tally): (r: Tally)
    ensures r.written == [rec] + t.written
  {
    Tally(t.homozygous + (if IsHomozygous(rec.gt) then 1 else 0),
          t.heterozygous + (if IsHeterozygous(rec.gt) then 1 else 0),
          [rec] + t.written)
  }

  /** The output loop, make_diploid.py:184-201, over the remaining loci. */
  function WriteLoci(items: seq<Locus>, phase: PhaseTable, sampleName: string): (r: Result<Tally>)
    ensures r.Ok? ==> |r.value.written| == |items|
    decreases |items|
  {
    if items == [] then Ok(Tally(0, 0, []))
    else
      var head := WriteLocus(items[0], phase, sampleName);
      if head.Err? then Err(head.error)
      else
        var rest := WriteLoci(items[1..], phase, sampleName);
        if rest.Err? then Err(rest.error) else Ok(Count(head.value, rest.value))
  }

  /** The loop finishes exactly when no locus raises. */
  lemma {:induction false} WriteLociSucceeds(items: seq<Locus>, phase: PhaseTable, sampleName: string)
    ensures WriteLoci(items, phase, sampleName).Ok? <==>
              forall i :: 0 <= i < |items| ==> WriteLocus(items[i], phase, sampleName).Ok?
    decreases |items|
  {
    if items != [] {
      WriteLociSucceeds(items[1..], phase, sampleName);
      if WriteLoci(items[1..], phase, sampleName).Ok? && WriteLocus(items[0], phase, sampleName).Ok? {
        forall i | 0 <= i < |items| ensures WriteLocus(items[i], phase, sampleName).Ok? {
          if i > 0 { assert items[i] == items[1..][i - 1]; }
        }
      }
      if forall i :: 0 <= i < |items| ==> WriteLocus(items[i], phase, sampleName).Ok? {
        forall i | 0 <= i < |items[1..]| ensures WriteLocus(items[1..][i], phase, sampleName).Ok? {
          assert items[1..][i] == items[i + 1];
        }
      }
    }
  }

  /** A failed loop reports the first locus that raised. */
  lemma {:induction false} WriteLociFailure(items: seq<Locus>, phase: PhaseTable, sampleName: string)
    requires WriteLoci(items, phase, sampleName).Err?
    ensures FirstLocusFailure(items, phase, sampleName, WriteLoci(items, phase, sampleName).error)
    decreases |items|
  {
    var e := WriteLoci(items, phase, sampleName).error;
    var tail := items[1..];
    if WriteLocus(items[0], phase, sampleName).Ok? {
      assert WriteLoci(tail, phase, sampleName) == Err(e);
      WriteLociFailure(tail, phase, sampleName);
      var i :| 0 <= i < |tail| && WriteLocus(tail[i], phase, sampleName) == Err(e)
               && forall j :: 0 <= j < i ==> WriteLocus(tail[j], phase, sampleName).Ok?;
      assert items[i + 1] == tail[i];
      forall j | 0 <= j < i + 1 ensures WriteLocus(items[j], phase, sampleName).Ok? {
        if j > 0 { assert items[j] == tail[j - 1]; }
      }
    } else {
      assert WriteLocus(items[0], phase, sampleName) == Err(e);
    }
  }

  /** The i-th record written is the one built for the i-th locus. */
  lemma {:induction false} WriteLociRecords(items: seq<Locus>, phase: PhaseTable, sampleName: string)
    requires WriteLoci(items, phase, sampleName).Ok?
    ensures forall i :: 0 <= i < |items| ==>
              WriteLocus(items[i], phase, sampleName).Ok? &&
              WriteLoci(items, phase, sampleName).value.written[i] == WriteLocus(items[i], phase, sampleName).value
    decreases |items|
  {
    if items != [] {
      WriteLociRecords(items[1..], phase, sampleName);
      forall i | 0 <= i < |items|
        ensures WriteLocus(items[i], phase, sampleName).Ok? &&
                WriteLoci(items, phase, sampleName).value.written[i] == WriteLocus(items[i], phase, sampleName).value
      {
        if i > 0 { assert items[i] == items[1..][i - 1]; }
      }
    }
  }

  /** The counters of a tally agree with the genotypes it holds. */
  ghost predicate CountsGenotypes(t: Tally) {
    var gts := multiset(Genotypes(t.written));
    && t.homozygous == gts[HomAlt]
    && t.heterozygous == gts[(Called(0), Called(1))] + gts[(Called(1), Called(0))]
  }

  /** Counting one more homozygous or heterozygous record keeps the counters
      in step with the genotypes and adds one to their sum. */
  lemma CountStep(rec: OutputRecord, rest: Tally)
    requires IsHomozygous(rec.gt) || IsHeterozygous(rec.gt)
    requires CountsGenotypes(rest)
    ensures CountsGenotypes(Count(rec, rest))
    ensures Count(rec, rest).homozygous + Count(rec, rest).heterozygous == rest.homozygous + rest.heterozygous + 1
  {
    var t := Count(rec, rest);
    assert t.written[1..] == rest.written;
    assert Genotypes(t.written) == [rec.gt] + Genotypes(rest.written);
    assert multiset(Genotypes(t.written)) == multiset{rec.gt} + multiset(Genotypes(rest.written));
  }

  /** The homozygous counter counts the `(1, 1)` calls written, the
      heterozygous counter the `(0, 1)` and `(1, 0)` calls, and together they
      count every locus. */
  lemma {:induction false} WriteLociCounts(items: seq<Locus>, phase: PhaseTable, sampleName: string)
    requires WriteLoci(items, phase, sampleName).Ok?
    ensures var t := WriteLoci(items, phase, sampleName).value;
      && t.homozygous == multiset(Genotypes(t.written))[HomAlt]
      && t.heterozygous ==
           multiset(Genotypes(t.written))[(Called(0), Called(1))] + multiset(Genotypes(t.written))[(Called(1), Called(0))]
      && t.homozygous + t.heterozygous == |items|
    decreases |items|
  {
    if items != [] {
      var rec := WriteLocus(items[0], phase, sampleName).value;
      var rest := WriteLoci(items[1..], phase, sampleName).value;
      WriteLociCounts(items[1..], phase, sampleName);
      assert WriteLoci(items, phase, sampleName).value == Count(rec, rest);
      CountStep(rec, rest);
    }
  }

  /** What `main` returns: the sorted locus dict and the two counters, with
      the records it writes. */
  datatype Summary = Summary(variants: LocusMap, homozygous: nat, heterozygous: nat, written: seq<OutputRecord>)

  /** `dict(sorted(variants.items(), key=...))`, make_diploid.py:182. */
  function SortLoci(m: LocusMap): (sorted: LocusMap)
    requires m.Valid()
    ensures sorted.Valid()
    ensures sorted.entries == m.entries
    ensures Items(sorted) == SortByPosition(Items(m))
    ensures SortedByPosition(Items(sorted))
    ensures forall chrom, pos :: TiedAt(Items(sorted), chrom, pos) == TiedAt(Items(m), chrom, pos)
  {
    var s := SortByPosition(Items(m));
    SortedDict(m);
    SortSorts(Items(m));
    forall chrom, pos ensures TiedAt(s, chrom, pos) == TiedAt(Items(m), chrom, pos) {
      SortIsStable(Items(m), chrom, pos);
    }
    FromItems(s)
  }

  /** Sorting the items of a dict keeps their keys distinct, so rebuilding
      a dict from them gives those items back in sorted order. */
  lemma SortedItems(m: LocusMap)
    requires m.Valid()
    ensures Items(FromItems(SortByPosition(Items(m)))) == SortByPosition(Items(m))
  {
    var s := SortByPosition(Items(m));
    SortKeepsDistinct(Items(m));
    assert Distinct(Firsts(s));
    FromItemsRoundTrip(s);
  }

  /** Every entry of the rebuilt dict is an entry of the original. */
  lemma SortedEntriesFromOriginal(m: LocusMap, k: LocusKey)
    requires m.Valid()
    requires k in FromItems(SortByPosition(Items(m))).entries
    ensures k in m.entries && FromItems(SortByPosition(Items(m))).entries[k] == m.entries[k]
  {
    var items := Items(m);
    var s := SortByPosition(items);
    var d := FromItems(s);
    SortedItems(m);
    SortPermutes(items);
    assert k in d.keys;
    var i :| 0 <= i < |d.keys| && d.keys[i] == k;
    assert s[i] == Items(d)[i];
    assert s[i] in multiset(items);
    var j :| 0 <= j < |items| && items[j] == s[i];
  }

  /** Every key of the original is kept. */
  lemma SortedKeysFromOriginal(m: LocusMap, k: LocusKey)
    requires m.Valid()
    requires k in m.entries
    ensures k in FromItems(SortByPosition(Items(m))).entries
  {
    var items := Items(m);
    var s := SortByPosition(items);
    var d := FromItems(s);
    SortedItems(m);
    SortPermutes(items);
    var j :| 0 <= j < |m.keys| && m.keys[j] == k;
    assert items[j] in multiset(s);
    var i :| 0 <= i < |s| && s[i] == items[j];
    assert Items(d)[i] == s[i];
  }

  /** Sorting the items of a dict and rebuilding it keeps every entry. */
  lemma SortedDict(m: LocusMap)
    requires m.Valid()
    ensures Items(FromItems(SortByPosition(Items(m)))) == SortByPosition(Items(m))
    ensures FromItems(SortByPosition(Items(m))).entries == m.entries
  {
    SortedItems(m);
    var d := FromItems(SortByPosition(Items(m)));
    forall k | k in d.entries ensures k in m.entries && d.entries[k] == m.entries[k] {
      SortedEntriesFromOriginal(m, k);
    }
    forall k | k in m.entries ensures k in d.entries {
      SortedKeysFromOriginal(m, k);
    }
  }

  /** The merged locus dict of two loaded inputs, make_diploid.py:170-172. */
  function Merged(src1: VcfSource, src2: VcfSource): (m: LocusMap)
    requires LoadVariants(src1).Ok? && LoadVariants(src2).Ok?
    ensures m.Valid()
  {
    MergeDictionaries(LoadVariants(src1).value.variants, LoadVariants(src2).value.variants)
  }

  /** `main`, make_diploid.py:167-206, without the file I/O. */
  function Main(src1: VcfSource, src2: VcfSource, sampleName: string): (r: Result<Summary>)
    ensures LoadVariants(src1).Err? ==> r == Err(LoadVariants(src1).error)
    ensures LoadVariants(src1).Ok? && LoadVariants(src2).Err? ==> r == Err(LoadVariants(src2).error)
    ensures r.Ok? ==> LoadVariants(src1).Ok? && LoadVariants(src2).Ok?
    ensures r.Ok? ==> r.value.variants.Valid() && |r.value.written| == |r.value.variants.keys|
    ensures r.Ok? ==>
              var phase := MakePhaseTable(LoadVariants(src1).value.sample, LoadVariants(src2).value.sample);
              forall i :: 0 <= i < |r.value.written| ==>
                WriteLocus(Items(r.value.variants)[i], phase, sampleName) == Ok(r.value.written[i])
    ensures r.Err? && LoadVariants(src1).Ok? && LoadVariants(src2).Ok? ==>
              var phase := MakePhaseTable(LoadVariants(src1).value.sample, LoadVariants(src2).value.sample);
              FirstLocusFailure(Items(SortLoci(Merged(src1, src2))), phase, sampleName, r.error)
  {
    var loaded1 :- LoadVariants(src1);
    var loaded2 :- LoadVariants(src2);
    Combine(loaded1, loaded2, sampleName)
  }

  /** `main` after both inputs are loaded, make_diploid.py:172-206. */
  function Combine(loaded1: Loaded, loaded2: Loaded, sampleName: string): (r: Result<Summary>)
    requires loaded1.variants.Valid() && loaded2.variants.Valid()
    ensures r.Ok? ==> r.value.variants == SortLoci(MergeDictionaries(loaded1.variants, loaded2.variants))
    ensures r.Ok? ==> |r.value.written| == |r.value.variants.keys|
    ensures r.Ok? ==> forall i :: 0 <= i < |r.value.written| ==>
              WriteLocus(Items(r.value.variants)[i], MakePhaseTable(loaded1.sample, loaded2.sample), sampleName)
                == Ok(r.value.written[i])
    ensures r.Err? ==>
              FirstLocusFailure(Items(SortLoci(MergeDictionaries(loaded1.variants, loaded2.variants))),
                                MakePhaseTable(loaded1.sample, loaded2.sample), sampleName, r.error)
  {
    var merged := MergeDictionaries(loaded1.variants, loaded2.variants);
    var phase := MakePhaseTable(loaded1.sample, loaded2.sample);
    var sorted := SortLoci(merged);
    var items := Items(sorted);
    var loop := WriteLoci(items, phase, sampleName);
    if loop.Err? then
      WriteLociFailure(items, phase, sampleName);
      Err(loop.error)
    else
      WriteLociRecords(items, phase, sampleName);
      var tally := loop.value;
      Ok(Summary(sorted, tally.homozygous, tally.heterozygous, tally.written))
  }

  /** The dict `main` returns holds the merged loci, sorted by
      `(chrom, pos)`, loci tied on `(chrom, pos)` in merged order. */
  lemma MainSortsMergedLoci(src1: VcfSource, src2: VcfSource, sampleName: string)
    requires Main(src1, src2, sampleName).Ok?
    ensures LoadVariants(src1).Ok? && LoadVariants(src2).Ok?
    ensures var v := Main(src1, src2, sampleName).value.variants;
      && v.Valid()
      && v.entries == Merged(src1, src2).entries
      && SortedByPosition(Items(v))
      && forall chrom, pos :: TiedAt(Items(v), chrom, pos) == TiedAt(Items(Merged(src1, src2)), chrom, pos)
  {
  }

  /** One record is written per locus, each counted once, as homozygous or as
      heterozygous. */
  lemma CombineCounts(loaded1: Loaded, loaded2: Loaded, sampleName: string)
    requires loaded1.variants.Valid() && loaded2.variants.Valid()
    requires Combine(loaded1, loaded2, sampleName).Ok?
    ensures var out := Combine(loaded1, loaded2, sampleName).value;
      && |out.written| == |out.variants.keys|
      && out.homozygous + out.heterozygous == |out.written|
      && out.homozygous == multiset(Genotypes(out.written))[HomAlt]
      && (forall rec :: rec in out.written ==> IsHomozygous(rec.gt) || IsHeterozygous(rec.gt))
  {
    var phase := MakePhaseTable(loaded1.sample, loaded2.sample);
    var sorted := SortLoci(MergeDictionaries(loaded1.variants, loaded2.variants));
    var items := Items(sorted);
    WriteLociCounts(items, phase, sampleName);
    WriteLociCalls(items, phase, sampleName);
  }

  lemma MainCounts(src1: VcfSource, src2: VcfSource, sampleName: string)
    requires Main(src1, src2, sampleName).Ok?
    ensures var out := Main(src1, src2, sampleName).value;
      && |out.written| == |out.variants.keys|
      && out.homozygous + out.heterozygous == |out.written|
      && out.homozygous == multiset(Genotypes(out.written))[HomAlt]
      && (forall rec :: rec in out.written ==> IsHomozygous(rec.gt) || IsHeterozygous(rec.gt))
  {
    CombineCounts(LoadVariants(src1).value, LoadVariants(src2).value, sampleName);
  }

  /** Every record the loop writes carries a homozygous or heterozygous call. */
  lemma WriteLociCalls(items: seq<Locus>, phase: PhaseTable, sampleName: string)
    requires WriteLoci(items, phase, sampleName).Ok?
    ensures forall rec :: rec in WriteLoci(items, phase, sampleName).value.written ==>
              IsHomozygous(rec.gt) || IsHeterozygous(rec.gt)
  {
    var w := WriteLoci(items, phase, sampleName).value.written;
    WriteLociRecords(items, phase, sampleName);
    forall rec | rec in w ensures IsHomozygous(rec.gt) || IsHeterozygous(rec.gt) {
      var i :| 0 <= i < |w| && w[i] == rec;
      assert WriteLocus(items[i], phase, sampleName).Ok?;
    }
  }

  // ---------------------------------------------------------------------
  // The "Unexpected genotype" error of make_diploid.py:192-194

  /** Every retained record calls the ALT allele first. */
  ghost predicate AltFirst(rs: seq<VariantRecord>) {
    forall r :: r in rs && Classify(r) == Ok(Retained) ==> r.gt[0] == Called(1)
  }

  /** A retained record of a VCF with at most two calls per GT and no allele
      index beyond its one ALT calls the ALT allele first. */
  lemma RetainedCallsAlt(r: VariantRecord)
    requires Classify(r) == Ok(Retained)
    requires |r.gt| <= 2
    requires forall i :: 0 <= i < |r.gt| ==> r.gt[i] == NoCall || r.gt[i].index <= |r.alts|
    ensures r.gt[0] == Called(1)
  {
  }

  /** Records whose first call is the ALT allele resolve to `(1, 1)`,
      `(1, 0)` or `(0, 1)`, whatever the phase table. */
  lemma ResolvedCallsExpected(vars: seq<VariantRecord>, phase: PhaseTable)
    requires forall x :: x in vars ==> |x.gt| > 0 && x.gt[0] == Called(1)
    requires ParseFields(vars, phase).Ok?
    ensures IsHomozygous(ParseFields(vars, phase).value.gt) || IsHeterozygous(ParseFields(vars, phase).value.gt)
  {
    assert vars[0] in vars;
    if |vars| == 2 {
      assert vars[1] in vars;
    }
  }

  /** Merging keeps every record where the loader put it. */
  lemma MergedDrawnFrom(a: LocusMap, b: LocusMap, rs1: seq<VariantRecord>, rs2: seq<VariantRecord>)
    requires a.Valid() && b.Valid()
    requires DrawnFrom(a, rs1) && DrawnFrom(b, rs2)
    ensures DrawnFrom(MergeDictionaries(a, b), rs1 + rs2)
  {
    var m := MergeDictionaries(a, b);
    forall k | k in m.entries ensures forall x | x in m.entries[k] :: x in rs1 + rs2 && RetainedUnder(x, k) {
      if k in a.entries && k in b.entries {
        assert m.entries[k] == a.entries[k] + b.entries[k];
      }
    }
  }

  /** If every retained record of both inputs calls the ALT allele first,
      `main` never raises "Unexpected genotype". Distinct sample names are not
      needed for this: any failure of the phase table is an exception of its
      own, raised before the genotype is classified. */
  lemma NoUnexpectedGenotype(src1: VcfSource, src2: VcfSource, sampleName: string)
    requires AltFirst(src1.records) && AltFirst(src2.records)
    ensures Main(src1, src2, sampleName).Err? ==> !Main(src1, src2, sampleName).error.UnexpectedGenotype?
  {
    if LoadVariants(src1).Ok? && LoadVariants(src2).Ok? {
      var l1, l2 := LoadVariants(src1).value, LoadVariants(src2).value;
      LoadedRecordsAreRetained(src1);
      LoadedRecordsAreRetained(src2);
      MergedDrawnFrom(l1.variants, l2.variants, src1.records, src2.records);
      CombineNoUnexpected(l1, l2, sampleName, src1.records + src2.records);
    }
  }

  lemma CombineNoUnexpected(l1: Loaded, l2: Loaded, sampleName: string, rs: seq<VariantRecord>)
    requires l1.variants.Valid() && l2.variants.Valid()
    requires DrawnFrom(MergeDictionaries(l1.variants, l2.variants), rs)
    requires AltFirst(rs)
    ensures Combine(l1, l2, sampleName).Err? ==> !Combine(l1, l2, sampleName).error.UnexpectedGenotype?
  {
    var merged := MergeDictionaries(l1.variants, l2.variants);
    var phase := MakePhaseTable(l1.sample, l2.sample);
    var sorted := SortLoci(merged);
    var items := Items(sorted);
    if WriteLoci(items, phase, sampleName).Err? {
      WriteLociFailure(items, phase, sampleName);
      var e := WriteLoci(items, phase, sampleName).error;
      var i :| 0 <= i < |items| && WriteLocus(items[i], phase, sampleName) == Err(e);
      var vars := items[i].1;
      assert vars == merged.entries[items[i].0];
      if ParseFields(vars, phase).Ok? {
        forall x | x in vars ensures |x.gt| > 0 && x.gt[0] == Called(1) {
          assert x in rs && RetainedUnder(x, items[i].0);
        }
        ResolvedCallsExpected(vars, phase);
      }
    }
  }

  // ---------------------------------------------------------------------
  // When `main` succeeds

  /** An input `main` handles without an exception: one sample, every record
      classified, some record retained, no locus retained twice, and every
      retained record carrying the header's sample and calling ALT first. */
  ghost predicate WellFormedSource(src: VcfSource) {
    && |src.samples| == 1
    && AllClassified(src.records)
    && SomeRetained(src.records)
    && UniqueLoci(src.records)
    && AltFirst(src.records)
    && forall r :: r in src.records ==> r.sample == src.samples[0]
  }

  /** A loaded dict with one haploid ALT call of the dict's sample per locus. */
  ghost predicate OneCallPerLocus(l: Loaded) {
    && l.variants.Valid()
    && forall k | k in l.variants.entries ::
         && |l.variants.entries[k]| == 1
         && var x := l.variants.entries[k][0];
            x.sample == l.sample && |x.gt| > 0 && x.gt[0] == Called(1) && IsHaploidCall(x.gt)
  }

  lemma WellFormedLoads(src: VcfSource)
    requires WellFormedSource(src)
    ensures LoadVariants(src).Ok? && OneCallPerLocus(LoadVariants(src).value)
  {
    var l := LoadVariants(src).value;
    forall k | k in l.variants.entries
      ensures |l.variants.entries[k]| == 1
      ensures var x := l.variants.entries[k][0];
                x.sample == l.sample && |x.gt| > 0 && x.gt[0] == Called(1) && IsHaploidCall(x.gt)
    {
      UniqueLociKeepOne(src.records, k);
      var x := l.variants.entries[k][0];
      assert x in KeptAt(src.records, k);
      RetainedIsHaploid(x);
    }
  }

  /** `1` where the input has a call at the locus, `0` where it has none. */
  function Presence(l: Loaded, k: LocusKey): Allele {
    if k in l.variants.entries then Called(1) else Called(0)
  }

  /** The diploid call `main` writes at `k` when it succeeds: the presences
      of the locus in the first and in the second input. */
  function DiploidCall(l1: Loaded, l2: Loaded, k: LocusKey): (Allele, Allele) {
    (Presence(l1, k), Presence(l2, k))
  }

  /** With two distinct sample names, neither `"both"`, every locus resolves
      to the pair of its presences in the two inputs. */
  lemma LocusResolves(l1: Loaded, l2: Loaded, sampleName: string, k: LocusKey)
    requires OneCallPerLocus(l1) && OneCallPerLocus(l2)
    requires l1.sample != l2.sample && l1.sample != "both" && l2.sample != "both"
    requires k in MergeDictionaries(l1.variants, l2.variants).entries
    ensures var item := (k, MergeDictionaries(l1.variants, l2.variants).entries[k]);
      var w := WriteLocus(item, MakePhaseTable(l1.sample, l2.sample), sampleName);
      w.Ok? && w.value.gt == DiploidCall(l1, l2, k)
  {
    if k in l1.variants.entries && k in l2.variants.entries {
      BothCallsResolve(l1, l2, sampleName, k);
    } else if k in l1.variants.entries {
      FirstCallResolves(l1, l2, sampleName, k);
    } else {
      SecondCallResolves(l1, l2, sampleName, k);
    }
  }

  /** A locus both inputs call resolves to `(1, 1)`. */
  lemma BothCallsResolve(l1: Loaded, l2: Loaded, sampleName: string, k: LocusKey)
    requires OneCallPerLocus(l1) && OneCallPerLocus(l2)
    requires k in l1.variants.entries && k in l2.variants.entries
    ensures var item := (k, MergeDictionaries(l1.variants, l2.variants).entries[k]);
      var w := WriteLocus(item, MakePhaseTable(l1.sample, l2.sample), sampleName);
      w.Ok? && w.value.gt == HomAlt
  {
    var a, b := l1.variants, l2.variants;
    var item := (k, MergeDictionaries(a, b).entries[k]);
    var x := OneCallAt(l1, k);
    var y := OneCallAt(l2, k);
    assert item.1 == [x, y] by {
      assert item.1 == a.entries[k] + b.entries[k];
    }
    TwoCallsResolve(item, x, y, MakePhaseTable(l1.sample, l2.sample), sampleName);
  }

  /** A locus only the first input calls resolves to `(1, 0)`. */
  lemma FirstCallResolves(l1: Loaded, l2: Loaded, sampleName: string, k: LocusKey)
    requires OneCallPerLocus(l1) && OneCallPerLocus(l2)
    requires l1.sample != l2.sample && l1.sample != "both"
    requires k in l1.variants.entries && k !in l2.variants.entries
    ensures var item := (k, MergeDictionaries(l1.variants, l2.variants).entries[k]);
      var w := WriteLocus(item, MakePhaseTable(l1.sample, l2.sample), sampleName);
      w.Ok? && w.value.gt == (Called(1), Called(0))
  {
    var item := (k, MergeDictionaries(l1.variants, l2.variants).entries[k]);
    var x := OneCallAt(l1, k);
    assert item.1 == [x];
    OneCallResolves(item, x, MakePhaseTable(l1.sample, l2.sample), sampleName);
  }

  /** A locus only the second input calls resolves to `(0, 1)`. */
  lemma SecondCallResolves(l1: Loaded, l2: Loaded, sampleName: string, k: LocusKey)
    requires OneCallPerLocus(l1) && OneCallPerLocus(l2)
    requires l2.sample != "both"
    requires k !in l1.variants.entries && k in l2.variants.entries
    ensures var item := (k, MergeDictionaries(l1.variants, l2.variants).entries[k]);
      var w := WriteLocus(item, MakePhaseTable(l1.sample, l2.sample), sampleName);
      w.Ok? && w.value.gt == (Called(0), Called(1))
  {
    var item := (k, MergeDictionaries(l1.variants, l2.variants).entries[k]);
    var y := OneCallAt(l2, k);
    assert item.1 == [y];
    OneCallResolves(item, y, MakePhaseTable(l1.sample, l2.sample), sampleName);
  }

  /** The one call a loaded dict holds at `k`. */
  lemma OneCallAt(l: Loaded, k: LocusKey) returns (x: VariantRecord)
    requires OneCallPerLocus(l) && k in l.variants.entries
    ensures l.variants.entries[k] == [x]
    ensures x.sample == l.sample && |x.gt| > 0 && x.gt[0] == Called(1) && IsHaploidCall(x.gt)
  {
    x := l.variants.entries[k][0];
  }

  lemma TwoCallsResolve(item: Locus, x: VariantRecord, y: VariantRecord, phase: PhaseTable, sampleName: string)
    requires item.1 == [x, y]
    requires "both" in phase.entries && phase.entries["both"] == BothHaplotypes
    requires |x.gt| > 0 && x.gt[0] == Called(1) && IsHaploidCall(x.gt)
    requires |y.gt| > 0 && y.gt[0] == Called(1) && IsHaploidCall(y.gt)
    ensures WriteLocus(item, phase, sampleName).Ok?
    ensures WriteLocus(item, phase, sampleName).value.gt == HomAlt
  {
  }

  lemma OneCallResolves(item: Locus, x: VariantRecord, phase: PhaseTable, sampleName: string)
    requires item.1 == [x]
    requires x.sample in phase.entries && phase.entries[x.sample] != BothHaplotypes
    requires |x.gt| > 0 && x.gt[0] == Called(1)
    ensures WriteLocus(item, phase, sampleName).Ok?
    ensures phase.entries[x.sample] == FirstHaplotype ==>
              WriteLocus(item, phase, sampleName).value.gt == (Called(1), Called(0))
    ensures phase.entries[x.sample] == SecondHaplotype ==>
              WriteLocus(item, phase, sampleName).value.gt == (Called(0), Called(1))
  {
  }

  lemma CombineSucceeds(l1: Loaded, l2: Loaded, sampleName: string)
    requires OneCallPerLocus(l1) && OneCallPerLocus(l2)
    requires l1.sample != l2.sample && l1.sample != "both" && l2.sample != "both"
    ensures Combine(l1, l2, sampleName).Ok?
    ensures var out := Combine(l1, l2, sampleName).value;
      forall i :: 0 <= i < |out.written| ==>
        var k := Items(out.variants)[i].0;
        out.written[i].gt == DiploidCall(l1, l2, k)
  {
    var merged := MergeDictionaries(l1.variants, l2.variants);
    var phase := MakePhaseTable(l1.sample, l2.sample);
    var sorted := SortLoci(merged);
    var items := Items(sorted);
    forall i | 0 <= i < |items|
      ensures WriteLocus(items[i], phase, sampleName).Ok?
      ensures WriteLocus(items[i], phase, sampleName).value.gt == DiploidCall(l1, l2, items[i].0)
    {
      assert items[i] == (items[i].0, merged.entries[items[i].0]);
      LocusResolves(l1, l2, sampleName, items[i].0);
    }
    WriteLociSucceeds(items, phase, sampleName);
    WriteLociRecords(items, phase, sampleName);
    var tally := WriteLoci(items, phase, sampleName).value;
    assert Combine(l1, l2, sampleName) == Ok(Summary(sorted, tally.homozygous, tally.heterozygous, tally.written));
  }

  /** For two well-formed inputs with distinct sample names, neither
      `"both"`, `main` succeeds and writes `(1, 1)` at a locus both inputs
      call, `(1, 0)` at one only the first calls and `(0, 1)` at one only the
      second calls. */
  lemma MainSucceeds(src1: VcfSource, src2: VcfSource, sampleName: string)
    requires WellFormedSource(src1) && WellFormedSource(src2)
    requires src1.samples[0] != src2.samples[0]
    requires src1.samples[0] != "both" && src2.samples[0] != "both"
    ensures Main(src1, src2, sampleName).Ok?
    ensures var out := Main(src1, src2, sampleName).value;
      forall i :: 0 <= i < |out.written| ==>
        var k := Items(out.variants)[i].0;
        out.written[i].gt == DiploidCall(LoadVariants(src1).value, LoadVariants(src2).value, k)
  {
    WellFormedLoads(src1);
    WellFormedLoads(src2);
    var l1, l2 := LoadVariants(src1).value, LoadVariants(src2).value;
    assert Main(src1, src2, sampleName) == Combine(l1, l2, sampleName);
    CombineSucceeds(l1, l2, sampleName);
  }

  /** An input has a call at a locus exactly when the loader kept one of its
      records there. */
  lemma PresenceIsKept(src: VcfSource, k: LocusKey)
    requires LoadVariants(src).Ok?
    ensures Presence(LoadVariants(src).value, k) == (if KeptAt(src.records, k) != [] then Called(1) else Called(0))
  {
  }
}
