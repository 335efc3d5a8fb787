/** Genotype resolution: the phase table `main` builds (make_diploid.py:174-178),
    `haploid_sanity_check` (134-142), `extract_vcf_format_field` (100-103) and
    `parse_fields` (106-131). A locus with records from both inputs is resolved
    pairwise; a locus with one record is placed in the slot the phase table
    assigns to that record's sample name. */
module Resolver {
  import opened Dicts
  import opened Vcf
  import Loader

  /** The three lambdas of the phase table: `lambda n: (n, 0)`,
      `lambda n: (0, n)` and `lambda n, m: (n, m)`. */
  datatype PhaseFn = FirstHaplotype | SecondHaplotype | BothHaplotypes

  type PhaseTable = Dict<string, PhaseFn>

  /** The dict literal of make_diploid.py:174-178, entries assigned in order,
      so a repeated name keeps its first position and its last value. */
  function MakePhaseTable(name1: string, name2: string): (t: PhaseTable)
    ensures t.Valid()
    ensures t.entries.Keys == {name1, name2, "both"}
    ensures t.entries["both"] == BothHaplotypes
    ensures name2 != "both" ==> t.entries[name2] == SecondHaplotype
    ensures name1 != name2 && name1 != "both" ==> t.entries[name1] == FirstHaplotype
    ensures t.keys[0] == name1
  {
    Put(Put(Put(Empty(), name1, FirstHaplotype), name2, SecondHaplotype), "both", BothHaplotypes)
  }

  /** `phase[name]`: a missing name raises `KeyError`. */
  function Lookup(t: PhaseTable, name: string): (r: Result<PhaseFn>)
    ensures r.Ok? <==> name in t.entries
    ensures r.Ok? ==> r.value == t.entries[name]
    ensures r.Err? ==> r.error == UnknownPhase(name)
  {
    if name in t.entries then Ok(t.entries[name]) else Err(UnknownPhase(name))
  }

  /** A phase function called with one argument; the other slot gets the
      literal `0`, given here as `zero`. The two-argument lambda raises
      `TypeError`. */
  function CallOne<T>(f: PhaseFn, n: T, zero: T): (r: Result<(T, T)>)
    ensures r.Ok? <==> !f.BothHaplotypes?
    ensures f.FirstHaplotype? ==> r == Ok((n, zero))
    ensures f.SecondHaplotype? ==> r == Ok((zero, n))
    ensures r.Err? ==> r.error == PhaseArity
  {
    match f
    case FirstHaplotype => Ok((n, zero))
    case SecondHaplotype => Ok((zero, n))
    case BothHaplotypes => Err(PhaseArity)
  }

  /** A phase function called with two arguments; the one-argument lambdas
      raise `TypeError`. */
  function CallTwo<T>(f: PhaseFn, n: T, m: T): (r: Result<(T, T)>)
    ensures r.Ok? <==> f.BothHaplotypes?
    ensures r.Ok? ==> r.value == (n, m)
    ensures r.Err? ==> r.error == PhaseArity
  {
    if f.BothHaplotypes? then Ok((n, m)) else Err(PhaseArity)
  }

  /** A GT the merge can read from its first allele: at most one call, or the
      first two calls agree. */
  predicate IsHaploidCall(gt: Genotype) {
    |gt| <= 1 || gt[0] == gt[1]
  }

  /** `haploid_sanity_check`, make_diploid.py:134-142. */
  function HaploidSanityCheck(hap1: Genotype, hap2: Genotype): (r: Result<()>)
    ensures r.Ok? <==> IsHaploidCall(hap1) && IsHaploidCall(hap2)
    ensures r.Err? ==> r.error == NotHaploid
  {
    if |hap1| > 1 && hap1[0] != hap1[1] then Err(NotHaploid)
    else if |hap2| > 1 && hap2[0] != hap2[1] then Err(NotHaploid)
    else Ok(())
  }

  /** Every record the loader keeps passes the sanity check. */
  lemma RetainedIsHaploid(r: VariantRecord)
    requires Loader.Classify(r) == Ok(Loader.Retained)
    ensures IsHaploidCall(r.gt)
  {
  }

  /** `extract_vcf_format_field`, make_diploid.py:100-103: one FORMAT field
      of the first and of the second record of a locus. */
  function ExtractFormatField<T>(vars: seq<VariantRecord>, field: VariantRecord -> T): (pair: (T, T))
    requires |vars| >= 2
  {
    (field(vars[0]), field(vars[1]))
  }

  /** The genotype, qualities, depths and provenance string of one locus. */
  datatype Resolved = Resolved(gt: (Allele, Allele), oq: (int, int), dp: (int, int), samples: string)

  /** The first allele of a GT; an empty GT raises `IndexError`. */
  function FirstAllele(gt: Genotype): (r: Result<Allele>)
    ensures r.Ok? <==> |gt| > 0
    ensures r.Ok? ==> r.value == gt[0]
    ensures r.Err? ==> r.error == EmptyGenotype
  {
    if |gt| == 0 then Err(EmptyGenotype) else Ok(gt[0])
  }

  /** `parse_fields`, make_diploid.py:106-131, with Python's order of
      evaluation: for `phase[k](x[0])` the lookup comes first, then the
      indexing, then the call. */
  function ParseFields(vars: seq<VariantRecord>, phase: PhaseTable): (r: Result<Resolved>)
    // two records: pairwise, after the sanity check
    ensures |vars| == 2 ==>
      (r.Ok? <==>
        && IsHaploidCall(vars[0].gt) && IsHaploidCall(vars[1].gt)
        && "both" in phase.entries && phase.entries["both"] == BothHaplotypes
        && |vars[0].gt| > 0 && |vars[1].gt| > 0)
    ensures |vars| == 2 && !(IsHaploidCall(vars[0].gt) && IsHaploidCall(vars[1].gt)) ==> r == Err(NotHaploid)
    ensures |vars| == 2 && r.Ok? ==>
      && r.value.gt == (vars[0].gt[0], vars[1].gt[0])
      && r.value.oq == (vars[0].gq, vars[1].gq)
      && r.value.dp == (vars[0].dp, vars[1].dp)
      && r.value.samples == vars[0].sample + "," + vars[1].sample
    // one record: the slot its sample name selects
    ensures |vars| == 1 ==>
      (r.Ok? <==>
        && vars[0].sample in phase.entries
        && phase.entries[vars[0].sample] != BothHaplotypes
        && |vars[0].gt| > 0)
    ensures |vars| == 1 && vars[0].sample !in phase.entries ==> r == Err(UnknownPhase(vars[0].sample))
    ensures |vars| == 1 && r.Ok? && phase.entries[vars[0].sample] == FirstHaplotype ==>
      r.value == Resolved((vars[0].gt[0], Called(0)), (vars[0].gq, 0), (vars[0].dp, 0), vars[0].sample)
    ensures |vars| == 1 && r.Ok? && phase.entries[vars[0].sample] == SecondHaplotype ==>
      r.value == Resolved((Called(0), vars[0].gt[0]), (0, vars[0].gq), (0, vars[0].dp), vars[0].sample)
    // any other number of records
    ensures |vars| != 1 && |vars| != 2 ==> r == Err(TooManyVariants(|vars|))
    ensures r.Err? ==> !r.error.UnexpectedGenotype?
  {
    if |vars| == 2 then
      var (hap1, hap2) := ExtractFormatField(vars, (v: VariantRecord) => v.gt);
      var (oq1, oq2) := ExtractFormatField(vars, (v: VariantRecord) => v.gq);
      var (dp1, dp2) := ExtractFormatField(vars, (v: VariantRecord) => v.dp);
      var _ :- HaploidSanityCheck(hap1, hap2);
      var both :- Lookup(phase, "both");
      var a1 :- FirstAllele(hap1);
      var a2 :- FirstAllele(hap2);
      var gt :- CallTwo(both, a1, a2);
      // the same function, so the QUAL and depth calls succeed as well
      var oq := CallTwo(both, oq1, oq2).value;
      var dp := CallTwo(both, dp1, dp2).value;
      Ok(Resolved(gt, oq, dp, vars[0].sample + "," + vars[1].sample))
    else if |vars| == 1 then
      var v := vars[0];
      var f :- Lookup(phase, v.sample);
      var a :- FirstAllele(v.gt);
      var gt :- CallOne(f, a, Called(0));
      var oq := CallOne(f, v.gq, 0).value;
      var dp := CallOne(f, v.dp, 0).value;
      Ok(Resolved(gt, oq, dp, v.sample))
    else
      Err(TooManyVariants(|vars|))
  }

  /** Under the table `main` builds from two distinct names, neither `"both"`,
      a lone record is placed by its sample name: the first input's name fills
      the first slot, the second input's name the second. */
  lemma LoneRecordSlot(v: VariantRecord, name1: string, name2: string)
    requires name1 != name2 && name1 != "both" && name2 != "both"
    requires v.sample == name1 || v.sample == name2
    requires |v.gt| > 0
    ensures ParseFields([v], MakePhaseTable(name1, name2)).Ok?
    ensures v.sample == name1 ==> ParseFields([v], MakePhaseTable(name1, name2)).value.gt == (v.gt[0], Called(0))
    ensures v.sample == name2 ==> ParseFields([v], MakePhaseTable(name1, name2)).value.gt == (Called(0), v.gt[0])
  {
  }

  /** When both inputs carry the same sample name, the later table entry wins:
      a lone record from either input lands in the second slot. */
  lemma SharedNameGoesSecond(v: VariantRecord, name: string)
    requires name != "both" && v.sample == name && |v.gt| > 0
    ensures ParseFields([v], MakePhaseTable(name, name)) ==
      Ok(Resolved((Called(0), v.gt[0]), (0, v.gq), (0, v.dp), name))
  {
  }

  /** A lone record whose sample is called `"both"` reaches the
      two-argument lambda with one argument. */
  lemma BothNamedRecordFails(v: VariantRecord, name1: string, name2: string)
    requires v.sample == "both" && |v.gt| > 0
    ensures ParseFields([v], MakePhaseTable(name1, name2)) == Err(PhaseArity)
  {
  }
}
