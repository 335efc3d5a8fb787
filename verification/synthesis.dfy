/** `create_vcf_record`, make_diploid.py:145-164: one output record of the
    synthetic diploid sample, built from the first input record of a locus
    and the values `parse_fields` resolved for it. */
module Synthesis {
  import opened Vcf

  /** The fields `create_vcf_record` sets on the new record. */
  datatype OutputRecord = OutputRecord(
    contig: string,
    pos: int,
    id: string,
    ref: string,
    alts: seq<string>,
    qual: int,
    samplesInfo: string,    // INFO/SAMPLES
    sampleName: string,     // the one sample column of the output
    oq: (int, int),         // FORMAT/OQ
    sd: (int, int),         // FORMAT/SD
    gt: (Allele, Allele),   // FORMAT/GT
    phased: bool
  )

  /** The homozygous-alternative diploid call `(1, 1)`. */
  const HomAlt: (Allele, Allele) := (Called(1), Called(1))

  function Min(p: (int, int)): int {
    if p.1 < p.0 then p.1 else p.0
  }

  function Max(p: (int, int)): int {
    if p.1 > p.0 then p.1 else p.0
  }

  /** QUAL is the lower original quality when both haplotypes carry the ALT
      and the higher one otherwise. */
  function Quality(oq: (int, int), gt: (Allele, Allele)): (q: int)
    ensures q == oq.0 || q == oq.1
    ensures gt == HomAlt ==> q <= oq.0 && q <= oq.1
    ensures gt != HomAlt ==> q >= oq.0 && q >= oq.1
  {
    if gt != HomAlt then Max(oq) else Min(oq)
  }

  function CreateVcfRecord(original: VariantRecord, oq: (int, int), dp: (int, int), gt: (Allele, Allele),
                           joinedSamples: string, sampleName: string): (r: OutputRecord)
    ensures r.contig == original.chrom && r.pos == original.pos && r.id == original.id
    ensures r.ref == original.ref && r.alts == original.alts
    ensures r.qual == oq.0 || r.qual == oq.1
    ensures gt == HomAlt ==> r.qual <= oq.0 && r.qual <= oq.1
    ensures gt != HomAlt ==> r.qual >= oq.0 && r.qual >= oq.1
    ensures r.samplesInfo == joinedSamples && r.sampleName == sampleName
    ensures r.oq == oq && r.sd == dp && r.gt == gt && r.phased
  {
    OutputRecord(original.chrom, original.pos, original.id, original.ref, original.alts,
                 Quality(oq, gt), joinedSamples, sampleName, oq, dp, gt, true)
  }

  /** A call present in one input only has `0` in the other quality slot, so
      the record keeps the quality of the input that called it. */
  lemma LoneCallKeepsQuality(original: VariantRecord, gq: int, dp: int, a: Allele, joined: string, name: string)
    requires gq >= 0
    ensures CreateVcfRecord(original, (gq, 0), (dp, 0), (a, Called(0)), joined, name).qual == gq
    ensures CreateVcfRecord(original, (0, gq), (0, dp), (Called(0), a), joined, name).qual == gq
  {
  }

  /** The record of test/test_create_vcf_record.py: OQ `(0, 1)`, SD `(0, 20)`,
      GT `(0, 1)` gives QUAL 1 and keeps the template's position and alleles. */
  lemma CreateVcfRecordExample(original: VariantRecord)
    ensures var r := CreateVcfRecord(original, (0, 1), (0, 20), (Called(0), Called(1)), "one_sample", "diploid");
      && r.qual == 1 && r.pos == original.pos && r.ref == original.ref && r.alts == original.alts
      && r.oq == (0, 1) && r.sd == (0, 20) && r.gt == (Called(0), Called(1)) && r.samplesInfo == "one_sample"
  {
  }
}
