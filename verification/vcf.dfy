/** The data the merge engine reads from the VCF library and the errors it
    raises. A record is reduced to the fields make_diploid.py reads; its one
    sample's FORMAT values are typed fields rather than a dynamic lookup. */
module Vcf {
  import Dicts

  /** One allele call of a GT field: an index into REF+ALTS, or the missing
      call `.` that pysam reports as `None`. */
  datatype Allele = NoCall | Called(index: nat)

  /** A GT field: pysam's tuple of allele calls, one per chromosome copy. */
  type Genotype = seq<Allele>

  /** A variant record of a single-sample VCF. An empty `alts` stands for
      pysam's `alts is None` (ALT column `.`). */
  datatype VariantRecord = VariantRecord(
    chrom: string,
    pos: int,
    id: string,
    ref: string,
    alts: seq<string>,
    sample: string,   // the record's only sample column
    gt: Genotype,     // FORMAT/GT of that sample
    gq: int,          // FORMAT/GQ of that sample
    dp: int           // FORMAT/DP of that sample
  )

  /** The merge key `(chrom, pos, ref, alts[0])`. */
  datatype LocusKey = LocusKey(chrom: string, pos: int, ref: string, alt: string)

  /** An opened input file: the header's sample names and the records in file order. */
  datatype VcfSource = VcfSource(samples: seq<string>, records: seq<VariantRecord>)

  /** What `load_variants` builds and `merge_dictionaries` combines. */
  type LocusMap = Dicts.Dict<LocusKey, seq<VariantRecord>>

  /** The exceptions the core raises, explicitly or through Python itself. */
  datatype Error =
    | MultipleSamples                 // ValueError, make_diploid.py:24
    | NoSamples                       // IndexError on `sample_names[0]`, make_diploid.py:25
    | MissingAlts                     // TypeError on `len(r.alts)` when alts is None, make_diploid.py:35
    | EmptyGenotype                   // IndexError on `gt[0]` of an empty GT
    | NoVariants                      // ValueError, make_diploid.py:61
    | NotHaploid                      // ValueError, make_diploid.py:138 and 142
    | TooManyVariants(count: nat)     // ValueError, make_diploid.py:130 (also raised for an empty list)
    | UnknownPhase(sample: string)    // KeyError on the phase table, make_diploid.py:125
    | PhaseArity                      // TypeError: a phase function called with the wrong number of arguments
    | UnexpectedGenotype(chrom: string, pos: int, gt: (Allele, Allele))  // bare ValueError, make_diploid.py:194;
                                      // the fields are what make_diploid.py:193 logs

  /** The errors the source raises itself, as `ValueError` with a message. */
  predicate IsValueError(e: Error) {
    e.MultipleSamples? || e.NoVariants? || e.NotHaploid? || e.TooManyVariants? || e.UnexpectedGenotype?
  }

  function Message(e: Error): string
    requires IsValueError(e)
  {
    match e
    case MultipleSamples => "More than one sample found in the same VCF file. Only single sample VCFs are supported"
    case NoVariants => "No variants found in the VCF file"
    case NotHaploid => "We don't support heterozigoud diploid VCFs"
    case TooManyVariants(_) => "More than 2 variants found in the same position"
    case UnexpectedGenotype(_, _, _) => "Unexpected genotype"
  }

  /** A value or the exception that aborted the computation. */
  datatype Result<T> = Ok(value: T) | Err(error: Error)
  {
    predicate IsFailure() {
      Err?
    }

    function PropagateFailure<U>(): Result<U>
      requires Err?
    {
      Err(error)
    }

    function Extract(): T
      requires Ok?
    {
      value
    }
  }
}
