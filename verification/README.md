# synthetic-diploid merge engine, in Dafny

`make_diploid.py` builds one synthetic diploid sample from two haploid
single-sample VCFs. It works in four steps:

1. It loads each input and keeps the records that carry one ALT allele and a
   non-reference, non-heterozygous call. Each kept record is filed under its
   locus `(chrom, pos, ref, alts[0])`.
2. It merges the two locus maps key by key, with the first input's records
   first.
3. It sorts the loci by `(chrom, pos)`.
4. It resolves every locus into a phased diploid call and writes one record
   for it:
   - `(1, 1)` when both inputs call the ALT there;
   - `(1, 0)` or `(0, 1)` when only one input does;
   - QUAL is the lower original GQ for `(1, 1)` and the higher one otherwise.

   `main` counts the homozygous and the heterozygous loci as it writes.

The model is a set of pure functions over immutable datatypes, one module per
part of the program:

| module | file | models |
|---|---|---|
| `Dicts` | dicts.dfy | Python's insertion-ordered `dict` (key order plus mapping), `d[k] = v`, `dict(pairs)`, `d.items()` |
| `Vcf` | vcf.dfy | variant records, locus keys, the inputs, the exceptions and their messages |
| `Loader` | loader.dfy | `load_variants` |
| `Merge` | merge.dfy | `merge_dictionaries` |
| `Ordering` | ordering.dfy | Python's `<` on `str` and on `(chrom, pos)`, the stable `sorted` |
| `Resolver` | resolver.dfy | the phase table, `haploid_sanity_check`, `extract_vcf_format_field`, `parse_fields` |
| `Synthesis` | synthesis.dfy | `create_vcf_record` |
| `Driver` | driver.dfy | `main`: sort, per-locus loop, counters, the "Unexpected genotype" error |
| `Counting` | counting.dfy | the counters `main` returns, in terms of the two inputs' locus sets |

Every exception the core raises is a value of `Vcf.Error`. This covers the
`ValueError`s it raises itself, with their exact messages in `Vcf.Message`.
It also covers these exceptions that Python raises on unguarded paths:

- an `IndexError` for a header without samples or for an empty GT;
- a `KeyError` for a sample name missing from the phase table (`UnknownPhase`);
- a `TypeError` for an ALT of `None` or for a phase function called with the
  wrong number of arguments.

The other unguarded failures are listed under "Left out". Functions that can
raise return a `Result`.

Some behaviour follows the code where a general description of the tool
might suggest otherwise:

- **Ties in the sort.** Loci tied on `(chrom, pos)` keep their merged
  insertion order, because `sorted` is stable on the key
  `(chrom, pos)` (make_diploid.py:182). There is no tie-break on REF or ALT.
- **The lone record's slot.** A record seen in one input only is placed by its
  *sample name*, through the phase table (make_diploid.py:174-178 and 125).
  It is not placed by which input it came from. When both inputs carry the
  same sample name, the later dict entry wins, so every lone record lands in
  the second slot (`Resolver.SharedNameGoesSecond`). A lone record whose
  sample is called `"both"` reaches the two-argument lambda and raises
  `TypeError` (`Resolver.BothNamedRecordFails`).
- **When "Unexpected genotype" can fire.** It cannot fire when every retained
  record calls ALT first (`Driver.NoUnexpectedGenotype`). That holds for
  haploid or diploid GTs whose allele indices stay within the one ALT
  (`Driver.RetainedCallsAlt`). Distinct sample names are not needed for this:
  a phase-table failure raises its own exception first. A polyploid GT such as
  `(0, 0, 1)` passes the loader and can lead to the error. This happens when
  the record is alone at its locus, or when the other input's record there
  calls anything other than `1` first, such as `0` or no call.

## Model

| member | source | states |
|---|---|---|
| Loader.Classify | make_diploid.py:33-50 | A record is kept iff it has exactly one ALT, its GT is not `(0,)`, `(None,)`, `(0,0)` or `(None,None)`, the GT is not empty, and a GT of length other than one repeats its first allele. Each drop reason and each exception (ALT `None`, empty GT) has its own if-and-only-if condition. |
| Loader.LoadVariants | make_diploid.py:18-70 | These inputs raise: more than one sample raises MultipleSamples, no sample raises an IndexError, a record that raises makes the load raise that exception, and the load raises NoVariants iff nothing is retained. On success the sample is the header's and each key maps to exactly the records retained under it, in input order. The keys are in the order of each locus's first retained record. |
| Loader.LoadRecords | make_diploid.py:33-58 | The record loop finishes iff no record raises. Otherwise it raises what the first raising record raises. The dict it builds stays well-formed. |
| Loader.RetainedKeys | make_diploid.py:57-58 | The loci of the retained records, each once: a locus is listed iff some record is retained under it. |
| Loader.LoadRecordsKeys | make_diploid.py:33-58 | Loop invariant of the record loop: the keys present before keep their places at the front. The loci of the remaining retained records follow, in order of first occurrence, except those already present. |
| Loader.LoadRecordsContents | make_diploid.py:33-58 | Loop invariant of the record loop: a key is present iff it was before or some remaining record is retained under it. Its list is the old list followed by those records in input order. |
| Loader.NonEmptyIffRetained | make_diploid.py:60-61 | The loop leaves an empty dict exactly when no record is retained. |
| Loader.LoadedRecordsAreRetained | make_diploid.py:35-58 | Every record in the loaded map is a retained record of the input, filed under its own key and with a single ALT; no multi-allelic record contributes. |
| Loader.UniqueLociKeepOne | make_diploid.py:57-58 | Without repeated loci among retained records, every key holds at most one record. |
| Dicts.ItemsRoundTrip | make_diploid.py:182 | `dict(d.items()) == d`: rebuilding a dict from its items gives the same keys in the same order with the same values. |
| Dicts.FromItemsRoundTrip | make_diploid.py:182 | `list(dict(pairs).items()) == pairs` when the keys of `pairs` are distinct. |
| Merge.MergeFirstValues | make_diploid.py:75-79 | Loop invariant of the first loop: each visited key of the first map is bound to its list, extended by the second map's list when that map shares the key. |
| Merge.MergeSecondValues | make_diploid.py:81-83 | Loop invariant of the second loop: each visited key absent from the first map is bound to the second map's list. |
| Merge.MergeLoopsKeys | make_diploid.py:73-85 | After both loops, the first map's keys come first, in order, then the second map's keys that the first lacks, in order. |
| Merge.MergeLoopsDomain | make_diploid.py:73-85 | After both loops, a key is present iff either map has it. |
| Merge.MergeLoopsValues | make_diploid.py:73-85 | After both loops, a key of the first map holds its list followed by the second map's list for that key, if any. A key only the second map has holds that map's list. |
| Merge.MergeDictionaries | make_diploid.py:73-85 | The result maps exactly the union of the two key sets. A shared key maps to the first list followed by the second; any other key maps to its only list, unchanged. The first map's keys come first in order, then the second map's new keys. |
| Merge.MergeSize | make_diploid.py:73-85 | The merged dict has as many keys as the union of the two key sets: shared keys are counted once and none is lost. |
| Merge.MergeExample | test/test_merge_dictionaries.py:46-64 | `{k1: [a], k2: [b]}` merged with `{k1: [c], k3: [d]}` is `{k1: [a, c], k2: [b], k3: [d]}`, in that order. |
| Ordering.StrLessTrichotomy | make_diploid.py:182 | Python's `<` on strings is total: two strings are equal or one is smaller. |
| Ordering.KeyLessTransitive | make_diploid.py:182 | The sort key `(chrom, pos)` is ordered transitively. |
| Ordering.SortPermutes | make_diploid.py:182 | Sorting returns a permutation of the items. |
| Ordering.SortSorts | make_diploid.py:182 | No item of the result is followed by one with a smaller `(chrom, pos)`. |
| Ordering.SortIsStable | make_diploid.py:182 | For every `(chrom, pos)`, the items tied there appear in the result in their input order. |
| Ordering.SortKeepsDistinct | make_diploid.py:182 | Sorting the items of a dict keeps their keys distinct. |
| Driver.SortLoci | make_diploid.py:182 | The sorted dict has the same entries as the merged dict. Its items are sorted by `(chrom, pos)` and the loci tied at each position keep their merged order. |
| Resolver.MakePhaseTable | make_diploid.py:174-178 | The table maps `"both"` to the two-argument function and the second name to the second slot. The first name goes to the first slot only when it differs from the second and from `"both"`. The first name keeps the first position. |
| Resolver.HaploidSanityCheck | make_diploid.py:134-142 | The check passes iff each GT has at most one allele or repeats its first allele; otherwise it raises the "heterozigoud diploid" error. |
| Resolver.RetainedIsHaploid | make_diploid.py:44-50 | Every record the loader keeps passes the sanity check. |
| Resolver.ParseFields | make_diploid.py:106-131 | Two records succeed iff both pass the sanity check, the table holds the pairwise function under `"both"` and neither GT is empty. They then give `(GT_A[0], GT_B[0])`, `(GQ_A, GQ_B)`, `(DP_A, DP_B)` and `"A,B"`. One record is placed in the slot of its sample name, with `0` in the other slot, and raises when the name is missing or maps to the pairwise function. Any other count raises "More than 2 variants". No path raises "Unexpected genotype". |
| Resolver.LoneRecordSlot | make_diploid.py:123-128 | Under the table `main` builds from two distinct names, neither `"both"`: a lone record of the first input resolves to `(GT[0], 0)` and one of the second to `(0, GT[0])`. |
| Resolver.SharedNameGoesSecond | make_diploid.py:174-178 | When both inputs have the same sample name, a lone record from either resolves to `(0, GT[0])`, `(0, GQ)`, `(0, DP)`. |
| Resolver.BothNamedRecordFails | make_diploid.py:125 | A lone record whose sample is named `"both"` raises the wrong-arity `TypeError`. |
| Synthesis.Quality | make_diploid.py:157-158 | QUAL is one of the two original qualities: no greater than either for `(1, 1)`, no less than either otherwise. |
| Synthesis.CreateVcfRecord | make_diploid.py:145-164 | The record copies contig, pos, id, ref and alts from the template. QUAL follows the min/max rule, OQ, SD, GT and SAMPLES carry the resolved values, and the sample is phased. |
| Synthesis.LoneCallKeepsQuality | make_diploid.py:158 | A call present in one input only keeps that input's non-negative quality, in either slot. |
| Synthesis.CreateVcfRecordExample | test/test_create_vcf_record.py:4-24 | OQ `(0, 1)`, SD `(0, 20)` and GT `(0, 1)` give QUAL 1. The record keeps the template's pos, ref and alts and carries OQ, SD, GT and SAMPLES as given. |
| Driver.WriteLocus | make_diploid.py:185-199 | A locus is written iff it resolves to `(1, 1)`, `(0, 1)` or `(1, 0)`. A resolution error propagates, and any other genotype raises "Unexpected genotype". The source raises a bare `ValueError` (make_diploid.py:194). The model's error value also carries the contig, position and genotype that make_diploid.py:193 logs. The record written is the one `Synthesis.CreateVcfRecord` builds from the first record of the locus and the resolved OQ, SD, GT and SAMPLES. So it keeps that record's contig, position, id, REF and ALT, its QUAL follows the min/max rule, and it is phased. |
| Driver.WrittenRecordFields | make_diploid.py:196-198 | A written record copies the first record's contig, position, id, REF and ALT. It carries the resolved OQ, SD, GT and SAMPLES and the output sample name, takes QUAL by the min/max rule, and is phased. |
| Driver.WriteLociSucceeds | make_diploid.py:184-201 | The output loop finishes iff no locus raises. |
| Driver.WriteLociFailure | make_diploid.py:184-201 | A failed loop raises what the first failing locus raises, and every earlier locus was written. |
| Driver.WriteLociRecords | make_diploid.py:184-201 | The i-th record written is the one built for the i-th locus. |
| Driver.WriteLociCounts | make_diploid.py:188-191 | The homozygous counter equals the number of `(1, 1)` calls written and the heterozygous counter the number of `(0, 1)` and `(1, 0)` calls. Together they count every locus. |
| Driver.Main | make_diploid.py:167-206 | An error loading the first input, then the second, is what `main` raises. Success needs both loads to succeed. One record is written per locus of the returned dict, and the i-th is the one built for the i-th locus under the phase table of the two sample names. When both loads succeed but `main` raises, it raises what the first failing locus of the sorted merged dict raises. |
| Driver.Combine | make_diploid.py:172-206 | After both loads, `main` returns the merged loci sorted. The i-th record written is the one built for the i-th locus under the phase table of the two sample names. Otherwise it raises what the first failing locus raises. |
| Driver.MainSortsMergedLoci | make_diploid.py:170-182 | The dict `main` returns has exactly the merged entries. It is sorted by `(chrom, pos)`, and loci tied on `(chrom, pos)` keep their merged order. |
| Driver.MainCounts | make_diploid.py:179-206 | One record is written per locus. The counters sum to the number of records, the homozygous counter is the number of `(1, 1)` calls, and every record is homozygous or heterozygous. |
| Driver.RetainedCallsAlt | make_diploid.py:39-50 | A retained record whose GT has at most two calls, with no allele index beyond its one ALT, calls the ALT first. |
| Driver.ResolvedCallsExpected | make_diploid.py:106-131 | Records that call ALT first resolve to `(1, 1)`, `(1, 0)` or `(0, 1)`, under any phase table. |
| Driver.NoUnexpectedGenotype | make_diploid.py:188-194 | When every retained record of both inputs calls ALT first, `main` never raises "Unexpected genotype". |
| Driver.MainSucceeds | make_diploid.py:167-206 | Take two inputs, each with one sample, no record that raises, some retained record, no repeated locus, and ALT-first calls of its own sample, with distinct names and neither `"both"`. For these, `main` succeeds and writes `(1, 1)` where both inputs call the locus, `(1, 0)` where only the first does and `(0, 1)` where only the second does. |
| Driver.PresenceIsKept | make_diploid.py:57-58 | An input has a call at a locus exactly when the loader kept one of its records there. |
| Counting.MainTally | make_diploid.py:179-206 | For the inputs of `Driver.MainSucceeds`, let `A` and `B` be the loaded locus sets. `main` writes one record per locus of `A ∪ B`, counts `|A ∩ B|` homozygous loci and counts `|A \ B| + |B \ A|` heterozygous loci. |
| Counting.ThreeLociScenario | test/test_main.py:4-11 | The first input calls loci `{x, y}` and the second `{y, z}`. Then three records are written, one homozygous and two heterozygous. |

Three functions have no row of their own because lemma rows state their
behaviour:

- `Ordering.SortByPosition` (make_diploid.py:182) is stated by
  `Ordering.SortPermutes`, `Ordering.SortSorts`, `Ordering.SortIsStable` and
  `Ordering.SortKeepsDistinct`.
- `Merge.MergeLoops` (make_diploid.py:74-85) is stated by the three
  `Merge.MergeLoops…` rows.
- `Driver.WriteLoci` (make_diploid.py:184-201) is stated by the four
  `Driver.WriteLoci…` rows.

## Left out

- Opening, iterating and writing VCF files through pysam (make_diploid.py:168-169, 183, 201) is left out. The inputs are given as a header sample list plus a record sequence, and `main` returns the records it would write.
- Header construction, `create_vcf_header` (make_diploid.py:88-97), is left out. It adds the output sample, declares the FORMAT and INFO lines, and copies the contigs of the first input only (make_diploid.py:173).
- A record whose contig is missing from that header may fail in pysam when its contig is set (make_diploid.py:152). This can happen for a contig that only the second input uses. The failure depends on pysam, not on the code here, and is not modelled.
- Logging, coloredlogs and the loader's SNV, indel and drop counters (make_diploid.py:5-9, 27-32, 34-55, 63-69) are left out. They only feed log lines.
- The command-line entry point (make_diploid.py:209-219) is left out; it is argument plumbing with fixed file names.
- GQ is a pysam Float that may be `None`; it is modelled as an integer. A missing GQ, which would make `min`/`max` raise on the pair of qualities (make_diploid.py:157-158), is not modelled. DP is only copied into the output; it is modelled as an integer too, and a missing DP is not modelled.
- A record's `sample` is a field of its own. In pysam every record of a file carries that file's header sample, and the model does not enforce this. `UnknownPhase` is reachable only for a record whose sample differs from its file's header sample, which cannot happen in the program. `Driver.WellFormedSource` requires the two to agree, and `Driver.MainSucceeds` and `Counting.MainTally` assume it.
- A record is reduced to one sample column with typed GT, GQ and DP fields. A FORMAT key missing from a record (`KeyError`) is not modelled. Neither are the `str`/`int` conversions of contig and position, which are the identity on this model's types.
- The loader test against a concrete file (test/test_load_variants.py:11-26) is left out: its data file is not part of this model. The rules it checks are stated by `Loader.LoadVariants`.
- `Resolver.ExtractFormatField` has no contract of its own. It is the pair of one field of the first two records, and `Resolver.ParseFields` states its effect.
