# deamination: a Dafny model of the CpG base counting core

The deamination tool counts the nucleotides that aligned reads show at CpG sites.
Each count goes into one of eight buckets. A bucket is chosen by three things:
the read's strand, whether the site is methylated (methylation above 20), and
the CpG offset (0 for the C, 1 for the G). The live path has four steps:

1. Read a bedGraph into candidate sites.
2. Fetch the reads over each site and tally the bases they show at offsets 0 and 1.
3. Fold each site's tally into the eight-bucket table.
4. Render the table as eight CSV lines.

The project models these steps, the two candidate filters, and the superseded
draft of the assignment step. Everything is written as pure functions over
immutable values.

| file | module | models |
|---|---|---|
| `wrappers.dfy` | `Wrappers` | `Option` and `Result` |
| `text.dfy` | `Text` | the string operations the code relies on: `split`, `strip_prefix`, `trim_start_matches`, unsigned `parse`, `to_string`, `join` |
| `utils.dfy` | `Utils` | `src/utils.rs`: `Position`, `Direction`, `MethPos`, `PosType`, `NumberOfNucleotides` |
| `find_bases.dfy` | `FindBases` | `src/find_bases.rs`: bedGraph parsing, strand classification, `insert_bases`, `count_bases_in_reads` over an abstract store, and the eight report lines |
| `additive_fold.dfy` | `AdditiveFold` | the global fold as written compared with a purely additive fold, and the corrected counting |
| `filter_candidates.dfy` | `FilterCandidates` | `src/filter_candidates.rs`: `filter_mutations` and `filter_inconsistent` |
| `assign_bases.dfy` | `AssignBases` | `src/assign_bases.rs`: `read_bases_file`, the draft `process_bedgraph_data`, and `update_base_counts` |

Conventions:

- **Files are lines.** A file is the sequence of its lines. An output is the
  sequence of lines written.
- **Panics are preconditions.** An indexing, `expect` or `u32` overflow panic
  becomes a precondition. Each one is written as a "no panic" predicate that
  follows the control flow, so a line after the first `?` error is never
  required to be well formed.
- **Debug-build overflow.** Overflow follows the debug build, which panics
  on `u32` overflow. The addition `pos + 1` in `insert_bases` runs only for
  a fetched record, so a candidate at the last `u32` coordinate is allowed
  when the store returns no records for it.
- **`?` failures are `Result` errors.** The whole call fails and no partial
  output is produced.
- **`pos as u32`** is written out as the remainder modulo 2^32 of a `usize`
  parse.
- **Methylation parsing is a parameter.**
  - The live parser takes `parseMeth: string -> Option<int>`. It stands for
    `parse::<f64>()` followed by `round() as i64`.
  - The draft takes `string -> Option<F64>`, where `F64` covers finite
    values, the infinities and NaN, and the threshold is the strict `> 20.0`.
- **The alignment store is abstract.** It is a set of chromosome names and a
  fetch function from `(chrom, start, end)` to reads. A read's CIGAR walk is
  a finished map from reference coordinate to read coordinate, and every value
  of that map is a valid index into the read's bases.

Where the documented behaviour and the code differ, the model follows the code.

- The fold drops first contributions (see Findings).
- "chr" stripping differs by file: `strip_prefix` removes one leading "chr"
  in `find_bases.rs` and `assign_bases.rs`, while `trim_start_matches`
  removes every repetition in `filter_candidates.rs`.
- The draft looks forward baselines up by the bedGraph end field and reverse
  baselines by the start field.

## Model

| member | source | states |
|---|---|---|
| Text.StripPrefix | src/find_bases.rs:26-29 | when the field starts with "chr", the result is the field with exactly that one prefix removed; otherwise the field is returned unchanged |
| Text.TrimStartMatches | src/filter_candidates.rs:22 | the result no longer starts with the pattern, and the input is some number of repetitions of the pattern followed by the result |
| Text.Split | src/find_bases.rs:24 | splitting always yields at least one field, and no field contains the separator |
| Text.JoinSplit | src/find_bases.rs:24 | joining the split fields with the separator restores the line exactly |
| Text.SplitJoin | src/find_bases.rs:147-158 | fields without the separator, joined and split again, come back unchanged |
| Text.ParseDecimal | src/find_bases.rs:31-33 | a literal is read exactly when it is one or more ASCII digits, optionally after a single "+", and its value is the decimal value of those digits |
| Text.ParseUnsigned | src/find_bases.rs:31-33 | parsing succeeds exactly when the text is an optional "+" then decimal digits whose value is below the type's bound; the empty string never parses |
| Text.DigitsValueOfNatToString | src/find_bases.rs:155 | the decimal digits printed for a count have that count as their value |
| Text.ParseNatToString | src/find_bases.rs:155 | a printed count parses back to the same count |
| Utils.NewPosition | src/utils.rs:13-18 | `Position::new` stores the chromosome and the position unchanged |
| Utils.PositionEquality | src/utils.rs:4-11 | two positions are equal exactly when chromosome and position are equal |
| Utils.AsStrInjective | src/utils.rs:27-35 | `as_str` gives "forward" and "reverse", so two directions print alike only when they are the same |
| Utils.NewMethPos | src/utils.rs:49-57 | `MethPos::new` keeps position and methylation and starts with an empty tally |
| Utils.WithMethBases | src/utils.rs:59-61 | a change made through `meth_bases_mut` replaces the tally and leaves position and methylation untouched |
| Utils.NewPosType | src/utils.rs:71-79 | `PosType::new` stores direction, methylation flag and CpG offset unchanged |
| Utils.AllPosTypesComplete | src/utils.rs:64-69 | a bucket has offset 0 or 1 exactly when it is one of the eight listed buckets |
| Utils.AllPosTypesDistinct | src/utils.rs:64-69 | the eight listed buckets are pairwise different |
| FindBases.ParsePosition | src/find_bases.rs:31-38 | the position parses exactly when field 1 is a `usize`, and it keeps the low 32 bits of that value |
| FindBases.NonTrackLines | src/find_bases.rs:19-23 | a line is kept exactly when it is in the input and is not a "track" header, and no more lines come out than went in |
| FindBases.NonTrackLinesSingle | src/find_bases.rs:19-23 | one line is dropped exactly when it is a "track" line and otherwise kept as it is |
| FindBases.NonTrackLinesAppend | src/find_bases.rs:19-23 | header skipping is line by line: the lines kept from two parts read in turn are each part's kept lines, concatenated in file order |
| FindBases.ParseLine | src/find_bases.rs:24-38 | a line fails exactly when field 1 or field 3 does not parse; otherwise it becomes a site with one "chr" stripped from field 0, the parsed position and methylation, and an empty tally |
| FindBases.ParseSites | src/find_bases.rs:19-42 | the loop fails exactly when some non-header line fails; otherwise there is one site per line, in file order, and each site is the one its line describes |
| FindBases.ProcessBedgraphData | src/find_bases.rs:13-43 | header lines produce nothing; the call fails exactly when some other line fails, and otherwise yields exactly one site per other line, in order |
| FindBases.ReadReverseOrientation | src/find_bases.rs:171-180 | a paired read is reverse exactly when its reverse flag equals its first-in-template flag; an unpaired read is reverse exactly when its reverse flag is set |
| FindBases.InsertBases | src/find_bases.rs:93-114 | an uncovered coordinate leaves the site unchanged; a covered one adds exactly one to the count of the base the read shows, under (read direction, offset), creating it at 1 if absent, and leaves every other count, the position and the methylation unchanged |
| FindBases.InsertPairCounts | src/find_bases.rs:65-69 | offering one read at offsets 0 and 1 adds one to a (direction, offset, base) count exactly when the read has that direction and shows that base at `pos + offset` |
| FindBases.InsertReadsCounts | src/find_bases.rs:65-69 | after all fetched reads are inserted, each count at offset 0 or 1 has grown by the number of reads of that direction showing that base at `pos + offset`; counts under other offsets are untouched |
| FindBases.ObservedAppend | src/find_bases.rs:65-69 | the number of reads showing a base is additive over a split of the read list |
| FindBases.CountSiteRecords | src/find_bases.rs:65-69 | the loop over fetched records gives the same site as offering every record, in fetch order, at offsets 0 and 1; with no records the coordinate may be the last `u32` value |
| FindBases.CountSites | src/find_bases.rs:56-69 | counting is done candidate by candidate, so the i-th counted site is the i-th candidate counted on its own |
| FindBases.BucketSet | src/find_bases.rs:71-76 | a site's bucket set holds a bucket exactly when the bucket has the site's methylation class and its (direction, offset) is a tally key, so distinct keys never share a bucket |
| FindBases.SiteBuckets | src/find_bases.rs:71-76 | a site reaches exactly the buckets of its tally keys, each carrying that key's counts |
| FindBases.MergeCounts | src/find_bases.rs:79-83 | merging counts adds them base by base, a missing base counting 0, and keeps every base of either side |
| FindBases.AddEntriesPartial | src/find_bases.rs:80-82 | adding the entries of a count map one base at a time adds each visited base's count and leaves the others alone |
| FindBases.AddEntriesAnyOrder | src/find_bases.rs:80-82 | adding the entries in any enumeration order of the count map gives the base-wise sum |
| FindBases.FoldBucket | src/find_bases.rs:77-84 | an existing bucket receives the counts added base by base; an absent bucket is inserted empty and the counts are dropped; other buckets are untouched |
| FindBases.FoldSite | src/find_bases.rs:71-85 | after one site the table's buckets are the old ones plus the site's; old buckets the site reaches gain its counts, new ones are empty, and the rest are unchanged |
| FindBases.FoldSiteAnyOrder | src/find_bases.rs:71-85 | the order in which a site's tally keys are enumerated does not change the table |
| FindBases.FoldSiteInOrderPartial | src/find_bases.rs:71-85 | folding a site's tally keys one at a time in any list order equals folding the set of keys visited |
| FindBases.FoldSitesSnoc | src/find_bases.rs:56-85 | folding one more site at the end is one more fold step on the table built so far |
| FindBases.KnownPrefix | src/find_bases.rs:60-63 | the candidates before the first unknown chromosome all have known chromosomes, and the candidate there, if any, does not |
| FindBases.CountedOffsets | src/find_bases.rs:65-76 | counting fresh candidates only ever creates buckets with CpG offset 0 or 1 |
| FindBases.CountBasesInReads | src/find_bases.rs:46-91 | the call fails exactly when a candidate's chromosome is missing from the store, naming the first such chromosome; otherwise the table is the fold of every counted site in candidate order, and for fresh candidates it holds only offset 0 and 1 buckets |
| FindBases.ReportCounts | src/find_bases.rs:131-138 | a line's five counts are the A, C, G, T, N counts of the bucket, with 0 for a missing bucket or base |
| FindBases.LoopOrder | src/find_bases.rs:128-130 | the three nested loops visit Forward/Reverse, then true/false, then offset 0/1, which is the order of the eight listed buckets |
| FindBases.WriteAssignedBases | src/find_bases.rs:128-158 | the report has exactly eight lines, and line i renders the i-th listed bucket |
| FindBases.RenderLineSplits | src/find_bases.rs:147-158 | a report line splits on commas back into exactly its eight fields |
| FindBases.ReportRoundTrip | src/find_bases.rs:128-158 | reading report line i back gives the i-th bucket and its five counts: methylation flag, direction, "C" for offset 0 or "G" for offset 1, then the counts |
| AdditiveFold.MergeCountsEmpty | src/find_bases.rs:80-82 | merging with an empty count map changes nothing |
| AdditiveFold.MergeCountsComm | src/find_bases.rs:80-82 | merging counts is commutative |
| AdditiveFold.MergeCountsAssoc | src/find_bases.rs:80-82 | merging counts is associative |
| AdditiveFold.MergeTables | src/find_bases.rs:77-84 | merging two tables keeps every bucket of either and merges the counts bucket by bucket |
| AdditiveFold.MergeTablesComm | src/find_bases.rs:77-84 | merging tables is commutative |
| AdditiveFold.MergeTablesAssoc | src/find_bases.rs:77-84 | merging tables is associative |
| AdditiveFold.AddSite | src/find_bases.rs:77-84 | the additive step adds the site's counts to every bucket it reaches, whether or not the bucket existed |
| AdditiveFold.AdditiveCounts | src/find_bases.rs:71-85 | with the additive fold, every bucket count is its starting value plus the sum of what each site offers |
| AdditiveFold.FoldSitesAdditiveAppend | src/find_bases.rs:56-85 | additively folding two lists one after the other equals folding their concatenation |
| AdditiveFold.AddSiteSwap | src/find_bases.rs:77-84 | two additive steps commute |
| AdditiveFold.FoldSitesAdditivePermutation | src/find_bases.rs:56-85 | the additive fold gives the same table for every rearrangement of the sites |
| AdditiveFold.ZeroUnseen | src/find_bases.rs:77-84 | the part of a site the as-written step keeps: the counts of tally entries whose bucket is not yet in the table are emptied, and all else is unchanged |
| AdditiveFold.FoldSiteIsAddZeroed | src/find_bases.rs:77-84 | one as-written step equals one additive step of the site with its first contributions emptied |
| AdditiveFold.FoldSitesDropsFirst | src/find_bases.rs:71-85 | the as-written fold equals the additive fold over the sites with every first contribution to a bucket emptied |
| AdditiveFold.SingleContributorBucketEmpty | src/find_bases.rs:77-84 | a bucket that starts absent and that only one site reaches ends up empty under the as-written fold |
| AdditiveFold.NoContributorKeepsBucket | src/find_bases.rs:77-84 | a bucket that no site reaches keeps its starting counts |
| AdditiveFold.TestBucketAsWrittenEmpty | tests/test_complete.rs:30-51 | for the test's four candidates and any alignments, the as-written fold leaves the methylated forward offset-1 bucket without counts |
| AdditiveFold.OneEntrySite | src/find_bases.rs:71-76 | a site with one tally entry reaches exactly one bucket, with that entry's counts |
| AdditiveFold.SecondOfTwoWins | src/find_bases.rs:77-84 | for two sites reaching the same single bucket, the as-written fold keeps only the second site's counts |
| AdditiveFold.AsWrittenOrderDependent | src/find_bases.rs:56-85 | swapping two concrete candidates changes the as-written table |
| AdditiveFold.CountBasesAdditive | src/find_bases.rs:46-91 | the corrected counting fails exactly like the original, naming the first unknown chromosome; on success, for fresh candidates, every bucket's count of a base is what the reads show for that bucket |
| AdditiveFold.CountBasesAdditiveObserved | tests/test_complete.rs:30-71 | with the corrected fold, each bucket's count of a base is what the reads of the bucket's direction show at the bucket's offset, summed over the candidates of its methylation class |
| AdditiveFold.SiteOffered | src/find_bases.rs:65-76 | what one counted candidate offers a bucket is what its reads show there, or 0 when the class differs or the offset is not 0 or 1 |
| AdditiveFold.SiteBucketCount | src/find_bases.rs:71-76 | a site's bucket count is its tally's count for the matching key when the methylation class agrees, and 0 otherwise |
| AdditiveFold.OfferedObserved | src/find_bases.rs:56-76 | the total that the counted candidates offer a bucket equals what their reads show for it |
| AdditiveFold.CountBasesAdditivePermutation | src/find_bases.rs:56-85 | the corrected counting gives the same table for any order of the candidates |
| AdditiveFold.CountSitesMultiset | src/find_bases.rs:56-69 | rearranging the candidates rearranges the counted sites |
| FilterCandidates.Mutations | src/filter_candidates.rs:15-33 | a pair is named by the mutation file exactly when some line names it; comment lines, short lines and non-`u32` positions name nothing |
| FilterCandidates.ToRemove | src/filter_candidates.rs:25-27 | the removal list holds exactly the candidates the file names |
| FilterCandidates.Retain | src/filter_candidates.rs:35 | `retain` keeps exactly the elements not in the removal list, never adding any |
| FilterCandidates.FilterMutations | src/filter_candidates.rs:10-38 | a candidate survives exactly when no mutation line names it |
| FilterCandidates.RetainIsFilterOut | src/filter_candidates.rs:35 | `retain` against the removal list is the order-keeping filter against the same set |
| FilterCandidates.FilterMutationsIsFilterOut | src/filter_candidates.rs:10-38 | the filter removes every occurrence of each named pair and keeps the rest in order |
| FilterCandidates.FilterMutationsSubsequence | src/filter_candidates.rs:35 | the output is a subsequence of the input, so it is no longer |
| FilterCandidates.FilterMutationsIdempotent | src/filter_candidates.rs:35 | filtering twice with the same file gives the same result as once |
| FilterCandidates.EmitRange | src/filter_candidates.rs:58-63 | the inner loop emits a pair exactly when it is a candidate on the interval's chromosome with a position in `[start + 1, end)` |
| FilterCandidates.EmitRangeAscending | src/filter_candidates.rs:58 | within one interval the emitted positions strictly increase |
| FilterCandidates.LineOutput | src/filter_candidates.rs:46-64 | a line emits exactly the candidates it covers, each once, by strictly ascending position; "track" lines and lines with fewer than three fields emit nothing |
| FilterCandidates.AscendingUnique | src/filter_candidates.rs:58-63 | two strictly ascending lists with the same members are equal, so membership and ascending order fix each line's output |
| FilterCandidates.FilterInconsistentSingle | src/filter_candidates.rs:46-65 | a one-line bedGraph yields exactly that line's output; with the concatenation law this fixes the whole output line by line |
| FilterCandidates.FilterInconsistent | src/filter_candidates.rs:41-68 | every output is a candidate, and a candidate is output exactly when some interval line covers it |
| FilterCandidates.FilterInconsistentAppend | src/filter_candidates.rs:46-65 | the output follows the bedGraph line by line: two files read in turn give the two outputs concatenated, so overlapping intervals repeat a candidate |
| FilterCandidates.FilterInconsistentCandidateOrder | src/filter_candidates.rs:58-60 | the output depends only on which pairs the candidate list contains, not on their order |
| AssignBases.RouteOf | src/assign_bases.rs:36-47 | the tags "f_0", "f_1", "r_0", "r_1" each route to their own map, and every other tag routes nowhere |
| AssignBases.BasesStep | src/assign_bases.rs:25-47 | one line fails exactly when it is not a comment and its position is not a `usize` |
| AssignBases.ReadBasesFrom | src/assign_bases.rs:25-49 | the loop fails exactly when some line's position does not parse |
| AssignBases.ReadBasesFile | src/assign_bases.rs:15-52 | `read_bases_file` fails exactly when some non-comment line's position is not a `usize` |
| AssignBases.ReadBasesFromLastWins | src/assign_bases.rs:33-47 | after the loop, a lookup finds the row of the last line with that tag and key, or the earlier entry if no line has one |
| AssignBases.ReadBasesFileLastWins | src/assign_bases.rs:33-47 | every stored entry comes from the last line with that tag and (chromosome, position), and holds its fields from index 3 on |
| AssignBases.ColumnOf | src/assign_bases.rs:130 | a base's column is its index in A, C, G, T, N, and other characters have none |
| AssignBases.AddColumns | src/assign_bases.rs:134-139 | adding the first n columns creates each of those bases if absent and adds that column's count to it |
| AssignBases.UpdateBaseCounts | src/assign_bases.rs:125-140 | the chromosome's entry exists afterwards, even with no fields; each of the first `min(5, fields)` columns is added to its base; other chromosomes are untouched |
| AssignBases.SiteKey | src/assign_bases.rs:83-117 | forward maps are looked up with the end field and reverse maps with the start field |
| AssignBases.RouteStepCounts | src/assign_bases.rs:86-93 | one `contains_key` block adds its row only to its own map's bucket of the site's class, and changes no other bucket |
| AssignBases.SiteStep | src/assign_bases.rs:86-117 | the four blocks together add to every bucket exactly the row its own map offers for the site's class |
| AssignBases.ProcessDraftFrom | src/assign_bases.rs:69-118 | the loop fails exactly when a non-header line's start, end or methylation does not parse; otherwise every bucket gains the sum of what the lines' baselines offer |
| AssignBases.ProcessDraft | src/assign_bases.rs:54-122 | the draft starts with eight empty tables, fails exactly when some line does not parse, and otherwise yields exactly those eight tables, each holding the sum of what the lines offer |
| AssignBases.AllDraftBuckets | src/assign_bases.rs:60-67 | there are exactly eight draft tables |

## Left out

- `src/main.rs`: it only dispatches the command line.
- The alignment library:
  - Left out: `IndexedReader`, `header().tid`, `fetch`, `records`, the CIGAR walk `read_pos` with its `unwrap`, and `decoded_base_unchecked`.
  - In their place are an abstract store and a per-read map from reference to read coordinate.
  - Errors from `fetch?` and `record?` are not modelled, because the store is a total function.
- File and terminal I/O: `File::open`, `lines()`, the writers and every `println!` are left out, because inputs are given as lines and outputs returned as lines. A failure to read a line (`bed_line?`) is not modelled.
- Methylation parsing and rounding, `parse::<f64>()` and `round() as i64`, are left out because they are floating-point. They are an abstract parameter instead.
- `bases_percentage` (src/assign_bases.rs:143-154) is left out because it is floating-point division.
- The draft `write_assigned_bases` (src/assign_bases.rs:156-205) is left out because it prints `HashMap` debug output, whose order is unspecified.
- `write_filtered_candidates` (src/filter_candidates.rs:70-111) is left out because it drives a BCF writer.
- `usize` counters in `insert_bases` and the fold are unbounded naturals. Each one counts fetched reads, so it cannot reach 2^64 before memory runs out.
- AssignBases.UpdateBaseCounts: the counts are unbounded naturals, so the debug-build panic of `*c += count` (src/assign_bases.rs:135-138) is not modelled. Counts parsed from file text can reach it: two lines for one site, each with column A at 18446744073709551615, overflow. Modelling it would need a running bound on every accumulated count, threaded through the draft's no-panic predicate. The contract gives the exact sum where the debug build would panic.
- FindBases.WriteAssignedBases: the line is rendered, not written. The stdout/file choice and the `writeln!` error are left out.
- FindBases.InsertBases: `read_pos` is taken as an answer given by the read. Its `unwrap`, which can panic inside the library, is not modelled.
- FindBases.CountBasesInReads: the progress message every 1000 positions is left out.
- FilterCandidates.FilterInconsistent: `File::open(..).expect` and `bed_line.expect` panic on I/O only, so they are not modelled.
- HashMap iteration order is left out because it is unspecified. The model shows instead that the results do not depend on it:
  - the keys of one site: `FindBases.FoldSiteAnyOrder`;
  - the bases of one count map: `FindBases.AddEntriesAnyOrder`.

## Findings

| source | as written | input that shows it | evidently intended | confidence | as-written member | corrected member |
|---|---|---|---|---|---|---|
| src/find_bases.rs:77-84 | `entry(pos_type).and_modify(add counts).or_insert_with(HashMap::new)` inserts a bucket empty the first time it is seen, so the first site's counts for every bucket are dropped, and the table depends on candidate order | the candidates of `test_count_bases_mid` (tests/test_complete.rs:30-51, 104-108): only 21:8 with methylation 70 is methylated, so bucket (forward, true, 1) can only be created empty, while the test expects it to hold `{'G': 2}` | every site adds its counts to its buckets, creating them as needed, so each bucket holds what the reads show and the order of candidates does not matter | not executed | AdditiveFold.TestBucketAsWrittenEmpty, AdditiveFold.AsWrittenOrderDependent | AdditiveFold.CountBasesAdditive, AdditiveFold.CountBasesAdditiveObserved, AdditiveFold.CountBasesAdditivePermutation |
