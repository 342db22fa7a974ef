# Suffix sorting, binary patches and packet buffers

A Dafny model, with proofs, of the algorithms in two vendored C components: the
binary differ of Sparkle (`sais.c`, `bsdiff.c`, `bspatch.c`) and parts of OpenVPN
(`buffer.h`, `buffer.c`, `base64.c`, `clinat.c`).

**Suffix sorting.** `sais.c` sorts all suffixes of a text in linear time inside one
array that holds, in turn, seeds, flagged positions, substring lengths, names, the
recursive input and output, and the result. The model keeps that array and the
bucket tables as Dafny arrays and follows the loops. The proof has five layers:

1. `Suffixes`, `Ranking`, `Buckets`: the suffix order, types L and S, LMS
   positions, buckets as counts of smaller characters.
2. `InducedOrder`, `InducedSlots`: for any placement of seeds, the order in which
   induced sorting arranges the suffixes, and a *plan* that gives each suffix one
   slot, with the slot from which it is induced.
3. `Passes`, `Induce`, `LmsSort`: the scans, with the `~j` flags, fill the array
   according to the plan. `Induce` also covers the Burrows-Wheeler variant, which
   differs in what a scanned cell keeps; `BwtInverse` shows that the transform
   determines the text.
4. `LmsNames`, `LmsScan`, `Compaction`, `Naming`, `Seeding`, `Placement`,
   `NameString`, `Sais`: names of LMS substrings, the reduction to the name string
   and the recursion in place.
5. `Classes`, `LmsLabels`, `LmsFlags`, `LmsFlagsS`, `SeedMarks`, `LmsSort2`,
   `MarkTurn`, `MarkedNaming`: the second way to sort and name the substrings, which
   the code takes for long texts. It is proved as an extension of the first: the cells
   are those of `LMSsort1`, and a mark is added exactly at the borders of classes of
   equal substrings.

**Differ and patcher.** `Search` is the binary search over the sorted suffixes,
`Extension` the scoring loops, `Offsets` the number format, `PatchFile` the format
and the interpreter, `Diff` the main loop and the round trip. The round trip does not
depend on how good the matches are; the score and the extensions are proved optimal
on their own.

**Buffers.** `ByteBuffer` and `BufferRuns` treat `struct buffer` as a double-ended
queue in fixed memory, `Chunks`, `BufferList` and `ListRuns` the linked list of
buffers, `LineParser` the line parser, `HexDump` printing and the hex dump, `Base64`
the codec, `ClientNat` the address rewriting.

Four statements that one might expect are false of the code; each has a lemma with
the failing case or the exact condition under which it holds, or both:

- `search` does not always find the longest match, because its comparison stops at the
  end of the suffix (`Search.SearchCanMiss`; exact condition in `Search.FindMatchAt`).
- `buffer_list_aggregate` can drop data, because copying a chunk of `BUF_SIZE_MAX`
  bytes or more fails silently (`Chunks.AggregateCanLose`; exact conditions in
  `Chunks.StreamKeptIff` for one call, `ListRuns.BalancedIff` for a run and
  `ListRuns.SafeLimitIff` for the limit that callers choose).
- A reply is not always translated back to the address of the request
  (`ClientNat.OverlapMisdirects`; exact conditions in `ClientNat.RestoredExactly` and
  `ClientNat.RestoredIff`).
- `buf_parse` loses bytes of every segment that does not fit: the one where the
  terminator goes and, of a segment longer than `size`, the one after it
  (`LineParser.FirstLine`; exact condition in `LineParser.ParsedLinesIff`).

`format_hex_ex` with an output limit writes the marker over the end even when the dump
fits with its terminator but no further byte is free; `HexDump.Shown` states this.

## Model

| member | source | states |
|---|---|---|
| Sais.SuffixSort | without_pptp/Carthage/Checkouts/Sparkle/Vendor/bsdiff/sais.c:492-497 | For every byte string of every length the array ends up as the suffix array: every position once, suffixes strictly increasing, end of text below every byte; cells behind the text are untouched. |
| Sais.SaisMain | without_pptp/Carthage/Checkouts/Sparkle/Vendor/bsdiff/sais.c:334-490 | The recursive, in-place sort of a text over any alphabet, with any amount of free space behind it: suffix array, or with isbwt the cells T[SA[i]-1] and the index of the one row that has none. Terminates because the text halves. |
| Sais.BurrowsWheeler | without_pptp/Carthage/Checkouts/Sparkle/Vendor/bsdiff/sais.c:506-519 | The transform, spelled out row by row: the empty suffix first, then the sorted suffixes, each with the character in front of it, without the row of suffix 0, whose number is returned. |
| BwtInverse.Invertible | without_pptp/Carthage/Checkouts/Sparkle/Vendor/bsdiff/sais.c:506-519 | Different texts have different transforms: text, U and index determine each other. |
| BwtInverse.SameRowAgain | without_pptp/Carthage/Checkouts/Sparkle/Vendor/bsdiff/sais.c:506-519 | The reason: stepping to the next row in one text and back in another with the same transform keeps the order of rows, so it changes nothing. |
| Sais.BwtRows | without_pptp/Carthage/Checkouts/Sparkle/Vendor/bsdiff/sais.c:514-518 | The two copying loops shift the rows before the missing one by one place and leave the others. |
| Sais.SortLms | without_pptp/Carthage/Checkouts/Sparkle/Vendor/bsdiff/sais.c:376-463 | Stages 1 and 2: the first m cells hold all LMS positions in increasing order of their suffixes, whatever the substrings, recursing only if names repeat; unless the counts are to be taken again, the k cells at the end of the free space, where the source keeps them, are unchanged. |
| Sais.LmsPostproc1 | without_pptp/Carthage/Checkouts/Sparkle/Vendor/bsdiff/sais.c:104-149 | From the scanned array: the sorted LMS positions in front, their names in the slots m + p/2, equal names exactly for equal LMS substrings, smaller names for smaller ones. |
| Sais.NamesAreOk | without_pptp/Carthage/Checkouts/Sparkle/Vendor/bsdiff/sais.c:136-147 | Names assigned along the induced order satisfy what the reduction needs: equal only for equal substrings, smaller name implies smaller suffix, all below the number of names. |
| Sais.SortNames | without_pptp/Carthage/Checkouts/Sparkle/Vendor/bsdiff/sais.c:427-441 | The name string is moved behind the free space and sorted recursively; no cell behind the name string changes. |
| Sais.SolveReduced | without_pptp/Carthage/Checkouts/Sparkle/Vendor/bsdiff/sais.c:422-463 | The suffix order of the name string, read through the list of LMS positions, is the order of the LMS suffixes; no cell behind the free space given to the recursion changes. |
| Sais.MappedInOrder | without_pptp/Carthage/Checkouts/Sparkle/Vendor/bsdiff/sais.c:453-453 | Mapping a suffix array of the name string back gives every LMS position once, in suffix order. |
| Sais.ArrangementIsSuffixArray | without_pptp/Carthage/Checkouts/Sparkle/Vendor/bsdiff/sais.c:249-286 | The arrangement induced from LMS suffixes in suffix order is the suffix array. |
| Sais.SortSubstrings | without_pptp/Carthage/Checkouts/Sparkle/Vendor/bsdiff/sais.c:371-414 | Stage 1, by either of the two sorts that the code chooses from n, k and the free space: the names of the LMS substrings, or, if no name repeats, the LMS positions in suffix order. |
| Sais.LmsPostproc2 | without_pptp/Carthage/Checkouts/Sparkle/Vendor/bsdiff/sais.c:208-246 | From the marked array, without comparing substrings: names with the same meaning as those of LMSpostproc1, or the unmarked list. |
| SeedMarks.SeedFlag | without_pptp/Carthage/Checkouts/Sparkle/Vendor/bsdiff/sais.c:401-405 | A seed starts its class exactly if it has the lowest slot of the seeds of its bucket ... |
| SeedMarks.MarkSeeds | without_pptp/Carthage/Checkouts/Sparkle/Vendor/bsdiff/sais.c:401-407 | ... which the loop marks, in every bucket that has seeds; D is cleared. |
| LmsLabels.SameLabel | without_pptp/Carthage/Checkouts/Sparkle/Vendor/bsdiff/sais.c:166-180 | Labels (the substring up to the next LMS position) are equal exactly for positions that agree. |
| Classes.FirstsTell | without_pptp/Carthage/Checkouts/Sparkle/Vendor/bsdiff/sais.c:168-168 | A counter that goes up at the first entry of every class is equal at two entries exactly if they are in the same class. |
| Classes.LastsTell | without_pptp/Carthage/Checkouts/Sparkle/Vendor/bsdiff/sais.c:196-196 | The same from the right, with the last entry of every class. |
| LmsFlags.LabelBetweenL | without_pptp/Carthage/Checkouts/Sparkle/Vendor/bsdiff/sais.c:166-180 | Suffixes read with equal labels are neighbours among the slots of the first scan. |
| LmsFlags.DecideL | without_pptp/Carthage/Checkouts/Sparkle/Vendor/bsdiff/sais.c:173-174 | In the first scan D[t] differs from the counter exactly if the new entry starts a class of equal labels among the entries with its character and left neighbour type. |
| LmsFlagsS.DecideS | without_pptp/Carthage/Checkouts/Sparkle/Vendor/bsdiff/sais.c:201-202 | In the second scan it differs exactly if the new entry is the last of its class. |
| LmsSort2.SortL2 | without_pptp/Carthage/Checkouts/Sparkle/Vendor/bsdiff/sais.c:158-180 | First scan of LMSsort2: the cells of LMSsort1, with n added exactly where a class starts. |
| MarkTurn.Turn | without_pptp/Carthage/Checkouts/Sparkle/Vendor/bsdiff/sais.c:181-190 | Every mark moves from the first to the last entry of its class; the inner search always ends. |
| LmsSort2.SameMarks | without_pptp/Carthage/Checkouts/Sparkle/Vendor/bsdiff/sais.c:181-194 | These are the marks that the second scan needs, although it reads more entries. |
| LmsSort2.SortS2 | without_pptp/Carthage/Checkouts/Sparkle/Vendor/bsdiff/sais.c:192-206 | Second scan of LMSsort2: the cells of LMSsort1, marked exactly at the last entry of a class. |
| LmsSort2.LmsSort2 | without_pptp/Carthage/Checkouts/Sparkle/Vendor/bsdiff/sais.c:149-207 | The whole: LMS positions as after LMSsort1, each marked if no later one has the same substring. |
| MarkedNaming.CompactMarks | without_pptp/Carthage/Checkouts/Sparkle/Vendor/bsdiff/sais.c:213-231 | The compaction keeps the marks and counts them. |
| MarkedNaming.MarkMeans | without_pptp/Carthage/Checkouts/Sparkle/Vendor/bsdiff/sais.c:213-231 | A mark says exactly that no later position of the sorted list has the same substring. |
| MarkedNaming.MarksCount | without_pptp/Carthage/Checkouts/Sparkle/Vendor/bsdiff/sais.c:215-232 | The number of marks is the number of names. |
| MarkedNaming.NamesFromMarks | without_pptp/Carthage/Checkouts/Sparkle/Vendor/bsdiff/sais.c:232-237 | Names counted down at the marks are ordered along the list and equal exactly for equal substrings. |
| MarkedNaming.StoreNames | without_pptp/Carthage/Checkouts/Sparkle/Vendor/bsdiff/sais.c:232-237 | They are stored from the right, each in its own cell. |
| MarkedNaming.UnsetMarks | without_pptp/Carthage/Checkouts/Sparkle/Vendor/bsdiff/sais.c:238-243 | Without repeated names only the marks are removed. |
| Suffixes.LmsHalf | without_pptp/Carthage/Checkouts/Sparkle/Vendor/bsdiff/sais.c:111-113 | At most half of the positions are LMS positions (2m <= n). |
| Suffixes.TypeIsOrder | without_pptp/Carthage/Checkouts/Sparkle/Vendor/bsdiff/sais.c:384-387 | The S/L type found by comparing neighbouring characters says exactly whether a suffix is below the next one. |
| Suffixes.LessMeaning | without_pptp/Carthage/Checkouts/Sparkle/Vendor/bsdiff/sais.c:249-286 | The suffix order in characters: the suffixes agree up to a position where the smaller one ends or has the smaller character. |
| Buckets.GetCounts | without_pptp/Carthage/Checkouts/Sparkle/Vendor/bsdiff/sais.c:46-52 | Each cell counts the occurrences of its character, for any previous contents of the table. |
| Buckets.GetBuckets | without_pptp/Carthage/Checkouts/Sparkle/Vendor/bsdiff/sais.c:53-60 | Starts or ends of the buckets, defined as the number of characters below; also when counts and buckets share one array. |
| InducedOrder.BeforeTotal | without_pptp/Carthage/Checkouts/Sparkle/Vendor/bsdiff/sais.c:249-286 | The order in which induced sorting arranges suffixes is total ... |
| InducedOrder.BeforeTransitive | without_pptp/Carthage/Checkouts/Sparkle/Vendor/bsdiff/sais.c:249-286 | ... and transitive, for any assignment of the seeds to their bucket ends. |
| InducedOrder.BeforeIsLess | without_pptp/Carthage/Checkouts/Sparkle/Vendor/bsdiff/sais.c:465-486 | It is the suffix order if the seeds lie in suffix order. |
| InducedSlots.MakePlan | without_pptp/Carthage/Checkouts/Sparkle/Vendor/bsdiff/sais.c:249-286 | For every placement of the seeds there is one arrangement: each suffix gets one slot inside its bucket, in induced order, and the slot from which it is induced is read before it is needed; no two suffixes meet in a slot. |
| Passes.NextSlotL | without_pptp/Carthage/Checkouts/Sparkle/Vendor/bsdiff/sais.c:259-270 | In the left-to-right scan the bucket pointer is exactly the planned slot, right of the scan position: buckets are never overrun. |
| Passes.NextSlotS | without_pptp/Carthage/Checkouts/Sparkle/Vendor/bsdiff/sais.c:274-285 | The same for the right-to-left scan. |
| Passes.InducedFromL | without_pptp/Carthage/Checkouts/Sparkle/Vendor/bsdiff/sais.c:261-269 | A slot induces an L suffix exactly when its suffix has an L neighbour on the left. |
| Induce.InduceL | without_pptp/Carthage/Checkouts/Sparkle/Vendor/bsdiff/sais.c:256-270 | After the first scan every L suffix is in its final slot, flagged exactly where its left neighbour is of type S; seeds are cleared. |
| Induce.InduceS | without_pptp/Carthage/Checkouts/Sparkle/Vendor/bsdiff/sais.c:271-285 | After the second scan every slot holds its suffix, all flags are decoded. |
| Induce.InduceSA | without_pptp/Carthage/Checkouts/Sparkle/Vendor/bsdiff/sais.c:249-286 | From the placed seeds the two scans fill every slot exactly once with the planned suffix. |
| Induce.ComputeBWT | without_pptp/Carthage/Checkouts/Sparkle/Vendor/bsdiff/sais.c:287-330 | From the same state, every cell but one holds the character in front of its suffix; the returned index is the one whose suffix is 0. |
| Induce.OnlyOneFirst | without_pptp/Carthage/Checkouts/Sparkle/Vendor/bsdiff/sais.c:325-327 | Exactly one row belongs to suffix 0, so the returned index is well defined. |
| LmsSort.SortL | without_pptp/Carthage/Checkouts/Sparkle/Vendor/bsdiff/sais.c:70-88 | First scan of LMSsort1: the array represents the arrangement of all L suffixes right of the leftmost LMS position. |
| LmsSort.SortS | without_pptp/Carthage/Checkouts/Sparkle/Vendor/bsdiff/sais.c:89-102 | Second scan of LMSsort1. |
| LmsSort.LmsSort1 | without_pptp/Carthage/Checkouts/Sparkle/Vendor/bsdiff/sais.c:62-103 | Each LMS position ends up flagged in its slot of the arrangement, all other slots are 0. |
| Compaction.Compact | without_pptp/Carthage/Checkouts/Sparkle/Vendor/bsdiff/sais.c:111-123 | The flagged entries are moved to the front in order and decoded, the rest becomes 0. |
| Naming.FlaggedAreSorted | without_pptp/Carthage/Checkouts/Sparkle/Vendor/bsdiff/sais.c:111-123 | The compacted list holds all LMS positions exactly once, in induced order. |
| Naming.StoreLengths | without_pptp/Carthage/Checkouts/Sparkle/Vendor/bsdiff/sais.c:125-134 | Every LMS position gets the length of its substring in cell m + p/2; nothing else changes, so no two share a cell. |
| LmsNames.NamingTest | without_pptp/Carthage/Checkouts/Sparkle/Vendor/bsdiff/sais.c:138-143 | The comparison of lengths and characters, with its bound check, decides equality of LMS substrings for neighbours in the induced order - including the last substring, which runs to the end of the text. |
| LmsNames.SameSubIsEquality | without_pptp/Carthage/Checkouts/Sparkle/Vendor/bsdiff/sais.c:136-147 | Equal characters and types up to the next LMS position is the same as equal substrings. |
| LmsNames.DifferentIsLess | without_pptp/Carthage/Checkouts/Sparkle/Vendor/bsdiff/sais.c:136-147 | Of two different LMS substrings the one that comes first in the induced order has the smaller suffix. |
| LmsNames.SameSubConvex | without_pptp/Carthage/Checkouts/Sparkle/Vendor/bsdiff/sais.c:136-147 | Positions with equal substrings are neighbours in the induced order, so comparing with the last named one is enough. |
| Naming.NameSubstrings | without_pptp/Carthage/Checkouts/Sparkle/Vendor/bsdiff/sais.c:136-148 | The naming loop: names never decrease along the list, are equal exactly for equal substrings, and the number of names is returned. |
| LmsNames.Reduction | without_pptp/Carthage/Checkouts/Sparkle/Vendor/bsdiff/sais.c:422-441 | For all names that respect substrings, suffixes of the name string compare as the LMS suffixes they stand for. |
| LmsNames.ReducedOrder | without_pptp/Carthage/Checkouts/Sparkle/Vendor/bsdiff/sais.c:438-453 | A suffix array of the name string lists the LMS positions in suffix order. |
| NameString.LmsSpread | without_pptp/Carthage/Checkouts/Sparkle/Vendor/bsdiff/sais.c:424-437 | The gathered name string never overtakes the names still to be read, although both lie in one array. |
| NameString.GatherNames | without_pptp/Carthage/Checkouts/Sparkle/Vendor/bsdiff/sais.c:432-437 | The names are collected in text order at the end of the free space, decremented. |
| NameString.RefillPositions | without_pptp/Carthage/Checkouts/Sparkle/Vendor/bsdiff/sais.c:443-452 | The same cells are refilled with the LMS positions in text order. |
| NameString.MapBack | without_pptp/Carthage/Checkouts/Sparkle/Vendor/bsdiff/sais.c:453-453 | Each of the first m cells is replaced by the cell it points to. |
| Seeding.SeedLms | without_pptp/Carthage/Checkouts/Sparkle/Vendor/bsdiff/sais.c:378-390 | Every LMS position but the leftmost is put at a place of its own at the end of its bucket, every other cell is 0, and m counts all LMS positions. |
| Placement.PlaceSorted | without_pptp/Carthage/Checkouts/Sparkle/Vendor/bsdiff/sais.c:468-486 | The sorted LMS positions are spread from the front of the same array to their bucket ends, from the right, never overwriting one that is still needed; everything else is cleared. |
| Search.LcpMeaning | without_pptp/Carthage/Checkouts/Sparkle/Vendor/bsdiff/bsdiff.c:46-64 | The length of the common prefix: the characters agree, and the next ones differ or one text ends. |
| Search.MatchLen | without_pptp/Carthage/Checkouts/Sparkle/Vendor/bsdiff/bsdiff.c:46-64 | matchlen computes it. |
| Search.Memcmp | without_pptp/Carthage/Checkouts/Sparkle/Vendor/bsdiff/bsdiff.c:78-78 | Comparing only min(oldsize - I[x], newsize) bytes: below exactly if they differ with the smaller byte first. |
| Search.SearchRange | without_pptp/Carthage/Checkouts/Sparkle/Vendor/bsdiff/bsdiff.c:66-93 | Binary search: a genuine match within the bounds that is the longest in the range exactly if no probe on the way is a proper prefix of the query (the comparison takes those for equal). |
| Search.FindMatchAt | without_pptp/Carthage/Checkouts/Sparkle/Vendor/bsdiff/bsdiff.c:214-215 | A genuine match old[pos..pos+len] = new[scan..scan+len] that cannot be extended; empty only if the character does not occur in the old file; the longest exactly if every probe is safe. |
| Search.SearchMeaning | without_pptp/Carthage/Checkouts/Sparkle/Vendor/bsdiff/bsdiff.c:59-93 | In terms of the files: the match is genuine, and if no rest of the old file is a proper prefix of the query no part of the old file is a longer match. |
| Search.SafeWithoutPrefixes | without_pptp/Carthage/Checkouts/Sparkle/Vendor/bsdiff/bsdiff.c:46-93 | If no non-empty suffix of the old file is a proper prefix of the query every probe is safe, so the longest match is found. |
| Search.SearchCanMiss | without_pptp/Carthage/Checkouts/Sparkle/Vendor/bsdiff/bsdiff.c:78-84 | A concrete sorted old file and query where a longer match exists and is missed. |
| Diff.CountScore | without_pptp/Carthage/Checkouts/Sparkle/Vendor/bsdiff/bsdiff.c:217-223 | oldscore is exactly the number of characters in [scan, scsc) that match at the previous offset ... |
| Diff.ScoreLeaves | without_pptp/Carthage/Checkouts/Sparkle/Vendor/bsdiff/bsdiff.c:232-237 | ... stays so when scan advances, and never becomes negative, because search returns 0 only for characters that do not occur. |
| Diff.NextMatch | without_pptp/Carthage/Checkouts/Sparkle/Vendor/bsdiff/bsdiff.c:210-238 | One search for each position from start on; the scan stops at the first whose result passes the test against the hits of the previous match from there to the furthest end found so far in this scan, or at the end of the file; all before it were searched and failed the test. |
| Diff.ScanMeaning | without_pptp/Carthage/Checkouts/Sparkle/Vendor/bsdiff/bsdiff.c:210-238 | In terms of the files: with h hits of the previous match up to the furthest end found, a search ends the scan exactly if its length is h and not 0, or more than h + 8. |
| Diff.ReachMeaning | without_pptp/Carthage/Checkouts/Sparkle/Vendor/bsdiff/bsdiff.c:217-223 | The furthest end is the greatest of all ends found in the scan. |
| Extension.ExtendForward | without_pptp/Carthage/Checkouts/Sparkle/Vendor/bsdiff/bsdiff.c:242-255 | Of all ends within both files up to the match, lenf gives most hits counted double against the length, and is the shortest such; it is never shorter than a part on which the files agree. |
| Extension.ExtendBackward | without_pptp/Carthage/Checkouts/Sparkle/Vendor/bsdiff/bsdiff.c:257-271 | lenb likewise, bounded by the previous match and the start of the old file; 0 at the end of the new file. |
| Extension.SplitOverlap | without_pptp/Carthage/Checkouts/Sparkle/Vendor/bsdiff/bsdiff.c:273-296 | The overlap is divided so that the total number of matching characters is greatest; no gap, no overlap, both lengths non-negative. |
| Extension.HitsMeaning | without_pptp/Carthage/Checkouts/Sparkle/Vendor/bsdiff/bsdiff.c:248-249 | Hits are the number of positions at which the files agree. |
| Extension.ForwardMeaning | without_pptp/Carthage/Checkouts/Sparkle/Vendor/bsdiff/bsdiff.c:242-255 | The optimum of the forward extension in terms of the two files alone, first such end included. |
| Extension.BackwardMeaning | without_pptp/Carthage/Checkouts/Sparkle/Vendor/bsdiff/bsdiff.c:257-270 | The same for the backward extension. |
| Extension.SplitMeaning | without_pptp/Carthage/Checkouts/Sparkle/Vendor/bsdiff/bsdiff.c:272-294 | The same for the dividing point. |
| Diff.ExtendBoth | without_pptp/Carthage/Checkouts/Sparkle/Vendor/bsdiff/bsdiff.c:242-296 | Both extensions together, with the bounds that keep every copied range inside its file. |
| Diff.Emit | without_pptp/Carthage/Checkouts/Sparkle/Vendor/bsdiff/bsdiff.c:298-328 | The diff bytes, the extra bytes and the three encoded lengths of one block. |
| Diff.WriteBlock | without_pptp/Carthage/Checkouts/Sparkle/Vendor/bsdiff/bsdiff.c:241-333 | After every emission the blocks written so far rebuild the new file up to lastscan, dblen + eblen = lastscan, and the patcher would stand at lastpos. |
| Diff.AddedBack | without_pptp/Carthage/Checkouts/Sparkle/Vendor/bsdiff/bsdiff.c:298-304 | Adding the old bytes to the subtracted ones (modulo 256) and appending the extra bytes gives back the part of the new file. |
| Diff.Assemble | without_pptp/Carthage/Checkouts/Sparkle/Vendor/bsdiff/bsdiff.c:336-358 | The file consists of the header with the final lengths and the three sections. |
| Diff.Diff | without_pptp/Carthage/Checkouts/Sparkle/Vendor/bsdiff/bsdiff.c:194-359 | The differ terminates; its blocks cover the new file exactly, read the old file inside its bounds and are all needed; the trace of its searches says why each block ends where it does; of a file against itself it writes at most one block, no extra byte and no diff byte but zeros; the patcher recovers the new file from what was written. |
| Diff.PlaceMeaning | without_pptp/Carthage/Checkouts/Sparkle/Vendor/bsdiff/bsdiff.c:326-332 | Each block starts where the one before it ended, and its scan where the match before it ended. |
| Diff.CutMeaning | without_pptp/Carthage/Checkouts/Sparkle/Vendor/bsdiff/bsdiff.c:239-333 | A block holds the gap between the two extended matches and ends at a match whose length is not the hits of the match before it. |
| Diff.SkippedMeaning | without_pptp/Carthage/Checkouts/Sparkle/Vendor/bsdiff/bsdiff.c:239-241 | The scans in between ended at matches whose length was exactly those hits. |
| Diff.SameFile | without_pptp/Carthage/Checkouts/Sparkle/Vendor/bsdiff/bsdiff.c:202-334 | A file against itself: at most one block, only zeros. |
| Diff.RoundTrip | without_pptp/Carthage/Checkouts/Sparkle/Vendor/bsdiff/bsdiff.c:194-359 | Running bspatch on the output of bsdiff yields the new file, for all pairs of files. |
| Offsets.DecodeEncode | without_pptp/Carthage/Checkouts/Sparkle/Vendor/bsdiff/bspatch.c:108-124 | offtin undoes offtout for every value of magnitude below 2^63. |
| Offsets.OffTOut | without_pptp/Carthage/Checkouts/Sparkle/Vendor/bsdiff/bsdiff.c:95-118 | Eight base-256 digits of the magnitude, sign in the top bit. |
| Offsets.OffTIn | without_pptp/Carthage/Checkouts/Sparkle/Vendor/bsdiff/bspatch.c:108-124 | The value of the digits, negated if the top bit is set. |
| Offsets.BytesOfNumber | without_pptp/Carthage/Checkouts/Sparkle/Vendor/bsdiff/bsdiff.c:95-116 | Top bit exactly for negative numbers; the eight digits, low one first, are the magnitude. |
| Offsets.NumberOfBytes | without_pptp/Carthage/Checkouts/Sparkle/Vendor/bsdiff/bspatch.c:108-124 | The same for reading. |
| PatchFile.ApplyTriple | without_pptp/Carthage/Checkouts/Sparkle/Vendor/bsdiff/bspatch.c:216-252 | One round of the interpreter: refused exactly if the control section ends, a length exceeds the new file or a section is too short; otherwise the new positions and the finished part. |
| PatchFile.RefusedMeaning | without_pptp/Carthage/Checkouts/Sparkle/Vendor/bsdiff/bspatch.c:216-252 | A triple is refused exactly if it or its data is missing, a length is negative or the new file would become too long. |
| PatchFile.StepMeaning | without_pptp/Carthage/Checkouts/Sparkle/Vendor/bsdiff/bspatch.c:216-252 | Otherwise: sums of diff and old bytes modulo 256, where the old file reaches, then the extra bytes; positions move as told. |
| PatchFile.Patch | without_pptp/Carthage/Checkouts/Sparkle/Vendor/bsdiff/bspatch.c:168-253 | The interpreter loop, in place, equals its functional description for every patch file. |
| PatchFile.StepAt | without_pptp/Carthage/Checkouts/Sparkle/Vendor/bsdiff/bspatch.c:216-252 | On an encoded patch, step k reads exactly block k. |
| PatchFile.InterpretFrom | without_pptp/Carthage/Checkouts/Sparkle/Vendor/bsdiff/bspatch.c:214-253 | From block k on the interpreter finishes with the new file; all blocks are consumed and no check fires. |
| PatchFile.PatchedEncode | without_pptp/Carthage/Checkouts/Sparkle/Vendor/bsdiff/bspatch.c:168-253 | For all blocks that describe a new file, patching with their encoding yields it. |
| PatchFile.LayoutMeaning | without_pptp/Carthage/Checkouts/Sparkle/Vendor/bsdiff/bsdiff.c:194-358 | The letters BSDIFN40, the lengths of control and diff section and of the new file, the three sections. |
| PatchFile.ControlMeaning | without_pptp/Carthage/Checkouts/Sparkle/Vendor/bsdiff/bspatch.c:217-230 | Triple k of the control section: diff length, extra length, seek. |
| PatchFile.HeaderRefused | without_pptp/Carthage/Checkouts/Sparkle/Vendor/bsdiff/bspatch.c:168-200 | Other letters or a negative length in the header are refused. |
| ClientNat.FirstMatch | without_pptp/Carthage/Checkouts/openvpn/src/openvpn/clinat.c:203-225 | The first rule of the kind that matches, none before it. |
| ClientNat.Transform | without_pptp/Carthage/Checkouts/openvpn/src/openvpn/clinat.c:203-244 | The loop over all rules rewrites each address at most once, by the first matching rule of the kind that belongs to that address and direction. |
| ClientNat.RuleMeaning | without_pptp/Carthage/Checkouts/openvpn/src/openvpn/clinat.c:203-225 | In bits: going out the network is looked for and the foreign one put in, coming in the other way round; host bits stay. |
| ClientNat.TranslateMeaning | without_pptp/Carthage/Checkouts/openvpn/src/openvpn/clinat.c:203-225 | The first matching rule of the kind rewrites, none before it matches; without one the address stays. |
| ClientNat.Moved | without_pptp/Carthage/Checkouts/openvpn/src/openvpn/clinat.c:221-235 | For ranges without host bits, rewriting moves an address into the other range, keeps its host part, and is undone by rewriting in the other direction. |
| ClientNat.RestoredExactly | without_pptp/Carthage/Checkouts/openvpn/src/openvpn/clinat.c:203-244 | For any rule list without host bits, overlapping ranges included, an address comes back exactly if no earlier rule of the kind shadows the rule that it meets, or, if it meets none, no foreign range contains it: a condition on the rules and the address. Equivalently the reply meets the rule of the request. |
| ClientNat.ShadowsIff | without_pptp/Carthage/Checkouts/openvpn/src/openvpn/clinat.c:203-225 | A rule shadows another for an address, as seen from networks and masks alone, exactly if its foreign range contains the rewritten address. |
| ClientNat.RestoredIff | without_pptp/Carthage/Checkouts/openvpn/src/openvpn/clinat.c:203-244 | With disjoint foreign ranges an address is restored exactly if it meets a rule or lies in no foreign range. |
| ClientNat.RequestReply | without_pptp/Carthage/Checkouts/openvpn/src/openvpn/clinat.c:203-244 | Request out, addresses swapped, reply in: the packet carries the original addresses swapped, exactly under that condition. |
| ClientNat.OverlapMisdirects | without_pptp/Carthage/Checkouts/openvpn/src/openvpn/clinat.c:203-244 | Two rules with the same foreign range: a concrete address that is not restored. |
| Base64.Encode64 | without_pptp/Carthage/Checkouts/openvpn/src/openvpn/base64.c:55-93 | The encoder fills a buffer of size*4/3+4 characters without overrunning it; the string has length 4*ceil(n/3), and its characters, valued by the alphabet of section 4 of RFC 4648, hold the bytes six bits each, with padding in the last group. |
| Base64.EncodedMeaning | without_pptp/Carthage/Checkouts/openvpn/src/openvpn/base64.c:68-85 | Characters 4j to 4j+3 hold bytes 3j to 3j+2, high bits first; one padding character for each missing byte. |
| Base64.Pos | without_pptp/Carthage/Checkouts/openvpn/src/openvpn/base64.c:95-103 | Position of a digit in the alphabet, -1 otherwise. |
| Base64.TokenDecode | without_pptp/Carthage/Checkouts/openvpn/src/openvpn/base64.c:107-128 | Value of four characters in 32-bit arithmetic tagged with the padding count; the error value for short tokens, misplaced or excessive padding. |
| Base64.PosMeaning | without_pptp/Carthage/Checkouts/openvpn/src/openvpn/base64.c:95-103 | The alphabet of section 4 of RFC 4648 as character ranges. |
| Base64.TokenMeaning | without_pptp/Carthage/Checkouts/openvpn/src/openvpn/base64.c:107-128 | Tokens of the alphabet: an error exactly for misplaced padding, else the bytes of the 24-bit number that the characters hold. |
| Base64.Decode64 | without_pptp/Carthage/Checkouts/openvpn/src/openvpn/base64.c:134-165 | The decoder loop on memory: result, bytes written and untouched rest, for every input string and size. |
| Base64.GroupValue | without_pptp/Carthage/Checkouts/openvpn/src/openvpn/base64.c:68-85 | Each encoded group has the 24-bit number of its bytes as value and one padding character per missing byte. |
| Base64.DecodeEncoded | without_pptp/Carthage/Checkouts/openvpn/src/openvpn/base64.c:134-165 | Decoding an encoding returns the bytes; with a limit it fails exactly if the limit is smaller than the data, after writing what fits. |
| Base64.RoundTrip | without_pptp/Carthage/Checkouts/openvpn/src/openvpn/base64.c:55-165 | Encode and decode in memory: the bytes come back, followed by what was there; the result is the length, or -1 exactly if 0 <= size < length. |
| ByteBuffer.Buffer.Prepend | without_pptp/Carthage/Checkouts/openvpn/src/openvpn/buffer.h:475-483 | Space in front, refused without change unless the offset is large enough. |
| ByteBuffer.Buffer.Advance | without_pptp/Carthage/Checkouts/openvpn/src/openvpn/buffer.h:485-493 | Drops bytes in front, refused without change if there are too few. |
| ByteBuffer.Buffer.Write | without_pptp/Carthage/Checkouts/openvpn/src/openvpn/buffer.h:529-537 | Appends exactly if the bytes fit behind the content, else changes nothing, memory included. |
| ByteBuffer.Buffer.WritePrepend | without_pptp/Carthage/Checkouts/openvpn/src/openvpn/buffer.h:539-547 | Pushes bytes in front, or changes nothing. |
| ByteBuffer.Buffer.Read | without_pptp/Carthage/Checkouts/openvpn/src/openvpn/buffer.h:626-634 | Removes and returns the first bytes, or changes nothing. |
| ByteBuffer.Buffer.IncLen | without_pptp/Carthage/Checkouts/openvpn/src/openvpn/buffer.h:461-468 | Grows the content by what memory holds behind it, or cuts its end; refused without change outside the memory. |
| ByteBuffer.Buffer.CopyN | without_pptp/Carthage/Checkouts/openvpn/src/openvpn/buffer.h:576-583 | Moves bytes between buffers; what was read is lost if it does not fit. |
| ByteBuffer.Buffer.CopyRange | without_pptp/Carthage/Checkouts/openvpn/src/openvpn/buffer.h:585-602 | Overwrites a part of the content and extends it if needed, over a gap that keeps what memory held if the index lies beyond the end; or changes nothing, memory included. |
| ByteBuffer.Buffer.CopyExcess | without_pptp/Carthage/Checkouts/openvpn/src/openvpn/buffer.h:604-624 | Truncates the source in any case and appends the cut part if it fits. |
| ByteBuffer.Buffer.Assign | without_pptp/Carthage/Checkouts/openvpn/src/openvpn/buffer.c:163-169 | Takes over offset and content; emptied if the content does not fit. |
| ByteBuffer.Buffer.Init | without_pptp/Carthage/Checkouts/openvpn/src/openvpn/buffer.h:255-263 | Empties the buffer and places it, or changes nothing. |
| ByteBuffer.Buffer.WriteAlloc | without_pptp/Carthage/Checkouts/openvpn/src/openvpn/buffer.h:500-509 | Takes the next bytes of memory into the content, or changes nothing. |
| ByteBuffer.Buffer.ReadAlloc | without_pptp/Carthage/Checkouts/openvpn/src/openvpn/buffer.h:517-527 | Releases bytes in front and says where they are. |
| ByteBuffer.Buffer.Copy | without_pptp/Carthage/Checkouts/openvpn/src/openvpn/buffer.h:570-574 | Appends the content of another buffer, or changes nothing. |
| ByteBuffer.Buffer.WriteU8 | without_pptp/Carthage/Checkouts/openvpn/src/openvpn/buffer.h:549-554 | The number modulo 256. |
| ByteBuffer.Buffer.WriteU16 | without_pptp/Carthage/Checkouts/openvpn/src/openvpn/buffer.h:556-561 | Two bytes in network order, modulo 2^16. |
| ByteBuffer.Buffer.ReadU8 | without_pptp/Carthage/Checkouts/openvpn/src/openvpn/buffer.h:636-645 | The next byte, or -1 exactly if there is none. |
| ByteBuffer.Buffer.ReadU16 | without_pptp/Carthage/Checkouts/openvpn/src/openvpn/buffer.h:647-654 | The number in the next two bytes, or -1 exactly if there are fewer. |
| ByteBuffer.Buffer.WriteU32 | without_pptp/Carthage/Checkouts/openvpn/src/openvpn/buffer.h:563-569 | Network byte order of the number modulo 2^32 (8 and 16 bits alike). |
| ByteBuffer.Buffer.ReadU32 | without_pptp/Carthage/Checkouts/openvpn/src/openvpn/buffer.h:656-672 | The number in the first four bytes, or not good. |
| ByteBuffer.NumberOfBigEndian | without_pptp/Carthage/Checkouts/openvpn/src/openvpn/buffer.h:549-569 | Reading n bytes that were written for x gives x modulo 256^n. |
| ByteBuffer.ViewMeaning | without_pptp/Carthage/Checkouts/openvpn/src/openvpn/buffer.h:405-459 | Content and free spaces in terms of memory, offset, length and capacity. |
| BufferRuns.WriteFields | without_pptp/Carthage/Checkouts/openvpn/src/openvpn/buffer.h:549-569 | A sequence of numbers is written until one does not fit. |
| BufferRuns.ReadFields | without_pptp/Carthage/Checkouts/openvpn/src/openvpn/buffer.h:636-672 | Any sequence of u8/u16/u32 numbers reads back in order with the same values modulo their widths. |
| BufferRuns.Run | without_pptp/Carthage/Checkouts/openvpn/src/openvpn/buffer.h:475-634 | Any run of writes at both ends and reads, on any buffer, leaves the buffer, the bytes written and the bytes read that follow from the calls and the first content, the refused calls included; with what the following rows say about them. |
| BufferRuns.Conserved | without_pptp/Carthage/Checkouts/openvpn/src/openvpn/buffer.h:475-634 | Over any run no byte is lost or made up, and both free spaces account for every byte; without writes in front, received + content = first content + sent; without reads, content = headers + first content + sent. |
| BufferRuns.PutsFitIff | without_pptp/Carthage/Checkouts/openvpn/src/openvpn/buffer.h:495-537 | All writes of a run succeed if and only if each is short and they fit the room behind all together, whatever is read in between. |
| BufferRuns.FrontsFit | without_pptp/Carthage/Checkouts/openvpn/src/openvpn/buffer.h:475-547 | Writes in front that fit the room there all together succeed. |
| BufferRuns.HeadersComeOff | without_pptp/Carthage/Checkouts/openvpn/src/openvpn/buffer.h:475-634 | Headers written in front one after the other come off by reads in the opposite order and leave the buffer as it was. |
| BufferList.List.constructor | without_pptp/Carthage/Checkouts/openvpn/src/openvpn/buffer.c:944-952 | An empty list with its limit; a negative limit is one that takes nothing. |
| BufferList.List.PushData | without_pptp/Carthage/Checkouts/openvpn/src/openvpn/buffer.c:997-1022 | Appends one entry exactly if the counter is below a non-zero limit; the list stays a well-formed chain from head to tail with separate memory per entry. |
| BufferList.List.Push | without_pptp/Carthage/Checkouts/openvpn/src/openvpn/buffer.c:985-995 | Appends a string without its terminator. |
| BufferList.List.Peek | without_pptp/Carthage/Checkouts/openvpn/src/openvpn/buffer.c:1024-1031 | The first buffer, if any. |
| BufferList.List.Pop | without_pptp/Carthage/Checkouts/openvpn/src/openvpn/buffer.c:1072-1085 | Drops the first entry, also when it is the last one. |
| BufferList.List.Advance | without_pptp/Carthage/Checkouts/openvpn/src/openvpn/buffer.c:1087-1097 | Drops bytes of the first entry, and the entry when it becomes empty; the counter goes down exactly then. |
| BufferList.List.Aggregate | without_pptp/Carthage/Checkouts/openvpn/src/openvpn/buffer.c:1033-1070 | Merges the first entries as specified; with chunks of legal size the first entry then exceeds max or is the only one; a merged entry does not exceed max without the last chunk merged; the byte stream is the same afterwards exactly if every merged chunk is short enough to be copied. |
| BufferList.List.CountMerge | without_pptp/Carthage/Checkouts/openvpn/src/openvpn/buffer.c:1036-1044 | Which entries are merged and how large they are together. |
| BufferList.List.CopyMerged | without_pptp/Carthage/Checkouts/openvpn/src/openvpn/buffer.c:1048-1062 | The merged buffer holds the chunks that could be copied. |
| Chunks.CountMeaning | without_pptp/Carthage/Checkouts/openvpn/src/openvpn/buffer.c:1040-1044 | The merged entries are the fewest whose sizes exceed max together, or all. |
| Chunks.AggregatedMeaning | without_pptp/Carthage/Checkouts/openvpn/src/openvpn/buffer.c:1033-1070 | What a merge does: the first k chunks become one, without the last they did not exceed max, and the first chunk exceeds max afterwards or is the only one. |
| Chunks.KeptMeaning | without_pptp/Carthage/Checkouts/openvpn/src/openvpn/buffer.c:1055-1062 | A merged chunk is kept exactly if it is shorter than BUF_SIZE_MAX, independently of the others. |
| Chunks.StreamKeptIff | without_pptp/Carthage/Checkouts/openvpn/src/openvpn/buffer.c:1033-1070 | Merging keeps the stream if and only if no merged chunk has BUF_SIZE_MAX bytes or more; otherwise the stream gets shorter. |
| Chunks.AggregateCanLose | without_pptp/Carthage/Checkouts/openvpn/src/openvpn/buffer.c:1033-1070 | Two legal chunks that reach the limit together: merging twice loses them. |
| Chunks.SmallMerge | without_pptp/Carthage/Checkouts/openvpn/src/openvpn/buffer.c:1033-1070 | With max below BUF_SIZE_MAX and only the first chunk too long, if any, a merge drops nothing and leaves such a list. |
| ListRuns.Run | without_pptp/Carthage/Checkouts/openvpn/src/openvpn/buffer.c:970-1097 | Any run of pushes, pops, reads and merges leaves the list, the bytes sent and the bytes received that follow from the calls, refused pushes and reads included; with what the following rows say about them. |
| ListRuns.BalancedIff | without_pptp/Carthage/Checkouts/openvpn/src/openvpn/buffer.c:970-1097 | Over any run, bytes received + stream = first stream + bytes sent, if and only if no merge met a chunk of BUF_SIZE_MAX bytes or more; what is dropped is never made up for. |
| ListRuns.SmallMergesKeep | without_pptp/Carthage/Checkouts/openvpn/src/openvpn/buffer.c:970-1097 | That is so for all runs whose merges have limits below BUF_SIZE_MAX, if at most the first chunk of the list was longer at the start. |
| ListRuns.SafeLimitIff | without_pptp/Carthage/Checkouts/openvpn/src/openvpn/buffer.c:1033-1070 | Merging up to max keeps the stream in all runs on a new list, if and only if max is below BUF_SIZE_MAX. |
| ListRuns.AllSent | without_pptp/Carthage/Checkouts/openvpn/src/openvpn/buffer.c:997-1022 | Without a limit, or with room for all pushes at the start, every push is accepted: what is sent is the concatenation of all pushes. |
| ListRuns.TakeMeaning | without_pptp/Carthage/Checkouts/openvpn/src/openvpn/buffer.c:1024-1097 | A read within the first chunk delivers the next bytes of the stream, and a chunk read completely is gone; no other read delivers anything. |
| ListRuns.EverythingArrives | without_pptp/Carthage/Checkouts/openvpn/src/openvpn/buffer.c:970-1097 | After any run with small merges, emptying the list by pops delivers all that it held and all that was sent, in order. |
| LineParser.Parse | without_pptp/Carthage/Checkouts/openvpn/src/openvpn/buffer.c:691-715 | One call on any content, in bytes: the line is free of NUL and the delimiter; it ends at the end, at a NUL or delimiter, which is consumed, or when the size is reached, and then one more byte is consumed; and whether the caller should go on. |
| LineParser.ParseAll | without_pptp/Carthage/Checkouts/openvpn/src/openvpn/buffer.c:691-715 | Calls until false use up the buffer; without NULs, and with delimiters close enough, the lines with a delimiter behind each are the content, up to the delimiter behind the last line. |
| LineParser.ParsedLinesIff | without_pptp/Carthage/Checkouts/openvpn/src/openvpn/buffer.c:691-715 | They yield exactly the segments between separators, in order, without an empty last one, if and only if every segment is shorter than the size. |
| LineParser.FirstLineMeaning | without_pptp/Carthage/Checkouts/openvpn/src/openvpn/buffer.c:691-715 | One line in terms of the bytes, without the notion of a segment. |
| LineParser.LinesMeaning | without_pptp/Carthage/Checkouts/openvpn/src/openvpn/buffer.c:691-715 | All lines in terms of the bytes: joined with delimiters they are the content. |
| HexDump.Printf | without_pptp/Carthage/Checkouts/openvpn/src/openvpn/buffer.c:209-232 | Appends the part of a text that fits before the terminator and says whether it was all. |
| HexDump.CatTrunc | without_pptp/Carthage/Checkouts/openvpn/src/openvpn/buffer.c:279-290 | Overwrites the end of a full buffer with the marker, else changes nothing. |
| HexDump.FormatHex | without_pptp/Carthage/Checkouts/openvpn/src/openvpn/buffer.c:398-415 | For every size and limit: memory holds the dump and a terminator, or with a limit that leaves fewer than two free bytes the cut dump with the marker. |
| HexDump.DumpFits | without_pptp/Carthage/Checkouts/openvpn/src/openvpn/buffer.c:402-404 | The computed size always leaves two bytes free, so without a limit nothing is cut or marked. |
| HexDump.DigitsAt | without_pptp/Carthage/Checkouts/openvpn/src/openvpn/buffer.c:406-411 | The digits of byte i stand at offset 2i plus the length of the separator times i / break (rounded down). |
| HexDump.DumpMeaning | without_pptp/Carthage/Checkouts/openvpn/src/openvpn/buffer.c:406-411 | There stand two characters from 0-9 and a-f, the high digit first, whose value is the byte. |
| HexDump.SeparatorAt | without_pptp/Carthage/Checkouts/openvpn/src/openvpn/buffer.c:408-409 | In front of every byte whose index is a positive multiple of the break stands the separator, and nothing else is in the dump. |
| HexDump.ShownMeaning | without_pptp/Carthage/Checkouts/openvpn/src/openvpn/buffer.c:279-290 | With a limit: the text if two bytes stay free, else as much as fits, ending in [more...] where that fits. |
| HexDump.DumpInjective | without_pptp/Carthage/Checkouts/openvpn/src/openvpn/buffer.c:406-411 | Different data have different dumps. |

## Left out

- Sais.SaisMain: the text is a value, so the model does not show the name string inside the array that is being sorted; instead it is proved that the cells behind the sorted text and its free space do not change during the recursion.
- Sais.SaisMain: the bucket tables and the table D are arrays of their own (one shared array where the code shares them), also where the code places them at the end of the free space; the free space passed to the recursion is computed as in the code, and `Sais.SortLms` shows that the cells where the code keeps the counts do not change unless they are taken again.
- Sais.SuffixSort: null pointers, negative lengths and failing allocations (results -1 and -2) do not occur.
- Sais.BurrowsWheeler: the result cells are numbers; the casts to `unsigned char` keep them because the characters are below 256.
- `do`/`while` loops over runs of L and S positions are written as calls of two scanning methods; the visited positions are the same.
- Integers are unbounded. File sizes in `Diff` are below 2^31, as `sais` takes an `int`; the flagged entries of `sais.c` stay below twice the length, which `SAIS_LMSSORT2_LIMIT` keeps in range.
- `sais_int` and `sais_int_bwt` are not part of this model.
- Diff.Diff: the suffix array is sorted in an array of its own and then put behind the empty suffix, where the code sorts at `I + 1`; the patch file is assembled in memory in the order in which it is written.
- PatchFile.Patch: only the raw `BSDIFN40` form, without bzip2; read errors, file handling and allocation are left out, every fatal error is the result `Corrupt`.
- PatchFile.ApplyTriple: a negative length in a control triple counts as a fatal error, where the code passes it on to the reading function; the differ never writes one.
- ClientNat.Transform: checksum adjustment, packet headers and logging; a packet is its two addresses. Rule kind and direction are 0 or 1, as parsed.
- Base64.Decode64: nothing is claimed about which invalid strings are rejected beyond what the code does with them; `Base64.TokenDecode` keeps the unchecked -1 of `pos` and its wrap-around.
- Base64.Encode64: negative sizes and failing allocation.
- ByteBuffer.Buffer: pointers into memory are indices; copies between overlapping memory are excluded, as for `memcpy`; a buffer without memory has capacity 0.
- BufferList.List: freeing is not modelled, and `data` is never null; `buffer_list_file` is left out.
- HexDump.Printf: only the results of formatting, not the format directives; a separator goes with a positive break.
- `buf_sub`, `buf_null_terminate`, `buf_chomp`, `buf_rmtail`, string matching, gc arenas and `circ_list.h` would add only easy members.
- All Objective-C and Swift code, UI, networking and XPC of the repository.
