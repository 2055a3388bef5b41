# bxtools record-stream tools, modelled in Dafny

bxtools works on linked-read alignment files: every alignment record carries a query name, a
reference name and position, a cigar, and the 10x barcode in its BX tag. The tools modelled
here are single forward passes over such a record stream:

- `amfilter` (`amfilter.dfy`). A first pass keeps, per barcode, a stack of recent
  (read id, position) pairs and collects a discard set of query names. A record whose AM tag
  reads "0" is discarded outright. A lone stack entry is discarded when the next record of its
  barcode lies 15000 or more away. At end of stream the one-entry stacks are cleaned up. A
  second pass writes the records whose query name is not discarded.
- `bamtofastq` (`bamtofastq.dfy`). Consecutive records with one query name form a group. Both
  reads of the pair are rebuilt from the group's alignments (hard-clip offsets, span,
  '?'-padding, reverse complement) and written as FASTQ entries that carry the BX tag. The
  output file names come from the BAM file name.
- `filter` (`qualityfilter.dfy`). Each group of one query name is written whole or not at
  all. The decision is `CheckConditions`: integer tests in the default mode, and the rescue
  rules of the filter-bad mode (decoy or unmapped records, `AdditionalChecks` on soft-clipped
  groups).
- `subsample` (`subsample.dfy`). Collects the barcode set and keeps the first `target`
  barcodes in the set's iteration order. Writes the records whose barcode is kept or absent.
- `split` (`splitbyref.dfy`). For every reference holding a barcoded record, writes the set of
  its barcodes, ascending, one per line, to `folder/<reference>.txt`.
- `extract` (`extract.dfy`). Reads a whitespace-separated barcode list and writes the
  records whose BX tag is in it.
- `findsv` (`findsv.dfy`). Over several files, walks the leading match and deletion
  operations of every unclipped mapped record, counts each (position, length) of a deletion,
  and reports the pairs counted more than five times.

Shared pieces:
- `records.dfy` has the record datatype and the grouping of a stream into maximal runs of one
  query name, with the loop lemmas both group drivers use.
- `strings.dfy` has tokenising, line splitting, byte-wise string order with sorted insertion,
  and `find`/`rfind`.
- `seqs.dfy` has order-preserving filtering and concatenation.
- `wrappers.dfy` has `Option`.

Records are values with given fields. The BAM reader becomes a `seq<Record>`, and each
writer's output becomes a returned sequence, string, set or map. The results of record
accessors (`NumMatchBases`, `AlignmentPosition`, `MapQuality`, ...) are fields of `AlignStats`.
A missing BX tag reads as the empty string (`Records.BxText`), as `GetTag` into a fresh string
does.

C++ integer behaviour is written out where it matters:
- `size_t` arithmetic in `AdditionalChecks` is reduction modulo 2^64 (`QualityFilter.ToSize`).
- Quality bytes are read through signed `char` (`QualityFilter.SignedChar`).
- A negative `count` given to `std::string::replace` wraps to "to the end" (`BamToFastq.Replace`).
- The `size_t` length in the basename computation can wrap (`BamToFastq.Basename`).

Iteration over an `unordered_set` is a given duplicate-free listing (`Subsample.RunSubsample`).
Iteration over a `std::set` is the strictly ascending listing, which is unique
(`Strings.SortedUnique`).

In `amfilter`, the discard set receives query names everywhere except in the end-of-stream
cleanup. A record with AM "0" adds its own name (src/bxamfilter.cpp:69), and a replaced lone
entry adds its read id (line 77). The second pass tests the set against `Qname()` (line 107).
The cleanup (lines 92-95), however, inserts the map key, which is a barcode. The model follows
the code as written and records the discrepancy under Findings, with the corrected cleanup
beside it.

The `barcode` string of `amfilter` is declared once, before the loop (line 59), and only
`GetTag` writes it (line 67). The model reads a missing BX tag as "", so untagged records share
the stack of the barcode "". Whether the library instead leaves the previous record's barcode
in place is not modelled (see the line on stale tags under Left out).

## Model

| member | source | states |
|---|---|---|
| AmFilter.Advance | src/bxamfilter.cpp:71-88 | A barcode's first record opens a one-entry stack. A record less than 15000 from the top position grows the stack by one, whatever its size. A farther record replaces the stack by a one-entry stack of itself. Only a replaced lone entry is reported for discarding, never an entry of a larger stack. |
| AmFilter.Step | src/bxamfilter.cpp:63-90 | A record with AM tag "0" adds its query name to the discard set and changes no stack. Any other record changes only its own barcode's stack, as in Advance, and adds at most that stack's replaced lone entry. The discard set never shrinks. |
| AmFilter.Scan | src/bxamfilter.cpp:57-90 | Every stack the first pass builds is well formed: a stack of two or more entries is a cluster holding at least two read ids. |
| AmFilter.ScanDiscardsInvalid | src/bxamfilter.cpp:68-69 | The query name of every record with AM tag "0" is in the discard set after the first pass. |
| AmFilter.ScanKeys | src/bxamfilter.cpp:63-90 | After the first pass exactly the barcodes of the records whose AM tag is not "0" have a stack: a stack, once created, never disappears. |
| AmFilter.ScanNames | src/bxamfilter.cpp:57-90 | Every discarded name, and the read on every one-entry stack, is a query name of the stream. |
| AmFilter.FinishAsWritten | src/bxamfilter.cpp:92-96 | The cleanup as written adds the barcode (map key) of every one-entry stack to the discard set, and nothing else. |
| AmFilter.FinishIntended | src/bxamfilter.cpp:92-96 | The corrected cleanup adds the read id of every one-entry stack to the discard set, and nothing else. |
| AmFilter.ReplayMembers | src/bxamfilter.cpp:106-110 | The second pass writes exactly the input records whose query name is not in the discard set. |
| AmFilter.ReplayConcat | src/bxamfilter.cpp:106-110 | Replaying a concatenation is concatenating the replays: the output is a subsequence in input order. |
| AmFilter.RunAmFilter | src/bxamfilter.cpp:57-110 | The output is no longer than the input and holds only input records. No alignment of a read that has an AM "0" alignment anywhere in the stream is written. |
| AmFilter.SingletonIsLastOfBarcode | src/bxamfilter.cpp:71-88 | A one-entry stack at the end of the pass holds the name and position of the last valid record of its barcode. |
| AmFilter.DiscardOrigin | src/bxamfilter.cpp:68-79 | Every discarded name belongs to a record with AM tag "0", or to a valid record whose next valid record of the same barcode lies 15000 or more away. |
| AmFilter.CloseSuccessorsKeepRead | src/bxamfilter.cpp:73-79 | A read all of whose records are valid, each followed within its barcode by a close record or by none, is not discarded by the first pass. |
| AmFilter.LoneRecordWindow | src/bxamfilter.cpp:71-72 | A valid record whose barcode has no other valid record ends the pass alone on its barcode's stack. |
| AmFilter.LoneRecordBarcodeDiscardedAsWritten | src/bxamfilter.cpp:92-95 | As written, the cleanup puts such a lone record's barcode into the discard set. |
| AmFilter.LoneReadSurvivesAsWritten | src/bxamfilter.cpp:92-110 | As written, a stream of one valid record whose barcode differs from its name comes out of both passes unchanged. |
| AmFilter.LoneReadDiscardedIntended | src/bxamfilter.cpp:92-110 | With the corrected cleanup, a lone record's read is discarded and no record of that read is written. |
| AmFilter.ThresholdIsStrict | src/bxamfilter.cpp:61-79 | Two valid records of one barcode exactly 15000 apart are not merged: the first read is discarded and the second is alone on the stack. At 14999 apart they form a cluster and nothing is discarded. |
| AmFilter.RerunRemovesMore | src/bxamfilter.cpp:57-110 | The tool is not idempotent. On four records where read "qa" has a valid record and an AM "0" record, a second run on the output discards "qb", which lost its cluster partner. |
| BamToFastq.Complement | src/bxbamtofastq.cpp:25-58 | The table pairs A/T, C/G, a/t, c/g and the codes 0/3 and 1/2, maps N and n to themselves, and sends every other character to 'n'. The result is always in that alphabet. |
| BamToFastq.ComplementInvolutive | src/bxbamtofastq.cpp:25-58 | Complementing twice restores every symbol of the alphabet. |
| BamToFastq.ReverseComplement | src/bxbamtofastq.cpp:76-80 | The result has the input's length, and its position i holds the complement of input position n-1-i. |
| BamToFastq.ReverseComplementInvolutive | src/bxbamtofastq.cpp:76-80 | Reverse-complementing twice restores any string over the alphabet. |
| BamToFastq.Reverse | src/bxbamtofastq.cpp:125-127 | Reversing keeps the length and puts position n-1-i at position i. |
| BamToFastq.Span | src/bxbamtofastq.cpp:101-115 | The total length less the deleted bases is the length of the non-deletion operations, so it is never negative and covers either hard clip. |
| BamToFastq.SpanIsReadLength | src/bxbamtofastq.cpp:110-115 | The total cigar length is the deleted length plus the length of the other operations. |
| BamToFastq.HardClipsWithinReadLength | src/bxbamtofastq.cpp:101-108 | A leading or trailing hard clip is no longer than the non-deletion operations together. |
| BamToFastq.Resize | src/bxbamtofastq.cpp:118-121 | `resize(n, fill)` yields n characters: the old ones as far as they go, then the fill character. |
| BamToFastq.Replace | src/bxbamtofastq.cpp:128-129 | `replace` throws exactly when the position exceeds the string. Otherwise the prefix is kept, the new text follows, then the rest after the replaced part; a negative or too long count replaces to the end. |
| BamToFastq.Pad | src/bxbamtofastq.cpp:118-121 | A read buffer shorter than the span has its bases and its qualities each resized to the span: a character keeps its value where the old string had one and is '?' beyond it, so qualities longer than the span are cut. A long enough buffer is unchanged. |
| BamToFastq.Splice | src/bxbamtofastq.cpp:116-143 | After padding, each buffer is its part before the leading hard-clip offset, then the oriented bases (or qualities), then the padded buffer's tail after the replaced part, with exactly that length. The replaced part ends at span minus the trailing hard clip, or at the buffer's end when that count is negative or too long. The splice fails exactly when the offset exceeds the quality buffer. |
| BamToFastq.Fill | src/bxbamtofastq.cpp:96-145 | The two reads are rebuilt independently. The first buffer is the result of splicing, in order, only the first read's non-secondary alignments; the second buffer likewise from the second read's. The whole fails exactly when either chain of splices fails. |
| BamToFastq.FillAppend | src/bxbamtofastq.cpp:96-145 | Rebuilding from a concatenation of alignments rebuilds from the first part, then continues from its buffers with the second part. |
| BamToFastq.Feed | src/bxbamtofastq.cpp:96-145 | A secondary alignment changes nothing. A first-of-pair alignment changes only the first read's buffer, and any other alignment only the second read's buffer. |
| BamToFastq.SecondaryIgnored | src/bxbamtofastq.cpp:96-99 | Rebuilding from a group equals rebuilding from its non-secondary alignments alone. |
| BamToFastq.FastqEntry | src/bxbamtofastq.cpp:147-155 | An entry is four newline-terminated lines: "@" with the name and the BX part when the tag is present, the bases, "+", and the qualities. Without newlines inside, it reads back as exactly those four lines. |
| BamToFastq.ProcessReadPair | src/bxbamtofastq.cpp:90-92 | A group writes nothing exactly when it is empty. |
| BamToFastq.PairContent | src/bxbamtofastq.cpp:90-155 | A non-empty group throws exactly when splicing the first read's or the second read's alignments throws. Otherwise the first file receives four lines: the header from the group's first query name and BX tag, the bases spliced from the first read's non-secondary alignments, "+", and their qualities. The second file receives the same for the second read. |
| BamToFastq.UnclippedRestored | src/bxbamtofastq.cpp:116-129 | An alignment without hard clips, spliced into empty buffers, yields exactly its bases and qualities in read orientation. |
| BamToFastq.UnclippedPairRestored | src/bxbamtofastq.cpp:83-155 | A group of one unclipped primary alignment of each read writes each read back as that alignment's bases and qualities in read orientation, under the group's name and BX tag. |
| BamToFastq.Basename | src/bxbamtofastq.cpp:163-164 | The base name has no '/'. It is the text after the last '/' less its last four characters, or all of that text when it is shorter than four. |
| BamToFastq.BasenameOfBamPath | src/bxbamtofastq.cpp:163-164 | The base name of "dir/name.bam" is "name". |
| BamToFastq.OutputPaths | src/bxbamtofastq.cpp:165-167 | Both FASTQ paths lie in the output folder, and they differ. |
| BamToFastq.OutputPathsOfBam | src/bxbamtofastq.cpp:163-167 | For "dir/name.bam" the files are "name_R1.fastq" and "name_R2.fastq" in the output folder. |
| BamToFastq.ReadRecord | src/bxbamtofastq.cpp:178-188 | One loop iteration keeps the collected group equal to the open run, and the output equal to that of the closed runs. |
| BamToFastq.RunBamToFastq | src/bxbamtofastq.cpp:176-189 | Every maximal run of records with one query name is processed exactly once, in stream order, the last one after the loop. |
| Records.Groups | src/bxbamtofastq.cpp:176-189 | The runs are non-empty, each has one query name, neighbouring runs differ in name, and together they concatenate to the stream. |
| Records.NextRecord | src/bxbamtofastq.cpp:180-187 | A record with a new name closes the collected run and starts a new one. A record with the current name extends the collected run. |
| Records.LastRun | src/bxbamtofastq.cpp:189 | After the last record, the runs are the closed runs followed by the collected one, if any. |
| Records.KeptMembers | src/bxfilter.cpp:108-129 | A record is written exactly when some accepted run holds it: every run is written whole or not at all. |
| QualityFilter.ToSize | src/bxfilter.cpp:58-75 | Conversion to `size_t` is the identity on non-negative values and adds 2^64 to negative ones. |
| QualityFilter.AsciiSum | src/bxfilter.cpp:58-62 | On 7-bit qualities the sum through signed `char` is the sum of the character codes, at most 127 per character. |
| QualityFilter.FrontMeanAsWritten | src/bxfilter.cpp:56-66 | The leading loop as written, defined while it reads within the qualities and their terminating NUL (start at most one past the last quality). A negative alignment start adds nothing and divides by a huge unsigned value, so the leading mean is 0. |
| QualityFilter.FrontMean | src/bxfilter.cpp:56-66 | The leading mean reading only stored qualities, defined for every `int` start; a negative start gives 0. |
| QualityFilter.FrontMeanAgrees | src/bxfilter.cpp:58-61 | Wherever the loop as written is defined, including a start one past the last quality where it reads the NUL, it gives the same mean as FrontMean. |
| QualityFilter.HardClipReadsPastEnd | src/bxfilter.cpp:47-61 | A 100H50M alignment with 50 qualities passes both length tests, yet starts more than one past its qualities, so the loop as written reads past the string. Reading only stored qualities, such a 7-bit record fails. |
| QualityFilter.BackMean | src/bxfilter.cpp:69-77 | An alignment end outside the qualities adds nothing, so the trailing mean is 0. |
| QualityFilter.FrontMeanMeaning | src/bxfilter.cpp:58-66 | On 7-bit qualities the integer mean of the leading part is at least 64 exactly when the code sum of its stored qualities is at least 64 times the alignment start. |
| QualityFilter.BackMeanMeaning | src/bxfilter.cpp:69-78 | On 7-bit qualities the integer mean of the trailing part is at least 64 exactly when its code sum is at least 64 times its length. |
| QualityFilter.AdditionalChecks | src/bxfilter.cpp:47-81 | A record fails with fewer than 50 matched bases, or when clipped by more than 25 at both ends, or with a negative start, or with an end outside the qualities. On 7-bit qualities it passes exactly when neither length test fails and each non-empty unaligned end has mean quality byte at least 64. |
| QualityFilter.DecoyOrUnmapped | src/bxfilter.cpp:132-140 | A reference name is decoy or unplaced exactly when it starts with "hs" or contains "Un". |
| QualityFilter.SameChrCheck | src/bxfilter.cpp:168-181 | The check holds exactly when all records share the first record's reference. |
| QualityFilter.DefaultChecks | src/bxfilter.cpp:143-184 | The default mode accepts exactly when every record meets the mapping quality, is not over-clipped, has indels of at most 3, and all records share one reference. |
| QualityFilter.AllAdditionalChecks | src/bxfilter.cpp:225-229 | The loop stops at the first failing record, so it needs only the records up to that one to be examinable. It holds exactly when every record passes AdditionalChecks. |
| QualityFilter.RescueChecks | src/bxfilter.cpp:185-243 | Filter-bad mode accepts exactly a group of good mean quality with an unmapped or decoy record, or a group with an over-soft-clipped record whose records share one reference and all pass AdditionalChecks. Qualities are needed only by groups that reach the AdditionalChecks loop, and only up to its first failure. A decoy or unmapped group of good quality is always accepted. |
| QualityFilter.DecoyGroupRescued | src/bxfilter.cpp:186-209 | A group of good mean quality with a record on "hs37d5" is accepted, whatever its other records hold: no quality string is read. |
| QualityFilter.CheckConditions | src/bxfilter.cpp:142-245 | The verdict is the mode's acceptance rule. The empty group passes in default mode and fails in filter-bad mode. Only a filter-bad group that reaches the AdditionalChecks loop needs examinable records. |
| QualityFilter.Flush | src/bxfilter.cpp:108-120 | Checking a collected group appends it whole when accepted and nothing otherwise. |
| QualityFilter.ReadRecord | src/bxfilter.cpp:104-121 | One loop iteration keeps the collected group equal to the open run, and the output equal to the accepted closed runs. Each run it checks is a run of the whole stream. |
| QualityFilter.RunFilter | src/bxfilter.cpp:102-129 | The output is the accepted runs of one query name, each whole, in stream order, including the last run. The only requirement is that each run which reaches the AdditionalChecks loop can have the records that loop examines examined. |
| Subsample.BarcodeSet | src/bxsubsample.cpp:77-85 | The barcode set is exactly the set of non-empty BX values of the stream. |
| Subsample.ChooseKeep | src/bxsubsample.cpp:96-104 | The keep-set is drawn from the barcodes. For 1 <= target <= total it is the first `target` barcodes of the iteration order and has exactly `target` elements. A target below 1 or above the total never stops the loop, so every barcode is kept. |
| Subsample.WriteKept | src/bxsubsample.cpp:117-127 | The output is the subsequence, in input order, of records with no barcode or a kept one. |
| Subsample.RunSubsample | src/bxsubsample.cpp:89-127 | The keep-set lies within the barcode set. When 1 <= target <= total it is exactly the first `target` barcodes of the iteration order, `target` of them; otherwise it is the whole set. The output is the subsequence of the input, in order and with repeats, of records whose BX is empty or kept. |
| SplitByReference.Tags | src/bxsplit2.cpp:82-96 | The references with an entry are exactly those holding a record with a non-empty BX. Each entry is the set of non-empty BX values on that reference. |
| SplitByReference.SortedListing | src/bxsplit2.cpp:101-103 | A `std::set` is listed in strictly ascending byte-wise order, each element once, and nothing else. |
| Strings.InsertSorted | src/bxsplit2.cpp:95 | Inserting into a strictly ascending listing keeps it strictly ascending and adds exactly the new element. |
| Strings.SortedUnique | src/bxsplit2.cpp:101-103 | Two strictly ascending listings of one set are equal, so each file's content is determined by its barcode set. |
| SplitByReference.FilePathInjective | src/bxsplit2.cpp:99 | Different references get different file names. |
| SplitByReference.FilesOf | src/bxsplit2.cpp:98-104 | There is one file per listed reference, named `folder/<reference>.txt`, holding that reference's lines. |
| SplitByReference.WriteFiles | src/bxsplit2.cpp:98-104 | Every entry gets its file, listing its barcodes strictly ascending, one per line, and there are no other files. |
| SplitByReference.SplitByReference | src/bxsplit2.cpp:82-104 | A file is written exactly for each reference holding a barcoded record. It lists, ascending and each once, the non-empty BX values on that reference. |
| Strings.Tokens | src/bxextract.cpp:35 | Extraction with `>>` yields only non-empty words free of white space, and yields none exactly when the text is all white space. |
| Strings.TokensOfLayout | src/bxextract.cpp:35 | Words separated by any non-empty runs of white space (spaces, tabs, CR, LF, ...), with optional white space before and after, are read back as exactly those words. |
| Strings.Gaps | src/bxextract.cpp:35 | Every text is its own tokens laid out with white-space gaps. The gaps between two tokens are non-empty. |
| Strings.TokensExactly | src/bxextract.cpp:35 | The tokens of a text are a given list of words exactly when the text is that list laid out with white-space gaps. |
| Strings.TokensOfUnlines | src/bxextract.cpp:35-37 | A file of words, one per line, tokenises back to exactly those words. |
| Extract.BarcodeList | src/bxextract.cpp:32-38 | The barcode set holds only words free of white space, and is empty exactly when the file is all white space. |
| Extract.BarcodeListOfLayout | src/bxextract.cpp:32-38 | A list of barcodes separated by any white space is read back as the set of those barcodes. |
| Extract.BarcodeListOfLines | src/bxextract.cpp:32-38 | A list file of one barcode per line yields exactly the set of its lines; duplicates collapse. |
| Extract.UnopenedListExtractsNothing | src/bxextract.cpp:32-38 | A barcode list that cannot be opened reads as no text: no barcode is listed and no record is written. |
| Extract.RunExtract | src/bxextract.cpp:60-66 | The output is the subsequence, in input order, of the records whose BX tag is present and listed. A record without the tag is never written. |
| FindSv.Walk | src/bxfindsv.cpp:40-52 | The walk yields at most one deletion per operation, none before the record position, and none of negative length. |
| FindSv.WalkAppend | src/bxfindsv.cpp:41-50 | Walking a prefix of only matches and deletions, then the rest from the advanced cursor, is walking the whole: each M advances and each D records and advances by its length. |
| FindSv.WalkStops | src/bxfindsv.cpp:51 | The first operation that is neither M nor D ends the walk, and what follows it is ignored. |
| FindSv.WalkCigar | src/bxfindsv.cpp:40-52 | The loop with its `continue`s and `break` yields the walk's deletions. |
| FindSv.StreamEventsAppend | src/bxfindsv.cpp:32-53 | The deletions of a file cut in two are those of the first part followed by those of the second: each record contributes its own, independently of the others. |
| FindSv.AllEventsAppend | src/bxfindsv.cpp:24-55 | The deletions of a list of files are those of its first part followed by those of the rest: counts accumulate across files. |
| FindSv.Count | src/bxfindsv.cpp:47 | The nested map is empty exactly when there are no deletions, and every count in it is at least 1. |
| FindSv.CountMeaning | src/bxfindsv.cpp:47 | The nested map holds an entry for exactly the (position, length) pairs that occur, and each entry is the pair's number of occurrences. |
| FindSv.AddEvents | src/bxfindsv.cpp:46-50 | Adding deletions to the counts of earlier ones gives the counts of all of them. |
| FindSv.CountFile | src/bxfindsv.cpp:30-53 | The record loop of one file adds that file's deletions to the counts. |
| FindSv.RunFindSv | src/bxfindsv.cpp:23-63 | The map holds the counts of the deletions of all files, and the report is taken from that map. |
| FindSv.Report | src/bxfindsv.cpp:57-62 | Every reported line carries the count stored for its (position, length), which is more than five. No (position, length) is reported twice. |
| FindSv.ReportedExactly | src/bxfindsv.cpp:57-62 | A (position, length, count) line is reported exactly when the pair occurs `count` times over all files and that is more than five. |
| Strings.FindFrom | src/bxfilter.cpp:136 | `find` returns the first occurrence at or after the start, or -1 (npos) when there is none. |
| Strings.LastIndexOf | src/bxbamtofastq.cpp:163 | `rfind` returns the last position of the character, or -1 (npos) when it does not occur. |

## Left out

- Command-line parsing, usage text and the subcommand dispatcher: they only route arguments.
- Opening, reading and writing BAM files, `mkdir`, `std::ofstream` output and progress logging. Streams are sequences and outputs are returned values. Only a failed open of an input BAM ends the program, and that path is not modelled. The other opens are not checked by the program: an output `std::ofstream` or BAM writer that fails to open is ignored, and that is not modelled either; the barcode list of `extract` that cannot be opened reads as empty text (Extract.UnopenedListExtractsNothing).
- Record accessors (`NumMatchBases`, `AlignmentPosition`, `AlignmentEndPosition`, `Length`, `MaxInsertionBases`, `NumSoftClip`, `MeanPhred`, ...) are given fields. `TotalLength` is taken as the sum of all operation lengths.
- Whether a missing AM or BX tag leaves the reused `tag`/`barcode` strings of `amfilter` stale depends on the BAM library. The model reads a missing tag as "".
- Floating-point tests (clip ratios, `MeanPhred() < 31.0`, `total * ratio`): the clip-ratio and mean tests are booleans on the record, and the subsample target is an integer input.
- Iteration order of `unordered_set`/`unordered_map` is a given duplicate-free listing. Output order across `findsv` report lines is not modelled; the report is a set.
- Overflow of C `int` positions and of `abs` in `amfilter`, of the cursor in `findsv`, and of the counters, is not modelled: positions are unbounded integers.
- A `std::out_of_range` from `replace` in `bamtofastq` ends the program. The model stops writing (`FastqRun.failed`); text still held in the stream buffers is not modelled.
- The demultiplexer that fans one stream out to many targets with periodic flushes is not part of this model: it is not among the modelled tools.
- AmFilter.Scan: its own contract states only that every stack is well formed; the stack keys and the names are stated by ScanKeys and ScanNames.
- QualityFilter.AdditionalChecks: the exact verdict is stated for 7-bit quality strings only; for other bytes only the failure cases are stated. When the alignment start lies more than one past the stored qualities the source reads past the string, which is undefined behaviour; the model reads only the stored qualities there (see Findings).
- QualityFilter.RunFilter: a run that reaches the AdditionalChecks loop in filter-bad mode must have the records that loop examines, those up to the first failing one, carry positions that fit a C `int` and quality bytes below 256, the values the source's `int` and `char` hold. Runs rescued as decoy or unmapped, or rejected earlier, need nothing.
- BamToFastq.ProcessReadPair: its own contract states only when nothing is written. What is written is stated by PairContent.
- FindSv.AllEventsAppend: states the equation on the deletion sequences; the counts follow through CountMeaning.

## Findings

| source | as written | input that shows it | evidently intended | confidence | as-written member | corrected member |
|---|---|---|---|---|---|---|
| src/bxamfilter.cpp:92-95 | The end-of-stream cleanup inserts the barcode `it.first` of every one-entry stack into the set of query names to discard | One valid record, read "r1" with barcode "B1": the discard set becomes {"B1"}, so "r1" is written although it is a lone alignment | Insert the read id `it.second.top().first`, so that a trailing lone entry is discarded as a lone entry replaced mid-stream is | not executed; medium, since the set holds query names everywhere else | AmFilter.LoneReadSurvivesAsWritten (with AmFilter.FinishAsWritten, AmFilter.LoneRecordBarcodeDiscardedAsWritten) | AmFilter.LoneReadDiscardedIntended (with AmFilter.FinishIntended) |
| src/bxfilter.cpp:56-61 | The leading loop reads `quals[i]` for every `i` below `AlignmentPosition()`, which counts a leading hard clip, while `Qualities()` holds no qualities for hard-clipped bases | A 100H50M alignment with 50 qualities, 50 matched bases, start 100 and end 150: it passes both length tests, and the loop reads `quals[51]` to `quals[99]`, past the string and its terminating NUL | Read only the qualities the record stores, a missing one adding nothing to the sum, as the NUL read at index `|q|` already does | not executed; medium, since the treatment of hard-clipped positions is not stated anywhere | QualityFilter.HardClipReadsPastEnd (with QualityFilter.FrontMeanAsWritten) | QualityFilter.FrontMean (with QualityFilter.FrontMeanAgrees, QualityFilter.FrontMeanMeaning, QualityFilter.AdditionalChecks) |
