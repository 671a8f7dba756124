# UniProt reporting core of PALADIN, in Dafny

This project models `uniprot.c`, the part of PALADIN that turns protein
alignments into UniProt reports. The model covers these steps:

- **Chunk store.** For each chunk of query regions, `addUniprotList` appends
  one primary and one secondary `UniprotList`. It counts the alignments, works
  out the unaligned count and parses each hit reference's name into an
  identifier, a gene and an organism. `getGlobalLists` and `getGlobalCount`
  pick a collection.
- **Aggregation.** `prepareUniprotLists` concatenates every chunk's list into
  list 0. `aggregateUniprotList` then sorts that list once per ranking key
  (identifier, gene, organism) and collapses runs of equal keys into a view of
  occurrence counts.
- **Online enrichment.** `retrieveUniprotOnline` batches the identifiers that
  contain `_` into query strings. `joinOnlineLists` cuts the service's text
  into lines, sorts them, and merge-joins them into the identifier view by
  prefix.
- **Ranking.** `prepareUniprotReport` sorts each view with the `qsort`
  comparators: highest count first, then `strcmp` of the key.
- **Response buffer.** `CURLBuffer` is the growable, NUL-terminated buffer
  behind the libcurl write callback (`initCURLBuffer`, `resetCURLBuffer`,
  `receiveUniprotOutput`).

The modules follow the program:

| Module | File | What it holds |
|---|---|---|
| `CStrings` | `cstrings.dfy` | C string routines |
| `Sorting` | `sorting.dfy` | what `qsort` promises |
| `Entries` | `entries.dfy` | records, comparators, name parsing |
| `Regions` | `regions.dfy` | the worker's regions as input |
| `Aggregation` | `aggregation.dfy` | run-length collapse |
| `OnlineJoin` | `join.dfy` | line splitting and merge-join |
| `Batching` | `batching.dfy` | query batches |
| `ResponseBuffer` | `buffer.dfy` | the receive buffer, as a class over an array |
| `Store` | `store.dfy` | the two global collections, as a class with sequence fields |

How the C constructs are represented:

- `strcmp` is `CStrings.Cmp`, returning -1, 0 or 1.
  `strncmp(a, b, strlen(a))` is `CStrings.PrefixCmp`.
- A NULL string is `None`.
- `qsort` is modelled by its promise: the output is a permutation of the input
  that is sorted by the comparator. The model picks any such output (`:|`).
  Its existence is proved once, by insertion sort, in `Sorting.SortExists`.
- Two constants from `uniprot.h` are parameters: `UNIPROT_BUFFER_GROW` is
  `grow` and `UNIPROT_MAX_SUBMIT` is `maxSubmit`.

Three behaviours of the code are not suggested by its comments (the comment
at `uniprot.c:486` says only that both sides are ordered). The model
reproduces each one and proves it:

- **The skipped line.** The merge-join starts at line 1 of the *sorted*
  lines, so the line it skips is whichever sorts first, not the service's
  header line. `OnlineJoin.SortedFirstLineIsSkipped` shows a header that
  sorts last. In that case the first data line is lost and nothing matches.
- **Prefix matching.** Matching compares only `strlen(id)` characters and
  does not check for the tab that follows. An identifier therefore matches a
  line whose identifier merely starts with it
  (`OnlineJoin.PrefixMatchWithoutTab`).
- **View entry 0.** Only the first entry of a view carries all three
  strings, copied from the first sorted entry. Later entries carry only their
  own key (`Aggregation.ViewShape`).

The code's ranking sort, `qsort`, gives no stability for ties. The model
therefore assumes no stability either.

## Model

| member | source | states |
|---|---|---|
| CStrings.Cmp | uniprot.c:557 | `strcmp` as used by the comparators: the sign is -1, 0 or 1, and it is zero exactly when the two strings are equal |
| CStrings.CmpAntisymmetric | uniprot.c:592-594 | swapping the arguments of `strcmp` negates the result, as `qsort` requires of a comparator |
| CStrings.CmpTransitive | uniprot.c:592-594 | `strcmp`'s order is transitive, so the line comparator is a total preorder |
| CStrings.PrefixCmpMeaning | uniprot.c:488 | `strncmp(id, line, strlen(id))` is zero exactly when `id` is a prefix of the line; otherwise its sign is that of `strcmp(id, line)` |
| CStrings.SkipPastMeaning | uniprot.c:316-324 | walking past `k` separators leaves the suffix after the `k`-th separator, or the empty string when there are fewer than `k` |
| CStrings.WalkPast | uniprot.c:316-324 | the advancing loop stops where the text past `k` separators begins |
| CStrings.TakeUntilSpace | uniprot.c:327-332 | cutting the name at its first space leaves a prefix of the name that contains no space and ends where the name does or just before a space |
| CStrings.FindSpace | uniprot.c:327-332 | the scanning loop finds the end of that space-free prefix |
| CStrings.IndexOf | uniprot.c:340-348 | the position of the first occurrence of a character, or -1 exactly when the character does not occur |
| CStrings.FindChar | uniprot.c:135-141 | the character scan returns that first position |
| CStrings.TakeUntilFirstSpace | uniprot.c:327-332 | a name `a + " " + b` with no space in `a` is cut to `a` |
| CStrings.SkipPastFirst | uniprot.c:316-324 | skipping `k+1` separators over `a + sep + b`, with no separator in `a`, is skipping `k` over `b` |
| CStrings.SplitRoundTrip | uniprot.c:473-481 | cutting text at every newline gives one more piece than there are newlines, no piece holds a newline, and joining the pieces with newlines gives the text back |
| Sorting.SortExists | uniprot.c:45-47 | for every total preorder there is a sorted permutation of every sequence, so the `qsort` result the model picks exists |
| Entries.CompareRankedMeaning | uniprot.c:550-590 | an entry ranks before another exactly when it has more occurrences, or as many and a smaller key; the comparator is zero exactly on equal counts and keys; it is antisymmetric |
| Entries.RankOrderIsTotalPreorder | uniprot.c:550-590 | each of the three ranking comparators orders entries totally and transitively |
| Entries.RankSortedMeaning | uniprot.c:45-47 | in a ranked view, occurrence counts never increase, and equal counts appear in ascending key order |
| Entries.RankSortedByKey | uniprot.c:510-524 | when every count is 1, as in the raw concatenated list, the ranking sort orders by key alone |
| Entries.ReferenceIdMeaning | uniprot.c:315-332 | the identifier is the part of the reference name after the second `|`, and for nucleotide indexes after the second `:` first, cut at the first space |
| Entries.HeaderId | uniprot.c:321-332 | for a UniProt FASTA header `db|accession|NAME description`, the identifier is `NAME` |
| Entries.NucleotideHeaderId | uniprot.c:315-319 | for a nucleotide name `sequence:frame:header`, the identifier is the one read from `header` |
| Entries.GeneOrganismRoundTrip | uniprot.c:340-348 | gene and organism are set exactly when the identifier holds `_`; then gene + `_` + organism is the identifier, and the gene holds no `_` |
| Entries.ParsedEntryIsRaw | uniprot.c:334-348 | a parsed entry whose identifier holds `_` has all three strings and an occurrence count of 1 |
| Entries.ParseReference | uniprot.c:315-348 | the parsing of one alignment's reference name yields the entry described above |
| Regions.PrimaryUnalignedIsRegionsWithoutHit | uniprot.c:273-293 | the primary list's `unalignedCount`, `totalAlign` minus the primary count, is the number of active regions with no primary alignment |
| Regions.TotalAlignCoversPrimary | uniprot.c:273-293 | `totalAlign` is never below the primary count, so the primary unaligned count is never negative |
| Regions.KindEntriesCount | uniprot.c:303-351 | one region's populating loop adds one entry per alignment of the list's type |
| Regions.RegionEntriesCount | uniprot.c:299-352 | the populated list has exactly the `entryCount` the counting pass computed |
| Regions.RegionEntriesRaw | uniprot.c:334-348 | when every reference identifier holds `_`, every populated entry is complete with count 1 |
| Store.NewListMeaning | uniprot.c:259-352 | a new list has one entry per alignment of its type, a non-negative primary unaligned count equal to the regions without a hit, raw entries when populated and names split, and only NULL entries when not populated |
| Store.CountRegion | uniprot.c:277-290 | the inner counting loop counts one region's primary and secondary alignments and its contribution to `totalAlign` |
| Store.CountAlignments | uniprot.c:273-294 | the counting pass returns both list sizes and `totalAlign`, and `totalAlign` minus the primary count is the number of regions without a primary hit |
| Store.CollectRegion | uniprot.c:303-350 | one region's populating loop yields its parsed entries of each type, in order |
| Store.CollectEntries | uniprot.c:299-352 | the populating loop yields the parsed entries of each type over the active regions, in order |
| Store.UniprotStore.AddList | uniprot.c:259-358 | each collection gains exactly one new list for the chunk, and the returned index is that of the new primary list |
| Store.UniprotStore.SetLists | uniprot.c:17-25 | replacing one collection leaves the other unchanged |
| Store.ConcatRaw | uniprot.c:439-446 | concatenating lists of raw entries gives raw entries |
| Store.TotalEntries | uniprot.c:410-412 | `maxEntries` is the length of the concatenation of all lists |
| Store.ConcatenateLists | uniprot.c:435-448 | list 0 ends up holding every list's entries in order and keeps its unaligned count; the other lists become empty and keep theirs |
| Store.AggregatedIds | uniprot.c:527-541 | every entry of the identifier view carries an identifier, so it can be submitted and joined |
| Store.UniprotStore.AggregateList | uniprot.c:501-547 | list 0 is replaced by a sorted permutation of itself, the other lists are untouched, and the view is the run-length collapse of the sorted keys |
| Store.UniprotStore.AggregateRound | uniprot.c:451-453 | each aggregation round keeps list 0 a permutation of the merged entries and yields the view of the merged entries for its kind |
| Store.UniprotStore.AggregateViews | uniprot.c:451-453 | the three rounds leave list 0 sorted by organism and return the identifier, gene and organism views, each the aggregation of the merged entries |
| Store.UniprotStore.constructor | uniprot.c:7-10 | both global collections start empty |
| Store.UniprotStore.PrepareLists | uniprot.c:402-454 | the other collection is untouched; with no entries, no views are built and an empty list exists afterwards; otherwise list 0 becomes a permutation of all entries sorted by organism, the other lists are emptied, unaligned counts are kept, and three views are built, each the aggregation of the merged entries (`Store.PreparedLists`) |
| Store.UniprotStore.PrepareReport | uniprot.c:27-48 | the lists end up as `PrepareLists` leaves them, which is what rendering and cleanup read; no views exactly when there are no entries; otherwise every view is a ranked permutation of its aggregated view whose counts add up to the number of entries, and the full report submits the identifiers with `_` in the rounds of the request loop (`Batching.Batched`) and joins the sorted service lines into the identifier view |
| Store.ReportViews | uniprot.c:37-47 | after aggregation: the full report's batches follow the request loop and its identifier view is the join with the sorted lines; every view is ranked, and ranking and joining keep its total of occurrences equal to the number of merged entries |
| Store.AggregatedTotal | uniprot.c:212-215 | the occurrence counts of an aggregated view add up to the number of merged entries, the `occurTotal` the percentages divide by |
| Store.RankViews | uniprot.c:45-47 | each view is replaced by a permutation of itself sorted by its comparator |
| Aggregation.RunLengthsTotal | uniprot.c:533-546 | the counts of the collapsed runs add up to the number of input entries |
| Aggregation.RunLengthsCover | uniprot.c:533-546 | every input key appears as the key of some run, and the last run's key is the last input key |
| Aggregation.RunLengthsAscending | uniprot.c:533-546 | collapsing keys sorted ascending gives strictly ascending keys, so no key appears twice in a view |
| Aggregation.RunLengthsCount | uniprot.c:533-546 | over sorted keys, each run's count is the number of times its key occurs in the input, and it is at least 1 |
| Aggregation.RunLengthsOfOneKey | uniprot.c:533-546 | `n` copies of one key collapse into one run of count `n` |
| Aggregation.ScenarioTwoHumanOneMouse | uniprot.c:533-546 | `A_HUMAN, A_HUMAN, B_MOUSE` collapses to `A_HUMAN` with count 2 and `B_MOUSE` with count 1 |
| Aggregation.CollapseSorted | uniprot.c:526-546 | the collapsing loop's view has the run lengths of the sorted keys, and entry 0 carries the first sorted entry's three strings |
| Aggregation.CollapseEntry | uniprot.c:533-544 | one pass of the collapsing loop keeps the view's shape and extends its runs by the next sorted key: a new key opens a view entry carrying only that key, a repeated key counts once more in the last one |
| Aggregation.ViewCountsConserved | uniprot.c:543-546 | a view's occurrence counts add up to the number of entries it was built from |
| Aggregation.OccurrenceTotal | uniprot.c:212-215 | `occurTotal` is the sum of the view's occurrence counts |
| Aggregation.OccurrenceSumPermutation | uniprot.c:45-47 | reordering a view, as the ranking `qsort` does, keeps its total of occurrences |
| Aggregation.AggregateMeaning | uniprot.c:501-547 | the view of a ranked raw list has strictly ascending keys; each count is the multiplicity of its key; every input key appears; the counts sum to the list length |
| OnlineJoin.LinesCount | uniprot.c:462-481 | the counted `lineCount` equals the number of lines indexed |
| OnlineJoin.CountLines | uniprot.c:462-467 | the counting loop gives one line per newline, plus one when the text does not end in a newline |
| OnlineJoin.IndexLines | uniprot.c:470-481 | the indexing loop yields the newline-separated lines of the text, with no empty line after a trailing newline |
| OnlineJoin.LineOrderIsTotalPreorder | uniprot.c:592-594 | `uniprotEntryCompareOnline` orders lines totally and transitively |
| OnlineJoin.JoinFromLength | uniprot.c:487-496 | the merge produces one outcome per view entry |
| OnlineJoin.JoinFromSound | uniprot.c:487-496 | a matched entry is matched to a line at or after the starting line whose text begins with the entry's identifier |
| OnlineJoin.JoinFromIncreasing | uniprot.c:487-496 | matched lines strictly increase along the view, so no line is used twice |
| OnlineJoin.MatchesSkipLineZero | uniprot.c:484-496 | line 0 of the sorted lines is never matched; every match has the identifier as a prefix of the line, and matches never reuse a line |
| OnlineJoin.SortedFirstLineIsSkipped | uniprot.c:484-496 | when the header sorts last, the line skipped is the first data line and nothing in the example is joined |
| OnlineJoin.PrefixMatchWithoutTab | uniprot.c:488 | `P1_HUMAN` matches the line of `P1_HUMANX`, since no tab is checked after the prefix |
| OnlineJoin.JoinedMeaning | uniprot.c:487-496 | the joined view has the same length; in each entry only the identifier may change, it is still set, and the new identifier starts with the old one |
| OnlineJoin.JoinedKeepsCounts | uniprot.c:487-496 | the join rewrites identifiers only, so the view's total of occurrences is unchanged |
| OnlineJoin.MergeJoin | uniprot.c:487-496 | the merge loop computes the joined view |
| OnlineJoin.JoinOnlineLists | uniprot.c:456-499 | the lines end up a sorted permutation of the text's lines, and every entry keeps an identifier that its old identifier is a prefix of |
| Batching.SubmittedMeaning | uniprot.c:134-141 | an identifier is submitted exactly when it contains `_`, and no more identifiers are submitted than there are entries |
| Batching.QueryStringWords | uniprot.c:137 | split at spaces, a query string gives back the batch's identifiers, followed by an empty word |
| Batching.FillBatch | uniprot.c:133-142 | one round (`Batching.Round`) takes exactly the identifiers with `_` from its start to where it stops, at most `queryCount` of them; it stops before the last entry only when full, and when full it stops right after the identifier that filled it; its query string lists them |
| Batching.BuildQueries | uniprot.c:129-142 | `queryCount` is the smaller of the entry count and `maxSubmit`; the rounds follow one another from the first entry to the last, each a `Round` (`Batching.Batched`), so the number of requests is fixed, and a round that finds no identifier with `_` still sends an empty query; together the batches are exactly the submitted identifiers in order; all but the last hold exactly `queryCount`; no entries means no request |
| Batching.RoundsFull | uniprot.c:133-142 | every round but the last is full, because only a full round stops before the entries run out |
| Batching.SubmittedAll | uniprot.c:134-141 | when every identifier contains `_`, every one is submitted |
| Batching.SubmittedExample | uniprot.c:134-141 | of `A_HUMAN, P12345, B_MOUSE, C_RAT`, every identifier but `P12345` is submitted |
| Batching.BatchingExample | uniprot.c:129-142 | for `A_HUMAN, B_MOUSE, C_RAT` at two per request, the only rounds the request loop allows are `A_HUMAN B_MOUSE` ending at entry 2 and `C_RAT` ending at entry 3; the first query string is `"A_HUMAN B_MOUSE "` |
| Batching.TrailingEmptyRequest | uniprot.c:129-145 | for `A_X, P` at one per request, the request loop sends `A_X` and then a second request with an empty query string, since `P` has no `_` |
| ResponseBuffer.GrownCapacity | uniprot.c:387-391 | capacity grows by one step or not at all; after one step the chunk and its terminator fit exactly when the chunk is shorter than the free space plus one step |
| ResponseBuffer.CurlBuffer.Init | uniprot.c:596-601 | a new buffer is empty and terminated, with capacity one growth step |
| ResponseBuffer.CurlBuffer.Reset | uniprot.c:603-606 | resetting empties the buffer but keeps its allocation and capacity |
| ResponseBuffer.CurlBuffer.Receive | uniprot.c:382-399 | the received text is the old text followed by the chunk, still terminated; the callback returns the chunk size; the buffer grows by one step exactly when the chunk and its terminator would not fit |

## Left out

- Network traffic is not modelled: `retrieveUniprotOnline`'s curl setup,
  submit, poll and retry loops, the sleep, and `downloadUniprotReference`.
  The service's reply is the parameter `text` of
  `Store.UniprotStore.PrepareReport`.
- `renderUniprotReport`, `renderUniprotEntries` and `renderNumberAligned` are
  not modelled: they write text to a stream and compute floating-point
  percentages. Only the total that the percentages divide by is modelled
  (`Aggregation.OccurrenceTotal`).
- `malloc`, `calloc`, `realloc` and `free` are not modelled, nor are
  `cleanUniprotLists` and `freeCURLBuffer`, which only release memory.
  Allocation failure is not modelled either.
- `getAlignmentType` and the alignment worker are not modelled. Their
  results are input: `Regions.Region` holds the active flag, the alignment
  types and the reference names.
- `UNIPROT_BUFFER_GROW` and `UNIPROT_MAX_SUBMIT` are parameters (`grow`,
  `maxSubmit`, both positive), because `uniprot.h` is not part of this model.
- C `int` overflow is not modelled: counts, sizes and the comparators'
  count difference are unbounded integers. The comparator therefore never
  wraps around.
- Strings are NUL-free sequences of characters, so `strlen` is the length.
- `qsort` is not modelled as a specific algorithm: the model takes any sorted
  permutation. Ties may therefore come out in any order, which is all the C
  library promises.
- The `sprintf` into a fixed 50-byte `queryString` is not modelled.
  `sprintf(queryString, "%s%s ", queryString, …)` with overlapping source and
  destination is undefined behaviour in C. The model builds the intended
  concatenation with no length limit.
- ResponseBuffer.CurlBuffer.Receive: requires that the chunk fit after one
  growth step (`size + n < capacity + grow`). A larger chunk makes the C
  code write past its allocation, which this model cannot represent.
- OnlineJoin.JoinOnlineLists: requires non-empty text, because the C code
  reads the character before the start of an empty text. It also requires
  every view entry to carry an identifier.
- Store.UniprotStore.AggregateList: requires that list 0 be non-empty and
  its entries raw, meaning all three strings set and a count of 1. On a
  NULL key, the comparators and `strcmp` dereference NULL.
- Store.UniprotStore.PrepareLists: requires every list to hold raw entries,
  for the same reason.
- Store.UniprotStore.PrepareReport: requires raw entries as above,
  non-empty text for a full report, and a positive `maxSubmit`.
- The description is not cut in place. The C code writes a NUL over the
  first space of the reference name in the index's own annotation; the model
  computes the shortened name as a new string.
- The `UniprotEntry` arrays are not filled through cursors (`addPriIdx`,
  `retList->entryCount`); the model appends to sequences. The final views
  are the same.
- `getGlobalCount` is not a separate count: each collection's count is the
  length of its sequence (`Store.UniprotStore.Lists`).
- `joinOnlineLists` does not overwrite the newlines of the response buffer
  with NUL (`uniprot.c:476`); the model builds the lines as new strings and
  leaves the text as it was.
- The progress messages written to `stderr` when `bwa_verbose >= 3`
  (`uniprot.c:148-150`, `uniprot.c:414-416`) are not modelled; they change
  no state the report reads.
- Shared strings are not modelled. The views and the joined identifiers
  share strings with the global lists and with the response buffer; the
  model compares strings by value.
