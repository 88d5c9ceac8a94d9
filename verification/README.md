# Verification of the document FM-index

A Dafny 4.11 model of the FM-index over a set of documents (`src/index/fmindex/`), with machine-checked
proofs that its construction, every query it answers, and its serialized form do what they promise.
`dafny verify dfyconfig.toml` checks the whole project.

## The system and what is proved of it

The index turns a list of byte strings into a symbol text (sentinel 0, a separator 1 after every document,
content ids from 2), sorts its suffixes, and keeps the Burrows-Wheeler transform in a 4-ary wavelet matrix,
a C-table, a sampled suffix array and the document boundaries. Queries never see the text again. Their
specifications here speak only of the documents, so every query theorem composes all the layers below it.

The contracts of the queries are stated twice. Inside, they use the notions the proofs work with
(`Corpus.OccursAt`, `TotalOccurrences`, `Distance`, `Slice`); towards a reader they are stated in plain terms that
share nothing with the code: bytes that are equal or 32 apart as the two cases of a letter (`PlainText.SameLetter`),
places where a pattern reads (`Reads`, `Spots`), sets of documents, chains of single edits
(`EditChains.WithinEdits`), bytes read out one by one (`ReadsOut`). Blobs are treated alike: what the loader accepts
and what stands where is spelled out on the bytes (`ByteLayout.Acceptable`, `StoredBytes.Stores`), and so is what a
built index holds (`BuiltStates`).

| layer | files | result |
|---|---|---|
| machine words | Words, WordBytes, ByteDigits | the lane-counting formula, masked popcounts and packed 9-bit fields mean what they should, on every word; a word and its eight bytes determine each other; packed digits and flags are pairs of bits and bits of single bytes |
| rank vectors | QuadVector, BitVector | both two-level directories give the naive prefix count at every position, for every block size and any stray bits |
| wavelet matrix | WaveletTheory, WaveletMatrix4, RadixOrder, RankBase | repeated stable scatter; access, rank, paired and batched descents equal the plain sequence; group starts lie in digit-reversed order |
| suffix array theory | SuffixArrays, SuffixSorting, Counting | LF is a bijection that steps one text position back; a backward step keeps the interval exact |
| documents | Corpus, TextMatches, QueryTheory, PlainText | text matches are in-document occurrences; nothing spans a separator; what the specifications say, byte by byte |
| construction | Construction, FMIndex, BuiltState | `Build` establishes the representation invariant `FMIndex.Valid`; what it means for every field, number by number |
| exact queries | FMIndex, Visits, AnchoredTheory, AnchoredQueries, Statistics, Conservation | count, locate, documents, visits, prefix and suffix documents, longest match, continuations, and the law that ties counts, continuations and document ends |
| approximate search | EditDistance, EditChains, FuzzyTheory, FuzzySearch | the memoised backtracking search is sound and complete; the distance is the least number of single edits |
| batches | CountBatch, LocateBatch | lock-step tiles refine the one-pattern queries and terminate; the exact batches for which the 32-bit tags suffice |
| extraction | Extraction, Rebuild | extraction undoes the build; what it returns for every inverse table, left over or not |
| serialized form | LittleEndian, Blob, BlobTheory, Canonical, ByteLayout, ByteReading, Images, StoredBytes, Serializer, HeaderReader, Loader, RoundTrip, LoadedSteps | total, exact parser: it accepts exactly the blobs whose bytes pass the checks at their literal offsets; every field's bytes; round trip to an equal, consistent index; every accepted blob is its own encoding up to ignored bytes; on anything accepted the descents, symbol reads, sample, document and table look-ups stay inside, and the exact condition under which the backward step does |

Code that updates state step by step is modelled as classes and methods with loops over the same variables
(`QuadVector`, `BitVector`, `WaveletMatrix4`, `FMIndex`, the memo and hit list of the fuzzy search, the tile
buffers of the batches, the cursor of the loader); each is proved against a function or predicate on values.
`FMIndex.Valid` is the representation invariant: an index is either the default one or consistent with a
ghost list of documents. The suffix sorting library is replaced by its contract, which determines its result
(`SuffixArrays.SuffixArrayUnique`) and is met by a reference sorter (`SuffixSorting.SuffixArrayExists`).

## Findings

Five promises do not hold of the code on all inputs. The model keeps the code as it is; each has a concrete
witness and the exact condition under which the promise does hold.

* **Extraction after a rebuild.** The inverse table used by extraction is filled once in the life of an
  object (`src/index/fmindex/FMIndexInl.h:286`), and building anew does not reset it. `Rebuilds.StaleTable`
  builds "ab" and extracts, builds "ba" and extracts its first byte: a zero byte comes back instead of b. After
  a third build, of the shorter "a", the row taken from the table lies past the last one and is looked up all
  the same. `Extraction.Extract` says what comes back for every table, and that it is the wanted bytes if and
  only if the row consulted exists and the cyclic stretch before its suffix spells them (`Extraction.Spells`).
  What a caller can check: if the index was not extracted from before its last build, every later extraction
  is right (`Rebuilds.BuildThenExtract`, `Extraction.FreshSpells`); so is every one after a load.
* **Document id 2^64 - 1.** The range check adds one to the id in 64 bits
  (`src/index/fmindex/FMIndexInl.h:300`), so this id passes it for every index (`Extraction.LargestIdPasses`)
  and the boundary list is read beyond its end: `Extraction.Extract` comes to `OutsideTables`.
  `Extraction.RangeCheckExact`: the check is exact if and only if the id is another one.
* **The backward step on a loaded index.** `src/index/fmindex/FMIndex.h:295-303` and `DESIGN.md:244` say that
  loading rejects structurally malformed blobs and validates what the queries depend on. The C-table, which is header
  data, is read without any check (`src/index/fmindex/FMIndexInl.h:1095-1098`), and the step of every query adds
  one of its entries to a rank. `LoadedSteps.WildLoad`: take the blob of any built index and set every entry to
  2^64 - 1; it loads, and for every symbol some endpoint steps outside the rows. `LoadedSteps.LoadedStepsInside`:
  on any accepted blob all endpoints step inside by symbol x if and only if `C[x]` plus the size of x's group is at
  most the number of rows, one comparison per symbol.
* **Conservation on a folded index.** Continuation counts visit a capital and a small letter that share one
  id (`src/index/fmindex/FMIndexInl.h:391-400`), so they are counted twice
  (`Conservation.ConservationFailsFolded`). `Conservation.ConservationExact`: the law holds if and only if the
  index is case-sensitive or no capital letter is listed; `Conservation.Balance` gives the surplus.
* **Locating more than 2^32 patterns at once.** Each walk carries its pattern's number in 32 bits
  (`src/index/fmindex/FMIndexInl.h:680-693`), while `src/index/fmindex/FMIndex.h:111-112` promises each entry to be
  the pattern's own answer. `LocateBatches.OneTagTooMany`: a pattern that occurs, asked for 2^32 + 1 times, gets an
  empty last answer. `LocateBatches.LocateDocsBatch`: all answers are right if and only if no pattern from number
  2^32 on occurs anywhere.

One place that looks wrong is right: `C[id]` minus the group start can be negative, and is for the smallest byte
of every index over at least three different bytes (`RankBases.NegativeBase`); `FMIndexes.FMIndex.StepWraps` shows
that unsigned wrap-around cancels it, always.

Where comments and code disagree the model follows the code: a comment above the serialization code speaks of
format version 3 (`src/index/fmindex/FMIndexInl.h:864`), while only version 8 is written and accepted.

## Model

| member | source | states |
|---|---|---|
| `Words.SwarCountsLanes` | `src/index/fmindex/QuadVector.h:191-200` | the xor / complement / mask / popcount formula counts exactly the 2-bit lanes below lane k that equal v, for every word, including the k = 32 case without a mask |
| `Words.MaskedPopCount` | `src/index/fmindex/BitVector.h:91-96` | popcount of a word masked below bit k is the number of set bits among the first k |
| `Words.PackField` | `src/index/fmindex/BitVector.h:61-77` | or-ing a count below 512 into field j makes field j read as that count and leaves the earlier fields alone |
| `Words.PackClear` | `src/index/fmindex/BitVector.h:61-77` | after filling field j nothing is set above it, so the seven 9-bit fields never overlap |
| `ByteDigits.LaneInByte` | `src/index/fmindex/QuadVector.h:96-99` | lane t of a word read from eight bytes is the pair of bits t mod 4 of byte t / 4: packed digits lie two bits each from the low end of every byte |
| `ByteDigits.BitInByte` | `src/index/fmindex/BitVector.h:42-50` | bit t of a word read from eight bytes is bit t mod 8 of byte t / 8 |
| `QuadVectors.RelativeFits` | `src/index/fmindex/QuadVector.h:166-174` | a block's count relative to its superblock stays below 65536 for every block size up to 16 words, so the 16-bit store loses nothing |
| `QuadVectors.QuadVector.BuildRank` | `src/index/fmindex/QuadVector.h:203-232` | superblock plus relative entry is the exact prefix count at every block start, including the end entry; bits past n are ignored |
| `QuadVectors.QuadVector.Rank` | `src/index/fmindex/QuadVector.h:79-94` | the number of places before i that hold v, for every i in [0, n], every block size and any stray bits |
| `QuadVectors.QuadVector.At` | `src/index/fmindex/QuadVector.h:96-99` | reads the packed digit back |
| `QuadVectors.QuadVector.Pack` | `src/index/fmindex/QuadVector.h:42-57` | packs one digit of every symbol and fills the histogram with the digits' counts |
| `QuadVectors.QuadVector.View` | `src/index/fmindex/QuadVector.h:152-164` | a view over given words is a valid vector whatever lies past digit n |
| `QuadVectors.NormalizeBlock` | `src/index/fmindex/QuadVector.h:174-189` | any requested block size becomes a power of two: 1 up to 1, 16 from 16 on, else the largest not above it; with its logarithm |
| `BitVectors.TrimmedPopCount` | `src/index/fmindex/BitVector.h:67-74` | a word's popcount after dropping padding is exactly its contribution of ones: padding never counts |
| `BitVectors.BitVector.Set` | `src/index/fmindex/BitVector.h:42-45` | sets that bit and no other |
| `BitVectors.BitVector.PackBlock` | `src/index/fmindex/BitVector.h:58-78` | one block's entry: absolute count plus seven exact 9-bit prefix counts |
| `BitVectors.BitVector.BuildRank` | `src/index/fmindex/BitVector.h:52-82` | every directory entry and the total number of ones are exact |
| `BitVectors.BitVector.Rank1` | `src/index/fmindex/BitVector.h:84-98` | the number of places before i that hold a one, for every i in [0, n], word and block boundaries included |
| `BitVectors.BitVector.Rank0` | `src/index/fmindex/BitVector.h:100-103` | the number of places before i that hold a zero |
| `WaveletMatrices.Scatter` | `src/index/fmindex/WaveletMatrix4.h:42-50` | the moving-cursor scatter is the stable sort by digit: element i lands at its digit's start plus the number of equal digits before it |
| `WaveletTheory.LevelMapInjective` | `src/index/fmindex/WaveletMatrix4.h:42-50` | no two elements are scattered to one place |
| `WaveletMatrices.WaveletMatrix4.Build` | `src/index/fmindex/WaveletMatrix4.h:26-52` | building from a sequence of symbols below 4^qlevels gives a valid matrix whose content is that sequence |
| `WaveletTheory.DescendInvariant` | `src/index/fmindex/WaveletMatrix4.h:55-64` | at every level the elements between the two descended endpoints agree with c on the digits read so far, and as many copies of c lie between them as before |
| `WaveletTheory.DescendCounts` | `src/index/fmindex/WaveletMatrix4.h:55-64` | descending i and 0 along c's digits and subtracting is the number of c before i |
| `WaveletMatrices.WaveletMatrix4.Rank` | `src/index/fmindex/WaveletMatrix4.h:55-64` | the number of places before i that hold c, for every i in [0, n] |
| `WaveletMatrices.WaveletMatrix4.Access` | `src/index/fmindex/WaveletMatrix4.h:66-76` | on any usable matrix, loaded ones included, the read stays inside and gives the digits met along one path; on a valid matrix that is the symbol at position i |
| `WaveletTheory.SpellsSymbol` | `src/index/fmindex/WaveletMatrix4.h:66-76` | over the levels of a symbol sequence the path carries the symbol along and spells its digits from the top |
| `WaveletMatrices.WaveletMatrix4.Map2` | `src/index/fmindex/WaveletMatrix4.h:79-87` | both endpoints descended along c; both stay inside [0, n] even over arbitrary digits |
| `WaveletMatrices.WaveletMatrix4.MapZero` | `src/index/fmindex/WaveletMatrix4.h:89-97` | the descent of position 0 |
| `WaveletMatrices.WaveletMatrix4.MapBatch` | `src/index/fmindex/WaveletMatrix4.h:100-115` | the level-major loop over arrays descends every pair exactly as one by one |
| `WaveletMatrices.WaveletMatrix4.FromParts` | `src/index/fmindex/WaveletMatrix4.h:144-155` | parts whose stored starts are the digits' own starts make a matrix every descent can follow |
| `RadixOrder.GroupStart` | `src/index/fmindex/WaveletMatrix4.h:89-97` | the descent of position 0 along c is the number of symbols whose reversed digits are smaller than c's, level by level: the group start in digit-reversed order |
| `RadixOrder.ScatterSorts` | `src/index/fmindex/WaveletMatrix4.h:42-50` | each scatter keeps the symbols sorted by the digits read so far, the latest digit first |
| `SuffixArrays.SuffixArrayUnique` | `src/index/fmindex/SuffixArray.h:165-211` | the contract put in place of the suffix sorting library determines the suffix array |
| `SuffixSorting.SuffixArrayExists` | `src/index/fmindex/SuffixArray.h:165-211` | the contract can be met: a reference sorter satisfies it for every text |
| `SuffixArrays.LfSteps` | `src/index/fmindex/FMIndexInl.h:505-509` | the row C[b] + rank(b, i) is the row of the text position cyclically before row i's |
| `SuffixArrays.LfBijective` | `src/index/fmindex/FMIndexInl.h:505-509` | LF is a permutation of the rows |
| `SuffixArrays.BackwardStep` | `src/index/fmindex/FMIndexInl.h:523-533` | from the exact interval of W, the step by c gives the exact interval of cW, empty intervals included |
| `SuffixArrays.ExactWidth` | `src/index/fmindex/FMIndex.h:90-94` | an exact interval is as wide as the number of text positions where the pattern matches |
| `Corpus.IdsFaithful` | `src/index/fmindex/FMIndexInl.h:106-124` | ids identify folded bytes and keep their order |
| `Corpus.CorpusIsText` | `src/index/fmindex/FMIndexInl.h:142-151` | the laid-out text ends with the only sentinel and every symbol is below sigma |
| `PlainText.FoldMeans` | `src/index/fmindex/FMIndexInl.h:97-100` | folding identifies two bytes exactly when they are equal or the two cases of a letter, 32 apart, and chooses the small one; a case-sensitive index folds nothing |
| `PlainText.OccursByteByByte` | `src/index/fmindex/FMIndexInl.h:97-123` | an occurrence is a place where every byte of the pattern meets an equal byte or, on a case-insensitive index, the other case of its letter |
| `PlainText.OccurrencesAreSpots` | `src/index/fmindex/FMIndex.h:90-94` | the summed count of occurrences is the size of the set of all places, document and offset, where the pattern reads |
| `TextMatches.ContentInDoc` | `src/index/fmindex/FMIndexInl.h:656-663` | a match of content symbols lies inside one document: no occurrence spans a separator |
| `TextMatches.PatternMatches` | `src/index/fmindex/FMIndexInl.h:511-535` | the mapped pattern matches at a text position exactly when the pattern occurs there inside a document, up to folding |
| `TextMatches.MatchCount` | `src/index/fmindex/FMIndex.h:90-94` | matching text positions, counted, are the in-document occurrences summed over the documents |
| `TextMatches.OccurrenceKnown` | `src/index/fmindex/FMIndexInl.h:521-523` | a pattern with a byte outside the corpus occurs nowhere |
| `Construction.DocBounds` | `src/index/fmindex/FMIndexInl.h:49-72` | document offsets, refusing exactly the corpora of 2^63 symbols or more, with the code's own overflow guards |
| `Construction.Presence` | `src/index/fmindex/FMIndexInl.h:106-111` | flags exactly the folded bytes that occur |
| `Construction.AssignIds` | `src/index/fmindex/FMIndexInl.h:112-125` | ids from 2 on in byte order: a byte's id is 2 plus the number of bytes in use below it, -1 if it is not in use; when folding, each capital has the id of the byte 32 above it |
| `Construction.Levels` | `src/index/fmindex/FMIndexInl.h:126-130` | two bits per level over the bits needed for sigma ids |
| `Construction.IdsFitLevels` | `src/index/fmindex/FMIndexInl.h:126-130` | every id below sigma fits in that many base-4 digits |
| `Construction.FillSymbols` | `src/index/fmindex/FMIndexInl.h:142-151` | writes the text: content ids, a separator after each document, the sentinel |
| `Construction.BwtWide` | `src/index/fmindex/FMIndexInl.h:201-208` | the out-of-place pass gives the transform of the text |
| `Construction.BwtInPlace` | `src/index/fmindex/FMIndexInl.h:210-213` | overwriting the suffix array entry by entry gives the same transform |
| `Construction.Narrow` | `src/index/fmindex/FMIndexInl.h:215-218` | narrowing to 16 bits loses nothing for symbols below 258 |
| `Construction.CTable` | `src/index/fmindex/FMIndexInl.h:224-233` | entry x counts the strictly smaller symbols |
| `Construction.SampleRows` | `src/index/fmindex/FMIndexInl.h:169-193` | flags exactly the rows at multiples of the rate and keeps their positions in row order; 4-byte storage loses nothing below 2^32 |
| `Construction.SampleCount` | `src/index/fmindex/FMIndexInl.h:175` | exactly text_len / rate + 1 rows are sampled |
| `Construction.BuildDerived` | `src/index/fmindex/FMIndexInl.h:262-276` | the byte of each id, the last byte that has it, 0 where none has |
| `Construction.LastIsFolded` | `src/index/fmindex/FMIndexInl.h:264-272` | of the bytes sharing an id the folded one wins, so extraction returns small letters |
| `FMIndexes.MakeBwt` | `src/index/fmindex/FMIndexInl.h:201-220` | both paths give the transform |
| `FMIndexes.FMIndex.Build` | `src/index/fmindex/FMIndexInl.h:36-260` | refuses exactly the corpora of 2^63 symbols or more, and otherwise establishes the full representation invariant for these documents and options; the inverse table's once-flag is left as it was |
| `FMIndexes.BlockWords` | `src/index/fmindex/FMIndexInl.h:74-90` | block bytes become a power of two of words: 1 below 16 bytes, 16 from 128 on, in between the largest that fits |
| `BuiltStates.LengthMeans` | `src/index/fmindex/FMIndexInl.h:49-72` | the length a build refuses or accepts by is the bytes of all documents and one separator each |
| `BuiltStates.BoundariesMean` | `src/index/fmindex/FMIndexInl.h:49-72` | of a built index: boundaries from 0 to the text length, each a document and a separator after the one before |
| `BuiltStates.IdsMean` | `src/index/fmindex/FMIndexInl.h:106-130` | of a built index: a byte's id is 2 plus the number of smaller bytes in use, after taking letters as small ones, -1 if it is not in use; the alphabet size counts the bytes in use |
| `BuiltStates.BytesMean` | `src/index/fmindex/FMIndexInl.h:262-276` | of a built index: the byte of each id in use is the small letter, or the byte itself |
| `BuiltStates.TextMeans` | `src/index/fmindex/FMIndexInl.h:142-151` | the text behind a built index: each document's ids at its boundary, 1 after it, 0 at the end |
| `BuiltStates.RowsMean` | `src/index/fmindex/SuffixArray.h:165-211` | its rows: all text positions, ordered by the first symbol in which their suffixes differ |
| `BuiltStates.TransformMeans` | `src/index/fmindex/FMIndexInl.h:195-233` | the matrix holds the symbol before each row's suffix, and entry x of the C-table counts its symbols below x |
| `BuiltStates.LevelMeans` | `src/index/fmindex/WaveletMatrix4.h:26-52` | level l packs each symbol's base-4 digit, the top digit first, and the next level's symbols are this level's, stably sorted by that digit |
| `BuiltStates.SamplesMean` | `src/index/fmindex/FMIndexInl.h:169-193` | exactly the rows at multiples of the rate are flagged, and sample k is the position of the flagged row with k flagged rows before it |
| `FMIndexes.FMIndex.StepWraps` | `src/index/fmindex/FMIndexInl.h:526-529` | c - first + mapped in 64-bit wrap-around arithmetic is C[d] + rank(d, p), also when c - first is negative |
| `RankBases.NegativeBase` | `src/index/fmindex/FMIndexInl.h:238-247` | for the smallest content byte of any index C[id] never exceeds the group start, and lies strictly below it if and only if the documents have at least three different bytes |
| `FMIndexes.FMIndex.Step` | `src/index/fmindex/FMIndexInl.h:526-529` | both endpoints move to C[d] + rank(d, endpoint) |
| `FMIndexes.FMIndex.LF` | `src/index/fmindex/FMIndexInl.h:505-509` | the row of the cyclically previous text position |
| `FMIndexes.FMIndex.LocateRow` | `src/index/fmindex/FMIndexInl.h:623-631` | terminates, returns the row's text position, after exactly SA[row] mod rate steps |
| `FMIndexes.FMIndex.DocumentOf` | `src/index/fmindex/FMIndexInl.h:616-621` | the document whose stretch holds the position |
| `FMIndexes.UpperBound` | `src/index/fmindex/FMIndexInl.h:616-621` | first index whose boundary exceeds the position |
| `FMIndexes.FMIndex.BackwardSearch` | `src/index/fmindex/FMIndexInl.h:511-535` | the exact interval of the pattern's rows, or an empty one; the whole range for the empty pattern; nothing without an index |
| `FMIndexes.FMIndex.CountOf` | `src/index/fmindex/FMIndex.h:90-94` | the number of places, document and offset, where the pattern reads, byte by byte; text_len + 1 for the empty pattern |
| `FMIndexes.FMIndex.LocateInternal` | `src/index/fmindex/FMIndexInl.h:633-649` | sorted text positions of the interval's rows, none at the sentinel |
| `FMIndexes.FMIndex.LocateDocs` | `src/index/fmindex/FMIndexInl.h:651-665` | lists by document and then offset exactly the places where the pattern reads, each once |
| `LocateBatches.LocatedUnique` | `src/index/fmindex/FMIndexInl.h:651-665` | the places where a pattern reads are one list only, so single and batch answers coincide |
| `FMIndexes.FMIndex.MatchingDocs` | `src/index/fmindex/FMIndexInl.h:405-416` | lists in ascending order, without repetition, exactly the documents in which the pattern reads somewhere |
| `Visits.VisitMatchingDocs` | `src/index/fmindex/FMIndex.h:194-207` | visits each document as often as there are offsets in it where the pattern reads, and nothing else |
| `AnchoredTheory.BoundaryBefore` | `src/index/fmindex/FMIndexInl.h:769-774` | the symbol before a position is the sentinel or a separator exactly at document starts |
| `AnchoredTheory.PrefixCount` | `src/index/fmindex/FMIndexInl.h:759-775` | the rank difference of sentinel and separator over the interval counts the documents that begin with the pattern |
| `AnchoredQueries.CountPrefixDocs` | `src/index/fmindex/FMIndexInl.h:759-775` | number of documents that read the pattern at their start |
| `AnchoredQueries.LocatePrefixDocs` | `src/index/fmindex/FMIndexInl.h:777-810` | lists in ascending order exactly the documents that read the pattern at their start, the first document included |
| `AnchoredQueries.SuffixDocInterval` | `src/index/fmindex/FMIndexInl.h:812-838` | the exact interval of pattern followed by separator |
| `AnchoredTheory.SuffixCount` | `src/index/fmindex/FMIndexInl.h:840-844` | its width is the number of documents that end with the pattern |
| `AnchoredQueries.CountSuffixDocs` | `src/index/fmindex/FMIndexInl.h:840-844` | number of documents that read the pattern at their end |
| `AnchoredQueries.LocateSuffixDocs` | `src/index/fmindex/FMIndexInl.h:846-861` | lists in ascending order exactly the documents that read the pattern at their end |
| `QueryTheory.DocListLength` | `src/index/fmindex/FMIndexInl.h:759-861` | an exact document list is as long as the number of such documents, so the counting queries equal the lengths of the listing ones |
| `FuzzyTheory.Reaches` | `src/index/fmindex/FMIndexInl.h:431-479` | completeness of the memoised search: once no call is open, whatever lies within the remaining budget of the remaining pattern is covered by a recorded interval, by induction on the remaining text and pattern together: a key in the memo has had every one of its steps covered with at least its budget, and each step shortens one of the two |
| `FuzzySearch.Dfs` | `src/index/fmindex/FMIndexInl.h:431-479` | one call terminates on i + (k - e), records only intervals within budget, covers its own key, and leaves every key it did not find open explored |
| `FuzzySearch.Expand` | `src/index/fmindex/FMIndexInl.h:462-478` | deletion, and for every symbol but the separator match or substitution and insertion, all explored |
| `FuzzySearch.ExactOnly` | `src/index/fmindex/FMIndexInl.h:452-461` | with the budget spent only the pattern's own symbol is followed, and nothing is lost by it |
| `FuzzySearch.Collect` | `src/index/fmindex/FMIndexInl.h:482-503` | the documents of every row of every recorded interval, each row resolved once |
| `FuzzySearch.HitIsClose` | `src/index/fmindex/FMIndexInl.h:433-436` | every recorded interval stands for a text stretch within the budget |
| `FuzzySearch.CloseIsHit` | `src/index/fmindex/FMIndexInl.h:437-479` | every document stretch within the budget has its rows in some recorded interval |
| `FuzzySearch.FuzzyMatchingDocs` | `src/index/fmindex/FMIndexInl.h:418-503` | for every pattern and budget, lists in ascending order exactly the documents with a stretch, possibly empty, that a chain of at most that many single edits turns into the pattern, letters folded |
| `FuzzySearch.FuzzyExtremes` | `src/index/fmindex/FMIndexInl.h:418-503` | budget 0 is exact containment; a budget of the pattern's length matches every document |
| `FuzzySearch.FuzzyMonotone` | `src/index/fmindex/FMIndexInl.h:418-503` | a larger budget loses no document |
| `FuzzySearch.NearMeans` | `src/index/fmindex/FMIndexInl.h:418-430` | within the distance budget and within a chain of that many edits are the same for every document |
| `EditDistance.DistanceZero` | `src/index/fmindex/FMIndexInl.h:423-428` | distance 0 is equality |
| `EditChains.DistanceIsEdits` | `src/index/fmindex/FMIndexInl.h:418-430` | the distance is at most k if and only if a chain of at most k single edits, each replacing, inserting or deleting one element, leads from one word to the other |
| `EditChains.SingleEdits` | `src/index/fmindex/FMIndexInl.h:462-478` | replacing, inserting or deleting one element anywhere is distance 1 |
| `EditChains.Triangle` | `src/index/fmindex/FMIndexInl.h:418-430` | going through a third word is never shorter |
| `Extraction.FillIsaSample` | `src/index/fmindex/FMIndexInl.h:286-295` | the table holds the row of every sampled text position; no entry is left unset |
| `Extraction.EnsureIsaSample` | `src/index/fmindex/FMIndexInl.h:286-295` | fills the table on first use only; a table filled earlier stays, whatever text it is of, and the index stays consistent |
| `Extraction.Anchor` | `src/index/fmindex/FMIndexInl.h:313-329` | with any table: starts at a position at or after the end, the nearest sampled one, else row 0 at text_len; with this text's table the row is that position's |
| `Extraction.WalkBack` | `src/index/fmindex/FMIndexInl.h:330-339` | from any row, right or not: the bytes that lie cyclically before the row's suffix, each at the distance its place was taken to have |
| `Extraction.Extract` | `src/index/fmindex/FMIndexInl.h:286-340` | with any table, left over or not, and any id: the exact outcome; it reads out the document from offset, len bytes or as many as there are, each byte the document's own with capitals 32 higher on a case-insensitive index, if and only if the table spells them, and always with a table of this text; nothing for an unknown document; a look-up outside the tables for the id 2^64 - 1 |
| `Extraction.WantedReadsOut` | `src/index/fmindex/FMIndexInl.h:303-313` | the wanted bytes are the clamped stretch, read out byte by byte |
| `Extraction.SpellsExactly` | `src/index/fmindex/FMIndexInl.h:317-340` | the outcome is the wanted bytes if and only if nothing is walked, or the consulted row exists and the cyclic stretch before its suffix spells them |
| `Extraction.FreshSpells` | `src/index/fmindex/FMIndexInl.h:286-340` | the table of this very text spells every request: extraction undoes the build |
| `Rebuilds.BuildThenExtract` | `src/index/fmindex/FMIndexInl.h:36-340` | build followed by extract, end to end, for every corpus, all options and every 64-bit id: the document is read out byte by byte if the index was never extracted from before, and otherwise exactly when the old table spells the request |
| `Rebuilds.StaleTable` | `src/index/fmindex/FMIndexInl.h:286-340` | the failing runs: a wrong byte after building ab, extracting and building ba; a row past the last one after then building a |
| `Extraction.RangeCheckExact` | `src/index/fmindex/FMIndexInl.h:300-302` | the 64-bit range check turns away exactly the ids without a document if and only if the id is not 2^64 - 1 |
| `Extraction.LargestIdPasses` | `src/index/fmindex/FMIndexInl.h:300-302` | the id for which it does not, on every index |
| `Statistics.LongestMatch` | `src/index/fmindex/FMIndexInl.h:342-375` | a longest stretch of the query that reads in any single document, the first to end among equally long ones, with the number of places where it reads; all zero if none |
| `Statistics.NoLongerMatch` | `src/index/fmindex/FMIndexInl.h:342-375` | optimality in terms of documents: none contains a longer stretch |
| `Statistics.LongerAbsent` | `src/index/fmindex/FMIndexInl.h:350-366` | whatever ends with an absent stretch is absent, so stopping the extension is safe |
| `Statistics.NextTokenCounts` | `src/index/fmindex/FMIndexInl.h:377-403` | lists in byte order exactly the bytes for which pattern and byte read somewhere, each with the number of places |
| `Conservation.Balance` | `src/index/fmindex/FMIndexInl.h:377-403` | continuations plus document ends equal the occurrences plus the continuations counted twice by folding |
| `Conservation.ConservationExact` | `src/index/fmindex/FMIndexInl.h:377-403` | occurrences = continuations + document ends, if and only if the index is case-sensitive or no capital letter is listed as a continuation |
| `Statistics.CountsConserved` | `src/index/fmindex/FMIndexInl.h:377-403` | the same law in terms of the list that the continuation query is specified to give |
| `Statistics.AnswersConserved` | `src/index/fmindex/FMIndexInl.h:377-403` | the same law between the answers of the three queries, for every non-empty pattern |
| `Conservation.ConservationFailsFolded` | `src/index/fmindex/FMIndexInl.h:391-400` | a folded corpus where it fails |
| `CountBatches.Gather` | `src/index/fmindex/FMIndexInl.h:573-592` | one round's gather: every active search of the tile with its next symbol, searches that meet an unknown byte closed with their answer |
| `CountBatches.WriteBack` | `src/index/fmindex/FMIndexInl.h:594-613` | one round's write-back keeps every search exact and uses up work, so a tile's rounds end |
| `CountBatches.CountBatch` | `src/index/fmindex/FMIndexInl.h:537-614` | for every batch and tile split, each entry is the number of places where its pattern reads |
| `LocateBatches.WalkTile` | `src/index/fmindex/FMIndexInl.h:696-736` | lock-step rounds end, every walk of the tile at its text position, finished walks untouched |
| `LocateBatches.Distribute` | `src/index/fmindex/FMIndexInl.h:738-745` | positions go to the pattern whose tag their walk carries, in order |
| `LocateBatches.LocateDocsBatch` | `src/index/fmindex/FMIndexInl.h:667-757` | for every batch and tile split: all entries list exactly the places where their pattern reads if and only if no pattern from number 2^32 on reads anywhere, so always up to 2^32 patterns |
| `LocateBatches.OneTagTooMany` | `src/index/fmindex/FMIndexInl.h:680-693` | an occurring pattern asked for 2^32 + 1 times gets an empty last answer |
| `LittleEndian.WrittenRead` | `src/index/fmindex/FMIndexInl.h:869-886` | a number that fits its width reads back |
| `LittleEndian.TableRead` | `src/index/fmindex/FMIndexInl.h:869-886` | a table of numbers reads back, wherever it stands |
| `Serializers.WriteHeader` | `src/index/fmindex/FMIndexInl.h:892-925` | of a built index: magic, version, scalars, ids and C-table at their literal offsets, least significant byte first, in a header of 1080 + 8 sigma + 40 levels bytes |
| `Serializers.Serialize` | `src/index/fmindex/FMIndexInl.h:927-959` | of a built index: a blob the loader accepts, with every field at its literal offset, unused bits and padding zero, and nothing after the last section |
| `Serializers.SerializeToStream` | `src/index/fmindex/FMIndexInl.h:961-1004` | the streaming writer emits that same blob |
| `StoredBytes.ScalarBytes` | `src/index/fmindex/FMIndexInl.h:892-906` | the bytes of such a blob one by one: 58 49 4D 46 08 00 00 00, then rate, alphabet size, levels, flags, block size and text length, byte k of a number v being v / 256^k mod 256 |
| `StoredBytes.IdBytes` | `src/index/fmindex/FMIndexInl.h:906-908` | an absent byte's entry at 32 + 4x is FF FF FF FF, another's is its id |
| `StoredBytes.TableBytes` | `src/index/fmindex/FMIndexInl.h:909-916` | the C-table from 1056 on and four group starts a level after it |
| `StoredBytes.SectionBytes` | `src/index/fmindex/FMIndexInl.h:927-959` | samples of 4 or 8 bytes and boundaries of 8 at their places |
| `StoredBytes.EncodedTidy` | `src/index/fmindex/FMIndexInl.h:927-959` | what is written parses back, leaves unused flag bits and padding zero and ends with the boundaries |
| `HeaderReader.ReadScalars` | `src/index/fmindex/FMIndexInl.h:1037-1079` | accepts exactly the fronts whose bytes pass every check at their literal offsets, and holds the numbers that stand there; never reads past the end |
| `HeaderReader.LowestBit` | `src/index/fmindex/FMIndexInl.h:1054-1057` | the bit trick accepts exactly 1, 2, 4, 8 and 16 |
| `HeaderReader.ReadTables` | `src/index/fmindex/FMIndexInl.h:1080-1127` | byte ids, C-table, starts and section sizes: accepted exactly when every id entry is FF FF FF FF or from 2 to below sigma and every size is the one the scalars determine |
| `Loaders.AlignView` | `src/index/fmindex/FMIndexInl.h:1128-1147` | grants a section exactly when padding and bytes fit, overflow of the byte count included |
| `Loaders.ReadMatrix` | `src/index/fmindex/FMIndexInl.h:1148-1175` | accepts exactly the packed levels whose own digit counts give the stored starts, and rebuilds the per-symbol starts |
| `Loaders.ReadSamples` | `src/index/fmindex/FMIndexInl.h:1176-1208` | accepts exactly when as many rows are flagged as samples are stored and every sample is a multiple of the rate within the text |
| `Loaders.ReadBounds` | `src/index/fmindex/FMIndexInl.h:1209-1224` | accepts exactly strictly increasing boundaries from 0 to text_len |
| `Loaders.LoadView` | `src/index/fmindex/FMIndexInl.h:1029-1241` | total on every byte sequence: terminates, reads inside the buffer, accepts exactly the blobs whose bytes are acceptable at their literal offsets, and then holds what stands there; every id is -1 or from 2 to below sigma, every other check spelled out; an id entry of 0 or 1 is refused; otherwise leaves an empty index |
| `ByteReadings.AcceptedMeans` | `src/index/fmindex/FMIndexInl.h:1029-1232` | the parser accepts exactly the acceptable bytes: front, tables, group starts that count the smaller digits of their level, as many flags as samples, samples that are multiples of the rate within the text, increasing boundaries |
| `StoredBytes.ParsedStores` | `src/index/fmindex/FMIndexInl.h:1029-1232` | a blob that parses as what an index holds has every field of it at its literal offset |
| `Loaders.ReservedRefused` | `src/index/fmindex/FMIndexInl.h:1083-1093` | an id entry that is the sentinel's or the separator's is never acceptable |
| `BlobTheory.ParsedOk` | `src/index/fmindex/FMIndexInl.h:1029-1232` | nothing gets past the checks without meeting all of them |
| `BlobTheory.ParseRoundTrip` | `src/index/fmindex/FMIndexInl.h:927-1232` | parsing what was written from acceptable content gives that content, whatever bytes follow |
| `BlobTheory.EncodeInjective` | `src/index/fmindex/FMIndexInl.h:892-959` | different content is never written as the same bytes |
| `Canonicals.Reencoded` | `src/index/fmindex/FMIndexInl.h:892-1232` | every accepted blob, whoever wrote it: encoding what was read gives its own bytes back, except the ignored flag bits, the padding between sections and whatever follows the end |
| `Canonicals.SameContent` | `src/index/fmindex/FMIndexInl.h:892-1232` | two accepted blobs hold the same content if and only if they agree up to those bytes |
| `WordBytes.WordBack` | `src/index/fmindex/FMIndexInl.h:869-886` | a 64-bit word stored as eight bytes reads back |
| `WordBytes.BytesBack` | `src/index/fmindex/FMIndexInl.h:869-886` | eight bytes read as a word are stored as the same bytes |
| `Images.ImageOk` | `src/index/fmindex/FMIndexInl.h:892-959` | whatever a built index writes passes every check of the loader |
| `RoundTrips.RoundTrip` | `src/index/fmindex/FMIndexInl.h:892-1232` | a built index, written and loaded, is consistent over the same documents and equal in every stored field, group start and id byte; the blob holds both, byte by byte; writing again gives the same bytes |
| `RoundTrips.LoadedSafe` | `src/index/fmindex/FMIndexInl.h:1148-1208` | on any accepted blob, whatever its packed words: the matrix can be followed and its descents stay in [0, m], every flagged row has its sample, every sample its slot in the inverse table, every byte id its table entries; the step's C-table offset is not covered here |
| `RoundTrips.LoadedDocumentOf` | `src/index/fmindex/FMIndexInl.h:616-621` | on any accepted blob, every text position gets a real document |
| `LoadedSteps.StepsInsideExactly` | `src/index/fmindex/FMIndexInl.h:526-529` | over any digits and any 64-bit C-table entry, wrap-around included: all endpoints step to a row or the end of the rows if and only if the entry plus the group's size is at most the number of rows |
| `LoadedSteps.LoadedStepsInside` | `src/index/fmindex/FMIndexInl.h:1095-1098` | the same for every symbol of any loaded index |
| `LoadedSteps.WildAccepted` | `src/index/fmindex/FMIndexInl.h:1095-1098` | acceptable content stays acceptable, and its blob is read back, with every C-table entry set to 2^64 - 1 |
| `LoadedSteps.WildLoad` | `src/index/fmindex/FMIndexInl.h:1029-1241` | the blob of any built index so altered loads, and then for every symbol some endpoint steps outside the rows |
| `RoundTrips.UnbuiltRefused` | `src/index/fmindex/FMIndexInl.h:1058-1073` | what an index that was never built writes is not accepted |

## Left out

- Binary wavelet matrix (`WaveletMatrix.h`): the index does not use it; the quad matrix is proved directly against the plain sequence.
- The byte-digit constructor and `from_words` of `QuadVector.h`: the index uses neither.
- Suffix sorting (libsais, its OpenMP variants, scratch mappings): outside the repository; replaced by the suffix-array contract.
- Files, mappings and ownership (`SerializeToFile` status, `MmapFmIndex.h`, `Deserialize` overloads): input and output; a blob is a byte sequence, and the stream writer's bytes are modelled without the file.
- Prefetching, memory profiling, `rank_directory_bytes`, `directory_bytes`: no effect on answers.
- Thread safety of the once-flag: the flag is a field, set on first use.
- Query answers over a blob whose packed words were altered: not promised (`FMIndex.h:300-304`). For accepted blobs that no index wrote the project states which look-ups stay inside their tables (`RoundTrips.LoadedSafe`, `RoundTrips.LoadedDocumentOf`, `WaveletMatrices.WaveletMatrix4.Access`) and exactly when the backward step does (`LoadedSteps.LoadedStepsInside`); not that walks by LF end or stay inside, since a symbol read there may lie beyond the C-table.
- RoundTrips.LoadedSafe: does not cover the backward step and LF, whose C-table entries the loader does not check, see Findings.
- Serializers.SerializeToStream: the bytes handed to the stream, not the write failures or the removal of the partial file.
- Extraction.Extract: a look-up outside the tables of the index is the outcome `OutsideTables`; what a C++ program does after it is not modelled. Ids are 64-bit.
- FMIndexes.FMIndex.Build: when it refuses, the model leaves the index unchanged, while the code has already cleared its boundary list before throwing; allocation failure is not modelled.
- CountBatches.CountBatch: the tile buffers that `map_batch` works on are arrays; the other per-slot arrays are one sequence of records.
- RoundTrips.RoundTrip: rank directories are rebuilt and proved exact on both sides rather than compared entry by entry; blobs of 2^64 bytes or more, which no buffer can hold, are excluded.
- BitVectors.BitVector.BuildRank: the directory is a sequence of (absolute, packed) entries instead of one flat array of words.
- Byte order of the machine: numbers and words are written as they lie in memory; the model is that of a little-endian machine.
- Shifts, masks and `|` on small values (digit extraction, flags, header bits) are written as division, remainder and sums; on 64-bit words they are bit-vector operations.
- Overflow of text positions: positions and counts are natural numbers; lengths are below 2^63 by the build's own check, so no sum of two of them wraps, except where the code relies on wrap-around, which is modelled.
- Visits.VisitMatchingDocs: the visitor is a returned sequence of documents, in row order.
- Tokens and alignment interfaces of the design document: not implemented in the repository.
