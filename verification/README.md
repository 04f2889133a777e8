# The bundled compression libraries: bzip2 block pipeline and zlib kernels

Two compression libraries are bundled with the server, under `deps/bzip2` (version 1.0.6) and `deps/zlib` (version 1.2.7).
This project models the code in them that does the work - sorting, coding, bit streams, match finding, table building,
decoding - as imperative code over arrays and object state, in the shape the C code has, and proves what each stage is
for. Every stage of compression has its inverse in another file; the stages are proved to invert each other and the
results compose.

`dafny verify dfyconfig.toml` checks everything.

## What is proved

**bzip2**

- *Rotation sorting.* `BlockSort.SortBlock` sorts every legal block, with either algorithm: prefix doubling over bucket
  header bits (`FallbackSort.FallbackSort`) or radix sort, multikey quicksort and pointer scanning
  (`MainSort.MainSort`). Sorted means sorted up to ties, because rotations of a periodic block are equal. The main sort
  is proved through ranks (the number of strictly smaller rotations): ranks order rotations as the cyclic comparison
  does, the quadrant values never contradict them, the two scans leave every bucket `[t, ss]` complete and in order
  without a comparison, and the assertions 1001 to 1007 of the C code cannot fire.
- *Inversion.* `Bwt.InvertCorrect` holds for any tie order. The FAST vector, the SMALL packed links after pointer
  reversal, and the walk of both are proved to be that inversion.
- *Entropy coding.* `MtfEncode.GenerateMtfValues` writes 16-bit symbols over the 32-bit pointers it still reads, in one
  array. `SlidingMtf.UseMtf` refines a plain list. `HuffmanLengths.MakeCodeLengths` ends with a complete code within the
  length limit, of least weighted length for the counts as often halved as codes came out too long; the bound on the
  depth is a Fibonacci argument. The tables of a block are what four passes of choosing the cheapest table and
  rebuilding it come to (`TableChoice.ChooseTables`). `CodeTables.GetSymbol` decodes the canonical code.
- *Blocks.* `BlockEncode.CompressBlock` writes bits that the decoder accepts in front of any other bits, consumes
  exactly, and turns back into the block; they fit behind the block in the allocation they share. The reader methods
  agree with the format on every input, so the decoder's errors are characterised as well, the stores past the selector
  arrays included: they happen if and only if the header promises, and the input holds, more than 18002 selectors.
- *Streams.* `StreamEncode.EState.BzCompress` keeps an account of every byte over any sequence of RUN, FLUSH and FINISH
  calls with any buffer sizes; at STREAM_END the bytes handed out decompress to the bytes consumed. What a call answers is
  determined, and calls that ask for the end, with any room but some, reach it (`StreamEncode.EState.FinishStream`). The
  account is of decoded content: where one block ends and the next begins may depend on how the calls were split.
  `StreamDecode.Decompress` is the decoder for both representations, and run expansion is proved independent of how the
  output room is split. The block checksum is shown to be the mirror image of CRC-32 (`CheckRegister.BlockSumMirrors`),
  and a stream with a wrong one is refused.

**zlib**

- *Checksums.* Adler-32 with deferred and division-free reduction, CRC-32 a byte and a word at a time from tables the
  code builds itself, and combination of checksums for all lengths, the latter by squaring matrices over GF(2).
- *Match finding.* For any run of calls of `deflate`, with any input, splitting and flushes, the tokens recorded by
  `deflate_fast`, `deflate_slow` and `deflate_rle` expand to the input (section 3.2.3 of RFC 1951), and each is the one
  its strategy prescribes. The hash chains are complete over a window that slides: they lead to every string inserted
  with the same hash that is still there, the latest first, and `longest_match` finds the nearest of the longest matches
  among the candidates it looks at, although it never compares the third byte. A ghost log (`MatchChoice.Log`) keeps for
  every token the input then known, the strings then inserted and what was found, so that a statement over data and
  tokens follows: a longer match within reach is passed over only if the one recorded is good enough or the search
  budget went on later strings with the same hash (`MatchChoice.NothingMissed`). Lazy evaluation records a match exactly
  if the next string has no longer one (`MatchChoice.Patient`), and runs are taken whole (`MatchChoice.RunOf`).
- *Decoding tables.* `Inftrees.InflateTable` accepts and rejects exactly the sets of lengths it should, and its table
  finds every symbol by its canonical code (section 3.2.2 of RFC 1951) through at most one link, and nothing else. The
  ranges and extra bits it files away are those of section 3.2.5 in closed form, and tile the lengths and distances
  (`FormatNumbers`).
- *Decoding.* What a stream of stored, fixed and dynamic blocks comes to is given by one function of the bits still to
  come and the bytes already put out, which knows code lengths but no tables. Every mode from the block type to the last
  literal, stopped and resumed anywhere, the fast loop, window copies and whole calls are each proved to preserve it, on
  sound, corrupt and truncated streams alike. One thing depends on how the calls are split: a copy from further back
  than the window works as long as the bytes are still in the caller's buffer. The outcome marks every such byte as a
  point where decoding may be refused; within a call it is settled exactly which are (`Outcomes.Keeps`), and across
  calls nothing else may differ (`Outcomes.Leads`).
- *Round trip.* `DeflateRun.DeflateInflate`: a compressor fed any input in any calls, its tokens cut into blocks of any
  kinds and written as section 3.2 of RFC 1951 lays down, and a fresh decoder fed the bytes in any calls: the input comes
  out.

## How the model reads

- Bytes and machine words are natural numbers with their bounds written out; wrap-around, masks and shifts are explicit
  (`Shl`, `Shr`, `LowBits`, `Or`, `Xor`, remainders of powers of two) or proved not to be needed.
- A bit stream is a sequence of booleans, most significant bit first in bzip2 and least significant bit first in zlib.
- Where the C code views one allocation in two ways, the model keeps one array and reads the second view off it:
  `Words`, `ByteArea` and `HeaderBits` hold the block bytes inside 32-bit words, the bit map of bucket headers, and the
  pointers and symbols that share storage.
- A specification function comes first in each module and its properties are lemmas; the method that does the work is
  proved equal to it.
- Ghost parameters named `future`, `rest`, `s` or `data` stand for input not yet seen or for the text a state represents.

| area | modules |
|---|---|
| rotations and the transform | Rotations, Words, Bwt, Unsort |
| sorting | Rearrange, ThreeWay, RangeStack, FallbackQSort, HeaderBits, ByteArea, Doubling, FallbackSort, MainCompare, MainQSort, MainBuckets, MainScan, MainSort, BlockSort |
| move-to-front and codes | Mtf, SlidingMtf, MtfEncode, Codes, CodeTables, HuffmanHeap, HuffmanForest, HuffmanOptimal, HuffmanLengths, TableChoice |
| bits and blocks | Bits, BitIO, BlockFormat, BlockRoom, BlockEncode, BlockDecode, DataDecode |
| runs and streams | Rle, BlockCrc, BlockOutput, StreamFormat, StreamEncode, StreamDecode |
| checksums | Adler, Crc32, Crc32Combine, CheckRegister |
| deflate | Lz77, HashChains, DeflateWindow, MatchChoice, Deflate, DeflateRun |
| inflate | InflateCodes, TableLayout, Inftrees, InflateBits, Outcomes, InflateElements, InflateTokens, HistoryWindow, InflateState, Inffast, InflateBlocks, FixedCodes, DeflateFormat, FormatNumbers, KnownStreams, InflateViews, InflateHeaders, InflateRun |

## Where the code falls short of what it promises

- `deps/bzip2/decompress.c:289-300` reads a 15-bit number of selectors, refuses only 0, and fills two arrays of 18002
  entries. `BlockFormat.StoresInRange` gives the condition: every store is in range, for every input, if and only if the
  number is at most 18002. `BlockFormat.BlockTooMany` is a block for which one is not. The compressor never writes such a
  header (`TableChoice.ChooseTables`, assertion 3003). `StreamDecode.Decompress` stops with an outcome of its own at the
  first store out of range.
- `deps/zlib/inftrees.h:38-48` calls 852 and 592 the largest table sizes that occur, but
  `deps/zlib/inftrees.c:211-213` and `280-282` refuse a table of exactly that size. `Inftrees.InflateTable` states the
  condition as the code has it, and `FixedCodes.CompleteRefused` gives a complete distance code that is refused.

## Where code and comments disagree

- `deps/bzip2/blocksort.c:964-985` says that of two positions with equal bytes the one with the smaller quadrant
  precedes the other. For a periodic block the rotations may be equal, so only "precedes or equals" is true; that is
  what the sort needs and what is proved.
- `deps/zlib/inffast.c:40-46` assumes fewer than eight bits held on entry. After a call that stopped within a code more
  may be held, but then they are too few for that code; with this weaker condition the return of unused bytes is still
  proved not to give back more than was taken.
- `deps/bzip2/blocksort.c:202` gives `2 + nblock/32` words for the header bits; the sentinel writes reach one word more
  for some block sizes. The area allocated, 65537 words, is proved to be enough for every legal block.

## Model

| member | source | states |
|---|---|---|
| FallbackQSort.Insert | deps/bzip2/blocksort.c:42-58 | One insertion with stride 1 or 4: the range is permuted, and with stride 1 an ordered tail grows by the inserted element |
| FallbackQSort.SimpleSort | deps/bzip2/blocksort.c:32-59 | The range is permuted and ends in ascending class order |
| FallbackQSort.Partition | deps/bzip2/blocksort.c:132-162 | Three-way partition: equal keys gathered at both ends, smaller left, larger right, nothing lost |
| ThreeWay.Gather | deps/bzip2/blocksort.c:166-170 | The equal keys moved to the middle: smaller, equal and larger keys in three consecutive parts |
| FallbackQSort.StackSplit | deps/bzip2/blocksort.c:93-180 | Pushing the larger part first keeps entry k of the explicit stack within a 2^-k share of the whole range |
| FallbackQSort.QSort3 | deps/bzip2/blocksort.c:93-180 | Whatever pivots are drawn, the range is permuted and sorted. That at most 18 of the 100 stack entries are used, so that assertion 1004 cannot fire, is an invariant of its loop |
| HeaderBits.FindClear | deps/bzip2/blocksort.c:277-284 | Word-skipping search: the first clear header bit from a position on |
| HeaderBits.FindSet | deps/bzip2/blocksort.c:286-291 | Word-skipping search: the first set header bit from a position on |
| Doubling.DoubleDepth | deps/bzip2/blocksort.c:261-313 | Ordering by bucket and then by the bucket of the rotation H later is ordering by 2H characters |
| Doubling.HeadOrder | deps/bzip2/blocksort.c:225-245 | Bucket heads compare exactly as the first H characters of the rotations do |
| FallbackSort.SetClasses | deps/bzip2/blocksort.c:266-271 | Each rotation receives the head of the bucket of the rotation H later, cyclically |
| FallbackSort.RefineBuckets | deps/bzip2/blocksort.c:273-306 | One pass orders every bucket by class and marks exactly the new boundaries |
| FallbackSort.RestoreBlock | deps/bzip2/blocksort.c:315-328 | The block overwritten by the classes is restored byte for byte from the byte counts and the order |
| FallbackSort.FallbackSort | deps/bzip2/blocksort.c:212-329 | fmap becomes a permutation of all rotations in cyclic lexicographic order (ties in any order), the block is unchanged, and the doubling loop terminates |
| MainCompare.RankOrder | deps/bzip2/blocksort.c:345-469 | Ranks (numbers of strictly smaller rotations) order rotations exactly as the cyclic comparison does |
| MainCompare.MainGtU | deps/bzip2/blocksort.c:345-469 | The comparison answers correctly for whole rotations, using bytes and quadrants, and never reads past nblock + BZ_N_OVERSHOOT |
| MainQSort.Insert | deps/bzip2/blocksort.c:510-522 | One insertion of the shell sort: a permutation of the range, and with stride 1 an ordered front grows |
| MainQSort.MainSimpleSort | deps/bzip2/blocksort.c:485-555 | The range is permuted, and sorted by whole rotations unless the budget ran out |
| MainQSort.Med3 | deps/bzip2/blocksort.c:583-592 | One of the three keys, neither above nor below both others |
| MainQSort.PartitionBytes | deps/bzip2/blocksort.c:656-689 | Three-way partition by the byte at depth d |
| MainQSort.ShrunkThird | deps/bzip2/blocksort.c:702-715 | The third of three parts in descending size order fits two levels further up the stack |
| MainQSort.ShrunkDepth | deps/bzip2/blocksort.c:644-716 | A range large enough to be split lies at most 19 entries up the stack |
| MainQSort.CostSplit | deps/bzip2/blocksort.c:644-716 | Splitting a range into three lowers a measure of the pending work: the explicit-stack loop terminates |
| MainQSort.MainQSort3 | deps/bzip2/blocksort.c:621-717 | A range agreeing on its first dSt bytes is permuted, and sorted by whole rotations unless the budget ran out. That at most 22 of the 100 stack entries are used, so that assertion 1001 cannot fire, is an invariant of its loop |
| MainBuckets.CountKeys | deps/bzip2/blocksort.c:769-792 | ftab counts the two-byte keys, computed by the rolling 16-bit register from the end of the block |
| MainBuckets.Overshoot | deps/bzip2/blocksort.c:794-798 | Block and quadrants are repeated behind the end; zero quadrants contradict no order |
| MainBuckets.PlaceAll | deps/bzip2/blocksort.c:802-830 | Every rotation is listed once and in its small bucket, and ftab ends as the table of bucket starts |
| MainSort.RunningOrder | deps/bzip2/blocksort.c:837-860 | The big buckets in ascending order of size, each once |
| MainSort.SortBig | deps/bzip2/blocksort.c:886-907 | Step 1, within the budget: the small buckets [ss, j], j other than ss, are sorted and marked, and besides them exactly those marked before; all marked buckets stay sorted |
| MainScan.NewOrder | deps/bzip2/blocksort.c:923-934 | A pointer appended to [ss, ss] during a scan is in order with everything already final in the big bucket |
| MainScan.RoomLeft | deps/bzip2/blocksort.c:923-934 | The scans never overrun a small bucket: a rotation still to be put in place finds a free position |
| MainScan.ScanStep | deps/bzip2/blocksort.c:923-934 | Each turn of either scan keeps the scan invariant |
| MainScan.NoneMissing | deps/bzip2/blocksort.c:937-944 | Unless the block is one byte repeated, every rotation starting with ss is final when the scans stop |
| MainScan.ScansMeet | deps/bzip2/blocksort.c:937-944 | Unless the block is one byte repeated, the two scans meet in every bucket [t, ss] of a big bucket not yet done |
| MainScan.ScanResult | deps/bzip2/blocksort.c:911-944 | The scans leave all buckets [t, ss] complete and sorted without a comparison, everything else unchanged |
| MainScan.OneByteResult | deps/bzip2/blocksort.c:937-944 | For a block of one byte the untouched pointers already are in order |
| MainSort.ScanBig | deps/bzip2/blocksort.c:911-944 | Step 2 establishes that result in place; assertion 1007 cannot fire |
| MainSort.BigDone | deps/bzip2/blocksort.c:868-946 | After Steps 1 and 2 exactly the buckets of, and into, the big buckets done are marked, and all marked ones are sorted |
| MainSort.UpdateQuadrants | deps/bzip2/blocksort.c:948-1004 | Step 3 keeps the quadrant meaning "smaller: precedes or equals" and the overshoot copy; every value stored fits 16 bits (assertion 1002) |
| MainSort.MainSort | deps/bzip2/blocksort.c:732-1011 | If the budget is not exhausted, ptr is a permutation of all rotations in cyclic order; the block is unchanged either way |
| BlockSort.SortBlock | deps/bzip2/blocksort.c:1031-1089 | For every block size and work factor: rotations sorted, block unchanged, origPtr the row of the block itself (assertion 1003 cannot fire) |
| Bwt.StepAdvances | deps/bzip2/decompress.c:559-566 | One step of the inverse walk reaches a row whose rotation starts one character later |
| Bwt.InvertCorrect | deps/bzip2/decompress.c:494-576 | Any rotation-sorted order, ties broken any way and periodic blocks included, decodes to the block |
| Unsort.BuildCftab | deps/bzip2/decompress.c:494-516 | The running counts are first rows of each byte, and the range checks on both tables always pass |
| Unsort.BuildFast | deps/bzip2/decompress.c:559-566 | FAST: each word carries its byte and the inverse link, and fits 32 bits |
| Unsort.SetLL | deps/bzip2/bzlib_private.h:458-473 | Storing a 20-bit link changes that link only, although two links share a byte |
| Unsort.BuildSmall | deps/bzip2/decompress.c:526-534 | SMALL, first pass: link i becomes the rank of row i |
| Unsort.ReversePointers | deps/bzip2/decompress.c:536-545 | SMALL, second pass: the pointer reversal ends and reverses exactly the cycle through origPtr |
| Unsort.TrailWalk | deps/bzip2/bzlib_private.h:475-479 | After the reversal, following links from origPtr is the inverse walk |
| Unsort.IndexIntoF | deps/bzip2/bzlib.c:687-698 | The binary search finds the byte whose rows contain the index |
| Mtf.LookupsInvert | deps/bzip2/compress.c:157-230 | Move-to-front decoding inverts move-to-front coding and leaves the same list |
| Mtf.RunAbsorbed | deps/bzip2/decompress.c:375-415 | The bijective base-2 digits of a run add up to its length without meeting the 2M cap, for every legal run |
| Mtf.SymbolsDecode | deps/bzip2/compress.c:157-230 | The zero-run coded symbol stream, end-of-block included, decodes to the positions it was made from |
| MtfEncode.GenerateMtfValues | deps/bzip2/compress.c:120-230 | The 16-bit symbols written over the sorted pointers in the same storage never reach a pointer still to be read, are the symbols of the last column, and are counted correctly |
| SlidingMtf.MoveWithinFirst | deps/bzip2/decompress.c:429-444 | A hit in the first segment moves the entry to the front of the 256-entry list |
| SlidingMtf.Compact | deps/bzip2/decompress.c:463-472 | Copying the sixteen segments to the top of the area in place preserves the list |
| SlidingMtf.MoveAcross | deps/bzip2/decompress.c:445-473 | Any other hit moves the entry to the front of the list, segments staying ordered and disjoint |
| SlidingMtf.UseMtf | deps/bzip2/decompress.c:423-476 | The 16x16 structure refines a plain move-to-front list at every step |
| HuffmanHeap.DownHeap | deps/bzip2/huffman.c:44-59 | Moving an entry down restores the heap order over the same nodes |
| HuffmanHeap.PopMin | deps/bzip2/huffman.c:101-102 | The node removed is a lightest one; the others stay |
| HuffmanForest.TreeDepth | deps/bzip2/huffman.c:100-121 | A tree of depth d weighs at least the Fibonacci number of d, so no leaf is deeper than the total weight allows |
| HuffmanForest.CutWhole | deps/bzip2/huffman.c:100-121 | The leaf depths of the finished tree fill the code space exactly |
| HuffmanOptimal.LowerBound | deps/bzip2/huffman.c:100-121 | At every stage of the tree building, no depths of the roots that fill the code space cost less than the weights of the nodes still to be made |
| HuffmanOptimal.TreeOptimal | deps/bzip2/huffman.c:100-124 | The depths of the leaves of the finished tree have the least weighted length of all complete codes of the alphabet |
| HuffmanOptimal.HeavierShorter | deps/bzip2/huffman.c:115-124 | In an optimal code a heavier symbol never has the longer code |
| HuffmanLengths.Tree | deps/bzip2/huffman.c:84-123 | One round of tree building: the lengths are an optimal code for the current weights; they are reported too long exactly if one exceeds the limit, and then the weights are still above twice the alphabet size |
| HuffmanLengths.MakeCodeLengths | deps/bzip2/huffman.c:63-148 | For frequencies of 2 to 258 symbols with a total below 2^23, under which no weight overflows, and any limit that flattened weights can meet, 12 and more for every alphabet: lengths in 1..maxLen with Kraft sum exactly one that are optimal for the counts (0 counting as 1) flattened as many times as codes came out too long |
| Codes.CodeFits | deps/bzip2/huffman.c:152-165 | Under the Kraft condition every canonical code fits its length |
| Codes.PrefixFree | deps/bzip2/huffman.c:152-165 | No canonical code is a prefix of another |
| Codes.DecodeCode | deps/bzip2/decompress.c:74-102 | Lengthening the code while it exceeds the limit of its length returns the symbol after exactly its length in bits |
| CodeTables.AssignCodes | deps/bzip2/huffman.c:152-165 | Codes are the canonical ones |
| CodeTables.CreateDecodeTables | deps/bzip2/huffman.c:170-200 | limit, base and perm describe the canonical code |
| CodeTables.GetSymbol | deps/bzip2/decompress.c:74-102 | The table loop agrees with the canonical decoder on every input, ill-formed and truncated ones included |
| TableChoice.InitialTables | deps/bzip2/compress.c:279-317 | As many starting tables as asked for, of two costs, each favouring one of consecutive stretches of the alphabet: the fewest symbols that make up an equal share of what remains, less the last in every other stretch between the first and the last |
| TableChoice.GroupCosts | deps/bzip2/compress.c:352-393 | Costs added up in packed 16-bit halves equal the costs added up one by one |
| TableChoice.Cheapest | deps/bzip2/compress.c:395-405 | The first table of least cost |
| TableChoice.CountGroup | deps/bzip2/compress.c:407-433 | Each symbol of a group is counted where it belongs |
| TableChoice.ChooseSelectors | deps/bzip2/compress.c:330-440 | Every group gets its cheapest table, the first of equals, and each table the counts of the symbols of exactly its groups |
| TableChoice.Rebuild | deps/bzip2/compress.c:444-452 | Every table becomes the best code for its counts |
| TableChoice.ChooseTables | deps/bzip2/compress.c:271-452 | Four passes, the first from the starting tables, each of the others from the tables tuned to the selectors of the one before: every table ends as a complete code of at most 17 bits, the best for the symbols of the groups that selected it, and there are at most 18002 selectors (assertion 3003) |
| BitIO.BitWriter.Put | deps/bzip2/compress.c:58-78 | Appends exactly the low n bits of v |
| BitIO.BitWriter.Finish | deps/bzip2/compress.c:45-54 | Pads with fewer than eight zero bits and writes everything out |
| BitIO.BitReader.Get | deps/bzip2/decompress.c:43-65 | The next n bits as a number, or a report that the input ran out, with nothing lost |
| BlockEncode.SelectorPositions | deps/bzip2/compress.c:461-478 | The selectors are move-to-front coded |
| BlockEncode.WriteMap | deps/bzip2/compress.c:494-515 | The two-level map of bytes in use is written |
| BlockEncode.WriteTable | deps/bzip2/compress.c:531-539 | One table of lengths is written as delta steps |
| BlockEncode.WriteData | deps/bzip2/compress.c:544-594 | Every symbol is written with the code of its group's table |
| BlockEncode.SendMtfValues | deps/bzip2/compress.c:239-594 | What is written is the body of a sendable coding of exactly the given symbols, with as many tables as their number calls for, tables and selectors being those of the four passes |
| BlockEncode.CompressBlock | deps/bzip2/compress.c:630-653 | The bits of a block are accepted by the decoder followed by any bits whatever, consumed exactly, and yield a column and origin that invert to the block; they are those of the coding of its column that the four passes settle on; their number is bounded by the length of the block |
| BlockFormat.SelectorsRoundTrip | deps/bzip2/decompress.c:286-314 | Selectors written are the selectors read |
| BlockFormat.MapRoundTrip | deps/bzip2/decompress.c:266-283 | The map written is the map read |
| BlockFormat.DataRoundTrip | deps/bzip2/decompress.c:371-486 | Symbols written are read back, up to and including the end of block, and expand to their positions |
| BlockFormat.BlockRoundTrip | deps/bzip2/decompress.c:222-578 | Whatever sorted order, tables and selectors the encoder settles on, decoding the bits of a block gives its column and, by inversion, the block |
| BlockRoom.BlockLength | deps/bzip2/compress.c:239-594 | No header, map, selectors, tables and data of a block take more than a fixed number of bits and twenty for each symbol |
| BlockDecode.GetMap | deps/bzip2/decompress.c:266-283 | Agrees with the format on every input |
| BlockDecode.GetSelectors | deps/bzip2/decompress.c:286-314 | Agrees with the format on every input, in arrays of 18002 entries: it stops at the first store out of range exactly when the format says so |
| BlockFormat.OverrunExactly | deps/bzip2/decompress.c:289-300 | A store to the selector arrays is out of range exactly when the 15-bit count exceeds 18002 and the input has 18003 selectors well-formed and complete |
| BlockFormat.StoresInRange | deps/bzip2/decompress.c:289-300 | Every store is in range, whatever the input, if and only if the count in the header is at most 18002 |
| BlockFormat.OneTooMany | deps/bzip2/decompress.c:289-300 | Two tables and 18003 selectors, all the first: a header the code accepts that runs past both arrays |
| BlockFormat.BlockTooMany | deps/bzip2/decompress.c:222-300 | A whole block, sound up to there, with such a header |
| BlockDecode.GetTable | deps/bzip2/decompress.c:316-329 | Agrees with the format on every input |
| DataDecode.GetMtfVal | deps/bzip2/decompress.c:74-102 | One symbol with the table of its group; agrees with the format on every input |
| DataDecode.GetData | deps/bzip2/decompress.c:371-486 | Agrees with the format on every input; counts and stored bytes are those of the decoded column |
| DataDecode.GetBlock | deps/bzip2/decompress.c:241-516 | A whole block agrees with the format on every input, and leaves the column, its counts and a valid origin |
| Rle.RleRoundTrip | deps/bzip2/bzlib.c:536-682 | Runs that could not have been merged, stored as up to four bytes and a count, decode to the input |
| CheckRegister.Constants | deps/bzip2/crctable.c:31-104 | The tables of both libraries come from one polynomial, given by its exponents, and its mirror image |
| CheckRegister.UpdateClocks | deps/bzip2/bzlib_private.h:167-172 | A table look-up clocks the 32-bit register once for each bit of the byte, top bit first |
| CheckRegister.BlockSumClocks | deps/bzip2/bzlib_private.h:157-172 | The checksum of a block: all its bits clocked into a register of ones, and every bit turned over |
| CheckRegister.BlockSumMirrors | deps/bzip2/bzlib_private.h:157-172 | Bit by bit from the other end it is the CRC-32 of the bytes turned round in the same way |
| CheckRegister.CombineRotates | deps/bzip2/compress.c:607-608 | The checksum of a block joins that of the stream by a rotation by one bit and an exclusive-or |
| BlockOutput.DState.GetFast | deps/bzip2/bzlib_private.h:444-450 | The next character of the block; the range check on tPos never fires |
| BlockOutput.DState.GetSmall | deps/bzip2/bzlib_private.h:475-479 | The same character from the packed links |
| BlockOutput.DState.UnrleToOutputFast | deps/bzip2/bzlib.c:536-682 | However the output room is split, what has been put out followed by what is pending is always the expansion of the block |
| BlockOutput.DState.UnrleToOutputSmall | deps/bzip2/bzlib.c:706-804 | The same for the packed representation |
| StreamFormat.StreamRoundTrip | deps/bzip2/decompress.c:197-606 | Head, blocks and trailer decode to the bytes their blocks hold, checksums verified, and decoding stops after the trailer |
| StreamFormat.OutputAll | deps/bzip2/bzlib.c:808-858 | What the blocks before the first unsound one put out is, for a sound stream, all it holds |
| StreamFormat.WrongBlockSum | deps/bzip2/bzlib.c:824-831 | A block whose stored checksum is not that of its bytes is refused, whatever precedes and follows it |
| StreamFormat.WrongTotal | deps/bzip2/bzlib.c:843-848 | A trailer with any other combined checksum is refused |
| StreamFormat.OneBlockTotal | deps/bzip2/compress.c:602-610 | The combined checksum of a single block is its own |
| StreamFormat.Magics | deps/bzip2/compress.c:634-661 | The six bytes before a block are the digits of pi, those of the trailer the digits of the square root of that number |
| StreamFormat.EmptyFile | deps/bzip2/compress.c:620-665 | The fourteen bytes of an empty file are read as nothing |
| StreamEncode.EState.constructor | deps/bzip2/bzlib.c:148-211 | A fresh stream has consumed and delivered nothing |
| StreamEncode.EState.AddPairToBlock | deps/bzip2/bzlib.c:215-247 | The pending run joins the block, its bytes and no others are marked as in use and enter the block checksum |
| StreamEncode.EState.AddCharToBlock | deps/bzip2/bzlib.c:259-284 | One byte of input is accounted for, in the block or in the pending run; the block grows by at most five bytes |
| StreamEncode.EState.FlushRL | deps/bzip2/bzlib.c:251-256 | Nothing is pending afterwards |
| StreamEncode.EState.CopyInputUntilStop | deps/bzip2/bzlib.c:288-329 | Input is consumed in order, none skipped; the block never exceeds its maximum |
| StreamEncode.EState.CopyOutputUntilStop | deps/bzip2/bzlib.c:333-356 | Compressed bytes are handed out in order, as many as there is room for |
| StreamEncode.EState.CompressBlock | deps/bzip2/compress.c:602-665 | The block joins the finished ones, which decode to all input packed so far; the bytes written fit behind the block in the allocation they share |
| StreamEncode.EState.HandleCompress | deps/bzip2/bzlib.c:360-403 | The alternation of input and output keeps the account of every byte; it reports progress exactly when a byte moved, which it does whenever one can; it stops only when input or room is used up or the request is met |
| StreamEncode.EState.BzCompress | deps/bzip2/bzlib.c:407-464 | Over any sequence of RUN, FLUSH and FINISH calls with any buffers: no input or output is lost, and at STREAM_END all output decompresses to exactly the input consumed. The answer is determined in every state: RUN_OK to RUN exactly when a byte could move, and then the input or the room is used up; FLUSH_OK and FINISH_OK exactly when output waits that had no room; the errors move nothing |
| StreamEncode.EState.FinishStream | deps/bzip2/bzlib.c:407-464 | Calls with FINISH, each with any room but none without, end the stream |
| StreamDecode.OutputBlock | deps/bzip2/bzlib.c:808-858 | A block put out in pieces of any sizes is put out whole, its checksum computed on the way |
| StreamDecode.Decompress | deps/bzip2/decompress.c:106-611 | The decoder agrees with the stream format on every input, FAST and SMALL alike: whole streams give the same bytes and consume the same bits; all others end in the same error - not bzip2 data, corrupt data, selectors past their arrays - or a report that the input is too short, after putting out exactly the blocks before it and, of one that fails its checks, what it expands to |
| Adler.WaitLimit | deps/zlib/adler32.c:15-16 | 5552 is the largest number of bytes for which the reduction may wait |
| Adler.LargestPrime | deps/zlib/adler32.c:14 | The modulus is the largest prime number below 65536 |
| Adler.ModCorrect | deps/zlib/adler32.c:29-44 | The shift-and-subtract MOD is the remainder modulo 65521 |
| Adler.Mod28Correct | deps/zlib/adler32.c:35-39 | So is the shorter MOD28 on 28-bit values |
| Adler.Mod63Correct | deps/zlib/adler32.c:45-57 | So is MOD63 on 63-bit values |
| Adler.NoOverflow | deps/zlib/adler32.c:104-129 | Within a deferred block neither sum leaves 32 bits |
| Adler.Adler32 | deps/zlib/adler32.c:65-133 | The running checksum is that of section 2.2 of RFC 1950 for the whole string |
| Adler.Combine | deps/zlib/adler32.c:136-162 | The checksums of two strings combine to that of their concatenation, for any length; a negative length gives the invalid marker |
| Crc32.ByteStep | deps/zlib/crc32.c:200 | A table look-up and a shift are eight single-bit steps |
| Crc32.MakeCrcTable | deps/zlib/crc32.c:90-129 | The four tables of the little-endian loops hold the register after 8, 16, 24 and 32 zero bits |
| Crc32.AddWord | deps/zlib/crc32.c:241-243 | Four bytes folded in at once are four bytes one after another |
| Crc32.Crc32Little | deps/zlib/crc32.c:247-278 | The word-at-a-time loop, for any alignment, computes the CRC of section 8 of RFC 1952 |
| Crc32.Crc32 | deps/zlib/crc32.c:204-236 | So does the bytewise loop |
| Crc32Combine.MatrixTimes | deps/zlib/crc32.c:327-341 | Multiplying by the matrix applies the operator it stands for |
| Crc32Combine.MatrixSquare | deps/zlib/crc32.c:344-352 | Squaring the matrix doubles the number of zero bits |
| Crc32Combine.Combined | deps/zlib/crc32.c:355-408 | The checksum of a concatenation is the first checksum after as many zero bits, exclusive-or the second |
| Crc32Combine.Combine | deps/zlib/crc32.c:355-408 | Repeated squaring computes it, for every length |
| Lz77.CoversMatch | deps/zlib/deflate.c:1666-1672 | A match that repeats the input extends the text the tokens stand for |
| HashChains.Rolls | deps/zlib/deflate.c:161-167 | Whatever the running hash was, after three bytes it is their hash |
| HashChains.ThirdByte | deps/zlib/deflate.c:1245-1252 | Equal hashes and equal first two bytes imply equal third bytes, which is why the third is not compared |
| HashChains.ChainsInsert | deps/zlib/deflate.c:170-190 | Inserting a string keeps every head and link at the latest earlier string with its hash, and finds the one before the new string |
| HashChains.ChainsSlide | deps/zlib/deflate.c:1424-1447 | Sliding the window keeps that: entries lead to the same strings, and to none that have left the window |
| HashChains.ChainEarlier | deps/zlib/deflate.c:175-187 | A head or link leads to the first of the earlier strings with its hash in the window, and its own link gives the rest: no chain is incomplete |
| HashChains.EarlierHas | deps/zlib/deflate.c:1186-1280 | The strings so reached are all that were inserted with that hash after the start of the window, and no others |
| DeflateWindow.Window.Slide | deps/zlib/deflate.c:1414-1449 | The upper half moves down, entries and match start with it; match start may fall below zero |
| DeflateWindow.Window.ReadBuf | deps/zlib/deflate.c:1074-1099 | Input is taken in order, as much as fits |
| DeflateWindow.Window.FillWindow | deps/zlib/deflate.c:1388-1530 | The window mirrors the input throughout; afterwards the lookahead is sufficient or the input is used up; which strings were inserted is stated |
| DeflateWindow.Window.MatchLength | deps/zlib/deflate.c:1251-1267 | The bytes at the candidate and at the string agree for the length returned, and no further |
| DeflateWindow.Window.InsertLeft | deps/zlib/deflate.c:1468-1487 | The strings left over from the end of the last call are inserted as soon as three bytes of them are there |
| DeflateWindow.Window.ReachedNext | deps/zlib/deflate.c:1282-1283 | The link of a candidate within reach leads to the next one |
| DeflateWindow.Window.LongestMatch | deps/zlib/deflate.c:1146-1287 | Over the input and not the window: the candidates are the inserted strings with the same hash, latest first. A match reported longer than the previous one is the nearest of those that agree longest among the candidates looked at, within the lookahead; only the budget, a match long enough, the end of the input or of the reach ends the search |
| HashChains.NextLonger | deps/zlib/deflate.c:1186-1280 | One more candidate: the best so far stays the nearest of the longest agreements |
| MatchChoice.Missed | deps/zlib/deflate.c:1146-1287 | A string in reach that agrees in more bytes than were found is passed over only if what was found is good enough or the budget went on strings with the same hash inserted after it |
| Deflate.DeflateState.Tally | deps/zlib/deflate.h:323-339 | One token is appended to those recorded and the full buffer reported |
| Deflate.DeflateState.FastStep | deps/zlib/deflate.c:1647-1710 | One token of deflate_fast: a literal only if no candidate looked at agrees in three bytes, otherwise the nearest longest match; the strings inserted are stated; the tokens go on standing for exactly the input up to the new position |
| Deflate.DeflateState.DeflateFast | deps/zlib/deflate.c:1626-1720 | One call of deflate_fast from any state between calls: the recorded tokens expand to exactly the input coded, distances within MAX_DIST, no input lost, and every one of them is chosen so, with as much input known as a match can use or all of it up to a flush; with room for the output the call does all that was asked for |
| Deflate.DeflateState.SlowStep | deps/zlib/deflate.c:1750-1835 | One step of lazy evaluation: the waiting match is recorded exactly if the next string has no longer one worth having, otherwise the waiting byte as a literal |
| Deflate.DeflateState.DeflateSlow | deps/zlib/deflate.c:1728-1851 | The same as for deflate_fast, every match and literal being chosen by lazy evaluation |
| Deflate.DeflateState.RleMatch | deps/zlib/deflate.c:1879-1899 | The run of the previous byte exactly as far as it goes, within 258 bytes and the lookahead; 0 only if it is shorter than three |
| Deflate.DeflateState.DeflateRle | deps/zlib/deflate.c:1859-1926 | The same for deflate_rle: every match is at distance one and of the whole run, every literal where the run is shorter than three |
| Deflate.DeflateState.FastForget | deps/zlib/deflate.c:929-936 | A full flush between calls of deflate_fast forgets all strings inserted and keeps the tokens standing for the input up to the same position |
| Deflate.DeflateState.SlowForget | deps/zlib/deflate.c:929-936 | The same for deflate_slow |
| Deflate.DeflateState.RleForget | deps/zlib/deflate.c:929-936 | The same for deflate_rle |
| Deflate.DeflateState.Deflate | deps/zlib/deflate.c:879-937 | One call of deflate with more input and any flush keeps the account of all input and the choice of every token; input after the first call with Z_FINISH is refused, and only that; a finished stream has all input coded; given room all input is taken, a flush codes all of it, and Z_FINISH finishes; a call that leaves input has at least recorded tokens |
| MatchChoice.LogAt | deps/zlib/deflate.c:1626-1926 | In a run so recorded every token, at the position that follows from those before it, is the one its strategy prescribes |
| MatchChoice.LogKeeps | deps/zlib/deflate.c:1674-1691 | What was inserted for a token can be matched by every later one, until a full flush |
| MatchChoice.NothingMissed | deps/zlib/deflate.c:1626-1722 | deflate_fast over a whole run: a string like the current one in more bytes than are recorded, in reach and inserted for any earlier token, is passed over only if the match recorded is good enough or the budget went on later strings with the same hash |
| DeflateRun.DeflateAll | deps/zlib/deflate.c:1626-1926 | Any run of calls with any input, splitting and flushes: the tokens stand for the input coded, and once the stream is being finished for all input supplied; each is the one the strategy chooses at its position; a call with Z_FINISH and room finishes the stream |
| DeflateRun.DeflateInflate | deps/zlib/inflate.c:825-1236 | Compressing in any calls, writing the tokens as blocks of any kinds and decompressing in any calls gives back the input and stops at the end of the stream |
| InflateCodes.EndFits | deps/zlib/inftrees.c:130-138 | If the lengths ask for no more than there is, the codes of every length fit it |
| InflateCodes.OneCode | deps/zlib/inftrees.c:75-98 | No bit buffer starts with two codes |
| InflateCodes.SomeCode | deps/zlib/inftrees.c:130-138 | If the lengths ask for all there is, every bit buffer starts with a code |
| TableLayout.PlacedFound | deps/zlib/inflate.c:1030-1047 | A symbol whose entries are in place is found by its code through at most one link, dropping exactly its length |
| TableLayout.SlotsDiffer | deps/zlib/inftrees.c:232-239 | No two symbols share a table entry |
| TableLayout.LinkFree | deps/zlib/inftrees.c:284-288 | Root entries with links hold no symbol |
| Inftrees.CheckLengths | deps/zlib/inftrees.c:130-138 | Rejects exactly the over-subscribed sets, and the incomplete ones other than a single one-bit code outside the code-length code |
| Inftrees.SortSymbols | deps/zlib/inftrees.c:140-147 | Symbols end up sorted by length, then number |
| Inftrees.Replicate | deps/zlib/inftrees.c:232-239 | The entry is written at every index with the given low bits and nowhere else |
| Inftrees.Increment | deps/zlib/inftrees.c:241-250 | Incrementing backwards turns the reversal of a code into the reversal of its successor |
| Inftrees.WidthFound | deps/zlib/inftrees.c:268-276 | The look-ahead over the counts finds a sub-table exactly as wide as the longest code under its root bits needs |
| Inftrees.InflateTable | deps/zlib/inftrees.c:32-306 | Accepts exactly the sets described; fails for space exactly when the table would have ENOUGH entries or more, a set that fills the space exactly included; otherwise every symbol is found by its code and nothing else is, and the size is that of the root table and the narrowest sub-tables |
| FixedCodes.CompleteRefused | deps/zlib/inftrees.c:278-282 | A complete distance code of thirty symbols whose table has exactly 592 entries: legal by RFC 1951, refused by the code |
| Inftrees.Decodes | deps/zlib/inftrees.c:106-305 | With a complete code every bit buffer is decoded, to the one symbol whose code it starts with |
| Inftrees.FindsCode | deps/zlib/inftrees.c:106-305 | A bit stream beginning with a code leads to its symbol, and dropping the bits leaves what follows the code |
| InflateBlocks.DecodesIdeally | deps/zlib/inftrees.c:106-305 | The table accepted decodes every bit buffer as the code lengths alone prescribe: the symbol whose code the buffer starts with, or an invalid code |
| FormatNumbers.ExtraCounts | deps/zlib/inftrees.c:63-73 | The numbers of extra bits are those of section 3.2.5 of RFC 1951 in closed form: four length codes, two distance codes for each |
| FormatNumbers.LengthTiles | deps/zlib/inftrees.c:60-65 | The ranges of the length codes follow each other from 3 to 258 without gap or overlap, 258 apart |
| FormatNumbers.DistanceTiles | deps/zlib/inftrees.c:66-73 | So do those of the distance codes, from 1 to 32768 |
| FormatNumbers.OneLengthPair | deps/zlib/inftrees.c:60-65 | Hence a length below 258 has one code and one value of its extra bits |
| FormatNumbers.OneDistancePair | deps/zlib/inftrees.c:66-73 | And so has every distance |
| FormatNumbers.OrderForm | deps/zlib/inflate.c:624-625 | The order in which the lengths of the code-length code are sent: the three repeats, 0, then 8 and outwards both ways |
| FormatNumbers.FixedValues | deps/zlib/inflate.c:274-289 | The fixed codes are those of section 3.2.6 of RFC 1951, value by value |
| KnownStreams.SampleRead | deps/zlib/inflate.c:825-1172 | Six bytes worked out by hand from RFC 1951, a fixed block of three literals and a match, are read as the six bytes they stand for |
| InflateElements.TablesSound | deps/zlib/inftrees.c:60-73 | The tables built give legal literals, lengths and distances, and each entry depends on no more bits than it drops |
| InflateElements.EnoughBits | deps/zlib/inflate.c:1030-1042 | A code recognised from the bits held so far is recognised from all of them |
| FixedCodes.FixedFit | deps/zlib/inflate.c:274-289 | The fixed codes of section 3.2.6 of RFC 1951 are accepted, with root tables of 9 and 5 bits that fill 512 and 32 entries |
| InflateState.Inflate.constructor | deps/zlib/inflate.c:119-137 | Nothing held, nothing put out, no window in use, tables empty: the start of a stream of blocks |
| InflateState.Inflate.PullByte | deps/zlib/inflate.c:486-494 | A byte moves from the input into the accumulator; the bits to come stay the same |
| InflateState.Inflate.NeedBits | deps/zlib/inflate.c:496-502 | Enough bits are held, or the input is used up |
| InflateState.Inflate.GetCode | deps/zlib/inflate.c:1030-1047 | Pulling bytes until the entry found needs no more reads exactly the symbol at the front, and never holds more than seven bits too many |
| InflateState.Inflate.Len | deps/zlib/inflate.c:1029-1068 | Resumable: the element in progress is unchanged; a stop means the input ends within the code |
| InflateState.Inflate.LenExt | deps/zlib/inflate.c:1069-1078 | Resumable: the element in progress is unchanged |
| InflateState.Inflate.Dist | deps/zlib/inflate.c:1079-1105 | Resumable: the element in progress is unchanged |
| InflateState.Inflate.DistExt | deps/zlib/inflate.c:1106-1121 | Resumable: the element in progress is unchanged; the distance is complete |
| InflateState.Inflate.FromWindow | deps/zlib/inflate.c:1147-1164 | A piece copied from the circular window equals the output at the distance |
| InflateState.Inflate.Reached | deps/zlib/inflate.c:1125-1136 | A call reaches back over its own output and as much of the output before it as the window can hold |
| InflateState.Inflate.MatchPiece | deps/zlib/inflate.c:1122-1166 | A copy, wrapped, split across calls or overlapping, continues out[i] = out[i - distance] byte by byte; it is refused exactly when it reaches back past what the call can reach, and then with all output up to there |
| InflateState.Inflate.Lit | deps/zlib/inflate.c:1167-1172 | One literal, or a stop for lack of room |
| InflateHeaders.TypeDo | deps/zlib/inflate.c:825-862 | Resumable: the rest of the stream keeps its meaning; the block type is dispatched, the last block leads to the trailer at the next byte boundary |
| InflateHeaders.StoredBlock | deps/zlib/inflate.c:863-875 | Resumable: the rest of the stream keeps its meaning; a length whose complement does not match is refused |
| InflateHeaders.CopyBlock | deps/zlib/inflate.c:877-895 | Resumable: the rest of the stream keeps its meaning, whatever part of a stored block is copied |
| InflateHeaders.TableBlock | deps/zlib/inflate.c:896-913 | Resumable: the rest of the stream keeps its meaning; too many symbols are refused |
| InflateHeaders.LenLens | deps/zlib/inflate.c:914-934 | Resumable between any two of the three-bit lengths: the rest of the stream keeps its meaning, the table of the code-length code included |
| InflateHeaders.CodeLens | deps/zlib/inflate.c:935-1016 | Resumable between any two lengths, repeats included: the rest of the stream keeps its meaning |
| InflateHeaders.BuildTables | deps/zlib/inflate.c:985-1014 | Succeeds exactly when the end of block has a code and neither set is refused; the tables then decode as the lengths prescribe |
| InflateHeaders.FixedTables | deps/zlib/inflate.c:260-301 | The tables built decode exactly the fixed codes |
| HistoryWindow.Wrapped | deps/zlib/inflate.c:409-424 | After a wrap-around write the window mirrors the last bytes of the output |
| InflateRun.UpdateWindow | deps/zlib/inflate.c:378-426 | The window holds exactly the last whave bytes of all output: everything, or as much as it has room for |
| InflateRun.Turn | deps/zlib/inflate.c:825-1172 | One turn of the loop in any mode preserves, on every stream, what the rest of it comes to in this call, and makes progress or stops |
| InflateRun.Decode | deps/zlib/inflate.c:825-1172 | All modes and the fast loop together run until the end of the stream, an error, the end of the input or lack of room, preserving that outcome |
| Inffast.CodeHeld | deps/zlib/inffast.c:121-131 | With fifteen bits held a code is read by at most two look-ups |
| Inffast.FastCopy | deps/zlib/inffast.c:186-281 | All window and output cases of the copy equal the byte-by-byte copy from the distance |
| Inffast.FastElement | deps/zlib/inffast.c:120-307 | One pass of the loop decodes one whole element from at most six bytes of input and into at most 258 of output, and leaves the meaning of the stream unchanged |
| Inffast.GiveBack | deps/zlib/inffast.c:309-313 | Returning unused whole bytes leaves the bits to come as they were |
| Inffast.InflateFast | deps/zlib/inffast.c:67-324 | The fast loop refines the single modes on every stream, sound or not: the same output, the same bits consumed, the same mode, the same answer of the call to copies from too far back; fewer than eight bits stay held |
| InflateRun.Leave | deps/zlib/inflate.c:1229-1236 | Leaving a call keeps the window a mirror of all output, unless the stream is at its end or in error and no window is in use |
| InflateRun.Call | deps/zlib/inflate.c:825-1236 | One call with any input, any room and with or without Z_FINISH preserves what the rest of the stream comes to when copies reach as far back as the window at its start, and stops only at the end, at an error, at the end of the input or for lack of room |
| InflateRun.Calls | deps/zlib/inflate.c:825-1236 | Any run of calls, however input and output are split, leads to the outcome of the stream, refused nowhere but at an error or at a byte copied from further back than the window |
| InflateRun.Delivered | deps/zlib/inflate.c:825-1236 | Of every stream the output is a prefix of what it holds; at its end it is all of that; at an error it is the output up to the error or to a copy from further back than the window; when the input ends too early it is all that can be decoded |
| InflateRun.InflateAll | deps/zlib/inflate.c:825-1236 | A fresh decoder fed any bits in any parts, with any output rooms, puts out what the format makes of the bits, in the sense just said |
| Outcomes.LeadsWithin | deps/zlib/inflate.c:1125-1136 | Where a call refuses a copy from further back than the window, the output is the front of what it would have been |
| Outcomes.KeepsAnswer | deps/zlib/inflate.c:1125-1136 | Steps within a call do not change what the call answers |
| InflateTokens.ReadToken | deps/zlib/inflate.c:1020-1121 | A coded token (section 3.2.5 of RFC 1951) is read as the token, whatever follows |
| InflateTokens.BlockDecodes | deps/zlib/inflate.c:1020-1172 | Tokens coded with any two codes, after any tokens before, are decoded to what all of them stand for |
| DeflateFormat.ReadItems | deps/zlib/inflate.c:935-985 | Code lengths sent in any mixture of plain lengths and the three repeats are read back, repeats across the border of the two sets included |
| DeflateFormat.ReadPlan | deps/zlib/inflate.c:896-1017 | Any sane choice of code-length code and repeats is read back as the two sets of lengths it was made for |
| DeflateFormat.ReadRaw | deps/zlib/inflate.c:863-895 | A stored block, padded from any bit position, is read back |
| DeflateFormat.FixedWritable | deps/zlib/inflate.c:260-301 | Whatever tokens a compressor records, the fixed codes can write them |
| DeflateFormat.StreamReads | deps/zlib/inflate.c:825-1172 | A stream of stored, fixed and dynamic blocks in any order, whatever follows it, is read as the data its blocks stand for, matches reaching back across blocks included |
| InflateRun.RoundTrip | deps/zlib/inflate.c:825-1236 | A fresh decoder fed the bits of any such stream in any parts, with any output rooms, puts out the data of the recorded tokens and nothing else, and stops at the end of the stream |

## Left out

- StreamDecode.Decompress: does not resume in the middle of a block when the input runs out; it stops there and reports that more input is needed, and decodes again from the start of the stream. After an error the bits consumed are not specified, and what the code does after a store past the selector arrays is not modelled
- StreamDecode.OutputBlock: refuses randomised blocks, which the encoder never writes; `deps/bzip2/randtable.c` is not part of this model
- HuffmanLengths.MakeCodeLengths: asks for a total frequency below 2^23, beyond which the weights of the C code overflow 32 bits, and for a limit that a tree of flattened weights is shown to keep to, as the loop does not end for limits too small for the alphabet; every block stays below the one and the callers pass 17
- MainSort.MainSort: keeps block and quadrants in arrays of their own instead of two views of one allocation, and the mark in bit 21 of a bucket start as an added 2^21
- BlockEncode.CompressBlock: appends to a list of bytes of its own; that it fits behind the block is proved by counting (`StreamEncode.EState.CompressBlock`)
- Deflate.DeflateState.Deflate: the output of blocks is not modelled: a parameter says whether the caller has ample room, and without it any full buffer may find no room; the refusal of a flush repeated without anything to do (Z_BUF_ERROR) is left out; strategy and level stay the same over a stream
- MatchChoice.Log: says which strings were inserted for the tokens before, and not that the two strings at the end of a call are inserted in the next; that is stated of the steps (`DeflateWindow.Window.InsertLeft`, `DeflateWindow.Window.EndRun`). A call that ran out of output room within the last three bytes of its input leaves their strings out for good, as the code does
- DeflateWindow.Window.ReadBuf: does not update the running checksum and the byte totals of the stream
- Inftrees.InflateTable: its callers provide room for the largest table, as inflate does
- InflateRun.Calls: which of the copies from further back than the window are refused is settled call by call (`InflateRun.Call`) and not for a whole run at once
- InflateRun.UpdateWindow: the window is allocated from the start, so that lack of memory does not occur
- InflateRun.RoundTrip: the stream is raw, without the header and trailer that modes HEAD to DICT and CHECK to DONE handle; which blocks, codes and repeats to use is a free choice, as `deps/zlib/trees.c`, which makes it, is not part of this model; every set of lengths chosen must be one that inflate_table accepts
- InflateRun.Call: flush is Z_FINISH or not; stopping at block borders (Z_BLOCK, Z_TREES) is not modelled
- InflateHeaders.FixedTables: builds the fixed tables for every block that uses them, instead of once or from `deps/zlib/inffixed.h`
- InflateHeaders.BuildTables: the decoding tables are kept as values read off the area they are built in, instead of pointers into it
- Inffast.InflateFast: a second link from a sub-table cannot occur in tables that are built, and following one is not modelled; the copies by threes are loops by ones
- Adler.Adler32, Crc32.Crc32Little: sixteen-fold and eightfold unrolled steps are loops
- Checking the trailer of a zlib or gzip stream, gzip headers, preset dictionaries, changing parameters in mid-stream, resynchronising and copying streams: many branches that compute little
- deflate_stored and deflate_huff: they record no matches
- Block splitting, tree construction and block emission of deflate: written by `deps/zlib/trees.c`, which is not part of this model; the deflate model ends at the recorded tokens
- Crc32.MakeCrcTable: the four byte-swapped tables and the big-endian CRC that uses them
- Deflate.DeflateState.Tally: how tokens are stored in d_buf and l_buf and the frequency counts beside them, which only `deps/zlib/trees.c` reads
- DeflateWindow.Window.MatchLength: comparison by words on machines that allow unaligned access
- File and stdio layers, allocation, progress printing, assembler variants and 16-bit machine branches
- The CRC table as literals in `deps/zlib/crc32.h`: the table is derived by the code that makes it
- `src/common`, `deps/gsoap` and `deps/SFMT`: getters, generated code and a random number generator
