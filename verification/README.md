# bzip2 and zlib, modelled in Dafny

Two compression libraries are vendored under `dep/`: bzip2 1.0.6 and zlib 1.2.7. This project
models the parts of them that rest on an argument, and proves what those parts promise.

**bzip2** is modelled in both directions, from the calls of `BZ2_bzCompress` to the calls of
`BZ2_bzDecompress`. Each stage of the format is a pair of modules whose round trip is a theorem:

| stage | compressing | decompressing |
|---|---|---|
| runs of bytes | `RleEncoder`, over `Rle` | `RleDecoder` |
| Burrows-Wheeler transform | `FallbackSort`, over `BucketSort` | `Bwt`, `SmallInverse`, `BlockOutput` |
| move to front, and runs of the front | `MtfEncoder`, over `Mtf` | `MtfDecoder`, over `MtfCache` |
| Huffman codes | `CodeLengths`, over `PackedTree` and `WeightHeap`; `TableChoice` | `HuffmanCodes` |
| bits | `Transmit`, `SendBlock`, over `BitIO` | `Parser`, `BlockDecoder`, over `BitIO` |
| streams and calls | `CompressBlock`, `Compressor` | `Unpack`, `Decompressor` |

`BlockFormat` gives the bits of a block, `Reading`, `ReadingTables` and `ReadingSymbols` show that
the decoder's machine reads them, and `BlockTrip` and `Stream` put the stages together. The main
theorem about compression is the contract of `BzCompress`: when any schedule of calls has ended the
stream, the bytes given out decode to the bytes taken in. The main theorem about decompression is
`DecompressInPieces`: a sound stream comes out whole however the caller divides it over calls.
`WholeStreams.RoundTrip` joins the two: what goes in on one side comes out on the other. Since both
sides could agree on a wrong format, `StreamStart`, `StreamBytes`, `RunDigits`, `BzCrc` and
`WorkedExamples` pin it with the bytes and numbers themselves.

The code lengths of both libraries rest on one argument, Huffman's, made once in `HuffmanCost`;
`HuffmanDepth` and `LengthCost` add why bzip2's trees are also as flat as a code of least cost can
be, so that it halves the frequencies only when it must.

**zlib** is modelled where it computes. Deflate's trees go from frequencies to lengths to codes
(`NodeHeap`, `Merges`, `MergeTree`, `BuildTree`, `DeflateLengths`, `DeflateCodes`, `DeflateTree`)
and cost least where they fit in the limit (`MergeCost`); inflate's tables decode exactly those
codes (`InflateSort`, `InflateEntries`, `InflateSize`, `InflateLoop`, `InflateTable`, over
`SortedCodes`); the trees themselves are sent and read back over the wire (`TreeLengths`,
`DynamicTrees`); matches are copied out of a circular window (`Window`); and the checksums combine
(`Crc32`, over `PolynomialDivision`, and `Adler32`).

Code that changes arrays and fields step by step is modelled by methods and classes that do the
same; the functions they are proved against, and the lemmas about those, carry the arguments.
`dafny verify dfyconfig.toml` checks everything.

## Where the code and its own words differ

- `inftrees.h` calls ENOUGH the largest number of entries that can be needed, but
  `inftrees.c:211-213` and `:279-282` refuse a table as soon as it has that many. `NoRoom` follows
  the code.
- `decompress.c:289-299` accepts up to 32767 selectors for arrays of 18002 (`bzlib_private.h:125`).
  The parser follows the code. `SelectorBounds` says exactly when the writes stay in bounds.
- `compress.c:135-140` says that there are no more MTF values than block values. With the end
  symbol there can be one more: `SymbolCount` gives an input and says exactly when. They still fit,
  as a value takes half the room of a pointer, and `GenerateMTFValues` shows that no pointer is
  overwritten before it is read.
- `bzlib.c:822-836` leaves a block whose CRC was wrong to be checked again by the next call, against
  the CRC finalised twice. The model does the same; `CheckedAgain` says when it then passes.
- `inftrees.c:117-125` makes a table for no codes at all whose entries are marked invalid, but
  `inflate.c:936-946` does not look at the mark: each bit then stands for a length of 0, until the
  missing end-of-block code is noticed. `DynamicTrees` follows the code.
- `adler32.c:78-86` subtracts 65521 once from each sum, so a single byte after a checksum that was
  not reduced may leave the second sum unreduced. `Adler` says exactly when.
- `decompress.c:261-264` accepts an origPtr of up to 10 bytes behind the largest block; the check
  against the block itself follows at `:491-492`. The model makes both.

## Model

| member | source | states |
|---|---|---|
| Compressor.EState.BzCompress | dep/bzip2/bzlib.c:407-464 | For every sequence of RUN, FLUSH and FINISH calls with any input and any room for output: the calls take a prefix of what is offered and give no more than the room; when the end of the stream is reported, all bytes given out decode to all bytes taken in; when a flush is over, every byte taken in is in a block; a call out of order changes nothing and says so; a finished stream refuses everything; a RUN reports progress exactly if something moved; a FLUSH or FINISH in order has done its work or has used all the room, so with room for a byte it gets on, and what it still has to do becomes less; every block that comes has at least 100000 * level - 19 bytes and at most 4 more, but for the last one of a FLUSH or FINISH whose input is used up; a RUN that fills no block produces nothing |
| WholeStreams.FlushAll | dep/bzip2/bzlib.c:442-450 | FLUSH calls repeated with what is left of the input end, with room for at least a byte each, and then all input is in blocks |
| WholeStreams.FinishAll | dep/bzip2/bzlib.c:452-461 | FINISH calls repeated likewise end, and the stream decodes to all input |
| WholeStreams.CompressInPieces | dep/bzip2/bzlib.c:407-464 | The stream is exactly its header, blocks and trailer; without a flush every block but the last is full, however the input is divided; it starts with BZh and the level, and for no input it is the 14 bytes that bzip2 gives |
| WholeStreams.RoundTrip | dep/bzip2/bzlib.c:407-464 | Whatever is compressed, in any pieces, some of them flushed, with any room at each call, and then decompressed in any pieces and in either memory mode, comes back |
| Compressor.EState.HandleCompress | dep/bzip2/bzlib.c:361-403 | The loop over the two states ends, leaves the whole account of blocks, pending run, written bytes and consumed bytes in order, closes a block only when it is full or when the announced input of a FLUSH or FINISH is used up, and reports progress exactly if a byte went in or out |
| Compressor.FewBytesNoBlock | dep/bzip2/bzlib.c:384-397 | Without a flush there is no block as long as four fifths of a block's bytes have not been taken in |
| Compressor.EState.EmitBlock | dep/bzip2/compress.c:602-667 | The block, with at most nblockMAX + 9 bytes in it, joins the account; the bytes in zbits never exceed what arr2 has left behind the block |
| RleEncoder.Gatherer.AddChar | dep/bzip2/bzlib.c:260-284 | What has been taken in, block and pending run together, grows by exactly this byte; neighbouring runs of one byte occur only where the first has 255; nblock grows by at most 5 |
| RleEncoder.Gatherer.AddPair | dep/bzip2/bzlib.c:216-247 | The pending run becomes one more pair of the block; the block bytes, the bytes in use and the CRC are again those of all pairs |
| RleEncoder.Gatherer.Flush | dep/bzip2/bzlib.c:251-256 | No run is pending afterwards and nothing taken in is lost |
| Rle.RleRoundTrip | dep/bzip2/bzlib.c:216-247 | The run-length decoder turns the block written for any runs of 1 to 255 bytes back into those runs, and ends exactly with the block |
| BzCrc.CheckValue | dep/bzip2/bzlib_private.h:157-171 | The CRC of the digits 1 to 9 is FC891918, and two blocks of it combine to 059B2B29 |
| BucketSort.SimpleSort | dep/bzip2/blocksort.c:32-59 | The slice is a permutation of what it was, sorted by class, and nothing outside it changes |
| BucketSort.QSort3 | dep/bzip2/blocksort.c:93-180 | The slice is a permutation of what it was, sorted by class; for slices below 2^31 the explicit stack never reaches the bound of assertion 1004, because the larger part is pushed first |
| FallbackSort.DoublingPass | dep/bzip2/blocksort.c:259-313 | From buckets sorted by the first H bytes to buckets sorted by the first 2H, the headers marking exactly the new buckets; no bucket left to split means that every row is a header |
| FallbackSort.Sort | dep/bzip2/blocksort.c:212-329 | fmap ends as a permutation sorted by whole cyclic rotations, periodic blocks included, and the block's bytes are rebuilt |
| FallbackSort.FindOrigPtr | dep/bzip2/blocksort.c:1083-1088 | The row of rotation 0 is found for every permutation, so assertion 1003 cannot fail |
| Bwt.InverseSpellsBlock | dep/bzip2/compress.c:163-167 | The last column of any rotation-sorted order, whatever order equal rotations were given, is walked back to exactly the block from the row of rotation 0 |
| Mtf.MakeMapsE | dep/bzip2/compress.c:106-115 | The bytes in use are counted and numbered in order |
| Mtf.MakeMapsD | dep/bzip2/decompress.c:27-36 | The bytes in use are listed in order |
| Mtf.MtfRoundTrip | dep/bzip2/compress.c:120-231 | For every column over the bytes in use, the decoder's run and move-to-front rules turn the symbols back into the column and stop at the end symbol with no error, so the guard on N never refuses what the encoder wrote |
| RunDigits.RunsSpell | dep/bzip2/compress.c:172-186 | The run symbols for z, least first, are the digits 1 and 2 of z in base 2 |
| RunDigits.RunsRead | dep/bzip2/decompress.c:386-411 | The decoder reads up to 21 run symbols as that number, and refuses more of them |
| MtfEncoder.GenerateMTFValues | dep/bzip2/compress.c:120-231 | The symbols written over the row pointers, two to a pointer, are those of the last column: no pointer is overwritten before it is read |
| SymbolCount.NoMoreThanBytes | dep/bzip2/compress.c:135-140 | A block has no more MTF values than bytes if and only if some byte stands three times in a row in its column with the first byte in use put before it |
| SymbolCount.OneByteTwoValues | dep/bzip2/compress.c:228-230 | A block for which it has more: one byte gives RUNA and the end symbol |
| MtfEncoder.PointersKept | dep/bzip2/compress.c:165 | Writing no further than wr <= i leaves every pointer from row i + 1 on alone |
| MtfEncoder.MoveToFront | dep/bzip2/compress.c:189-207 | The shifting loop finds the place of the byte in the list and moves it to the front |
| WeightHeap.DownHeap | dep/bzip2/huffman.c:44-59 | Moving entries over a hole gives the exchange form, which keeps the heap's order and content |
| CodeLengths.DeepIsHeavy | dep/bzip2/huffman.c:63-148 | A node deeper than maxLen forces a Fibonacci number of weight into the tree |
| CodeLengths.TreeKraft | dep/bzip2/huffman.c:124-133 | The depths of the leaves of a merged tree meet Kraft's inequality with equality |
| LengthCost.LeavesOptimal | dep/bzip2/huffman.c:100-120 | The depths in a tree that always joins the two lightest packed weights cost least, and are no deeper than those of any code that costs as little |
| HuffmanDepth.MergeFlattest | dep/bzip2/huffman.c:28-33 | Joining the two least nodes by weight and then height keeps the flattest of the codes of least cost the flattest |
| CodeLengths.MakeCodeLengths | dep/bzip2/huffman.c:63-148 | For every frequency vector adding up to less than 2^23 the rescaling loop ends, with all lengths in 1..maxLen and a Kraft sum of exactly 1. The lengths cost least of all codes for the frequencies, halved as often as the loop did, and before each halving no code of least cost kept within maxLen. The depths packed in the low 8 bits never overflow |
| CodeLengths.SettledAtOnce | dep/bzip2/huffman.c:113-122 | If some code of least cost for the frequencies keeps within maxLen, the lengths are one |
| CodeLengths.SeventeenBitsSuffice | dep/bzip2/compress.c:447-451 | bzip2's own limits, 258 symbols and 17 bits, meet the condition for that |
| HuffmanCodes.AssignCodes | dep/bzip2/huffman.c:152-166 | Every code is the first code of its length plus the number of earlier symbols of that length |
| HuffmanCodes.CreateDecodeTables | dep/bzip2/huffman.c:170-200 | limit, base and perm are those the lengths call for |
| HuffmanCodes.PrefixFree | dep/bzip2/huffman.c:152-166 | For lengths whose Kraft sum is at most 1, no code word is a prefix of another |
| HuffmanCodes.DecodeExact | dep/bzip2/decompress.c:74-102 | The limit/base/perm search finds symbol i and leaves the rest if and only if the bits are i's code word followed by the rest |
| BitIO.Writer.Put | dep/bzip2/compress.c:73-78 | The n low bits of v follow everything written, whatever is still held in the buffer |
| BitIO.Writer.Finish | dep/bzip2/compress.c:46-54 | The bytes spell everything written and fewer than 8 zeros |
| BitIO.Reader.GetBits | dep/bzip2/decompress.c:43-65 | The next n bits in order, or, exactly when fewer have been supplied, a return that loses none of them |
| TableChoice.ChooseTables | dep/bzip2/compress.c:252-452 | The number of tables follows the thresholds on the number of symbols. From an initial partition into equal shares, four rounds: each group of 50 symbols takes the first of its cheapest tables, and every table gets the lengths that MakeCodeLengths promises for the exact counts of the groups that took it |
| TableChoice.OneCheapTable | dep/bzip2/compress.c:276-319 | In the initial tables every symbol costs 0 in exactly one and 15 in the others |
| TableChoice.PackedCosts | dep/bzip2/compress.c:359-391 | Summing the costs of two tables in the halves of one 32-bit word gives both costs |
| SendBlock.SendMTFValues | dep/bzip2/compress.c:240-598 | What is written is the map, selectors, lengths and codes of a sendable block, with tables and selectors chosen by the four rounds, and at most 18002 selectors, as assertion 3003 has it |
| SendBlock.PutBlock | dep/bzip2/compress.c:630-653 | The block's magic, CRC, randomisation bit, origPtr and body, in that order, with tables and selectors chosen by the four rounds |
| WorkedExamples.HelloBlock | dep/bzip2/compress.c:480-653 | A worked example: the 209 bits of a block of hello, with lengths that go down and up and all fields at their widths |
| BlockSize.BlockBitsBound | dep/bzip2/compress.c:630-653 | The bits of a sendable block of n bytes, bounded by 17-bit codes, 5-bit selectors and the largest tables |
| BlockSize.BlockFits | dep/bzip2/compress.c:619 | That bound, with stream header, trailer and held-over bits, is below the room in arr2 behind the block |
| ReadingSymbols.ReadsBlock | dep/bzip2/decompress.c:190-486 | The decoder's machine reads the bits written for a block as the same map, selectors, lengths and symbols, up to the block's last column |
| BlockTrip.BlockRoundTrip | dep/bzip2/decompress.c:190-576 | The bits of a sorted block deliver a last column and origPtr that unwind to exactly the block |
| CompressBlock.Compress | dep/bzip2/compress.c:602-653 | Sort, symbols and tables together: every nonempty block of up to 100000 * level bytes is written as bits that deliver it |
| Parser.ParseResumes | dep/bzip2/decompress.c:167-191 | Reading s + t is reading s as far as it goes and then the bits left over with t |
| BlockDecoder.DState.Step | dep/bzip2/decompress.c:43-65 | One GET_BITS and the code after it, on the saved fields, move the state along Parse; without enough input nothing is lost |
| BlockDecoder.DState.Decompress | dep/bzip2/decompress.c:106-641 | Until an error has been reported, a call ends where Parse of all unread bits ends: at a wait for input, a block's last column, an error or the end, whatever calls came before |
| MtfCache.Cache.Init | dep/bzip2/decompress.c:358-370 | The initial layout is the list 0..255 |
| MtfCache.Cache.Take | dep/bzip2/decompress.c:423-475 | The 16-line cache behaves as one list of 256 bytes: entry n is returned and moved to the front, also when the lines are laid out again |
| MtfDecoder.BlockReader.OnSym | dep/bzip2/decompress.c:375-486 | A symbol changes the array, the counts and the cache as the plain decoder on lists does, with the same data errors |
| SelectorBounds.EntriesWritten | dep/bzip2/decompress.c:289-300 | Over all inputs, the entries of selectorMtf that are written are exactly those below nSelectors |
| SelectorBounds.SelectorsInBounds | dep/bzip2/decompress.c:289-300 | All writes stay within selectorMtf if and only if nSelectors is at most 18002 |
| SelectorBounds.WritesEntry | dep/bzip2/decompress.c:190-300 | For any number of selectors and any entry below it, a stream, given from its first bit, that takes the decoder to where one more 0 writes that entry |
| SelectorBounds.OneTooMany | dep/bzip2/decompress.c:190-300 | The stream for which the writes leave the array, from its first bit: 18003 selectors, all zero |
| Bwt.BuildCftab | dep/bzip2/decompress.c:494-516 | The checks pass exactly for natural counts that add up to at most the block, and then cftab holds the prefix sums |
| Bwt.ComputeTt | dep/bzip2/decompress.c:559-564 | The upper bits of each entry become T^(-1), the low 8 keep the last column |
| SmallInverse.ReverseCycle | dep/bzip2/decompress.c:536-545 | Pointer reversal ends, and the cycle through origPtr then holds T^(-1), for every last column |
| SmallInverse.IndexIntoF | dep/bzip2/bzlib.c:687-698 | The binary search finds the byte whose rows include the index |
| SmallInverse.EmitSmall | dep/bzip2/bzlib_private.h:475-479 | The low-memory form gives, for every origPtr, the bytes of the walk over the last column; its guard never fires |
| SmallInverse.EmitFast | dep/bzip2/bzlib_private.h:444-449 | The fast form gives the same bytes |
| BlockOutput.StartEither | dep/bzip2/decompress.c:488-576 | From the array and the counts that the symbols left, either inverse is set up so that all of the block's text is still to be written |
| RleDecoder.Output.UnRleFast | dep/bzip2/bzlib.c:591-681 | With any room: what is written is a prefix of what is left, the CRC covers it, and the call stops only with the room full, the block finished, or on data that is no run-length code; that is reported exactly if the data is so and the room holds all that is left, and then nothing has been given and no field has changed |
| RleDecoder.Output.UnRleSmall | dep/bzip2/bzlib.c:706-804 | The same of the low-memory form, which reports corrupt data exactly if there is room for more than what is left, and has given what was left |
| Decompressor.DStream.BzDecompress | dep/bzip2/bzlib.c:808-858 | Until BZ2_decompress has reported an error, a call moves the stream along what is still to come, giving exactly the next bytes of it; OK means room full or input used up, the end means that nothing more will come; a data error means that no continuation of the input was sound when the call was made, and what has been given is all that was to come, or in the fast mode the beginning of it; the error is that of a wrong magic exactly if the bytes supplied so far, over all calls, already differ from 42 5A 68 and a digit from 31 to 39 |
| StreamStart.PlacedOn | dep/bzip2/decompress.c:195-208 | Reading on from any place leaves it at a wrong magic exactly if some byte has been read that no stream has there |
| Decompressor.CheckedAgain | dep/bzip2/bzlib.c:824-836 | After a wrong block CRC has been reported, the next call finalises the CRC once more, and accepts the block if and only if the register itself is what was stored |
| Decompressor.DecompressInPieces | dep/bzip2/bzlib.c:808-858 | A sound stream comes out whole, for every division of its bytes into pieces and every schedule of output room, in both memory modes |
| Unpack.DecodesAlike | dep/bzip2/bzlib.c:808-858 | Decoding block by block at once, and what the calls put out until the end, are the same |
| StreamBytes.BlockOrEnd | dep/bzip2/decompress.c:224-244 | Six bytes where a block may start are 31 41 59 26 53 59 for a block, 17 72 45 38 50 90 for the end, or an error |
| Stream.StreamRoundTrip | dep/bzip2/compress.c:602-667 | A stream header, any sound blocks and the trailer with their combined CRC decode to the text of the blocks, and leave what follows |
| NodeHeap.PqDownHeap | dep/zlib/trees.c:453-476 | The heap property is restored from the node on, the nodes stay the same and nothing outside the heap changes |
| NodeHeap.Merge | dep/zlib/trees.c:667-686 | The two nodes taken are the least by frequency and depth; they are exchanged for one that weighs what they do, in a heap again |
| BuildTree.MergeAll | dep/zlib/trees.c:657-690 | The tree's nodes come out with parents before children and exactly the given leaves, it has the sibling property (weights never rise from the root on, siblings stand together, a father weighs what its sons do), and no code for the leaves costs less than their depths |
| HuffmanCost.MergeBest | dep/zlib/trees.c:662-688 | Huffman's step: lengths that cost least after the two least nodes are joined cost least before, among all codes with a Kraft sum of at most 1 |
| DeflateLengths.FirstPass | dep/zlib/trees.c:505-527 | The count of overflowing nodes is twice the Kraft excess, so the counts can be repaired |
| DeflateLengths.LeafToMove | dep/zlib/trees.c:533-544 | While there is overflow, some code is shorter than the limit, some has it, and the overflow is at least 2 |
| DeflateLengths.Repair | dep/zlib/trees.c:533-544 | The repair always finds a leaf to move, keeps every count non-negative and ends with a Kraft sum of exactly 1 |
| DeflateLengths.GenBitLen | dep/zlib/trees.c:488-565 | Every leaf ends with a length in 1..limit, bl_count[b] is the number of leaves of length b, the Kraft sum is exactly 1 and the loop consumes exactly the leaves; in a tree nowhere deeper than the limit every length is the depth, and in any other the lengths never fall along the order of the nodes from the root on |
| DeflateCodes.BiReverse | dep/zlib/trees.c:1152-1162 | The bits of the code in reverse order |
| DeflateCodes.GenCodes | dep/zlib/trees.c:575-607 | Every symbol's stored code, sent least bit first, is its canonical code of section 3.2.2 of RFC 1951 |
| WorkedExamples.ExampleCodes | dep/zlib/trees.c:575-607 | The example of section 3.2.2 of RFC 1951: lengths 3, 3, 3, 3, 3, 2, 4, 4 get the codes 010 to 110, 00, 1110 and 1111 |
| DeflateCodes.CodesPrefixFree | dep/zlib/trees.c:575-607 | The codes fit their lengths and none is a prefix of another |
| DeflateCodes.LastCodeAllOnes | dep/zlib/trees.c:588-595 | The consistency check of gen_codes always holds for a complete code |
| DeflateTree.BuildCodes | dep/zlib/trees.c:617-699 | For every frequency vector: every symbol that occurs gets a code, no other does if two or more occur, and the codes are complete, within the limit and canonical; no symbol gets a longer code than a less frequent one; if no depth in the merged tree exceeds the limit, the sum of frequency times length is the least of all codes |
| SortedCodes.SomeWord | dep/zlib/inftrees.c:130-136 | Every string as long as the longest code begins with a code word, if the code is complete |
| InflateEntries.BackIncrement | dep/zlib/inftrees.c:242-252 | The backwards increment counts on in reversed codes |
| InflateEntries.SubTableBits | dep/zlib/inftrees.c:268-276 | The look-ahead gives a sub-table large enough for all codes that share the root index, and no larger than while their codes left room |
| InflateSize.SizeIs | dep/zlib/inftrees.c:268-276 | The bits of a sub-table are exactly those by which the longest code with its root index goes beyond the root |
| InflateTable.Build | dep/zlib/inftrees.c:32-306 | -1 exactly for lengths that are neither empty, complete, nor a single one-bit code of the kinds that may be; 1 exactly if the root table and the sub-tables that the codes need come to ENOUGH entries or more; 0 comes with a table of exactly that size in which every bit string finds its code through the root table and at most one sub-table; the root index has the bits asked for, if they are within the shortest and the longest code, and where they reach the longest there are no sub-tables |
| InflateTable.LookupExact | dep/zlib/inflate.c:1030-1048 | The lookup finds symbol i, using its length, if and only if the bits begin with i's reversed code |
| InflateTable.SymbolsComeBack | dep/zlib/trees.c:575-607 | Any symbols sent with deflate's codes come back from inflate's tables, with the rest of the bits left over |
| TreeLengths.SendTree | dep/zlib/trees.c:750-795 | The tokens sent are those of the runs of the lengths |
| TreeLengths.ScanTree | dep/zlib/trees.c:705-744 | What is added to the frequencies are the codes of the tokens that will be sent |
| TreeLengths.TwoTreesRoundTrip | dep/zlib/inflate.c:935-981 | The tokens of both trees expand to both arrays in one, runs never crossing between them, and nothing more is read |
| DynamicTrees.CountToSend | dep/zlib/trees.c:816-822 | At least 4 bit length codes are sent, no code in use is left behind, and if there are more than 4 the last is in use |
| DynamicTrees.SendAllTrees | dep/zlib/trees.c:836-860 | The bits put out are the counts less 257, 1 and 4 in 5, 5 and 4 bits, from bit 14 on the bit length codes' lengths in three bits each, that of code c at 14 + 3 * r with r = c - 16, 3, 2 * (c - 8) + 4 or 2 * (7 - c) + 5, and both trees in codes and extra bits |
| DynamicTrees.SendDynamic | dep/zlib/trees.c:801-860 | For all literal and distance lengths with an end-of-block code, every token gets a code of at most 7 bits and the header can be sent |
| DynamicTrees.ReadCodeLens | dep/zlib/inflate.c:935-981 | The loop over the wire, through the table: all lengths, an invalid repeat or a want of bits exactly as the code of the bit lengths has it |
| DynamicTrees.ReadTrees | dep/zlib/inflate.c:895-991 | The header is read as its definition over bits says: counts out of range, bit length codes that are no code, bad repeats and a missing end-of-block code are turned down |
| DynamicTrees.TakenAsLaidOut | dep/zlib/inflate.c:895-932 | Trees are taken only from bits laid out as SendAllTrees lays them out, each length of a bit length code from its own three bits, those not sent being 0 |
| DynamicTrees.RepeatLaw | dep/zlib/inflate.c:949-970 | On the wire code 16 and two bits repeat the last length 3 to 6 times, code 17 and three bits stand for 3 to 10 zeros, code 18 and seven bits for 11 to 138 |
| DynamicTrees.HeaderComesBack | dep/zlib/inflate.c:895-991 | Both trees sent over the wire are read back bit for bit, and what follows is left |
| DynamicTrees.SendAndRead | dep/zlib/trees.c:836-860 | Both ends together, from any trees to the same trees |
| Window.State.Update | dep/zlib/inflate.c:378-426 | The circular window goes on holding the last bytes of the whole output history |
| Window.State.Match | dep/zlib/inflate.c:1122-1166 | A match is refused exactly if it reaches too far back; otherwise the bytes are those of byte-by-byte copying from the full history, in as many portions as the room makes |
| Window.State.FastMatch | dep/zlib/inffast.c:186-281 | The three window cases of the fast copy give the same bytes |
| Crc32.Bytewise | dep/zlib/crc32.c:204-236 | The unrolled loop over table entries made by the generator computes the register bit by bit |
| Crc32.IsRemainder | dep/zlib/crc32.c:58-89 | The CRC is the complement of the remainder, by the polynomial with the terms 26, 23, 22, 16, 12, 11, 10, 8, 7, 5, 4, 2, 1 and 0 under x^32, of the message with its first 32 bits complemented and 32 zeros behind it |
| Crc32.Wordwise | dep/zlib/crc32.c:247-278 | Four tables and a word at a time give the same CRC at any alignment |
| Crc32.CrcContinues | dep/zlib/crc32.c:204-236 | A CRC started from that of x goes on to that of x + y |
| Crc32.MatrixSquare | dep/zlib/crc32.c:344-352 | Squaring the operator for z zero bits gives the one for 2z |
| Crc32.CombineCrc | dep/zlib/crc32.c:355-408 | The loop applies exactly 8 * len2 zero bits to crc1 and adds crc2 |
| Crc32.CombineStrings | dep/zlib/crc32.c:355-408 | Combining the CRCs of any two strings gives the CRC of the two together |
| Adler32.Mod63Mod | dep/zlib/adler32.c:45-57 | The shifting form is the remainder for every non-negative 63-bit number |
| Adler32.ModMod | dep/zlib/adler32.c:40-44 | The shifting form is the remainder for every 32-bit number |
| Adler32.NoOverflow | dep/zlib/adler32.c:15-16 | NMAX bytes cannot overflow 32 bits, even from sums that are not reduced |
| Adler32.Adler | dep/zlib/adler32.c:65-133 | From any checksum and on every buffer, deferring the remainders gives the per-byte sums up to the remainder; both sums come out reduced, if and only if the buffer is not a single byte or the second sum has room for it |
| Adler32.CombineStrings | dep/zlib/adler32.c:136-162 | Combining the checksums of any two strings gives that of the two together |

## Left out

- mainSort, mainQSort3 and mainGtU (`blocksort.c:345-1011`): `CompressBlock.SortBlock` always runs the fallback sorter. Whatever order another sorter gives to equal rotations, `InverseSpellsBlock` covers it.
- Randomised blocks (`decompress.c:549-552`, `:568-571`, `bzlib.c:540-588`, `:712-757`): the encoder never writes them. `BzDecompress` stops with a result of its own, `NotFollowed`, when it meets one, and `Stream.Decompress` accepts none.
- Stream.StreamRoundTrip: says nothing about several streams one after another; that loop is in `BZ2_bzRead`, which is file handling.
- Allocation, verbosity, the totals in `total_in` and `total_out`, and the file functions of `bzlib.c`.
- Decompressor.DStream.BzDecompress: is not followed past an error that BZ2_decompress reports. The source would go on at the GET_BITS it had reached, with whatever its locals then hold; its callers are to end the stream. Calls after a wrong block CRC or broken runs are followed.
- BlockDecoder.DState.Decompress: likewise.
- Decompressor.DStream.constructor: the array `tt` is there at its largest size from the start, and each block gets fresh decoding tables, low nibbles and run state, where the source reuses one allocation.
- BucketSort.QSort3: the stack is a sequence of pairs, and the bucket header bits are an array of `bool`, not 32 to a word.
- Bwt.ComputeTt: an OR of disjoint bits is an addition, here and in the bit buffers.
- SendBlock.SendMTFValues: the unrolled loops for groups of exactly 50 symbols are plain loops over the group; `mtfFreq` is counted in a pass of its own.
- SelectorBounds.SelectorsInBounds: what a write behind `selectorMtf` would do is not modelled; the parser's list of selectors simply grows.
- DeflateTree.BuildCodes: `opt_len`, `static_len`, 16-bit frequencies and 8-bit depths, and the extra bits of lengths and distances. Where the tree is deeper than the limit, the source repairs the lengths by a rule of thumb, and nothing is said of their cost.
- InflateTable.Build: entries are values (a code, a link or an invalid mark) instead of op, bits and val with the base tables; the table is a sequence that grows by sub-tables, and an entry never written is an invalid mark. That the lengths deflate sends never need ENOUGH entries is not stated: it rests on a search outside the repository.
- TreeLengths.SendTree: gives the tokens; `DynamicTrees.SendTokens` puts them on the wire, without the 16-bit buffer of `send_bits`.
- DynamicTrees.ReadTrees: reads from all bits at hand; that inflate saves its place when they run out, and the literal and distance tables it builds next, are not part of it.
- Adler32.CombineAdler: combines checksums whose sums are reduced.
- Crc32.Wordwise: the big-endian form and the unrolling by eight words.
- Window.State.Match: the option that lets invalid distances read zeros.
- The rest of zlib: headers and dictionaries of `inflate.c`, `deflate.c` and its matching, stored and fixed blocks, `infback.c`, `gz*.c`, the utility wrappers.
- The rest of the repository: the game server's other libraries.
