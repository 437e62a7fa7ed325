# BusyBox applets: gzip, lzop, factor, dpkg, expr and tail

A Dafny model of the parts of six BusyBox applets that compute, with proofs of what they
promise. `dafny verify dfyconfig.toml` checks everything.

**gzip** (`Gzip` downwards). The compressor as a whole: the sliding window with its hash chains
and lazy matching (`Hash`, `Chains`, `WindowEnd`, `Matching`, `Deflating`), the token buffers (`Tokens`, `Tally`,
`Compress`), the heap, the Huffman trees, their optimality and the limiting of lengths (`Heap`, `Forest`,
`BuildTree`, `TreeCost`, `Optimality`, `PrefixCodes`, `BitLengths`, `CountRepair`, `LengthRepair`, `HuffmanCode`), canonical
codes (`Codes`), the run-length code of code lengths (`CodeLengths`), the code tables (`Tables`), the choice
among stored, static and dynamic blocks with exact bit accounting (`BlockCost`, `BlockTrees`, `BlockHeader`,
`BlockSize`, `Block`) and the bit sink (`BitSinks`). `Inflate` is a decoder written independently from
section 3.2 of RFC 1951, and `Reading` and `BlockRead` connect the two: what the compressor writes, the
decoder reads back as the input.

**lzop** (`Lzo`, `LzoCompress`, `LzoRewrite`, `LzoTidy`, `LzoOptimize`, `Adler`). How the best compression level writes
what its search chooses; the in-place optimiser of LZO1X streams, which keeps what a stream decodes to and leaves
no match that should have become literals; the Adler-32 checksum with its modulo delayed.

**factor** (`Wheel`, `Factor`, `Factorize`). The packed wheel, trial division and recursion on squares.

**dpkg** (`Strings`, `Probing`, `DpkgTables`, `DpkgVersion`, `DpkgOrder`, `DpkgEdges`, `DpkgLines`, `DpkgStatus`,
`DpkgDeps`, `DpkgMeaning`). The three hash tables, the order of versions, reading the status file into the tables, the
dependency pass, and what a written line of dependencies comes to.

**expr** (`Expr`, `ExprLaws`). Evaluation along the arguments agrees with the evaluation of trees, and the operators
have the values they should.

**tail** (`Tail`). What is kept of, or passed on from, input that cannot be sought.

State that the programs keep in globals and update in place is kept in classes and arrays; every method is
proved against a function of its inputs or of the old state, and the lemmas are about those functions.

## Model

| member | source | states |
|---|---|---|
| `Gzip.Zip` | packages/busybox/source/archival/gzip.c:2064-2105 | for every input, every way the reads split it, every search setting and every choice of block ends, the output is one gzip member that a reader written from section 2.3 of RFC 1952 reads back as exactly the bytes read, with checksum and size; its ten bytes of header are deflate, no flags, no time, 2 or 0 as the level is the slowest or not, and 3 for Unix; the assertion of longest_match fails, and the search leaves the window, only if the number of bytes read is one of those `MayBeShort` and `MayLeave` list, and for every such number there is an input with which it does |
| `Gzip.MemberReads` | packages/busybox/source/archival/gzip.c:2064-2105 | header, compressed data padded to a byte, complemented checksum and size make a member that reads back as the data |
| `Deflating.Deflater.Deflate` | packages/busybox/source/archival/gzip.c:1810-1912 | the bits sent decode, by a decoder written from section 3.2 of RFC 1951, to exactly the bytes read, across window slides and blocks, and the output ends on a byte boundary |
| `Inflate.CopyIsInput` | packages/busybox/source/archival/gzip.c:1854-1856 | a match in the input, played by a decoder byte by byte (overlap included), reproduces the input |
| `Deflating.BlockSent` | packages/busybox/source/archival/gzip.c:1788-1794 | whole blocks followed by one more block are whole blocks, and after the final one decoding ends with all the data |
| `Deflating.Deflater.Step` | packages/busybox/source/archival/gzip.c:1818-1899 | one round of the lazy matching loop: everything before strstart (less a pending byte) is sent or tallied, a pending match is a match in the input, and the match at strstart becomes the pending one exactly if there is none or it is longer, otherwise strstart moves behind the pending one; a search that is made finds no less, from four bytes on, than the latest string of equal hash gives |
| `Deflating.Deflater.EmitMatch` | packages/busybox/source/archival/gzip.c:1854-1879 | the previous match goes out as a token that stands for the input at its place, all its strings are inserted, and the block is flushed when the buffer asks for it |
| `Deflating.Deflater.Flush` | packages/busybox/source/archival/gzip.c:1788-1794 | a flushed block carries a decoder from everything before block_start to everything before strstart, stored from the window only while the block is still in it |
| `Matching.Matcher.FillWindow` | packages/busybox/source/archival/gzip.c:641-688 | sliding and reading keep the window equal to the input and the hash chains intact, and read at least one byte or set eofile; positions in the input do not move |
| `Matching.Matcher.Slide` | packages/busybox/source/archival/gzip.c:655-680 | the slide moves every position down by WSIZE with the window, match_start possibly to -1 |
| `Matching.Matcher.FillWindowIfNeeded` | packages/busybox/source/archival/gzip.c:691-695 | afterwards at least MIN_LOOKAHEAD bytes are ahead or the input is at its end |
| `Matching.Matcher.InsertString` | packages/busybox/source/archival/gzip.c:1803-1808 | inserts the string at strstart; the head returned, which is also linked to it, is the latest position with its hash, whose real string has the same hash |
| `Matching.Matcher.LongestMatch` | packages/busybox/source/archival/gzip.c:710-784 | returns prev_length with match_start untouched, or a longer length for an earlier position within MAX_DIST whose bytes equal those at strstart; no string tried repeats for longer, and unless a match is nice those tried are the strings of the chain, the latest first, that are near enough, as many as max_chain_length or a quarter of it allows |
| `Matching.Matcher.Candidate` | packages/busybox/source/archival/gzip.c:739-760 | the third byte is never compared, yet every candidate that passes repeats the string at strstart for the length found |
| `Matching.Matcher.Compare` | packages/busybox/source/archival/gzip.c:762-772 | the comparison unrolled eight times, with the limit checked only every eighth byte, finds equal bytes up to at most 258 |
| `Matching.Matcher.Search` | packages/busybox/source/archival/gzip.c:1826-1850 | a match longer than prev_length, cut to the lookahead and not discarded as too far, is a match in the input; of the strings tried none is longer as far as the lookahead goes, and a match of three bytes lies within TOO_FAR |
| `Matching.Matcher.LmInit` | packages/busybox/source/archival/gzip.c:1927-1958 | the window is filled, the chains are empty and the running hash is ready for position 0 |
| `Matching.Matcher.CheckLookahead` | packages/busybox/source/archival/gzip.c:736 | the failure of the assertion is recorded; the state stays valid because it fails only after the end of the input, with more than 65275 bytes in the window |
| `Matching.Matcher.Look` | packages/busybox/source/archival/gzip.c:713-770 | a byte compared past the window is recorded; the state stays valid because that happens only after the end of the input, with more than 65278 bytes in the window |
| `Matching.Matcher.InsertAndSearch` | packages/busybox/source/archival/gzip.c:1803-1850 | inserting and searching together; in a run of zeros the match is as long as can be, and from a strstart too near the end of the window the assertion fails and the search leaves the window |
| `WindowEnd.MayBeShort` | packages/busybox/source/archival/gzip.c:736 | the assertion can fail exactly for inputs of at least 65276 bytes whose length modulo 2^15 is 32508 to 32766: those that end with more than WINDOW_SIZE - MIN_LOOKAHEAD + 1 bytes in the window and room for a read |
| `WindowEnd.MayLeave` | packages/busybox/source/archival/gzip.c:713-770 | the search can leave the window exactly for inputs of at least 65279 bytes whose length modulo 2^15 is 32511 to 32766 |
| `WindowEnd.LeftIs` | packages/busybox/source/archival/gzip.c:641-688 | the length of the input alone tells how much of it is in the window at the end, since slides move by WSIZE |
| `WindowEnd.NoRepeat` | packages/busybox/source/archival/gzip.c:1820-1850 | no three bytes repeat in the lead-in of the inputs that make the search leave the window, so the loop goes through it byte by byte |
| `Deflating.Deflater.StepOnTrack` | packages/busybox/source/archival/gzip.c:1818-1899 | with such an input every round takes the step the schedule says: a literal in the lead-in, a match of 258 zeros found, the match put out, and at the end a search from beyond the last safe strstart |
| `Deflating.Deflater.FillOnTrack` | packages/busybox/source/archival/gzip.c:691-695 | with such an input filling the window keeps to the schedule, slides included, and no slide is left when the end is found |
| `Chains.InsertKeeps` | packages/busybox/source/archival/gzip.c:1803-1808 | inserting the next string keeps every head and every link on strings of equal hash, strings beyond the end of the input excepted |
| `Chains.SlideKeeps` | packages/busybox/source/archival/gzip.c:667-677 | lowering every head and link by WSIZE, or to 0, keeps the chains for the slid window |
| `Chains.MoreInputKeeps` | packages/busybox/source/archival/gzip.c:681-688 | reading more keeps the chains as long as every inserted string was complete |
| `Hash.Forgets` | packages/busybox/source/archival/gzip.c:1774 | the running hash forgets every byte before the last three |
| `Hash.ThirdByte` | packages/busybox/source/archival/gzip.c:744-757 | strings of equal hash that agree in two bytes agree in the third, so scan[2] need not be compared |
| `Block.BlockCoder.FlushBlock` | packages/busybox/source/archival/gzip.c:1680-1766 | stored, static or dynamic, the bits sent are read as exactly the bytes the tokens stand for, and take exactly the bits accounted for: opt_len, static_len, or LEN/NLEN and the bytes; a stored block is shorter than 2^16 bytes; a new block is started |
| `Block.BlockCoder.SendBest` | packages/busybox/source/archival/gzip.c:1701-1754 | stored exactly when the data is at hand and no shorter compressed, dynamic only when shorter than static, each of the stated size |
| `Block.TreesFrom` | packages/busybox/source/archival/gzip.c:1687-1702 | after the three trees are built, opt_len is the exact size of header and data of the dynamic form and static_len that of the static form |
| `Block.TreesStatic` | packages/busybox/source/archival/gzip.c:1703-1730 | static_len is at most 31 bits a token and 7, so the static form of a full buffer is far below 2^16 bytes |
| `BlockSize.DynamicSize` | packages/busybox/source/archival/gzip.c:1194-1203 | frequency times dynamic length plus extra bits, summed over both alphabets, is the size of the data; forced codes cancel out |
| `BlockSize.StaticSize` | packages/busybox/source/archival/gzip.c:1201-1203 | the same for the imposed static lengths |
| `BlockCost.TokensSize` | packages/busybox/source/archival/gzip.c:1573-1592 | the tokens take frequency times width bits, the frequencies being those ct_tally counts |
| `BlockCost.SymsSize` | packages/busybox/source/archival/gzip.c:1511-1534 | the bit-length symbols take frequency times width bits, the frequencies being those the scans count |
| `BlockCost.FixedSizeBound` | packages/busybox/source/archival/gzip.c:1743-1746 | with the static trees a token takes at most 31 bits |
| `BlockRead.DynamicRead` | packages/busybox/source/archival/gzip.c:1747-1752 | a dynamic block is read, under section 3.2.7 of RFC 1951, as what its tokens stand for |
| `BlockRead.StaticRead` | packages/busybox/source/archival/gzip.c:1743-1746 | a static block is read, under section 3.2.6 of RFC 1951, as what its tokens stand for |
| `BlockRead.StoredRead` | packages/busybox/source/archival/gzip.c:615-631 | LEN, NLEN and the bytes are read back as the bytes when there are fewer than 2^16 |
| `BlockRead.HeaderRead` | packages/busybox/source/archival/gzip.c:1545-1567 | the counts, the bit-length code in bl_order and both run-length coded alphabets are read back as the two sets of lengths |
| `BlockRead.BlockStep` | packages/busybox/source/archival/gzip.c:1736-1752 | a block type followed by a body that decodes anywhere makes a block that any decoder passes over to the new data |
| `BlockHeader.SendAllTrees` | packages/busybox/source/archival/gzip.c:1545-1567 | sends the counts, the bit-length code lengths in bl_order and both trees |
| `BlockHeader.HeaderSize` | packages/busybox/source/archival/gzip.c:1531-1537 | the header takes the bits of the bit-length symbols, 3 for every length sent and 14 for the counts |
| `BlockTrees.BuildBlTree` | packages/busybox/source/archival/gzip.c:1511-1537 | the bit-length code covers every symbol to be sent, is complete and at most 7 bits long, and opt_len grows by exactly what the symbols take |
| `BlockTrees.EnoughBlCodes` | packages/busybox/source/archival/gzip.c:1526-1533 | some length of the literal tree is sent as itself, so max_blindex never falls below 3 |
| `BlockTrees.Untrim` | packages/busybox/source/archival/gzip.c:1558-1559 | leaving out unused symbols at the end of an alphabet changes neither the codewords nor completeness |
| `Compress.CompressBlock` | packages/busybox/source/archival/gzip.c:1630-1673 | reads the tokens back from l_buf, d_buf and flag_buf and sends exactly their bits, then end-of-block |
| `Compress.SendToken` | packages/busybox/source/archival/gzip.c:1646-1669 | a literal's code, or a match's length code, extra bits, distance code and extra bits |
| `Tokens.DataRead` | packages/busybox/source/archival/gzip.c:1630-1673 | the bits of the tokens and end-of-block are read, under section 3.2.5 of RFC 1951, as what the tokens stand for |
| `Tokens.TokensRead` | packages/busybox/source/archival/gzip.c:1640-1672 | the bits of the tokens lead the decoder through what each of them plays |
| `Tokens.PlaysAppend` | packages/busybox/source/archival/gzip.c:1573-1600 | playing one list of tokens and then another is playing both in one list |
| `Tally.TokenBuffer.CtTally` | packages/busybox/source/archival/gzip.c:1573-1625 | the token is added to the three buffers and counted in the frequencies; the buffer never overflows as long as the caller flushes when told |
| `Tally.TokenBuffer.InitBlock` | packages/busybox/source/archival/gzip.c:1095-1113 | an empty buffer with frequencies zero but for end-of-block |
| `Tally.FlagsSnoc` | packages/busybox/source/archival/gzip.c:1594-1603 | the flag bytes hold the kinds of the tokens, eight to the byte, lowest bit first |
| `Tally.UsedIsCounted` | packages/busybox/source/archival/gzip.c:1576-1590 | every symbol a token uses has a positive frequency |
| `Tables.InitTables` | packages/busybox/source/archival/gzip.c:1983-2014 | every length 3..258 and every distance 1..32768 gets the code, base and extra bits of section 3.2.5 of RFC 1951, length 258 its own code |
| `Tables.StandardTables` | packages/busybox/source/archival/gzip.c:882-900 | extra_lbits, extra_dbits and bl_order are those of sections 3.2.5 and 3.2.7 of RFC 1951, which the decoder has in tables of its own |
| `Tables.InitStaticLit` | packages/busybox/source/archival/gzip.c:2016-2048 | the static literal tree holds the codewords of section 3.2.6 of RFC 1951 |
| `Tables.InitStaticDist` | packages/busybox/source/archival/gzip.c:2050-2054 | static distance code n is n itself in five bits, reversed |
| `Tables.FixedComplete` | packages/busybox/source/archival/gzip.c:2016-2054 | the static codes are complete |
| `CodeLengths.RleRoundTrip` | packages/busybox/source/archival/gzip.c:1402-1505 | expanding the run-length symbols by the rules of section 3.2.7 of RFC 1951 gives back the lengths, whatever was read before; a repeat symbol never comes first and every repeat count fits its extra bits |
| `CodeLengths.ScanTree` | packages/busybox/source/archival/gzip.c:1402-1445 | counts every bit-length symbol exactly as often as it will be sent, and sets the guard behind the tree |
| `CodeLengths.SendTree` | packages/busybox/source/archival/gzip.c:1454-1505 | sends exactly the run-length symbols of Len[0..max_code] with their extra bits |
| `CodeLengths.SymsRead` | packages/busybox/source/archival/gzip.c:1454-1505 | the bits of run-length symbols are read as the lengths they expand to |
| `Codes.GenCodes` | packages/busybox/source/archival/gzip.c:1254-1288 | every used symbol gets the canonical code of section 3.2.2 of RFC 1951, reversed for sending |
| `Codes.PrefixFree` | packages/busybox/source/archival/gzip.c:1254-1288 | no codeword begins another, in the order the bits are sent |
| `Codes.CodeFits` | packages/busybox/source/archival/gzip.c:1262-1274 | every code fits its length, given Kraft's inequality |
| `Codes.SymbolDecodes` | packages/busybox/source/archival/gzip.c:1254-1288 | the symbol read where a codeword stands is the one it belongs to |
| `Codes.BiReverse` | packages/busybox/source/archival/gzip.c:581-591 | the low len bits in reverse order, so that sending the result lowest bit first sends the code highest bit first |
| `HuffmanCode.Build` | packages/busybox/source/archival/gzip.c:1312-1394 | lengths and codes of a complete canonical prefix code that covers every symbol in use and is no longer than max_length; opt_len and static_len grow by exactly the bits of the real symbols; a symbol of greater frequency never has the longer code, overflow or not; without overflow the code is optimal |
| `PrefixCodes.OptimalAmongPrefixCodes` | packages/busybox/source/archival/gzip.c:1312-1394 | optimal lengths cost no more than any prefix code for the same symbols, whatever its codewords |
| `PrefixCodes.KraftInequality` | packages/busybox/source/archival/gzip.c:1312-1318 | the words of any prefix code take no more than the whole code space |
| `HuffmanCode.GreedyCostIsOptimal` | packages/busybox/source/archival/gzip.c:1363-1386 | a code that costs what greedy joining costs is optimal among all lengths that meet Kraft's inequality |
| `Optimality.GreedyIsLeast` | packages/busybox/source/archival/gzip.c:1363-1386 | joining the two least weights again and again costs no more than any lengths that meet Kraft's inequality |
| `Forest.JoinIsGreedy` | packages/busybox/source/archival/gzip.c:1363-1380 | joining the two nodes of least frequency is one greedy step on their weights |
| `Forest.JoinRanked` | packages/busybox/source/archival/gzip.c:1363-1390 | the nodes taken out of the heap come in order of frequency, fathers included |
| `BuildTree.Combine` | packages/busybox/source/archival/gzip.c:1360-1390 | the nodes in heap[heap_max..] form a full binary tree over exactly the used symbols, each father before its sons and in order of falling frequency, and the inner weights add up to the greedy cost |
| `BuildTree.ForceCodes` | packages/busybox/source/archival/gzip.c:1340-1352 | at least two symbols are in the heap; which symbols are forced; forced ones are charged so that they cancel out of both lengths |
| `BuildTree.TwoForced` | packages/busybox/source/archival/gzip.c:1347-1352 | symbol 2 is forced exactly when symbol 1 alone is in use, though the comment says that only 0 and 1 can be |
| `BuildTree.FillHeap` | packages/busybox/source/archival/gzip.c:1324-1337 | the heap holds exactly the symbols in use, max_code is the last of them, and the others get length 0 |
| `BuildTree.PqRemove` | packages/busybox/source/archival/gzip.c:1305-1310 | takes out a node of least frequency and keeps the rest a heap |
| `Heap.PqDownHeap` | packages/busybox/source/archival/gzip.c:1127-1149 | restores the heap order from k on, with the same nodes and nothing else changed |
| `Heap.RootSmallest` | packages/busybox/source/archival/gzip.c:1119-1149 | the root of an ordered heap has the least frequency |
| `TreeCost.PathLengthIsInnerWeight` | packages/busybox/source/archival/gzip.c:1178-1203 | frequency times depth summed over the leaves is the sum of the inner weights |
| `LengthRepair.GenBitlen` | packages/busybox/source/archival/gzip.c:1161-1244 | also after overflow the lengths form a complete code of at most max_length bits for exactly the used symbols, bl_count is their histogram, opt_len and static_len are exact, and a symbol of greater frequency never gets the longer code; for every k below max_length the lengths up to k keep their numbers of codes exactly when the longer ones can take up the whole overflow |
| `BitLengths.FirstPass` | packages/busybox/source/archival/gzip.c:1176-1204 | after the first pass the overflow is twice the Kraft excess, and the histogram and both sums are exact |
| `CountRepair.RoundLowers` | packages/busybox/source/archival/gzip.c:1211-1223 | a repair round takes exactly two off the overflow, that is one off the Kraft excess, and keeps enough codes at the limit |
| `CountRepair.SomeShorter` | packages/busybox/source/archival/gzip.c:1213-1215 | while there is excess some shorter length is in use, so the inner search finds a leaf |
| `CountRepair.Repair` | packages/busybox/source/archival/gzip.c:1211-1223 | the rounds end with a histogram that fills the code space exactly, and it is the one that comes of moving down, once for every two of overflow, a leaf of the longest length below the limit |
| `CountRepair.CountsKept` | packages/busybox/source/archival/gzip.c:1211-1222 | the lengths up to k keep their counts exactly when half the overflow is at most what the lengths between k and the limit can take up, 2^(max_length - j) - 1 for each code of length j |
| `LengthRepair.HeavierIsHigher` | packages/busybox/source/archival/gzip.c:1176-1190 | in the tree a node of greater frequency is never deeper |
| `LengthRepair.Reassign` | packages/busybox/source/archival/gzip.c:1230-1243 | handing out the lengths from the histogram gives every used symbol a length, the longest to the rarest, matches the histogram and corrects opt_len exactly |
| `BitSinks.BitSink.SendBits` | packages/busybox/source/archival/gzip.c:541-575 | for any value that fits in length <= 16 bits the bits sent grow by exactly its bits, lowest first; bi_valid < 32 and outcnt < OUTBUFSIZ hold again |
| `BitSinks.BitSink.BiWindup` | packages/busybox/source/archival/gzip.c:596-609 | the bits sent are padded with zeros to a byte boundary and all are in the output |
| `BitSinks.BitSink.CopyBlock` | packages/busybox/source/archival/gzip.c:615-631 | pads to a byte boundary, then LEN, NLEN and the bytes |
| `BitSinks.BitSink.Put32bit` | packages/busybox/source/archival/gzip.c:484-499 | four bytes, least significant first, appended to the output whatever the buffer's fill |
| `BitSinks.SpillSplits` | packages/busybox/source/archival/gzip.c:551-571 | the full 32-bit word that goes out and the rest of the value that stays are together the accumulator's bits followed by the value's |
| `BitSinks.NoSpill` | packages/busybox/source/archival/gzip.c:551-553 | or-ing the shifted value into an accumulator with room appends its bits |
| `BitSinks.LenAndComplement` | packages/busybox/source/archival/gzip.c:619-623 | the word built in copy_block is the length modulo 2^16 followed by its one's complement |
| `LzoOptimize.Optimize` | packages/busybox/source/archival/lzop.c:144-386 | for every well-formed stream, the stream left in place has the same length and decodes to the same data with the same bytes left over, out holds that data, and the result is OK exactly when none are left over; no match is left that could have become literals of the copy before it, the stream has exactly as many instructions fewer as the five counters say, and with all of them zero it is unchanged |
| `LzoOptimize.DoCopy` | packages/busybox/source/archival/lzop.c:209-375 | one copy instruction: the decoder's state and the end ahead are kept, and the instructions removed are exactly the one or two that the conditions of the five rewrites call for, or none where none applies |
| `LzoRewrite.ExtendKeeps` | packages/busybox/source/archival/lzop.c:221-231 | a match that becomes literals of the copy before it (counters o_m1_a, o_m3_a) leaves what is decoded unchanged |
| `LzoRewrite.MergeKeeps` | packages/busybox/source/archival/lzop.c:233-257 | a match between a copy's literals and a run, made one run with both and the header moved (o_m1_b, o_m3_b), leaves what is decoded unchanged |
| `LzoRewrite.GrowKeeps` | packages/busybox/source/archival/lzop.c:278-294 | a match between two runs written out over the second header (o_m2) leaves what is decoded unchanged |
| `LzoTidy.ExtendTold` | packages/busybox/source/archival/lzop.c:221-336 | a match that becomes literals leaves the stream with one instruction fewer and nothing left over in it |
| `LzoTidy.MergeTold` | packages/busybox/source/archival/lzop.c:233-360 | a match merged with the run behind it leaves one instruction fewer |
| `LzoTidy.GrowTold` | packages/busybox/source/archival/lzop.c:278-294 | a match between two runs written over the second header leaves two instructions fewer |
| `LzoCompress.Compress` | packages/busybox/source/archival/libarchive/lzo1x_9x.c:720-888 | lzo1x_999 with any choices its search may make: the stream is the literals and matches chosen, decodes to exactly the input, and fits the buffer of n + n/16 + 67 bytes that lzop sets aside |
| `LzoCompress.CodeMatch` | packages/busybox/source/archival/libarchive/lzo1x_9x.c:502-567 | code_match in all its forms, with lengths continued over zero bytes |
| `LzoCompress.MatchRead` | packages/busybox/source/archival/libarchive/lzo1x_9x.c:502-567 | whatever form is chosen, a decoder reads the match's length and offset back and finds no literals counted |
| `LzoCompress.RunRead` | packages/busybox/source/archival/libarchive/lzo1x_9x.c:570-593 | the header of a run is read back as its length |
| `LzoCompress.RunStored` | packages/busybox/source/archival/libarchive/lzo1x_9x.c:570-593 | behind a run, counted in the first byte, in the match before it or in a header of its own, a decoder has the literals and expects what code_match then writes |
| `LzoCompress.StillSmall` | packages/busybox/source/archival/libarchive/lzo1x_9x.c:720-888 | a choice the loop accepts adds at most a sixteenth more bytes than it stands for |
| `Lzo.StepAgain` | packages/busybox/source/archival/libarchive/lzo1x_d.c:33-404 | what one instruction does depends only on the bytes it takes |
| `Lzo.CopyAgain` | packages/busybox/source/archival/libarchive/lzo1x_d.c:169-330 | a copy instruction's meaning does not depend on its two literal-count bits nor on anything behind it |
| `Lzo.StepReaches` | packages/busybox/source/archival/libarchive/lzo1x_d.c:33-404 | a decoder that has come to a state behind a prefix comes to the next state behind the longer prefix, whatever follows |
| `LzoOptimize.ParseAt` | packages/busybox/source/archival/lzop.c:174-330 | reads the instruction at ip, continued lengths included |
| `LzoOptimize.BytesAre` | packages/busybox/source/archival/lzop.c:113-136 | the two or three bytes copy2 and copy3 write are those of the overlapping match |
| `Adler.LzoAdler32` | packages/busybox/source/archival/lzop.c:510-537 | equals the per-byte definition of section 8.2 of RFC 1950 for every buffer and every start with both halves below 65521; a missing buffer gives 1 |
| `Adler.AddBytes` | packages/busybox/source/archival/lzop.c:527-530 | the sums of the inner loop in 32-bit arithmetic; up to 5552 bytes nothing wraps around and they are congruent to the definition |
| `Adler.NmaxIsLargest` | packages/busybox/source/archival/lzop.c:514-518 | 5552 is the largest such number: with 5553 bytes of 255 from halves of 65520 the second sum wraps around and comes out as 25061 instead of 25286 |
| `Adler.Adler32Append` | packages/busybox/source/archival/lzop.c:510-537 | checksumming two pieces in turn is checksumming their concatenation |
| `Factorize.FactorNumber` | packages/busybox/source/coreutils/factor.c:219-231 | for every 1 <= n < 2^64, primes only, in rising order and with multiplicity, whose product is n, and then one newline |
| `Factorize.Factorizer.Run` | packages/busybox/source/coreutils/factor.c:161-217 | prints primes in rising order whose product is n to the power square_count, and a newline; the recursion ends |
| `Factorize.Factorizer.IsqrtOdd` | packages/busybox/source/coreutils/factor.c:137-159 | 0 for a square, whose factors have then all been printed, with square_count doubled inside its byte; otherwise the odd root |
| `Factorize.Factorizer.TrialDivision` | packages/busybox/source/coreutils/factor.c:186-217 | trial division along the wheel, with the 32-bit wrap-around as an exit; the primes printed rise |
| `Factorize.LastIsPrime` | packages/busybox/source/coreutils/factor.c:202-203 | when the divisors up to the odd root are used up, what is left is prime |
| `Factorize.LastIsPrime32` | packages/busybox/source/coreutils/factor.c:204-206 | when the divisor wraps around at 32 bits, what is left is prime: no divisor was missed |
| `Factorize.CountBound` | packages/busybox/source/coreutils/factor.c:120-147 | a number of two or more whose power fits in 64 bits has square_count below 64, so doubling never leaves the byte |
| `Factor.UnpackWheel` | packages/busybox/source/coreutils/factor.c:101-120 | unpacking the 23 words by masks and shifts gives the whole table: the way from 2 to 13, then one turn of 2310 |
| `Factor.PassedHasDivisor` | packages/busybox/source/coreutils/factor.c:46-83 | whatever the wheel passes over is a multiple of 2, 3, 5, 7 or 11 that has been tried already |
| `Wheel.FieldTaken` | packages/busybox/source/coreutils/factor.c:111-116 | the lowest field of a word is the next increment and shifting by three bits leaves the others, whatever bit 0 holds |
| `Wheel.WordFits` | packages/busybox/source/coreutils/factor.c:54-63 | a packed word fits in 64 bits |
| `Wheel.RowRolls` | packages/busybox/source/coreutils/factor.c:60-83 | the increments of each word lead from its first divisor to the next word's, passing over multiples only |
| `Factor.SmallestIsPrime` | packages/busybox/source/coreutils/factor.c:195-197 | the smallest divisor found is prime |
| `Factor.FreeIsPrime` | packages/busybox/source/coreutils/factor.c:202-203 | a number without a divisor up to its square root is prime |
| `DpkgVersion.ComparePart` | packages/busybox/source/archival/dpkg.c:240-277 | the sign of the comparison is the lexicographic order of explicit keys of weights and numbers (section 5.6.12 of the Debian Policy Manual) |
| `DpkgVersion.VersionCompare` | packages/busybox/source/archival/dpkg.c:283-334 | epoch, then upstream version, then revision, each by its key |
| `DpkgOrder.TildeFirst` | packages/busybox/source/archival/dpkg.c:229-238 | with a tilde and anything behind it a version is earlier than without |
| `DpkgOrder.EndFirst` | packages/busybox/source/archival/dpkg.c:229-238 | with any other character that is no digit, and anything behind it, a version is later than without |
| `DpkgOrder.OthersInOrder` | packages/busybox/source/archival/dpkg.c:229-238 | versions that first differ in two characters that are no digits go by these: a tilde first, then letters, then all others, each by their codes |
| `DpkgOrder.NumbersInOrder` | packages/busybox/source/archival/dpkg.c:257-274 | versions that first differ in a number go by its value |
| `DpkgOrder.NotYetReleased` | packages/busybox/source/archival/dpkg.c:336-354 | a version with a tilde behind a release satisfies < and not >= against that release, whatever the revisions |
| `DpkgOrder.OperatorsHold` | packages/busybox/source/archival/dpkg.c:336-354 | of two versions that differ in a number of the upstream version, each operator holds exactly when it holds of the numbers |
| `DpkgOrder.EpochSplits` | packages/busybox/source/archival/dpkg.c:292-308 | a version with an epoch splits at its first colon |
| `DpkgOrder.NoEpoch` | packages/busybox/source/archival/dpkg.c:292-308 | a version without a colon has epoch 0 |
| `DpkgOrder.RevisionSplits` | packages/busybox/source/archival/dpkg.c:314-329 | the revision is what stands behind the last dash, and empty without one |
| `DpkgOrder.PartsInOrder` | packages/busybox/source/archival/dpkg.c:283-334 | the epoch decides, then the upstream version, then the revision |
| `DpkgVersion.CmpTotalPreorder` | packages/busybox/source/archival/dpkg.c:283-334 | the order of versions is reflexive, antisymmetric in sign and transitive |
| `DpkgVersion.EqualInterchangeable` | packages/busybox/source/archival/dpkg.c:336-354 | versions that compare equal pass the same tests on either side |
| `DpkgVersion.TestVersion` | packages/busybox/source/archival/dpkg.c:336-354 | each operator's test of the order |
| `DpkgVersion.LexEqual` | packages/busybox/source/archival/dpkg.c:240-277 | keys compare equal exactly when they are the same but for zeros at the end |
| `Probing.ProbeHits` | packages/busybox/source/archival/dpkg.c:180-184 | with a prime number of slots and a decrement from 1 to one less, every slot is looked at within that many steps |
| `Probing.SizesArePrime` | packages/busybox/source/archival/dpkg.c:91-124 | 16381, 10007 and 8191 are prime |
| `DpkgTables.Find` | packages/busybox/source/archival/dpkg.c:193-206 | a search ends while a slot is free, at the first slot on its way that is free or holds what is looked for |
| `DpkgTables.NameTable.Search` | packages/busybox/source/archival/dpkg.c:189-206 | returns the index of the name, adding it only if it is not there; no other slot changes and no index changes its meaning |
| `DpkgTables.InternAll` | packages/busybox/source/archival/dpkg.c:189-206 | over any run from an empty table with more slots than different names, however often they are looked up, equal names get equal indices, different names different ones, and every index still stands for its name at the end |
| `DpkgTables.SomeFree` | packages/busybox/source/archival/dpkg.c:193 | a table larger than the set of keys in it, each there once, has a free slot, so that searches end |
| `DpkgTables.Tables.SearchPackage` | packages/busybox/source/archival/dpkg.c:356-377 | an occupied slot exactly when some stored package of that name satisfies the operator, and then one that does |
| `DpkgTables.Tables.Store` | packages/busybox/source/archival/dpkg.c:681-688 | a package takes the place of the one of equal name and version, or else a free slot; all three tables stay searchable and without duplicates |
| `DpkgTables.StoreKeeps` | packages/busybox/source/archival/dpkg.c:681-688 | replacing or adding a package where the search ends keeps every package where its probe finds it |
| `DpkgTables.Tables.SearchStatus` | packages/busybox/source/archival/dpkg.c:211-227 | an occupied slot exactly when the package of that name has a status |
| `DpkgTables.Tables.SetStatus` | packages/busybox/source/archival/dpkg.c:784-790 | the status takes the place of the one a package of that name had, or else a free slot; no package ever has two |
| `DpkgTables.StatusKept` | packages/busybox/source/archival/dpkg.c:681-688 | replacing a package by one of the same name does not disturb the status table |
| `DpkgTables.TablesGrow` | packages/busybox/source/archival/dpkg.c:189-206 | adding names keeps the tables of packages and of status, whose hashes and versions are those of names |
| `DpkgEdges.AlternativeRead` | packages/busybox/source/archival/dpkg.c:466-501 | an alternative written out as name (operator version), with or without a version and whatever stands behind it, is read as that name, operator and version, or as illegal |
| `DpkgEdges.OperatorIs` | packages/busybox/source/archival/dpkg.c:477-491 | the operators accepted are =, <<, <=, >>, >= and the short < and >, and no others |
| `Strings.TokensClean` | packages/busybox/source/archival/dpkg.c:442-447 | no token is empty or holds the separator |
| `Strings.TokensJoined` | packages/busybox/source/archival/dpkg.c:442-447 | the tokens joined are the string without its separators |
| `Strings.TokensSplit` | packages/busybox/source/archival/dpkg.c:442-447 | around a separator the tokens are those before it followed by those behind it |
| `DpkgLines.GroupRead` | packages/busybox/source/archival/dpkg.c:448-516 | a group of alternatives written out with bars gives one edge for each, in order, behind an or-edge that counts them if there are several |
| `DpkgLines.LineRead` | packages/busybox/source/archival/dpkg.c:429-519 | a line of such groups written out with commas gives the edges of every group in order, and is legal exactly when every operator in it is |
| `DpkgMeaning.LineMet` | packages/busybox/source/archival/dpkg.c:429-519 | a line written out, read and checked is met exactly when in each of its groups some alternative is |
| `DpkgMeaning.MatchesByNumber` | packages/busybox/source/archival/dpkg.c:356-377 | of two versions that differ in a number, a stored package satisfies the operator exactly when the numbers do |
| `DpkgEdges.AddSplitDependencies` | packages/busybox/source/archival/dpkg.c:429-519 | the edges of every group are added under the indices of their names, a choice marked by an or-edge that counts its alternatives, and the layout stays well formed; it fails exactly when an operator in the line is illegal |
| `DpkgEdges.LineStays` | packages/busybox/source/archival/dpkg.c:429-519 | edges keep their meaning when more names are added |
| `DpkgStatus.FillPackage` | packages/busybox/source/archival/dpkg.c:618-689 | fails exactly when an operator is illegal; otherwise a package whose version is known is stored as its fields say, in place of the one of equal name and version |
| `DpkgStatus.IndexStatusFile` | packages/busybox/source/archival/dpkg.c:766-795 | after any status file the status of every package and its stored fields are those of its last stanza with a version, a package without such a stanza has none, and every package's edges are well formed |
| `DpkgStatus.StillDescribed` | packages/busybox/source/archival/dpkg.c:775-791 | a stanza of one package changes nothing of what is known about another |
| `DpkgDeps.CheckStatusFile` | packages/busybox/source/archival/dpkg.c:766-1177 | the file read and then checked: it completes exactly when no operator is illegal and every stored package whose last stanza wants it has an alternative met in each dependency group |
| `DpkgDeps.GetStatus` | packages/busybox/source/archival/dpkg.c:211-227 | the status found through the hash table is the one status a package of that name has |
| `DpkgDeps.PackageSatisfies` | packages/busybox/source/archival/dpkg.c:963-978 | a pre-dependency needs the package installed, a dependency needs it wanted, and a package without status satisfies nothing |
| `DpkgDeps.StatusLineRead` | packages/busybox/source/archival/dpkg.c:692-713 | a status line of three words with any spaces between them is read as those words |
| `DpkgEdges.SingleAlternative` | packages/busybox/source/archival/dpkg.c:448-458 | a field not marked as a choice is a single edge, any other starts with an or-edge |
| `DpkgDeps.CheckDeps` | packages/busybox/source/archival/dpkg.c:1065-1177 | completes exactly when every package wanted has an alternative met in each dependency group, and never finds the edges corrupt |
| `DpkgDeps.CheckEdges` | packages/busybox/source/archival/dpkg.c:1095-1175 | the same for the edges of one package, through the countdown of alternatives |
| `DpkgDeps.CheckEdge` | packages/busybox/source/archival/dpkg.c:1116-1148 | a dependency is met exactly when a stored package that matches or provides the name has the needed status, though only the first match is looked at |
| `DpkgDeps.SearchForProvides` | packages/busybox/source/archival/dpkg.c:395-408 | the next package that provides the name, or -1 when there is none |
| `Expr.RunTree` | packages/busybox/source/coreutils/expr.c:539-559 | for every tree printed with no more parentheses than needed and keywords quoted, evaluation gives the tree's value or its first failure and uses every argument |
| `ExprLaws.TwoOperators` | packages/busybox/source/coreutils/expr.c:402-537 | for every two operators and three operands in a row, the tighter operator is applied first and of equally tight ones the left one |
| `ExprLaws.ParenthesesFirst` | packages/busybox/source/coreutils/expr.c:317-337 | with the looser operator in parentheses that one is applied first |
| `ExprLaws.KeywordCalls` | packages/busybox/source/coreutils/expr.c:341-400 | what each keyword makes of its operands |
| `ExprLaws.SumGrows` | packages/busybox/source/coreutils/expr.c:247-263 | adding 0 changes nothing and adding one more gives one more |
| `ExprLaws.DifferenceUndone` | packages/busybox/source/coreutils/expr.c:247-263 | a difference plus its right side is the left side |
| `ExprLaws.ProductGrows` | packages/busybox/source/coreutils/expr.c:247-263 | 0 times gives 0 and one more time adds the left side once more |
| `ExprLaws.DivisionOf` | packages/busybox/source/coreutils/expr.c:247-269 | quotient and remainder make up the left side; the remainder is smaller than the right side and has the sign of the left one |
| `ExprLaws.ArithmeticFails` | packages/busybox/source/coreutils/expr.c:251-257 | arithmetic fails exactly on a side that is no number, and division on a zero |
| `ExprLaws.ComparesAs` | packages/busybox/source/coreutils/expr.c:217-243 | each comparison gives 1 exactly when the order of numbers, or of strings when a side is no number, says so, and otherwise 0 |
| `ExprLaws.Choices` | packages/busybox/source/coreutils/expr.c:502-537 | the values of | and & for null and other sides |
| `ExprLaws.IndexIs` | packages/busybox/source/coreutils/expr.c:373-379 | index gives the least place where a listed character stands, or 0 |
| `ExprLaws.SubstrIs` | packages/busybox/source/coreutils/expr.c:383-395 | substr gives the characters from that place on, as many as asked for or as there are, and otherwise nothing |
| `Expr.UpPrints` | packages/busybox/source/coreutils/expr.c:406-537 | a printed tree in front of anything that no operator of its level or a tighter one continues is consumed exactly, with the tree's value or failure |
| `Expr.LevelPrints` | packages/busybox/source/coreutils/expr.c:406-537 | a printed tree at one operator level is consumed exactly and the loop of that level goes on with its value |
| `Expr.KeywordPrints` | packages/busybox/source/coreutils/expr.c:341-400 | an operand, keyword application or parenthesised tree is consumed exactly, whatever follows |
| `Expr.Evaluator.EvalLevel` | packages/busybox/source/coreutils/expr.c:406-537 | the shared cursor and the loop of each level give what the evaluation along the arguments gives |
| `Expr.Evaluator.EvalKeyword` | packages/busybox/source/coreutils/expr.c:341-400 | the same for the keywords |
| `Expr.Evaluator.EvalPrimary` | packages/busybox/source/coreutils/expr.c:317-337 | the same for bare operands and parentheses |
| `Tail.TailLines` | packages/busybox/source/coreutils/tail.c:254-333 | the last N lines for any way the input comes in, an unfinished last line counting as one, if and only if N is an int (or there is no input) and what is kept and read never exceeds INT_MAX bytes; the buffer always has room for another BUFSIZ bytes and no copy leaves it |
| `Tail.KeepLines` | packages/busybox/source/coreutils/tail.c:294-326 | one read keeps exactly the last N lines of everything read so far |
| `Tail.LastLinesUnique` | packages/busybox/source/coreutils/tail.c:297-326 | there is only one longest end of the input with at most N lines |
| `Tail.LastLinesWhole` | packages/busybox/source/coreutils/tail.c:312-320 | what is kept begins at the beginning of a line |
| `Tail.TailBytes` | packages/busybox/source/coreutils/tail.c:288-293 | the last N bytes for any 32-bit N and any way the input comes in, if and only if N is an int (or there is no input) and what is kept and read never exceeds INT_MAX bytes, which N up to INT_MAX - BUFSIZ guarantees |
| `Tail.ShortLinesFit` | packages/busybox/source/coreutils/tail.c:254-333 | with up to INT_MAX bytes of input the last lines are always right |
| `Tail.TailFromLine` | packages/busybox/source/coreutils/tail.c:266-287 | with +N exactly the input from line N on |
| `Tail.TailFromByte` | packages/busybox/source/coreutils/tail.c:266-287 | with +N for any 32-bit N exactly the input from byte N on, if and only if there is no input or at most 2^31 bytes are still to be skipped after the first read |
| `Tail.NWriteExact` | packages/busybox/source/coreutils/tail.c:270-273 | the signed result of the unsigned subtraction is right exactly while at most 2^31 bytes are still to be skipped, and otherwise larger than the read |
| `Tail.NWriteFails` | packages/busybox/source/coreutils/tail.c:270-273 | a concrete failure: N = 3000000000 at a first read of one byte |

## Findings

- gzip: the assertion at `gzip.c:736` that there is enough lookahead need not hold at the end of the input, where the
  search may also compare bytes beyond the window. How much of the input is then in the window depends on its length
  alone (`WindowEnd.Left`). By `Gzip.Zip` the assertion fails only after inputs of at least 65276 bytes whose length
  modulo 2^15 is 32508 to 32766, and the search leaves the window only after those of at least 65279 bytes whose length
  modulo 2^15 is 32511 to 32766. For each of these lengths `WindowEnd.Worst` is an input with which that happens at
  every level (up to 258 bytes without repeats, then zeros) when every read returns all it can and the window starts
  out cleared. What lies beyond the window does not matter to the output: matches are cut to the lookahead.
  INSERT_STRING never looks beyond the window.
- gzip: the comment at `gzip.c:1351` says that a forced symbol is 0 or 1; by `BuildTree.TwoForced` it is 2 exactly when
  symbol 1 alone is in use, which does no harm.
- dpkg: an alternative with a version but no operator, as in `foo (1.2)`, leaves the operator of its edge as it is in
  freshly allocated memory (`dpkg.c:461`). The model takes it from an arbitrary function.
- tail: `tail -c +N` computes what is left to write in unsigned arithmetic and takes it as signed. For N beyond
  2^31 plus the first read the result is positive too early and the bytes in front of the buffer would be
  written (`tail.c:272`). `Tail.TailFromByte` gives the exact condition and `Tail.NWriteFails` an input.
- tail: without +, N beyond INT_MAX becomes negative in the comparisons with an int (`tail.c:289`, `tail.c:304`), so that
  any input is handled wrongly; and a taillen beyond INT_MAX overflows. `Tail.TailBytes` and `Tail.TailLines` give the
  exact conditions.
- expr: a comparison first turns both sides into numbers if it can, one by one. A side that was a number is then
  compared in its decimal form when the other is none: `007 = 007x` compares "7" with "007x". The model does the same.

## Left out

- Options, file names, opening and closing, signals, memory exhaustion and the texts of messages, in all applets.
  A message after which the program dies is a failure result.
- gzip: CRC-32 is any checksum taken byte by byte; the search settings (max_chain_length, good_match,
  nice_match, max_lazy_match) and the guess of ct_tally that a block should end are arbitrary.
- gzip: frequencies and depths are unbounded numbers (the 16-bit counters cannot overflow in a block of fewer
  than 2^13 tokens; a depth only breaks ties). The build with 16-bit bi_buf, the larger buffers of the faster
  configurations and the unaligned stores are not modelled.
- gzip: bytes that the search reads beyond the window are a piece of memory of arbitrary contents behind it.
- gzip: `BuildTree`, `LengthRepair` and `Tally` do a few independent assignments of gzip.c in another order.
- lzop: only LZO1X, not LZO1Y. A stream that is not well formed is outside the precondition of `LzoOptimize.Optimize`,
  as it is in lzop.c, which reads such streams without bounds; so the exit without an end code is never taken.
  The jumps between the loops are one loop with the decoder's mode in a variable.
- lzop: of compression only level 7 to 9, and of that only the writing: the search of lzo1x_9x.c with its lazy matching is a
  list of choices that are true of the input. The faster levels, lzop's decompression and its file format are left out.
- factor: isqrt is any function with the contract its comment states; reading numbers from text is left out.
- dpkg: make_hash is any function with results in its range and atoi any function; versions are ASCII, and counts are not
  limited to the 16 bits of their fields. The status file comes split into stanzas and fields, every stanza with a version
  has a Package and a Status line (without the latter dpkg.c stores an uninitialised index, without the former it follows
  a null pointer), and no relation is blank, which strtok would turn into a null pointer. Scripts, archives, the conflict
  pass, changes of status and the rewriting of the status file are left out.
- dpkg: the words of a status line are compared themselves and not by their indices in the name table, which are equal
  exactly when the words are (`DpkgTables.InternAll`); so comparing them adds no names.
- dpkg: the three searches share one loop, `DpkgTables.Find`, since they differ only in what they look for.
- expr: strtol, the decimal form, strcmp and the regular expression match are arbitrary functions. Arithmetic beyond 64 bits,
  undefined in C, is a failure of its own. The coercions of values in place are functions of values. size_t is as wide as
  the numbers, so that substr passes its count on unchanged.
- tail: seekable input, following files, headers and count suffixes.
- tail: BUFSIZ is 8192; nothing but its being positive and small matters.
- bzip2, unzip, rpm, dpkg-deb, the other archivers and the other coreutils, the console tools, the build and the image
  of the board: wrappers, input and output, or easy loops.
