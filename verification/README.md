# The codecs at the core of 7-Zip

This project models the compression core of 7-Zip's C library (`7zip-main/C`), as state machines over bytes and words,
and proves what each codec is for.

* **LZMA decoding** (`LzmaSymbol`, `LzmaLookahead`, `LzmaStream`, `LzmaDecoder`). One decision tree describes the bits of
  a symbol. The decoder and its read-only look-ahead are two ways of running it; they agree, and 20 bytes always suffice.
  The streaming decoder, called with any pieces of input and any limits, follows the ideal decoder of the whole stream
  symbol by symbol, over a cyclic dictionary, with a carry of fewer than 20 bytes.
* **The match finder** (`LzTree`, `LzSon`, `LzSearch`, `LzHash`, `LzForest`, `LzReport`, `LzNormal`, `LzMatchFinder`,
  `LzBatch`, `LzHeads`). Binary search trees of suffixes, as values; the same trees threaded through a cyclic array and
  built in place; the forest of all trees with its hash tables; what a report means and what it does not miss; position
  normalization, which no run can observe; and the batched search of the multithreaded finder with its short cut.
* **BCJ2** (`Bcj2Range`, `Bcj2Carry`, `Bcj2Model`, `Bcj2Encoder`, `Bcj2Decoder`). The encoder's carry propagation
  represents an unbounded number; the decoder follows it; both are resumable at every byte of every stream, and put
  together they give the input back.
* **Huffman codes** (`HuffCost`, `HuffTree`, `HuffLevels`, `HuffLimit`, `HuffCode`, `HuffWord`, `HuffSort`, `HuffBuild`,
  `HuffOrder`, `HuffEnc`). The two-queue construction in place in an array of packed words, its length limit, and the
  optimality of the result against all prefix codes.
* **Branch filters** (`X86Word`, `X86Filter`, `RiscvWord`, `RiscvFilter`). Self-overlapping in-place conversions, undone
  by the conversion the other way.
* **Block sorting** (`BwtOrder`, `BwtGroups`, `BwtMarks`, `BwtRadix`, `BwtRefine`, `BwtSort`, `BwtBlock`). Prefix doubling
  over cyclic rotations, with the ranks refined while they are being read and the sizes of groups packed into spare bits
  of the indices.
* **The threads of the match finder** (`LzThreads`). Three threads, two rings of blocks, four semaphores, four events and
  two locks as a state machine over atomic steps: every interleaving is safe, and none gets stuck.
* **Heap sort** (`WordSort`), which the Huffman and the block sorting code use.

`Arith`, `BitModel`, `Lists`, `Words` and `Wrappers` hold what these share. Each module is in the file of its name.

The code that changes state is imperative here as well: classes with the fields of the original, arrays changed in place,
and the original's loops, each proved against a specification function whose own properties are lemmas. Where a class
carries `ghost` parameters such as the whole input of a stream, they only name what the caller supplies over all calls.

## Model

| member | source | states |
|---|---|---|
| `LzmaLookahead.SymbolGood` | 7zip-main/C/LzmaDec.c:255-592 | Along every path of the symbol grammar the decoder asks pairwise different probabilities, all inside the table, and the path is paid for by 22 modelled and 26 direct bits |
| `LzmaLookahead.WorstSymbolFitsIn20Bytes` | 7zip-main/C/LzmaDec.h:48-51 | That budget shrinks the range by less than 2^160, whatever reachable values the probabilities have |
| `LzmaLookahead.FrozenRunAgrees` | 7zip-main/C/LzmaDec.c:70-85 | Running a decision tree that asks no probability twice with updates, or on a frozen table that may differ in places already used, gives the same symbol and the same bytes consumed |
| `LzmaLookahead.LookAheadIsExact` | 7zip-main/C/LzmaDec.c:715-904 | The read-only look-ahead parses the symbol that the updating decoder decodes and stops at the same byte, or both meet the end of the input |
| `LzmaLookahead.EnoughInput` | 7zip-main/C/LzmaDec.h:48-51 | A run with enough input for its budget never meets the end of the input, and neither does the normalization behind it |
| `LzmaLookahead.TwentyBytesSuffice` | 7zip-main/C/LzmaDec.c:1044-1083 | From a normalized coder one symbol takes at most 20 bytes, and with 20 bytes at hand it never fails for want of input |
| `LzmaLookahead.RunIsLocal` | 7zip-main/C/LzmaDec.c:1112-1189 | A run depends only on the bytes it consumes: it may be moved to another buffer, such as the carry |
| `LzmaStream.FirstSymbolIsNotRep` | 7zip-main/C/LzmaDec.c:655-668 | The bound on the first code word excludes a repeated match as the first symbol of a stream |
| `LzmaStream.ApplyKeepsOk` | 7zip-main/C/LzmaDec.c:532-543 | Every symbol that is applied keeps all four distances inside the output and the dictionary and appends at least one byte; one that would not is reported as data error |
| `LzmaStream.SymbolCodeIsPrefixFree` | 7zip-main/C/LzmaDec.c:1112-1189 | In no state is the code of one symbol a proper prefix of the code of another |
| `LzmaStream.FoldSplit` | 7zip-main/C/LzmaDec.c:1001-1191 | Running through a list of symbol codes is running through its beginning and then through the rest |
| `LzmaStream.ChunksAreDetermined` | 7zip-main/C/LzmaDec.c:1001-1191 | Two runs over the same bytes cut them into symbols at the same places |
| `LzmaStream.StreamDeterminesOutput` | 7zip-main/C/LzmaDec.c:952-1196 | However a stream is cut into calls, two decoders from the same state that consumed prefixes of it have outputs of which one begins the other, and equal states after equally many symbols |
| `LzmaDecoder.WindowWrap` | 7zip-main/C/LzmaDec.c:1200-1238 | Moving the write position from the end of the dictionary to its start is unobservable |
| `LzmaDecoder.LiteralIndicesAgree` | 7zip-main/C/LzmaDec.c:241-269 | The literal index computed with one combined mask from the wrapped position is the index defined by the two contexts separately |
| `LzmaDecoder.LzmaDec.LiteralIndex` | 7zip-main/C/LzmaDec.c:267-269 | The literal table is chosen by the previous output byte, read from the cyclic dictionary, and by the position; table 0 for the first byte |
| `LzmaDecoder.LzmaDec.DecodeBit` | 7zip-main/C/LzmaDec.c:22-29 | One modelled bit, its update and the normalization before it are one step of the decision tree |
| `LzmaDecoder.LzmaDec.DecodeMatched` | 7zip-main/C/LzmaDec.c:60-65 | The loop over a literal after a match takes the path of the matched-literal tree, with its two halves of the table |
| `LzmaDecoder.LzmaDec.DecodeReverse` | 7zip-main/C/LzmaDec.c:478-486 | The reversed tree loop, with its offsets kept inside the running index, returns the value of the reversed tree |
| `LzmaDecoder.LzmaDec.DecodeDirect` | 7zip-main/C/LzmaDec.c:490-512 | The branch-free direct bits, with the sign mask, are the direct bits of the tree |
| `LzmaDecoder.LzmaDec.DecodeLen` | 7zip-main/C/LzmaDec.c:426-459 | The three length ranges |
| `LzmaDecoder.LzmaDec.DecodeDistance` | 7zip-main/C/LzmaDec.c:465-530 | Slot, middle and low bits of a distance |
| `LzmaDecoder.LzmaDec.CopyBytes` | 7zip-main/C/LzmaDec.c:564-589 | Both copy loops, straight and wrapping, append `n` bytes at distance `rep0`, overlaps included |
| `LzmaDecoder.LzmaDec.DecodeLiteral` | 7zip-main/C/LzmaDec.c:263-321 | A literal leaves the state that applying the parsed literal gives |
| `LzmaDecoder.LzmaDec.DecodeMatch` | 7zip-main/C/LzmaDec.c:462-590 | A match, an end mark or a distance out of reach leaves the state that applying the parsed symbol gives, the part beyond `limit` pending |
| `LzmaDecoder.LzmaDec.DecodeRep` | 7zip-main/C/LzmaDec.c:332-390 | A repeated match does so, with the distances rotated |
| `LzmaDecoder.LzmaDec.DecodeReal` | 7zip-main/C/LzmaDec.c:234-611 | The decoding loop runs through whole symbol codes, which are exactly the bytes it consumed, and ends in the state of the ideal decoder after them |
| `LzmaDecoder.LzmaDec.WriteRem` | 7zip-main/C/LzmaDec.c:616-652 | Writing a pending match as far as there is room changes nothing of what will have been written in the end |
| `LzmaDecoder.LzmaDec.DecodeReal2` | 7zip-main/C/LzmaDec.c:686-700 | Cutting the limit at the first full dictionary makes the distance check exact throughout |
| `LzmaDecoder.LzmaDec.TryDummy` | 7zip-main/C/LzmaDec.c:715-904 | The look-ahead reports the kind of the next symbol and the number of its bytes, or the end of the input, and changes nothing |
| `LzmaDecoder.LongerThanCarry` | 7zip-main/C/LzmaDec.c:1143-1146 | If all but the last byte of the carry do not hold a symbol, the next symbol takes the whole carry: the check for fewer bytes cannot fail |
| `LzmaDecoder.LzmaDec.InitDicAndState` | 7zip-main/C/LzmaDec.c:906-920 | A restart at a chunk boundary keeps the output unless the dictionary is reset. With dictionary and probabilities kept, the decoder can go on if and only if it has decoded something and its distances lie inside that |
| `LzmaDecoder.LzmaDec.ReadHeader` | 7zip-main/C/LzmaDec.c:959-999 | Five header bytes, over any number of calls, give the ideal initial state; a first byte other than 0 or a code word that admits a repeated match is an error |
| `LzmaDecoder.LzmaDec.DecodeToDic` | 7zip-main/C/LzmaDec.c:952-1196 | From any valid state, with any input: the bytes taken are whole symbol codes and a carry, the state is the ideal one after them, the internal-failure result never occurs, and each status is justified; more input is asked for only when what is carried does not hold a whole symbol |
| `LzTree.LcpIs` | 7zip-main/C/LzFind.c:985-992 | The longest common prefix is the one agreement that cannot be extended |
| `LzTree.BetweenAgrees` | 7zip-main/C/LzFind.c:983-985 | What lies between two suffixes shares what both share with a third: comparison may start at the smaller of the two kept lengths |
| `LzTree.InsertKeepsTree` | 7zip-main/C/LzFind.c:962-1029 | Inserting a suffix keeps the search order, the fall of positions and the uniqueness of nodes, and loses no node except by replacement unless it is cut off |
| `LzTree.MatchesAreTrue` | 7zip-main/C/LzFind.c:993-1003 | Every report is a node of the tree with exactly the reported length in common with the current suffix, each longer and farther than the one before |
| `LzTree.MatchesDominate` | 7zip-main/C/LzFind.c:962-1029 | Unless the search is cut off, no node gives a match that is longer than one reported at no greater distance |
| `LzTree.InsertCovers` | 7zip-main/C/LzFind.c:1004-1011 | The suffix that is dropped on a full match stays represented by the current one |
| `LzSon.DescendInserts` | 7zip-main/C/LzFind.c:962-1029 | Inserting in place, through two holes in the cyclic array, builds the inserted tree and leaves every other tree alone |
| `LzSon.NextPrunes` | 7zip-main/C/LzFind.c:973-982 | Moving the window on cuts from every tree exactly the suffixes that leave the window, although no link is changed |
| `LzSon.NormalizeKeepsTrees` | 7zip-main/C/LzFind.c:764-825 | After subtracting `sub` from the position and, saturating, from every reference, the references name the same trees |
| `LzSearch.Compare` | 7zip-main/C/LzFind.c:986-991 | The byte loop, started at a length known to agree, finds the longest common prefix |
| `LzSearch.Visit` | 7zip-main/C/LzFind.c:983-1026 | One visit of a node: what is reported, what is hung where, and that the rest of the search is the search from there |
| `LzSearch.GetMatchesSpec1` | 7zip-main/C/LzFind.c:962-1029 | The loop over the cyclic array leaves the array of the in-place insertion and reports the matches of the tree |
| `LzSearch.SkipMatchesSpec` | 7zip-main/C/LzFind.c:1032-1088 | The loop without reports leaves the same array |
| `LzHash.Hash2Injective` | 7zip-main/C/LzFind.c:35-53 | Behind the same first byte, equal two-byte hashes mean equal bytes, for every table of 256 words, of which the CRC table is one |
| `LzHash.Hash3Injective` | 7zip-main/C/LzFind.c:44-53 | Behind the same first byte, equal three-byte hashes mean two equal bytes, for every such table |
| `LzForest.EnterKeeps` | 7zip-main/C/LzFind.c:1233-1239 | Entering a position keeps all trees, all tables, and that every covered position of the window is remembered |
| `LzForest.AdvanceKeeps` | 7zip-main/C/LzFind.c:1091-1096 | Moving on keeps them, also across the end of the cyclic buffer and for a smaller length limit, and until the first wrap the cyclic index stays the position |
| `LzForest.NormalizeKeeps` | 7zip-main/C/LzFind.c:832-873 | Normalization keeps them, with every bucket the same tree over the same positions of the text |
| `LzReport.EntryAgrees` | 7zip-main/C/LzFind.c:1247-1256 | A short-table entry that passes the distance test and the one-byte comparison agrees on its two, or three, bytes, which the code does not compare |
| `LzReport.EntryNearest` | 7zip-main/C/LzFind.c:1233-1238 | No nearer position of the window agrees on as many bytes |
| `LzReport.HeadIsTrue` | 7zip-main/C/LzFind.c:1241-1282 | The head report is true and rising, and no longer than the length passed on to the tree search |
| `LzReport.ReportIsTrue` | 7zip-main/C/LzFind.c:1219-1285 | Every match reported is true, has exactly the reported length, lies in the window, and lengths and distances rise strictly across the short tables and the tree |
| `LzReport.ReportDominates` | 7zip-main/C/LzFind.c:1219-1285 | With as many rounds as the buffer has slots, every earlier position of the history that agrees on at least four bytes is dominated by a reported match that is at least as long and at least as near |
| `LzNormal.DescendLowered` | 7zip-main/C/LzFind.c:832-873 | A search of lowered references in a lowered array leaves the lowered array |
| `LzNormal.LoweredReport` | 7zip-main/C/LzFind.c:832-873 | The report after normalization is the report before it |
| `LzNormal.UnboundedAgrees` | 7zip-main/C/LzFind.c:832-873 | From a state and any lowering of it, the run with further normalizations and the run of the finder with unbounded positions give the same reports |
| `LzNormal.NormalizationUnobservable` | 7zip-main/C/LzFind.c:764-873 | On every run, with normalizations anywhere in it, the reports are those of the run without any |
| `LzNormal.OnlyTheOldBecomeEmpty` | 7zip-main/C/LzFind.c:836-860 | With the subtrahend of the code, exactly the references that have left the window become empty |
| `LzNormal.StepsAreEvents` | 7zip-main/C/LzFind.c:1219-1285 | What one step of the finder reports, followed by what later steps report, is the report sequence of one such run |
| `LzMatchFinder.HeadMatches` | 7zip-main/C/LzFind.c:1241-1282 | The branching over the two short tables yields the head report and the length for the tree search |
| `LzMatchFinder.MatchFinder.constructor` | 7zip-main/C/LzFind.c:539-595 | A new finder is valid |
| `LzMatchFinder.MatchFinder.SetLimits` | 7zip-main/C/LzFind.c:500-536 | The limits set keep position, cyclic index and length limit sound up to the next check |
| `LzMatchFinder.MatchFinder.Normalize` | 7zip-main/C/LzFind.c:836-860 | When the position has wrapped to 0, both tables are lowered by one saturating subtraction and the position becomes the size of the cyclic buffer |
| `LzMatchFinder.MatchFinder.ReplaceHeads` | 7zip-main/C/LzFind.c:1226-1241 | The three heads are read and replaced |
| `LzMatchFinder.MatchFinder.MovePos` | 7zip-main/C/LzFind.c:1091-1112 | A move leaves the advanced state, normalized or not, wrapped or not |
| `LzMatchFinder.MatchFinder.Bt4GetMatches` | 7zip-main/C/LzFind.c:1219-1285 | Each call moves on by one byte, returns the report of its state, which is true, and leaves the state entered, advanced and perhaps normalized; with fewer than four bytes left it returns nothing |
| `LzMatchFinder.MatchFinder.SkipOne` | 7zip-main/C/LzFind.c:1554-1569 | A skipped byte leaves the same state as a searched one |
| `LzBatch.LongStep` | 7zip-main/C/LzFindOpt.c:346-397 | A position whose head matches in full takes over the two links of that head, and reports that one match |
| `LzBatch.FullMatchGoesOn` | 7zip-main/C/LzFindOpt.c:346-397 | A full match that goes on by one byte is a full match at the next position |
| `LzBatch.DeltaSearch` | 7zip-main/C/LzFindOpt.c:250-345 | The search in distances leaves the array and the report of the search in references |
| `LzBatch.RepeatLong` | 7zip-main/C/LzFindOpt.c:346-397 | The short cut through a run of equal distances leaves the plain loop where it would be |
| `LzBatch.GetMatchesSpecN2` | 7zip-main/C/LzFindOpt.c:223-400 | On every well-formed batch, output, array and end position are those of the plain loop, and the broken-link checks never fire |
| `LzBatch.SearchEach` | 7zip-main/C/LzFindMt.c:676-688 | The plain loop over a batch |
| `LzHeads.GetHeads4` | 7zip-main/C/LzFindMt.c:308-391 | The hash loop writes, for each position, the distance to the last position with the same hash, and leaves the table updated |
| `LzHeads.HashBlock` | 7zip-main/C/LzFindMt.c:516-541 | One block of the hash thread: its distances and its table are counted from its own position, normalized if that is about to overflow |
| `LzHeads.RunStaysAlike` | 7zip-main/C/LzFindMt.c:527-532 | Whenever the two threads normalize, each by its own position, the table of one keeps leading to the trees of the other: the same distance inside the window, and out of the window otherwise |
| `LzHeads.PieceOfBlock` | 7zip-main/C/LzFindMt.c:652-688 | A block of distances may be taken in pieces: however often the tree thread has normalized in between, the next ones are the distances its trees need |
| `LzHeads.ValidFits` | 7zip-main/C/LzFind.c:500-536 | Between two calls the limits of a valid match finder leave room for every step up to the next check, and its own table leads to its trees |
| `LzHeads.FitsNext` | 7zip-main/C/LzFindMt.c:652-688 | After one position of a batch the rest of it still fits |
| `LzHeads.DeltasNext` | 7zip-main/C/LzFindMt.c:652-688 | The distances still to come are those of the new state, whatever the table counts from |
| `LzHeads.ReachableIsReady` | 7zip-main/C/LzFindMt.c:652-700 | In every state of the finder and for every table that leads to its trees, the distances of the hash loop for as many positions as the cyclic buffer and the text have room for are a well-formed batch |
| `LzHeads.BatchIsWalk` | 7zip-main/C/LzFindMt.c:676-688 | The plain loop enters the positions one after the other and writes the matches of each tree |
| `LzHeads.BtSearch` | 7zip-main/C/LzFindMt.c:689-721 | In every state of the finder, with distances from a table counted from any start, the batched search succeeds, with array and output of the plain loop |
| `LzHeads.PlainSearch` | 7zip-main/C/LzFindMt.c:676-688 | The plain loop in the same state, with that array and output |
| `Bcj2Range.TakesWhatWasPut` | 7zip-main/C/Bcj2.c:211-236 | A range decoder that follows the encoder gets the bit that was put, has the byte it needs, and follows on |
| `Bcj2Range.PutKeeps` | 7zip-main/C/Bcj2Enc.c:310-331 | Every reachable probability leaves enough range on both sides of a bit for one normalization to suffice |
| `Bcj2Carry.RepEmit` | 7zip-main/C/Bcj2Enc.c:62-73 | A waiting byte written with the carry added leaves the number represented unchanged |
| `Bcj2Carry.CacheTakesCarry` | 7zip-main/C/Bcj2Enc.c:59-79 | A carry never overflows the cached byte |
| `Bcj2Carry.FlushedIsWritten` | 7zip-main/C/Bcj2Enc.c:363-366 | Five shifts at the end write out the whole number, and nothing is left waiting |
| `Bcj2Model.MeetsBit` | 7zip-main/C/Bcj2.c:203-236 | At each marker the decoder reads the decision of the encoder |
| `Bcj2Model.TargetReturns` | 7zip-main/C/Bcj2.c:251-257 | The absolute target read back and made relative gives the four offset bytes |
| `Bcj2Model.RoundTrip` | 7zip-main/C/Bcj2.c:28-282 | For every input, all limits on conversion and all divisions into blocks, decoding the four streams gives the input back, uses up all four streams and ends with code 0 |
| `Bcj2Encoder.Bcj2Enc.constructor` | 7zip-main/C/Bcj2Enc.c:22-42 | A new encoder is at the start of any input |
| `Bcj2Encoder.Bcj2Enc.ShiftLow` | 7zip-main/C/Bcj2Enc.c:46-80 | A shift, also one that stopped for room and is resumed, multiplies the number represented by 256 |
| `Bcj2Encoder.Bcj2Enc.EncodeTwo` | 7zip-main/C/Bcj2Enc.c:153-367 | One call, on any piece of input and any room, moves the streams on towards those of the whole input, or stops for a reason that holds, in all three finish modes |
| `Bcj2Encoder.Bcj2Enc.EncodeTemp` | 7zip-main/C/Bcj2Enc.c:403-441 | A round over the carried bytes keeps the order of the input |
| `Bcj2Encoder.Bcj2Enc.EncodeUnread` | 7zip-main/C/Bcj2Enc.c:385-464 | Bytes borrowed from the caller one at a time are given back when they are not needed |
| `Bcj2Encoder.Bcj2Enc.EncodeCall` | 7zip-main/C/Bcj2Enc.c:382-494 | However the input is cut into blocks, with limits of their own, and blocks and room into calls, the encoder waits for something it lacks, or has finished a block with none of it left in its buffer and no conversion across its end, or has written exactly the four streams of the input |
| `Bcj2Decoder.Bcj2Dec.constructor` | 7zip-main/C/Bcj2.c:16-26 | A new decoder is at the start of any four streams |
| `Bcj2Decoder.Bcj2Dec.ReadStart` | 7zip-main/C/Bcj2.c:32-51 | The five start bytes, over any number of calls; an error only for streams that have no start |
| `Bcj2Decoder.Bcj2Dec.Resume` | 7zip-main/C/Bcj2.c:53-87 | A word or offset bytes left over by an earlier call are dealt with first |
| `Bcj2Decoder.Bcj2Dec.Decode` | 7zip-main/C/Bcj2.c:28-282 | Every call keeps the decoder on the one course through the whole streams and stops only for a stream or room that it lacks |
| `Bcj2Decoder.Bcj2Dec.RightSoFar` | 7zip-main/C/Bcj2.c:28-282 | What has been decoded at any stop is a beginning of the result |
| `Bcj2Decoder.Bcj2Dec.StopsAtEnd` | 7zip-main/C/Bcj2.c:171-190 | Once everything is supplied it stops only at the end of the main stream, or for want of room with output still to come |
| `Bcj2Decoder.Bcj2Dec.InputBack` | 7zip-main/C/Bcj2.c:28-282 | On what the encoder wrote, in any pieces, no error occurs and the output is a beginning of the input |
| `Bcj2Decoder.Bcj2Dec.AllBack` | 7zip-main/C/Bcj2.c:28-282 | On all of what the encoder wrote, with room for it, the decoder ends with exactly the input, code 0 |
| `HuffCost.Exchange` | 7zip-main/C/HuffEnc.c:167-255 | Giving the longer word to the smaller weight does not cost more and keeps the Kraft sum |
| `HuffCost.JoinSmallest` | 7zip-main/C/HuffEnc.c:185-254 | A lower bound for the list with the two smallest weights merged gives one for the list itself, over all prefix lengths |
| `HuffTree.RestIsLowerBound` | 7zip-main/C/HuffEnc.c:185-254 | Every prefix code costs at least the weights of all inner nodes that are still to be made |
| `HuffBuild.MergeOne` | 7zip-main/C/HuffEnc.c:185-254 | One merge in place, with packed weights, stale bits and both early ends, makes the node of the model |
| `HuffBuild.Build` | 7zip-main/C/HuffEnc.c:165-255 | The in-place merging loop stops with parents set for all nodes that have one and the rest known to be pairs |
| `HuffLevels.Unfold` | 7zip-main/C/HuffEnc.c:288-306 | Unfolding a node replaces its level by two levels below it |
| `HuffLevels.LevelsCostRest` | 7zip-main/C/HuffEnc.c:283-307 | With the levels of the tree the cost is exactly the sum of the inner nodes, the lower bound |
| `HuffLimit.SplitKraft` | 7zip-main/C/HuffEnc.c:303-304 | Splitting a leaf keeps the Kraft sum |
| `HuffLimit.FindsLeaf` | 7zip-main/C/HuffEnc.c:296-302 | There is a leaf above the deepest level exactly while the leaves do not fill that level |
| `HuffEnc.LeafToSplit` | 7zip-main/C/HuffEnc.c:296-302 | The search for a leaf to split, which has no bound of its own, finds one exactly while there are fewer than 2^maxLen leaves |
| `HuffEnc.NoLeafLeft` | 7zip-main/C/HuffEnc.c:293-302 | With more than 2^maxLen used symbols, a state with 2^maxLen leaves has all of them at the deepest level, the next node lies too deep, and the search has no leaf |
| `HuffEnc.ThreeInOneBit` | 7zip-main/C/HuffEnc.c:293-302 | So it is from the start for three symbols and a limit of one bit |
| `HuffEnc.NoCodeForMore` | 7zip-main/C/HuffEnc.h:12-17 | For more than 2^maxLen used symbols no complete prefix code within the limit exists |
| `HuffEnc.FindLeaf` | 7zip-main/C/HuffEnc.c:301 | It finds the deepest one above the limit |
| `HuffLimit.UnlimitedIsOptimal` | 7zip-main/C/HuffEnc.c:309-322 | When no leaf had to be moved, the lengths cost as little as any prefix code |
| `HuffCode.CodesUse` | 7zip-main/C/HuffEnc.c:323-330 | The codes up to a length use exactly the share that their lengths claim |
| `HuffCode.PrefixFree` | 7zip-main/C/HuffEnc.c:323-357 | No code is the beginning of another |
| `HuffCode.CodeFits` | 7zip-main/C/HuffEnc.c:323-357 | A code has as many bits as its length says |
| `HuffSort.SortByFreq` | 7zip-main/C/HuffEnc.c:53-116 | The list holds every symbol once, the used ones first and in order of frequency, packed into words |
| `HuffSort.StartBuckets` | 7zip-main/C/HuffEnc.c:94-103 | The counters become the bucket starts, unused symbols last |
| `HuffOrder.OrderDoesNotMatter` | 7zip-main/C/HuffEnc.c:105-116 | Cost and Kraft sum depend on the symbols, not on the order in which they are listed |
| `HuffEnc.TailLevels` | 7zip-main/C/HuffEnc.c:258-281 | The pairs left when the leaves ran out get their levels, with the leaf counts kept |
| `HuffEnc.BottomLevels` | 7zip-main/C/HuffEnc.c:283-307 | All other inner nodes get theirs; the Kraft sum stays 1 and no leaf is below the limit |
| `HuffEnc.AssignLens` | 7zip-main/C/HuffEnc.c:309-322 | Lengths are given out in order, the longest to the rarest |
| `HuffEnc.AssignCodes` | 7zip-main/C/HuffEnc.c:323-357 | Every symbol gets the canonical code of its length |
| `HuffEnc.FewSymbols` | 7zip-main/C/HuffEnc.c:134-158 | With at most two used symbols two symbols get the codes 0 and 1 |
| `HuffEnc.Generate` | 7zip-main/C/HuffEnc.c:35-361 | For all frequencies of at most 2^maxLen used symbols, the case in which such a code exists: every used symbol has a code, no length exceeds the limit, the code is prefix free and complete (Kraft sum exactly 1), and it is optimal among all prefix codes whenever the tree keeps below the limit |
| `X86Word.PlainBack` | 7zip-main/C/Bra86.c:149-156 | Conversion of an operand is undone by conversion the other way, and the sign byte stays a sign byte |
| `X86Word.GuardedBack` | 7zip-main/C/Bra86.c:100-121 | So is the conversion with a second round for a byte that would become a sign |
| `X86Word.GuardedStays` | 7zip-main/C/Bra86.c:107-116 | The guarded byte is no sign before or after |
| `X86Filter.PassedAgain` | 7zip-main/C/Bra86.c:84-99 | An instruction that the encoder passes over is passed over by the decoder, although the bytes behind it have changed |
| `X86Filter.RoundTrip` | 7zip-main/C/Bra86.c:47-175 | For all data, positions, masks and pc: decoding what was encoded gives the bytes back and ends at the same position with the same mask |
| `X86Filter.Convert` | 7zip-main/C/Bra86.c:47-175 | The scanning loops with their jumps compute that run in place |
| `RiscvWord.JalBack` | 7zip-main/C/Bra.c:528-558 | A converted JAL comes back if and only if its position is even |
| `RiscvWord.PairBack` | 7zip-main/C/Bra.c:563-592 | A converted AUIPC pair looks encoded, and comes back at every position |
| `RiscvWord.EscapeBack` | 7zip-main/C/Bra.c:596-607 | A pair that looks encoded is escaped, and comes back |
| `RiscvFilter.RoundTrip` | 7zip-main/C/Bra.c:482-709 | For all data, the decoder ends where the encoder ended, and gives the data back if and only if the position is even or no JAL was converted |
| `RiscvFilter.OddPositionLosesCall` | 7zip-main/C/Bra.c:533-534 | For the exported function alone: at every odd pc one plain call is not restored |
| `RiscvFilter.ReversibleIffEven` | 7zip-main/C/Bra.c:512-709 | The filter is reversible on all data if and only if pc is even |
| `RiscvFilter.CallsAreOneRun` | 7zip-main/C/Bra.h:61-99 | However a stream is cut into calls, each continuing where the last one stopped with the position moved on, the result is that of one call on the whole stream |
| `RiscvFilter.StreamsComeBackIffEven` | 7zip-main/CPP/7zip/Compress/BranchMisc.cpp:76-104 | Every stream, encoded in any calls and decoded in any others, comes back if and only if its start position is even: the check of the start position is needed, and it is enough for all later calls |
| `RiscvFilter.Convert` | 7zip-main/C/Bra.c:482-709 | The scan over two units at a time computes that run in place |
| `RiscvFilter.EncodeAt` | 7zip-main/C/Bra.c:514-611 | One instruction in place, encoding |
| `RiscvFilter.DecodeAt` | 7zip-main/C/Bra.c:618-707 | One instruction in place, decoding |
| `WordSort.SiftDown` | 7zip-main/C/Sort.c:151-174 | The word goes down to a place where no child is larger, along the larger children |
| `WordSort.PopHole` | 7zip-main/C/Sort.c:250-255 | Taking the root out, with its two successors moving up at once, leaves a hole below which the last item belongs |
| `WordSort.MakeHeap` | 7zip-main/C/Sort.c:208-233 | Stage one makes a heap, of which place 0 is an extra root above place 1 |
| `WordSort.HeapSort` | 7zip-main/C/Sort.c:195-268 | The words are put into rising order, the same words as before, and nothing else changes |
| `BwtOrder.OneRound` | 7zip-main/C/BwtSort.c:590-599 | One round decides the order of two rotations: what more bytes show, the bytes of one round show |
| `BwtOrder.LessBehind` | 7zip-main/C/BwtSort.c:100-215 | Rotations that agree on `h` bytes are in the order of the rotations `h` bytes on |
| `BwtOrder.OrderIsLexicographic` | 7zip-main/C/BwtSort.c:408-410 | The cyclic order is the lexicographic order of the rotations as sequences |
| `BwtGroups.Refined` | 7zip-main/C/BwtSort.c:163-307 | Reordering one group and splitting it by keys read at any moment of the pass keeps all groups in the order of the rotations, and only splits the groups of the start of the pass |
| `BwtGroups.Doubled` | 7zip-main/C/BwtSort.c:538-611 | Although groups change during a pass, rotations whose keys were in one group at its start agree on twice as many bytes |
| `BwtGroups.NextPass` | 7zip-main/C/BwtSort.c:538-611 | After a pass the state of the next pass holds, for twice as many bytes |
| `BwtGroups.EndsInOrder` | 7zip-main/C/BwtSort.c:590-599 | When all groups are single, or all bytes have been compared, the rotations are in order |
| `BwtMarks.MarkedWord` | 7zip-main/C/BwtSort.c:68-90 | The index and the three marks of a word are independent of each other and read back |
| `BwtMarks.SetGroupSize` | 7zip-main/C/BwtSort.c:80-90 | The size of an open group is marked in its first two words, and no index changes |
| `BwtMarks.SetFinishedGroupSize` | 7zip-main/C/BwtSort.c:74-78 | So is the size of a run of sorted places |
| `BwtMarks.TakeMarks` | 7zip-main/C/BwtSort.c:562-571 | The marks are read back, and taken away |
| `BwtRadix.PlacesArePerm` | 7zip-main/C/BwtSort.c:461-513 | The places given out by the counters are a permutation |
| `BwtRadix.PlaceIndices` | 7zip-main/C/BwtSort.c:482-513 | The loop puts every rotation into its place |
| `BwtRadix.BucketedState` | 7zip-main/C/BwtSort.c:419-513 | After the counting step the rotations are sorted by two bytes, with every group numbered by its first place |
| `BwtRefine.WordsSorted` | 7zip-main/C/BwtSort.c:140-163 | A sorted list of words made of key and place gives each key with a place that has it, all places once |
| `BwtRefine.RefineByKeys` | 7zip-main/C/BwtSort.c:123-215 | A small group is sorted by its keys and split, numbered and marked; or left whole, when no key differs. Two rotations still in one group agree on twice as many bytes |
| `BwtSort.Partition` | 7zip-main/C/BwtSort.c:257-278 | The exchange loop puts the places with keys below `mid` in front and changes nothing else |
| `BwtSort.OneKey` | 7zip-main/C/BwtSort.c:250-256 | A range of one holds keys of one group of the start of the pass, although the range is only an estimate of keys that change |
| `BwtSort.SplitReady` | 7zip-main/C/BwtSort.c:298-307 | After a split both halves are groups and both half ranges still bound their keys |
| `BwtSort.SplitRange` | 7zip-main/C/BwtSort.c:247-288 | The search for a middle that splits the group ends, with a proper split or a range of one |
| `BwtSort.SortGroup` | 7zip-main/C/BwtSort.c:94-406 | For every group and every state of a pass: the group is sorted and split as far as twice the bytes tell, all others are untouched, the marks fit, and the result says whether an open group is left |
| `BwtBlock.FirstStep` | 7zip-main/C/BwtSort.c:419-526 | Counting, placing and marking establish the state of the first pass |
| `BwtBlock.JoinRun` | 7zip-main/C/BwtSort.c:572-583 | A group of sorted places is joined to the run before it |
| `BwtBlock.Step` | 7zip-main/C/BwtSort.c:544-607 | One group of a pass, in passes that sort and in the last one, that numbers |
| `BwtBlock.Pass` | 7zip-main/C/BwtSort.c:538-611 | A pass either leaves the state for twice as many bytes, with an open group, or all rotations in order and every group its own place |
| `BwtBlock.RefBits` | 7zip-main/C/BwtSort.c:530-536 | The words of a small group fit 32 bits |
| `BwtBlock.BlockSort` | 7zip-main/C/BwtSort.c:408-628 | For every block: `indices` ends as the list of all rotations in lexicographic order, `groups` as its inverse, and the result is the place of the block itself |
| `LzThreads.ReaderKeeps` | 7zip-main/C/LzFindMt.c:121-187 | Every step of the reader of a ring keeps the counts of free, filled, held and written blocks |
| `LzThreads.WriteKeeps` | 7zip-main/C/LzFindMt.c:482-494 | The next block lies in no slot that the reader still needs |
| `LzThreads.StepKeeps` | 7zip-main/C/LzFindMt.c:448-549 | Whichever of the three threads takes the next step, the invariant of both rings, the locks and the window move is kept; unlocking and setting the stop flag are two steps |
| `LzThreads.ReaderNear` | 7zip-main/C/LzFindMt.c:839-869 | A reader is no farther behind its writer, in positions, than the blocks of the ring have room for |
| `LzThreads.PlacesKept` | 7zip-main/C/LzFindMt.c:470-545 | Whichever thread takes the next step, both readers stay inside the blocks of their rings, the pointers of all three threads name the bytes at their positions, and a window that has been moved keeps its history |
| `LzThreads.EveryRunIsSafe` | 7zip-main/C/LzFindMt.c:121-187 | In every interleaving the reader finds the complete block of its number, no block is written into a slot that is being read, no semaphore exceeds its maximum, also on a stop, the window moves only while nobody reads, locks are left only by their owners, and a stopped coder means that both other threads rest |
| `LzThreads.EveryRunKeepsWindow` | 7zip-main/C/LzFindMt.c:470-484 | In every interleaving each pointer names the same byte before and after a move of the window; while a run goes on, the hash thread is ahead of the coder by at most kHashBufferSize + kBtBufferSize positions, so the moved window still holds the whole history of the coder and of the tree thread |
| `LzThreads.NoRunDeadlocks` | 7zip-main/C/LzFindMt.c:121-187 | In every interleaving, whenever the coder waits inside a call some thread can take a step |

## Findings

| member | source | finding |
|---|---|---|
| `RiscvFilter.OddPositionLosesCall` | 7zip-main/C/Bra.c:482-708 | The exported function alone does not restore the data at an odd position: bit 0 of the target of a converted JAL is stored as zero, and the target comes back two bytes off. Its header (7zip-main/C/Bra.h:57-110) states no condition on `pc`. The callers in the repository check exactly the condition that `RiscvFilter.ReversibleIffEven` proves necessary and sufficient: 7zip-main/C/7zDec.c:582, 7zip-main/C/XzDec.c:124-127, which the Xz encoder shares, and 7zip-main/CPP/7zip/Compress/BranchMisc.cpp:57 and 99 with the alignment of BranchRegister.cpp:67. `RiscvFilter.StreamsComeBackIffEven` carries the check over to all later calls of a stream. |
| `HuffEnc.NoLeafLeft` | 7zip-main/C/HuffEnc.h:12-17 | The conditions in the header do not bound the number of used symbols by 2^maxLen. Beyond that no complete prefix code within the limit exists (`HuffEnc.NoCodeForMore`), and the search at HuffEnc.c:301 comes to have no leaf to find, for three used symbols and maxLen 1 at its first step (`HuffEnc.ThreeInOneBit`). Up to 2^maxLen used symbols `HuffEnc.Generate` meets its promise for all frequencies. |

With fewer than two used symbols `Huffman_Generate` gives a code of one bit to a symbol that does not occur as well
(HuffEnc.c:136-156), so that the code is complete.

## Left out

- LzmaDecoder.LzmaDec.DecodeToDic: `LzmaDec_DecodeToBuf`, `LzmaDecode`, property parsing and allocation are not modelled; a caller's wrap of the dictionary is `WrapDic`.
- LzmaDecoder.LzmaDec.InitDicAndState: `LzmaDec_UpdateWithUncompressed` and the framing of LZMA2 and XZ chunks are not modelled.
- LzmaDecoder.LzmaDec.DecodeReal: the register copies of the fields are the fields; the unrolled and the small-code variants of the loops are one loop each, and the variants in assembly are not modelled.
- LzMatchFinder.MatchFinder.constructor: direct input only. Reading blocks from a stream, moving the buffer (`MatchFinder_MoveBlock`), allocation and a history size of 0 are not modelled.
- LzMatchFinder.MatchFinder.Bt4GetMatches: of the finder variants only Bt4 is modelled; Bt2, Bt3, Bt5 and the hash chains Hc4 and Hc5 differ in the number of short tables or replace the tree by a list.
- LzHash.Hash3Injective: the hash masks are remainders by the table sizes; how the CRC table is computed is not modelled, because the contracts hold for every table of 256 words.
- LzHeads.BtSearch: storing batches in ring blocks and the mixing of short matches into the output (LzFindMt.c:1015-1250) are not modelled.
- LzThreads.EveryRunIsSafe: the contents of a block are its number and how many positions it covers. Creating and ending the threads, and a start without the initialization that has to come before it, are not modelled.
- LzThreads.EveryRunKeepsWindow: the last bytes of a stream, too few for a hash, which the tree thread passes on without moving its own pointer, are passed like the others; by then the window is not moved any more.
- LzThreads.NoRunDeadlocks: that a waiting thread is served in the end also needs a fair scheduler, and is not stated.
- BwtBlock.BlockSort: blocks of more than 2^20 bytes, for which the header demands the variant with external flags, are not modelled, nor is that variant or the one that sorts by heap only. The three parts of the one work buffer are three arrays, and the unrolled counting loops are one loop each.
- WordSort.HeapSort: the prefetch hints and the branch-free variants are left out; they do not change what is computed.
- LzMatchFinder.MatchFinder.Normalize: the vector variants of the saturating subtraction are one loop.
- Bcj2Decoder.Bcj2Dec.Decode: the buffers of the two branch streams are waited for in multiples of four bytes, as the interface of Bcj2.h demands of its callers; the original compares pointers only.
- HuffBuild.Build: parents are stored with shifts and masks; the variant that writes the upper 16-bit half directly is not modelled.
- HuffEnc.Generate: optimality among codes of limited length, when the limit is reached, is not claimed; the code does not promise it.
- RiscvFilter.Convert: the data are 16-bit units; a last odd byte, which the code leaves alone, is not part of the data.
- X86Filter.Convert: the scans over four bytes at a time with one word are scans over the same four bytes.
- The filters for ARM, ARM64, ARM Thumb, PowerPC, SPARC and IA-64 (Bra.c:75-420) would add easier members of the same kind.
- Encoders other than BCJ2 and Huffman (LzmaEnc.c, Ppmd7.c, Ppmd8.c), hashes and ciphers (Blake2s.c, Sha256.c, Aes.c, the CRC slicing tables), and the archive parsers (7zArcIn.c, Xz.c) are not modelled.
- The graphical and engine parts of the repository around 7-Zip, and the other libraries it carries, are not modelled.
