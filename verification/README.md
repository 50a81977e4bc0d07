# Models of FFmpeg 4.2.2 components, with proofs

Five parts of FFmpeg are modelled here in Dafny, each in the form its C code has: arrays and objects
changed in place are arrays and classes, and threads are a step relation over shared state. Every
operation is proved against a specification function, and the specifications are proved to do what
the code is for. `dafny verify dfyconfig.toml` checks everything.

**The 4XM video decoder** (`libavcodec/4xm.c`)

- `Sums`, `HuffmanTree`, `HuffmanOptimal`, `HuffmanCode`, `HuffmanNumbers`, `HuffmanBuild`,
  `HuffmanRanges`: the table reader and Huffman construction of `read_huffman_tables`. The reference is
  the set of all binary prefix codes.
- `PixelWords`, `BlockAlphabets`, `PBlocks`, `PBlockDecode`, `PBlockEncoder`, `BlockCodes`,
  `PBlockPixels`: the recursive P-frame block decoder, the two-pixels-per-word copy under it, and an
  encoder it inverts, down to the pixels of an image.
- `Idct`, `IdctCosines`: the fixed-point transform, against the same linear map over the reals, and that
  map against cosines.
- `FrameChunks`, `FramePackets`: reassembly of frames from interleaved chunks, against a description
  that sees the chunks of one id only, and a writer of the packets they come in.

**The queues of ffplay** (`fftools/ffplay.c`)

- `PacketQueues`, `SerialProtocol`, `SerialLaws`: packet queues, seeks and decoders, connected by serial
  numbers.
- `FrameQueues`: the frame ring, one statement at a time.

**The output path of ffmpeg** (`fftools/ffmpeg.c`)

- `FilterPump`: the loop that drives a chain of bitstream filters, against function composition.
- `RateConversion`, `RateLaws`, `RateCounts`: frame-rate conversion, its drift, which pictures are sent
  when, and what its counters count.
- `Muxing`, `MuxLaws`: counting, queueing and timestamp repair before the muxer.

**The condition variable for OS/2** (`compat/os2threads.h`)

- `CondVars`: wait, signal and broadcast from two event semaphores, against a monitor whose rounds
  are post, pass, leave, done.
- `CondVarStalls`: on which runs a signaller waits for an acknowledgement that never comes.

**The 012v unpacker** (`libavcodec/012v.c`)

- `Unpack012v`: the line unpacker, against a packer.

`Options` and `LittleEndian` hold what several modules share.

## Where the code does less than one might expect

For each of these there is a lemma that says exactly when the property does hold, and one with a
concrete run or input on which it fails.

- Serial numbers isolate returned audio and video frames across seeks, but not subtitles: a subtitle
  decoded before a seek can be returned with the serial of after it (`SerialProtocol.TaggedIff`,
  `SerialProtocol.StaleSubtitleReturned`).
- With all 257 symbols in use the Huffman loop stops one merge early and leaves two trees, so the
  codewords are not a prefix code (`HuffmanBuild.HuffmanTheorem`,
  `HuffmanRanges.ReadAllSymbols`). They are still optimal as lengths.
- Chunks with id 0 share their id with empty slots, and can lose bytes when an earlier slot becomes
  free (`FrameChunks.ZeroKeptIff`, `FrameChunks.ZeroLosesBytes`). That takes at least 99 unfinished
  frames of other ids (`FrameChunks.RoomyRefines`).
- The cfrm branch looks for a slot and does not check that it has found one: with 100 frames begun, the
  first chunk of another is stored at index -1 (`FrameChunks.PlaceIff`, `FrameChunks.NoSlotLeft`).
- `nb_frames_dup` counts frames that are never encoded when a stream is flushed twice in a row while
  it still owes frames (`RateConversion.ConservedIff`, `RateConversion.SecondFlushLoses`).
  `reap_filters(1)` flushes every stream that has ended each time it is called.
- Under a negative `-frames`, which the option parser accepts, a picture that one call leaves over is
  not counted as dropped by the next (`RateConversion.ConservedIff`,
  `RateConversion.NegativeLimitLoses`).
- A picture of which all frames are to repeat the picture before it, when there is none, is sent itself
  and yet marked as left over: `nb_frames_dup` is one too high, and `nb_frames_drop` too unless the next
  call repeats it (`RateCounts.DupsAreRepeatsIff`, `RateCounts.SentCounts`,
  `RateCounts.FirstPictureMiscounted`).
- A packet without a dts makes the muxer check of the next one start afresh, so that dts can go back
  (`Muxing.DtsIncreaseIff`, `Muxing.DtsGoBack`).
- POSIX.1-2017 lets a thread signal without holding the mutex; here two signals that overlap can
  leave a signaller waiting for an acknowledgement that never comes (`CondVarStalls.StallFreeIff`,
  `CondVarStalls.OrphanedSignal`). A run goes wrong exactly when the event is posted while it is posted
  or while nobody waits for it, or an acknowledgement while one is posted
  (`CondVarStalls.AlwaysBalancedIff`, `CondVarStalls.FinishIff`).
- Products of the inverse transform stay within 32 bits for AC coefficients up to 389, and can exceed
  them from 390 on (`Idct.SafeIff`, `Idct.WrapsAt390`).

## Model

| member | source | states |
|---|---|---|
| HuffmanRanges.ReadHuffmanTables | ffmpeg-4.2.2/libavcodec/4xm.c:616-712 | From any input: fails exactly when the ranges are cut short; otherwise the length and bit tables say, as numbers, codewords of at most 22 bits that no binary prefix code beats, none of which begins another exactly when at most 256 of the 257 symbols occur; where codewords part, the lighter ones go on with 0; symbols that do not occur get none |
| HuffmanRanges.ReadRanges | ffmpeg-4.2.2/libavcodec/4xm.c:632-658 | The in-place reading of the ranges stores the frequencies the format describes, sets symbol 256 to 1 and stops at a multiple of four bytes |
| HuffmanRanges.RoundTrip | ffmpeg-4.2.2/libavcodec/4xm.c:632-658 | Reading inverts the encoder of ranges: any list of ranges comes back as the table they overlay, with the position after it |
| HuffmanRanges.AcceptedIff | ffmpeg-4.2.2/libavcodec/4xm.c:637-658 | Encoded ranges are accepted exactly if the input has all of them and the padding to a multiple of four |
| HuffmanRanges.OverlayAt | ffmpeg-4.2.2/libavcodec/4xm.c:642-643 | A range sets exactly the symbols from its first to its last |
| HuffmanRanges.FrequenciesAreTable | ffmpeg-4.2.2/libavcodec/4xm.c:634-650 | Whatever the input, all frequencies are bytes and symbol 256 weighs 1 |
| HuffmanBuild.BuildHuffmanCode | ffmpeg-4.2.2/libavcodec/4xm.c:660-704 | The merge loop and the walks turn any such table into length and bit tables of at most 22 bits, never print "vlc length overflow", and spend no more bits than any binary prefix code; the numbers in the tables form a complete prefix code, by division alone, exactly when at most 256 symbols occur, and then the lighter of two parts of it has the 0 bit |
| HuffmanNumbers.PrefixFreeIff | ffmpeg-4.2.2/libavcodec/4xm.c:693-703 | Numbers of so many bits, the first bit most significant, begin one another exactly when the bit strings do |
| HuffmanNumbers.ZeroChild | ffmpeg-4.2.2/libavcodec/4xm.c:661-686 | Of the two nodes of a merge the one with the smaller weight has flag 0, and of two that weigh the same the earlier |
| HuffmanNumbers.WeightOfNode | ffmpeg-4.2.2/libavcodec/4xm.c:682-687 | A node weighs what the symbols below it weigh |
| HuffmanNumbers.LighterZero | ffmpeg-4.2.2/libavcodec/4xm.c:660-704 | With one tree, wherever codewords part after some bits, those that go on with 0 weigh no more in total than those that go on with 1; on a tie with the 1 ending a codeword the 0 ends that of a smaller symbol |
| HuffmanBuild.BuildTree | ffmpeg-4.2.2/libavcodec/4xm.c:660-688 | The loop over the flat arrays performs a run of merges of the two live entries least by (frequency, index) and stops only at one live entry or at 512 nodes; flag and up describe that run |
| HuffmanBuild.FindSmallest | ffmpeg-4.2.2/libavcodec/4xm.c:661-680 | The scan finds the two least live entries by (frequency, index), or reports that there are not two |
| HuffmanBuild.Walk | ffmpeg-4.2.2/libavcodec/4xm.c:693-700 | The walk from a symbol to its root terminates; it returns the depth and the path read from the root |
| HuffmanBuild.BuildCodes | ffmpeg-4.2.2/libavcodec/4xm.c:690-704 | Every symbol gets length and bits of its path, none of them longer than 22 |
| HuffmanBuild.HuffmanTheorem | ffmpeg-4.2.2/libavcodec/4xm.c:660-704 | Optimality on every table; prefix-freeness, and Kraft sum exactly 1, if and only if at most 256 of the 257 symbols occur (with all 257 the bound j < 512 leaves two roots) |
| HuffmanBuild.LengthAtMost22 | ffmpeg-4.2.2/libavcodec/4xm.c:693-699 | No codeword is longer than 22 bits: the overflow the code asks about cannot happen |
| HuffmanBuild.TableTotal | ffmpeg-4.2.2/libavcodec/4xm.c:642-650 | The weights total at most 65281, below the sentinel 256 * 256 |
| HuffmanBuild.BelowSentinel | ffmpeg-4.2.2/libavcodec/4xm.c:661-679 | By conservation of the total weight the sentinel exceeds every frequency a run can produce |
| HuffmanBuild.RootsLeft | ffmpeg-4.2.2/libavcodec/4xm.c:660-687 | A completed loop leaves one root if and only if at most 256 symbols occur |
| HuffmanTree.RunUnique | ffmpeg-4.2.2/libavcodec/4xm.c:661-679 | The selection rule leaves no choice: equally long runs on one table are equal |
| HuffmanTree.TotalKept | ffmpeg-4.2.2/libavcodec/4xm.c:682-687 | A merge conserves the total weight |
| HuffmanTree.RootsAreLive | ffmpeg-4.2.2/libavcodec/4xm.c:682-687 | The roots are the live entries, with the weight they were created with, and every parent has a larger index than its child |
| HuffmanTree.UpStable | ffmpeg-4.2.2/libavcodec/4xm.c:682-687 | A node that has a parent keeps it |
| HuffmanOptimal.KraftInequality | ffmpeg-4.2.2/libavcodec/4xm.c:660-704 | Every binary prefix code obeys the Kraft inequality |
| HuffmanOptimal.LongestPair | ffmpeg-4.2.2/libavcodec/4xm.c:660-704 | In some code at least as good, two live symbols share the greatest length |
| HuffmanOptimal.Exchange | ffmpeg-4.2.2/libavcodec/4xm.c:660-704 | Giving the longer word to the less frequent symbol costs nothing and keeps the Kraft sum |
| HuffmanOptimal.LowerBound | ffmpeg-4.2.2/libavcodec/4xm.c:660-704 | Any lengths within the Kraft inequality cost at least as much as the merges |
| HuffmanOptimal.FinalStage | ffmpeg-4.2.2/libavcodec/4xm.c:660-704 | The lengths of a run cost exactly its merges, and their Kraft sum counts the roots |
| HuffmanOptimal.Optimal | ffmpeg-4.2.2/libavcodec/4xm.c:660-704 | No prefix code for the symbols that occur is cheaper than the lengths of the run |
| HuffmanCode.CodeInjective | ffmpeg-4.2.2/libavcodec/4xm.c:690-704 | Different nodes have different paths |
| HuffmanCode.AncestorAt | ffmpeg-4.2.2/libavcodec/4xm.c:690-704 | Every proper prefix of a path is the path of an internal node |
| HuffmanCode.CompletePrefixCode | ffmpeg-4.2.2/libavcodec/4xm.c:660-704 | The codewords are a prefix code if and only if one root is left, if and only if their Kraft sum is 1 |
| HuffmanCode.FibonacciGrowth | ffmpeg-4.2.2/libavcodec/4xm.c:693-699 | d levels up, the weight is at least the Fibonacci number F(d + 2) |
| HuffmanCode.DepthNeedsWeight | ffmpeg-4.2.2/libavcodec/4xm.c:693-699 | A codeword of d bits needs a total weight of at least F(d + 2) |
| BlockAlphabets.Complete | ffmpeg-4.2.2/libavcodec/4xm.c:46-68 | All eight alphabets are complete: every five-bit window starts with exactly one symbol, 0 to 6 |
| BlockAlphabets.Splits | ffmpeg-4.2.2/libavcodec/4xm.c:70-75 | The table chosen for a block has split symbols exactly when both halves are at least two pixels, and the raw symbol exactly for two-pixel blocks; the 1x1 entry is never chosen |
| PBlocks.SourceInside | ffmpeg-4.2.2/libavcodec/4xm.c:361-424 | A source between start and end is read only inside the frame, whatever the block size |
| PBlocks.UnmovedPasses | ffmpeg-4.2.2/libavcodec/4xm.c:409-422 | The unmoved source of any block inside the frame passes the check, so the assertion of the fill case holds |
| PBlocks.ParseTiles | ffmpeg-4.2.2/libavcodec/4xm.c:342-427 | Every successful decode splits its rectangle into leaves that tile it exactly, none of them 1x1, raw ones two pixels, copied ones with checked sources |
| PBlockEncoder.BlockRead | ffmpeg-4.2.2/libavcodec/4xm.c:342-427 | Parsing inverts the encoder: for every tree of splits and leaves the streams written for it are consumed exactly and give its leaves in drawing order |
| PBlockEncoder.SymbolRead | ffmpeg-4.2.2/libavcodec/4xm.c:357-359 | The bits of a symbol are read back as the symbol |
| PBlockEncoder.LeafRead | ffmpeg-4.2.2/libavcodec/4xm.c:378-426 | Vectors, colours and raw pixels of a leaf are read back from their streams |
| PBlockDecode.OwnLeafDecides | ffmpeg-4.2.2/libavcodec/4xm.c:342-427 | Where leaves tile, each pixel is written exactly once, by its own leaf, or left unchanged by a skip leaf |
| PBlockDecode.FrameDecided | ffmpeg-4.2.2/libavcodec/4xm.c:482-488 | After a frame every pixel belongs to one leaf, which alone decides its value |
| PBlockDecode.FrameTiles | ffmpeg-4.2.2/libavcodec/4xm.c:482-488 | The leaves of all blocks of a frame tile the frame |
| PBlockDecode.FrameCovers | ffmpeg-4.2.2/libavcodec/4xm.c:482-488 | After each block the leaves so far cover exactly the blocks passed, each pixel once |
| PBlockDecode.Decoder.Mcdc | ffmpeg-4.2.2/libavcodec/4xm.c:294-340 | The word-wise block copy writes the pixels of its leaf and nothing else |
| PBlockDecode.Decoder.StorePair | ffmpeg-4.2.2/libavcodec/4xm.c:277-292 | One 32-bit operation writes the two pixels the leaf specifies |
| PBlockDecode.Decoder.StoreRaw | ffmpeg-4.2.2/libavcodec/4xm.c:378-391 | Two raw pixels go side by side or one above the other |
| PBlockDecode.Decoder.DecodeLeaf | ffmpeg-4.2.2/libavcodec/4xm.c:378-427 | A block that is not split is drawn, or fails, as its parse says |
| PBlockDecode.Decoder.DecodePBlock | ffmpeg-4.2.2/libavcodec/4xm.c:342-427 | The recursive decoder, writing in place, draws exactly the leaves of the parse and consumes exactly its input, or fails where the parse fails |
| PBlockDecode.Decoder.DecodePFrame | ffmpeg-4.2.2/libavcodec/4xm.c:482-488 | All blocks in raster order: the drawn leaves tile the frame and the last frame is untouched |
| PBlockPixels.DrawBlock | ffmpeg-4.2.2/libavcodec/4xm.c:342-427 | Round trip on pixels: a block of an image, described by a tree of moves, sums, flat parts and single pixels, is encoded, and decode_p_block leaves exactly the image in the block, the rest of the frame as it was and the streams where the block ends |
| PBlockPixels.DrawFrame | ffmpeg-4.2.2/libavcodec/4xm.c:482-488 | The same for a whole frame: after decode_p_frame the frame is the image |
| PBlockPixels.LeavesRight | ffmpeg-4.2.2/libavcodec/4xm.c:342-427 | Whichever leaf covers a pixel leaves there what the tree says: the pixel of the last frame at the distance of the vector, alone or as one of a pair with dc added, one value, or the first and the second raw pixel |
| BlockCodes.LargeBlocks | ffmpeg-4.2.2/libavcodec/4xm.c:44-64 | The bits of each block type from version 2 on, for blocks with sides of two pixels or more |
| BlockCodes.LowBlocks | ffmpeg-4.2.2/libavcodec/4xm.c:44-75 | The same for blocks one pixel high |
| BlockCodes.NarrowBlocks | ffmpeg-4.2.2/libavcodec/4xm.c:44-75 | The same for blocks one pixel wide |
| BlockCodes.SmallBlocks | ffmpeg-4.2.2/libavcodec/4xm.c:44-75 | The same for blocks of two pixels |
| BlockCodes.LargeBlocksBefore | ffmpeg-4.2.2/libavcodec/4xm.c:44-75 | The bits of each block type before version 2, for blocks with sides of two pixels or more |
| BlockCodes.LowBlocksBefore | ffmpeg-4.2.2/libavcodec/4xm.c:44-75 | The same for blocks one pixel high |
| BlockCodes.NarrowBlocksBefore | ffmpeg-4.2.2/libavcodec/4xm.c:44-75 | The same for blocks one pixel wide |
| BlockCodes.SmallBlocksBefore | ffmpeg-4.2.2/libavcodec/4xm.c:44-75 | The same for blocks of two pixels |
| PixelWords.EndiansAgree | ffmpeg-4.2.2/libavcodec/4xm.c:277-292 | The big-endian and the little-endian macro compute the same two pixels |
| PixelWords.CarryIntoSecond | ffmpeg-4.2.2/libavcodec/4xm.c:287-291 | The word operation adds the carry of the first pixel to the second |
| PixelWords.IndependentIff | ffmpeg-4.2.2/libavcodec/4xm.c:287-291 | It equals two separate additions modulo 2^16 if and only if the first sum stays below 2^16 |
| PixelWords.FillExact | ffmpeg-4.2.2/libavcodec/4xm.c:287-298 | With scale 0 every pixel becomes dc |
| Idct.Inverse | ffmpeg-4.2.2/libavcodec/4xm.c:163-246 | The transform in place stores the row pass of the column pass, shifted and narrowed |
| Idct.InPlace | ffmpeg-4.2.2/libavcodec/4xm.c:169-245 | Two passes over the 64 entries with any one-dimensional transform compute its separable transform |
| Idct.WithinOfExact | ffmpeg-4.2.2/libavcodec/4xm.c:161-246 | On every block on which no multiplication of either pass wraps, every entry before the shift is within 37.2 of the exact linear map with constants k / 65536 |
| Idct.StoredWhole | ffmpeg-4.2.2/libavcodec/4xm.c:237-244 | For any 16-bit DC and AC coefficients of at most 389 the shifted entries fit 16 bits |
| Idct.PassError | ffmpeg-4.2.2/libavcodec/4xm.c:161-207 | One pass without wrapping is within 3 of the exact map |
| Idct.ExactGain | ffmpeg-4.2.2/libavcodec/4xm.c:171-207 | The exact map counts the first input once and the others at most 10.4 times |
| Idct.EntriesFit | ffmpeg-4.2.2/libavcodec/4xm.c:161-207 | Entries of at most 4433, the first one excepted, cannot make a multiplication wrap |
| Idct.DcOnly | ffmpeg-4.2.2/libavcodec/4xm.c:163-246 | A block with only a DC coefficient becomes that coefficient shifted by 6 everywhere |
| IdctCosines.ColumnIsCosine | ffmpeg-4.2.2/libavcodec/4xm.c:161-207 | Column u of the exact map is, to within 0.00001 of its input, the wave that begins with the input and in which the neighbours of each entry add up to the entry times twice the cosine of u pi / 8: the inverse cosine transform over eight points |
| IdctCosines.CosinesDouble | ffmpeg-4.2.2/libavcodec/4xm.c:157-160 | The numbers used for these cosines fall from 2 by way of 0 and double as angles do |
| IdctCosines.SingleTransformed | ffmpeg-4.2.2/libavcodec/4xm.c:163-246 | A coefficient alone in row u, column v of a block gives the product of the cosine u down the columns and the cosine v along the rows, to within the rounding of both passes and of the shift |
| Idct.WrapsAt390 | ffmpeg-4.2.2/libavcodec/4xm.c:161-246 | With AC coefficients of 390 a multiplication of the second pass can wrap |
| FrameChunks.Reassembler.AddChunk | ffmpeg-4.2.2/libavcodec/4xm.c:843-921 | The cfrm branch, on every packet: which slot the chunk goes to, what is gathered, delivered or refused, that no other slot changes, and when there is no slot at all |
| FrameChunks.Reassembler.FindSlot | ffmpeg-4.2.2/libavcodec/4xm.c:880-890 | The scan finds the first slot of the id, or else the last empty one, or -1 |
| FrameChunks.AcceptPending | ffmpeg-4.2.2/libavcodec/4xm.c:880-917 | A chunk changes what is pending for its own id as the reference says, and for no other id; id 0 included unless the chunk hides its bytes |
| FrameChunks.SlotsRefine | ffmpeg-4.2.2/libavcodec/4xm.c:867-921 | For every interleaving and every id, the slots hold what has arrived since the last delivery, in order, and exactly the frames of the reference were delivered; for id 0 on the runs of ZeroKeptIff |
| FrameChunks.FramesSurvive | ffmpeg-4.2.2/libavcodec/4xm.c:867-921 | Frames cut into chunks of one id and interleaved with any other chunks are delivered whole, once each, in order, with the chunk that reaches the size given for the frame; under id 0 on the runs of ZeroKeptIff |
| FramePackets.PacketRead | ffmpeg-4.2.2/libavcodec/4xm.c:843-873 | A packet of tag, size, four bytes, id, whole size and payload, all numbers little-endian in two's complement, is read as the chunk it was written for; it is refused exactly if the version is below 2, the whole size negative or the size field, in 32 bits, more than the packet |
| FramePackets.EveryPacket | ffmpeg-4.2.2/libavcodec/4xm.c:843-868 | Every packet of at least twenty bytes is such a packet |
| FramePackets.DecodePackets | ffmpeg-4.2.2/libavcodec/4xm.c:836-925 | Given one packet after another, the reassembly delivers exactly the frames of the run over their chunks, packets that are refused left out |
| FramePackets.FramesSurvivePackets | ffmpeg-4.2.2/libavcodec/4xm.c:843-921 | Frames that were cut, written into packets and mixed with the packets of any other chunks are delivered whole, once each, in order |
| FrameChunks.PlaceIff | ffmpeg-4.2.2/libavcodec/4xm.c:880-890 | The next chunk finds a slot if and only if its id has bytes outstanding or fewer ids have than there are slots; on the runs of ZeroKeptIff, since hidden bytes of id 0 take up slots of their own |
| FrameChunks.NoSlotLeft | ffmpeg-4.2.2/libavcodec/4xm.c:880-890 | A run that begins 100 frames, after which a chunk of another id has no slot and the code goes on with index -1 |
| PacketQueues.PacketQueue.PutPacket | ffmpeg-4.2.2/fftools/ffplay.c:427-454 | Appends the packet with the queue serial, which a flush packet raises first, unless aborted; counts, bytes and durations stay those of the contents |
| PacketQueues.PacketQueue.FlushAll | ffmpeg-4.2.2/fftools/ffplay.c:498-514 | Empties the queue and keeps the serial |
| PacketQueues.PacketQueue.Start | ffmpeg-4.2.2/fftools/ffplay.c:534-540 | Clears the abort request and puts a flush packet |
| PacketQueues.PacketQueue.Get | ffmpeg-4.2.2/fftools/ffplay.c:543-579 | Takes the first packet with its serial, or reports abort or emptiness |
| SerialProtocol.QueueStepKeepsInv | ffmpeg-4.2.2/fftools/ffplay.c:427-532 | What the reader does keeps serials rising only at flush packets, with the decoder free to look between the rise and the appending |
| SerialProtocol.DecoderStepKeepsInv | ffmpeg-4.2.2/fftools/ffplay.c:590-677 | What the decoder does keeps everything fed since the last flush on one serial |
| SerialProtocol.FedIsolated | ffmpeg-4.2.2/fftools/ffplay.c:590-677 | On every interleaving all packets fed since the last avcodec_flush_buffers carry one serial |
| SerialProtocol.TaggedIff | ffmpeg-4.2.2/fftools/ffplay.c:590-677 | On every run the returned frames are tagged with the serials they were decoded from, if and only if the codec is audio or video or no subtitle was returned after a flush packet that was used since its decoding |
| SerialProtocol.IsolatedIff | ffmpeg-4.2.2/fftools/ffplay.c:590-677 | On every interleaving each returned frame is tagged with the serial it was decoded from, if and only if the codec is audio or video |
| SerialProtocol.StaleSubtitleReturned | ffmpeg-4.2.2/fftools/ffplay.c:590-677 | A run on which a subtitle decoded before a seek is returned after it, tagged with the new serial |
| SerialLaws.EachPacketOnce | ffmpeg-4.2.2/fftools/ffplay.c:590-677 | On every run the packets taken from the queue are, in order, those fed, used as flush packets or thrown away for their serial, and the one held: none is lost or dealt with twice |
| SerialLaws.QueueInOrder | ffmpeg-4.2.2/fftools/ffplay.c:427-579 | The queue hands out packets in the order they were put, and is emptied by a seek only |
| SerialLaws.AbortStops | ffmpeg-4.2.2/fftools/ffplay.c:596-599 | After an abort no frame is returned but one that was under way |
| SerialLaws.AbortReturns | ffmpeg-4.2.2/fftools/ffplay.c:543-606 | After an abort the decoder returns from the top of its loop in two steps |
| FrameQueues.FrameQueue.Push | ffmpeg-4.2.2/fftools/ffplay.c:777-785 | The frame in the writable slot is appended to the contents of the queue, and nothing else in them changes |
| FrameQueues.FrameQueue.Next | ffmpeg-4.2.2/fftools/ffplay.c:787-800 | Drops the oldest frame of the contents, or, if the last frame is kept and none was shown, keeps them all and marks the first as shown |
| FrameQueues.StepKeepsInv | ffmpeg-4.2.2/fftools/ffplay.c:730-806 | Every statement of producer and consumer keeps the ring invariant |
| FrameQueues.RingSafety | ffmpeg-4.2.2/fftools/ffplay.c:730-806 | Over every interleaving of one producer and one consumer at statement granularity the writable slot is never readable, each of the three peeks reads a frame that is there, sizes stay in range, frames leave in push order, and in every state the write index is the read index plus the size up to the steps in flight |
| FrameQueues.LastShownKept | ffmpeg-4.2.2/fftools/ffplay.c:787-800 | With keep_last the frame just passed stays intact |
| CondVars.StepKeepsInv | ffmpeg-4.2.2/compat/os2threads.h:148-182 | Every atomic step of every thread keeps the protocol invariant when signallers hold the mutex |
| CondVars.SignalWakesOne | ffmpeg-4.2.2/compat/os2threads.h:148-156 | A completed signal has released exactly one thread, which had entered its wait before the post and has left the count |
| CondVars.NoWakeWithoutPost | ffmpeg-4.2.2/compat/os2threads.h:166-182 | No thread passes its wait without a post right before |
| CondVars.BroadcastWakesAll | ffmpeg-4.2.2/compat/os2threads.h:158-164 | Between the start of a broadcast and its end lie exactly as many rounds of post, pass, leave and done as threads were waiting at its start, and none is left waiting |
| CondVars.QuietOutsideRounds | ffmpeg-4.2.2/compat/os2threads.h:148-182 | While no signaller waits both semaphores are reset; wait_count is always the number of threads still counted |
| CondVars.SignalCompletes | ffmpeg-4.2.2/compat/os2threads.h:148-182 | A waiting signaller can always return within four more steps, with both semaphores reset |
| CondVars.HandshakeAdvances | ffmpeg-4.2.2/compat/os2threads.h:148-182 | No step of any thread takes the handshake back |
| CondVars.DisciplinedIff | ffmpeg-4.2.2/compat/os2threads.h:148-182 | Every run is a run of the reference monitor if and only if signallers hold the mutex; that signals do not overlap is not enough |
| CondVarStalls.DeficitStep | ffmpeg-4.2.2/compat/os2threads.h:148-182 | The number of waiting signallers without an acknowledgement on its way rises when the event or the acknowledgement is posted while it is posted, and no other step of any thread changes it |
| CondVarStalls.BalancedStepIff | ffmpeg-4.2.2/compat/os2threads.h:148-182 | A step keeps a balanced state balanced if and only if it is no post of an event that is posted or that nobody waits for, and no acknowledgement while one is posted |
| CondVarStalls.AlwaysBalancedIff | ffmpeg-4.2.2/compat/os2threads.h:148-182 | All states of a run are balanced if and only if none of its steps was such a post |
| CondVarStalls.FinishIff | ffmpeg-4.2.2/compat/os2threads.h:148-182 | On every run, wherever signals come from, a state can go on to one in which no signaller waits, without another thread starting to wait, if and only if it is balanced |
| CondVarStalls.Finish | ffmpeg-4.2.2/compat/os2threads.h:148-182 | From a balanced state the threads that wait already bring it about, in at most five steps each |
| CondVarStalls.DeficitStays | ffmpeg-4.2.2/compat/os2threads.h:148-182 | Once the deficit is above 0, in every later state some signaller waits, whatever is run |
| CondVarStalls.ThriftyNoOrphan | ffmpeg-4.2.2/compat/os2threads.h:148-182 | On a run without such a post no signal is orphaned |
| CondVarStalls.ExclusiveThrifty | ffmpeg-4.2.2/compat/os2threads.h:148-182 | If signals never overlap, with or without the mutex, no run has such a post |
| CondVarStalls.UnderMutexExclusive | ffmpeg-4.2.2/compat/os2threads.h:148-182 | Signals under the mutex never overlap |
| CondVarStalls.StallFreeIff | ffmpeg-4.2.2/compat/os2threads.h:148-182 | Every state of every run can finish if and only if signals are kept from overlapping, by the mutex or otherwise |
| CondVarStalls.OrphanedSignal | ffmpeg-4.2.2/compat/os2threads.h:148-156 | When two signals overlap, two signallers and one waiter leave a signaller that nobody acknowledges |
| CondVarStalls.OrphanStays | ffmpeg-4.2.2/compat/os2threads.h:148-156 | Such a signaller cannot return until another thread starts to wait |
| FilterPump.OutputStream.OutputPacket | ffmpeg-4.2.2/fftools/ffmpeg.c:846-886 | For any chain of filters, everything written so far is exactly the composition of the filters on everything given so far, including the end of the stream; after the end a packet is refused and another end changes nothing; the loop ends |
| FilterPump.OutputStream.Pump | ffmpeg-4.2.2/fftools/ffmpeg.c:859-884 | The loop ends with every filter drained, or with the end put out by the last filter |
| FilterPump.OutputStream.Move | ffmpeg-4.2.2/fftools/ffmpeg.c:862-883 | A trip that moves an item keeps every filter at or after idx drained, so no send meets an undrained filter; a repeated end passes on without effect |
| FilterPump.MoveKeepsInv | ffmpeg-4.2.2/fftools/ffmpeg.c:862-883 | Moving the next item on loses, repeats and reorders nothing |
| FilterPump.AgainKeepsInv | ffmpeg-4.2.2/fftools/ffmpeg.c:863-866 | Stepping back from a filter that wants input keeps the invariant |
| FilterPump.DrainedOutput | ffmpeg-4.2.2/fftools/ffmpeg.c:846-886 | A drained chain has put out the composition of its filters |
| FilterPump.EndedOutput | ffmpeg-4.2.2/fftools/ffmpeg.c:867-881 | When the last filter reports the end, everything before it has been put out |
| FilterPump.IntoPrefix | ffmpeg-4.2.2/fftools/ffmpeg.c:846-886 | At any time each filter has been sent a prefix of what the filters before it produce; this bounds the loop |
| RateConversion.OutputStream.DoVideoOut | ffmpeg-4.2.2/fftools/ffmpeg.c:1053-1348 | A call chooses how many frames to output as the switch says and then counts, encodes and returns accordingly, with every early return |
| RateConversion.OutputStream.Select | ffmpeg-4.2.2/fftools/ffmpeg.c:1089-1166 | The number of frames and the new sync_opts, for every synchronisation method and for a flush |
| RateConversion.OutputStream.Count | ffmpeg-4.2.2/fftools/ffmpeg.c:1176-1194 | The counters of dropped and duplicated frames |
| RateConversion.OutputStream.Encode | ffmpeg-4.2.2/fftools/ffmpeg.c:1197-1338 | Which picture each frame repeats, its pts, and where the loop returns early |
| RateConversion.MidPred | ffmpeg-4.2.2/libavcodec/mathops.h:98-112 | mid_pred is the median |
| RateConversion.CallBalance | ffmpeg-4.2.2/fftools/ffmpeg.c:1168-1346 | In one call the counters account for every frame except those an early return leaves out, and except a held picture under a negative frame limit |
| RateConversion.NoPictureIff | ffmpeg-4.2.2/fftools/ffmpeg.c:1206-1212 | A call runs out of pictures if and only if it is a flush that owes frames and has no last picture |
| RateConversion.ConservedIff | ffmpeg-4.2.2/fftools/ffmpeg.c:1168-1346 | Over all streams, frame limits and runs without time or duplication cut-off, after the final report (lines 1756-1757) frames encoded = pictures received + duplicates - drops, if and only if no flush owed frames without a last picture and no call under a negative frame limit found a picture held |
| RateConversion.NaturalLimitsCount | ffmpeg-4.2.2/fftools/ffmpeg.c:1168-1178 | With frame limits of at least 0 no held picture goes uncounted |
| RateConversion.SecondFlushLoses | ffmpeg-4.2.2/fftools/ffmpeg.c:1089-1092 | A run on which a second flush counts duplicates that nothing encodes, so that frames are not conserved |
| RateConversion.NegativeLimitLoses | ffmpeg-4.2.2/fftools/ffmpeg.c:1168-1178 | A run of two pictures under the frame limit -1 on which the first is neither encoded nor counted as dropped, so that frames are not conserved |
| RateConversion.CallDrift | ffmpeg-4.2.2/fftools/ffmpeg.c:1095-1152 | A call at constant rate moves sync_opts to between 0.5 before and 2.1 after the end time of its picture |
| RateConversion.DriftBounded | ffmpeg-4.2.2/fftools/ffmpeg.c:1095-1338 | The same after every call of every run with explicit constant rate, no drop threshold, end times that start at 0 or later and do not go back, and no cut-off |
| RateConversion.SyncOptsForward | ffmpeg-4.2.2/fftools/ffmpeg.c:1115-1163 | Only the pass-through methods can set sync_opts back |
| RateConversion.PtsIncrease | ffmpeg-4.2.2/fftools/ffmpeg.c:1197-1333 | On every run of the other methods the encoder gets strictly increasing pts |
| RateLaws.VfrCall | ffmpeg-4.2.2/fftools/ffmpeg.c:1095-1157 | At a variable rate a picture that ends 0.6 or more before sync_opts is left out; any other is sent once, at sync_opts if it ends at most 0.6 after that, and else at the time nearest to its start, or to sync_opts if it starts before that |
| RateLaws.VfrDriftBounded | ffmpeg-4.2.2/fftools/ffmpeg.c:1095-1338 | On every run at a variable rate, after every call, the end of the last picture is at most 1.6 before sync_opts and at most the longest duration less 0.5 after it |
| RateLaws.PassCall | ffmpeg-4.2.2/fftools/ffmpeg.c:1158-1161 | Without synchronisation every picture is sent once, at the time nearest to its start |
| RateLaws.ConstantCall | ffmpeg-4.2.2/fftools/ffmpeg.c:1095-1338 | At a constant rate the frames follow each other from sync_opts on, none, one or as many as are nearest to the time to the end of the picture; those earlier than 1.1 before its start show the last picture and those later this one |
| RateLaws.FirstMovedCall | ffmpeg-4.2.2/fftools/ffmpeg.c:1128-1139 | With a variable start the first picture is moved to the time nearest to its start and fills its own duration |
| RateLaws.FlushCall | ffmpeg-4.2.2/fftools/ffmpeg.c:1089-1092 | A flush repeats the last picture as often as the median of the last three repeat counts says |
| RateLaws.LastThree | ffmpeg-4.2.2/fftools/ffmpeg.c:1171-1174 | On every run the history of a stream is the repeat counts of its last three calls |
| RateLaws.TooLargeIff | ffmpeg-4.2.2/fftools/ffmpeg.c:1168-1187 | A call gives up exactly if it has frames to duplicate and more frames than thirty times the error threshold |
| RateLaws.TimeLimitCuts | ffmpeg-4.2.2/fftools/ffmpeg.c:1197-1213 | Otherwise it sends the frames, within the frame limit, that lie before the time limit, and ends early exactly if there are more |
| RateCounts.CountersTell | ffmpeg-4.2.2/fftools/ffmpeg.c:1168-1346 | On every run without a cut-off: nb_frames_dup is the number of frames that show a picture shown before, plus the frames missing, plus the pictures miscounted; nb_frames_drop after the final report is the number of pictures never shown, plus those miscounted, less those uncounted |
| RateCounts.DupsAreRepeatsIff | ffmpeg-4.2.2/fftools/ffmpeg.c:1168-1346 | nb_frames_dup is the number of repeats if and only if no flush was unfed and no picture was miscounted |
| RateCounts.DropsAreUnshownIff | ffmpeg-4.2.2/fftools/ffmpeg.c:1176-1178 | With frame limits of at least 0 the drops are the pictures never shown if and only if none was miscounted |
| RateCounts.SentCounts | ffmpeg-4.2.2/fftools/ffmpeg.c:1171-1346 | A picture comes to be marked as left over although it was sent exactly if there was no last picture and all its frames were to repeat one; a later call without repeats then counts it as dropped |
| RateCounts.FirstPictureMiscounted | ffmpeg-4.2.2/fftools/ffmpeg.c:1171-1346 | A run of one picture that is sent three times, counted as three duplicates and as one drop |
| Muxing.OutputStream.WritePacket | ffmpeg-4.2.2/fftools/ffmpeg.c:689-733 | A packet is refused, counted, queued or sent to the muxer, or the queue overflows fatally |
| Muxing.OutputStream.Repair | ffmpeg-4.2.2/fftools/ffmpeg.c:763-797 | The replacement of inverted timestamps and the raising of early ones |
| Muxing.OutputStream.Open | ffmpeg-4.2.2/fftools/ffmpeg.c:3003-3011 | A queue is emptied into the muxer, in order |
| Muxing.OutputFile.WriteHeader | ffmpeg-4.2.2/fftools/ffmpeg.c:2992-3012 | All streams have their queues emptied |
| Muxing.GuessIsClamp | ffmpeg-4.2.2/fftools/ffmpeg.c:770-773 | The formula with minimum and maximum is last_mux_dts + 1 clamped between pts and dts |
| Muxing.RunKeepsInv | ffmpeg-4.2.2/fftools/ffmpeg.c:689-798 | On every run of every set of streams: muxed packets, then queued ones, are the accepted ones in order; each is counted once; valid pts are not before dts; neighbours with valid dts are in order |
| Muxing.FirstFramesAccepted | ffmpeg-4.2.2/fftools/ffmpeg.c:703-709 | The packets accepted are exactly the first max_frames output |
| Muxing.MuxerGetsAll | ffmpeg-4.2.2/fftools/ffmpeg.c:703-733 | Once the header is written the muxer has got exactly those packets, in order, none lost, repeated or counted twice |
| MuxLaws.MuxDelivers | ffmpeg-4.2.2/fftools/ffmpeg.c:735-800 | In one call: a packet with nothing wrong passes unchanged, one whose dts is late gets the least dts allowed and a pts not before it, one whose dts is after its pts first gets one timestamp between the two for both; with exit_on_error a late one is fatal; conversion is applied once, before |
| MuxLaws.MuxerGetsDelivered | ffmpeg-4.2.2/fftools/ffmpeg.c:703-800 | On every run the muxer has, packet for packet, what is due for the first max_frames packets output, converted from the time base before the header exactly if a packet of the stream was queued then |
| MuxLaws.SoundRunUnchanged | ffmpeg-4.2.2/fftools/ffmpeg.c:735-800 | If the converted packets of a run have no pts before its dts and dts that rise as required, the muxer gets exactly these |
| MuxLaws.FatalIff | ffmpeg-4.2.2/fftools/ffmpeg.c:763-797 | After the header a packet ends the program exactly if it is within the frame limit, exit_on_error is set and its dts, straightened if need be, is before the least allowed |
| MuxLaws.OverflowIff | ffmpeg-4.2.2/fftools/ffmpeg.c:711-732 | Before the header a packet ends the program exactly if it is within the frame limit and eight packets wait already, and as many as allowed |
| Muxing.DtsIncrease | ffmpeg-4.2.2/fftools/ffmpeg.c:775-798 | If every packet has a dts, the dts at the muxer increase strictly, or do not decrease under TS_NONSTRICT |
| Muxing.MuxIncreasingIff | ffmpeg-4.2.2/fftools/ffmpeg.c:775-798 | A packet keeps the order of all valid dts if and only if it is not an early one right after a packet without dts |
| Muxing.DtsGoBack | ffmpeg-4.2.2/fftools/ffmpeg.c:775-798 | A run with a packet without dts on which the dts at the muxer go back |
| Unpack012v.DecodeFrame | ffmpeg-4.2.2/libavcodec/012v.c:38-145 | Fails exactly on unsupported sizes or short packets; otherwise every visible sample of every line is the one its word and field hold, or 0x8000 where the line has ended |
| Unpack012v.DecodeLine | ffmpeg-4.2.2/libavcodec/012v.c:72-136 | The loop over groups writes exactly the visible samples of its line and, when the last group has an even number of pixels, the first byte of one more sample of each chroma plane |
| Unpack012v.UnpackWords | ffmpeg-4.2.2/libavcodec/012v.c:89-123 | A group writes the samples of the words that are there and no others |
| Unpack012v.GroupLayout | ffmpeg-4.2.2/libavcodec/012v.c:88-123 | Which ten bits of the sixteen bytes of a group each of the twelve samples is |
| Unpack012v.FullGroupAvailable | ffmpeg-4.2.2/libavcodec/012v.c:46-62 | Under both stride choices a full group of six pixels has its sixteen bytes |
| Unpack012v.YUnpacked | ffmpeg-4.2.2/libavcodec/012v.c:88-138 | Of a packed line cut anywhere, a luma sample is the packed one shifted by 6 if its word is whole, and 0x8000 if not |
| Unpack012v.UUnpacked | ffmpeg-4.2.2/libavcodec/012v.c:88-138 | The same for the first chroma plane |
| Unpack012v.VUnpacked | ffmpeg-4.2.2/libavcodec/012v.c:88-138 | The same for the second chroma plane |
| Unpack012v.DecodableFirst | ffmpeg-4.2.2/libavcodec/012v.c:80-138 | The samples that can be decoded come first in each plane |
| Unpack012v.RoundTrip | ffmpeg-4.2.2/libavcodec/012v.c:70-140 | A line packed in whole groups comes back whole, each sample shifted by 6 |
| Unpack012v.PackedFrame | ffmpeg-4.2.2/libavcodec/012v.c:46-140 | Of a frame whose lines were packed and cut to the stride the decoder finds the stride, and each sample of its planes is the packed one shifted by 6 if the cut left its word, and 0x8000 if not |
| Unpack012v.FinishLine | ffmpeg-4.2.2/libavcodec/012v.c:129-136 | What is behind the full groups of a line is written, whether or not pixels are left |
| HuffmanRanges.ReadAll | ffmpeg-4.2.2/libavcodec/4xm.c:632-649 | The loop over ranges, until a range that starts at 0 or a lack of input |
| HuffmanRanges.ReadRange | ffmpeg-4.2.2/libavcodec/4xm.c:642-643 | The weights of one range are stored, and nothing else changes |
| HuffmanRanges.Align | ffmpeg-4.2.2/libavcodec/4xm.c:652-653 | The position is rounded up to a multiple of four |
| HuffmanRanges.ParseEncoded | ffmpeg-4.2.2/libavcodec/4xm.c:632-649 | Whatever surrounds them, encoded ranges are parsed up to the byte after them |
| HuffmanBuild.Join | ffmpeg-4.2.2/libavcodec/4xm.c:682-687 | One merge in the four tables, and no other entry changes |
| HuffmanBuild.BuiltExtend | ffmpeg-4.2.2/libavcodec/4xm.c:682-687 | A merge of the two least live entries extends the run that the tables describe |
| PBlockDecode.Decoder.StoreRow | ffmpeg-4.2.2/libavcodec/4xm.c:300-336 | One row of a block copy, for every block width |
| PBlockDecode.Decoder.DecodeTwo | ffmpeg-4.2.2/libavcodec/4xm.c:364-377 | The two halves of a split are drawn one after the other |
| PBlockDecode.Decoder.DecodeNext | ffmpeg-4.2.2/libavcodec/4xm.c:484-485 | The next 8x8 block is drawn behind those before it |
| PBlockDecode.Decoder.DecodeRow | ffmpeg-4.2.2/libavcodec/4xm.c:483-485 | One row of 8x8 blocks |
| PBlockEncoder.TwoRead | ffmpeg-4.2.2/libavcodec/4xm.c:364-377 | Two encoded blocks are read one after the other, each from where the one before stopped |
| Idct.ColumnPass | ffmpeg-4.2.2/libavcodec/4xm.c:171-207 | The first pass transforms every column |
| Idct.RowPass | ffmpeg-4.2.2/libavcodec/4xm.c:209-245 | The second pass transforms every row of the first, and shifts |
| FrameChunks.Reassembler.constructor | ffmpeg-4.2.2/libavcodec/4xm.c:146-153 | All slots start empty with id 0 |
| FrameChunks.OthersIgnored | ffmpeg-4.2.2/libavcodec/4xm.c:867-921 | The reference for an id depends on the chunks of that id alone |
| FrameChunks.EncodedDelivered | ffmpeg-4.2.2/libavcodec/4xm.c:904-918 | Chunks of whole frames deliver exactly these frames |
| PacketQueues.PacketQueue.Abort | ffmpeg-4.2.2/fftools/ffplay.c:523-532 | Sets the abort request and keeps the contents |
| SerialProtocol.Reachable | ffmpeg-4.2.2/fftools/ffplay.c:427-677 | The invariant holds on every interleaving of reader and decoder |
| FrameQueues.Reachable | ffmpeg-4.2.2/fftools/ffplay.c:730-806 | The invariant holds on every interleaving of producer and consumer |
| CondVars.Reachable | ffmpeg-4.2.2/compat/os2threads.h:148-182 | The invariant holds on every interleaving of any number of threads that signal under the mutex |
| CondVars.NeverStuck | ffmpeg-4.2.2/compat/os2threads.h:148-182 | While a signaller waits, some thread can take the next step of the handshake |
| FilterPump.OutputStream.SendFirst | ffmpeg-4.2.2/fftools/ffmpeg.c:855-857 | The first filter takes the input, or refuses a packet after the end |
| FilterPump.OutputStream.WriteUnfiltered | ffmpeg-4.2.2/fftools/ffmpeg.c:885-886 | Without filters the packet is written |
| RateConversion.OutputStream.SelectConstant | ffmpeg-4.2.2/fftools/ffmpeg.c:1141-1152 | The rule for a constant rate |
| RateConversion.OutputStream.Finish | ffmpeg-4.2.2/fftools/ffmpeg.c:1171-1346 | Counting, encoding and keeping the last picture |
| RateConversion.PictureEncoded | ffmpeg-4.2.2/fftools/ffmpeg.c:1197-1334 | Without a cut-off a picture has all its frames encoded and sync_opts moves by as many |
| Muxing.OutputStream.Prepare | ffmpeg-4.2.2/fftools/ffmpeg.c:735-761 | Timestamps are discarded or converted: none is invented, and a conversion that keeps order puts no dts behind its pts |
| Muxing.OutputStream.SendToMuxer | ffmpeg-4.2.2/fftools/ffmpeg.c:735-823 | The packet at the muxer and the new last_mux_dts |
| Muxing.OutputStream.Queue | ffmpeg-4.2.2/fftools/ffmpeg.c:711-732 | A full queue doubles up to its limit, beyond which the program ends |
| Unpack012v.ChooseStride | ffmpeg-4.2.2/libavcodec/012v.c:46-62 | Refuses exactly unsupported sizes and packets with less than 8 / 3 bytes a pixel, whatever the tag; otherwise the stride covers the line, fits the packet and leaves every full group its sixteen bytes |
| Unpack012v.LastGroup | ffmpeg-4.2.2/libavcodec/012v.c:72-127 | The samples of a last group, grey where the line has ended |
| Unpack012v.FullGroup | ffmpeg-4.2.2/libavcodec/012v.c:80-127 | A full group goes into the picture behind those before it |
| Unpack012v.Tail | ffmpeg-4.2.2/libavcodec/012v.c:129-136 | The visible samples of the last group are copied behind the full groups, and of each chroma plane the odd byte that the code copies too |
| Unpack012v.DecodeLines | ffmpeg-4.2.2/libavcodec/012v.c:70-140 | Every line goes to its own row of the picture and no row is written twice |
| Idct.SafeIff | ffmpeg-4.2.2/libavcodec/4xm.c:161-246 | With any 16-bit DC, no multiplication of either pass wraps on any block with AC coefficients of at most ac, if and only if ac is at most 389 |
| Idct.ColumnSize | ffmpeg-4.2.2/libavcodec/4xm.c:161-207 | The first pass turns entries of at most 389 into entries of at most 4433, which is all the second pass has room for |
| FrameChunks.ZeroKeptIff | ffmpeg-4.2.2/libavcodec/4xm.c:880-918 | The bytes of id 0, which empty slots share, are kept throughout a run if and only if no chunk completes a frame in a slot before the one that holds them |
| FrameChunks.RoomyRefines | ffmpeg-4.2.2/libavcodec/4xm.c:867-921 | While at most 98 nonzero ids are unfinished, every chunk finds a slot and every id, 0 included, is treated as the reference says |
| FrameChunks.ZeroLosesBytes | ffmpeg-4.2.2/libavcodec/4xm.c:880-918 | A run on which a complete frame of id 0 is not delivered because its second chunk goes to another slot |
| HuffmanRanges.AllSymbolsLive | ffmpeg-4.2.2/libavcodec/4xm.c:632-658 | An input of 260 bytes that is accepted and puts all 257 symbols in use |
| HuffmanRanges.ReadAllSymbols | ffmpeg-4.2.2/libavcodec/4xm.c:616-712 | The table reader accepts that input, and the codewords it builds are not a prefix code |
| FrameQueues.IndicesAgreeAlways | ffmpeg-4.2.2/fftools/ffplay.c:745-800 | In every reachable state the indices agree with the size, with each statement in flight accounted for |
| FrameQueues.FrameQueue.Write | ffmpeg-4.2.2/fftools/ffplay.c:745-759 | Filling the writable slot touches no frame in the queue |
| FrameQueues.FrameQueue.Peek | ffmpeg-4.2.2/fftools/ffplay.c:730-733 | The first frame of the contents that has not been shown |
| FrameQueues.FrameQueue.PeekNext | ffmpeg-4.2.2/fftools/ffplay.c:735-738 | The frame after it |
| FrameQueues.FrameQueue.PeekLast | ffmpeg-4.2.2/fftools/ffplay.c:740-743 | The first frame of the contents |
| FrameQueues.FrameQueue.NbRemaining | ffmpeg-4.2.2/fftools/ffplay.c:803-806 | The number of frames in the contents that have not been shown |
| FrameQueues.FrameQueue.constructor | ffmpeg-4.2.2/fftools/ffplay.c:690-709 | The queue starts empty |
| Muxing.DtsIncreaseIff | ffmpeg-4.2.2/fftools/ffmpeg.c:775-798 | On every run, the valid dts of a stream are in order at the muxer if and only if none of its packets was an early one right after a packet without dts |
| PBlockDecode.LeafIndependentIff | ffmpeg-4.2.2/libavcodec/4xm.c:277-340 | A copied block is the independent sum of each of its pixels if and only if no sum in an even column reaches 2^16 |
| CondVars.BroadcastCompletes | ffmpeg-4.2.2/compat/os2threads.h:158-164 | Every run inside a broadcast extends, by at most seven steps a waiter and three more, to the end of the broadcast with nobody counted and both semaphores reset |
| Unpack012v.RefusedIff | ffmpeg-4.2.2/libavcodec/012v.c:46-62 | The tag makes no difference to which packets are refused |

## Left out

- `init_vlc`, the AC and DC coefficient decoding, intra blocks, `decode_i2_frame` and `mix` of 4xm.c: other formats or library calls.
- The motion-vector table of 4xm.c: any table of 256 offsets is allowed, which covers both that `init_mv` builds.
- HuffmanRanges.ReadRanges: reads past the end of the input as zero, as packet padding is; what lies there in a larger buffer is not modelled.
- Splitting of a P frame packet into its three streams and the byte swapping of the bitstream: the streams are inputs.
- FrameChunks.Reassembler.AddChunk: ends with `Overrun` where the code has no slot; what the code then overwrites in front of the slots is not modelled. Failure of the reallocation is not modelled either.
- FrameChunks.PlaceIff: is about runs on which no chunk hides bytes of id 0; hidden bytes keep their slots although no id has them outstanding.
- Wrap-around of serials, frame counts and 64-bit timestamps: these are unbounded integers. 32-bit and 16-bit wrap-around is modelled in the pixel and transform code, where it matters.
- SDL condition variables and mutexes in ffplay: a step that would wait is a step that is not enabled. Progress and wake-ups of ffplay threads are not modelled.
- Codecs in ffplay: abstract, returning frames decoded from packets they were fed since their last flush. Timestamps of frames are not modelled.
- The `finished` serial and the `next_pts` of a decoder in ffplay: they are read by other threads only, or are timestamps.
- The serial comparisons of video_refresh, audio_decode_frame and queue_picture: consumers of frames that are already tagged.
- FrameQueues.RingSafety: assumes that `frame_queue_next` is called only with frames remaining, as all its callers ensure.
- Bitstream filters that fail, and filters that end before they are told to: the pump then stops with an error.
- The choice of frame duration and of the synchronisation method for "auto" in do_video_out: they are inputs, taken from library state.
- Forced key frames, interlacing, statistics and the packets of the video encoder in do_video_out: they do not feed back into rate conversion.
- RateConversion.Lrint: any integer within one half; the rounding of `double` to `float` before `lrintf`, and all other floating-point error, is not modelled.
- RateConversion.DriftBounded: is about pictures; a flush has no time to compare with.
- RateLaws.VfrDriftBounded: is about pictures too, and about durations of at least 0.
- RateCounts.CountersTell: is about runs without a time or duplication cut-off, after which the counters are not brought up to date.
- MuxLaws.FatalIff: is about a packet after the header; `OverflowIff` is about one before it.
- Errors of the muxer and the encoder, packet durations and side data in write_packet.
- Muxing.OutputFile.WriteHeader: starts when every stream is initialized; a header that cannot be written ends the run.
- CondVars.SignalCompletes: shows that the handshake can always finish and never goes back; that the operating system eventually runs each thread is outside the model.
- Unpack012v.DecodeLine: the byte copied past the visible chroma of an even last group is the low byte of its sample, as on a little-endian machine.
- Allocation failure and logging everywhere.
