# Rustleaks: decoding, scanning and reporting, verified

Rustleaks looks for secrets in files, in archives and in what they decode to. This project models the parts of it whose
correctness does not show in any single branch, and proves what they promise.

* **bzip2** (`Bwt`, `MoveToFront`, `Huffman`, `CanonicalCode`, `HuffmanBuilder`, `BitReader`, `SymbolStage`,
  `BlockReading`, `BlockDecoding`). The decoder's link table is built in place by a stable counting sort, and walking
  it undoes the Burrows-Wheeler transform of every block, also when rotations of the block are equal. The Huffman
  table builder is characterised for every length table: when it builds, when it reports equal symbols, and when its
  recursion does not return. Complete tables decode their canonical code. The move-to-front table, the run digits, the
  run-length coding and the bit cache each have an encoder or a plain counterpart that they are proved against. Put
  together, a block that is written bit by bit is read back to its bytes.
* **7z headers** (`Numbers`, `CoderGraph`, `BlockGraph`, `CoderChain`, `StreamMap`, `SubStreams`, and the writers in
  `NumberWriting`, `BlockWriting` and `SubStreamsWriting`). A block's coder graph is accepted if and only if its
  bindings are consistent and the graph is acyclic. What follows from acceptance: the coder chain visits nothing
  twice, a chain of simple coders visits everything, and the block has exactly one output. The stream map and the
  sub-stream tables conserve streams, sizes and checksums; archives are mapped if and only if their counts fit
  together; and bindings and sub-streams sections that were written are read back.
* **The engine** (`ScanControl`, `RuleScan`, `RuleMeaning`, `ScanMeaning`, `FragmentScan`, `SecretRemoval`, `Triage`).
  A scan is a list of charges that a budget and a cancellation signal can cut anywhere. What is committed is always a
  prefix made of whole rules. A scan that gets to its end finds, pass by pass and rule by rule, what the rules find on
  the content and on what it decodes to, and charges for exactly that; both are defined without the order of steps.
  Secret removal cuts nothing but secrets and leaves no secret behind, not even one that a deletion puts together.
  Reviews acknowledge exactly the findings their records name, and presentation groups partition the findings.
* **Sources** (`Chunker`, `Tar`, `ArchiveLog`, `ArchiveTrees`, `Archive`, and the RAR integers in `Numbers`). A file is
  cut into fragments without losing or repeating a byte. A traversal of nested archives ends and stays within its
  limits; whatever it hands on, reports or stops for has a cause that is on record; and when it goes on to its end
  without reporting anything, it has walked through every member of every nested container, and what it has handed on
  are exactly the plain files that were packed, in order.
* **Reports** (`Utf8`, `Quote`, `Template`, `Render`). Go-style quoting and the string literals that read it back. What
  a template says is defined on its nodes and values alone; rendering succeeds if and only if that is defined and fits
  the limits, and then writes exactly that. It stays within a bound on variables that is computed from the template.

Code that updates something step by step is modelled by methods and classes that do the same, each proved against a
function that says what the result is. The laws are lemmas about those functions. `Common`, `Bits`, `ByteOrder`,
`Permutations` and `Sorting` hold what several of them share: fixed-width words are numbers with their bounds written
out, and shifts and bitwise operations are defined on numbers.

`dafny verify dfyconfig.toml` checks the whole project.

## Where the code differs from what one might expect

The model follows the code. In these places a law one would expect is false, with an input that shows it and the
condition under which it holds.

* A table with code lengths of 31 can send the builder's recursion past its last level, from where it repeats itself
  until the stack or the 32-bit level gives out. It does so if and only if the smallest repeated code has an assigned
  sibling (`HuffmanBuilder.TableOutcomeExactly`, `HuffmanBuilder.RunawayTable`). Tables with lengths up to 30 are
  safe, and the block reader passes at most 20.
* Quoting writes an unprintable character from U+0080 to U+00FF as one byte, which is not that character. Reading back
  gives the quoted bytes if and only if there is no such character (`Quoting.QuoteRoundTrip`, `Quoting.SoftHyphenLost`).
* A stopped scan filters what it has committed without the findings it never got to. It returns what a complete scan
  would return for those rules if and only if no later finding suppresses one of them
  (`FindingFilter.PartialFilterExact`, `FindingFilter.PartialNotPrefix`). What is committed before filtering is a
  prefix in every case.
* The bzip2 reader does not close a run of exactly four bytes, so behind its count of zero the fourth more of the same
  byte comes too early: the next byte is taken for a number (`BlockReading.FourThenSame`). The reader agrees with the
  format when there is no such place, as in everything an encoder writes, and disagrees when there is one, whatever
  follows, unless the byte taken for a number is zero or the run's own (`BlockReading.ExpandAsFormat`,
  `BlockReading.EncodedNeverBreaks`). In those two cases values that follow can make up for the difference or not
  (`BlockReading.BreakCoincides`, `BlockReading.BreakAtZeroCoincides`).
* Without size keys the 7z size table is filled to its end if and only if no block has more than one file
  (`SubStreams.DefaultSizesFill`). With two files in a block of ten bytes, the first gets all ten and the second none
  (`SubStreams.UnkeyedTableShort`).
* The span of files that readers use for a 7z block is exactly the block's files if and only if the archive has a
  streamed file for each of its sub-streams and no empty entry lies among them (`StreamMaps.MapFillsBlocks`). With an
  empty entry between the two files of a block, the span has the empty entry in it and not the second file
  (`StreamMaps.SpanAroundEmpty`, `StreamMaps.MapAroundEmpty`).
* Reading on to a boundary counts line feeds from the last byte it was given on. It stops at the first safe place
  whatever follows if and only if the text it was given does not hide its last line feed behind other whitespace
  (`FileChunks.StopsWhereSafeExactly`, `FileChunks.LineFeedBlankLineFeed`).

## Model

| member | source | states |
|---|---|---|
| LinkTable.FirstSlots | crates/rustleaks-bzip2/src/block/bwt.rs:4-8 | The histogram becomes, for every byte, the number of smaller bytes in the block: the first slot of its bucket |
| LinkTable.SlotOrder | crates/rustleaks-bzip2/src/block/bwt.rs:10-14 | The slots that the cursors hand out order entries by byte first and position second, so the sort is stable |
| LinkTable.PlaceStep | crates/rustleaks-bzip2/src/block/bwt.rs:11-13 | Or-ing the shifted position into its slot places one more entry and disturbs neither a placed entry nor a byte |
| LinkTable.InverseBwt | crates/rustleaks-bzip2/src/block/bwt.rs:3-17 | The low bytes stay, the links are the permutation that sorts the bytes stably, every word fits 32 bits, and the link at the origin is returned |
| BlockTransform.SortedRotationsExist | crates/rustleaks-bzip2/src/block/bwt.rs:3-17 | Every block has a sorted order of its rotations, so the statements about sorted blocks are about all blocks |
| BlockTransform.LinkedRowIsPredecessor | crates/rustleaks-bzip2/src/block/bwt.rs:10-14 | Row by row, the links take the sorted rotations to the same rotations moved on by one byte, also when rotations are equal |
| BlockTransform.LinkRotatesLeft | crates/rustleaks-bzip2/src/block/mod.rs:153-156 | One step of the walk emits the next byte of the block and arrives at the rotation that starts behind it |
| BlockTransform.WalkRecoversBlock | crates/rustleaks-bzip2/src/block/bwt.rs:3-17 | For every block and every sorted order of its rotations, walking as many steps as there are bytes emits exactly the block |
| BlockReading.ExpandRun | crates/rustleaks-bzip2/src/block/mod.rs:158-170 | A coded run of up to 259 bytes is expanded to that run, and leaves the reader ready for the next one |
| BlockReading.ExpandUndoesEncode | crates/rustleaks-bzip2/src/block/mod.rs:141-173 | Expanding run-length coded bytes gives back every byte string that was coded |
| BlockReading.ExpandAsFormat | crates/rustleaks-bzip2/src/block/mod.rs:158-170 | The reader expands as the format does if no run of exactly four is followed by three more of its bytes and another one; if one is, the outputs differ whatever follows, unless that other byte is zero or the byte of the run |
| BlockReading.EncodedNeverBreaks | crates/rustleaks-bzip2/src/block/mod.rs:158-170 | Nothing that run-length coding writes has such a place, and reader and format both decode it |
| BlockReading.BreakCoincides | crates/rustleaks-bzip2/src/block/mod.rs:158-170 | With the byte of the run in that place, one input on which the outputs differ and one on which they coincide |
| BlockReading.BreakAtZeroCoincides | crates/rustleaks-bzip2/src/block/mod.rs:158-170 | With zero in that place, one input on which the outputs differ and one on which they coincide |
| BlockReading.FourThenSame | crates/rustleaks-bzip2/src/block/mod.rs:158-170 | For every run and every byte behind it, what the reader and the format make of such a place at the end of a block |
| BlockReading.BlockReader.constructor | crates/rustleaks-bzip2/src/block/mod.rs:410-414 | Behind the inverse transform, what is to be handed out is the expansion of the whole walk |
| BlockReading.BlockReader.ReadFromBlock | crates/rustleaks-bzip2/src/block/mod.rs:138-188 | Each call hands out the next bytes of the expansion, fewer than asked for only at its end, and reports the end by an empty answer |
| BlockReading.ReadInPieces | crates/rustleaks-bzip2/src/block/mod.rs:138-188 | However the calls divide the block, their answers put together are the same bytes |
| BlockReading.BlockRoundTrip | crates/rustleaks-bzip2/src/block/mod.rs:138-188 | Run-length coding, sorting the rotations, linking and walking give back every block |
| MoveToFront.MoveToFrontDecoder.constructor | crates/rustleaks-bzip2/src/move_to_front.rs:6-14 | The new table holds the bytes from 0 to 255 in order, each once |
| MoveToFront.MoveToFrontDecoder.FromSymbols | crates/rustleaks-bzip2/src/move_to_front.rs:16-18 | The table starts with the symbols given |
| MoveToFront.MoveToFrontDecoder.Decode | crates/rustleaks-bzip2/src/move_to_front.rs:20-32 | Returns the symbol at the position and moves it to the front; a table of all bytes stays one |
| MoveToFront.DecodeAll | crates/rustleaks-bzip2/src/move_to_front.rs:20-32 | Decoding a list in place gives what the decoding function gives, and a permutation of all bytes stays one throughout |
| MoveToFront.DecodeUndoesEncode | crates/rustleaks-bzip2/src/move_to_front.rs:20-32 | Decoding undoes move-to-front encoding for every byte string, from every table that covers it |
| MoveToFront.EncodeUndoesDecode | crates/rustleaks-bzip2/src/move_to_front.rs:20-32 | With all bytes in the table, every list of positions is the encoding of what it decodes to |
| HuffmanTree.FirstRightIndex | crates/rustleaks-bzip2/src/huffman.rs:99-105 | Finds the first code that has the level's bit set, or the number of codes |
| HuffmanTree.RunawayRepeats | crates/rustleaks-bzip2/src/huffman.rs:110-123 | From level 32 on, a group of equal codes is neither split nor rejected, so the call repeats itself one level further on, until the stack or the level counter gives out |
| HuffmanTree.BuildHuffmanNode | crates/rustleaks-bzip2/src/huffman.rs:93-152 | Fills the nodes behind the first free one with the tree of the codes, all links forward, one node less than codes, and nothing written before; or fails as the group does, or passes the last level |
| HuffmanTree.Decode | crates/rustleaks-bzip2/src/huffman.rs:76-91 | Stops after at most one bit per node, with the leaf that the bits lead to and the number of bits used |
| CodeGroups.GroupOutcome | crates/rustleaks-bzip2/src/huffman.rs:93-152 | A sorted group of even codes builds when they are distinct; otherwise its smallest repeated code decides between an error and a recursion without end |
| CodeGroups.TableOutcome | crates/rustleaks-bzip2/src/huffman.rs:93-152 | Level 0 tests a bit that no code has, so it passes the whole table to level 1 |
| CanonicalCode.CodeAndStart | crates/rustleaks-bzip2/src/huffman.rs:51-67 | In a complete table the wrapped running code, the code's width and the canonical start add up to the whole space |
| CanonicalCode.CodesDescend | crates/rustleaks-bzip2/src/huffman.rs:51-69 | In a complete table, codes do not overlap and run against the canonical order |
| CanonicalCode.SplitAtMiddle | crates/rustleaks-bzip2/src/huffman.rs:99-108 | Codes that tile a block are split by its level exactly in the middle of the block, into two groups that tile the halves |
| CanonicalCode.CompleteTableDecodes | crates/rustleaks-bzip2/src/huffman.rs:32-91 | A complete table builds, and decoding a symbol's canonical code gives the symbol after exactly its length in bits, whatever follows |
| HuffmanBuilder.AssignCodes | crates/rustleaks-bzip2/src/huffman.rs:51-67 | In order of the pairs, every symbol gets the wrapped sum of the widths before it |
| HuffmanBuilder.TableOutcomeExactly | crates/rustleaks-bzip2/src/huffman.rs:32-74 | For every length table, exactly when building passes the last level, when it builds, and that its only error is equal symbols |
| HuffmanBuilder.New | crates/rustleaks-bzip2/src/huffman.rs:32-74 | Succeeds if and only if no two symbols get the same code, in particular for every complete table, and the nodes then hold the tree of the codes; passes the last level if and only if the smallest repeated code has an assigned sibling; reports equal symbols otherwise |
| HuffmanBuilder.ShortCodesReturn | crates/rustleaks-bzip2/src/block/mod.rs:287-313 | Building returns for every table with lengths up to 30, so for all that the block reader passes |
| HuffmanBuilder.RunawayTable | crates/rustleaks-bzip2/src/huffman.rs:110-123 | A concrete table with lengths of 31 for which building passes the last level |
| HuffmanBuilder.TableDecodesCanonicalCode | crates/rustleaks-bzip2/src/huffman.rs:76-91 | The table built for a complete length table reads every symbol from its canonical code |
| BitReaders.BitReader.Next | crates/rustleaks-bzip2/src/bitreader.rs:92-100 | Gives the bits of the bytes from the highest down, and nothing behind the last |
| BitReaders.BitReader.AdvanceBy | crates/rustleaks-bzip2/src/bitreader.rs:74-81 | Skips bits if there are that many, and otherwise stays |
| BitReaders.BitReader.ReadBits | crates/rustleaks-bzip2/src/bitreader.rs:13-67 | Gives the number that the next bits spell and moves behind them; with fewer bits left it gives nothing and stays |
| BitReaders.CachedBitReader.Refresh | crates/rustleaks-bzip2/src/bitreader.rs:129-137 | Loads the digits of the eight bytes around the position, moved up to it; fails if and only if fewer than eight bytes are left |
| BitReaders.CachedBitReader.Next | crates/rustleaks-bzip2/src/bitreader.rs:156-164 | Gives the highest digit of the cache, and moves the others up with a zero behind |
| BitReaders.CachedBitReader.Restore | crates/rustleaks-bzip2/src/bitreader.rs:147-149 | Moves the reader on by the bits that were used |
| BitReaders.FirstBitsPlain | crates/rustleaks-bzip2/src/bitreader.rs:103-114 | The first 57 bits behind a refresh are the bits that the plain reader gives from the same position |
| BitReaders.BuiltDepth | crates/rustleaks-bzip2/src/huffman.rs:93-152 | A tree that has been built is at most 32 deep, so a symbol never needs more bits than the cache surely has |
| BitReaders.DecodePlain | crates/rustleaks-bzip2/src/block/mod.rs:359-360 | Decoding from the plain reader uses exactly the bits of the symbol |
| BitReaders.DecodeCached | crates/rustleaks-bzip2/src/block/mod.rs:345-347 | Decoding from the cache gives the symbol that its digits lead to, with zeros once they have run out |
| BitReaders.CachedIsPlain | crates/rustleaks-bzip2/src/block/mod.rs:345-358 | A symbol read from the cache with no more than 57 bits in all is the symbol that plain reading gives there |
| BitReaders.ReadSymbol | crates/rustleaks-bzip2/src/block/mod.rs:345-362 | Reading through the cache, with restoring and reading again when it runs over, gives what plain reading gives; it fails if and only if fewer than eight bytes are left where the symbol starts and plain reading finds no symbol there within the 57 bits that are surely right |
| BitReaders.Finish | crates/rustleaks-bzip2/src/block/mod.rs:403-404 | Behind the last symbol the reader is where plain reading would have left it |
| BlockDecoding.NextSymbol | crates/rustleaks-bzip2/src/block/mod.rs:334-362 | Reads one symbol with the table that its selector names, taking the next selector behind fifty symbols; fails only without a selector or table for it, or with fewer than eight bytes left |
| BlockDecoding.ReadSymbols | crates/rustleaks-bzip2/src/block/mod.rs:317-404 | What is read are the symbols that the bits hold up to the end symbol, and the reader stands behind them; they are always read when eight more bytes follow |
| BlockDecoding.SymbolsBelow | crates/rustleaks-bzip2/src/block/mod.rs:287-313 | Every symbol that is read with the tables of a block belongs to its alphabet |
| BlockDecoding.WrittenSymbolsRead | crates/rustleaks-bzip2/src/block/mod.rs:317-362 | Symbols written with the canonical codes of the tables that their groups name are read back, in front of whatever follows |
| SymbolStage.RunRead | crates/rustleaks-bzip2/src/block/mod.rs:365-376 | Reading the digits of a run adds its length, each digit worth one or two of its power of two |
| SymbolStage.PositionsOfSymbols | crates/rustleaks-bzip2/src/block/mod.rs:365-395 | Reading symbols undoes writing positions with runs of zeros as digits |
| SymbolStage.DecodeSymbols | crates/rustleaks-bzip2/src/block/mod.rs:324-402 | The loop succeeds if and only if there is an end symbol and the block is within its size; it then gives the decoded block and its exact histogram |
| SymbolStage.SymbolRoundTrip | crates/rustleaks-bzip2/src/block/mod.rs:272-402 | The symbols written for a block over the bytes in use are decoded to that block |
| BlockDecoding.DecodeBlock | crates/rustleaks-bzip2/src/block/mod.rs:272-414 | Behind the header, decodes a block if and only if its bits hold symbols of a block that fits and starts at one of its bytes, except that it may fail when less than eight bytes follow; what will be handed out is then the expanded walk over its linked bytes |
| BlockDecoding.WrittenBlockRead | crates/rustleaks-bzip2/src/block/mod.rs:138-414 | From bits to bytes: for every block, every sorted order of its rotations, and all complete tables and selectors it may be written with, what is handed out for the bits of its symbols is the block |
| VariableInteger.PutVint | crates/rustleaks-sources/src/rar.rs:1153-1165 | Appends the seven-bit groups of the value, lowest first, all but the last marked |
| VariableInteger.TakeVint | crates/rustleaks-sources/src/rar.rs:797-810 | Reads such groups into a `u64`; the "too long" exit is never reached |
| VariableInteger.TakeVintAt | crates/rustleaks-sources/src/rar.rs:812-822 | Reads at a cursor, which moves behind the integer on success only, and never out of the input |
| VariableInteger.VintRoundTrip | crates/rustleaks-sources/src/rar.rs:797-822 | Taking undoes putting for every `u64`, whatever follows, and consumes exactly what was put |
| HeaderReader.Reader.ReadU8 | crates/rustleaks-sevenz/src/lib.rs:50-54 | Gives the next byte, or fails at the end |
| HeaderReader.Reader.ReadU32 | crates/rustleaks-sevenz/src/lib.rs:65-69 | Gives the next four bytes as a little-endian number |
| HeaderReader.Reader.ReadVariableU64 | crates/rustleaks-sevenz/src/reader.rs:1320-1333 | Reads one byte and one more for every leading one bit of it, and gives the `u64` they stand for |
| HeaderReader.NumberRoundTrip | crates/rustleaks-sevenz/src/reader.rs:1320-1333 | Reading undoes writing for every admissible length, and consumes exactly what was written |
| HeaderReader.EveryValueFits | crates/rustleaks-sevenz/src/reader.rs:1320-1333 | Every `u64` has an admissible length, so the round trip covers all of them |
| BlockGraph.FillOwners | crates/rustleaks-sevenz/src/reader.rs:1235-1246 | Every stream is owned by the coder whose range of streams holds it |
| BlockGraph.MarkPairs | crates/rustleaks-sevenz/src/reader.rs:1252-1264 | Succeeds if and only if no input and no output is bound twice, and has then marked exactly the bound inputs |
| BlockGraph.LinkEdges | crates/rustleaks-sevenz/src/reader.rs:1249-1264 | The linked lists hold every coder's outgoing edges, last first, and the counters its incoming ones |
| BlockGraph.MarkPacked | crates/rustleaks-sevenz/src/reader.rs:1265-1274 | Succeeds if and only if packed streams are in range, distinct, and not bound to an output |
| TopologicalSort.RemoveEdge | crates/rustleaks-sevenz/src/reader.rs:1288-1295 | Removing an edge of a visited coder keeps the invariant of the sort: counters count the edges left, and coders without any are ready or visited |
| TopologicalSort.SortDecides | crates/rustleaks-sevenz/src/reader.rs:1284-1299 | When no coder is ready, all have been visited if and only if the graph has a strict topological rank |
| TopologicalSort.VisitAll | crates/rustleaks-sevenz/src/reader.rs:1278-1296 | The work list ends, every access is in range, and it visits all coders if and only if the graph is acyclic |
| BlockGraph.ValidateCoderGraph | crates/rustleaks-sevenz/src/reader.rs:1233-1301 | Accepts a block if and only if no output is bound twice, every input is fed exactly once, packed streams are in range, and the coder graph is acyclic; whatever error it gives says truly what is wrong |
| CoderChain.CountStreams | crates/rustleaks-sevenz/src/reader.rs:1138-1149 | Adds up inputs and outputs, and succeeds if and only if both totals are within the limit |
| CoderChain.ReadPairs | crates/rustleaks-sevenz/src/reader.rs:1178-1194 | Succeeds if and only if the header holds that many pairs and all name streams that exist, and gives those pairs, the input first |
| CoderChain.FirstUnbound | crates/rustleaks-sevenz/src/reader.rs:1208-1214 | Finds the first input that no pair feeds, or says that all are fed |
| CoderChain.ReadPacked | crates/rustleaks-sevenz/src/reader.rs:1220-1222 | Reads exactly the packed stream indices that stand in the header, or fails when they are cut short |
| CoderChain.ReadBlock | crates/rustleaks-sevenz/src/reader.rs:1169-1228 | Succeeds if and only if what the header holds makes a block that is accepted and within the limit, and returns that block; the error for a missing unbound input never occurs |
| CoderChain.OneBlock | crates/rustleaks-sevenz/src/reader.rs:1175-1224 | A header makes one block at most: its pairs, and as many packed streams as inputs they leave, the single one being the first that no pair feeds |
| BlockWriting.BlockRead | crates/rustleaks-sevenz/src/reader.rs:1178-1225 | The bindings of an accepted block, written with any admissible lengths of numbers, are read back whatever follows them, and no other block is read from them |
| CoderChain.UniqueOutput | crates/rustleaks-sevenz/src/block.rs:31-41 | An accepted block has exactly one output that is bound to nothing |
| CoderChain.GetUnpackSize | crates/rustleaks-sevenz/src/block.rs:31-41 | For an accepted block the size is that of its one unbound output, and the final zero is never returned |
| CoderChain.LinkInjective | crates/rustleaks-sevenz/src/block.rs:127-130 | The map from a bound output to its input is injective, and the packed stream the chain starts from is not in its range |
| CoderChain.ChainDistinct | crates/rustleaks-sevenz/src/block.rs:125-135 | Following it visits no index twice |
| CoderChain.OrderedCoderIter.constructor | crates/rustleaks-sevenz/src/block.rs:116-119 | The iterator starts at the first packed stream, with nothing passed |
| CoderChain.OrderedCoderIter.Next | crates/rustleaks-sevenz/src/block.rs:125-135 | Moves along the chain, yields the index left behind if it names a coder, and stays ended once it has ended |
| CoderChain.OrderedCoders | crates/rustleaks-sevenz/src/block.rs:68-70 | Looping over the iterator ends, follows the chain from its start until it leaves the coders or the pairs, and yields no coder twice |
| CoderChain.SimpleOrderComplete | crates/rustleaks-sevenz/src/block.rs:106-136 | With one stream in and out per coder, every coder is visited exactly once, right behind the coder it reads from, and the last is the block's output |
| StreamMaps.MapPackStreams | crates/rustleaks-sevenz/src/reader.rs:771-789 | Blocks take packed streams one behind the other; succeeds if and only if there are enough for all |
| StreamMaps.MapPackOffsets | crates/rustleaks-sevenz/src/reader.rs:791-803 | Offsets are the prefix sums of the sizes; fails if and only if the sum of all sizes overflows |
| StreamMaps.EnterBlock | crates/rustleaks-sevenz/src/reader.rs:819-827 | Passes blocks without sub-streams, each with an empty span at the file, and enters the next one that has any |
| StreamMaps.AddStream | crates/rustleaks-sevenz/src/reader.rs:831-857 | Giving a file with a stream to the current block keeps the invariant of the map, moving on when the block has its number |
| StreamMaps.MapFiles | crates/rustleaks-sevenz/src/reader.rs:812-858 | Distributes the files over the blocks; runs out of blocks only with more streamed files than sub-streams |
| StreamMaps.CheckSpans | crates/rustleaks-sevenz/src/reader.rs:860-874 | Every block's span of files lies inside the table, or the block that does not is found |
| StreamMaps.SpanTooLong | crates/rustleaks-sevenz/src/reader.rs:860-874 | A span that runs past the last file means that blocks declare more sub-streams than there are streamed files |
| StreamMaps.Archive.CalculateStreamMap | crates/rustleaks-sevenz/src/reader.rs:768-878 | Succeeds if and only if there are packed streams for all blocks, no sum of sizes overflows, the streamed files are no more than the blocks take, and every span lies inside the file table; the archive then holds a stream map for its blocks, sizes and files; on failure the map is as before, and the error says what does not fit |
| StreamMaps.BlocksNeverDecrease | crates/rustleaks-sevenz/src/reader.rs:812-858 | Block indices never decrease over the files |
| StreamMaps.PassedBlockFull | crates/rustleaks-sevenz/src/reader.rs:851-857 | A block that was passed got exactly its number of streamed files, the current one as many as counted, and later ones none |
| StreamMaps.SpanExactly | crates/rustleaks-sevenz/src/reader.rs:860-863 | A passed block's span is exactly its streamed files if and only if no empty entry lies inside the block |
| StreamMaps.MapOrdersFiles | crates/rustleaks-sevenz/src/reader.rs:812-858 | In every map returned, each file with a stream has a block, and blocks are used in order |
| StreamMaps.MapFillsBlocks | crates/rustleaks-sevenz/src/reader.rs:812-874 | In every map returned, every block has its share of the streamed files in order, the last one too; its span is exactly those files if and only if they are as many as its sub-streams and no empty entry lies among them, both read off the archive |
| StreamMaps.SpanAroundEmpty | crates/rustleaks-sevenz/src/reader.rs:812-874 | A block with an empty entry between its two files gets all three entries, and its span is the first two |
| StreamMaps.MapAroundEmpty | crates/rustleaks-sevenz/src/reader.rs:768-878 | Such an archive is accepted, with that map |
| StreamMaps.EmptyInsideAmong | crates/rustleaks-sevenz/src/reader.rs:815-834 | An empty entry is given to a block that has been passed if and only if it stands between streamed files of the block |
| StreamMaps.FirstFileIs | crates/rustleaks-sevenz/src/reader.rs:812-858 | The first file of a block, in the state that distributing the files ends with, is the streamed file whose number is how many the blocks before it take, or none if there are not that many |
| SubStreams.ReadCounts | crates/rustleaks-sevenz/src/reader.rs:991-1012 | One file per block, or the counts in the header when their sum is within the limit |
| SubStreams.ReadBlockSizes | crates/rustleaks-sevenz/src/reader.rs:1034-1055 | Writes a block's sizes behind those already in the table, the last one as what is left of the block, and fails when nothing can be left |
| SubStreams.ReadSizes | crates/rustleaks-sevenz/src/reader.rs:1032-1056 | Fills the table from its start without ever running past its end |
| SubStreams.SizesSumExactly | crates/rustleaks-sevenz/src/reader.rs:1037-1055 | With size keys the table is filled to its end, and each block's sizes add up to exactly the size of its output |
| SubStreams.DefaultSizesFill | crates/rustleaks-sevenz/src/reader.rs:1033-1056 | Without size keys the table is filled to its end if and only if no block has more than one file |
| SubStreams.UnkeyedTableShort | crates/rustleaks-sevenz/src/reader.rs:1033-1056 | A concrete section of one block with ten bytes, two files and no size key, whose table reads ten and zero |
| SubStreams.ReadBits | crates/rustleaks-sevenz/src/reader.rs:1349-1365 | Reads flags from each byte's highest bit down, and as many bytes as they need |
| SubStreams.ReadAllOrBits | crates/rustleaks-sevenz/src/reader.rs:1335-1347 | One byte sets all flags, or else the flags follow |
| SubStreams.ReadDigests | crates/rustleaks-sevenz/src/reader.rs:1069-1079 | Reads the digests whose flags are set, and leaves the others zero |
| SubStreams.AssignCrcs | crates/rustleaks-sevenz/src/reader.rs:1080-1099 | Every file gets its checksum, and both cursors end exactly at the ends of their tables |
| SubStreams.SlotsOfBlock | crates/rustleaks-sevenz/src/reader.rs:1082-1098 | A block with one file and a checksum keeps it, and every other block takes the next digests in order |
| SubStreams.DigestsConserved | crates/rustleaks-sevenz/src/reader.rs:1061-1099 | Over all blocks, the digests taken are all the digests read, in order |
| SubStreams.Archive.ReadSubStreamsInfo | crates/rustleaks-sevenz/src/reader.rs:986-1110 | Stores what the header says if it is well formed to its end mark, and otherwise stores no sub-streams |
| SubStreams.SizesConserved | crates/rustleaks-sevenz/src/reader.rs:1032-1056 | After a section with size keys, the stored sizes of each block's files add up to the size of its output |
| SubStreamsWriting.FlagsRead | crates/rustleaks-sevenz/src/reader.rs:1335-1365 | Flags that are packed into bytes, the first in the highest bit, are read back, whatever follows |
| SubStreamsWriting.SlotsAre | crates/rustleaks-sevenz/src/reader.rs:1080-1099 | Digests written for all files but the only ones of blocks that have their own checksum are given back to the files they belong to |
| SubStreamsWriting.SectionRead | crates/rustleaks-sevenz/src/reader.rs:986-1110 | A section that was written, with any numbers of files per block, any sizes and any checksums known or not, is read back whatever follows it: every block with its number of files, every file with its size and its checksum |
| ByteSearch.PiecesCut | crates/rustleaks-core/src/model.rs:1312-1325 | The pieces between occurrences, joined by the needle, are the text, and every cut is at the leftmost occurrence |
| ByteSearch.CutUnique | crates/rustleaks-core/src/model.rs:1312-1325 | There is only one way to cut a text like that |
| ByteSearch.ReplaceAllBytes | crates/rustleaks-core/src/model.rs:1290-1325 | Joins the pieces by the replacement; an empty needle occurs around every rune |
| SecretRemoval.DeletedIs | crates/rustleaks-core/src/model.rs:1234-1236 | Deleting a secret gives a subsequence, which is as long as the text if and only if the secret does not occur |
| SecretRemoval.PushedClean | crates/rustleaks-core/src/model.rs:1249-1264 | Pushing a byte onto a clean text and cutting off a secret at its end leaves a clean text |
| SecretRemoval.RemoveDetectedSecrets | crates/rustleaks-core/src/model.rs:1232-1266 | Deletes longest secrets first, and pushes byte by byte if a secret is left; gives the removed text of the laws below |
| SecretRemoval.RemovedIsClean | crates/rustleaks-core/src/model.rs:1232-1266 | No secret occurs in what is left, which is a subsequence of the text, is the text itself if that was clean, and does not change when removed from again |
| SecretRemoval.RemovedCuts | crates/rustleaks-core/src/model.rs:1232-1266 | Nothing but secrets is taken out: what is left comes from the text by cutting out one occurrence of a nonempty secret after the other; when one pass per secret from the left, in list order, leaves clean text, it is that text; otherwise it comes from that text by cutting out whichever secret ends first, until none is left |
| SecretRemoval.PassesExist | crates/rustleaks-core/src/model.rs:1234-1236 | The passes can be made over every text, so what they leave is defined for every text |
| SecretRemoval.CutsFirstOnce | crates/rustleaks-core/src/model.rs:1255-1265 | In a text that is not clean there is only one way to cut out the secret that comes to its end first, earlier secrets of the list before later ones; in a clean text there is none |
| SecretRemoval.SecretsOf | crates/rustleaks-core/src/model.rs:1178-1186 | The distinct nonempty secrets of the finding and its required findings, longest first and then in byte order |
| SecretRemoval.LongestFirst | crates/rustleaks-core/src/model.rs:1185 | Of two secrets in the list, the earlier is longer, or as long and smaller at the first byte in which they differ |
| SecretRemoval.WithoutDetectedSecrets | crates/rustleaks-core/src/model.rs:1177-1230 | Every retained text has all secrets removed, so that no detected secret occurs in any; secrets themselves and the fragment are dropped, and the rest stays |
| SecretRemoval.NoSecretRetained | crates/rustleaks-core/src/model.rs:1161-1216 | No detected secret occurs in any text that the cleaned finding retains |
| SecretRemoval.NoSecretInFields | crates/rustleaks-core/src/model.rs:1188-1229 | Field by field, no secret of the finding or of its required findings occurs in the cleaned finding, and its own secrets are empty |
| SecretRemoval.CleaningTwice | crates/rustleaks-core/src/model.rs:1177-1216 | Cleaning a cleaned finding changes nothing |
| ScanControl.ChargeCounter | crates/rustleaks-core/src/engine.rs:355-379 | Charges if and only if the sum fits a `usize` and the limit; otherwise says which limit, what was used and what was asked for |
| ScanControl.ScanContext.CheckCancelled | crates/rustleaks-core/src/engine.rs:316-322 | Polls the signal once, and stops if it says so |
| ScanControl.ScanContext.ChargeWork | crates/rustleaks-core/src/engine.rs:324-332 | Polls and then charges one unit of work, changing no other counter |
| ScanControl.ScanContext.ChargeDecodedBytes | crates/rustleaks-core/src/engine.rs:334-342 | Polls and then charges the bytes, changing no other counter |
| ScanControl.ScanContext.ChargeFindingRecord | crates/rustleaks-core/src/engine.rs:344-352 | Polls and then charges one record, changing no other counter |
| ScanControl.RunWithinBudget | crates/rustleaks-core/src/engine.rs:355-379 | In every run of charges no counter exceeds a limit that is set, and counters only grow |
| ScanControl.RunCompletes | crates/rustleaks-core/src/engine.rs:316-379 | A run completes if and only if the signal stays clear at every poll and every budget covers all charges |
| ScanControl.RunUses | crates/rustleaks-core/src/engine.rs:316-379 | A completed run has used exactly the sum of its charges |
| ScanControl.RunStopped | crates/rustleaks-core/src/engine.rs:316-379 | A run stops only because its last poll was answered yes or its next charge would go over the limit it names |
| RuleScan.DetectPrimary | crates/rustleaks-core/src/engine.rs:589-709 | Takes the branches of a rule in order, charging one unit for every candidate and one record for every finding, and gives the rule's findings or stops |
| RuleScan.RunRequired | crates/rustleaks-core/src/engine.rs:734-767 | Detects each required rule that exists as an inherited one, later entries for a rule replacing earlier ones |
| RuleScan.FindNear | crates/rustleaks-core/src/engine.rs:777-783 | Charges one unit for every finding looked at and one record for every finding close enough |
| RuleScan.Project | crates/rustleaks-core/src/engine.rs:771-784 | Projects the findings of every required rule, in the order of the requirements |
| RuleScan.CompletePrimaries | crates/rustleaks-core/src/engine.rs:769-809 | Keeps the primary findings that have a projection from every required rule |
| RuleScan.DetectRule | crates/rustleaks-core/src/engine.rs:580-723 | The whole detection of a rule performs its charges in order and gives its findings if and only if none of them stops it |
| RuleScan.ProjectionIsNear | crates/rustleaks-core/src/engine.rs:769-784 | What is projected is exactly what a required rule found within its bounds on lines and columns |
| RuleScan.CompositeHasAll | crates/rustleaks-core/src/engine.rs:786-807 | Every finding of a composite rule is a primary one with a projection from each required rule |
| RuleMeaning.PrimaryMeans | crates/rustleaks-core/src/engine.rs:589-709 | What a rule finds by itself, and what that costs, told from the text: whether the rule is looked for there at all, and for each candidate that is present, its finding unless it is passed over |
| RuleMeaning.RequiredMean | crates/rustleaks-core/src/engine.rs:734-767 | For every required rule that exists, what is kept for it is what the rule of that name finds by itself as an inherited one; it is charged for each time |
| RuleMeaning.NearbyHas | crates/rustleaks-core/src/engine.rs:769-784 | What is found near a primary finding are exactly the findings of its required rules that start within the bounds set on lines and on columns, counted up and down from where the primary one starts |
| RuleMeaning.CompleteIs | crates/rustleaks-core/src/engine.rs:786-807 | A primary finding is completed if and only if every required rule found something near it |
| RuleMeaning.CompletedMeans | crates/rustleaks-core/src/engine.rs:786-807 | Exactly the primary findings that are completed are kept, in order, each with what is near it |
| RuleMeaning.RuleMeans | crates/rustleaks-core/src/engine.rs:580-809 | What detecting a rule gives is what the rule finds on the text, and its work and records are what that costs; findings and costs are defined without charges and their order |
| FragmentScan.ScanRules | crates/rustleaks-core/src/engine.rs:496-547 | Goes through the rules whose keywords were hit, and commits a rule's findings only when all of the rule has been carried out |
| FragmentScan.ChargeDecoding | crates/rustleaks-core/src/engine.rs:553-566 | Charges the start of decoding and the decoder's work, and polls once behind it |
| FragmentScan.ScanPasses | crates/rustleaks-core/src/engine.rs:476-577 | Passes over the content and what it decodes to, up to the depth limit, perform the groups of charges of the scan in order |
| FragmentScan.ScanFragment | crates/rustleaks-core/src/engine.rs:457-577 | For every budget and signal the outcome is the filtered findings of the first groups, or the first filtered findings of all; a complete one has what the rules find on the content and what it decodes to, filtered, and has used exactly what that costs; and usage stays within every limit |
| FragmentScan.ScanUnder | crates/rustleaks-core/src/engine.rs:457-577 | The outcome is that of performing the groups of charges in order: what was committed, filtered, with the usage and the reason for stopping |
| FragmentScan.GroupsCommitted | crates/rustleaks-core/src/engine.rs:541-546 | What is committed are the findings of the groups in front of the one that was stopped |
| FragmentScan.ControlledPrefix | crates/rustleaks-core/src/engine.rs:407-429 | For every budget and signal, committed findings are a prefix of the unlimited run's, made of whole rules, and no limit is exceeded |
| FragmentScan.ControlledCompletes | crates/rustleaks-core/src/engine.rs:407-429 | A scan gets to its end if and only if the signal stays clear and every budget covers it; it has then used exactly what it charges |
| FragmentScan.CoveringLimitsSameOutcome | crates/rustleaks-core/src/engine.rs:394-405 | Limits that cover an unlimited scan's usage give the same outcome when nothing is cancelled |
| ScanMeaning.PassesOnce | crates/rustleaks-core/src/engine.rs:476-577 | The passes over the content, what it decodes to, what that decodes to, and so on, while something was decoded and the depth limit admits it, are a definite number for every scan |
| FragmentScan.ScanMeans | crates/rustleaks-core/src/engine.rs:457-577 | The findings of an unlimited scan are, in order of passes and then of rules, what each rule without keywords or with a keyword hit finds on the text of its pass; its work, records and decoded bytes are what passes, rules and attempts to decode cost together |
| FindingFilter.FilterFindingsCancellable | crates/rustleaks-core/src/engine.rs:1096-1137 | Filters the findings, or the first of them when the signal stops it, each compared with all findings |
| FindingFilter.FilteredPrefix | crates/rustleaks-core/src/engine.rs:1096-1177 | What a stopped filter keeps is a prefix of what the complete filter keeps |
| FindingFilter.ApplyFindingFilter | crates/rustleaks-core/src/engine.rs:1139-1154 | Keeps the findings that are marked, redacted when redaction is on, in order |
| FindingFilter.SuppressesIs | crates/rustleaks-core/src/engine.rs:1155-1180 | A finding suppresses a generic one if and only if it is of another rule that is not generic, on the same line and commit, and its secret holds the generic one |
| FindingFilter.FilterKeeps | crates/rustleaks-core/src/engine.rs:1095-1180 | Of the first findings, filtering keeps, one by one and in order, those that nothing among all findings suppresses, redacted when that is asked for |
| FindingFilter.PartialFilterExact | crates/rustleaks-core/src/engine.rs:1066-1081 | A stopped scan returns what the complete one would for its rules if and only if there is no generic finding among them that only a later finding suppresses; it never returns fewer |
| FindingFilter.PartialNotPrefix | crates/rustleaks-core/src/engine.rs:1066-1081 | Concrete findings where a stopped scan returns one that the complete scan suppresses |
| Triage.ValidateRecords | crates/rustleaks-core/src/triage.rs:603-621 | Accepts records if and only if there are not too many and no two decide on the same occurrence under the same policy and options |
| Triage.FromFinding | crates/rustleaks-core/src/triage.rs:275-323 | Gives the occurrence of a finding when its rule is a valid reference and its index is below the ceiling |
| Triage.IndexOccurrences | crates/rustleaks-core/src/triage.rs:214-218 | The lookup table inverts the list of occurrences |
| Triage.Acknowledge | crates/rustleaks-core/src/triage.rs:232-235 | A record that applies never overwrites the acknowledgement of an earlier one |
| Triage.DoReview | crates/rustleaks-core/src/triage.rs:196-250 | Refuses for the first reason that applies, and otherwise classifies all findings and all records |
| Triage.ReviewExact | crates/rustleaks-core/src/triage.rs:219-242 | A finding is acknowledged by a record if and only if the record is active for it, which it is if and only if it is current and names its exact occurrence |
| Triage.StaleExact | crates/rustleaks-core/src/triage.rs:219-242 | The state of every record that is not active says exactly why: its policy, its options, its source, its date in this order of precedence, or that its finding was not seen in a complete or in a partial scan |
| Triage.RefusedExactly | crates/rustleaks-core/src/triage.rs:196-215 | A review is refused for the policy if and only if that differs, then for too many records, then for two that are alike, then for too many findings, then for a rule that is no valid reference |
| Triage.GroupsForScan | crates/rustleaks-core/src/triage.rs:554-575 | Fails exactly above the ceiling; otherwise every index is in exactly one group, two share one if and only if they belong together, groups stand in order of first sight, and indices ascend in each |
| Triage.GroupedTogether | crates/rustleaks-core/src/triage.rs:547-575 | Two findings share a group if and only if they have the same nonempty exact range and secret, and every finding is in one group only |
| SourceReaders.BufferedSourceReader.Fill | crates/rustleaks-sources/src/file.rs:169-180 | Asks the inner reader once, and keeps its bytes and its status, or the size of what did not fit |
| SourceReaders.BufferedSourceReader.Drain | crates/rustleaks-sources/src/file.rs:183-191 | Takes as many buffered bytes as fit, from the front |
| SourceReaders.BufferedSourceReader.Read | crates/rustleaks-sources/src/file.rs:121-148 | Gives the next bytes delivered and the next status reported, none lost, repeated or reordered; a status only when nothing is buffered; no bytes and no status only when the inner reader gave neither |
| SourceReaders.BufferedSourceReader.ReadByte | crates/rustleaks-sources/src/file.rs:150-167 | Gives the next byte delivered, or the next status reported when there is none, none lost, repeated or reordered |
| SourceReaders.EndIsDry | crates/rustleaks-sources/src/file.rs:25-37 | Once a reader that delivers nothing behind its end has reported the end, no call delivers anything |
| FileChunks.SuffixIsSafe | crates/rustleaks-sources/src/file.rs:552-568 | Scans back from the end for two line feeds with only whitespace behind and between them |
| FileChunks.SafeSuffixMeans | crates/rustleaks-sources/src/file.rs:552-568 | A suffix is safe if and only if two line feeds stand in it with nothing but whitespace from the first of them on |
| FileChunks.CountLines | crates/rustleaks-sources/src/file.rs:574-582 | Counts the line feeds |
| FileChunks.ReadUntilSafeBoundary | crates/rustleaks-sources/src/file.rs:474-550 | Appends bytes as they are delivered, and stops at the first place where its count allows it, at the ceiling, or behind a reported end; fails only for a poll that says so, a reported error, an answer with nothing in it, or one that does not fit |
| FileChunks.StopsWhereSafeExactly | crates/rustleaks-sources/src/file.rs:486-496 | From text that is not safe to cut, it stops at the first safe place whatever follows if and only if the text does not hide its last line feed behind other whitespace |
| FileChunks.LineFeedBlankLineFeed | crates/rustleaks-sources/src/file.rs:486-496 | The shortest text from which it reads past a safe place |
| FileChunks.FileSource.CutFragment | crates/rustleaks-sources/src/file.rs:387-444 | A fragment starts at one plus the line feeds in front of it, holds all that was read for it, and is cut where reading on stopped; failures are those of reading on, or a line count out of range |
| FileChunks.FileSource.Visit | crates/rustleaks-sources/src/file.rs:352-458 | For every script of the inner reader the fragments put together are a prefix of what was delivered, all of it when the visit gets to the end; every fragment, and what is left of a file that fails, starts with exactly one read, which is not application content if no line feed stands in front of it, and a file is skipped only at a read that is; each fragment is numbered, and cut at the first place to stop, the ceiling, or a reported end; every error event shows what was reported; and how the visit ended is accounted for by the reader, the signal, or the callback |
| FileChunks.FileSource.VisitOnce | crates/rustleaks-sources/src/file.rs:352-456 | One turn of a visit looks at the signal once, reads once, and ends the visit with a cause or goes on with at most one more fragment |
| FileChunks.FileSource.VisitPiece | crates/rustleaks-sources/src/file.rs:387-456 | What a read that gave bytes leads to: a skipped file if they are application content and no line feed has been seen, and otherwise a failure, or one more fragment that starts with that read |
| FileChunks.FileSource.EmitPiece | crates/rustleaks-sources/src/file.rs:446-456 | The fragment shows the error that came with it, and the visit goes on exactly when the callback says so and no end was reported |
| FileChunks.FileSource.Announce | crates/rustleaks-sources/src/file.rs:365-383 | A visit that ends with an issue passes on what the callback answers to it |
| TarFormat.OctalRead | crates/rustleaks-sources/src/archive.rs:1770-1781 | Blanks, octal digits and what follows them are read as the number the digits spell, and there is none without digits or when it does not fit 64 bits |
| TarFormat.ChecksumTotal | crates/rustleaks-sources/src/archive.rs:1783-1799 | The checksum of a header is what its bytes add up to, with eight spaces for the field of the checksum itself |
| TarFormat.HeaderExactly | crates/rustleaks-sources/src/archive.rs:529-558 | What is read is a header if and only if 512 bytes are there, not all zero, whose checksum is what they add up to and whose size fits the file; and it is the end if and only if 512 zeros are there |
| TarFormat.HeaderFields | crates/rustleaks-sources/src/archive.rs:1751-1799 | A written header has the full name, flag and size it was written for, and is not taken for the end |
| TarFormat.BlockRead | crates/rustleaks-sources/src/archive.rs:533-558 | A written header in front of its body passes every test, the checksum among them |
| TarFormat.MemberRead | crates/rustleaks-sources/src/archive.rs:529-614 | A written item is read as it was written, its name short, split over two fields, or long, and the next one is looked for exactly behind its padding |
| TarFormat.TarRoundTrip | crates/rustleaks-sources/src/archive.rs:518-621 | The members of every TAR file are the ones it was written from, under their full names, with every flag other than 5, x, g and L, of which long names are written with L; directories and extended headers are passed over |
| Archives.ArchiveState.Account | crates/rustleaks-sources/src/archive.rs:411-428 | Accepts bytes if and only if they are within the limit for one member and, with all counted so far, within the total; refused bytes that passed the first test stay counted |
| Archives.ArchiveState.BumpEntry | crates/rustleaks-sources/src/archive.rs:430-442 | Accepts an entry if and only if the count is within its limit |
| Archives.ArchiveState.PlainSource | crates/rustleaks-sources/src/archive.rs:304-312 | Hands on only bytes that have been accepted and not been handed on yet |
| Archives.ArchiveState.EmitIssue | crates/rustleaks-sources/src/archive.rs:1857-1862 | The callback is told only what holds, and about a container that was opened or a member that was looked at; its answer is passed on |
| Archives.ArchiveState.Decode | crates/rustleaks-sources/src/archive.rs:454-516 | Succeeds if and only if the signal is clear, something is left of the limits, and the decoder gives no more than that; what it gives is then accepted |
| Archives.ArchiveState.Process | crates/rustleaks-sources/src/archive.rs:291-356 | With the signal clear, hands a plain file on, opens a container below the depth limit, with everything else that is done inside it, and only reports one at the limit; keeps all limits, ends, and stops early only for what somebody said since it began |
| Archives.ArchiveState.Expand | crates/rustleaks-sources/src/archive.rs:326-355 | What is looked at directly inside a container are its first members, in order; when the walk goes on they are all of its members, apart from ZIP entries that the callback was told do not decode, unless it was told why the walk over this container ends; a compressed stream is handed on as what it decodes to |
| Archives.ArchiveState.ProcessMember | crates/rustleaks-sources/src/archive.rs:358-376 | Takes a counted entry; a member on the first level that is allowed by name is passed over, one that is not accepted gives an issue, and any other is processed one level down |
| Archives.ArchiveState.ProcessStreamed | crates/rustleaks-sources/src/archive.rs:378-409 | The same for a 7z member, except that a member that is no container is handed on without looking at the signal once more |
| Archives.ArchiveState.ExtractTar | crates/rustleaks-sources/src/archive.rs:518-621 | Header offsets are multiples of 512 and grow strictly, and each but the last is an accepted entry; the members looked at are the first of the file, in order, and all of them unless somebody stopped the walk since it began, the file reaches the end of the numbers, or the callback was told that the entry or member limit is reached at the last header |
| Archives.ArchiveState.WalkTarBlock | crates/rustleaks-sources/src/archive.rs:529-614 | The signal is polled first; what a TAR file goes on with is dealt with in order: its end or something damaged, of which the callback is told, or a header, behind whose padding the walk goes on |
| Archives.ArchiveState.ProcessTarBlock | crates/rustleaks-sources/src/archive.rs:558-599 | A header counts as an entry before anything else; its member is looked at unless its flag, the entry limit or the room left says otherwise, and a long name is kept for the next header |
| Archives.ArchiveState.ExtractRar | crates/rustleaks-sources/src/archive.rs:623-684 | The members looked at are the first that the parser found within what is left of the limits, in order, and all of them, each entry counted, unless somebody stopped the walk since it began or the callback was told that the entry limit is reached; a parser that fails is reported, or said itself that the signal was given |
| Archives.ArchiveState.ProcessRarEntry | crates/rustleaks-sources/src/archive.rs:670-682 | An entry is counted, and looked at unless it is a directory |
| Archives.ArchiveState.DecodeZipMember | crates/rustleaks-sources/src/archive.rs:726-752 | Content is handed on if and only if it decodes within the limit to the declared size and checksum |
| Archives.ArchiveState.ExtractZip | crates/rustleaks-sources/src/archive.rs:686-760 | The members looked at come from entries in order, each with its declared size and checksum; every other entry is a directory, or the callback was told that it does not decode to that; none of them ends the walk; all entries are counted, unless somebody stopped the walk since it began, the decoder of an entry said that the signal was given, or the callback was told of the entry limit or of an entry that ends the walk |
| Archives.ArchiveState.ProcessZipEntry | crates/rustleaks-sources/src/archive.rs:698-758 | An entry is counted before it is looked at, and the walk ends at a broken, oversized or unlocated one, and at no other but by a limit or what somebody said; an entry that gives no member is a directory, or the callback is told |
| Archives.ArchiveState.ExtractSeven | crates/rustleaks-sources/src/archive.rs:807-935 | All entries are counted at once; nothing is looked at when the callback was told that they are too many, do not fit, or do not stream; otherwise the members looked at are the first of the archive, in order, and all of them unless somebody stopped the walk since it began, or streaming said that the signal was given |
| Archives.ArchiveState.StreamSeven | crates/rustleaks-sources/src/archive.rs:852-906 | Streams the contents of all entries that are no directories; polls before every entry; fails only for the signal, as polled or as an entry said, or for a damaged or oversized entry, too many, or too many bytes together |
| Archives.ArchiveState.LookAtMembers | crates/rustleaks-sources/src/archive.rs:937-961 | Looks at extracted members in order, all of them unless somebody stops it since it began |
| Archives.Traverse | crates/rustleaks-sources/src/archive.rs:290-442 | A whole traversal ends; bytes handed on and members looked at, over all containers, stay within their limits, also after a refused member; every container opened lies below the depth limit; whatever is handed on, looked at or reported comes from a container that was opened, up to the first; an early end was said by the signal, the callback, a plain file source, or the decoder of a container that was opened; and when it goes on to its end with nothing reported, every member of every nested container was walked through; and if the input is a packed tree of archives, what such a run hands on are exactly the plain files of the tree, in order, at every depth if containers at the depth limit are reported and up to the limit if not, apart from members of the outermost archive that are allowed by name |
| ArchiveLog.WalkedAppend | crates/rustleaks-sources/src/archive.rs:518-684 | Two walks over parts of a container, one after the other, are a walk over both: their members in order, and whole if both were |
| ArchiveLog.ExpandedLevel | crates/rustleaks-sources/src/archive.rs:326-355 | A walk that went on and told the callback nothing has walked through everything in the container, at every depth |
| ArchiveTrees.HeldIsPacked | crates/rustleaks-sources/src/archive.rs:518-961 | Whatever format a container has, the members that a silent walk found in it are those that were packed in it |
| ArchiveTrees.WholeHandsOn | crates/rustleaks-sources/src/archive.rs:290-442 | A whole walk through a tree of archives in archives hands on exactly its plain files, from the first to the last, at every depth if containers at the depth limit are reported and up to the limit if not, apart from members of the outermost archive that are allowed by name |
| ArchiveLog.StaysFounded | crates/rustleaks-sources/src/archive.rs:411-442 | What was done stays accounted for, and what was reported stays true, while more is counted and done |
| Utf8.DecodeEncoded | crates/rustleaks-report/src/template.rs:781-782 | Decoding undoes encoding for every scalar value, whatever follows |
| Utf8.EncodeDecoded | crates/rustleaks-report/src/template.rs:1480-1495 | Encoding undoes decoding: a valid character is the one encoding of its value |
| Quoting.AppendHexEscape | crates/rustleaks-report/src/template.rs:1561-1583 | Appends a backslash, the letter and the digits, highest first, if they fit the limit |
| Quoting.AppendQuotedValid | crates/rustleaks-report/src/template.rs:1502-1534 | Appends the quoted form of every character, by the branch that applies to it, if they fit the limit |
| Quoting.ItemsSplit | crates/rustleaks-report/src/template.rs:1478-1497 | Splitting at the first byte that belongs to no character gives the same items as reading one character or byte at a time |
| Quoting.GoQuote | crates/rustleaks-report/src/template.rs:1460-1500 | Succeeds if and only if the quoted form is within the limit, and gives that form |
| Quoting.Spelling | crates/rustleaks-report/src/template.rs:1502-1534 | How each character is spelled: the short escapes letter by letter, printable characters as they are, and the others with two, four or eight digits |
| Quoting.LowerCase | crates/rustleaks-report/src/template.rs:1561-1583 | The digits of an escape are the lower-case hexadecimal digits of the number, highest first |
| Quoting.ParseHex | crates/rustleaks-report/src/template.rs:806-829 | Reads hexadecimal digits of either case into a number that fits; fails on too few or others |
| Quoting.ParseEscape | crates/rustleaks-report/src/template.rs:748-793 | Reads one escape; the narrowing of a byte escape never fails |
| Quoting.ParseStringLiteral | crates/rustleaks-report/src/template.rs:742-804 | Reads the literal up to its closing quote, and says how much of the source it took |
| Quoting.QuoteRoundTrip | crates/rustleaks-report/src/template.rs:742-829 | Every quoted form is read in one piece, whatever follows; the bytes come back if and only if no unprintable character from U+0080 to U+00FF was quoted |
| Quoting.ReadBackSame | crates/rustleaks-report/src/template.rs:1522-1524 | What comes back is what was quoted if and only if no character was narrowed to one byte, and otherwise it is shorter |
| Quoting.SoftHyphenLost | crates/rustleaks-report/src/template.rs:1522-1524 | A concrete character that does not come back |
| Quoting.ParseUndoesQuote | crates/rustleaks-report/src/template.rs:742-804 | Without such a character, parsing takes exactly the quoted form and gives the string back |
| Templates.TagListSays | compat/fixtures/upstream/testdata/report/jsonextra.tmpl:20 | The template that lists the tags of a finding says them quoted, with a comma between any two and none behind the last |
| Rendering.Evaluated | crates/rustleaks-report/src/template.rs:1251-1430 | Evaluating an expression with the variables on the stack gives what the expression means with the names in scope |
| Rendering.NodesSay | crates/rustleaks-report/src/template.rs:1144-1249 | Running nodes in any state succeeds if and only if what they say with the variables in scope is defined and fits the limits; exactly that is then appended, with as many actions and writes as it takes, and otherwise the beginning of it |
| Rendering.CountingWriter.EmitBytes | crates/rustleaks-report/src/template.rs:1618-1629 | Passes bytes on if and only if they fit the limit, and counts them if the destination takes them |
| Rendering.RenderState.CountAction | crates/rustleaks-report/src/template.rs:1128-1141 | Counts an action, and refuses those past the limit |
| Rendering.NodesKeep | crates/rustleaks-report/src/template.rs:1144-1222 | A list of nodes never raises the variables past their height plus the list's capacity, keeps those below, emits within the limit and only appends |
| Rendering.NodeKeeps | crates/rustleaks-report/src/template.rs:1151-1219 | The same for a node, whose blocks leave the height they found |
| Rendering.BlockKeeps | crates/rustleaks-report/src/template.rs:1202-1218 | A block leaves the variables exactly as it found them |
| Rendering.ItemsKeep | crates/rustleaks-report/src/template.rs:1224-1249 | Going through a list needs no more variables than one of its items |
| Rendering.RenderList | crates/rustleaks-report/src/template.rs:1144-1222 | Rendering in place does what the rendering function says |
| Rendering.RenderRangeItem | crates/rustleaks-report/src/template.rs:1224-1249 | Binds the item and, with two names, its index in front of it; renders the body; and drops what is above the scope |
| Rendering.Render | crates/rustleaks-report/src/template.rs:230-256 | A run succeeds if and only if what the template says is defined, no write is refused, and its length and actions are within their limits, and then its output is exactly that; in every run the variables stay within the capacity computed from the template, the output within its limit, and a successful run within its actions |
| Rendering.SaturatingIs | crates/rustleaks-report/src/template.rs:1632-1651 | The saturating count is the capacity, unless that does not fit a `usize` |

## Left out

* Regular expressions, keyword search, allowlists, path matching and the decoders inside a scan are functions that are
  given to the model. What they charge is modelled, what they match is not.
* Explanations recorded during a scan, which do not influence it, and entropy and the redaction percentage, which are
  floating point. Redaction of a finding is a function given to the model.
* Allocation failures. Every `try_reserve` and `try_vec_filled` is taken to succeed.
* Checksums: CRCs of bzip2 blocks and ZIP members are opaque. The reader of a bzip2 block ends without comparing one.
* The bzip2 block header in front of the symbols. `BlockDecoding` starts from what it says: the selectors, the tables
  made from its code lengths, the bytes in use and the origin.
* Coder method ids and properties in 7z blocks, encoded headers, passwords, and the other sections of a 7z header.
* Decompressors, RAR and ZIP parsing, and the streaming of 7z members are given to the archive model as functions from
  bytes to members or failures that keep within the limit they are passed. Name cleaning and identification by name are
  functions too, and logical paths are left out, as is the option for strict 7z member lengths.
* Plain files inside archives are accounted for as wholes in `Archives`; cutting them into fragments is `FileChunks`.
* An inner reader follows a finite script and then reports the end for ever. Its buffer is a value, so reuse of the
  nominal buffer between reads is not captured. `Honest` scripts deliver nothing behind the end they report.
* Which characters Go prints, and which rule names are generic, are predicates that the laws hold for any choice of; of
  the first it is only used where a character is quoted.
* Parsing of templates other than string literals. Selecting a field, and how a value other than bytes is printed, are
  functions given to the model. Bytes that are borrowed and bytes that are owned are one kind of value.
* JSON, SARIF, JUnit and CSV reports, the command line, git, the file system, and timers.
- HuffmanTree.BuildHuffmanNode: gives up at level 32 with a result of its own, because Dafny methods return; the source goes on from there until the stack or the 32-bit level counter gives out.
- HuffmanBuilder.New: code lengths of 32, which the source's shift accepts and whose odd codes its level 0 would tell apart first, are not covered, because the block reader passes at most 20.
- BlockDecoding.DecodeBlock: when less than eight bytes follow the symbols, which is never so in a stream, whose footer has ten, it says that a decoded block is right, but not whether there is one; `BitReaders.ReadSymbol` says it for each symbol.
- CoderChain.ReadBlock: says exactly when it succeeds, and that one error never occurs, but not which of the other errors is reported first.
- CoderChain.ReadPairs: says exactly when it succeeds, but when a pair is out of range and the header is also cut short behind it, not which error is reported.
- BlockReading.ExpandAsFormat: when the byte taken for a number is zero or the run's own, reader and format go on over the same bytes in different states and one output ahead of the other, and can fall back into step and out of it again any number of times; a condition that decides it has to follow both to the end of the block, so only inputs for both outcomes are given.
- StreamMaps.Archive.CalculateStreamMap: says which counts an error speaks of, but not which of several errors is reported first.
