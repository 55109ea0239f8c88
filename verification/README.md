# Verified models of the algorithms in the documentation site's JavaScript bundles

The repository keeps, under `html/DeepWiki_files/`, the JavaScript bundles of a saved documentation site. Most of what
they hold is user interface and plumbing; a few parts are self-contained algorithms on which the rest relies. This
project models those parts in Dafny, in the imperative form they have, and proves what they promise for every input and
every run. Each bundle is a single line, so every citation is line 1; the module number or function name is given in the
headings below.

**The DEFLATE encoder** (bundle 3377, module 95756) is modelled from the hash chains of the match finder to the bits in
the output buffer: `Lz77` (`tk`), `TokenFormat` (`e7` and the packed tokens), `Huffman`, `HuffmanLengths`, `LengthLimit`
and `HuffmanCoder` (`tS`, `tb`), `BitReversal` (`ti`), `CanonicalCode` (`tu`), `CodeLengthRuns` (`tw`), `BitStream`
(`tm`, `ty`), `BlockPlanning`, `BlockCosts` and `BlockWriter` (`tC`, `tE`, `tI`), and `Deflate` (the whole path of `tk`
from level 1 up). The independent side is `Inflate`, a decoder written from section 3.2 of RFC 1951 that refuses
oversubscribed codes; `BlockFormat` and `BlockDecoding` prove that it reads back what the encoder writes.

The law of this part, that decompressing gives the input back, turns out to hold for every input of 7000 bytes or more
and not for every shorter one: the output buffer has `n + 5 * (1 + floor(n / 7000))` bytes, while a single block can need
`8n + 42` bits. `Deflate.Compress` proves that it holds for all inputs with at most 30 bytes from 144 on, so for every
ASCII text; and that a shorter input is lost exactly when `tC` prefers a coded form that is too long: when the smaller of
the fixed and the dynamic body has `8n + 38` or `8n + 39` bits, for then a stored block, which would fit, is not chosen.
`Shortfall` shows that 30 is the most that can be said: it gives 46 bytes, 31 of them from 144 on, that are lost whatever
the settings. They are the UTF-8 form of the JSON text of an object `{name: 1}` with the version tag that `tR` adds, so
`tR`, the one caller of `tk`, does hand them over for such an object; that the recorder makes one is not claimed.
`FixedSize` and `ExampleText` hold the two size arguments. `Adler32` (`tT`, `tP`) covers the checksum and its trailer.

**Schedulers** (bundle 1684): `TaskHeap`, `TaskQueues` and `Scheduler` (module 42223), and `PromiseQueue` (module 82312).
A callback is data: what it does to the scheduler while it runs, how it ends, and the clock afterwards; so a run is any
list of events, and the invariants hold over all of them.

**The incremental row parser** (bundle 1684, `eo` and `et` of module 99062): `FlightRows`, `FlightChunks`,
`FlightEncoding` and `FlightLengths`. The parser gives the same rows for every way of cutting a stream exactly when no
chunk-relative length runs backwards. It does not when every length field holds hexadecimal digits only and stands for
less than 2^31; it can when a field overflows 32 bits, and also when it holds a character below `0`, which the parser
takes for a negative digit. A concrete stream of each kind is given.

**Buffer codecs and search** (bundle 5009): `Utf8` (`$`, `B`), `Base64` (module 96022), `SignedIntegers` (`writeIntLE`,
`writeIntBE`, `readIntLE`, `readIntBE`) and `ByteSearch` (`w`). The UTF-8 encoder loses one character of a text that ends
in two lead surrogates, and only then.

**Style sheet utilities** (bundle 378e5a93, module 34818): `LiveNodes`, `LiveSemantics` and `LiveIteration`
(`Container.each` and the insertions and removals it survives, with a reference semantics), `Tokenizer` (`eQ`),
`OffsetIndex` (`Input.fromOffset` against `Node.positionInside`) and `Throttle` (`throttle`). Inserting before a node that
is not a child, or at another negative place, can move iterators past nodes not yet visited; the exact condition is
proved, and a walk that misses a child is given.

Methods follow the source's loops and branches. Each is specified by functions or predicates over plain values, and the
laws are proved about those. Where the source shifts, masks and ors numbers, the model does so with the functions of
`Bits`, which are defined on the binary digits, and proves what the result is in arithmetic.

## Model

| member | source | states |
|---|---|---|
| Lz77.FindMatch | html/DeepWiki_files/3377-d302682beb4206f6.js:1 | whatever the hash chains hold, a match that is returned repeats the bytes before it, with length 3 to 258 and distance 1 to min(32767, position) |
| Lz77.CopyRepeats | html/DeepWiki_files/3377-d302682beb4206f6.js:1 | copying a verified match, overlapping or not, reproduces the input bytes |
| Lz77.MatchPlays | html/DeepWiki_files/3377-d302682beb4206f6.js:1 | the packed token of a match plays back as that length and distance |
| Lz77.EmitToken | html/DeepWiki_files/3377-d302682beb4206f6.js:1 | one token, literal or match, extends what is covered by exactly the bytes it stands for |
| Lz77.Flush | html/DeepWiki_files/3377-d302682beb4206f6.js:1 | a block that is closed holds the pending tokens with their frequency tables and extra-bit total, and a fresh one starts |
| Lz77.CodeAt | html/DeepWiki_files/3377-d302682beb4206f6.js:1 | at every position the token buffer of 25000 has room for all that is still to come, under the rule that closes blocks |
| Lz77.BlocksPlay | html/DeepWiki_files/3377-d302682beb4206f6.js:1 | blocks that partition the input play back to it, distances reaching into earlier blocks |
| Lz77.FullBlockCovers | html/DeepWiki_files/3377-d302682beb4206f6.js:1 | a block closed early covers at least 21003 bytes |
| Lz77.Compress | html/DeepWiki_files/3377-d302682beb4206f6.js:1 | LZ77 is lossless: for every input, settings and hash function the blocks partition it, only the last is final, each other one is closed as soon as it is full and more than 423 bytes remain, and playing their tokens gives it back |
| TokenFormat.LengthBases | html/DeepWiki_files/3377-d302682beb4206f6.js:1 | the generated length bases are those of section 3.2.5 of RFC 1951 |
| TokenFormat.LengthTable | html/DeepWiki_files/3377-d302682beb4206f6.js:1 | the reverse table gives every length from 3 to 258 its code and extra value |
| TokenFormat.DistanceTable | html/DeepWiki_files/3377-d302682beb4206f6.js:1 | the reverse table gives every distance from 1 to 32768 its code and extra value |
| TokenFormat.BuildCodeTables | html/DeepWiki_files/3377-d302682beb4206f6.js:1 | the loops of the table builder produce exactly those tables |
| TokenFormat.PackedEntries | html/DeepWiki_files/3377-d302682beb4206f6.js:1 | a packed match is told from a literal and unpacks to the length and distance it was made for |
| Huffman.MergeKeepsLeaves | html/DeepWiki_files/3377-d302682beb4206f6.js:1 | joining the two lightest trees over and over neither loses nor repeats a symbol |
| Huffman.MergedWeightBound | html/DeepWiki_files/3377-d302682beb4206f6.js:1 | a tree of height h weighs at least a Fibonacci number |
| Huffman.HeightBound | html/DeepWiki_files/3377-d302682beb4206f6.js:1 | for a total weight of at most 25001 the tree is at most 20 high, so shifts by its depths never wrap |
| HuffmanLengths.SortBySorts | html/DeepWiki_files/3377-d302682beb4206f6.js:1 | the symbols are put in order without losing one |
| HuffmanLengths.BuildTree | html/DeepWiki_files/3377-d302682beb4206f6.js:1 | merging in place, inner nodes overwriting consumed leaves, builds the tree that merging two queues builds |
| KraftSums.KraftOfTree | html/DeepWiki_files/3377-d302682beb4206f6.js:1 | the depths of a binary tree's leaves use the code space up exactly |
| KraftSums.KraftPermutation | html/DeepWiki_files/3377-d302682beb4206f6.js:1 | the code space taken does not depend on the order of the symbols |
| LengthLimit.Clamp | html/DeepWiki_files/3377-d302682beb4206f6.js:1 | cutting lengths down to the limit overdraws the code space by the amount that is counted |
| LengthLimit.Lengthen | html/DeepWiki_files/3377-d302682beb4206f6.js:1 | lengthening codes from the back covers the overdraft without running out of symbols |
| LengthLimit.Shorten | html/DeepWiki_files/3377-d302682beb4206f6.js:1 | shortening codes at the limit gives back exactly what was covered too much: the lengths are complete again |
| HuffmanCoder.AssignDepths | html/DeepWiki_files/3377-d302682beb4206f6.js:1 | every leaf's depth is recorded, nothing else changes, and the greatest depth is returned |
| HuffmanCoder.LimitLengths | html/DeepWiki_files/3377-d302682beb4206f6.js:1 | complete lengths are brought within the limit and stay exactly complete |
| HuffmanCoder.CodeLengths | html/DeepWiki_files/3377-d302682beb4206f6.js:1 | for frequencies of total at most 25001 and at most 2^t used symbols: exactly the used ones get a length in 1..t; with two or more the Kraft sum is exactly 1, limited or not; unlimited lengths are the tree's depths |
| BitReversal.ReverseTwice | html/DeepWiki_files/3377-d302682beb4206f6.js:1 | reversing bits is its own inverse |
| BitReversal.SwappedIsReverse | html/DeepWiki_files/3377-d302682beb4206f6.js:1 | swapping bit groups with masks, halved, is the reversal of 15 bits |
| BitReversal.BuildReverseTable | html/DeepWiki_files/3377-d302682beb4206f6.js:1 | the table holds the reversal of every 15-bit number |
| CanonicalCode.CodesFit | html/DeepWiki_files/3377-d302682beb4206f6.js:1 | when the lengths do not oversubscribe, all codes of a length fit into that many bits |
| CanonicalCode.NoCodeIsPrefix | html/DeepWiki_files/3377-d302682beb4206f6.js:1 | canonical codes are prefix free |
| CanonicalCode.PrefixFree | html/DeepWiki_files/3377-d302682beb4206f6.js:1 | so are they as transmitted, bit-reversed |
| CanonicalCode.AssignCodes | html/DeepWiki_files/3377-d302682beb4206f6.js:1 | counting up per length in 16-bit counters yields every symbol's reversed canonical code of section 3.2.2 of RFC 1951 |
| CodeLengthRuns.PackedFields | html/DeepWiki_files/3377-d302682beb4206f6.js:1 | symbol, extra value and width packed with shifts and ors come apart again |
| CodeLengthRuns.PutZeros | html/DeepWiki_files/3377-d302682beb4206f6.js:1 | a run of zeros is written as symbols 18, 17 and 0 that expand to it |
| CodeLengthRuns.PutRepeats | html/DeepWiki_files/3377-d302682beb4206f6.js:1 | a run of another length is written as the length and repeats that expand to it |
| CodeLengthRuns.EncodeRuns | html/DeepWiki_files/3377-d302682beb4206f6.js:1 | expanding the run-length symbols by section 3.2.7 of RFC 1951 gives the table without trailing zeros; every extra value fits its field and the output is no longer than the table |
| BitStream.OrValueHolds | html/DeepWiki_files/3377-d302682beb4206f6.js:1 | three byte-wide ors at a bit position append exactly the bits of the value |
| BitStream.TwoBytesSuffice | html/DeepWiki_files/3377-d302682beb4206f6.js:1 | two do for values of at most nine bits |
| BitStream.BitWriter.PutLong | html/DeepWiki_files/3377-d302682beb4206f6.js:1 | writing a value appends its bits, least significant first |
| BitStream.BitWriter.PutShort | html/DeepWiki_files/3377-d302682beb4206f6.js:1 | so does the two-byte form, for what it is used for |
| Inflate.OneCodeHere | html/DeepWiki_files/3377-d302682beb4206f6.js:1 | two codes of a prefix code cannot stand at the same place |
| Inflate.SymbolDecodes | html/DeepWiki_files/3377-d302682beb4206f6.js:1 | a symbol sent as its transmitted code is decoded, and its length consumed |
| Inflate.OrderClosed | html/DeepWiki_files/3377-d302682beb4206f6.js:1 | the order in which the lengths of the code length code are sent, in closed form |
| BlockFormat.DataDecodes | html/DeepWiki_files/3377-d302682beb4206f6.js:1 | the decoder reads the tokens of a block back from their bits, up to the end of block |
| BlockFormat.LengthsDecode | html/DeepWiki_files/3377-d302682beb4206f6.js:1 | the decoder reads the code lengths of both alphabets back from their runs |
| BlockFormat.OrderDecodes | html/DeepWiki_files/3377-d302682beb4206f6.js:1 | the lengths of the code length code are read back into their places |
| BlockDecoding.FixedDecodes | html/DeepWiki_files/3377-d302682beb4206f6.js:1 | a fixed block decodes to its tokens wherever it stands in a stream |
| BlockDecoding.DynamicDecodes | html/DeepWiki_files/3377-d302682beb4206f6.js:1 | so does a dynamic block, header, code lengths and data |
| BlockDecoding.StoredDecodes | html/DeepWiki_files/3377-d302682beb4206f6.js:1 | so does a stored block, with its padding, length and complement |
| BlockCosts.BodyCost | html/DeepWiki_files/3377-d302682beb4206f6.js:1 | the frequency-weighted code lengths plus the extra bits are the bits of a body, to the bit |
| BlockCosts.DynamicCost | html/DeepWiki_files/3377-d302682beb4206f6.js:1 | the cost formula of the dynamic form counts its header and code lengths exactly |
| BlockCosts.FixedCostBound | html/DeepWiki_files/3377-d302682beb4206f6.js:1 | a fixed body takes at most 9 bits a token, 22 more a match and 7 |
| BlockPlanning.CountRuns | html/DeepWiki_files/3377-d302682beb4206f6.js:1 | the run symbols of a table are tallied |
| BlockPlanning.CountOrdered | html/DeepWiki_files/3377-d302682beb4206f6.js:1 | exactly the zero lengths at the end of the order are left out of the header, but at least four are sent |
| BlockWriter.MakePlan | html/DeepWiki_files/3377-d302682beb4206f6.js:1 | three codes are planned that cover the block's symbols, within 15, 15 and 7 bits |
| BlockWriter.Costs | html/DeepWiki_files/3377-d302682beb4206f6.js:1 | the two costs compared are the exact sizes of the two bodies |
| BlockWriter.PutTokens | html/DeepWiki_files/3377-d302682beb4206f6.js:1 | the unpacked tokens are written as their codes and extra bits, then the end of block |
| BlockWriter.PutDynamic | html/DeepWiki_files/3377-d302682beb4206f6.js:1 | counts, code length code, run symbols and data are written in order |
| BlockWriter.PutStored | html/DeepWiki_files/3377-d302682beb4206f6.js:1 | a stored block is written on the next byte boundary with its length and complement |
| BlockWriter.WriteBlock | html/DeepWiki_files/3377-d302682beb4206f6.js:1 | the block is written in its cheapest form, decodes to the bytes it covers, and takes at most 42 bits beyond them and never more than its fixed or its dynamic form |
| StreamPrefix.BlockExtends | html/DeepWiki_files/3377-d302682beb4206f6.js:1 | what a prefix of a stream decodes to, the whole stream decodes to, stopping at the same place |
| Deflate.WriteBlocks | html/DeepWiki_files/3377-d302682beb4206f6.js:1 | all blocks together decode to the input whatever follows them, and the decoder stops right behind them |
| Deflate.CutStream | html/DeepWiki_files/3377-d302682beb4206f6.js:1 | a buffer that cuts the stream short does not decode |
| Deflate.RoomForBlocks | html/DeepWiki_files/3377-d302682beb4206f6.js:1 | from 7000 bytes on the buffer has room for every block; below that there is one block and room for 40 bits beyond its bytes |
| FixedSize.FixedFits | html/DeepWiki_files/3377-d302682beb4206f6.js:1 | in the fixed form a sole block of at most 8192 bytes takes at most eight bits a byte, one more for each byte from 144 on, and seven |
| Deflate.SoleBlockSize | html/DeepWiki_files/3377-d302682beb4206f6.js:1 | a sole block outgrows the buffer exactly when the smaller coded form has 38 or 39 bits beyond eight a byte, and never with at most 30 bytes from 144 on |
| Deflate.Compress | html/DeepWiki_files/3377-d302682beb4206f6.js:1 | compress and decompress: the result decodes to the input for all inputs of 7000 bytes or more and all with at most 30 bytes from 144 on; for a shorter one it does exactly unless the form of its block is misjudged, that is exactly when the bits needed fit the buffer, and at most two can be missing |
| ExampleText.ExampleIsText | html/DeepWiki_files/3377-d302682beb4206f6.js:1 | the 46 bytes of the example are the UTF-8 form of a JSON text that ends in the version tag |
| ExampleText.AllLiterals | html/DeepWiki_files/3377-d302682beb4206f6.js:1 | bytes of which no three in a row occur twice are tokenized as literals only, whatever the settings |
| Shortfall.LengthsBound | html/DeepWiki_files/3377-d302682beb4206f6.js:1 | no code for the bytes of the example and the end of block takes fewer than 243 bits |
| Shortfall.RunsBound | html/DeepWiki_files/3377-d302682beb4206f6.js:1 | no code for its table of code lengths takes fewer than 137 bits |
| Shortfall.DynamicIsLong | html/DeepWiki_files/3377-d302682beb4206f6.js:1 | so no choice of codes makes its dynamic form shorter than 406 bits |
| Shortfall.ExampleSize | html/DeepWiki_files/3377-d302682beb4206f6.js:1 | the form chosen for the example takes 409 bits |
| Shortfall.ExampleIsLost | html/DeepWiki_files/3377-d302682beb4206f6.js:1 | no settings of the compressor preserve the text, which has 31 bytes from 144 on, one more than always fit |
| Adler32.DeferredReduction | html/DeepWiki_files/3377-d302682beb4206f6.js:1 | reducing once after many bytes equals reducing at each byte |
| Adler32.ChunkFits | html/DeepWiki_files/3377-d302682beb4206f6.js:1 | over 5552 bytes the unreduced sums stay below 2^32 |
| Adler32.ChecksumConcat | html/DeepWiki_files/3377-d302682beb4206f6.js:1 | feeding two pieces equals feeding their concatenation |
| Adler32.Adler.Push | html/DeepWiki_files/3377-d302682beb4206f6.js:1 | the chunked loop computes the per-byte checksum of section 2.2 of RFC 1950 |
| Adler32.PutTrailer | html/DeepWiki_files/3377-d302682beb4206f6.js:1 | the byte-swapped digest written low byte first lays the checksum out most significant byte first, and changes nothing else |
| TaskHeap.RootIsLeast | html/DeepWiki_files/1684-6bf7d92e9478c1cb.js:1 | the root of the heap comes first by sort index and id |
| TaskHeap.MinHeap.Peek | html/DeepWiki_files/1684-6bf7d92e9478c1cb.js:1 | peek is the task of the smallest sort index, of those the one with the smallest id, or none |
| TaskHeap.MinHeap.Push | html/DeepWiki_files/1684-6bf7d92e9478c1cb.js:1 | push keeps the heap order and adds exactly the task |
| TaskHeap.MinHeap.Pop | html/DeepWiki_files/1684-6bf7d92e9478c1cb.js:1 | pop takes exactly the least task and keeps the heap order |
| TaskHeap.MinHeap.Drain | html/DeepWiki_files/1684-6bf7d92e9478c1cb.js:1 | repeated pops yield all tasks in order |
| TaskQueues.MoveDue | html/DeepWiki_files/1684-6bf7d92e9478c1cb.js:1 | a due timer rekeyed by expiration leaves no task queued twice and none with a callback unqueued |
| TaskQueues.FateOfTimer | html/DeepWiki_files/1684-6bf7d92e9478c1cb.js:1 | after advancing, a due live timer is ready under its expiration, a due cancelled one is gone, a later live one still waits |
| TaskQueues.NoneExpired | html/DeepWiki_files/1684-6bf7d92e9478c1cb.js:1 | when the first ready task has not expired, none has |
| TaskQueues.CoveredBefore | html/DeepWiki_files/1684-6bf7d92e9478c1cb.js:1 | a timer that does not come first needs no timeout of its own |
| Scheduler.Scheduler.ScheduleCallback | html/DeepWiki_files/1684-6bf7d92e9478c1cb.js:1 | a task starts at once or after its delay and expires -1, 250, 5000, 10000 or 1073741823 milliseconds later for levels 1 to 5, 5000 for any other; it goes to the timers by its start or to the ready queue by its expiration, and a host callback is there for it, or a timeout, which is set for exactly its start when it is set anew |
| Scheduler.UrgentFirst | html/DeepWiki_files/1684-6bf7d92e9478c1cb.js:1 | of two undelayed tasks of one moment the lower level comes first |
| Scheduler.Scheduler.CancelCallback | html/DeepWiki_files/1684-6bf7d92e9478c1cb.js:1 | cancelling takes the callback away and nothing else |
| Scheduler.Scheduler.AdvanceTimers | html/DeepWiki_files/1684-6bf7d92e9478c1cb.js:1 | all timers left start later than now; every due uncancelled one moved to the ready queue, none lost or duplicated |
| Scheduler.Scheduler.HandleTimeout | html/DeepWiki_files/1684-6bf7d92e9478c1cb.js:1 | a timeout makes due timers ready and leaves a host callback or a further timeout behind |
| Scheduler.Scheduler.RunCallback | html/DeepWiki_files/1684-6bf7d92e9478c1cb.js:1 | the first task's callback is called once and recorded; it is finished unless it returns a continuation, and of the other tasks those keep a callback that what it schedules and cancels leaves one |
| Scheduler.Scheduler.WorkLoop | html/DeepWiki_files/1684-6bf7d92e9478c1cb.js:1 | a callback is called only when its task had expired at the loop's last reading, or when at its own yield test no paint was wanted and the time was not up; so a slice yields at the first test that says so, and otherwise ends idle with nothing ready, or because a callback continues or throws; when it yields no ready task has expired as of the loop's last reading, and as of the later one that the yield test takes none has exactly when the first has not |
| Scheduler.ExpiresInTest | html/DeepWiki_files/1684-6bf7d92e9478c1cb.js:1 | a run in which a slice yields although the first task expires between those two readings |
| Scheduler.Scheduler.PerformWork | html/DeepWiki_files/1684-6bf7d92e9478c1cb.js:1 | after a slice another host callback is posted exactly when it did not end idle; priority is restored, throws included |
| Scheduler.Scheduler.Handle | html/DeepWiki_files/1684-6bf7d92e9478c1cb.js:1 | every event keeps the invariant and has its effect: what is scheduled is queued by its fields, what is cancelled loses its callback, a timeout moves the due timers, a host callback runs one slice |
| Scheduler.Scheduler.Run | html/DeepWiki_files/1684-6bf7d92e9478c1cb.js:1 | over every run: exactly one host callback is outstanding while the loop runs, it runs whenever a task is ready, and no callback was ever called where the slice should have yielded |
| Scheduler.NothingStalls | html/DeepWiki_files/1684-6bf7d92e9478c1cb.js:1 | a task that still has its callback is queued, and a host callback is outstanding or a timeout is set for no later than its start |
| PromiseQueue.PromiseQueue.Enqueue | html/DeepWiki_files/1684-6bf7d92e9478c1cb.js:1 | a task starts at once when the limit allows, and waits last otherwise |
| PromiseQueue.PromiseQueue.Bump | html/DeepWiki_files/1684-6bf7d92e9478c1cb.js:1 | a waiting task starts at once whatever the limit; any other is left alone |
| PromiseQueue.PromiseQueue.Complete | html/DeepWiki_files/1684-6bf7d92e9478c1cb.js:1 | an ended task is done, and the first waiting one starts when the limit allows |
| PromiseQueue.StartFirst | html/DeepWiki_files/1684-6bf7d92e9478c1cb.js:1 | starting the first waiting task keeps each task in one place, started once, in order |
| PromiseQueue.StartBumped | html/DeepWiki_files/1684-6bf7d92e9478c1cb.js:1 | so does starting one out of turn |
| PromiseQueue.PromiseQueue.Run | html/DeepWiki_files/1684-6bf7d92e9478c1cb.js:1 | over every run: each task is waiting, running or done and started once; those started in turn never exceed the limit; none waits while fewer run than the limit; and the places are those the events give one after the other |
| FlightRows.Join | html/DeepWiki_files/1684-6bf7d92e9478c1cb.js:1 | the pieces of a payload are put together in order |
| FlightRows.Reader.Feed | html/DeepWiki_files/1684-6bf7d92e9478c1cb.js:1 | the row loop terminates and does what stepping byte by byte does, also where a step consumes nothing |
| FlightChunks.FeedIsSteps | html/DeepWiki_files/1684-6bf7d92e9478c1cb.js:1 | without an overrun a chunk is worth its bytes |
| FlightChunks.ChunkIndependence | html/DeepWiki_files/1684-6bf7d92e9478c1cb.js:1 | every cut of a stream gives the same rows exactly when nowhere a length runs backwards past the chunk |
| FlightChunks.ReadAll | html/DeepWiki_files/1684-6bf7d92e9478c1cb.js:1 | the reader over chunks computes the run the theorem is about |
| FlightEncoding.RowsRoundTrip | html/DeepWiki_files/1684-6bf7d92e9478c1cb.js:1 | rows written as frames are read back from every cut |
| FlightEncoding.TagsAreLetters | html/DeepWiki_files/1684-6bf7d92e9478c1cb.js:1 | the tags taken for rows with a length are the letters TAOoUSsLlGgMmV, and those for rows that end with a newline the other capitals, #, r and x |
| FlightEncoding.WrappedLengthDependsOnCut | html/DeepWiki_files/1684-6bf7d92e9478c1cb.js:1 | a concrete stream with an overflowing length field reads differently when cut |
| FlightLengths.FieldState | html/DeepWiki_files/1684-6bf7d92e9478c1cb.js:1 | while length fields hold hexadecimal digits and stand for less than 2^31, the parser holds in them the number read so far, and no length is ever negative |
| FlightLengths.FirstCharacter | html/DeepWiki_files/1684-6bf7d92e9478c1cb.js:1 | what any character at the start of a field is taken for, digit or not |
| FlightLengths.WellWrittenIsIndependent | html/DeepWiki_files/1684-6bf7d92e9478c1cb.js:1 | such a stream reads the same however it is cut |
| FlightLengths.MinusDependsOnCut | html/DeepWiki_files/1684-6bf7d92e9478c1cb.js:1 | a concrete stream whose length field is a single minus sign reads differently when cut |
| Utf8.FirstCharOf | html/DeepWiki_files/5009-cf1c1739f4eccbfa.js:1 | bytes that begin with the encoding of a character, section 3 of RFC 3629, are read as it |
| Utf8.FirstCharReads | html/DeepWiki_files/5009-cf1c1739f4eccbfa.js:1 | and bytes read as a character begin with its encoding: no overlong form, surrogate or value beyond Unicode |
| Utf8.ScanUtf8 | html/DeepWiki_files/5009-cf1c1739f4eccbfa.js:1 | reading well-formed bytes gives the characters |
| Utf8.RepairUtf16 | html/DeepWiki_files/5009-cf1c1739f4eccbfa.js:1 | reading well-formed units gives the characters |
| Utf8.EmittedIsRepair | html/DeepWiki_files/5009-cf1c1739f4eccbfa.js:1 | on any units the encoder emits every character, lone surrogates as U+FFFD, exactly when the text does not end in two lead surrogates; then one is lost |
| Utf8.FitLongest | html/DeepWiki_files/5009-cf1c1739f4eccbfa.js:1 | a byte budget never splits a character, is never exceeded, and leaves out nothing that fits |
| Utf8.PushedIsUtf8 | html/DeepWiki_files/5009-cf1c1739f4eccbfa.js:1 | the shifts, masks and markers pushed for a character are its UTF-8 form |
| Utf8.Encode | html/DeepWiki_files/5009-cf1c1739f4eccbfa.js:1 | the encoder loop, with its held-back surrogate and its budget, writes those characters |
| Utf8.DecodedAtIs | html/DeepWiki_files/5009-cf1c1739f4eccbfa.js:1 | the decoder's bit tests accept exactly a character's encoding and announce its length |
| Utf8.Decode | html/DeepWiki_files/5009-cf1c1739f4eccbfa.js:1 | on any bytes the decoder terminates with well-formed units, one byte at a time replaced by U+FFFD |
| Utf8.TextAndBack | html/DeepWiki_files/5009-cf1c1739f4eccbfa.js:1 | decode after encode is the identity exactly on well-formed UTF-16 |
| Utf8.BytesAndBack | html/DeepWiki_files/5009-cf1c1739f4eccbfa.js:1 | encode after decode is the identity exactly on well-formed UTF-8 |
| Base64.SixthsOfTriple | html/DeepWiki_files/5009-cf1c1739f4eccbfa.js:1 | masks and shifts take a packed triple apart into its four values |
| Base64.ValueElsewhere | html/DeepWiki_files/5009-cf1c1739f4eccbfa.js:1 | a character that does not read as 0 is the letter of its value or one of the two of the URL-safe alphabet |
| Base64.LettersInOrder | html/DeepWiki_files/5009-cf1c1739f4eccbfa.js:1 | the alphabet is that of section 4 of RFC 4648 |
| Base64.BytesOfPacked | html/DeepWiki_files/5009-cf1c1739f4eccbfa.js:1 | and four packed values into their three bytes |
| Base64.EncodedConcat | html/DeepWiki_files/5009-cf1c1739f4eccbfa.js:1 | encoding by pieces of whole groups is encoding at once |
| Base64.FromByteArray | html/DeepWiki_files/5009-cf1c1739f4eccbfa.js:1 | the encoder, in pieces of 16383 bytes with its two tails, writes the encoding of section 4 of RFC 4648 |
| Base64.Lengths | html/DeepWiki_files/5009-cf1c1739f4eccbfa.js:1 | the pads are counted from the first one on; other lengths than multiples of four are refused |
| Base64.AnnouncedLength | html/DeepWiki_files/5009-cf1c1739f4eccbfa.js:1 | the announced byte length is the decoded length, for malformed padding too, but for a text that starts with a pad |
| Base64.ToByteArray | html/DeepWiki_files/5009-cf1c1739f4eccbfa.js:1 | the decoder fills exactly that array, in bounds; it throws exactly for a bad length or a leading pad |
| Base64.DecodedOfEncoded | html/DeepWiki_files/5009-cf1c1739f4eccbfa.js:1 | decoding an encoding gives the bytes back in all three tail cases |
| Base64.BytesAndBack | html/DeepWiki_files/5009-cf1c1739f4eccbfa.js:1 | the two programs are inverse on every byte array |
| Base64.UrlSafeDecodes | html/DeepWiki_files/5009-cf1c1739f4eccbfa.js:1 | the URL-safe alphabet of section 5 of RFC 4648 decodes alike |
| SignedIntegers.TruncationBorrows | html/DeepWiki_files/5009-cf1c1739f4eccbfa.js:1 | truncated division exceeds floor division by one exactly for a negative value that does not divide |
| SignedIntegers.BorrowStep | html/DeepWiki_files/5009-cf1c1739f4eccbfa.js:1 | looking for the first byte that is not zero finds that borrow |
| SignedIntegers.WriteIntLE | html/DeepWiki_files/5009-cf1c1739f4eccbfa.js:1 | the two's-complement bytes are written, least significant first, and no others; out of range nothing changes |
| SignedIntegers.WriteIntBE | html/DeepWiki_files/5009-cf1c1739f4eccbfa.js:1 | the same bytes the other way round |
| SignedIntegers.SignedIs | html/DeepWiki_files/5009-cf1c1739f4eccbfa.js:1 | a value in range is what its low bytes stand for with their sign |
| SignedIntegers.ReadIntLE | html/DeepWiki_files/5009-cf1c1739f4eccbfa.js:1 | reading weighs the bytes and subtracts the modulus at the sign bit |
| SignedIntegers.ReadIntBE | html/DeepWiki_files/5009-cf1c1739f4eccbfa.js:1 | likewise from the most significant byte |
| SignedIntegers.ThereAndBack | html/DeepWiki_files/5009-cf1c1739f4eccbfa.js:1 | for widths 1 to 6 and every value in range, what is written is read back in both orders |
| ByteSearch.IndexOf | html/DeepWiki_files/5009-cf1c1739f4eccbfa.js:1 | the loop that backs up on a failed match terminates with the first occurrence at or after the start, or -1 exactly when there is none |
| ByteSearch.LastIndexOf | html/DeepWiki_files/5009-cf1c1739f4eccbfa.js:1 | the backward loop returns the last occurrence at or before the start, or -1 exactly when there is none |
| LiveNodes.InsertKeeps | html/DeepWiki_files/378e5a93-3b0f971d3611a8a5.js:1 | an insertion keeps visited nodes at or before an iterator and the others after it |
| LiveNodes.RemoveKeeps | html/DeepWiki_files/378e5a93-3b0f971d3611a8a5.js:1 | so does a removal, before, at or after the iterator |
| LiveNodes.EndOfWalk | html/DeepWiki_files/378e5a93-3b0f971d3611a8a5.js:1 | at the end every first node neither removed ahead nor put in again was visited once, in order |
| LiveNodes.SplicedAhead | html/DeepWiki_files/378e5a93-3b0f971d3611a8a5.js:1 | splicing at an index, negative or past the end included, keeps the nodes ahead of an iterator ahead exactly when nothing is inserted or the index is not a negative one that names a place past the next node |
| LiveNodes.MissingAnchor | html/DeepWiki_files/378e5a93-3b0f971d3611a8a5.js:1 | so inserting before a node that is not a child keeps them exactly when there is at most one, or nothing is inserted |
| LiveNodes.SplicedInside | html/DeepWiki_files/378e5a93-3b0f971d3611a8a5.js:1 | nodes spliced in one by one, last first, stand in order at a place inside the list, and in the opposite order at one counted from its end |
| LiveIteration.Container.RemoveChild | html/DeepWiki_files/378e5a93-3b0f971d3611a8a5.js:1 | a child is taken out and counts as gone for exactly the walks it lay ahead of, which come to all other nodes as before; for another node nothing changes and it throws |
| LiveIteration.Container.Normalize | html/DeepWiki_files/378e5a93-3b0f971d3611a8a5.js:1 | children among the nodes to insert are taken out first, each counted as gone by exactly the walks it lay ahead of; a node that names the container as its parent without being a child makes it throw, and so does one given twice, which leaves the ones before it in that state |
| LiveIteration.Container.InsertBefore | html/DeepWiki_files/378e5a93-3b0f971d3611a8a5.js:1 | nodes go in before a child or at any index, moved out of the container first if they were in it, with every index moved along; every walk stays in step unless a negative place misleads it |
| LiveIteration.Container.InsertAfter | html/DeepWiki_files/378e5a93-3b0f971d3611a8a5.js:1 | likewise after a child or an index, or at the front when the node is not a child |
| LiveIteration.Container.Prepend | html/DeepWiki_files/378e5a93-3b0f971d3611a8a5.js:1 | likewise at the front |
| LiveIteration.Container.Append | html/DeepWiki_files/378e5a93-3b0f971d3611a8a5.js:1 | likewise at the end |
| LiveIteration.Container.Each | html/DeepWiki_files/378e5a93-3b0f971d3611a8a5.js:1 | what a walk visits, how it ends and what it leaves behind are those of the reference walk: it goes on until its index passes the last child, stops exactly when a callback does not let it go on, and ends thrown exactly when an operation of its last callback throws; a callback that does nothing sees every child; whatever the callbacks insert, remove or walk in turn, nested to any depth, a finished walk visited once and in order the first children not removed ahead of it nor put in again, a stopped one a prefix of them; a first child it visited and that was not put in again is not counted as gone |
| LiveIteration.Container.Apply | html/DeepWiki_files/378e5a93-3b0f971d3611a8a5.js:1 | every operation, nested walks included, does to the children, the indexes and the parent links what its reference function does, and throws where that does |
| LiveSemantics.WalkEnds | html/DeepWiki_files/378e5a93-3b0f971d3611a8a5.js:1 | the reference walk takes turns as long as they let it go on and nothing throws, and its outcome says which of the two ended it |
| LiveSemantics.QuietWalk | html/DeepWiki_files/378e5a93-3b0f971d3611a8a5.js:1 | a walk whose callback does nothing visits every child in order and leaves all as it was |
| LiveIteration.MissesAChild | html/DeepWiki_files/378e5a93-3b0f971d3611a8a5.js:1 | a concrete walk that misses a child because its callback inserted before a node that is not one |
| LiveIteration.UntouchedVisitedOnce | html/DeepWiki_files/378e5a93-3b0f971d3611a8a5.js:1 | so each first child that no callback took out or put in is visited exactly once, in order |
| Tokenizer.UnescapedFrom | html/DeepWiki_files/378e5a93-3b0f971d3611a8a5.js:1 | passing over escaped quotes does not change which quote closes |
| Tokenizer.Tokenizer.IsEscaped | html/DeepWiki_files/378e5a93-3b0f971d3611a8a5.js:1 | counting backslashes backwards tells an odd number from an even one |
| Tokenizer.Tokenizer.FindUnescaped | html/DeepWiki_files/378e5a93-3b0f971d3611a8a5.js:1 | the search terminates at the first unescaped character |
| Tokenizer.Tokenizer.BracketToken | html/DeepWiki_files/378e5a93-3b0f971d3611a8a5.js:1 | a bracket is taken whole up to its close, after url( up to an unescaped one, or alone when its text is awkward or it does not close |
| Tokenizer.Tokenizer.NextToken | html/DeepWiki_files/378e5a93-3b0f971d3611a8a5.js:1 | every read token moves the position on, is the text passed over, says where it starts and ends, and is the one that stands there behind the words waiting: of the kind its first character asks for, as long as that kind runs, a bracket behind the word url with no quote or white space after it up to the first unescaped close; an error is raised only for what is really unclosed |
| Tokenizer.TokenDetermined | html/DeepWiki_files/378e5a93-3b0f971d3611a8a5.js:1 | behind the same words one token, and no other, stands at a place |
| Tokenizer.WordLetters | html/DeepWiki_files/378e5a93-3b0f971d3611a8a5.js:1 | the characters that end a word, written out |
| Tokenizer.AtWordLetters | html/DeepWiki_files/378e5a93-3b0f971d3611a8a5.js:1 | the characters that end an at-word, written out |
| Tokenizer.SignLetters | html/DeepWiki_files/378e5a93-3b0f971d3611a8a5.js:1 | the characters that are tokens by themselves, written out |
| Tokenizer.Tokenizer.ReadAll | html/DeepWiki_files/378e5a93-3b0f971d3611a8a5.js:1 | the tokens of a text read without error spell it, each where it says |
| OffsetIndex.StartsAreLineStarts | html/DeepWiki_files/378e5a93-3b0f971d3611a8a5.js:1 | adding up line lengths gives exactly the places where lines start |
| OffsetIndex.WalkIsLine | html/DeepWiki_files/378e5a93-3b0f971d3611a8a5.js:1 | the character walk stands on the line whose start is the last not after it |
| OffsetIndex.PositionInside | html/DeepWiki_files/378e5a93-3b0f971d3611a8a5.js:1 | the loop computes that walk from line 1, column 1 |
| OffsetIndex.Input.FromOffset | html/DeepWiki_files/378e5a93-3b0f971d3611a8a5.js:1 | the binary search over the cached starts gives the line and column of the walk exactly for offsets that are not negative |
| Throttle.Throttled.Call | html/DeepWiki_files/378e5a93-3b0f971d3611a8a5.js:1 | a call runs the function when the window is over, and otherwise leaves a timer for the end of the window pending unless trailing runs are off |
| Throttle.Throttled.Fire | html/DeepWiki_files/378e5a93-3b0f971d3611a8a5.js:1 | the timer runs the function once |
| Throttle.Throttled.Run | html/DeepWiki_files/378e5a93-3b0f971d3611a8a5.js:1 | under every setting and order of events any two runs are at least the wait apart, and runs, window and timer are those the events give one after the other |

## Left out

- The stored-only path of the encoder for level 0 or inputs under 8 bytes, the two zlib header bytes, and slicing the
  result out of the container: `Deflate.Compress` works on the raw bits for inputs of any length on the compressing path.
- Huffman optimality: the code is proved complete and prefix free, not shortest.
- The speed of the hash chains: the hash is any function into its table, and chain contents are any window positions, so
  nothing is claimed about how good the matches are.
- The library sort is modelled as a stable insertion sort.
- Aliasing between buffers the caller passes in: arrays that a method writes are required to differ from those it reads.
- The scheduler's profiling hooks, `runWithPriority`, `next`, `wrapCallback` and the frame-rate setting; a callback that
  the given turns do not cover counts as throwing, so a slice that never ends is not modelled.
- In `PromiseQueue`, the results of promises: only when tasks start and end.
- In the row parser, decoding of row payloads; rows end at framing.
- In `LiveIteration`, parents in other containers, removal by index in place of a node, clean-up of whitespace and dirty
  flags.
- In the tokenizer, the regular expressions of the source are written as character tests.
- Two-byte encodings in the byte search, and its argument clean-up.
- Which arguments a throttled trailing run gets.
- Floating-point reads and writes, BigInt variants and argument coercion in the buffer bundle.
- Everything else in the bundles: user interface, routing, analytics, source maps, recording, and the C++ sources, which
  hold no algorithm of this kind.
