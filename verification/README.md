# Verified models from a collection of course projects

The repository holds several unrelated programs. This project models the parts of them whose correctness is
hardest to see from the code, and proves what those parts are for.

**The compressor and the inflater** of the PNG writer and reader (`Deflate`, `Compress`, `CanonicalCode`,
`ZHuffman`, `Inflate`, `ZlibRoundTrip`). The argument has three layers: tokens expand to data, bits spell
tokens, bytes carry bits. A bit string is a number with a length, low bit first; the unread input of the
inflater is one number (`Remaining`), which is how a bit buffer that is refilled a byte at a time, a fast
table and a slow search can all be compared with one definition (`Lookup`: the symbol whose code word the input
starts with). The main result is the law of the pair: for every byte string and every quality, decoding what the
compressor wrote into a buffer gives exactly the input when the buffer has room, and reports failure when
it has not. What writer and reader share is tied to the standard from outside: the order of the codes, the tables in
closed form, and one stream byte by byte (`ZlibAnswer`).

**The PNG scanline filters** (`Png`). The writer picks a filter for each row by a heuristic, with special cases
for the first row and the first pixel of a row; the reader undoes it in place. Both are compared with the
standard's filters, where pixels outside the image are zero, and the round trip goes through the
compressor and the inflater. The predictor both use is shown to be the nearest of its three neighbours.

**The HDR scanline coder** (`Hdr`, with a row known in advance in `HdrAnswer`): planes as runs and dumps, and the reader that puts them back between each other.
The images that come out are the images that went in, for every width, and no plane grows by more than one byte in 128.

**The PNG chunk check** (`Crc`, `CrcAnswer`): the table-driven loop against the shift register, one bit at a time, and what it
notices: any damage within four neighbouring bytes.

**The JPEG entropy decoder** (`JpegHuffman`, `Jpeg`). A Huffman table with a fast part, and a second table that decodes
a small coefficient at once. Both must agree with the plain definition. They do not quite: the fast table
marks an empty entry with 255, so a short code of number 255 is lost. What table and search together answer
is proved of the code for every accepted table (`FindSymbol`), and it is the right answer exactly for the inputs that do not
start with such a code (`AnswerExact`). A table of 255 codes of eight bits and one of nine, which a file can hold, decodes
an input to another symbol (`FullTableExample`).

**The reliable transport** (`Transport`, `TransportSafety`, `TransportWindows`, `TransportRepeats`,
`TransportAnswers`, `Reliable`, `Checksum`, `Wire`). Two connections over a network that loses, duplicates, delays and reorders packets. A run is any
list of events at either side; any packet ever sent may arrive at any later time. The handlers are functions on a connection's sending and
receiving half; the class `RelState` updates its rings and counters in place and is proved to compute exactly
those functions. Two properties that one would like fail for windows larger than one, each with a
concrete run and the exact condition under which it holds; with a window of one, both hold in every run.

- Delivery is faithful as long as no call of `output_pkts` puts packets out without acknowledging them. That
  happens exactly when the packets at the front of the ring fit the room they are offered and the next one held does not
  (`MidStop`), or when 65536 of them fit, since the loop counts in sixteen bits (`Wraps`); both are stated over the ring,
  the payload lengths and the room, not over what the loop returns. With room for a packet at every look,
  every run is safe for windows below 65536 (`RoomySafety`), and for no larger window (`WindowBoundExact`).
  Room for a window of packets at the first look is enough, which an empty queue gives up to windows of 16; with 17 a run
  puts a byte out twice (`MidStopExample`). The condition is exact for what the two programs at the ends can see: after the first such step, whatever the windows,
  repeated packets alone can make the output go wrong (`TransportRepeats.UnackedIsSeen`).
- The end is announced only after everything was delivered exactly when no end mark overtook its predecessors.

Beside safety, no loss is final: from every run without these two faults, four more events make good a lost packet or a
lost acknowledgement, and repeating them brings everything read to the other side (`TransportAnswers`).

**The causal convolution network** (`DilatedConv`, `DilatedStack`, `WaveNet`, `WaveNetLaws`). A reshape-and-transpose
detour equals the direct dilated convolution, and a generator that sees one sample at a time and keeps the past in
queues gives the same outputs as the batch network. Numbers are exact reals; the two activation functions and all weights are
arbitrary. What a layer computes is said of whole runs: with the gate open, with the gate closed, without dense weights,
and, for one channel, as a formula.

**The address translation table** (`Nat`) with its linked lists, of mappings and of each mapping's connections,
swept in place, and its wrapping identifier counters; and **the streaming hash** (`Sha1`), which equals the one-shot definition of FIPS 180-1; the digest that the
standard gives for abc is reached round by round (`Sha1Answer`, in digits of base sixteen from `Hexadecimal`).

**The collision search of the game** (`BroadPhase`): a grid over the scene, each object's triangles by grid box, and
the search box by box. It finds a pair exactly when some pair of triangles meets whose boxes both reach into the scene,
and the scene is solid: a flat one has no grid at all. So for an object inside the scene it finds what
comparing all pairs would, and beyond it pairs are lost.

The modules `Arith` (shifts, bit reversal, little-endian values), `Bitwise` (bitwise operations and rotation, digit by
digit) and `Wrappers` are shared.

## Assumptions

- In the transport, `conn_sendpkt` returns a positive value and `conn_output` does not fail. Buffer room at each
  look is a parameter of the event, and so is the input that each `conn_input` call returns. Sequence numbers are unbounded
  (the code's are 32 bits wide). Corrupted packets count as lost; `Checksum` shows that a flip of one bit
  outside the length field is indeed noticed.
- Clocks are parameters. Regions under a lock are single steps.
- Allocation does not fail.
- Weights, biases, `tanh` and `sigmoid` of the network are parameters.

## Where the documentation and the code differ

The model follows the code in each case.

- `cs144/tcp/README:42` says that an end mark is ignored while there are buffered packets. The code looks
  only at buffered packets after the next expected one (`cs144/tcp/reliable.c:396-402`), and it does not compare the end mark's
  sequence number with the next expected one, so an end mark that overtakes its predecessors is acted on (`TransportSafety.EndsEarlyExample`).
- `cs144/tcp/README:20-22` says that nothing more is read while a partial packet is on its way. The loop in
  `cs144/tcp/reliable.c:248-254` goes on reading after a partial packet, so that bound is not claimed.
- `has_unackd_pkts` (`cs144/tcp/reliable.c:262-268`) answers whether everything is acknowledged, the opposite of its name. Its one
  caller, `should_close_conn`, relies on what it does.
- `output_pkts` returns from the middle of a packet without acknowledging the packets it finished before
  (`cs144/tcp/reliable.c:447-450`), although it has already cleared their slots; later arrivals of those packets are put
  out again (`TransportWindows.MidStopExample`).
- The window option has no upper bound (`cs144/tcp/rlib.c:1062-1063`), while `output_pkts` counts the packets it puts out in
  sixteen bits (`cs144/tcp/reliable.c:433`). After 65536 of them the counter is zero and nothing is acknowledged
  (`TransportWindows.WrapRun`).
- `stbi__jpeg_huff_decode` asserts that the symbol found by the search has the code that was read
  (`cs148/project/stb_image.h:1629`). The model is the program with assertions off; where the answer is wrong, one that
  checks them may stop instead.

## Model

| member | source | states |
|---|---|---|
| `CanonicalCode.KraftInequality` | `cs148/project/stb_image.h:3480-3494` | the two length checks of the table builder accept a list exactly when it satisfies the Kraft inequality |
| `CanonicalCode.FirstIsZero` | `cs148/project/stb_image.h:3480-3495` | of the symbols sorted by length and then by number, the first has code zero |
| `CanonicalCode.NextCode` | `cs148/project/stb_image.h:3480-3512` | and each has the code of the one before it plus one, with zeros appended up to its length: together, which codes section 3.2.2 of RFC 1951 gives to a list of lengths |
| `CanonicalCode.PrefixFree` | `cs148/project/stb_image.h:3483-3512` | in an accepted list no code word is the beginning of another symbol's word |
| `CanonicalCode.MatchUnique` | `cs148/project/stb_image.h:3567-3576` | no input starts with the words of two symbols |
| `CanonicalCode.DecodeWord` | `cs148/project/stb_image.h:3561-3591` | a symbol's reversed code followed by any bits decodes to that symbol, and exactly its length is consumed |
| `CanonicalCode.NoMatch` | `cs148/project/stb_image.h:3566-3570` | no symbol matches exactly when the reversed sixteen bits reach the last limit, the condition for the error answer |
| `ZHuffman.Table.Build` | `cs148/project/stb_image.h:3469-3514` | succeeds exactly for the lists whose codes fit, and then its fast table, limits and symbol tables represent the canonical code |
| `ZHuffman.Table.CountSizes` | `cs148/project/stb_image.h:3475-3479` | counts how often each nonzero length occurs |
| `ZHuffman.Table.AssignCodes` | `cs148/project/stb_image.h:3480-3495` | rejects exactly the lists that do not fit; otherwise first codes, first symbols and limits are those of the canonical code |
| `ZHuffman.Table.EnterSymbols` | `cs148/project/stb_image.h:3496-3512` | every symbol gets its canonical slot, and every nine-bit index the entry of the short code that its bits start with, or none |
| `ZHuffman.Table.EnterFast` | `cs148/project/stb_image.h:3503-3509` | one short code fills exactly the indices whose low bits are its reversed word |
| `Compress.Bitrev` | `cs148/project/stb_image_write.h:425-433` | reverses the low bits of a code, the function the reader's codes are defined with |
| `Arith.RevRev` | `cs148/project/stb_image.h:3452-3467` | reversing twice gives the low bits back |
| `Deflate.CopyBackAgrees` | `cs148/project/stb_image.h:3656-3662` | a byte-by-byte copy from a distance, overlapping or not, rebuilds data that repeats itself at that distance |
| `Deflate.ExpandAppend` | `cs148/project/stb_image.h:3625-3665` | expanding one more token acts on the expansion of the tokens before it |
| `Deflate.FixedFits` | `cs148/project/stb_image.h:3757-3766` | the default length and distance lists are accepted by the table builder |
| `Deflate.FixedCode` | `cs148/project/stb_image_write.h:459-464` | the writer's four code ranges are the canonical codes of the default lengths |
| `Deflate.LengthRow` | `cs148/project/stb_image_write.h:471-472` | writer's and reader's length rows agree, and the extra bits cover every length of the row; which rows these are, `LengthTable` says |
| `Deflate.DistRow` | `cs148/project/stb_image_write.h:473-474` | writer's and reader's distance rows agree, and the extra bits cover every distance of the row; which rows these are, `DistTable` says |
| `Deflate.LengthTable` | `cs148/project/stb_image.h:3611-3617` | both tables of lengths are those of section 3.2.5 of RFC 1951, in closed form: where row j starts and how many extra bits it has |
| `Deflate.DistTable` | `cs148/project/stb_image.h:3619-3623` | both tables of distances are those of section 3.2.5 of RFC 1951, in closed form |
| `Deflate.LengthSymbol` | `cs148/project/stb_image_write.h:528-530` | a length in row j of the standard's table is written as symbol 257 + j and, in the row's extra bits, how far it lies from the row's start |
| `Deflate.DistSymbol` | `cs148/project/stb_image_write.h:531-533` | a distance in row j of the standard's table is written as symbol j and, in the row's extra bits, how far it lies from the row's start |
| `Compress.BitWriter.Flush` | `cs148/project/stb_image_write.h:415-423` | moves whole bytes to the output, keeps the bits written, and leaves fewer than eight in the buffer |
| `Compress.BitWriter.Add` | `cs148/project/stb_image_write.h:455-457` | appends exactly the given bits to the bits written |
| `Compress.BitWriter.HuffA` | `cs148/project/stb_image_write.h:458` | appends the reversed code |
| `Compress.BitWriter.Huff` | `cs148/project/stb_image_write.h:459-464` | appends the word of a length symbol under the default lengths |
| `Compress.BitWriter.HuffB` | `cs148/project/stb_image_write.h:465` | appends the bits of a literal |
| `Compress.BitWriter.LengthOut` | `cs148/project/stb_image_write.h:528-530` | appends the symbol and extra bits of a match length |
| `Compress.BitWriter.DistanceOut` | `cs148/project/stb_image_write.h:531-533` | appends the symbol and extra bits of a distance |
| `Compress.BitWriter.Pad` | `cs148/project/stb_image_write.h:544-546` | ends on a byte boundary, the output being the bits written as little-endian bytes with zeros above |
| `Compress.FindRow` | `cs148/project/stb_image_write.h:528-531` | the linear search stops at the one row that holds the value, before the end of the table |
| `Compress.Countm` | `cs148/project/stb_image_write.h:435-441` | counts how far two positions agree, up to 258 and the end of the data |
| `Compress.FindMatch` | `cs148/project/stb_image_write.h:492-501` | a found position is earlier, in the window, and matches for at least three bytes; no entry of the list in the window matches longer, and no later one as long |
| `Compress.NextIsBetter` | `cs148/project/stb_image_write.h:509-523` | the lazy check succeeds exactly when some entry for the next position in its window matches longer |
| `Compress.Insert` | `cs148/project/stb_image_write.h:502-507` | appends the position to its list, dropping the older half when full, leaves the other lists alone, and keeps every entry before the next position |
| `Compress.ChooseToken` | `cs148/project/stb_image_write.h:490-523` | the next token is expressible, stays inside the data and expands to exactly the bytes that come next; it is the last of the longest matches, unless none has three bytes or the next position has a longer one, and the position joins its list |
| `Compress.EmitToken` | `cs148/project/stb_image_write.h:525-538` | appends the bits of the token, and nothing else |
| `Compress.WriteMatches` | `cs148/project/stb_image_write.h:490-539` | the tokens written expand to the data read so far, each is the one chosen for its position with the lists as the tokens before left them, and at most three bytes are left, for any hash function |
| `Compress.WriteRest` | `cs148/project/stb_image_write.h:540-542` | the remaining bytes are written as one literal each, so that the tokens expand to all of the data |
| `Compress.SumFits` | `cs148/project/stb_image_write.h:553-560` | for the blocks of a given length: no sum of the loop reaches 2^32, whatever the bytes and the sums before, exactly when that length is at most 5552; a longer block of full bytes overflows |
| `Compress.AdlerBlock` | `cs148/project/stb_image_write.h:556-557` | a block with the remainder taken at its end advances both sums as the per-byte definition does, and none of its 32-bit sums wraps |
| `Compress.Adler32` | `cs148/project/stb_image_write.h:552-560` | the two sums are those of section 8.2 of RFC 1950, also when the first block is empty |
| `Compress.Compress` | `cs148/project/stb_image_write.h:469-570` | the output is the header, one final block spelling a token list that expands to the input, padding, and the checksum; the tokens are those chosen position by position and literals for the last bytes |
| `ZlibAnswer.KnownAnswer` | `cs148/project/stb_image_write.h:469-570` | byte by byte, the stream of one literal and one match that stand for fourteen letters a: header, fixed code, extra bits, the order in which bits fill bytes, padding and checksum |
| `Inflate.ZBuf.Get8` | `cs148/project/stb_image.h:3536-3540` | takes one byte, or a zero at the end, which leaves the value of the unread bytes as if zeros followed |
| `Inflate.ZBuf.FillBits` | `cs148/project/stb_image.h:3542-3549` | gives more than 24 bits to the buffer without changing what remains to be read |
| `Inflate.ZBuf.Receive` | `cs148/project/stb_image.h:3551-3559` | gives the low bits of what remains, and removes exactly them |
| `Inflate.ZBuf.HuffmanDecodeSlowpath` | `cs148/project/stb_image.h:3561-3577` | past the short codes, the search in the limits gives the symbol whose word the input starts with, or the error answer when there is none |
| `Inflate.ZBuf.HuffmanDecode` | `cs148/project/stb_image.h:3579-3591` | fast and slow path together give the symbol whose word the input starts with and consume its length, or answer that there is none and consume nothing |
| `Inflate.FastHit` | `cs148/project/stb_image.h:3583-3589` | a nonzero fast entry is the right symbol with its length |
| `Inflate.FastMiss` | `cs148/project/stb_image.h:3566-3569` | after an empty fast entry the input lies beyond all short codes, so the slow search may start at ten bits |
| `Inflate.SlowHit` | `cs148/project/stb_image.h:3566-3576` | the first limit above the input gives the length of the only matching code, and the offset its rank |
| `Inflate.ZBuf.CopyMatch` | `cs148/project/stb_image.h:3656-3662` | both copy loops give the byte-by-byte copy from the distance |
| `Inflate.ZBuf.ReadMatch` | `cs148/project/stb_image.h:3644-3650` | reads length and distance with their extra bits as the tables say |
| `Inflate.ZBuf.ParseMatch` | `cs148/project/stb_image.h:3644-3662` | a match with a bad code, too large a distance or no room is reported, any other one copied |
| `Inflate.ZBuf.ParseHuffmanBlock` | `cs148/project/stb_image.h:3625-3665` | gives the output, the error and the unread rest that the definition of a block gives, for any code |
| `Inflate.ZBuf.ParseZlibHeader` | `cs148/project/stb_image.h:3742-3753` | accepts exactly the headers with a valid check value, no preset dictionary and the deflate method |
| `Inflate.ZBuf.ParseBlocks` | `cs148/project/stb_image.h:3768-3795` | reads blocks up to the final one |
| `Inflate.DecodeBuffer` | `cs148/project/stb_image.h:3844-3853` | answers the number of bytes put into the caller's buffer, or -1, as the meaning of the input says; `LengthTable`, `DistTable`, `NextCode` and `KnownAnswer` tie that meaning to the standard |
| `Inflate.ReadBlockRest` | `cs148/project/stb_image.h:3625-3665` | a decoded block never leaves the buffer and never gives input back |
| `ZlibRoundTrip.ReadToken` | `cs148/project/stb_image_write.h:525-538` | the bits written for any expressible token are read back as that token, with any bits after them |
| `ZlibRoundTrip.CopyOutIsCopyBack` | `cs148/project/stb_image.h:3656-3662` | copying inside the output buffer appends the match to what was put out |
| `ZlibRoundTrip.TokensSpell` | `cs148/project/stb_image_write.h:490-543` | the bits of a token list and the end mark are read as these tokens one by one |
| `ZlibRoundTrip.ReadTokens` | `cs148/project/stb_image.h:3625-3665` | under any code, reading a spelled token list fills the buffer with its expansion, changes nothing else, stops after the end mark, and reports too small a buffer |
| `ZlibRoundTrip.StreamStarts` | `cs148/project/stb_image_write.h:481-546` | the bytes of a stream carry the header and then the bits of its block |
| `ZlibRoundTrip.RoundTrip` | `cs148/project/stb_image.h:3844-3853` | decoding any stream of the compressor gives exactly the data, in front of what else was in the buffer, if it fits, and an error if not |
| `ZlibRoundTrip.CompressThenDecode` | `cs148/project/stb_image_write.h:469-570` | compressing and decoding gives the input back for every byte string and quality when there is room, and -1 otherwise |
| `Png.UnfilteredFiltered` | `cs148/project/stb_image.h:3997-4037` | whatever the predictor, adding back what was subtracted restores the row from left to right |
| `Png.PixelIs` | `cs148/project/stb_image_write.h:618-646` | the writer's cases for first rows and first pixels are the standard's filters with zeros outside the image |
| `Png.PaethNearest` | `cs148/project/stb_image.h:3944-3953` | section 6 of RFC 2083: the predictor is that one of left, above and above left which is nearest to left plus above less above left, and of several the first in this order |
| `Png.Expectations` | `cs148/project/stb_image_write.h:627-645` | filters 0 to 3 expect zero, the byte to the left, the byte above, and the whole half of the two's sum |
| `Png.RestoredExample` | `cs148/project/stb_image.h:3958-4040` | a line without a filter and a line of filter 4, restored |
| `Png.FilterLine` | `cs148/project/stb_image_write.h:623-646` | both loops give the row filtered as the standard says, with the predictors of `PaethNearest` and `Expectations` |
| `Png.EstimateLine` | `cs148/project/stb_image_write.h:648-649` | sums the bytes taken as signed magnitudes |
| `Png.ChooseFilter` | `cs148/project/stb_image_write.h:621-652` | picks the first filter with the smallest sum and leaves the row filtered with it |
| `Png.FilterImage` | `cs148/project/stb_image_write.h:617-656` | gives one line for each row, its type first |
| `Png.RestoreByte` | `cs148/project/stb_image.h:3997-4037` | each of the reader's cases restores the next byte of the row |
| `Png.RestoreRow` | `cs148/project/stb_image.h:3978-4040` | restores one line after the rows before it, or rejects exactly an unknown type |
| `Png.CreatePngImageRaw` | `cs148/project/stb_image.h:3958-4040` | succeeds exactly for data of the right length whose lines all have known types, and then gives the restored rows; `RestoredExample` is one known in advance |
| `Png.RestoredLines` | `cs148/project/stb_image.h:3978-4040` | the reader's definition takes any filtered image, whatever the types, back to its rows |
| `Png.WriteThenRead` | `cs148/project/stb_image_write.h:604-658` | filter, compress, decode, unfilter gives every byte of every row back, for every image, stride and pixel size |
| `Crc.BuildTable` | `cs148/project/stb_image_write.h:577-580` | entry i is what eight steps of the shift register make of i |
| `Crc.TableStep` | `cs148/project/stb_image_write.h:581-582` | one lookup feeds the eight bits of a byte, low bit first |
| `Crc.StepsAdd` | `cs148/project/stb_image_write.h:577-580` | steps are linear over exclusive or |
| `Crc.Crc32` | `cs148/project/stb_image_write.h:572-584` | for every buffer the result is the complement of the register after all bits, started with ones |
| `CrcAnswer.KnownAnswer` | `cs148/project/stb_image_write.h:572-584` | the check of the four letters IEND is 0xae426082, as in every file |
| `Crc.BurstNoticed` | `cs148/project/stb_image_write.h:572-584` | two buffers that differ within four neighbouring bytes have the same check exactly when they are equal |
| `Hdr.HdrFile.WriteRunData` | `cs148/project/stb_image_write.h:262-268` | writes a run of 1 to 127 bytes, whose count byte is 129 to 255 |
| `Hdr.HdrFile.WriteDumpData` | `cs148/project/stb_image_write.h:270-276` | writes a dump of 1 to 128 bytes |
| `Hdr.FindRun` | `cs148/project/stb_image_write.h:333-341` | stops at the first three equal bytes, or at the end when there are none |
| `Hdr.HdrFile.RunFrom` | `cs148/project/stb_image_write.h:349-361` | writes a whole run, which takes fewer bytes than the run has |
| `Hdr.HdrFile.WritePlane` | `cs148/project/stb_image_write.h:331-362` | the pieces written stand for the plane, none of its runs of three being dumped, in at most 129/128 of its length and one byte |
| `Hdr.HdrFile.WriteScanline` | `cs148/project/stb_image_write.h:278-365` | the bytes stand for the row: flat for widths below 8 and from 32768 on, else a header and four planes |
| `Hdr.PiecesRead` | `cs148/project/stb_image.h:5930-5946` | pieces that make up the rest of a row are read as that rest, and nothing after them is consumed |
| `Hdr.RowComesBack` | `cs148/project/stb_image.h:5893-5946` | wherever the bytes of a row lie, exactly they are read, as that row |
| `Hdr.HdrReader.ReadComponent` | `cs148/project/stb_image.h:5931-5945` | fills every fourth byte of the scanline with the plane, and leaves the other planes alone |
| `Hdr.HdrReader.ReadScanline` | `cs148/project/stb_image.h:5893-5946` | reads one row as the meaning of the input says |
| `Hdr.ImageReads` | `cs148/project/stb_image.h:5893-5949` | the bytes of all rows are read as all rows |
| `HdrAnswer.KnownRow` | `cs148/project/stb_image.h:5893-5946` | a row of eight pixels known in advance: the marks, the count bytes of runs and dumps, and the order of the planes |
| `Hdr.WriteThenRead` | `cs148/project/stb_image_write.h:367-384` | every image of four-byte pixels, of every width and height, comes back |
| `JpegHuffman.Huffman.FillSizes` | `cs148/project/stb_image.h:1500-1505` | the counts become the list of lengths in ascending order |
| `JpegHuffman.Huffman.AssignCodes` | `cs148/project/stb_image.h:1507-1522` | rejects exactly the tables whose codes do not fit; otherwise codes, offsets and limits are canonical |
| `JpegHuffman.Huffman.EnterFast` | `cs148/project/stb_image.h:1527-1534` | a short code fills exactly the entries whose high bits are its word |
| `JpegHuffman.Huffman.Build` | `cs148/project/stb_image.h:1498-1537` | accepts exactly the tables whose codes fit, and then represents the canonical code |
| `JpegHuffman.StartsUnique` | `cs148/project/stb_image.h:1507-1521` | no sixteen bits start with the codes of two symbols |
| `JpegHuffman.AnswerExact` | `cs148/project/stb_image.h:1524-1535` | for one input: what table and search answer is right exactly when the input does not start with a code of number 255 of nine bits or fewer |
| `JpegHuffman.TablePlace` | `cs148/project/stb_image.h:1628-1634` | for every accepted table, also where the answer is wrong, it lies inside the arrays |
| `JpegHuffman.AccelerationExact` | `cs148/project/stb_image.h:1524-1535` | table and search give the right symbol and length for all inputs exactly when number 255 has no code of nine bits or fewer |
| `JpegHuffman.FullTableExample` | `cs148/project/stb_image.h:1524-1533` | the table with 255 codes of eight bits and one of nine, each count of which fits the byte it is read from, is accepted, and for sixteen bits that start with the last code table and search answer number 254 with ten bits, where number 255 with nine is right |
| `Jpeg.Entropy.SlowSymbol` | `cs148/project/stb_image.h:1606-1628` | the search finds the first limit above the buffer, and the place it computes is the one that limit and offset stand for, or that there is none |
| `Jpeg.Entropy.FindSymbol` | `cs148/project/stb_image.h:1594-1628` | for every accepted table, the fast table and the search after it answer as the definition of their combination says |
| `Jpeg.Entropy.HuffDecode` | `cs148/project/stb_image.h:1587-1634` | for every accepted table: gives the value of the answer and removes its code, or fails when there is none or too few bits are left; the answer is the symbol whose code the buffer starts with unless that is the one that is lost |
| `Jpeg.Entropy.ExtendReceive` | `cs148/project/stb_image.h:1641-1654` | gives the number that the next bits stand for in section F.2.2 of ITU-T T.81, and removes them |
| `Jpeg.BuildFastAc` | `cs148/project/stb_image.h:1541-1564` | each entry packs run, value and combined length of the small coefficient its nine bits start with, or is zero |
| `Jpeg.EntryMeans` | `cs148/project/stb_image.h:1721-1728` | unpacking a nonzero entry gives the coefficient and the number of bits of the plain definition |
| `Jpeg.Entropy.FastCoefficient` | `cs148/project/stb_image.h:1721-1728` | the fast path gives the run, value and new bit buffer that decode and extend give |
| `Jpeg.Entropy.SlowCoefficient` | `cs148/project/stb_image.h:1729-1743` | for every accepted table the slow path gives the step the symbol stands for: end of block, sixteen zeros, or a coefficient after a run |
| `Jpeg.CoefficientReads` | `cs148/project/stb_image.h:1729-1743` | a run and a value as the encoder of section F.1.2 of ITU-T T.81 writes them, the category with the run and then the value's bits, are read as that run and value, for every run and value |
| `Jpeg.Entropy.NextCoefficient` | `cs148/project/stb_image.h:1713-1743` | with either path, for every accepted table, the step and the new bit buffer depend only on the symbol answered and the bits after it, and that is the symbol the buffer starts with unless it is the one that is lost |
| `TransportSafety.OutputLoopKeeps` | `cs144/tcp/reliable.c:431-462` | the loop over the ring, which ends because each turn clears a slot, puts the buffered packets out in order and leaves the rest of the ring exact; its 16-bit counter comes round after 65536 packets at most |
| `TransportSafety.PktIdxDistinct` | `cs144/tcp/reliable.c:392-394` | sequence numbers less than a window apart have different slots |
| `TransportSafety.AvailExact` | `cs144/tcp/reliable.c:258-260` | the free slots are the window less the packets that are not acknowledged |
| `TransportSafety.RelReadKeeps` | `cs144/tcp/reliable.c:220-256` | reading input keeps the sender's ring exact and at most a window unacknowledged; nothing sent is lost from the record |
| `TransportSafety.ProcessAckPktKeeps` | `cs144/tcp/reliable.c:325-342` | so does an acknowledgement, for every number that arrives, and it never claims more than arrived |
| `TransportSafety.RetransmitPktKeeps` | `cs144/tcp/reliable.c:527-539` | a retransmission repeats the oldest unacknowledged packet with its original payload, or sends nothing |
| `TransportSafety.AddPktKeeps` | `cs144/tcp/reliable.c:421-429` | storing a fresh packet keeps the receiving ring exact: slot and flag of each number in the window hold that packet |
| `TransportSafety.OutputPktsExact` | `cs144/tcp/reliable.c:431-462` | putting packets out keeps the receiver faithful exactly when it neither leaves from the middle of a packet after finishing another nor lets the counter come round, both told from flags, lengths and room |
| `TransportSafety.TurnsExact` | `cs144/tcp/reliable.c:433-461` | the loop leaves midway after some packet exactly when the packets before one in the ring fit the room offered and that one does not, and its counter comes round exactly when 65536 fit |
| `TransportSafety.EofExact` | `cs144/tcp/reliable.c:363-371` | an accepted end mark finds everything delivered exactly when its number is the next expected one |
| `TransportSafety.HandleKeeps` | `cs144/tcp/reliable.c:317-375` | every event at either side keeps both directions faithful, unless it puts packets out without acknowledging them |
| `TransportSafety.RunKeeps` | `cs144/tcp/reliable.c:317-375` | the invariant holds after every run of such events, for windows below 2^31 |
| `TransportSafety.FaithfulExactlyWhenSmooth` | `cs144/tcp/reliable.c:447-461` | a run is faithful at every step exactly when no step puts packets out without acknowledging them |
| `TransportSafety.SlidingWindowSafety` | `cs144/tcp/reliable.c:325-385` | for windows below 2^31, in every run without such a step: delivered bytes are a prefix of the bytes read, acknowledgements run behind deliveries and these behind sending, at most a window is unacknowledged, and nothing in flight is beyond either window |
| `TransportSafety.EofMeansDelivered` | `cs144/tcp/reliable.c:363-371` | after such a run, an end that was announced means everything was delivered, exactly when no end mark overtook its predecessors |
| `TransportSafety.CloseMeansDelivered` | `cs144/tcp/reliable.c:541-553` | a side that may close has delivered everything, and so has its peer |
| `TransportSafety.StopAndWaitIsOrderly` | `cs144/tcp/reliable.c:344-375` | with windows of one, no run leaves midway or takes an early end mark |
| `TransportSafety.StopAndWait` | `cs144/tcp/reliable.c:220-553` | with windows of one, in every run: prefix delivery, end of output only after everything, and closing only after both directions are complete |
| `TransportSafety.EndsEarlyExample` | `cs144/tcp/reliable.c:396-409` | with windows of two, a run that announces the end before the only byte arrived |
| `TransportWindows.MidStopExample` | `cs144/tcp/reliable.c:447-450` | with windows of 17 and the room that an empty queue and then each packet leaves, a run puts a byte out twice |
| `TransportWindows.RoomySafety` | `cs144/tcp/reliable.c:431-462` | every run whose events offer room for a packet at each look is safe, for windows below 65536 |
| `TransportWindows.EnoughRoom` | `cs144/tcp/rlib.c:238-252` | room for a window of packets at the first look is room for one at each, as the room shrinks by what is put out |
| `TransportWindows.SixteenAreSafe` | `cs144/tcp/rlib.c:245` | up to windows of 16 an empty queue offers that room |
| `TransportWindows.WrapRun` | `cs144/tcp/reliable.c:433-461` | for every window from 65536 on a run of full packets, with the room of a queue that stays empty, that puts a packet out twice |
| `TransportWindows.WindowBoundExact` | `cs144/tcp/reliable.c:433` | with room at each look all runs are safe exactly when the window is below 65536 |
| `TransportRepeats.RunSends` | `cs144/tcp/reliable.c:502-525` | in every run all that was read has been sent, so that each packet can arrive again at any later time |
| `TransportRepeats.OutputShift` | `cs144/tcp/reliable.c:431-462` | what the loop does to the ring, and what it adds to the output, does not depend on what was put out before |
| `TransportRepeats.PutOutAgain` | `cs144/tcp/reliable.c:344-375` | packets that were put out and not acknowledged, arriving again, are put out again and again not acknowledged, in room that the output queue can offer; or the end is announced, when more of the next packet is out than the first one holds |
| `TransportRepeats.UnackedIsSeen` | `cs144/tcp/reliable.c:447-461` | after the first step that puts packets out without acknowledging them, every run can go on, with repeated packets alone, so that the bytes put out stop being a prefix of the bytes read or the end is announced though no end mark was acted on |
| `TransportRepeats.SafeExactlyWhenSmooth` | `cs144/tcp/reliable.c:325-462` | for any windows below 2^31, all runs are safe exactly when no run has such a step |
| `TransportAnswers.Answered` | `cs144/tcp/reliable.c:344-375` | after every run in which a side has packets without an acknowledgement: its peer drains, its timer fires, the packet it sends arrives, and the acknowledgement added by this arrival comes back; then more is acknowledged, for all windows below 65536 and runs without the two faults of larger windows |
| `TransportAnswers.StopAndWaitAnswered` | `cs144/tcp/reliable.c:344-375` | with windows of one the same after every run, with room for one packet |
| `TransportAnswers.NotStoredIsAnswered` | `cs144/tcp/reliable.c:345-370` | a packet that is stale, beyond the window, held or after the end, and an end mark that finds others waiting, change nothing and are answered with the last acknowledgement |
| `TransportAnswers.CanComeThrough` | `cs144/tcp/reliable.c:220-462` | no loss is final: every such run can go on, without reading more, so that everything read on either side has been put out at the other and acknowledged; if both sides have read their end, both can close |
| `TransportAnswers.ReadsOn` | `cs144/tcp/reliable.c:220-256` | with everything acknowledged and the end not read, the next input is read and sent |
| `TransportAnswers.ShortHoldsBack` | `cs144/tcp/reliable.c:220-232` | while the last packet is a short one and not acknowledged, a call of rel_read reads nothing |
| `Reliable.RelState.constructor` | `cs144/tcp/reliable.c:111-169` | a new connection is in the initial state |
| `Reliable.RelState.SendNewDataPkt` | `cs144/tcp/reliable.c:502-525` | stores and sends the next packet, in place |
| `Reliable.RelState.RelRead` | `cs144/tcp/reliable.c:220-256` | the loop over the input computes the sender's reading step |
| `Reliable.RelState.ProcessAckPkt` | `cs144/tcp/reliable.c:325-342` | computes the sender's acknowledgement step |
| `Reliable.RelState.RetransmitPkt` | `cs144/tcp/reliable.c:527-539` | computes the sender's timer step, with the timer's 32-bit subtraction |
| `Reliable.RelState.OutputHeld` | `cs144/tcp/reliable.c:432-457` | the loop clears flags in place, turn by turn, as the function does, and its counter is the number of turns modulo 65536 |
| `Reliable.RelState.OutputPkts` | `cs144/tcp/reliable.c:431-462` | the loop over the ring computes the receiver's output step, including leaving midway and a counter of sixteen bits that comes round |
| `Reliable.RelState.ProcessDataPkt` | `cs144/tcp/reliable.c:344-375` | computes the receiver's step for a data packet, all branches, which `TransportAnswers` shows to answer every packet that needs it |
| `Reliable.RelState.ShouldCloseConn` | `cs144/tcp/reliable.c:541-553` | answers whether both directions are finished |
| `Checksum.Cksum` | `cs144/tcp/rlib.c:656-669` | sum and folding loop give the complement of the word sum modulo 65535, never zero |
| `Checksum.KnownAnswer` | `cs144/tcp/rlib.c:656-669` | the example of section 3 of RFC 1071 |
| `Checksum.ComplementTells` | `cs144/tcp/rlib.c:666-668` | two sums have the same checksum exactly when they agree modulo 65535 |
| `Checksum.SumFits` | `cs144/tcp/rlib.c:661-665` | the 32-bit sum cannot overflow exactly up to 65537 words |
| `Checksum.ChecksumMatches` | `cs144/tcp/reliable.c:612-629` | clearing and restoring the field in place leaves the packet as it was and answers whether the field is the checksum |
| `Checksum.SealedMatches` | `cs144/tcp/reliable.c:482-525` | every packet that the senders seal is accepted |
| `Checksum.FlipRejected` | `cs144/tcp/rlib.c:156-160` | a good packet with any one bit flipped outside the length field is rejected |
| `Wire.TurnsUndo` | `cs144/tcp/reliable.c:569-585` | turning the fields out and in again, or in and out, gives every header back, whatever its length: the guard sees the same length on both ways |
| `Wire.PacketBuffer.PktHton` | `cs144/tcp/reliable.c:578-585` | turns the fields in place, the sequence number only in packets that have one |
| `Wire.PacketBuffer.PktNtoh` | `cs144/tcp/reliable.c:569-576` | turns them back, looking at the length after it was turned |
| `Wire.PacketBuffer.SendDataPkt` | `cs144/tcp/reliable.c:509-525` | what goes out is the sealed packet, high bytes first, and but for its checksum field the packet is left as it was |
| `Wire.PacketExample` | `cs144/tcp/rlib.h:74-81` | the fields of a packet on the wire, in order and with their bytes in order, and the payload |
| `Wire.PacketBuffer.RetransmitTwice` | `cs144/tcp/reliable.c:527-539` | a packet of the ring goes out as the same bytes each time, and is accepted |
| `Wire.ReceivedAsSent` | `cs144/tcp/reliable.c:214-218` | what was sent is accepted and turned into the length, numbers and payload of the sender |
| `DilatedConv.TimeToBatchAt` | `cs231n/project/wavenet_ops.py:9-16` | entry j·dilation+i of signal b becomes entry j of row i·batch+b |
| `DilatedConv.BatchToTimeAt` | `cs231n/project/wavenet_ops.py:18-24` | and back |
| `DilatedConv.CausalConvIsDirect` | `cs231n/project/wavenet_ops.py:26-41` | padding, reshaping, convolving, reshaping back and slicing equals the direct dilated convolution at every output, for every batch, length, dilation and filter width |
| `DilatedStack.SignalAlike` | `cs231n/project/wavenet_ops.py:363-364` | in any stack of layers, a signal depends only on the inputs within its reach and on no later one |
| `DilatedStack.QueueAdvances` | `cs231n/project/causal_conv_net.py:83-141` | a queue as long as the dilation hands out the past sample a layer needs, and is right again after one push |
| `DilatedStack.FollowsOn` | `cs231n/project/causal_conv_net.py:40-66` | a batch layer that is right at each entry passes on the right signal, shortened at the front |
| `WaveNet.DilationLayerAgrees` | `cs231n/project/wavenet_ops.py:140-226` | each entry of the batch layer is the generator's layer on the current and the past entry |
| `WaveNet.CausalConvPairsUp` | `cs231n/project/wavenet_ops.py:26-49` | with two taps, each entry of the batch convolution is the generator's convolution of two entries |
| `WaveNet.ReceptiveFieldSuffices` | `cs231n/project/wavenet_ops.py:363-364` | an output depends on the last receptive-field inputs only |
| `WaveNet.Encode` | `cs231n/project/causal_conv_net.py:34-70` | the batch network gives the last outputs of the stack; what a layer of that stack computes, `WaveNetLaws` says |
| `WaveNet.EncodeBlocks` | `cs231n/project/causal_conv_net.py:45-66` | the loop over the dilations gives outputs that follow each layer of the stack |
| `WaveNet.Generator.constructor` | `cs231n/project/causal_conv_net.py:72-118` | fresh queues hold the silence before the first sample |
| `WaveNet.Generator.StepCausal` | `cs231n/project/causal_conv_net.py:79-94` | the first layer's queue advances and the signal is the stack's |
| `WaveNet.Generator.StepBlocks` | `cs231n/project/causal_conv_net.py:96-139` | one pass over the dilations advances all queues and gives each layer's output |
| `WaveNet.Generator.Step` | `cs231n/project/causal_conv_net.py:72-143` | one sample gives the stack's output for the samples so far; what a layer of that stack computes, `WaveNetLaws` says |
| `WaveNet.Generator.Run` | `cs231n/project/causal_conv_net.py:72-143` | the outputs over a whole input are the stack's outputs at each step |
| `WaveNet.GenerateMatchesEncode` | `cs231n/project/causal_conv_net.py:34-143` | the batch outputs are the last outputs of the generator, for every network and every input that is long enough |
| `WaveNetLaws.OpenGates` | `cs231n/project/wavenet_ops.py:206` | where the sigmoid is constantly one, two networks that differ in the weights and biases of their gates alone have the same outputs, in the batch form and in the generator |
| `WaveNetLaws.ClosedGates` | `cs231n/project/wavenet_ops.py:309` | where the sigmoid is constantly zero, every output is what the output layers make of the skip biases |
| `WaveNetLaws.NothingAdded` | `cs231n/project/wavenet_ops.py:221-226` | where dense weights and biases are zero, every block sees the signal of the causal layer |
| `WaveNetLaws.OneChannelOutput` | `cs231n/project/wavenet_ops.py:265-340` | a network of one channel, of any number of blocks, is an explicit formula over real numbers of its inputs so far: which tap is the past one, what is gated, added, skipped and summed |
| `WaveNetLaws.EncodeFormula` | `cs231n/project/causal_conv_net.py:34-70` | and encode of such a network is that formula of the samples before each time, silence first |
| `WaveNetLaws.EncodePredicts` | `cs231n/project/causal_conv_net.py:36-38` | what encode puts out for a time depends on the samples before that time alone |
| `Sha1.CircularShift` | `cs144/router/sha1.c:45-47` | the macro rotates |
| `Sha1.Context.constructor` | `cs144/router/sha1.c:71-85` | a fresh context has read nothing |
| `Sha1.Context.FillSchedule` | `cs144/router/sha1.c:221-235` | the eighty words are the schedule of the block |
| `Sha1.Context.AllRounds` | `cs144/router/sha1.c:237-287` | the four loops are eighty rounds with the functions and constants of their quarter, which `ChooseDigit`, `ParityDigit`, `MajorityDigit` and `KIsRoot` describe |
| `Sha1.Context.ProcessMessageBlock` | `cs144/router/sha1.c:207-301` | the digest becomes the compression of the block, and the block is empty again |
| `Sha1.Context.CountOctet` | `cs144/router/sha1.c:162-173` | the two length words hold the number of bits, and the context is corrupted exactly at 2^64 |
| `Sha1.Context.Input` | `cs144/router/sha1.c:143-185` | the octets are appended to the message; input after the result, or too much input, corrupts the context |
| `Sha1.Context.PadZeros` | `cs144/router/sha1.c:335-356` | padding ends eight octets before a block boundary, with one or two blocks |
| `Sha1.Context.StoreLength` | `cs144/router/sha1.c:358-368` | the last eight octets are the length in bits, high octet first |
| `Sha1.Context.PadMessage` | `cs144/router/sha1.c:326-371` | the digest becomes that of the padded message |
| `Sha1.Context.Result` | `cs144/router/sha1.c:104-119` | the digest of everything fed, unless corrupted; asking again changes nothing |
| `Sha1.HashPieces` | `cs144/router/sha1.c:104-185` | however a message is cut into pieces, the digest is the one-shot digest of the whole, whose compression `KnownAnswer` pins; lengths of 2^64 bits or more fail |
| `Sha1.ChooseDigit` | `cs144/router/sha1.c:245-246` | bit by bit, the second word where the first has a one, the third where it has none |
| `Sha1.ParityDigit` | `cs144/router/sha1.c:257` | bit by bit, whether an odd number of the three words has a one |
| `Sha1.MajorityDigit` | `cs144/router/sha1.c:268-269` | bit by bit, what at least two of the three words have |
| `Sha1.KIsRoot` | `cs144/router/sha1.c:209-215` | the constants are the whole parts of 2^30 times the square roots of 2, 3, 5 and 10 |
| `Bitwise.RotateDigit` | `cs144/router/sha1.c:45-47` | each bit moves up by the given number of places, and from the top of the word to its bottom |
| `Sha1Answer.KnownAnswer` | `cs144/router/sha1.c:207-371` | the digest of abc is the one of appendix A of FIPS 180-1, round by round |
| `Nat.IdOf` | `cs144/router/sr_nat.c:318-328` | identifiers stay in 1024 to 65534 for TCP and in 0 to 65534 for ICMP |
| `Nat.IdOfNext` | `cs144/router/sr_nat.c:318-328` | the wrapping counters give identifier n+1 after identifier n |
| `Nat.SameId` | `cs144/router/sr_nat.c:318-328` | two identifiers are equal exactly when they were given a multiple of the period apart |
| `Nat.FirstAndLastIds` | `cs144/router/sr_nat.c:318-328` | the first and the last identifier of each kind, and the wrap between them |
| `Nat.FreshThins` | `cs144/router/sr_nat.c:146-171` | a sweep keeps the order, drops whole mappings only, and changes nothing of the others but their connections |
| `Nat.FreshAre` | `cs144/router/sr_nat.c:146-171` | the sweep keeps exactly the ICMP mappings used within their time and the TCP mappings with a connection used within its own |
| `Nat.SweepExact` | `cs144/router/sr_nat.c:130-254` | after a sweep a packet for an identifier finds no mapping exactly when no mapping with that identifier was in use |
| `Nat.RunKeeps` | `cs144/router/sr_nat.c:233-334` | after every run internal keys are unique, identifiers are those of their numbers, and newer mappings come first |
| `Nat.InboundExact` | `cs144/router/sr_nat.c:233-254` | after every run an identifier leads to a mapping exactly when no newer one of its kind was made a multiple of the period later |
| `Nat.ReplyComesBack` | `cs144/router/sr_nat_handler.c:89-103` | while the live mappings are recent, an inbound packet is rewritten to its mapping's address |
| `Nat.RunDescends` | `cs144/router/sr_nat.c:146-334` | no run changes a mapping's address or identifier: what is there later was there before or was made since |
| `Nat.TranslationInverts` | `cs144/router/sr_nat_handler.c:74-157` | a packet sent out and answered after any run comes back to its own address and port, if its mapping still lives and the live mappings are recent |
| `Nat.NoCycle` | `cs144/router/sr_nat.c:146-213` | a chain that ends has no node twice, whatever the nodes are |
| `Nat.LinkedCut` | `cs144/router/sr_nat.c:156-207` | moving one link over a node leaves the chain of the others, in the list of mappings as in a list of connections |
| `Nat.NatTable.LookupExternal` | `cs144/router/sr_nat.c:233-254` | finds the first mapping of the kind with the identifier and touches only its time |
| `Nat.NatTable.LookupInternal` | `cs144/router/sr_nat.c:268-289` | finds the first mapping of the kind with the address and touches only its time |
| `Nat.NatTable.TakeId` | `cs144/router/sr_nat.c:318-328` | gives the next identifier of the kind and leaves the other counter alone |
| `Nat.NatTable.InsertMapping` | `cs144/router/sr_nat.c:294-334` | gives the mapping of the address, a new one at the front if there was none |
| `Nat.NatTable.SweepNode` | `cs144/router/sr_nat.c:150-170` | ages one node and, if it is stale, unlinks it in place and nothing else |
| `Nat.NatTable.RemoveStaleMappings` | `cs144/router/sr_nat.c:146-171` | the list becomes the order-preserving filter of its aged mappings, both levels of list being swept in place |
| `Nat.Mapping.TimeoutConnections` | `cs144/router/sr_nat.c:193-210` | the mapping's linked list becomes, in place, the order-preserving filter of the live connections |
| `Nat.Mapping.AddConnection` | `cs144/router/sr_nat.c:351-357` | a new connection is linked in at the front |
| `Nat.NatTable.TranslateOutbound` | `cs144/router/sr_nat_handler.c:74-136` | rewrites to the identifier of the sender's mapping |
| `Nat.NatTable.TranslateInbound` | `cs144/router/sr_nat_handler.c:89-157` | rewrites to the address of the identifier's mapping, or answers that there is none |
| `BroadPhase.IntersectsExact` | `cs148/project/mesh.h:68-79` | the comparisons hold exactly when the boxes share a point |
| `BroadPhase.StartBelow` | `cs148/project/mesh.h:83-88` | the loop condition holds for exactly as many slices as were asked for |
| `BroadPhase.Partition` | `cs148/project/mesh.h:81-95` | the nested loops push exactly the boxes of the grid, in order |
| `BroadPhase.CoversExact` | `cs148/project/mesh.h:81-95` | the grid covers every point of the box exactly when the box has length, width and height |
| `BroadPhase.BoundIsLeast` | `cs148/project/mesh.h:145-160` | a triangle's box is the least box around its corners |
| `BroadPhase.MovedTooLate` | `cs148/project/mesh.h:134-160` | a triangle moved after it was asked for its box keeps the old box, unless it did not move |
| `BroadPhase.GameObject.EnterFace` | `cs148/project/game_object.cpp:124-138` | a face, scaled and moved, is added to exactly the boxes it intersects |
| `BroadPhase.GameObject.GetPartitionToTriangles` | `cs148/project/game_object.cpp:121-142` | each box's entry holds exactly the triangles that intersect it, of the object where it is, or, with a map that is there already, where it was when that map was made; that map is left as it was |
| `BroadPhase.GetCollision` | `cs148/project/game_object.cpp:144-170` | gives a pair that meets, from one box, or there is none in any box |
| `BroadPhase.CommonCell` | `cs148/project/game_object.cpp:148-155` | two boxes that intersect both meet some box of the grid exactly when both meet the scene, and the scene is solid |
| `BroadPhase.GridFindsExactly` | `cs148/project/game_object.cpp:148-165` | some box of the grid holds a meeting pair exactly when some pair meets whose boxes both reach into the solid scene |
| `BroadPhase.Collide` | `cs148/project/player_object.cpp:37-67` | the search finds a pair exactly when some pair meets whose boxes both reach into the scene; with the player in the scene, exactly when comparing all pairs would |
| `BroadPhase.LostOutside` | `cs148/project/game_object.cpp:134-155` | beyond the scene two triangles that share a point, with corners a step or more apart, meet, and no box of the grid has them both |

## Left out

- Inflate.ZBuf.ParseBlocks: stored blocks and blocks with their own code lengths answer `ErrOther` here; the compressor writes neither. The table builder and the block reader are proved for every code.
- Inflate.ZBuf.ParseHuffmanBlock: needs a code under which endless zero bits do not decode to a match of length zero, since the original would then not stop; the default code is proved to be such a one.
- Inflate.DecodeBuffer: only the caller's fixed buffer; the variants that grow their output are left out.
- Arith.RevRev: the mask-and-shift network of the bit reversal is modelled by its result.
- Reliable.RelState.constructor: sessions, the connection list and their destruction are left out.
- TransportSafety.StopAndWait: safety only; that everything can still come through is `TransportAnswers.CanComeThrough`, but that it will, which takes assumptions about the network, the last acknowledgement and the teardown are left out, as are failing calls of the environment.
- TransportRepeats.UnackedIsSeen: where more is out than a packet holds, `output_pkt` turns a negative length into an unsigned one (`cs144/tcp/reliable.c:465-467`), which C leaves open; the model takes it as no bytes. The assertion on the bytes put out is not modelled.
- TransportSafety.SlidingWindowSafety: windows below 2^31, so that the 32-bit differences of the sequence numbers are exact.
- Wire.PacketBuffer.SendDataPkt: a host that keeps low bytes first; packets of data, from 12 bytes on. The sending call itself is a parameter.
- Checksum.FlipRejected: flips inside the length field change which bytes are summed and are not covered.
- WaveNet.Encode: one signal of a batch.
- WaveNet.EncodeBlocks: one signal of a batch.
- WaveNet.GenerateMatchesEncode: one signal of a batch, filters of width two as the generator has them, exact reals in place of floating point; variable creation, session operations and one-hot encoding are left out.
- Hdr.WriteThenRead: from four-byte pixels to four-byte pixels, without the text header and the floats around them.
- Hdr.HdrFile.WriteScanline: starts from four-byte pixels.
- Hdr.HdrReader.ReadComponent: input whose pieces overrun the row or end early is not read.
- Hdr.HdrReader.ReadScanline: inputs that hold no row are not read; the original would write outside its row, read zeros for ever, or fall back to uncompressed pixels. The conversion between floats and four bytes is left out, as is the text header.
- BroadPhase.Collide: exact reals in place of floats, and the exact triangle test is a parameter. With floats a slice more or less can arise where the loop adds up the increments.
- BroadPhase.StartBelow: exact reals in place of floats.
- BroadPhase.Partition: exact reals in place of floats.
- BroadPhase.CoversExact: exact reals in place of floats.
- JpegHuffman.Huffman.Build: at most 256 symbols, the size of the arrays it fills.
- JpegHuffman.Huffman.FillSizes: at most 256 symbols, the size of the arrays it fills.
- Png.CreatePngImageRaw: eight bits, as many channels out as in, not interlaced.
- Png.RestoreRow: eight bits, as many channels out as in.
- Jpeg.Entropy.HuffDecode: refilling the bit buffer from the file is left out; running out of bits is reported as in the original. The assertion on the code found is not modelled.
- Jpeg.Entropy.ExtendReceive: refilling the bit buffer is left out.
- Jpeg.Entropy.SlowCoefficient: the bits of the symbol and of its value are in the buffer, since refilling is left out.
- Jpeg.Entropy.NextCoefficient: the bits of the symbol and of its value are in the buffer, since refilling is left out.
- Nat.Mapping.AddConnection: the state of a connection is fixed once it is made; the TCP transitions that change it are left out, and in the runs they appear as an event that replaces a mapping's connections.
- Nat.NatTable.TranslateOutbound: the update of the connection, failing routes and checksums are left out.
- Nat.NatTable.TranslateInbound: unsolicited connection attempts, checksums and routing of the rewritten packet are left out.
- Sha1.Context.ProcessMessageBlock: words are numbers below 2^32 and the bitwise operations are defined on their digits.
- PNG container: signature, chunks and palette.
- JPEG beyond entropy decoding: dequantization, zigzag order, DC prediction, progressive scans, inverse transform, colour conversion.
- Every other image format.
- The router outside the table: ARP cache, longest-prefix match, ICMP errors, TCP state transitions.
- The rest of the game, the fluid simulation, the language and learning projects, and all sockets, files and threads.
