# Verification of the TrussC core

A Dafny model of five parts of TrussC, with proofs of what they are for. Check it with
`dafny verify dfyconfig.toml`.

- **The Vorbis decoder's integer core** (`core/include/stb_vorbis.c`): canonical Huffman codes built from unsorted lengths
  (`codewords.dfy`), the sorted and the 10-bit tables (`tables.dfy`, `codebook.dfy`), Ogg pages and segments (`packet.dfy`), the
  bytes of a packet (`payload.dfy`), packets written into pages (`pages.dfy`), the look-ahead scanner (`scanner.dfy`) and where it
  agrees with the reader (`agreement.dfy`), the bit reader (`bits.dfy`), decoding through table, binary search or linear search
  (`decode.dfy`), the round trip from symbols to pages and back (`roundtrip.dfy`), the symbols that are lost (`lost.dfy`), the
  floor curve (`floor.dfy`), its amplitudes (`amplitudes.dfy`), the checksum (`crc.dfy`) and the two-ended allocator
  (`arena.dfy`). `words.dfy` holds the arithmetic of bits.
- **The scene graph** (`core/include/tcNode.h`): links, order and cached matrices (`node.dfy`), edits as values
  (`edits.dfy`), setting nodes up exactly once while `setup()` edits the tree (`setup.dfy`), and countdown timers whose
  callbacks add and cancel timers (`timers.dfy`), with the time they take (`elapsed.dfy`).
- **The output capture** of `tools/check_build_warnings.py` as an interleaving state machine (`capture.dfy`).
- **The glyph registry and atlas** (`core/include/tcBitmapFont.h`): `glyphs.dfy` and `atlas.dfy`.
- **The PNG reader** of `tools/adjudicate_render_pr4a.py`: `png.dfy` and `pngfile.dfy`.

`basics.dfy` holds what several of them share.

## How to read it

Code that changes state is a class or works on arrays; each of its methods is proved against a function or predicate, and
what the code promises is proved about those. A predicate marked "sealed" hides its body behind `Opened(k)`, so that proofs that
only pass it along do not see it; `assert Opened(0)` shows it.

- Numbers are unbounded; 32-bit wrap-around, 16-bit cells, 64-bit call counts and C's truncating division are written out where they
  matter.
- Nodes of the scene graph live in a set `nodes` that callers name. Each node has a ghost `path` from its root. Matrices are free
  terms over the transforms, so an equation between them holds for every interpretation of the multiplication.
- A `setup()` body is a script of tree edits, a timer callback a script of timer operations; scripts are arbitrary, so they stand for any
  terminating body in a given run. A `setup()` script stops where it would break a rule the source leaves to its callers: adding a
  node below itself, or adding a window's root as a child.
- `Session` records every edit of the tree. The tree is at all times what `Replay` makes of the record, so a statement about the record is one
  about the tree.
- The font's 95 ASCII glyphs, zlib's `inflate` and `crc32`, the clocks, the child process and the pipe are parameters.

## What turned out differently

Where the code falls short on some inputs, the condition is proved and one such input is given.

- Codewords longer than the refill can hold (26 to 31 bits, depending on what is buffered) are not decoded: `RoundTrip.Decode` says
  exactly when, `LostSymbols.LoseLongCodeword` shows one. Dense entries from 32767 on with codewords of at most 10 bits are in neither
  table when binary search is used: `Decoding.Decodable` is the exact condition, `LostSymbols.LoseLateEntry` an instance.
- The end of a packet is not final when the packet runs on to a page without a continuation mark: `Packets.ClosedIff`,
  `Packets.EopRepeatsIff`, `Scanner.LostContinuation`.
- Over a page without segments the look-ahead scanner and the reader part: the reader goes by a length left from an earlier page.
  `ScanAgreement.EmptyPageEnds` has the exact condition, `ScanAgreement.EmptyPageMisread` an input.
- The first two amplitudes are read with `ilog(range) - 1` bits, as the code does; for multiplier 3 section 7.2.3 of the Vorbis I
  specification reads one bit more: `Amplitudes.FirstPostBits`, `Amplitudes.HeightUnread`.
- After a due update the time left can exceed `interval * (1 + 1e-9)` when a short interval is due within the absolute tolerance:
  `Timers.PhaseBound` has the exact condition, `Timers.PhaseBoundMissed` an input.
- `setupNodeOnce` on a node that was set up earlier, then detached and given new children, sets nothing up:
  `SetupOnce.Session.SetupNodeOnce` has the exact condition, `SetupOnce.LateChild` builds the case.
- `utf8Decode` is documented to advance one byte on an error; it stops at the first byte that does not continue the sequence, or at the
  end of a truncated one: `Glyphs.MalformedUsed` says when that is one byte, `Glyphs.TwoBytesLost` shows two.
- The glyph registry stays in order exactly as long as its 16-bit cell counter does not wrap: `Glyphs.RegisterKeeps`,
  `Glyphs.WrapHitsAscii`.

## Model

| member | source | states |
|---|---|---|
| `Words.BitReverse` | core/include/stb_vorbis.c:1065-1072 | five rounds of masked swaps reverse the 32 bits: the result is the word read backwards |
| `Codewords.AssignTiles` | core/include/stb_vorbis.c:1141-1185 | at every step there is at most one free leaf a level, deeper free leaves have smaller values, and free leaves and codewords together tile the 32-bit space without overlap; the codewords are the canonical ones |
| `Codewords.TakeTiled` | core/include/stb_vorbis.c:1165-1182 | taking the deepest leaf that is not too deep, and freeing its right siblings, keeps the tiling and the order (the fact the source calls not trivial to prove) |
| `Codewords.LowestFree` | core/include/stb_vorbis.c:1165-1174 | the leaf taken is the lowest-valued free codeword of its length |
| `Codewords.KraftConserved` | core/include/stb_vorbis.c:1165-1182 | free space plus space of the codewords stays 2^32 at every step |
| `Codewords.AssignIffKraft` | core/include/stb_vorbis.c:1141-1185 | every entry finds a leaf exactly when the sum of 2^-length over the used entries is at most 1 |
| `Codewords.CanonicalUnique` | core/include/stb_vorbis.c:1141-1185 | the rule "lowest free codeword of its length, in entry order" has one solution |
| `Codewords.PrefixFree` | core/include/stb_vorbis.c:1141-1185 | no codeword is a prefix of another |
| `CodeTables.GatherDistinct` | core/include/stb_vorbis.c:1243-1252 | the gathered codewords are the reversed codewords of the included entries, each once |
| `CodeTables.SortedSorts` | core/include/stb_vorbis.c:1254 | sorting gives the same codewords, increasing |
| `CodeTables.TableDone` | core/include/stb_vorbis.c:1257-1286 | filling by search puts each symbol, and for sparse books its length, at the place of its codeword, so the tables list the same symbols in codeword order |
| `CodeTables.Search` | core/include/stb_vorbis.c:1267-1277 | the halving loop ends on the last codeword not above the key |
| `CodeTables.SearchFinds` | core/include/stb_vorbis.c:1278 | searching a listed codeword finds it: the assertion of the source never fires |
| `CodeTables.PrefixIsBlock` | core/include/stb_vorbis.c:1755-1769 | a codeword is a prefix of the bit stream exactly when the reversed buffer lies in the block of words the codeword owns |
| `CodeTables.FastExact` | core/include/stb_vorbis.c:1189-1209 | a slot of the 10-bit table names entry i exactly when the codeword of i, at most 10 bits long and among the first 32767, is a prefix of the slot index |
| `Codebooks.Codebook.AddEntry` | core/include/stb_vorbis.c:1130-1139 | where one codeword, its length and its symbol go in dense and sparse books |
| `Codebooks.Codebook.ComputeCodewords` | core/include/stb_vorbis.c:1141-1185 | succeeds exactly when all entries can be placed, and then holds the canonical codewords, first bit lowest |
| `Codebooks.Codebook.PlaceNext` | core/include/stb_vorbis.c:1160-1183 | one round of the main loop equals one step of the specification, on the array of free leaves |
| `Codebooks.Codebook.ComputeSortedHuffman` | core/include/stb_vorbis.c:1236-1287 | the in-place tables are sorted, strictly increasing, and describe the included entries |
| `Codebooks.Codebook.ComputeAcceleratedHuffman` | core/include/stb_vorbis.c:1189-1209 | every slot of the 10-bit table is as FastExact says |
| `Codebooks.Codebook.Setup` | core/include/stb_vorbis.c:3851-3957 | a codebook is accepted exactly when the Kraft sum is at most 1, and then all its tables agree with one canonical prefix code |
| `Packets.Stream.Get8PacketRaw` | core/include/stb_vorbis.c:1627-1637 | delivers the next byte of the packet, or the end, over any number of segments and pages |
| `Payloads.RestIsPayload` | core/include/stb_vorbis.c:1603-1637 | what it delivers up to the end is the slices of the stream that the segment tables name, unchanged and in order, over any number of pages |
| `Packets.Stream.NextTheSegment` | core/include/stb_vorbis.c:1603-1622 | the next segment length, opening a page when the table is used up |
| `Packets.Stream.StartPageNoCapture` | core/include/stb_vorbis.c:1508-1560 | reads a page header and its whole segment table, or fails |
| `Packets.ClosedIff` | core/include/stb_vorbis.c:1603-1622 | a packet that runs out is closed for good unless its last page is used up and the next one carries no continuation mark |
| `Packets.EopRepeatsIff` | core/include/stb_vorbis.c:1603-1637 | after the end of a packet the next read is the end again if and only if no unmarked page cut it, or that page begins with an empty segment |
| `Scanner.LostContinuation` | core/include/stb_vorbis.c:1607-1611 | a stream on which the end is not final: a packet of one full segment, and a page without its continuation mark, whose data the next read delivers |
| `Packets.EopSticky` | core/include/stb_vorbis.c:1603-1637 | in a closed packet the end repeats for ever and changes nothing |
| `Scanner.IsWholePacketPresent` | core/include/stb_vorbis.c:3612-3670 | the look-ahead scan of page headers and segment tables |
| `Scanner.StartThePacket` | core/include/stb_vorbis.c:1567-1601 | opens the page a packet starts on and empties the bit buffer |
| `Scanner.ScannedPacketIsReadable` | core/include/stb_vorbis.c:3612-3670 | if the scan finds the whole packet, starting it succeeds and draining it never meets the end of the stream and stops at the byte the scan reached |
| `WrittenPages.ScanFinds` | core/include/stb_vorbis.c:3612-3670 | a packet whose pages are all in the stream is found, with its end, however it was cut into pages |
| `WrittenPages.PayloadWritten` | core/include/stb_vorbis.c:1603-1637 | a packet written into pages, however cut, is read back byte for byte |
| `WrittenPages.EveryLength` | core/include/stb_vorbis.c:1508-1560 | a packet of any length can be cut so |
| `ScanAgreement.ReaderEndIs` | core/include/stb_vorbis.c:1603-1637 | the byte-by-byte reader stops, without meeting the end of the stream, exactly where a walk over the page headers says |
| `ScanAgreement.EmptyPageEnds` | core/include/stb_vorbis.c:3612-3670 | a scan that passes over a page without segments agrees with the reader exactly when the length left in the table leads to the byte the scan ends at: at once, or by way of the pages found behind a full length |
| `ScanAgreement.EmptyPageMisread` | core/include/stb_vorbis.c:3612-3670 | a stream on which it does not |
| `BitReader.GetBits` | core/include/stb_vorbis.c:1688-1717 | returns and removes the next n bits of buffer and packet, lowest first, or marks the packet as over for good |
| `BitReader.PrepHuffman` | core/include/stb_vorbis.c:1723-1736 | what is pending is unchanged; afterwards 25 bits are buffered or the packet is used up, and nothing lies above the valid bits |
| `BitReader.TakeBits` | core/include/stb_vorbis.c:1713-1716 | taking n bits off the accumulator takes them off the pending sequence |
| `BitReader.Refill` | core/include/stb_vorbis.c:1708-1711 | adding a byte above the valid bits leaves the pending sequence as it was |
| `Decoding.BlockStart` | core/include/stb_vorbis.c:1755-1769 | the codeword found by binary search owns every word that has an owner at all, because no free leaf lies between |
| `Decoding.CompleteOwns` | core/include/stb_vorbis.c:1141-1185 | with a Kraft sum of 1 every word begins with a codeword |
| `Decoding.PrefixShows` | core/include/stb_vorbis.c:1757-1796 | a codeword that is a prefix of the pending bits owns the reversed buffer, or is longer than it |
| `Decoding.BinaryPosition` | core/include/stb_vorbis.c:1757-1775 | the binary search returns the entry whose codeword is pending, if there is one in the table |
| `Decoding.LinearPosition` | core/include/stb_vorbis.c:1785-1798 | the linear search finds the entry whose codeword is pending, or no entry |
| `Decoding.DecodeScalarRaw` | core/include/stb_vorbis.c:1745-1804 | the entry is delivered and its bits removed; otherwise the result is -1 and the buffer is dropped, except that a book without tables costs no bits |
| `Decoding.NoTablesIff` | core/include/stb_vorbis.c:1750-1751 | a book has no table exactly when it is sparse and uses no entry |
| `Decoding.FastHit` | core/include/stb_vorbis.c:1808-1816 | a hit in the 10-bit table is the pending codeword |
| `Decoding.FastMiss` | core/include/stb_vorbis.c:1808-1820 | a miss means that no short codeword within the table's reach is pending |
| `Decoding.DecodeRaw` | core/include/stb_vorbis.c:1808-1820 | table and searches together deliver the pending codeword of every entry within reach |
| `RoundTrip.Decode` | core/include/stb_vorbis.c:1845-1847 | the symbol whose codeword is pending is delivered if and only if the buffer can hold the codeword, and never if the entry is out of reach of both tables |
| `RoundTrip.EncodeSplits` | core/include/stb_vorbis.c:1808-1847 | a bit stream that starts with the codewords of several symbols starts with the first codeword, and what follows starts with the others |
| `RoundTrip.DecodeMany` | core/include/stb_vorbis.c:1808-1847 | a packet that begins with the codewords of any symbols decodes to those symbols and loses exactly those bits |
| `RoundTrip.DecodePacket` | core/include/stb_vorbis.c:1808-1847 | packing symbols into bytes and decoding the bytes gives the symbols back |
| `RoundTrip.ReceivePacket` | core/include/stb_vorbis.c:1567-1601 | looking ahead, starting the packet and decoding it: if the scan finds the packet, its symbols come back; if not, nothing is touched |
| `RoundTrip.ReceiveWritten` | core/include/stb_vorbis.c:1567-1847 | symbols packed into bytes and cut into pages anywhere in a stream are found, started and decoded to themselves |
| `RoundTrip.PackValue` | core/include/stb_vorbis.c:1723-1736 | bytes packed lowest bit first hold the number packed |
| `LostSymbols.LoseLongCodeword` | core/include/stb_vorbis.c:1723-1736 | a codeword of 26 bits, all of it in the packet, is not decoded when one bit was buffered |
| `LostSymbols.LateAccepted` | core/include/stb_vorbis.c:3851-3957 | a header can list the lengths of the next book: all entries used, and not overfull |
| `LostSymbols.LateEntryLost` | core/include/stb_vorbis.c:1189-1209 | that book, a dense one, has an entry that neither table reaches |
| `LostSymbols.LoseLateEntry` | core/include/stb_vorbis.c:1808-1820 | a packet that begins with its codeword never yields it |
| `Floor.Between` | core/include/stb_vorbis.c:2026-2034 | the predicted height never leaves the range of the end points |
| `Floor.PredictIs` | core/include/stb_vorbis.c:2026-2034 | the predicted line runs from end to end and drops the fraction towards its start |
| `Floor.NextQuotient` | core/include/stb_vorbis.c:2163-2171 | adding the remainder and carrying once gives quotient and remainder of the next multiple |
| `Floor.NextPoint` | core/include/stb_vorbis.c:2163-2171 | one error-accumulating step leads from the closed-form height at x to that at x + 1, rising or falling |
| `Floor.DrawLine` | core/include/stb_vorbis.c:2125-2172 | every bin of the clipped line is multiplied once, by the table value at the closed-form height |
| `Floor.DoFloor` | core/include/stb_vorbis.c:3163-3199 | every bin below n is multiplied exactly once by the table value of the piecewise linear curve through the posts in use, and no other bin changes |
| `Floor.CurveAtPost` | core/include/stb_vorbis.c:3163-3199 | the curve passes through every post in use at its amplitude times the multiplier |
| `Floor.CurveBelow` | core/include/stb_vorbis.c:3163-3199 | the curve through knots below a bound stays below it |
| `Amplitudes.FirstPostsInRange` | core/include/stb_vorbis.c:3300-3305 | the first two posts, read with one bit less than the range has, are in range |
| `Amplitudes.FirstPostBits` | core/include/stb_vorbis.c:3300-3305 | the bits read are those of the specification, and reach every height, for every multiplier but 3 |
| `Amplitudes.HeightUnread` | core/include/stb_vorbis.c:3300-3305 | a height of multiplier 3 that its first two posts cannot have |
| `Amplitudes.UnwrapBijection` | core/include/stb_vorbis.c:3336-3357 | decoded values in range give heights in range, and different values different heights: Wrap undoes Unwrap |
| `Amplitudes.WrapBijection` | core/include/stb_vorbis.c:3336-3357 | every height in range has a decoded value in range |
| `Amplitudes.Neighbors` | core/include/stb_vorbis.c:1364-1373 | finds the nearest earlier posts strictly below and above |
| `Amplitudes.HeightsInRange` | core/include/stb_vorbis.c:3328-3357 | by induction over the posts all amplitudes stay in range, also when symbols were not decoded |
| `Amplitudes.UnwrapAmplitudes` | core/include/stb_vorbis.c:3327-3360 | the in-place loop turns decoded values into amplitudes, all in range if the values are, and marks the posts not in use |
| `Amplitudes.HeightsRoundTrip` | core/include/stb_vorbis.c:3328-3357 | the values an encoder writes for any heights in range, each against the line through its two neighbours, give these heights back |
| `Amplitudes.UnwrapWritten` | core/include/stb_vorbis.c:3327-3360 | so the in-place loop restores every drawn post, and one it leaves out lies on its predicted line |
| `Amplitudes.CurveWritten` | core/include/stb_vorbis.c:3163-3199 | and the curve drawn has the written height, times the multiplier, at every drawn post |
| `Amplitudes.CurveInTable` | core/include/stb_vorbis.c:3163-3199 | values in range give a curve between 0 and 255, so the mask on the table index never changes it |
| `Amplitudes.DrawFloor` | core/include/stb_vorbis.c:3163-3199 | from decoded values to the spectrum: each bin below n is scaled once by the table value at the height of the curve |
| `Crc.InitTable` | core/include/stb_vorbis.c:1047-1056 | each table entry is its index shifted through the polynomial eight times |
| `Crc.UpdateIsEightSteps` | core/include/stb_vorbis.c:1058-1061 | a table lookup equals eight one-bit steps |
| `Crc.ChecksumIsRemainder` | core/include/stb_vorbis.c:1044-1061 | the checksum of any byte string is the remainder of long division of its bits by the polynomial |
| `Arena.Allocator.SetupMalloc` | core/include/stb_vorbis.c:999-1013 | succeeds exactly when the rounded block fits below the temporary memory, and pushes it |
| `Arena.RoundIs` | core/include/stb_vorbis.c:1003 | a size is rounded to the next multiple of 8 |
| `Arena.Allocator.SetupTempMalloc` | core/include/stb_vorbis.c:1020-1031 | succeeds exactly when the rounded block fits above the set-up memory, and pushes it |
| `Arena.Allocator.SetupTempFree` | core/include/stb_vorbis.c:1033-1042 | gives the latest temporary block back |
| `Arena.Allocator.LiveBlocks` | core/include/stb_vorbis.c:999-1042 | live blocks lie in the buffer, start at multiples of 8 and never overlap |
| `Arena.Allocator.ParseCodebook` | core/include/stb_vorbis.c:3851-4041 | on every path of the parser (sparse, made dense, dense; with or without a lookup table) a codebook that parses leaves the temporary memory as it was |
| `Arena.Allocator.BuildTables` | core/include/stb_vorbis.c:3912-3957 | the three temporary blocks of a sparse book are given back in reverse order |
| `Arena.UpApart` | core/include/stb_vorbis.c:999-1013 | blocks stacked upwards do not overlap |
| `Arena.DownApart` | core/include/stb_vorbis.c:1020-1042 | blocks stacked downwards do not overlap |
| `SceneGraph.UnlinkedTree` | core/include/tcNode.h:1588-1625 | fresh nodes form a tree with right caches: where every run starts |
| `SceneGraph.LinksAgree` | core/include/tcNode.h:178-287 | a node is listed by its parent and by no other, once |
| `SceneGraph.NoCycle` | core/include/tcNode.h:178-287 | no node is above itself |
| `SceneGraph.Node.Attach` | core/include/tcNode.h:178-254 | the child moves from its old parent to the place asked for, its subtree with it; the global position is recorded and set again on request; all matrices below are stale, all others still right |
| `SceneGraph.Node.RemoveChild` | core/include/tcNode.h:257-272 | the child and its subtree become a tree of their own; nothing happens for a node that is no child |
| `SceneGraph.Node.RemoveAllChildren` | core/include/tcNode.h:275-287 | every child becomes a root with its subtree |
| `SceneGraph.Node.SweepDeadChildren` | core/include/tcNode.h:977-995 | exactly the destroyed children leave, the others keep their order |
| `SceneGraph.Node.MoveToFront` | core/include/tcNode.h:335-344 | the node comes last among its siblings, which keep their order |
| `SceneGraph.Node.MoveToBack` | core/include/tcNode.h:346-355 | the node comes first among its siblings, which keep their order |
| `SceneGraph.Node.GetGlobalMatrix` | core/include/tcNode.h:567-572 | always the product of the local matrices from the root down to the node |
| `SceneGraph.LocalApplied` | core/include/tcNode.h:1626-1629 | a point of a node is scaled, then rotated, then moved |
| `SceneGraph.WorldApplied` | core/include/tcNode.h:1631-1638 | and then goes through the transforms above it, nearest first |
| `SceneGraph.Node.UpdateGlobalMatrix` | core/include/tcNode.h:1631-1638 | refreshes this matrix from the parent's, and keeps every cache right |
| `SceneGraph.Node.MarkGlobalMatrixDirty` | core/include/tcNode.h:1649-1654 | marks exactly the node and everything below it |
| `SceneGraph.Node.SetPos` | core/include/tcNode.h:485-490 | stores the position and keeps every cache right |
| `SceneGraph.Node.SetQuaternion` | core/include/tcNode.h:503-508 | stores the rotation and keeps every cache right |
| `SceneGraph.Node.SetScale` | core/include/tcNode.h:536-541 | stores the scale and keeps every cache right |
| `SceneGraph.Node.FindLiveRoot` | core/include/tcNode.h:892-896 | the root of the tree, if it was started and not destroyed |
| `SceneGraph.Prefixes` | core/include/tcNode.h:178-287 | every prefix of a node's path is the path of the node it ends in |
| `SetupOnce.Session.SetupNode` | core/include/tcNode.h:861-868 | the flag goes up before setup() runs, and then its edits are made in order, to the end or to the first that the tree refuses; every live node that is not set up stays covered by a pass under way |
| `SetupOnce.Session.RunScript` | core/include/tcNode.h:865 | the edits of one setup() are recorded in order, with only those of nodes that are set up meanwhile in between |
| `SetupOnce.EveryScriptRan` | core/include/tcNode.h:861-868 | between outermost calls the setup() of every node that was set up has been run: once, in order, to its end or to the first edit refused by the tree of that moment |
| `SetupOnce.ScriptAdds` | core/include/tcNode.h:861-918 | a root whose setup() adds a child: afterwards the child is there and set up |
| `SetupOnce.Session.SetupTree` | core/include/tcNode.h:881-888 | after the pass everything it covered is set up, although setup() bodies edit the tree; where they do not, the children are set up in their order, each with its own subtree |
| `SetupOnce.Session.SetupJoined` | core/include/tcNode.h:913-918 | a subtree that joins a set-up node of a live tree is set up; otherwise nothing is owed |
| `SetupOnce.Session.AddChild` | core/include/tcNode.h:178-212 | between outermost calls every live node is set up, and a call keeps that; a child that joins a set-up node under a live root is set up, and any other joins without anything being set up |
| `SetupOnce.Session.InsertChild` | core/include/tcNode.h:215-254 | as for AddChild, at an index |
| `SetupOnce.Session.SetupNodeOnce` | core/include/tcNode.h:1838-1844 | the first time everything below is set up; a node set up before gets no pass and nothing changes; afterwards all live nodes are set up if and only if it was the first time or everything below was set up already, in particular at every later frame |
| `SetupOnce.LateChild` | core/include/tcNode.h:1838-1844 | builds the failing case: set up, taken out, given a child, made a root; the child is live and not set up |
| `SetupOnce.Session.Perform` | core/include/tcNode.h:178-356 | every tree edit a setup() body can make is recorded, the tree is what the recorded edits make of it, and links, caches, log and passes are kept |
| `TreeEdits.HungPictured` | core/include/tcNode.h:178-254 | what adding or inserting a child makes of every node: place, order, paths, and the kept global position |
| `TreeEdits.FreedPictured` | core/include/tcNode.h:257-272 | what removing one makes of them |
| `TreeEdits.SweptPictured` | core/include/tcNode.h:977-995 | what a sweep makes of them |
| `SetupOnce.Session.NextChild` | core/include/tcNode.h:884-887 | a child of the copied list that left or was destroyed can be skipped |
| `SetupOnce.AllLiveSetUp` | core/include/tcNode.h:881-918 | with no pass under way every node reachable from a live root through nodes that were not destroyed is set up |
| `SetupOnce.OnceAndInOrder` | core/include/tcNode.h:861-868 | no node is set up twice, and none before its parent at that moment |
| `Timers.NodeTimers.ProcessTimers` | core/include/tcNode.h:1748-1834 | the in-place batch equals its specification, with callbacks that add and cancel timers |
| `Timers.NodeTimers.CountDown` | core/include/tcNode.h:1749-1789 | one charge per timer and the ids of those that are due, in order |
| `Timers.NodeTimers.Fire` | core/include/tcNode.h:1791-1833 | one due timer: looked up again by id, moved on or taken off, then called |
| `Timers.NodeTimers.CancelTimer` | core/include/tcNode.h:1535-1541 | the timer with this id is gone, the others stay in order |
| `Timers.NodeTimers.CancelAllTimers` | core/include/tcNode.h:1544-1546 | no timer is left |
| `Timers.NodeTimers.CallEveryCatchUp` | core/include/tcNode.h:1528-1532 | adds a catch-up timer with a fresh id |
| `Timers.NewTimerWaits` | core/include/tcNode.h:1700-1718 | a new timer has an id that no timer and no event ever had, the update it is made in takes nothing off it, and no other timer changes |
| `Timers.BatchExact` | core/include/tcNode.h:1748-1834 | a timer due at the start of a batch that was cancelled before its turn does not fire; any other is called in its turn, exactly once, or as a catch-up timer as often as it is due or until its own calls cancel it, whatever follows |
| `Timers.BatchOthers` | core/include/tcNode.h:1748-1834 | no other id fires, in particular none added during the batch |
| `Timers.NeverAfterCancel` | core/include/tcNode.h:1535-1546 | once cancelled, an id never fires again, remaining catch-up calls included |
| `Timers.AtMostOnce` | core/include/tcNode.h:1827-1832 | a one-shot timer fires at most once in any run |
| `Timers.ProcessValid` | core/include/tcNode.h:1748-1834 | these invariants hold after any batch with any callbacks |
| `Timers.DoValid` | core/include/tcNode.h:1506-1546 | and after any operation between batches |
| `Timers.CatchUpPhase` | core/include/tcNode.h:1798-1822 | an unlimited catch-up timer keeps calls * interval = charged + remaining - interval; for any repeating timer this holds of the intervals that came due |
| `Timers.PhaseBound` | core/include/tcNode.h:1803-1810 | after a due update 0 < remaining, and remaining <= interval * (1 + 1e-9) exactly if what was left was at most interval * 1e-9; otherwise it is at most interval + 1e-9 |
| `Timers.PhaseBoundMissed` | core/include/tcNode.h:1803-1810 | an input on which the relative bound is missed |
| `Timers.NeverEarly` | core/include/tcNode.h:1764-1785 | with measured updates a timer is charged only for time after its creation |
| `Timers.FireSelf` | core/include/tcNode.h:1791-1833 | a due timer is called at least once; the calls and the books of one timer |
| `Timers.CallCountIs` | core/include/tcNode.h:1801-1817 | one call in an update, but for a catch-up timer one for each interval due, up to its limit |
| `Timers.FireOther` | core/include/tcNode.h:1791-1833 | firing one timer leaves the record of every other, unless a callback cancels it |
| `Elapsed.MeasuredExactly` | core/include/tcNode.h:1764-1785 | with measured updates a timer is charged exactly the time since its creation |
| `Elapsed.StepsExactly` | core/include/tcNode.h:1764-1785 | in fixed steps, and in a tree driven by hand, it is charged every delta after the update it was made in |
| `Elapsed.StepThenMeasured` | core/include/tcNode.h:1774-1781 | made in a fixed step and counted in measured updates it is charged the time since its creation |
| `Elapsed.RunExact` | core/include/tcNode.h:1748-1834 | the same in every run of the node, with any callbacks and however often the timer fired |
| `Elapsed.CallAfterFires` | core/include/tcNode.h:1506-1508 | a timer fires in the first update that has its delay behind it, and in none before, unless it is cancelled |
| `Elapsed.CallEveryFires` | core/include/tcNode.h:1514-1532 | so does the first call of a repeating one |
| `Elapsed.CallAfterFiresOnStep` | core/include/tcNode.h:1732-1740 | made in a fixed step with a delay of n steps it fires on exactly the n-th step after it |
| `Elapsed.RunCancels` | core/include/tcNode.h:1535-1541 | a callback cancels what its body cancels |
| `Elapsed.CancelledInBatch` | core/include/tcNode.h:1791-1796 | a due timer that an earlier callback of the same batch cancels does not fire |
| `Capture.RunInv` | tools/check_build_warnings.py:186-318 | the invariants hold after every interleaving of child, background processes, reader and consumer |
| `Capture.InOrder` | tools/check_build_warnings.py:194-296 | file, queue and chunks in hand together are what was read from the pipe, in order, until the consumer fails |
| `Capture.FileIsPrefix` | tools/check_build_warnings.py:283-318 | in every interleaving, after a failure too, the file is a prefix of what was written to the pipe |
| `Capture.NormalReturn` | tools/check_build_warnings.py:292-318 | a return without exception means that every byte of the child is in the log; the log is complete with no writer left, or ends with the notice and the exit code is not 0; a signal maps to 128 plus its number |
| `Capture.GraceKept` | tools/check_build_warnings.py:253-273 | in every interleaving a capture given up as incomplete was given at least a second after the exit of the child |
| `Capture.CompleteInTime` | tools/check_build_warnings.py:250-318 | if all writers are gone and the pipe is drained before that second is over, a normal return has the whole output, no notice, and the child's own exit code |
| `Capture.NoDeadlock` | tools/check_build_warnings.py:186-318 | in every reachable state somebody can move, unless the child's exit is awaited |
| `Capture.ReaderStops` | tools/check_build_warnings.py:194-201 | told to stop, the reader is done after a bounded number of its own steps, so the join returns, also after a consumer failure with a full queue |
| `Capture.ReaderAlwaysEnds` | tools/check_build_warnings.py:248-278 | in every interleaving after the exit of the child: a bounded number of reader steps, plus one for each that a full queue held up, sets the deadline or ends the reader; past the deadline another bounded number ends it, whatever holds the pipe |
| `Capture.CaptureBounded` | tools/check_build_warnings.py:186-318 | past the deadline a run in which the consumer keeps reading has a bounded number of reader and consumer steps, whatever the processes do |
| `Capture.WholeRunBounded` | tools/check_build_warnings.py:186-318 | the same from the exit of the child on: 27 reader steps to the deadline or the end, then as bounded |
| `Capture.DeadlineNears` | tools/check_build_warnings.py:250-259 | after the exit every reader step that is not held up brings the deadline or the end nearer |
| `Capture.ReaderEnds` | tools/check_build_warnings.py:250-274 | past its deadline, and at its end, every reader step that a full queue does not hold up brings it nearer to its end |
| `Capture.ReaderKeeps` | tools/check_build_warnings.py:203-278 | every reader step keeps the invariants |
| `Capture.ConsumerKeeps` | tools/check_build_warnings.py:283-318 | every consumer step keeps the invariants |
| `Capture.ReadKeeps` | tools/check_build_warnings.py:227-248 | a read moves bytes from the pipe into the reader's hand |
| `Capture.PutKeepsFlow` | tools/check_build_warnings.py:194-201 | handing a chunk over keeps the order of bytes |
| `Glyphs.GlyphRegistry.RegisterGlyph` | core/include/tcBitmapFont.h:268-306 | the codepoint gets its data and its cells, no other codepoint changes, and the registry stays in order exactly as long as the 16-bit counter does not wrap |
| `Glyphs.RegisterKeeps` | core/include/tcBitmapFont.h:268-306 | cells stay disjoint, beyond the ASCII and tofu cells, and a fullwidth glyph starts on an even cell, if and only if the counter does not wrap |
| `Glyphs.CellsGivenUp` | core/include/tcBitmapFont.h:268-306 | a glyph registered with another width leaves its old cells to nobody |
| `Glyphs.NeverReused` | core/include/tcBitmapFont.h:268-306 | cells below the counter that nobody uses stay unused through any registrations that do not wrap it |
| `Glyphs.WrapHitsAscii` | core/include/tcBitmapFont.h:297-300 | a registration that wraps the counter shares the cell of the space |
| `Glyphs.GlyphRegistry.LowerBound` | core/include/tcBitmapFont.h:146-152 | the insertion point in the sorted list |
| `Glyphs.GlyphRegistry.FindRegistered` | core/include/tcBitmapFont.h:146-152 | finds the glyph of a codepoint if there is one |
| `Glyphs.GlyphRegistry.LookupGlyph` | core/include/tcBitmapFont.h:155-176 | the cell a codepoint is shown in, the tofu cell for unknown ones |
| `Glyphs.GlyphRegistry.CodepointPixelWidth` | core/include/tcBitmapFont.h:180-184 | agrees with the width of the cell LookupGlyph gives |
| `Glyphs.GlyphRegistry.CodepointRequiredRows` | core/include/tcBitmapFont.h:189-196 | the rows that must exist before the codepoint is drawn |
| `Glyphs.GlyphRegistry.TextRequiredRows` | core/include/tcBitmapFont.h:198-209 | the largest number of rows any shown codepoint needs |
| `Glyphs.GlyphRegistry.UpdateGlyph` | core/include/tcBitmapFont.h:317-322 | new data for a registered codepoint; no cell and no other codepoint changes |
| `Glyphs.CellsFit` | core/include/tcBitmapFont.h:155-196 | a codepoint's cells lie in one row, above the number of rows it is said to need |
| `Glyphs.TextFits` | core/include/tcBitmapFont.h:198-209 | so does everything a text shows |
| `Glyphs.AllShown` | core/include/tcBitmapFont.h:198-209 | every codepoint of a text is shown, in order, and nothing else; control bytes, NUL among them, are passed over |
| `Glyphs.OverlongEnds` | core/include/tcBitmapFont.h:198-209 | an overlong zero ends the text |
| `Glyphs.Utf8Decode` | core/include/tcBitmapFont.h:121-141 | one codepoint, or the replacement character up to the first byte that does not continue it |
| `Glyphs.Utf8RoundTrip` | core/include/tcBitmapFont.h:121-141 | every encoded codepoint decodes to itself |
| `Glyphs.MalformedUsed` | core/include/tcBitmapFont.h:118-141 | malformed input gives the replacement character, and one byte is passed over exactly when the first byte starts no sequence, stands alone, or is not continued by the second of enough bytes |
| `Glyphs.TwoBytesLost` | core/include/tcBitmapFont.h:118-141 | an input on which two bytes are passed over |
| `Atlas.WritePixel` | core/include/tcBitmapFont.h:435-442 | one pixel becomes opaque, none outside the picture |
| `Atlas.RasterPackedHalf` | core/include/tcBitmapFont.h:444-462 | lights exactly the set bits of a halfwidth glyph, one row down |
| `Atlas.RasterPackedFull` | core/include/tcBitmapFont.h:464-474 | lights exactly the set bits of a fullwidth glyph |
| `Atlas.RasterTofu` | core/include/tcBitmapFont.h:476-487 | lights exactly the box |
| `Atlas.GenerateAtlasPixels` | core/include/tcBitmapFont.h:496-534 | for each row count, clamped to 32, every pixel is white and opaque exactly where the pointwise picture is lit |
| `Atlas.OneOwner` | core/include/tcBitmapFont.h:496-534 | the picture at a pixel is the bit of the one glyph that owns its cell |
| `Atlas.AsciiShown` | core/include/tcBitmapFont.h:155-163 | in the cell of an ASCII codepoint stands its glyph of the font, bit for bit |
| `Atlas.RegisteredShown` | core/include/tcBitmapFont.h:164-170 | in the cells of a registered codepoint stands the glyph registered for it |
| `Atlas.BoxShown` | core/include/tcBitmapFont.h:171-176 | in the cell of any other stands the box |
| `Atlas.FullIsCells` | core/include/tcBitmapFont.h:525-532 | a fullwidth glyph drawn at its first cell stays in its two cells |
| `Atlas.HalfIsCell` | core/include/tcBitmapFont.h:509-516 | a halfwidth glyph drawn at its cell stays in it |
| `Atlas.TextVisible` | core/include/tcBitmapFont.h:189-209 | every pixel of every cell a text shows is in the atlas generated for its rows |
| `Png.RowRoundTrip` | tools/adjudicate_render_pr4a.py:75-100 | filtering a line and rebuilding it from bytes already rebuilt returns the line |
| `Png.ImageRoundTrip` | tools/adjudicate_render_pr4a.py:75-100 | the same for an image with any filter for each line |
| `Png.FiltersAreStandard` | tools/adjudicate_render_pr4a.py:83-99 | the five filters, byte by byte, are those of section 6 of RFC 2083 |
| `Png.PaethIsNearest` | tools/adjudicate_render_pr4a.py:96-98 | the Paeth predictor is the nearest of left, up and corner, in that order of preference |
| `Png.RebuildRow` | tools/adjudicate_render_pr4a.py:82-99 | the in-place loop rebuilds the line |
| `Png.Rebuild` | tools/adjudicate_render_pr4a.py:70-101 | the scanline loop gives the image, or rejects a wrong size or filter |
| `PngFile.ReadChunks` | tools/adjudicate_render_pr4a.py:33-67 | the chunk loop: order, checksums, header, and the image data put together |
| `PngFile.ContainerRoundTrip` | tools/adjudicate_render_pr4a.py:33-67 | however the compressed data is cut into chunks it is put together again |
| `PngFile.Accepted` | tools/adjudicate_render_pr4a.py:33-67 | the converse: whatever is accepted was written so, with nothing wrong up to IEND, and what is delivered is what it holds |
| `PngFile.ReadPng` | tools/adjudicate_render_pr4a.py:27-101 | chunk loop, decompression and scanline loop together, rejections included |
| `PngFile.PngRoundTrip` | tools/adjudicate_render_pr4a.py:27-101 | writing any RGBA image with any filters and any chunking, and reading it, returns the image |

## Left out

- Inverse MDCT, windows, residue and vector values of the decoder: floating point and trigonometry.
- Reading the Vorbis headers field by field: parsed lengths, floor lists and flags are inputs.
- Seeking, push-mode resynchronisation and files; the stream is a memory buffer. Granule positions, serial numbers and `last_seg_which`, which do not decide which byte comes next, are not kept.
- The sentinels before and behind the sorted tables, which no search result uses.
- `qsort` of the codewords: a function that sorts stands for it; on distinct codewords the result is unique.
- The floor applies its table values as exact reals; rounding is not modelled.
- Allocation with `malloc`, when the caller passes no buffer.
- Capture.RunInv: the threads are modelled on values, as steps of a state machine, not as objects that share fields; the platform calls are "bytes available" and "read if ready".
- Capture.ReaderEnds: the reader's steps are counted, not timed; polling intervals are left out.
- Mods, async timers, mouse, key and hover dispatch, drawing, and callbacks that edit the tree while children are added, removed or swept.
- Freeing a parent while a child is held: nodes stay alive.
- SceneGraph.Node.Attach: adding a node below itself, which the source does not reject, is excluded; that adding a node to itself does nothing is in SetupOnce.Session.InsertChild.
- SetupOnce.Session.AddChild: excludes an ancestor or a window's root as the child, which the source does not reject.
- SetupOnce.Session.InsertChild: excludes the same.
- SetupOnce.Session.Perform: excludes the same; `MayDo` tells such an edit before it is made.
- Arena.Allocator.SetupTempFree: takes the size of the latest block only; the source takes any number.
- Amplitudes.UnwrapAmplitudes: heights from values outside the range are not cut to 16 bits.
- BitReader.PrepHuffman: excludes a reader marked as used up on a packet that an unmarked page cuts off; there the source shifts by -1, which C does not define.
- RoundTrip.ReceivePacket: over a page without segments the packet must be closed for good; whether the reader then stops where the scan does is for ScanAgreement.EmptyPageEnds.
- Timers: callbacks that are empty function objects, and rounding of the countdown.
- The texture coordinates of the font, in floating point.
- Texture upload, comment parsing, build scripts and the textual checkers of `tools/`.
