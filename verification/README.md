# aboot, verified in Dafny

aboot is the boot loader for Linux on Alpha, with the tool that installs it. This
project models its algorithmic core and proves what that core is for:

- **DEFLATE and gzip** (`zip/`): building decoding tables, decoding with a bit buffer
  and a 32 KiB ring, loading the kernel window by window, checking CRC and length.
- **The block cache** of the installer (`tools/bio.c`).
- **A writable ext2** (`tools/e2lib.c`, `tools/e2writeboot.c`): bitmaps, block mapping
  with allocation on demand, truncation, contiguous files, directories, and the
  installation of the boot block.
- **The loader's own readers** (`fs/ext2.c`, `fs/ufs.c`, `cons.c`): cached index blocks
  and reads that join neighbouring blocks.
- **64-bit division** (`lib/divide.S`).

Code that changes state is a class or a method with loops, proved against a
specification function or a predicate on values; the properties of those are lemmas.
Where the code departs from its intent, the model follows the code, a lemma shows the
failing case, and another says exactly when the result is right. `dafny verify
dfyconfig.toml` checks everything.

## How the parts build on each other

| modules | what they establish |
|---|---|
| `Bits`, `BitStream`, `CanonicalCode` | binary digits, bit reversal, a byte sequence as a bit stream, the canonical prefix code of section 3.2.2 of RFC 1951 |
| `HuftPlan`, `HuftTables`, `HuftSteps`, `HuftOpen`, `HuftLoop`, `HuftBuild`, `HuftWalk`, `Huft` | `huft_build`: every step of the three nested loops keeps an invariant over the linked tables; the finished tables and the canonical code |
| `DeflateSpec`, `DeflateTables`, `DeflateValid`, `DeflateReach`, `FixedStream`, `WideStream` | a reference decoder for sections 3.2.3 to 3.2.7 of RFC 1951 on unbounded output; STRICT checks what the RFC asks for, LENIENT what the program asks for, and neither includes the other; a result depends on nothing after the data; the tables and fixed codes by what they are for, and two streams in full |
| `BitReader`, `Window`, `Lookup`, `CodeSets`, `InflateData`, `Inflate` | the decoder refines the reference |
| `Crc32`, `Loader`, `Unzip` | the CRC table, loading segments, the whole of `unzip` for a gzip member |
| `BlockCache`, `BlockLog` | the cache is a flat array of blocks, and is least-recently-used, over a device that is sought at 32-bit offsets; what a list of calls to it comes to |
| `Bitmap`, `Volume`, `Allocator` | bitmaps in words, free counts, allocation and freeing |
| `FileTree`, `FileMap`, `FileData`, `Truncate`, `Fill`, `WriteBoot`, `Directory`, `BlockBytes`, `DirFile` | files, directories and the installation, on the blocks that the cache shows, with a list of the calls made to it |
| `Console`, `PointerCache`, `ExtReader`, `ExtFile`, `Ufs` | the read-only side: byte offsets of blocks, the walk along index blocks through buffers, what failed reads do to it, and the two file systems |
| `Divide` | division |

## What the code does not do

Each of these is a theorem with its exact condition.

- `huft_build` does not stop widening a sub-table at the stride of its level: the first
  table of a set can have more entries than its width selects, and a sub-table can be
  too wide for the reader's mask. The tables decode every bit string right if and only
  if no sub-table is too wide (`HuftWalk.TablesExact`); a complete code of five symbols
  with lookup width 1 loses a symbol (`Huft.NarrowLookupLoses`). All code sets that
  `inflate` builds are safe (`CodeSets`).
- `huft_build` uses elements of `v[]` that nobody wrote as indices into `e` and `d` if
  and only if the set is incomplete and some symbol has no code (`Huft.Build`). Of the
  sets that the program takes these are the lone codes of one bit among several symbols
  (`CodeSets.LoneUnset`), such as the one distance code that RFC 1951 allows
  (`CodeSets.LoneDistance`), so it happens on valid data; `inflate` says when
  (`Inflate.Inflate`). Following such an element, or the null table of a set without
  codes, leads to whatever memory holds: that outcome is `Undefined` and not an error.
- `inflate_dynamic` refuses blocks with 31 or 32 distance codes, and sets that leave
  code space over, both of which RFC 1951 allows; and `unzip` compares the whole length
  with the 32 bits of the trailer. A valid member is accepted if and only if its dynamic
  blocks have none of that and its output is shorter than 4 GiB (`Unzip.ValidAccepted`,
  `DeflateValid.InflateStrict`, `WideStream.WideRefused`).
- `flush_window` takes a second segment in the same window from the wrong place
  (`Loader.SecondSegmentFrom`, `Loader.TwoSegmentsGoWrong`). Segments in order are all
  loaded, whatever the file holds, if and only if no window holds the end of one, away
  from its own start, and the start of the next (`Loader.LoadedExact`).
- The cache takes block 0 for cached until all 32 slots are filled, and seeks to a byte
  offset that it computes in 32 bits. A run that ends with a flush goes through, every
  block to its own place, if and only if block 0 is used only when 32 different blocks
  have been, and no block used reaches beyond 2 GiB (`BlockCache.Cache.Run`,
  `BlockCache.BlockZeroSafe`, `BlockCache.TargetExact`). A block at 2 GiB cannot be
  sought, the one at 4 GiB is taken for block 0 (`BlockCache.FarBlocks`), and what is
  written beyond 2 GiB is never on the device (`BlockCache.FarLost`). `e2writeboot`
  writes the boot block at block 0: with an image of 31 blocks or more that goes through,
  with a small image on a small file system it dereferences null (`WriteBoot.Install`);
  and it boots if all blocks used lie in the first 2 GiB (`WriteBoot.Commit`).
- The limit `ind2lim`, in the installer and in the loader, is one pointer block short:
  the last blocks of the double-indirect tree, 256 of them with 1 KiB blocks, are
  refused on writing and read as zeros. What the installer reads is the file if and only
  if the block is within the limit or is zeros (`FileData.Bread`, `FileMap.LimitPaths`,
  `FileData.FarFile`); for the loader see `ext2_breadi` below.
- `ext2_balloc` passes over a group whose first block is free
  (`Allocator.FileSystem.Balloc`).
- `ext2_fill_contiguous`, when it cannot have its indirect block, frees blocks 0, 1, …
  and not its run; freeing block 0 indexes far outside the group table
  (`Fill.FillContiguous`, `Allocator.FileSystem.Bfree`).
- `i_blocks` is raised although no block was had, for a direct block and for a data
  block under a double-indirect block (`FileMap.Blkno`).
- `e2writeboot` computes the sector number of the file in 32 bits: it is right if and
  only if the file is in the first 2 GiB (`WriteBoot.LbnRight`); what it is otherwise is
  stated too (`WriteBoot.LbnWraps`).
- `ext2_mknod` raises the directory's size although the new block could not be written,
  and in a block of zeros a later scan does not move on (`DirFile.Mknod`,
  `Directory.ZerosNotTiled`).
- `ext2_namei` takes inode numbers of 2^31 and more for a failed search, and goes on with
  the next block (`DirFile.Namei`, `DirFile.LookIs`).
- `ext2_breadi` takes blocks after a hole for part of the hole when their numbers are
  their distances from it (`ExtFile.ShadowedIs`, `ExtFile.ShadowHappens`), finds a hole
  for every block beyond `ind2lim` (`ExtReader.MapExact`, `ExtFile.LimitHappens`), takes
  block numbers of 2^31 and more for negative ones, and reads block 0 for a hole that
  follows the number -1 (`ExtFile.DugIs`, `ExtFile.SignHappens`). What it delivers is the
  file if and only if none of these blocks has anything else in the file than what is
  delivered in its place, and what that is is stated (`ExtFile.ShownExact`,
  `ExtFile.ShownIs`). It does not stop when it starts more than one block beyond the end
  (`ExtFile.Breadi`), and, where a range reaches beyond the end of a file whose size is
  within a block of 4 GiB, loses the range to a 32-bit sum (`ExtFile.ClampIs`).
- `ufs_open` computes the size of the third index tree in 32 bits: blocks in it are out
  of reach for file systems with blocks of 8 KiB (`Ufs.LevelsRight`, `Ufs.NoneLeftOut`).
- `block_map` computes the byte offset of an index block in 32 bits. An index block is
  read right on every device if and only if it begins in the first 2 GiB of the partition
  (`PointerCache.OffsetExact`, `PointerCache.FoundExact`), a lookup through one is right on
  every device if and only if that holds (`PointerCache.WalkExact`), and where it holds
  for all of them on the way, any lookup is the walk (`Ufs.MapNear`, `Ufs.File.BlockMap`). Numbers 4 GiB
  apart have one place (`PointerCache.ShiftedAlias`), and a lookup goes wrong by it
  (`Ufs.FarHappens`).
- After a failed read of an index block, the two readers keep the old block number for a
  buffer that has been overwritten; and an ext2 mount gets new buffers and keeps the
  numbers of the mount before. Whatever such a buffer holds, a later lookup is right if and only if
  it does not use it before it is filled again (`PointerCache.LookupExact`); only a
  lookup of a hole can be right all the same, when every pointer leads to a hole
  (`PointerCache.SteadyExact`, `PointerCache.UseUnsteady`). Two blocks of a device where
  a failed read is followed by a wrong answer: `PointerCache.StaleHappens`.
- The last read of a compressed file is short, but counts as a whole buffer: the decoder
  goes on with what the buffer held before, and gives up only at its end
  (`BitReader.Reader.GetByte`, `BitReader.Refill`). A member is accepted with its trailer
  inside the file if and only if the file has the member (`Unzip.FileExact`); a file cut
  short can be accepted for what was in the buffer (`Unzip.StaleAccepted`).

The comment in `lib/divide.S` says that `a % -b` is `-(a % b)`. The code sets the sign
of the remainder by the dividend alone, and that is what is modelled; the law
`(x/y)*y + x%y = x`, for which the comment was written, holds.

## Model

| member | source | states |
|---|---|---|
| `Huft.Build` | zip/inflate.c:122-322 | the result is "empty" iff all lengths are zero, 2 iff the Kraft sum exceeds one, 1 iff an incomplete set has a maximum length other than 1; otherwise the linked tables of the set are built, every element that a code reaches written; an element of `v[]` nobody wrote is used iff the set is incomplete and some length is zero |
| `Huft.SpaceLeft` | zip/inflate.c:187-193 | the running count is negative iff the set is oversubscribed, and else it is the number of dummy codes |
| `Huft.SortValues` | zip/inflate.c:198-214 | the value table lists the symbols in order of length, and of symbol within a length |
| `HuftBuild.PlaceCodes` | zip/inflate.c:219-318 | the reversed-bit counter, the table stack and the sub-table widths together fill the tables for every bit string: each slot has the code that owns it or the link to the right sub-table |
| `HuftWalk.TablesExact` | zip/inflate.c:236-256 | walking the tables gives the right symbol and length on every bit string if and only if no sub-table is wider than the stride |
| `HuftWalk.ExpectedIsCanonical` | zip/inflate.c:216-318 | "right" is the canonical code: the symbol whose code the string starts with; for a string that starts with none, an unset element if its distance from the real codes is less than the number of symbols without a code, and else the mark for an invalid code |
| `HuftPlan.UnsetIff` | zip/inflate.c:283-293 | some code gets its element from an unwritten one iff the set is incomplete and some symbol has no code |
| `Huft.ShortCodes` | zip/inflate.c:232-256 | no sub-table is too wide when the longest code is at most twice the lookup width |
| `Huft.FewCodes` | zip/inflate.c:232-256 | nor when there are fewer codes than base entries |
| `Huft.NarrowLookupLoses` | zip/inflate.c:238-250 | a complete code of five symbols and a string that its tables do not decode |
| `Huft.BaseSize` | zip/inflate.c:236-259 | the base table has at least 2^m entries, and exactly 2^m iff a code is shorter than m or m is the longest length |
| `CodeSets.FixedBaseIsLarger` | zip/inflate.c:521-540 | the base table of the fixed literal code has more than 2^7 entries |
| `CodeSets.LiteralSafe` | zip/inflate.c:693-706 | every literal set that the program accepts is decoded right |
| `CodeSets.DistanceSafe` | zip/inflate.c:707-722 | every distance set that it accepts is |
| `CodeSets.TreeSafe` | zip/inflate.c:624-632 | every set of code-length codes is, in one lookup |
| `CodeSets.FixedSafe` | zip/inflate.c:520-551 | both fixed sets are |
| `CodeSets.MakeTable` | zip/inflate.c:122-322 | a table is reported usable iff the set is complete, empty or a single code of one bit, and then it follows the canonical code and an unset element was used iff it is a lone code |
| `CodeSets.LoneUnset` | zip/inflate.c:187-193 | of the usable sets the incomplete ones with a zero length are the lone codes of one bit |
| `CodeSets.LoneDistance` | zip/inflate.c:283-293 | a usable distance set whose second code is unset |
| `BitReader.Reader.GetByte` | zip/misc.c:207-247 | bytes come in order across buffer fills: those of the file and then, up to the end of a whole buffer, those that the buffer had there before; it fails exactly at the end of that buffer |
| `BitReader.Refill` | zip/misc.c:226-239 | a short read leaves in the buffer the end of the file and then what was there, and comes exactly when less than a buffer is left |
| `BitReader.Reader.NeedBits` | zip/inflate.c:95-97 | bits are fetched without skipping any, and it fails only if the input does not have them |
| `BitReader.Reader.DumpBits` | zip/inflate.c:95-97 | what is left is the coming bits of the stream |
| `BitReader.Reader.Undo` | zip/inflate.c:812-818 | at most one byte is given back, never from before the buffer, and the next byte is the first after the stream |
| `Lookup.Walker` | zip/inflate.c:372-381 | the walk in the bit buffer is the walk on the stream, never drops bits it does not hold and leaves at most 15 |
| `Lookup.Decode` | zip/inflate.c:372-381 | decodes the symbol that the code lengths define at this place and uses exactly its bits; a refusal means there is none, and following an unset element that the set is a lone code, or has none, and the string is not of it |
| `Lookup.DecodeSingle` | zip/inflate.c:640-648 | the same for the one-level lookup of code lengths |
| `Window.CopyIs` | zip/inflate.c:417-437 | the copy used as the specification appends n bytes, each equal to the one `dist` before it |
| `Window.Slide.CopyMatch` | zip/inflate.c:417-437 | masking, splitting at the wrap and choosing memcpy or bytes gives that copy for every length and every distance up to 32768 |
| `Window.Slide.BlockMove` | zip/inflate.c:421-426 | one memcpy of a part is that part of the copy |
| `Window.Slide.ByteMove` | zip/inflate.c:429-431 | so is the byte loop, with overlap |
| `Window.Slide.Put` | zip/inflate.c:384-389 | one byte more, and a full window is handed on |
| `Window.Slide.FlushRest` | zip/inflate.c:820-822 | the seed and all windows together are everything produced, and all windows but the last are whole |
| `Window.CutUnique` | zip/inflate.c:384-389 | windows that are whole but for the last are given by the output |
| `DeflateSpec.LengthRange` | zip/inflate.c:58-69 | the tables for lengths give 3 to 258 |
| `DeflateSpec.DistanceRange` | zip/inflate.c:71-83 | those for distances give 1 to 32768 |
| `DeflateTables.LengthsTile` | zip/inflate.c:58-69 | the ranges of the length symbols follow each other from 3 on, each as wide as its extra bits; 258 has its own |
| `DeflateTables.LengthOnce` | zip/inflate.c:58-69 | every length from 3 to 258 has exactly one symbol and extra value, and no other length has one |
| `DeflateTables.DistancesTile` | zip/inflate.c:71-83 | those of the distance symbols follow each other from 1 to 32768 |
| `DeflateTables.DistanceOnce` | zip/inflate.c:71-83 | every distance from 1 to 32768 has exactly one symbol and extra value, and no other has one |
| `DeflateTables.OrderIs` | zip/inflate.c:53-56 | the order of the code length codes: repetitions, zero, then from 8 up and from 7 down by turns |
| `DeflateTables.RunsAre` | zip/inflate.c:655-684 | a repetition is of the last length for 3 to 6, or of zero for 3 to 10 or 11 to 138, and is written in one way |
| `DeflateTables.FixedLitCodes` | zip/inflate.c:523-531 | the fixed literal codes are the bit strings listed in section 3.2.6 of RFC 1951 |
| `DeflateTables.FixedDistCodes` | zip/inflate.c:541-543 | the fixed distance codes are the symbols in five bits |
| `FixedStream.NineDecoded` | zip/inflate.c:509-559 | a stream with fixed codes, a literal and a match, decodes to nine letters |
| `InflateData.DecodeMatch` | zip/inflate.c:398-415 | length and distance are those of the reference, with their extra bits |
| `InflateData.InflateCodes` | zip/inflate.c:347-447 | the symbol loop agrees with the reference on success and on failure |
| `Inflate.InflateStored` | zip/inflate.c:453-505 | a stored block agrees with the reference, including alignment and the complement |
| `Inflate.InflateFixed` | zip/inflate.c:509-559 | a block with fixed codes does |
| `Inflate.ReadLengths` | zip/inflate.c:640-687 | the run-length loop gives the lengths of the reference, exactly nl+nd of them, and writes none beyond |
| `Inflate.ReadTrees` | zip/inflate.c:563-725 | the header of a dynamic block gives the reference's two sets and tables that follow them, or fails where the reference does |
| `Inflate.InflateDynamic` | zip/inflate.c:563-737 | a dynamic block agrees with the reference |
| `Inflate.InflateBlock` | zip/inflate.c:741-784 | so does any block, with its last-block flag |
| `Inflate.Inflate` | zip/inflate.c:788-826 | for every input: success means that the reference succeeds, all flushed windows together are its output and the next byte is the first after the stream; an error means that the reference refuses, and an undefined outcome that it meets an unset element; the end of the input is reported only if less than one byte follows the stream; on success, tables were built with an unset element iff a dynamic block has a lone code |
| `DeflateValid.InflateStrict` | zip/inflate.c:603-722 | a stream that passes the checks of the RFC is accepted, with the same result, iff its dynamic blocks have at most 30 distance codes and leave no code space over, but for lone codes |
| `DeflateValid.TreesStrict` | zip/inflate.c:603-722 | the same for the header of one block |
| `WideStream.WideRefused` | zip/inflate.c:603-608 | a stream with 31 distance codes that the RFC allows and the program refuses |
| `DeflateValid.InflateSeed` | zip/inflate.c:414-419 | the output of such a stream does not depend on what the ring held before |
| `DeflateReach.MatchUnique` | zip/inflate.c:372-381 | no coming bits start with the codes of two symbols, whatever the set |
| `DeflateReach.InflateSame` | zip/inflate.c:788-826 | bytes after the data change nothing: a stream that decodes decodes with anything after it to the same, and one whose data ends in a prefix is decoded by that prefix |
| `Crc32.TableIs` | zip/misc.c:32-97 | each of the 256 constants is eight steps of the bitwise register |
| `Crc32.AdvanceFeeds` | zip/misc.c:118-120 | one table step is eight bitwise steps, for every register and byte |
| `Crc32.FeedConcat` | zip/misc.c:109-124 | feeding in pieces is feeding the whole |
| `Crc32.Register.Update` | zip/misc.c:109-124 | the routine is the bitwise CRC-32 of section 8 of RFC 1952 |
| `Crc32.CrcOfA` | zip/misc.c:109-124 | the CRC-32 of the letter a is e8b7be43 |
| `Loader.Output.FlushWindow` | zip/misc.c:254-315 | register, length, position and memory after one window, for any list of segments |
| `Loader.WindowLoads` | zip/misc.c:268-314 | one window that does not hold the end of a segment and the start of the next: what has been read of all segments is in memory, stray bytes notwithstanding |
| `Loader.SegmentsLoaded` | zip/misc.c:254-315 | for every cutting into such windows, all segments inside the file are in memory when all windows are flushed |
| `Loader.LoadedExact` | zip/misc.c:254-315 | for segments that are not empty, loading works for all contents iff every window is such |
| `Loader.OneIsApart` | zip/misc.c:254-315 | with one segment every cutting is such |
| `Loader.Overshoot` | zip/misc.c:287-301 | exactly which bytes outside the segment a window overwrites, and with what |
| `Loader.SecondSegmentFrom` | zip/misc.c:274-311 | in a window that holds the end of one segment and the start of the next, each byte of the next is taken as if the window began at that end |
| `Loader.SecondSegmentExact` | zip/misc.c:274-311 | so it comes out right for all contents iff the first segment had ended before the window |
| `Loader.TwoSegmentsGoWrong` | zip/misc.c:268-314 | two segments that are not loaded right |
| `Unzip.FlushWindows` | zip/misc.c:254-315 | after all windows the register has the CRC of all output and the length is its length |
| `Unzip.Unzip` | zip/unzip.c:51-132 | a member is accepted if and only if, in what the fills deliver, its data decodes and the trailer is there with the CRC-32 and the length of the output; the file itself has such a member iff it is accepted with the end of the trailer in the file; data and a trailer with another CRC are a CRC error, and else with another length a length error; data without the trailer are the end of the input; refused data are that or a format error, data that meet an unset element that or undefined; when accepted, the windows are the output in whole windows, all are flushed, and the segments inside the output are in memory |
| `Unzip.FileExact` | zip/misc.c:226-239 | the file has a good member iff what the fills deliver has one that ends in the file, and then with the same output |
| `Unzip.StaleAccepted` | zip/misc.c:226-239 | a file without a trailer that is accepted for zeros in the buffer |
| `Unzip.LongIs` | zip/gzip.h:80-81 | a trailer field is the next 32 bits, low byte first |
| `Unzip.LetterAccepted` | zip/unzip.c:101-132 | a member with one letter is accepted; with another byte in its CRC, its length or its block it gets the error for that, and cut short the end of the input |
| `Unzip.OneLoadable` | zip/misc.c:254-315 | a single segment inside the output is always loaded |
| `Unzip.ValidAccepted` | zip/unzip.c:100-132 | a member valid by RFC 1951 and 1952 is accepted iff its dynamic blocks are within the program's limits and its output is shorter than 4 GiB |
| `Unzip.ValidAnySeed` | zip/unzip.c:51-132 | validity and output do not depend on old memory |
| `BlockCache.Cache.BRead` | tools/bio.c:66-121 | while all seeks have gone to the right places a read answers with the block as last written; it keeps the flat array and makes the block the latest used; it dereferences null iff block 0 is asked for with a slot empty, and a seek fails only for a block used whose offset is negative |
| `BlockCache.Cache.BWrite` | tools/bio.c:125-178 | a write updates the flat array at that block only, whatever is evicted; null and failed seeks as for a read |
| `BlockCache.Cache.BFlush` | tools/bio.c:47-62 | afterwards the device has been sought for every block used, and if all those seeks went to the right places it is the flat array |
| `BlockCache.Cache.Victim` | tools/bio.c:85-92 | the slot used longest ago |
| `BlockCache.Cache.NullHitIff` | tools/bio.c:35-42 | block 0 hits a null pointer exactly until 32 blocks are cached |
| `BlockCache.MissBlocks` | tools/bio.c:83-118 | recycling the oldest slot drops exactly the least recently used block |
| `BlockCache.HitBlocks` | tools/bio.c:71-81 | a hit moves the block to the front |
| `BlockCache.WriteOut` | tools/bio.c:94-104 | writing a dirty slot out to its own block leaves the flat array as it is |
| `BlockCache.Cache.Run` | tools/bio.c:24-178 | a sequence of calls that ends with a flush goes through, with every block at its own place, iff block 0 is not used too early and every block used ends within 2 GiB; then it gives the answers of a flat array, with least-recently-used contents, and the device is that array; blocks beyond 2 GiB are never written |
| `BlockCache.TargetExact` | tools/bio.c:57-57 | the seek goes to the block's own place iff the block ends within 2 GiB, and never to one beyond |
| `BlockCache.FarBlocks` | tools/bio.c:57-57 | with 1 KiB blocks, of every 4 GiB the blocks of the first half are taken for those at the start of the device, and those of the other half cannot be sought |
| `BlockCache.FarLost` | tools/bio.c:47-62 | what the cache shows beyond 2 GiB and the device did not have is not on the device |
| `BlockCache.BlockZeroSafe` | tools/bio.c:35-42 | after `binit` block 0 can be used iff 32 different blocks have been used before |
| `BlockLog.SafeBoot` | tools/e2lib.c:568-572 | after calls for other blocks, writing block 0 goes through iff they have used 32 different ones |
| `BlockLog.Perform` | tools/bio.c:24-178 | the same for a list of calls and a flush on a cache just initialised: then the device is what the cache showed |
| `Bitmap.FindFirstZero` | tools/e2lib.c:281-309 | the lowest zero bit among the scanned words, or the size if there is none |
| `Bitmap.PutUsed` | tools/e2lib.c:311-322 | setting or clearing a bit changes that bit only |
| `Bitmap.ZerosFlip` | tools/e2lib.c:311-322 | and changes the number of zero bits by one |
| `Allocator.FileSystem.Balloc` | tools/e2lib.c:329-367 | fails iff read-only or every group is full or has its first block free; otherwise takes the first free block of the first other group, keeps all counts right and writes bitmaps only |
| `Allocator.FileSystem.Bfree` | tools/e2lib.c:369-392 | clears the one bit and raises two counts; the group is outside the table exactly for block 0 and blocks beyond the groups |
| `Allocator.FileSystem.Release` | tools/e2lib.c:369-392 | for a block in use that is no bitmap, it alone is given back and all counts stay right |
| `Volume.FreeingKeepsOrder` | tools/e2lib.c:369-392 | freeing keeps the counts right iff the block was in use and is no bitmap |
| `Volume.GivenBack` | tools/e2lib.c:329-392 | giving back what was taken restores every bit and count |
| `Volume.SmallestOk` | tools/e2lib.c:329-392 | there are volumes in order: one with a single free block |
| `Volume.BlocksInOrder` | tools/e2lib.c:370-382 | block 1 is the first bit of the first group, and from a block to the next it is one bit on or the start of the next group |
| `BlockBytes.UsedIs` | tools/e2lib.c:311-322 | a bit of the bitmap is that bit of its bytes |
| `BlockBytes.WordsAre` | tools/e2lib.c:643-791 | a pointer in a block is the 32 bits from there on, low byte first |
| `Allocator.FindRun` | tools/e2lib.c:430-456 | the first run of enough empty words, iff there is one |
| `Allocator.FileSystem.ContiguousBalloc` | tools/e2lib.c:400-483 | takes the first such run of the first group that has the count and the words, and nothing else; or fails, with nothing changed, iff read-only or no group has both |
| `Allocator.Serve` | tools/e2lib.c:329-483 | over every run of requests: the blocks in use are those at first and exactly those held, none handed out twice, the counts right throughout; with nothing held, the volume is bit for bit as at first |
| `FileTree.LinkAt` | tools/e2lib.c:643-791 | setting one empty pointer changes no other pointer of the file |
| `FileTree.LinkTree` | tools/e2lib.c:643-791 | and keeps all pointers to different blocks of the file's own |
| `FileMap.PathOfInjective` | tools/e2lib.c:663-787 | different offsets have different places |
| `FileMap.PathOfOrdered` | tools/e2lib.c:659-787 | a later block of the file has a later place, compared index by index |
| `FileMap.PathOfOnto` | tools/e2lib.c:659-787 | every place for a data block is that of some block of the file |
| `FileMap.Blkno` | tools/e2lib.c:643-791 | up to `ind2lim` it finds what is mapped; asked to, it fills in the missing pointers on the way, with fresh blocks, and returns 0 only when no block is left; beyond, it returns 0 and changes nothing; `i_blocks` goes up by two for each block taken, with the exceptions named above |
| `FileMap.LimitPaths` | tools/e2lib.c:117-122 | the offsets from `ind2lim` to the end of the double-indirect tree are those under its last pointer |
| `FileData.MapUpdate` | tools/e2lib.c:643-791 | so it is a map update: every other offset keeps its block, and a newly mapped block was in use by nobody |
| `FileData.MapKeepsContent` | tools/e2lib.c:643-791 | and no other block of the file changes its contents |
| `FileData.Bread` | tools/e2lib.c:797-811 | reads the contents at an offset, zeros for a hole, and changes nothing; what it delivers is the file iff the offset is within the limit or the file is zeros there |
| `FileData.FarFile` | tools/e2lib.c:797-811 | a well-formed file with data at block 65548, beyond the limit |
| `FileData.Bwrite` | tools/e2lib.c:814-832 | refused, with nothing changed, iff read-only or beyond the limit; otherwise the missing pointers are filled in and the data are in the block of the offset and nowhere else, unless no block is left; a read gives them back, all other offsets and all blocks of others keep their contents |
| `FileData.WroteMapped` | tools/e2lib.c:814-832 | at an offset that has a block, that block alone changes |
| `Truncate.TruncateFile` | tools/e2lib.c:1018-1054 | frees exactly the blocks of the file at all levels, each once, raises the counts by their number and writes bitmaps only |
| `Truncate.FreeIndirect` | tools/e2lib.c:1057-1082 | frees exactly the blocks below one pointer block, and it |
| `Truncate.ReachIs` | tools/e2lib.c:1018-1082 | the blocks of the file are those that some pointer points to |
| `Fill.FillContiguous` | tools/e2lib.c:492-563 | fails, with nothing changed, iff too large, read-only or no run; otherwise it takes the first run; with no block left for the pointers the run stays taken, with the file as before and block 0 freed; on success block i of the file is first+i for all i below nblocks, exactly the run and, if needed, the first block free then are taken, and only bitmaps and the indirect block are written; an empty file stays well formed |
| `Fill.EmptyFile` | tools/e2lib.c:1018-1054 | an inode whose pointers are all zero, as truncation leaves it, is well formed |
| `WriteBoot.BootBlock` | tools/e2writeboot.c:216-230 | the fields, and a checksum that is the sum of the 63 values before it |
| `WriteBoot.FieldsAt` | tools/e2writeboot.c:216-230 | count, lbn, flags and checksum are at bytes 480, 488, 496 and 504 of the sector |
| `WriteBoot.Install` | tools/e2writeboot.c:193-232 | one of four outcomes, each with its whole new state: no room, and nothing has changed, iff the image is too large, the file system read-only or no group has a run; the run lost, only with an indirect block that cannot be had; else the file has the first run, the image is in it, no other block is written, and the boot block, with its fields and zeros, is written to block 0, or goes to a null pointer, which never happens from 31 image blocks on and always while the blocks used before, the groups and a small image together are fewer than 32 |
| `WriteBoot.Reinstall` | tools/e2writeboot.c:109-232 | for an existing file exactly its blocks are freed first; then the same four outcomes on the volume that leaves |
| `WriteBoot.Commit` | tools/e2writeboot.c:232-235 | the calls of an installation, made to the cache and flushed, go through with every block at its own place iff all blocks used lie in the first 2 GiB; then the device is what the cache showed, and the console, reading what its boot block names, gets the image; blocks beyond 2 GiB stay as they were |
| `WriteBoot.LbnRight` | tools/e2writeboot.c:221-221 | the sector number is right iff the file is in the first 2 GiB |
| `WriteBoot.LbnWraps` | tools/e2writeboot.c:221-221 | the number for any block: within each 4 GiB it counts from their start, and is negative in the second half |
| `WriteBoot.ConsoleReads` | tools/e2writeboot.c:220-232 | a device that has all that the cache shows boots: the sectors that its boot block names are the image, if the run begins in the first 2 GiB |
| `DirFile.Mknod` | tools/e2lib.c:922-1016 | the block written, as the block map stores it, is the first with room for the entry, with the entry added, or a new one with the entry alone; so exactly one record is added, or replaces one not in use, the records tile every block, and blocks of others keep their contents; unless the file system is read-only, or a further block is needed and cannot be had, and then the file is as before but its size may have gone up |
| `DirFile.Namei` | tools/e2lib.c:861-888 | block after block the first record with the name, in use or not, but for numbers that the program takes for negative; it changes nothing |
| `DirFile.LookIs` | tools/e2lib.c:861-888 | with numbers below 2^31 that is the first record of the whole directory with the name |
| `Directory.AddInBlock` | tools/e2lib.c:936-999 | in one block, byte by byte: finds room iff there is any; the entry is in the first record with room, in its place or behind it, that record is then no longer than needed, and all other bytes are as before |
| `Directory.InsertedLive` | tools/e2lib.c:922-1016 | the entries in use are those before, in order, and the new one |
| `Directory.InsertedFound` | tools/e2lib.c:861-888 | a name that no record in use had is found afterwards, even if a record not in use has it; other names in use are found as before |
| `Directory.ScanBlock` | tools/e2lib.c:864-879 | in one block, the first record with the name |
| `Directory.FieldsAre` | tools/e2lib.c:869-878 | a field is the 16 or 32 bits from its place on, low byte first |
| `Directory.NeedIsLeast` | tools/e2lib.c:948-961 | the length of a record is the least multiple of four with room for the header and the name |
| `Directory.FreshRecs` | tools/e2lib.c:864-879 | the bytes of a new root directory are its three records |
| `Directory.FreshFound` | tools/e2lib.c:864-879 | in them a name is found under its number |
| `Directory.ZerosNotTiled` | tools/e2lib.c:864-879 | in a block of zeros the record after any is the same record, so a scan does not reach the end; it is no sequence of records |
| `Console.Read` | cons.c:106-162 | the bytes at any offset and of any length, assembled from sectors; -1 iff they are not all on the device |
| `PointerCache.OffsetExact` | fs/ufs.c:189-190 | the 32-bit offset of a UFS block is right iff the block begins in the first 2 GiB, and the signed one of an ext2 block iff its number is below 2^31 |
| `PointerCache.FoundExact` | fs/ufs.c:186-199 | such a block, and no other, is read right on every device |
| `PointerCache.WalkExact` | fs/ufs.c:178-210 | a lookup through one index block is right on every device iff the block is such |
| `PointerCache.ShiftedAlias` | fs/ufs.c:189-190 | UFS block numbers 4 GiB apart have the same offset |
| `PointerCache.NearWalk` | fs/ufs.c:178-210 | where all index blocks on the way are such, the walk is the walk with true offsets |
| `PointerCache.PtrIs` | fs/ufs.c:202-209 | a pointer is the 32 bits at its place, low byte first |
| `PointerCache.LookupRight` | fs/ext2.c:230-243 | a lookup through buffers that uses no spoiled one is the walk |
| `PointerCache.LookupExact` | fs/ext2.c:230-243 | for anything but a hole, and for any lookup through one index block, it is right with all contents of the spoiled buffers iff it uses none |
| `PointerCache.SteadyExact` | fs/ext2.c:230-243 | exactly which lookups come to a given answer with all contents of the spoiled buffers |
| `PointerCache.UseUnsteady` | fs/ext2.c:230-243 | of those that use one, only some lookups of a hole through two or more index blocks |
| `PointerCache.StaleAnswer` | fs/ext2.c:230-243 | on any device: after a failed read, the answer for the block before is what the failed read left |
| `PointerCache.StaleHappens` | fs/ufs.c:182-199 | a device of two blocks and two lookups after which a third is wrong |
| `ExtReader.Reader.Blkno` | fs/ext2.c:206-298 | in any order of calls, and whatever failed reads and earlier mounts left in the buffers, the answer and the buffers are those of the walk through the buffers; that is the walk without them where it uses no spoiled buffer, and always while all index blocks of the file can be read and none has the number of a spoiled buffer |
| `ExtReader.MapExact` | fs/ext2.c:105-110 | where the index blocks have numbers below 2^31 that walk is the file's own map up to `ind2lim`, which is one index block short of the end of the double-indirect tree; beyond it is a hole |
| `ExtFile.Breadi` | fs/ext2.c:348-395 | for a file whose index blocks can be read: the range, adjusted to the size, read in runs, is the concatenation of the blocks as delivered one by one, or an error iff one cannot be read; a start too far does not end |
| `ExtFile.ShownExact` | fs/ext2.c:348-395 | what is delivered is the file iff no block delivered as zeros, in the shadow of a hole or beyond the limit of the map, has anything but zeros, and those delivered from another place have the same there |
| `ExtFile.ShownIs` | fs/ext2.c:348-395 | what is delivered for each block: zeros, block 0 of the partition, or the file's own |
| `ExtFile.SignHappens` | fs/ext2.c:378-379 | a file whose first block is taken for number -1 and whose hole is read from block 0 |
| `ExtFile.LimitHappens` | fs/ext2.c:246-290 | a file with data at block 65548, which is delivered as zeros |
| `ExtFile.ClampIs` | fs/ext2.c:358-359 | a range inside the file is kept, one that is not is cut after the block past the last, and, if the size is within a block of 4 GiB, to the negative of its start |
| `ExtFile.NoShadow` | fs/ext2.c:364-376 | nothing is in a shadow where no block of the file is block 1 |
| `ExtFile.ShadowedIs` | fs/ext2.c:364-376 | a block is in a shadow iff its number is its distance from a hole that begins a run and so are those between |
| `ExtFile.DugIs` | fs/ext2.c:364-376 | a hole is read from the device iff the block before it has the number -1 |
| `ExtFile.ShadowHappens` | fs/ext2.c:364-376 | a file that has one |
| `Ufs.File.BlockMap` | fs/ufs.c:123-213 | in any order of calls, with one cached block per level, the answer and the buffers are those of the walk through the buffers; without use of a spoiled one it is the walk with 32-bit offsets, and where the index blocks begin in the first 2 GiB it is the walk down the file's index tree; -1 for blocks left out by the wrapped count |
| `Ufs.MapNear` | fs/ufs.c:189-190 | where the index blocks on the way begin in the first 2 GiB, 32-bit offsets make no difference to the map |
| `Ufs.FarHappens` | fs/ufs.c:189-190 | a file system where a pointer is taken from block 1 instead of the block 4 GiB further |
| `Ufs.Levels` | fs/ufs.c:433-443 | the counts are the powers, wrapped to 32 bits |
| `Ufs.LevelsRight` | fs/ufs.c:433-443 | for blocks of up to 8 KiB, the largest that are mounted, the third count is right up to 4 KiB, and zero for 8 |
| `Ufs.NoneLeftOut` | fs/ufs.c:163-173 | no block is left out iff the count did not wrap |
| `Ufs.LocateIs` | fs/ufs.c:160-170 | the search finds the one tree and number with which the block number is composed |
| `Ufs.DigitsValue` | fs/ufs.c:203-208 | the indices are the digits of the number, each below NINDIR, and determine it |
| `Ufs.LeafFollows` | fs/ufs.c:178-210 | the chain of divisions down the tree is the walk along these indices |
| `Divide.Unsigned` | lib/divide.S:87-124 | ends with the quotient and the remainder for all 64-bit operands; dividing by zero gives 0 and the dividend |
| `Divide.GoRight` | lib/divide.S:108-117 | bit by bit, without overflow |
| `Divide.DivideSigned` | lib/divide.S:138-160 | quotient rounded toward zero and remainder with the sign of the dividend, modulo 2^64 |
| `Divide.QuotientFits` | lib/divide.S:138-160 | the signed quotient is right but for the one division that overflows |
| `Divide.DivisionLaw` | lib/divide.S:126-136 | (x/y)*y + x%y = x in 64-bit arithmetic, for all operands with y not zero |

## Left out

- Inflate.Inflate: windows are handed to the loader after decoding ends and not as they fill, because a flush has no effect on decoding; the order is kept.
- Unzip.Unzip: only gzip members; PKZIP headers, stored PKZIP entries and the reading of the ELF header (`is_loadable_elf`) are not modelled, the segments are given. Of data that do not decode, which are refused for want of input and which as a format error is not stated. Where tables are built with an unset element, the reads of `e` and `d` at that index are taken to do no harm.
- Huft.Build: what an unset element holds is not modelled.
- Window.Slide.BlockMove: memcpy is taken to read all its bytes before it writes any. Where the source lies above the target the two can overlap; the loader's own memcpy (lib/string.c:187-195) copies forward, which then comes to the same.
- BlockCache.Cache.BRead: a block that cannot be read leaves unspecified contents, and the access counter does not overflow.
- WriteBoot.Commit: ends with the flush; `ext2_close` (tools/e2lib.c:155-186) also writes the superblock and the group descriptors of every group straight to the device, past the cache, at an offset computed in 32 bits.
- BitReader.Reader.GetByte: the file is what its reads return, in whole blocks and so with the padding of the last one; a read that fails half-way counts as the end, and what it had put into the buffer by then is not modelled.
- Allocator.FileSystem.Balloc: bitmaps are blocks of 1024 bytes with the bits for no block set, as mke2fs leaves them; the program cannot handle larger blocks either.
- FileMap.Blkno: works on the blocks that the cache shows, and lists the calls it makes; that a cache to which these calls are made shows the same is BlockLog and BlockCache.
- WriteBoot.Install: the image is given in whole blocks, already padded with zeros; time stamps, mode bits, and the reads and writes of inode blocks before and after are not modelled, except that the blocks used before count.
- DirFile.Mknod: one directory; walking a path of several is not modelled, and names are at most 255 bytes. The length of a name has 16 bits, as in the program, so directories of file systems with the `filetype` feature, where the high byte is the type, are not sequences of records here.
- ExtReader.Reader.Blkno: a read that fails leaves anything in the buffer, and so does the memory of a new one.
- ExtFile.Breadi: files with extents (`ext4_breadi`) are not modelled; with an index block that cannot be read, only what each lookup gives is stated.
- Ufs.File.BlockMap: one open file; path lookup and `breadi` of UFS are not modelled. A buffer that was never filled is a null pointer in the program; here it has anything in it.
- Divide.DivideSigned: the 32-bit entry points are not modelled.
- Freeing the Huffman tables (`huft_free`) and running out of memory.
- Inode allocation and the inode table of e2lib (`ext2_ialloc`, `ext2_ifree`, `ext2_iget`, `ext2_iput`): easy members beside block allocation.
- `check_memory`, the console callbacks, PALcode, page tables and assembly entry: hardware.
- The interactive prompt, argument handling, printf and string helpers.
- ISO 9660 with Rock Ridge, and the tools sdisklabel, srmbootfat, isomarkboot, abootconf, objstrip, netabootwrap and b2c.
