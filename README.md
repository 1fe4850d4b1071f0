# fpgateletext cache model in Dafny

This project models three C programs from the fpgateletext repository.

- `cachemodel.c` is a software model of a direct-mapped, write-back cache. It has 128 lines of 16 bytes over a 24-bit address space: a 4-bit offset, a 7-bit line index and a 13-bit tag. It keeps three global arrays: `cached_data` (the bytes), `validate` (the tag of each line) and `dirty`. `read_mem` and `write_mem` compare the address's tag with the line's tag. On a hit they read or write the cached byte. On a miss they halt the CPU, write the line back if it is dirty, load the line, set the tag and the dirty flag, and restart the CPU. `cachemodel.dfy` holds this model. The pure functions `ReadStep` and `WriteStep` give the effect of one access on an abstract view of the 128 lines, and their contracts carry the hit, miss and frame properties. The class `Cache` holds the arrays (`data` is a 128 x 16 `array2`). Its methods `Read` and `Write` follow the C code statement by statement and are proved to agree with `ReadStep` and `WriteStep`. A ghost `Trace` records the calls to the four outside routines as `Halt`, `Store(address, bytes)`, `Load(address)` and `Restart` events.
- `reformat.c` re-lays the first 5760 bytes of `teletext-font.pbm` (read from the start of the file, header included) as 96 lines of 45 inverted bits. `reformat.dfy` gives a closed-form reference (`Reformatted`) saying which input byte each output position comes from. It proves that the four nested loops (`Reformat`) print exactly that reference.
- `soft/testpattern.c` writes 65536 decimal digits: byte `i` is `'0' + (i/40 + i%40) % 10`. `testpattern.dfy` proves that the loop produces this sequence. It also proves how the digits step along a row and from one row to the next.

The cache model follows `cachemodel.c` as written, including where a cleaner design would differ:

- The writeback passes the requesting address, not an address rebuilt from the evicted line's tag. A design that computed the evicted line's address would differ here. `WritebackGoesToRequestedRegion` states what the code does.
- A write hit does not set the dirty flag. `WriteHitKeepsLineClean` states this.
- A read miss clears the dirty flag. A write miss sets it.
- There is no valid bit, and the zero-initialised `validate` makes tag 0 resident on every line at start-up. So at cold start, addresses below 0x800 hit without any load (`ColdStartHits`). A write of `'A'` to address 0 at cold start therefore hits rather than misses. It leaves the line clean, and a later miss on 0x800 evicts the line without writing `'A'` back (`ColdStartWriteIsNeverWrittenBack`).

C's `>>` and `&` on a non-negative address are written as division and remainder by powers of two.

## Model

| member | source | states |
|---|---|---|
| `CacheModel.LineIndex` | cachemodel.c:17 | the line index `(address >> 4) & 0x7f` is below 128, so every line access is in bounds |
| `CacheModel.Offset` | cachemodel.c:18 | the offset `address & 0xf` is below 16, so every byte access within a line is in bounds |
| `CacheModel.Tag` | cachemodel.c:21 | the tag `address >> 11` of a 24-bit address fits in 13 bits |
| `CacheModel.ComposeDecode` | cachemodel.c:3-6 | tag, line index and offset together rebuild the address: the three fields tile the 24 bits |
| `CacheModel.DecodeCompose` | cachemodel.c:3-6 | decoding an address built from a tag, a line and an offset gives back each field |
| `CacheModel.SameTagAndLineSameBlock` | cachemodel.c:17-22 | two addresses with equal tag and line index lie in the same 16-byte block, and are equal if their offsets are too |
| `CacheModel.ColdStart` | cachemodel.c:10-12 | the zero-initialised globals: every line holds 16 zero bytes, is clean and has tag 0 |
| `CacheModel.ColdStartReadsZero` | cachemodel.c:18-22 | at cold start a read below 0x800 hits, returns 0, changes nothing and makes no calls |
| `CacheModel.ColdStartHits` | cachemodel.c:19-22 | at cold start an address hits if and only if it is below 0x800 |
| `CacheModel.MissEvents` | cachemodel.c:24-30 | a miss makes exactly one halt first and one restart last, with the load just before the restart, and a store of the requesting address and the old line bytes second only if the line is dirty |
| `CacheModel.ReadStep` | cachemodel.c:14-34 | a read touches only its own line; a hit returns the cached byte with no state change and no events; a miss reloads the line clean under the new tag and returns the loaded byte after the miss protocol; afterwards the address hits and the returned byte is the resident one |
| `CacheModel.WriteStep` | cachemodel.c:36-56 | a write touches only its own line; a hit changes exactly one byte and keeps tag and dirty flag; a miss loads the line, overwrites the byte, sets the new tag and marks it dirty after the miss protocol; afterwards the address hits and holds the written byte |
| `CacheModel.ReadAfterWrite` | cachemodel.c:42-53 | reading an address right after writing it hits, returns the written byte and changes nothing |
| `CacheModel.RepeatedRead` | cachemodel.c:21-29 | a second read of the same address hits, returns the same byte and changes nothing |
| `CacheModel.WriteHitKeepsLineClean` | cachemodel.c:42-46 | a write hit on a clean line leaves it clean |
| `CacheModel.DistinctLinesCommute` | cachemodel.c:39-54 | writes to addresses on different lines commute in their effect on the lines |
| `CacheModel.WritebackGoesToRequestedRegion` | cachemodel.c:25-26 | the writeback on a dirty miss carries the requesting address, whose tag differs from the evicted line's |
| `CacheModel.ColdStartWriteIsNeverWrittenBack` | cachemodel.c:42-54 | at cold start a write to 0 hits and leaves the line clean, and a write to 0x800 then evicts it with only halt, load and restart, with no store |
| `CacheModel.Cache.constructor` | cachemodel.c:10-12 | the arrays are freshly allocated, start as the zero-initialised globals, and the trace is empty, so each instance is independent |
| `CacheModel.Cache.LoadLine` | cachemodel.c:27 | the loaded 16 bytes replace one row of `cached_data` and every other row is unchanged |
| `CacheModel.Cache.Read` | cachemodel.c:14-34 | `read_mem` on the arrays returns the byte of `ReadStep`, leaves its lines and appends its events to the trace |
| `CacheModel.Cache.Write` | cachemodel.c:36-56 | `write_mem` on the arrays leaves the lines of `WriteStep` and appends its events to the trace |
| `Reformat.Index` | reformat.c:21 | every index `row*960 + col*6 + j*96 + i` is at most 5662, inside the 5760-byte buffer |
| `Reformat.Invert` | reformat.c:23 | the printed bit is '1' exactly when the input byte is '0', and '0' otherwise |
| `Reformat.Reformatted` | reformat.c:14-27 | the output has 96 lines of 46 characters; it holds only '0', '1' and newlines, and the newlines are exactly at the end of each line, after 45 bits |
| `Reformat.LineLayout` | reformat.c:17-21 | the k-th bit of glyph (row, col)'s line comes from j = 8 - k/5 and i = 4 - k%5, so both pixel loops run downwards |
| `Reformat.PixelAt` | reformat.c:14-23 | the character the loops print at (row, col, j, i) is the reference's character at that output position |
| `Reformat.Reformat` | reformat.c:14-27 | the four nested loops print exactly the reference output |
| `TestPattern.PatternByte` | soft/testpattern.c:11-13 | byte i is the digit `(i/40 + i%40) % 10`, always in '0'..'9' |
| `TestPattern.Generate` | soft/testpattern.c:9-15 | the loop writes 65536 bytes, byte i being `PatternByte(i)` |
| `TestPattern.NextInRow` | soft/testpattern.c:11-13 | within a 40-byte row each byte is the previous digit plus one, mod 10 |
| `TestPattern.NextRow` | soft/testpattern.c:11-13 | byte i+40 is byte i's digit plus one, mod 10 |
| `TestPattern.DiagonalConstant` | soft/testpattern.c:11-13 | byte i+40 equals byte i+1 when i+1 does not start a new row |

## Left out

- `halt_cpu`, `restart_cpu`, `store_to_sdram` and `load_from_sdram` have no bodies in the modelled files. They appear only as trace events. The 16 bytes a load delivers are the parameter `fill`.
- The hardware timing and concurrency meaning of halt and restart are not modelled. The speculative read at cachemodel.c:18 is performed but its value is used only on a hit, as in the source.
- Negative addresses and addresses of 2^24 or more are outside the model. Right-shifting a negative `int` is implementation-defined in C.
- `validate` is an `int` array in C. The model proves that every tag it holds stays below 2^13, so its width never matters.
- Only the cache entry points are modelled. The backing store's contents are not, so the model does not say what a later load would return after a writeback.
- File I/O in reformat.c and soft/testpattern.c is left out: `fopen` (including the unchecked result and the "rw" mode), the unchecked `fread`, `fclose`, `printf` and `fprintf`. The font buffer is a given sequence of exactly 5760 characters, so a short read is not modelled. The outputs are sequences of characters standing for the bytes written.
