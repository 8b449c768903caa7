# Verified model of the kernel's memory, screen, decompression and task code

A small x86 operating system, kept in several variants, is modelled here in Dafny. The model covers the parts of it
whose correctness is an argument and not a glance:

* the **buddy allocator**: a complete binary tree in an array, a descent to allocate, a climb to repair, a climb to
  coalesce (`Arith`, `Bits`, `BuddyTree`, `BuddyAllocator`);
* the **window compositor**: a stack of sheets, a map of which sheet owns each pixel, a screen, all three repaired in
  place after every move, partly by 4-byte words (`Scene`, `SheetRows`, `SheetPaint`, `SceneRepair`, `ZOrder`,
  `SheetRecords`, `Compositor`);
* the **tek decompressor**: two variable-length number codes, an LZ decoder with overlapping copies, the distance
  cache of a second one, and an adaptive binary range decoder (`TekNumbers`, `TekLz`, `TekCache`, `RangeCoder`,
  `TekModels`, `TekCall`, `TekChange`, `TekRange`);
* the **free lists**: first fit with coalescing (`FirstFit`), and best and worst fit kept in order by three quicksorts
  with a hole (`HoleSort`, `JoinPass`, `SizedFit`);
* the **scheduler**: multi-level round robin (`TaskLists`, `Scheduler`);
* two **concurrent protocols** as step systems over any number of tasks and any interleaving: the test-and-set and
  swap locks (`Locks`), and the readers and writers over the atomic semaphore call (`ReadersWriters`).

`Basics` and `FreeLists` hold what several of them share.

Code that works in place is modelled in place: classes with the C structures' fields, arrays, and the same loops. Each
such method is proved against a specification over values (`Canon`, `Owner`, `Groups`, `Interval`, `Cycle`, ...), and
what the code is for is proved about that specification.

## How the main results are put together

* **Buddy allocator.** `Valid` says that every word of the array is `Canon` of the set of live blocks: 0 at a live
  block, the whole length below one and where nothing is live, the larger child elsewhere. `CanonIsFree` and `FreeShows`
  say what that is: outside live blocks, the size of the largest aligned free block. All methods keep `Valid`, so it holds in every
  reachable state; success and failure of an allocation, the lowest offset, what a release releases, and the exact
  return of the array are statements about it.
* **Compositor.** `Consistent` says, in the fields of the sheets' records, that wherever some shown sheet is opaque the
  map names the highest such sheet and the screen has its byte (`PixelIsRight`). That is agreement with the naive
  painter's `Owner` (`SheetRecords.RightIsShows`), over which the repairs are proved. All operations keep it, although
  each repaints only clipped rectangles and partial ranges of heights.
* **Range decoder.** `DecodeIffInInterval`: the decoder returns some bits if and only if the code and the bytes taken
  are a number of those bits' nested interval, for any model that gives the next probability from the bits so far.
  `TekCall` is a machine over the bits of one call, in which a model may be changed by further bits of the same stream;
  its `History` is such a model. `RdGet1` takes exactly the bits that decoding under this history gives and ends with
  the machine's tables, number or failure, so `CallIsInterval` and `EncodedComesBack` hold of the call.
* **Scheduler.** `Consistent` ties the lists to the task that the processor executes, an extra field `tr` set by the
  far jumps. `TaskCtl.Run` keeps it if and only if the move is none of those described in `Upsets`.

## Where the code does not do what it is for

Each of these is modelled as the code has it, with the exact condition under which it works.

* `sheet_updown` clamps a requested height to top + 1 (sheet.c:207), which suits a hidden sheet only. For a shown
  sheet the loop pulls in the entry above the z-order, and the order survives if and only if that entry happens to be
  the sheet itself (`ZOrder.RaisePastTop`); `ZOrder.RaisedAndLost` gets there from an empty z-order. `UpDown`
  therefore asks that a shown sheet goes no higher than top.
* The word rows of `sheet_refreshsub` equal the byte rows if and only if the word count is not negative or nothing is
  touched (`SheetRows.WordRowExact`). For short spans the trailing loop starts before the span. `TailOk` asks only that
  the columns touched then are still on the sheet and on the screen; `TailOkWhen` gives simple conditions for it.
* Moving the current task to another level (as bootpack.c:76 does at start-up) leaves the level's `now`
  at 1 with `running` at 0 after the next switch (mtask.c:189). That does no harm until a task is put on that level
  again; `TaskCtl.Run` states exactly when a move makes the lists and the processor disagree, and
  `Scheduler.EmptiedLevelUpset` gets there from start-up.
* The readers and writers exclude each other in every interleaving if and only if `read_count` starts at 0. The set-up
  program adds one to that word (initshr.c:10 with console.c:796) instead of clearing it, so after it the programs are
  safe if and only if the word held -1 (`ReadersWriters.SetUpSafeIff`).
* The joining pass of the size-ordered free lists copies entry m + 1 over everything after a joined pair
  (harib27f memory.c:180), so it makes one join at most (`JoinPass.MergedOnce`), keeps the other entries if and only if
  at most one follows (`MergedWorksIff`), and never joins a block with both neighbours (`MergedMissesChain`). For a
  block put into a tidy list the condition is how many free blocks lie above it (`FreedAfter`, `FreedBefore`).
* The range decoder starts outside its ranges, with the code equal to the range, if and only if the first four bytes
  of the stream are all 0xff (`TekRange.RangeDecoder.constructor`).
* The second number code is a bijection, but its loop cuts the digits to 31 bits: numbers come back if and only if they
  are below 2^31 + 270549120 (`TekNumbers.S7RoundTrip`).
* A failed 4K allocation returns -4096, the unit result -1 shifted (buddy.c:76), and neither -1 nor 0.

## Model

| member | source | states |
|---|---|---|
| `Bits.Check` | tolset/buddy_system/haribote/buddy.c:3-5 | `!(x & (x - 1))` holds exactly of the powers of two |
| `Bits.FixSize` | tolset/buddy_system/haribote/buddy.c:7-14 | The five smearing steps give the least power of two above a 32-bit size |
| `Bits.SmearDouble` | tolset/buddy_system/haribote/buddy.c:8-12 | One step `x or x >> w` doubles the window over which each bit of x is spread downwards |
| `BuddyAllocator.Rounded` | tolset/buddy_system/haribote/buddy.c:40-45 | Requests of 0 or less become 1, powers of two stay, all others go up to the next power of two, never to twice the request or more |
| `BuddyTree.NextLen` | tolset/buddy_system/haribote/buddy.c:23-28 | Along the array the node length halves exactly where i + 1 is a power of two |
| `BuddyTree.EmptyIsFresh` | tolset/buddy_system/haribote/buddy.c:16-29 | The words are right for no live block exactly when they are those of a new arena |
| `BuddyAllocator.Buddy.constructor` | tolset/buddy_system/haribote/buddy.c:16-29 | A new arena of any power of two satisfies the invariant with no live block |
| `BuddyTree.CanonIsFree` | tolset/buddy_system/haribote/buddy.c:31-112 | Outside live blocks there is, under each node, an aligned free block as long as its word says |
| `BuddyTree.FreeShows` | tolset/buddy_system/haribote/buddy.c:31-112 | And every aligned free block under a node is at most as long as its word |
| `BuddyTree.RootIsLargest` | tolset/buddy_system/haribote/buddy.c:47-49 | So the root's word is the length of the largest aligned free block in the arena |
| `BuddyTree.LiveByWords` | tolset/buddy_system/haribote/buddy.c:136-143 | The words alone give away the live nodes: 0 with both children non-zero, or 0 at a unit |
| `BuddyTree.DescentStep` | tolset/buddy_system/haribote/buddy.c:51-61 | From a node with room one child has room, the left one whenever it holds the lowest fitting block: the inner `return -1` is never reached |
| `BuddyTree.Descend` | tolset/buddy_system/haribote/buddy.c:51-61 | Every aligned run of a power-of-two length inside a node's span is the span of a node below it, reached by halving |
| `BuddyAllocator.Buddy.Search` | tolset/buddy_system/haribote/buddy.c:51-61 | The descent ends at a free node of the wanted length, and no free block of that length starts lower |
| `BuddyAllocator.Buddy.Alloc` | tolset/buddy_system/haribote/buddy.c:31-72 | Succeeds exactly when an aligned free block of the rounded size exists, returns the lowest such offset, makes just that block live; otherwise -1 and nothing changes; the invariant is kept |
| `BuddyAllocator.Buddy.Alloc4k` | tolset/buddy_system/haribote/buddy.c:74-77 | The same in bytes, for any request that fits an int after rounding up, negative ones too: the lowest address that fits, aligned to 4096, or -4096 for failure |
| `BuddyAllocator.Buddy.RepairAfterTake` | tolset/buddy_system/haribote/buddy.c:66-69 | The walk up makes every word above the taken node right again and changes no other word's meaning |
| `BuddyTree.Take` | tolset/buddy_system/haribote/buddy.c:63-69 | Zeroing a free node's word leaves all words right except those above it |
| `BuddyTree.FirstZero` | tolset/buddy_system/haribote/buddy.c:89-94 | The first zero met on the way up from a unit is the live block that holds it |
| `BuddyTree.Drop` | tolset/buddy_system/haribote/buddy.c:96 | Restoring a released node's word leaves all words right except those above it |
| `BuddyTree.Merge` | tolset/buddy_system/haribote/buddy.c:105-110 | Two halves are both full exactly when nothing below the parent is live, so the sum test coalesces just then |
| `BuddyAllocator.Buddy.RepairAfterDrop` | tolset/buddy_system/haribote/buddy.c:98-111 | The walk up of a release makes every word right for the remaining live blocks |
| `BuddyAllocator.Buddy.Free` | tolset/buddy_system/haribote/buddy.c:79-112 | Of any address whatever: a live block stays live exactly when it does not hold that unit; if none holds it, no word changes |
| `BuddyAllocator.LiveBlocksDisjoint` | tolset/buddy_system/haribote/buddy.c:31-72 | Live blocks lie in the arena, are aligned to their own power-of-two length and share no unit |
| `BuddyTree.UsedNext` | tolset/buddy_system/haribote/buddy.c:132-144 | Each live node adds its whole length, once, to the units in use |
| `BuddyAllocator.Buddy.Total` | tolset/buddy_system/haribote/buddy.c:126-146 | Returns the units outside all live blocks times 4096, each live block counted once |
| `BuddyAllocator.WordsDetermined` | tolset/buddy_system/haribote/buddy.c:16-112 | Equal live blocks, equal words: the whole array is a function of the set of live blocks |
| `BuddyAllocator.FreeUndoesAlloc` | tolset/buddy_system/haribote/buddy.c:63-69 | Allocating a free block and releasing any unit of it restores the set of live blocks |
| `BuddyAllocator.AllocThenFree` | tolset/buddy_system/haribote/buddy.c:74-112 | On the object: a block given out and given back leaves every word as it was |
| `BuddyAllocator.FreeingAllRestores` | tolset/buddy_system/haribote/buddy.c:84-111 | Releases that hit every live block, in any order, leave no live block, and then the words are those of a new arena |
| `BuddyAllocator.FreeAll` | tolset/buddy_system/haribote/buddy.c:79-112 | On the object: giving back an address in each live block, in any order, restores the array of a new arena |
| `Scene.OwnerIsTopmost` | tolset/buddy_system/haribote/sheet.c:66-113 | The naive painter's owner of a pixel is the topmost sheet opaque there |
| `Scene.Lowered` | tolset/buddy_system/haribote/sheet.c:219-225 | When a sheet goes down, a pixel's owner changes only where it was that sheet, and then to one it went below |
| `Scene.Hidden` | tolset/buddy_system/haribote/sheet.c:226-237 | When a sheet goes away, a pixel's owner changes only where it was that sheet, and then to one below |
| `Scene.Raised` | tolset/buddy_system/haribote/sheet.c:239-256 | When a sheet goes up or appears, a pixel's owner changes only to that sheet |
| `Scene.Slid` | tolset/buddy_system/haribote/sheet.c:275-279 | When a sheet slides, owners change only where it was or where it is now opaque |
| `SheetRows.Sid4` | tolset/buddy_system/haribote/sheet.c:82 | `sid or sid << 8 or sid << 16 or sid << 24` is the word of four bytes sid |
| `SheetRows.FillWords` | tolset/buddy_system/haribote/sheet.c:81-90 | Whole-word stores give the plain byte row when both ends are on word boundaries |
| `SheetRows.FillKeyed` | tolset/buddy_system/haribote/sheet.c:102-111 | A row with a transparent colour paints just the pixels of other colours |
| `SheetRows.WordMatches` | tolset/buddy_system/haribote/sheet.c:159 | A map word equals the four-byte sid exactly when each of its bytes is sid |
| `SheetRows.CopyWord` | tolset/buddy_system/haribote/sheet.c:159-176 | One word of the row copies exactly the pixels that the map gives to the sheet, on either path |
| `SheetRows.CopyWords` | tolset/buddy_system/haribote/sheet.c:142-183 | Head bytes, words and tail bytes together write what a plain byte row writes, from the column where they really start |
| `SheetRows.WordRowExact` | tolset/buddy_system/haribote/sheet.c:142-183 | That is the plain byte row of the span, for all maps, screens and buffers, exactly when the word count is not negative or nothing is touched |
| `SheetRows.WordRowOverrun` | tolset/buddy_system/haribote/sheet.c:144-183 | Otherwise there are a map, a screen and a buffer for which the two rows differ |
| `SheetPaint.TailOkWhen` | tolset/buddy_system/haribote/sheet.c:142-183 | Simple conditions on a sheet and rectangle under which no word row leaves the sheet or the screen |
| `SheetPaint.PaintSheet` | tolset/buddy_system/haribote/sheet.c:67-112 | One sheet of a map repaint: inside the clipped rectangle exactly its opaque pixels get its id, all else stays |
| `SheetPaint.CopySheet` | tolset/buddy_system/haribote/sheet.c:128-196 | One sheet of a redraw: every pixel of the rectangle that the map gives to it gets its colour, and nothing else gets any other colour |
| `SceneRepair.LowerRepairs` | tolset/buddy_system/haribote/sheet.c:224-225 | Repainting the map from height + 1 up and redrawing heights height + 1 to old repairs map and screen after a lowering |
| `SceneRepair.HideRepairs` | tolset/buddy_system/haribote/sheet.c:234-236 | Repainting everything and redrawing what was below repairs them after a hiding |
| `SceneRepair.RaiseRepairs` | tolset/buddy_system/haribote/sheet.c:255-256 | Repainting from the sheet up and redrawing that one layer repairs them after a raising or an appearance |
| `SceneRepair.SlideRepairs` | tolset/buddy_system/haribote/sheet.c:276-279 | The two repaints and two redraws of a slide repair them |
| `SceneRepair.Covered` | tolset/buddy_system/haribote/sheet.c:57-115 | If the lowest sheet has no transparent colour and covers the screen, map and screen agree with the naive painter at every pixel |
| `SheetRecords.TopSheetIs` | tolset/buddy_system/haribote/sheet.c:71-108 | In the fields of the records: sheet k owns a pixel exactly when its rectangle holds it with a colour that is not its transparent one, and no higher sheet does so |
| `SheetRecords.OwnerIsTopSheet` | tolset/buddy_system/haribote/sheet.c:71-108 | That sheet, and no other, is the naive painter's owner of the pixel |
| `SheetRecords.RightIsShows` | tolset/buddy_system/haribote/sheet.c:57-199 | Map and screen are as the records say exactly when they agree with the naive painter |
| `ZOrder.ShiftUp` | tolset/buddy_system/haribote/sheet.c:219-222 | The upward shift loops move entries and their heights by one and touch nothing else |
| `ZOrder.ShiftDown` | tolset/buddy_system/haribote/sheet.c:229-232 | The downward shift loops likewise |
| `ZOrder.MovedOrdered` | tolset/buddy_system/haribote/sheet.c:215-254 | After a move the z-order is again duplicate-free with each sheet's height its index, hidden sheets at -1 |
| `ZOrder.MovedShown` | tolset/buddy_system/haribote/sheet.c:215-254 | The stack shown is the old one with the sheet taken out and put in at its new height |
| `ZOrder.MovedKeepsOrder` | tolset/buddy_system/haribote/sheet.c:215-254 | A move shows and hides no other sheet, and of any two others the higher one stays the higher |
| `ZOrder.RaisePastTop` | tolset/buddy_system/haribote/sheet.c:207-245 | A shown sheet sent to top + 1 leaves the z-order intact exactly when the entry above the top happened to be that sheet |
| `ZOrder.HideThenRaisePastTop` | tolset/buddy_system/haribote/sheet.c:207-245 | So the order is lost whenever a sheet below the top was hidden and then another one below the top goes to top + 1 |
| `ZOrder.RaisedAndLost` | tolset/buddy_system/haribote/sheet.c:201-259 | From an empty z-order: three sheets shown, the lowest hidden, the next sent to top + 1, and the order is lost |
| `Compositor.SheetCtl.constructor` | tolset/buddy_system/haribote/sheet.c:7-30 | A new control has nothing shown and is consistent |
| `Compositor.SheetCtl.PixelIsRight` | tolset/buddy_system/haribote/sheet.c:57-199 | In a consistent state: where sheet k is the highest whose rectangle holds the pixel with a colour other than its transparent one, the map has k and the screen has that byte of its buffer |
| `Compositor.SheetCtl.SetBuf` | tolset/buddy_system/haribote/sheet.c:48-55 | A sheet gets a buffer: only that sheet of the stack changes, and map and screen stay right if it is hidden |
| `Compositor.SheetCtl.RefreshMap` | tolset/buddy_system/haribote/sheet.c:57-115 | In the clipped rectangle the map names the highest sheet from h0 up that is opaque by its record, where there is one; elsewhere it stays |
| `Compositor.SheetCtl.RefreshSub` | tolset/buddy_system/haribote/sheet.c:117-199 | Pixels of the rectangle whose map byte names a shown sheet of heights h0 to h1 get the byte of that record for the pixel; every other byte stays or is already what its map entry says |
| `Compositor.SheetCtl.MoveDown` | tolset/buddy_system/haribote/sheet.c:217-225 | The branch for a lower height restacks and keeps map and screen equal to the naive painter |
| `Compositor.SheetCtl.TakeOut` | tolset/buddy_system/haribote/sheet.c:226-237 | The branch that hides restacks and keeps them so |
| `Compositor.SheetCtl.MoveUp` | tolset/buddy_system/haribote/sheet.c:239-256 | The branch for a greater height restacks and keeps them so |
| `Compositor.SheetCtl.PutIn` | tolset/buddy_system/haribote/sheet.c:246-256 | The branch that shows a hidden sheet restacks and keeps them so |
| `Compositor.SheetCtl.UpDown` | tolset/buddy_system/haribote/sheet.c:201-259 | The new height is the request, or -1 or top + 1 if it lies outside these; no other sheet appears or goes or changes its order with a third; the stack is the old one with that sheet moved, and map and screen are still right |
| `Compositor.SheetCtl.Slide` | tolset/buddy_system/haribote/sheet.c:269-282 | A slide changes only that sheet's place, and map and screen still equal the naive painter |
| `Compositor.SheetCtl.Refresh` | tolset/buddy_system/haribote/sheet.c:261-267 | If the screen is wrong only in part of what the sheet owns, redrawing that part makes it right |
| `Compositor.SheetCtl.Free` | tolset/buddy_system/haribote/sheet.c:284-291 | A freed sheet is off the stack, and map and screen are right without it |
| `TekNumbers.PushIsSum` | tolset/buddy_system/haribote/tek.c:21 | The low bit that ends a number never collides with the next byte: `s << 7 or b` is 128 s + b in the register |
| `TekNumbers.GetNumS7s` | tolset/buddy_system/haribote/tek.c:14-26 | The loop reads exactly the bytes of one number and returns the number that the specification gives |
| `TekNumbers.S7sValue` | tolset/buddy_system/haribote/tek.c:14-26 | For any terminated bytes the result is the big-endian base-128 value of their upper seven bits, modulo 2^32 |
| `TekNumbers.S7sRoundTrip` | tolset/buddy_system/haribote/tek.c:14-26 | Encoding a number below 2^31 and reading it back gives the number and takes just its bytes |
| `TekNumbers.GetNumS7` | tolset/buddy_system/haribote/tek.c:120-135 | The loop of the second code returns what the specification gives |
| `TekNumbers.S7Bijection` | tolset/buddy_system/haribote/tek.c:120-135 | The second code is a bijection between numbers and terminated byte strings: no number has two encodings |
| `TekNumbers.S7Value` | tolset/buddy_system/haribote/tek.c:120-135 | Any terminated string is read as its digits cut to 31 bits plus its carries, cut to 32 |
| `TekNumbers.S7ReadsIff` | tolset/buddy_system/haribote/tek.c:120-135 | It is read as its value under that bijection exactly when the digits fit 31 bits and the value 32 |
| `TekNumbers.S7RoundTrip` | tolset/buddy_system/haribote/tek.c:120-135 | The numbers that come back, with just their own bytes taken, are those below 2^31 + 128 + 128^2 + 128^3 + 128^4 |
| `TekLz.CopyBackRepeats` | tolset/buddy_system/haribote/tek.c:90-93 | A copy keeps what was there, and every new byte equals the one `dist` before it, in its own output too |
| `TekLz.CopyBackUnique` | tolset/buddy_system/haribote/tek.c:90-93 | Only one continuation of the output has that property |
| `TekLz.CopyBytesBack` | tolset/buddy_system/haribote/tek.c:90-93 | The byte loop writes that continuation, overlapping or not |
| `TekLz.HeaderIs` | tolset/buddy_system/haribote/tek.c:62-65 | In numbers: low nibble literals, high nibble copies, each by a base-128 number of its own instead if it is 0 |
| `TekLz.CopyIs` | tolset/buddy_system/haribote/tek.c:72-85 | In numbers: one more than the three bits of the nibble, carried on base 128 if its low bit is 0, back; one more than the high nibble, or than a number if it is 0, long |
| `TekLz.GetHeader` | tolset/buddy_system/haribote/tek.c:62-65 | The group header's two counts, from nibbles or numbers |
| `TekLz.GetCopy` | tolset/buddy_system/haribote/tek.c:72-85 | A copy's distance and length, from nibbles or continued numbers |
| `TekLz.LzRestoreStk1` | tolset/buddy_system/haribote/tek.c:57-99 | Any stream on which C stays inside its buffers: status 0 with exactly the specified output, or status 1 for a copy from before the start |
| `TekLz.CopyStep` | tolset/buddy_system/haribote/tek.c:71-94 | One encoded copy does to the output just what the copy stands for |
| `TekLz.GroupStep` | tolset/buddy_system/haribote/tek.c:62-70 | One encoded header with its literals likewise |
| `TekLz.RoundTrip` | tolset/buddy_system/haribote/tek.c:57-99 | Decoding the encoding of any groups of literals and copies gives their LZ77 expansion, whatever follows in the stream |
| `TekLz.LzRestoreEncoded` | tolset/buddy_system/haribote/tek.c:57-99 | On the buffer: an encoded stream leaves exactly that expansion in it, with status 0 |
| `TekCache.PushedKeeps` | tolset/buddy_system/haribote/tek.c:203-211 | Naming a cached distance only moves it to the front; any other drives out the oldest |
| `TekCache.PushedPlaces` | tolset/buddy_system/haribote/tek.c:203-211 | Entry by entry: the distance first, those from before its place one later, those from after it where they were |
| `TekCache.Remember` | tolset/buddy_system/haribote/tek.c:203-211 | The nested shifts leave the distance first, the entries before its old place one place later, and those after it unmoved |
| `TekCache.ShortHeader` | tolset/buddy_system/haribote/tek.c:187-202 | An odd low nibble in numbers: places 0 to 3, farther, nearer, or 1 or 2 back, with the length from the high nibble or a number and 17 |
| `TekCache.LongHeader` | tolset/buddy_system/haribote/tek.c:187-202 | An even low nibble in numbers: eight times the number and one, and half the nibble, less 5, back |
| `TekCache.GetCopy` | tolset/buddy_system/haribote/tek.c:187-211 | The whole header of a copy in the second format, offsets and lengths wrapped to signed 32 bits, with the cache updated in place |
| `TekCache.RoundTrip` | tolset/buddy_system/haribote/tek.c:187-211 | However a distance is spelt (cached, farther, nearer, outright), it is read back with its length, any positive int, and stands first in the cache |
| `RangeCoder.CutBounds` | tolset/buddy_system/haribote/tek.c:399 | For every refilled range (2^24 or more) and probability 1 to 65535, both sides of the cut keep at least 256 |
| `RangeCoder.CutShare` | tolset/buddy_system/haribote/tek.c:399 | The lower side has exactly the share p / 2^16 of the masked range, rounded down, and is no narrower for a larger p |
| `RangeCoder.TwoRefills` | tolset/buddy_system/haribote/tek.c:394-397 | So at most two refills are needed for the next bit |
| `RangeCoder.RefillShifts` | tolset/buddy_system/haribote/tek.c:394-397 | The refill loop shifts in bytes until the range is 2^24 or more, keeps code below range and both within 32 bits |
| `RangeCoder.DecodeBitIs` | tolset/buddy_system/haribote/tek.c:394-408 | One bit in numbers: 1 just when code with its new bytes is below p / 2^16 of the masked range, and what is left of code and range |
| `RangeCoder.IntervalInside` | tolset/buddy_system/haribote/tek.c:394-408 | The interval of some bits lies inside the range that coding started with |
| `RangeCoder.DecodesInterval` | tolset/buddy_system/haribote/tek.c:394-408 | If the number lies in the interval of some bits, exactly these bits are decoded |
| `RangeCoder.DecodedInInterval` | tolset/buddy_system/haribote/tek.c:394-408 | Whatever bits are decoded, the number taken lies in their interval |
| `RangeCoder.DecodeIffInInterval` | tolset/buddy_system/haribote/tek.c:394-408 | Both: decoding gives the unique bits in whose nested interval the code and the bytes after it lie, and no others |
| `RangeCoder.RoundTrip` | tolset/buddy_system/haribote/tek.c:394-408 | Interval encoding followed by decoding is the identity, for every model of probabilities |
| `RangeCoder.MasksAreGood` | tolset/buddy_system/haribote/tek.c:399 | The two range masks of the formats leave at least 2^24 of any refilled range |
| `TekModels.SetBm5IsGood` | tolset/buddy_system/haribote/tek.c:324-336 | Every setting with t up to 14 and m from 1 to 16 gives limits and a grain that keep probabilities between 1 and 65535 |
| `TekModels.SetBm5Masks` | tolset/buddy_system/haribote/tek.c:326-334 | The masks of a setting: grain from bit t up, limits m + t bits from either end |
| `TekModels.SetBm5Limits` | tolset/buddy_system/haribote/tek.c:326-334 | In numbers: grain 2^t, limits 2^min(m+t,16) - 2^t from 0 and from 2^16 |
| `TekModels.AdaptedMoves` | tolset/buddy_system/haribote/tek.c:403-407 | A 1 moves the word up and a 0 down, by 1/2^m of its distance to the end, cut to a multiple of 2^t |
| `TekModels.LimitedIs` | tolset/buddy_system/haribote/tek.c:379-391 | Below the lower limit a word becomes that limit, above the upper that, between them it is cut to a multiple of 2^t |
| `TekCall.Step` | tolset/buddy_system/haribote/tek.c:355-414 | One bit of a call, whatever it is for (the call itself, or a change of the model in its midst), leaves tables and models in order |
| `TekCall.AsksAtMost` | tolset/buddy_system/haribote/tek.c:355-414 | A call asks for no more than eleven bits for each of its own, so it comes to an end |
| `TekCall.TakenOne` | tolset/buddy_system/haribote/tek.c:355-414 | Bits decoded one at a time, each with the probability that the machine then gives, are bits decoded under the model of the whole history |
| `TekCall.CompleteIsUnique` | tolset/buddy_system/haribote/tek.c:355-414 | A stream gives a call just one run of bits, and leaves it at just one place |
| `TekCall.CallIsInterval` | tolset/buddy_system/haribote/tek.c:355-414 | A call takes some bits, those of changes of models among them, exactly when the code and the bytes after it lie in their nested interval under the call's own history |
| `TekCall.CallRoundTrip` | tolset/buddy_system/haribote/tek.c:355-414 | Whatever complete run is encoded under a call's own history, with all changes of models in it, the call takes just that run and just its bytes |
| `TekCall.DoneInRange` | tolset/buddy_system/haribote/tek.c:355-414 | The number of a call that is done has its prefix and as many bits after it as were asked for |
| `TekCall.FitsWhen` | tolset/buddy_system/haribote/tek.c:355-414 | A call whose code tree lies before or after the tables for changes, under models that there are, keeps to its own entries |
| `TekChange.WhereBitsAre` | tolset/buddy_system/haribote/tek.c:361-375 | For each phase of a call, which word of the probability structure and which model the next bit uses |
| `TekChange.ModelMoves` | tolset/buddy_system/haribote/tek.c:410-411 | A grouping mask of i ones moves on to the next model just when the bits to go are a multiple of 2^i |
| `TekChange.NumberOfCall` | tolset/buddy_system/haribote/tek.c:355-414 | The bits of the number are its own bits, most significant first, after the prefix; bits for changes of models are not among them |
| `TekChange.ChangeRefused` | tolset/buddy_system/haribote/tek.c:365-369 | A change that does not begin with a 1 fails the call |
| `TekChange.ChangeKept` | tolset/buddy_system/haribote/tek.c:370-391 | 1 and 1 keep t and m, remember that, count anew, limit the own word, and change nothing else but tables for changes |
| `TekChange.ChangeAnew` | tolset/buddy_system/haribote/tek.c:370-391 | 1 and 0 and two numbers of four bits set the model's t and m, 0 standing for m = 16 and t = 15 failing the call, count anew, limit the own word, and change nothing else but tables for changes |
| `TekRange.RangeDecoder.GetBit` | tolset/buddy_system/haribote/tek.c:394-408 | One bit: at most two bytes taken, code below range, the bit and state of the specification; the word rises after a 1 and falls after a 0 by its distance to that end, shifted right by m and cut to 2^t |
| `TekRange.RangeDecoder.constructor` | tolset/buddy_system/haribote/tek.c:457-519 | The set-up of each format: code, range, words and models; the decoder is in its ranges exactly when the first four bytes are not all 0xff |
| `TekRange.RangeDecoder.GetFour` | tolset/buddy_system/haribote/tek.c:370-373 | A call for the four bits of a new t or m follows the machine and touches the tables for changes alone |
| `TekRange.RangeDecoder.ChangeModel` | tolset/buddy_system/haribote/tek.c:363-377 | A counter at 0: flag, kept parameters or new t and m, just as the machine says for the bits taken; failure exactly when it fails |
| `TekRange.RangeDecoder.CountDown` | tolset/buddy_system/haribote/tek.c:361-391 | The model counts down, may be changed, and puts the word between its limits, in step with the machine |
| `TekRange.RangeDecoder.Turn` | tolset/buddy_system/haribote/tek.c:361-411 | One turn of the loop, with whatever change of model is due, is one own bit of the machine |
| `TekRange.RangeDecoder.RdGet1` | tolset/buddy_system/haribote/tek.c:355-414 | The full call: the bits taken come to the call's end and are what decoding under its history gives; tables, models, result and failure are those of the machine after them |
| `TekRange.EncodedComesBack` | tolset/buddy_system/haribote/tek.c:355-414 | If the stream holds an encoded run of the call, the call gives the run's number and leaves what follows it |
| `FirstFit.MemMan.constructor` | tolset/buddy_system/haribote/memory.c:38-45 | An empty list |
| `FirstFit.MemMan.Total` | tolset/buddy_system/haribote/memory.c:47-54 | The sum of the free sizes |
| `FirstFit.FirstFittingIs` | tolset/buddy_system/haribote/memory.c:61-62 | The first index whose size suffices is the one found by the loop |
| `FirstFit.MemMan.Alloc` | tolset/buddy_system/haribote/memory.c:56-109 | Exactly the first `size` bytes of the lowest-addressed entry that fits stop being free; if none fits, 0 and nothing changes; the list stays sorted, disjoint and coalesced |
| `FirstFit.Fits` | tolset/buddy_system/haribote/memory.c:113-122 | The place found by address: entries below end at or before the block, those from it on begin at or after its end |
| `FirstFit.MemMan.Free` | tolset/buddy_system/haribote/memory.c:111-161 | Exactly the block's bytes become free; or, just when the table is full and nothing adjoins, -1 and the size is counted as lost; the high-water mark of entries is kept |
| `FirstFit.Spliced` | tolset/buddy_system/haribote/memory.c:124-157 | Joining with either neighbour, both or none adds exactly the block's bytes and keeps the list sorted, disjoint and coalesced |
| `FirstFit.ListIsDetermined` | tolset/buddy_system/haribote/memory.c:56-161 | A sorted, disjoint, coalesced list is determined by its set of free bytes |
| `FirstFit.AllocThenFree` | tolset/buddy_system/haribote/memory.c:56-161 | Memory given out and at once given back leaves the very same list |
| `HoleSort.HoleMoves` | tolset/harib27f/haribote/memory.c:213-223 | Filling the hole from another place keeps the entries, with the pivot, a permutation |
| `HoleSort.Partition` | tolset/harib27f/haribote/memory.c:201-227 | One pass puts what sorts before the pivot below it and the rest above, as a permutation of that part |
| `HoleSort.QSort` | tolset/harib27f/haribote/memory.c:201-301 | All three quicksorts end, sort their part and permute its (address, size) entries, touching nothing else |
| `HoleSort.QSortDone` | tolset/harib27f/haribote/memory.c:226-231 | Sorted parts on both sides of the pivot make a sorted whole |
| `SizedFit.FirstFits` | tolset/harib27f/haribote/memory.c:70-101 | In a list ordered by size the first entry that fits is a smallest (best fit) or a largest (worst fit) of those that fit |
| `SizedFit.MemMan.Alloc` | tolset/harib27f/haribote/memory.c:70-104 | Takes a largest entry, or a smallest of those that fit; of a list whose blocks do not touch exactly the bytes given out stop being free; 0 and no change when none fits; the list stays in order of size |
| `SizedFit.TakenBytes` | tolset/harib27f/haribote/memory.c:70-101 | Whichever entry is taken and whatever is left of it and put back, just the bytes given out are gone from a list whose blocks do not touch |
| `SizedFit.MemMan.Free` | tolset/harib27f/haribote/memory.c:106-170 | The block is absorbed and the list is again in order of size; when the table is full, -1 and it is counted as lost |
| `SizedFit.MemMan.ToMerge` | tolset/harib27f/haribote/memory.c:187-199 | By address, through the joining pass, back in order of size |
| `SizedFit.MemMan.Merge` | tolset/harib27f/haribote/memory.c:172-185 | Entry by entry: those before the first pair that adjoins stay, the pair becomes one, and every place after it gets the entry that followed the pair; without such a pair the list stays |
| `JoinPass.MergedKeepsAll` | tolset/harib27f/haribote/memory.c:172-185 | The pass leaves a list alone exactly when no entry ends where the next begins |
| `JoinPass.MergedOnce` | tolset/harib27f/haribote/memory.c:172-185 | Otherwise it makes exactly one join, at the first such place, since what follows a join are copies of one entry |
| `JoinPass.MergedEntries` | tolset/harib27f/haribote/memory.c:172-185 | The same entry by entry |
| `JoinPass.JoinedClosesGap` | tolset/harib27f/haribote/memory.c:177-182 | The shift after a join keeps all other entries exactly when at most one follows the joined pair |
| `JoinPass.MergedWorksIff` | tolset/harib27f/haribote/memory.c:172-185 | The pass changes nothing but one joined pair exactly when nothing adjoins or the first pair that does has at most one entry after it |
| `JoinPass.MergedMissesChain` | tolset/harib27f/haribote/memory.c:172-185 | A block between two free neighbours is never joined with both, in any list |
| `JoinPass.MissedChain` | tolset/harib27f/haribote/memory.c:172-185 | Three blocks in a row, of which the first two are joined |
| `JoinPass.AbsorbedApart` | tolset/harib27f/haribote/memory.c:155-164 | If no blocks adjoin, a freed block only joins the list |
| `JoinPass.FreedAfter` | tolset/harib27f/haribote/memory.c:155-185 | A block freed just after another one is joined with it and all else is kept exactly when at most one free block lies above it |
| `JoinPass.FreedBefore` | tolset/harib27f/haribote/memory.c:155-185 | A block freed just before another one, with none before it, likewise exactly when at most two lie above it |
| `JoinPass.FreedBetween` | tolset/harib27f/haribote/memory.c:155-185 | A block freed between two free ones never becomes one block with both |
| `TaskLists.ListedIffRunning` | tolset/buddy_system/haribote/mtask.c:14-52 | A task is marked running exactly when it is listed, and then in just one place, at its own level |
| `TaskLists.DelistedKeepsCycle` | tolset/buddy_system/haribote/mtask.c:36-49 | Removing a task leaves the others' turns in their cyclic order as seen from the current one; removing the current one makes the next one current |
| `TaskLists.EnlistedKeepsCycle` | tolset/buddy_system/haribote/mtask.c:14-21 | A new task's turn comes at the end of the list; nobody else's order changes |
| `TaskLists.DelistedKeepsNow` | tolset/buddy_system/haribote/mtask.c:36-43 | After a removal `now` denotes the same task exactly when another one, or the only one, was removed |
| `TaskLists.AddKeepsLists` | tolset/buddy_system/haribote/mtask.c:14-21 | Adding keeps the lists in order exactly when the level's `now` is not past its end |
| `TaskLists.RemoveKeepsLists` | tolset/buddy_system/haribote/mtask.c:23-52 | Removing keeps the lists in order |
| `TaskLists.MoveKeeps` | tolset/buddy_system/haribote/mtask.c:146-166 | Moving a task keeps lists and processor in agreement exactly when the move is none of the three described in Upsets |
| `TaskLists.SleepKeepsCurrent` | tolset/buddy_system/haribote/mtask.c:168-183 | When another task falls asleep the current one stays where the scheduler looks for it |
| `TaskLists.SwitchKeeps` | tolset/buddy_system/haribote/mtask.c:185-203 | A switch from a state in agreement ends in one |
| `Scheduler.TaskCtl.constructor` | tolset/buddy_system/haribote/mtask.c:75-116 | After start-up the first task runs at level 0, the idle task at the last, and lists and processor agree |
| `Scheduler.TaskCtl.Alloc` | tolset/buddy_system/haribote/mtask.c:118-144 | The lowest unused entry is marked as used, or none is left |
| `Scheduler.TaskCtl.Add` | tolset/buddy_system/haribote/mtask.c:14-21 | The level's queue has the task at its end, `now` as it was, and the task is marked running; the lists stay in order exactly when `now` was not past the end |
| `Scheduler.TaskCtl.Remove` | tolset/buddy_system/haribote/mtask.c:23-52 | The level's queue is the old one without the task, `now` stays with its task, or goes to the next one if it was that, or to 0 past the end |
| `Scheduler.TaskCtl.SwitchSub` | tolset/buddy_system/haribote/mtask.c:54-66 | The current level becomes the lowest-numbered one with a task |
| `Scheduler.TaskCtl.Run` | tolset/buddy_system/haribote/mtask.c:146-166 | Level and priority are set and the task listed; the exact condition under which the lists still tell which task is current |
| `Scheduler.LeaveLevel` | tolset/buddy_system/haribote/mtask.c:146-203 | Moving the only task of level 0 and switching leaves that level with running 0 and `now` 1 |
| `Scheduler.EmptiedLevelUpset` | tolset/buddy_system/haribote/mtask.c:146-203 | From start-up a task run at a level emptied in that way ends the agreement of lists and processor |
| `Scheduler.TaskCtl.Sleep` | tolset/buddy_system/haribote/mtask.c:168-183 | The task leaves its list; another task's sleep never changes the current task; the current one's hands over to a task of the lowest non-empty level |
| `Scheduler.TaskCtl.Switch` | tolset/buddy_system/haribote/mtask.c:185-203 | `now` of the level goes one on, round at the end; with levels changed the lowest-numbered level with a task is current; its entry at `now` becomes the one executed, with its own quantum |
| `Scheduler.TaskCtl.Round` | tolset/buddy_system/haribote/mtask.c:185-203 | With nothing added or removed, as many switches as the level has tasks give each exactly one turn, in list order, and end where they began |
| `Locks.LockExcludes` | tolset/race_condition_solution/bootpack.c:86-121 | For test-and-set and swap locks, any number of tasks and any interleaving: at most one task inside, x equals its start plus the completed increments modulo 2^32, z is never set |
| `Locks.InsideKeeps` | tolset/race_condition_solution/bootpack.c:110-119 | A step of the task inside keeps the same, x equal to the count of completed increments, and z unset |
| `Locks.OutsideKeeps` | tolset/race_condition_solution/bootpack.c:18-35 | A step of a task outside, acquiring or spinning, keeps at most one task inside and the lock at 0 exactly when nobody is |
| `Locks.SomeTaskMoves` | tolset/race_condition_solution/bootpack.c:86-121 | In every reachable state some task is not spinning, and its step changes it |
| `Locks.AloneCompletes` | tolset/race_condition_solution/bootpack.c:86-138 | A task that nobody disturbs, of any of the three kinds, gets round its loop: one increment, z as it was, the lock open |
| `Locks.UnlockedLoses` | tolset/race_condition_solution/bootpack.c:123-138 | Without the lock there is an interleaving of two tasks that loses an increment |
| `Locks.UnlockedSees` | tolset/race_condition_solution/bootpack.c:123-138 | Without the lock there is an interleaving of two tasks that ends with z at 1 |
| `ReadersWriters.AlwaysSafe` | tolset/pure user mode/reader/reader.c:20-45 | In every interleaving of any number of readers and writers from read_count 0: exclusion, read_count is the number of readers counted in and not out, no semaphore is negative, some task has a step other than spinning |
| `ReadersWriters.ContentStable` | tolset/pure user mode/reader/reader.c:30-34 | While a reader has entered and not left, no step writes the content |
| `ReadersWriters.ContentIsLast` | tolset/pure user mode/writer/writer.c:12 | The content is the value stored last, or what it was at the start |
| `ReadersWriters.ReaderSees` | tolset/pure user mode/reader/reader.c:30-34 | In every interleaving a reader reads the value stored last, and the write it belongs to is complete |
| `ReadersWriters.WriterCounts` | tolset/pure user mode/writer/writer.c:9-20 | A writer's stores are consecutive numbers from its first on, and it ends before 0 comes round |
| `ReadersWriters.ReaderRound` | tolset/pure user mode/reader/reader.c:20-45 | Thirteen steps of a reader whom nobody disturbs: it has read the content, and count and semaphores are as they were |
| `ReadersWriters.WriterRound` | tolset/pure user mode/writer/writer.c:9-20 | Four steps of a writer whom nobody disturbs: its number is the content, the next one is up, the semaphore is open |
| `ReadersWriters.AloneIsRun` | tolset/pure user mode/haribote/console.c:803-833 | Such steps are a run in which only that task is scheduled |
| `ReadersWriters.StepMoves` | tolset/pure user mode/haribote/console.c:803-833 | A task that is neither spinning nor ended is at another place of its program after its step |
| `ReadersWriters.SafeIffCountStartsAtZero` | tolset/pure user mode/reader/reader.c:20-45 | Exclusion in all interleavings holds exactly when read_count starts at 0 |
| `ReadersWriters.SetUpSafeIff` | tolset/pure user mode/initshr/initshr.c:7-13 | After the set-up program it holds exactly when the count word was -1 before |
| `ReadersWriters.ReaderKeepsMutex` | tolset/pure user mode/reader/reader.c:21-43 | A reader's step keeps at most one reader between wait and signal of mutex |
| `ReadersWriters.ReaderKeepsRwMutex` | tolset/pure user mode/reader/reader.c:25-42 | A reader's step keeps rw_mutex held by the readers together, by one writer, or free |
| `ReadersWriters.WriterKeeps` | tolset/pure user mode/writer/writer.c:9-20 | A writer's step keeps that too |
| `ReadersWriters.StepKeeps` | tolset/pure user mode/haribote/console.c:803-833 | Every step, waiting included, keeps the whole invariant |

## Left out

Of members listed above:

- Compositor.SheetCtl.UpDown: asks that a shown sheet is not sent to top + 1, where `RaisePastTop` shows what happens, and that the word rows of the sheets that it copies to the screen (`Copied`: those uncovered, or the sheet itself) stay on the sheets and the screen (`TailsOk`, see `TailOkWhen`), because the C code would otherwise touch bytes outside them.
- Compositor.SheetCtl.Slide: asks the same of the word rows, for the sheets below in the old area and for the sheet itself in the new one.
- Compositor.SheetCtl.Free: asks the same as hiding the sheet.
- SheetPaint.CopySheet: pixels before the rectangle may also get the sheet's colour where the map gives them to it, since the trailing loop of a short word row really writes them.
- BuddyAllocator.Buddy.Alloc4k: requests are at most 0x7ffff000 bytes, above which the C code overflows a 32-bit int.
- BuddyAllocator.Buddy.Total: uses the arena's own size where the C code repeats its constant 0x2000, since the model takes any power of two.
- FirstFit.MemMan.Free: asks that the block is not empty and not yet free; freeing nothing would enter an empty block, and freeing twice is the caller's error.
- FirstFit.MemMan.Alloc: addresses do not wrap around at 2^32.
- SizedFit.MemMan.Free: says what the joining pass makes of the list (`Absorbed`), and conserves the freed bytes only under the conditions of `AbsorbedApart`, `FreedAfter` and `FreedBefore`, because the shift of the pass loses entries.
- TekLz.LzRestoreStk1: streams on which the C code would read or write outside its buffers (`Overrun`) are excluded; what happens then is undefined in C.
- TekCache.RoundTrip: outright distances are below 2^30 - 5, and relative ones at most 2^31 + 270549120, beyond which a register overflows.
- TekLz.RoundTrip: outputs are below 2^30 bytes, beyond which a copy's length overflows its signed register.
- TekRange.RangeDecoder.RdGet1: supposes enough bytes left (22 for each bit is always enough), as the C code never looks where its input ends, and that the call's own entries are apart from the tables for changing a model (`Fits`), as they are in the C structure (`FitsWhen`). The calls within a change of model are written as methods of their own, not as the recursion they are in C.
- Scheduler.TaskCtl.Run: asks for a free place in the level's list and for a level below 10, which the C code does not check.
- Scheduler.TaskCtl.Sleep: asks that some other task runs when the current one goes to sleep; the idle task, which never sleeps, is one.
- Locks.LockExcludes: `avoid_sleep` only touches the scheduler's flag and is a local step.
- ReadersWriters.AlwaysSafe: one step is one access of a system call to shared memory; printing and counting loops are no steps; the count is not wrapped at 32 bits.

Of the code:

- Sheets are records in an array, and pointers to sheets and to tasks are places in it; `sheet_alloc` and the allocation of the control itself (`shtctl_init`) are not modelled beyond the initial state.
- The second LZ format's run counts, which are unary bits packed in bytes between the data (`tek_lzrestore_stk2`, tek.c:147-185), its outer loop and its output; its byte copies are those of the first format.
- `tek_decode1`, `tek_decode2`, `tek_lzrestore_tek5`, `tek_getlen5`, the error jump, and `tek_decmain5` but for its set-up: headers and the choice of tables. `tek_rdget0`: halving an odd range can leave the code equal to the range.
- `Buddy_size`, which walks past the root when the address is in no live block, and `Buddy_dump`.
- The free list for TYPE 1 of harib27f, a copy of the first-fit list.
- `sem_wait` and the producer and consumer built on it, whose test lies outside the interrupt-off section; `dining`, which passes its semaphores by value.
- Codes 31 and 32 of the system call other than load, store, wait and signal, except for what the set-up program uses; the range checks on their indices.
- Interrupts, descriptor tables, timers, drawing, files, applications. The switch between tasks is the change of the field `tr`; the timer's new interval is the result of `TaskCtl.Switch`.
