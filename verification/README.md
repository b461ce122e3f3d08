# Verified transformers of the TranSend proxy

The proxy sits between browsers and the web and rewrites what passes through it. This project models the parts that
rewrite data in memory, and proves what they promise:

- the GIF LZW encoder and the independently written GIF decoder: hash table, code widths, bit packing, sub-blocks,
  interlacing, and the round trip from image to image (`BitStrings`, `LzwSpec`, `LzwTextbook`, `LzwSync`, `Probing`,
  `StringTable`, `SubBlocks`, `GifEncoder`, `KeyZero`, `CodeSource`, `GifDecoder`, `GifRoundTrip`, `GifTruncated`, `GifAfterEnd`,
  `Interlace`, `GifImage`);
- the HTML compactor: tokenizer, error-repairing parser over the HTML 3.2 content models, byte code and its reader
  (`HtmlTables`, `HtmlBytes`, `HtmlRepair`, `HtmlStack`, `HtmlOrigin`, `HtmlPage`, `HtmlTokens`, `HtmlTokenizer`,
  `HtmlPrint`, `HtmlCompactor`);
- the client library's AVL tree on the heap, with parent links and static variables (`AvlSpec`, `AvlTree`, `AvlWalk`);
- MD5 over a stream (`Md5Rounds`, `Md5`, `Md5Vectors`);
- the image kernels: Floyd-Steinberg diffusion (`Diffusion`, `DiffusionChannels`), median cut (`MedianCut`), the
  streaming high-pass filter (`Hipass`, `HipassWindow`), over `PixelMath`;
- the worker threads' task queue as interleaved steps (`TaskQueue`, `QueueProgress`);
- header splitting (`Headers`) and arguments inside URLs (`MagicUrl`).

Code that updates state is a class or a method with loops, proved against specification functions; the theorems about
a whole run are lemmas about those functions, or methods that perform the run. `dafny verify dfyconfig.toml` checks
everything.

How the code's terms are rendered:

- Shifts and masks of the GIF code accumulators are arithmetic on bit strings (`Shl`, `Shr`, `Mask`); MD5 words are
  32-bit vectors and its counter words are numbers with the wrap-around written out; other integers are unbounded,
  with the 16-bit limits of the high-pass rows and the 32-bit limits of scanned URL numbers stated.
- C division is written as rounding toward zero.
- The AVL comparator is the order of integer keys; freeing nodes is not modelled.
- The LZW reader is an abstract machine that both sides are proved against; it shares no code with either.
- HTML tokens carry their text or tag; the tokenizer is modelled separately and proved to deliver such tokens. Where the
  original byte-code reader would loop for ever (input ending inside a start tag) the model returns None.
- The error rows of the diffusion hold the three components of a colour together, where the original has three pairs
  of rows. The random first row and the room in the colour hash are parameters.
- The luminance of a colour, which the median cut compares, is any function to the reals: the formula belongs to the
  image library.
- The queue's mutex is an owner, a signal has no effect of its own, and a sleeping thread may wake at any time, which
  covers every signal and every spurious wake-up.

Where the code and its comments disagree the model follows the code:

- `is_magic` is commented to look for the first star; it takes the last one before the form.
- The queue's comment calls the queue full when `(qhead+1)%qsize==qtail`; the code tests `(qtail+1)%nthreads == qhead`.
- The string table treats a slot holding key 0 as free, so that string can be forgotten (`ForgetsKeyZero`); the round
  trip does not depend on it.
- A token that every open element gives up on ends the page (`EndsEarly`), because the start element's end tag is
  optional like any other: after `<BODY>`, text and `</B>` nothing more is read.
- GetDataBlock checks that a block fits the data, but ReadByte does not check that there is a count byte, so data that
  stops between blocks is read past its end (`LooksOutside`). A read outside the data is a status of its own here.
- A key refused as a duplicate leaves the static parent of Tree_Add set, and the next tree begun hangs below that node
  (`TwoTrees`). Deleting from it then rewrites links of the other tree (`DeletesForeign`).
- An End code does not end the reading: the bits behind it in its block are still read (`ReadsOn`).
- `from_magic` starts at the last star of the whole URL, `is_magic` at the last before the form, and it scans a string of
  any length into 80 characters. Where that leads out of the text or the buffer the model says Undefined
  (`UndefinedIff`). A string of 79 characters is copied without its closing zero, and is a value of its own here.

## Model

| member | source | states |
|---|---|---|
| LzwSync.EmitInStep | tcsproxy/gif_munger/src/ppmtogif.c:701 | whenever writer and reader are in step, the code about to be written fits the width the reader expects, is neither Clear nor End, and gives the reader exactly the matched string and the writer's table |
| LzwSync.EmitNewest | tcsproxy/2bit_munger/src/gj_mem_src_dst_mgr.c:365-374 | when the code is the one symbol the reader has not defined yet, the reader still gets the writer's string |
| LzwSync.DefineInStep | tcsproxy/gif_munger/src/ppmtogif.c:701-710 | after the code is written and the lengthened string defined, the two sides are in step again, though the writer widens before it defines and the reader after |
| LzwSync.MatchInStep | tcsproxy/gif_munger/src/ppmtogif.c:682-697 | lengthening the match keeps them in step and the text unchanged |
| LzwSync.ClearInStep | tcsproxy/gif_munger/src/ppmtogif.c:800-811 | a Clear always fits the current width and starts both sides over in step |
| LzwSync.EndInStep | tcsproxy/gif_munger/src/ppmtogif.c:714-719 | End always fits and leaves the reader's table alone |
| LzwSpec.ExpandPrefix | tcsproxy/2bit_munger/src/gj_mem_src_dst_mgr.c:376-380 | a symbol's string does not depend on symbols defined later |
| LzwSpec.CodeFits | tcsproxy/2bit_munger/src/gj_mem_src_dst_mgr.c:384-396 | a width below the maximum leaves room for the next symbol |
| LzwTextbook.TextbookReads | tcsproxy/2bit_munger/src/gj_mem_src_dst_mgr.c:312-400 | every code sequence with a meaning in Appendix F of GIF89a, told with a table of strings, fits the reader's widths, gives exactly its pixels, and leaves a table that spells those strings |
| LzwTextbook.WidthIsLeast | tcsproxy/2bit_munger/src/gj_mem_src_dst_mgr.c:384-396 | the width of the next code is the least above the minimum code size in which the number of the next string fits, at most twelve |
| LzwTextbook.BitAt | tcsproxy/2bit_munger/src/gj_mem_src_dst_mgr.c:287-305 | codes are laid out low-order bit first |
| LzwTextbook.ByteBitAt | tcsproxy/2bit_munger/src/gj_mem_src_dst_mgr.c:287-305 | and bytes are filled from their low-order bit |
| LzwSync.EmitMeant | tcsproxy/gif_munger/src/ppmtogif.c:701 | a code written in step has its textbook meaning there |
| Probing.HsizeIsPrime | tcsproxy/gif_munger/src/ppmtogif.c:687-692 | the table size 5003 has no divisor but 1 and itself |
| Probing.ProbesDistinct | tcsproxy/gif_munger/src/ppmtogif.c:690-692 | for every start and every displacement no slot is met twice in 5003 probes |
| StringTable.FirstSlot | tcsproxy/gif_munger/src/ppmtogif.c:680 | the first probe is always inside the table |
| StringTable.ProbeDistinct | tcsproxy/gif_munger/src/ppmtogif.c:687-699 | the probe sequence of any key meets every slot before it repeats one |
| StringTable.KeyInjective | tcsproxy/gif_munger/src/ppmtogif.c:679 | a key determines the string code and the pixel |
| StringTable.PathSurvives | tcsproxy/gif_munger/src/ppmtogif.c:709-710 | entering a string disturbs no other string's probe path |
| StringTable.EntryFindable | tcsproxy/gif_munger/src/ppmtogif.c:709-710 | every string entered can be found again, except the one with key 0 |
| StringTable.Absent | tcsproxy/gif_munger/src/ppmtogif.c:682-700 | a search that ends at a free slot has missed nothing, unless the key is 0 |
| StringTable.Table.Clear | tcsproxy/gif_munger/src/ppmtogif.c:813-846 | the unrolled clearing loop empties every slot |
| StringTable.Table.Find | tcsproxy/gif_munger/src/ppmtogif.c:679-700 | the search ends, and finds a slot if and only if the table holds the key; a match spells exactly the string looked for; a symbol defined is found unless its key is 0 |
| StringTable.Missed | tcsproxy/gif_munger/src/ppmtogif.c:682-700 | a search that ends at a free slot has missed nothing: no slot holds the key, 0 included |
| StringTable.ZerosStay | tcsproxy/gif_munger/src/ppmtogif.c:709-710 | entering a string leaves every slot that holds the key 0 on that key's path |
| StringTable.Table.Insert | tcsproxy/gif_munger/src/ppmtogif.c:709-710 | enters the symbol, keeps every slot truthful and every symbol findable, and changes no other slot |
| KeyZero.Lands | tcsproxy/gif_munger/src/ppmtogif.c:680-700 | where the search for a new string ends, when one of its first three probes decides |
| KeyZero.ForgetsKeyZero | tcsproxy/gif_munger/src/ppmtogif.c:679-712 | the compressor on the pixels 16, 1, 0, 0, 32, 2, 0, 0: its invariant holds to the end, and the last pixel makes it write a code and define the string of key 0 although the dictionary already has it |
| SubBlocks.ReadWritten | tcsproxy/2bit_munger/src/gj_mem_src_dst_mgr.c:208-220 | data cut into non-empty sub-blocks of any sizes is read back as the same data |
| SubBlocks.PacketWriter.CharOut | tcsproxy/gif_munger/src/ppmtogif.c:877-885 | adds one byte to the data; a packet of 254 bytes goes out when full |
| SubBlocks.PacketWriter.FlushChar | tcsproxy/gif_munger/src/ppmtogif.c:887-898 | writes the pending packet with its length and loses no byte |
| GifEncoder.TakeByte | tcsproxy/gif_munger/src/ppmtogif.c:758-762 | moving the low byte of the accumulator out changes no bit of the stream |
| GifEncoder.WidthRule | tcsproxy/gif_munger/src/ppmtogif.c:764-783 | the writer's rule for widening gives the width the reader computes from its own table |
| GifEncoder.CodeWriter.Place | tcsproxy/gif_munger/src/ppmtogif.c:749-762 | appends exactly the bits of the code at the current width |
| GifEncoder.CodeWriter.Resize | tcsproxy/gif_munger/src/ppmtogif.c:764-783 | resets the width after a Clear and else widens exactly when the next entry would not fit |
| GifEncoder.CodeWriter.Finish | tcsproxy/gif_munger/src/ppmtogif.c:785-796 | the padded bytes and the last packet start with every bit written |
| GifEncoder.CodeWriter.Output | tcsproxy/gif_munger/src/ppmtogif.c:745-797 | the code is appended at a width it fits and the reader would use; after End all codes are in the packets |
| GifEncoder.Compressor.ClBlock | tcsproxy/gif_munger/src/ppmtogif.c:800-811 | empties the table, writes a Clear, and writer and reader are in step on the next pixel |
| GifEncoder.Compressor.NoMatch | tcsproxy/gif_munger/src/ppmtogif.c:700-712 | writes the match and defines the longer string, or clears a full table; in step again |
| GifEncoder.Compressor.Step | tcsproxy/gif_munger/src/ppmtogif.c:679-712 | keeps the invariant for every pixel; the match is lengthened if and only if the table holds the key of the longer string, and nothing is written; else the match is written and the longer string defined; a string of the dictionary is missed only if its key is 0 and no slot holds 0 |
| GifEncoder.Compressor.Compress | tcsproxy/gif_munger/src/ppmtogif.c:626-720 | for every non-empty pixel sequence every code before End has its textbook meaning, and a reader fed them yields exactly those pixels, across any number of Clears |
| CodeSource.CarryTwoBytes | tcsproxy/2bit_munger/src/gj_mem_src_dst_mgr.c:272-284 | two carried bytes are enough to keep every unread bit across a refill |
| CodeSource.CutCode | tcsproxy/2bit_munger/src/gj_mem_src_dst_mgr.c:287-305 | three bytes shifted and masked are the next bits of the stream |
| CodeSource.BitSource.NextBlock | tcsproxy/2bit_munger/src/gj_mem_src_dst_mgr.c:196-220 | on any data: a whole block, the terminator, the error exit where the count is too long for the data, or a count byte looked for outside the data, which ReadByte does not check |
| CodeSource.BitSource.GetDataBlock | tcsproxy/2bit_munger/src/gj_mem_src_dst_mgr.c:208-220 | copies the block behind the two carried bytes; otherwise ends as the rest of the series must |
| CodeSource.BitSource.SkipDataBlocks | tcsproxy/2bit_munger/src/gj_mem_src_dst_mgr.c:223-230 | stops just behind the terminator if the series has one, and otherwise as the series ends |
| CodeSource.BitSource.Reload | tcsproxy/2bit_munger/src/gj_mem_src_dst_mgr.c:266-285 | a refill keeps the unread bits and joins the next block to them; it fails only as the series of blocks ends |
| SubBlocks.HeldAt | tcsproxy/2bit_munger/src/gj_mem_src_dst_mgr.c:208-220 | how many bits of a block are left is told by how many bits of the series have been read |
| CodeSource.BitSource.BufferHolds | tcsproxy/2bit_munger/src/gj_mem_src_dst_mgr.c:266-285 | no block is loaded before it is needed, so the buffer holds exactly the rest of the block the last bit read was in |
| CodeSource.BitSource.GetCode | tcsproxy/2bit_munger/src/gj_mem_src_dst_mgr.c:259-309 | on any data delivers exactly the next bits, however divided into blocks; when too few are left: End if the series is terminated, else the error exit or a read outside, whichever the counts lead to |
| GifDecoder.Decoder.constructor | tcsproxy/2bit_munger/src/gj_mem_src_dst_mgr.c:242-257 | a fresh decoder for any code size from 2 to 11 and any data |
| GifDecoder.Decoder.ReInitLZW | tcsproxy/2bit_munger/src/gj_mem_src_dst_mgr.c:233-240 | an empty table at the smallest width |
| GifDecoder.Decoder.Unwind | tcsproxy/2bit_munger/src/gj_mem_src_dst_mgr.c:376-380 | expansion ends, stays inside the stack, and pushes exactly the symbol's string |
| GifDecoder.Decoder.AfterClear | tcsproxy/2bit_munger/src/gj_mem_src_dst_mgr.c:334-348 | swallows further Clears and takes the raw byte after them |
| GifDecoder.Decoder.Define | tcsproxy/2bit_munger/src/gj_mem_src_dst_mgr.c:384-396 | defines the next symbol when there is room and widens when it fills the width; every symbol's head stays below it |
| GifDecoder.Decoder.Symbol | tcsproxy/2bit_munger/src/gj_mem_src_dst_mgr.c:362-399 | any data code, valid or not: the pixels and the new table are the abstract reader's, the not-yet-defined code included |
| GifDecoder.Decoder.EndOfImage | tcsproxy/2bit_munger/src/gj_mem_src_dst_mgr.c:350-360 | End skips the remaining blocks unless they are over, and ends as they do; the bits of its own block stay to be read |
| GifDecoder.Decoder.LZWReadByte | tcsproxy/2bit_munger/src/gj_mem_src_dst_mgr.c:312-400 | on any data, valid, corrupt or cut off, each call returns the abstract reader's next pixel, always below the Clear code; where the abstract reader stops and the blocks are terminated: 0, and after an End the reader goes on with exactly the rest of the End's block, after too few bits it gives 0 for ever; else the error exit or a read outside |
| GifRoundTrip.UnpackPixels | tcsproxy/2bit_munger/src/gj_mem_src_dst_mgr.c:312-400 | reading packed codes pixel by pixel gives exactly the pixels they stand for |
| GifRoundTrip.StreamReads | tcsproxy/2bit_munger/src/gj_mem_src_dst_mgr.c:259-309 | a stream of blocks holding packed codes is read as those codes |
| GifRoundTrip.ReadPixels | tcsproxy/2bit_munger/src/gj_mem_src_dst_mgr.c:622-624 | n calls on any data give the first n pixels it stands for; on terminated blocks they give exactly the stream, else the reader ends as the blocks do |
| GifRoundTrip.StreamPixels | tcsproxy/2bit_munger/src/gj_mem_src_dst_mgr.c:312-400 | the stream starts with the pixels the data stands for |
| GifRoundTrip.ThenZeros | tcsproxy/2bit_munger/src/gj_mem_src_dst_mgr.c:267-271 | where the bits run out zeros follow |
| GifRoundTrip.ThenEnd | tcsproxy/2bit_munger/src/gj_mem_src_dst_mgr.c:350-360 | after an End one zero follows, and then what is read from the rest of its block |
| GifAfterEnd.ReadsOn | tcsproxy/2bit_munger/src/gj_mem_src_dst_mgr.c:312-400 | the block 0x4C, 0x07, terminated, at code size 2: Clear, 1, End, 3, 0 give the pixels 1, 0, 3, 0 |
| GifTruncated.ReadAny | tcsproxy/2bit_munger/src/gj_mem_src_dst_mgr.c:196-400 | where reading n pixels of any data leads: on, to the error exit, or outside the data |
| GifTruncated.StaysInside | tcsproxy/2bit_munger/src/gj_mem_src_dst_mgr.c:196-220 | however many pixels are read none is looked for outside the data, if and only if the chain of counts comes to a terminator or to a count too long for the data |
| GifTruncated.LooksOutside | tcsproxy/2bit_munger/src/gj_mem_src_dst_mgr.c:196-205 | the two bytes 1, 0x44 at code size 2: the second pixel is looked for outside them |
| GifRoundTrip.Encode | tcsproxy/gif_munger/src/ppmtogif.c:626-720 | the packets written hold codes that spell the pixels, by the abstract reader and by the textbook |
| GifRoundTrip.Decode | tcsproxy/2bit_munger/src/gj_mem_src_dst_mgr.c:312-400 | reads them back from any offset and any division into blocks |
| GifRoundTrip.CompressAndRead | tcsproxy/gif_munger/src/ppmtogif.c:626-898 | the LZW round trip: every non-empty sequence of pixels below the Clear code, code size 2 to 8, comes back unchanged |
| Interlace.IrowBijective | tcsproxy/2bit_munger/src/gj_mem_src_dst_mgr.c:629-673 | for every height the decoder's row formula is a bijection on the rows |
| Interlace.RowsInPasses | tcsproxy/2bit_munger/src/gj_mem_src_dst_mgr.c:629-673 | one row is stored before another if and only if its pass comes first or, in the same pass, it is the upper one, with the passes of Appendix E of GIF89a |
| Interlace.VisitIs | tcsproxy/gif_munger/src/ppmtogif.c:257-308 | the encoder's k-th scan line is the row the decoder expects there |
| Interlace.WalkMatches | tcsproxy/gif_munger/src/ppmtogif.c:257-308 | the encoder's walk stays inside the image and visits the rows in the decoder's order exactly when the height is 1 or at least 5 |
| GifImage.PixelSource.BumpPixel | tcsproxy/gif_munger/src/ppmtogif.c:257-308 | moves to the next pixel, or to the next row of the pass or the first of the next pass |
| GifImage.PixelSource.NextPixel | tcsproxy/gif_munger/src/ppmtogif.c:310-328 | gives each pixel once, in walking order, then end of file; in an interlaced image of two to four rows the second row looked at lies outside it |
| GifImage.WalkImage | tcsproxy/gif_munger/src/ppmtogif.c:257-328 | the walk stays inside the image, and gives its rows in the decoder's order, if and only if it is not interlaced or has one row or at least five |
| GifImage.Reassemble | tcsproxy/2bit_munger/src/gj_mem_src_dst_mgr.c:645-685 | putting stored rows back in place gives the image |
| GifImage.ImageRoundTrip | tcsproxy/gif_munger/src/ppmtogif.c:257-328 | every image comes back from encoder and decoder unchanged, unless it is interlaced and has two to four rows, where the encoder looks outside it |
| HtmlTables.InferredRank | tcsproxy/java_stub/HTMLParser.java:553-599 | only HTML, HEAD and BODY can be inferred, each below an element of higher rank, so inference ends |
| HtmlTables.NamedIff | tcsproxy/java_stub/HTMLParser.java:542-551 | a tag name finds exactly the element it names, whatever its capitals; names are distinct and the start element has none |
| HtmlTables.AliasKeepsModel | tcsproxy/java_stub/HTMLParser.java:608-618 | merging EM, STRONG, CODE and their kin keeps every child in its parent's content model |
| HtmlTables.AliasKeepsContent | tcsproxy/java_stub/HTMLParser.java:608-618 | and keeps text where text may be |
| HtmlTables.AliasNames | tcsproxy/java_stub/HTMLParser.java:608-618 | by name: EM, VAR and CITE come out as I, STRONG and DFN as B, CODE, SAMP and KBD as TT, every other element as itself |
| HtmlRepair.AllowableHasWay | tcsproxy/java_stub/HTMLParser.java:585-599 | an element found for inference starts a chain of inferable elements that has room for the tag |
| HtmlRepair.WayFound | tcsproxy/java_stub/HTMLParser.java:585-599 | if any such chain exists the search finds one |
| HtmlRepair.AllowableIsFirst | tcsproxy/java_stub/HTMLParser.java:585-599 | the element inferred for a tag is the first of the content model from which a chain of inferable elements leads to room for it |
| HtmlRepair.HolderIsFirst | tcsproxy/java_stub/HTMLParser.java:553-571 | likewise for text; none is found exactly when no chain leads to an element that may hold text |
| HtmlRepair.Parse | tcsproxy/java_stub/HTMLParser.java:392-540 | on every token stream the parse ends: what it hands back is smaller, and strictly so when the element had a place for the token, which is why an inferred element consumes the token that caused it |
| HtmlRepair.ParseValid | tcsproxy/java_stub/HTMLParser.java:392-540 | for every token stream every child is in its parent's content model and text stands, with spaces collapsed, only where text may |
| HtmlRepair.CorrectPageKept | tcsproxy/java_stub/HTMLParser.java:392-540 | a page with all tags written out and every element in its place comes out as its own tree |
| HtmlRepair.RepairIsStable | tcsproxy/java_stub/HTMLParser.java:392-540 | repairing a repaired page changes nothing |
| HtmlRepair.WordsKept | tcsproxy/java_stub/HTMLParser.java:396-452 | text an element can hold, directly or by inference, comes first in its tree, below inferred elements only |
| HtmlRepair.TagKept | tcsproxy/java_stub/HTMLParser.java:463-505 | likewise a tag, with its attributes |
| HtmlOrigin.PageAccounted | tcsproxy/java_stub/HTMLParser.java:392-540 | every page is accounted for: its tokens are, in order, text and tags put in their places, tags dropped for a stated reason, and elements each opened by its tag or supplied, and closed by its end tag, by the end, or by a token it may give up |
| HtmlOrigin.AccountDecides | tcsproxy/java_stub/HTMLParser.java:392-540 | any such account of a page, however found, gives the page the parser makes |
| HtmlOrigin.RequiredEnd | tcsproxy/java_stub/HTMLParser.java:507-540 | an element whose end tag is required ends at the end of the page or at an end tag of its own, and nowhere else |
| HtmlOrigin.UnknownIgnored | tcsproxy/java_stub/HTMLParser.java:463-540 | deleting every tag of no known element leaves the repaired page unchanged |
| HtmlOrigin.StrayInBold | tcsproxy/java_stub/HTMLParser.java:525-531 | in BODY, B, text, any other known end tag, text, end of B, both texts stand in B |
| HtmlOrigin.CollapseKeeps | tcsproxy/java_stub/HTMLParser.java:399-417 | collapsing keeps every other byte and every gap, a gap being one blank |
| HtmlOrigin.CollapsedOnce | tcsproxy/java_stub/HTMLParser.java:399-417 | and only one text is like that |
| HtmlStack.StepKeeps | tcsproxy/java_stub/HTMLParser.java:392-540 | a machine over the stack of open elements, one turn of the innermost loop at a time, ends as the recursive parser does |
| HtmlStack.HandedOut | tcsproxy/java_stub/HTMLParser.java:392-540 | for any chain of open elements, the next token is handed out of all of them with the rest unread if and only if each has an optional end tag, has no place for the token, and is not ended by it |
| HtmlStack.EndsEarly | tcsproxy/java_stub/HTMLParser.java:382-540 | for every page, token and rest: the page ends at that token with that rest unread if and only if the parser comes to it with elements open that all give it up |
| HtmlStack.EndsAtStray | tcsproxy/java_stub/HTMLParser.java:491-524 | such a token is the end tag of a known element or a start tag that fits nowhere |
| HtmlStack.BodyEndsEarly | tcsproxy/java_stub/HTMLParser.java:507-524 | a body with text and then the end tag of any known element but BODY and HTML: the page ends inside the body, whatever follows |
| HtmlStack.LosesRestOfPage | tcsproxy/java_stub/HTMLParser.java:507-524 | the page BODY, text, end of B, text comes out without its second text |
| HtmlPage.KidsNest | tcsproxy/java_stub/HTMLParser.java:601-671 | a valid tree's tags are accepted by a stack checker of the content models |
| HtmlPage.PageNests | tcsproxy/java_stub/HTMLParser.java:382-671 | for every token stream the emitted tags nest properly and respect every content model after aliasing |
| HtmlPage.AttributeFrom | tcsproxy/java_stub/HTMLParser.java:680-690 | the first attribute of that name, whatever its capitals |
| HtmlPage.PageParser.FindElement | tcsproxy/java_stub/HTMLParser.java:542-551 | computes the element a name stands for |
| HtmlPage.PageParser.IsElementAllowed | tcsproxy/java_stub/HTMLParser.java:573-583 | exactly membership in the content model |
| HtmlPage.PageParser.FindAllowableElement | tcsproxy/java_stub/HTMLParser.java:585-599 | computes the first inferable element with room for the tag |
| HtmlPage.PageParser.FindNonElementContentElement | tcsproxy/java_stub/HTMLParser.java:553-571 | computes the first inferable element with room for text |
| HtmlPage.PageParser.FindAttribute | tcsproxy/java_stub/HTMLParser.java:680-690 | computes the attribute number |
| HtmlPage.PageParser.CollapseSpaces | tcsproxy/java_stub/HTMLParser.java:399-417 | every run of spaces as one space |
| HtmlPage.PageParser.OutputStartTag | tcsproxy/java_stub/HTMLParser.java:606-650 | appends exactly the byte code of the aliased tag and its known attributes |
| HtmlPage.PageParser.OutputEndTag | tcsproxy/java_stub/HTMLParser.java:652-671 | appends exactly the byte code of the aliased end tag |
| HtmlPage.PageParser.ParseElement | tcsproxy/java_stub/HTMLParser.java:392-540 | the loop writes, in order, the byte code of exactly the tree the specification gives, and hands back its token |
| HtmlPage.PageParser.ParsePage | tcsproxy/java_stub/HTMLParser.java:382-385 | writes the byte code of the repaired page |
| HtmlPage.ParseFree | tcsproxy/java_stub/HTMLParser.java:392-540 | repair brings in no byte the byte code reserves |
| HtmlPage.CompactAndRead | tcsproxy/java_stub/HTMLDecoder.java:12-50 | the reader gets the repaired page up to joined text if and only if it holds no reserved byte; clean tokens suffice |
| HtmlBytes.ReadsBack | tcsproxy/java_stub/HTMLDecoder.java:12-50 | clean events are read back up to joined text |
| HtmlBytes.ReadIsClean | tcsproxy/java_stub/HTMLDecoder.java:12-50 | whatever the bytes, the reader never delivers an event with a reserved byte |
| HtmlBytes.RoundTripIff | tcsproxy/java_stub/HTMLParser.java:606-678 | the byte code carries events, up to joined text, if and only if no text holds 0 or 255 and no value holds 0 |
| HtmlBytes.WrittenSample | tcsproxy/java_stub/HTMLParser.java:606-678 | the bytes of an element with an attribute around a text |
| HtmlBytes.PageReader.TakeValue | tcsproxy/java_stub/HTMLDecoder.java:30-33 | the value up to the next zero; where the input ends first the original loops for ever |
| HtmlBytes.PageReader.TakeAttributes | tcsproxy/java_stub/HTMLDecoder.java:25-37 | the attributes up to the closing zero |
| HtmlBytes.PageReader.TakeText | tcsproxy/java_stub/HTMLDecoder.java:42-47 | the longest text, and the byte after it |
| HtmlBytes.PageReader.Decode | tcsproxy/java_stub/HTMLDecoder.java:12-50 | the cursor loop computes the events the specification reads, for any bytes |
| HtmlTokens.ReadAttributes | tcsproxy/java_stub/HTMLTokenizer.java:318-372 | every attribute read gets exactly one value, so the two vectors stay equally long, and reading makes progress |
| HtmlTokens.ReadStartTag | tcsproxy/java_stub/HTMLTokenizer.java:304-316 | a start tag read has equally long vectors and consumes input |
| HtmlTokens.ReadValue | tcsproxy/java_stub/HTMLTokenizer.java:393-440 | reading a value makes progress, also past junk |
| HtmlTokens.ScanToken | tcsproxy/java_stub/HTMLTokenizer.java:36-162 | every token consumes input, comments included, so tokenizing ends |
| HtmlTokenizer.Tokenizer.TakeWhile | tcsproxy/java_stub/HTMLTokenizer.java:164-174 | takes the longest fitting run and puts the first other byte back |
| HtmlTokenizer.Tokenizer.ReadNameAfter | tcsproxy/java_stub/HTMLTokenizer.java:374-391 | reads a name, failing only at the end of the page |
| HtmlTokenizer.Tokenizer.ReadLiteralAfter | tcsproxy/java_stub/HTMLTokenizer.java:444-458 | reads a literal with both its quotes |
| HtmlTokenizer.Tokenizer.ReadValueNext | tcsproxy/java_stub/HTMLTokenizer.java:393-440 | reads the value the specification gives |
| HtmlTokenizer.Tokenizer.ReadOneAttribute | tcsproxy/java_stub/HTMLTokenizer.java:341-368 | one attribute with its value, and the byte after it |
| HtmlTokenizer.Tokenizer.ReadAttributesValues | tcsproxy/java_stub/HTMLTokenizer.java:318-372 | the names and values the specification gives |
| HtmlTokenizer.Tokenizer.ReadStartTagNext | tcsproxy/java_stub/HTMLTokenizer.java:304-316 | the start tag the specification gives |
| HtmlTokenizer.Tokenizer.ReadEndTagNext | tcsproxy/java_stub/HTMLTokenizer.java:282-302 | the end tag the specification gives |
| HtmlTokenizer.Tokenizer.SkipComment | tcsproxy/java_stub/HTMLTokenizer.java:264-280 | stops behind the closing dashes |
| HtmlTokenizer.Tokenizer.SkipDeclaration | tcsproxy/java_stub/HTMLTokenizer.java:230-262 | stops behind the closing bracket |
| HtmlTokenizer.Tokenizer.ReadReference | tcsproxy/java_stub/HTMLTokenizer.java:45-79 | numeric and named references with their closing byte, and the error of a number too large |
| HtmlTokenizer.Tokenizer.NextToken | tcsproxy/java_stub/HTMLTokenizer.java:36-162 | delivers the specified token, or the end of the page with no input left |
| HtmlTokens.TokensUntil | tcsproxy/java_stub/HTMLTokenizer.java:36-162 | the tokens up to the end of the page or up to where the tokenizer fails; all of them if it does not |
| HtmlTokenizer.Tokenizer.AllTokens | tcsproxy/java_stub/HTMLTokenizer.java:36-162 | the tokens of the page, or those before the tokenizer fails |
| HtmlPrint.ReadsAttributes | tcsproxy/java_stub/HTMLTokenizer.java:318-372 | attributes with quoted, plain or no value are read back, whatever junk stands between them and around the equals sign |
| HtmlPrint.PrintReads | tcsproxy/java_stub/HTMLTokenizer.java:36-162 | a page written from start tags, end tags, texts, comments and empty declarations, each character of a text raw, by number, by any of the seven names or by an unknown one, is tokenized back to its tags and text |
| HtmlPrint.CommentPassed | tcsproxy/java_stub/HTMLTokenizer.java:97-106 | a comment declaration with any comments is passed over: what follows is read as if it were not there |
| HtmlPrint.ScansGlyph | tcsproxy/java_stub/HTMLTokenizer.java:176-228 | each way of writing a character gives that character and leaves what follows |
| HtmlPrint.EntityNames | tcsproxy/java_stub/HTMLTokenizer.java:196-228 | the names known are exactly copy, reg, amp, gt, lt, quot and nbsp, with their characters; any other gives a question mark |
| HtmlPrint.NumberTooLarge | tcsproxy/java_stub/HTMLTokenizer.java:176-194 | a numeric reference beyond the largest integer makes the tokenizer fail |
| HtmlPrint.CutOff | tcsproxy/java_stub/HTMLTokenizer.java:45-162 | markup cut off by the end of the page is text |
| HtmlPrint.UnclosedTag | tcsproxy/java_stub/HTMLTokenizer.java:125-150 | a tag never closed ends the page |
| HtmlCompactor.UnreadIgnored | tcsproxy/java_stub/HTMLParser.java:392-540 | tokens an element leaves unread change nothing in what it does |
| HtmlCompactor.RestIgnored | tcsproxy/java_stub/HTMLParser.java:382-540 | a page that is over within some tokens is the same page whatever follows them |
| HtmlCompactor.Compact | tcsproxy/java_stub/HTMLParser.java:370-385 | from bytes to byte code and back: fails if and only if the tokenizer does before the page is over; the tags nest; the reader gets the repaired page if and only if it is clean |
| AvlSpec.LeftGrew | tcsproxy/client_lib/src/utils.c:1078-1139 | after left growth the four cases restore exact balance factors; the case that would exit is never met |
| AvlSpec.RightGrew | tcsproxy/client_lib/src/utils.c:1149-1209 | likewise on the right |
| AvlSpec.AddInOrder | tcsproxy/client_lib/src/utils.c:1055-1217 | insertion is refused exactly for keys present; else the key goes to its place in the order |
| AvlSpec.AddCorrect | tcsproxy/client_lib/src/utils.c:1055-1217 | insertion keeps an AVL tree and adds exactly its key |
| AvlSpec.HeightLogarithmic | tcsproxy/client_lib/src/utils.c:1055-1217 | a balanced tree of height h has at least 2^(h/2) - 1 nodes |
| AvlTree.RotateLL | tcsproxy/client_lib/src/utils.c:1089-1099 | the pointer writes of the rotation leave the specified tree with correct parent links |
| AvlTree.RotateLR | tcsproxy/client_lib/src/utils.c:1100-1134 | likewise the double rotation |
| AvlTree.RotateRR | tcsproxy/client_lib/src/utils.c:1195-1205 | likewise |
| AvlTree.RotateRL | tcsproxy/client_lib/src/utils.c:1159-1194 | likewise |
| AvlTree.Library.AddLeaf | tcsproxy/client_lib/src/utils.c:1061-1071 | the new leaf hangs below the static parent, which is forgotten |
| AvlTree.Library.TreeAdd | tcsproxy/client_lib/src/utils.c:1055-1217 | the heap then holds the specified tree with parent links and the static parent is null, or on a duplicate the tree is unchanged and the static parent names the node above the one with the key, or is as before if the root has it |
| AvlTree.Tree.Add | tcsproxy/client_lib/src/utils.c:1055-1217 | from any state of the statics: -1 exactly for a key present, the tree then unchanged; else the key is added in order; balance, order and links hold; the first node of a tree hangs below the static parent, so a root without parent is kept if and only if the tree was not empty or the static parent was null |
| AvlTree.BuiltIsSortedSet | tcsproxy/client_lib/src/utils.c:1055-1217 | the keys of a tree built by additions are the distinct keys, ascending |
| AvlTree.Build | tcsproxy/client_lib/src/utils.c:1055-1217 | any run of additions, duplicates included, meets only legal cases and ends in that tree with those return codes |
| AvlWalk.TreeFirst | tcsproxy/client_lib/src/utils.c:1316-1327 | the leftmost node |
| AvlWalk.TreeNext | tcsproxy/client_lib/src/utils.c:1342-1362 | the next node in order, through parent links; after the last, the node above the root if there is one |
| AvlWalk.SuccIsNext | tcsproxy/client_lib/src/utils.c:1342-1362 | the successor is the next entry of the in-order line |
| AvlWalk.Walk | tcsproxy/client_lib/src/utils.c:1316-1362 | first and next list every key once in ascending order |
| AvlWalk.BegunStale | tcsproxy/client_lib/src/utils.c:1057-1071 | a tree begun while the static parent names a node hangs below that node, and its iteration goes on there |
| AvlWalk.TwoTrees | tcsproxy/client_lib/src/utils.c:1057-1217 | adding 1, 2, 2 to one tree and 5 to another: the second tree hangs below the root of the first, into which its iteration walks |
| AvlWalk.TreeSearch | tcsproxy/client_lib/src/utils.c:1301-1314 | finds a node with the key exactly when the key is present |
| AvlWalk.DeletesKey | tcsproxy/client_lib/src/utils.c:1248-1277 | splicing out the node, or its successor after copying the key, removes exactly the key |
| AvlWalk.TreeDelete | tcsproxy/client_lib/src/utils.c:1219-1285 | -1 exactly for an absent key, nothing changed; else exactly that key leaves, order and parent links kept; the caller's root is the new root if and only if nothing hangs above the root or the root is not the node spliced out, otherwise it names the node freed and a link of the node above is overwritten |
| AvlWalk.DeletesForeign | tcsproxy/client_lib/src/utils.c:1256-1267 | after that run, deleting 5 leaves the second tree's root on the freed node and cuts a node off the first tree |
| Md5Rounds.Round1 | tcsproxy/client_lib/src/md5.c:206-226 | the unrolled round 1 is the table-driven round of section 3.4 of RFC 1321 |
| Md5Rounds.Round2 | tcsproxy/client_lib/src/md5.c:228-248 | the unrolled round 2 is the table-driven round of section 3.4 of RFC 1321 |
| Md5Rounds.Round3 | tcsproxy/client_lib/src/md5.c:250-270 | the unrolled round 3 is the table-driven round of section 3.4 of RFC 1321 |
| Md5Rounds.Round4 | tcsproxy/client_lib/src/md5.c:272-292 | the unrolled round 4 is the table-driven round of section 3.4 of RFC 1321 |
| Md5Vectors.FChooses | tcsproxy/client_lib/src/md5.c:64 | where x is set F is y, elsewhere z |
| Md5Vectors.GChooses | tcsproxy/client_lib/src/md5.c:65 | where z is set G is x, elsewhere y |
| Md5Vectors.HParity | tcsproxy/client_lib/src/md5.c:66 | H is the parity of the three bits |
| Md5Vectors.IFlips | tcsproxy/client_lib/src/md5.c:67 | I is y flipped exactly where x is set or z is clear |
| Md5Rounds.Transform | tcsproxy/client_lib/src/md5.c:200-298 | the four rounds and the final additions are the compression of one block |
| Md5.JoinSplit | tcsproxy/client_lib/src/md5.c:179-195 | splitting a word into octets and joining them, low-order first, gives the word back |
| Md5.CountMore | tcsproxy/client_lib/src/md5.c:133-137 | the two counter words with their carry hold the bit count modulo 2^64 after any update |
| Md5.CountOffset | tcsproxy/client_lib/src/md5.c:131 | the buffer position taken from the counter is the message length modulo 64 |
| Md5.ClosingBlock | tcsproxy/client_lib/src/md5.c:159-188 | padding plus the saved counter words form the last block of the padded message of sections 3.1 and 3.2 |
| Md5.Context.constructor | tcsproxy/client_lib/src/md5.c:104-115 | an empty message |
| Md5.Context.Absorb | tcsproxy/client_lib/src/md5.c:139-153 | one octet goes to the buffer; a full buffer is compressed |
| Md5.Context.Update | tcsproxy/client_lib/src/md5.c:121-154 | the context accounts for the old message followed by the data |
| Md5.Context.Final | tcsproxy/client_lib/src/md5.c:159-196 | the digest is that of everything given; the context then holds the final chaining words, counts the padding, and its buffer starts with the last 56 octets of the padded message |
| Md5.DigestOfPieces | tcsproxy/client_lib/src/md5.c:104-196 | for every message and every way of cutting it into updates the digest is the one-shot digest |
| Md5Vectors.KnownDigest | tcsproxy/client_lib/src/md5.c:104-298 | the digest of the 62 letters and digits, which fill two blocks, is the octets given of Appendix A.5 of RFC 1321 |
| Diffusion.SharesExact | tcsproxy/Tbmp_munger/src/ppmbufquant.c:523-556 | the four shares of an error lose nothing to rounding |
| Diffusion.Search | tcsproxy/Tbmp_munger/src/ppmbufquant.c:488-508 | the first of the closest colours |
| Diffusion.CoversIff | tcsproxy/Tbmp_munger/src/ppmbufquant.c:488-508 | colours on the scale are always close enough to be found if and only if the scale ends at 25819 or below; from 25820 on black is too far from white |
| Diffusion.Ditherer.Match | tcsproxy/Tbmp_munger/src/ppmbufquant.c:485-517 | the remembered match is the first of the closest colours, whatever the table has room for; -1 if and only if every colour is too far away |
| Diffusion.Ditherer.Propagate | tcsproxy/Tbmp_munger/src/ppmbufquant.c:520-558 | scatters the shares in the direction of the row |
| Diffusion.Ditherer.DitherRow | tcsproxy/Tbmp_munger/src/ppmbufquant.c:451-575 | each column shows the colour closest to its pixel plus the error gathered by formula; the next row holds what the formula says; the error rows together gain exactly the errors of the row; or the row stops at a column whose colour is too far from every colour of the map |
| Diffusion.StuckNotDone | tcsproxy/Tbmp_munger/src/ppmbufquant.c:488-508 | a row that stops cannot be done in any way |
| Diffusion.RowUnique | tcsproxy/Tbmp_munger/src/ppmbufquant.c:466-575 | the gather equations have only one solution |
| Diffusion.RowMirrored | tcsproxy/Tbmp_munger/src/ppmbufquant.c:456-575 | a leftward row is the mirror image of the mirrored row walked rightward |
| Diffusion.DitherImage | tcsproxy/Tbmp_munger/src/ppmbufquant.c:432-591 | all rows of the image, directions alternating, each starting from what the row above passed down, up to a row that stops, of which there is none if the map covers the scale |
| Diffusion.ErrorsBounded | tcsproxy/Tbmp_munger/src/ppmbufquant.c:442-588 | with at least two levels above black every error cell of every row, either direction, stays within FS_SCALE times the maximum |
| Diffusion.OneStepOverflows | tcsproxy/Tbmp_munger/src/ppmbufquant.c:442-448 | with one level above black it can fail |
| DiffusionChannels.TextbookColumn | tcsproxy/Tbmp_munger/src/ppmbufquant.c:466-558 | in every dithered image, at every column and in each component apart, what is shown and its error make the pixel plus the error reaching it by the literal sixteenths 7, 3, 5 and 1, rounded toward the pixel, stopped at the ends of the scale; and the colour shown is the first closest to that |
| PixelMath.SettlesOnce | tcsproxy/Tbmp_munger/src/ppmbufquant.c:473-481 | only one value does |
| DiffusionChannels.ImageExact | tcsproxy/Tbmp_munger/src/ppmbufquant.c:432-591 | an image of colours of the map, started from no error, is shown as it is |
| DiffusionChannels.RowShows | tcsproxy/Tbmp_munger/src/ppmbufquant.c:451-575 | in each component that stays on the scale a row's pixels and incoming error equal what it shows, passes down and loses at its two ends, to within a level for each column |
| MedianCut.TotalPermuted | tcsproxy/gif_munger/src/ppmquant.c:443-468 | rearranging a box keeps its pixel count |
| MedianCut.TilesSplit | tcsproxy/gif_munger/src/ppmquant.c:474-478 | splitting a box, rearranged or not, keeps the boxes non-empty, contiguous, disjoint and covering, with right counts |
| MedianCut.SortRange | tcsproxy/gif_munger/src/ppmquant.c:443-454 | only the box's stretch is rearranged, and ends sorted along the axis |
| MedianCut.FindMedian | tcsproxy/gif_munger/src/ppmquant.c:462-469 | the least split with half the pixels below it, leaving both sides non-empty |
| MedianCut.FirstSplittable | tcsproxy/gif_munger/src/ppmquant.c:380-384 | the first box with two colours, or none |
| MedianCut.LongestAxis | tcsproxy/gif_munger/src/ppmquant.c:388-457 | the first of the axes along which the box is longest in luminance, whatever the luminance |
| MedianCut.ExtremesTaken | tcsproxy/gif_munger/src/ppmquant.c:388-405 | the bounds of a box are components of its colours |
| MedianCut.Split | tcsproxy/gif_munger/src/ppmquant.c:385-480 | the box's stretch is reordered and cut at its median: along the axis no colour of the lower part is above one of the upper; the two halves replace the box, boxes tile the histogram, the list is sorted by pixel count |
| MedianCut.SplitLongest | tcsproxy/gif_munger/src/ppmquant.c:377-480 | the box cut has the most pixels of those with two colours, and is cut along its longest axis |
| MedianCut.AverageBetween | tcsproxy/gif_munger/src/ppmquant.c:535-553 | the average of the pixels lies between the least and greatest component of the box |
| MedianCut.Representative | tcsproxy/gif_munger/src/ppmquant.c:535-553 | that average on each axis, within range |
| MedianCut.MedianCut | tcsproxy/gif_munger/src/ppmquant.c:362-555 | the boxes come from the whole histogram by such cuts one after another; they tile it, counts add up to the pixel total, there are min(newcolors, colors) of them, and each colour is the average of its box's pixels |
| Hipass.XBlur | tcsproxy/2bit_munger/src/hipass.c:144-167 | the running sum of three gives each pixel's horizontal neighbourhood, ends weighted as three |
| Hipass.AddRow | tcsproxy/2bit_munger/src/hipass.c:174-193 | adds the rows, unrolled by eight, within 16 bits |
| Hipass.SubtractRow | tcsproxy/2bit_munger/src/hipass.c:200-219 | subtracts the rows, within 16 bits |
| Hipass.Extrapolate | tcsproxy/2bit_munger/src/hipass.c:116-137 | each pixel is the formula's, rounded toward zero and clamped |
| Hipass.Filter.TakeRow | tcsproxy/2bit_munger/src/hipass.c:78-83 | a row joins the sum and the past rows swap |
| Hipass.Filter.FirstRow | tcsproxy/2bit_munger/src/hipass.c:75-86 | the top row is the formula's, weight 6 |
| Hipass.Filter.MiddleRow | tcsproxy/2bit_munger/src/hipass.c:90-103 | an inner row is the formula's, weight 9, and the buffers rotate |
| Hipass.Filter.LastRow | tcsproxy/2bit_munger/src/hipass.c:87-89 | the bottom row is the formula's, weight 6 |
| Hipass.Filter.GetRow | tcsproxy/2bit_munger/src/hipass.c:60-109 | rows asked for in order are the formula's; out of order it refuses; small images and strength 0 pass through |
| Hipass.FilterImage | tcsproxy/2bit_munger/src/hipass.c:60-137 | streaming the whole image gives the whole-image formula at every pixel, and no 16-bit sum overflows |
| HipassWindow.AroundIsMean | tcsproxy/2bit_munger/src/hipass.c:144-167 | the filter's sum over its weight is the mean of the pixels at most one row and column away, exactly in inner columns and at most a sixth of a level above it at the edges |
| HipassWindow.MoveSettles | tcsproxy/2bit_munger/src/hipass.c:116-137 | the filtered pixel is the pixel moved by the strength times its distance from that sum over 256 weights, less than a level short of it, or stopped at 0 or 255 |
| HipassWindow.AwayFromMean | tcsproxy/2bit_munger/src/hipass.c:116-137 | with a positive strength a pixel at or below its window's mean does not go up, and one above it, at the left and right edges by a sixth of a level, does not go down; with a negative strength the other way round; an inner pixel at the mean stays |
| HipassWindow.EvenKept | tcsproxy/2bit_munger/src/hipass.c:60-137 | an image of one value comes out as it is, whatever the strength |
| TaskQueue.SlotAhead | tcsproxy/frontend/src/thr_queue.c:33-34 | positions on the ring, wrapping once |
| TaskQueue.RingEmpty | tcsproxy/frontend/src/thr_queue.c:33 | head meets tail exactly when every task dispatched has been taken |
| TaskQueue.RingFull | tcsproxy/frontend/src/thr_queue.c:34 | the full test holds exactly with nthreads - 1 tasks waiting |
| TaskQueue.RingFetched | tcsproxy/frontend/src/thr_queue.c:260-261 | a fetch takes exactly the oldest waiting task |
| TaskQueue.RingStored | tcsproxy/frontend/src/thr_queue.c:308-309 | a store overwrites no waiting task |
| TaskQueue.StepKeepsInv | tcsproxy/frontend/src/thr_queue.c:246-317 | every step of every thread keeps the invariant |
| TaskQueue.QueueIsSafe | tcsproxy/frontend/src/thr_queue.c:246-317 | in every state of every interleaving, spurious wake-ups included: tasks returned are a prefix of tasks dispatched, at most nthreads - 1 wait on the ring, each intact in its slot, none null, tasks_done counts the threads outside, the mutex excludes |
| TaskQueue.InBounds | tcsproxy/frontend/src/thr_queue.c:260-309 | no run reads or writes outside the ring |
| TaskQueue.SingleThreadStalls | tcsproxy/frontend/src/thr_queue.c:34 | with one thread no task is ever dispatched |
| TaskQueue.DispatchesIff | tcsproxy/frontend/src/thr_queue.c:34 | from the start some run dispatches a task if and only if there are at least two threads |
| QueueProgress.WorkerReturns | tcsproxy/frontend/src/thr_queue.c:246-270 | with the mutex free and a task waiting, any worker, wherever it is, returns the oldest waiting task by its own steps |
| QueueProgress.HolderLeaves | tcsproxy/frontend/src/thr_queue.c:246-317 | while a task waits, whoever is inside the mutex leaves it by its own steps |
| QueueProgress.TaskReturns | tcsproxy/frontend/src/thr_queue.c:246-317 | from every state of every run in which a task waits the threads can go on so that the oldest is returned next |
| QueueProgress.DispatcherStores | tcsproxy/frontend/src/thr_queue.c:297-317 | with the mutex free and room in the ring, any dispatcher stores the task it brought by its own steps |
| Headers.CrSplit | tcsproxy/client_lib/src/clib.c:511-543 | the least end of any CRCR or CRLFCRLF |
| Headers.LfSplit | tcsproxy/client_lib/src/clib.c:545-564 | the least end of any LFLF |
| Headers.CanonicalForm | tcsproxy/client_lib/src/clib.c:638-677 | no bare CR or LF, and an empty line at the end |
| Headers.CanonVisible | tcsproxy/client_lib/src/clib.c:638-677 | only line endings change |
| Headers.CanonicalKeeps | tcsproxy/client_lib/src/clib.c:638-677 | canonical headers have the same bytes in their lines and the same non-empty lines in the same order |
| Headers.CanonicalFits | tcsproxy/client_lib/src/clib.c:646 | split headers fit the buffer of 2n + 1 bytes |
| Headers.CanonicalStable | tcsproxy/client_lib/src/clib.c:638-677 | canonical headers stay as they are if and only if the headers ended in a line break |
| Headers.Canonicalize | tcsproxy/client_lib/src/clib.c:638-677 | the scanning loop computes the canonical headers inside its buffer |
| Headers.GetHeaderContent | tcsproxy/client_lib/src/clib.c:499-613 | cuts at the least end of an empty line if there is one, else refuses; keeps every content byte |
| MagicUrl.Recognise | tcsproxy/frontend/src/url_magic.c:26-62 | exactly the URLs whose last star before the form opens delimited arguments |
| MagicUrl.ScansArg | tcsproxy/frontend/src/url_magic.c:164-173 | scanning a printed argument gives the argument |
| MagicUrl.TakesAll | tcsproxy/frontend/src/url_magic.c:163-203 | scanning printed arguments sets them all, in order |
| MagicUrl.LastPlain | tcsproxy/frontend/src/url_magic.c:42-46 | the last star of all, where arguments are taken from, is the last before the form, which decides whether there are any, if and only if the form holds no star |
| MagicUrl.MagicRoundTrip | tcsproxy/frontend/src/url_magic.c:70-207 | putting arguments into a URL and taking them out restores the URL and sets exactly those arguments, if and only if the form holds no star |
| MagicUrl.TextRoundTripIff | tcsproxy/frontend/src/url_magic.c:98-101 | a string comes back, whatever the scanner holds, if and only if it is not empty, has at most 78 characters and holds no delimiter, star or question mark, and the form holds no star |
| MagicUrl.LongLost | tcsproxy/frontend/src/url_magic.c:166-188 | a string of 79 characters comes back without its closing zero, a longer one not at all |
| MagicUrl.LongOverruns | tcsproxy/frontend/src/url_magic.c:139-166 | a string of 80 characters or more overruns the buffer it is scanned into |
| MagicUrl.MagicTwice | tcsproxy/frontend/src/url_magic.c:89-113 | arguments put into a URL that carries some go behind them |
| MagicUrl.NewShape | tcsproxy/frontend/src/url_magic.c:89-121 | a URL without a star gets a star, the delimiter and its arguments before the form |
| MagicUrl.MagicSample | tcsproxy/frontend/src/url_magic.c:89-121 | two URLs with their arguments, in full |
| MagicUrl.UndefinedIff | tcsproxy/frontend/src/url_magic.c:129-207 | for every URL: the program leaves the text or overruns its buffer if and only if the URL is magic and either its last star is in the form with no delimiter two characters or more behind it, or an argument looked for is a string of 80 characters or more |
| MagicUrl.StarInFormEnds | tcsproxy/frontend/src/url_magic.c:156-203 | a magic URL, a star in its form, and no delimiter behind it |
| MagicUrl.StarInForm | tcsproxy/frontend/src/url_magic.c:156-203 | two such URLs |
| MagicUrl.OverrideLooks | tcsproxy/frontend/src/url_magic.c:178-201 | ids set get their new value, every other id keeps its old one |
| MagicUrl.ArgumentList.Magicify | tcsproxy/frontend/src/url_magic.c:70-121 | prints the arguments before the form, if every string is closed |
| MagicUrl.ArgumentList.Set | tcsproxy/frontend/src/url_magic.c:178-201 | replaces the argument with that id or adds it, refusing when full |
| MagicUrl.ArgumentList.Unmagicify | tcsproxy/frontend/src/url_magic.c:129-207 | on any URL: sets the arguments found from the last star on and gives back the URL around them, except where the program leaves the text or its buffer |

## Left out

- Reading and writing of whole GIF files around the image data: headers, colour maps, extensions. What the
  program does after a read outside the data, or after the library's error exit, which does not return.
- GifImage.ImageRoundTrip: what an interlaced image of two to four rows would become.
- AvlWalk.TreeDelete: does not keep balance, because the code does a plain binary-tree deletion.
- Tree_Destroy, Tree_Last and the other containers of utils.c: easy members.
- HtmlCompactor.Compact: collects the tokens before parsing, where the program reads them as it goes; `EndsWithin` says
  when it would have stopped before the tokenizer failed.
- Letters outside the first 256 characters: the tokenizer reads bytes.
- Md5.Context.Final: leaves open the last eight octets of the buffer, which are whatever was there.
- Diffusion.DitherImage: what the program does after a colour too far from the whole map; rows are copied into a line and
  out again.
- MedianCut.MedianCut: the rounding of luminance to single precision; the library sort is an insertion sort here.
- Building the colour histogram and colour hash, scaling of maxval, and the bitmap packing after dithering: library code
  or easy members.
- Hipass.Filter.GetRow: the product of strength and difference is not bounded to 32 bits.
- QueueProgress.TaskReturns: a run exists, but not every run goes that way: workers and dispatchers share one condition
  variable and each signal wakes one waiter, so that a dispatcher proceeds is not guaranteed. Tasks are numbers, their work is not modelled.
- MagicUrl.MagicRoundTrip: integer and string arguments; of a real number only its text is kept, not its value. For
  strings of other kinds than it allows, `TextRoundTripIff` says that one alone does not return.
- MagicUrl.ArgumentList.Unmagicify: what the program does outside the text or the buffer.
- MagicUrl.ArgumentList.Magicify: what an unclosed string prints as, which depends on the memory behind it.
- Headers.GetHeaderContent: out-of-memory exits.
- Sockets, timeouts, caches, logging, user preferences, distiller calls and the zoom filters: plumbing, foreign calls or
  floating point.
