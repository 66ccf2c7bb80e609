# ILI9225 / TLS8301S framebuffer drivers: display-update core

The model covers the display-update core shared by two LCD framebuffer drivers
for the LPC313x board: `drivers/video/ili9225.c` and `drivers/video/tls8301s.c`.
Each driver exposes a 16-bit linear framebuffer of `xres * yres` pixels. The
buffer is cut into host-page-sized chunks (pages). Each page records its
first pixel's column and row, its word offset in the buffer and its pixel
count. When the deferred-io machinery reports dirty pages, the driver copies
each one to the controller's GRAM. It reprograms the controller's write
window (entry mode, row, column, GRAM command) only when the cached cursor
`last_buffer_start` is not already at the page's start.

The two drivers differ only in their initialisation sequence, the signatures
they accept at probe time and the ILI9225 standby pair. The model is one
engine parameterised by a panel descriptor (`Panels.Panel`):

- `bus.dfy` (module `Bus`): the two 16-bit ports as a trace of bus operations.
  It holds the table entries of the setup and standby sequences, the encoding
  `Emit` of a table onto the bus, and its inverse `Parse`.
- `controller.dfy` (module `Controller`): an abstract panel controller. It has
  a register index, entry mode, row and column registers, and a GRAM address
  counter. A `stray` flag records any pixel burst that did not land at the
  GRAM address equal to its own framebuffer offset. This is the partner of the
  write-window cache.
- `pages.dfy` (module `Pages`): framebuffer sizing (`video_alloc`) and the page
  table. `PageAt` is the exact reference definition. The drivers' x/y carry
  walk in unsigned shorts is proved to compute exactly it.
- `panels.dfy` (module `Panels`): the init tables of both panels, including
  both ILI9225 supply builds (`LCD_3V3` and the 2.8 V default). It also holds
  the standby tables and the accepted signatures.
- `flush.dfy` (module `Flush`): the bus operations of `copy`, `update` and
  `update_all` as functions of the page table and the cursor, and the proofs
  that the cache is sound.
- `display.dfy` (module `Driver`): the per-device structure as a class. Its
  methods are `reg_set`, `send_cmd`, `mdelay`, `setup`, standby, the signature
  check, `video_alloc`, `pages_alloc`, `copy`, `update` and `update_all`. The
  module-level `Probe` runs them in probe's order and proves the end-to-end
  result.

Buffer pointers are modelled as word offsets from `smem_start`, taken as 0.
The unsigned-short narrowings in `pages_alloc` are written out as
`Word(n) = n % 0x10000`. `Pages.Supported` is the class of geometries within
which none of them wraps: 16 bits per pixel, `line_length == 2 * xres`, both
resolutions below 0x8000, an even page size below 0x10000, and fewer than
0x10000 pages. The drivers' own 220 x 176 screen with 4096-byte pages is in
that class (`Pages.ScreenPages`).

Two properties of the code that the proofs make explicit:

- The (x, y) walk of `pages_alloc` is exact: `Pages.CarryWalk` and
  `Pages.NarrowWalk` prove that every page's (x, y) is the row and column of
  its first pixel, and the table equals `Pages.PageAt`.
- The first full flush sends no window writes at all. `pages_alloc` resets
  the cursor to the buffer start (ili9225.c:381, tls8301s.c:348), so page 0 is
  a bare burst, and every later page starts where the previous one ended.
  Setup leaves the GRAM at (0, 0), so that burst still lands correctly
  (`Panels.SetupLeavesGramAtOrigin`, `Flush.FullFlushFromStart`,
  `Driver.Probe`).
- Standby leaves the write-window cache stale (`Panels.StandbyDeselectsGram`).
  Enter and exit end with writes to 0x10 and 0x07, but `last_buffer_start`
  is kept. A copy whose page starts at the cached cursor would skip the
  window (ili9225.c:122), and its burst would go to that register instead of
  the GRAM. The drivers never call standby, so this stays latent.

## Model

| member | source | states |
|---|---|---|
| `Bus.Encode` | drivers/video/ili9225.c:49-56 | Definition: a register write is the byte-masked register on the control port then the value, as a word, on the data port; a command is the masked register alone; a sleep is one delay. Its properties are stated by `Bus.ParseEmit`, `Bus.EmitParse` and `Controller.RunWriteReg` |
| `Bus.Emit` | drivers/video/ili9225.c:176-177 | Definition: a table is performed entry by entry, each entry through `reg_set`, `send_cmd` or `mdelay`. `Bus.ParseEmit` and `Bus.EmitParse` prove it loses nothing, and `Controller.EmitHasNoBursts` that it never bursts |
| `Bus.Parse` | drivers/video/ili9225.c:92-98 | Model property, not code of the drivers: the drivers have no decoder. It decodes port traffic back into table entries: a control write followed by a data write is a register write, and one followed by anything else is a command. It is the inverse that `Bus.ParseEmit` and `Bus.EmitParse` pair with `Emit`, to show that `reg_set` and `send_cmd` lose nothing |
| `Bus.ParseEmit` | drivers/video/ili9225.c:49-56 | Decoding the port writes of any well-formed table (byte register, word value) gives back exactly that table: `reg_set`/`send_cmd`/`mdelay` lose nothing |
| `Bus.EmitParse` | drivers/video/ili9225.c:92-98 | Conversely, every trace the decoder accepts is exactly the port traffic of the well-formed table it returns |
| `Pages.PagesCount` | drivers/video/ili9225.c:298-301 | The page count is the least n with n * PAGE_SIZE >= line_length * yres (round-up division) |
| `Pages.PagesCountIsLeast` | drivers/video/tls8301s.c:265-268 | No smaller page count covers the frame: any n with n * PAGE_SIZE >= frame size is at least the computed count |
| `Pages.SmemLen` | drivers/video/ili9225.c:305 | The buffer length is a whole number of pages, at least the frame size and less than one page more |
| `Pages.PixelsPerPage` | drivers/video/ili9225.c:345 | Pixels per page is half the page size at 16 bits per pixel, positive and below 0x8000 |
| `Pages.YOffsetPerPage` | drivers/video/ili9225.c:346 | Definition: whole rows per page, pixels_per_page / xres. `Pages.XOffsetPerPage` proves it recomposes pixels per page with the column step, and `Pages.PageSteps` that its unsigned-short assignment does not wrap |
| `Pages.XOffsetPerPage` | drivers/video/ili9225.c:346-348 | The per-page column step is below xres and, with the row step, recomposes pixels per page (yoffset * xres + xoffset == ppp) |
| `Pages.PageSteps` | drivers/video/tls8301s.c:312-315 | The unsigned-short assignments of pixels_per_page, yoffset_per_page and xoffset_per_page do not wrap: they equal the exact values |
| `Pages.PagesCover` | drivers/video/ili9225.c:355-360 | There is at least one page, the last page starts inside the frame and the pages together reach its end |
| `Pages.PageLen` | drivers/video/ili9225.c:356-360 | Every page but the last holds exactly pixels_per_page pixels; the last holds the remainder of the frame; none is empty |
| `Pages.PageAt` | drivers/video/ili9225.c:364-367 | Each page's (x, y) is the column and row of its buffer offset (y * xres + x == buffer, x < xres), and every field fits an unsigned short |
| `Pages.PagePosition` | drivers/video/ili9225.c:364-367 | A page's row times xres plus its column is its buffer offset: the window the copy sends addresses the page's first pixel |
| `Pages.FirstPage` | drivers/video/ili9225.c:330-331 | There is a first page, and it starts at column 0, row 0 and buffer offset 0, where the loop's x, y and buffer start |
| `Pages.CarryWalk` | drivers/video/ili9225.c:369-374 | Adding xoffset with a carry into y, then yoffset, moves exactly from the row and column of pixel i * ppp to those of pixel (i + 1) * ppp |
| `Pages.NarrowCarryWalk` | drivers/video/tls8301s.c:336-341 | The same carry step in unsigned shorts, for every page but the last, lands on the exact row and column of the next page's first pixel |
| `Pages.NarrowWalk` | drivers/video/tls8301s.c:336-342 | Each iteration of the pages_alloc loop turns page i's entry into page i + 1's entry: next (x, y) and buffer + ppp |
| `Pages.WalkFrom` | drivers/video/ili9225.c:369-375 | A walker holding page i's column and row and the two per-page steps, narrowing every sum to an unsigned short, reaches page i + 1's column and row on either side of the carry |
| `Pages.PageStart` | drivers/video/tls8301s.c:323-327 | Every page starts inside the frame; only the last page may be cut short by the frame's end |
| `Pages.PagesAbut` | drivers/video/ili9225.c:375 | Each page ends exactly where the next one starts |
| `Pages.NextStart` | drivers/video/ili9225.c:375 | The page that starts where page i ends is page i + 1 and no other |
| `Pages.LastPageEndsFrame` | drivers/video/tls8301s.c:323-327 | The last page ends exactly at pixel xres * yres |
| `Pages.PagesDisjoint` | drivers/video/ili9225.c:355-375 | Pages never overlap: an earlier page ends at or before a later one starts |
| `Pages.PixelInOnePage` | drivers/video/ili9225.c:355-375 | Every pixel of the frame lies in exactly one page, the one with index pixel / ppp |
| `Pages.PixelPage` | drivers/video/ili9225.c:355-375 | Pixel n of the frame lies in page n / ppp, which exists |
| `Pages.OnlyPage` | drivers/video/ili9225.c:355-375 | Two pages that both hold pixel n are the same page |
| `Pages.FullPagesSum` | drivers/video/ili9225.c:356-360 | The first n pages (none of them the last) hold n * ppp pixels in all |
| `Pages.PageLengthsSum` | drivers/video/tls8301s.c:323-327 | The page lengths add up to exactly xres * yres: the table covers the frame and nothing more |
| `Pages.ScreenPages` | drivers/video/ili9225.c:408-422 | For the 220 x 176 panel with 4096-byte pages: supported, 2048 pixels per page, steps of 9 rows and 68 columns, 19 pages, the last of 1856 pixels, a 77824-byte buffer |
| `Controller.RunAppend` | drivers/video/ili9225.c:151-159 | Model property of the controller, used by the proofs about `update`: running two traces one after the other equals running their concatenation |
| `Controller.RunWithoutBursts` | drivers/video/ili9225.c:523-525 | Model property of the controller, used by the proofs about probe's signature check: port traffic without a pixel burst (register writes, commands, reads, delays) never marks a burst as misplaced |
| `Controller.EmitHasNoBursts` | drivers/video/ili9225.c:49-56 | No table entry (register write, command, delay) puts a pixel burst on the bus |
| `Controller.TableKeepsStray` | drivers/video/ili9225.c:170-273 | Replaying any init or standby table leaves the misplaced-burst flag as it was |
| `Controller.RunWriteReg` | drivers/video/ili9225.c:49-56 | A reg_set is a register select followed by one data write to that register |
| `Controller.RunOrigin` | drivers/video/ili9225.c:265-269 | Entry mode 0x1038 and row and column 0 put the address counter at the origin, whatever the controller held before |
| `Panels.Panel.Init` | drivers/video/ili9225.c:180-271 | Definition: the sequence setup performs, per panel and per supply build (tls8301s.c:166-251 for the TLS8301S). `Panels.Ili9225Delays`, `Panels.Ili9225Ending`, `Panels.Tls8301sShape` and `Panels.SetupLeavesGramAtOrigin` state what it does |
| `Panels.Panel.Accepts` | drivers/video/ili9225.c:529 | Definition: the ids probe accepts, 0x9225 or 0x9226 for the ILI9225 and 0x9325 for the TLS8301S (tls8301s.c:496). `Driver.Display.CheckSignature` proves the check succeeds exactly for them |
| `Panels.Ili9225BuildsAgree` | drivers/video/ili9225.c:180-264 | The LCD_3V3 and 2.8 V builds write the same registers in the same order, with the same delays in the same places; only the values differ |
| `Panels.Ili9225Delays` | drivers/video/ili9225.c:180-240 | Either ILI9225 build waits exactly twice: 10 ms right after register 0x0F and 120 ms right after register 0x11 |
| `Panels.Ili9225Ending` | drivers/video/ili9225.c:265-272 | Both ILI9225 builds end with landscape entry mode, GRAM address (0, 0), display on (0x1017), then the GRAM command |
| `Panels.Ili9225EndsAtOrigin` | drivers/video/ili9225.c:265-272 | Whatever comes before it, the ILI9225 ending leaves the GRAM selected, landscape entry mode and the counter at offset 0, with no burst misplaced |
| `Panels.Ili9225StandbyOnBus` | drivers/video/ili9225.c:275-286 | Standby enter is 0x07=0, 50 ms, 0x10=1; standby exit is 0x10=0, 120 ms, 0x07=0x1017, as port traffic |
| `Panels.StandbyDeselectsGram` | drivers/video/ili9225.c:275-286 | Either standby sequence ends with a plain register write (0x10 or 0x07), so the controller is left with the GRAM command deselected and out of sync with every cursor, while `last_buffer_start` is kept |
| `Panels.Tls8301sShape` | drivers/video/tls8301s.c:159-253 | The TLS8301S sequence starts with the display-off writes, waits 50, 200, 50, 50, 50 and 70 ms in that order, and ends with display on, landscape entry, GRAM (0, 0) and the GRAM command |
| `Panels.Tls8301sStart` | drivers/video/tls8301s.c:168-171 | The first four TLS8301S writes are 0x07=0x0030, 0x07=0, 0x10=0, 0x12=0 |
| `Panels.Tls8301sEndsAtOrigin` | drivers/video/tls8301s.c:245-251 | Whatever comes before it, the TLS8301S ending leaves the GRAM selected, landscape entry mode and the counter at offset 0, with no burst misplaced |
| `Panels.TablesWellFormed` | drivers/video/tls8301s.c:166-252 | Every register of every table fits a byte and every value a word, so no write is truncated on the bus |
| `Panels.SetupLeavesGramAtOrigin` | drivers/video/tls8301s.c:245-251 | After either panel's setup the controller has the GRAM selected, landscape entry mode and its counter at offset 0, with no burst misplaced |
| `Flush.Window` | drivers/video/ili9225.c:140-143 | Definition: the window programming of `copy`, entry mode 0x1038, row y, column x, then command 0x22. `Flush.RunWindow` states its effect on the controller |
| `Flush.CopyOps` | drivers/video/ili9225.c:122-148 | Definition: the traffic of `copy` for a page and the cursor. `Flush.CopyShape`, `Flush.BareBurst` and `Flush.CopyKeepsSync` state when it sends the window and where its burst lands |
| `Flush.FlushOps` | drivers/video/ili9225.c:151-159 | Definition: the traffic of copying the listed pages in list order from a cursor. `Flush.FlushKeepsSync`, `Flush.FlushSnoc` and `Flush.AscendingFlush` state its properties |
| `Flush.CursorAfter` | drivers/video/ili9225.c:148 | Definition: `last_buffer_start` after those copies, the end of the last page copied, or the old cursor when none is. `Flush.FlushKeepsSync` proves the controller stays in sync with it |
| `Flush.CopyShape` | drivers/video/ili9225.c:122-148 | A copy is a bare burst when the cursor is at the page's start; otherwise the four window writes (0x03=0x1038, 0x20=y, 0x21=x, command 0x22) come first |
| `Flush.BareBurst` | drivers/video/ili9225.c:122-148 | A copy is a bare burst exactly when the cursor is already at the page's buffer |
| `Flush.NextPageSkipsWindow` | drivers/video/tls8301s.c:122-137 | Copying page j right after page i skips the window exactly when j == i + 1: a repeated, skipped or earlier page always reprograms it |
| `Flush.RunWindow` | drivers/video/ili9225.c:140-143 | The window writes leave the GRAM selected, landscape entry mode and the counter at y * xres + x |
| `Flush.CopyKeepsSync` | drivers/video/ili9225.c:106-149 | From a controller in sync with the cursor, a copy lands the page's burst at the page's own offset and leaves the controller in sync with the new cursor |
| `Flush.FlushKeepsSync` | drivers/video/ili9225.c:151-159 | Flushing any list of pages, in any order and with repeats, keeps every burst at its own offset and the controller in sync with the cursor |
| `Flush.FlushSnoc` | drivers/video/tls8301s.c:140-148 | Flushing one more page appends that page's copy and moves the cursor to that page's end |
| `Flush.FlushTrace` | drivers/video/ili9225.c:151-159 | Traffic that has flushed some pages and then copies one more page, from the cursor the flush left, has flushed the list extended by that page |
| `Flush.FlushBareBurst` | drivers/video/ili9225.c:122-148 | When the cursor the flush left is at the next page's buffer, flushing that page appends only its burst |
| `Flush.Upto` | drivers/video/ili9225.c:165 | update_all visits indices 0 .. pages_count - 1, each once, in ascending order |
| `Flush.AscendingFlush` | drivers/video/ili9225.c:161-168 | Flushing pages 0 .. n - 1 from the buffer start sends no window writes at all, only one burst per page |
| `Flush.AscendingStep` | drivers/video/ili9225.c:161-168 | In update_all from the buffer start, page n - 1 is copied with the cursor already at its buffer: one bare burst is appended |
| `Flush.AscendingCursor` | drivers/video/ili9225.c:148 | After copying pages 0 .. n - 1 in order the cursor is at the end of page n - 1 |
| `Flush.BurstAt` | drivers/video/ili9225.c:161-168 | The k-th burst of the ascending flush is page k's: its buffer offset and its length |
| `Flush.FullFlushFromStart` | drivers/video/ili9225.c:381 | The first full flush is a chain of bursts from offset 0 to xres * yres, each starting where the previous ended, and leaves the cursor at the frame's end |
| `Flush.SetupThenFullFlush` | drivers/video/ili9225.c:578-579 | setup followed by update_all puts every pixel at its own GRAM address and leaves the controller in sync with the frame's end |
| `Driver.Display.constructor` | drivers/video/ili9225.c:445-452 | kzalloc: no pages, zero sizes, cursor at offset 0, nothing sent to the ports |
| `Driver.Display.RegSet` | drivers/video/ili9225.c:49-56 | Appends the byte-masked register to the control port, then the value to the data port; no other field changes |
| `Driver.Display.SendCmd` | drivers/video/tls8301s.c:92-98 | Appends the byte-masked register to the control port; no other field changes |
| `Driver.Display.Mdelay` | drivers/video/tls8301s.c:175 | Appends one delay; no other field changes |
| `Driver.Display.Replay` | drivers/video/ili9225.c:176-271 | Performing a table's entries in order appends exactly that table's port traffic |
| `Driver.Display.Setup` | drivers/video/ili9225.c:170-273 | setup appends the panel's init sequence to the port traffic and changes nothing else |
| `Driver.Display.EnterStandby` | drivers/video/ili9225.c:275-280 | Appends the standby-enter sequence |
| `Driver.Display.ExitStandby` | drivers/video/ili9225.c:281-286 | Appends the standby-exit sequence |
| `Driver.Display.CheckSignature` | drivers/video/ili9225.c:523-534 | Selects register 0x7E, writes 0, sends command 0 and reads the id; succeeds exactly for the ids the panel accepts (0x9225/0x9226, or 0x9325) and otherwise fails with -ENODEV |
| `Driver.Display.VideoAlloc` | drivers/video/ili9225.c:288-315 | Sets pages_count and smem_len to the round-up page count and the whole-page buffer length |
| `Driver.Display.PagesAlloc` | drivers/video/ili9225.c:324-384 | Builds the exact page table and puts the cursor at the buffer start |
| `Driver.Display.BuildPages` | drivers/video/tls8301s.c:312-343 | The unsigned-short x/y carry loop fills a fresh table whose entry k is exactly `PageAt(k)` for every page |
| `Driver.Display.Copy` | drivers/video/tls8301s.c:106-138 | Appends the copy's port traffic for the current cursor and moves the cursor to the page's end |
| `Driver.Display.Update` | drivers/video/ili9225.c:151-159 | Appends the flush of the listed pages in list order and leaves the cursor at the end of the last one |
| `Driver.Display.UpdateAll` | drivers/video/tls8301s.c:150-157 | Appends the flush of every page in ascending order |
| `Driver.Probe` | drivers/video/ili9225.c:429-598 | Fails with -ENODEV after the signature traffic alone for an unknown id. Otherwise it leaves an exact page table, traffic of signature check, init sequence and one burst per page with no window writes, the cursor at the frame's end, and every burst at its own GRAM address |
| `Driver.SignatureThenRest` | drivers/video/tls8301s.c:490-544 | The signature check's traffic does not disturb what setup and the full flush establish |
| `Driver.ProbeTraffic` | drivers/video/ili9225.c:578-579 | The full flush after setup is one burst per page, leaves the cursor at xres * yres, and from any controller without a misplaced burst the signature check, setup and flush land every burst at its own offset |

## Left out

- Probe's kernel resource handling is not part of this model. This covers `platform_get_resource`, `request_mem_region`, `ioremap`, `framebuffer_alloc`, `register_framebuffer`, the deferred-io registration and the error-path rollback. `Driver.Probe` keeps only the steps that reach the bus or the driver's own fields, and the signature failure path.
- Allocation failures (`-ENOMEM` from kzalloc, vmalloc, kmalloc) are not modelled: every allocation succeeds.
- The buffer's contents are not modelled: the zeroing `memset` and the pixel values a `memcpy` carries. A burst records only its offset and length; the model proves where each word lands, not which value it has.
- Hardware timing is not modelled: the MPMC static-memory timing registers written in probe, the real-time length of `mdelay` (kept as a `Delay` on the trace), and the GPIO backlight switch.
- Logging (`dev_dbg`, `dev_err`, `dev_info`, `printk`) is left out. So is the uninitialised `diff` passed to the debug print in `copy`: it affects only the log.
- The `*_slow` port helpers and `send_data` are left out: nothing in the drivers calls them.
- The id returned by the data-port read is a parameter of `Driver.Display.CheckSignature` and `Driver.Probe`, because the hardware answer cannot be modelled.
- Deferred io is left out: the timer, dirty-page detection and the kernel's page list. `Driver.Display.Update` takes the dirty page indices as a sequence in list order.
- `Driver.Probe`: concurrency is not modelled. Probe arms deferred io and registers the framebuffer (ili9225.c:570-572, tls8301s.c:535-537) before setup and `update_all` run. The model assumes no deferred update runs between `register_framebuffer` and the end of `update_all`, and treats each `Driver.Display.Update` as atomic with respect to other bus traffic. In the drivers, a deferred copy could interleave its window writes with setup's sequence. It could also race probe's copies on the unlocked check and update of `last_buffer_start` (ili9225.c:122, 148). The exact trace and the final sync that `Driver.Probe` promises hold only for a sequential probe.
- Geometries outside `Pages.Supported` are not modelled: other depths, padded lines, resolutions of 0x8000 or more, odd or huge page sizes, 0x10000 pages or more. Within that class no unsigned-short narrowing wraps. Outside it the drivers' arithmetic would wrap. With 0x10000 pages or more, the `unsigned short index` loops of `pages_alloc` and `update_all` (ili9225.c:355 and 165) would never end, because the index wraps before it reaches `pages_count`.
- The controller model assumes a full-screen window and horizontal increment: a burst advances the GRAM counter linearly. It does not model the panel's own window registers or wrap at the panel edge.
- `Driver.Display.Setup`, `EnterStandby` and `ExitStandby` replay a table of entries instead of the drivers' straight-line calls; the tables list exactly the calls of the source, in order.
- `Driver.Display.EnterStandby`, `Driver.Display.ExitStandby`: these exist only in the ILI9225 driver, so they require an ILI9225 panel.
- `ili9225_video_free` releases a vmalloc'd buffer with `kfree`. Probe's rollback releases `data_res` on paths where it was never looked up. Both lie in the resource handling left out above.
