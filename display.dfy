/**
  The driver's per-device state (`struct ili9225` / `struct tls8301s`) and the
  operations that change it. Everything the driver writes to, or reads from,
  the controller's two ports is appended to `trace`; the page table is the
  kmalloc'd array of pages; `lastBufferStart` is the write-window cursor.

  Each method is proved against the functions of the Flush, Panels and Pages
  modules, whose own properties are proved there.
*/
module Driver {
  import opened Bus
  import opened Controller
  import opened Pages
  import opened Panels
  import opened Flush

  /** The kernel's "no such device" error, returned negated. */
  const ENODEV: int := -19

  /** The bus operations of the signature check, before the answer is known. */
  const SignatureOps: seq<Op> := [Ctrl(0x7E), Data(0), Ctrl(0), Read]

  class Display {
    /** The panel the driver was built for: its init table and accepted signatures. */
    const panel: Panel
    /** The fix and var screen info probe installs, and PAGE_SIZE. */
    const geom: Geometry
    var pagesCount: nat
    var smemLen: nat
    var pages: array<Page>
    /** Word offset the controller's GRAM pointer is expected to be at. */
    var lastBufferStart: nat
    /** Every port access so far, oldest first. */
    var trace: seq<Op>

    /** The sized and paged state pages_alloc establishes and every later step relies on. */
    predicate Paged()
      reads this`pagesCount, this`smemLen, this`pages, pages
    {
      && Supported(geom)
      && pagesCount == PagesCount(geom)
      && smemLen == SmemLen(geom)
      && pages.Length == pagesCount
      && IsPageTable(geom, pages[..])
    }

    /** kzalloc: every field zero, nothing written to the ports yet. */
    constructor (panel: Panel, geom: Geometry)
      ensures this.panel == panel && this.geom == geom
      ensures pagesCount == 0 && smemLen == 0 && pages.Length == 0 && lastBufferStart == 0 && trace == []
    {
      this.panel := panel;
      this.geom := geom;
      pagesCount := 0;
      smemLen := 0;
      pages := new Page[0];
      lastBufferStart := 0;
      trace := [];
    }

    /** reg_set: the register, masked to a byte, to the control port; then the value to the data port. */
    method RegSet(reg: nat, value: nat)
      modifies this
      ensures trace == old(trace) + Emit([WriteReg(reg, value)])
      ensures unchanged(this`pagesCount) && unchanged(this`smemLen) && unchanged(this`pages)
      ensures unchanged(this`lastBufferStart)
    {
      trace := trace + [Ctrl(CtrlByte(reg)), Data(Word(value))];
    }

    /** send_cmd: the register, masked to a byte, to the control port. */
    method SendCmd(reg: nat)
      modifies this
      ensures trace == old(trace) + Emit([Bus.SendCmd(reg)])
      ensures unchanged(this`pagesCount) && unchanged(this`smemLen) && unchanged(this`pages)
      ensures unchanged(this`lastBufferStart)
    {
      trace := trace + [Ctrl(CtrlByte(reg))];
    }

    method Mdelay(ms: nat)
      modifies this
      ensures trace == old(trace) + Emit([Sleep(ms)])
      ensures unchanged(this`pagesCount) && unchanged(this`smemLen) && unchanged(this`pages)
      ensures unchanged(this`lastBufferStart)
    {
      trace := trace + [Delay(ms)];
    }

    /** Performs a table's entries in order, as the straight-line setup and standby code does. */
    method Replay(t: seq<Action>)
      modifies this
      ensures trace == old(trace) + Emit(t)
      ensures unchanged(this`pagesCount) && unchanged(this`smemLen) && unchanged(this`pages)
      ensures unchanged(this`lastBufferStart)
    {
      var i := 0;
      while i < |t|
        invariant 0 <= i <= |t|
        invariant trace == old(trace) + Emit(t[..i])
        invariant unchanged(this`pagesCount) && unchanged(this`smemLen) && unchanged(this`pages)
        invariant unchanged(this`lastBufferStart)
      {
        ghost var done := trace;
        match t[i] {
          case WriteReg(reg, value) => RegSet(reg, value);
          case SendCmd(reg) => SendCmd(reg);
          case Sleep(ms) => Mdelay(ms);
        }
        assert trace == done + Emit([t[i]]);
        EmitAppend(t[..i], [t[i]]);
        TakeOneMore(t, i);
        Associative(old(trace), Emit(t[..i]), Emit([t[i]]));
        i := i + 1;
      }
      assert t[..i] == t;
    }

    /** setup: the panel's initialisation sequence. */
    method Setup()
      modifies this
      ensures trace == old(trace) + Emit(panel.Init())
      ensures unchanged(this`pagesCount) && unchanged(this`smemLen) && unchanged(this`pages)
      ensures unchanged(this`lastBufferStart)
    {
      Replay(panel.Init());
    }

    method EnterStandby()
      requires panel.Ili9225?
      modifies this
      ensures trace == old(trace) + Emit(Ili9225StandbyEnter)
      ensures unchanged(this`pagesCount) && unchanged(this`smemLen) && unchanged(this`pages)
      ensures unchanged(this`lastBufferStart)
    {
      Replay(Ili9225StandbyEnter);
    }

    method ExitStandby()
      requires panel.Ili9225?
      modifies this
      ensures trace == old(trace) + Emit(Ili9225StandbyExit)
      ensures unchanged(this`pagesCount) && unchanged(this`smemLen) && unchanged(this`pages)
      ensures unchanged(this`lastBufferStart)
    {
      Replay(Ili9225StandbyExit);
    }

    /**
      The signature check in probe: select register 0x7E, write 0, send
      command 0 and read the id back; anything the panel does not accept
      fails the probe with -ENODEV.
    */
    method CheckSignature(id: nat) returns (err: int)
      modifies this
      ensures trace == old(trace) + SignatureOps
      ensures err == 0 <==> panel.Accepts(id)
      ensures err == 0 || err == ENODEV
      ensures unchanged(this`pagesCount) && unchanged(this`smemLen) && unchanged(this`pages)
      ensures unchanged(this`lastBufferStart)
    {
      RegSet(0x7E, 0);
      SendCmd(0);
      trace := trace + [Read];
      if panel.Accepts(id) {
        err := 0;
      } else {
        err := ENODEV;
      }
    }

    /** video_alloc: the page count, rounded up, and the buffer size in whole pages. */
    method VideoAlloc()
      requires Supported(geom)
      modifies this
      ensures pagesCount == PagesCount(geom) && smemLen == SmemLen(geom)
      ensures unchanged(this`trace) && unchanged(this`pages) && unchanged(this`lastBufferStart)
    {
      var frameSize := geom.lineLength * geom.yres;
      pagesCount := frameSize / geom.pageSize;
      if pagesCount * geom.pageSize < frameSize {
        pagesCount := pagesCount + 1;
      }
      smemLen := pagesCount * geom.pageSize;
    }

    /**
      pages_alloc: one entry per page, walking x and y with a carry in
      unsigned shorts, then the cursor at the buffer start.
    */
    method PagesAlloc()
      requires Supported(geom) && pagesCount == PagesCount(geom) && smemLen == SmemLen(geom)
      modifies this
      ensures Paged() && fresh(pages)
      ensures lastBufferStart == 0
      ensures unchanged(this`trace) && unchanged(this`pagesCount) && unchanged(this`smemLen)
    {
      pages := BuildPages(pagesCount);
      assert IsPageTable(geom, pages[..]);
      lastBufferStart := 0;
    }

    /** The loop of pages_alloc, filling a freshly allocated table of `count` pages. */
    method BuildPages(count: nat) returns (table: array<Page>)
      requires Supported(geom) && count == PagesCount(geom)
      ensures fresh(table) && table.Length == count
      ensures forall k :: 0 <= k < count ==> table[k] == PageAt(geom, k)
    {
      var xres := geom.xres;
      var ppp := Word(geom.pageSize / (geom.bitsPerPixel / 8));
      var yoff := Word(ppp / xres);
      var xoff := Word(ppp - yoff * xres);
      PageSteps(geom);
      FirstPage(geom);
      table := new Page[count];
      var x, y, buffer := 0, 0, 0;
      var index := 0;
      while index < count
        invariant 0 <= index <= count
        invariant index < count ==>
                    x == PageAt(geom, index).x && y == PageAt(geom, index).y && buffer == PageAt(geom, index).buffer
        invariant forall k :: 0 <= k < index ==> table[k] == PageAt(geom, k)
      {
        var len := xres * geom.yres - index * ppp;
        if len > ppp {
          len := ppp;
        }
        assert len == PageAt(geom, index).len;
        table[index] := Page(x, y, buffer, len);
        assert table[index] == PageAt(geom, index);
        if index + 1 < count {
          WalkFrom(geom, index, x, y, xoff, yoff);
          PagesAbut(geom, index);
        }
        x := Word(x + xoff);
        if x >= xres {
          y := Word(y + 1);
          x := Word(x - xres);
        }
        y := Word(y + yoff);
        buffer := buffer + ppp;
        index := index + 1;
      }
    }

    /**
      copy: reprogram the GRAM window only if the cursor is not at the
      page's buffer, burst the page, and move the cursor past it.
    */
    method Copy(index: nat)
      requires Paged() && index < pagesCount
      modifies this
      ensures Paged()
      ensures trace == old(trace) + CopyOps(PageAt(geom, index), old(lastBufferStart))
      ensures lastBufferStart == End(PageAt(geom, index))
      ensures unchanged(this`pagesCount) && unchanged(this`smemLen) && unchanged(this`pages)
    {
      var p := pages[index];
      assert p == PageAt(geom, index);
      CopyShape(p, lastBufferStart);
      if lastBufferStart != p.buffer {
        RegSet(EntryModeReg, Landscape);
        RegSet(RowReg, p.y);
        RegSet(ColumnReg, p.x);
        SendCmd(GramReg);
      }
      trace := trace + [Burst(p.buffer, p.len)];
      lastBufferStart := p.buffer + p.len;
    }

    /** update: copy the dirty pages, in the order the list gives them. */
    method Update(indices: seq<nat>)
      requires Paged() && forall k :: 0 <= k < |indices| ==> indices[k] < pagesCount
      modifies this
      ensures trace == old(trace) + FlushOps(geom, old(lastBufferStart), indices)
      ensures lastBufferStart == CursorAfter(geom, old(lastBufferStart), indices)
      ensures unchanged(this`pagesCount) && unchanged(this`smemLen) && unchanged(this`pages)
    {
      var i := 0;
      while i < |indices|
        invariant 0 <= i <= |indices|
        invariant Paged()
        invariant trace == old(trace) + FlushOps(geom, old(lastBufferStart), indices[..i])
        invariant lastBufferStart == CursorAfter(geom, old(lastBufferStart), indices[..i])
        invariant unchanged(this`pagesCount) && unchanged(this`smemLen) && unchanged(this`pages)
      {
        Copy(indices[i]);
        FlushTrace(geom, old(trace), old(lastBufferStart), indices[..i], indices[i]);
        TakeOneMore(indices, i);
        i := i + 1;
      }
      assert indices[..i] == indices;
    }

    /** update_all: copy every page, in ascending order. */
    method UpdateAll()
      requires Paged()
      modifies this
      ensures unchanged(this`pagesCount) && unchanged(this`smemLen) && unchanged(this`pages)
      ensures trace == old(trace) + FlushOps(geom, old(lastBufferStart), Upto(pagesCount))
      ensures lastBufferStart == CursorAfter(geom, old(lastBufferStart), Upto(pagesCount))
    {
      var index := 0;
      while index < pagesCount
        invariant 0 <= index <= pagesCount
        invariant Paged()
        invariant trace == old(trace) + FlushOps(geom, old(lastBufferStart), Upto(index))
        invariant lastBufferStart == CursorAfter(geom, old(lastBufferStart), Upto(index))
        invariant unchanged(this`pagesCount) && unchanged(this`smemLen) && unchanged(this`pages)
      {
        Copy(index);
        FlushTrace(geom, old(trace), old(lastBufferStart), Upto(index), index);
        assert Upto(index + 1) == Upto(index) + [index];
        index := index + 1;
      }
    }
  }

  /**
    probe, from kzalloc to the first full flush, without the kernel resource
    plumbing: check the signature, size the framebuffer, build the page table,
    run setup and flush every page. On success every burst lands at its own
    framebuffer offset.
  */
  method Probe(panel: Panel, geom: Geometry, id: nat) returns (item: Display, err: int)
    requires Supported(geom)
    ensures fresh(item) && item.panel == panel && item.geom == geom
    ensures err == 0 <==> panel.Accepts(id)
    ensures err != 0 ==> err == ENODEV && item.trace == SignatureOps
    ensures err == 0 ==>
              && item.Paged()
              && item.trace == SignatureOps + Emit(panel.Init()) + Bursts(geom, PagesCount(geom))
              && item.lastBufferStart == Pixels(geom)
              && forall s: Hw :: !s.stray ==> InSync(Run(geom.xres, s, item.trace), Pixels(geom))
  {
    item := new Display(panel, geom);
    err := item.CheckSignature(id);
    assert item.trace == SignatureOps;
    if err != 0 {
      return;
    }
    item.VideoAlloc();
    item.PagesAlloc();
    assert item.trace == SignatureOps && item.lastBufferStart == 0;
    item.Setup();
    ghost var init := Emit(panel.Init());
    assert item.trace == SignatureOps + init && item.lastBufferStart == 0;
    item.UpdateAll();
    ProbeTraffic(panel, geom);
  }

  /**
    Probe's port traffic on success: the signature check, setup's table and
    the first full flush, which is one burst per page. From any controller
    state with no misplaced burst, every burst lands at its own framebuffer
    offset and the controller ends in sync with the end of the frame.
  */
  lemma ProbeTraffic(panel: Panel, g: Geometry)
    requires Supported(g)
    ensures FlushOps(g, 0, Upto(PagesCount(g))) == Bursts(g, PagesCount(g))
    ensures CursorAfter(g, 0, Upto(PagesCount(g))) == Pixels(g)
    ensures forall s: Hw :: !s.stray ==>
              InSync(Run(g.xres, s, SignatureOps + Emit(panel.Init()) + Bursts(g, PagesCount(g))), Pixels(g))
  {
    AscendingFlush(g, PagesCount(g));
    AscendingCursor(g, PagesCount(g));
    LastPageEndsFrame(g);
    forall s: Hw | !s.stray
      ensures InSync(Run(g.xres, s, SignatureOps + Emit(panel.Init()) + Bursts(g, PagesCount(g))), Pixels(g))
    {
      SignatureThenRest(panel, g, s);
    }
  }

  /** The signature check sends no burst, so setup and the full flush still place every burst. */
  lemma SignatureThenRest(panel: Panel, g: Geometry, s: Hw)
    requires Supported(g) && !s.stray
    ensures InSync(Run(g.xres, s, SignatureOps + Emit(panel.Init()) + FlushOps(g, 0, Upto(PagesCount(g)))), Pixels(g))
  {
    var init, flush := Emit(panel.Init()), FlushOps(g, 0, Upto(PagesCount(g)));
    Associative(SignatureOps, init, flush);
    RunAppend(g.xres, s, SignatureOps, init + flush);
    RunWithoutBursts(g.xres, s, SignatureOps);
    SetupThenFullFlush(panel, g, Run(g.xres, s, SignatureOps));
  }

  /** Sequence helper, kept apart from the loops so their proofs stay small: a prefix one longer is the prefix and the next element. */
  lemma TakeOneMore<T>(s: seq<T>, i: nat)
    requires i < |s|
    ensures s[..i + 1] == s[..i] + [s[i]]
  {
  }

  /** Sequence helper, kept apart from the method proofs: concatenation of bus traces is associative. */
  lemma Associative(a: seq<Op>, b: seq<Op>, c: seq<Op>)
    ensures a + b + c == a + (b + c)
  {
  }
}
