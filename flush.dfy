/**
  The write-window cache and the two flush loops, as functions from the page
  table and the cached cursor (`last_buffer_start`, a word offset into the
  framebuffer) to the bus operations they produce.

  A copy reprograms the controller's GRAM window only when the cursor is not
  already at the page's buffer; it then bursts the page's words and leaves the
  cursor just past them. The partner of this cache is the controller model: a
  copy issued while the controller is in sync with the cursor puts every word
  at its own framebuffer offset and leaves the controller in sync again.
*/
module Flush {
  import opened Bus
  import opened Controller
  import opened Pages
  import Panels

  /** Entry mode, row, column, then the GRAM access command. */
  function Window(p: Page): seq<Action>
  {
    [WriteReg(EntryModeReg, Landscape), WriteReg(RowReg, p.y), WriteReg(ColumnReg, p.x), SendCmd(GramReg)]
  }

  /** The bus operations of copying page `p` when the cursor is at `cursor`. */
  function CopyOps(p: Page, cursor: nat): seq<Op>
  {
    (if cursor != p.buffer then Emit(Window(p)) else []) + [Burst(p.buffer, p.len)]
  }

  /** Flushing the listed pages, in list order, starting from `cursor`. */
  function FlushOps(g: Geometry, cursor: nat, idxs: seq<nat>): seq<Op>
    requires Supported(g) && forall k :: 0 <= k < |idxs| ==> idxs[k] < PagesCount(g)
    decreases |idxs|
  {
    if idxs == [] then []
    else
      var prior := idxs[..|idxs| - 1];
      FlushOps(g, cursor, prior) + CopyOps(PageAt(g, idxs[|idxs| - 1]), CursorAfter(g, cursor, prior))
  }

  /** The cursor once the listed pages are flushed: the end of the last one. */
  function CursorAfter(g: Geometry, cursor: nat, idxs: seq<nat>): nat
    requires Supported(g) && forall k :: 0 <= k < |idxs| ==> idxs[k] < PagesCount(g)
  {
    if idxs == [] then cursor else End(PageAt(g, idxs[|idxs| - 1]))
  }

  /** The indices 0 .. n - 1 in ascending order, as update_all visits them. */
  function Upto(n: nat): (r: seq<nat>)
    ensures |r| == n && forall k :: 0 <= k < n ==> r[k] == k
  {
    if n == 0 then [] else Upto(n - 1) + [n - 1]
  }

  /** A copy sends the window exactly when the cursor is elsewhere, and always ends with its burst. */
  lemma CopyShape(p: Page, cursor: nat)
    ensures cursor == p.buffer ==> CopyOps(p, cursor) == [Burst(p.buffer, p.len)]
    ensures cursor != p.buffer ==>
              CopyOps(p, cursor) == [Ctrl(EntryModeReg), Data(Landscape), Ctrl(RowReg), Data(Word(p.y)),
                                     Ctrl(ColumnReg), Data(Word(p.x)), Ctrl(GramReg), Burst(p.buffer, p.len)]
  {
    var w := Window(p);
    assert w[1..][1..][1..][1..] == [];
    assert Emit(w[1..][1..][1..]) == [Ctrl(GramReg)];
    assert Emit(w[1..][1..]) == [Ctrl(ColumnReg), Data(Word(p.x)), Ctrl(GramReg)];
    assert Emit(w[1..]) == [Ctrl(RowReg), Data(Word(p.y)), Ctrl(ColumnReg), Data(Word(p.x)), Ctrl(GramReg)];
  }

  /**
    Copying page j right after page i skips the window exactly when j is the
    page after i: a skipped page, a repeated page or a step backwards all
    force the window to be reprogrammed.
  */
  lemma NextPageSkipsWindow(g: Geometry, i: nat, j: nat)
    requires Supported(g) && i < PagesCount(g) && j < PagesCount(g)
    ensures CopyOps(PageAt(g, j), End(PageAt(g, i))) == [Burst(PageAt(g, j).buffer, PageAt(g, j).len)]
            <==> j == i + 1
  {
    BareBurst(PageAt(g, j), End(PageAt(g, i)));
    NextStart(g, i, j);
  }

  /** A copy is a bare burst exactly when the cursor is already at the page. */
  lemma BareBurst(p: Page, cursor: nat)
    ensures CopyOps(p, cursor) == [Burst(p.buffer, p.len)] <==> cursor == p.buffer
  {
    if cursor != p.buffer {
      assert CopyOps(p, cursor)[0] == Ctrl(EntryModeReg);
    }
  }

  /** Sending the window moves the address counter to the page's first pixel. */
  lemma RunWindow(xres: nat, s: Hw, p: Page)
    requires p.x < 0x1_0000 && p.y < 0x1_0000
    ensures var w := Run(xres, s, Emit(Window(p)));
            w.index == GramReg && w.entry == Landscape && w.ac == p.y * xres + p.x && w.stray == s.stray
  {
    var e, r, c := WriteReg(EntryModeReg, Landscape), WriteReg(RowReg, p.y), WriteReg(ColumnReg, p.x);
    assert Window(p) == [e] + ([r] + ([c] + [SendCmd(GramReg)]));
    RunCons(xres, s, e, [r] + ([c] + [SendCmd(GramReg)]));
    RunWriteReg(xres, s, EntryModeReg, Landscape);
    var s1 := Run(xres, s, Emit([e]));
    RunCons(xres, s1, r, [c] + [SendCmd(GramReg)]);
    RunWriteReg(xres, s1, RowReg, p.y);
    var s2 := Run(xres, s1, Emit([r]));
    RunCons(xres, s2, c, [SendCmd(GramReg)]);
    RunWriteReg(xres, s2, ColumnReg, p.x);
    RunSendCmd(xres, Run(xres, s2, Emit([c])), GramReg);
  }

  /**
    The cache is sound: from a controller in sync with the cursor, copying a
    page whose coordinates are its buffer's row and column writes the burst
    at the page's own offset and leaves the controller in sync with the
    cursor's new value.
  */
  lemma CopyKeepsSync(xres: nat, s: Hw, p: Page, cursor: nat)
    requires InSync(s, cursor)
    requires p.x < xres && p.y * xres + p.x == p.buffer && p.x < 0x1_0000 && p.y < 0x1_0000
    ensures InSync(Run(xres, s, CopyOps(p, cursor)), End(p))
  {
    var burst := [Burst(p.buffer, p.len)];
    if cursor != p.buffer {
      RunAppend(xres, s, Emit(Window(p)), burst);
      RunWindow(xres, s, p);
      var w := Run(xres, s, Emit(Window(p)));
      assert Run(xres, w, burst) == Run(xres, Next(xres, w, burst[0]), burst[1..]);
    } else {
      assert CopyOps(p, cursor) == burst;
      assert Run(xres, s, burst) == Run(xres, Next(xres, s, burst[0]), burst[1..]);
    }
  }

  /** Flushing any list of pages keeps the controller in sync with the cursor. */
  lemma {:induction false} FlushKeepsSync(g: Geometry, s: Hw, cursor: nat, idxs: seq<nat>)
    requires Supported(g) && forall k :: 0 <= k < |idxs| ==> idxs[k] < PagesCount(g)
    requires InSync(s, cursor)
    ensures InSync(Run(g.xres, s, FlushOps(g, cursor, idxs)), CursorAfter(g, cursor, idxs))
    decreases |idxs|
  {
    if idxs != [] {
      var prior := idxs[..|idxs| - 1];
      FlushKeepsSync(g, s, cursor, prior);
      var mid := Run(g.xres, s, FlushOps(g, cursor, prior));
      var p := PageAt(g, idxs[|idxs| - 1]);
      RunAppend(g.xres, s, FlushOps(g, cursor, prior), CopyOps(p, CursorAfter(g, cursor, prior)));
      PagePosition(g, idxs[|idxs| - 1]);
      CopyKeepsSync(g.xres, mid, p, CursorAfter(g, cursor, prior));
    }
  }

  /** Flushing one more page appends that page's copy. */
  lemma FlushSnoc(g: Geometry, cursor: nat, idxs: seq<nat>, i: nat)
    requires Supported(g) && i < PagesCount(g) && forall k :: 0 <= k < |idxs| ==> idxs[k] < PagesCount(g)
    ensures FlushOps(g, cursor, idxs + [i]) == FlushOps(g, cursor, idxs) + CopyOps(PageAt(g, i), CursorAfter(g, cursor, idxs))
    ensures CursorAfter(g, cursor, idxs + [i]) == End(PageAt(g, i))
  {
    assert (idxs + [i])[..|idxs|] == idxs;
  }

  /** A trace that has flushed some pages and then copies one more has flushed one more page. */
  lemma FlushTrace(g: Geometry, before: seq<Op>, cursor: nat, idxs: seq<nat>, i: nat)
    requires Supported(g) && i < PagesCount(g) && forall k :: 0 <= k < |idxs| ==> idxs[k] < PagesCount(g)
    ensures before + FlushOps(g, cursor, idxs) + CopyOps(PageAt(g, i), CursorAfter(g, cursor, idxs))
            == before + FlushOps(g, cursor, idxs + [i])
    ensures CursorAfter(g, cursor, idxs + [i]) == End(PageAt(g, i))
  {
    FlushSnoc(g, cursor, idxs, i);
  }

  /** Flushing one more page that starts at the cursor appends its bare burst. */
  lemma FlushBareBurst(g: Geometry, cursor: nat, idxs: seq<nat>, i: nat)
    requires Supported(g) && i < PagesCount(g) && forall k :: 0 <= k < |idxs| ==> idxs[k] < PagesCount(g)
    requires CursorAfter(g, cursor, idxs) == PageAt(g, i).buffer
    ensures FlushOps(g, cursor, idxs + [i]) == FlushOps(g, cursor, idxs) + [Burst(PageAt(g, i).buffer, PageAt(g, i).len)]
    ensures CursorAfter(g, cursor, idxs + [i]) == End(PageAt(g, i))
  {
    FlushSnoc(g, cursor, idxs, i);
  }

  /** One burst per page, pages 0 .. n - 1 in order, and nothing else. */
  function Bursts(g: Geometry, n: nat): (r: seq<Op>)
    requires Supported(g) && n <= PagesCount(g)
    ensures |r| == n
  {
    if n == 0 then [] else Bursts(g, n - 1) + [Burst(PageAt(g, n - 1).buffer, PageAt(g, n - 1).len)]
  }

  /** The k-th of those bursts is page k's. */
  lemma {:induction false} BurstAt(g: Geometry, n: nat, k: nat)
    requires Supported(g) && k < n <= PagesCount(g)
    ensures Bursts(g, n)[k] == Burst(PageAt(g, k).buffer, PageAt(g, k).len)
  {
    if k < n - 1 {
      BurstAt(g, n - 1, k);
    }
  }

  /**
    Flushing pages 0 .. n - 1 from a cursor at the buffer start sends no
    window at all: only one burst per page, in page order.
  */
  lemma {:induction false} AscendingFlush(g: Geometry, n: nat)
    requires Supported(g) && n <= PagesCount(g)
    ensures FlushOps(g, 0, Upto(n)) == Bursts(g, n)
  {
    if n > 0 {
      AscendingFlush(g, n - 1);
      AscendingStep(g, n);
    }
  }

  /** The step of that induction: page n - 1 starts at the cursor, so its copy is a bare burst. */
  lemma AscendingStep(g: Geometry, n: nat)
    requires Supported(g) && 0 < n <= PagesCount(g)
    ensures FlushOps(g, 0, Upto(n)) == FlushOps(g, 0, Upto(n - 1)) + [Burst(PageAt(g, n - 1).buffer, PageAt(g, n - 1).len)]
  {
    assert Upto(n) == Upto(n - 1) + [n - 1];
    if n > 1 {
      AscendingCursor(g, n - 1);
      PagesAbut(g, n - 2);
    }
    FlushBareBurst(g, 0, Upto(n - 1), n - 1);
  }

  /** After pages 0 .. n - 1 the cursor is at the end of page n - 1. */
  lemma AscendingCursor(g: Geometry, n: nat)
    requires Supported(g) && 0 < n <= PagesCount(g)
    ensures CursorAfter(g, 0, Upto(n)) == End(PageAt(g, n - 1))
  {
  }

  /**
    The initial full flush: with the cursor at the buffer start, update_all
    sends no window and bursts the whole frame, page after page, each burst
    starting where the previous one ended, from offset 0 to xres * yres.
  */
  lemma FullFlushFromStart(g: Geometry)
    requires Supported(g)
    ensures var n := PagesCount(g);
            var ops := FlushOps(g, 0, Upto(n));
            n > 0 && |ops| == n &&
            (forall k :: 0 <= k < n ==> ops[k] == Burst(PageAt(g, k).buffer, PageAt(g, k).len)) &&
            ops[0].offset == 0 &&
            (forall k :: 0 <= k < n - 1 ==> ops[k].offset + ops[k].len == ops[k + 1].offset) &&
            ops[n - 1].offset + ops[n - 1].len == Pixels(g) &&
            CursorAfter(g, 0, Upto(n)) == Pixels(g)
  {
    var n := PagesCount(g);
    AscendingFlush(g, n);
    AscendingCursor(g, n);
    LastPageEndsFrame(g);
    forall k | 0 <= k < n
      ensures Bursts(g, n)[k] == Burst(PageAt(g, k).buffer, PageAt(g, k).len)
    {
      BurstAt(g, n, k);
    }
    forall k | 0 <= k < n - 1
      ensures End(PageAt(g, k)) == PageAt(g, k + 1).buffer
    {
      PagesAbut(g, k);
    }
  }

  /**
    Probe's bus traffic after the signature check: setup's table, then the
    full flush from the buffer start. Every burst lands at its own offset
    and the controller ends at the end of the frame.
  */
  lemma SetupThenFullFlush(panel: Panels.Panel, g: Geometry, s: Hw)
    requires Supported(g) && !s.stray
    ensures InSync(Run(g.xres, s, Emit(panel.Init()) + FlushOps(g, 0, Upto(PagesCount(g)))), Pixels(g))
  {
    Panels.SetupLeavesGramAtOrigin(panel, g.xres, s);
    RunAppend(g.xres, s, Emit(panel.Init()), FlushOps(g, 0, Upto(PagesCount(g))));
    FlushKeepsSync(g, Run(g.xres, s, Emit(panel.Init())), 0, Upto(PagesCount(g)));
    FullFlushFromStart(g);
  }
}
