/**
  Framebuffer sizing and the page table: the linear 16-bit framebuffer is cut
  into host-page-sized chunks, and each chunk records where it starts in the
  buffer (a word offset from the start of the framebuffer), how many pixels it
  holds and the (x, y) panel position of its first pixel.

  `PageAt` is the exact reference: page i starts at pixel i * ppp, whose row
  and column are its quotient and remainder by xres. The drivers reach the
  same values by walking x and y with a carry; `CarryWalk` is that step.
*/
module Pages {
  import opened Bus

  /** What the drivers read from fb_info: xres, yres, bits_per_pixel, line_length, and PAGE_SIZE. */
  datatype Geometry = Geometry(xres: nat, yres: nat, bitsPerPixel: nat, lineLength: nat, pageSize: nat)

  /** One page-table entry: first pixel's column and row, buffer word offset, pixel count. */
  datatype Page = Page(x: nat, y: nat, buffer: nat, len: nat)

  /** Both panels: 220 x 176 at 16 bits per pixel, 440-byte lines, 4096-byte host pages. */
  const Screen := Geometry(220, 176, 16, 220 * 2, 4096)

  function FrameSize(g: Geometry): nat { g.lineLength * g.yres }

  function Pixels(g: Geometry): nat { g.xres * g.yres }

  /** Pages needed for the frame: the frame size divided by the page size, rounded up. */
  function PagesCount(g: Geometry): (n: nat)
    requires g.pageSize > 0
    ensures n * g.pageSize >= FrameSize(g)
    ensures n == 0 || (n - 1) * g.pageSize < FrameSize(g)
  {
    var q := FrameSize(g) / g.pageSize;
    if q * g.pageSize < FrameSize(g) then q + 1 else q
  }

  /** The allocated buffer is a whole number of pages and wastes less than one. */
  function SmemLen(g: Geometry): (r: nat)
    requires g.pageSize > 0
    ensures FrameSize(g) <= r < FrameSize(g) + g.pageSize
    ensures r % g.pageSize == 0
  {
    WholePages(PagesCount(g), g.pageSize, FrameSize(g));
    PagesCount(g) * g.pageSize
  }

  lemma WholePages(n: nat, size: nat, frame: nat)
    requires size > 0 && n * size >= frame && (n == 0 || (n - 1) * size < frame)
    ensures n * size < frame + size && (n * size) % size == 0
  {
    if n > 0 {
      assert (n - 1) * size == n * size - size;
    }
    DivModUnique(n * size, size, n, 0);
  }

  /**
    The geometries the page table handles: 16-bit pixels packed without
    padding, an even page size, and dimensions small enough that no
    unsigned short of the page walk (pixels per page, x, y, the page index)
    ever wraps.
  */
  predicate Supported(g: Geometry)
  {
    && g.bitsPerPixel == 16
    && g.lineLength == 2 * g.xres
    && 0 < g.xres < 0x8000
    && 0 < g.yres < 0x8000
    && 2 <= g.pageSize < 0x1_0000
    && g.pageSize % 2 == 0
    && PagesCount(g) < 0x1_0000
  }

  /** PAGE_SIZE / (bits_per_pixel / 8), stored in an unsigned short. */
  function PixelsPerPage(g: Geometry): (ppp: nat)
    requires Supported(g)
    ensures 0 < ppp < 0x8000 && 2 * ppp == g.pageSize
  {
    Word(g.pageSize / (g.bitsPerPixel / 8))
  }

  /** Whole rows per page. */
  function YOffsetPerPage(g: Geometry): nat
    requires Supported(g)
  {
    PixelsPerPage(g) / g.xres
  }

  /** Columns per page beyond the whole rows. */
  function XOffsetPerPage(g: Geometry): (r: nat)
    requires Supported(g)
    ensures r < g.xres
    ensures YOffsetPerPage(g) * g.xres + r == PixelsPerPage(g)
  {
    PixelsPerPage(g) - YOffsetPerPage(g) * g.xres
  }

  /** The drivers' own unsigned-short computations of the three page steps. */
  lemma PageSteps(g: Geometry)
    requires Supported(g)
    ensures Word(g.pageSize / (g.bitsPerPixel / 8)) == PixelsPerPage(g)
    ensures Word(PixelsPerPage(g) / g.xres) == YOffsetPerPage(g)
    ensures Word(PixelsPerPage(g) - YOffsetPerPage(g) * g.xres) == XOffsetPerPage(g)
  {
    var ppp, yoff, xoff := PixelsPerPage(g), YOffsetPerPage(g), XOffsetPerPage(g);
    DivMod(ppp, g.xres);
    MulLeft(1, g.xres, yoff);
    assert yoff <= ppp;
    assert ppp - yoff * g.xres == xoff;
  }

  lemma Twice(a: nat, b: nat)
    ensures (2 * a) * b == 2 * (a * b) && a * (2 * b) == 2 * (a * b)
  {
  }

  lemma MulLeft(a: nat, b: nat, c: nat)
    requires a <= b
    ensures a * c <= b * c
  {
  }

  lemma MulInjective(a: nat, b: nat, c: nat)
    requires c > 0
    ensures a * c == b * c <==> a == b
  {
    if a < b {
      MulLeft(a + 1, b, c);
    } else if b < a {
      MulLeft(b + 1, a, c);
    }
  }

  lemma DivMod(n: nat, d: nat)
    requires d > 0
    ensures n == (n / d) * d + n % d && 0 <= n % d < d
  {
  }

  lemma DivModUnique(n: nat, d: nat, q: nat, r: nat)
    requires 0 <= r < d && n == q * d + r
    ensures n / d == q && n % d == r
  {
    var q', r' := n / d, n % d;
    DivMod(n, d);
    if q' < q {
      MulLeft(q' + 1, q, d);
      assert false;
    } else if q < q' {
      MulLeft(q + 1, q', d);
      assert false;
    }
  }

  /** The page count covers the frame's pixels, with the last page partly used. */
  lemma PagesCover(g: Geometry)
    requires Supported(g)
    ensures PagesCount(g) > 0
    ensures (PagesCount(g) - 1) * PixelsPerPage(g) < Pixels(g) <= PagesCount(g) * PixelsPerPage(g)
  {
    var n, ppp := PagesCount(g), PixelsPerPage(g);
    Twice(g.xres, g.yres);
    Twice(n, ppp);
    MulLeft(1, g.yres, g.xres);
    if n > 0 {
      Twice(n - 1, ppp);
    }
  }

  /** No smaller page count would hold the frame. */
  lemma {:induction false} PagesCountIsLeast(g: Geometry, n: nat)
    requires g.pageSize > 0 && n * g.pageSize >= FrameSize(g)
    ensures n >= PagesCount(g)
  {
    var c := PagesCount(g);
    if n < c {
      MulLeft(n, c - 1, g.pageSize);
    }
  }

  /** Page i starts inside the frame; a page before the last ends before the frame does. */
  lemma PageStart(g: Geometry, i: nat)
    requires Supported(g) && i < PagesCount(g)
    ensures i * PixelsPerPage(g) < Pixels(g)
    ensures i + 1 < PagesCount(g) ==> i * PixelsPerPage(g) + PixelsPerPage(g) < Pixels(g)
    ensures i + 1 == PagesCount(g) ==> Pixels(g) <= i * PixelsPerPage(g) + PixelsPerPage(g)
  {
    var ppp, c := PixelsPerPage(g), PagesCount(g);
    PagesCover(g);
    MulLeft(i, c - 1, ppp);
    assert (i + 1) * ppp == i * ppp + ppp;
    if i + 1 < c {
      MulLeft(i + 1, c - 1, ppp);
    }
  }

  /** Pixels of page i: the pixels left from its start, capped at one page. */
  function PageLen(g: Geometry, i: nat): (r: nat)
    requires Supported(g) && i < PagesCount(g)
    ensures 0 < r <= PixelsPerPage(g)
    ensures i + 1 < PagesCount(g) ==> r == PixelsPerPage(g)
    ensures i + 1 == PagesCount(g) ==> r == Pixels(g) - i * PixelsPerPage(g)
  {
    var ppp := PixelsPerPage(g);
    PageStart(g, i);
    var rest := Pixels(g) - i * ppp;
    if rest > ppp then ppp else rest
  }

  /**
    The reference page table: page i starts at pixel i * ppp, at the row and
    column of that pixel.
  */
  function PageAt(g: Geometry, i: nat): (p: Page)
    requires Supported(g) && i < PagesCount(g)
    ensures p.x < g.xres && p.x < 0x1_0000 && p.y < 0x1_0000 && p.len < 0x1_0000
  {
    PageFields(g, i);
    var start := i * PixelsPerPage(g);
    Page(start % g.xres, start / g.xres, start, PageLen(g, i))
  }

  /** The first page starts at the origin of the buffer and of the screen. */
  lemma FirstPage(g: Geometry)
    requires Supported(g)
    ensures PagesCount(g) > 0 && PageAt(g, 0).x == 0 && PageAt(g, 0).y == 0 && PageAt(g, 0).buffer == 0
  {
    LastPageEndsFrame(g);
  }

  /** The column, row and length of page i fit the drivers' unsigned shorts. */
  lemma PageFields(g: Geometry, i: nat)
    requires Supported(g) && i < PagesCount(g)
    ensures var start := i * PixelsPerPage(g);
            start >= 0 && start % g.xres < g.xres && start % g.xres < 0x1_0000 && start / g.xres < 0x1_0000 &&
            PageLen(g, i) < 0x1_0000
  {
    RowFits(g, i);
  }

  /** A page's (x, y) is the column and row of its buffer offset. */
  lemma PagePosition(g: Geometry, i: nat)
    requires Supported(g) && i < PagesCount(g)
    ensures PageAt(g, i).y * g.xres + PageAt(g, i).x == PageAt(g, i).buffer
  {
    DivMod(i * PixelsPerPage(g), g.xres);
  }

  predicate IsPageTable(g: Geometry, ps: seq<Page>)
    requires Supported(g)
  {
    |ps| == PagesCount(g) && forall i :: 0 <= i < |ps| ==> ps[i] == PageAt(g, i)
  }

  /** The buffer offset just after a page. */
  function End(p: Page): nat { p.buffer + p.len }

  /**
    The row of the page-start pixel i * ppp fits an unsigned short, for every
    page and for the position one past the last page.
  */
  lemma RowFits(g: Geometry, i: nat)
    requires Supported(g) && i <= PagesCount(g)
    ensures (i * PixelsPerPage(g)) / g.xres < 0x1_0000
  {
    var ppp, n := PixelsPerPage(g), PagesCount(g);
    PagesCover(g);
    MulLeft(i, n, ppp);
    Distrib(n - 1, 1, ppp);
    QuotientBound(i * ppp, g.xres, g.yres, ppp);
  }

  lemma QuotientBound(a: nat, xres: nat, yres: nat, extra: nat)
    requires 0 < xres && yres < 0x8000 && extra < 0x8000 && a < xres * yres + extra
    ensures a / xres < 0x1_0000
  {
    var y := a / xres;
    DivMod(a, xres);
    if y >= yres + 0x8000 {
      MulLeft(yres + 0x8000, y, xres);
      assert false;
    }
  }

  /**
    One step of the drivers' walk: adding the column step, carrying into the
    row when the column passes xres, then adding the row step, takes the
    exact row and column of pixel i * ppp to those of pixel (i + 1) * ppp.
  */
  lemma CarryWalk(g: Geometry, i: nat)
    requires Supported(g)
    ensures var ppp := PixelsPerPage(g);
            var x := (i * ppp) % g.xres;
            var y := (i * ppp) / g.xres;
            var x1 := x + XOffsetPerPage(g);
            var x2 := if x1 >= g.xres then x1 - g.xres else x1;
            var y2 := (if x1 >= g.xres then y + 1 else y) + YOffsetPerPage(g);
            x2 == ((i + 1) * ppp) % g.xres && y2 == ((i + 1) * ppp) / g.xres
  {
    var ppp := PixelsPerPage(g);
    Distrib(i, 1, ppp);
    CarryArith(i * ppp, ppp, g.xres, XOffsetPerPage(g), YOffsetPerPage(g));
  }

  /** The walk's carry step on bare numbers: from pixel n to pixel n + ppp. */
  lemma CarryArith(n: nat, ppp: nat, xres: nat, xo: nat, yo: nat)
    requires 0 < xres && xo < xres && ppp == yo * xres + xo
    ensures var x, y := n % xres, n / xres;
            var x1 := x + xo;
            var x2 := if x1 >= xres then x1 - xres else x1;
            var y2 := (if x1 >= xres then y + 1 else y) + yo;
            x2 == (n + ppp) % xres && y2 == (n + ppp) / xres
  {
    var x, y := n % xres, n / xres;
    DivMod(n, xres);
    if x + xo >= xres {
      Distrib(y + 1, yo, xres);
      Distrib(y, 1, xres);
      DivModUnique(n + ppp, xres, y + 1 + yo, x + xo - xres);
    } else {
      Distrib(y, yo, xres);
      DivModUnique(n + ppp, xres, y + yo, x + xo);
    }
  }

  lemma Distrib(a: nat, b: nat, c: nat)
    ensures (a + b) * c == a * c + b * c
  {
  }

  /**
    The same step in the drivers' unsigned shorts: none of the narrowings
    wraps, so the walk stays exact.
  */
  lemma NarrowCarryWalk(g: Geometry, i: nat)
    requires Supported(g) && i + 1 < PagesCount(g)
    ensures var ppp := PixelsPerPage(g);
            var x := (i * ppp) % g.xres;
            var y := (i * ppp) / g.xres;
            var x1 := Word(x + XOffsetPerPage(g));
            var x2 := if x1 >= g.xres then Word(x1 - g.xres) else x1;
            var y2 := Word((if x1 >= g.xres then Word(y + 1) else y) + YOffsetPerPage(g));
            x2 == ((i + 1) * ppp) % g.xres && y2 == ((i + 1) * ppp) / g.xres
  {
    var ppp := PixelsPerPage(g);
    Distrib(i, 1, ppp);
    RowFits(g, i + 1);
    NarrowArith(i * ppp, ppp, g.xres, XOffsetPerPage(g), YOffsetPerPage(g));
  }

  /** The narrowed carry step on bare numbers, when the next row still fits in an unsigned short. */
  lemma NarrowArith(n: nat, ppp: nat, xres: nat, xo: nat, yo: nat)
    requires 0 < xres < 0x8000 && xo < xres && ppp == yo * xres + xo && (n + ppp) / xres < 0x1_0000
    ensures var x, y := n % xres, n / xres;
            var x1 := Word(x + xo);
            var x2 := if x1 >= xres then Word(x1 - xres) else x1;
            var y2 := Word((if x1 >= xres then Word(y + 1) else y) + yo);
            x2 == (n + ppp) % xres && y2 == (n + ppp) / xres
  {
    CarryArith(n, ppp, xres, xo, yo);
    NarrowStep(xres, n % xres, n / xres, xo, yo, (n + ppp) % xres, (n + ppp) / xres);
  }

  /** The narrowed walk, from one page-table entry to the next. */
  lemma NarrowWalk(g: Geometry, i: nat)
    requires Supported(g) && i + 1 < PagesCount(g)
    ensures var p, q := PageAt(g, i), PageAt(g, i + 1);
            var x1 := Word(p.x + XOffsetPerPage(g));
            && (x1 >= g.xres ==> Word(x1 - g.xres) == q.x && Word(Word(p.y + 1) + YOffsetPerPage(g)) == q.y)
            && (x1 < g.xres ==> x1 == q.x && Word(p.y + YOffsetPerPage(g)) == q.y)
            && p.buffer + PixelsPerPage(g) == q.buffer
  {
    NarrowCarryWalk(g, i);
    PagesAbut(g, i);
  }

  /** NarrowWalk, for a walker holding page i's column and row and the two per-page steps. */
  lemma WalkFrom(g: Geometry, i: nat, x: nat, y: nat, xoff: nat, yoff: nat)
    requires Supported(g) && i + 1 < PagesCount(g)
    requires x == PageAt(g, i).x && y == PageAt(g, i).y && xoff == XOffsetPerPage(g) && yoff == YOffsetPerPage(g)
    ensures var x1 := Word(x + xoff);
            && (x1 >= g.xres ==> Word(x1 - g.xres) == PageAt(g, i + 1).x && Word(Word(y + 1) + yoff) == PageAt(g, i + 1).y)
            && (x1 < g.xres ==> x1 == PageAt(g, i + 1).x && Word(y + yoff) == PageAt(g, i + 1).y)
  {
    NarrowWalk(g, i);
  }

  /**
    The carry walk in unsigned shorts agrees with the exact one when the
    exact walk from column x, row y lands on column r, row q and q fits.
  */
  lemma NarrowStep(xres: nat, x: nat, y: nat, xoff: nat, yoff: nat, r: nat, q: nat)
    requires x < xres < 0x8000 && xoff < xres && q < 0x1_0000
    requires x + xoff >= xres ==> x + xoff - xres == r && y + 1 + yoff == q
    requires x + xoff < xres ==> x + xoff == r && y + yoff == q
    ensures var x1 := Word(x + xoff);
            var x2 := if x1 >= xres then Word(x1 - xres) else x1;
            var y2 := Word((if x1 >= xres then Word(y + 1) else y) + yoff);
            x2 == r && y2 == q
  {
  }

  /** Consecutive pages abut: each ends where the next begins. */
  lemma PagesAbut(g: Geometry, i: nat)
    requires Supported(g) && i + 1 < PagesCount(g)
    ensures End(PageAt(g, i)) == PageAt(g, i + 1).buffer
  {
    assert (i + 1) * PixelsPerPage(g) == i * PixelsPerPage(g) + PixelsPerPage(g);
  }

  /** The last page ends exactly at the end of the frame. */
  lemma LastPageEndsFrame(g: Geometry)
    requires Supported(g)
    ensures PagesCount(g) > 0 && End(PageAt(g, PagesCount(g) - 1)) == Pixels(g)
  {
    PagesCover(g);
  }

  /** The only page that starts where page i ends is page i + 1. */
  lemma NextStart(g: Geometry, i: nat, j: nat)
    requires Supported(g) && i < PagesCount(g) && j < PagesCount(g)
    ensures End(PageAt(g, i)) == PageAt(g, j).buffer <==> j == i + 1
  {
    var ppp := PixelsPerPage(g);
    PageStart(g, j);
    if i + 1 < PagesCount(g) {
      assert End(PageAt(g, i)) == (i + 1) * ppp;
      MulInjective(i + 1, j, ppp);
    } else {
      LastPageEndsFrame(g);
    }
  }

  /** Pages do not overlap: a later page starts at or after an earlier one ends. */
  lemma PagesDisjoint(g: Geometry, i: nat, j: nat)
    requires Supported(g) && i < j < PagesCount(g)
    ensures End(PageAt(g, i)) <= PageAt(g, j).buffer
  {
    PagesAbut(g, i);
    MulLeft(i + 1, j, PixelsPerPage(g));
  }

  /** Every pixel of the frame lies in exactly one page: page n / ppp. */
  lemma PixelInOnePage(g: Geometry, n: nat)
    requires Supported(g) && n < Pixels(g)
    ensures n / PixelsPerPage(g) < PagesCount(g)
    ensures PageAt(g, n / PixelsPerPage(g)).buffer <= n < End(PageAt(g, n / PixelsPerPage(g)))
    ensures forall j :: 0 <= j < PagesCount(g) && PageAt(g, j).buffer <= n < End(PageAt(g, j)) ==>
              j == n / PixelsPerPage(g)
  {
    var i := n / PixelsPerPage(g);
    PixelPage(g, n);
    forall j | 0 <= j < PagesCount(g) && PageAt(g, j).buffer <= n < End(PageAt(g, j))
      ensures j == i
    {
      OnlyPage(g, n, i, j);
    }
  }

  /** Pixel n lies in page n / ppp. */
  lemma PixelPage(g: Geometry, n: nat)
    requires Supported(g) && n < Pixels(g)
    ensures n / PixelsPerPage(g) < PagesCount(g)
    ensures PageAt(g, n / PixelsPerPage(g)).buffer <= n < End(PageAt(g, n / PixelsPerPage(g)))
  {
    var ppp, c := PixelsPerPage(g), PagesCount(g);
    var i := n / ppp;
    PagesCover(g);
    Quotient(n, ppp, c);
    if i + 1 == c {
      LastPageEndsFrame(g);
    }
  }

  /** Two pages that both hold pixel n are the same page. */
  lemma OnlyPage(g: Geometry, n: nat, i: nat, j: nat)
    requires Supported(g) && i < PagesCount(g) && j < PagesCount(g)
    requires PageAt(g, i).buffer <= n < End(PageAt(g, i))
    requires PageAt(g, j).buffer <= n < End(PageAt(g, j))
    ensures i == j
  {
    if j < i {
      PagesDisjoint(g, j, i);
    } else if i < j {
      PagesDisjoint(g, i, j);
    }
  }

  /** Dividing a number below c * d by d gives a quotient below c, whose multiple lies within d of it. */
  lemma Quotient(n: nat, d: nat, c: nat)
    requires d > 0 && n < c * d
    ensures n / d < c && (n / d) * d <= n < (n / d) * d + d
  {
    DivMod(n, d);
    if n / d >= c {
      MulLeft(c, n / d, d);
    }
  }

  /** Total pixels of the first n pages. */
  function SumLens(g: Geometry, n: nat): nat
    requires Supported(g) && n <= PagesCount(g)
  {
    if n == 0 then 0 else SumLens(g, n - 1) + PageAt(g, n - 1).len
  }

  lemma {:induction false} FullPagesSum(g: Geometry, n: nat)
    requires Supported(g) && n < PagesCount(g)
    ensures SumLens(g, n) == n * PixelsPerPage(g)
  {
    if n > 0 {
      FullPagesSum(g, n - 1);
      assert n * PixelsPerPage(g) == (n - 1) * PixelsPerPage(g) + PixelsPerPage(g);
    }
  }

  /** The page lengths add up to the frame's pixel count. */
  lemma PageLengthsSum(g: Geometry)
    requires Supported(g)
    ensures PagesCount(g) > 0 && SumLens(g, PagesCount(g)) == Pixels(g)
  {
    PagesCover(g);
    FullPagesSum(g, PagesCount(g) - 1);
  }

  /**
    The 220 x 176 panels with 4096-byte pages: 2048 pixels per page, 9 rows
    and 68 columns per page, 19 pages, the last holding 1856 pixels, and a
    77824-byte buffer.
  */
  lemma ScreenPages()
    ensures Supported(Screen)
    ensures PixelsPerPage(Screen) == 2048
    ensures YOffsetPerPage(Screen) == 9 && XOffsetPerPage(Screen) == 68
    ensures PagesCount(Screen) == 19
    ensures PageLen(Screen, 18) == 1856
    ensures SmemLen(Screen) == 77824
  {
  }
}
