/** The text mask the particle bursts are drawn from.

    The word is rendered off-screen into an RGBA raster, and the raster is
    walked on a square grid whose stride depends on the font size. Every
    grid cell whose alpha byte exceeds 128 becomes one point, shifted into
    page coordinates by a fixed offset. The rendering itself (font, canvas,
    layout queries) is not modelled: the raster, its dimensions and the
    text box come in as inputs. */
module TextMask {
  import opened Optional
  import opened Arith

  type Byte = b: int | 0 <= b < 256

  /** Alpha values strictly above this count as ink. */
  const AlphaThreshold := 128

  /** A raster as `getImageData` returns it: `w * h` pixels, four bytes
      each, row by row. */
  datatype Raster = Raster(data: seq<Byte>, w: nat, h: nat)

  predicate WellSized(r: Raster) {
    |r.data| == r.w * r.h * 4
  }

  /** A grid cell, in raster pixels. */
  datatype Cell = Cell(x: nat, y: nat)

  /** A text point, in page coordinates. */
  datatype Point = Point(x: real, y: real)

  /** The grid spacing: one sample every `floor(fontSize / 70)` pixels,
      but never closer than every second pixel. */
  function SamplingStride(fontSize: real): (s: int)
    ensures s >= 2
    ensures s >= (fontSize / 70.0).Floor
    ensures s == 2 || s == (fontSize / 70.0).Floor
  {
    var f := (fontSize / 70.0).Floor;
    if f > 2 then f else 2
  }

  /** The byte holding the alpha channel of pixel `c`. */
  function AlphaIndex(c: Cell, w: nat): nat {
    (c.y * w + c.x) * 4 + 3
  }

  /** The cell lies inside the raster on the sampling grid. */
  predicate OnGrid(c: Cell, w: nat, h: nat, s: nat)
    requires s > 0
  {
    c.x < w && c.y < h && c.x % s == 0 && c.y % s == 0
  }

  /** The pixel's alpha byte is inside the buffer and above the threshold. */
  predicate Inked(data: seq<Byte>, w: nat, c: Cell) {
    AlphaIndex(c, w) < |data| && data[AlphaIndex(c, w)] > AlphaThreshold
  }

  /** Row-major order: earlier row first, then smaller column. */
  predicate Before(a: Cell, b: Cell) {
    a.y < b.y || (a.y == b.y && a.x < b.x)
  }

  predicate StrictlyOrdered(cells: seq<Cell>) {
    forall i, j :: 0 <= i < j < |cells| ==> Before(cells[i], cells[j])
  }

  /** Every listed cell is an inked grid cell. */
  predicate ScanSound(cells: seq<Cell>, r: Raster, s: nat)
    requires s > 0
  {
    forall i :: 0 <= i < |cells| ==> OnGrid(cells[i], r.w, r.h, s) && Inked(r.data, r.w, cells[i])
  }

  /** Every inked grid cell is listed. */
  ghost predicate ScanComplete(cells: seq<Cell>, r: Raster, s: nat)
    requires s > 0
  {
    forall c :: OnGrid(c, r.w, r.h, s) && Inked(r.data, r.w, c) ==> c in cells
  }

  /** `cells` is what the nested scan produces: exactly the inked grid cells,
      each once, in row-major order. */
  ghost predicate IsMaskScan(cells: seq<Cell>, r: Raster, s: nat)
    requires s > 0
  {
    ScanSound(cells, r, s) && ScanComplete(cells, r, s) && StrictlyOrdered(cells)
  }

  // ---------------------------------------------------------------------
  // Arithmetic facts the scan relies on
  // ---------------------------------------------------------------------

  /** Every pixel inside the raster has its alpha byte inside the buffer. */
  lemma AlphaIndexInBounds(c: Cell, w: nat, h: nat)
    requires c.x < w && c.y < h
    ensures AlphaIndex(c, w) < w * h * 4
  {
    calc {
      c.y * w + c.x;
    <
      c.y * w + w;
    ==
      (c.y + 1) * w;
    <=  { MulMonotone(c.y + 1, h, w); }
      h * w;
    }
  }

  /** Proof helper for `AlphaIndexInBounds`: multiplication by a natural
      number is monotone. */
  lemma MulMonotone(a: nat, b: nat, w: nat)
    requires a <= b
    ensures a * w <= b * w
  {
  }

  /** Stepping by the stride keeps a multiple of the stride a multiple. */
  lemma StepKeepsMultiple(x: int, s: int)
    requires s > 0 && x % s == 0
    ensures (x + s) % s == 0
  {
    ModUnique(x + s, s, x / s + 1, 0);
  }

  /** Two multiples of `s` less than `s` apart are equal. */
  lemma MultiplesApart(a: int, b: int, s: int)
    requires s > 0 && a % s == 0 && b % s == 0 && b <= a < b + s
    ensures a == b
  {
    var qa, qb := a / s, b / s;
    assert a == s * qa && b == s * qb;
    assert a - b == s * (qa - qb);
    MulBand(s, qa - qb);
  }

  // ---------------------------------------------------------------------
  // The scan
  // ---------------------------------------------------------------------

  /** The grid walk of `createTextParticleMap`: rows top to bottom, columns
      left to right, both in steps of `s`, keeping the cells whose alpha
      byte exceeds 128. Every read lands inside the buffer. */
  method SampleCells(r: Raster, s: nat) returns (cells: seq<Cell>)
    requires WellSized(r) && s > 0
    ensures ScanSound(cells, r, s)
    ensures ScanComplete(cells, r, s)
    ensures StrictlyOrdered(cells)
  {
    cells := [];
    var y := 0;
    while y < r.h
      invariant y % s == 0
      invariant forall i :: 0 <= i < |cells| ==>
                  OnGrid(cells[i], r.w, r.h, s) && Inked(r.data, r.w, cells[i]) && cells[i].y < y
      invariant forall c :: OnGrid(c, r.w, r.h, s) && Inked(r.data, r.w, c) && c.y < y ==> c in cells
      invariant StrictlyOrdered(cells)
      decreases r.h - y
    {
      var x := 0;
      while x < r.w
        invariant x % s == 0
        invariant forall i :: 0 <= i < |cells| ==>
                    OnGrid(cells[i], r.w, r.h, s) && Inked(r.data, r.w, cells[i]) &&
                    Before(cells[i], Cell(x, y))
        invariant forall c :: OnGrid(c, r.w, r.h, s) && Inked(r.data, r.w, c) && Before(c, Cell(x, y)) ==> c in cells
        invariant StrictlyOrdered(cells)
        decreases r.w - x
      {
        var here := Cell(x, y);
        AlphaIndexInBounds(here, r.w, r.h);
        if r.data[(y * r.w + x) * 4 + 3] > AlphaThreshold {
          cells := cells + [here];
        }
        forall c | OnGrid(c, r.w, r.h, s) && Inked(r.data, r.w, c) && Before(c, Cell(x + s, y))
          ensures c in cells
        {
          if c.y == y && c.x >= x {
            MultiplesApart(c.x, x, s);
          }
        }
        StepKeepsMultiple(x, s);
        x := x + s;
      }
      forall c | OnGrid(c, r.w, r.h, s) && Inked(r.data, r.w, c) && c.y < y + s
        ensures c in cells
      {
        if c.y >= y {
          MultiplesApart(c.y, y, s);
        }
      }
      StepKeepsMultiple(y, s);
      y := y + s;
    }
  }

  /** The scan's result is determined by the raster and the stride: two
      sequences that both meet `IsMaskScan` are the same sequence. */
  lemma MaskScanUnique(a: seq<Cell>, b: seq<Cell>, r: Raster, s: nat)
    requires s > 0 && IsMaskScan(a, r, s) && IsMaskScan(b, r, s)
    ensures a == b
  {
    forall c ensures c in a <==> c in b {
      if c in a {
        var i :| 0 <= i < |a| && a[i] == c;
        assert OnGrid(a[i], r.w, r.h, s) && Inked(r.data, r.w, a[i]);
      }
      if c in b {
        var i :| 0 <= i < |b| && b[i] == c;
        assert OnGrid(b[i], r.w, r.h, s) && Inked(r.data, r.w, b[i]);
      }
    }
    OrderedUnique(a, b);
  }

  /** Two strictly ordered sequences with the same elements are equal. */
  lemma {:induction false} OrderedUnique(a: seq<Cell>, b: seq<Cell>)
    requires StrictlyOrdered(a) && StrictlyOrdered(b)
    requires forall c :: c in a <==> c in b
    ensures a == b
    decreases |a|
  {
    assert |a| > 0 ==> a[0] in b;
    assert |b| > 0 ==> b[0] in a;
    if |a| > 0 {
      assert a[0] == b[0] by {
        assert b[0] in a && a[0] in b;
      }
      forall c ensures c in a[1..] <==> c in b[1..] {
        if c in a[1..] {
          var k :| 1 <= k < |a| && a[k] == c;
          assert Before(a[0], c);
          assert c in b;
        }
        if c in b[1..] {
          var k :| 1 <= k < |b| && b[k] == c;
          assert Before(b[0], c);
          assert c in a;
        }
      }
      OrderedUnique(a[1..], b[1..]);
      assert a == [a[0]] + a[1..];
      assert b == [b[0]] + b[1..];
    }
  }

  // ---------------------------------------------------------------------
  // Rebuilding the point list
  // ---------------------------------------------------------------------

  /** The rendered text's box on the page, in CSS pixels. */
  datatype TextBox = TextBox(left: real, top: real, width: real, height: real, fontSize: real)

  /** The canvas is centred on the text box: its top-left corner sits half
      the size difference above and to the left of the box. */
  function OffsetX(box: TextBox, r: Raster): real {
    box.left - (r.w as real - box.width) / 2.0
  }

  function OffsetY(box: TextBox, r: Raster): real {
    box.top - (r.h as real - box.height) / 2.0
  }

  /** Every cell moved by the same offset into page coordinates. */
  function Shift(cells: seq<Cell>, dx: real, dy: real): (ps: seq<Point>)
    ensures |ps| == |cells|
    ensures forall i :: 0 <= i < |cells| ==> ps[i].x - dx == cells[i].x as real && ps[i].y - dy == cells[i].y as real
  {
    seq(|cells|, i requires 0 <= i < |cells| => Point(dx + cells[i].x as real, dy + cells[i].y as real))
  }

  /** A canvas dimension as the 1.5-times assignment leaves it: the scaled
      size truncated to a whole number of pixels. It is zero exactly when
      the box side is under two thirds of a pixel. */
  function CanvasDim(size: real): (n: nat)
    requires size >= 0.0
    ensures n as real <= size * 1.5 < n as real + 1.0
    ensures n == 0 <==> size < 2.0 / 3.0
  {
    (size * 1.5).Floor
  }

  /** The canvas is centred on the text box: the canvas's middle, moved by
      the offsets into page coordinates, is the middle of the box. */
  lemma CanvasCentredOnBox(box: TextBox, r: Raster)
    ensures OffsetX(box, r) + r.w as real / 2.0 == box.left + box.width / 2.0
    ensures OffsetY(box, r) + r.h as real / 2.0 == box.top + box.height / 2.0
  {
  }

  /** `createTextParticleMap`. Without the text element the old points stay
      as they were. The canvas is sized from the text box; when a side of
      it is zero pixels, reading the image data throws, the assignment is
      never reached and the old points stay (`threw`). Otherwise the point
      list is replaced as a whole by the shifted mask scan of the raster at
      the font size's stride; the result depends on the raster and the box
      alone, not on the old points. */
  method CreateTextParticleMap(textPoints: seq<Point>, text: Option<TextBox>, r: Raster)
    returns (points: seq<Point>, cells: seq<Cell>, threw: bool)
    requires WellSized(r)
    requires text.Some? ==> text.value.width >= 0.0 && text.value.height >= 0.0
    requires text.Some? ==> r.w == CanvasDim(text.value.width) && r.h == CanvasDim(text.value.height)
    ensures threw <==> text.Some? && (text.value.width < 2.0 / 3.0 || text.value.height < 2.0 / 3.0)
    ensures text.None? || threw ==> points == textPoints && cells == []
    ensures text.Some? && !threw ==> ScanSound(cells, r, SamplingStride(text.value.fontSize))
    ensures text.Some? && !threw ==> ScanComplete(cells, r, SamplingStride(text.value.fontSize))
    ensures text.Some? && !threw ==> StrictlyOrdered(cells)
    ensures text.Some? && !threw ==> points == Shift(cells, OffsetX(text.value, r), OffsetY(text.value, r))
  {
    if text.None? {
      return textPoints, [], false;
    }
    if r.w == 0 || r.h == 0 {
      return textPoints, [], true;
    }
    var box := text.value;
    cells := SampleCells(r, SamplingStride(box.fontSize));
    points := Shift(cells, OffsetX(box, r), OffsetY(box, r));
    threw := false;
  }

  /** Rebuilding from the same raster and text box yields the same points,
      whatever the point lists were before. */
  lemma RebuildDeterministic(box: TextBox, r: Raster, cells1: seq<Cell>, cells2: seq<Cell>)
    requires IsMaskScan(cells1, r, SamplingStride(box.fontSize))
    requires IsMaskScan(cells2, r, SamplingStride(box.fontSize))
    ensures Shift(cells1, OffsetX(box, r), OffsetY(box, r)) == Shift(cells2, OffsetX(box, r), OffsetY(box, r))
  {
    MaskScanUnique(cells1, cells2, r, SamplingStride(box.fontSize));
  }
}
