/** Coordinate-addressed geometry of a spatial frame: layouts, regions and the byte addressing of
    a rectangular region (`zdx_spatial_frame.py`). */
module Raster {
  import opened Basics
  import opened Isa

  const MAX_SPATIAL_CELLS := 16_777_216

  datatype Region = Region(name: string, x: int, y: int, width: int, height: int, kind: string) {
    predicate Contains(cx: int, cy: int) {
      x <= cx < x + width && y <= cy < y + height
    }
    predicate Inside(w: int, h: int) {
      0 <= x && 0 <= y && 1 <= width && 0 <= height && x + width <= w && y + height <= h
    }
  }

  function Capacity(r: Region): (n: int) {
    r.width * r.height * 3
  }

  predicate Overlap(a: Region, b: Region) {
    !(a.x + a.width <= b.x || b.x + b.width <= a.x || a.y + a.height <= b.y || b.y + b.height <= a.y)
  }

  /** Two regions with cells overlap exactly when they share a cell. */
  lemma OverlapMeansShared(a: Region, b: Region)
    requires a.width >= 1 && a.height >= 1 && b.width >= 1 && b.height >= 1
    ensures Overlap(a, b) <==> exists x, y :: a.Contains(x, y) && b.Contains(x, y)
  {
    if Overlap(a, b) {
      var x, y := if a.x > b.x then a.x else b.x, if a.y > b.y then a.y else b.y;
      assert a.Contains(x, y) && b.Contains(x, y);
    }
  }

  datatype Layout = Layout(width: int, height: int, executionRows: int, regions: seq<Region>)

  /** The checks of `SpatialLayout.__post_init__`. */
  predicate Accepted(l: Layout) {
    && l.width >= 1 && l.height >= 1 && l.width * l.height <= MAX_SPATIAL_CELLS
    && 0 <= l.executionRows <= l.height
    && (forall i :: 0 <= i < |l.regions| ==> AcceptedRegion(l, l.regions[i]))
    && (forall i, j :: 0 <= i < j < |l.regions| ==>
          l.regions[i].name != l.regions[j].name && !Overlap(l.regions[i], l.regions[j]))
  }

  predicate AcceptedRegion(l: Layout, r: Region) {
    && r.name != "" && r.width >= 1 && r.height >= 1 && r.x >= 0 && r.y >= 0
    && r.x + r.width <= l.width && r.y + r.height <= l.height
    && r.kind == "data" && r.y >= l.executionRows
  }

  datatype FrameError = NoStorage | NoSuchRegion | OutOfRange

  function Execution(l: Layout): (r: Region) {
    Region("execution", 0, 0, l.width, l.executionRows, "execution")
  }

  function Storage(l: Layout): (r: Region) {
    Region("storage", 0, l.executionRows, l.width, l.height - l.executionRows, "data")
  }

  function FirstNamed(regions: seq<Region>, name: string): (r: Result<Region, FrameError>)
    ensures r.Ok? ==> r.value in regions && r.value.name == name
  {
    if regions == [] then Err(NoSuchRegion)
    else if regions[0].name == name then Ok(regions[0])
    else FirstNamed(regions[1..], name)
  }

  /** `layout.region(name)`; the names "storage" and "execution" shadow named regions. */
  function Find(l: Layout, name: Option<string>): (r: Result<Region, FrameError>)
    requires Accepted(l)
    ensures r.Ok? ==> r.value.Inside(l.width, l.height)
    ensures r.Ok? && name != Some("execution") ==> r.value.y >= l.executionRows
  {
    if name == None || name == Some("storage") then
      if Storage(l).height == 0 then Err(NoStorage) else Ok(Storage(l))
    else if name == Some("execution") then Ok(Execution(l))
    else FirstNamed(l.regions, name.value)
  }

  /** Regions of an accepted layout are far below four gigabytes. */
  lemma CapacityBounded(l: Layout, name: Option<string>)
    requires Accepted(l) && Find(l, name).Ok?
    ensures Capacity(Find(l, name).value) <= 3 * MAX_SPATIAL_CELLS < U32
  {
    var r := Find(l, name).value;
    MulKeepsOrder(r.width, r.height, l.height);
    MulKeepsOrder(l.height, r.width, l.width);
  }

  // ---------------------------------------------------------------- byte addresses

  /** Column, row and channel of byte `k` of a region: row-major cells, three channels each. */
  function Place(r: Region, k: nat): (p: (int, int, int))
    requires r.width >= 1
  {
    (r.x + k / 3 % r.width, r.y + k / 3 / r.width, k % 3)
  }

  function Index(r: Region, x: int, y: int, c: int): (k: int) {
    ((y - r.y) * r.width + (x - r.x)) * 3 + c
  }

  lemma DivModUnique(w: int, q: int, r: int)
    requires w >= 1 && 0 <= r < w
    ensures (q * w + r) / w == q && (q * w + r) % w == r
  {
    var n := q * w + r;
    var q', r' := n / w, n % w;
    assert n == w * q' + r' && 0 <= r' < w;
    if q' < q {
      MulKeepsOrder(w, q' + 1, q);
    } else if q' > q {
      MulKeepsOrder(w, q + 1, q');
    }
  }

  /** Addressing a cell and reading the address back. */
  lemma PlaceOfIndex(r: Region, x: int, y: int, c: int)
    requires r.width >= 1 && r.Contains(x, y) && 0 <= c < 3
    ensures 0 <= Index(r, x, y, c) < Capacity(r) && Place(r, Index(r, x, y, c)) == (x, y, c)
  {
    var row, col := y - r.y, x - r.x;
    MulKeepsOrder(r.width, 0, row);
    MulKeepsOrder(r.width, row, r.height - 1);
    DivModUnique(3, row * r.width + col, c);
    DivModUnique(r.width, row, col);
  }

  /** Every address below the capacity is a cell of the region, and only that one. */
  lemma IndexOfPlace(r: Region, k: nat)
    requires r.width >= 1 && r.height >= 0 && k < Capacity(r)
    ensures var (x, y, c) := Place(r, k);
      r.Contains(x, y) && 0 <= c < 3 && Index(r, x, y, c) == k
  {
    var p := k / 3;
    var row, col := p / r.width, p % r.width;
    assert p == r.width * row + col && 0 <= col < r.width;
    QuotientShrinks(p, r.width);
    if row >= r.height {
      MulKeepsOrder(r.width, r.height, row);
    }
  }

  // ---------------------------------------------------------------- reading and writing regions

  function Channel(p: Pixel, c: int): (b: Byte) {
    if c == 0 then p.r else if c == 1 then p.g else p.b
  }

  ghost predicate Fits(image: Grid<Pixel>, l: Layout) {
    image.Rectangular() && image.width == l.width && |image.rows| == l.height
  }

  function BlankFrame(l: Layout): (g: Grid<Pixel>)
    requires Accepted(l)
    ensures Fits(g, l)
  {
    Grid(l.width, seq(l.height, y => seq(l.width, x => NOP_PIXEL)))
  }

  function ByteAt(image: Grid<Pixel>, r: Region, k: nat): (b: Byte)
    requires image.Rectangular() && r.Inside(image.width, |image.rows|) && k < Capacity(r)
  {
    IndexOfPlace(r, k);
    var (x, y, c) := Place(r, k);
    Channel(image.rows[y][x], c)
  }

  /** `read_bytes` of a checked span. */
  function ReadSpan(image: Grid<Pixel>, r: Region, off: nat, len: nat): (s: Bytes)
    requires image.Rectangular() && r.Inside(image.width, |image.rows|) && off + len <= Capacity(r)
    ensures |s| == len
  {
    seq(len, i requires 0 <= i < len => ByteAt(image, r, off + i))
  }

  /** One channel after `data` lands at byte `off` of the region. */
  function Patched(r: Region, off: nat, data: Bytes, x: int, y: int, c: int, before: Byte): (b: Byte) {
    var k := Index(r, x, y, c);
    if off <= k < off + |data| then data[k - off] else before
  }

  function PatchPixel(r: Region, off: nat, data: Bytes, x: int, y: int, p: Pixel): (q: Pixel) {
    if r.Contains(x, y) then
      Pixel(Patched(r, off, data, x, y, 0, p.r), Patched(r, off, data, x, y, 1, p.g),
        Patched(r, off, data, x, y, 2, p.b))
    else p
  }

  /** `write_bytes` of a checked span. */
  function WriteSpan(image: Grid<Pixel>, r: Region, off: nat, data: Bytes): (g: Grid<Pixel>)
    requires image.Rectangular()
    ensures g.Rectangular() && g.width == image.width && |g.rows| == |image.rows|
    ensures forall y, x :: 0 <= y < |g.rows| && 0 <= x < g.width ==>
      g.rows[y][x] == PatchPixel(r, off, data, x, y, image.rows[y][x])
  {
    Grid(image.width, seq(|image.rows|, y requires 0 <= y < |image.rows| =>
      seq(image.width, x requires 0 <= x < image.width => PatchPixel(r, off, data, x, y, image.rows[y][x]))))
  }

  /** Bytes run through a region cell by cell and row by row, each cell's red, green and blue in turn:
      byte zero is the red of the first cell, and one cell or one row further on is three bytes, or three
      for each cell of a row, further on. */
  lemma RowMajor(image: Grid<Pixel>, r: Region, x: int, y: int)
    requires image.Rectangular() && r.Inside(image.width, |image.rows|) && r.Contains(x, y)
    ensures Index(r, r.x, r.y, 0) == 0
    ensures Index(r, x + 1, y, 0) == Index(r, x, y, 0) + 3
    ensures Index(r, x, y + 1, 0) == Index(r, x, y, 0) + 3 * r.width
    ensures var k := Index(r, x, y, 0);
      && 0 <= k && k + 3 <= Capacity(r)
      && ReadSpan(image, r, k, 3) == [image.rows[y][x].r, image.rows[y][x].g, image.rows[y][x].b]
  {
    var k := Index(r, x, y, 0);
    PlaceOfIndex(r, x, y, 0);
    PlaceOfIndex(r, x, y, 1);
    PlaceOfIndex(r, x, y, 2);
    assert Index(r, x, y, 1) == k + 1 && Index(r, x, y, 2) == k + 2 && Index(r, x + 1, y, 0) == k + 3;
    assert Index(r, r.x, r.y, 0) == 0;
    assert Index(r, x, y + 1, 0) == k + 3 * r.width by {
      assert (y + 1 - r.y) * r.width == (y - r.y) * r.width + r.width;
    }
    assert Place(r, k) == (x, y, 0) && Place(r, k + 1) == (x, y, 1) && Place(r, k + 2) == (x, y, 2);
    hide Place, Index;
    var p := image.rows[y][x];
    assert ByteAt(image, r, k) == p.r && ByteAt(image, r, k + 1) == p.g && ByteAt(image, r, k + 2) == p.b;
  }

  /** A write is seen by exactly the bytes it addresses. */
  lemma ByteAfterWrite(image: Grid<Pixel>, r: Region, off: nat, data: Bytes, k: nat)
    requires image.Rectangular() && r.Inside(image.width, |image.rows|)
    requires off + |data| <= Capacity(r) && k < Capacity(r)
    ensures ByteAt(WriteSpan(image, r, off, data), r, k) ==
      if off <= k < off + |data| then data[k - off] else ByteAt(image, r, k)
  {
    hide Place, Index;
    IndexOfPlace(r, k);
    var (x, y, c) := Place(r, k);
    assert WriteSpan(image, r, off, data).rows[y][x] == PatchPixel(r, off, data, x, y, image.rows[y][x]);
  }

  /** Reading the whole region after a write splices the data in. */
  lemma ReadAfterWrite(image: Grid<Pixel>, r: Region, off: nat, data: Bytes)
    requires image.Rectangular() && r.Inside(image.width, |image.rows|) && off + |data| <= Capacity(r)
    ensures var before := ReadSpan(image, r, 0, Capacity(r));
      ReadSpan(WriteSpan(image, r, off, data), r, 0, Capacity(r)) == before[..off] + data + before[off + |data|..]
  {
    hide ByteAt, WriteSpan, Place, Index;
    var n := Capacity(r);
    var before := ReadSpan(image, r, 0, n);
    var after := ReadSpan(WriteSpan(image, r, off, data), r, 0, n);
    forall k | 0 <= k < n ensures after[k] == (before[..off] + data + before[off + |data|..])[k] {
      ByteAfterWrite(image, r, off, data, k);
    }
  }

  /** Reading any span is reading the region and slicing. */
  lemma SpanIsSlice(image: Grid<Pixel>, r: Region, off: nat, len: nat)
    requires image.Rectangular() && r.Inside(image.width, |image.rows|) && off + len <= Capacity(r)
    ensures ReadSpan(image, r, off, len) == ReadSpan(image, r, 0, Capacity(r))[off..off + len]
  {
  }

  /** A write to one region cannot be seen through a region it does not overlap. */
  lemma DisjointRegionsIsolated(image: Grid<Pixel>, r: Region, other: Region, off: nat, data: Bytes)
    requires image.Rectangular() && r.Inside(image.width, |image.rows|) && other.Inside(image.width, |image.rows|)
    requires !Overlap(r, other) && Capacity(other) >= 0
    ensures var n := Capacity(other);
      ReadSpan(WriteSpan(image, r, off, data), other, 0, n) == ReadSpan(image, other, 0, n)
  {
    hide WriteSpan, Place, Index;
    var n := Capacity(other);
    var g := WriteSpan(image, r, off, data);
    forall k | 0 <= k < n ensures ByteAt(g, other, k) == ByteAt(image, other, k) {
      IndexOfPlace(other, k);
      var (x, y, c) := Place(other, k);
      assert g.rows[y][x] == PatchPixel(r, off, data, x, y, image.rows[y][x]);
    }
    assert ReadSpan(g, other, 0, n) == ReadSpan(image, other, 0, n);
  }

  /** In an accepted layout no data region sees what is written to another, and none sees or touches the
      executable rows. */
  lemma NamedRegionsIsolated(l: Layout, image: Grid<Pixel>, a: string, b: string, off: nat, data: Bytes)
    requires Accepted(l) && Fits(image, l) && a != b
    requires FirstNamed(l.regions, a).Ok? && (FirstNamed(l.regions, b).Ok? || b == "execution")
    ensures var r := FirstNamed(l.regions, a).value;
      var other := if FirstNamed(l.regions, b).Ok? then FirstNamed(l.regions, b).value else Execution(l);
      && r.Inside(l.width, l.height) && other.Inside(l.width, l.height) && Capacity(other) >= 0
      && ReadSpan(WriteSpan(image, r, off, data), other, 0, Capacity(other))
        == ReadSpan(image, other, 0, Capacity(other))
  {
    var r := FirstNamed(l.regions, a).value;
    var other := if FirstNamed(l.regions, b).Ok? then FirstNamed(l.regions, b).value else Execution(l);
    var i :| 0 <= i < |l.regions| && l.regions[i] == r;
    assert AcceptedRegion(l, r);
    if FirstNamed(l.regions, b).Ok? {
      var j :| 0 <= j < |l.regions| && l.regions[j] == other;
      assert AcceptedRegion(l, other) && i != j;
      assert !Overlap(r, other) by {
        if i < j {
          assert !Overlap(l.regions[i], l.regions[j]);
        } else {
          assert !Overlap(l.regions[j], l.regions[i]);
        }
      }
    }
    assert Capacity(other) >= 0 by {
      MulKeepsOrder(other.width, 0, other.height);
    }
    DisjointRegionsIsolated(image, r, other, off, data);
  }
}
