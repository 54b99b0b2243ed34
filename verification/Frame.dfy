/** `SpatialFrame`: a mutable raster that remembers, in a list of merged rectangles, everything
    that changed since the last clear. */
module Frame {
  import opened Basics
  import opened Isa
  import opened Raster

  /** A half-open rectangle of cells. */
  datatype Rect = Rect(x0: int, y0: int, x1: int, y1: int)

  predicate Within(r: Rect, l: Layout) {
    0 <= r.x0 < r.x1 <= l.width && 0 <= r.y0 < r.y1 <= l.height
  }

  predicate InRect(r: Rect, x: int, y: int) {
    r.x0 <= x < r.x1 && r.y0 <= y < r.y1
  }

  /** Strictly apart: a gap of at least one cell in one direction. */
  predicate Apart(p: Rect, q: Rect) {
    p.x1 < q.x0 || q.x1 < p.x0 || p.y1 < q.y0 || q.y1 < p.y0
  }

  ghost predicate Covered(rects: seq<Rect>, x: int, y: int) {
    exists i :: 0 <= i < |rects| && InRect(rects[i], x, y)
  }

  ghost predicate Scattered(rects: seq<Rect>) {
    forall i, j :: 0 <= i < j < |rects| ==> Apart(rects[i], rects[j])
  }

  ghost predicate AllWithin(rects: seq<Rect>, l: Layout) {
    forall i :: 0 <= i < |rects| ==> Within(rects[i], l)
  }

  /** Everything the first list and the rectangle cover, the second list and rectangle cover. */
  ghost predicate Absorbs(rects: seq<Rect>, r: Rect, rects': seq<Rect>, r': Rect) {
    forall x, y :: Covered(rects, x, y) || InRect(r, x, y) ==> Covered(rects', x, y) || InRect(r', x, y)
  }

  function Hull(p: Rect, q: Rect): (h: Rect)
    ensures forall x, y :: InRect(p, x, y) || InRect(q, x, y) ==> InRect(h, x, y)
  {
    Rect(if p.x0 < q.x0 then p.x0 else q.x0, if p.y0 < q.y0 then p.y0 else q.y0,
         if p.x1 > q.x1 then p.x1 else q.x1, if p.y1 > q.y1 then p.y1 else q.y1)
  }

  /** Each side of the rectangle is a side of one of these. */
  ghost predicate Bordered(p: Rect, all: seq<Rect>) {
    && (exists q :: q in all && q.x0 == p.x0) && (exists q :: q in all && q.x1 == p.x1)
    && (exists q :: q in all && q.y0 == p.y0) && (exists q :: q in all && q.y1 == p.y1)
  }

  /** Growing a bordered rectangle by one more, or leaving it, keeps it bordered. */
  lemma BorderedGrows(start: Rect, before: seq<Rect>, q: Rect, p: Rect)
    requires Bordered(p, [start] + before)
    ensures Bordered(p, [start] + (before + [q])) && Bordered(Hull(p, q), [start] + (before + [q]))
  {
    var some, all := [start] + before, [start] + (before + [q]);
    assert all == some + [q];
    var a :| a in some && a.x0 == p.x0;
    var b :| b in some && b.x1 == p.x1;
    var c :| c in some && c.y0 == p.y0;
    var d :| d in some && d.y1 == p.y1;
    assert a in all && b in all && c in all && d in all && q in all;
  }

  lemma HullWithin(p: Rect, q: Rect, l: Layout)
    requires Within(p, l) && Within(q, l)
    ensures Within(Hull(p, q), l)
  {
  }

  lemma BorderedMore(r: Rect, more: seq<Rect>)
    ensures Bordered(r, [r] + more)
  {
    assert r in [r] + more;
  }

  lemma BorderedThrough(p: Rect, mid: Rect, some: seq<Rect>, all: seq<Rect>)
    requires Bordered(p, [mid] + some) && Bordered(mid, all) && forall r :: r in some ==> r in all
    ensures Bordered(p, all)
  {
    var a :| a in [mid] + some && a.x0 == p.x0;
    var b :| b in [mid] + some && b.x1 == p.x1;
    var c :| c in [mid] + some && c.y0 == p.y0;
    var d :| d in [mid] + some && d.y1 == p.y1;
    assert a == mid || a in some;
    assert b == mid || b in some;
    assert c == mid || c in some;
    assert d == mid || d in some;
  }

  lemma CoveredExtends(rects: seq<Rect>, r: Rect, x: int, y: int)
    ensures Covered(rects + [r], x, y) <==> Covered(rects, x, y) || InRect(r, x, y)
  {
    var s := rects + [r];
    if Covered(rects, x, y) {
      var i :| 0 <= i < |rects| && InRect(rects[i], x, y);
      assert s[i] == rects[i];
    }
    if InRect(r, x, y) {
      assert s[|rects|] == r;
    }
    if Covered(s, x, y) {
      var i :| 0 <= i < |s| && InRect(s[i], x, y);
      assert i < |rects| ==> rects[i] == s[i];
    }
  }

  /** One more rectangle that is kept, or merged, is absorbed. */
  lemma AbsorbsKept(seen: seq<Rect>, start: Rect, kept: seq<Rect>, pending: Rect, current: Rect)
    requires Absorbs(seen, start, kept, pending)
    ensures Absorbs(seen + [current], start, kept + [current], pending)
  {
    forall x, y | Covered(seen + [current], x, y) || InRect(start, x, y)
      ensures Covered(kept + [current], x, y) || InRect(pending, x, y)
    {
      CoveredExtends(seen, current, x, y);
      CoveredExtends(kept, current, x, y);
    }
  }

  lemma AbsorbsMerged(seen: seq<Rect>, start: Rect, kept: seq<Rect>, pending: Rect, current: Rect)
    requires Absorbs(seen, start, kept, pending)
    ensures Absorbs(seen + [current], start, kept, Hull(pending, current))
  {
    forall x, y | Covered(seen + [current], x, y) || InRect(start, x, y)
      ensures Covered(kept, x, y) || InRect(Hull(pending, current), x, y)
    {
      CoveredExtends(seen, current, x, y);
    }
  }

  /** `kept` are the rectangles of `all` at these places, in order. */
  ghost predicate Picked(kept: seq<Rect>, picks: seq<nat>, all: seq<Rect>) {
    && |kept| == |picks| <= |all|
    && (forall i :: 0 <= i < |picks| ==> picks[i] < |all| && kept[i] == all[picks[i]])
    && (forall i, j :: 0 <= i < j < |picks| ==> picks[i] < picks[j])
  }

  lemma PickedGrows(kept: seq<Rect>, picks: seq<nat>, all: seq<Rect>, next: Rect)
    requires Picked(kept, picks, all)
    ensures Picked(kept, picks, all + [next]) && Picked(kept + [next], picks + [|all|], all + [next])
  {
  }

  lemma PickedKeeps(kept: seq<Rect>, picks: seq<nat>, all: seq<Rect>, l: Layout)
    requires Picked(kept, picks, all) && Scattered(all) && AllWithin(all, l)
    ensures Scattered(kept) && AllWithin(kept, l) && forall q :: q in kept ==> q in all
  {
  }

  ghost predicate AllApart(rects: seq<Rect>, r: Rect) {
    forall i :: 0 <= i < |rects| ==> Apart(rects[i], r)
  }

  lemma AllApartGrows(rects: seq<Rect>, r: Rect, next: Rect)
    requires AllApart(rects, r) && Apart(r, next)
    ensures AllApart(rects + [next], r)
  {
  }

  /** One pass over the remaining rectangles: those apart from the growing pending rectangle are
      kept, the others are merged into it. */
  method MergePass(remaining: seq<Rect>, start: Rect, l: Layout) returns (kept: seq<Rect>, pending: Rect, changed: bool)
    requires AllWithin(remaining, l) && Within(start, l) && Scattered(remaining)
    ensures AllWithin(kept, l) && Within(pending, l) && Scattered(kept)
    ensures |kept| <= |remaining| && (changed ==> |kept| < |remaining|)
    ensures !changed ==> kept == remaining && pending == start && AllApart(kept, pending)
    ensures Absorbs(remaining, start, kept, pending)
    ensures (forall q :: q in kept ==> q in remaining) && Bordered(pending, [start] + remaining)
  {
    hide Bordered, Hull, Absorbs, Picked, AllApart, Apart, Within, Scattered;
    kept, pending, changed := [], start, false;
    ghost var picks: seq<nat> := [];
    StartPass(start);
    for k := 0 to |remaining|
      invariant Picked(kept, picks, remaining[..k]) && Within(pending, l)
      invariant |kept| <= k && (changed ==> |kept| < k)
      invariant !changed ==> kept == remaining[..k] && pending == start && AllApart(kept, pending)
      invariant Absorbs(remaining[..k], start, kept, pending)
      invariant Bordered(pending, [start] + remaining[..k])
    {
      var current := remaining[k];
      assert remaining[..k + 1] == remaining[..k] + [current];
      BorderedGrows(start, remaining[..k], current, pending);
      PickedGrows(kept, picks, remaining[..k], current);
      if Apart(pending, current) {
        AbsorbsKept(remaining[..k], start, kept, pending, current);
        if !changed {
          AllApartGrows(kept, pending, current);
        }
        kept, picks := kept + [current], picks + [k];
      } else {
        AbsorbsMerged(remaining[..k], start, kept, pending, current);
        HullWithin(pending, current, l);
        pending := Hull(pending, current);
        changed := true;
      }
    }
    assert remaining[..|remaining|] == remaining;
    PickedKeeps(kept, picks, remaining, l);
  }

  lemma StartPass(start: Rect)
    ensures Absorbs([], start, [], start) && Picked([], [], []) && AllApart([], start)
    ensures Bordered(start, [start] + [])
  {
    assert start in [start] + [];
  }

  /** `_mark_dirty_rectangle` on a list of rectangles: merge until nothing touches. */
  method Mark(dirty: seq<Rect>, r: Rect, l: Layout) returns (marked: seq<Rect>)
    requires AllWithin(dirty, l) && Within(r, l) && Scattered(dirty)
    ensures AllWithin(marked, l) && Scattered(marked)
    ensures forall x, y :: Covered(dirty, x, y) || InRect(r, x, y) ==> Covered(marked, x, y)
    ensures 1 <= |marked| <= |dirty| + 1
    ensures forall i :: 0 <= i < |marked| - 1 ==> marked[i] in dirty
    ensures Bordered(marked[|marked| - 1], [r] + dirty)
  {
    hide Bordered;
    BorderedMore(r, dirty);
    var pending, remaining := r, dirty;
    while true
      invariant AllWithin(remaining, l) && Within(pending, l) && Scattered(remaining)
      invariant |remaining| <= |dirty| && (forall q :: q in remaining ==> q in [r] + dirty)
      invariant (forall q :: q in remaining ==> q in dirty) && Bordered(pending, [r] + dirty)
      invariant Absorbs(dirty, r, remaining, pending)
      decreases |remaining|
    {
      var kept, grown, changed := MergePass(remaining, pending, l);
      BorderedThrough(grown, pending, remaining, [r] + dirty);
      if !changed {
        marked := kept + [grown];
        forall x, y | Covered(dirty, x, y) || InRect(r, x, y) ensures Covered(marked, x, y) {
          CoveredExtends(kept, grown, x, y);
        }
        return;
      }
      remaining, pending := kept, grown;
    }
  }

  // ---------------------------------------------------------------- the rectangle of a write

  /** The rectangle marked for a non-empty span: part of one row, or whole rows. */
  function SpanRect(r: Region, off: nat, len: nat): (d: Rect)
    requires r.width >= 1 && len >= 1
  {
    var first, last := off / 3, (off + len - 1) / 3;
    var fy, fx, ly, lx := first / r.width, first % r.width, last / r.width, last % r.width;
    if fy == ly then Rect(r.x + fx, r.y + fy, r.x + lx + 1, r.y + ly + 1)
    else Rect(r.x, r.y + fy, r.x + r.width, r.y + ly + 1)
  }

  lemma DivKeepsOrder(a: nat, b: nat, w: int)
    requires w >= 1 && a <= b
    ensures a / w <= b / w
  {
    if a / w > b / w {
      assert a == w * (a / w) + a % w && b == w * (b / w) + b % w;
      MulKeepsOrder(w, b / w + 1, a / w);
    }
  }

  /** Between two cells of a row lie only cells of that row. */
  lemma BetweenInRow(first: nat, p: nat, last: nat, w: int)
    requires w >= 1 && first <= p <= last
    ensures first / w <= p / w <= last / w
    ensures first / w == last / w ==> first % w <= p % w <= last % w
  {
    DivKeepsOrder(first, p, w);
    DivKeepsOrder(p, last, w);
    assert first == w * (first / w) + first % w && p == w * (p / w) + p % w && last == w * (last / w) + last % w;
  }

  /** Every byte of the span lies in its rectangle. */
  lemma SpanRectHolds(r: Region, off: nat, len: nat, k: nat)
    requires r.width >= 1 && r.height >= 0 && len >= 1 && off <= k < off + len <= Capacity(r)
    ensures var (x, y, c) := Place(r, k); InRect(SpanRect(r, off, len), x, y)
  {
    BetweenInRow(off / 3, k / 3, (off + len - 1) / 3, r.width);
  }

  lemma ByteOfCell(off: nat, len: nat, p: nat) returns (k: nat)
    requires len >= 1 && off / 3 <= p <= (off + len - 1) / 3
    ensures off <= k < off + len && k / 3 == p
  {
    k := if 3 * p < off then off else 3 * p;
  }

  /** Of the cells from `first` to `last`, one in the given row: the given column's if there is only one row. */
  lemma CellOfRow(first: nat, last: nat, w: int, row: int, col: int) returns (p: nat)
    requires w >= 1 && first / w <= row <= last / w
    requires first / w == last / w ==> first % w <= col <= last % w
    ensures first <= p <= last && p / w == row && (first / w == last / w ==> p % w == col)
  {
    Divided(first, w);
    Divided(last, w);
    var a, b := first / w, last / w;
    if a == b {
      p := CellAt(w, row, col);
    } else if row == a {
      p := first;
      DivKeepsOrderBack(first, last, w);
    } else {
      p := CellAt(w, row, 0);
      MulKeepsOrder(w, a + 1, row);
      MulKeepsOrder(w, row, b);
    }
  }

  lemma Divided(n: nat, w: int)
    requires w >= 1
    ensures n == w * (n / w) + n % w && 0 <= n % w < w
  {
  }

  /** A smaller quotient comes from a smaller number. */
  lemma DivKeepsOrderBack(a: nat, b: nat, w: int)
    requires w >= 1 && a / w < b / w
    ensures a <= b
  {
    if b < a {
      DivKeepsOrder(b, a, w);
    }
  }

  lemma CellAt(w: int, row: int, col: int) returns (p: nat)
    requires w >= 1 && row >= 0 && 0 <= col < w
    ensures p == w * row + col && p / w == row && p % w == col
  {
    MulKeepsOrder(w, 0, row);
    p := w * row + col;
    DivModUnique(w, row, col);
    assert row * w == w * row;
  }

  /** The rectangle is no larger than it has to be: every row of it has a written byte, and so has every
      cell of it if it is a single row. */
  lemma SpanRectTight(r: Region, off: nat, len: nat, x: int, y: int) returns (k: nat)
    requires r.width >= 1 && r.height >= 0 && len >= 1 && off + len <= Capacity(r)
    requires InRect(SpanRect(r, off, len), x, y)
    ensures off <= k < off + len && Place(r, k).1 == y
    ensures var d := SpanRect(r, off, len); d.y1 == d.y0 + 1 ==> Place(r, k).0 == x
  {
    var p := CellOfRow(off / 3, (off + len - 1) / 3, r.width, y - r.y, x - r.x);
    k := ByteOfCell(off, len, p);
  }

  lemma SpanRectWithin(r: Region, off: nat, len: nat, l: Layout)
    requires r.Inside(l.width, l.height) && len >= 1 && off + len <= Capacity(r)
    ensures Within(SpanRect(r, off, len), l)
  {
    hide Index;
    IndexOfPlace(r, off);
    IndexOfPlace(r, off + len - 1);
    SpanRectHolds(r, off, len, off);
    SpanRectHolds(r, off, len, off + len - 1);
    DivKeepsOrder(off / 3, (off + len - 1) / 3, r.width);
  }

  /** Outside that rectangle the write leaves every cell alone. */
  lemma UntouchedOutside(image: Grid<Pixel>, r: Region, off: nat, data: Bytes, x: int, y: int)
    requires image.Rectangular() && r.Inside(image.width, |image.rows|)
    requires |data| >= 1 && off + |data| <= Capacity(r)
    requires 0 <= y < |image.rows| && 0 <= x < image.width && !InRect(SpanRect(r, off, |data|), x, y)
    ensures WriteSpan(image, r, off, data).rows[y][x] == image.rows[y][x]
  {
    hide Place, Index, SpanRect;
    assert WriteSpan(image, r, off, data).rows[y][x] == PatchPixel(r, off, data, x, y, image.rows[y][x]);
    if r.Contains(x, y) {
      forall c | 0 <= c < 3 ensures !(off <= Index(r, x, y, c) < off + |data|) {
        PlaceOfIndex(r, x, y, c);
        if off <= Index(r, x, y, c) < off + |data| {
          SpanRectHolds(r, off, |data|, Index(r, x, y, c));
        }
      }
    }
  }

  // ---------------------------------------------------------------- the frame

  class SpatialFrame {
    const layout: Layout
    var image: Grid<Pixel>
    var dirty: seq<Rect>
    /** The raster as it was when the rectangles were last cleared. */
    ghost var baseline: Grid<Pixel>

    ghost predicate Valid()
      reads this
    {
      && Accepted(layout) && Fits(image, layout) && Fits(baseline, layout)
      && AllWithin(dirty, layout) && Scattered(dirty)
      && forall y, x :: 0 <= y < layout.height && 0 <= x < layout.width && image.rows[y][x] != baseline.rows[y][x] ==>
           Covered(dirty, x, y)
    }

    constructor (image: Grid<Pixel>, layout: Layout)
      requires Accepted(layout) && Fits(image, layout)
      ensures Valid() && this.image == image && this.layout == layout && dirty == [] && baseline == image
    {
      this.image, this.layout, dirty, baseline := image, layout, [], image;
    }

    method ClearDirtyRectangles()
      requires Valid()
      modifies this`dirty, this`baseline
      ensures Valid() && dirty == [] && baseline == image
    {
      dirty, baseline := [], image;
    }

    method ReadBytes(length: int, region: Option<string>, offset: int) returns (r: Result<Bytes, FrameError>)
      requires Valid()
      ensures var target := Find(layout, region);
        r == if target.Err? then Err(target.error)
             else if length < 0 || offset < 0 || offset + length > Capacity(target.value) then Err(OutOfRange)
             else Ok(ReadSpan(image, target.value, offset, length))
    {
      var target := Find(layout, region);
      if target.Err? {
        return Err(target.error);
      }
      if length < 0 || offset < 0 || offset + length > Capacity(target.value) {
        return Err(OutOfRange);
      }
      return Ok(ReadSpan(image, target.value, offset, length));
    }

    /** A failed write changes nothing; a successful one changes exactly the addressed bytes, and
        whatever now differs from the baseline is covered. */
    method WriteBytes(data: Bytes, region: Option<string>, offset: int) returns (r: Result<Region, FrameError>)
      requires Valid()
      modifies this`image, this`dirty
      ensures Valid()
      ensures var target := Find(layout, region);
        r == if target.Err? then Err(target.error)
             else if offset < 0 || offset + |data| > Capacity(target.value) then Err(OutOfRange)
             else Ok(target.value)
      ensures r.Err? ==> image == old(image) && dirty == old(dirty)
      ensures r.Ok? ==> image == WriteSpan(old(image), r.value, offset, data)
    {
      var target := Find(layout, region);
      if target.Err? {
        return Err(target.error);
      }
      var t := target.value;
      if offset < 0 || offset + |data| > Capacity(t) {
        return Err(OutOfRange);
      }
      image := WriteSpan(image, t, offset, data);
      if |data| > 0 {
        SpanRectWithin(t, offset, |data|, layout);
        dirty := Mark(dirty, SpanRect(t, offset, |data|), layout);
        forall y, x | 0 <= y < layout.height && 0 <= x < layout.width && image.rows[y][x] != baseline.rows[y][x]
          ensures Covered(dirty, x, y)
        {
          if !InRect(SpanRect(t, offset, |data|), x, y) {
            UntouchedOutside(old(image), t, offset, data, x, y);
          }
        }
      } else {
        forall y, x | 0 <= y < layout.height && 0 <= x < layout.width
          ensures image.rows[y][x] == old(image).rows[y][x] {
        }
      }
      return Ok(t);
    }

    method WriteCell(x: int, y: int, p: Pixel) returns (ok: bool)
      requires Valid()
      modifies this`image, this`dirty
      ensures Valid() && (ok <==> 0 <= x < layout.width && 0 <= y < layout.height)
      ensures !ok ==> image == old(image) && dirty == old(dirty)
      ensures ok ==> image == SetCell(old(image), x, y, p)
    {
      if !(0 <= x < layout.width && 0 <= y < layout.height) {
        return false;
      }
      image := SetCell(image, x, y, p);
      dirty := Mark(dirty, Rect(x, y, x + 1, y + 1), layout);
      return true;
    }
  }

  function SetCell(g: Grid<Pixel>, x: int, y: int, p: Pixel): (h: Grid<Pixel>)
    requires g.Rectangular() && 0 <= y < |g.rows| && 0 <= x < g.width
    ensures h.Rectangular() && h.width == g.width && |h.rows| == |g.rows|
    ensures forall j, i :: 0 <= j < |g.rows| && 0 <= i < g.width ==>
      h.rows[j][i] == if i == x && j == y then p else g.rows[j][i]
  {
    g.(rows := g.rows[y := g.rows[y][x := p]])
  }
}
