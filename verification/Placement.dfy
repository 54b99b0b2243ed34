/** `SpatialCompiler` and `SpatialPyxelVM`: a program placed in the executable rows of a spatial
    frame runs as it would alone, whatever is written to the data regions. */
module Placement {
  import opened Basics
  import opened Isa
  import opened Raster
  import opened Compiler
  import opened Frame
  import VmLaws

  datatype PlacementError = TooManyThreads | TooWide | BadPayload(why: FrameError)

  /** The expanded program in the top left corner of an otherwise blank frame. */
  function Placed(lx: Lexer, m: OpMap, program: Program, l: Layout): (g: Grid<Pixel>)
    requires Accepted(l)
    ensures Fits(g, l)
  {
    Grid(l.width, seq(l.height, y requires 0 <= y < l.height => seq(l.width, x requires 0 <= x < l.width =>
      PlacedPixel(lx, m, program, x, y))))
  }

  function PlacedPixel(lx: Lexer, m: OpMap, program: Program, x: int, y: int): (p: Pixel)
    requires 0 <= x && 0 <= y
  {
    if y < |program| && x < |program[y]| then ParseOne(lx, m, program[y][x]) else NOP_PIXEL
  }

  /** `SpatialCompiler.compile`: the program, then the payloads one after another; the first one that
      its region refuses stops the compilation. */
  method CompileSpatial(lx: Lexer, m: OpMap, source: Program, l: Layout, payloads: seq<Write>)
    returns (r: Result<Grid<Pixel>, PlacementError>)
    requires Accepted(l)
    ensures var p := Expand(lx, source);
      r == if |p| > l.executionRows then Err(TooManyThreads)
           else if Columns(p) > l.width then Err(TooWide)
           else if FirstRefusal(l, payloads).Some? then Err(BadPayload(FirstRefusal(l, payloads).value))
           else Ok(Written(Placed(lx, m, p, l), l, payloads))
  {
    var program := ExpandProgram(lx, source);
    if |program| > l.executionRows {
      return Err(TooManyThreads);
    }
    if Columns(program) > l.width {
      return Err(TooWide);
    }
    hide ParseOne, Placed, Written, FirstRefusal;
    var frame := DrawProgram(lx, m, program, l);
    r := DrawPayloads(frame, payloads);
  }

  /** Draw the program cell by cell into a blank frame. */
  method DrawProgram(lx: Lexer, m: OpMap, program: Program, l: Layout) returns (frame: SpatialFrame)
    requires Accepted(l) && |program| <= l.executionRows && Columns(program) <= l.width
    ensures fresh(frame) && frame.Valid() && frame.layout == l && frame.image == Placed(lx, m, program, l)
  {
    hide ParseOne, PlacedPixel, Placed;
    frame := new SpatialFrame(BlankFrame(l), l);
    for y := 0 to |program|
      invariant frame.Valid() && fresh(frame) && frame.layout == l
      invariant Drawn(lx, m, program, frame.image, 0, y)
    {
      for x := 0 to |program[y]|
        invariant frame.Valid() && fresh(frame) && frame.layout == l
        invariant Drawn(lx, m, program, frame.image, x, y)
      {
        ghost var before := frame.image;
        var _ := frame.WriteCell(x, y, ParseOne(lx, m, program[y][x]));
        DrawnOneMore(lx, m, program, before, frame.image, x, y);
      }
      DrawnRow(lx, m, program, frame.image, y);
    }
    DrawnIsPlaced(lx, m, program, frame.image, l);
  }

  method DrawPayloads(frame: SpatialFrame, payloads: seq<Write>) returns (r: Result<Grid<Pixel>, PlacementError>)
    requires frame.Valid()
    modifies frame`image, frame`dirty
    ensures var refusal := FirstRefusal(frame.layout, payloads);
      r == if refusal.Some? then Err(BadPayload(refusal.value))
           else Ok(Written(old(frame.image), frame.layout, payloads))
  {
    for i := 0 to |payloads|
      invariant frame.Valid() && FirstRefusal(frame.layout, payloads[..i]).None?
      invariant frame.image == Written(old(frame.image), frame.layout, payloads[..i])
    {
      var w := payloads[i];
      assert payloads[..i + 1][..i] == payloads[..i];
      var done := frame.WriteBytes(w.data, w.region, w.offset);
      if done.Err? {
        RefusedEarly(frame.layout, payloads, i);
        return Err(BadPayload(done.error));
      }
    }
    assert payloads[..|payloads|] == payloads;
    return Ok(frame.image);
  }

  /** Rows before `y`, and row `y` up to `x`, are drawn; the rest is still blank. */
  ghost predicate Drawn(lx: Lexer, m: OpMap, program: Program, g: Grid<Pixel>, x: int, y: int)
    requires g.Rectangular()
  {
    forall j, i :: 0 <= j < |g.rows| && 0 <= i < g.width ==>
      g.rows[j][i] == if j < y || (j == y && i < x) then PlacedPixel(lx, m, program, i, j) else NOP_PIXEL
  }

  lemma DrawnOneMore(lx: Lexer, m: OpMap, program: Program, g: Grid<Pixel>, h: Grid<Pixel>, x: int, y: int)
    requires g.Rectangular() && 0 <= y < |program| && y < |g.rows| && 0 <= x < |program[y]| && x < g.width
    requires Drawn(lx, m, program, g, x, y) && h == SetCell(g, x, y, ParseOne(lx, m, program[y][x]))
    ensures h.Rectangular() && Drawn(lx, m, program, h, x + 1, y)
  {
    hide ParseOne;
  }

  lemma DrawnRow(lx: Lexer, m: OpMap, program: Program, g: Grid<Pixel>, y: int)
    requires g.Rectangular() && 0 <= y < |program| && Drawn(lx, m, program, g, |program[y]|, y)
    ensures Drawn(lx, m, program, g, 0, y + 1)
  {
    hide ParseOne;
  }

  lemma DrawnIsPlaced(lx: Lexer, m: OpMap, program: Program, g: Grid<Pixel>, l: Layout)
    requires Accepted(l) && Fits(g, l) && Drawn(lx, m, program, g, 0, |program|)
    ensures g == Placed(lx, m, program, l)
  {
    hide ParseOne;
    var h := Placed(lx, m, program, l);
    forall y | 0 <= y < l.height ensures g.rows[y] == h.rows[y] {
      forall x | 0 <= x < l.width ensures g.rows[y][x] == h.rows[y][x] {
      }
    }
    assert g.rows == h.rows;
  }

  lemma CellPlaced(lx: Lexer, m: OpMap, program: Program, l: Layout, x: int, y: int)
    requires Accepted(l) && IsDict(m) && Clear(m) && Columns(program) <= l.width && 0 <= y < l.height
    requires 0 <= x < l.width
    ensures var small, big := Cells(lx, Names(m), program), DecodeGrid(m, Placed(lx, m, program, l));
      && y < |big.rows| && x < |big.rows[y]|
      && big.rows[y][x] == if y < |small.rows| && x < small.width then small.rows[y][x] else Blank
  {
    hide ParseOne, Meaning, DecodePixel, Clear;
    ClearMeansReadable(m);
    if y < |program| && x < |program[y]| {
      MeaningRead(lx, m, program[y][x]);
    }
  }

  lemma PlacedIsPadded(lx: Lexer, m: OpMap, program: Program, l: Layout)
    requires Accepted(l) && IsDict(m) && Clear(m) && |program| <= l.executionRows && Columns(program) <= l.width
    ensures VmLaws.Padded(Cells(lx, Names(m), program), DecodeGrid(m, Placed(lx, m, program, l)))
  {
    var small, big := Cells(lx, Names(m), program), DecodeGrid(m, Placed(lx, m, program, l));
    PlacedShape(lx, m, program, l);
    hide Clear, Cells, DecodeGrid, Placed, Accepted;
    forall y, x | 0 <= y < |big.rows| && 0 <= x < big.width
      ensures big.rows[y][x] == if y < |small.rows| && x < small.width then small.rows[y][x] else Blank
    {
      CellPlaced(lx, m, program, l, x, y);
    }
  }

  lemma PlacedShape(lx: Lexer, m: OpMap, program: Program, l: Layout)
    requires Accepted(l) && |program| <= l.executionRows && Columns(program) <= l.width
    ensures var small, big := Cells(lx, Names(m), program), DecodeGrid(m, Placed(lx, m, program, l));
      && small.Rectangular() && big.Rectangular() && small.width <= big.width == l.width
      && |small.rows| <= |big.rows| == l.height
  {
    hide ParseOne, Meaning, DecodePixel, PlacedPixel;
  }

  lemma StartReady(c: Config, small: Grid<Cell>, regs: seq<Regs>, shared: seq<int>, clock: int)
    requires |regs| == c.threads && |shared| == MEMORY_SLOTS
    ensures var s := Start(c, regs, shared, clock);
      Shaped(c, s) && VmLaws.Alike(s, s) && VmLaws.Idle(small, s) && s.steps == 0
  {
  }

  /** A compiled program placed in a frame gives the A, B, OUT, shared memory and chained frame of
      the program itself, if no instruction compares mirrored pixels or jumps into the padding; it
      finishes exactly when the padding fits in the step budget as well. */
  lemma PlacementPreserves(lx: Lexer, m: OpMap, program: Program, l: Layout, c: Config,
                           regs: seq<Regs>, shared: seq<int>, clock: int)
    requires Accepted(l) && IsDict(m) && Clear(m) && |program| <= l.executionRows && Columns(program) <= l.width
    requires |regs| == c.threads && |shared| == MEMORY_SLOTS
    requires VmLaws.Paddable(Cells(lx, Names(m), program), l.width)
    ensures DecodeGrid(m, Placed(lx, m, program, l)).Rectangular()
    ensures
      var o := Execute(c, Cells(lx, Names(m), program), regs, shared, clock);
      var p := Execute(c, DecodeGrid(m, Placed(lx, m, program, l)), regs, shared, clock);
      && VmLaws.SameResults(o.m, p.m)
      && (p.Going? <==> o.Going? && o.m.steps + (l.width - Columns(program)) <= c.maxColSteps)
      && (o.Raised? ==> p.Raised? && p.error == o.error)
  {
    var small, big := Cells(lx, Names(m), program), DecodeGrid(m, Placed(lx, m, program, l));
    assert small.width == Columns(program) && big.width == l.width;
    PlacedIsPadded(lx, m, program, l);
    assert big.Rectangular();
    hide DecodeGrid, Placed, Cells, Run, VmLaws.Padded, VmLaws.Paddable, VmLaws.SameResults, Start;
    StartReady(c, small, regs, shared, clock);
    var s := Start(c, regs, shared, clock);
    VmLaws.PaddingPreserves(c, small, big, s, s, 0);
  }

  // ---------------------------------------------------------------- data regions are not code

  datatype Write = Write(region: Option<string>, offset: nat, data: Bytes)

  /** Why the frame refuses a write, if it does. */
  function Refusal(l: Layout, w: Write): (e: Option<FrameError>)
    requires Accepted(l)
  {
    var target := Find(l, w.region);
    if target.Err? then Some(target.error)
    else if w.offset + |w.data| > Capacity(target.value) then Some(OutOfRange)
    else None
  }

  function FirstRefusal(l: Layout, ws: seq<Write>): (e: Option<FrameError>)
    requires Accepted(l)
  {
    if ws == [] then None else
      var before := FirstRefusal(l, ws[..|ws| - 1]);
      if before.Some? then before else Refusal(l, ws[|ws| - 1])
  }

  lemma {:induction false} RefusedEarly(l: Layout, ws: seq<Write>, i: nat)
    requires Accepted(l) && i < |ws| && FirstRefusal(l, ws[..i]).None? && Refusal(l, ws[i]).Some?
    ensures FirstRefusal(l, ws) == Refusal(l, ws[i])
  {
    var n := |ws| - 1;
    if i < n {
      assert ws[..n][..i] == ws[..i];
      RefusedEarly(l, ws[..n], i);
    }
  }

  /** The image after a list of writes, each ignored if the frame refuses it. */
  function Written(image: Grid<Pixel>, l: Layout, ws: seq<Write>): (g: Grid<Pixel>)
    requires Accepted(l) && Fits(image, l)
    ensures Fits(g, l)
  {
    if ws == [] then image else
      var before := Written(image, l, ws[..|ws| - 1]);
      var w := ws[|ws| - 1];
      if Refusal(l, w).Some? then before else WriteSpan(before, Find(l, w.region).value, w.offset, w.data)
  }

  /** A payload that was accepted is read back from where it was put, until something else is written. */
  lemma PayloadReadBack(image: Grid<Pixel>, l: Layout, ws: seq<Write>, w: Write)
    requires Accepted(l) && Fits(image, l) && Refusal(l, w).None?
    ensures var r := Find(l, w.region).value;
      ReadSpan(Written(image, l, ws + [w]), r, w.offset, |w.data|) == w.data
  {
    var r, before := Find(l, w.region).value, Written(image, l, ws);
    assert (ws + [w])[..|ws|] == ws;
    assert Written(image, l, ws + [w]) == WriteSpan(before, r, w.offset, w.data);
    ReadAfterWrite(before, r, w.offset, w.data);
    SpanIsSlice(WriteSpan(before, r, w.offset, w.data), r, w.offset, |w.data|);
  }

  lemma {:induction false} ExecutableRowsKept(image: Grid<Pixel>, l: Layout, ws: seq<Write>, y: int)
    requires Accepted(l) && Fits(image, l) && 0 <= y < l.executionRows
    requires forall i :: 0 <= i < |ws| ==> ws[i].region != Some("execution")
    ensures Written(image, l, ws).rows[y] == image.rows[y]
  {
    if ws != [] {
      var init, w := ws[..|ws| - 1], ws[|ws| - 1];
      ExecutableRowsKept(image, l, init, y);
      var before, after := Written(image, l, init), Written(image, l, ws);
      forall x | 0 <= x < l.width ensures after.rows[y][x] == before.rows[y][x] {
      }
      assert after.rows[y] == before.rows[y];
    }
  }

  /** No sequence of writes to data regions changes the outcome of executing the frame on a machine
      with one thread per executable row. */
  lemma DataPlaneIsolated(c: Config, m: OpMap, image: Grid<Pixel>, l: Layout, ws: seq<Write>,
                          regs: seq<Regs>, shared: seq<int>, clock: int)
    requires Accepted(l) && Fits(image, l) && c.threads == l.executionRows
    requires forall i :: 0 <= i < |ws| ==> ws[i].region != Some("execution")
    requires |regs| == c.threads && |shared| == MEMORY_SLOTS
    ensures DecodeGrid(m, image).Rectangular() && DecodeGrid(m, Written(image, l, ws)).Rectangular()
    ensures Execute(c, DecodeGrid(m, Written(image, l, ws)), regs, shared, clock)
      == Execute(c, DecodeGrid(m, image), regs, shared, clock)
  {
    var p, q := DecodeGrid(m, Written(image, l, ws)), DecodeGrid(m, image);
    forall y | 0 <= y < c.threads ensures p.rows[y] == q.rows[y] {
      ExecutableRowsKept(image, l, ws, y);
    }
    VmLaws.RunReadsThreadRows(c, p, q, Start(c, regs, shared, clock), 0);
  }

  /** A compiled frame with payloads in its data regions runs as the program itself does. */
  lemma CompiledFrameRuns(lx: Lexer, m: OpMap, program: Program, l: Layout, payloads: seq<Write>, c: Config,
                          regs: seq<Regs>, shared: seq<int>, clock: int)
    requires Accepted(l) && IsDict(m) && Clear(m) && |program| <= l.executionRows && Columns(program) <= l.width
    requires |regs| == c.threads == l.executionRows && |shared| == MEMORY_SLOTS
    requires VmLaws.Paddable(Cells(lx, Names(m), program), l.width)
    requires forall i :: 0 <= i < |payloads| ==> payloads[i].region != Some("execution")
    ensures DecodeGrid(m, Written(Placed(lx, m, program, l), l, payloads)).Rectangular()
    ensures
      var o := Execute(c, Cells(lx, Names(m), program), regs, shared, clock);
      var p := Execute(c, DecodeGrid(m, Written(Placed(lx, m, program, l), l, payloads)), regs, shared, clock);
      && VmLaws.SameResults(o.m, p.m)
      && (p.Going? <==> o.Going? && o.m.steps + (l.width - Columns(program)) <= c.maxColSteps)
      && (o.Raised? ==> p.Raised? && p.error == o.error)
  {
    hide *;
    PlacementPreserves(lx, m, program, l, c, regs, shared, clock);
    DataPlaneIsolated(c, m, Placed(lx, m, program, l), l, payloads, regs, shared, clock);
  }
}
