/** Laws of whole runs: bounds, isolation of the rows below the threads, padding, and threads
    that do not communicate. */
module VmLaws {
  import opened Basics
  import opened Isa

  // ---------------------------------------------------------------- bounds

  predicate ByteLike(n: int) {
    0 <= n <= 255
  }

  predicate ByteRegs(t: Regs) {
    ByteLike(t.a) && ByteLike(t.b) && ByteLike(t.out)
  }

  ghost predicate ByteValued(m: Machine) {
    (forall i :: 0 <= i < |m.regs| ==> ByteRegs(m.regs[i])) && forall i :: 0 <= i < |m.shared| ==> ByteLike(m.shared[i])
  }

  /** Pixels only carry bytes. */
  ghost predicate ByteCells(cells: Grid<Cell>) {
    cells.Rectangular() &&
    forall y, x :: 0 <= y < |cells.rows| && 0 <= x < cells.width && cells.rows[y][x].Do? ==>
      ByteLike(cells.rows[y][x].b)
  }

  lemma ComputeKeepsBytes(op: Opcode, t: Regs, b: nat, mirrored: bool)
    requires ByteRegs(t) && ByteLike(b)
    ensures ByteRegs(Compute(op, t, b, mirrored))
  {
    if t.b > 0 {
      QuotientShrinks(t.a, t.b);
    }
  }

  lemma ThreadKeepsBytes(c: Config, cells: Grid<Cell>, m: Machine, x: nat, y: nat)
    requires ByteCells(cells) && Shaped(c, m) && x < cells.width && y < c.threads && ByteValued(m)
    ensures ByteValued(StepThread(c, cells, m, x, y).m)
  {
    hide Compute;
    if y < |cells.rows| {
      var cell := cells.rows[y][x];
      if cell.Do? {
        assert ByteRegs(m.regs[y].(t := x));
        ComputeKeepsBytes(cell.op, m.regs[y].(t := x), cell.b, cell == cells.rows[y][cells.width - 1 - x]);
      }
    }
  }

  lemma {:induction false} ColumnKeepsBytes(c: Config, cells: Grid<Cell>, m: Machine, x: nat, y: nat)
    requires ByteCells(cells) && Shaped(c, m) && x < cells.width && y <= c.threads && ByteValued(m)
    ensures ByteValued(RunThreads(c, cells, m, x, y).m)
    decreases c.threads - y
  {
    hide StepThread;
    if y < c.threads {
      ThreadKeepsBytes(c, cells, m, x, y);
      var o := StepThread(c, cells, m, x, y);
      if o.Going? {
        ColumnKeepsBytes(c, cells, o.m, x, y + 1);
      }
    }
  }

  /** From a byte-valued state, A, B, OUT and shared memory stay bytes, and the run, whether it
      finishes or raises, uses at most `maxColSteps` columns; it raises StepLimit only when it has
      used them all. */
  lemma {:induction false} RunStaysInBounds(c: Config, cells: Grid<Cell>, m: Machine, x: nat)
    requires ByteCells(cells) && Shaped(c, m) && ByteValued(m) && m.steps <= c.maxColSteps
    ensures var o := Run(c, cells, m, x);
      && ByteValued(o.m) && o.m.steps <= c.maxColSteps
      && (o.Raised? && o.error == StepLimit ==> o.m.steps == c.maxColSteps)
    decreases c.maxColSteps - m.steps
  {
    hide RunThreads;
    if x < cells.width && m.steps < c.maxColSteps {
      var n := Enter(m, x);
      ColumnKeepsBytes(c, cells, n, x, 0);
      StepsKept(c, cells, n, x, 0);
      NoStepLimitInside(c, cells, n, x, 0);
      var o := RunThreads(c, cells, n, x, 0);
      if o.Going? {
        RunStaysInBounds(c, cells, o.m, NextColumn(o.m, x));
      }
    }
  }

  lemma {:induction false} NoStepLimitInside(c: Config, cells: Grid<Cell>, m: Machine, x: nat, y: nat)
    requires cells.Rectangular() && Shaped(c, m) && x < cells.width && y <= c.threads
    ensures var o := RunThreads(c, cells, m, x, y); o.Raised? ==> o.error != StepLimit
    decreases c.threads - y
  {
    if y < c.threads {
      var o := StepThread(c, cells, m, x, y);
      if o.Going? {
        NoStepLimitInside(c, cells, o.m, x, y + 1);
      }
    }
  }

  // ---------------------------------------------------------------- rows below the threads

  /** The two frames show the threads the same rows. */
  ghost predicate SameToThreads(c: Config, p: Grid<Cell>, q: Grid<Cell>) {
    && p.Rectangular() && q.Rectangular() && p.width == q.width
    && forall y :: 0 <= y < c.threads ==>
      (y < |p.rows| <==> y < |q.rows|) && (y < |p.rows| ==> p.rows[y] == q.rows[y])
  }

  lemma {:induction false} ColumnReadsThreadRows(c: Config, p: Grid<Cell>, q: Grid<Cell>, m: Machine, x: nat, y: nat)
    requires SameToThreads(c, p, q) && Shaped(c, m) && x < p.width && y <= c.threads
    ensures RunThreads(c, p, m, x, y) == RunThreads(c, q, m, x, y)
    decreases c.threads - y
  {
    hide StepCell;
    if y < c.threads {
      var o := StepThread(c, p, m, x, y);
      assert o == StepThread(c, q, m, x, y);
      if o.Going? {
        ColumnReadsThreadRows(c, p, q, o.m, x, y + 1);
      }
    }
  }

  /** Nothing below the last thread's row can influence a run. */
  lemma {:induction false} RunReadsThreadRows(c: Config, p: Grid<Cell>, q: Grid<Cell>, m: Machine, x: nat)
    requires SameToThreads(c, p, q) && Shaped(c, m)
    ensures Run(c, p, m, x) == Run(c, q, m, x)
    decreases c.maxColSteps - m.steps
  {
    hide RunThreads;
    if x < p.width && m.steps < c.maxColSteps {
      var n := Enter(m, x);
      ColumnReadsThreadRows(c, p, q, n, x, 0);
      StepsKept(c, p, n, x, 0);
      var o := RunThreads(c, p, n, x, 0);
      if o.Going? {
        RunReadsThreadRows(c, p, q, o.m, NextColumn(o.m, x));
      }
    }
  }

  // ---------------------------------------------------------------- padding

  /** The program `small` placed in the top left corner of the larger, otherwise blank `big`. */
  ghost predicate Padded(small: Grid<Cell>, big: Grid<Cell>) {
    && small.Rectangular() && big.Rectangular() && small.width <= big.width && |small.rows| <= |big.rows|
    && forall y, x :: 0 <= y < |big.rows| && 0 <= x < big.width ==>
      big.rows[y][x] == if y < |small.rows| && x < small.width then small.rows[y][x] else Blank
  }

  /** No thread compares mirrored pixels, and none jumps to a column that only the padding has. */
  ghost predicate Paddable(small: Grid<Cell>, width: nat) {
    small.Rectangular() &&
    forall y, x :: 0 <= y < |small.rows| && 0 <= x < small.width && small.rows[y][x].Do? ==>
      var cell := small.rows[y][x];
      !cell.op.VerifyFreq? && (cell.op.Jmp? ==> !(small.width <= cell.g < width))
  }

  /** Equal but for the clock registers. */
  predicate SameRegs(s: Regs, t: Regs) {
    s.a == t.a && s.b == t.b && s.out == t.out
  }

  ghost predicate Alike(m: Machine, n: Machine) {
    && |m.regs| == |n.regs| && (forall i :: 0 <= i < |m.regs| ==> SameRegs(m.regs[i], n.regs[i]))
    && m.(regs := n.regs) == n
  }

  /** Threads beyond the program neither halt nor skip. */
  ghost predicate Idle(small: Grid<Cell>, m: Machine) {
    forall y :: |small.rows| <= y < |m.skip| == |m.halted| ==> !m.skip[y] && !m.halted[y]
  }

  ghost predicate AlikeOutcome(o: Outcome, p: Outcome) {
    && (o.Raised? <==> p.Raised?) && (o.Raised? ==> o.error == p.error)
    && Alike(o.m, p.m)
  }

  lemma ActAlike(c: Config, m: Machine, n: Machine, y: nat, s: Regs, t: Regs, w: nat, w': nat, op: Opcode, g: nat,
                 b: nat, mirrored: bool, mirrored': bool)
    requires Shaped(c, m) && Shaped(c, n) && Alike(m, n) && y < c.threads && SameRegs(s, t)
    requires !op.VerifyFreq? && w <= w' && (op.Jmp? ==> !(w <= g < w'))
    ensures AlikeOutcome(Act(c, m, y, s, w, op, g, b, mirrored), Act(c, n, y, t, w', op, g, b, mirrored'))
  {
  }

  lemma ThreadAlike(c: Config, small: Grid<Cell>, big: Grid<Cell>, m: Machine, n: Machine, x: nat, y: nat)
    requires Padded(small, big) && Paddable(small, big.width)
    requires Shaped(c, m) && Shaped(c, n) && Alike(m, n) && Idle(small, m) && x < small.width && y < c.threads
    ensures AlikeOutcome(StepThread(c, small, m, x, y), StepThread(c, big, n, x, y))
    ensures Idle(small, StepThread(c, small, m, x, y).m)
  {
    hide Act;
    if y < |small.rows| {
      var cell := small.rows[y][x];
      assert big.rows[y][x] == cell;
      IdleKept(c, small, m, x, y);
      if cell.Do? && !m.halted[y] && !m.skip[y] {
        ActAlike(c, m, n, y, m.regs[y].(t := x), n.regs[y].(t := x), small.width, big.width, cell.op, cell.g, cell.b,
                 cell == small.rows[y][small.width - 1 - x], cell == big.rows[y][big.width - 1 - x]);
      }
    }
  }

  lemma IdleKept(c: Config, small: Grid<Cell>, m: Machine, x: nat, y: nat)
    requires small.Rectangular() && Shaped(c, m) && Idle(small, m) && x < small.width && y < c.threads
    ensures Idle(small, StepThread(c, small, m, x, y).m)
  {
    hide Compute;
  }

  lemma {:induction false} ColumnAlike(c: Config, small: Grid<Cell>, big: Grid<Cell>, m: Machine, n: Machine, x: nat,
                                       y: nat)
    requires Padded(small, big) && Paddable(small, big.width)
    requires Shaped(c, m) && Shaped(c, n) && Alike(m, n) && Idle(small, m) && x < small.width && y <= c.threads
    ensures AlikeOutcome(RunThreads(c, small, m, x, y), RunThreads(c, big, n, x, y))
    ensures Idle(small, RunThreads(c, small, m, x, y).m)
    decreases c.threads - y
  {
    hide StepThread;
    if y < c.threads {
      ThreadAlike(c, small, big, m, n, x, y);
      var o, p := StepThread(c, small, m, x, y), StepThread(c, big, n, x, y);
      if o.Going? {
        ColumnAlike(c, small, big, o.m, p.m, x, y + 1);
      }
    }
  }

  /** What padding must not touch: everything except the clocks and the pending skips. */
  ghost predicate SameResults(m: Machine, n: Machine) {
    && |m.regs| == |n.regs| && (forall i :: 0 <= i < |m.regs| ==> SameRegs(m.regs[i], n.regs[i]))
    && m.shared == n.shared && m.next == n.next && m.halted == n.halted
  }

  lemma {:induction false} BlankColumn(c: Config, cells: Grid<Cell>, m: Machine, x: nat, y: nat)
    requires cells.Rectangular() && Shaped(c, m) && x < cells.width && y <= c.threads
    requires forall i :: 0 <= i < |cells.rows| ==> cells.rows[i][x] == Blank
    ensures var o := RunThreads(c, cells, m, x, y);
      o.Going? && SameResults(m, o.m) && o.m.jump == m.jump && o.m.steps == m.steps
    decreases c.threads - y
  {
    if y < c.threads {
      BlankColumn(c, cells, StepThread(c, cells, m, x, y).m, x, y + 1);
    }
  }

  /** Running out through blank columns changes no result and costs one step a column. */
  lemma {:induction false} BlankTail(c: Config, cells: Grid<Cell>, m: Machine, x: nat)
    requires cells.Rectangular() && Shaped(c, m) && x <= cells.width && m.steps <= c.maxColSteps
    requires forall i, j :: 0 <= i < |cells.rows| && x <= j < cells.width ==> cells.rows[i][j] == Blank
    ensures var o := Run(c, cells, m, x);
      && SameResults(m, o.m)
      && (o.Going? <==> m.steps + (cells.width - x) <= c.maxColSteps)
      && (o.Raised? ==> o.error == StepLimit)
    decreases cells.width - x
  {
    hide RunThreads;
    if x < cells.width && m.steps < c.maxColSteps {
      var n := Enter(m, x);
      BlankColumn(c, cells, n, x, 0);
      BlankTail(c, cells, RunThreads(c, cells, n, x, 0).m, x + 1);
    }
  }

  lemma {:induction false} JumpsStayInside(c: Config, cells: Grid<Cell>, m: Machine, x: nat, y: nat)
    requires cells.Rectangular() && Shaped(c, m) && x < cells.width && y <= c.threads
    requires m.jump.Some? ==> m.jump.value < cells.width
    ensures var n := RunThreads(c, cells, m, x, y).m; n.jump.Some? ==> n.jump.value < cells.width
    decreases c.threads - y
  {
    if y < c.threads {
      var o := StepThread(c, cells, m, x, y);
      if o.Going? {
        JumpsStayInside(c, cells, o.m, x, y + 1);
      }
    }
  }

  /** Placing a program in a wider and taller blank frame: an instruction that raises still raises
      the same error; otherwise every A, B and OUT, the shared memory, the halts and the chained
      frame come out the same, and the wide run finishes exactly when the narrow run finishes with
      the extra columns still inside the step budget. */
  lemma {:induction false} PaddingPreserves(c: Config, small: Grid<Cell>, big: Grid<Cell>, m: Machine, n: Machine,
                                            x: nat)
    requires Padded(small, big) && Paddable(small, big.width)
    requires Shaped(c, m) && Shaped(c, n) && Alike(m, n) && Idle(small, m) && x <= small.width
    requires m.steps <= c.maxColSteps
    ensures var o, p := Run(c, small, m, x), Run(c, big, n, x);
      && SameResults(o.m, p.m)
      && (p.Going? <==> o.Going? && o.m.steps + (big.width - small.width) <= c.maxColSteps)
      && (o.Raised? ==> p.Raised? && p.error == o.error)
      && (o.Going? && p.Raised? ==> p.error == StepLimit)
    decreases c.maxColSteps - m.steps
  {
    hide RunThreads;
    if x == small.width {
      BlankTail(c, big, n, x);
    } else if m.steps < c.maxColSteps {
      var m1, n1 := Enter(m, x), Enter(n, x);
      ColumnAlike(c, small, big, m1, n1, x, 0);
      JumpsStayInside(c, small, m1, x, 0);
      StepsKept(c, small, m1, x, 0);
      var o, p := RunThreads(c, small, m1, x, 0), RunThreads(c, big, n1, x, 0);
      if o.Going? {
        PaddingPreserves(c, small, big, o.m, p.m, NextColumn(o.m, x));
      }
    }
  }
}
