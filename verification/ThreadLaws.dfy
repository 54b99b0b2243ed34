/** Threads that neither jump nor store do not see each other: running them together or each
    alone is the same. */
module ThreadLaws {
  import opened Basics
  import opened Isa
  import VmLaws

  /** No executable row holds JMP or STORE_MEM. */
  ghost predicate Quiet(c: Config, cells: Grid<Cell>) {
    cells.Rectangular() &&
    forall y, x :: 0 <= y < |cells.rows| && y < c.threads && 0 <= x < cells.width && cells.rows[y][x].Do? ==>
      !cells.rows[y][x].op.Jmp? && !cells.rows[y][x].op.StoreMem?
  }

  function Alone(cells: Grid<Cell>, y: nat): (g: Grid<Cell>)
    requires cells.Rectangular() && y < |cells.rows|
    ensures g.Rectangular()
  {
    Grid(cells.width, [cells.rows[y]])
  }

  function OneThread(c: Config): (d: Config) {
    c.(threads := 1)
  }

  /** `n` is thread `y` of `m` on its own. */
  ghost predicate Sees(m: Machine, y: nat, n: Machine) {
    && y < |m.regs| == |m.halted| == |m.skip| && n.regs == [m.regs[y]] && n.halted == [m.halted[y]]
    && n.skip == [m.skip[y]]
    && n.shared == m.shared && n.steps == m.steps && n.jump == m.jump == None
  }

  /** Thread `y` takes the same step in company as alone. */
  lemma OwnStep(c: Config, cells: Grid<Cell>, m: Machine, n: Machine, x: nat, y: nat)
    requires Quiet(c, cells) && Shaped(c, m) && Shaped(OneThread(c), n) && Sees(m, y, n)
    requires x < cells.width && y < |cells.rows| && y < c.threads
    ensures var o, p := StepThread(c, cells, m, x, y), StepThread(OneThread(c), Alone(cells, y), n, x, 0);
      && (o.Raised? <==> p.Raised?) && (o.Raised? ==> o.error == p.error)
      && Sees(o.m, y, p.m)
  {
    hide StepCell;
    assert Alone(cells, y).rows[0][x] == cells.rows[y][x];
    var cell := cells.rows[y][x];
    OwnCell(c, m, n, x, y, cells.width, cell, cell == cells.rows[y][cells.width - 1 - x]);
  }

  lemma OwnCell(c: Config, m: Machine, n: Machine, x: nat, y: nat, width: nat, cell: Cell, mirrored: bool)
    requires Shaped(c, m) && Shaped(OneThread(c), n) && Sees(m, y, n) && y < c.threads
    requires cell.Do? ==> !cell.op.Jmp? && !cell.op.StoreMem?
    ensures var o, p := StepCell(c, m, x, y, width, cell, mirrored),
      StepCell(OneThread(c), n, x, 0, width, cell, mirrored);
      && (o.Raised? <==> p.Raised?) && (o.Raised? ==> o.error == p.error)
      && Sees(o.m, y, p.m)
  {
    hide Compute, Sees, Act;
    var t := m.regs[y].(t := x);
    SameRegisters(m, n, y);
    SeesPut(m, n, y, t);
    if cell.Do? {
      OwnAct(c, m, n, y, t, width, cell.op, cell.g, cell.b, mirrored);
    }
  }

  lemma SameRegisters(m: Machine, n: Machine, y: nat)
    requires Sees(m, y, n)
    ensures y < |m.regs| == |m.halted| == |m.skip| && |n.regs| == |n.halted| == |n.skip| == 1
    ensures n.regs[0] == m.regs[y] && n.shared == m.shared
  {
  }

  lemma SeesPut(m: Machine, n: Machine, y: nat, t: Regs)
    requires Sees(m, y, n)
    ensures Sees(m.(regs := m.regs[y := t]), y, n.(regs := n.regs[0 := t]))
  {
  }

  lemma SeesFlags(m: Machine, n: Machine, y: nat, b: bool)
    requires Sees(m, y, n)
    ensures Sees(m.(halted := m.halted[y := b]), y, n.(halted := n.halted[0 := b]))
    ensures Sees(m.(skip := m.skip[y := b]), y, n.(skip := n.skip[0 := b]))
  {
  }

  lemma SeesNext(m: Machine, n: Machine, y: nat, next: Option<string>)
    requires Sees(m, y, n)
    ensures Sees(m.(next := next), y, n.(next := next))
  {
  }

  lemma OwnAct(c: Config, m: Machine, n: Machine, y: nat, t: Regs, width: nat, op: Opcode, g: nat, b: nat,
               mirrored: bool)
    requires Shaped(c, m) && Shaped(OneThread(c), n) && Sees(m, y, n) && y < c.threads && !op.Jmp? && !op.StoreMem?
    ensures var o, p := Act(c, m, y, t, width, op, g, b, mirrored),
      Act(OneThread(c), n, 0, t, width, op, g, b, mirrored);
      && (o.Raised? <==> p.Raised?) && (o.Raised? ==> o.error == p.error)
      && Sees(o.m, y, p.m)
  {
    hide Compute, Sees;
    SameRegisters(m, n, y);
    SeesPut(m, n, y, t);
    var mp, np := Put(m, y, t), Put(n, 0, t);
    match op
    case LoadMem =>
      if g < MEMORY_SLOTS {
        SeesPut(m, n, y, t.(a := m.shared[g]));
      }
    case Halt => SeesFlags(mp, np, y, true);
    case IfAEq => SeesFlags(mp, np, y, true);
    case SaveState =>
      if g in c.registry {
        SeesNext(mp, np, y, Some(c.registry[g]));
      }
    case _ => SeesPut(m, n, y, Compute(op, t, b, mirrored));
  }

  /** Nobody else's step touches thread `y`. */
  lemma OtherStep(c: Config, cells: Grid<Cell>, m: Machine, n: Machine, x: nat, y: nat, z: nat)
    requires Quiet(c, cells) && Shaped(c, m) && Sees(m, y, n) && z != y && z < c.threads && x < cells.width
    ensures Sees(StepThread(c, cells, m, x, z).m, y, n)
  {
    hide Compute;
  }

  lemma {:induction false} OthersColumn(c: Config, cells: Grid<Cell>, m: Machine, n: Machine, x: nat, y: nat, i: nat)
    requires Quiet(c, cells) && Shaped(c, m) && Sees(m, y, n) && y < i <= c.threads && x < cells.width
    ensures Sees(RunThreads(c, cells, m, x, i).m, y, n)
    decreases c.threads - i
  {
    hide StepThread;
    if i < c.threads {
      OtherStep(c, cells, m, n, x, y, i);
      var o := StepThread(c, cells, m, x, i);
      if o.Going? {
        OthersColumn(c, cells, o.m, n, x, y, i + 1);
      }
    }
  }

  lemma SoloColumn(c: Config, cells: Grid<Cell>, n: Machine, x: nat)
    requires cells.Rectangular() && Shaped(OneThread(c), n) && x < cells.width
    ensures RunThreads(OneThread(c), cells, n, x, 0) == StepThread(OneThread(c), cells, n, x, 0)
  {
    hide StepThread;
    var o := StepThread(OneThread(c), cells, n, x, 0);
    assert o.Going? ==> RunThreads(OneThread(c), cells, o.m, x, 1) == o;
  }

  /** If a column goes through for everybody, thread `y` ends it as it would alone. */
  lemma {:induction false} ColumnGoes(c: Config, cells: Grid<Cell>, m: Machine, n: Machine, x: nat, y: nat, i: nat)
    requires Quiet(c, cells) && Shaped(c, m) && Shaped(OneThread(c), n) && Sees(m, y, n)
    requires i <= y < c.threads && y < |cells.rows| && x < cells.width
    ensures var o, p := RunThreads(c, cells, m, x, i), RunThreads(OneThread(c), Alone(cells, y), n, x, 0);
      o.Going? ==> p.Going? && Sees(o.m, y, p.m)
    decreases y - i
  {
    hide StepThread;
    SoloColumn(c, Alone(cells, y), n, x);
    var o := StepThread(c, cells, m, x, i);
    if i == y {
      OwnStep(c, cells, m, n, x, y);
      var p := StepThread(OneThread(c), Alone(cells, y), n, x, 0);
      if o.Going? {
        OthersColumn(c, cells, o.m, p.m, x, y, i + 1);
      }
    } else if o.Going? {
      OtherStep(c, cells, m, n, x, y, i);
      ColumnGoes(c, cells, o.m, n, x, y, i + 1);
    }
  }

  /** If a column raises, some thread raises the same error alone. */
  lemma {:induction false} ColumnRaises(c: Config, cells: Grid<Cell>, m: Machine, ns: seq<Machine>, x: nat, i: nat)
    returns (z: nat)
    requires Quiet(c, cells) && Shaped(c, m) && x < cells.width && i <= c.threads
    requires RunThreads(c, cells, m, x, i).Raised?
    requires |ns| == c.threads && forall y :: i <= y < c.threads ==> Shaped(OneThread(c), ns[y]) && Sees(m, y, ns[y])
    ensures i <= z < c.threads && z < |cells.rows|
    ensures var p := RunThreads(OneThread(c), Alone(cells, z), ns[z], x, 0);
      p.Raised? && p.error == RunThreads(c, cells, m, x, i).error
    decreases c.threads - i
  {
    hide StepCell;
    var o := StepThread(c, cells, m, x, i);
    if o.Raised? {
      z := i;
      OwnStep(c, cells, m, ns[i], x, i);
      SoloColumn(c, Alone(cells, i), ns[i], x);
    } else {
      forall y | i < y < c.threads ensures Sees(o.m, y, ns[y]) {
        OtherStep(c, cells, m, ns[y], x, y, i);
      }
      z := ColumnRaises(c, cells, o.m, ns, x, i + 1);
    }
  }

  predicate InstructionError(o: Outcome) {
    o.Raised? && o.error != StepLimit
  }

  lemma {:induction false} RunGoes(c: Config, cells: Grid<Cell>, m: Machine, n: Machine, x: nat, y: nat)
    requires Quiet(c, cells) && Shaped(c, m) && Shaped(OneThread(c), n) && Sees(m, y, n)
    requires y < c.threads && y < |cells.rows|
    ensures var o, p := Run(c, cells, m, x), Run(OneThread(c), Alone(cells, y), n, x);
      !InstructionError(o) ==> (o.Raised? <==> p.Raised?) && !InstructionError(p) && Sees(o.m, y, p.m)
    decreases c.maxColSteps - m.steps
  {
    hide RunThreads;
    if x < cells.width && m.steps < c.maxColSteps {
      var m1, n1 := Enter(m, x), Enter(n, x);
      ColumnGoes(c, cells, m1, n1, x, y, 0);
      StepsKept(c, cells, m1, x, 0);
      VmLaws.NoStepLimitInside(c, cells, m1, x, 0);
      var o, p := RunThreads(c, cells, m1, x, 0), RunThreads(OneThread(c), Alone(cells, y), n1, x, 0);
      if o.Going? {
        RunGoes(c, cells, o.m, p.m, x + 1, y);
      }
    }
  }

  /** What thread `y` does alone at one column, for every thread that has a row. */
  ghost function SoloStep(c: Config, cells: Grid<Cell>, ns: seq<Machine>, x: nat, y: nat): (n: Machine)
    requires cells.Rectangular() && x < cells.width && y < |ns| && Shaped(OneThread(c), ns[y])
    ensures Shaped(OneThread(c), n)
  {
    if y < |cells.rows| then RunThreads(OneThread(c), Alone(cells, y), Enter(ns[y], x), x, 0).m else Enter(ns[y], x)
  }

  lemma {:induction false} IdleRow(c: Config, cells: Grid<Cell>, m: Machine, n: Machine, x: nat, y: nat, i: nat)
    requires Quiet(c, cells) && Shaped(c, m) && Sees(m, y, n) && |cells.rows| <= y < c.threads && i <= c.threads
    requires x < cells.width
    ensures Sees(RunThreads(c, cells, m, x, i).m, y, n)
    decreases c.threads - i
  {
    hide StepCell;
    if i < c.threads {
      if i != y {
        OtherStep(c, cells, m, n, x, y, i);
      }
      var o := StepThread(c, cells, m, x, i);
      if o.Going? {
        IdleRow(c, cells, o.m, n, x, y, i + 1);
      }
    }
  }

  lemma {:induction false} RunRaises(c: Config, cells: Grid<Cell>, m: Machine, ns: seq<Machine>, x: nat)
    returns (z: nat)
    requires Quiet(c, cells) && Shaped(c, m) && InstructionError(Run(c, cells, m, x))
    requires |ns| == c.threads && forall y :: 0 <= y < c.threads ==> Shaped(OneThread(c), ns[y]) && Sees(m, y, ns[y])
    ensures z < c.threads && z < |cells.rows|
    ensures var p := Run(OneThread(c), Alone(cells, z), ns[z], x);
      p.Raised? && p.error == Run(c, cells, m, x).error
    decreases c.maxColSteps - m.steps
  {
    hide RunThreads;
    var m1 := Enter(m, x);
    var entered := seq(c.threads, y requires 0 <= y < c.threads => Enter(ns[y], x));
    StepsKept(c, cells, m1, x, 0);
    var o := RunThreads(c, cells, m1, x, 0);
    if o.Raised? {
      z := ColumnRaises(c, cells, m1, entered, x, 0);
    } else {
      var next := seq(c.threads, y requires 0 <= y < c.threads => SoloStep(c, cells, ns, x, y));
      forall y | 0 <= y < c.threads ensures Sees(o.m, y, next[y]) {
        if y < |cells.rows| {
          ColumnGoes(c, cells, m1, entered[y], x, y, 0);
        } else {
          IdleRow(c, cells, m1, entered[y], x, y, 0);
        }
      }
      assert c.threads > 0 ==> Sees(o.m, 0, next[0]);
      NoJump(c, cells, m1, x, 0);
      z := RunRaises(c, cells, o.m, next, x + 1);
      ColumnGoes(c, cells, m1, entered[z], x, z, 0);
    }
  }

  lemma {:induction false} NoJump(c: Config, cells: Grid<Cell>, m: Machine, x: nat, y: nat)
    requires Quiet(c, cells) && Shaped(c, m) && x < cells.width && y <= c.threads && m.jump == None
    ensures RunThreads(c, cells, m, x, y).m.jump == None
    decreases c.threads - y
  {
    if y < c.threads {
      var o := StepThread(c, cells, m, x, y);
      if o.Going? {
        NoJump(c, cells, o.m, x, y + 1);
      }
    }
  }

  /** Row `y` executed by a one-thread machine that starts with thread `y`'s registers. */
  ghost function Solo(c: Config, cells: Grid<Cell>, regs: seq<Regs>, shared: seq<int>, clock: int, y: nat): (o: Outcome)
    requires cells.Rectangular() && y < |cells.rows| && y < |regs| && |shared| == MEMORY_SLOTS
  {
    Execute(OneThread(c), Alone(cells, y), [regs[y]], shared, clock)
  }

  /** Running all rows together raises an instruction error exactly when some row raises one alone;
      when it does not, every thread ends with the A, B, OUT and T it gets alone, and the step
      limit is met together exactly when it is met alone. */
  lemma ThreadsIndependent(c: Config, cells: Grid<Cell>, regs: seq<Regs>, shared: seq<int>, clock: int)
    requires Quiet(c, cells) && |regs| == c.threads && |shared| == MEMORY_SLOTS
    ensures var o := Execute(c, cells, regs, shared, clock);
      && (InstructionError(o) <==>
          exists y :: 0 <= y < c.threads && y < |cells.rows|
            && InstructionError(Solo(c, cells, regs, shared, clock, y)))
      && (!InstructionError(o) ==>
            forall y :: 0 <= y < c.threads && y < |cells.rows| ==>
              var p := Solo(c, cells, regs, shared, clock, y);
              p.m.regs == [o.m.regs[y]] && (p.Raised? <==> o.Raised?))
  {
    var m := Start(c, regs, shared, clock);
    var o := Run(c, cells, m, 0);
    var ns := seq(c.threads, y requires 0 <= y < c.threads => Start(OneThread(c), [regs[y]], shared, clock));
    forall y | 0 <= y < c.threads ensures Sees(m, y, ns[y]) {
    }
    if InstructionError(o) {
      var z := RunRaises(c, cells, m, ns, 0);
      assert InstructionError(Solo(c, cells, regs, shared, clock, z));
    } else {
      forall y | 0 <= y < c.threads && y < |cells.rows|
        ensures var p := Solo(c, cells, regs, shared, clock, y);
          p.m.regs == [o.m.regs[y]] && (p.Raised? <==> o.Raised?) && !InstructionError(p)
      {
        RunGoes(c, cells, m, ns[y], 0, y);
      }
    }
  }
}
