/** The sixteen-opcode pixel instruction set: opcode maps, decoded cells and the meaning of one
    column-major run (`zdx_parallel_vm.py`). */
module Isa {
  import opened Basics

  /** The names an opcode map may hold; `Foreign` is any name the machine does not implement. */
  datatype Opcode =
    | SetReg | SetB | Not | AddThread | Sub | Mul | Div | CopyOut
    | IfAEq | Cmp | LoadMem | StoreMem | VerifyFreq | SaveState | Jmp | Halt
    | Foreign(name: string)

  datatype Pixel = Pixel(r: Byte, g: Byte, b: Byte)

  const NOP_PIXEL := Pixel(0, 0, 0)

  /** A raster of `width` columns; each row has exactly `width` cells. */
  datatype Grid<T> = Grid(width: nat, rows: seq<seq<T>>) {
    ghost predicate Rectangular() {
      forall y :: 0 <= y < |rows| ==> |rows[y]| == width
    }
  }

  // ---------------------------------------------------------------- opcode maps

  /** An opcode map in insertion order: each name with the R byte it is given. */
  type OpMap = seq<(Opcode, Byte)>

  /** Names are dictionary keys, so they do not repeat. */
  predicate IsDict(m: OpMap) {
    forall i, j :: 0 <= i < j < |m| ==> m[i].0 != m[j].0
  }

  /** The R byte of a name. */
  function Code(m: OpMap, op: Opcode): (r: Option<Byte>) {
    if m == [] then None
    else if m[0].0 == op then Some(m[0].1)
    else Code(m[1..], op)
  }

  /** The reverse dictionary: a later entry with the same R byte replaces an earlier one. */
  function Reverse(m: OpMap, r: Byte): (op: Option<Opcode>) {
    if m == [] then None
    else if m[|m| - 1].1 == r then Some(m[|m| - 1].0)
    else Reverse(m[..|m| - 1], r)
  }

  /** A pixel as the machine understands it under one map. */
  datatype Cell =
    | Blank
    | Unknown
    | Do(op: Opcode, g: nat, b: nat)

  function DecodePixel(m: OpMap, p: Pixel): (c: Cell) {
    var op := Reverse(m, p.r);
    if op.Some? && !op.value.Foreign? then Do(op.value, p.g as nat, p.b as nat)
    else if p.r != 0 then Unknown
    else Blank
  }

  function DecodeRow(m: OpMap, row: seq<Pixel>): (cells: seq<Cell>) {
    seq(|row|, x requires 0 <= x < |row| => DecodePixel(m, row[x]))
  }

  function DecodeGrid(m: OpMap, g: Grid<Pixel>): (cells: Grid<Cell>) {
    Grid(g.width, seq(|g.rows|, y requires 0 <= y < |g.rows| => DecodeRow(m, g.rows[y])))
  }

  // ---------------------------------------------------------------- machine state

  datatype Regs = Regs(a: int, b: int, out: int, t: int)

  const MEMORY_SLOTS := 8

  datatype Config = Config(threads: nat, maxColSteps: nat, strict: bool, registry: map<int, string>)

  datatype Machine = Machine(
    regs: seq<Regs>, shared: seq<int>, halted: seq<bool>, skip: seq<bool>,
    jump: Option<nat>, next: Option<string>, clock: int, steps: nat)

  ghost predicate Shaped(c: Config, m: Machine) {
    |m.regs| == |m.halted| == |m.skip| == c.threads && |m.shared| == MEMORY_SLOTS
  }

  datatype VmError = UnknownOpcode | BadAddress | StepLimit

  /** Either the machine goes on, or it raised and stays as the exception left it. */
  datatype Outcome = Going(m: Machine) | Raised(m: Machine, error: VmError)

  // ---------------------------------------------------------------- one instruction

  /** Python's `//`, which floors; 0 for a zero divisor, as the DIV opcode has it. */
  function FloorDiv(a: int, b: int): (q: int) {
    if b == 0 then 0 else if b > 0 then a / b else (-a) / (-b)
  }

  function Put(m: Machine, y: nat, t: Regs): (n: Machine)
    requires y < |m.regs|
  {
    m.(regs := m.regs[y := t])
  }

  /** Opcodes that only rewrite the thread's own registers. */
  predicate RegisterOnly(op: Opcode) {
    !(op.Halt? || op.SaveState? || op.IfAEq? || op.LoadMem? || op.StoreMem? || op.Jmp? || op.Foreign?)
  }

  function Compute(op: Opcode, t: Regs, b: nat, mirrored: bool): (n: Regs) {
    match op
    case VerifyFreq => t.(a := if mirrored then 1 else 0)
    case SetReg => t.(a := b)
    case SetB => t.(b := b)
    case AddThread => t.(out := (t.a + t.b) % 256)
    case Not => t.(a := (-t.a - 1) % 256)
    case Sub => t.(a := (t.a - t.b) % 256)
    case Mul => t.(a := (t.a * t.b) % 256)
    case Div => t.(a := FloorDiv(t.a, t.b))
    case Cmp => t.(out := if t.a == t.b then 1 else 0)
    case CopyOut => t.(a := t.out)
    case _ => t
  }

  /** Thread `y`, whose registers are `t`, executes an implemented opcode in a frame `width` wide;
      `mirrored` says whether its pixel equals the one mirrored in its row. */
  function Act(c: Config, m: Machine, y: nat, t: Regs, width: nat, op: Opcode, g: nat, b: nat, mirrored: bool)
    : (o: Outcome)
    requires Shaped(c, m) && y < c.threads
    ensures Shaped(c, o.m)
  {
    match op
    case Halt => Going(Put(m, y, t).(halted := m.halted[y := true]))
    case SaveState => Going(if g in c.registry then Put(m, y, t).(next := Some(c.registry[g])) else Put(m, y, t))
    case IfAEq => Going(if t.a != b then Put(m, y, t).(skip := m.skip[y := true]) else Put(m, y, t))
    case LoadMem =>
      if g < MEMORY_SLOTS then Going(Put(m, y, t.(a := m.shared[g])))
      else if c.strict then Raised(Put(m, y, t), BadAddress) else Going(Put(m, y, t))
    case StoreMem =>
      if g < MEMORY_SLOTS then Going(Put(m, y, t).(shared := m.shared[g := t.a]))
      else if c.strict then Raised(Put(m, y, t), BadAddress) else Going(Put(m, y, t))
    case Jmp => Going(if m.jump.None? && g < width then Put(m, y, t).(jump := Some(g)) else Put(m, y, t))
    case _ => Going(Put(m, y, Compute(op, t, b, mirrored)))
  }

  function StepCell(c: Config, m: Machine, x: nat, y: nat, width: nat, cell: Cell, mirrored: bool): (o: Outcome)
    requires Shaped(c, m) && y < c.threads
    ensures Shaped(c, o.m)
  {
    var t := m.regs[y].(t := x);
    match cell
    case Blank => Going(Put(m, y, t))
    case Unknown => if c.strict then Raised(Put(m, y, t), UnknownOpcode) else Going(Put(m, y, t))
    case Do(op, g, b) => Act(c, m, y, t, width, op, g, b, mirrored)
  }

  // ---------------------------------------------------------------- one column, one run

  function StepThread(c: Config, cells: Grid<Cell>, m: Machine, x: nat, y: nat): (o: Outcome)
    requires cells.Rectangular() && Shaped(c, m) && x < cells.width && y < c.threads
    ensures Shaped(c, o.m)
  {
    if y >= |cells.rows| || m.halted[y] then Going(m)
    else if m.skip[y] then Going(m.(skip := m.skip[y := false]))
    else StepCell(c, m, x, y, cells.width, cells.rows[y][x], cells.rows[y][x] == cells.rows[y][cells.width - 1 - x])
  }

  /** Threads `y`, `y + 1`, … take their turns at column `x`. */
  function RunThreads(c: Config, cells: Grid<Cell>, m: Machine, x: nat, y: nat): (o: Outcome)
    requires cells.Rectangular() && Shaped(c, m) && x < cells.width && y <= c.threads
    ensures Shaped(c, o.m)
    decreases c.threads - y
  {
    if y == c.threads then Going(m) else
      var o := StepThread(c, cells, m, x, y);
      if o.Raised? then o else RunThreads(c, cells, o.m, x, y + 1)
  }

  function Enter(m: Machine, x: nat): (n: Machine) {
    m.(steps := m.steps + 1, clock := x, jump := None)
  }

  function NextColumn(m: Machine, x: nat): (n: nat) {
    if m.jump.Some? then m.jump.value else x + 1
  }

  lemma {:induction false} StepsKept(c: Config, cells: Grid<Cell>, m: Machine, x: nat, y: nat)
    requires cells.Rectangular() && Shaped(c, m) && x < cells.width && y <= c.threads
    ensures RunThreads(c, cells, m, x, y).m.steps == m.steps
    ensures RunThreads(c, cells, m, x, y).m.clock == m.clock
    decreases c.threads - y
  {
    if y < c.threads {
      var o := StepThread(c, cells, m, x, y);
      if o.Going? {
        StepsKept(c, cells, o.m, x, y + 1);
      }
    }
  }

  /** Run from column `x` until the pointer leaves the frame or the step budget is spent. */
  function Run(c: Config, cells: Grid<Cell>, m: Machine, x: nat): (o: Outcome)
    requires cells.Rectangular() && Shaped(c, m)
    ensures Shaped(c, o.m)
    decreases c.maxColSteps - m.steps
  {
    if x >= cells.width then Going(m)
    else if m.steps >= c.maxColSteps then Raised(m, StepLimit)
    else
      var o := RunThreads(c, cells, Enter(m, x), x, 0);
      if o.Raised? then o else
        StepsKept(c, cells, Enter(m, x), x, 0);
        Run(c, cells, o.m, NextColumn(o.m, x))
  }

  /** The state `_execute_array` starts from: nobody halted, nobody skipping, no frame chained. */
  function Start(c: Config, regs: seq<Regs>, shared: seq<int>, clock: int): (m: Machine) {
    Machine(regs, shared, seq(c.threads, i => false), seq(c.threads, i => false), None, None, clock, 0)
  }

  function Execute(c: Config, cells: Grid<Cell>, regs: seq<Regs>, shared: seq<int>, clock: int): (o: Outcome)
    requires cells.Rectangular() && |regs| == c.threads && |shared| == MEMORY_SLOTS
  {
    Run(c, cells, Start(c, regs, shared, clock), 0)
  }
}
