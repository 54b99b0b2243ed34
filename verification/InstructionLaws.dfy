/** What each of the sixteen opcodes does, said as a relation between the machine before and after,
    and what a column of them does together. */
module InstructionLaws {
  import opened Basics
  import opened Isa
  import VmLaws

  // ---------------------------------------------------------------- arithmetic

  /** Equal modulo 256. */
  predicate Congruent(a: int, b: int) {
    (a - b) % 256 == 0
  }

  /** `n` is the byte congruent to `v`. */
  predicate ByteOf(n: int, v: int) {
    VmLaws.ByteLike(n) && Congruent(n, v)
  }

  predicate AddsIntoOut(t: Regs, n: Regs) {
    n.a == t.a && n.b == t.b && ByteOf(n.out, t.a + t.b)
  }

  /** Only A changes. */
  predicate OnlyA(t: Regs, n: Regs) {
    n.b == t.b && n.out == t.out
  }

  predicate Multiplies(t: Regs, n: Regs) {
    OnlyA(t, n) && ByteOf(n.a, t.a * t.b)
  }

  /** Adding B to the difference gives A back. */
  predicate Subtracts(t: Regs, n: Regs) {
    OnlyA(t, n) && VmLaws.ByteLike(n.a) && Congruent(n.a + t.b, t.a)
  }

  /** A and its complement have every bit once. */
  predicate Complements(t: Regs, n: Regs) {
    OnlyA(t, n) && VmLaws.ByteLike(n.a) && Congruent(n.a + t.a, 255)
  }

  /** The quotient is the last multiple that does not pass the dividend, and zero for a zero divisor. */
  predicate Divides(t: Regs, n: Regs) {
    && OnlyA(t, n)
    && (t.b == 0 ==> n.a == 0)
    && (t.b > 0 ==> n.a * t.b <= t.a < n.a * t.b + t.b)
    && (t.b < 0 ==> n.a * t.b >= t.a > n.a * t.b + t.b)
  }

  predicate Compares(t: Regs, n: Regs) {
    n.a == t.a && n.b == t.b && (n.out == 1 <==> t.a == t.b) && (n.out == 0 <==> t.a != t.b)
  }

  lemma CongruentByte(v: int)
    ensures ByteOf(v % 256, v)
  {
  }

  lemma Quotient(a: int, b: int)
    requires b > 0
    ensures a / b * b <= a < a / b * b + b
  {
    assert a == a / b * b + a % b;
  }

  lemma FloorBelow(a: int, b: int)
    requires b < 0
    ensures FloorDiv(a, b) * b >= a > FloorDiv(a, b) * b + b
  {
    var q, d := FloorDiv(a, b), -b;
    Quotient(-a, d);
    assert q * d == -(q * b);
  }

  // ---------------------------------------------------------------- one instruction

  /** What the opcode computes from the thread's own registers and the B channel of its pixel. */
  ghost predicate Computes(op: Opcode, t: Regs, n: Regs, b: nat, mirrored: bool) {
    match op
    case SetReg => OnlyA(t, n) && n.a == b
    case SetB => n.a == t.a && n.out == t.out && n.b == b
    case Not => Complements(t, n)
    case AddThread => AddsIntoOut(t, n)
    case Sub => Subtracts(t, n)
    case Mul => Multiplies(t, n)
    case Div => Divides(t, n)
    case CopyOut => OnlyA(t, n) && n.a == t.out
    case Cmp => Compares(t, n)
    case VerifyFreq => OnlyA(t, n) && n.a == One(mirrored)
    case _ => VmLaws.SameRegs(t, n)
  }

  lemma ComputeComputes(op: Opcode, t: Regs, b: nat, mirrored: bool)
    ensures var n := Compute(op, t, b, mirrored); Computes(op, t, n, b, mirrored) && n.t == t.t
  {
    match op
    case AddThread => CongruentByte(t.a + t.b);
    case Mul => CongruentByte(t.a * t.b);
    case Div =>
      if t.b > 0 {
        Quotient(t.a, t.b);
      } else if t.b < 0 {
        FloorBelow(t.a, t.b);
      }
    case _ =>
  }

  lemma SameResidue(m: int, n: int, d: int, v: int)
    requires VmLaws.ByteLike(m) && VmLaws.ByteLike(n) && Congruent(m + d, v) && Congruent(n + d, v)
    ensures m == n
  {
  }

  lemma SameQuotient(p: int, q: int, a: int, b: int)
    requires b > 0 && p * b <= a < p * b + b && q * b <= a < q * b + b
    ensures p == q
  {
    if p < q {
      MoreTimes(p, q, b);
    } else if q < p {
      MoreTimes(q, p, b);
    }
  }

  lemma MoreTimes(p: int, q: int, b: int)
    requires p < q && b > 0
    ensures p * b + b <= q * b
  {
    MulKeepsOrder(b, p + 1, q);
    assert b * (p + 1) == p * b + b;
  }

  lemma SameDivision(t: Regs, n: Regs, n': Regs)
    requires Divides(t, n) && Divides(t, n')
    ensures VmLaws.SameRegs(n, n')
  {
    if t.b > 0 {
      SameQuotient(n.a, n'.a, t.a, t.b);
    } else if t.b < 0 {
      assert n.a * -t.b == -(n.a * t.b) && n'.a * -t.b == -(n'.a * t.b);
      SameQuotient(n.a, n'.a, -t.a, -t.b);
    }
  }

  /** The relation leaves no choice: it determines A, B and OUT. */
  lemma ComputesDetermines(op: Opcode, t: Regs, n: Regs, n': Regs, b: nat, mirrored: bool)
    requires Computes(op, t, n, b, mirrored) && Computes(op, t, n', b, mirrored)
    ensures VmLaws.SameRegs(n, n')
  {
    hide Congruent, Divides;
    match op
    case Div =>
      SameDivision(t, n, n');
    case AddThread => SameResidue(n.out, n'.out, 0, t.a + t.b);
    case Mul => SameResidue(n.a, n'.a, 0, t.a * t.b);
    case Sub => SameResidue(n.a, n'.a, t.b, t.a);
    case Not => SameResidue(n.a, n'.a, t.a, 255);
    case _ =>
  }

  /** On bytes the congruences are the ones a reader expects. */
  lemma ByteArithmetic(op: Opcode, t: Regs, n: Regs, b: nat, mirrored: bool)
    requires VmLaws.ByteRegs(t) && Computes(op, t, n, b, mirrored)
    ensures op.Not? ==> n.a + t.a == 255
    ensures op.Sub? ==> n.a == if t.b <= t.a then t.a - t.b else t.a - t.b + 256
    ensures op.AddThread? ==> n.out == if t.a + t.b < 256 then t.a + t.b else t.a + t.b - 256
  {
  }

  // ---------------------------------------------------------------- one turn

  /** Nothing but thread `y`'s registers and the parts put back by the caller has changed. */
  ghost predicate Own(m: Machine, n: Machine, y: nat, x: nat)
    requires y < |m.regs|
  {
    |n.regs| == |m.regs| && n.regs == m.regs[y := n.regs[y]] && n.regs[y].t == x
  }

  /** Registers A, B and OUT of the thread are as they were. */
  ghost predicate Idles(m: Machine, n: Machine, y: nat)
    requires y < |m.regs| == |n.regs|
  {
    VmLaws.SameRegs(m.regs[y], n.regs[y])
  }

  /** The thread loads a slot into A. */
  ghost predicate Loads(m: Machine, n: Machine, y: nat, slot: nat)
    requires y < |m.regs| == |n.regs| && slot < |m.shared|
  {
    OnlyA(m.regs[y], n.regs[y]) && n.regs[y].a == m.shared[slot] && n == m.(regs := n.regs)
  }

  /** The thread stores A in a slot, and no other slot changes. */
  ghost predicate Stores(m: Machine, n: Machine, y: nat, slot: nat)
    requires y < |m.regs| == |n.regs| && slot < |m.shared|
  {
    && Idles(m, n, y) && |n.shared| == |m.shared|
    && (forall i :: 0 <= i < |m.shared| ==> n.shared[i] == if i == slot then m.regs[y].a else m.shared[i])
    && n == m.(regs := n.regs, shared := n.shared)
  }

  ghost predicate NothingElse(m: Machine, n: Machine, y: nat)
    requires y < |m.regs| == |n.regs|
  {
    Idles(m, n, y) && n == m.(regs := n.regs)
  }

  /** A slot outside the memory is an error in strict mode and nothing otherwise. */
  ghost predicate Misses(c: Config, m: Machine, o: Outcome, y: nat)
    requires y < |m.regs| == |o.m.regs|
  {
    NothingElse(m, o.m, y) && (o.Raised? <==> c.strict) && (o.Raised? ==> o.error == BadAddress)
  }

  /** The thread will skip its next cell exactly unless A is `b`. */
  ghost predicate Guards(m: Machine, n: Machine, y: nat, b: int)
    requires y < |m.regs| == |n.regs| && y < |m.skip|
  {
    && Idles(m, n, y) && n == m.(regs := n.regs, skip := n.skip)
    && n.skip == m.skip[y := m.skip[y] || m.regs[y].a != b]
  }

  ghost predicate Jumps(m: Machine, n: Machine, y: nat, width: nat, column: nat)
    requires y < |m.regs| == |n.regs|
  {
    && Idles(m, n, y) && n == m.(regs := n.regs, jump := n.jump)
    && (if m.jump.Some? || column >= width then n.jump == m.jump else n.jump == Some(column))
  }

  ghost predicate Chains(c: Config, m: Machine, n: Machine, y: nat, frame: int)
    requires y < |m.regs| == |n.regs|
  {
    && Idles(m, n, y) && n == m.(regs := n.regs, next := n.next)
    && (if frame in c.registry then n.next == Some(c.registry[frame]) else n.next == m.next)
  }

  ghost predicate Halts(m: Machine, n: Machine, y: nat)
    requires y < |m.regs| == |n.regs| && y < |m.halted|
  {
    Idles(m, n, y) && n == m.(regs := n.regs, halted := n.halted) && n.halted == m.halted[y := true]
  }

  /** The sixteen opcodes, executed by thread `y` in column `x`. */
  ghost predicate Executes(c: Config, m: Machine, o: Outcome, x: nat, y: nat, width: nat, op: Opcode, g: nat, b: nat,
                           mirrored: bool)
    requires Shaped(c, m) && Shaped(c, o.m) && y < c.threads
  {
    && Own(m, o.m, y, x)
    && (!(op.LoadMem? || op.StoreMem?) ==> o.Going?)
    && match op
       case LoadMem => if g < MEMORY_SLOTS then o.Going? && Loads(m, o.m, y, g) else Misses(c, m, o, y)
       case StoreMem => if g < MEMORY_SLOTS then o.Going? && Stores(m, o.m, y, g) else Misses(c, m, o, y)
       case IfAEq => Guards(m, o.m, y, b)
       case Jmp => Jumps(m, o.m, y, width, g)
       case SaveState => Chains(c, m, o.m, y, g)
       case Halt => Halts(m, o.m, y)
       case _ => o.m == m.(regs := o.m.regs) && Computes(op, m.regs[y], o.m.regs[y], b, mirrored)
  }

  lemma ActExecutes(c: Config, m: Machine, x: nat, y: nat, width: nat, op: Opcode, g: nat, b: nat, mirrored: bool)
    requires Shaped(c, m) && y < c.threads
    ensures Executes(c, m, Act(c, m, y, m.regs[y].(t := x), width, op, g, b, mirrored), x, y, width, op, g, b, mirrored)
  {
    var t := m.regs[y].(t := x);
    ComputeComputes(op, t, b, mirrored);
    hide Compute;
    if RegisterOnly(op) || op.Foreign? {
      assert Computes(op, t, Compute(op, t, b, mirrored), b, mirrored);
      ComputesFrom(op, m.regs[y], t, Compute(op, t, b, mirrored), b, mirrored);
    }
  }

  lemma ComputesFrom(op: Opcode, s: Regs, t: Regs, n: Regs, b: nat, mirrored: bool)
    requires VmLaws.SameRegs(s, t) && Computes(op, t, n, b, mirrored)
    ensures Computes(op, s, n, b, mirrored)
  {
  }

  /** A thread's turn at a column: a halted thread and one without a row do nothing, a skipping one
      stops skipping, and any other executes its cell. */
  ghost predicate TakesTurn(c: Config, cells: Grid<Cell>, m: Machine, o: Outcome, x: nat, y: nat)
    requires cells.Rectangular() && Shaped(c, m) && Shaped(c, o.m) && x < cells.width && y < c.threads
  {
    if y >= |cells.rows| || m.halted[y] then o == Going(m)
    else if m.skip[y] then o.Going? && o.m == m.(skip := o.m.skip) && o.m.skip == m.skip[y := false]
    else match cells.rows[y][x]
      case Blank => o.Going? && Own(m, o.m, y, x) && NothingElse(m, o.m, y)
      case Unknown =>
        && Own(m, o.m, y, x) && NothingElse(m, o.m, y)
        && (o.Raised? <==> c.strict) && (o.Raised? ==> o.error == UnknownOpcode)
      case Do(op, g, b) =>
        Executes(c, m, o, x, y, cells.width, op, g, b, cells.rows[y][x] == cells.rows[y][cells.width - 1 - x])
  }

  lemma EveryTurn(c: Config, cells: Grid<Cell>, m: Machine, x: nat, y: nat)
    requires cells.Rectangular() && Shaped(c, m) && x < cells.width && y < c.threads
    ensures TakesTurn(c, cells, m, StepThread(c, cells, m, x, y), x, y)
  {
    if y < |cells.rows| && cells.rows[y][x].Do? {
      var cell := cells.rows[y][x];
      ActExecutes(c, m, x, y, cells.width, cell.op, cell.g, cell.b, cell == cells.rows[y][cells.width - 1 - x]);
    }
    hide Act, Executes;
  }

  /** What one thread stored is what another loads from that slot next. */
  lemma LoadAfterStore(c: Config, m: Machine, x: nat, y: nat, z: nat, width: nat, slot: nat, b: nat, b': nat)
    requires Shaped(c, m) && y < c.threads && z < c.threads && slot < MEMORY_SLOTS
    ensures var stored := StepCell(c, m, x, y, width, Do(StoreMem, slot, b), false);
      var loaded := StepCell(c, stored.m, x, z, width, Do(LoadMem, slot, b'), false);
      && loaded.Going? && loaded.m.regs[z].a == m.regs[y].a == loaded.m.shared[slot]
      && forall i :: 0 <= i < MEMORY_SLOTS && i != slot ==> loaded.m.shared[i] == m.shared[i]
  {
    ActExecutes(c, m, x, y, width, StoreMem, slot, b, false);
    var stored := StepCell(c, m, x, y, width, Do(StoreMem, slot, b), false).m;
    hide Act;
    ActExecutes(c, stored, x, z, width, LoadMem, slot, b', false);
  }

  /** A turn has only one outcome. */
  lemma TurnDetermines(c: Config, cells: Grid<Cell>, m: Machine, o: Outcome, x: nat, y: nat)
    requires cells.Rectangular() && Shaped(c, m) && Shaped(c, o.m) && x < cells.width && y < c.threads
    requires TakesTurn(c, cells, m, o, x, y)
    ensures o == StepThread(c, cells, m, x, y)
  {
    EveryTurn(c, cells, m, x, y);
    hide StepThread;
    var p := StepThread(c, cells, m, x, y);
    if y < |cells.rows| && !m.halted[y] && !m.skip[y] {
      var cell := cells.rows[y][x];
      if cell.Do? {
        ExecutesDetermines(c, m, o, p, x, y, cells.width, cell.op, cell.g, cell.b,
                           cell == cells.rows[y][cells.width - 1 - x]);
      } else {
        SameThread(m, o.m, p.m, x, y);
      }
    }
  }

  lemma SameThread(m: Machine, n: Machine, n': Machine, x: nat, y: nat)
    requires y < |m.regs| && Own(m, n, y, x) && Own(m, n', y, x) && VmLaws.SameRegs(n.regs[y], n'.regs[y])
    ensures n.regs == n'.regs
  {
    assert n.regs[y] == n'.regs[y];
  }

  lemma ExecutesDetermines(c: Config, m: Machine, o: Outcome, p: Outcome, x: nat, y: nat, width: nat, op: Opcode,
                           g: nat, b: nat, mirrored: bool)
    requires Shaped(c, m) && Shaped(c, o.m) && Shaped(c, p.m) && y < c.threads
    requires Executes(c, m, o, x, y, width, op, g, b, mirrored) && Executes(c, m, p, x, y, width, op, g, b, mirrored)
    ensures o == p
  {
    hide Computes;
    if RegisterOnly(op) || op.Foreign? {
      ComputesDetermines(op, m.regs[y], o.m.regs[y], p.m.regs[y], b, mirrored);
    }
    SameThread(m, o.m, p.m, x, y);
    if op.StoreMem? && g < MEMORY_SLOTS {
      assert o.m.shared == p.m.shared;
    }
  }

  // ---------------------------------------------------------------- one column

  /** The thread has a cell to execute. */
  predicate Active(cells: Grid<Cell>, m: Machine, y: nat) {
    y < |cells.rows| && y < |m.halted| && y < |m.skip| && !m.halted[y] && !m.skip[y]
  }

  /** The two machines are the same to thread `y`. */
  ghost predicate SameTo(m: Machine, n: Machine, y: nat) {
    && y < |m.regs| == |n.regs| && y < |m.halted| == |n.halted| && y < |m.skip| == |n.skip|
    && n.regs[y] == m.regs[y] && n.halted[y] == m.halted[y] && n.skip[y] == m.skip[y]
  }

  lemma OthersSame(c: Config, cells: Grid<Cell>, m: Machine, x: nat, y: nat, z: nat)
    requires cells.Rectangular() && Shaped(c, m) && x < cells.width && y < c.threads && z < c.threads && y != z
    ensures SameTo(m, StepThread(c, cells, m, x, y).m, z)
  {
    hide Act;
    if y < |cells.rows| && cells.rows[y][x].Do? {
      var cell := cells.rows[y][x];
      OthersUntouched(c, m, y, m.regs[y].(t := x), cells.width, cell.op, cell.g, cell.b,
                      cell == cells.rows[y][cells.width - 1 - x], z);
    }
  }

  lemma OthersUntouched(c: Config, m: Machine, y: nat, t: Regs, width: nat, op: Opcode, g: nat, b: nat, mirrored: bool,
                        z: nat)
    requires Shaped(c, m) && y < c.threads && z < c.threads && y != z
    ensures SameTo(m, Act(c, m, y, t, width, op, g, b, mirrored).m, z)
  {
    hide Compute;
  }

  lemma {:induction false} LaterTurns(c: Config, cells: Grid<Cell>, m: Machine, x: nat, y: nat, z: nat)
    requires cells.Rectangular() && Shaped(c, m) && x < cells.width && z < y <= c.threads
    ensures SameTo(m, RunThreads(c, cells, m, x, y).m, z)
    decreases c.threads - y
  {
    hide StepThread;
    if y < c.threads {
      OthersSame(c, cells, m, x, y, z);
      var o := StepThread(c, cells, m, x, y);
      if o.Going? {
        LaterTurns(c, cells, o.m, x, y + 1, z);
      }
    }
  }

  /** In a column that does not raise, every thread takes its turn on its own registers and flags as
      they were before the column, and keeps what its turn made of them. */
  lemma {:induction false} TurnInColumn(c: Config, cells: Grid<Cell>, m: Machine, x: nat, y: nat, z: nat)
    returns (v: Machine)
    requires cells.Rectangular() && Shaped(c, m) && x < cells.width && y <= z < c.threads
    requires RunThreads(c, cells, m, x, y).Going?
    ensures Shaped(c, v) && SameTo(m, v, z)
    ensures StepThread(c, cells, v, x, z).Going?
    ensures SameTo(StepThread(c, cells, v, x, z).m, RunThreads(c, cells, m, x, y).m, z)
    decreases c.threads - y
  {
    hide StepThread;
    var o := StepThread(c, cells, m, x, y);
    if y == z {
      v := m;
      LaterTurns(c, cells, o.m, x, y + 1, z);
    } else {
      OthersSame(c, cells, m, x, y, z);
      v := TurnInColumn(c, cells, o.m, x, y + 1, z);
    }
  }

  /** The thread's cell in this column jumps to a column of the frame. */
  predicate WouldJump(cells: Grid<Cell>, m: Machine, x: nat, y: nat)
    requires cells.Rectangular() && x < cells.width
  {
    Active(cells, m, y) && cells.rows[y][x].Do? && cells.rows[y][x].op.Jmp? && cells.rows[y][x].g < cells.width
  }

  /** The pending jump is that of the first thread from `y` on that jumps into the frame. */
  ghost predicate FirstJump(c: Config, cells: Grid<Cell>, m: Machine, x: nat, y: nat, jump: Option<nat>)
    requires cells.Rectangular() && x < cells.width
  {
    if jump.None? then forall z :: y <= z < c.threads ==> !WouldJump(cells, m, x, z)
    else
      exists z :: y <= z < c.threads && WouldJump(cells, m, x, z) && cells.rows[z][x].g == jump.value &&
        forall w :: y <= w < z ==> !WouldJump(cells, m, x, w)
  }

  lemma TurnJumps(c: Config, cells: Grid<Cell>, m: Machine, x: nat, y: nat)
    requires cells.Rectangular() && Shaped(c, m) && x < cells.width && y < c.threads
    ensures var n := StepThread(c, cells, m, x, y).m;
      n.jump == if m.jump.None? && WouldJump(cells, m, x, y) then Some(cells.rows[y][x].g) else m.jump
  {
    hide Compute;
  }

  lemma SameJumps(cells: Grid<Cell>, m: Machine, n: Machine, x: nat, y: nat)
    requires cells.Rectangular() && x < cells.width && SameTo(m, n, y)
    ensures WouldJump(cells, m, x, y) == WouldJump(cells, n, x, y)
  {
  }

  lemma {:induction false} JumpStays(c: Config, cells: Grid<Cell>, m: Machine, x: nat, y: nat)
    requires cells.Rectangular() && Shaped(c, m) && x < cells.width && y <= c.threads && m.jump.Some?
    ensures RunThreads(c, cells, m, x, y).m.jump == m.jump
    decreases c.threads - y
  {
    hide StepThread;
    if y < c.threads {
      TurnJumps(c, cells, m, x, y);
      var o := StepThread(c, cells, m, x, y);
      if o.Going? {
        JumpStays(c, cells, o.m, x, y + 1);
      }
    }
  }

  /** The column's jump is the one of the first thread that jumps into the frame, judged by the threads
      as they were before the column; without one the machine goes on to the next column. */
  lemma {:induction false} FirstJumpWins(c: Config, cells: Grid<Cell>, m: Machine, x: nat, y: nat)
    requires cells.Rectangular() && Shaped(c, m) && x < cells.width && y <= c.threads && m.jump.None?
    requires RunThreads(c, cells, m, x, y).Going?
    ensures FirstJump(c, cells, m, x, y, RunThreads(c, cells, m, x, y).m.jump)
    decreases c.threads - y
  {
    hide StepThread, WouldJump;
    if y < c.threads {
      TurnJumps(c, cells, m, x, y);
      var o := StepThread(c, cells, m, x, y);
      if WouldJump(cells, m, x, y) {
        JumpStays(c, cells, o.m, x, y + 1);
      } else {
        FirstJumpWins(c, cells, o.m, x, y + 1);
        forall z | y < z < c.threads ensures WouldJump(cells, m, x, z) == WouldJump(cells, o.m, x, z) {
          OthersSame(c, cells, m, x, y, z);
          SameJumps(cells, m, o.m, x, z);
        }
      }
    }
  }

  /** IF_A_EQ guards the next cell: in the next column the thread acts, setting its clock register, if
      A equals the operand, and otherwise keeps all its registers and goes on after that. */
  lemma NextCellActsIf(c: Config, cells: Grid<Cell>, m: Machine, x: nat, x': nat, y: nat)
    requires cells.Rectangular() && Shaped(c, m) && x < cells.width && x' < cells.width && y < c.threads
    requires Active(cells, m, y) && cells.rows[y][x].Do? && cells.rows[y][x].op.IfAEq?
    requires RunThreads(c, cells, m, x, 0).Going?
    requires RunThreads(c, cells, Enter(RunThreads(c, cells, m, x, 0).m, x'), x', 0).Going?
    ensures var n := RunThreads(c, cells, m, x, 0).m; var n' := RunThreads(c, cells, Enter(n, x'), x', 0).m;
      && VmLaws.SameRegs(n.regs[y], m.regs[y]) && n.regs[y].t == x
      && (if m.regs[y].a == cells.rows[y][x].b then n'.regs[y].t == x' else n'.regs[y] == n.regs[y] && !n'.skip[y])
  {
    hide RunThreads, StepThread, Executes;
    var v := TurnInColumn(c, cells, m, x, 0, y);
    EveryTurn(c, cells, v, x, y);
    var n := RunThreads(c, cells, m, x, 0).m;
    assert n.skip[y] == (m.regs[y].a != cells.rows[y][x].b) && !n.halted[y]
      && VmLaws.SameRegs(n.regs[y], m.regs[y]) && n.regs[y].t == x by {
      GuardTurn(c, v, StepThread(c, cells, v, x, y), x, y, cells.width, cells.rows[y][x],
                cells.rows[y][x] == cells.rows[y][cells.width - 1 - x]);
    }
    var v' := TurnInColumn(c, cells, Enter(n, x'), x', 0, y);
    EveryTurn(c, cells, v', x', y);
    if !n.skip[y] {
      ActingSetsClock(c, cells, v', x', y);
    }
  }

  lemma GuardTurn(c: Config, m: Machine, o: Outcome, x: nat, y: nat, width: nat, cell: Cell, mirrored: bool)
    requires Shaped(c, m) && Shaped(c, o.m) && y < c.threads && cell.Do? && cell.op.IfAEq? && !m.skip[y]
    requires Executes(c, m, o, x, y, width, cell.op, cell.g, cell.b, mirrored)
    ensures o.m.skip[y] == (m.regs[y].a != cell.b) && o.m.halted == m.halted && o.m.regs[y].t == x
    ensures VmLaws.SameRegs(o.m.regs[y], m.regs[y])
  {
  }

  lemma ActingSetsClock(c: Config, cells: Grid<Cell>, m: Machine, x: nat, y: nat)
    requires cells.Rectangular() && Shaped(c, m) && x < cells.width && y < c.threads && Active(cells, m, y)
    ensures StepThread(c, cells, m, x, y).m.regs[y].t == x
  {
    EveryTurn(c, cells, m, x, y);
    hide StepThread;
  }

  // ---------------------------------------------------------------- a run without jumps

  ghost predicate Straight(cells: Grid<Cell>) {
    cells.Rectangular() &&
    forall y, x :: 0 <= y < |cells.rows| && 0 <= x < cells.width ==> !(cells.rows[y][x].Do? && cells.rows[y][x].op.Jmp?)
  }

  /** Without jumps a run visits every column once, in order: it either stops at an instruction's
      error, or finishes exactly when the budget covers the columns left, with the clock at the last. */
  lemma {:induction false} StraightRun(c: Config, cells: Grid<Cell>, m: Machine, x: nat)
    requires Straight(cells) && Shaped(c, m) && x <= cells.width && m.steps <= c.maxColSteps
    ensures var o := Run(c, cells, m, x);
      && (o.Going? ==> o.m.steps == m.steps + (cells.width - x))
      && (o.Going? && x < cells.width ==> o.m.clock == cells.width - 1)
      && (o.Raised? && o.error == StepLimit ==> m.steps + (cells.width - x) > c.maxColSteps)
      && (o.Raised? && o.error != StepLimit ==> o.m.clock == x + (o.m.steps - m.steps) - 1)
    decreases cells.width - x
  {
    hide RunThreads;
    if x < cells.width && m.steps < c.maxColSteps {
      var n := Enter(m, x);
      StepsKept(c, cells, n, x, 0);
      VmLaws.NoStepLimitInside(c, cells, n, x, 0);
      var o := RunThreads(c, cells, n, x, 0);
      if o.Going? {
        FirstJumpWins(c, cells, n, x, 0);
        assert o.m.jump.None?;
        StraightRun(c, cells, o.m, x + 1);
      }
    }
  }
}
