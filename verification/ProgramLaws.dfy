/** What each word of the source language makes the machine do: from program text, through the drawn
    pixels of any clear map, to registers, memory and the next column. */
module ProgramLaws {
  import opened Basics
  import opened Isa
  import opened Compiler
  import opened InstructionLaws
  import VmLaws

  // ---------------------------------------------------------------- the words

  /** The byte an operand stands for is the nearest one. */
  lemma ClampIsNearest(n: int, v: int)
    requires VmLaws.ByteLike(v)
    ensures VmLaws.ByteLike(Clamp(n) as int)
    ensures (if n < Clamp(n) as int then Clamp(n) as int - n else n - Clamp(n) as int) <= if n < v then v - n else n - v
  {
  }

  /** The operand of an instruction: the byte nearest to its first argument, if that is a number. */
  function OperandOf(lx: Lexer, args: seq<string>): (k: Option<nat>) {
    if args == [] || lx.toInt(args[0]).None? then None else Some(Clamp(lx.toInt(args[0]).value) as nat)
  }

  /** The instruction has no effect. */
  ghost predicate Passes(m: Machine, o: Outcome, y: nat)
    requires y < |m.regs| == |o.m.regs|
  {
    o.Going? && NothingElse(m, o.m, y)
  }

  /** Only the thread's registers change. */
  ghost predicate Calm(m: Machine, o: Outcome) {
    o.Going? && o.m == m.(regs := o.m.regs)
  }

  /** The words without an operand that compute on registers. */
  ghost predicate Calculates(word: string, t: Regs, n: Regs, mirrored: bool) {
    if word == "ADD" then AddsIntoOut(t, n)
    else if word == "VERIFY_FREQ" then OnlyA(t, n) && n.a == One(mirrored)
    else if word == "NOT" then Complements(t, n)
    else if word == "SUB" then Subtracts(t, n)
    else if word == "MUL" then Multiplies(t, n)
    else if word == "DIV" then Divides(t, n)
    else if word == "CMP" then Compares(t, n)
    else if word == "COPY_OUT" then OnlyA(t, n) && n.a == t.out
    else VmLaws.SameRegs(t, n)
  }

  /** The words with an operand `k`. */
  ghost predicate Operates(word: string, k: nat, c: Config, m: Machine, o: Outcome, y: nat, width: nat)
    requires Shaped(c, m) && Shaped(c, o.m) && y < c.threads
  {
    var t, n := m.regs[y], o.m.regs[y];
    if word == "SET_A" then Calm(m, o) && OnlyA(t, n) && n.a == k
    else if word == "SET_B" then Calm(m, o) && n.a == t.a && n.out == t.out && n.b == k
    else if word == "IF_A_EQ" then o.Going? && Guards(m, o.m, y, k)
    else if word == "LOAD_MEM" then
      if k < MEMORY_SLOTS then o.Going? && Loads(m, o.m, y, k) else Misses(c, m, o, y)
    else if word == "STORE_MEM" then
      if k < MEMORY_SLOTS then o.Going? && Stores(m, o.m, y, k) else Misses(c, m, o, y)
    else if word == "JMP" then o.Going? && Jumps(m, o.m, y, width, k)
    else o.Going? && Chains(c, m, o.m, y, k)
  }

  predicate NeedsOperand(word: string) {
    word in {"SET_A", "SET_B", "IF_A_EQ", "LOAD_MEM", "STORE_MEM", "JMP"}
  }

  /** What an instruction says when thread `y` meets it in column `x`. An instruction that needs an
      operand and has none does nothing, and neither does an unknown word. */
  ghost predicate Says(lx: Lexer, instr: string, c: Config, m: Machine, o: Outcome, x: nat, y: nat, width: nat,
                       mirrored: bool)
    requires Shaped(c, m) && Shaped(c, o.m) && y < c.threads
  {
    Own(m, o.m, y, x) &&
    var parts := lx.words(instr);
    if parts == [] then Passes(m, o, y) else
      var word, k := lx.upper(parts[0]), OperandOf(lx, parts[1..]);
      if NeedsOperand(word) then
        if k.Some? then Operates(word, k.value, c, m, o, y, width) else Passes(m, o, y)
      else if word == "SAVE_STATE" then
        if |parts| == 1 then o.Going? && Chains(c, m, o.m, y, 0)
        else if k.Some? then o.Going? && Chains(c, m, o.m, y, k.value)
        else Passes(m, o, y)
      else if word == "HALT" then o.Going? && Halts(m, o.m, y)
      else Calm(m, o) && Calculates(word, m.regs[y], o.m.regs[y], mirrored)
  }

  // ---------------------------------------------------------------- from text to effect

  /** The map gives every opcode a code. */
  ghost predicate Full(m: OpMap) {
    forall op: Opcode :: Implemented(op) ==> op in Names(m)
  }

  lemma DefaultMapIsFull()
    ensures Full(DEFAULT_MAP)
  {
    DefaultRanks(0);
    forall op: Opcode | Implemented(op) ensures op in Names(DEFAULT_MAP) {
      RankHolds(op);
    }
  }

  lemma RankHolds(op: Opcode)
    requires Implemented(op)
    ensures NameRank(op) < |DEFAULT_MAP| && DEFAULT_MAP[NameRank(op)].0 == op
  {
  }

  /** A cell's turn, whatever kind of cell it is. */
  ghost predicate CellDoes(cell: Cell, c: Config, m: Machine, o: Outcome, x: nat, y: nat, width: nat, mirrored: bool)
    requires Shaped(c, m) && Shaped(c, o.m) && y < c.threads && !cell.Unknown?
  {
    if cell.Blank? then Own(m, o.m, y, x) && Passes(m, o, y)
    else Executes(c, m, o, x, y, width, cell.op, cell.g, cell.b, mirrored)
  }

  /** What the cell of a text means is what the text says. */
  lemma MeaningSays(lx: Lexer, names: set<Opcode>, instr: string, c: Config, m: Machine, o: Outcome, x: nat, y: nat,
                    width: nat, mirrored: bool)
    requires Shaped(c, m) && Shaped(c, o.m) && y < c.threads
    requires CellDoes(Meaning(lx, names, instr), c, m, o, x, y, width, mirrored)
    requires forall op: Opcode :: Implemented(op) ==> op in names
    ensures Says(lx, instr, c, m, o, x, y, width, mirrored)
  {
    var parts := lx.words(instr);
    if parts != [] {
      hide Says, CellDoes;
      if NeedsOperand(lx.upper(parts[0])) {
        OperandSays(lx, names, instr, c, m, o, x, y, width, mirrored);
      } else {
        WordSays(lx, names, instr, c, m, o, x, y, width, mirrored);
      }
    }
  }

  lemma OperandSays(lx: Lexer, names: set<Opcode>, instr: string, c: Config, m: Machine, o: Outcome, x: nat, y: nat,
                    width: nat, mirrored: bool)
    requires Shaped(c, m) && Shaped(c, o.m) && y < c.threads
    requires CellDoes(Meaning(lx, names, instr), c, m, o, x, y, width, mirrored)
    requires forall op: Opcode :: Implemented(op) ==> op in names
    requires lx.words(instr) != [] && NeedsOperand(lx.upper(lx.words(instr)[0]))
    ensures Says(lx, instr, c, m, o, x, y, width, mirrored)
  {
    hide Calculates, AddsIntoOut, OnlyA, Multiplies, Subtracts, Complements, Divides, Compares, Loads, Stores, Misses;
    hide Guards, Jumps, Chains, Halts;
  }

  lemma WordSays(lx: Lexer, names: set<Opcode>, instr: string, c: Config, m: Machine, o: Outcome, x: nat, y: nat,
                 width: nat, mirrored: bool)
    requires Shaped(c, m) && Shaped(c, o.m) && y < c.threads
    requires CellDoes(Meaning(lx, names, instr), c, m, o, x, y, width, mirrored)
    requires forall op: Opcode :: Implemented(op) ==> op in names
    requires lx.words(instr) != [] && !NeedsOperand(lx.upper(lx.words(instr)[0]))
    ensures Says(lx, instr, c, m, o, x, y, width, mirrored)
  {
    hide Operates, AddsIntoOut, OnlyA, Multiplies, Subtracts, Complements, Divides, Compares, Loads, Stores, Misses;
    hide Guards, Jumps, Chains, Halts;
  }

  /** With names missing from the map the text still says so, or nothing happens. */
  lemma PartialMeaningSays(lx: Lexer, names: set<Opcode>, instr: string, c: Config, m: Machine, o: Outcome, x: nat,
                           y: nat, width: nat, mirrored: bool)
    requires Shaped(c, m) && Shaped(c, o.m) && y < c.threads
    requires CellDoes(Meaning(lx, names, instr), c, m, o, x, y, width, mirrored)
    ensures Says(lx, instr, c, m, o, x, y, width, mirrored) || Passes(m, o, y)
  {
    hide Executes, Says, Own, SpecFor, Read;
    var all := names + {SetReg, SetB, Not, AddThread, Sub, Mul, Div, CopyOut, IfAEq, Cmp, LoadMem, StoreMem,
      VerifyFreq, SaveState, Jmp, Halt};
    if Meaning(lx, names, instr) != Blank {
      MeaningSays(lx, all, instr, c, m, o, x, y, width, mirrored);
    }
  }

  /** The cells of a program drawn under a clear map. */
  function Drawn(lx: Lexer, m: OpMap, program: Program): (cells: Grid<Cell>)
    ensures cells.Rectangular()
  {
    DecodeGrid(m, Image(lx, m, program))
  }

  lemma DrawnCell(lx: Lexer, opmap: OpMap, program: Program, x: nat, y: nat)
    requires IsDict(opmap) && Clear(opmap) && y < |program| && x < |program[y]|
    ensures var cells := Drawn(lx, opmap, program);
      x < cells.width && y < |cells.rows| && cells.rows[y][x] == Meaning(lx, Names(opmap), program[y][x])
  {
    ImageMeansProgram(lx, opmap, program);
    hide Meaning;
  }

  /** Every instruction of every program, drawn under any clear map and met by an active thread, does
      what its text says; one whose opcode the map does not have does nothing. */
  lemma TextDoes(lx: Lexer, opmap: OpMap, program: Program, c: Config, m: Machine, x: nat, y: nat)
    requires IsDict(opmap) && Clear(opmap) && Shaped(c, m) && y < c.threads && y < |program| && x < |program[y]|
    requires Active(Drawn(lx, opmap, program), m, y)
    ensures var cells := Drawn(lx, opmap, program);
      x < cells.width && y < |cells.rows| && TextSaid(lx, opmap, program[y][x], c, cells, m, x, y)
  {
    hide StepThread, Meaning, Says, Executes, Drawn, Own, Passes, Clear;
    var cells := Drawn(lx, opmap, program);
    DrawnCell(lx, opmap, program, x, y);
    EveryTurn(c, cells, m, x, y);
    CellSaid(lx, opmap, program[y][x], c, cells, m, x, y);
  }

  /** The turn does what the text says, or nothing if the map is not full. */
  ghost predicate TextSaid(lx: Lexer, opmap: OpMap, instr: string, c: Config, cells: Grid<Cell>, m: Machine, x: nat,
                           y: nat)
    requires cells.Rectangular() && Shaped(c, m) && x < cells.width && y < |cells.rows| && y < c.threads
  {
    var o := StepThread(c, cells, m, x, y);
    var mirrored := cells.rows[y][x] == cells.rows[y][cells.width - 1 - x];
    && (Full(opmap) ==> Says(lx, instr, c, m, o, x, y, cells.width, mirrored))
    && (Says(lx, instr, c, m, o, x, y, cells.width, mirrored) || Passes(m, o, y))
  }

  lemma CellSaid(lx: Lexer, opmap: OpMap, instr: string, c: Config, cells: Grid<Cell>, m: Machine, x: nat, y: nat)
    requires cells.Rectangular() && Shaped(c, m) && x < cells.width && y < |cells.rows| && y < c.threads
    requires Active(cells, m, y) && TakesTurn(c, cells, m, StepThread(c, cells, m, x, y), x, y)
    requires cells.rows[y][x] == Meaning(lx, Names(opmap), instr)
    ensures TextSaid(lx, opmap, instr, c, cells, m, x, y)
  {
    hide StepThread, Meaning, Says, Executes, Own, NothingElse;
    var o, mirrored := StepThread(c, cells, m, x, y), cells.rows[y][x] == cells.rows[y][cells.width - 1 - x];
    NeverUnknown(lx, Names(opmap), instr);
    assert CellDoes(cells.rows[y][x], c, m, o, x, y, cells.width, mirrored);
    if Full(opmap) {
      MeaningSays(lx, Names(opmap), instr, c, m, o, x, y, cells.width, mirrored);
    }
    PartialMeaningSays(lx, Names(opmap), instr, c, m, o, x, y, cells.width, mirrored);
  }

  lemma NeverUnknown(lx: Lexer, names: set<Opcode>, instr: string)
    ensures !Meaning(lx, names, instr).Unknown?
  {
    hide SpecFor, Read;
  }

  // ---------------------------------------------------------------- whole programs

  lemma {:induction false} RowsEnd(c: Config, cells: Grid<Cell>, m: Machine, x: nat, y: nat)
    requires cells.Rectangular() && Shaped(c, m) && x < cells.width && |cells.rows| <= y <= c.threads
    ensures RunThreads(c, cells, m, x, y) == Going(m)
    decreases c.threads - y
  {
    if y < c.threads {
      RowsEnd(c, cells, m, x, y + 1);
    }
  }

  /** In a frame of one row a column is the first thread's turn. */
  lemma OneRowColumn(c: Config, cells: Grid<Cell>, m: Machine, x: nat)
    requires cells.Rectangular() && |cells.rows| == 1 && Shaped(c, m) && x < cells.width && c.threads >= 1
    ensures RunThreads(c, cells, m, x, 0) == StepThread(c, cells, m, x, 0)
  {
    var o := StepThread(c, cells, m, x, 0);
    hide StepThread;
    if o.Going? {
      RowsEnd(c, cells, o.m, x, 1);
    }
  }

  /** The instruction is a jump to this column. */
  predicate JumpsTo(lx: Lexer, instr: string, k: nat) {
    var parts := lx.words(instr);
    parts != [] && lx.upper(parts[0]) == "JMP" && OperandOf(lx, parts[1..]) == Some(k)
  }

  lemma JumpSaid(lx: Lexer, instr: string, c: Config, m: Machine, o: Outcome, x: nat, y: nat, width: nat,
                 mirrored: bool)
    requires Shaped(c, m) && Shaped(c, o.m) && y < c.threads && m.jump.None?
    requires Says(lx, instr, c, m, o, x, y, width, mirrored)
    ensures forall k: nat :: JumpsTo(lx, instr, k) ==>
      o.Going? && Idles(m, o.m, y) && o.m == m.(regs := o.m.regs, jump := o.m.jump)
        && o.m.jump == if k < width then Some(k) else None
    ensures (forall k: nat :: !JumpsTo(lx, instr, k)) && o.Going? ==> o.m.jump == None
  {
    var parts := lx.words(instr);
    if parts != [] {
      var word, k := lx.upper(parts[0]), OperandOf(lx, parts[1..]);
      hide OperandOf, Calculates, Own;
      if word == "JMP" && k.Some? {
        assert JumpsTo(lx, instr, k.value);
      }
    }
  }

  /** One instruction, compiled by itself under a clear map that has every opcode and run, does what its
      text says and the run is over; only a jump to its own column runs until the budget is spent. */
  lemma OneInstruction(lx: Lexer, opmap: OpMap, instr: string, c: Config, regs: seq<Regs>, shared: seq<int>, clock: int)
    requires IsDict(opmap) && Clear(opmap) && Full(opmap)
    requires |regs| == c.threads >= 1 && |shared| == MEMORY_SLOTS && c.maxColSteps >= 1
    requires !JumpsTo(lx, instr, 0)
    ensures var m := Enter(Start(c, regs, shared, clock), 0);
      var o := Execute(c, Drawn(lx, opmap, [[instr]]), regs, shared, clock);
      Shaped(c, m) && Shaped(c, o.m) && Says(lx, instr, c, m, o, 0, 0, 1, true)
  {
    var program, m := [[instr]], Enter(Start(c, regs, shared, clock), 0);
    var cells := Drawn(lx, opmap, program);
    OneRow(lx, opmap, [instr]);
    OneRowColumn(c, cells, m, 0);
    TextDoes(lx, opmap, program, c, m, 0, 0);
    hide StepThread, RunThreads, Says, Drawn;
    var o := StepThread(c, cells, m, 0, 0);
    JumpSaid(lx, instr, c, m, o, 0, 0, 1, true);
    LastColumn(c, cells, Start(c, regs, shared, clock), 0);
  }

  /** A run whose last column does not jump is over. */
  lemma LastColumn(c: Config, cells: Grid<Cell>, m: Machine, x: nat)
    requires cells.Rectangular() && Shaped(c, m) && x + 1 == cells.width && m.steps < c.maxColSteps
    requires var o := RunThreads(c, cells, Enter(m, x), x, 0); o.Going? ==> o.m.jump == None
    ensures Run(c, cells, m, x) == RunThreads(c, cells, Enter(m, x), x, 0)
  {
    hide RunThreads;
    StepsKept(c, cells, Enter(m, x), x, 0);
    var o := RunThreads(c, cells, Enter(m, x), x, 0);
    if o.Going? {
      assert Run(c, cells, o.m, x + 1) == o;
    }
  }

  /** A jump to its own column runs until the budget is spent. */
  lemma {:induction false} SelfJump(lx: Lexer, opmap: OpMap, instr: string, c: Config, m: Machine)
    requires IsDict(opmap) && Clear(opmap) && Full(opmap) && JumpsTo(lx, instr, 0)
    requires Shaped(c, m) && c.threads >= 1 && !m.halted[0] && !m.skip[0] && m.steps <= c.maxColSteps
    ensures var o := Run(c, Drawn(lx, opmap, [[instr]]), m, 0);
      o.Raised? && o.error == StepLimit && o.m.steps == c.maxColSteps && VmLaws.SameResults(m, o.m)
    decreases c.maxColSteps - m.steps
  {
    var cells := Drawn(lx, opmap, [[instr]]);
    OneRow(lx, opmap, [instr]);
    if m.steps < c.maxColSteps {
      var n := Enter(m, 0);
      OneRowColumn(c, cells, n, 0);
      TextDoes(lx, opmap, [[instr]], c, n, 0, 0);
      hide StepThread, RunThreads, Drawn, Says, JumpsTo;
      var o := StepThread(c, cells, n, 0, 0);
      JumpSaid(lx, instr, c, n, o, 0, 0, 1, true);
      StepsKept(c, cells, n, 0, 0);
      SaidByOne(lx, instr, c, n, o, 0, 0, 1, true);
      SelfJump(lx, opmap, instr, c, o.m);
    }
  }

  /** An instruction changes no other thread's registers. */
  lemma SaidByOne(lx: Lexer, instr: string, c: Config, m: Machine, o: Outcome, x: nat, y: nat, width: nat,
                  mirrored: bool)
    requires Shaped(c, m) && Shaped(c, o.m) && y < c.threads && Says(lx, instr, c, m, o, x, y, width, mirrored)
    ensures o.m.regs == m.regs[y := o.m.regs[y]] && o.m.regs[y].t == x
  {
    hide Operates, Calculates, OperandOf;
  }

  /** A row that starts with a jump to its last column does what that column says and nothing of what is
      in between. */
  lemma JumpLeadsTo(lx: Lexer, opmap: OpMap, row: seq<string>, k: nat, c: Config, regs: seq<Regs>, shared: seq<int>,
                    clock: int)
    requires IsDict(opmap) && Clear(opmap) && Full(opmap) && k >= 1 && |row| == k + 1
    requires JumpsTo(lx, row[0], k) && forall j: nat | j <= k :: !JumpsTo(lx, row[k], j)
    requires |regs| == c.threads >= 1 && |shared| == MEMORY_SLOTS && c.maxColSteps >= 2
    ensures var start := Start(c, regs[0 := regs[0].(t := 0)], shared, clock);
      var m, cells := start.(clock := k, steps := 2), Drawn(lx, opmap, [row]);
      var o := Execute(c, cells, regs, shared, clock);
      Shaped(c, m) && Shaped(c, o.m) && |cells.rows| == 1 && cells.width == k + 1
        && Says(lx, row[k], c, m, o, k, 0, k + 1, cells.rows[0][k] == cells.rows[0][0])
  {
    var cells, m0 := Drawn(lx, opmap, [row]), Start(c, regs, shared, clock);
    OneRow(lx, opmap, row);
    var n0 := Enter(m0, 0);
    OneRowColumn(c, cells, n0, 0);
    TextDoes(lx, opmap, [row], c, n0, 0, 0);
    var o0 := StepThread(c, cells, n0, 0, 0);
    var mirrored0 := cells.rows[0][0] == cells.rows[0][k];
    JumpSaid(lx, row[0], c, n0, o0, 0, 0, k + 1, mirrored0);
    SaidByOne(lx, row[0], c, n0, o0, 0, 0, k + 1, mirrored0);
    var m := Enter(o0.m, k);
    assert m == Start(c, regs[0 := regs[0].(t := 0)], shared, clock).(clock := k, steps := 2);
    OneRowColumn(c, cells, m, k);
    TextDoes(lx, opmap, [row], c, m, k, 0);
    var o, mirrored := StepThread(c, cells, m, k, 0), cells.rows[0][k] == cells.rows[0][0];
    JumpSaid(lx, row[k], c, m, o, k, 0, k + 1, mirrored);
    hide StepThread, RunThreads, Says, Drawn, JumpsTo;
    LastColumn(c, cells, o0.m, k);
    assert Run(c, cells, m0, 0) == Run(c, cells, o0.m, k);
  }

  lemma OneRow(lx: Lexer, m: OpMap, row: seq<string>)
    ensures Columns([row]) == |row| && Drawn(lx, m, [row]).width == |row| && |Drawn(lx, m, [row]).rows| == 1
  {
    assert [row][..0] == [];
  }

  /** OUT_TO_A is another word for COPY_OUT. */
  lemma OutToACopies(lx: Lexer, names: set<Opcode>, instr: string)
    requires var parts := lx.words(instr); parts != [] && lx.upper(parts[0]) == "OUT_TO_A"
    requires lx.words("COPY_OUT") == ["COPY_OUT"] && lx.upper("COPY_OUT") == "COPY_OUT" && CopyOut in names
    ensures Meaning(lx, names, Expand(lx, [[instr]])[0][0]) == Do(CopyOut, 0, 0)
  {
    assert SpecFor("COPY_OUT") == Some(Spec(CopyOut, Zero, Zero));
  }
}
