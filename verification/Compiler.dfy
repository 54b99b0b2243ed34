/** `SimpleCompiler`: text instructions to pixels under an opcode map, and the proof that the map
    does not matter to the meaning of the program. */
module Compiler {
  import opened Basics
  import opened Isa
  import PixelVm

  /** What Python's `str.split`, `str.upper` and `int` do to a piece of text; every result below
      holds whatever they do. */
  datatype Lexer = Lexer(words: string -> seq<string>, upper: string -> string, toInt: string -> Option<int>)

  type Program = seq<seq<string>>

  /** Where an operand byte comes from: a constant zero, the first argument, or the first argument
      if there is one. */
  datatype Operand = Zero | First | FirstOrZero

  datatype Spec = Spec(op: Opcode, g: Operand, b: Operand)

  function SpecFor(word: string): (s: Option<Spec>) {
    if word == "SET_A" then Some(Spec(SetReg, Zero, First))
    else if word == "SET_B" then Some(Spec(SetB, Zero, First))
    else if word == "ADD" then Some(Spec(AddThread, Zero, Zero))
    else if word == "IF_A_EQ" then Some(Spec(IfAEq, Zero, First))
    else if word == "LOAD_MEM" then Some(Spec(LoadMem, First, Zero))
    else if word == "STORE_MEM" then Some(Spec(StoreMem, First, Zero))
    else if word == "VERIFY_FREQ" then Some(Spec(VerifyFreq, Zero, Zero))
    else if word == "SAVE_STATE" then Some(Spec(SaveState, FirstOrZero, Zero))
    else if word == "HALT" then Some(Spec(Halt, Zero, Zero))
    else if word == "NOT" then Some(Spec(Not, Zero, Zero))
    else if word == "SUB" then Some(Spec(Sub, Zero, Zero))
    else if word == "MUL" then Some(Spec(Mul, Zero, Zero))
    else if word == "DIV" then Some(Spec(Div, Zero, Zero))
    else if word == "CMP" then Some(Spec(Cmp, Zero, Zero))
    else if word == "JMP" then Some(Spec(Jmp, First, Zero))
    else if word == "COPY_OUT" then Some(Spec(CopyOut, Zero, Zero))
    else None
  }

  function Clamp(n: int): (b: Byte) {
    if n < 0 then 0 else if n > 255 then 255 else n as Byte
  }

  /** An operand byte, or nothing where the source raises IndexError or ValueError. */
  function Read(lx: Lexer, o: Operand, args: seq<string>): (b: Option<Byte>) {
    if o.Zero? || (o.FirstOrZero? && args == []) then Some(0)
    else if args == [] then None
    else
      var n := lx.toInt(args[0]);
      if n.None? then None else Some(Clamp(n.value))
  }

  function ParseOne(lx: Lexer, m: OpMap, instr: string): (p: Pixel) {
    var parts := lx.words(instr);
    if parts == [] then NOP_PIXEL else
      var spec := SpecFor(lx.upper(parts[0]));
      if spec.None? then NOP_PIXEL else
        var r := Code(m, spec.value.op);
        if r.None? then NOP_PIXEL else
          var g, b := Read(lx, spec.value.g, parts[1..]), Read(lx, spec.value.b, parts[1..]);
          if g.None? || b.None? then NOP_PIXEL else Pixel(r.value, g.value, b.value)
  }

  /** What an instruction says, with no map in sight: an opcode name and its operands, or nothing. */
  function Meaning(lx: Lexer, names: set<Opcode>, instr: string): (c: Cell) {
    var parts := lx.words(instr);
    if parts == [] then Blank else
      var spec := SpecFor(lx.upper(parts[0]));
      if spec.None? || spec.value.op !in names then Blank else
        var g, b := Read(lx, spec.value.g, parts[1..]), Read(lx, spec.value.b, parts[1..]);
        if g.None? || b.None? then Blank else Do(spec.value.op, g.value as nat, b.value as nat)
  }

  function ExpandOne(lx: Lexer, instr: string): (r: string) {
    var parts := lx.words(instr);
    if parts != [] && lx.upper(parts[0]) == "OUT_TO_A" then "COPY_OUT" else instr
  }

  function ExpandRow(lx: Lexer, row: seq<string>): (r: seq<string>) {
    seq(|row|, x requires 0 <= x < |row| => ExpandOne(lx, row[x]))
  }

  function Expand(lx: Lexer, program: Program): (r: Program) {
    seq(|program|, y requires 0 <= y < |program| => ExpandRow(lx, program[y]))
  }

  /** The longest row. */
  function Columns(program: Program): (n: nat)
    ensures forall y :: 0 <= y < |program| ==> |program[y]| <= n
    ensures n > 0 ==> exists y :: 0 <= y < |program| && |program[y]| == n
  {
    if program == [] then 0 else
      var init := Columns(program[..|program| - 1]);
      var last := |program[|program| - 1]|;
      if last > init then last else init
  }

  /** A row of instructions rendered cell by cell and padded on the right. */
  function Render<T>(row: seq<string>, width: nat, f: string -> T, pad: T): (cells: seq<T>)
    requires |row| <= width
    ensures |cells| == width
  {
    seq(width, x requires 0 <= x < width => if x < |row| then f(row[x]) else pad)
  }

  function RenderAll<T>(program: Program, width: nat, f: string -> T, pad: T): (g: Grid<T>)
    requires Columns(program) <= width
    ensures g.Rectangular()
  {
    Grid(width, seq(|program|, y requires 0 <= y < |program| => Render(program[y], width, f, pad)))
  }

  /** The image the compiler draws for an expanded program. */
  function Image(lx: Lexer, m: OpMap, program: Program): (g: Grid<Pixel>)
    ensures g.Rectangular()
  {
    RenderAll(program, Columns(program), s => ParseOne(lx, m, s), NOP_PIXEL)
  }

  /** The meaning of the same program. */
  function Cells(lx: Lexer, names: set<Opcode>, program: Program): (g: Grid<Cell>)
    ensures g.Rectangular()
  {
    RenderAll(program, Columns(program), s => Meaning(lx, names, s), Blank)
  }

  // ---------------------------------------------------------------- the compiler itself

  /** `_expand`: replace each synthetic instruction, row by row. */
  method ExpandProgram(lx: Lexer, program: Program) returns (expanded: Program)
    ensures expanded == Expand(lx, program)
  {
    expanded := [];
    for y := 0 to |program|
      invariant expanded == Expand(lx, program)[..y]
    {
      var row := [];
      for x := 0 to |program[y]|
        invariant row == ExpandRow(lx, program[y])[..x]
      {
        var parts := lx.words(program[y][x]);
        if parts != [] && lx.upper(parts[0]) == "OUT_TO_A" {
          row := row + ["COPY_OUT"];
        } else {
          row := row + [program[y][x]];
        }
      }
      assert row == Expand(lx, program)[y];
      expanded := expanded + [row];
    }
  }

  /** `compile`: nothing for an empty program, otherwise an image padded with NOP pixels. */
  method Compile(lx: Lexer, m: OpMap, source: Program) returns (image: Option<Grid<Pixel>>)
    ensures var p := Expand(lx, source);
      image == if Columns(p) == 0 then None else Some(Image(lx, m, p))
    ensures image.Some? && IsDict(m) && Clear(m) ==>
      DecodeGrid(m, image.value) == Cells(lx, Names(m), Expand(lx, source))
  {
    var program := ExpandProgram(lx, source);
    var width := Columns(program);
    if |program| == 0 || width == 0 {
      return None;
    }
    var rows: seq<seq<Pixel>> := [];
    for y := 0 to |program|
      invariant rows == Image(lx, m, program).rows[..y]
    {
      var row: seq<Pixel> := seq(width, x => NOP_PIXEL);
      for x := 0 to |program[y]|
        invariant |row| == width
        invariant forall i :: 0 <= i < x ==> row[i] == ParseOne(lx, m, program[y][i])
        invariant forall i :: x <= i < width ==> row[i] == NOP_PIXEL
      {
        row := row[x := ParseOne(lx, m, program[y][x])];
      }
      assert row == Image(lx, m, program).rows[y];
      rows := rows + [row];
    }
    assert rows == Image(lx, m, program).rows;
    image := Some(Grid(width, rows));
    if IsDict(m) && Clear(m) {
      ImageMeansProgram(lx, m, program);
    }
  }

  // ---------------------------------------------------------------- maps do not matter

  function Names(m: OpMap): (s: set<Opcode>) {
    set i | 0 <= i < |m| :: m[i].0
  }

  predicate Implemented(op: Opcode) {
    !op.Foreign?
  }

  /** Every implemented name has a non-zero R byte that no later entry takes over. */
  predicate Clear(m: OpMap) {
    forall i :: 0 <= i < |m| && Implemented(m[i].0) ==>
      m[i].1 != 0 && forall j :: i < j < |m| ==> m[j].1 != m[i].1
  }

  /** The map built into the machine. */
  const DEFAULT_MAP: OpMap := [
    (SetReg, 10), (SetB, 11), (Not, 12), (AddThread, 20), (Sub, 21), (Mul, 22), (Div, 23), (IfAEq, 30), (Cmp, 31),
    (LoadMem, 40), (StoreMem, 41), (VerifyFreq, 50), (SaveState, 60), (Jmp, 70), (CopyOut, 24), (Halt, 255)]

  /** Where a name stands in the built-in map. */
  function NameRank(op: Opcode): (n: nat) {
    match op
    case SetReg => 0
    case SetB => 1
    case Not => 2
    case AddThread => 3
    case Sub => 4
    case Mul => 5
    case Div => 6
    case IfAEq => 7
    case Cmp => 8
    case LoadMem => 9
    case StoreMem => 10
    case VerifyFreq => 11
    case SaveState => 12
    case Jmp => 13
    case CopyOut => 14
    case Halt => 15
    case Foreign(_) => 16
  }

  /** Where an R byte stands in it. */
  function CodeRank(r: Byte): (n: nat) {
    if r == 10 then 0 else if r == 11 then 1 else if r == 12 then 2 else if r == 20 then 3 else if r == 21 then 4
    else if r == 22 then 5 else if r == 23 then 6 else if r == 30 then 7 else if r == 31 then 8 else if r == 40 then 9
    else if r == 41 then 10 else if r == 50 then 11 else if r == 60 then 12 else if r == 70 then 13
      else if r == 24 then 14
    else if r == 255 then 15 else 16
  }

  lemma DefaultRanks(i: nat)
    requires i < 16
    ensures |DEFAULT_MAP| == 16 && NameRank(DEFAULT_MAP[i].0) == CodeRank(DEFAULT_MAP[i].1) == i
    ensures DEFAULT_MAP[i].1 != 0
  {
  }

  /** The built-in map is one the machine reads back. */
  lemma DefaultMapIsClear()
    ensures |DEFAULT_MAP| == 16 && IsDict(DEFAULT_MAP) && Clear(DEFAULT_MAP)
  {
    DefaultRanks(0);
    var m := DEFAULT_MAP;
    RankedIsClear(m) by {
      forall i: nat | i < 16 {
        DefaultRanks(i);
      }
    }
  }

  lemma RankedIsClear(m: OpMap)
    requires forall i :: 0 <= i < |m| ==> NameRank(m[i].0) == CodeRank(m[i].1) == i && m[i].1 != 0
    ensures IsDict(m) && Clear(m)
  {
    hide NameRank, CodeRank;
  }

  lemma {:induction false} CodeFound(m: OpMap, op: Opcode)
    ensures Code(m, op).Some? <==> op in Names(m)
    ensures Code(m, op).Some? ==> (op, Code(m, op).value) in m
  {
    if m != [] {
      CodeFound(m[1..], op);
      if m[0].0 != op {
        assert m == [m[0]] + m[1..];
        if op in Names(m) {
          var i :| 0 <= i < |m| && m[i].0 == op;
          assert m[1..][i - 1].0 == op;
        }
        if op in Names(m[1..]) {
          var i :| 0 <= i < |m[1..]| && m[1..][i].0 == op;
          assert m[i + 1].0 == op;
        }
      } else {
        assert m[0].0 in Names(m);
      }
    }
  }

  /** A dictionary holds the code it was given. */
  lemma {:induction false} CodeAt(m: OpMap, i: nat)
    requires IsDict(m) && i < |m|
    ensures Code(m, m[i].0) == Some(m[i].1)
  {
    if i > 0 {
      CodeAt(m[1..], i - 1);
    }
  }

  /** The pixel of a word with the built-in map, `k` being its operand. */
  function DefaultPixel(word: string, k: Byte): (p: Pixel) {
    if word == "SET_A" then Pixel(10, 0, k)
    else if word == "SET_B" then Pixel(11, 0, k)
    else if word == "ADD" then Pixel(20, 0, 0)
    else if word == "IF_A_EQ" then Pixel(30, 0, k)
    else if word == "LOAD_MEM" then Pixel(40, k, 0)
    else if word == "STORE_MEM" then Pixel(41, k, 0)
    else if word == "VERIFY_FREQ" then Pixel(50, 0, 0)
    else if word == "SAVE_STATE" then Pixel(60, k, 0)
    else if word == "HALT" then Pixel(255, 0, 0)
    else if word == "NOT" then Pixel(12, 0, 0)
    else if word == "SUB" then Pixel(21, 0, 0)
    else if word == "MUL" then Pixel(22, 0, 0)
    else if word == "DIV" then Pixel(23, 0, 0)
    else if word == "CMP" then Pixel(31, 0, 0)
    else if word == "JMP" then Pixel(70, k, 0)
    else if word == "COPY_OUT" then Pixel(24, 0, 0)
    else NOP_PIXEL
  }

  lemma SpecDraws(word: string, k: Byte)
    requires SpecFor(word).Some?
    ensures var spec := SpecFor(word).value;
      && Implemented(spec.op)
      && DefaultPixel(word, k)
        == Pixel(CodeOf(spec.op), if spec.g.Zero? then 0 else k, if spec.b.Zero? then 0 else k)
  {
  }

  lemma NothingDrawn(word: string, k: Byte)
    requires SpecFor(word).None?
    ensures DefaultPixel(word, k) == NOP_PIXEL
  {
  }

  /** What is drawn with the built-in map, byte by byte. */
  lemma DefaultPixels(lx: Lexer, instr: string, word: string, arg: string, n: int)
    requires lx.words(instr) == [word, arg] && lx.toInt(arg) == Some(n) && 0 <= n < 256
    ensures ParseOne(lx, DEFAULT_MAP, instr) == DefaultPixel(lx.upper(word), n as Byte)
  {
    var w := lx.upper(word);
    assert [word, arg][1..] == [arg];
    if SpecFor(w).Some? {
      SpecDraws(w, n as Byte);
      DefaultCode(SpecFor(w).value.op);
    } else {
      NothingDrawn(w, n as Byte);
    }
    hide Code, SpecFor, DefaultPixel, CodeOf;
  }

  /** The code the built-in map gives to a name. */
  function CodeOf(op: Opcode): (r: Byte) {
    match op
    case SetReg => 10
    case SetB => 11
    case Not => 12
    case AddThread => 20
    case Sub => 21
    case Mul => 22
    case Div => 23
    case CopyOut => 24
    case IfAEq => 30
    case Cmp => 31
    case LoadMem => 40
    case StoreMem => 41
    case VerifyFreq => 50
    case SaveState => 60
    case Jmp => 70
    case Halt => 255
    case Foreign(_) => 0
  }

  lemma DefaultCode(op: Opcode)
    requires Implemented(op)
    ensures Code(DEFAULT_MAP, op) == Some(CodeOf(op))
  {
    DefaultMapIsClear();
    var i := NameRank(op);
    assert i < |DEFAULT_MAP| && DEFAULT_MAP[i] == (op, CodeOf(op));
    CodeAt(DEFAULT_MAP, i);
  }

  lemma {:induction false} ReverseIsLast(m: OpMap, i: nat)
    requires i < |m| && forall j :: i < j < |m| ==> m[j].1 != m[i].1
    ensures Reverse(m, m[i].1) == Some(m[i].0)
  {
    if i < |m| - 1 {
      ReverseIsLast(m[..|m| - 1], i);
    }
  }

  /** The machine reads back every name the compiler can emit, and reads padding as nothing,
      exactly for `Clear` maps. */
  lemma ClearMeansReadable(m: OpMap)
    requires IsDict(m)
    ensures Clear(m) <==>
      && DecodePixel(m, NOP_PIXEL) == Blank
      && forall i :: 0 <= i < |m| && Implemented(m[i].0) ==> DecodePixel(m, Pixel(m[i].1, 0, 0)) == Do(m[i].0, 0, 0)
  {
    PixelVm.ReverseFound(m, 0);
    if Clear(m) {
      forall i | 0 <= i < |m| && Implemented(m[i].0)
        ensures DecodePixel(m, Pixel(m[i].1, 0, 0)) == Do(m[i].0, 0, 0)
      {
        ReverseIsLast(m, i);
      }
    } else {
      var i :| 0 <= i < |m| && Implemented(m[i].0) && (m[i].1 == 0 || exists j :: i < j < |m| && m[j].1 == m[i].1);
      if exists j :: i < j < |m| && m[j].1 == m[i].1 {
        var j :| i < j < |m| && m[j].1 == m[i].1;
        ReverseSkips(m, i, j);
      } else {
        ReverseIsLast(m, i);
      }
    }
  }

  lemma {:induction false} ReverseSkips(m: OpMap, i: nat, j: nat)
    requires IsDict(m) && i < j < |m| && m[j].1 == m[i].1
    ensures Reverse(m, m[i].1) != Some(m[i].0)
  {
    if m[|m| - 1].1 != m[i].1 {
      ReverseSkips(m[..|m| - 1], i, j);
    }
  }

  lemma MeaningRead(lx: Lexer, m: OpMap, instr: string)
    requires IsDict(m) && Clear(m)
    ensures DecodePixel(m, ParseOne(lx, m, instr)) == Meaning(lx, Names(m), instr)
  {
    ClearMeansReadable(m);
    var parts := lx.words(instr);
    if parts != [] {
      var spec := SpecFor(lx.upper(parts[0]));
      if spec.Some? {
        CodeFound(m, spec.value.op);
        if spec.value.op in Names(m) {
          var i :| 0 <= i < |m| && m[i] == (spec.value.op, Code(m, spec.value.op).value);
          ReverseIsLast(m, i);
        }
      }
    }
  }

  /** Meaning preservation: under a clear map the drawn image means exactly the source program. */
  lemma ImageMeansProgram(lx: Lexer, m: OpMap, program: Program)
    requires IsDict(m) && Clear(m)
    ensures DecodeGrid(m, Image(lx, m, program)) == Cells(lx, Names(m), program)
  {
    var image, cells := Image(lx, m, program), Cells(lx, Names(m), program);
    ClearMeansReadable(m);
    forall y | 0 <= y < |program| ensures DecodeRow(m, image.rows[y]) == cells.rows[y] {
      forall x | 0 <= x < image.width ensures DecodePixel(m, image.rows[y][x]) == cells.rows[y][x] {
        if x < |program[y]| {
          MeaningRead(lx, m, program[y][x]);
        }
      }
    }
    assert DecodeGrid(m, image).rows == cells.rows;
  }

  /** Compiling and running under any two clear maps over the same names gives the same registers,
      shared memory, clock, chained frame and error, namely those of the source program itself. */
  lemma MapIndependence(lx: Lexer, m1: OpMap, m2: OpMap, source: Program, c: Config,
                        regs: seq<Regs>, shared: seq<int>, clock: int)
    requires IsDict(m1) && IsDict(m2) && Clear(m1) && Clear(m2) && Names(m1) == Names(m2)
    requires |regs| == c.threads && |shared| == MEMORY_SLOTS
    ensures var p := Expand(lx, source);
      && DecodeGrid(m1, Image(lx, m1, p)).Rectangular() && DecodeGrid(m2, Image(lx, m2, p)).Rectangular()
      && Execute(c, DecodeGrid(m1, Image(lx, m1, p)), regs, shared, clock)
        == Execute(c, DecodeGrid(m2, Image(lx, m2, p)), regs, shared, clock)
        == Execute(c, Cells(lx, Names(m1), p), regs, shared, clock)
  {
    var p := Expand(lx, source);
    ImageMeansProgram(lx, m1, p);
    ImageMeansProgram(lx, m2, p);
  }
}
