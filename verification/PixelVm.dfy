/** The imperative interpreter, `ParallelPyxelVM._execute_array`, proved to compute `Isa.Execute`. */
module PixelVm {
  import opened Basics
  import opened Isa

  lemma {:induction false} ReverseFound(m: OpMap, r: Byte)
    ensures Reverse(m, r).Some? ==> (Reverse(m, r).value, r) in m
    ensures Reverse(m, r).None? ==> forall i :: 0 <= i < |m| ==> m[i].1 != r
  {
    if m != [] && m[|m| - 1].1 != r {
      ReverseFound(m[..|m| - 1], r);
    }
  }

  /** The map gives this R byte to some name, and to implemented ones only. */
  ghost predicate Coded(m: OpMap, r: Byte) {
    exists i :: 0 <= i < |m| && m[i].1 == r
  }

  ghost predicate CodesOpcodes(m: OpMap, r: Byte) {
    forall i :: 0 <= i < |m| && m[i].1 == r ==> !m[i].0.Foreign?
  }

  /** What a pixel means: an opcode it stands for in the map, with the pixel's own operands; nothing only for
      R zero, and an unknown opcode only for any other; an opcode if the map gives its R byte to opcodes the
      machine implements, and none if it gives it to nothing. */
  lemma PixelMeans(m: OpMap, p: Pixel)
    ensures var c := DecodePixel(m, p);
      && (c.Do? ==> (c.op, p.r) in m && !c.op.Foreign? && c.g == p.g as nat && c.b == p.b as nat)
      && (c.Blank? ==> p.r == 0) && (c.Unknown? ==> p.r != 0)
      && (!Coded(m, p.r) ==> !c.Do?) && (Coded(m, p.r) && CodesOpcodes(m, p.r) ==> c.Do?)
  {
    ReverseFound(m, p.r);
  }

  /** VERIFY_FREQ compares raw pixels; because a name has one R byte, that is the same as
      comparing what the pixels mean.  No other opcode looks at the mirror at all. */
  lemma MirrorByMeaning(c: Config, opmap: OpMap, m: Machine, x: nat, y: nat, width: nat, p: Pixel, q: Pixel)
    requires IsDict(opmap) && Shaped(c, m) && y < c.threads
    ensures var d, e := DecodePixel(opmap, p), DecodePixel(opmap, q);
      StepCell(c, m, x, y, width, d, p == q) == StepCell(c, m, x, y, width, d, d == e)
  {
    var d, e := DecodePixel(opmap, p), DecodePixel(opmap, q);
    if d == e && d.Do? && d.op.VerifyFreq? {
      ReverseFound(opmap, p.r);
      ReverseFound(opmap, q.r);
      var i :| 0 <= i < |opmap| && opmap[i] == (VerifyFreq, p.r);
      var j :| 0 <= j < |opmap| && opmap[j] == (VerifyFreq, q.r);
      assert i == j;
    }
  }

  class ParallelVm {
    const config: Config
    const opmap: OpMap
    var registers: seq<Regs>
    var shared: seq<int>
    var clock: int
    var nextFrame: Option<string>

    ghost predicate Valid()
      reads this
    {
      |registers| == config.threads && |shared| == MEMORY_SLOTS && IsDict(opmap)
    }

    constructor (config: Config, opmap: OpMap)
      requires IsDict(opmap)
      ensures Valid() && this.config == config && this.opmap == opmap
      ensures forall i :: 0 <= i < config.threads ==> registers[i] == Regs(0, 0, 0, 0)
      ensures forall i :: 0 <= i < MEMORY_SLOTS ==> shared[i] == 0
      ensures clock == 0 && nextFrame == None
    {
      this.config, this.opmap := config, opmap;
      registers := seq(config.threads, i => Regs(0, 0, 0, 0));
      shared := seq(MEMORY_SLOTS, i => 0);
      clock, nextFrame := 0, None;
    }

    /** The machine state that the fields and the locals of a run stand for. */
    ghost function View(halted: seq<bool>, skip: seq<bool>, jump: Option<nat>, steps: nat): (m: Machine)
      reads this
    {
      Machine(registers, shared, halted, skip, jump, nextFrame, clock, steps)
    }

    /** The branches of the opcode chain that touch only the thread's own registers. */
    static method ComputeStep(op: Opcode, t: Regs, b: nat, mirrored: bool) returns (n: Regs)
      requires RegisterOnly(op)
      ensures n == Compute(op, t, b, mirrored)
    {
      n := t;
      if op == VerifyFreq {
        n := n.(a := if mirrored then 1 else 0);
      } else if op == SetReg {
        n := n.(a := b);
      } else if op == SetB {
        n := n.(b := b);
      } else if op == AddThread {
        n := n.(out := (n.a + n.b) % 256);
      } else if op == Not {
        n := n.(a := (-n.a - 1) % 256);
      } else if op == Sub {
        n := n.(a := (n.a - n.b) % 256);
      } else if op == Mul {
        n := n.(a := (n.a * n.b) % 256);
      } else if op == Div {
        n := n.(a := FloorDiv(n.a, n.b));
      } else if op == Cmp {
        n := n.(out := if n.a == n.b then 1 else 0);
      } else {
        n := n.(a := n.out);
      }
    }

    /** The branches of the opcode chain that go beyond the thread's own registers. */
    method ControlStep(y: nat, start: Regs, width: nat, op: Opcode, g: nat, b: nat, ghost mirrored: bool,
                       halted: seq<bool>, skip: seq<bool>, jump: Option<nat>, ghost steps: nat)
      returns (halted': seq<bool>, skip': seq<bool>, jump': Option<nat>, error: Option<VmError>)
      requires Valid() && y < config.threads && |halted| == |skip| == config.threads && !RegisterOnly(op)
      requires !op.Foreign?
      modifies this`registers, this`shared, this`nextFrame
      ensures Valid()
      ensures var o := Act(config, old(View(halted, skip, jump, steps)), y, start, width, op, g, b, mirrored);
        View(halted', skip', jump', steps) == o.m && error == if o.Raised? then Some(o.error) else None
    {
      halted', skip', jump', error := halted, skip, jump, None;
      hide Compute;
      var t := start;
      if op == Halt {
        halted' := halted[y := true];
      } else if op == SaveState {
        if g in config.registry {
          nextFrame := Some(config.registry[g]);
        }
      } else if op == IfAEq {
        if t.a != b {
          skip' := skip[y := true];
        }
      } else if op == LoadMem {
        if g < MEMORY_SLOTS {
          t := t.(a := shared[g]);
        } else if config.strict {
          error := Some(BadAddress);
        }
      } else if op == StoreMem {
        if g < MEMORY_SLOTS {
          shared := shared[g := t.a];
        } else if config.strict {
          error := Some(BadAddress);
        }
      } else if jump.None? && g < width {
        jump' := Some(g);
      }
      registers := registers[y := t];
    }

    /** The opcode chain for one pixel of thread `y`. */
    method Dispatch(x: nat, y: nat, width: nat, p: Pixel, mirror: Pixel, halted: seq<bool>, skip: seq<bool>,
                    jump: Option<nat>, ghost steps: nat)
      returns (halted': seq<bool>, skip': seq<bool>, jump': Option<nat>, error: Option<VmError>)
      requires Valid() && y < config.threads && |halted| == |skip| == config.threads
      modifies this`registers, this`shared, this`nextFrame
      ensures Valid()
      ensures var o := StepCell(config, old(View(halted, skip, jump, steps)), x, y, width,
                                DecodePixel(opmap, p), p == mirror);
        View(halted', skip', jump', steps) == o.m && error == if o.Raised? then Some(o.error) else None
    {
      halted', skip', jump', error := halted, skip, jump, None;
      hide Reverse, Compute;
      var t := registers[y].(t := x);
      var g, b := p.g as nat, p.b as nat;
      var opcode := Reverse(opmap, p.r);
      if opcode.Some? && !opcode.value.Foreign? && !RegisterOnly(opcode.value) {
        hide Act;
        halted', skip', jump', error :=
          ControlStep(y, t, width, opcode.value, g, b, p == mirror, halted, skip, jump, steps);
        return;
      }
      if opcode.Some? && RegisterOnly(opcode.value) {
        t := ComputeStep(opcode.value, t, b, p == mirror);
      } else if p.r != 0 && config.strict {
        error := Some(UnknownOpcode);
      }
      registers := registers[y := t];
    }

    /** All threads at one column. */
    method ExecuteColumn(arr: Grid<Pixel>, x: nat, halted0: seq<bool>, skip0: seq<bool>, ghost steps: nat)
      returns (halted: seq<bool>, skip: seq<bool>, jump: Option<nat>, error: Option<VmError>)
      requires Valid() && arr.Rectangular() && x < arr.width && |halted0| == |skip0| == config.threads
      modifies this
      ensures Valid() && |halted| == |skip| == config.threads
      ensures DecodeGrid(opmap, arr).Rectangular()
      ensures var m := old(View(halted0, skip0, None, steps)).(clock := x);
        var o := RunThreads(config, DecodeGrid(opmap, arr), m, x, 0);
        View(halted, skip, jump, steps) == o.m && error == if o.Raised? then Some(o.error) else None
    {
      hide StepCell, DecodePixel;
      ghost var cells := DecodeGrid(opmap, arr);
      clock := x;
      halted, skip, jump, error := halted0, skip0, None, None;
      ghost var start := View(halted, skip, jump, steps);
      var y := 0;
      while y < config.threads
        invariant Valid() && 0 <= y <= config.threads && |halted| == |skip| == config.threads
        invariant RunThreads(config, cells, start, x, 0)
          == RunThreads(config, cells, View(halted, skip, jump, steps), x, y)
        invariant error == None
      {
        ghost var m := View(halted, skip, jump, steps);
        if y >= |arr.rows| || halted[y] {
        } else if skip[y] {
          skip := skip[y := false];
        } else {
          var p, mirror := arr.rows[y][x], arr.rows[y][arr.width - 1 - x];
          MirrorByMeaning(config, opmap, m, x, y, arr.width, p, mirror);
          halted, skip, jump, error := Dispatch(x, y, arr.width, p, mirror, halted, skip, jump, steps);
          if error.Some? {
            return;
          }
        }
        assert StepThread(config, cells, m, x, y) == Going(View(halted, skip, jump, steps));
        y := y + 1;
      }
    }

    /** Run one decoded raster from column zero and report the chained frame, if any. */
    method ExecuteArray(arr: Grid<Pixel>) returns (r: Result<Option<string>, VmError>)
      requires Valid() && arr.Rectangular()
      modifies this
      ensures Valid() && DecodeGrid(opmap, arr).Rectangular()
      ensures var o := Execute(config, DecodeGrid(opmap, arr), old(registers), old(shared), old(clock));
        && registers == o.m.regs && shared == o.m.shared && clock == o.m.clock && nextFrame == o.m.next
        && r == if o.Raised? then Err(o.error) else Ok(o.m.next)
    {
      ghost var cells := DecodeGrid(opmap, arr);
      nextFrame := None;
      var halted, skip := seq(config.threads, i => false), seq(config.threads, i => false);
      var x: nat, step: nat := 0, 0;
      ghost var jump: Option<nat> := None;
      ghost var start := View(halted, skip, jump, 0);
      assert start == Start(config, old(registers), old(shared), old(clock));
      while x < arr.width && step < config.maxColSteps
        invariant Valid() && |halted| == |skip| == config.threads
        invariant Run(config, cells, start, 0) == Run(config, cells, View(halted, skip, jump, step), x)
        decreases config.maxColSteps - step
      {
        ghost var m := View(halted, skip, jump, step);
        step := step + 1;
        var jumpTo, error;
        halted, skip, jumpTo, error := ExecuteColumn(arr, x, halted, skip, step);
        jump := jumpTo;
        assert Enter(m, x) == m.(steps := step, clock := x, jump := None);
        if error.Some? {
          return Err(error.value);
        }
        x := if jumpTo.Some? then jumpTo.value else x + 1;
      }
      if x < arr.width {
        return Err(StepLimit);
      }
      return Ok(nextFrame);
    }
  }
}
