/** The compiled step function of the tail-recursive `sum`
    (`examples/sum.py`, pass 9), written over frames the way the generated
    code reads and writes them, and run by the scheduler. */
module TrampolineExamples {
  import opened Wrappers
  import opened PyAst
  import opened Jumps
  import opened Fiber
  import opened Trampoline
  import opened TrampolineBind
  import opened TrampolineRun

  // ---------------------------------------------------------------------
  // The Python operations the generated code performs on values
  // ---------------------------------------------------------------------

  /** `frame[k]`; a missing key raises `KeyError`. */
  function Get(frame: Frame, k: string): Result<Value, string> {
    if k in frame then Ok(frame[k]) else Err("KeyError")
  }

  /** Python truthiness. */
  predicate Truthy(v: Value) {
    match v
    case VInt(i) => i != 0
    case VBool(b) => b
    case VStr(s) => s != []
    case VNone => false
    case VList(items) => items != []
    case VDict(entries) => entries != []
    case VNode(_) => true
  }

  /** Python's `+` on the values it is defined for. */
  function Add(a: Value, b: Value): Result<Value, string> {
    if a.VInt? && b.VInt? then Ok(VInt(a.i + b.i))
    else if a.VStr? && b.VStr? then Ok(VStr(a.s + b.s))
    else if a.VList? && b.VList? then Ok(VList(a.items + b.items))
    else Err("TypeError")
  }

  /** Python's `-` on integers. */
  function Sub(a: Value, b: Value): Result<Value, string> {
    if a.VInt? && b.VInt? then Ok(VInt(a.i - b.i)) else Err("TypeError")
  }

  /** `xs[i]` on a list or a string, negative indices counting from the end. */
  function GetItem(xs: Value, i: Value): Result<Value, string> {
    if !i.VInt? then Err("TypeError")
    else if xs.VList? then
      var n := |xs.items|;
      if 0 <= i.i < n then Ok(xs.items[i.i])
      else if -n <= i.i < 0 then Ok(xs.items[n + i.i])
      else Err("IndexError")
    else if xs.VStr? then
      var n := |xs.s|;
      if 0 <= i.i < n then Ok(VStr([xs.s[i.i]]))
      else if -n <= i.i < 0 then Ok(VStr([xs.s[n + i.i]]))
      else Err("IndexError")
    else Err("TypeError")
  }

  /** `xs[1:]` on a list or a string; slicing never raises on bounds. */
  function Tail(xs: Value): Result<Value, string> {
    if xs.VList? then Ok(VList(if xs.items == [] then [] else xs.items[1..]))
    else if xs.VStr? then Ok(VStr(if xs.s == [] then [] else xs.s[1..]))
    else Err("TypeError")
  }

  /** `min(a, b, c)` on integers: the first of the smallest. */
  function Min(a: Value, b: Value, c: Value): Result<Value, string> {
    if a.VInt? && b.VInt? && c.VInt? then
      Ok(if a.i <= b.i && a.i <= c.i then a else if b.i <= c.i then b else c)
    else Err("TypeError")
  }

  /** A step function that computes its operation or raises. */
  function AsStep(r: Result<(Frame, Op), string>): StepOutcome {
    match r
    case Ok((frame, op)) => Yield(frame, op)
    case Err(m) => Raise(m)
  }

  function IntList(xs: seq<int>): (v: Value)
    ensures v.VList? && |v.items| == |xs| && forall i | 0 <= i < |xs| :: v.items[i] == VInt(xs[i])
  {
    VList(seq(|xs|, i requires 0 <= i < |xs| => VInt(xs[i])))
  }

  /** Parameters `(a, b)`, nothing else. */
  function TwoParams(a: string, b: string): Arguments {
    Arguments([], [a, b], None, [], [], [])
  }

  /** Binding two positional values to two parameters gives the frame with
      those two variables and `__pc = 0`. */
  lemma BindTwo(a: string, b: string, x: Value, y: Value)
    requires a != b && a != PC_LOCAL_NAME && b != PC_LOCAL_NAME
    ensures Bind([x, y], [], TwoParams(a, b)) == Ok(Bound(map[a := x, b := y, PC_LOCAL_NAME := VInt(0)], []))
  {
    var ps := PosWithDefaults(TwoParams(a, b));
    assert ps == [(a, None), (b, None)];
    var st0 := PosState(map[], [x, y], []);
    var st1 := PosStep(ps[0], 0, st0).value;
    assert st1 == PosState(map[a := x], [y], []);
    assert ps[1..] == [(b, None)];
    var st2 := PosStep(ps[1], -1, st1).value;
    assert st2 == PosState(map[a := x, b := y], [], []);
    assert ps[1..][1..] == [];
    assert BindPositional(ps[1..][1..], -2, st2) == Ok(st2);
    assert BindPositional(ps[1..], -1, st1) == Ok(st2);
    assert BindPositional(ps, 0, st0) == Ok(st2);
  }

  /** `def f(__pc)` is a signature Python accepts, but `bind_frame` stores
      `__pc = 0` last, so the value passed for that parameter is lost. */
  lemma PcParameterOverwritten(x: Value)
    ensures var a := Arguments([], [PC_LOCAL_NAME], None, [], [], []);
      && !DistinctParams(a)
      && Bind([x], [], a) == Ok(Bound(map[PC_LOCAL_NAME := VInt(0)], []))
  {
    var a := Arguments([], [PC_LOCAL_NAME], None, [], [], []);
    var ps := PosWithDefaults(a);
    assert ps == [(PC_LOCAL_NAME, None)];
    var st0 := PosState(map[], [x], []);
    var st1 := PosStep(ps[0], 0, st0).value;
    assert st1 == PosState(map[PC_LOCAL_NAME := x], [], []);
    assert ps[1..] == [];
    assert BindPositional(ps, 0, st0) == Ok(st1);
    assert st1.frame[PC_LOCAL_NAME := VInt(0)] == map[PC_LOCAL_NAME := VInt(0)];
    assert PC_LOCAL_NAME in AllParams(a);
  }

  // ---------------------------------------------------------------------
  // Tail-recursive sum
  // ---------------------------------------------------------------------

  const SUM_NAME: string := "sum"
  const SUM_FN: Handle := "__fiberfn_sum"

  /** `__fiberfn_sum(frame)`. */
  function SumBody(frame: Frame): Result<(Frame, Op), string> {
    var pc :- Get(frame, PC_LOCAL_NAME);
    if pc != VInt(0) then Ok((frame, NoOp))
    else
      var lst :- Get(frame, "lst");
      if !Truthy(lst) then
        var acc :- Get(frame, "acc");
        Ok((frame[PC_LOCAL_NAME := VInt(1)], RetOp(acc)))
      else
        var fr := frame[PC_LOCAL_NAME := VInt(1)];
        var rest :- Tail(lst);
        var acc :- Get(fr, "acc");
        var head :- GetItem(lst, VInt(0));
        var acc' :- Add(acc, head);
        Ok((fr, TailCallOp(SUM_NAME, [rest, acc'], [])))
  }

  function SumProgram(): (p: Program)
    ensures ValidProgram(p)
  {
    var md := Metadata(TwoParams("lst", "acc"), SUM_FN);
    Program(Registry(map[SUM_NAME := md], map[SUM_FN := md]), (h: Handle) => (fr: Frame) => AsStep(SumBody(fr)), CurrentBinder)
  }

  function Sum(xs: seq<int>): int {
    if xs == [] then 0 else xs[0] + Sum(xs[1..])
  }

  function SumFrame(xs: seq<int>, acc: int): Frame {
    map["lst" := IntList(xs), "acc" := VInt(acc), PC_LOCAL_NAME := VInt(0)]
  }

  /** The one-frame stack of a `sum` call on `xs` with accumulator `acc`. */
  function SumStack(xs: seq<int>, acc: int, rv: Option<string>): (s: seq<FrameRec>)
    ensures |s| == 1
  {
    [FrameRec(SumFrame(xs, acc), SUM_FN, rv)]
  }

  /** What one turn of `sum` does to its one-frame stack. */
  function SumNext(xs: seq<int>, acc: int): TurnResult {
    if xs == [] then Halt(Returned(VInt(acc)))
    else Running(SumStack(xs[1..], acc + xs[0], None))
  }

  /** `__fiberfn_sum` on a fresh frame: an empty list returns `acc`, any
      other list tail-calls `sum` on its tail. */
  lemma SumBodyAt(xs: seq<int>, acc: int)
    ensures SumBody(SumFrame(xs, acc)) ==
      if xs == [] then Ok((SumFrame(xs, acc)[PC_LOCAL_NAME := VInt(1)], RetOp(VInt(acc))))
      else Ok((SumFrame(xs, acc)[PC_LOCAL_NAME := VInt(1)], TailCallOp(SUM_NAME, [IntList(xs[1..]), VInt(acc + xs[0])], [])))
  {
    if xs != [] {
      assert IntList(xs).items[1..] == IntList(xs[1..]).items;
    }
  }

  /** A program that registers `sum` under its name, runs `__fiberfn_sum`
      for its handle and binds as `src/trampoline.py` does. */
  ghost predicate RunsSum(p: Program) {
    && SUM_NAME in p.registry.byName
    && p.registry.byName[SUM_NAME] == Metadata(TwoParams("lst", "acc"), SUM_FN)
    && p.bind == CurrentBinder
    && forall fr :: p.code(SUM_FN)(fr) == AsStep(SumBody(fr))
  }

  lemma SumProgramRunsSum()
    ensures RunsSum(SumProgram())
  {
  }

  /** The tail call binds a fresh `sum` frame. */
  lemma SumInvoke(p: Program, xs: seq<int>, acc: int)
    requires RunsSum(p)
    ensures Invoke(p, SUM_NAME, [IntList(xs), VInt(acc)], []) == Ok(FrameRec(SumFrame(xs, acc), SUM_FN, None))
  {
    BindTwo("lst", "acc", IntList(xs), VInt(acc));
    assert p.bind([IntList(xs), VInt(acc)], [], TwoParams("lst", "acc")) == Ok(SumFrame(xs, acc));
  }

  /** One turn of `sum` on a non-empty list replaces the frame by the
      callee's: the stack stays one frame deep. */
  lemma SumTurn(p: Program, xs: seq<int>, acc: int, rv: Option<string>)
    requires RunsSum(p)
    ensures Turn(p, SumStack(xs, acc, rv), Some(1)) == SumNext(xs, acc)
  {
    var fr := SumFrame(xs, acc);
    assert p.code(SUM_FN)(fr) == AsStep(SumBody(fr));
    SumBodyAt(xs, acc);
    var fr' := fr[PC_LOCAL_NAME := VInt(1)];
    if xs == [] {
      TurnOnReturn(p, SumStack(xs, acc, rv), Some(1), fr', VInt(acc));
    } else {
      SumInvoke(p, xs[1..], acc + xs[0]);
      TurnOnTailCall(p, SumStack(xs, acc, rv), Some(1), fr', SUM_NAME, [IntList(xs[1..]), VInt(acc + xs[0])], []);
    }
  }

  ghost predicate OneSumTurn(turn: seq<FrameRec> -> TurnResult, xs: seq<int>, acc: int) {
    turn(SumStack(xs, acc, None)) == SumNext(xs, acc)
  }

  /** A turn function that acts on every `sum` stack as `sum` does. */
  ghost predicate TakesSumTurns(turn: seq<FrameRec> -> TurnResult) {
    forall xs, acc :: OneSumTurn(turn, xs, acc)
  }

  lemma SumProgramTurns(p: Program)
    requires RunsSum(p)
    ensures TakesSumTurns(Turner(p, Some(1)))
  {
    forall xs, acc ensures OneSumTurn(Turner(p, Some(1)), xs, acc) {
      SumTurn(p, xs, acc, None);
    }
  }

  /** A loop that takes the turns of `sum` runs it in a stack of depth
      one: `|xs| + 1` turns return `acc + sum(xs)`. */
  lemma {:induction false} SumRuns(turn: seq<FrameRec> -> TurnResult, xs: seq<int>, acc: int)
    requires TakesSumTurns(turn)
    ensures Exec(turn, SumStack(xs, acc, None), |xs| + 1) == Returned(VInt(acc + Sum(xs)))
    decreases |xs|
  {
    assert OneSumTurn(turn, xs, acc);
    if xs != [] {
      SumRuns(turn, xs[1..], acc + xs[0]);
      assert acc + xs[0] + Sum(xs[1..]) == acc + Sum(xs);
    }
  }

  /** `trampoline.run(sum, [xs, acc], __max_stack_size=1)`. */
  lemma SumWithDepthOne(xs: seq<int>, acc: int)
    ensures RunSpec(SumProgram(), SUM_FN, [IntList(xs), VInt(acc)], [], Some(1), |xs| + 1) == Returned(VInt(acc + Sum(xs)))
  {
    BindTwo("lst", "acc", IntList(xs), VInt(acc));
    SumProgramRunsSum();
    SumProgramTurns(SumProgram());
    SumRuns(Turner(SumProgram(), Some(1)), xs, acc);
  }
}
