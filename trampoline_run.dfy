/** The scheduler loop `run` (`src/trampoline.py`): a stack of suspended
    calls, each a frame and the step function that resumes it. One turn
    resumes the top frame and acts on the operation it returns. */
module TrampolineRun {
  import opened Wrappers
  import opened PyAst
  import opened Fiber
  import opened Jumps
  import opened Trampoline
  import opened LegacyTrampoline

  /** What calling a step function on a frame does: it updates the frame
      and returns an operation, or raises. */
  datatype StepOutcome = Yield(frame: Frame, op: Op) | Raise(message: string)

  type StepFn = Frame -> StepOutcome

  /** A `bind_frame`: positional values, keyword arguments and the
      signature to a fresh frame. */
  type Binder = (seq<Value>, KwArgs, Arguments) -> Result<Frame, BindError>

  /** The registered functions, the code behind each compiled handle, and
      the `bind_frame` the scheduler calls. */
  datatype Program = Program(registry: Registry, code: Handle -> StepFn, bind: Binder)

  /** `bind_frame` of `src/trampoline.py`, on any signature. */
  function CurrentBinder(args: seq<Value>, kwargs: KwArgs, a: Arguments): (r: Result<Frame, BindError>)
    ensures r.Ok? ==> PC_LOCAL_NAME in r.value && r.value[PC_LOCAL_NAME] == VInt(0)
  {
    if !WellFormedArgs(a) then Err(TooManyDefaults)
    else
      match Bind(args, kwargs, a)
      case Err(e) => Err(e)
      case Ok(b) => Ok(b.frame)
  }

  /** `bind_frame` of `trampoline.py`, on any signature. */
  function LegacyBinder(args: seq<Value>, kwargs: KwArgs, a: Arguments): (r: Result<Frame, BindError>)
    ensures r.Ok? ==> PC_LOCAL_NAME in r.value && r.value[PC_LOCAL_NAME] == VInt(0)
  {
    if !WellFormedArgs(a) then Err(TooManyDefaults) else LegacyBind(args, kwargs, a)
  }

  /** Every registered definition has the shape Python's parser produces. */
  predicate ValidProgram(p: Program) {
    && (forall name | name in p.registry.byName :: WellFormedArgs(p.registry.byName[name].params))
    && (forall h | h in p.registry.byCompiled :: WellFormedArgs(p.registry.byCompiled[h].params))
  }

  /** The older scheduler: it reads both the entry function and every
      callee from one registry, `FIBER_FUNCTIONS`, which `fiber.py` does not
      define; here one map serves both lookups. The older binder is used,
      and no stack bound is checked (the bound is `None`). */
  ghost predicate LegacyProgram(p: Program) {
    p.bind == LegacyBinder && p.registry.byName == p.registry.byCompiled
  }

  datatype RunError =
    | UnknownCompiled(handle: Handle)   // `FIBER_FN_COMPILED_MAP[fn]` raises `KeyError`
    | UnknownFunction(name: string)     // `FIBER_FN_NAME_MAP[op.func]` raises `KeyError`
    | BindFailed(error: BindError)      // `bind_frame` raises `TypeError`
    | StackLimitExceeded                // `assert len(stack) <= __max_stack_size`
    | NoReturnSlot                      // `assert top.ret_variable is not None`
    | StepRaised(message: string)       // the step function raised
    | EmptyStack                        // `stack[-1]` raises `IndexError`

  /** `run` returns a value, raises, or has not finished within the turns
      the model allows. */
  datatype Outcome = Returned(value: Value) | Failed(error: RunError) | OutOfTurns

  /** A `StackFrame` as a value. */
  datatype FrameRec = FrameRec(frame: Frame, fn: Handle, retVariable: Option<string>)

  datatype TurnResult = Running(stack: seq<FrameRec>) | Halt(outcome: Outcome)

  /** The frame a call to `name` starts in: the registered function looked
      up by name, and a fresh frame bound from the arguments. */
  function Invoke(p: Program, name: string, args: seq<Value>, kwargs: KwArgs): (r: Result<FrameRec, RunError>)
    ensures r.Ok? ==> r.value.retVariable.None? && name in p.registry.byName && r.value.fn == p.registry.byName[name].fn
    ensures name !in p.registry.byName ==> r == Err(UnknownFunction(name))
  {
    if name !in p.registry.byName then Err(UnknownFunction(name))
    else
      var md := p.registry.byName[name];
      match p.bind(args, kwargs, md.params)
      case Err(e) => Err(BindFailed(e))
      case Ok(f) => Ok(FrameRec(f, md.fn, None))
  }

  /** A return value delivered to the frames below the one that returned. */
  function Deliver(below: seq<FrameRec>, v: Value): (r: TurnResult)
    ensures r.Running? ==> below != [] && |r.stack| == |below| && r.stack[..|below| - 1] == below[..|below| - 1]
    ensures below == [] <==> r == Halt(Returned(v))
  {
    if below == [] then Halt(Returned(v))
    else
      var caller := below[|below| - 1];
      if caller.retVariable.None? then Halt(Failed(NoReturnSlot))
      else Running(below[..|below| - 1] + [caller.(frame := caller.frame[caller.retVariable.value := v])])
  }

  /** What the scheduler does with the operation the top frame returned. */
  function Apply(p: Program, below: seq<FrameRec>, top: FrameRec, op: Op): (r: TurnResult)
    ensures r.Running? ==> r.stack != [] && |below| <= |r.stack| <= |below| + 2
  {
    match op
    case CallOp(name, args, kwargs, ret) =>
      (match Invoke(p, name, args, kwargs)
       case Err(e) => Halt(Failed(e))
       case Ok(callee) => Running(below + [top.(retVariable := Some(ret)), callee]))
    case TailCallOp(name, args, kwargs) =>
      (match Invoke(p, name, args, kwargs)
       case Err(e) => Halt(Failed(e))
       case Ok(callee) => Running(below + [callee]))
    case RetOp(v) => Deliver(below, v)
    case NoOp => Running(below + [top])
  }

  /** One iteration of the `while True` loop of `run`; `bound` is
      `__max_stack_size`, `None` standing for infinity. On an empty stack
      `stack[-1]` raises `IndexError`; the loop never reaches one. */
  function Turn(p: Program, stack: seq<FrameRec>, bound: Option<nat>): (r: TurnResult)
    ensures r.Running? ==> r.stack != [] && |stack| - 1 <= |r.stack| <= |stack| + 1
    ensures r.Running? ==> bound.None? || |stack| <= bound.value
  {
    if bound.Some? && |stack| > bound.value then Halt(Failed(StackLimitExceeded))
    else if stack == [] then Halt(Failed(EmptyStack))
    else
      var top := stack[|stack| - 1];
      match p.code(top.fn)(top.frame)
      case Raise(m) => Halt(Failed(StepRaised(m)))
      case Yield(frame, op) => Apply(p, stack[..|stack| - 1], top.(frame := frame), op)
  }

  /** The turn function of a program under a stack bound. */
  function Turner(p: Program, bound: Option<nat>): (seq<FrameRec> -> TurnResult)
  {
    stack => Turn(p, stack, bound)
  }

  // ---------------------------------------------------------------------
  // The loop, over any turn function
  // ---------------------------------------------------------------------

  /** At most `fuel` turns of the loop. */
  function Exec(turn: seq<FrameRec> -> TurnResult, stack: seq<FrameRec>, fuel: nat): Outcome
    decreases fuel
  {
    if fuel == 0 then OutOfTurns
    else
      match turn(stack)
      case Halt(o) => o
      case Running(s) => Exec(turn, s, fuel - 1)
  }

  /** The state after `n` turns. */
  function Steps(turn: seq<FrameRec> -> TurnResult, stack: seq<FrameRec>, n: nat): TurnResult
    decreases n
  {
    if n == 0 then Running(stack)
    else
      match turn(stack)
      case Halt(o) => Halt(o)
      case Running(s) => Steps(turn, s, n - 1)
  }

  /** `run(fn, args, kwargs, __max_stack_size=bound)`, allowed `fuel` turns. */
  function RunSpec(p: Program, fn: Handle, args: seq<Value>, kwargs: KwArgs, bound: Option<nat>, fuel: nat): Outcome
  {
    if fn !in p.registry.byCompiled then Failed(UnknownCompiled(fn))
    else
      match p.bind(args, kwargs, p.registry.byCompiled[fn].params)
      case Err(e) => Failed(BindFailed(e))
      case Ok(f) => Exec(Turner(p, bound), [FrameRec(f, fn, None)], fuel)
  }

  /** Running the first `n` turns and then the rest is running them all. */
  lemma {:induction false} ExecSteps(turn: seq<FrameRec> -> TurnResult, stack: seq<FrameRec>, n: nat, m: nat)
    ensures Exec(turn, stack, n + m) ==
      match Steps(turn, stack, n)
      case Halt(o) => o
      case Running(s) => Exec(turn, s, m)
    decreases n
  {
    if n > 0 {
      match turn(stack)
      case Halt(o) =>
      case Running(s) => ExecSteps(turn, s, n - 1, m);
    }
  }

  /** A run with turns left takes one turn first. */
  lemma ExecOneTurn(turn: seq<FrameRec> -> TurnResult, stack: seq<FrameRec>, fuel: nat)
    requires fuel > 0
    ensures turn(stack).Halt? ==> Exec(turn, stack, fuel) == turn(stack).outcome
    ensures turn(stack).Running? ==> Exec(turn, stack, fuel) == Exec(turn, turn(stack).stack, fuel - 1)
  {
  }

  /** The outcome of a run after a turn with result `t`. */
  lemma ExecTakesTurn(turn: seq<FrameRec> -> TurnResult, stack: seq<FrameRec>, fuel: nat, t: TurnResult, o: Outcome)
    requires fuel > 0 && turn(stack) == t && Exec(turn, stack, fuel) == o
    ensures t.Halt? ==> o == t.outcome
    ensures t.Running? ==> Exec(turn, t.stack, fuel - 1) == o
  {
  }

  /** The same, for the loop of a program. */
  lemma RunTakesTurn(p: Program, bound: Option<nat>, stack: seq<FrameRec>, fuel: nat, t: TurnResult, o: Outcome)
    requires fuel > 0 && Turn(p, stack, bound) == t && Exec(Turner(p, bound), stack, fuel) == o
    ensures t.Halt? ==> o == t.outcome
    ensures t.Running? ==> Exec(Turner(p, bound), t.stack, fuel - 1) == o
  {
    ExecTakesTurn(Turner(p, bound), stack, fuel, t, o);
  }

  /** `n + m` turns are `n` turns followed by `m` more. */
  lemma {:induction false} StepsSplit(turn: seq<FrameRec> -> TurnResult, stack: seq<FrameRec>, n: nat, m: nat)
    ensures Steps(turn, stack, n + m) ==
      match Steps(turn, stack, n)
      case Halt(o) => Halt(o)
      case Running(s) => Steps(turn, s, m)
    decreases n
  {
    if n > 0 {
      match turn(stack)
      case Halt(o) =>
      case Running(s) => StepsSplit(turn, s, n - 1, m);
    }
  }

  /** More turns never change an outcome that was already reached. */
  lemma {:induction false} ExecFuelMonotone(turn: seq<FrameRec> -> TurnResult, stack: seq<FrameRec>, fuel: nat, more: nat)
    requires Exec(turn, stack, fuel) != OutOfTurns
    ensures Exec(turn, stack, fuel + more) == Exec(turn, stack, fuel)
    decreases fuel
  {
    match turn(stack)
    case Halt(o) =>
    case Running(s) => ExecFuelMonotone(turn, s, fuel - 1, more);
  }

  // ---------------------------------------------------------------------
  // What each operation does to the stack
  // ---------------------------------------------------------------------

  /** A turn within the bound whose step function returned `op`. */
  predicate Yields(p: Program, stack: seq<FrameRec>, bound: Option<nat>, frame: Frame, op: Op) {
    && stack != []
    && (bound.None? || |stack| <= bound.value)
    && p.code(stack[|stack| - 1].fn)(stack[|stack| - 1].frame) == Yield(frame, op)
  }

  /** A turn only ever changes the top two frames. */
  lemma TurnKeepsLowerFrames(p: Program, stack: seq<FrameRec>, bound: Option<nat>)
    ensures Turn(p, stack, bound).Running? ==>
      forall i | 0 <= i < |stack| - 2 :: Turn(p, stack, bound).stack[i] == stack[i]
  {
  }

  /** `CallOp`: the caller stays, now waiting on `ret`, and the callee's
      fresh frame is pushed on top; a lookup or binding error ends the run. */
  lemma TurnOnCall(p: Program, stack: seq<FrameRec>, bound: Option<nat>, frame: Frame, name: string, args: seq<Value>, kwargs: KwArgs, ret: string)
    requires Yields(p, stack, bound, frame, CallOp(name, args, kwargs, ret))
    ensures var n, r := |stack|, Turn(p, stack, bound);
      match Invoke(p, name, args, kwargs)
      case Err(e) => r == Halt(Failed(e))
      case Ok(callee) =>
        && r.Running? && |r.stack| == n + 1
        && r.stack[..n - 1] == stack[..n - 1]
        && r.stack[n - 1] == stack[n - 1].(frame := frame, retVariable := Some(ret))
        && r.stack[n] == callee && callee.retVariable.None?
        && callee.fn == p.registry.byName[name].fn
  {
  }

  /** `TailCallOp`: the caller's frame is dropped and the callee's takes its
      place, so the stack keeps its depth. */
  lemma TurnOnTailCall(p: Program, stack: seq<FrameRec>, bound: Option<nat>, frame: Frame, name: string, args: seq<Value>, kwargs: KwArgs)
    requires Yields(p, stack, bound, frame, TailCallOp(name, args, kwargs))
    ensures var n, r := |stack|, Turn(p, stack, bound);
      match Invoke(p, name, args, kwargs)
      case Err(e) => r == Halt(Failed(e))
      case Ok(callee) =>
        && r.Running? && |r.stack| == n
        && r.stack[..n - 1] == stack[..n - 1]
        && r.stack[n - 1] == callee && callee.retVariable.None?
  {
  }

  /** `RetOp`: the top frame is popped; the last frame's value is the run's
      result, otherwise it lands in the caller's return slot. */
  lemma TurnOnReturn(p: Program, stack: seq<FrameRec>, bound: Option<nat>, frame: Frame, v: Value)
    requires Yields(p, stack, bound, frame, RetOp(v))
    ensures var n, r := |stack|, Turn(p, stack, bound);
      && (n == 1 ==> r == Halt(Returned(v)))
      && (n > 1 && stack[n - 2].retVariable.None? ==> r == Halt(Failed(NoReturnSlot)))
      && (n > 1 && stack[n - 2].retVariable.Some? ==>
            var caller := stack[n - 2];
            r == Running(stack[..n - 2] + [caller.(frame := caller.frame[caller.retVariable.value := v])]))
  {
    var n := |stack|;
    if n > 1 {
      assert stack[..n - 1][..n - 2] == stack[..n - 2];
    }
  }

  /** Any other value: the loop resumes the same frame. */
  lemma TurnOnOther(p: Program, stack: seq<FrameRec>, bound: Option<nat>, frame: Frame)
    requires Yields(p, stack, bound, frame, NoOp)
    ensures Turn(p, stack, bound) == Running(stack[..|stack| - 1] + [stack[|stack| - 1].(frame := frame)])
  {
  }

  /** Every frame below the top is waiting for a call it made to return. */
  predicate ReturnSlots(stack: seq<FrameRec>) {
    forall i | 0 <= i < |stack| - 1 :: stack[i].retVariable.Some?
  }

  /** A turn keeps every suspended caller's return slot. */
  lemma TurnKeepsReturnSlots(p: Program, stack: seq<FrameRec>, bound: Option<nat>)
    requires ReturnSlots(stack)
    ensures Turn(p, stack, bound) != Halt(Failed(NoReturnSlot))
    ensures Turn(p, stack, bound).Running? ==> ReturnSlots(Turn(p, stack, bound).stack)
  {
    var n := |stack|;
    if n >= 2 {
      assert stack[..n - 1][n - 2] == stack[n - 2];
    }
  }

  /** The `assert top.ret_variable is not None` of `run` never fails. */
  lemma {:induction false} ExecHasReturnSlots(p: Program, stack: seq<FrameRec>, bound: Option<nat>, fuel: nat)
    requires ReturnSlots(stack)
    ensures Exec(Turner(p, bound), stack, fuel) != Failed(NoReturnSlot)
    decreases fuel
  {
    if fuel > 0 {
      var t := Turn(p, stack, bound);
      assert Turner(p, bound)(stack) == t;
      TurnKeepsReturnSlots(p, stack, bound);
      if t.Running? {
        ExecHasReturnSlots(p, t.stack, bound, fuel - 1);
      }
    }
  }

  lemma RunHasReturnSlots(p: Program, fn: Handle, args: seq<Value>, kwargs: KwArgs, bound: Option<nat>, fuel: nat)
    ensures RunSpec(p, fn, args, kwargs, bound, fuel) != Failed(NoReturnSlot)
  {
    if fn in p.registry.byCompiled && p.bind(args, kwargs, p.registry.byCompiled[fn].params).Ok? {
      var f := p.bind(args, kwargs, p.registry.byCompiled[fn].params).value;
      ExecHasReturnSlots(p, [FrameRec(f, fn, None)], bound, fuel);
    }
  }

  /** Without a bound no turn fails on the depth of the stack. */
  lemma {:induction false} ExecUnbounded(p: Program, stack: seq<FrameRec>, fuel: nat)
    ensures Exec(Turner(p, None), stack, fuel) != Failed(StackLimitExceeded)
    decreases fuel
  {
    if fuel > 0 {
      var t := Turn(p, stack, None);
      assert Turner(p, None)(stack) == t;
      if t.Running? {
        ExecUnbounded(p, t.stack, fuel - 1);
      }
    }
  }

  /** The older `run` checks no bound: however deep the calls nest, it never
      fails on the size of its stack. */
  lemma LegacyRunUnbounded(p: Program, fn: Handle, args: seq<Value>, kwargs: KwArgs, fuel: nat)
    requires LegacyProgram(p)
    ensures RunSpec(p, fn, args, kwargs, None, fuel) != Failed(StackLimitExceeded)
  {
    if fn in p.registry.byCompiled && p.bind(args, kwargs, p.registry.byCompiled[fn].params).Ok? {
      var f := p.bind(args, kwargs, p.registry.byCompiled[fn].params).value;
      ExecUnbounded(p, [FrameRec(f, fn, None)], fuel);
    }
  }

  // ---------------------------------------------------------------------
  // `StackFrame` and the loop itself
  // ---------------------------------------------------------------------

  /** A suspended call: its frame, its step function, and the variable its
      pending call returns into. */
  class StackFrame {
    var frame: Frame
    var fn: Handle
    var retVariable: Option<string>

    constructor (frame: Frame, fn: Handle, retVariable: Option<string>)
      ensures this.frame == frame && this.fn == fn && this.retVariable == retVariable
    {
      this.frame := frame;
      this.fn := fn;
      this.retVariable := retVariable;
    }

    function Record(): FrameRec
      reads this
    {
      FrameRec(frame, fn, retVariable)
    }
  }

  /** The values the stack's frames hold, bottom first. */
  function Snapshot(stack: seq<StackFrame>): (r: seq<FrameRec>)
    reads stack
    ensures |r| == |stack| && forall i | 0 <= i < |stack| :: r[i] == stack[i].Record()
    decreases |stack|
  {
    if stack == [] then [] else Snapshot(stack[..|stack| - 1]) + [stack[|stack| - 1].Record()]
  }

  predicate DistinctFrames(stack: seq<StackFrame>) {
    forall i, j | 0 <= i < j < |stack| :: stack[i] != stack[j]
  }

  /** Looks up `name` and binds a fresh `StackFrame` for the call. */
  method InvokeFrame(p: Program, name: string, args: seq<Value>, kwargs: KwArgs) returns (r: Result<StackFrame, RunError>)
    ensures r.Ok? <==> Invoke(p, name, args, kwargs).Ok?
    ensures r.Ok? ==> fresh(r.value) && r.value.Record() == Invoke(p, name, args, kwargs).value
    ensures r.Err? ==> r.error == Invoke(p, name, args, kwargs).error
  {
    if name !in p.registry.byName {
      return Err(UnknownFunction(name));
    }
    var md := p.registry.byName[name];
    var b := p.bind(args, kwargs, md.params);
    if b.Err? {
      return Err(BindFailed(b.error));
    }
    var callee := new StackFrame(b.value, md.fn, None);
    return Ok(callee);
  }

  /** `stack.pop()` has happened; the value goes into the new top frame's
      return slot. */
  method DeliverStep(below: seq<StackFrame>, v: Value) returns (halt: Option<Outcome>)
    requires DistinctFrames(below)
    modifies below
    ensures Deliver(old(Snapshot(below)), v) == if halt.Some? then Halt(halt.value) else Running(Snapshot(below))
  {
    ghost var before := Snapshot(below);
    if below == [] {
      return Some(Returned(v));
    }
    var caller := below[|below| - 1];
    if caller.retVariable.None? {
      return Some(Failed(NoReturnSlot));
    }
    caller.frame := caller.frame[caller.retVariable.value := v];
    assert forall i | 0 <= i < |below| - 1 :: below[i].Record() == before[i];
    assert Snapshot(below) == before[..|below| - 1] + [caller.Record()];
    return None;
  }

  lemma ApplyCall(p: Program, below: seq<FrameRec>, top: FrameRec, name: string, args: seq<Value>, kwargs: KwArgs, ret: string)
    ensures Invoke(p, name, args, kwargs).Ok? ==>
      Apply(p, below, top, CallOp(name, args, kwargs, ret)) ==
        Running(below + [top.(retVariable := Some(ret)), Invoke(p, name, args, kwargs).value])
  {
  }

  /** `CallOp`: the top frame records where the result goes and the
      callee's fresh frame is pushed. */
  method CallStep(p: Program, below: seq<StackFrame>, top: StackFrame, name: string, args: seq<Value>, kwargs: KwArgs, ret: string)
    returns (next: seq<StackFrame>, halt: Option<Outcome>)
    requires DistinctFrames(below) && top !in below
    modifies top
    ensures DistinctFrames(next)
    ensures forall i | 0 <= i < |next| :: next[i] in below || next[i] == top || fresh(next[i])
    ensures Apply(p, old(Snapshot(below)), old(top.Record()), CallOp(name, args, kwargs, ret)) ==
      if halt.Some? then Halt(halt.value) else Running(Snapshot(next))
  {
    ghost var sb := Snapshot(below);
    ghost var rec := top.Record();
    var callee := InvokeFrame(p, name, args, kwargs);
    if callee.Err? {
      return below, Some(Failed(callee.error));
    }
    ApplyCall(p, sb, rec, name, args, kwargs, ret);
    next := PushCallee(below, top, callee.value, ret);
    halt := None;
  }

  /** `top.ret_variable = op.ret_variable` and `stack.append(callee)`. */
  method PushCallee(below: seq<StackFrame>, top: StackFrame, callee: StackFrame, ret: string) returns (next: seq<StackFrame>)
    requires DistinctFrames(below) && top !in below && callee !in below && callee != top
    modifies top
    ensures next == below + [top, callee] && DistinctFrames(next)
    ensures Snapshot(next) == old(Snapshot(below)) + [old(top.Record()).(retVariable := Some(ret)), callee.Record()]
  {
    ghost var sb := Snapshot(below);
    ghost var rec := top.Record();
    top.retVariable := Some(ret);
    next := below + [top, callee];
    ghost var want := sb + [rec.(retVariable := Some(ret)), callee.Record()];
    forall i | 0 <= i < |next| ensures next[i].Record() == want[i] {
      if i < |below| {
        assert next[i] == below[i] && below[i] != top;
      }
    }
    assert Snapshot(next) == want;
  }

  /** `TailCallOp`: the top frame is replaced by the callee's fresh frame. */
  method TailCallStep(p: Program, below: seq<StackFrame>, top: StackFrame, name: string, args: seq<Value>, kwargs: KwArgs)
    returns (next: seq<StackFrame>, halt: Option<Outcome>)
    requires DistinctFrames(below)
    ensures DistinctFrames(next)
    ensures forall i | 0 <= i < |next| :: next[i] in below || fresh(next[i])
    ensures Apply(p, Snapshot(below), top.Record(), TailCallOp(name, args, kwargs)) ==
      if halt.Some? then Halt(halt.value) else Running(Snapshot(next))
  {
    var callee := InvokeFrame(p, name, args, kwargs);
    if callee.Err? {
      return below, Some(Failed(callee.error));
    }
    next, halt := below + [callee.value], None;
    assert Snapshot(next) == Snapshot(below) + [callee.value.Record()];
  }

  /** Putting the top frame back on the frames below it. */
  lemma PushFrame(below: seq<StackFrame>, top: StackFrame)
    requires DistinctFrames(below) && top !in below
    ensures DistinctFrames(below + [top])
    ensures Snapshot(below + [top]) == Snapshot(below) + [top.Record()]
    ensures forall i | 0 <= i < |below| + 1 :: (below + [top])[i] in below || (below + [top])[i] == top
  {
    assert (below + [top])[..|below|] == below;
  }

  /** The scheduler's reaction to `op`, on the frames below the top and the
      top frame itself. */
  method ApplyStep(p: Program, below: seq<StackFrame>, top: StackFrame, op: Op) returns (next: seq<StackFrame>, halt: Option<Outcome>)
    requires DistinctFrames(below) && top !in below
    modifies top, below
    ensures DistinctFrames(next)
    ensures forall i | 0 <= i < |next| :: next[i] in below || next[i] == top || fresh(next[i])
    ensures Apply(p, old(Snapshot(below)), old(top.Record()), op) == if halt.Some? then Halt(halt.value) else Running(Snapshot(next))
  {
    match op
    case CallOp(name, args, kwargs, ret) =>
      next, halt := CallStep(p, below, top, name, args, kwargs, ret);
    case TailCallOp(name, args, kwargs) =>
      next, halt := TailCallStep(p, below, top, name, args, kwargs);
    case RetOp(v) =>
      next := below;
      halt := DeliverStep(below, v);
    case NoOp =>
      next, halt := below + [top], None;
      PushFrame(below, top);
  }

  /** One turn on the stack of `StackFrame` objects: the top frame's step
      function runs and updates its frame in place, then the scheduler acts
      on the operation it returned. */
  method TurnStep(p: Program, stack: seq<StackFrame>, bound: Option<nat>, ghost before: seq<FrameRec>) returns (next: seq<StackFrame>, halt: Option<Outcome>)
    requires stack != [] && DistinctFrames(stack) && before == Snapshot(stack)
    modifies stack
    ensures DistinctFrames(next)
    ensures forall i | 0 <= i < |next| :: next[i] in stack || fresh(next[i])
    ensures Turn(p, before, bound) == if halt.Some? then Halt(halt.value) else Running(Snapshot(next))
  {
    if bound.Some? && |stack| > bound.value {
      return stack, Some(Failed(StackLimitExceeded));
    }
    var top := stack[|stack| - 1];
    var below := stack[..|stack| - 1];
    match p.code(top.fn)(top.frame)
    case Raise(m) =>
      next, halt := stack, Some(Failed(StepRaised(m)));
    case Yield(frame, op) =>
      top.frame := frame;
      assert Snapshot(below) == before[..|stack| - 1];
      assert top.Record() == before[|stack| - 1].(frame := frame);
      next, halt := ApplyStep(p, below, top, op);
  }

  /** `run(fn, args, kwargs, __max_stack_size=bound)`, stopped after `fuel`
      turns. */
  method Run(p: Program, fn: Handle, args: seq<Value>, kwargs: KwArgs, bound: Option<nat>, fuel: nat) returns (r: Outcome)
    ensures r == RunSpec(p, fn, args, kwargs, bound, fuel)
  {
    if fn !in p.registry.byCompiled {
      return Failed(UnknownCompiled(fn));
    }
    var b := p.bind(args, kwargs, p.registry.byCompiled[fn].params);
    if b.Err? {
      return Failed(BindFailed(b.error));
    }
    var first := new StackFrame(b.value, fn, None);
    assert Snapshot([first]) == [FrameRec(b.value, fn, None)];
    r := Loop(p, [first], bound, fuel);
  }

  /** The `while True` loop of `run` on a stack of fresh frames, stopped
      after `fuel` turns. */
  method Loop(p: Program, stack0: seq<StackFrame>, bound: Option<nat>, fuel: nat) returns (r: Outcome)
    requires stack0 != [] && DistinctFrames(stack0)
    modifies stack0
    ensures r == Exec(Turner(p, bound), old(Snapshot(stack0)), fuel)
  {
    ghost var turn := Turner(p, bound);
    ghost var cur := Snapshot(stack0);
    ghost var goal := Exec(turn, cur, fuel);
    var stack := stack0;
    var turns := 0;
    while turns < fuel
      invariant turns <= fuel
      invariant stack != [] && DistinctFrames(stack)
      invariant forall i | 0 <= i < |stack| :: stack[i] in stack0 || fresh(stack[i])
      invariant cur == Snapshot(stack)
      invariant Exec(turn, cur, fuel - turns) == goal
    {
      ghost var k := fuel - turns;
      var halt;
      stack, halt := TurnStep(p, stack, bound, cur);
      ghost var t := if halt.Some? then Halt(halt.value) else Running(Snapshot(stack));
      RunTakesTurn(p, bound, cur, k, t, goal);
      if halt.Some? {
        return halt.value;
      }
      cur := Snapshot(stack);
      turns := turns + 1;
    }
    return OutOfTurns;
  }
}
