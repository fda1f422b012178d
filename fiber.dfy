/** The fiber compiler's driver (`fiber.py`): the operations a step function
    returns to the scheduler, the registry of compiled functions, and the
    passes that find resume points and emit the operations. */
module Fiber {
  import opened Wrappers
  import opened PyAst
  import opened Utils
  import opened Jumps

  // ---------------------------------------------------------------------
  // Runtime values and the operations a step function returns
  // ---------------------------------------------------------------------

  /** The Python values the model's frames hold. A dict lists its entries in
      insertion order, each key once. `VNode` is an AST node stored as a
      value (what a positional default is bound to). */
  datatype Value =
    | VInt(i: int)
    | VBool(b: bool)
    | VStr(s: string)
    | VNone
    | VList(items: seq<Value>)
    | VDict(entries: seq<(Value, Value)>)
    | VNode(node: Expr)

  /** A frame: the local variables of one suspended call, `__pc` included. */
  type Frame = map<string, Value>

  /** A keyword-argument dict, in insertion order. */
  type KwArgs = seq<(string, Value)>

  /** The name under which a compiled step function is known to the scheduler. */
  type Handle = string

  /** `CallOp`, `TailCallOp` and `RetOp`; `NoOp` stands for any other value
      a step function may return (`None` when no guard matched). */
  datatype Op =
    | CallOp(func: string, args: seq<Value>, kwargs: KwArgs, retVariable: string)
    | TailCallOp(func: string, args: seq<Value>, kwargs: KwArgs)
    | RetOp(value: Value)
    | NoOp

  /** `FiberMetadata`: the original definition's parameters and the compiled
      step function. */
  datatype Metadata = Metadata(params: Arguments, fn: Handle)

  /** `FIBER_FN_NAME_MAP` and `FIBER_FN_COMPILED_MAP`, passed explicitly. */
  datatype Registry = Registry(byName: map<string, Metadata>, byCompiled: map<Handle, Metadata>)

  // ---------------------------------------------------------------------
  // fn_call_names
  // ---------------------------------------------------------------------

  /** The names in `fns` called anywhere inside `e`. `ast.walk` visits every
      node; only which names occur matters to its one caller. */
  function CallNames(e: Expr, fns: set<string>): (r: set<string>)
    ensures r <= fns
    ensures e.Call? && e.func.Name? && e.func.id in fns ==> e.func.id in r
    decreases e
  {
    match e
    case Name(_, _) => {}
    case Const(_) => {}
    case Call(f, args, kws) =>
      (if f.Name? && f.id in fns then {f.id} else {}) + CallNames(f, fns)
      + (set i, n | 0 <= i < |args| && n in CallNames(args[i], fns) :: n)
      + (set i, n | 0 <= i < |kws| && n in CallNames(kws[i].value, fns) :: n)
    case BinOp(l, _, r) => CallNames(l, fns) + CallNames(r, fns)
    case BoolOp(_, vs) => set i, n | 0 <= i < |vs| && n in CallNames(vs[i], fns) :: n
    case Not(x) => CallNames(x, fns)
    case Compare(l, _, cs) =>
      CallNames(l, fns) + (set i, n | 0 <= i < |cs| && n in CallNames(cs[i], fns) :: n)
    case Subscript(v, sl, _) => CallNames(v, fns) + CallNames(sl, fns)
    case ListExpr(es) => set i, n | 0 <= i < |es| && n in CallNames(es[i], fns) :: n
    case DictExpr(ks, vs) =>
      (set i, n | 0 <= i < |ks| && ks[i].Some? && n in CallNames(ks[i].value, fns) :: n)
      + (set i, n | 0 <= i < |vs| && n in CallNames(vs[i], fns) :: n)
  }

  /** `fn_call_names(stmt, fns)` as a set: the walk descends into nested
      bodies, `orelse` lists and parameter defaults too. */
  function StmtCallNames(s: Stmt, fns: set<string>): (r: set<string>)
    ensures r <= fns
    decreases s
  {
    match s
    case FunctionDef(_, a, body) =>
      (set i, n | 0 <= i < |a.kwDefaults| && a.kwDefaults[i].Some? && n in CallNames(a.kwDefaults[i].value, fns) :: n)
      + (set i, n | 0 <= i < |a.defaults| && n in CallNames(a.defaults[i], fns) :: n)
      + (set i, n | 0 <= i < |body| && n in StmtCallNames(body[i], fns) :: n)
    case Assign(ts, v) =>
      (set i, n | 0 <= i < |ts| && n in CallNames(ts[i], fns) :: n) + CallNames(v, fns)
    case ExprStmt(v) => CallNames(v, fns)
    case Return(v) => CallNames(v, fns)
    case If(t, body, orelse) =>
      CallNames(t, fns)
      + (set i, n | 0 <= i < |body| && n in StmtCallNames(body[i], fns) :: n)
      + (set i, n | 0 <= i < |orelse| && n in StmtCallNames(orelse[i], fns) :: n)
    case While(t, body, orelse) =>
      CallNames(t, fns)
      + (set i, n | 0 <= i < |body| && n in StmtCallNames(body[i], fns) :: n)
      + (set i, n | 0 <= i < |orelse| && n in StmtCallNames(orelse[i], fns) :: n)
    case For(tg, it, body, orelse) =>
      CallNames(tg, fns) + CallNames(it, fns)
      + (set i, n | 0 <= i < |body| && n in StmtCallNames(body[i], fns) :: n)
      + (set i, n | 0 <= i < |orelse| && n in StmtCallNames(orelse[i], fns) :: n)
    // the `try` statement holds `target = next(it)`
    case ForAdvance(tg, _, _) => CallNames(tg, fns) + (if "next" in fns then {"next"} else {})
    case Global(_) => {}
    case Break => {}
    case Continue => {}
    case Pass => {}
  }

  // ---------------------------------------------------------------------
  // make_prev_dict
  // ---------------------------------------------------------------------

  /** A statement's position: the indices taken through successive `body`
      lists. The dictionary of the source is keyed by statement identity;
      a position names one statement occurrence in the same way. */
  type Path = seq<nat>

  /** `key` lies strictly below `at`. */
  predicate Under(at: Path, key: Path) {
    |at| < |key| && key[..|at|] == at
  }

  /** The predecessor recorded for the statement at `key`, read straight
      off the tree: the statement just before it in the same `body`. The
      source reaches nested blocks through `utils.is_block`, taken here to
      be "owns a `body`". */
  function PrevOf(block: Stmt, key: Path): Option<Stmt>
    decreases |key|
  {
    if key == [] || !HasBody(block) || key[0] >= |block.body| then None
    else if |key| == 1 then (if key[0] == 0 then None else Some(block.body[key[0] - 1]))
    else PrevOf(block.body[key[0]], key[1..])
  }

  /** A path through nested bodies. */
  predicate InBodies(s: Stmt, p: Path)
    decreases |p|
  {
    p == [] || (HasBody(s) && p[0] < |s.body| && InBodies(s.body[p[0]], p[1..]))
  }

  function StmtAt(s: Stmt, p: Path): Stmt
    requires InBodies(s, p)
    decreases |p|
  {
    if p == [] then s else StmtAt(s.body[p[0]], p[1..])
  }

  /** Every statement that is not first in its body has its predecessor
      recorded; first statements, `orelse` statements and the block itself
      have no entry. */
  lemma {:induction false} PrevOfIsPredecessor(block: Stmt, p: Path, i: nat)
    requires InBodies(block, p) && HasBody(StmtAt(block, p)) && i < |StmtAt(block, p).body|
    ensures i == 0 ==> PrevOf(block, p + [i]) == None
    ensures i > 0 ==> PrevOf(block, p + [i]) == Some(StmtAt(block, p).body[i - 1])
    decreases |p|
  {
    if p != [] {
      assert (p + [i])[1..] == p[1..] + [i];
      PrevOfIsPredecessor(block.body[p[0]], p[1..], i);
    }
  }

  /** Conversely, every recorded entry is such a predecessor. */
  lemma {:induction false} PrevOfOnlyPredecessors(block: Stmt, key: Path)
    requires PrevOf(block, key).Some?
    ensures key != [] && key[|key| - 1] > 0
    ensures InBodies(block, key[..|key| - 1]) && HasBody(StmtAt(block, key[..|key| - 1]))
    ensures key[|key| - 1] < |StmtAt(block, key[..|key| - 1]).body|
    ensures PrevOf(block, key).value == StmtAt(block, key[..|key| - 1]).body[key[|key| - 1] - 1]
    decreases |key|
  {
    if |key| > 1 {
      var rest := key[1..];
      PrevOfOnlyPredecessors(block.body[key[0]], rest);
      assert key[..|key| - 1] == [key[0]] + rest[..|rest| - 1];
      assert key[..|key| - 1][1..] == rest[..|rest| - 1];
    }
  }

  /** `make_prev_dict(block)`. */
  method MakePrevDict(block: Stmt) returns (prev: map<Path, Stmt>)
    requires HasBody(block)
    ensures forall key :: key in prev <==> PrevOf(block, key).Some?
    ensures forall key | key in prev :: prev[key] == PrevOf(block, key).value
  {
    prev := PrevHelper(block, [], map[]);
    forall key ensures key in prev <==> PrevOf(block, key).Some? {
      assert key[0..] == key;
      if key != [] {
        assert Under([], key);
      }
    }
    forall key | key in prev ensures prev[key] == PrevOf(block, key).value {
      assert key[0..] == key;
    }
  }

  /** `helper(block)` for the block at position `at`: record the
      predecessor of every non-first statement of its body, then descend
      into the statements that own a body. */
  method PrevHelper(block: Stmt, at: Path, prev0: map<Path, Stmt>) returns (prev: map<Path, Stmt>)
    requires HasBody(block)
    requires forall key | key in prev0 :: !Under(at, key)
    ensures Keeps(prev0, prev)
    ensures forall key | key in prev :: key in prev0 || Under(at, key)
    ensures forall key | Under(at, key) :: key in prev <==> PrevOf(block, key[|at|..]).Some?
    ensures forall key | key in prev && Under(at, key) :: prev[key] == PrevOf(block, key[|at|..]).value
    decreases block, 1
  {
    var body := block.body;
    var siblings := RecordSiblings(body, at, prev0);
    prev := DescendBlocks(block, at, prev0, siblings);
    forall key | Under(at, key)
      ensures key in prev <==> PrevOf(block, key[|at|..]).Some?
      ensures key in prev ==> prev[key] == PrevOf(block, key[|at|..]).value
    {
      PrevOfUnder(block, at, key, prev0, prev);
    }
  }

  /** The first loop of `helper`: each statement after the first is keyed
      to the one before it. The assertion of the source holds: no key below
      `at` was recorded before. */
  method RecordSiblings(body: seq<Stmt>, at: Path, prev0: map<Path, Stmt>) returns (prev: map<Path, Stmt>)
    requires forall key | key in prev0 :: !Under(at, key)
    ensures Keeps(prev0, prev) && SiblingsRecorded(body, at, prev)
    ensures forall key | key in prev :: key in prev0 || Direct(at, key, |body|)
  {
    prev := prev0;
    var i := 0;
    while i < |body|
      invariant 0 <= i <= |body|
      invariant Keeps(prev0, prev)
      invariant forall key | key in prev :: key in prev0 || Direct(at, key, i)
      invariant forall j | 1 <= j < i :: at + [j] in prev && prev[at + [j]] == body[j - 1]
    {
      if 0 <= i - 1 {
        assert Under(at, at + [i]) && (at + [i])[|at|] == i;
        assert at + [i] !in prev;
        prev := prev[at + [i] := body[i - 1]];
      }
      i := i + 1;
    }
  }

  /** The second loop of `helper`: every statement of the body that owns a
      body of its own is visited in turn. */
  method DescendBlocks(block: Stmt, at: Path, prev0: map<Path, Stmt>, siblings: map<Path, Stmt>)
    returns (prev: map<Path, Stmt>)
    requires HasBody(block)
    requires forall key | key in prev0 :: !Under(at, key)
    requires Keeps(prev0, siblings) && SiblingsRecorded(block.body, at, siblings)
    requires forall key | key in siblings :: key in prev0 || Direct(at, key, |block.body|)
    ensures Keeps(prev0, prev) && SiblingsRecorded(block.body, at, prev)
    ensures forall key | key in prev :: key in prev0 || Direct(at, key, |block.body|) || Deep(at, key, |block.body|)
    ensures DeepAgrees(block.body, at, prev, |block.body|)
    decreases block, 0
  {
    var body := block.body;
    prev := siblings;
    var i := 0;
    while i < |body|
      invariant 0 <= i <= |body|
      invariant Keeps(prev0, prev) && SiblingsRecorded(body, at, prev)
      invariant forall key | key in prev :: key in prev0 || Direct(at, key, |body|) || Deep(at, key, i)
      invariant DeepAgrees(body, at, prev, i)
    {
      if HasBody(body[i]) {
        ghost var before := prev;
        forall key | key in before ensures !Under(at + [i], key) {
          UnderChild(at, i, key);
        }
        prev := PrevHelper(body[i], at + [i], prev);
        DescendStep(body, at, i, prev0, before, prev);
      } else {
        DescendSkip(body, at, i, prev0, prev);
      }
      i := i + 1;
    }
  }

  /** The old entries are kept unchanged. */
  ghost predicate Keeps(prev0: map<Path, Stmt>, prev: map<Path, Stmt>) {
    forall key | key in prev0 :: key in prev && prev[key] == prev0[key]
  }

  ghost predicate SiblingsRecorded(body: seq<Stmt>, at: Path, prev: map<Path, Stmt>) {
    forall j | 1 <= j < |body| :: at + [j] in prev && prev[at + [j]] == body[j - 1]
  }

  /** Below the first `i` statements of the body at `at`, the entries are
      exactly those `PrevOf` reads off each statement. */
  ghost predicate DeepAgrees(body: seq<Stmt>, at: Path, prev: map<Path, Stmt>, i: nat) {
    i <= |body| &&
    forall key | Deep(at, key, i) ::
      (key in prev <==> PrevOf(body[key[|at|]], key[|at| + 1..]).Some?) &&
      (key in prev ==> prev[key] == PrevOf(body[key[|at|]], key[|at| + 1..]).value)
  }

  /** A direct entry of the body at `at`. */
  predicate Direct(at: Path, key: Path, n: nat) {
    Under(at, key) && |key| == |at| + 1 && 1 <= key[|at|] < n
  }

  /** An entry below one of the first `i` statements of the body at `at`. */
  predicate Deep(at: Path, key: Path, i: nat) {
    Under(at, key) && |key| > |at| + 1 && key[|at|] < i
  }

  /** A key below `at + [i]` is a deep key under `at` through statement `i`. */
  lemma UnderChild(at: Path, i: nat, key: Path)
    ensures Under(at + [i], key) <==> Deep(at, key, i + 1) && key[|at|] == i
    ensures Under(at + [i], key) ==> key[|at + [i]|..] == key[|at| + 1..]
  {
    if Under(at + [i], key) {
      assert key[..|at|] == (at + [i])[..|at|];
      assert key[|at|] == (at + [i])[|at|];
    }
    if Deep(at, key, i + 1) && key[|at|] == i {
      assert key[..|at| + 1] == key[..|at|] + [key[|at|]];
    }
  }

  lemma DescendStep(body: seq<Stmt>, at: Path, i: nat, prev0: map<Path, Stmt>,
                    before: map<Path, Stmt>, prev: map<Path, Stmt>)
    requires i < |body| && HasBody(body[i])
    requires Keeps(prev0, before) && SiblingsRecorded(body, at, before)
    requires forall key | key in before :: key in prev0 || Direct(at, key, |body|) || Deep(at, key, i)
    requires DeepAgrees(body, at, before, i)
    requires Keeps(before, prev)
    requires forall key | key in prev :: key in before || Under(at + [i], key)
    requires forall key | Under(at + [i], key) :: key in prev <==> PrevOf(body[i], key[|at + [i]|..]).Some?
    requires forall key | key in prev && Under(at + [i], key) :: prev[key] == PrevOf(body[i], key[|at + [i]|..]).value
    ensures Keeps(prev0, prev) && SiblingsRecorded(body, at, prev)
    ensures forall key | key in prev :: key in prev0 || Direct(at, key, |body|) || Deep(at, key, i + 1)
    ensures DeepAgrees(body, at, prev, i + 1)
  {
    forall key | key in prev ensures key in prev0 || Direct(at, key, |body|) || Deep(at, key, i + 1) {
      UnderChild(at, i, key);
    }
    forall key | Deep(at, key, i + 1)
      ensures key in prev <==> PrevOf(body[key[|at|]], key[|at| + 1..]).Some?
      ensures key in prev ==> prev[key] == PrevOf(body[key[|at|]], key[|at| + 1..]).value
    {
      UnderChild(at, i, key);
      if key[|at|] < i {
        assert Deep(at, key, i);
        assert !Under(at + [i], key);
      }
    }
  }

  lemma DescendSkip(body: seq<Stmt>, at: Path, i: nat, prev0: map<Path, Stmt>, prev: map<Path, Stmt>)
    requires i < |body| && !HasBody(body[i])
    requires forall key | key in prev0 :: !Under(at, key)
    requires forall key | key in prev :: key in prev0 || Direct(at, key, |body|) || Deep(at, key, i)
    requires DeepAgrees(body, at, prev, i)
    ensures forall key | key in prev :: key in prev0 || Direct(at, key, |body|) || Deep(at, key, i + 1)
    ensures DeepAgrees(body, at, prev, i + 1)
  {
    forall key | Deep(at, key, i + 1)
      ensures key in prev <==> PrevOf(body[key[|at|]], key[|at| + 1..]).Some?
      ensures key in prev ==> prev[key] == PrevOf(body[key[|at|]], key[|at| + 1..]).value
    {
      if key[|at|] < i {
        assert Deep(at, key, i);
      } else {
        assert key !in prev0;
      }
    }
  }

  /** After both loops, the entries below `at` are what `PrevOf` reads off
      the block. */
  lemma PrevOfUnder(block: Stmt, at: Path, key: Path, prev0: map<Path, Stmt>, prev: map<Path, Stmt>)
    requires HasBody(block) && Under(at, key)
    requires forall key | key in prev0 :: !Under(at, key)
    requires SiblingsRecorded(block.body, at, prev)
    requires forall key | key in prev :: key in prev0 || Direct(at, key, |block.body|) || Deep(at, key, |block.body|)
    requires DeepAgrees(block.body, at, prev, |block.body|)
    ensures key in prev <==> PrevOf(block, key[|at|..]).Some?
    ensures key in prev ==> prev[key] == PrevOf(block, key[|at|..]).value
  {
    var body := block.body;
    var rel := key[|at|..];
    var j := key[|at|];
    assert rel[0] == j;
    if j >= |body| {
      assert PrevOf(block, rel) == None;
      assert !Direct(at, key, |body|) && !Deep(at, key, |body|);
      assert key !in prev0;
    } else if |key| == |at| + 1 {
      assert key == at + [j] by {
        assert key == key[..|at|] + [j];
      }
      assert PrevOf(block, rel) == if j == 0 then None else Some(body[j - 1]);
      assert !Deep(at, key, |body|);
      assert j == 0 ==> !Direct(at, key, |body|);
    } else {
      assert rel[1..] == key[|at| + 1..];
      assert PrevOf(block, rel) == PrevOf(body[j], key[|at| + 1..]);
      assert Deep(at, key, |body|);
    }
  }

  // ---------------------------------------------------------------------
  // needs_jump
  // ---------------------------------------------------------------------

  /** `needs_jump(stmt, prev_dict, fns)` for the statement at `key`;
      `registered` holds the names of `FIBER_FN_NAME_MAP`. */
  function NeedsJump(key: Path, prev: map<Path, Stmt>, fns: set<string>, registered: set<string>): bool {
    if key !in prev then false
    else
      var calls := StmtCallNames(prev[key], fns);
      if calls == {} then false
      else if exists name | name in calls :: !(name in registered || name in fns) then false
      else !IsTailCall(prev[key])
  }

  /** A jump target follows a statement that calls a function of `fns` and
      is not itself `return <call>`. The registry test of the source's loop
      never decides anything: every name it sees is in `fns`. */
  lemma NeedsJumpIff(key: Path, prev: map<Path, Stmt>, fns: set<string>, registered: set<string>)
    ensures NeedsJump(key, prev, fns, registered)
        <==> key in prev && StmtCallNames(prev[key], fns) != {} && !IsTailCall(prev[key])
  {
  }

  /** The statement after a non-tail call to a function of `fns` is a
      jump target; one after `return f(..)` is not. */
  lemma NeedsJumpAfterCall(block: Stmt, p: Path, i: nat, fns: set<string>, registered: set<string>, prev: map<Path, Stmt>)
    requires forall key :: key in prev <==> PrevOf(block, key).Some?
    requires forall key | key in prev :: prev[key] == PrevOf(block, key).value
    requires InBodies(block, p) && HasBody(StmtAt(block, p)) && 0 < i < |StmtAt(block, p).body|
    ensures NeedsJump(p + [i], prev, fns, registered)
        <==> StmtCallNames(StmtAt(block, p).body[i - 1], fns) != {} && !IsTailCall(StmtAt(block, p).body[i - 1])
  {
    PrevOfIsPredecessor(block, p, i);
    NeedsJumpIff(p + [i], prev, fns, registered);
  }

  // ---------------------------------------------------------------------
  // The statement classifiers
  // ---------------------------------------------------------------------

  /** `matches_call`: a call whose callee is a plain name in `fns`. */
  predicate MatchesCall(call: Expr, fns: set<string>) {
    call.Call? && call.func.Name? && call.func.id in fns
  }

  /** A subscript of the variable `frame`. */
  predicate IsFrameSlot(t: Expr) {
    t.Subscript? && t.value.Name? && t.value.id == "frame"
  }

  /** `matches_callop`: `frame[...] = f(...)` with `f` in `fns`. */
  predicate MatchesCallop(s: Stmt, fns: set<string>) {
    s.Assign? && |s.targets| == 1 && IsFrameSlot(s.targets[0]) && MatchesCall(s.value, fns)
  }

  /** `matches_tailcallop`: `return f(...)` with `f` in `fns`. */
  predicate MatchesTailcallop(s: Stmt, fns: set<string>) {
    s.Return? && MatchesCall(s.value, fns)
  }

  /** `matches_retop`: any `return`. */
  predicate MatchesRetop(s: Stmt, fns: set<string>) {
    s.Return?
  }

  /** `is_pc_assign`: `frame['__pc'] = <int constant>`; Python's `bool` is
      an `int`, so a boolean constant passes too. */
  predicate IsPcAssign(s: Stmt) {
    s.Assign? && |s.targets| == 1 && IsFrameSlot(s.targets[0])
    && s.targets[0].slice == Const(LStr(PC_LOCAL_NAME))
    && s.value.Const? && (s.value.lit.LInt? || s.value.lit.LBool?)
  }

  /** `is_tail_call`: a `return` of any call. */
  predicate IsTailCall(s: Stmt) {
    s.Return? && s.value.Call?
  }

  /** `is_tail_call` does not look at the callee; `matches_tailcallop`
      does, and adds exactly the test that it is a name in `fns`. */
  lemma TailCallopIsTailCall(s: Stmt, fns: set<string>)
    ensures MatchesTailcallop(s, fns) <==> IsTailCall(s) && s.value.func.Name? && s.value.func.id in fns
    ensures IsTailCall(Return(Call(Lookup("g"), [], []))) && !MatchesTailcallop(Return(Call(Lookup("g"), [], [])), {})
  {
  }

  /** A pc assignment is neither a call operation nor a return. */
  lemma PcAssignIsNoOp(s: Stmt, fns: set<string>)
    requires IsPcAssign(s)
    ensures !MatchesCallop(s, fns) && !MatchesTailcallop(s, fns) && !MatchesRetop(s, fns) && !HasBody(s)
  {
  }

  // ---------------------------------------------------------------------
  // The emitted operations
  // ---------------------------------------------------------------------

  /** `return Op(k1=v1, ...)`. */
  function ReturnOp(op: string, keywords: seq<Keyword>): Stmt {
    Return(Call(Lookup(op), [], keywords))
  }

  /** The `kwargs` dict of an operation: keyword names as string keys. */
  function KwargsDict(kws: seq<Keyword>): (d: Expr)
    ensures d.DictExpr? && |d.keys| == |d.values| == |kws|
  {
    DictExpr(seq(|kws|, i requires 0 <= i < |kws| => Some(Const(LStr(kws[i].arg)))),
             seq(|kws|, i requires 0 <= i < |kws| => kws[i].value))
  }

  /** `make_callop_expr(variable, call)`; the source reads `call.func.id`. */
  function MakeCallopExpr(variable: Expr, call: Expr): Stmt
    requires call.Call? && call.func.Name?
  {
    ReturnOp("CallOp", [
      Keyword("func", Const(LStr(call.func.id))),
      Keyword("args", ListExpr(call.args)),
      Keyword("kwargs", KwargsDict(call.keywords)),
      Keyword("ret_variable", variable)])
  }

  /** `make_tailcallop_expr(call)`. */
  function MakeTailcallopExpr(call: Expr): Stmt
    requires call.Call? && call.func.Name?
  {
    ReturnOp("TailCallOp", [
      Keyword("func", Const(LStr(call.func.id))),
      Keyword("args", ListExpr(call.args)),
      Keyword("kwargs", KwargsDict(call.keywords))])
  }

  /** `make_retop_expr(value)`. */
  function MakeRetopExpr(value: Expr): Stmt {
    ReturnOp("RetOp", [Keyword("value", value)])
  }

  /** What an emitted operation statement carries, read back. */
  datatype OpShape =
    | CallShape(func: string, args: seq<Expr>, keywords: seq<Keyword>, retVariable: Expr)
    | TailCallShape(func: string, args: seq<Expr>, keywords: seq<Keyword>)
    | RetShape(value: Expr)

  /** The keywords a `kwargs` dict was built from, if every key is a string
      constant. */
  function ReadKwargs(d: Expr): (r: Option<seq<Keyword>>)
    ensures r.Some? ==> d.DictExpr? && |r.value| == |d.keys|
  {
    if d.DictExpr? && |d.keys| == |d.values|
       && forall i | 0 <= i < |d.keys| :: d.keys[i].Some? && d.keys[i].value.Const? && d.keys[i].value.lit.LStr?
    then Some(seq(|d.keys|, i requires 0 <= i < |d.keys| && d.keys[i].Some? && d.keys[i].value.Const? && d.keys[i].value.lit.LStr? =>
           Keyword(d.keys[i].value.lit.s, d.values[i])))
    else None
  }

  /** Reads an emitted `return Op(...)` statement back into its parts. */
  function ReadOp(s: Stmt): Option<OpShape> {
    if !(s.Return? && s.value.Call? && s.value.func.Name? && s.value.func.ctx == Load && s.value.args == []) then None
    else
      var kws := s.value.keywords;
      match s.value.func.id
      case "CallOp" =>
        if |kws| == 4 && kws[0].arg == "func" && kws[1].arg == "args" && kws[2].arg == "kwargs"
           && kws[3].arg == "ret_variable" && kws[0].value.Const? && kws[0].value.lit.LStr?
           && kws[1].value.ListExpr? && ReadKwargs(kws[2].value).Some?
        then Some(CallShape(kws[0].value.lit.s, kws[1].value.elts, ReadKwargs(kws[2].value).value, kws[3].value))
        else None
      case "TailCallOp" =>
        if |kws| == 3 && kws[0].arg == "func" && kws[1].arg == "args" && kws[2].arg == "kwargs"
           && kws[0].value.Const? && kws[0].value.lit.LStr?
           && kws[1].value.ListExpr? && ReadKwargs(kws[2].value).Some?
        then Some(TailCallShape(kws[0].value.lit.s, kws[1].value.elts, ReadKwargs(kws[2].value).value))
        else None
      case "RetOp" =>
        if |kws| == 1 && kws[0].arg == "value" then Some(RetShape(kws[0].value)) else None
      case _ => None
  }

  /** The statement an operation shape is emitted as. */
  function EmitOp(op: OpShape): Stmt {
    match op
    case CallShape(f, args, kws, v) => MakeCallopExpr(v, Call(Lookup(f), args, kws))
    case TailCallShape(f, args, kws) => MakeTailcallopExpr(Call(Lookup(f), args, kws))
    case RetShape(v) => MakeRetopExpr(v)
  }

  lemma ReadKwargsDict(kws: seq<Keyword>)
    ensures ReadKwargs(KwargsDict(kws)) == Some(kws)
  {
    var d := KwargsDict(kws);
    assert forall i | 0 <= i < |d.keys| :: d.keys[i] == Some(Const(LStr(kws[i].arg))) && d.values[i] == kws[i].value;
    var r := ReadKwargs(d);
    assert r.Some?;
    assert |r.value| == |kws|;
    assert forall i | 0 <= i < |kws| :: r.value[i] == kws[i];
    assert r.value == kws;
  }

  /** The emitted call operation carries the callee's name as a string, the
      positional arguments in order, the keywords as a dict keyed by their
      names, and the frame key of the result. */
  lemma CallopRoundTrip(variable: Expr, call: Expr)
    requires call.Call? && call.func.Name?
    ensures ReadOp(MakeCallopExpr(variable, call)) == Some(CallShape(call.func.id, call.args, call.keywords, variable))
  {
    ReadKwargsDict(call.keywords);
  }

  lemma TailCallopRoundTrip(call: Expr)
    requires call.Call? && call.func.Name?
    ensures ReadOp(MakeTailcallopExpr(call)) == Some(TailCallShape(call.func.id, call.args, call.keywords))
  {
    ReadKwargsDict(call.keywords);
  }

  lemma RetopRoundTrip(value: Expr)
    ensures ReadOp(MakeRetopExpr(value)) == Some(RetShape(value))
  {
  }

  /** Conversely, whatever reads as an operation is emitted exactly so. */
  lemma ReadOpEmits(s: Stmt)
    requires ReadOp(s).Some?
    ensures EmitOp(ReadOp(s).value) == s
  {
    var kws := s.value.keywords;
    if s.value.func.id == "CallOp" || s.value.func.id == "TailCallOp" {
      var d := kws[2].value;
      var read := ReadKwargs(d).value;
      assert forall i | 0 <= i < |d.keys| :: KwargsDict(read).keys[i] == d.keys[i];
      assert forall i | 0 <= i < |d.keys| :: KwargsDict(read).values[i] == d.values[i];
      assert KwargsDict(read) == d;
    }
  }

  // ---------------------------------------------------------------------
  // add_trampoline_returns
  // ---------------------------------------------------------------------

  /** The operation that replaces `s`, tried in the order of the source:
      call, then tail call, then return. */
  function Replacement(s: Stmt, fns: set<string>): Option<Stmt> {
    if MatchesCallop(s, fns) then Some(MakeCallopExpr(s.targets[0].slice, s.value))
    else if MatchesTailcallop(s, fns) then Some(MakeTailcallopExpr(s.value))
    else if MatchesRetop(s, fns) then Some(MakeRetopExpr(s.value))
    else None
  }

  /** A `return` whose value is not a call to `fns` (a call to any other
      function included) becomes a plain return operation of that value. */
  lemma ReturnOfOtherCall(s: Stmt, fns: set<string>)
    requires s.Return? && !MatchesCall(s.value, fns)
    ensures Replacement(s, fns) == Some(MakeRetopExpr(s.value))
    ensures ReadOp(Replacement(s, fns).value) == Some(RetShape(s.value))
  {
    RetopRoundTrip(s.value);
  }

  /** Only assignments to a frame slot of a call to `fns`, and returns, are
      replaced. */
  lemma ReplacementCases(s: Stmt, fns: set<string>)
    ensures Replacement(s, fns).Some? <==> MatchesCallop(s, fns) || s.Return?
    ensures MatchesCallop(s, fns) ==> ReadOp(Replacement(s, fns).value) == Some(CallShape(s.value.func.id, s.value.args, s.value.keywords, s.targets[0].slice))
    ensures MatchesTailcallop(s, fns) ==> ReadOp(Replacement(s, fns).value) == Some(TailCallShape(s.value.func.id, s.value.args, s.value.keywords))
  {
    if MatchesCallop(s, fns) {
      CallopRoundTrip(s.targets[0].slice, s.value);
    } else if MatchesTailcallop(s, fns) {
      TailCallopRoundTrip(s.value);
    }
  }

  /** The failed assertion of lines 253-254: an operation statement that is
      not followed by a pc assignment. */
  datatype ReturnsError = NoPcAssignAfter(op: Stmt)

  /** What `add_trampoline_returns(block, fns)` leaves in `block`. */
  function Returns(block: Stmt, fns: set<string>): (r: Result<Stmt, ReturnsError>)
    requires HasBody(block)
    ensures r.Ok? ==> HasBody(r.value) && r.value == WithBody(block, r.value.body)
    decreases block, 1
  {
    match ReturnsFrom(block, 0, fns)
    case Err(e) => Err(e)
    case Ok(body) => Ok(WithBody(block, body))
  }

  /** The new body from position `i` on: a nested block is processed in
      place, an operation trades places with the pc assignment after it,
      and anything else stays. */
  function ReturnsFrom(block: Stmt, i: nat, fns: set<string>): Result<seq<Stmt>, ReturnsError>
    requires HasBody(block) && i <= |block.body|
    decreases block, 0, |block.body| - i
  {
    var body := block.body;
    if i == |body| then Ok([])
    else if HasBody(body[i]) then
      match Returns(body[i], fns)
      case Err(e) => Err(e)
      case Ok(b) => Glue([b], ReturnsFrom(block, i + 1, fns))
    else match Replacement(body[i], fns)
      case None => Glue([body[i]], ReturnsFrom(block, i + 1, fns))
      case Some(op) =>
        if i + 1 < |body| && IsPcAssign(body[i + 1]) then Glue([body[i + 1], op], ReturnsFrom(block, i + 2, fns))
        else Err(NoPcAssignAfter(body[i]))
  }

  function Glue(pre: seq<Stmt>, r: Result<seq<Stmt>, ReturnsError>): Result<seq<Stmt>, ReturnsError> {
    match r
    case Err(e) => Err(e)
    case Ok(rest) => Ok(pre + rest)
  }

  lemma GlueEmpty(pre: seq<Stmt>, r: Result<seq<Stmt>, ReturnsError>)
    ensures Glue([], r) == r
    ensures Glue(pre, Ok([])) == Ok(pre)
  {
    assert pre + [] == pre;
    if r.Ok? {
      assert [] + r.value == r.value;
    }
  }

  lemma GlueGlue(a: seq<Stmt>, b: seq<Stmt>, r: Result<seq<Stmt>, ReturnsError>)
    ensures Glue(a, Glue(b, r)) == Glue(a + b, r)
  {
    if r.Ok? {
      assert a + (b + r.value) == (a + b) + r.value;
    }
  }

  /** `add_trampoline_returns(block, fns)`: walks a copy of the body and
      swaps each operation with the pc assignment after it in the body
      itself. */
  method AddTrampolineReturns(block: Stmt, fns: set<string>) returns (r: Result<Stmt, ReturnsError>)
    requires HasBody(block)
    ensures r == Returns(block, fns)
    decreases block, 2
  {
    var body := block.body;
    var index := 0;
    ghost var settled: nat := 0;
    GlueEmpty(body, ReturnsFrom(block, 0, fns));
    while index < |block.body|
      invariant index <= |block.body| && Settled(block, fns, body, index, settled)
    {
      var failed;
      body, failed, settled := Visit(block, fns, body, index, settled);
      if failed.Some? {
        return Err(failed.value);
      }
      index := index + 1;
    }
    assert body[..settled] == body;
    GlueEmpty(body, ReturnsFrom(block, settled, fns));
    r := Ok(WithBody(block, body));
  }

  /** How far the loop has got: `settled` is where the swaps so far leave
      off, `index` or one past it when the previous statement traded places
      with this one. The body is finished before `settled` and untouched
      from there on. */
  ghost predicate Settled(block: Stmt, fns: set<string>, body: seq<Stmt>, index: nat, settled: nat)
    requires HasBody(block)
  {
    var orig := block.body;
    index <= settled <= |orig| && settled <= index + 1 && |body| == |orig|
    && body[settled..] == orig[settled..]
    && ReturnsFrom(block, 0, fns) == Glue(body[..settled], ReturnsFrom(block, settled, fns))
    && (settled == index + 1 ==> IsPcAssign(orig[index]))
  }

  /** One turn of the loop of `add_trampoline_returns`, at `index`. */
  method Visit(block: Stmt, fns: set<string>, body: seq<Stmt>, index: nat, ghost settled: nat)
    returns (body': seq<Stmt>, failed: Option<ReturnsError>, ghost settled': nat)
    requires HasBody(block) && index < |block.body| && Settled(block, fns, body, index, settled)
    ensures failed.Some? ==> ReturnsFrom(block, 0, fns) == Err(failed.value)
    ensures failed.None? ==> Settled(block, fns, body', index + 1, settled')
    decreases block, 1
  {
    var stmt := block.body[index];
    body', failed, settled' := body, None, settled;
    if settled == index + 1 {
      PcAssignIsNoOp(stmt, fns);
    }
    if HasBody(stmt) {
      var sub := AddTrampolineReturns(stmt, fns);
      if sub.Err? {
        return body, Some(sub.error), settled;
      }
      SettleOne(block, body, index, sub.value, fns);
      body', settled' := body[index := sub.value], index + 1;
    } else {
      var replaced := ReplaceOp(stmt, fns);
      if replaced.Some? {
        if !(index + 1 < |body|) || !IsPcAssign(body[index + 1]) {
          return body, Some(NoPcAssignAfter(stmt)), settled;
        }
        SettleSwap(block, body, index, replaced.value, fns);
        body' := body[index := body[index + 1]][index + 1 := replaced.value];
        settled' := index + 2;
      } else if settled == index {
        SettleOne(block, body, index, stmt, fns);
        assert body[index := stmt] == body;
        settled' := index + 1;
      }
    }
  }

  /** The `if`/`elif` chain of lines 245-252. */
  method ReplaceOp(stmt: Stmt, fns: set<string>) returns (replaced: Option<Stmt>)
    ensures replaced == Replacement(stmt, fns)
  {
    replaced := None;
    if MatchesCallop(stmt, fns) {
      replaced := Some(MakeCallopExpr(stmt.targets[0].slice, stmt.value));
    } else if MatchesTailcallop(stmt, fns) {
      replaced := Some(MakeTailcallopExpr(stmt.value));
    } else if MatchesRetop(stmt, fns) {
      replaced := Some(MakeRetopExpr(stmt.value));
    }
  }

  /** A statement kept or processed in place settles one more position. */
  lemma SettleOne(block: Stmt, body: seq<Stmt>, i: nat, out: Stmt, fns: set<string>)
    requires HasBody(block) && i < |block.body| == |body|
    requires body[i..] == block.body[i..]
    requires HasBody(block.body[i]) ==> Returns(block.body[i], fns) == Ok(out)
    requires !HasBody(block.body[i]) ==> Replacement(block.body[i], fns).None? && out == block.body[i]
    ensures body[i := out][i + 1..] == block.body[i + 1..]
    ensures Glue(body[..i], ReturnsFrom(block, i, fns)) == Glue(body[i := out][..i + 1], ReturnsFrom(block, i + 1, fns))
  {
    assert body[i] == block.body[i];
    GlueGlue(body[..i], [out], ReturnsFrom(block, i + 1, fns));
    assert body[..i] + [out] == body[i := out][..i + 1];
  }

  /** An operation and the pc assignment after it settle two positions. */
  lemma SettleSwap(block: Stmt, body: seq<Stmt>, i: nat, op: Stmt, fns: set<string>)
    requires HasBody(block) && i + 1 < |block.body| == |body|
    requires body[i..] == block.body[i..]
    requires !HasBody(block.body[i]) && Replacement(block.body[i], fns) == Some(op)
    requires IsPcAssign(body[i + 1])
    ensures body[i := body[i + 1]][i + 1 := op][i + 2..] == block.body[i + 2..]
    ensures Glue(body[..i], ReturnsFrom(block, i, fns))
         == Glue(body[i := body[i + 1]][i + 1 := op][..i + 2], ReturnsFrom(block, i + 2, fns))
    ensures IsPcAssign(block.body[i + 1])
  {
    assert body[i] == block.body[i] && body[i + 1] == block.body[i + 1];
    GlueGlue(body[..i], [body[i + 1], op], ReturnsFrom(block, i + 2, fns));
    assert body[..i] + [body[i + 1], op] == body[i := body[i + 1]][i + 1 := op][..i + 2];
  }

  // ---------------------------------------------------------------------
  // What add_trampoline_returns guarantees
  // ---------------------------------------------------------------------

  /** The assumption the source's assertions check: each operation is
      followed by a pc assignment, and so is each in every nested block. */
  ghost predicate WellPaired(block: Stmt, fns: set<string>)
    requires HasBody(block)
  {
    forall k | 0 <= k < |block.body| ::
      (HasBody(block.body[k]) ==> Returns(block.body[k], fns).Ok?)
      && (!HasBody(block.body[k]) && Replacement(block.body[k], fns).Some? ==>
            k + 1 < |block.body| && IsPcAssign(block.body[k + 1]))
  }

  /** An operation at position `k` of the body, not a nested block. */
  predicate OpAt(body: seq<Stmt>, k: int, fns: set<string>) {
    0 <= k < |body| && !HasBody(body[k]) && Replacement(body[k], fns).Some?
  }

  /** One step of `ReturnsFrom` at a position that is not an operation. */
  lemma ReturnsFromOne(block: Stmt, i: nat, fns: set<string>)
    requires HasBody(block) && i < |block.body| && ReturnsFrom(block, i, fns).Ok?
    requires !OpAt(block.body, i, fns)
    ensures ReturnsFrom(block, i + 1, fns).Ok?
    ensures HasBody(block.body[i]) ==> Returns(block.body[i], fns).Ok?
    ensures ReturnsFrom(block, i, fns).value
         == [if HasBody(block.body[i]) then Returns(block.body[i], fns).value else block.body[i]]
            + ReturnsFrom(block, i + 1, fns).value
  {
  }

  /** One step of `ReturnsFrom` at an operation. */
  lemma ReturnsFromTwo(block: Stmt, i: nat, fns: set<string>)
    requires HasBody(block) && OpAt(block.body, i, fns) && ReturnsFrom(block, i, fns).Ok?
    ensures i + 1 < |block.body| && IsPcAssign(block.body[i + 1])
    ensures ReturnsFrom(block, i + 2, fns).Ok?
    ensures ReturnsFrom(block, i, fns).value
         == [block.body[i + 1], Replacement(block.body[i], fns).value] + ReturnsFrom(block, i + 2, fns).value
  {
  }

  lemma {:induction false} ReturnsFromLength(block: Stmt, i: nat, fns: set<string>)
    requires HasBody(block) && i <= |block.body| && ReturnsFrom(block, i, fns).Ok?
    ensures |ReturnsFrom(block, i, fns).value| == |block.body| - i
    decreases |block.body| - i
  {
    if i < |block.body| {
      if OpAt(block.body, i, fns) {
        ReturnsFromTwo(block, i, fns);
        ReturnsFromLength(block, i + 2, fns);
      } else {
        ReturnsFromOne(block, i, fns);
        ReturnsFromLength(block, i + 1, fns);
      }
    }
  }

  /** A nested block at position `k` is replaced by its processed self. */
  lemma {:induction false} ReturnsFromAtBlock(block: Stmt, i: nat, k: nat, fns: set<string>)
    requires HasBody(block) && i <= k < |block.body| && ReturnsFrom(block, i, fns).Ok?
    requires HasBody(block.body[k])
    ensures |ReturnsFrom(block, i, fns).value| == |block.body| - i
    ensures Returns(block.body[k], fns).Ok? && ReturnsFrom(block, i, fns).value[k - i] == Returns(block.body[k], fns).value
    decreases |block.body| - i
  {
    ReturnsFromLength(block, i, fns);
    if OpAt(block.body, i, fns) {
      ReturnsFromTwo(block, i, fns);
      PcAssignIsNoOp(block.body[i + 1], fns);
      ReturnsFromAtBlock(block, i + 2, k, fns);
    } else {
      ReturnsFromOne(block, i, fns);
      if k > i {
        ReturnsFromAtBlock(block, i + 1, k, fns);
      }
    }
  }

  /** An operation at position `k` trades places with the pc assignment after it. */
  lemma {:induction false} ReturnsFromAtOp(block: Stmt, i: nat, k: nat, fns: set<string>)
    requires HasBody(block) && i <= k && OpAt(block.body, k, fns) && ReturnsFrom(block, i, fns).Ok?
    ensures |ReturnsFrom(block, i, fns).value| == |block.body| - i
    ensures k + 1 < |block.body| && IsPcAssign(block.body[k + 1])
    ensures ReturnsFrom(block, i, fns).value[k - i] == block.body[k + 1]
    ensures ReturnsFrom(block, i, fns).value[k + 1 - i] == Replacement(block.body[k], fns).value
    decreases |block.body| - i
  {
    ReturnsFromLength(block, i, fns);
    if OpAt(block.body, i, fns) {
      ReturnsFromTwo(block, i, fns);
      if k > i {
        PcAssignIsNoOp(block.body[i + 1], fns);
        ReturnsFromAtOp(block, i + 2, k, fns);
      }
    } else {
      ReturnsFromOne(block, i, fns);
      ReturnsFromAtOp(block, i + 1, k, fns);
    }
  }

  /** Any other statement stays, unless it is the pc assignment an
      operation before it traded places with. */
  lemma {:induction false} ReturnsFromAtKept(block: Stmt, i: nat, k: nat, fns: set<string>)
    requires HasBody(block) && i <= k < |block.body| && ReturnsFrom(block, i, fns).Ok?
    requires !HasBody(block.body[k]) && Replacement(block.body[k], fns).None?
    requires !(i < k && OpAt(block.body, k - 1, fns))
    ensures |ReturnsFrom(block, i, fns).value| == |block.body| - i
    ensures ReturnsFrom(block, i, fns).value[k - i] == block.body[k]
    decreases |block.body| - i
  {
    ReturnsFromLength(block, i, fns);
    if OpAt(block.body, i, fns) {
      ReturnsFromTwo(block, i, fns);
      ReturnsFromAtKept(block, i + 2, k, fns);
    } else {
      ReturnsFromOne(block, i, fns);
      if k > i {
        ReturnsFromAtKept(block, i + 1, k, fns);
      }
    }
  }

  /** `add_trampoline_returns` keeps the length of the body; it swaps each
      operation with the pc assignment after it, so the pc write comes
      first and the operation's `return` second; nested blocks are
      processed in place; every other statement stays where it was. */
  lemma ReturnsPositions(block: Stmt, fns: set<string>)
    requires HasBody(block) && Returns(block, fns).Ok?
    ensures |Returns(block, fns).value.body| == |block.body|
    ensures forall k | 0 <= k < |block.body| && HasBody(block.body[k]) ::
      Returns(block.body[k], fns).Ok? && Returns(block, fns).value.body[k] == Returns(block.body[k], fns).value
    ensures forall k | OpAt(block.body, k, fns) ::
      k + 1 < |block.body| && IsPcAssign(block.body[k + 1])
      && Returns(block, fns).value.body[k] == block.body[k + 1]
      && Returns(block, fns).value.body[k + 1] == Replacement(block.body[k], fns).value
    ensures forall k | 0 <= k < |block.body| && !HasBody(block.body[k]) && Replacement(block.body[k], fns).None?
                       && !OpAt(block.body, k - 1, fns) ::
      Returns(block, fns).value.body[k] == block.body[k]
  {
    var out := Returns(block, fns).value.body;
    assert out == ReturnsFrom(block, 0, fns).value;
    ReturnsFromLength(block, 0, fns);
    forall k | 0 <= k < |block.body| && HasBody(block.body[k])
      ensures Returns(block.body[k], fns).Ok? && out[k] == Returns(block.body[k], fns).value
    {
      ReturnsFromAtBlock(block, 0, k, fns);
    }
    forall k | OpAt(block.body, k, fns)
      ensures k + 1 < |block.body| && IsPcAssign(block.body[k + 1])
      ensures out[k] == block.body[k + 1] && out[k + 1] == Replacement(block.body[k], fns).value
    {
      ReturnsFromAtOp(block, 0, k, fns);
    }
    forall k | 0 <= k < |block.body| && !HasBody(block.body[k]) && Replacement(block.body[k], fns).None?
               && !OpAt(block.body, k - 1, fns)
      ensures out[k] == block.body[k]
    {
      ReturnsFromAtKept(block, 0, k, fns);
    }
  }

  lemma {:induction false} ReturnsFromSucceeds(block: Stmt, i: nat, fns: set<string>)
    requires HasBody(block) && i <= |block.body| && WellPaired(block, fns)
    ensures ReturnsFrom(block, i, fns).Ok?
    decreases |block.body| - i
  {
    var body := block.body;
    if i < |body| {
      if OpAt(body, i, fns) {
        assert !HasBody(body[i]) && Replacement(body[i], fns).Some?;
        assert i + 1 < |body| && IsPcAssign(body[i + 1]);
        ReturnsFromSucceeds(block, i + 2, fns);
      } else {
        ReturnsFromSucceeds(block, i + 1, fns);
      }
    }
  }

  /** The source's assertions fail exactly when some operation (here or in
      a nested block) is not followed by a pc assignment. */
  lemma ReturnsSucceedsIff(block: Stmt, fns: set<string>)
    requires HasBody(block)
    ensures Returns(block, fns).Ok? <==> WellPaired(block, fns)
  {
    if Returns(block, fns).Ok? {
      ReturnsPositions(block, fns);
      forall k | 0 <= k < |block.body|
        ensures !HasBody(block.body[k]) && Replacement(block.body[k], fns).Some? ==>
          k + 1 < |block.body| && IsPcAssign(block.body[k + 1])
      {
        assert OpAt(block.body, k, fns) <==> !HasBody(block.body[k]) && Replacement(block.body[k], fns).Some?;
      }
    }
    if WellPaired(block, fns) {
      ReturnsFromSucceeds(block, 0, fns);
    }
  }

  // ---------------------------------------------------------------------
  // fiber() and make_fiber: the set of suspending functions and the registry
  // ---------------------------------------------------------------------

  /** The `fns` argument of `fiber`, by kind: omitted, a set, a list, or a
      function, as in `fiber(g, locals=locals())`. (A bare `@fiber` never
      gets this far: the keyword-only `locals` is missing.) */
  datatype FnsArg = NoFns | FnsSet(names: set<string>) | FnsList(items: seq<string>) | FnsCallable

  /** The container the decorator closes over once the argument is checked. */
  datatype Fns = SetFns(names: set<string>) | ListFns(items: seq<string>)

  function Members(f: Fns): set<string> {
    match f
    case SetFns(n) => n
    case ListFns(xs) => set x | x in xs
  }

  datatype FiberError =
    | ForgotToCall   // ValueError, line 286
    | NotIterable    // TypeError from `set(fns)` on a function, line 283
    | ListHasNoAdd   // AttributeError from `fns.add` on a list, line 290

  /** Lines 280-286 of `fiber`, given the names already registered: every
      registered name joins `fns`, which becomes a set as soon as there is
      one; a function passed as `fns` is rejected. */
  function FiberFns(fns: FnsArg, registered: set<string>): (r: Result<Fns, FiberError>)
    ensures r.Ok? ==> registered <= Members(r.value)
    ensures r.Ok? && fns.FnsSet? ==> Members(r.value) == fns.names + registered
    ensures r.Ok? && fns.FnsList? ==> Members(r.value) == (set x | x in fns.items) + registered
    ensures r.Err? <==> fns.FnsCallable?
  {
    var start := if fns.NoFns? then FnsSet({}) else fns;
    if registered != {} then
      match start
      case FnsCallable => Err(NotIterable)
      case FnsSet(n) => Ok(SetFns(n + registered))
      case FnsList(xs) => Ok(SetFns((set x | x in xs) + registered))
    else
      match start
      case FnsCallable => Err(ForgotToCall)
      case FnsSet(n) => Ok(SetFns(n))
      case FnsList(xs) => Ok(ListFns(xs))
  }

  /** `fiber` rejects a function passed as `fns` with a TypeError once any
      function has been registered, before its own check is reached. */
  lemma CallableCheckUnreached()
    ensures FiberFns(FnsCallable, {}) == Err(ForgotToCall)
    ensures FiberFns(FnsCallable, {"fib"}) == Err(NotIterable)
  {
  }

  /** The argument check as evidently intended: a function passed as `fns`
      is reported as a missing call whatever is registered. */
  function FiberFnsChecked(fns: FnsArg, registered: set<string>): (r: Result<Fns, FiberError>)
    ensures r.Ok? ==> registered <= Members(r.value)
  {
    if fns.FnsCallable? then Err(ForgotToCall) else FiberFns(fns, registered)
  }

  /** The intended check reports a forgotten call for every registry, and
      agrees with the source on every other argument. */
  lemma FiberFnsCheckedAgrees(fns: FnsArg, registered: set<string>)
    ensures fns.FnsCallable? ==> FiberFnsChecked(fns, registered) == Err(ForgotToCall)
    ensures !fns.FnsCallable? ==> FiberFnsChecked(fns, registered) == FiberFns(fns, registered)
    ensures FiberFnsChecked(fns, registered).Err? <==> FiberFns(fns, registered).Err?
  {
  }

  /** The name `fix_fn_def` gives the compiled step function. */
  function FiberHandle(name: string): Handle {
    "__fiberfn_" + name
  }

  lemma FiberHandleInjective(a: string, b: string)
    requires FiberHandle(a) == FiberHandle(b)
    ensures a == b
  {
    assert a == FiberHandle(a)[10..];
    assert b == FiberHandle(b)[10..];
  }

  /** Each registered name's compiled function is registered under the same
      metadata, and was compiled from that name. */
  ghost predicate Consistent(reg: Registry) {
    forall n | n in reg.byName ::
      reg.byName[n].fn == FiberHandle(n) && FiberHandle(n) in reg.byCompiled
      && reg.byCompiled[FiberHandle(n)] == reg.byName[n]
  }

  /** The two global registries, `FIBER_FN_NAME_MAP` and
      `FIBER_FN_COMPILED_MAP`, updated by each decoration. */
  class Registries {
    var byName: map<string, Metadata>
    var byCompiled: map<Handle, Metadata>

    constructor ()
      ensures byName == map[] && byCompiled == map[]
    {
      byName := map[];
      byCompiled := map[];
    }

    function Snapshot(): Registry
      reads this
    {
      Registry(byName, byCompiled)
    }

    /** `fiber(fns, ...)` up to the creation of `make_fiber`: the loop over
        the registered names, then the callable check. */
    method Fiber(fns: FnsArg) returns (r: Result<Fns, FiberError>)
      ensures r == FiberFns(fns, byName.Keys)
    {
      var current := if fns.NoFns? then FnsSet({}) else fns;
      var names := byName.Keys;
      ghost var seen: set<string> := {};
      while names != {}
        invariant names + seen == byName.Keys && names !! seen
        invariant seen != {} ==> current == (match (if fns.NoFns? then FnsSet({}) else fns)
                                               case FnsCallable => FnsCallable
                                               case FnsSet(n) => FnsSet(n + seen)
                                               case FnsList(xs) => FnsSet((set x | x in xs) + seen))
        invariant seen == {} ==> current == (if fns.NoFns? then FnsSet({}) else fns)
        invariant seen != {} ==> !current.FnsCallable?
        decreases names
      {
        var n :| n in names;
        if current.FnsCallable? {
          assert fns.FnsCallable? && n in byName.Keys;
          return Err(NotIterable);
        } else if current.FnsSet? {
          current := FnsSet(current.names + {n});
        } else if current.FnsList? {
          current := FnsSet((set x | x in current.items) + {n});
        }
        names := names - {n};
        seen := seen + {n};
      }
      assert seen == byName.Keys;
      if current.FnsCallable? {
        assert fns.FnsCallable? && byName.Keys == {};
        r := Err(ForgotToCall);
      } else if current.FnsSet? {
        r := Ok(SetFns(current.names));
      } else if current.FnsList? {
        assert byName.Keys == {};
        r := Ok(ListFns(current.items));
      }
    }

    /** `make_fiber(fn)` for a function named `name` with parameters
        `params`: with `recursive` its own name joins `fns`, and the result
        is registered under the name and under the compiled function. */
    method MakeFiber(fns: Fns, recursive: bool, name: string, params: Arguments) returns (r: Result<Fns, FiberError>)
      modifies this
      ensures recursive && fns.ListFns? ==> r == Err(ListHasNoAdd) && byName == old(byName) && byCompiled == old(byCompiled)
      ensures !(recursive && fns.ListFns?) ==>
        && r.Ok?
        && Members(r.value) == Members(fns) + (if recursive then {name} else {})
        && byName == old(byName)[name := Metadata(params, FiberHandle(name))]
        && byCompiled == old(byCompiled)[FiberHandle(name) := Metadata(params, FiberHandle(name))]
    {
      var current := fns;
      if recursive {
        if current.ListFns? {
          return Err(ListHasNoAdd);
        }
        current := SetFns(current.names + {name});
      }
      var lookup := Metadata(params, FiberHandle(name));
      byName := byName[name := lookup];
      byCompiled := byCompiled[FiberHandle(name) := lookup];
      r := Ok(current);
    }
  }

  /** Registering keeps the two registries consistent, because compiled
      names are derived injectively from source names. */
  lemma RegisterKeepsConsistent(reg: Registry, name: string, params: Arguments)
    requires Consistent(reg)
    ensures Consistent(Registry(reg.byName[name := Metadata(params, FiberHandle(name))],
                                reg.byCompiled[FiberHandle(name) := Metadata(params, FiberHandle(name))]))
  {
    forall n | n in reg.byName && n != name ensures FiberHandle(n) != FiberHandle(name) {
      if FiberHandle(n) == FiberHandle(name) {
        FiberHandleInjective(n, name);
      }
    }
  }
}
