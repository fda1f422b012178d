/** Defaults of positional parameters in `bind_frame` (`src/trampoline.py`).
    Line 62 binds such a default as the AST node itself, where the
    keyword-only phase (line 84) binds the value `ast.literal_eval` gives.
    `BindEvaluated` is the binder with both phases evaluating their
    defaults; it agrees with `Bind` up to that evaluation. */
module TrampolineDefaults {
  import opened Wrappers
  import opened PyAst
  import opened Jumps
  import opened Fiber
  import opened Trampoline
  import opened TrampolineBind
  import opened TrampolineRun

  // ---------------------------------------------------------------------
  // The binder with evaluated positional defaults
  // ---------------------------------------------------------------------

  /** One parameter of the positional phase, its default evaluated; a
      default that is no literal fails as it does in the keyword-only phase. */
  function PosStepEvaluated(p: (string, Option<Expr>), posOnly: int, st: PosState): Result<PosState, BindError> {
    if st.rest != [] || p.0 in KwKeys(st.kwargs) || p.1.None? then PosStep(p, posOnly, st)
    else match LiteralEval(p.1.value)
      case None => Err(MalformedDefault(p.0))
      case Some(v) => Ok(st.(frame := st.frame[p.0 := v]))
  }

  function BindPositionalEvaluated(ps: seq<(string, Option<Expr>)>, posOnly: int, st: PosState): Result<PosState, BindError>
    decreases |ps|
  {
    if ps == [] then Ok(st)
    else match PosStepEvaluated(ps[0], posOnly, st)
      case Err(e) => Err(e)
      case Ok(st') => BindPositionalEvaluated(ps[1..], posOnly - 1, st')
  }

  /** `bind_frame` with every default evaluated. */
  function BindEvaluated(positional: seq<Value>, kw: KwArgs, a: Arguments): (r: Result<Bound, BindError>)
    requires WellFormedArgs(a)
    ensures r.Ok? ==> PC_LOCAL_NAME in r.value.frame && r.value.frame[PC_LOCAL_NAME] == VInt(0)
  {
    match BindPositionalEvaluated(PosWithDefaults(a), |a.posonlyargs|, PosState(map[], positional, kw))
    case Err(e) => Err(e)
    case Ok(st) =>
      match BindKeywords(st.kwargs, KeywordNames(a), BindVararg(a, st))
      case Err(e) => Err(e)
      case Ok(frame) =>
        match BindKwOnly(a.kwonlyargs, a.kwDefaults, frame)
        case Err(e) => Err(e)
        case Ok(frame') => Ok(Bound(frame'[PC_LOCAL_NAME := VInt(0)], st.kwargs))
  }

  /** The corrected binder, for the scheduler's `Program`. */
  function EvaluatedBinder(args: seq<Value>, kwargs: KwArgs, a: Arguments): (r: Result<Frame, BindError>)
    ensures r.Ok? ==> PC_LOCAL_NAME in r.value && r.value[PC_LOCAL_NAME] == VInt(0)
  {
    if !WellFormedArgs(a) then Err(TooManyDefaults)
    else
      match BindEvaluated(args, kwargs, a)
      case Err(e) => Err(e)
      case Ok(b) => Ok(b.frame)
  }

  // ---------------------------------------------------------------------
  // Frames up to evaluation of defaults
  // ---------------------------------------------------------------------

  /** A default bound as its node becomes the value it evaluates to. */
  function Evaluated(v: Value): Value {
    if v.VNode? && LiteralEval(v.node).Some? then LiteralEval(v.node).value else v
  }

  function EvalFrame(f: Frame): Frame {
    map k | k in f :: Evaluated(f[k])
  }

  function EvalBound(r: Result<Bound, BindError>): Result<Bound, BindError> {
    match r
    case Err(e) => Err(e)
    case Ok(b) => Ok(Bound(EvalFrame(b.frame), b.kwargs))
  }

  predicate NoNodes(vs: seq<Value>) {
    forall i | 0 <= i < |vs| :: !vs[i].VNode?
  }

  predicate KwNoNodes(kw: KwArgs) {
    forall i | 0 <= i < |kw| :: !kw[i].1.VNode?
  }

  predicate FrameNoNodes(f: Frame) {
    forall k | k in f :: !f[k].VNode?
  }

  /** Every default of the list is a literal. */
  predicate LiteralDefaults(ps: seq<(string, Option<Expr>)>) {
    forall i | 0 <= i < |ps| :: ps[i].1.Some? ==> LiteralEval(ps[i].1.value).Some?
  }

  lemma EvalFrameUpdate(f: Frame, k: string, v: Value)
    ensures EvalFrame(f[k := v]) == EvalFrame(f)[k := Evaluated(v)]
  {
  }

  lemma {:induction false} KwGetNoNode(kw: KwArgs, k: string)
    requires KwNoNodes(kw) && k in KwKeys(kw)
    ensures !KwGet(kw, k).VNode?
    decreases |kw|
  {
    if kw[0].0 != k {
      assert KwNoNodes(kw[1..]) by {
        forall i | 0 <= i < |kw| - 1 ensures !kw[1..][i].1.VNode? {
          assert kw[1..][i] == kw[i + 1];
        }
      }
      KwGetNoNode(kw[1..], k);
    }
  }

  lemma {:induction false} KwDelNoNodes(kw: KwArgs, k: string)
    requires KwNoNodes(kw)
    ensures KwNoNodes(KwDel(kw, k))
    decreases |kw|
  {
    if kw != [] {
      assert KwNoNodes(kw[1..]) by {
        forall i | 0 <= i < |kw| - 1 ensures !kw[1..][i].1.VNode? {
          assert kw[1..][i] == kw[i + 1];
        }
      }
      KwDelNoNodes(kw[1..], k);
    }
  }

  /** One positional step: the evaluated step on the evaluated frame is the
      step as written, its frame evaluated; it differs only by failing on a
      default that is no literal. */
  lemma PosStepEvaluatedRelates(p: (string, Option<Expr>), posOnly: int, st: PosState)
    requires NoNodes(st.rest) && KwNoNodes(st.kwargs)
    ensures var rA := PosStep(p, posOnly, st);
      var rE := PosStepEvaluated(p, posOnly, st.(frame := EvalFrame(st.frame)));
      && (rE.Ok? ==> rA.Ok? && rE.value == rA.value.(frame := EvalFrame(rA.value.frame)))
      && (rE.Ok? && FrameNoNodes(EvalFrame(st.frame)) ==> FrameNoNodes(rE.value.frame))
      && (rA.Ok? && rE.Err? ==> rE == Err(MalformedDefault(p.0)))
      && (rA.Err? ==> rE == rA)
      && (rA.Ok? ==> NoNodes(rA.value.rest) && KwNoNodes(rA.value.kwargs))
      && ((p.1.Some? ==> LiteralEval(p.1.value).Some?) ==> rE.Ok? == rA.Ok?)
  {
    var name := p.0;
    if st.rest != [] {
      EvalFrameUpdate(st.frame, name, st.rest[0]);
      assert NoNodes(st.rest[1..]) by {
        forall i | 0 <= i < |st.rest| - 1 ensures !st.rest[1..][i].VNode? {
          assert st.rest[1..][i] == st.rest[i + 1];
        }
      }
    } else if name in KwKeys(st.kwargs) {
      KwGetNoNode(st.kwargs, name);
      KwDelNoNodes(st.kwargs, name);
      EvalFrameUpdate(st.frame, name, KwGet(st.kwargs, name));
    } else if p.1.Some? {
      EvalFrameUpdate(st.frame, name, VNode(p.1.value));
    }
  }

  /** The positional phase, related to the phase as written as its step is. */
  lemma {:induction false} PositionalEvaluated(ps: seq<(string, Option<Expr>)>, posOnly: int, st: PosState)
    requires NoNodes(st.rest) && KwNoNodes(st.kwargs)
    ensures var rA := BindPositional(ps, posOnly, st);
      var rE := BindPositionalEvaluated(ps, posOnly, st.(frame := EvalFrame(st.frame)));
      && (rE.Ok? ==> rA.Ok? && rE.value == rA.value.(frame := EvalFrame(rA.value.frame)))
      && (rE.Ok? && FrameNoNodes(EvalFrame(st.frame)) ==> FrameNoNodes(rE.value.frame))
      && (LiteralDefaults(ps) ==> rE.Ok? == rA.Ok?)
      && (rA.Err? && LiteralDefaults(ps) ==> rE == rA)
    decreases |ps|
  {
    if ps != [] {
      PosStepEvaluatedRelates(ps[0], posOnly, st);
      var sA := PosStep(ps[0], posOnly, st);
      if sA.Ok? {
        assert LiteralDefaults(ps) ==> LiteralDefaults(ps[1..]) by {
          if LiteralDefaults(ps) {
            forall i | 0 <= i < |ps| - 1 && ps[1..][i].1.Some? ensures LiteralEval(ps[1..][i].1.value).Some? {
              assert ps[1..][i] == ps[i + 1];
            }
          }
        }
        PositionalEvaluated(ps[1..], posOnly - 1, sA.value);
      }
    }
  }

  /** The keyword phase commutes with evaluating the frame's defaults. */
  lemma {:induction false} KeywordsEvaluated(kw: KwArgs, names: set<string>, f: Frame)
    requires KwNoNodes(kw)
    ensures var rA := BindKeywords(kw, names, f);
      var rE := BindKeywords(kw, names, EvalFrame(f));
      && rE.Ok? == rA.Ok?
      && (rA.Ok? ==> rE.value == EvalFrame(rA.value))
      && (rA.Err? ==> rE == rA)
      && (rE.Ok? && FrameNoNodes(EvalFrame(f)) ==> FrameNoNodes(rE.value))
    decreases |kw|
  {
    if kw != [] && kw[0].0 in names && kw[0].0 !in f {
      EvalFrameUpdate(f, kw[0].0, kw[0].1);
      assert KwNoNodes(kw[1..]) by {
        forall i | 0 <= i < |kw| - 1 ensures !kw[1..][i].1.VNode? {
          assert kw[1..][i] == kw[i + 1];
        }
      }
      KeywordsEvaluated(kw[1..], names, f[kw[0].0 := kw[0].1]);
    }
  }

  /** The keyword-only phase commutes with evaluating the frame's defaults. */
  lemma {:induction false} KwOnlyEvaluated(names: seq<string>, defaults: seq<Option<Expr>>, f: Frame)
    ensures var rA := BindKwOnly(names, defaults, f);
      var rE := BindKwOnly(names, defaults, EvalFrame(f));
      && rE.Ok? == rA.Ok?
      && (rA.Ok? ==> rE.value == EvalFrame(rA.value))
      && (rA.Err? ==> rE == rA)
      && (rE.Ok? && FrameNoNodes(EvalFrame(f)) ==> FrameNoNodes(rE.value))
    decreases |names|
  {
    if names != [] && defaults != [] {
      if names[0] in f {
        KwOnlyEvaluated(names[1..], defaults[1..], f);
      } else if defaults[0].Some? && LiteralEval(defaults[0].value).Some? {
        var v := LiteralEval(defaults[0].value).value;
        EvalFrameUpdate(f, names[0], v);
        KwOnlyEvaluated(names[1..], defaults[1..], f[names[0] := v]);
      }
    }
  }

  /** The corrected binder is the binder as written with each default
      evaluated. It succeeds only where the binder as written does, with
      the same frame up to that evaluation and the same keyword dict; when
      every positional default is a literal, the two succeed and fail
      together, with the same error. The corrected frame holds no AST node. */
  lemma BindEvaluatedRelates(positional: seq<Value>, kw: KwArgs, a: Arguments)
    requires WellFormedArgs(a) && NoNodes(positional) && KwNoNodes(kw)
    ensures var rA := Bind(positional, kw, a);
      var rE := BindEvaluated(positional, kw, a);
      && (rE.Ok? ==> rA.Ok? && rE == EvalBound(rA) && FrameNoNodes(rE.value.frame))
      && (LiteralDefaults(PosWithDefaults(a)) ==> rE == EvalBound(rA))
  {
    var ps := PosWithDefaults(a);
    var st0 := PosState(map[], positional, kw);
    assert st0.(frame := EvalFrame(st0.frame)) == st0;
    PositionalEvaluated(ps, |a.posonlyargs|, st0);
    var pA := BindPositional(ps, |a.posonlyargs|, st0);
    var pE := BindPositionalEvaluated(ps, |a.posonlyargs|, st0);
    if pE.Ok? {
      var st := pA.value;
      PositionalKwNoNodes(ps, |a.posonlyargs|, st0);
      var f1 := BindVararg(a, st);
      assert BindVararg(a, pE.value) == EvalFrame(f1) by {
        if a.vararg.Some? {
          EvalFrameUpdate(st.frame, a.vararg.value, VList(st.rest));
        }
      }
      assert FrameNoNodes(EvalFrame(f1));
      KeywordsEvaluated(st.kwargs, KeywordNames(a), f1);
      var kA := BindKeywords(st.kwargs, KeywordNames(a), f1);
      if kA.Ok? {
        KwOnlyEvaluated(a.kwonlyargs, a.kwDefaults, kA.value);
        var oA := BindKwOnly(a.kwonlyargs, a.kwDefaults, kA.value);
        if oA.Ok? {
          EvalFrameUpdate(oA.value, PC_LOCAL_NAME, VInt(0));
        }
      }
    }
  }

  /** A successful positional phase leaves a keyword dict without nodes. */
  lemma {:induction false} PositionalKwNoNodes(ps: seq<(string, Option<Expr>)>, posOnly: int, st: PosState)
    requires NoNodes(st.rest) && KwNoNodes(st.kwargs)
    requires BindPositional(ps, posOnly, st).Ok?
    ensures KwNoNodes(BindPositional(ps, posOnly, st).value.kwargs)
    ensures NoNodes(BindPositional(ps, posOnly, st).value.rest)
    decreases |ps|
  {
    if ps != [] {
      PosStepEvaluatedRelates(ps[0], posOnly, st);
      PositionalKwNoNodes(ps[1..], posOnly - 1, PosStep(ps[0], posOnly, st).value);
    }
  }

  /** The evidently intended binding: a positional parameter left without a
      positional value or keyword takes the value its default evaluates to,
      as a keyword-only parameter does. */
  lemma BindEvaluatedDefaults(positional: seq<Value>, kw: KwArgs, a: Arguments)
    requires WellFormedArgs(a) && DistinctParams(a) && NoNodes(positional) && KwNoNodes(kw)
    requires BindEvaluated(positional, kw, a).Ok?
    ensures var frame := BindEvaluated(positional, kw, a).value.frame;
      var ps := PosWithDefaults(a);
      forall i | |positional| <= i < |ps| && ps[i].0 !in KwKeys(kw) ::
        && ps[i].1.Some? && LiteralEval(ps[i].1.value).Some?
        && ps[i].0 in frame && frame[ps[i].0] == LiteralEval(ps[i].1.value).value
  {
    BindEvaluatedRelates(positional, kw, a);
    BindKeywordOrDefault(positional, kw, a);
    var ps := PosWithDefaults(a);
    var fA := Bind(positional, kw, a).value.frame;
    var frame := BindEvaluated(positional, kw, a).value.frame;
    assert frame == EvalFrame(fA) && FrameNoNodes(frame);
    forall i | |positional| <= i < |ps| && ps[i].0 !in KwKeys(kw)
      ensures ps[i].1.Some? && LiteralEval(ps[i].1.value).Some?
      ensures ps[i].0 in frame && frame[ps[i].0] == LiteralEval(ps[i].1.value).value
    {
      assert ps[i].0 in fA && fA[ps[i].0] == VNode(ps[i].1.value);
      assert frame[ps[i].0] == Evaluated(VNode(ps[i].1.value));
      assert !frame[ps[i].0].VNode?;
    }
  }

  // ---------------------------------------------------------------------
  // `def f(x, y=1)` called as `f(1)`
  // ---------------------------------------------------------------------

  function OneDefault(): Arguments {
    Arguments([], ["x", "y"], None, [], [], [Const(LInt(1))])
  }

  /** As written, `y` holds the AST node `Constant(1)`, not the integer 1. */
  lemma PositionalDefaultIsNode()
    ensures Bind([VInt(1)], [], OneDefault()).Ok?
    ensures var frame := Bind([VInt(1)], [], OneDefault()).value.frame;
      "y" in frame && frame["y"] == VNode(Const(LInt(1))) && frame["y"] != VInt(1)
  {
    var ps := PosWithDefaults(OneDefault());
    assert ps == [("x", None), ("y", Some(Const(LInt(1))))];
    var st0 := PosState(map[], [VInt(1)], []);
    var st1 := PosState(map["x" := VInt(1)], [], []);
    var st2 := PosState(map["x" := VInt(1), "y" := VNode(Const(LInt(1)))], [], []);
    assert [VInt(1)][1..] == [];
    assert PosStep(ps[0], 0, st0) == Ok(st1);
    assert PosStep(ps[1], -1, st1) == Ok(st2);
    assert ps[1..][1..] == [];
    assert BindPositional(ps[1..], -1, st1) == Ok(st2);
    assert PosPhase([VInt(1)], [], OneDefault()) == Ok(st2);
  }

  /** Corrected, `y` holds the integer 1. */
  lemma PositionalDefaultEvaluated()
    ensures BindEvaluated([VInt(1)], [], OneDefault()).Ok?
    ensures var frame := BindEvaluated([VInt(1)], [], OneDefault()).value.frame;
      "y" in frame && frame["y"] == VInt(1)
  {
    var a := OneDefault();
    assert LiteralDefaults(PosWithDefaults(a)) by {
      assert PosWithDefaults(a) == [("x", None), ("y", Some(Const(LInt(1))))];
    }
    PositionalDefaultIsNode();
    BindEvaluatedRelates([VInt(1)], [], a);
  }

  // ---------------------------------------------------------------------
  // Keyword-only defaults that are displays
  // ---------------------------------------------------------------------

  /** `def f(*, memo={})` called as `f()`: `memo` is bound to an empty dict. */
  lemma KwOnlyDictDefault()
    ensures Bind([], [], Arguments([], [], None, ["memo"], [Some(DictExpr([], []))], []))
      == Ok(Bound(map["memo" := VDict([]), PC_LOCAL_NAME := VInt(0)], []))
  {
    var a := Arguments([], [], None, ["memo"], [Some(DictExpr([], []))], []);
    assert PosWithDefaults(a) == [];
    assert LiteralEval(DictExpr([], [])) == Some(VDict([]));
    assert BindKwOnly(a.kwonlyargs, a.kwDefaults, map[]) == Ok(map["memo" := VDict([])]);
  }

  /** A nested list display evaluates to the nested list. */
  lemma NestedListDefault()
    ensures LiteralEval(ListExpr([ListExpr([Const(LInt(1))]), ListExpr([])]))
      == Some(VList([VList([VInt(1)]), VList([])]))
  {
    LiteralEvalRoundTrip(VList([VList([VInt(1)]), VList([])]));
    var u := Unparse(VList([VList([VInt(1)]), VList([])]));
    assert Unparse(VList([VInt(1)])) == ListExpr([Const(LInt(1))]);
    assert Unparse(VList([])) == ListExpr([]);
    assert u == ListExpr([ListExpr([Const(LInt(1))]), ListExpr([])]);
  }
}
