/** The older argument binder (`trampoline.py`). It shares the parameter
    walk, the rest parameter and the keyword-only phase with the current
    one, but never fills a positional parameter from a keyword, and its
    "multiple values" error fails while formatting its own message. */
module LegacyTrampoline {
  import opened Wrappers
  import opened PyAst
  import opened Jumps
  import opened Fiber
  import opened Trampoline
  import opened TrampolineBind

  /** The positional phase: each parameter takes the next positional value,
      else its default, else the call has too few arguments. Keywords are
      not consulted. */
  function LegacyPositional(ps: seq<(string, Option<Expr>)>, st: PosState): Result<PosState, BindError>
    decreases |ps|
  {
    if ps == [] then Ok(st)
    else if st.rest != [] then LegacyPositional(ps[1..], PosState(st.frame[ps[0].0 := st.rest[0]], st.rest[1..], st.kwargs))
    else if ps[0].1.None? then Err(TooFewPositional)
    else LegacyPositional(ps[1..], st.(frame := st.frame[ps[0].0 := VNode(ps[0].1.value)]))
  }

  /** The keyword phase: the repeated-keyword branch evaluates `kwarg.arg`
      on a `str` and so raises `AttributeError`. */
  function LegacyKeywords(kw: KwArgs, names: set<string>, frame: Frame): Result<Frame, BindError>
    decreases |kw|
  {
    if kw == [] then Ok(frame)
    else if kw[0].0 !in names then Err(InvalidKeyword(kw[0].0))
    else if kw[0].0 in frame then Err(MessageAttributeError(kw[0].0))
    else LegacyKeywords(kw[1..], names, frame[kw[0].0 := kw[0].1])
  }

  /** `bind_frame(args, kwargs, fn_tree)` of `trampoline.py`. */
  function LegacyBind(positional: seq<Value>, kw: KwArgs, a: Arguments): (r: Result<Frame, BindError>)
    requires WellFormedArgs(a)
    ensures r.Ok? ==> PC_LOCAL_NAME in r.value && r.value[PC_LOCAL_NAME] == VInt(0)
  {
    match LegacyPositional(PosWithDefaults(a), PosState(map[], positional, kw))
    case Err(e) => Err(e)
    case Ok(st) =>
      match LegacyKeywords(kw, KeywordNames(a), BindVararg(a, st))
      case Err(e) => Err(e)
      case Ok(frame) =>
        match BindKwOnly(a.kwonlyargs, a.kwDefaults, frame)
        case Err(e) => Err(e)
        case Ok(frame') => Ok(frame'[PC_LOCAL_NAME := VInt(0)])
  }

  /** `bind_frame` of `trampoline.py`, as the loops that fill the frame. */
  method LegacyBindFrame(args: seq<Value>, kwargs: KwArgs, a: Arguments) returns (r: Result<Frame, BindError>)
    requires WellFormedArgs(a)
    ensures r == LegacyBind(args, kwargs, a)
  {
    var ps := PosWithDefaultsGen(a);
    var pos := LegacyPositionalLoop(ps, args, kwargs);
    if pos.Err? {
      return Err(pos.error);
    }
    var frame := pos.value.frame;
    if a.vararg.Some? {
      frame := frame[a.vararg.value := VList(pos.value.rest)];
    }
    assert frame == BindVararg(a, pos.value);
    var kw := LegacyKeywordLoop(kwargs, KeywordNames(a), frame);
    if kw.Err? {
      return Err(kw.error);
    }
    var kwOnly := BindKwOnlyLoop(a.kwonlyargs, a.kwDefaults, kw.value);
    if kwOnly.Err? {
      return Err(kwOnly.error);
    }
    r := Ok(kwOnly.value[PC_LOCAL_NAME := VInt(0)]);
  }

  /** The positional loop of `trampoline.py`: values are popped from the end
      of the reversed argument list. */
  method LegacyPositionalLoop(ps: seq<(string, Option<Expr>)>, args: seq<Value>, kwargs: KwArgs)
    returns (r: Result<PosState, BindError>)
    ensures r == LegacyPositional(ps, PosState(map[], args, kwargs))
  {
    var frame: Frame := map[];
    var positional := Reverse(args);
    ReverseReverse(args);
    var i := 0;
    while i < |ps|
      invariant 0 <= i <= |ps|
      invariant LegacyPositional(ps[i..], PosState(frame, Reverse(positional), kwargs))
             == LegacyPositional(ps, PosState(map[], args, kwargs))
    {
      assert ps[i..][0] == ps[i] && ps[i..][1..] == ps[i + 1..];
      var (name, default) := ps[i];
      if positional == [] {
        if default.None? {
          return Err(TooFewPositional);
        }
        frame := frame[name := VNode(default.value)];
      } else {
        ReversePop(positional);
        frame := frame[name := positional[|positional| - 1]];
        positional := positional[..|positional| - 1];
      }
      i := i + 1;
    }
    assert ps[i..] == [];
    r := Ok(PosState(frame, Reverse(positional), kwargs));
  }

  /** The keyword loop of `trampoline.py`. */
  method LegacyKeywordLoop(kwargs: KwArgs, names: set<string>, frame0: Frame) returns (r: Result<Frame, BindError>)
    ensures r == LegacyKeywords(kwargs, names, frame0)
  {
    var frame := frame0;
    var j := 0;
    while j < |kwargs|
      invariant 0 <= j <= |kwargs|
      invariant LegacyKeywords(kwargs[j..], names, frame) == LegacyKeywords(kwargs, names, frame0)
    {
      assert kwargs[j..][0] == kwargs[j] && kwargs[j..][1..] == kwargs[j + 1..];
      var (kwarg, value) := kwargs[j];
      if kwarg !in names {
        return Err(InvalidKeyword(kwarg));
      }
      if kwarg in frame {
        return Err(MessageAttributeError(kwarg));
      }
      frame := frame[kwarg := value];
      j := j + 1;
    }
    assert kwargs[j..] == [];
    r := Ok(frame);
  }

  // ---------------------------------------------------------------------
  // What the older binder does, and where it differs from the current one
  // ---------------------------------------------------------------------

  /** A successful positional phase binds every positional parameter. */
  lemma {:induction false} LegacyPositionalBinds(ps: seq<(string, Option<Expr>)>, st: PosState)
    requires LegacyPositional(ps, st).Ok?
    ensures forall i | 0 <= i < |ps| :: ps[i].0 in LegacyPositional(ps, st).value.frame
    ensures forall k | k in st.frame :: k in LegacyPositional(ps, st).value.frame
    decreases |ps|
  {
    if ps != [] {
      var st1 := if st.rest != [] then PosState(st.frame[ps[0].0 := st.rest[0]], st.rest[1..], st.kwargs)
                 else st.(frame := st.frame[ps[0].0 := VNode(ps[0].1.value)]);
      LegacyPositionalBinds(ps[1..], st1);
      forall i | 1 <= i < |ps| ensures ps[i].0 in LegacyPositional(ps, st).value.frame {
        assert ps[1..][i - 1] == ps[i];
      }
    }
  }

  /** When no keyword names a positional parameter, the current positional
      phase never consults the keywords, and so does what the older one does. */
  lemma {:induction false} PositionalAgree(ps: seq<(string, Option<Expr>)>, posOnly: int, st: PosState)
    requires forall i | 0 <= i < |ps| :: ps[i].0 !in KwKeys(st.kwargs)
    ensures BindPositional(ps, posOnly, st) == LegacyPositional(ps, st)
    decreases |ps|
  {
    if ps != [] {
      assert forall i | 0 <= i < |ps| - 1 :: ps[1..][i] == ps[i + 1];
      if st.rest != [] {
        PositionalAgree(ps[1..], posOnly - 1, PosState(st.frame[ps[0].0 := st.rest[0]], st.rest[1..], st.kwargs));
      } else if ps[0].1.Some? {
        PositionalAgree(ps[1..], posOnly - 1, st.(frame := st.frame[ps[0].0 := VNode(ps[0].1.value)]));
      }
    }
  }

  /** The keyword phases agree as long as no keyword reaches the
      multiple-values branch. */
  lemma {:induction false} KeywordsAgree(kw: KwArgs, names: set<string>, f: Frame)
    requires DistinctKeys(kw)
    requires forall i | 0 <= i < |kw| && kw[i].0 in names :: kw[i].0 !in f
    ensures LegacyKeywords(kw, names, f) == BindKeywords(kw, names, f)
    decreases |kw|
  {
    if kw != [] && kw[0].0 in names {
      var f1 := f[kw[0].0 := kw[0].1];
      assert forall i | 0 <= i < |kw| - 1 :: kw[1..][i] == kw[i + 1] && kw[i + 1].0 != kw[0].0;
      KeywordsAgree(kw[1..], names, f1);
    }
  }

  /** Where no keyword names a positional parameter, both binders build the
      same frame and raise the same errors. */
  lemma LegacyBindAgrees(positional: seq<Value>, kw: KwArgs, a: Arguments)
    requires WellFormedArgs(a) && DistinctParams(a) && DistinctKeys(kw)
    requires forall k | k in KwKeys(kw) :: k !in PositionalNames(a)
    ensures LegacyBind(positional, kw, a) ==
      match Bind(positional, kw, a)
      case Ok(b) => Ok(b.frame)
      case Err(e) => Err(e)
  {
    ParamFacts(a);
    var ps := PosWithDefaults(a);
    var st0 := PosState(map[], positional, kw);
    assert forall i | 0 <= i < |ps| :: ps[i].0 !in KwKeys(kw) by {
      assert forall i | 0 <= i < |ps| :: ps[i].0 == PsNames(ps)[i];
    }
    PositionalAgree(ps, |a.posonlyargs|, st0);
    if LegacyPositional(ps, st0).Ok? {
      var st := LegacyPositional(ps, st0).value;
      PositionalOthers(ps, |a.posonlyargs|, st0);
      PositionalKeywords(ps, |a.posonlyargs|, st0);
      assert KwKeys(st.kwargs) == KwKeys(kw);
      assert st.kwargs == kw by {
        StepKeepsKeywords(ps, |a.posonlyargs|, st0);
      }
      forall i | 0 <= i < |kw| && kw[i].0 in KeywordNames(a) ensures kw[i].0 !in BindVararg(a, st) {
        KwKeysOf(kw, i);
      }
      KeywordsAgree(kw, KeywordNames(a), BindVararg(a, st));
    }
  }

  lemma {:induction false} KwKeysOf(kw: KwArgs, i: nat)
    requires i < |kw|
    ensures kw[i].0 in KwKeys(kw)
    decreases |kw|
  {
    if i > 0 {
      KwKeysOf(kw[1..], i - 1);
    }
  }

  /** A positional phase that takes no keyword leaves the keyword dict as it was. */
  lemma {:induction false} StepKeepsKeywords(ps: seq<(string, Option<Expr>)>, posOnly: int, st: PosState)
    requires forall i | 0 <= i < |ps| :: ps[i].0 !in KwKeys(st.kwargs)
    requires BindPositional(ps, posOnly, st).Ok?
    ensures BindPositional(ps, posOnly, st).value.kwargs == st.kwargs
    decreases |ps|
  {
    if ps != [] {
      assert forall i | 0 <= i < |ps| - 1 :: ps[1..][i] == ps[i + 1];
      StepKeepsKeywords(ps[1..], posOnly - 1, PosStep(ps[0], posOnly, st).value);
    }
  }

  /** A keyword that is a valid name but already bound reaches the
      multiple-values branch, whose message raises `AttributeError`. */
  lemma {:induction false} LegacyKeywordsRepeated(kw: KwArgs, names: set<string>, f: Frame, k: string)
    requires k in KwKeys(kw) && k in names && k in f
    requires forall j | j in KwKeys(kw) :: j in names
    ensures LegacyKeywords(kw, names, f).Err?
    ensures LegacyKeywords(kw, names, f).error.MessageAttributeError?
    decreases |kw|
  {
    if kw[0].0 != k && kw[0].0 !in f {
      LegacyKeywordsRepeated(kw[1..], names, f[kw[0].0 := kw[0].1], k);
    }
  }

  /** The older binder never lets a keyword fill a regular positional
      parameter: the parameter already holds a positional value or its
      default, so the call fails (`fib(n=n-2)` cannot be bound). */
  lemma LegacyKeywordForPositionalFails(positional: seq<Value>, kw: KwArgs, a: Arguments, i: nat)
    requires WellFormedArgs(a)
    requires i < |a.args| && a.args[i] in KwKeys(kw)
    ensures LegacyBind(positional, kw, a).Err?
  {
    var ps := PosWithDefaults(a);
    var st0 := PosState(map[], positional, kw);
    if LegacyPositional(ps, st0).Ok? {
      LegacyPositionalBinds(ps, st0);
      var st := LegacyPositional(ps, st0).value;
      var k := a.args[i];
      assert ps[|a.posonlyargs| + i].0 == k;
      assert k in KeywordNames(a);
      if forall j | j in KwKeys(kw) :: j in KeywordNames(a) {
        LegacyKeywordsRepeated(kw, KeywordNames(a), BindVararg(a, st), k);
      } else {
        var j :| j in KwKeys(kw) && j !in KeywordNames(a);
        KeywordsReject(kw, KeywordNames(a), BindVararg(a, st), j);
        LegacyKeywordsRejectUnknown(kw, KeywordNames(a), BindVararg(a, st), j);
      }
    }
  }

  /** A keyword naming no parameter is rejected. */
  lemma {:induction false} LegacyKeywordsRejectUnknown(kw: KwArgs, names: set<string>, f: Frame, k: string)
    requires k in KwKeys(kw) && k !in names
    ensures LegacyKeywords(kw, names, f).Err?
    decreases |kw|
  {
    if kw[0].0 != k && kw[0].0 in names && kw[0].0 !in f {
      LegacyKeywordsRejectUnknown(kw[1..], names, f[kw[0].0 := kw[0].1], k);
    }
  }

  /** `def f(x)` called as `f(1, x=2)`: the older binder raises
      `AttributeError`, the current one the intended `TypeError` for
      multiple values. */
  lemma RepeatedKeywordMessageFails()
    ensures LegacyBind([VInt(1)], [("x", VInt(2))], Arguments([], ["x"], None, [], [], [])) == Err(MessageAttributeError("x"))
    ensures Bind([VInt(1)], [("x", VInt(2))], Arguments([], ["x"], None, [], [], [])) == Err(MultipleValues("x"))
  {
    var a := Arguments([], ["x"], None, [], [], []);
    var ps := PosWithDefaults(a);
    assert ps == [("x", None)];
    var st0 := PosState(map[], [VInt(1)], [("x", VInt(2))]);
    var st1 := PosState(map["x" := VInt(1)], [], [("x", VInt(2))]);
    assert ps[1..] == [];
    assert st0.rest[1..] == [];
    assert st0.frame[ps[0].0 := st0.rest[0]] == st1.frame;
    assert LegacyPositional(ps, st0) == LegacyPositional(ps[1..], st1);
    assert LegacyPositional(ps, st0) == Ok(st1);
    assert PosStep(ps[0], 0, st0) == Ok(st1);
    assert BindPositional(ps, 0, st0) == Ok(st1);
    assert "x" in KeywordNames(a) by {
      assert a.args[0] == "x";
    }
  }
}
