/** The scheduler (`src/trampoline.py`): binds call arguments into a fresh
    frame and runs step functions on an explicit stack of frames. */
module Trampoline {
  import opened Wrappers
  import opened PyAst
  import opened Jumps
  import opened Fiber

  // ---------------------------------------------------------------------
  // Keyword-argument dicts
  // ---------------------------------------------------------------------

  function KwKeys(kw: KwArgs): set<string>
    decreases |kw|
  {
    if kw == [] then {} else {kw[0].0} + KwKeys(kw[1..])
  }

  /** `kw[k]`. */
  function KwGet(kw: KwArgs, k: string): Value
    requires k in KwKeys(kw)
    decreases |kw|
  {
    if kw[0].0 == k then kw[0].1 else KwGet(kw[1..], k)
  }

  /** `del kw[k]`. */
  function KwDel(kw: KwArgs, k: string): (r: KwArgs)
    ensures KwKeys(r) == KwKeys(kw) - {k}
    ensures forall j | j in KwKeys(r) :: KwGet(r, j) == KwGet(kw, j)
    decreases |kw|
  {
    if kw == [] then []
    else if kw[0].0 == k then KwDel(kw[1..], k)
    else
      var r := [kw[0]] + KwDel(kw[1..], k);
      assert r[1..] == KwDel(kw[1..], k);
      r
  }

  /** A dict holds each key once. */
  predicate DistinctKeys(kw: KwArgs) {
    forall i, j | 0 <= i < j < |kw| :: kw[i].0 != kw[j].0
  }

  lemma {:induction false} KwGetAt(kw: KwArgs, i: nat)
    requires DistinctKeys(kw) && i < |kw|
    ensures kw[i].0 in KwKeys(kw) && KwGet(kw, kw[i].0) == kw[i].1
    decreases |kw|
  {
    if i > 0 {
      assert DistinctKeys(kw[1..]) by {
        forall a, b | 0 <= a < b < |kw| - 1 ensures kw[1..][a].0 != kw[1..][b].0 {
          assert kw[1..][a] == kw[a + 1] && kw[1..][b] == kw[b + 1];
        }
      }
      KwGetAt(kw[1..], i - 1);
      assert kw[1..][i - 1] == kw[i];
    }
  }

  lemma {:induction false} KwKeysAt(kw: KwArgs, k: string)
    requires k in KwKeys(kw)
    ensures exists i | 0 <= i < |kw| :: kw[i].0 == k
    decreases |kw|
  {
    if kw[0].0 != k {
      KwKeysAt(kw[1..], k);
      var i :| 0 <= i < |kw| - 1 && kw[1..][i].0 == k;
      assert kw[i + 1].0 == k;
    }
  }

  // ---------------------------------------------------------------------
  // pos_with_defaults
  // ---------------------------------------------------------------------

  /** Python's parser never gives more defaults than positional parameters. */
  predicate WellFormedArgs(a: Arguments) {
    |a.defaults| <= |a.posonlyargs| + |a.args|
  }

  function PositionalNames(a: Arguments): seq<string> {
    a.posonlyargs + a.args
  }

  /** `pos_with_defaults(args)` as the list it yields. */
  function PosWithDefaults(a: Arguments): seq<(string, Option<Expr>)>
    requires WellFormedArgs(a)
  {
    var names := PositionalNames(a);
    var k := |names| - |a.defaults|;
    seq(|names|, i requires 0 <= i < |names| => (names[i], if i < k then None else Some(a.defaults[i - k])))
  }

  /** `pos_with_defaults`: the positional-only then the regular parameters in
      declaration order, the first `n - len(defaults)` without a default and
      the rest paired with the defaults in order. */
  method PosWithDefaultsGen(a: Arguments) returns (ps: seq<(string, Option<Expr>)>)
    requires WellFormedArgs(a)
    ensures |ps| == |a.posonlyargs| + |a.args|
    ensures forall i | 0 <= i < |ps| :: ps[i].0 == PositionalNames(a)[i]
    ensures forall i | 0 <= i < |ps| ::
      ps[i].1 == (if i < |ps| - |a.defaults| then None else Some(a.defaults[i - (|ps| - |a.defaults|)]))
    ensures ps == PosWithDefaults(a)
  {
    var names := a.posonlyargs + a.args;
    var numNonDefaults := |names| - |a.defaults|;
    var next := 0;
    ps := [];
    while next < numNonDefaults
      invariant 0 <= next <= numNonDefaults
      invariant ps == PosWithDefaults(a)[..next]
    {
      ps := ps + [(names[next], None)];
      next := next + 1;
    }
    var j := 0;
    while j < |a.defaults|
      invariant 0 <= j <= |a.defaults| && next == numNonDefaults + j
      invariant ps == PosWithDefaults(a)[..next]
    {
      ps := ps + [(names[next], Some(a.defaults[j]))];
      next := next + 1;
      j := j + 1;
    }
    assert ps == PosWithDefaults(a);
  }

  // ---------------------------------------------------------------------
  // bind_frame, phase by phase
  // ---------------------------------------------------------------------

  datatype BindError =
    | PositionalOnlyAsKeyword(name: string)
    | TooFewPositional
    | InvalidKeyword(name: string)
    | MultipleValues(name: string)
    | MissingKeywordOnly(name: string)
    | MalformedDefault(name: string)
      /** The older `bind_frame` raises `AttributeError` while formatting its
          "multiple values" message. */
    | MessageAttributeError(name: string)
      /** More defaults than positional parameters, which Python's parser
          never produces: `next` on the exhausted parameter iterator inside
          `pos_with_defaults` raises `RuntimeError`. */
    | TooManyDefaults

  /** The frame built so far, the positional values not yet taken (front
      first) and what is left of the caller's keyword dict. */
  datatype PosState = PosState(frame: Frame, rest: seq<Value>, kwargs: KwArgs)

  /** A bound frame and the caller's keyword dict after the keys consumed by
      positional parameters were deleted from it. */
  datatype Bound = Bound(frame: Frame, kwargs: KwArgs)

  /** The positional phase: each parameter takes the next positional value;
      once those run out, a keyword of its name (an error for a
      positional-only one), else its default (the AST node itself), else the
      call has too few arguments. `posOnly` counts the positional-only
      parameters still ahead. */
  function BindPositional(ps: seq<(string, Option<Expr>)>, posOnly: int, st: PosState): Result<PosState, BindError>
    decreases |ps|
  {
    if ps == [] then Ok(st)
    else match PosStep(ps[0], posOnly, st)
      case Err(e) => Err(e)
      case Ok(st') => BindPositional(ps[1..], posOnly - 1, st')
  }

  /** One parameter of the positional phase; `posOnly > 0` when it is
      positional-only. */
  function PosStep(p: (string, Option<Expr>), posOnly: int, st: PosState): Result<PosState, BindError> {
    var name := p.0;
    if st.rest != [] then Ok(PosState(st.frame[name := st.rest[0]], st.rest[1..], st.kwargs))
    else if name in KwKeys(st.kwargs) then
      if posOnly > 0 then Err(PositionalOnlyAsKeyword(name))
      else Ok(PosState(st.frame[name := KwGet(st.kwargs, name)], st.rest, KwDel(st.kwargs, name)))
    else if p.1.None? then Err(TooFewPositional)
    else Ok(st.(frame := st.frame[name := VNode(p.1.value)]))
  }

  /** The names a keyword may bind: regular and keyword-only parameters. */
  function KeywordNames(a: Arguments): set<string> {
    (set i | 0 <= i < |a.args| :: a.args[i]) + (set i | 0 <= i < |a.kwonlyargs| :: a.kwonlyargs[i])
  }

  /** The keyword phase, over what is left of the keyword dict. */
  function BindKeywords(kw: KwArgs, names: set<string>, frame: Frame): Result<Frame, BindError>
    decreases |kw|
  {
    if kw == [] then Ok(frame)
    else if kw[0].0 !in names then Err(InvalidKeyword(kw[0].0))
    else if kw[0].0 in frame then Err(MultipleValues(kw[0].0))
    else BindKeywords(kw[1..], names, frame[kw[0].0 := kw[0].1])
  }

  /** `ast.literal_eval` on the forms of the model's AST: a constant, or a
      list or dict display of literals, nested to any depth. `None` stands
      for the error `literal_eval` raises on any other node, on a `**`
      entry of a dict, and on a list or dict used as a key. */
  function LiteralEval(e: Expr): (r: Option<Value>)
    ensures r.Some? ==> !r.value.VNode?
    ensures e.Const? ==> r.Some?
    decreases e
  {
    match e
    case Const(lit) => Some(LiteralValue(lit))
    case ListExpr(elts) =>
      if forall i | 0 <= i < |elts| :: LiteralEval(elts[i]).Some?
      then Some(VList(seq(|elts|, i requires 0 <= i < |elts| && LiteralEval(elts[i]).Some? => LiteralEval(elts[i]).value)))
      else None
    case DictExpr(keys, values) =>
      if && |keys| == |values|
         && (forall i | 0 <= i < |keys| ::
               keys[i].Some? && LiteralEval(keys[i].value).Some? && Hashable(LiteralEval(keys[i].value).value))
         && (forall i | 0 <= i < |values| :: LiteralEval(values[i]).Some?)
      then
        var pairs := seq(|keys|, i requires 0 <= i < |keys| && keys[i].Some? && LiteralEval(keys[i].value).Some?
                                                && LiteralEval(values[i]).Some? =>
                               (LiteralEval(keys[i].value).value, LiteralEval(values[i]).value));
        Some(VDict(DictOf(pairs)))
      else None
    case _ => None
  }

  function LiteralValue(lit: Literal): Value {
    match lit
    case LInt(i) => VInt(i)
    case LStr(s) => VStr(s)
    case LBool(b) => VBool(b)
    case LNone => VNone
  }

  /** The values a dict accepts as keys: lists and dicts are unhashable. */
  predicate Hashable(v: Value) {
    !v.VList? && !v.VDict?
  }

  /** `d[k] = v` on a dict's entries: an existing key keeps its place and
      takes the new value; a new key goes last. */
  function DictPut(d: seq<(Value, Value)>, p: (Value, Value)): (r: seq<(Value, Value)>)
    ensures p in r
    ensures forall q | q in r :: q in d || q == p
    decreases |d|
  {
    if d == [] then [p]
    else if d[0].0 == p.0 then [p] + d[1..]
    else [d[0]] + DictPut(d[1..], p)
  }

  /** `dict(pairs)`: the pairs stored left to right, a later value for a
      key replacing an earlier one. */
  function DictOf(pairs: seq<(Value, Value)>): (r: seq<(Value, Value)>)
    ensures forall q | q in r :: q in pairs
    decreases |pairs|
  {
    if pairs == [] then []
    else DictPut(DictOf(pairs[..|pairs| - 1]), pairs[|pairs| - 1])
  }

  /** Values that are literals: no AST node inside, and dict keys hashable
      and distinct. */
  predicate IsLiteral(v: Value)
    decreases v
  {
    match v
    case VList(items) => forall i | 0 <= i < |items| :: IsLiteral(items[i])
    case VDict(entries) =>
      && (forall i | 0 <= i < |entries| :: Hashable(entries[i].0) && IsLiteral(entries[i].0) && IsLiteral(entries[i].1))
      && (forall i, j | 0 <= i < j < |entries| :: entries[i].0 != entries[j].0)
    case VNode(_) => false
    case _ => true
  }

  /** The display `repr` writes for a literal value, as an AST. */
  function Unparse(v: Value): Expr
    requires IsLiteral(v)
    decreases v
  {
    match v
    case VInt(i) => Const(LInt(i))
    case VBool(b) => Const(LBool(b))
    case VStr(s) => Const(LStr(s))
    case VNone => Const(LNone)
    case VList(items) => ListExpr(seq(|items|, i requires 0 <= i < |items| => Unparse(items[i])))
    case VDict(entries) =>
      DictExpr(seq(|entries|, i requires 0 <= i < |entries| => Some(Unparse(entries[i].0))),
               seq(|entries|, i requires 0 <= i < |entries| => Unparse(entries[i].1)))
  }

  /** Storing a key not yet in the dict appends its entry. */
  lemma {:induction false} DictPutNew(d: seq<(Value, Value)>, p: (Value, Value))
    requires forall i | 0 <= i < |d| :: d[i].0 != p.0
    ensures DictPut(d, p) == d + [p]
    decreases |d|
  {
    if d != [] {
      DictPutNew(d[1..], p);
      assert [d[0]] + (d[1..] + [p]) == d + [p];
    }
  }

  /** A dict built from pairs with distinct keys holds exactly those pairs,
      in order. */
  lemma {:induction false} DictOfDistinct(pairs: seq<(Value, Value)>)
    requires forall i, j | 0 <= i < j < |pairs| :: pairs[i].0 != pairs[j].0
    ensures DictOf(pairs) == pairs
    decreases |pairs|
  {
    if pairs != [] {
      var init := pairs[..|pairs| - 1];
      DictOfDistinct(init);
      DictPutNew(init, pairs[|pairs| - 1]);
      assert init + [pairs[|pairs| - 1]] == pairs;
    }
  }

  /** `literal_eval(repr(v)) == v` for every literal value. */
  lemma {:induction false} LiteralEvalRoundTrip(v: Value)
    requires IsLiteral(v)
    ensures LiteralEval(Unparse(v)) == Some(v)
    decreases v
  {
    match v
    case VList(items) =>
      var elts := Unparse(v).elts;
      forall i | 0 <= i < |items| ensures LiteralEval(elts[i]) == Some(items[i]) {
        LiteralEvalRoundTrip(items[i]);
      }
      LiteralEvalList(elts, items);
    case VDict(entries) =>
      var e := Unparse(v);
      forall i | 0 <= i < |entries|
        ensures e.keys[i].Some? && LiteralEval(e.keys[i].value) == Some(entries[i].0)
        ensures LiteralEval(e.values[i]) == Some(entries[i].1)
      {
        LiteralEvalRoundTrip(entries[i].0);
        LiteralEvalRoundTrip(entries[i].1);
      }
      LiteralEvalDict(e.keys, e.values, entries);
    case _ =>
  }

  /** A list display whose elements evaluate to `items` evaluates to the
      list of them. */
  lemma LiteralEvalList(elts: seq<Expr>, items: seq<Value>)
    requires |elts| == |items|
    requires forall i | 0 <= i < |elts| :: LiteralEval(elts[i]) == Some(items[i])
    ensures LiteralEval(ListExpr(elts)) == Some(VList(items))
  {
    var r := seq(|elts|, i requires 0 <= i < |elts| && LiteralEval(elts[i]).Some? => LiteralEval(elts[i]).value);
    assert LiteralEval(ListExpr(elts)) == Some(VList(r));
    assert r == items;
  }

  /** A dict display whose keys and values evaluate to the entries, with
      hashable and distinct keys, evaluates to the dict of those entries. */
  lemma LiteralEvalDict(keys: seq<Option<Expr>>, values: seq<Expr>, entries: seq<(Value, Value)>)
    requires |keys| == |values| == |entries|
    requires forall i | 0 <= i < |keys| :: keys[i].Some? && LiteralEval(keys[i].value) == Some(entries[i].0)
    requires forall i | 0 <= i < |values| :: LiteralEval(values[i]) == Some(entries[i].1)
    requires forall i | 0 <= i < |entries| :: Hashable(entries[i].0)
    requires forall i, j | 0 <= i < j < |entries| :: entries[i].0 != entries[j].0
    ensures LiteralEval(DictExpr(keys, values)) == Some(VDict(entries))
  {
    var pairs := seq(|keys|, i requires 0 <= i < |keys| && keys[i].Some? && LiteralEval(keys[i].value).Some?
                                         && LiteralEval(values[i]).Some? =>
                       (LiteralEval(keys[i].value).value, LiteralEval(values[i]).value));
    assert LiteralEval(DictExpr(keys, values)) == Some(VDict(DictOf(pairs)));
    assert pairs == entries;
    DictOfDistinct(entries);
  }

  /** The keyword-only phase over `zip(kwonlyargs, kw_defaults)`: a missing
      parameter takes its evaluated default, or the call fails without one. */
  function BindKwOnly(names: seq<string>, defaults: seq<Option<Expr>>, frame: Frame): Result<Frame, BindError>
    decreases |names|
  {
    if names == [] || defaults == [] then Ok(frame)
    else if names[0] in frame then BindKwOnly(names[1..], defaults[1..], frame)
    else if defaults[0].None? then Err(MissingKeywordOnly(names[0]))
    else match LiteralEval(defaults[0].value)
      case None => Err(MalformedDefault(names[0]))
      case Some(v) => BindKwOnly(names[1..], defaults[1..], frame[names[0] := v])
  }

  function BindVararg(a: Arguments, st: PosState): Frame {
    if a.vararg.Some? then st.frame[a.vararg.value := VList(st.rest)] else st.frame
  }

  /** `bind_frame(positional_args, keyword_args, fn_tree)`. */
  function Bind(positional: seq<Value>, kw: KwArgs, a: Arguments): (r: Result<Bound, BindError>)
    requires WellFormedArgs(a)
    ensures r.Ok? ==> PC_LOCAL_NAME in r.value.frame && r.value.frame[PC_LOCAL_NAME] == VInt(0)
  {
    match BindPositional(PosWithDefaults(a), |a.posonlyargs|, PosState(map[], positional, kw))
    case Err(e) => Err(e)
    case Ok(st) =>
      match BindKeywords(st.kwargs, KeywordNames(a), BindVararg(a, st))
      case Err(e) => Err(e)
      case Ok(frame) =>
        match BindKwOnly(a.kwonlyargs, a.kwDefaults, frame)
        case Err(e) => Err(e)
        case Ok(frame') => Ok(Bound(frame'[PC_LOCAL_NAME := VInt(0)], st.kwargs))
  }

  // ---------------------------------------------------------------------
  // bind_frame as the loops that fill the frame
  // ---------------------------------------------------------------------

  function Reverse<T>(s: seq<T>): (r: seq<T>)
    ensures |r| == |s|
  {
    seq(|s|, i requires 0 <= i < |s| => s[|s| - 1 - i])
  }

  /** Position `i` of the reversed list holds position `|s| - 1 - i` of the
      list. */
  lemma ReverseAt<T>(s: seq<T>, i: nat)
    requires i < |s|
    ensures Reverse(s)[i] == s[|s| - 1 - i]
  {
  }

  lemma ReversePop<T>(s: seq<T>)
    requires s != []
    ensures Reverse(s)[0] == s[|s| - 1]
    ensures Reverse(s[..|s| - 1]) == Reverse(s)[1..]
  {
  }

  lemma ReverseReverse<T>(s: seq<T>)
    ensures Reverse(Reverse(s)) == s
  {
  }

  /** `bind_frame`: pops positional values from the reversed list, deletes
      the keywords it uses from the caller's dict, then binds the rest
      parameter, the keywords, the keyword-only defaults and `__pc`. */
  method BindFrame(positionalArgs: seq<Value>, keywordArgs: KwArgs, a: Arguments) returns (r: Result<Bound, BindError>)
    requires WellFormedArgs(a)
    ensures r == Bind(positionalArgs, keywordArgs, a)
  {
    var ps := PosWithDefaultsGen(a);
    var st := BindPositionalLoop(ps, |a.posonlyargs|, PosState(map[], positionalArgs, keywordArgs));
    if st.Err? {
      return Err(st.error);
    }
    var frame := st.value.frame;
    if a.vararg.Some? {
      frame := frame[a.vararg.value := VList(st.value.rest)];
    }
    var kwFrame := BindKeywordsLoop(st.value.kwargs, KeywordNames(a), frame);
    if kwFrame.Err? {
      return Err(kwFrame.error);
    }
    var kwOnlyFrame := BindKwOnlyLoop(a.kwonlyargs, a.kwDefaults, kwFrame.value);
    if kwOnlyFrame.Err? {
      return Err(kwOnlyFrame.error);
    }
    frame := kwOnlyFrame.value[PC_LOCAL_NAME := VInt(0)];
    r := Ok(Bound(frame, st.value.kwargs));
  }

  /** The positional phase from parameter `i` on: that parameter's step,
      then the rest. */
  lemma BindPositionalAt(ps: seq<(string, Option<Expr>)>, i: nat, posOnly: int, st: PosState)
    requires i < |ps|
    ensures BindPositional(ps[i..], posOnly - i, st) ==
      match PosStep(ps[i], posOnly - i, st)
      case Err(e) => Err(e)
      case Ok(st') => BindPositional(ps[i + 1..], posOnly - i - 1, st')
  {
    assert ps[i..][0] == ps[i] && ps[i..][1..] == ps[i + 1..];
  }

  /** A positional value left: the step binds the last of the reversed
      list, which is the first value still unbound. */
  lemma PosStepPop(p: (string, Option<Expr>), posOnly: int, frame: Frame, positional: seq<Value>, kw: KwArgs)
    requires positional != []
    ensures PosStep(p, posOnly, PosState(frame, Reverse(positional), kw))
      == Ok(PosState(frame[p.0 := positional[|positional| - 1]], Reverse(positional[..|positional| - 1]), kw))
  {
    ReversePop(positional);
  }

  /** The first loop of `bind_frame`: positional values are popped from the
      back of the reversed list. */
  method BindPositionalLoop(ps: seq<(string, Option<Expr>)>, posOnly: int, init: PosState) returns (r: Result<PosState, BindError>)
    ensures r == BindPositional(ps, posOnly, init)
  {
    var frame := init.frame;
    var positional := Reverse(init.rest);
    var keywordArgs := init.kwargs;
    var i := 0;
    assert PosState(frame, Reverse(positional), keywordArgs) == init by {
      ReverseReverse(init.rest);
    }
    assert ps[i..] == ps;
    while i < |ps|
      invariant 0 <= i <= |ps|
      invariant BindPositional(ps[i..], posOnly - i, PosState(frame, Reverse(positional), keywordArgs))
             == BindPositional(ps, posOnly, init)
    {
      ghost var st := PosState(frame, Reverse(positional), keywordArgs);
      BindPositionalAt(ps, i, posOnly, st);
      var name := ps[i].0;
      if positional != [] {
        PosStepPop(ps[i], posOnly - i, frame, positional, keywordArgs);
        frame := frame[name := positional[|positional| - 1]];
        positional := positional[..|positional| - 1];
      } else {
        assert st.rest == [];
        if name in KwKeys(keywordArgs) {
          if i < posOnly {
            assert PosStep(ps[i], posOnly - i, st) == Err(PositionalOnlyAsKeyword(name));
            return Err(PositionalOnlyAsKeyword(name));
          }
          frame := frame[name := KwGet(keywordArgs, name)];
          keywordArgs := KwDel(keywordArgs, name);
          assert PosStep(ps[i], posOnly - i, st) == Ok(PosState(frame, [], keywordArgs));
        } else if ps[i].1.None? {
          assert PosStep(ps[i], posOnly - i, st) == Err(TooFewPositional);
          return Err(TooFewPositional);
        } else {
          frame := frame[name := VNode(ps[i].1.value)];
          assert PosStep(ps[i], posOnly - i, st) == Ok(PosState(frame, [], keywordArgs));
        }
      }
      i := i + 1;
    }
    assert ps[i..] == [];
    r := Ok(PosState(frame, Reverse(positional), keywordArgs));
  }

  /** The keyword loop of `bind_frame`. */
  method BindKeywordsLoop(kw: KwArgs, names: set<string>, init: Frame) returns (r: Result<Frame, BindError>)
    ensures r == BindKeywords(kw, names, init)
  {
    var frame := init;
    var j := 0;
    while j < |kw|
      invariant 0 <= j <= |kw|
      invariant BindKeywords(kw[j..], names, frame) == BindKeywords(kw, names, init)
    {
      assert kw[j..][0] == kw[j] && kw[j..][1..] == kw[j + 1..];
      var (kwarg, value) := kw[j];
      if kwarg !in names {
        return Err(InvalidKeyword(kwarg));
      }
      if kwarg in frame {
        return Err(MultipleValues(kwarg));
      }
      frame := frame[kwarg := value];
      j := j + 1;
    }
    assert kw[j..] == [];
    r := Ok(frame);
  }

  /** The keyword-only loop of `bind_frame`. */
  method BindKwOnlyLoop(names: seq<string>, defaults: seq<Option<Expr>>, init: Frame) returns (r: Result<Frame, BindError>)
    ensures r == BindKwOnly(names, defaults, init)
  {
    var frame := init;
    var j := 0;
    while j < |names| && j < |defaults|
      invariant 0 <= j <= |names| && j <= |defaults|
      invariant BindKwOnly(names[j..], defaults[j..], frame) == BindKwOnly(names, defaults, init)
    {
      assert names[j..][0] == names[j] && names[j..][1..] == names[j + 1..];
      assert defaults[j..][0] == defaults[j] && defaults[j..][1..] == defaults[j + 1..];
      var kwarg, default := names[j], defaults[j];
      if default.None? && kwarg !in frame {
        return Err(MissingKeywordOnly(kwarg));
      }
      if default.Some? && kwarg !in frame {
        var v := LiteralEval(default.value);
        if v.None? {
          return Err(MalformedDefault(kwarg));
        }
        frame := frame[kwarg := v.value];
      }
      j := j + 1;
    }
    assert names[j..] == [] || defaults[j..] == [];
    r := Ok(frame);
  }
}
