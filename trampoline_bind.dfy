/** What `bind_frame` (`src/trampoline.py`) promises about the frame it
    builds and the calls it rejects. */
module TrampolineBind {
  import opened Wrappers
  import opened PyAst
  import opened Jumps
  import opened Fiber
  import opened Trampoline

  predicate DistinctSeq(s: seq<string>) {
    forall i, j | 0 <= i < j < |s| :: s[i] != s[j]
  }

  function PsNames(ps: seq<(string, Option<Expr>)>): (r: seq<string>)
    ensures |r| == |ps| && forall i | 0 <= i < |ps| :: r[i] == ps[i].0
  {
    seq(|ps|, i requires 0 <= i < |ps| => ps[i].0)
  }

  lemma DistinctTail(ps: seq<(string, Option<Expr>)>)
    requires ps != [] && DistinctSeq(PsNames(ps))
    ensures DistinctSeq(PsNames(ps[1..]))
    ensures ps[0].0 !in PsNames(ps[1..])
  {
  }

  // ---------------------------------------------------------------------
  // The positional phase
  // ---------------------------------------------------------------------

  /** The value the positional phase gives parameter `i`: the `i`-th
      positional value, else the keyword of its name, else its default. */
  function PosValue(ps: seq<(string, Option<Expr>)>, st: PosState, i: nat): Value
    requires i < |ps|
  {
    if i < |st.rest| then st.rest[i]
    else if ps[i].0 in KwKeys(st.kwargs) then KwGet(st.kwargs, ps[i].0)
    else if ps[i].1.Some? then VNode(ps[i].1.value)
    else VNone
  }

  /** Parameter `i` is not filled positionally and cannot be filled otherwise. */
  predicate Unbindable(ps: seq<(string, Option<Expr>)>, posOnly: int, st: PosState, i: nat)
    requires i < |ps|
  {
    |st.rest| <= i &&
    if ps[i].0 in KwKeys(st.kwargs) then i < posOnly else ps[i].1.None?
  }

  function UnbindableError(ps: seq<(string, Option<Expr>)>, st: PosState, i: nat): BindError
    requires i < |ps|
  {
    if ps[i].0 in KwKeys(st.kwargs) then PositionalOnlyAsKeyword(ps[i].0) else TooFewPositional
  }

  /** Names of the parameters left for keywords and defaults. */
  function UnfilledNames(ps: seq<(string, Option<Expr>)>, filled: nat): set<string> {
    set i | filled <= i < |ps| :: ps[i].0
  }

  lemma PosStepShift(ps: seq<(string, Option<Expr>)>, posOnly: int, st: PosState)
    requires ps != [] && DistinctSeq(PsNames(ps))
    requires PosStep(ps[0], posOnly, st).Ok?
    ensures var st' := PosStep(ps[0], posOnly, st).value;
      && (forall i | 1 <= i < |ps| :: PosValue(ps[1..], st', i - 1) == PosValue(ps, st, i))
      && (forall i | 1 <= i < |ps| ::
            Unbindable(ps[1..], posOnly - 1, st', i - 1) == Unbindable(ps, posOnly, st, i))
      && (forall i | 1 <= i < |ps| ::
            |st.rest| <= i ==> UnbindableError(ps[1..], st', i - 1) == UnbindableError(ps, st, i))
  {
    DistinctTail(ps);
    var st' := PosStep(ps[0], posOnly, st).value;
    forall i | 1 <= i < |ps|
      ensures PosValue(ps[1..], st', i - 1) == PosValue(ps, st, i)
      ensures Unbindable(ps[1..], posOnly - 1, st', i - 1) == Unbindable(ps, posOnly, st, i)
      ensures |st.rest| <= i ==> UnbindableError(ps[1..], st', i - 1) == UnbindableError(ps, st, i)
    {
      assert ps[1..][i - 1] == ps[i];
      assert ps[i].0 != ps[0].0 by { assert PsNames(ps)[0] != PsNames(ps)[i]; }
    }
  }

  /** A successful positional phase gives each parameter its `PosValue`. */
  lemma {:induction false} PositionalValues(ps: seq<(string, Option<Expr>)>, posOnly: int, st: PosState)
    requires DistinctSeq(PsNames(ps))
    requires BindPositional(ps, posOnly, st).Ok?
    ensures var st' := BindPositional(ps, posOnly, st).value;
      forall i | 0 <= i < |ps| :: ps[i].0 in st'.frame && st'.frame[ps[i].0] == PosValue(ps, st, i)
    decreases |ps|
  {
    if ps != [] {
      var st1 := PosStep(ps[0], posOnly, st).value;
      DistinctTail(ps);
      PositionalValues(ps[1..], posOnly - 1, st1);
      PositionalOthers(ps[1..], posOnly - 1, st1);
      PosStepShift(ps, posOnly, st);
      var st' := BindPositional(ps, posOnly, st).value;
      forall i | 0 <= i < |ps| ensures ps[i].0 in st'.frame && st'.frame[ps[i].0] == PosValue(ps, st, i) {
        if i > 0 {
          assert ps[1..][i - 1] == ps[i];
        }
      }
    }
  }

  /** The positional phase touches no other name of the frame and adds none. */
  lemma {:induction false} PositionalOthers(ps: seq<(string, Option<Expr>)>, posOnly: int, st: PosState)
    requires BindPositional(ps, posOnly, st).Ok?
    ensures var st' := BindPositional(ps, posOnly, st).value;
      && (forall k | k in st.frame && k !in PsNames(ps) :: k in st'.frame && st'.frame[k] == st.frame[k])
      && (forall k | k in st'.frame :: k in st.frame || k in PsNames(ps))
    decreases |ps|
  {
    if ps != [] {
      var st1 := PosStep(ps[0], posOnly, st).value;
      PositionalOthers(ps[1..], posOnly - 1, st1);
      assert forall k | k in PsNames(ps[1..]) :: k in PsNames(ps) by {
        forall k | k in PsNames(ps[1..]) ensures k in PsNames(ps) {
          var j :| 0 <= j < |ps| - 1 && PsNames(ps[1..])[j] == k;
          assert PsNames(ps)[j + 1] == k;
        }
      }
    }
  }

  /** The positional values left over after the phase, in their original order. */
  lemma {:induction false} PositionalRest(ps: seq<(string, Option<Expr>)>, posOnly: int, st: PosState)
    requires BindPositional(ps, posOnly, st).Ok?
    ensures BindPositional(ps, posOnly, st).value.rest == if |ps| < |st.rest| then st.rest[|ps|..] else []
    decreases |ps|
  {
    if ps != [] {
      PositionalRest(ps[1..], posOnly - 1, PosStep(ps[0], posOnly, st).value);
    }
  }

  /** The keys a successful phase deletes from the keyword dict are exactly
      the names of the parameters it filled from keywords. */
  lemma {:induction false} PositionalKeywords(ps: seq<(string, Option<Expr>)>, posOnly: int, st: PosState)
    requires BindPositional(ps, posOnly, st).Ok?
    ensures var st' := BindPositional(ps, posOnly, st).value;
      && KwKeys(st'.kwargs) == KwKeys(st.kwargs) - UnfilledNames(ps, |st.rest|)
      && forall k | k in KwKeys(st'.kwargs) :: KwGet(st'.kwargs, k) == KwGet(st.kwargs, k)
    decreases |ps|
  {
    if ps != [] {
      var st1 := PosStep(ps[0], posOnly, st).value;
      PositionalKeywords(ps[1..], posOnly - 1, st1);
      if st.rest != [] {
        assert UnfilledNames(ps[1..], |st1.rest|) == UnfilledNames(ps, |st.rest|) by {
          forall k ensures k in UnfilledNames(ps[1..], |st1.rest|) <==> k in UnfilledNames(ps, |st.rest|) {
            if k in UnfilledNames(ps, |st.rest|) {
              var i :| |st.rest| <= i < |ps| && ps[i].0 == k;
              assert ps[1..][i - 1] == ps[i];
            }
          }
        }
      } else {
        assert UnfilledNames(ps, 0) == {ps[0].0} + UnfilledNames(ps[1..], 0) by {
          forall k ensures k in UnfilledNames(ps, 0) <==> k in {ps[0].0} + UnfilledNames(ps[1..], 0) {
            if k in UnfilledNames(ps, 0) {
              var i :| 0 <= i < |ps| && ps[i].0 == k;
              if i > 0 {
                assert ps[1..][i - 1] == ps[i];
              }
            }
            if k in UnfilledNames(ps[1..], 0) {
              var i :| 0 <= i < |ps| - 1 && ps[1..][i].0 == k;
              assert ps[i + 1].0 == k;
            }
          }
        }
      }
    }
  }

  /** The positional phase succeeds exactly when no parameter is unbindable,
      and otherwise reports the first unbindable one. */
  lemma PositionalOutcome(ps: seq<(string, Option<Expr>)>, posOnly: int, st: PosState)
    requires DistinctSeq(PsNames(ps))
    ensures BindPositional(ps, posOnly, st).Ok? <==>
      forall i | 0 <= i < |ps| :: !Unbindable(ps, posOnly, st, i)
    ensures forall i | 0 <= i < |ps| && Unbindable(ps, posOnly, st, i) &&
        (forall j | 0 <= j < i :: !Unbindable(ps, posOnly, st, j)) ::
      BindPositional(ps, posOnly, st) == Err(UnbindableError(ps, st, i))
  {
    PositionalSucceeds(ps, posOnly, st);
    forall i | 0 <= i < |ps| && Unbindable(ps, posOnly, st, i) &&
        (forall j | 0 <= j < i :: !Unbindable(ps, posOnly, st, j))
      ensures BindPositional(ps, posOnly, st) == Err(UnbindableError(ps, st, i))
    {
      PositionalFirstError(ps, posOnly, st, i);
    }
  }

  /** The positional phase succeeds exactly when no parameter is
      unbindable. */
  lemma {:induction false} PositionalSucceeds(ps: seq<(string, Option<Expr>)>, posOnly: int, st: PosState)
    requires DistinctSeq(PsNames(ps))
    ensures BindPositional(ps, posOnly, st).Ok? <==>
      forall i | 0 <= i < |ps| :: !Unbindable(ps, posOnly, st, i)
    decreases |ps|
  {
    if ps != [] && !Unbindable(ps, posOnly, st, 0) {
      var st1 := PosStep(ps[0], posOnly, st).value;
      DistinctTail(ps);
      PositionalSucceeds(ps[1..], posOnly - 1, st1);
      PosStepShift(ps, posOnly, st);
      var tail, po := ps[1..], posOnly - 1;
      if forall i | 0 <= i < |ps| :: !Unbindable(ps, posOnly, st, i) {
        forall j | 0 <= j < |tail| ensures !Unbindable(tail, po, st1, j) {
          assert !Unbindable(ps, posOnly, st, j + 1);
        }
      } else {
        var i :| 0 <= i < |ps| && Unbindable(ps, posOnly, st, i);
        assert Unbindable(tail, po, st1, i - 1);
      }
    }
  }

  /** The first unbindable parameter names the error. */
  lemma {:induction false} PositionalFirstError(ps: seq<(string, Option<Expr>)>, posOnly: int, st: PosState, i: nat)
    requires DistinctSeq(PsNames(ps))
    requires i < |ps| && Unbindable(ps, posOnly, st, i)
    requires forall j | 0 <= j < i :: !Unbindable(ps, posOnly, st, j)
    ensures BindPositional(ps, posOnly, st) == Err(UnbindableError(ps, st, i))
    decreases |ps|
  {
    if i > 0 {
      assert !Unbindable(ps, posOnly, st, 0);
      var st1 := PosStep(ps[0], posOnly, st).value;
      DistinctTail(ps);
      PosStepShift(ps, posOnly, st);
      var tail, po := ps[1..], posOnly - 1;
      forall j | 0 <= j < i - 1 ensures !Unbindable(tail, po, st1, j) {
        assert !Unbindable(ps, posOnly, st, j + 1);
      }
      PositionalFirstError(tail, po, st1, i - 1);
    }
  }


  /** On longer input the positional phase binds the same frame and leaves
      the same keywords; only its leftover values differ. */
  lemma {:induction false} PositionalPrefix(ps: seq<(string, Option<Expr>)>, posOnly: int, st: PosState, m: nat)
    requires |ps| <= m <= |st.rest|
    ensures var short := BindPositional(ps, posOnly, st.(rest := st.rest[..m]));
      var long := BindPositional(ps, posOnly, st);
      && short.Ok? == long.Ok?
      && (short.Err? ==> short.error == long.error)
      && (short.Ok? ==> short.value.frame == long.value.frame && short.value.kwargs == long.value.kwargs)
    decreases |ps|
  {
    if ps != [] {
      var st1 := PosStep(ps[0], posOnly, st).value;
      assert st.rest[..m][1..] == st1.rest[..m - 1];
      PositionalPrefix(ps[1..], posOnly - 1, st1, m - 1);
    }
  }

  // ---------------------------------------------------------------------
  // The keyword and keyword-only phases
  // ---------------------------------------------------------------------

  /** A successful keyword phase keeps the frame and adds each keyword's value. */
  lemma {:induction false} KeywordsFrame(kw: KwArgs, names: set<string>, f: Frame)
    requires BindKeywords(kw, names, f).Ok?
    ensures var f' := BindKeywords(kw, names, f).value;
      && (forall k | k in f :: k in f' && f'[k] == f[k])
      && (forall k | k in KwKeys(kw) :: k in names && k in f' && f'[k] == KwGet(kw, k))
      && (forall k | k in f' :: k in f || k in KwKeys(kw))
    decreases |kw|
  {
    if kw != [] {
      KeywordsFrame(kw[1..], names, f[kw[0].0 := kw[0].1]);
    }
  }

  /** A keyword that names no parameter, or one already bound, is rejected. */
  lemma {:induction false} KeywordsReject(kw: KwArgs, names: set<string>, f: Frame, k: string)
    requires k in KwKeys(kw) && (k !in names || k in f)
    ensures BindKeywords(kw, names, f).Err?
    decreases |kw|
  {
    if kw[0].0 != k && kw[0].0 in names && kw[0].0 !in f {
      KeywordsReject(kw[1..], names, f[kw[0].0 := kw[0].1], k);
    }
  }

  /** A successful keyword-only phase keeps the frame and gives each missing
      keyword-only parameter its evaluated default. */
  lemma {:induction false} KwOnlyFrame(names: seq<string>, defaults: seq<Option<Expr>>, f: Frame)
    requires DistinctSeq(names)
    requires BindKwOnly(names, defaults, f).Ok?
    ensures var f' := BindKwOnly(names, defaults, f).value;
      && (forall k | k in f :: k in f' && f'[k] == f[k])
      && (forall j | 0 <= j < |names| && j < |defaults| :: names[j] in f' &&
            (names[j] !in f ==> defaults[j].Some? && LiteralEval(defaults[j].value) == Some(f'[names[j]])))
    decreases |names|
  {
    if names != [] && defaults != [] {
      var f1 := if names[0] in f then f else f[names[0] := LiteralEval(defaults[0].value).value];
      assert DistinctSeq(names[1..]);
      KwOnlyFrame(names[1..], defaults[1..], f1);
      var f' := BindKwOnly(names, defaults, f).value;
      forall j | 1 <= j < |names| && j < |defaults|
        ensures names[j] in f' && (names[j] !in f ==> defaults[j].Some? && LiteralEval(defaults[j].value) == Some(f'[names[j]]))
      {
        assert names[1..][j - 1] == names[j] && defaults[1..][j - 1] == defaults[j];
      }
    }
  }

  /** A keyword-only parameter with no default and no value is rejected. */
  lemma {:induction false} KwOnlyMissing(names: seq<string>, defaults: seq<Option<Expr>>, f: Frame, j: nat)
    requires DistinctSeq(names)
    requires j < |names| && j < |defaults| && defaults[j].None? && names[j] !in f
    ensures BindKwOnly(names, defaults, f).Err?
    decreases |names|
  {
    if j > 0 && names[0] in f {
      KwOnlyMissing(names[1..], defaults[1..], f, j - 1);
    } else if j > 0 && defaults[0].Some? && LiteralEval(defaults[0].value).Some? {
      assert names[0] != names[j];
      KwOnlyMissing(names[1..], defaults[1..], f[names[0] := LiteralEval(defaults[0].value).value], j - 1);
    }
  }

  // ---------------------------------------------------------------------
  // bind_frame as a whole
  // ---------------------------------------------------------------------

  function VarargNames(a: Arguments): seq<string> {
    if a.vararg.Some? then [a.vararg.value] else []
  }

  function AllParams(a: Arguments): seq<string> {
    PositionalNames(a) + a.kwonlyargs + VarargNames(a)
  }

  /** Parameter names are pairwise distinct (Python rejects a duplicate) and
      none of them is the pc variable. */
  predicate DistinctParams(a: Arguments) {
    DistinctSeq(AllParams(a)) && PC_LOCAL_NAME !in AllParams(a)
  }

  lemma ParamFacts(a: Arguments)
    requires WellFormedArgs(a) && DistinctParams(a)
    ensures PsNames(PosWithDefaults(a)) == PositionalNames(a)
    ensures DistinctSeq(PositionalNames(a)) && DistinctSeq(a.kwonlyargs)
    ensures forall k | k in a.kwonlyargs :: k !in PositionalNames(a)
    ensures a.vararg.Some? ==> a.vararg.value !in PositionalNames(a) + a.kwonlyargs
    ensures PC_LOCAL_NAME !in PositionalNames(a) + a.kwonlyargs
    ensures forall k | k in KeywordNames(a) :: k in PositionalNames(a) + a.kwonlyargs
  {
    assert PsNames(PosWithDefaults(a)) == PositionalNames(a);
    ParamsDistinct(a);
    KeywordNamesListed(a);
  }

  /** The parts of a signature's parameter list keep their names apart. */
  lemma ParamsDistinct(a: Arguments)
    requires DistinctParams(a)
    ensures DistinctSeq(PositionalNames(a)) && DistinctSeq(a.kwonlyargs)
    ensures forall k | k in a.kwonlyargs :: k !in PositionalNames(a)
    ensures a.vararg.Some? ==> a.vararg.value !in PositionalNames(a) + a.kwonlyargs
    ensures PC_LOCAL_NAME !in PositionalNames(a) + a.kwonlyargs
  {
    var names := PositionalNames(a);
    DistinctSplit(names + a.kwonlyargs, VarargNames(a));
    DistinctSplit(names, a.kwonlyargs);
    if a.vararg.Some? {
      assert a.vararg.value in VarargNames(a);
    }
  }

  /** Both halves of a list of distinct names are distinct and share no name. */
  lemma DistinctSplit(x: seq<string>, y: seq<string>)
    requires DistinctSeq(x + y)
    ensures DistinctSeq(x) && DistinctSeq(y)
    ensures forall k | k in y :: k !in x
  {
    var xy := x + y;
    assert forall i | 0 <= i < |x| :: xy[i] == x[i];
    assert forall j | 0 <= j < |y| :: xy[|x| + j] == y[j];
  }

  /** Every name a keyword may bind is a parameter. */
  lemma KeywordNamesListed(a: Arguments)
    ensures forall k | k in KeywordNames(a) :: k in PositionalNames(a) + a.kwonlyargs
  {
    var names := PositionalNames(a);
    forall k | k in KeywordNames(a) ensures k in names + a.kwonlyargs {
      if k in a.args {
        var i :| 0 <= i < |a.args| && a.args[i] == k;
        assert names[|a.posonlyargs| + i] == k;
      }
    }
  }

  /** The positional phase of `bind_frame(positional, kw, fn)`. */
  function PosPhase(positional: seq<Value>, kw: KwArgs, a: Arguments): Result<PosState, BindError>
    requires WellFormedArgs(a)
  {
    BindPositional(PosWithDefaults(a), |a.posonlyargs|, PosState(map[], positional, kw))
  }

  /** The frame after the rest parameter and keyword phases. */
  function KwPhase(positional: seq<Value>, kw: KwArgs, a: Arguments): Result<Frame, BindError>
    requires WellFormedArgs(a) && PosPhase(positional, kw, a).Ok?
  {
    var st := PosPhase(positional, kw, a).value;
    BindKeywords(st.kwargs, KeywordNames(a), BindVararg(a, st))
  }

  /** Keys of the frame after the keyword phase: parameters only, and what
      the keyword phase bound survives to the final frame. */
  lemma KwPhaseFacts(positional: seq<Value>, kw: KwArgs, a: Arguments)
    requires WellFormedArgs(a) && DistinctParams(a)
    requires PosPhase(positional, kw, a).Ok? && KwPhase(positional, kw, a).Ok?
    ensures var f2 := KwPhase(positional, kw, a).value;
      forall k | k in f2 :: k in AllParams(a) && k != PC_LOCAL_NAME
    ensures Bind(positional, kw, a).Ok? ==>
      var f2 := KwPhase(positional, kw, a).value;
      forall k | k in f2 :: k in Bind(positional, kw, a).value.frame && Bind(positional, kw, a).value.frame[k] == f2[k]
    ensures var f2 := KwPhase(positional, kw, a).value;
      forall k | k in f2 && k in a.kwonlyargs :: k in KwKeys(kw)
  {
    ParamFacts(a);
    var ps := PosWithDefaults(a);
    var st := PosPhase(positional, kw, a).value;
    PositionalOthers(ps, |a.posonlyargs|, PosState(map[], positional, kw));
    PositionalKeywords(ps, |a.posonlyargs|, PosState(map[], positional, kw));
    var f1 := BindVararg(a, st);
    KeywordsFrame(st.kwargs, KeywordNames(a), f1);
    var f2 := KwPhase(positional, kw, a).value;
    assert forall k | k in AllParams(a) :: k != PC_LOCAL_NAME;
    forall k | k in f2 ensures k in AllParams(a) {
      if k in f1 && a.vararg.Some? && k == a.vararg.value {
      } else if k in f1 {
        assert k in PositionalNames(a);
      } else {
        assert k in PositionalNames(a) + a.kwonlyargs;
      }
    }
    if Bind(positional, kw, a).Ok? {
      KwOnlyFrame(a.kwonlyargs, a.kwDefaults, f2);
    }
  }

  /** What the positional and rest-parameter phases bind survives to the
      final frame. */
  lemma BindKeepsPositional(positional: seq<Value>, kw: KwArgs, a: Arguments)
    requires WellFormedArgs(a) && DistinctParams(a)
    requires Bind(positional, kw, a).Ok?
    ensures var f1 := BindVararg(a, PosPhase(positional, kw, a).value);
      var frame := Bind(positional, kw, a).value.frame;
      forall k | k in f1 :: k in frame && frame[k] == f1[k]
  {
    var st := PosPhase(positional, kw, a).value;
    KeywordsFrame(st.kwargs, KeywordNames(a), BindVararg(a, st));
    KwPhaseFacts(positional, kw, a);
  }

  /** Positional values are bound left to right to the positional
      parameters in declaration order. */
  lemma BindPositionalInOrder(positional: seq<Value>, kw: KwArgs, a: Arguments)
    requires WellFormedArgs(a) && DistinctParams(a)
    requires Bind(positional, kw, a).Ok?
    ensures var frame := Bind(positional, kw, a).value.frame;
      forall i | 0 <= i < |positional| && i < |PositionalNames(a)| ::
        PositionalNames(a)[i] in frame && frame[PositionalNames(a)[i]] == positional[i]
  {
    ParamFacts(a);
    var ps := PosWithDefaults(a);
    var st0 := PosState(map[], positional, kw);
    PositionalValues(ps, |a.posonlyargs|, st0);
    var st := PosPhase(positional, kw, a).value;
    BindKeepsPositional(positional, kw, a);
    forall i | 0 <= i < |positional| && i < |PositionalNames(a)|
      ensures PositionalNames(a)[i] in BindVararg(a, st)
      ensures BindVararg(a, st)[PositionalNames(a)[i]] == positional[i]
    {
      assert PsNames(ps)[i] == ps[i].0;
    }
  }

  /** A positional parameter left without a positional value takes the
      keyword of its name, which may not name a positional-only parameter,
      or else its default, which is bound as the default's AST node. */
  lemma BindKeywordOrDefault(positional: seq<Value>, kw: KwArgs, a: Arguments)
    requires WellFormedArgs(a) && DistinctParams(a)
    requires Bind(positional, kw, a).Ok?
    ensures var frame := Bind(positional, kw, a).value.frame;
      var ps := PosWithDefaults(a);
      forall i | |positional| <= i < |ps| ::
        && ps[i].0 in frame
        && if ps[i].0 in KwKeys(kw) then |a.posonlyargs| <= i && frame[ps[i].0] == KwGet(kw, ps[i].0)
           else ps[i].1.Some? && frame[ps[i].0] == VNode(ps[i].1.value)
  {
    ParamFacts(a);
    var ps := PosWithDefaults(a);
    var st0 := PosState(map[], positional, kw);
    PositionalValues(ps, |a.posonlyargs|, st0);
    PositionalOutcome(ps, |a.posonlyargs|, st0);
    var st := PosPhase(positional, kw, a).value;
    BindKeepsPositional(positional, kw, a);
    var frame := Bind(positional, kw, a).value.frame;
    forall i | |positional| <= i < |ps|
      ensures ps[i].0 in frame
      ensures if ps[i].0 in KwKeys(kw) then |a.posonlyargs| <= i && frame[ps[i].0] == KwGet(kw, ps[i].0)
              else ps[i].1.Some? && frame[ps[i].0] == VNode(ps[i].1.value)
    {
      assert PsNames(ps)[i] == ps[i].0;
      assert !Unbindable(ps, |a.posonlyargs|, st0, i);
      assert ps[i].0 in BindVararg(a, st) && BindVararg(a, st)[ps[i].0] == PosValue(ps, st0, i);
    }
  }

  /** The keywords that fill positional parameters are deleted from the
      caller's dict; the others stay, with their values. */
  lemma BindConsumesKeywords(positional: seq<Value>, kw: KwArgs, a: Arguments)
    requires WellFormedArgs(a)
    requires Bind(positional, kw, a).Ok?
    ensures var left := Bind(positional, kw, a).value.kwargs;
      && KwKeys(left) == KwKeys(kw) - (set i | |positional| <= i < |PositionalNames(a)| :: PositionalNames(a)[i])
      && forall k | k in KwKeys(left) :: KwGet(left, k) == KwGet(kw, k)
  {
    var ps := PosWithDefaults(a);
    PositionalKeywords(ps, |a.posonlyargs|, PosState(map[], positional, kw));
    assert forall i | 0 <= i < |ps| :: ps[i].0 == PositionalNames(a)[i];
    assert UnfilledNames(ps, |positional|) == (set i | |positional| <= i < |PositionalNames(a)| :: PositionalNames(a)[i]);
  }

  /** `bind_frame` fails exactly when some positional parameter is
      unbindable (and then with the first one's error), or a later phase
      fails. */
  lemma BindPositionalErrors(positional: seq<Value>, kw: KwArgs, a: Arguments)
    requires WellFormedArgs(a) && DistinctParams(a)
    ensures var ps := PosWithDefaults(a);
      var st0 := PosState(map[], positional, kw);
      && (Bind(positional, kw, a).Ok? ==> forall i | 0 <= i < |ps| :: !Unbindable(ps, |a.posonlyargs|, st0, i))
      && forall i | 0 <= i < |ps| && Unbindable(ps, |a.posonlyargs|, st0, i) &&
            (forall j | 0 <= j < i :: !Unbindable(ps, |a.posonlyargs|, st0, j)) ::
          Bind(positional, kw, a) == Err(UnbindableError(ps, st0, i))
  {
    ParamFacts(a);
    PositionalOutcome(PosWithDefaults(a), |a.posonlyargs|, PosState(map[], positional, kw));
  }

  /** The rest parameter collects the positional values left over, in order. */
  lemma BindRestParameter(positional: seq<Value>, kw: KwArgs, a: Arguments)
    requires WellFormedArgs(a) && DistinctParams(a)
    requires Bind(positional, kw, a).Ok? && a.vararg.Some?
    ensures var frame := Bind(positional, kw, a).value.frame;
      var n := |PositionalNames(a)|;
      a.vararg.value in frame &&
      frame[a.vararg.value] == VList(if n < |positional| then positional[n..] else [])
  {
    var ps := PosWithDefaults(a);
    PositionalRest(ps, |a.posonlyargs|, PosState(map[], positional, kw));
    var st := PosPhase(positional, kw, a).value;
    KeywordsFrame(st.kwargs, KeywordNames(a), BindVararg(a, st));
    KwPhaseFacts(positional, kw, a);
  }

  /** Without a rest parameter, positional values beyond the parameters
      are dropped without an error. */
  lemma BindDropsExtra(positional: seq<Value>, kw: KwArgs, a: Arguments)
    requires WellFormedArgs(a) && a.vararg.None?
    requires |PositionalNames(a)| <= |positional|
    ensures Bind(positional, kw, a) == Bind(positional[..|PositionalNames(a)|], kw, a)
  {
    var st0 := PosState(map[], positional, kw);
    PositionalPrefix(PosWithDefaults(a), |a.posonlyargs|, st0, |PositionalNames(a)|);
  }

  /** Every keyword argument ends up bound to its value. */
  lemma BindKeywordsBound(positional: seq<Value>, kw: KwArgs, a: Arguments)
    requires WellFormedArgs(a) && DistinctParams(a)
    requires Bind(positional, kw, a).Ok?
    ensures var frame := Bind(positional, kw, a).value.frame;
      forall k | k in KwKeys(kw) :: k in frame && frame[k] == KwGet(kw, k)
  {
    var ps := PosWithDefaults(a);
    var st0 := PosState(map[], positional, kw);
    PositionalKeywords(ps, |a.posonlyargs|, st0);
    var st := PosPhase(positional, kw, a).value;
    KeywordsFrame(st.kwargs, KeywordNames(a), BindVararg(a, st));
    KwPhaseFacts(positional, kw, a);
    BindKeywordOrDefault(positional, kw, a);
    forall k | k in KwKeys(kw) && k !in KwKeys(st.kwargs)
      ensures k in Bind(positional, kw, a).value.frame
      ensures Bind(positional, kw, a).value.frame[k] == KwGet(kw, k)
    {
      var i :| |positional| <= i < |ps| && ps[i].0 == k;
    }
  }

  /** A keyword that names neither a regular nor a keyword-only parameter is
      rejected. */
  lemma BindRejectsUnknownKeyword(positional: seq<Value>, kw: KwArgs, a: Arguments, k: string)
    requires WellFormedArgs(a) && DistinctParams(a)
    requires k in KwKeys(kw) && k !in KeywordNames(a)
    ensures Bind(positional, kw, a).Err?
  {
    var ps := PosWithDefaults(a);
    var st0 := PosState(map[], positional, kw);
    if PosPhase(positional, kw, a).Ok? {
      ParamFacts(a);
      PositionalKeywords(ps, |a.posonlyargs|, st0);
      PositionalOutcome(ps, |a.posonlyargs|, st0);
      var st := PosPhase(positional, kw, a).value;
      forall i | |positional| <= i < |ps| && ps[i].0 in KwKeys(kw) ensures ps[i].0 in KeywordNames(a) {
        assert !Unbindable(ps, |a.posonlyargs|, st0, i);
        assert ps[i].0 == a.args[i - |a.posonlyargs|];
      }
      KeywordsReject(st.kwargs, KeywordNames(a), BindVararg(a, st), k);
    }
  }

  /** A keyword naming a parameter that a positional value already filled
      is rejected. */
  lemma BindRejectsRepeatedKeyword(positional: seq<Value>, kw: KwArgs, a: Arguments, i: nat)
    requires WellFormedArgs(a) && DistinctParams(a)
    requires i < |positional| && i < |PositionalNames(a)| && PositionalNames(a)[i] in KwKeys(kw)
    ensures Bind(positional, kw, a).Err?
  {
    var ps := PosWithDefaults(a);
    var st0 := PosState(map[], positional, kw);
    var k := PositionalNames(a)[i];
    if PosPhase(positional, kw, a).Ok? {
      ParamFacts(a);
      PositionalKeywords(ps, |a.posonlyargs|, st0);
      PositionalValues(ps, |a.posonlyargs|, st0);
      var st := PosPhase(positional, kw, a).value;
      assert PsNames(ps)[i] == k;
      KeywordsReject(st.kwargs, KeywordNames(a), BindVararg(a, st), k);
    }
  }

  /** A keyword-only parameter not passed by keyword takes its default,
      evaluated as a literal. */
  lemma BindKeywordOnlyDefaults(positional: seq<Value>, kw: KwArgs, a: Arguments)
    requires WellFormedArgs(a) && DistinctParams(a)
    requires Bind(positional, kw, a).Ok?
    ensures var frame := Bind(positional, kw, a).value.frame;
      forall j | 0 <= j < |a.kwonlyargs| && j < |a.kwDefaults| ::
        && a.kwonlyargs[j] in frame
        && (a.kwonlyargs[j] !in KwKeys(kw) ==>
              a.kwDefaults[j].Some? && LiteralEval(a.kwDefaults[j].value) == Some(frame[a.kwonlyargs[j]]))
  {
    ParamFacts(a);
    KwPhaseFacts(positional, kw, a);
    var f2 := KwPhase(positional, kw, a).value;
    KwOnlyFrame(a.kwonlyargs, a.kwDefaults, f2);
  }

  /** A required keyword-only parameter not passed by keyword is rejected. */
  lemma BindMissingKeywordOnly(positional: seq<Value>, kw: KwArgs, a: Arguments, j: nat)
    requires WellFormedArgs(a) && DistinctParams(a)
    requires j < |a.kwonlyargs| && j < |a.kwDefaults| && a.kwDefaults[j].None?
    requires a.kwonlyargs[j] !in KwKeys(kw)
    ensures Bind(positional, kw, a).Err?
  {
    if PosPhase(positional, kw, a).Ok? && KwPhase(positional, kw, a).Ok? {
      ParamFacts(a);
      KwPhaseFacts(positional, kw, a);
      KwOnlyMissing(a.kwonlyargs, a.kwDefaults, KwPhase(positional, kw, a).value, j);
    }
  }
}
