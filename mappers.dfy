/** `src/mappers.py`: the statement mappers that `map_scope` applies to
    every statement of a function. A mapper takes one statement and returns
    the list of statements that replaces it; the shared name generator is
    threaded through as a `NameIter`. `map_scope` itself is
    `Utils.Fmap` with `is_supported_scope` as its scope test. */
module Mappers {
  import opened Wrappers
  import opened PyAst
  import opened Utils
  import opened Expressions
  import opened Transform
  import opened Substitution

  // ---------------------------------------------------------------------
  // for_to_while_m
  // ---------------------------------------------------------------------

  /** `for_to_while_m`: a `for` loop becomes
      `it = iter(seq); flag = True; while flag: [advance] + body else orelse`,
      where `advance` binds the loop target from `next(it)` or clears the
      flag and continues. Other statements are kept. */
  function ForToWhile(s: Stmt, it: NameIter): (r: (seq<Stmt>, NameIter))
    ensures r.1.prefix == it.prefix && r.1.count == it.count + (if s.For? then 2 else 0)
    ensures !s.For? ==> r.0 == [s]
    ensures s.For? ==> |r.0| == 3 && r.0[2].While? && r.0[2].orelse == s.orelse
    ensures s.For? ==> var w := r.0[2]; w.body != [] && w.body[1..] == s.body && w.body[0].ForAdvance?
    ensures s.For? ==> var adv := r.0[2].body[0];
      adv.target == s.target && r.0[2].test == Lookup(adv.flagName)
      && r.0[0] == MakeAssign(adv.iterName, CallOf("iter", [s.iter]))
      && r.0[1] == MakeAssign(adv.flagName, Const(LBool(true)))
  {
    if !s.For? then ([s], it)
    else
      var (iterName, it1) := Next(it);
      var (flagName, it2) := Next(it1);
      var body := [ForAdvance(s.target, iterName, flagName)] + s.body;
      ([MakeAssign(iterName, CallOf("iter", [s.iter])),
        MakeAssign(flagName, Const(LBool(true))),
        While(Lookup(flagName), body, s.orelse)], it2)
  }

  /** The two names of a rewritten `for` are distinct, were never issued
      before, and are exactly the names the rewrite issues. */
  lemma ForToWhileFresh(s: Stmt, it: NameIter)
    requires s.For?
    ensures var r := ForToWhile(s, it); var adv := r.0[2].body[0];
      adv.iterName != adv.flagName && adv.iterName !in Issued(it) && adv.flagName !in Issued(it)
      && Issued(r.1) == Issued(it) + {adv.iterName, adv.flagName}
  {
    NextFresh(it);
    NextFresh(Next(it).1);
  }

  /** The loop produced from a `for` is exactly as deep as the `for`. */
  lemma ForToWhileDepth(s: Stmt, it: NameIter)
    requires s.For?
    ensures Depth(ForToWhile(s, it).0[2]) == Depth(s)
  {
    var w := ForToWhile(s, it).0[2];
    assert w.body == [w.body[0]] + s.body;
    MaxDepthAppend([w.body[0]], s.body);
    assert MaxDepth([w.body[0]]) == 0 by {
      assert [w.body[0]][..0] == [];
    }
  }

  /** `map_scope` may use the mapper: it never deepens a statement, and a
      scope the test picks ends its output with a statement that has a body. */
  lemma ForToWhileSound(rec: ScopeTest)
    requires PicksBodies(rec)
    ensures KeepsDepth(ForToWhile) && EndsWithBody(ForToWhile, rec)
  {
    forall s: Stmt, it: NameIter, k | 0 <= k < |ForToWhile(s, it).0|
      ensures Depth(ForToWhile(s, it).0[k]) <= Depth(s)
    {
      if s.For? && k == 2 {
        ForToWhileDepth(s, it);
      }
    }
  }

  /** A statement that is not a `for` loop. */
  const NotFor: StmtTest := (s: Stmt) => !s.For?

  lemma ForToWhileEstablishes()
    ensures Establishes(ForToWhile, InnerScopes, NotFor) && BodyBlind(NotFor)
  {
    forall s: Stmt, it: NameIter, k | 0 <= k < |ForToWhile(s, it).0|
      ensures NotFor(ForToWhile(s, it).0[k])
      ensures InnerScopes(ForToWhile(s, it).0[k]) ==> InnerScopes(s) && k == |ForToWhile(s, it).0| - 1
    {
    }
  }

  /** `map_scope(scope, for_to_while_m(...))`, with `is_scope` as the scope
      test: it never fails, keeps every field but the body, and leaves no
      `for` loop in the body, nor, recursively, in the body of any `if`,
      `while` it contains. */
  function MapForToWhile(scope: Stmt, it: NameIter): (r: (Stmt, NameIter))
    requires HasBody(scope)
    ensures HasBody(r.0) && r.0 == WithBody(scope, r.0.body)
    ensures Everywhere(r.0.body, NotFor, InnerScopes)
  {
    ForToWhileSound(InnerScopes);
    FmapSucceeds(scope, ForToWhile, InnerScopes, it);
    ForToWhileEstablishes();
    FmapEverywhere(scope, ForToWhile, InnerScopes, NotFor, it);
    var (res, it') := Fmap(scope, ForToWhile, InnerScopes, it);
    (res.value, it')
  }

  /** `for i in range(10): body else: orelse` becomes the loop of
      `src/mappers_test.py`, with the generator's next two names. */
  lemma GoldenForToWhile(body: seq<Stmt>, orelse: seq<Stmt>, it: NameIter)
    ensures var n0, n1 := DunderName(it.prefix, it.count), DunderName(it.prefix, it.count + 1);
      ForToWhile(For(Name("i", Store), CallOf("range", [Int(10)]), body, orelse), it)
      == ([MakeAssign(n0, CallOf("iter", [CallOf("range", [Int(10)])])),
           MakeAssign(n1, Const(LBool(true))),
           While(Lookup(n1), [ForAdvance(Name("i", Store), n0, n1)] + body, orelse)], After(it, 2))
  {
  }

  // ---------------------------------------------------------------------
  // promote_while_cond_m
  // ---------------------------------------------------------------------

  /** `promote_while_cond_m`: `while test: body else: orelse` with a test
      that is not a plain name becomes `c = test; while c: body + [c = test]
      else: orelse`. Other statements, and loops already testing a name,
      are kept. */
  function PromoteWhileCond(s: Stmt, it: NameIter): (r: (seq<Stmt>, NameIter))
    ensures r.1.prefix == it.prefix
    ensures !s.While? || s.test.Name? ==> r == ([s], it)
    ensures s.While? && !s.test.Name? ==> r.1.count == it.count + 1 && |r.0| == 2
    ensures s.While? && !s.test.Name? ==> var c := Next(it).0;
      r.0[0] == MakeAssign(c, s.test) && r.0[1] == While(Lookup(c), s.body + [r.0[0]], s.orelse)
  {
    if !s.While? then ([s], it)
    else if s.test.Name? then ([s], it)
    else
      var (c, it') := Next(it);
      var testAssign := MakeAssign(c, s.test);
      ([testAssign, While(Lookup(c), s.body + [testAssign], s.orelse)], it')
  }

  /** The loop after promotion is exactly as deep as before. */
  lemma PromoteWhileCondDepth(s: Stmt, it: NameIter)
    requires s.While? && !s.test.Name?
    ensures Depth(PromoteWhileCond(s, it).0[1]) == Depth(s)
  {
    var r := PromoteWhileCond(s, it).0;
    MaxDepthAppend(s.body, [r[0]]);
    assert MaxDepth([r[0]]) == 0 by {
      assert [r[0]][..0] == [];
    }
  }

  lemma PromoteWhileCondSound(rec: ScopeTest)
    requires PicksBodies(rec)
    ensures KeepsDepth(PromoteWhileCond) && EndsWithBody(PromoteWhileCond, rec)
  {
    forall s: Stmt, it: NameIter, k | 0 <= k < |PromoteWhileCond(s, it).0|
      ensures Depth(PromoteWhileCond(s, it).0[k]) <= Depth(s)
    {
      if s.While? && !s.test.Name? && k == 1 {
        PromoteWhileCondDepth(s, it);
      }
    }
  }

  /** The mapper is idempotent: every statement it produces is left as it
      is by a second application, whatever the generator. */
  lemma PromoteWhileCondIdempotent(s: Stmt, it: NameIter, k: nat, it': NameIter)
    requires k < |PromoteWhileCond(s, it).0|
    ensures var o := PromoteWhileCond(s, it).0[k]; PromoteWhileCond(o, it') == ([o], it')
  {
  }

  /** A `while` loop whose test is a plain name. */
  const TestsName: StmtTest := (s: Stmt) => s.While? ==> s.test.Name?

  lemma PromoteWhileCondEstablishes()
    ensures Establishes(PromoteWhileCond, InnerScopes, TestsName) && BodyBlind(TestsName)
  {
    forall s: Stmt, it: NameIter, k | 0 <= k < |PromoteWhileCond(s, it).0|
      ensures TestsName(PromoteWhileCond(s, it).0[k])
      ensures InnerScopes(PromoteWhileCond(s, it).0[k]) ==> InnerScopes(s) && k == |PromoteWhileCond(s, it).0| - 1
    {
    }
  }

  /** `map_scope(scope, promote_while_cond_m(...))`, with `is_scope` as the
      scope test: it never fails, keeps every field but the body, and every
      `while` loop in the body, recursively through inner scopes, tests a
      plain name. */
  function MapPromoteWhileCond(scope: Stmt, it: NameIter): (r: (Stmt, NameIter))
    requires HasBody(scope)
    ensures HasBody(r.0) && r.0 == WithBody(scope, r.0.body)
    ensures Everywhere(r.0.body, TestsName, InnerScopes)
  {
    PromoteWhileCondSound(InnerScopes);
    FmapSucceeds(scope, PromoteWhileCond, InnerScopes, it);
    PromoteWhileCondEstablishes();
    FmapEverywhere(scope, PromoteWhileCond, InnerScopes, TestsName, it);
    var (res, it') := Fmap(scope, PromoteWhileCond, InnerScopes, it);
    (res.value, it')
  }

  /** `while len(p) > 0: body else: orelse` of `src/mappers_test.py`. */
  lemma GoldenPromoteWhileCond(body: seq<Stmt>, orelse: seq<Stmt>, it: NameIter)
    ensures var test := Compare(CallOf("len", [Lookup("p")]), [Gt], [Int(0)]);
      var c := DunderName(it.prefix, it.count);
      PromoteWhileCond(While(test, body, orelse), it)
      == ([MakeAssign(c, test), While(Lookup(c), body + [MakeAssign(c, test)], orelse)], After(it, 1))
  {
  }

  // ---------------------------------------------------------------------
  // promote_to_temporary_m
  // ---------------------------------------------------------------------

  /** `promote_to_temporary_m(fns, name_iter)`: the assignments that
      `expressions.promote_call_expressions` appends while walking the
      statement with `utils.map_expression`, then the rewritten statement. */
  function PromoteToTemporaryM(fns: set<string>): (fn: Mapper)
    ensures KeepsDepth(fn) && EndsWithBody(fn, InnerScopes)
  {
    PromoteMapperSound(fns, MapExpression);
    PromoteMapper(fns, MapExpression)
  }

  /** What the mapper returns for one statement: hoisted assignments
      `tmp_k = <call>` to the generator's names in order, each with call-free
      operands, then the rewritten statement, which is a scope exactly when
      the original is and keeps its body. */
  lemma PromoteToTemporaryMShape(fns: set<string>, s: Stmt, it: NameIter)
    requires TempsOutside(fns, it.prefix)
    ensures var (out, it') := PromoteToTemporaryM(fns)(s, it);
      var last := out[|out| - 1];
      out != [] && it'.prefix == it.prefix && it'.count == it.count + |out| - 1
      && AllHoisted(out[..|out| - 1], fns, it.prefix, it.count)
      && OperandsFree(out[..|out| - 1], fns)
      && (IsScope(last) <==> IsScope(s)) && (HasBody(s) ==> HasBody(last) && last.body == s.body)
      && HeaderCallFree(last, fns)
  {
    var h := HoistStmt(s, fns, MapExpression, it);
    var out := h.1 + [h.0];
    assert out[..|out| - 1] == h.1;
    HoistStmtAssignments(s, fns, MapExpression, it);
    HoistStmtOperandsFree(s, fns, it);
    HoistStmtCallFree(s, fns, it);
  }

  /** No suspending call is left in the fields `map_expression` visits:
      everything but statement lists. */
  predicate HeaderCallFree(s: Stmt, fns: set<string>) {
    match s
    case FunctionDef(_, a, _) => NoCalls(SomeKeys(a.kwDefaults), fns) && NoCalls(a.defaults, fns)
    case Assign(targets, value) => NoCalls(targets, fns) && !HasCall(value, fns)
    case ExprStmt(value) => !HasCall(value, fns)
    case Return(value) => !HasCall(value, fns)
    case If(test, _, _) => !HasCall(test, fns)
    case While(test, _, _) => !HasCall(test, fns)
    case For(target, iter, _, _) => !HasCall(target, fns) && !HasCall(iter, fns)
    case _ => true
  }

  /** Hoisting a statement's header leaves no suspending call in it. */
  lemma HoistStmtCallFree(s: Stmt, fns: set<string>, it: NameIter)
    requires TempsOutside(fns, it.prefix)
    ensures HeaderCallFree(HoistStmt(s, fns, MapExpression, it).0, fns)
  {
    var w := MapExpression;
    match s
    case FunctionDef(_, _, _) => HoistDefCallFree(s, fns, it);
    case Assign(_, _) => HoistAssignCallFree(s, fns, it);
    case ExprStmt(value) => HoistRemovesCalls(value, fns, w, it);
    case Return(value) => HoistRemovesCalls(value, fns, w, it);
    case If(test, _, _) => HoistRemovesCalls(test, fns, w, it);
    case While(test, _, _) => HoistRemovesCalls(test, fns, w, it);
    case For(_, _, _, _) => HoistForCallFree(s, fns, it);
    case _ =>
  }

  /** The `def` case of `HoistStmtCallFree`: the hoisted defaults hold no
      suspending call. */
  lemma HoistDefCallFree(s: Stmt, fns: set<string>, it: NameIter)
    requires s.FunctionDef? && TempsOutside(fns, it.prefix)
    ensures HeaderCallFree(HoistStmt(s, fns, MapExpression, it).0, fns)
  {
    var w, a := MapExpression, s.arguments;
    var (kd, h1, it1) := HoistList(SomeKeys(a.kwDefaults), fns, w, it);
    var ds := HoistList(a.defaults, fns, w, it1).0;
    assert HoistStmt(s, fns, w, it).0
      == FunctionDef(s.name, a.(kwDefaults := DictKeys(a.kwDefaults, kd, w), defaults := ds), s.body);
    HoistListRemovesCalls(SomeKeys(a.kwDefaults), fns, w, it);
    HoistListRemovesCalls(a.defaults, fns, w, it1);
  }

  /** The assignment case of `HoistStmtCallFree`: the hoisted targets and
      value hold no suspending call. */
  lemma HoistAssignCallFree(s: Stmt, fns: set<string>, it: NameIter)
    requires s.Assign? && TempsOutside(fns, it.prefix)
    ensures HeaderCallFree(HoistStmt(s, fns, MapExpression, it).0, fns)
  {
    var w := MapExpression;
    var (ts, h1, it1) := HoistList(s.targets, fns, w, it);
    assert HoistStmt(s, fns, w, it).0 == Assign(ts, Hoist(s.value, fns, w, it1).0);
    HoistListRemovesCalls(s.targets, fns, w, it);
    HoistRemovesCalls(s.value, fns, w, it1);
  }

  /** The `for` case of `HoistStmtCallFree`: the hoisted target and iterable
      hold no suspending call. */
  lemma HoistForCallFree(s: Stmt, fns: set<string>, it: NameIter)
    requires s.For? && TempsOutside(fns, it.prefix)
    ensures HeaderCallFree(HoistStmt(s, fns, MapExpression, it).0, fns)
  {
    var w := MapExpression;
    var (tg, h1, it1) := Hoist(s.target, fns, w, it);
    assert HoistStmt(s, fns, w, it).0.target == tg;
    HoistRemovesCalls(s.target, fns, w, it);
    HoistRemovesCalls(s.iter, fns, w, it1);
  }

  /** Every assignment appended while hoisting a statement's header holds
      exactly one suspending call, at its root. */
  lemma HoistStmtOperandsFree(s: Stmt, fns: set<string>, it: NameIter)
    requires TempsOutside(fns, it.prefix)
    ensures OperandsFree(HoistStmt(s, fns, MapExpression, it).1, fns)
  {
    var w := MapExpression;
    match s
    case FunctionDef(_, _, _) => HoistDefOperandsFree(s, fns, it);
    case Assign(_, _) => HoistAssignOperandsFree(s, fns, it);
    case ExprStmt(value) => HoistOperandsFree(value, fns, w, it);
    case Return(value) => HoistOperandsFree(value, fns, w, it);
    case If(test, _, _) => HoistOperandsFree(test, fns, w, it);
    case While(test, _, _) => HoistOperandsFree(test, fns, w, it);
    case For(_, _, _, _) => HoistForOperandsFree(s, fns, it);
    case _ =>
  }

  /** The `def` case of `HoistStmtOperandsFree`: assignments from the
      defaults. */
  lemma HoistDefOperandsFree(s: Stmt, fns: set<string>, it: NameIter)
    requires s.FunctionDef? && TempsOutside(fns, it.prefix)
    ensures OperandsFree(HoistStmt(s, fns, MapExpression, it).1, fns)
  {
    var w, a := MapExpression, s.arguments;
    var (kd, h1, it1) := HoistList(SomeKeys(a.kwDefaults), fns, w, it);
    var h2 := HoistList(a.defaults, fns, w, it1).1;
    assert HoistStmt(s, fns, w, it).1 == h1 + h2;
    HoistListOperandsFree(SomeKeys(a.kwDefaults), fns, w, it);
    HoistListOperandsFree(a.defaults, fns, w, it1);
    OperandsFreeAppend(h1, h2, fns);
  }

  /** The assignment case of `HoistStmtOperandsFree`. */
  lemma HoistAssignOperandsFree(s: Stmt, fns: set<string>, it: NameIter)
    requires s.Assign? && TempsOutside(fns, it.prefix)
    ensures OperandsFree(HoistStmt(s, fns, MapExpression, it).1, fns)
  {
    var w := MapExpression;
    var (ts, h1, it1) := HoistList(s.targets, fns, w, it);
    var h2 := Hoist(s.value, fns, w, it1).1;
    assert HoistStmt(s, fns, w, it).1 == h1 + h2;
    HoistListOperandsFree(s.targets, fns, w, it);
    HoistOperandsFree(s.value, fns, w, it1);
    OperandsFreeAppend(h1, h2, fns);
  }

  /** The `for` case of `HoistStmtOperandsFree`: assignments from the
      target and the iterable. */
  lemma HoistForOperandsFree(s: Stmt, fns: set<string>, it: NameIter)
    requires s.For? && TempsOutside(fns, it.prefix)
    ensures OperandsFree(HoistStmt(s, fns, MapExpression, it).1, fns)
  {
    var w := MapExpression;
    var (tg, h1, it1) := Hoist(s.target, fns, w, it);
    var h2 := Hoist(s.iter, fns, w, it1).1;
    assert HoistStmt(s, fns, w, it).1 == h1 + h2;
    HoistOperandsFree(s.target, fns, w, it);
    HoistOperandsFree(s.iter, fns, w, it1);
    OperandsFreeAppend(h1, h2, fns);
  }

  /** The shape every statement has after promotion: no suspending call in
      its own fields, or a single suspending call bound to a name. */
  function Promoted(fns: set<string>): StmtTest {
    (s: Stmt) => HeaderCallFree(s, fns) || OneCallAssign(s, fns)
  }

  lemma PromoteMStatement(fns: set<string>, s: Stmt, it: NameIter, k: nat)
    requires TempsOutside(fns, it.prefix) && k < |PromoteToTemporaryM(fns)(s, it).0|
    ensures var out := PromoteToTemporaryM(fns)(s, it).0;
      Promoted(fns)(out[k]) && (InnerScopes(out[k]) ==> InnerScopes(s) && k == |out| - 1)
  {
    PromoteToTemporaryMShape(fns, s, it);
    var out := PromoteToTemporaryM(fns)(s, it).0;
    if k < |out| - 1 {
      assert out[k] == out[..|out| - 1][k];
      assert HoistedAssign(out[k], DunderName(it.prefix, it.count + k), fns);
    }
  }

  lemma PromoteToTemporaryMEstablishes(fns: set<string>)
    requires NoTempNames(fns)
    ensures Establishes(PromoteToTemporaryM(fns), InnerScopes, Promoted(fns)) && BodyBlind(Promoted(fns))
  {
    var fn := PromoteToTemporaryM(fns);
    forall s: Stmt, it: NameIter, k | 0 <= k < |fn(s, it).0|
      ensures Promoted(fns)(fn(s, it).0[k])
      ensures InnerScopes(fn(s, it).0[k]) ==> InnerScopes(s) && k == |fn(s, it).0| - 1
    {
      assert TempsOutside(fns, it.prefix) by {
        forall j: nat ensures DunderName(it.prefix, j) !in fns {
        }
      }
      PromoteMStatement(fns, s, it, k);
    }
  }

  /** `map_scope(scope, promote_to_temporary_m(fns, ...))`, with `is_scope`
      as the scope test: it never fails and keeps every field but the body. */
  function MapPromoteToTemporary(scope: Stmt, fns: set<string>, it: NameIter): (r: (Stmt, NameIter))
    requires HasBody(scope)
    ensures HasBody(r.0) && r.0 == WithBody(scope, r.0.body)
  {
    FmapSucceeds(scope, PromoteToTemporaryM(fns), InnerScopes, it);
    var (res, it') := Fmap(scope, PromoteToTemporaryM(fns), InnerScopes, it);
    (res.value, it')
  }

  /** After the pass every statement of the body, recursively through inner
      scopes, either has no suspending call in its own fields or binds one
      suspending call, with call-free operands, to a name: the shape the
      continuation emission in `fiber.py` expects. */
  lemma MapPromoteToTemporaryPromotes(scope: Stmt, fns: set<string>, it: NameIter)
    requires HasBody(scope) && NoTempNames(fns)
    ensures Everywhere(MapPromoteToTemporary(scope, fns, it).0.body, Promoted(fns), InnerScopes)
  {
    PromoteToTemporaryMEstablishes(fns);
    FmapSucceeds(scope, PromoteToTemporaryM(fns), InnerScopes, it);
    FmapEverywhere(scope, PromoteToTemporaryM(fns), InnerScopes, Promoted(fns), it);
    assert MapPromoteToTemporary(scope, fns, it).0 == Fmap(scope, PromoteToTemporaryM(fns), InnerScopes, it).0.value;
  }

  // ---------------------------------------------------------------------
  // lift_to_frame_m
  // ---------------------------------------------------------------------

  /** The `name_fn` of `lift_to_frame_m`: the frame key of a variable, or
      `None` for a name that stays a plain name (a global, a builtin). */
  type NameFn = string -> Option<string>

  /** `frame['key']`, loaded or stored. */
  function FrameSlot(key: string, ctx: Ctx): Expr {
    Subscript(Lookup("frame"), Const(LStr(key)), ctx)
  }

  /** `promote_variable_access(_, name_fn)` on one name: an accepted name
      becomes its frame slot, in the same load or store context. */
  function FrameSubst(nameFn: NameFn): NameSubst {
    (n: string, c: Ctx) => if nameFn(n).Some? then Some(FrameSlot(nameFn(n).value, c)) else None
  }

  /** `lift_to_frame_m(name_fn)`: one statement in, the same statement with
      its own accesses to accepted names turned into frame accesses out. The
      name generator is not used. */
  function LiftToFrame(nameFn: NameFn): (fn: Mapper)
    ensures KeepsDepth(fn) && EndsWithBody(fn, InnerScopes)
  {
    (s: Stmt, it: NameIter) => ([SubstStmt(s, FrameSubst(nameFn))], it)
  }

  /** A name `lift_to_frame_m` leaves behind: one `name_fn` rejects, or the
      load of `frame` itself. */
  function Unlifted(nameFn: NameFn): RefTest {
    (n: string, c: Ctx) => nameFn(n).None? || (n == "frame" && c == Load)
  }

  /** A statement whose own expressions access no accepted name directly. */
  function FrameOnly(nameFn: NameFn): StmtTest {
    (s: Stmt) => AllRefs(StmtRefs(s), Unlifted(nameFn))
  }

  lemma FrameSlotRefs(key: string, ctx: Ctx)
    ensures NameRefs(FrameSlot(key, ctx)) == {("frame", Load)}
  {
    var e := FrameSlot(key, ctx);
    assert NameRefs(e) == NameRefsList([Lookup("frame"), Const(LStr(key))]);
    NameRefsPair(Lookup("frame"), Const(LStr(key)));
  }

  lemma FrameSubstKeeps(nameFn: NameFn)
    ensures Keeps(FrameSubst(nameFn), Unlifted(nameFn))
  {
    forall n: string, c: Ctx
      ensures if FrameSubst(nameFn)(n, c).Some? then AllRefs(NameRefs(FrameSubst(nameFn)(n, c).value), Unlifted(nameFn))
              else Unlifted(nameFn)(n, c)
    {
      if nameFn(n).Some? {
        FrameSlotRefs(nameFn(n).value, c);
      }
    }
  }

  lemma LiftToFrameEstablishes(nameFn: NameFn)
    ensures Establishes(LiftToFrame(nameFn), InnerScopes, FrameOnly(nameFn)) && BodyBlind(FrameOnly(nameFn))
  {
    var fn := LiftToFrame(nameFn);
    forall s: Stmt, it: NameIter, k | 0 <= k < |fn(s, it).0|
      ensures FrameOnly(nameFn)(fn(s, it).0[k])
      ensures InnerScopes(fn(s, it).0[k]) ==> InnerScopes(s) && k == |fn(s, it).0| - 1
    {
      FrameSubstKeeps(nameFn);
      SubstStmtKeeps(s, FrameSubst(nameFn), Unlifted(nameFn));
    }
    forall s: Stmt, b: seq<Stmt> | HasBody(s) && FrameOnly(nameFn)(s)
      ensures FrameOnly(nameFn)(WithBody(s, b))
    {
      StmtRefsWithBody(s, b);
    }
  }

  /** `map_scope(scope, lift_to_frame_m(name_fn))`, with `is_scope` as the
      scope test: it never fails, keeps every field but the body, and no
      statement of the body, nor, recursively, of the body of any `if`,
      `while` or `for` it contains, accesses an accepted name other than
      through `frame`. */
  function MapLiftToFrame(scope: Stmt, nameFn: NameFn, it: NameIter): (r: (Stmt, NameIter))
    requires HasBody(scope)
    ensures HasBody(r.0) && r.0 == WithBody(scope, r.0.body)
    ensures Everywhere(r.0.body, FrameOnly(nameFn), InnerScopes)
  {
    FmapSucceeds(scope, LiftToFrame(nameFn), InnerScopes, it);
    LiftToFrameEstablishes(nameFn);
    FmapEverywhere(scope, LiftToFrame(nameFn), InnerScopes, FrameOnly(nameFn), it);
    var (res, it') := Fmap(scope, LiftToFrame(nameFn), InnerScopes, it);
    (res.value, it')
  }

  /** A statement none of whose own names `name_fn` accepts is kept as it is. */
  lemma LiftToFrameKeeps(s: Stmt, nameFn: NameFn, it: NameIter)
    requires forall p | p in StmtRefs(s) :: nameFn(p.0).None?
    ensures LiftToFrame(nameFn)(s, it) == ([s], it)
  {
    SubstStmtIdentity(s, FrameSubst(nameFn));
  }

  /** The `name_fn` of `src/mappers_test.py`: the locals and arguments of `bar`. */
  function BarLocals(): NameFn {
    (n: string) => if n in {"a", "b", "arg1", "arg2"} then Some(n) else None
  }

  /** `BarLocals` accepts the locals and arguments of `bar` and rejects
      the callees `foo` and `baz`. */
  lemma BarLocalsPicks()
    ensures BarLocals()("a") == Some("a") && BarLocals()("b") == Some("b")
    ensures BarLocals()("arg1") == Some("arg1") && BarLocals()("arg2") == Some("arg2")
    ensures BarLocals()("foo").None? && BarLocals()("baz").None?
  {
  }

  /** `a = arg1 + arg2` becomes `frame['a'] = frame['arg1'] + frame['arg2']`. */
  lemma GoldenLiftAssign(it: NameIter)
    ensures LiftToFrame(BarLocals())(Assign([Name("a", Store)], BinOp(Lookup("arg1"), Add, Lookup("arg2"))), it)
      == ([Assign([FrameSlot("a", Store)], BinOp(FrameSlot("arg1", Load), Add, FrameSlot("arg2", Load)))], it)
  {
    var g := FrameSubst(BarLocals());
    BarLocalsPicks();
    SubstPair(Lookup("arg1"), Lookup("arg2"), g);
    SubstOne(Name("a", Store), g);
  }

  /** A call `f()` to a name the substitution does not pick is kept. */
  lemma SubstKeepsCall(f: string, g: NameSubst)
    requires g(f, Load).None?
    ensures Subst(CallOf(f, []), g) == CallOf(f, [])
  {
    assert Children(CallOf(f, [])) == [Lookup(f)];
    SubstOne(Lookup(f), g);
  }

  lemma SubstKeepsOr(f1: string, f2: string, g: NameSubst)
    requires g(f1, Load).None? && g(f2, Load).None?
    ensures Subst(BoolOp(Or, [CallOf(f1, []), CallOf(f2, [])]), g) == BoolOp(Or, [CallOf(f1, []), CallOf(f2, [])])
  {
    var c1, c2 := CallOf(f1, []), CallOf(f2, []);
    assert SubstList([c1, c2], g) == [c1, c2] by {
      SubstKeepsCall(f1, g);
      SubstKeepsCall(f2, g);
      SubstPair(c1, c2, g);
    }
    assert Children(BoolOp(Or, [c1, c2])) == [c1, c2];
  }

  lemma LiftCalls(nameFn: NameFn, it: NameIter, calls: Expr)
    requires nameFn("a") == Some("a") && nameFn("b") == Some("b")
    requires Subst(calls, FrameSubst(nameFn)) == calls
    ensures LiftToFrame(nameFn)(Assign([Name("b", Store)], BinOp(Lookup("a"), Add, calls)), it)
      == ([Assign([FrameSlot("b", Store)], BinOp(FrameSlot("a", Load), Add, calls))], it)
  {
    var g := FrameSubst(nameFn);
    SubstPair(Lookup("a"), calls, g);
    SubstOne(Name("b", Store), g);
  }

  /** `b = a + (foo() or baz())` becomes `frame['b'] = frame['a'] + (foo() or
      baz())`: the callees are not accepted and stay plain names. */
  lemma GoldenLiftCalls(it: NameIter)
    ensures LiftToFrame(BarLocals())(Assign([Name("b", Store)], BinOp(Lookup("a"), Add, BoolOp(Or, [CallOf("foo", []), CallOf("baz", [])]))), it)
      == ([Assign([FrameSlot("b", Store)], BinOp(FrameSlot("a", Load), Add, BoolOp(Or, [CallOf("foo", []), CallOf("baz", [])])))], it)
  {
    BarLocalsPicks();
    SubstKeepsOr("foo", "baz", FrameSubst(BarLocals()));
    LiftCalls(BarLocals(), it, BoolOp(Or, [CallOf("foo", []), CallOf("baz", [])]));
  }

  // ---------------------------------------------------------------------
  // remove_trivial_temporaries_m
  // ---------------------------------------------------------------------

  /** What `remove_trivial_temporaries_m` precomputes: the assignments to
      drop, and for each trivial temporary the assignment whose value
      replaces its loads. */
  datatype TrivialPlan = TrivialPlan(dropped: set<Stmt>, toReplace: map<string, Stmt>)

  /** `last_assignment[t]` or `first_assignment[t]` raised `KeyError`: the
      assignment finder recorded no assignment for a candidate. */
  datatype TrivialError = MissingAssignment

  /** The precomputation of `remove_trivial_temporaries_m`, given the
      candidates of `potentially_trivial_temporaries` and the two maps
      `find_assignments` returns. A candidate is trivial when its first and
      last assignments are the same statement. */
  function PlanTrivial(candidates: set<string>, first: map<string, Stmt>, last: map<string, Stmt>): (r: Result<TrivialPlan, TrivialError>)
    ensures r.Ok? <==> candidates <= first.Keys && candidates <= last.Keys
  {
    if !(candidates <= last.Keys && candidates <= first.Keys) then Err(MissingAssignment)
    else
      var trivial := set t | t in candidates && last[t] == first[t];
      Ok(TrivialPlan(set t | t in trivial :: last[t], map t | t in trivial :: last[t]))
  }

  /** The plan replaces exactly the candidates assigned once, each by its one
      assignment, and drops exactly those assignments. */
  lemma PlanTrivialSpec(candidates: set<string>, first: map<string, Stmt>, last: map<string, Stmt>)
    requires candidates <= first.Keys && candidates <= last.Keys
    ensures var plan := PlanTrivial(candidates, first, last).value;
      && (forall t :: t in plan.toReplace <==> t in candidates && first[t] == last[t])
      && (forall t | t in plan.toReplace :: plan.toReplace[t] == last[t] == first[t])
      && plan.dropped == plan.toReplace.Values
  {
  }

  /** `replace_variable(_, to_replace)` on one name: a load of a trivial
      temporary becomes the value its assignment stores. */
  function ReplaceSubst(toReplace: map<string, Stmt>): NameSubst {
    (n: string, c: Ctx) => if c == Load && n in toReplace && toReplace[n].Assign? then Some(toReplace[n].value) else None
  }

  /** The mapper of `remove_trivial_temporaries_m`: a dropped assignment
      vanishes; any other statement has the trivial temporaries it loads
      replaced by their values. */
  function RemoveTrivial(plan: TrivialPlan): (fn: Mapper)
    ensures KeepsDepth(fn)
  {
    (s: Stmt, it: NameIter) =>
      if s in plan.dropped then ([], it) else ([SubstStmt(s, ReplaceSubst(plan.toReplace))], it)
  }

  /** A name that is not a load of a temporary the plan replaces. */
  function NotTrivialLoad(plan: TrivialPlan): RefTest {
    (n: string, c: Ctx) => !(c == Load && n in plan.toReplace && plan.toReplace[n].Assign?)
  }

  /** A statement whose own expressions load no trivial temporary. */
  function NoTrivialLoads(plan: TrivialPlan): StmtTest {
    (s: Stmt) => AllRefs(StmtRefs(s), NotTrivialLoad(plan))
  }

  /** No dropped statement is an inner scope (they are assignments), and no
      replacing value loads a trivial temporary itself. */
  ghost predicate PlanFlat(plan: TrivialPlan) {
    && (forall d | d in plan.dropped :: !IsScope(d))
    && (forall t | t in plan.toReplace && plan.toReplace[t].Assign? ::
          AllRefs(NameRefs(plan.toReplace[t].value), NotTrivialLoad(plan)))
  }

  lemma RemoveTrivialEstablishes(plan: TrivialPlan)
    requires PlanFlat(plan)
    ensures EndsWithBody(RemoveTrivial(plan), InnerScopes)
    ensures Establishes(RemoveTrivial(plan), InnerScopes, NoTrivialLoads(plan)) && BodyBlind(NoTrivialLoads(plan))
  {
    var fn := RemoveTrivial(plan);
    var g := ReplaceSubst(plan.toReplace);
    assert Keeps(g, NotTrivialLoad(plan));
    forall s: Stmt, it: NameIter | InnerScopes(s)
      ensures fn(s, it).0 != [] && HasBody(fn(s, it).0[|fn(s, it).0| - 1])
    {
    }
    forall s: Stmt, it: NameIter, k | 0 <= k < |fn(s, it).0|
      ensures NoTrivialLoads(plan)(fn(s, it).0[k])
      ensures InnerScopes(fn(s, it).0[k]) ==> InnerScopes(s) && k == |fn(s, it).0| - 1
    {
      SubstStmtKeeps(s, g, NotTrivialLoad(plan));
    }
    forall s: Stmt, b: seq<Stmt> | HasBody(s) && NoTrivialLoads(plan)(s)
      ensures NoTrivialLoads(plan)(WithBody(s, b))
    {
      StmtRefsWithBody(s, b);
    }
  }

  /** `map_scope(scope, remove_trivial_temporaries_m(fn))`, with `is_scope`
      as the scope test. */
  function MapRemoveTrivial(scope: Stmt, plan: TrivialPlan, it: NameIter): (Result<Stmt, MapError>, NameIter)
    requires HasBody(scope)
  {
    Fmap(scope, RemoveTrivial(plan), InnerScopes, it)
  }

  /** For a flat plan the pass never fails, keeps every field but the body,
      and leaves no load of a trivial temporary in the body, nor,
      recursively, in the body of any `if`, `while` or `for` it contains. */
  lemma MapRemoveTrivialRemovesLoads(scope: Stmt, plan: TrivialPlan, it: NameIter)
    requires HasBody(scope) && PlanFlat(plan)
    ensures var r := MapRemoveTrivial(scope, plan, it).0;
      r.Ok? && r.value == WithBody(scope, r.value.body) && Everywhere(r.value.body, NoTrivialLoads(plan), InnerScopes)
  {
    RemoveTrivialEstablishes(plan);
    FmapSucceeds(scope, RemoveTrivial(plan), InnerScopes, it);
    FmapEverywhere(scope, RemoveTrivial(plan), InnerScopes, NoTrivialLoads(plan), it);
  }

  /** The tail call of `src/mappers_test.py`: with `__tmp0__ = sum(...)` as
      the one assignment of the one candidate, the plan drops it and
      `return __tmp0__` becomes `return sum(...)`. */
  lemma GoldenRemoveTrivial(args: seq<Expr>, it: NameIter)
    ensures var t := "__tmp0__";
      var a := MakeAssign(t, Call(Lookup("sum"), args, []));
      var plan := PlanTrivial({t}, map[t := a], map[t := a]);
      && plan == Ok(TrivialPlan({a}, map[t := a]))
      && RemoveTrivial(plan.value)(a, it) == ([], it)
      && RemoveTrivial(plan.value)(Return(Lookup(t)), it) == ([Return(Call(Lookup("sum"), args, []))], it)
  {
    var t := "__tmp0__";
    var a := MakeAssign(t, Call(Lookup("sum"), args, []));
    var plan := PlanTrivial({t}, map[t := a], map[t := a]);
    assert plan.value.toReplace == map[t := a];
    assert plan.value.dropped == {a};
    assert Return(Lookup(t)) != a;
    SubstOne(Lookup(t), ReplaceSubst(map[t := a]));
  }

  /** A candidate assigned twice is not trivial: the plan is empty and both
      assignments are kept as they are. */
  lemma GoldenRemoveTrivialReassigned(first: Stmt, last: Stmt, it: NameIter)
    requires first != last
    ensures var plan := PlanTrivial({"t"}, map["t" := first], map["t" := last]);
      && plan == Ok(TrivialPlan({}, map[]))
      && RemoveTrivial(plan.value)(first, it) == ([first], it)
      && RemoveTrivial(plan.value)(last, it) == ([last], it)
  {
    var plan := PlanTrivial({"t"}, map["t" := first], map["t" := last]);
    assert plan.value.toReplace == map[];
    assert plan.value.dropped == {};
    SubstStmtIdentity(first, ReplaceSubst(map[]));
    SubstStmtIdentity(last, ReplaceSubst(map[]));
  }
}
