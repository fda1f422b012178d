/** `transform.py`: hoisting of suspending calls out of whole statements
    (`promote_call_expressions`, a `map_ast` walk) and the pass
    `promote_to_temporary` that applies it to every statement of a function
    through `fmap_statements`.

    `HoistStmt` also covers `expressions.promote_call_expressions` applied to
    a statement, as `src/mappers.py` does: the `walk` argument selects which
    of the two field walks is meant (see `Expressions.Walk`). */
module Transform {
  import opened Wrappers
  import opened PyAst
  import opened Utils
  import opened Expressions

  // ---------------------------------------------------------------------
  // Hoisting out of a statement
  // ---------------------------------------------------------------------

  /** The statement `s` with its suspending calls hoisted, the assignments
      appended on the way, and the generator afterwards. Fields are visited
      in `ast.iter_fields` order. The `body` of a scope is never entered;
      under `MapAst` the `body` of a `def` and every `orelse` are, and a list
      of plain names (`global`) loses its entries, which are not nodes. */
  function HoistStmt(s: Stmt, fns: set<string>, walk: Walk, it: NameIter): (r: (Stmt, seq<Stmt>, NameIter))
    ensures r.2.prefix == it.prefix && r.2.count == it.count + |r.1|
    ensures HasBody(r.0) <==> HasBody(s)
    ensures IsScope(r.0) <==> IsScope(s)
    ensures IsScope(s) || (HasBody(s) && walk.MapExpression?) ==> r.0.body == s.body
    ensures Depth(r.0) == Depth(s)
  {
    match s
    case FunctionDef(name, a, body) =>
      var (kd, h1, it1) := HoistList(SomeKeys(a.kwDefaults), fns, walk, it);
      var (ds, h2, it2) := HoistList(a.defaults, fns, walk, it1);
      var a' := a.(kwDefaults := DictKeys(a.kwDefaults, kd, walk), defaults := ds);
      if walk.MapExpression? then (FunctionDef(name, a', body), h1 + h2, it2)
      else
        var (b, h3, it3) := HoistStmts(body, fns, walk, it2);
        (FunctionDef(name, a', b), h1 + h2 + h3, it3)
    case Assign(targets, value) =>
      var (ts, h1, it1) := HoistList(targets, fns, walk, it);
      var (v, h2, it2) := Hoist(value, fns, walk, it1);
      (Assign(ts, v), h1 + h2, it2)
    case ExprStmt(value) =>
      var (v, h, it1) := Hoist(value, fns, walk, it);
      (ExprStmt(v), h, it1)
    case Return(value) =>
      var (v, h, it1) := Hoist(value, fns, walk, it);
      (Return(v), h, it1)
    case If(test, body, orelse) =>
      var (t, o, h, it1) := HoistHeader(test, orelse, fns, walk, it);
      (If(t, body, o), h, it1)
    case While(test, body, orelse) =>
      var (t, o, h, it1) := HoistHeader(test, orelse, fns, walk, it);
      (While(t, body, o), h, it1)
    case For(target, iter, body, orelse) =>
      var (tg, h1, it1) := Hoist(target, fns, walk, it);
      var (i, o, h2, it2) := HoistHeader(iter, orelse, fns, walk, it1);
      (For(tg, i, body, o), h1 + h2, it2)
    case Global(_) =>
      (if walk.MapAst? then Global([]) else s, [], it)
    case ForAdvance(_, _, _) => (s, [], it)
    case Break => (s, [], it)
    case Continue => (s, [], it)
    case Pass => (s, [], it)
  }

  /** The last header expression of an `if`, `while` or `for`, then (under
      `MapAst`) its `orelse`; the `body` in between is skipped. */
  function HoistHeader(e: Expr, orelse: seq<Stmt>, fns: set<string>, walk: Walk, it: NameIter): (r: (Expr, seq<Stmt>, seq<Stmt>, NameIter))
    ensures r.3.prefix == it.prefix && r.3.count == it.count + |r.2|
    ensures walk.MapExpression? ==> r.1 == orelse
    ensures MaxDepth(r.1) == MaxDepth(orelse)
    decreases orelse, 1
  {
    var (t, h1, it1) := Hoist(e, fns, walk, it);
    if walk.MapExpression? then (t, orelse, h1, it1)
    else
      var (o, h2, it2) := HoistStmts(orelse, fns, walk, it1);
      (t, o, h1 + h2, it2)
  }

  /** The statements `ss`, each hoisted in turn, left to right. */
  function HoistStmts(ss: seq<Stmt>, fns: set<string>, walk: Walk, it: NameIter): (r: (seq<Stmt>, seq<Stmt>, NameIter))
    ensures |r.0| == |ss|
    ensures r.2.prefix == it.prefix && r.2.count == it.count + |r.1|
    ensures MaxDepth(r.0) == MaxDepth(ss)
    decreases ss, 0
  {
    if ss == [] then ([], [], it)
    else
      var (init, h1, it1) := HoistStmts(ss[..|ss| - 1], fns, walk, it);
      var (last, h2, it2) := HoistStmt(ss[|ss| - 1], fns, walk, it1);
      assert (init + [last])[..|ss| - 1] == init;
      (init + [last], h1 + h2, it2)
  }

  // ---------------------------------------------------------------------
  // The appended assignments
  // ---------------------------------------------------------------------

  /** Every assignment appended while walking a statement is `name = <call>`
      for a suspending call, with the generator's names in order. */
  lemma {:induction false} HoistStmtAssignments(s: Stmt, fns: set<string>, walk: Walk, it: NameIter)
    ensures AllHoisted(HoistStmt(s, fns, walk, it).1, fns, it.prefix, it.count)
    decreases s, 2
  {
    match s
    case FunctionDef(_, _, _) => HoistDefAssignments(s, fns, walk, it);
    case Assign(_, _) => HoistAssignAssignments(s, fns, walk, it);
    case ExprStmt(value) => HoistAssignments(value, fns, walk, it);
    case Return(value) => HoistAssignments(value, fns, walk, it);
    case If(test, _, orelse) => HoistHeaderAssignments(test, orelse, fns, walk, it);
    case While(test, _, orelse) => HoistHeaderAssignments(test, orelse, fns, walk, it);
    case For(_, _, _, _) => HoistForAssignments(s, fns, walk, it);
    case Global(_) =>
    case ForAdvance(_, _, _) =>
    case Break =>
    case Continue =>
    case Pass =>
  }

  lemma {:induction false} HoistDefAssignments(s: Stmt, fns: set<string>, walk: Walk, it: NameIter)
    requires s.FunctionDef?
    ensures AllHoisted(HoistStmt(s, fns, walk, it).1, fns, it.prefix, it.count)
    decreases s, 1
  {
    var a := s.arguments;
    var (kd, h1, it1) := HoistList(SomeKeys(a.kwDefaults), fns, walk, it);
    var (ds, h2, it2) := HoistList(a.defaults, fns, walk, it1);
    assert AllHoisted(h1 + h2, fns, it.prefix, it.count) by {
      HoistListAssignments(SomeKeys(a.kwDefaults), fns, walk, it);
      HoistListAssignments(a.defaults, fns, walk, it1);
      AllHoistedAppend(h1, h2, fns, it.prefix, it.count);
    }
    if walk.MapAst? {
      var h3 := HoistStmts(s.body, fns, walk, it2).1;
      assert AllHoisted(h1 + h2 + h3, fns, it.prefix, it.count) by {
        HoistStmtsAssignments(s.body, fns, walk, it2);
        AllHoistedAppend(h1 + h2, h3, fns, it.prefix, it.count);
      }
    }
  }

  lemma HoistAssignAssignments(s: Stmt, fns: set<string>, walk: Walk, it: NameIter)
    requires s.Assign?
    ensures AllHoisted(HoistStmt(s, fns, walk, it).1, fns, it.prefix, it.count)
  {
    var (ts, h1, it1) := HoistList(s.targets, fns, walk, it);
    var h2 := Hoist(s.value, fns, walk, it1).1;
    assert AllHoisted(h1 + h2, fns, it.prefix, it.count) by {
      HoistListAssignments(s.targets, fns, walk, it);
      HoistAssignments(s.value, fns, walk, it1);
      AllHoistedAppend(h1, h2, fns, it.prefix, it.count);
    }
  }

  lemma {:induction false} HoistForAssignments(s: Stmt, fns: set<string>, walk: Walk, it: NameIter)
    requires s.For?
    ensures AllHoisted(HoistStmt(s, fns, walk, it).1, fns, it.prefix, it.count)
    decreases s, 1
  {
    var (tg, h1, it1) := Hoist(s.target, fns, walk, it);
    var h2 := HoistHeader(s.iter, s.orelse, fns, walk, it1).2;
    assert AllHoisted(h1 + h2, fns, it.prefix, it.count) by {
      HoistAssignments(s.target, fns, walk, it);
      HoistHeaderAssignments(s.iter, s.orelse, fns, walk, it1);
      AllHoistedAppend(h1, h2, fns, it.prefix, it.count);
    }
  }

  lemma {:induction false} HoistHeaderAssignments(e: Expr, orelse: seq<Stmt>, fns: set<string>, walk: Walk, it: NameIter)
    ensures AllHoisted(HoistHeader(e, orelse, fns, walk, it).2, fns, it.prefix, it.count)
    decreases orelse, 1
  {
    var (t, h1, it1) := Hoist(e, fns, walk, it);
    if walk.MapExpression? {
      assert HoistHeader(e, orelse, fns, walk, it).2 == h1;
      HoistAssignments(e, fns, walk, it);
    } else {
      var h2 := HoistStmts(orelse, fns, walk, it1).1;
      assert HoistHeader(e, orelse, fns, walk, it).2 == h1 + h2;
      HoistAssignments(e, fns, walk, it);
      HoistStmtsAssignments(orelse, fns, walk, it1);
      AllHoistedAppend(h1, h2, fns, it.prefix, it.count);
    }
  }

  lemma {:induction false} HoistStmtsAssignments(ss: seq<Stmt>, fns: set<string>, walk: Walk, it: NameIter)
    ensures AllHoisted(HoistStmts(ss, fns, walk, it).1, fns, it.prefix, it.count)
    decreases ss, 0
  {
    if ss != [] {
      var (init, h1, it1) := HoistStmts(ss[..|ss| - 1], fns, walk, it);
      HoistStmtsAssignments(ss[..|ss| - 1], fns, walk, it);
      HoistStmtAssignments(ss[|ss| - 1], fns, walk, it1);
      AllHoistedAppend(h1, HoistStmt(ss[|ss| - 1], fns, walk, it1).1, fns, it.prefix, it.count);
    }
  }

  // ---------------------------------------------------------------------
  // promote_to_temporary
  // ---------------------------------------------------------------------

  /** The closure `mapper` of `promote_to_temporary` (with `walk` =
      `MapAst`) and of `promote_to_temporary_m` (with `MapExpression`): a
      statement becomes the assignments its walk appended, then the
      rewritten statement. */
  function PromoteMapper(fns: set<string>, walk: Walk): Mapper {
    (s: Stmt, it: NameIter) =>
      var h := HoistStmt(s, fns, walk, it);
      (h.1 + [h.0], h.2)
  }

  /** The mapper never deepens a statement (the hoisted assignments have no
      body, the rewritten statement keeps its depth), and for a scope its
      last statement is the rewritten scope. */
  lemma PromoteMapperSound(fns: set<string>, walk: Walk)
    ensures KeepsDepth(PromoteMapper(fns, walk))
    ensures EndsWithBody(PromoteMapper(fns, walk), InnerScopes)
  {
    var fn := PromoteMapper(fns, walk);
    forall s: Stmt, it: NameIter, k | 0 <= k < |fn(s, it).0|
      ensures Depth(fn(s, it).0[k]) <= Depth(s)
    {
      var h := HoistStmt(s, fns, walk, it);
      if k < |h.1| {
        HoistStmtAssignments(s, fns, walk, it);
        assert fn(s, it).0[k] == h.1[k] && h.1[k].Assign?;
      } else {
        assert fn(s, it).0[k] == h.0;
      }
    }
  }

  /** `fmap_statements(scope, mapper)` with the mapper of
      `promote_to_temporary`. */
  function PromoteScope(scope: Stmt, fns: set<string>, it: NameIter): (r: (Result<Stmt, MapError>, NameIter))
    requires HasBody(scope)
    ensures r.0.Ok?
  {
    PromoteMapperSound(fns, MapAst);
    FmapSucceeds(scope, PromoteMapper(fns, MapAst), InnerScopes, it);
    Fmap(scope, PromoteMapper(fns, MapAst), InnerScopes, it)
  }

  /** The loop of `fmap_statements` over `stmts` with the same mapper. */
  function PromoteBody(stmts: seq<Stmt>, fns: set<string>, it: NameIter): (r: (Result<seq<Stmt>, MapError>, NameIter))
    ensures r.0.Ok?
  {
    PromoteMapperSound(fns, MapAst);
    FmapBodySucceeds(stmts, PromoteMapper(fns, MapAst), InnerScopes, it);
    FmapBody(stmts, PromoteMapper(fns, MapAst), InnerScopes, it)
  }

  /** Why `promote_to_temporary` gives up: its `assert` that the tree is a
      `def`. */
  datatype PromoteError = NotFunctionDef

  /** `promote_to_temporary(tree, fns, names)`: every statement of the
      function, recursively through its inner scopes, becomes its hoisted
      assignments followed by the rewritten statement. `names` is the
      generator the factory returns, `dunder_names("tmp")` by default. */
  function PromoteToTemporary(tree: Stmt, fns: set<string>, names: NameIter): (r: Result<Stmt, PromoteError>)
    ensures r.Ok? <==> tree.FunctionDef?
    ensures r.Ok? ==> r.value.FunctionDef? && r.value == WithBody(tree, r.value.body)
    ensures r.Ok? ==> Depth(r.value) <= Depth(tree)
  {
    if !tree.FunctionDef? then Err(NotFunctionDef)
    else Ok(PromoteScope(tree, fns, names).0.value)
  }

  // ---------------------------------------------------------------------
  // What promote_to_temporary leaves behind
  // ---------------------------------------------------------------------

  /** No suspending call is left in the fields `map_ast` visits from `s`:
      its own expressions and, recursively, the statements of its `orelse`.
      The `body` of a scope is not among them; neither is the `body` of a
      nested `def`, which fiber does not lower. */
  predicate AstCallFree(s: Stmt, fns: set<string>)
    decreases s, 1
  {
    match s
    case FunctionDef(_, a, _) => NoCalls(SomeKeys(a.kwDefaults), fns) && NoCalls(a.defaults, fns)
    case Assign(targets, value) => NoCalls(targets, fns) && !HasCall(value, fns)
    case ExprStmt(value) => !HasCall(value, fns)
    case Return(value) => !HasCall(value, fns)
    case If(test, _, orelse) => !HasCall(test, fns) && AllAstCallFree(orelse, fns)
    case While(test, _, orelse) => !HasCall(test, fns) && AllAstCallFree(orelse, fns)
    case For(target, iter, _, orelse) =>
      !HasCall(target, fns) && !HasCall(iter, fns) && AllAstCallFree(orelse, fns)
    case _ => true
  }

  predicate AllAstCallFree(ss: seq<Stmt>, fns: set<string>)
    decreases ss, 0
  {
    forall i | 0 <= i < |ss| :: AstCallFree(ss[i], fns)
  }

  /** Hoisting a statement under `map_ast` leaves no suspending call in the
      fields that walk visits. */
  lemma {:induction false} HoistStmtAstCallFree(s: Stmt, fns: set<string>, it: NameIter)
    requires TempsOutside(fns, it.prefix)
    ensures AstCallFree(HoistStmt(s, fns, MapAst, it).0, fns)
    decreases s, 2
  {
    var w := MapAst;
    match s
    case FunctionDef(_, _, _) => HoistDefAstCallFree(s, fns, it);
    case Assign(_, _) => HoistAssignAstCallFree(s, fns, it);
    case ExprStmt(value) => HoistRemovesCalls(value, fns, w, it);
    case Return(value) => HoistRemovesCalls(value, fns, w, it);
    case If(test, _, orelse) => HoistHeaderAstCallFree(test, orelse, fns, it);
    case While(test, _, orelse) => HoistHeaderAstCallFree(test, orelse, fns, it);
    case For(_, _, _, _) => HoistForAstCallFree(s, fns, it);
    case Global(_) =>
    case ForAdvance(_, _, _) =>
    case Break =>
    case Continue =>
    case Pass =>
  }

  /** The `def` case of `HoistStmtAstCallFree`: the hoisted defaults hold no
      suspending call. */
  lemma HoistDefAstCallFree(s: Stmt, fns: set<string>, it: NameIter)
    requires s.FunctionDef? && TempsOutside(fns, it.prefix)
    ensures AstCallFree(HoistStmt(s, fns, MapAst, it).0, fns)
  {
    var w, a := MapAst, s.arguments;
    var (kd, h1, it1) := HoistList(SomeKeys(a.kwDefaults), fns, w, it);
    var ds := HoistList(a.defaults, fns, w, it1).0;
    assert HoistStmt(s, fns, w, it).0.arguments
      == a.(kwDefaults := DictKeys(a.kwDefaults, kd, w), defaults := ds);
    HoistListRemovesCalls(SomeKeys(a.kwDefaults), fns, w, it);
    HoistListRemovesCalls(a.defaults, fns, w, it1);
  }

  /** The assignment case of `HoistStmtAstCallFree`: the hoisted targets and
      value hold no suspending call. */
  lemma HoistAssignAstCallFree(s: Stmt, fns: set<string>, it: NameIter)
    requires s.Assign? && TempsOutside(fns, it.prefix)
    ensures AstCallFree(HoistStmt(s, fns, MapAst, it).0, fns)
  {
    var w := MapAst;
    var (ts, h1, it1) := HoistList(s.targets, fns, w, it);
    assert HoistStmt(s, fns, w, it).0 == Assign(ts, Hoist(s.value, fns, w, it1).0);
    HoistListRemovesCalls(s.targets, fns, w, it);
    HoistRemovesCalls(s.value, fns, w, it1);
  }

  /** The `for` case of `HoistStmtAstCallFree`: the hoisted target,
      iterable and `orelse` hold no suspending call. */
  lemma {:induction false} HoistForAstCallFree(s: Stmt, fns: set<string>, it: NameIter)
    requires s.For? && TempsOutside(fns, it.prefix)
    ensures AstCallFree(HoistStmt(s, fns, MapAst, it).0, fns)
    decreases s, 1
  {
    var w := MapAst;
    var (tg, h1, it1) := Hoist(s.target, fns, w, it);
    var r := HoistHeader(s.iter, s.orelse, fns, w, it1);
    assert HoistStmt(s, fns, w, it).0 == For(tg, r.0, s.body, r.1);
    HoistRemovesCalls(s.target, fns, w, it);
    HoistHeaderAstCallFree(s.iter, s.orelse, fns, it1);
  }

  lemma {:induction false} HoistHeaderAstCallFree(e: Expr, orelse: seq<Stmt>, fns: set<string>, it: NameIter)
    requires TempsOutside(fns, it.prefix)
    ensures var r := HoistHeader(e, orelse, fns, MapAst, it);
      !HasCall(r.0, fns) && AllAstCallFree(r.1, fns)
    decreases orelse, 1
  {
    var (t, h1, it1) := Hoist(e, fns, MapAst, it);
    HoistRemovesCalls(e, fns, MapAst, it);
    HoistStmtsAstCallFree(orelse, fns, it1);
    assert HoistHeader(e, orelse, fns, MapAst, it).1 == HoistStmts(orelse, fns, MapAst, it1).0;
  }

  lemma {:induction false} HoistStmtsAstCallFree(ss: seq<Stmt>, fns: set<string>, it: NameIter)
    requires TempsOutside(fns, it.prefix)
    ensures AllAstCallFree(HoistStmts(ss, fns, MapAst, it).0, fns)
    decreases ss, 0
  {
    if ss != [] {
      var (init, h1, it1) := HoistStmts(ss[..|ss| - 1], fns, MapAst, it);
      var last := HoistStmt(ss[|ss| - 1], fns, MapAst, it1).0;
      HoistStmtsAstCallFree(ss[..|ss| - 1], fns, it);
      HoistStmtAstCallFree(ss[|ss| - 1], fns, it1);
      assert HoistStmts(ss, fns, MapAst, it).0 == init + [last];
      forall i | 0 <= i < |ss| ensures AstCallFree((init + [last])[i], fns) {
        if i < |init| { assert (init + [last])[i] == init[i]; } else { assert (init + [last])[i] == last; }
      }
    }
  }

  /** Every assignment appended while hoisting a statement under `map_ast`,
      from its own fields, its `orelse` or the `body` of a `def`, holds
      exactly one suspending call, at its root. */
  lemma {:induction false} HoistStmtAstOperandsFree(s: Stmt, fns: set<string>, it: NameIter)
    requires TempsOutside(fns, it.prefix)
    ensures OperandsFree(HoistStmt(s, fns, MapAst, it).1, fns)
    decreases s, 2
  {
    var w := MapAst;
    match s
    case FunctionDef(_, _, _) => HoistDefAstOperandsFree(s, fns, it);
    case Assign(_, _) => HoistAssignAstOperandsFree(s, fns, it);
    case ExprStmt(value) => HoistOperandsFree(value, fns, w, it);
    case Return(value) => HoistOperandsFree(value, fns, w, it);
    case If(test, _, orelse) => HoistHeaderAstOperandsFree(test, orelse, fns, it);
    case While(test, _, orelse) => HoistHeaderAstOperandsFree(test, orelse, fns, it);
    case For(_, _, _, _) => HoistForAstOperandsFree(s, fns, it);
    case Global(_) =>
    case ForAdvance(_, _, _) =>
    case Break =>
    case Continue =>
    case Pass =>
  }

  /** The `def` case of `HoistStmtAstOperandsFree`: assignments from the
      defaults and from the body. */
  lemma {:induction false} HoistDefAstOperandsFree(s: Stmt, fns: set<string>, it: NameIter)
    requires s.FunctionDef? && TempsOutside(fns, it.prefix)
    ensures OperandsFree(HoistStmt(s, fns, MapAst, it).1, fns)
    decreases s, 1
  {
    var w, a := MapAst, s.arguments;
    var (kd, h1, it1) := HoistList(SomeKeys(a.kwDefaults), fns, w, it);
    var (ds, h2, it2) := HoistList(a.defaults, fns, w, it1);
    var h3 := HoistStmts(s.body, fns, w, it2).1;
    assert HoistStmt(s, fns, w, it).1 == h1 + h2 + h3;
    HoistListOperandsFree(SomeKeys(a.kwDefaults), fns, w, it);
    HoistListOperandsFree(a.defaults, fns, w, it1);
    HoistStmtsAstOperandsFree(s.body, fns, it2);
    OperandsFreeAppend(h1, h2, fns);
    OperandsFreeAppend(h1 + h2, h3, fns);
  }

  /** The assignment case of `HoistStmtAstOperandsFree`. */
  lemma HoistAssignAstOperandsFree(s: Stmt, fns: set<string>, it: NameIter)
    requires s.Assign? && TempsOutside(fns, it.prefix)
    ensures OperandsFree(HoistStmt(s, fns, MapAst, it).1, fns)
  {
    var w := MapAst;
    var (ts, h1, it1) := HoistList(s.targets, fns, w, it);
    var h2 := Hoist(s.value, fns, w, it1).1;
    assert HoistStmt(s, fns, w, it).1 == h1 + h2;
    HoistListOperandsFree(s.targets, fns, w, it);
    HoistOperandsFree(s.value, fns, w, it1);
    OperandsFreeAppend(h1, h2, fns);
  }

  /** The `for` case of `HoistStmtAstOperandsFree`: assignments from the
      target, the iterable and the `orelse`. */
  lemma {:induction false} HoistForAstOperandsFree(s: Stmt, fns: set<string>, it: NameIter)
    requires s.For? && TempsOutside(fns, it.prefix)
    ensures OperandsFree(HoistStmt(s, fns, MapAst, it).1, fns)
    decreases s, 1
  {
    var w := MapAst;
    var (tg, h1, it1) := Hoist(s.target, fns, w, it);
    var h2 := HoistHeader(s.iter, s.orelse, fns, w, it1).2;
    assert HoistStmt(s, fns, w, it).1 == h1 + h2;
    HoistOperandsFree(s.target, fns, w, it);
    HoistHeaderAstOperandsFree(s.iter, s.orelse, fns, it1);
    OperandsFreeAppend(h1, h2, fns);
  }

  lemma {:induction false} HoistHeaderAstOperandsFree(e: Expr, orelse: seq<Stmt>, fns: set<string>, it: NameIter)
    requires TempsOutside(fns, it.prefix)
    ensures OperandsFree(HoistHeader(e, orelse, fns, MapAst, it).2, fns)
    decreases orelse, 1
  {
    var (t, h1, it1) := Hoist(e, fns, MapAst, it);
    HoistOperandsFree(e, fns, MapAst, it);
    HoistStmtsAstOperandsFree(orelse, fns, it1);
    OperandsFreeAppend(h1, HoistStmts(orelse, fns, MapAst, it1).1, fns);
  }

  lemma {:induction false} HoistStmtsAstOperandsFree(ss: seq<Stmt>, fns: set<string>, it: NameIter)
    requires TempsOutside(fns, it.prefix)
    ensures OperandsFree(HoistStmts(ss, fns, MapAst, it).1, fns)
    decreases ss, 0
  {
    if ss != [] {
      var (init, h1, it1) := HoistStmts(ss[..|ss| - 1], fns, MapAst, it);
      HoistStmtsAstOperandsFree(ss[..|ss| - 1], fns, it);
      HoistStmtAstOperandsFree(ss[|ss| - 1], fns, it1);
      OperandsFreeAppend(h1, HoistStmt(ss[|ss| - 1], fns, MapAst, it1).1, fns);
    }
  }

  /** No function in `fns` is named like a temporary of any generator. */
  ghost predicate NoTempNames(fns: set<string>) {
    forall p: string, k: nat {:trigger DunderName(p, k)} :: DunderName(p, k) !in fns
  }

  /** `name = <call>` whose one suspending call is at the root. */
  predicate OneCallAssign(s: Stmt, fns: set<string>) {
    s.Assign? && |s.targets| == 1 && s.targets[0].Name? && IsFnsCall(s.value, fns) && NoCalls(Children(s.value), fns)
  }

  /** The shape every statement has after `promote_to_temporary`: no
      suspending call in the fields `map_ast` visits, or a single suspending
      call bound to a name. */
  function AstPromoted(fns: set<string>): StmtTest {
    (s: Stmt) => AstCallFree(s, fns) || OneCallAssign(s, fns)
  }

  /** Each statement the mapper of `promote_to_temporary` returns has that
      shape, and only the last one, the rewritten statement, can be a scope,
      exactly when the original was. */
  lemma PromoteAstStatement(fns: set<string>, s: Stmt, it: NameIter, k: nat)
    requires TempsOutside(fns, it.prefix) && k < |PromoteMapper(fns, MapAst)(s, it).0|
    ensures var out := PromoteMapper(fns, MapAst)(s, it).0;
      AstPromoted(fns)(out[k]) && (InnerScopes(out[k]) ==> InnerScopes(s) && k == |out| - 1)
  {
    var h := HoistStmt(s, fns, MapAst, it);
    var out := h.1 + [h.0];
    if k < |h.1| {
      HoistStmtAssignments(s, fns, MapAst, it);
      HoistStmtAstOperandsFree(s, fns, it);
      assert out[k] == h.1[k];
      assert HoistedAssign(out[k], DunderName(it.prefix, it.count + k), fns);
    } else {
      HoistStmtAstCallFree(s, fns, it);
      assert out[k] == h.0;
    }
  }

  lemma PromoteToTemporaryEstablishes(fns: set<string>)
    requires NoTempNames(fns)
    ensures Establishes(PromoteMapper(fns, MapAst), InnerScopes, AstPromoted(fns)) && BodyBlind(AstPromoted(fns))
  {
    var fn := PromoteMapper(fns, MapAst);
    forall s: Stmt, it: NameIter, k | 0 <= k < |fn(s, it).0|
      ensures AstPromoted(fns)(fn(s, it).0[k])
      ensures InnerScopes(fn(s, it).0[k]) ==> InnerScopes(s) && k == |fn(s, it).0| - 1
    {
      assert TempsOutside(fns, it.prefix) by {
        forall j: nat ensures DunderName(it.prefix, j) !in fns {
        }
      }
      PromoteAstStatement(fns, s, it, k);
    }
  }

  /** After `promote_to_temporary`, every statement of the function,
      recursively through its inner scopes, either has no suspending call
      left in the fields `map_ast` visits or binds one suspending call, with
      call-free operands, to a name. */
  lemma PromoteToTemporaryPromotes(tree: Stmt, fns: set<string>, names: NameIter)
    requires tree.FunctionDef? && NoTempNames(fns)
    ensures Everywhere(PromoteToTemporary(tree, fns, names).value.body, AstPromoted(fns), InnerScopes)
  {
    PromoteMapperSound(fns, MapAst);
    PromoteToTemporaryEstablishes(fns);
    FmapSucceeds(tree, PromoteMapper(fns, MapAst), InnerScopes, names);
    FmapEverywhere(tree, PromoteMapper(fns, MapAst), InnerScopes, AstPromoted(fns), names);
  }

  // ---------------------------------------------------------------------
  // The mapper on single statements
  // ---------------------------------------------------------------------

  /** `return v`: the assignments hoisted out of `v`, then the rewritten
      `return`. */
  lemma PromoteReturn(fns: set<string>, walk: Walk, v: Expr, it: NameIter, h: (Expr, seq<Stmt>, NameIter))
    requires Hoist(v, fns, walk, it) == h
    ensures PromoteMapper(fns, walk)(Return(v), it) == (h.1 + [Return(h.0)], h.2)
  {
  }

  /** `x = v` for a plain name `x`: the assignments hoisted out of `v`, then
      the rewritten assignment. */
  lemma PromoteAssignName(fns: set<string>, walk: Walk, x: string, v: Expr, it: NameIter, h: (Expr, seq<Stmt>, NameIter))
    requires Hoist(v, fns, walk, it) == h
    ensures PromoteMapper(fns, walk)(Assign([Name(x, Store)], v), it) == (h.1 + [Assign([Name(x, Store)], h.0)], h.2)
  {
    assert HoistList([Name(x, Store)], fns, walk, it) == ([Name(x, Store)], [], it) by {
      HoistLeaf(Name(x, Store), fns, walk, it);
      HoistSingle(Name(x, Store), fns, walk, it);
    }
    EmptyPrefix(h.1);
  }

  /** An `if` without `else`: the assignments hoisted out of its test, then
      the `if` with the rewritten test and the body untouched. */
  lemma PromoteIf(fns: set<string>, walk: Walk, test: Expr, body: seq<Stmt>, it: NameIter, h: (Expr, seq<Stmt>, NameIter))
    requires Hoist(test, fns, walk, it) == h
    ensures PromoteMapper(fns, walk)(If(test, body, []), it) == (h.1 + [If(h.0, body, [])], h.2)
  {
    assert HoistHeader(test, [], fns, walk, it) == (h.0, [], h.1, h.2) by {
      EmptySuffix(h.1);
    }
  }

  // ---------------------------------------------------------------------
  // Calls in an `else` branch
  // ---------------------------------------------------------------------

  /** `if n: return n` `else: return bar(1)`, with `bar` suspending. */
  function BranchingIf(): Stmt {
    If(Lookup("n"), [Return(Lookup("n"))], [Return(CallOf("bar", [Int(1)]))])
  }

  /** Under `map_ast` the `else` branch of `BranchingIf` is walked in turn. */
  lemma ElseReturnHoisted(it: NameIter)
    ensures HoistStmts([Return(CallOf("bar", [Int(1)]))], {"bar"}, MapAst, it)
         == ([Return(Tmp(it, 0))], [TmpAssign(it, 0, CallOf("bar", [Int(1)]))], After(it, 1))
  {
    var a0 := TmpAssign(it, 0, CallOf("bar", [Int(1)]));
    var ret := Return(CallOf("bar", [Int(1)]));
    HoistGolden1(1, MapAst, it);
    assert HoistStmt(ret, {"bar"}, MapAst, it) == (Return(Tmp(it, 0)), [a0], After(it, 1));
    assert [ret][..0] == [];
    EmptyPrefix([a0]);
    EmptyPrefix([Return(Tmp(it, 0))]);
  }

  /** Under `map_ast` the call of the `else` branch is hoisted in front of
      the `if`, so it runs whatever the test says. */
  lemma OrelseHoistedAhead(it: NameIter)
    ensures PromoteMapper({"bar"}, MapAst)(BranchingIf(), it)
         == ([TmpAssign(it, 0, CallOf("bar", [Int(1)])),
              If(Lookup("n"), [Return(Lookup("n"))], [Return(Tmp(it, 0))])], After(it, 1))
  {
    var a0 := TmpAssign(it, 0, CallOf("bar", [Int(1)]));
    var o := [Return(Tmp(it, 0))];
    var s' := If(Lookup("n"), [Return(Lookup("n"))], o);
    assert HoistHeader(Lookup("n"), BranchingIf().orelse, {"bar"}, MapAst, it) == (Lookup("n"), o, [a0], After(it, 1)) by {
      HoistLeaf(Lookup("n"), {"bar"}, MapAst, it);
      ElseReturnHoisted(it);
      EmptyPrefix([a0]);
    }
    assert HoistStmt(BranchingIf(), {"bar"}, MapAst, it) == (s', [a0], After(it, 1));
    Cons1(a0, s');
  }

  /** Under `map_expression` an `if` or `while` gives up only the calls of
      its test, which run before either branch; both branches are kept. */
  lemma BranchesKept(test: Expr, body: seq<Stmt>, orelse: seq<Stmt>, fns: set<string>, it: NameIter)
    ensures var h := Hoist(test, fns, MapExpression, it);
      && PromoteMapper(fns, MapExpression)(If(test, body, orelse), it) == (h.1 + [If(h.0, body, orelse)], h.2)
      && PromoteMapper(fns, MapExpression)(While(test, body, orelse), it) == (h.1 + [While(h.0, body, orelse)], h.2)
  {
    var h := Hoist(test, fns, MapExpression, it);
    assert HoistHeader(test, orelse, fns, MapExpression, it) == (h.0, orelse, h.1, h.2);
    assert HoistStmt(If(test, body, orelse), fns, MapExpression, it) == (If(h.0, body, orelse), h.1, h.2);
    assert HoistStmt(While(test, body, orelse), fns, MapExpression, it) == (While(h.0, body, orelse), h.1, h.2);
  }

  /** The same `if` under `map_expression`: nothing is hoisted. */
  lemma OrelseKept(it: NameIter)
    ensures PromoteMapper({"bar"}, MapExpression)(BranchingIf(), it) == ([BranchingIf()], it)
  {
    HoistLeaf(Lookup("n"), {"bar"}, MapExpression, it);
    BranchesKept(Lookup("n"), [Return(Lookup("n"))], [Return(CallOf("bar", [Int(1)]))], {"bar"}, it);
    EmptyPrefix([BranchingIf()]);
  }

  // ---------------------------------------------------------------------
  // The example of transform_test.py
  // ---------------------------------------------------------------------

  /** `t == r` */
  function EqT(r: Expr): Expr {
    Compare(Lookup("t"), [Eq], [r])
  }

  /** `return bar(bar(bar(1), 3), 5) + bar(baz(t), 4)` */
  function FirstReturn(): Stmt {
    Return(BinOp(CallOf("bar", [CallOf("bar", [CallOf("bar", [Int(1)]), Int(3)]), Int(5)]), Add,
                 CallOf("bar", [CallOf("baz", [Lookup("t")]), Int(4)])))
  }

  /** `return bar(baz(t), 2) + 1` */
  function SecondReturn(): Stmt {
    Return(BinOp(CallOf("bar", [CallOf("baz", [Lookup("t")]), Int(2)]), Add, Int(1)))
  }

  /** The function `foo` of the example, before the pass. */
  function Foo(): Stmt {
    FunctionDef("foo", Arguments([], [], None, [], [], []), [
      Assign([Name("t", Store)], CallOf("bar", [Int(2)])),
      If(EqT(Int(1)), [FirstReturn()], []),
      If(EqT(CallOf("bar", [Int(10)])), [SecondReturn()], [])])
  }

  /** The first `if` after the pass. */
  function FirstIf(it: NameIter): Stmt {
    If(EqT(Int(1)), [
      TmpAssign(it, 1, CallOf("bar", [Int(1)])),
      TmpAssign(it, 2, CallOf("bar", [Tmp(it, 1), Int(3)])),
      TmpAssign(it, 3, CallOf("bar", [Tmp(it, 2), Int(5)])),
      TmpAssign(it, 4, CallOf("bar", [CallOf("baz", [Lookup("t")]), Int(4)])),
      Return(BinOp(Tmp(it, 3), Add, Tmp(it, 4)))], [])
  }

  /** The second `if` after the pass. */
  function SecondIf(it: NameIter): Stmt {
    If(EqT(Tmp(it, 5)), [
      TmpAssign(it, 6, CallOf("bar", [CallOf("baz", [Lookup("t")]), Int(2)])),
      Return(BinOp(Tmp(it, 6), Add, Int(1)))], [])
  }

  /** The function `foo` after the pass, with the names of `it`. */
  function FooPromoted(it: NameIter): Stmt {
    FunctionDef("foo", Arguments([], [], None, [], [], []), [
      TmpAssign(it, 0, CallOf("bar", [Int(2)])),
      Assign([Name("t", Store)], Tmp(it, 0)),
      FirstIf(it),
      TmpAssign(it, 5, CallOf("bar", [Int(10)])),
      SecondIf(it)])
  }

  /** A scope whose one statement is not itself a scope. */
  lemma FmapOne(scope: Stmt, fn: Mapper, it: NameIter)
    requires HasBody(scope) && KeepsDepth(fn) && |scope.body| == 1 && !IsScope(scope.body[0])
    ensures Fmap(scope, fn, InnerScopes, it) == (Ok(WithBody(scope, fn(scope.body[0], it).0)), fn(scope.body[0], it).1)
  {
    var s := scope.body[0];
    assert FmapBody([] + [s], fn, InnerScopes, it) == FmapStep([], s, fn, InnerScopes, it) by {
      FmapBodyAppendOne([], s, fn, InnerScopes, it, [], it);
    }
    FmapStepPlain([], s, fn, InnerScopes, it);
    EmptyPrefix([s]);
    EmptyPrefix(fn(s, it).0);
    FmapOk(scope, fn, InnerScopes, it, fn(s, it).0, fn(s, it).1);
  }

  /** `t = bar(2)` */
  lemma GoldenAssign(walk: Walk, it: NameIter)
    ensures PromoteMapper({"bar"}, walk)(Assign([Name("t", Store)], CallOf("bar", [Int(2)])), it)
         == ([TmpAssign(it, 0, CallOf("bar", [Int(2)])), Assign([Name("t", Store)], Tmp(it, 0))], After(it, 1))
  {
    var a0 := TmpAssign(it, 0, CallOf("bar", [Int(2)]));
    HoistGolden1(2, walk, it);
    PromoteAssignName({"bar"}, walk, "t", CallOf("bar", [Int(2)]), it, (Tmp(it, 0), [a0], After(it, 1)));
    Cons1(a0, Assign([Name("t", Store)], Tmp(it, 0)));
  }

  /** The body of the first `if`, with the generator after one name. */
  lemma GoldenFirstReturn(walk: Walk, it: NameIter)
    ensures PromoteMapper({"bar"}, walk)(FirstReturn(), After(it, 1)) == (FirstIf(it).body, After(it, 5))
  {
    var j := After(it, 1);
    var a1 := TmpAssign(it, 1, CallOf("bar", [Int(1)]));
    var a2 := TmpAssign(it, 2, CallOf("bar", [Tmp(it, 1), Int(3)]));
    var a3 := TmpAssign(it, 3, CallOf("bar", [Tmp(it, 2), Int(5)]));
    var a4 := TmpAssign(it, 4, CallOf("bar", [CallOf("baz", [Lookup("t")]), Int(4)]));
    var v := BinOp(Tmp(it, 3), Add, Tmp(it, 4));
    assert Hoist(FirstReturn().value, {"bar"}, walk, j) == (v, [a1, a2, a3, a4], After(it, 5)) by {
      HoistGolden(walk, j);
      TmpAfter(it, 1, 0);
      TmpAfter(it, 1, 1);
      TmpAfter(it, 1, 2);
      TmpAfter(it, 1, 3);
      assert After(j, 4) == After(it, 5);
    }
    assert FirstReturn() == Return(FirstReturn().value);
    assert PromoteMapper({"bar"}, walk)(FirstReturn(), j) == ([a1, a2, a3, a4] + [Return(v)], After(it, 5)) by {
      PromoteReturn({"bar"}, walk, FirstReturn().value, j, (v, [a1, a2, a3, a4], After(it, 5)));
    }
    assert FirstIf(it).body == [a1, a2, a3, a4] + [Return(v)] by {
      Snoc4(a1, a2, a3, a4, Return(v));
    }
  }

  /** The first `if`: its test has no suspending call. */
  lemma GoldenFirstTest(walk: Walk, it: NameIter)
    ensures PromoteMapper({"bar"}, walk)(If(EqT(Int(1)), [FirstReturn()], []), After(it, 1)) == ([If(EqT(Int(1)), [FirstReturn()], [])], After(it, 1))
  {
    var j := After(it, 1);
    var s := If(EqT(Int(1)), [FirstReturn()], []);
    assert Hoist(EqT(Int(1)), {"bar"}, walk, j) == (EqT(Int(1)), [], j) by {
      HoistLeaf(Lookup("t"), {"bar"}, walk, j);
      HoistLeaf(Int(1), {"bar"}, walk, j);
      HoistCompareOne(Lookup("t"), Eq, Int(1), {"bar"}, walk, j);
    }
    PromoteIf({"bar"}, walk, EqT(Int(1)), [FirstReturn()], j, (EqT(Int(1)), [], j));
    EmptyPrefix([s]);
  }

  /** The body of the first `if` is mapped in turn. */
  lemma GoldenFirstIf(it: NameIter)
    ensures PromoteScope(If(EqT(Int(1)), [FirstReturn()], []), {"bar"}, After(it, 1)) == (Ok(FirstIf(it)), After(it, 5))
  {
    PromoteMapperSound({"bar"}, MapAst);
    GoldenFirstReturn(MapAst, it);
    FmapOne(If(EqT(Int(1)), [FirstReturn()], []), PromoteMapper({"bar"}, MapAst), After(it, 1));
  }

  /** The second `if`: `bar(10)` is hoisted out of its test. */
  lemma GoldenSecondTest(walk: Walk, it: NameIter)
    ensures PromoteMapper({"bar"}, walk)(If(EqT(CallOf("bar", [Int(10)])), [SecondReturn()], []), After(it, 5))
         == ([TmpAssign(it, 5, CallOf("bar", [Int(10)])), If(EqT(Tmp(it, 5)), [SecondReturn()], [])], After(it, 6))
  {
    var k := After(it, 5);
    var a5 := TmpAssign(it, 5, CallOf("bar", [Int(10)]));
    assert Hoist(Lookup("t"), {"bar"}, walk, k) == (Lookup("t"), [], k) by {
      HoistLeaf(Lookup("t"), {"bar"}, walk, k);
    }
    assert Hoist(CallOf("bar", [Int(10)]), {"bar"}, walk, k) == (Tmp(it, 5), [a5], After(it, 6)) by {
      HoistGolden1(10, walk, k);
      assert Tmp(k, 0) == Tmp(it, 5) && After(k, 1) == After(it, 6);
    }
    assert Hoist(EqT(CallOf("bar", [Int(10)])), {"bar"}, walk, k) == (EqT(Tmp(it, 5)), [] + [a5], After(it, 6)) by {
      HoistCompareOne(Lookup("t"), Eq, CallOf("bar", [Int(10)]), {"bar"}, walk, k);
    }
    EmptyPrefix([a5]);
    PromoteIf({"bar"}, walk, EqT(CallOf("bar", [Int(10)])), [SecondReturn()], k, (EqT(Tmp(it, 5)), [a5], After(it, 6)));
    Cons1(a5, If(EqT(Tmp(it, 5)), [SecondReturn()], []));
  }

  /** The return inside the second `if`. */
  lemma GoldenSecondReturn(walk: Walk, it: NameIter)
    ensures PromoteMapper({"bar"}, walk)(SecondReturn(), After(it, 6)) == (SecondIf(it).body, After(it, 7))
  {
    var m := After(it, 6);
    var a6 := TmpAssign(it, 6, CallOf("bar", [CallOf("baz", [Lookup("t")]), Int(2)]));
    var v := BinOp(Tmp(it, 6), Add, Int(1));
    var call := CallOf("bar", [CallOf("baz", [Lookup("t")]), Int(2)]);
    assert Hoist(call, {"bar"}, walk, m) == (Tmp(it, 6), [a6], After(it, 7)) by {
      HoistGoldenBaz(2, walk, m);
      assert Tmp(m, 0) == Tmp(it, 6) && After(m, 1) == After(it, 7);
    }
    assert Hoist(Int(1), {"bar"}, walk, After(it, 7)) == (Int(1), [], After(it, 7)) by {
      HoistLeaf(Int(1), {"bar"}, walk, After(it, 7));
    }
    assert Hoist(SecondReturn().value, {"bar"}, walk, m) == (v, [a6] + [], After(it, 7)) by {
      HoistBinOp(call, Add, Int(1), {"bar"}, walk, m);
    }
    EmptySuffix([a6]);
    PromoteReturn({"bar"}, walk, SecondReturn().value, m, (v, [a6], After(it, 7)));
    Cons1(a6, Return(v));
  }

  /** The body of the second `if` is mapped in turn. */
  lemma GoldenSecondIf(it: NameIter)
    ensures PromoteScope(If(EqT(Tmp(it, 5)), [SecondReturn()], []), {"bar"}, After(it, 6)) == (Ok(SecondIf(it)), After(it, 7))
  {
    GoldenSecondReturn(MapAst, it);
    PromoteMapperSound({"bar"}, MapAst);
    FmapOne(If(EqT(Tmp(it, 5)), [SecondReturn()], []), PromoteMapper({"bar"}, MapAst), After(it, 6));
  }

  /** Sequence displays taken apart and put together. Stated for any `T`:
      proved at `Stmt`, inside the golden lemmas, they cost too much. */
  lemma Split3<T>(a: T, b: T, c: T)
    ensures [a, b, c] == [a, b] + [c] && [a, b] == [a] + [b] && [a] == [] + [a]
  {
  }

  lemma Join5<T>(a: T, b: T, c: T, d: T, e: T)
    ensures [a, b, c] + [d] + [e] == [a, b, c, d, e]
  {
  }

  /** `fmap_statements` with the promoting mapper, one plain statement more. */
  lemma PromoteBodySnocPlain(stmts: seq<Stmt>, s: Stmt, fns: set<string>, it: NameIter,
                             prev: seq<Stmt>, it1: NameIter, out: seq<Stmt>, it2: NameIter)
    requires PromoteBody(stmts, fns, it) == (Ok(prev), it1)
    requires !IsScope(s) && PromoteMapper(fns, MapAst)(s, it1) == (out, it2)
    ensures PromoteBody(stmts + [s], fns, it) == (Ok(prev + out), it2)
  {
    PromoteMapperSound(fns, MapAst);
    FmapBodyAppendOne(stmts, s, PromoteMapper(fns, MapAst), InnerScopes, it, prev, it1);
    FmapStepPlain(prev, s, PromoteMapper(fns, MapAst), InnerScopes, it1);
  }

  /** `fmap_statements` with the promoting mapper, one scope more: the
      hoisted assignments are kept and the rewritten scope is mapped in turn. */
  lemma PromoteBodySnocScope(stmts: seq<Stmt>, s: Stmt, fns: set<string>, it: NameIter,
                             prev: seq<Stmt>, it1: NameIter, pre: seq<Stmt>, last: Stmt, it2: NameIter,
                             l: Stmt, it3: NameIter)
    requires PromoteBody(stmts, fns, it) == (Ok(prev), it1)
    requires IsScope(s) && PromoteMapper(fns, MapAst)(s, it1) == (pre + [last], it2)
    requires HasBody(last) && PromoteScope(last, fns, it2) == (Ok(l), it3)
    ensures PromoteBody(stmts + [s], fns, it) == (Ok(prev + pre + [l]), it3)
  {
    var fn := PromoteMapper(fns, MapAst);
    PromoteMapperSound(fns, MapAst);
    FmapBodyAppendOne(stmts, s, fn, InnerScopes, it, prev, it1);
    var out := pre + [last];
    assert out[|out| - 1] == last && out[..|out| - 1] == pre;
    FmapStepScope(prev, s, fn, InnerScopes, it1, l, it3);
  }

  /** The body of `foo` after its first statement. */
  lemma GoldenFooFirst(it: NameIter)
    ensures PromoteBody([Foo().body[0]], {"bar"}, it)
         == (Ok([TmpAssign(it, 0, CallOf("bar", [Int(2)])), Assign([Name("t", Store)], Tmp(it, 0))]), After(it, 1))
  {
    var s0 := Foo().body[0];
    GoldenAssign(MapAst, it);
    PromoteBodySnocPlain([], s0, {"bar"}, it, [], it, PromoteMapper({"bar"}, MapAst)(s0, it).0, After(it, 1));
    EmptyPrefix([s0]);
    EmptyPrefix(PromoteMapper({"bar"}, MapAst)(s0, it).0);
  }

  /** The body of `foo` after its first `if`. */
  lemma GoldenFooSecond(it: NameIter)
    ensures PromoteBody([Foo().body[0], Foo().body[1]], {"bar"}, it)
         == (Ok([TmpAssign(it, 0, CallOf("bar", [Int(2)])), Assign([Name("t", Store)], Tmp(it, 0)), FirstIf(it)]), After(it, 5))
  {
    var s0, s1 := Foo().body[0], Foo().body[1];
    var prev := [TmpAssign(it, 0, CallOf("bar", [Int(2)])), Assign([Name("t", Store)], Tmp(it, 0))];
    GoldenFooFirst(it);
    GoldenFirstTest(MapAst, it);
    GoldenFirstIf(it);
    EmptyPrefix([s1]);
    PromoteBodySnocScope([s0], s1, {"bar"}, it, prev, After(it, 1), [], s1, After(it, 1), FirstIf(it), After(it, 5));
    EmptySuffix(prev);
    Snoc2(prev[0], prev[1], FirstIf(it));
    Cons1(s0, s1);
  }

  /** The whole body of `foo`. */
  lemma GoldenFooBody(it: NameIter)
    ensures PromoteBody(Foo().body, {"bar"}, it) == (Ok(FooPromoted(it).body), After(it, 7))
  {
    var s0, s1, s2 := Foo().body[0], Foo().body[1], Foo().body[2];
    var a0 := TmpAssign(it, 0, CallOf("bar", [Int(2)]));
    var t0 := Assign([Name("t", Store)], Tmp(it, 0));
    var a5 := TmpAssign(it, 5, CallOf("bar", [Int(10)]));
    var last := If(EqT(Tmp(it, 5)), [SecondReturn()], []);
    GoldenFooSecond(it);
    GoldenSecondTest(MapAst, it);
    GoldenSecondIf(it);
    Cons1(a5, last);
    PromoteBodySnocScope([s0, s1], s2, {"bar"}, it, [a0, t0, FirstIf(it)], After(it, 5), [a5], last, After(it, 6), SecondIf(it), After(it, 7));
    Join5(a0, t0, FirstIf(it), a5, SecondIf(it));
    Split3(s0, s1, s2);
  }

  /** `promote_to_temporary` on the function `foo`: every call to `bar` is
      bound to a fresh `__$tmp<k>__` in evaluation order, and the calls to
      `baz`, which is not in the set, stay where they are. */
  lemma GoldenFoo(it: NameIter)
    ensures PromoteToTemporary(Foo(), {"bar"}, it) == Ok(FooPromoted(it))
  {
    PromoteMapperSound({"bar"}, MapAst);
    GoldenFooBody(it);
    FmapOk(Foo(), PromoteMapper({"bar"}, MapAst), InnerScopes, it, FooPromoted(it).body, After(it, 7));
  }

  /** With the default generator `dunder_names("tmp")` the k-th name, for
      a one-digit k, is `__$tmp<k>__`. */
  lemma DefaultTmpName(k: nat, name: string)
    requires k < 10 && name == "__$tmp" + [DigitChar(k)] + "__"
    ensures Tmp(DunderNames("tmp"), k) == Lookup(name)
  {
  }

  /** The first and the last name of the example. */
  lemma GoldenNames()
    ensures Tmp(DunderNames("tmp"), 0) == Lookup("__$tmp0__")
    ensures Tmp(DunderNames("tmp"), 6) == Lookup("__$tmp6__")
  {
    DefaultTmpName(0, "__$tmp0__");
    DefaultTmpName(6, "__$tmp6__");
  }
}
