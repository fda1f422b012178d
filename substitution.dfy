/** Replacing `Name` nodes by expressions: the walk behind
    `utils.replace_variable` (used by `remove_trivial_temporaries_m`) and
    `expressions.promote_variable_access` (used by `lift_to_frame_m`). Both
    helpers are outside this model's sources; they are given here the one
    definition their callers and golden tests pin down: every `Name` node the
    substitution picks is replaced, every other node is rebuilt around its
    rewritten sub-expressions, and, as with `utils.map_expression`, a
    statement's own expressions are rewritten but its nested statement lists
    are not. */
module Substitution {
  import opened Wrappers
  import opened PyAst
  import opened Utils
  import opened Expressions

  /** What replaces a `Name` node with the given id and context, if anything. */
  type NameSubst = (string, Ctx) -> Option<Expr>

  /** A property of a `Name` node, given by its id and context. */
  type RefTest = (string, Ctx) -> bool

  // ---------------------------------------------------------------------
  // Expressions
  // ---------------------------------------------------------------------

  function Subst(e: Expr, g: NameSubst): Expr
    decreases Size(e), 1
  {
    if e.Name? then
      var x := g(e.id, e.ctx);
      if x.Some? then x.value else e
    else
      SizeChildren(e);
      Rebuild(e, SubstList(Children(e), g), MapExpression)
  }

  function SubstList(cs: seq<Expr>, g: NameSubst): (r: seq<Expr>)
    ensures |r| == |cs|
    decreases SizeList(cs), 2
  {
    if cs == [] then []
    else
      SizeListSnoc(cs);
      SubstList(cs[..|cs| - 1], g) + [Subst(cs[|cs| - 1], g)]
  }

  /** The `Name` nodes of `e`, as (id, context) pairs. */
  function NameRefs(e: Expr): set<(string, Ctx)>
    decreases Size(e), 1
  {
    if e.Name? then {(e.id, e.ctx)}
    else
      SizeChildren(e);
      NameRefsList(Children(e))
  }

  function NameRefsList(cs: seq<Expr>): set<(string, Ctx)>
    decreases SizeList(cs), 2
  {
    if cs == [] then {}
    else
      SizeListSnoc(cs);
      NameRefsList(cs[..|cs| - 1]) + NameRefs(cs[|cs| - 1])
  }

  predicate AllRefs(refs: set<(string, Ctx)>, good: RefTest) {
    forall p | p in refs :: good(p.0, p.1)
  }

  /** Every `Name` the substitution leaves is good, and so is every `Name`
      of every expression it puts in. */
  ghost predicate Keeps(g: NameSubst, good: RefTest) {
    forall n: string, c: Ctx {:trigger g(n, c)} ::
      if g(n, c).Some? then AllRefs(NameRefs(g(n, c).value), good) else good(n, c)
  }

  lemma SubstListSnoc(cs: seq<Expr>, g: NameSubst)
    requires cs != []
    ensures SubstList(cs, g)[..|cs| - 1] == SubstList(cs[..|cs| - 1], g)
    ensures SubstList(cs, g)[|cs| - 1] == Subst(cs[|cs| - 1], g)
  {
  }

  lemma SubstOne(a: Expr, g: NameSubst)
    ensures SubstList([a], g) == [Subst(a, g)]
  {
    assert [a][..0] == [];
  }

  lemma SubstPair(a: Expr, b: Expr, g: NameSubst)
    ensures SubstList([a, b], g) == [Subst(a, g), Subst(b, g)]
  {
    assert [a, b][..1] == [a];
    SubstOne(a, g);
  }

  lemma NameRefsPair(a: Expr, b: Expr)
    ensures NameRefsList([a, b]) == NameRefs(a) + NameRefs(b)
  {
    assert [a, b][..1] == [a];
    assert NameRefsList([a, b]) == NameRefsList([a]) + NameRefs(b);
    assert [a][..0] == [];
    assert NameRefsList([a]) == NameRefsList([]) + NameRefs(a);
  }

  /** After the substitution, every `Name` left in the expression is good. */
  lemma {:induction false} SubstKeeps(e: Expr, g: NameSubst, good: RefTest)
    requires Keeps(g, good)
    ensures AllRefs(NameRefs(Subst(e, g)), good)
    decreases Size(e), 1
  {
    if e.Name? {
      assert g(e.id, e.ctx).Some? || NameRefs(Subst(e, g)) == {(e.id, e.ctx)};
    } else {
      SizeChildren(e);
      var r := Subst(e, g);
      assert !r.Name? && Children(r) == SubstList(Children(e), g);
      SubstListKeeps(Children(e), g, good);
    }
  }

  lemma {:induction false} SubstListKeeps(cs: seq<Expr>, g: NameSubst, good: RefTest)
    requires Keeps(g, good)
    ensures AllRefs(NameRefsList(SubstList(cs, g)), good)
    decreases SizeList(cs), 2
  {
    if cs != [] {
      SizeListSnoc(cs);
      SubstListKeeps(cs[..|cs| - 1], g, good);
      SubstKeeps(cs[|cs| - 1], g, good);
      SubstListSnoc(cs, g);
    }
  }

  /** A substitution that picks none of the names of `e` leaves `e` as it is. */
  lemma {:induction false} SubstIdentity(e: Expr, g: NameSubst)
    requires forall p | p in NameRefs(e) :: g(p.0, p.1).None?
    ensures Subst(e, g) == e
    decreases Size(e), 1
  {
    if e.Name? {
      assert (e.id, e.ctx) in NameRefs(e);
    } else {
      SizeChildren(e);
      SubstListIdentity(Children(e), g);
      RebuildChildren(e);
      assert Subst(e, g) == Rebuild(e, Children(e), MapExpression);
    }
  }

  lemma {:induction false} SubstListIdentity(cs: seq<Expr>, g: NameSubst)
    requires forall p | p in NameRefsList(cs) :: g(p.0, p.1).None?
    ensures SubstList(cs, g) == cs
    decreases SizeList(cs), 2
  {
    if cs != [] {
      SizeListSnoc(cs);
      SubstListIdentity(cs[..|cs| - 1], g);
      SubstIdentity(cs[|cs| - 1], g);
    }
  }

  lemma {:induction false} SubstListAppend(a: seq<Expr>, b: seq<Expr>, g: NameSubst)
    ensures SubstList(a + b, g) == SubstList(a, g) + SubstList(b, g)
    decreases |b|
  {
    if b != [] {
      assert (a + b)[..|a + b| - 1] == a + b[..|b| - 1];
      SubstListAppend(a, b[..|b| - 1], g);
    } else {
      assert a + b == a;
    }
  }

  lemma {:induction false} NameRefsListAppend(a: seq<Expr>, b: seq<Expr>)
    ensures NameRefsList(a + b) == NameRefsList(a) + NameRefsList(b)
    decreases |b|
  {
    if b != [] {
      assert (a + b)[..|a + b| - 1] == a + b[..|b| - 1];
      NameRefsListAppend(a, b[..|b| - 1]);
    } else {
      assert a + b == a;
    }
  }

  // ---------------------------------------------------------------------
  // Statements
  // ---------------------------------------------------------------------

  /** The statement's own expressions, in the order `map_expression` visits
      them; nested statement lists are not among them. */
  function HeaderExprs(s: Stmt): seq<Expr> {
    match s
    case FunctionDef(_, a, _) => SomeKeys(a.kwDefaults) + a.defaults
    case Assign(ts, v) => ts + [v]
    case ExprStmt(v) => [v]
    case Return(v) => [v]
    case If(t, _, _) => [t]
    case While(t, _, _) => [t]
    case For(tg, i, _, _) => [tg, i]
    case _ => []
  }

  /** The `Name` nodes of the statement's own expressions. */
  function StmtRefs(s: Stmt): set<(string, Ctx)> {
    NameRefsList(HeaderExprs(s))
  }

  /** The substitution applied to the statement's own expressions; the body
      and the `orelse` list are kept, and so is the `try` statement that
      advances a loop made from a `for`. */
  function SubstStmt(s: Stmt, g: NameSubst): (r: Stmt)
    ensures HasBody(r) <==> HasBody(s)
    ensures IsScope(r) <==> IsScope(s)
    ensures HasBody(s) ==> r == WithBody(r, s.body) && r.body == s.body
    ensures Depth(r) == Depth(s)
  {
    match s
    case FunctionDef(name, a, body) =>
      var kd := SubstList(SomeKeys(a.kwDefaults), g);
      FunctionDef(name, a.(kwDefaults := FillKeys(a.kwDefaults, kd), defaults := SubstList(a.defaults, g)), body)
    case Assign(ts, v) => Assign(SubstList(ts, g), Subst(v, g))
    case ExprStmt(v) => ExprStmt(Subst(v, g))
    case Return(v) => Return(Subst(v, g))
    case If(t, body, orelse) => If(Subst(t, g), body, orelse)
    case While(t, body, orelse) => While(Subst(t, g), body, orelse)
    case For(tg, i, body, orelse) => For(Subst(tg, g), Subst(i, g), body, orelse)
    case _ => s
  }

  lemma SubstStmtHeader(s: Stmt, g: NameSubst)
    ensures HeaderExprs(SubstStmt(s, g)) == SubstList(HeaderExprs(s), g)
  {
    match s
    case FunctionDef(name, a, body) =>
      SubstListAppend(SomeKeys(a.kwDefaults), a.defaults, g);
    case Assign(ts, v) =>
      SubstListAppend(ts, [v], g);
    case For(tg, i, body, orelse) =>
      assert [tg, i] == [tg] + [i];
      SubstListAppend([tg], [i], g);
    case _ =>
  }

  /** After the substitution, every `Name` left in the statement's own
      expressions is good. */
  lemma SubstStmtKeeps(s: Stmt, g: NameSubst, good: RefTest)
    requires Keeps(g, good)
    ensures AllRefs(StmtRefs(SubstStmt(s, g)), good)
  {
    SubstListKeeps(HeaderExprs(s), g, good);
    SubstStmtHeader(s, g);
  }

  /** A substitution that picks none of the statement's names leaves it as
      it is. */
  lemma SubstStmtIdentity(s: Stmt, g: NameSubst)
    requires forall p | p in StmtRefs(s) :: g(p.0, p.1).None?
    ensures SubstStmt(s, g) == s
  {
    SubstListIdentity(HeaderExprs(s), g);
    match s
    case FunctionDef(name, a, body) =>
      var n := |SomeKeys(a.kwDefaults)|;
      var hs := HeaderExprs(s);
      SubstListAppend(SomeKeys(a.kwDefaults), a.defaults, g);
      assert SubstList(SomeKeys(a.kwDefaults), g) == hs[..n];
      assert SubstList(a.defaults, g) == hs[n..];
      FillKeysSame(a.kwDefaults);
    case Assign(ts, v) =>
      SubstListAppend(ts, [v], g);
      assert SubstList(ts, g) == HeaderExprs(s)[..|ts|];
    case _ =>
  }

  /** Rewriting the body leaves the statement's own expressions alone. */
  lemma StmtRefsWithBody(s: Stmt, b: seq<Stmt>)
    requires HasBody(s)
    ensures StmtRefs(WithBody(s, b)) == StmtRefs(s)
  {
  }
}
