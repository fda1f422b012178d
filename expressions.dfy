/** Hoisting of suspending calls into fresh temporaries:
    `promote_call_expressions` of `expressions.py`, and the same walk as
    `transform.py` performs it through `map_ast`. A call whose callee is a
    plain name in `fns` is replaced by a load of a fresh temporary, and the
    assignment of the (rewritten) call to that temporary is appended to a
    caller-owned list; sub-expressions are handled first, so nested calls are
    hoisted innermost first. */
module Expressions {
  import opened Wrappers
  import opened PyAst
  import opened Utils

  /** The two ways the source walks a node's fields.
      `MapExpression` is `utils.map_expression`, used by `expressions.py`: it
      visits the expressions of a node and keeps entries that are not nodes
      (a `None` dictionary key, a required keyword-only parameter); it does
      not enter nested statement lists.
      `MapAst` is the mapper `transform.py` hands to `utils.map_ast`: list
      fields are rebuilt from their node entries only, the `body` of a scope
      is skipped, and every other statement list is entered. */
  datatype Walk = MapExpression | MapAst

  // ---------------------------------------------------------------------
  // Sub-expressions in field order
  // ---------------------------------------------------------------------

  function KwValues(kws: seq<Keyword>): (r: seq<Expr>)
    ensures |r| == |kws|
  {
    if kws == [] then [] else KwValues(kws[..|kws| - 1]) + [kws[|kws| - 1].value]
  }

  /** `kws` with the values replaced, in order, by `vs`; the names stay. */
  function WithKwValues(kws: seq<Keyword>, vs: seq<Expr>): (r: seq<Keyword>)
    requires |vs| == |kws|
    ensures |r| == |kws| && KwValues(r) == vs
  {
    if kws == [] then []
    else
      var n := |kws| - 1;
      var init := WithKwValues(kws[..n], vs[..n]);
      var r := init + [Keyword(kws[n].arg, vs[n])];
      assert r[..n] == init;
      assert vs[..n] + [vs[n]] == vs;
      r
  }

  lemma {:induction false} WithKwValuesSame(kws: seq<Keyword>)
    ensures WithKwValues(kws, KwValues(kws)) == kws
  {
    if kws != [] {
      var n := |kws| - 1;
      WithKwValuesSame(kws[..n]);
      assert KwValues(kws)[..n] == KwValues(kws[..n]);
      assert kws[..n] + [kws[n]] == kws;
    }
  }

  /** The node entries of a list whose other entries are `None`. */
  function SomeKeys(keys: seq<Option<Expr>>): (r: seq<Expr>)
    ensures |r| <= |keys|
  {
    if keys == [] then []
    else (if keys[0].Some? then [keys[0].value] else []) + SomeKeys(keys[1..])
  }

  /** `keys` with its node entries replaced, in order, by `vs`. */
  function FillKeys(keys: seq<Option<Expr>>, vs: seq<Expr>): (r: seq<Option<Expr>>)
    requires |vs| == |SomeKeys(keys)|
    ensures |r| == |keys| && SomeKeys(r) == vs
    ensures forall i | 0 <= i < |keys| :: r[i].None? <==> keys[i].None?
  {
    if keys == [] then []
    else if keys[0].None? then
      assert SomeKeys(keys) == SomeKeys(keys[1..]);
      var rest := FillKeys(keys[1..], vs);
      assert ([None] + rest)[1..] == rest;
      [None] + rest
    else
      assert SomeKeys(keys) == [keys[0].value] + SomeKeys(keys[1..]);
      var rest := FillKeys(keys[1..], vs[1..]);
      assert ([Some(vs[0])] + rest)[1..] == rest;
      [Some(vs[0])] + rest
  }

  lemma {:induction false} FillKeysSame(keys: seq<Option<Expr>>)
    ensures FillKeys(keys, SomeKeys(keys)) == keys
  {
    if keys != [] {
      var rest := keys[1..];
      FillKeysSame(rest);
      if keys[0].None? {
        assert SomeKeys(keys) == SomeKeys(rest);
        assert FillKeys(keys, SomeKeys(keys)) == [None] + FillKeys(rest, SomeKeys(rest));
      } else {
        assert SomeKeys(keys) == [keys[0].value] + SomeKeys(rest);
        assert SomeKeys(keys)[1..] == SomeKeys(rest);
        assert FillKeys(keys, SomeKeys(keys)) == [keys[0]] + FillKeys(rest, SomeKeys(rest));
      }
      assert [keys[0]] + rest == keys;
    }
  }

  function AllSome(vs: seq<Expr>): (r: seq<Option<Expr>>)
    ensures |r| == |vs| && SomeKeys(r) == vs
    ensures forall i | 0 <= i < |vs| :: r[i] == Some(vs[i])
  {
    if vs == [] then []
    else
      var rest := AllSome(vs[1..]);
      assert ([Some(vs[0])] + rest)[1..] == rest;
      [Some(vs[0])] + rest
  }

  /** The sub-expressions of `e`, in the order `ast.iter_fields` visits them. */
  function Children(e: Expr): seq<Expr> {
    match e
    case Name(_, _) => []
    case Const(_) => []
    case Call(f, args, kws) => [f] + args + KwValues(kws)
    case BinOp(l, _, r) => [l, r]
    case BoolOp(_, vs) => vs
    case Not(x) => [x]
    case Compare(l, _, cs) => [l] + cs
    case Subscript(v, s, _) => [v, s]
    case ListExpr(elts) => elts
    case DictExpr(keys, values) => SomeKeys(keys) + values
  }

  /** `e` with its sub-expressions replaced by `cs`. Under `MapAst` the
      `None` keys of a dictionary display are dropped, as the list
      comprehension at transform.py:16-21 keeps node entries only. */
  function Rebuild(e: Expr, cs: seq<Expr>, walk: Walk): (r: Expr)
    requires |cs| == |Children(e)|
    ensures Children(r) == cs
    ensures r.Call? <==> e.Call?
    ensures e.Call? ==> r.func == cs[0]
    ensures e.Name? ==> r == e
    ensures r.Name? ==> e.Name?
  {
    match e
    case Name(_, _) => e
    case Const(_) => e
    case Call(_, args, kws) =>
      RebuildCall(cs, |args|, kws);
      Call(cs[0], cs[1..1 + |args|], WithKwValues(kws, cs[1 + |args|..]))
    case BinOp(_, op, _) => BinOp(cs[0], op, cs[1])
    case BoolOp(op, _) => BoolOp(op, cs)
    case Not(_) => Not(cs[0])
    case Compare(_, ops, _) =>
      ConsTail(cs);
      Compare(cs[0], ops, cs[1..])
    case Subscript(_, _, ctx) => Subscript(cs[0], cs[1], ctx)
    case ListExpr(_) => ListExpr(cs)
    case DictExpr(keys, _) => RebuildDict(keys, cs, walk)
  }

  /** New keys for a dictionary display whose node keys become `vs`. */
  function DictKeys(keys: seq<Option<Expr>>, vs: seq<Expr>, walk: Walk): (r: seq<Option<Expr>>)
    requires |vs| == |SomeKeys(keys)|
    ensures SomeKeys(r) == vs
  {
    if walk.MapExpression? then FillKeys(keys, vs) else AllSome(vs)
  }

  function RebuildDict(keys: seq<Option<Expr>>, cs: seq<Expr>, walk: Walk): (r: Expr)
    requires |SomeKeys(keys)| <= |cs|
    ensures r.DictExpr? && Children(r) == cs
  {
    var k := |SomeKeys(keys)|;
    assert cs[..k] + cs[k..] == cs;
    DictExpr(DictKeys(keys, cs[..k], walk), cs[k..])
  }

  lemma RebuildCall(cs: seq<Expr>, n: nat, kws: seq<Keyword>)
    requires |cs| == 1 + n + |kws|
    ensures Children(Call(cs[0], cs[1..1 + n], WithKwValues(kws, cs[1 + n..]))) == cs
  {
    var vs := cs[1 + n..];
    var c := Call(cs[0], cs[1..1 + n], WithKwValues(kws, vs));
    assert Children(c) == [cs[0]] + cs[1..1 + n] + vs;
    HeadMiddleTail(cs, 1 + n);
  }

  lemma ConsTail<T>(s: seq<T>)
    requires s != []
    ensures [s[0]] + s[1..] == s
  {
  }

  lemma HeadMiddleTail<T>(s: seq<T>, k: nat)
    requires 1 <= k <= |s|
    ensures [s[0]] + s[1..k] + s[k..] == s
  {
    assert [s[0]] + s[1..k] == s[..k];
    assert s[..k] + s[k..] == s;
  }

  lemma RebuildChildren(e: Expr)
    ensures Rebuild(e, Children(e), MapExpression) == e
  {
    match e
    case Call(f, args, kws) =>
      var cs := Children(e);
      assert cs[1..1 + |args|] == args;
      assert cs[1 + |args|..] == KwValues(kws);
      WithKwValuesSame(kws);
    case Compare(l, ops, comps) =>
      assert Children(e)[1..] == comps;
    case DictExpr(keys, values) =>
      var cs := Children(e);
      var k := |SomeKeys(keys)|;
      assert cs[..k] == SomeKeys(keys) && cs[k..] == values;
      FillKeysSame(keys);
    case _ =>
  }

  // ---------------------------------------------------------------------
  // Size, and the measures the properties talk about
  // ---------------------------------------------------------------------

  /** Number of nodes; it bounds every walk over the expression. */
  function Size(e: Expr): (n: nat)
    ensures n >= 1
  {
    match e
    case Name(_, _) => 1
    case Const(_) => 1
    case Call(f, args, kws) => 1 + Size(f) + SizeList(args) + SizeKws(kws)
    case BinOp(l, _, r) => 1 + Size(l) + Size(r)
    case BoolOp(_, vs) => 1 + SizeList(vs)
    case Not(x) => 1 + Size(x)
    case Compare(l, _, cs) => 1 + Size(l) + SizeList(cs)
    case Subscript(v, s, _) => 1 + Size(v) + Size(s)
    case ListExpr(elts) => 1 + SizeList(elts)
    case DictExpr(keys, values) => 1 + SizeKeys(keys) + SizeList(values)
  }

  function SizeList(cs: seq<Expr>): nat {
    if cs == [] then 0 else SizeList(cs[..|cs| - 1]) + Size(cs[|cs| - 1])
  }

  function SizeKws(kws: seq<Keyword>): nat {
    if kws == [] then 0 else SizeKws(kws[..|kws| - 1]) + Size(kws[|kws| - 1].value)
  }

  function SizeKeys(keys: seq<Option<Expr>>): nat {
    if keys == [] then 0 else SizeKey(keys[0]) + SizeKeys(keys[1..])
  }

  function SizeKey(k: Option<Expr>): nat {
    match k
    case Some(v) => Size(v)
    case None => 0
  }

  lemma SizeListSnoc(cs: seq<Expr>)
    requires cs != []
    ensures SizeList(cs) == SizeList(cs[..|cs| - 1]) + Size(cs[|cs| - 1])
  {
  }

  lemma {:induction false} SizeListAppend(a: seq<Expr>, b: seq<Expr>)
    ensures SizeList(a + b) == SizeList(a) + SizeList(b)
    decreases |b|
  {
    if b == [] {
      assert a + b == a;
    } else {
      assert (a + b)[..|a + b| - 1] == a + b[..|b| - 1];
      SizeListAppend(a, b[..|b| - 1]);
    }
  }

  lemma SizeOne(x: Expr)
    ensures SizeList([x]) == Size(x)
  {
    assert [x][..0] == [];
  }

  lemma {:induction false} SizeKwsValues(kws: seq<Keyword>)
    ensures SizeKws(kws) == SizeList(KwValues(kws))
  {
    if kws != [] {
      var n := |kws| - 1;
      SizeKwsValues(kws[..n]);
      assert KwValues(kws)[..n] == KwValues(kws[..n]);
    }
  }

  lemma {:induction false} SizeKeysSome(keys: seq<Option<Expr>>)
    ensures SizeKeys(keys) == SizeList(SomeKeys(keys))
  {
    if keys != [] {
      var rest := keys[1..];
      SizeKeysSome(rest);
      var head: seq<Expr> := if keys[0].Some? then [keys[0].value] else [];
      assert SomeKeys(keys) == head + SomeKeys(rest);
      SizeListAppend(head, SomeKeys(rest));
      if keys[0].Some? {
        SizeOne(keys[0].value);
      }
    }
  }

  lemma SizeChildrenPair(a: Expr, b: Expr)
    ensures SizeList([a, b]) == Size(a) + Size(b)
  {
    assert [a, b][..1] == [a];
    SizeOne(a);
  }

  /** The size of a node is one more than that of its sub-expressions. */
  lemma SizeChildren(e: Expr)
    ensures Size(e) == 1 + SizeList(Children(e))
  {
    match e
    case Call(f, args, kws) =>
      SizeListAppend([f] + args, KwValues(kws));
      SizeListAppend([f], args);
      SizeOne(f);
      SizeKwsValues(kws);
    case BinOp(l, _, r) => SizeChildrenPair(l, r);
    case Not(x) => SizeOne(x);
    case Compare(l, _, cs) =>
      SizeListAppend([l], cs);
      SizeOne(l);
    case Subscript(v, s, _) => SizeChildrenPair(v, s);
    case DictExpr(keys, values) =>
      SizeListAppend(SomeKeys(keys), values);
      SizeKeysSome(keys);
    case _ =>
  }

  /** A suspending call: a call whose callee is a plain name in `fns`. */
  predicate IsFnsCall(e: Expr, fns: set<string>) {
    e.Call? && e.func.Name? && e.func.id in fns
  }

  /** `e` contains a suspending call somewhere. */
  predicate HasCall(e: Expr, fns: set<string>)
    decreases Size(e), 1
  {
    SizeChildren(e);
    IsFnsCall(e, fns) || AnyCall(Children(e), fns)
  }

  /** Some expression of `cs` contains a suspending call. */
  predicate AnyCall(cs: seq<Expr>, fns: set<string>)
    decreases SizeList(cs), 2
  {
    if cs == [] then false
    else
      SizeListSnoc(cs);
      AnyCall(cs[..|cs| - 1], fns) || HasCall(cs[|cs| - 1], fns)
  }

  predicate NoCalls(cs: seq<Expr>, fns: set<string>) {
    !AnyCall(cs, fns)
  }

  lemma AnyCallSnoc(cs: seq<Expr>, x: Expr, fns: set<string>)
    ensures AnyCall(cs + [x], fns) <==> AnyCall(cs, fns) || HasCall(x, fns)
  {
    assert (cs + [x])[..|cs|] == cs;
  }

  /** `AnyCall` holds exactly when one of the expressions has a call. */
  lemma {:induction false} AnyCallSome(cs: seq<Expr>, fns: set<string>)
    ensures AnyCall(cs, fns) <==> exists i | 0 <= i < |cs| :: HasCall(cs[i], fns)
    decreases |cs|
  {
    if cs != [] {
      var init := cs[..|cs| - 1];
      AnyCallSome(init, fns);
      if AnyCall(init, fns) {
        var i :| 0 <= i < |init| && HasCall(init[i], fns);
        assert cs[i] == init[i];
      }
      if exists i | 0 <= i < |cs| :: HasCall(cs[i], fns) {
        var i :| 0 <= i < |cs| && HasCall(cs[i], fns);
        if i < |init| {
          assert init[i] == cs[i];
        }
      }
    }
  }

  /** The number of suspending calls in `e`. */
  function CallCount(e: Expr, fns: set<string>): nat
    decreases Size(e), 1
  {
    SizeChildren(e);
    (if IsFnsCall(e, fns) then 1 else 0) + CallCountList(Children(e), fns)
  }

  function CallCountList(cs: seq<Expr>, fns: set<string>): nat
    decreases SizeList(cs), 2
  {
    if cs == [] then 0
    else
      SizeListSnoc(cs);
      CallCountList(cs[..|cs| - 1], fns) + CallCount(cs[|cs| - 1], fns)
  }

  /** An expression has a suspending call exactly when it has a positive
      number of them. */
  lemma {:induction false} CallCountPositive(e: Expr, fns: set<string>)
    ensures HasCall(e, fns) <==> CallCount(e, fns) > 0
    decreases Size(e), 1
  {
    SizeChildren(e);
    CallCountListPositive(Children(e), fns);
  }

  lemma {:induction false} CallCountListPositive(cs: seq<Expr>, fns: set<string>)
    ensures AnyCall(cs, fns) <==> CallCountList(cs, fns) > 0
    decreases SizeList(cs), 2
  {
    if cs != [] {
      SizeListSnoc(cs);
      CallCountListPositive(cs[..|cs| - 1], fns);
      CallCountPositive(cs[|cs| - 1], fns);
    }
  }

  // ---------------------------------------------------------------------
  // The hoisting walk over expressions
  // ---------------------------------------------------------------------

  /** `promote_call_expressions(e, fns, it, assignments)` on an expression:
      the new expression, the assignments it appends, and the generator
      afterwards. */
  function Hoist(e: Expr, fns: set<string>, walk: Walk, it: NameIter): (r: (Expr, seq<Stmt>, NameIter))
    ensures r.2.prefix == it.prefix && r.2.count == it.count + |r.1|
    decreases Size(e), 1
  {
    SizeChildren(e);
    var (cs, hoisted, it1) := HoistList(Children(e), fns, walk, it);
    var e' := Rebuild(e, cs, walk);
    if IsFnsCall(e, fns) then
      var (name, it2) := Next(it1);
      (Lookup(name), hoisted + [MakeAssign(name, e')], it2)
    else
      (e', hoisted, it1)
  }

  /** The sub-expressions `cs`, hoisted left to right. */
  function HoistList(cs: seq<Expr>, fns: set<string>, walk: Walk, it: NameIter): (r: (seq<Expr>, seq<Stmt>, NameIter))
    ensures |r.0| == |cs|
    ensures r.2.prefix == it.prefix && r.2.count == it.count + |r.1|
    decreases SizeList(cs), 2
  {
    if cs == [] then ([], [], it)
    else
      SizeListSnoc(cs);
      var (init, h1, it1) := HoistList(cs[..|cs| - 1], fns, walk, it);
      var (last, h2, it2) := Hoist(cs[|cs| - 1], fns, walk, it1);
      (init + [last], h1 + h2, it2)
  }

  // ---------------------------------------------------------------------
  // What the walk guarantees
  // ---------------------------------------------------------------------

  /** No temporary the generator can yield names a suspending function. */
  ghost predicate TempsOutside(fns: set<string>, prefix: string) {
    forall k: nat :: DunderName(prefix, k) !in fns
  }

  /** One step of the walk, written out: the sub-expressions are hoisted,
      the node is rebuilt from them, and a suspending call is then itself
      assigned to the next name. */
  lemma HoistUnfold(e: Expr, fns: set<string>, walk: Walk, it: NameIter)
    ensures var h := HoistList(Children(e), fns, walk, it);
      var n := Next(h.2);
      Hoist(e, fns, walk, it)
      == if IsFnsCall(e, fns) then (Lookup(n.0), h.1 + [MakeAssign(n.0, Rebuild(e, h.0, walk))], n.1)
         else (Rebuild(e, h.0, walk), h.1, h.2)
  {
  }

  /** One step of the list walk, written out: the last sub-expression is
      hoisted after all the others. */
  lemma HoistListUnfold(cs: seq<Expr>, fns: set<string>, walk: Walk, it: NameIter)
    requires cs != []
    ensures var hi := HoistList(cs[..|cs| - 1], fns, walk, it);
      var hl := Hoist(cs[|cs| - 1], fns, walk, hi.2);
      HoistList(cs, fns, walk, it) == (hi.0 + [hl.0], hi.1 + hl.1, hl.2)
  {
  }

  /** What one step of the walk does at the root of `e`: a suspending call
      becomes a load of the last name issued, a plain name is left alone,
      and any other node keeps its kind. */
  lemma HoistRoot(e: Expr, fns: set<string>, walk: Walk, it: NameIter)
    ensures var r := Hoist(e, fns, walk, it);
      IsFnsCall(e, fns) ==> r.0 == Lookup(DunderName(it.prefix, r.2.count - 1))
    ensures var r := Hoist(e, fns, walk, it);
      !IsFnsCall(e, fns) ==> (r.0.Name? <==> e.Name?) && (r.0.Call? <==> e.Call?)
    ensures e.Name? ==> Hoist(e, fns, walk, it) == (e, [], it)
  {
    if IsFnsCall(e, fns) {
      HoistRootCall(e, fns, walk, it);
    } else {
      HoistRootOther(e, fns, walk, it);
      if e.Name? {
        HoistLeaf(e, fns, walk, it);
      }
    }
  }

  lemma HoistRootCall(e: Expr, fns: set<string>, walk: Walk, it: NameIter)
    requires IsFnsCall(e, fns)
    ensures var r := Hoist(e, fns, walk, it);
      r.0 == Lookup(DunderName(it.prefix, r.2.count - 1))
  {
    var h := HoistList(Children(e), fns, walk, it);
    HoistUnfold(e, fns, walk, it);
    assert Hoist(e, fns, walk, it) == (Lookup(Next(h.2).0), h.1 + [MakeAssign(Next(h.2).0, Rebuild(e, h.0, walk))], Next(h.2).1);
  }

  lemma HoistRootOther(e: Expr, fns: set<string>, walk: Walk, it: NameIter)
    requires !IsFnsCall(e, fns)
    ensures var r := Hoist(e, fns, walk, it);
      (r.0.Name? <==> e.Name?) && (r.0.Call? <==> e.Call?)
  {
    var h := HoistList(Children(e), fns, walk, it);
    assert Hoist(e, fns, walk, it).0 == Rebuild(e, h.0, walk) by {
      HoistUnfold(e, fns, walk, it);
    }
  }

  /** The first sub-expression is hoisted with the generator as it was. */
  lemma {:induction false} HoistListFirst(cs: seq<Expr>, fns: set<string>, walk: Walk, it: NameIter)
    requires cs != []
    ensures HoistList(cs, fns, walk, it).0[0] == Hoist(cs[0], fns, walk, it).0
    decreases |cs|
  {
    if |cs| > 1 {
      var init := cs[..|cs| - 1];
      HoistListFirst(init, fns, walk, it);
      assert init[0] == cs[0];
    }
  }

  /** Rebuilding a node from its hoisted sub-expressions keeps it a
      suspending call exactly when it was one: a suspending callee is a
      plain name and stays, and a temporary never names a suspending
      function. */
  lemma RebuiltCallee(e: Expr, fns: set<string>, walk: Walk, it: NameIter)
    requires TempsOutside(fns, it.prefix)
    ensures IsFnsCall(Rebuild(e, HoistList(Children(e), fns, walk, it).0, walk), fns) <==> IsFnsCall(e, fns)
  {
    if e.Call? {
      var e' := Rebuild(e, HoistList(Children(e), fns, walk, it).0, walk);
      var f' := Hoist(e.func, fns, walk, it).0;
      assert e'.Call? && e'.func == f' by {
        ChildrenCallHead(e);
        HoistListFirst(Children(e), fns, walk, it);
      }
      assert (f'.Name? && f'.id in fns) <==> (e.func.Name? && e.func.id in fns) by {
        HoistedCallee(e.func, fns, walk, it);
      }
    }
  }

  /** A suspending call stays one when rebuilt: its callee is a plain name,
      which the walk leaves alone. */
  lemma RebuiltCallStays(e: Expr, fns: set<string>, walk: Walk, it: NameIter)
    requires IsFnsCall(e, fns)
    ensures IsFnsCall(Rebuild(e, HoistList(Children(e), fns, walk, it).0, walk), fns)
  {
    var e' := Rebuild(e, HoistList(Children(e), fns, walk, it).0, walk);
    assert e'.Call? && e'.func == Hoist(e.func, fns, walk, it).0 by {
      ChildrenCallHead(e);
      HoistListFirst(Children(e), fns, walk, it);
    }
    HoistLeaf(e.func, fns, walk, it);
  }

  lemma ChildrenCallHead(e: Expr)
    requires e.Call?
    ensures Children(e) != [] && Children(e)[0] == e.func
  {
    HeadOfAppend(e.func, e.args, KwValues(e.keywords));
  }

  lemma HeadOfAppend<T>(x: T, p: seq<T>, q: seq<T>)
    ensures ([x] + p + q) != [] && ([x] + p + q)[0] == x
  {
  }

  /** A callee is a suspending name after hoisting exactly when it was one
      before: a suspending call becomes a temporary, which never names a
      suspending function, and a plain name stays. */
  lemma HoistedCallee(f: Expr, fns: set<string>, walk: Walk, it: NameIter)
    requires TempsOutside(fns, it.prefix)
    ensures var f' := Hoist(f, fns, walk, it).0;
      (f'.Name? && f'.id in fns) <==> (f.Name? && f.id in fns)
  {
    if IsFnsCall(f, fns) {
      HoistRootCall(f, fns, walk, it);
    } else if f.Name? {
      HoistLeaf(f, fns, walk, it);
    } else {
      HoistRootOther(f, fns, walk, it);
    }
  }

  /** The rewritten expression contains no suspending call. */
  lemma {:induction false} HoistRemovesCalls(e: Expr, fns: set<string>, walk: Walk, it: NameIter)
    requires TempsOutside(fns, it.prefix)
    ensures !HasCall(Hoist(e, fns, walk, it).0, fns)
    decreases Size(e), 1
  {
    assert SizeList(Children(e)) < Size(e) by { SizeChildren(e); }
    var h := HoistList(Children(e), fns, walk, it);
    var r := Hoist(e, fns, walk, it);
    if IsFnsCall(e, fns) {
      assert r.0 == Lookup(Next(h.2).0) by {
        HoistUnfold(e, fns, walk, it);
      }
      assert Next(h.2).0 == DunderName(it.prefix, h.2.count);
      assert Children(r.0) == [];
    } else {
      var e' := Rebuild(e, h.0, walk);
      assert r.0 == e' by {
        HoistUnfold(e, fns, walk, it);
      }
      assert NoCalls(Children(e'), fns) by {
        HoistListRemovesCalls(Children(e), fns, walk, it);
      }
      RebuiltCallee(e, fns, walk, it);
    }
  }

  lemma {:induction false} HoistListRemovesCalls(cs: seq<Expr>, fns: set<string>, walk: Walk, it: NameIter)
    requires TempsOutside(fns, it.prefix)
    ensures NoCalls(HoistList(cs, fns, walk, it).0, fns)
    decreases SizeList(cs), 2
  {
    if cs != [] {
      var init, l := cs[..|cs| - 1], cs[|cs| - 1];
      assert SizeList(init) < SizeList(cs) && Size(l) <= SizeList(cs) by { SizeListSnoc(cs); }
      var hi := HoistList(init, fns, walk, it);
      var hl := Hoist(l, fns, walk, hi.2);
      assert NoCalls(hi.0, fns) by { HoistListRemovesCalls(init, fns, walk, it); }
      assert !HasCall(hl.0, fns) by { HoistRemovesCalls(l, fns, walk, hi.2); }
      assert HoistList(cs, fns, walk, it).0 == hi.0 + [hl.0] by { HoistListUnfold(cs, fns, walk, it); }
      AnyCallSnoc(hi.0, hl.0, fns);
    }
  }

  /** `s` is `name = <call>` for a suspending call. */
  predicate HoistedAssign(s: Stmt, name: string, fns: set<string>) {
    s.Assign? && s.targets == [Name(name, Store)] && IsFnsCall(s.value, fns)
  }

  /** The k-th of `ss` is a hoisted assignment to the name the generator
      yields (from + k)-th. */
  predicate AllHoisted(ss: seq<Stmt>, fns: set<string>, prefix: string, from: nat) {
    forall k | 0 <= k < |ss| :: HoistedAssign(ss[k], DunderName(prefix, from + k), fns)
  }

  lemma AllHoistedAppend(a: seq<Stmt>, b: seq<Stmt>, fns: set<string>, prefix: string, from: nat)
    requires AllHoisted(a, fns, prefix, from) && AllHoisted(b, fns, prefix, from + |a|)
    ensures AllHoisted(a + b, fns, prefix, from)
  {
    forall k | 0 <= k < |a + b|
      ensures HoistedAssign((a + b)[k], DunderName(prefix, from + k), fns)
    {
      if k >= |a| {
        assert (a + b)[k] == b[k - |a|] && from + k == (from + |a|) + (k - |a|);
      }
    }
  }

  /** A suspending call is hoisted last, after its operands, to the next
      name of the generator. */
  lemma HoistCallAssign(e: Expr, fns: set<string>, walk: Walk, it: NameIter)
    requires IsFnsCall(e, fns)
    ensures var h := HoistList(Children(e), fns, walk, it);
      var a := MakeAssign(DunderName(it.prefix, it.count + |h.1|), Rebuild(e, h.0, walk));
      Hoist(e, fns, walk, it).1 == h.1 + [a] && HoistedAssign(a, DunderName(it.prefix, it.count + |h.1|), fns)
  {
    var h := HoistList(Children(e), fns, walk, it);
    var a := MakeAssign(DunderName(it.prefix, it.count + |h.1|), Rebuild(e, h.0, walk));
    assert Hoist(e, fns, walk, it).1 == h.1 + [a] by {
      HoistUnfold(e, fns, walk, it);
    }
    assert IsFnsCall(a.value, fns) by {
      RebuiltCallStays(e, fns, walk, it);
    }
  }

  lemma AllHoistedSnoc(ss: seq<Stmt>, a: Stmt, fns: set<string>, prefix: string, from: nat)
    requires AllHoisted(ss, fns, prefix, from) && HoistedAssign(a, DunderName(prefix, from + |ss|), fns)
    ensures AllHoisted(ss + [a], fns, prefix, from)
  {
    assert AllHoisted([a], fns, prefix, from + |ss|) by {
      assert [a][0] == a;
    }
    AllHoistedAppend(ss, [a], fns, prefix, from);
  }

  /** The root step keeps the assignments made below it hoisted. */
  lemma HoistAssignmentsRoot(e: Expr, fns: set<string>, walk: Walk, it: NameIter)
    requires AllHoisted(HoistList(Children(e), fns, walk, it).1, fns, it.prefix, it.count)
    ensures AllHoisted(Hoist(e, fns, walk, it).1, fns, it.prefix, it.count)
  {
    if IsFnsCall(e, fns) {
      HoistAssignmentsCall(e, fns, walk, it);
    } else {
      HoistUnfold(e, fns, walk, it);
    }
  }

  lemma HoistAssignmentsCall(e: Expr, fns: set<string>, walk: Walk, it: NameIter)
    requires IsFnsCall(e, fns)
    requires AllHoisted(HoistList(Children(e), fns, walk, it).1, fns, it.prefix, it.count)
    ensures AllHoisted(Hoist(e, fns, walk, it).1, fns, it.prefix, it.count)
  {
    var h := HoistList(Children(e), fns, walk, it);
    var a := MakeAssign(DunderName(it.prefix, it.count + |h.1|), Rebuild(e, h.0, walk));
    HoistCallAssign(e, fns, walk, it);
    AllHoistedSnoc(h.1, a, fns, it.prefix, it.count);
  }

  /** Each appended assignment holds exactly one suspending call, at its
      root, and they use the generator's names in order. */
  lemma {:induction false} HoistAssignments(e: Expr, fns: set<string>, walk: Walk, it: NameIter)
    ensures AllHoisted(Hoist(e, fns, walk, it).1, fns, it.prefix, it.count)
    decreases Size(e), 1
  {
    assert SizeList(Children(e)) < Size(e) by { SizeChildren(e); }
    HoistListAssignments(Children(e), fns, walk, it);
    HoistAssignmentsRoot(e, fns, walk, it);
  }

  lemma {:induction false} HoistListAssignments(cs: seq<Expr>, fns: set<string>, walk: Walk, it: NameIter)
    ensures AllHoisted(HoistList(cs, fns, walk, it).1, fns, it.prefix, it.count)
    decreases SizeList(cs), 2
  {
    if cs != [] {
      var init, l := cs[..|cs| - 1], cs[|cs| - 1];
      assert SizeList(init) < SizeList(cs) && Size(l) <= SizeList(cs) by { SizeListSnoc(cs); }
      var hi := HoistList(init, fns, walk, it);
      var hl := Hoist(l, fns, walk, hi.2);
      assert AllHoisted(hi.1 + hl.1, fns, it.prefix, it.count) by {
        HoistListAssignments(init, fns, walk, it);
        HoistAssignments(l, fns, walk, hi.2);
        AllHoistedAppend(hi.1, hl.1, fns, it.prefix, it.count);
      }
      assert HoistList(cs, fns, walk, it).1 == hi.1 + hl.1 by { HoistListUnfold(cs, fns, walk, it); }
    }
  }

  /** Every statement of `ss` is an assignment whose value has no
      suspending call below its root. */
  predicate OperandsFree(ss: seq<Stmt>, fns: set<string>) {
    forall k | 0 <= k < |ss| :: ss[k].Assign? && NoCalls(Children(ss[k].value), fns)
  }

  lemma OperandsFreeAppend(a: seq<Stmt>, b: seq<Stmt>, fns: set<string>)
    requires OperandsFree(a, fns) && OperandsFree(b, fns)
    ensures OperandsFree(a + b, fns)
  {
    forall k | 0 <= k < |a + b|
      ensures (a + b)[k].Assign? && NoCalls(Children((a + b)[k].value), fns)
    {
      if k >= |a| {
        assert (a + b)[k] == b[k - |a|];
      }
    }
  }

  /** The operands of every hoisted call have been hoisted already: the
      assignments hold one suspending call each. */
  lemma {:induction false} HoistOperandsFree(e: Expr, fns: set<string>, walk: Walk, it: NameIter)
    requires TempsOutside(fns, it.prefix)
    ensures OperandsFree(Hoist(e, fns, walk, it).1, fns)
    decreases Size(e), 1
  {
    assert SizeList(Children(e)) < Size(e) by { SizeChildren(e); }
    var h := HoistList(Children(e), fns, walk, it);
    var r := Hoist(e, fns, walk, it);
    assert OperandsFree(h.1, fns) by {
      HoistListOperandsFree(Children(e), fns, walk, it);
    }
    if IsFnsCall(e, fns) {
      var a := MakeAssign(Next(h.2).0, Rebuild(e, h.0, walk));
      assert r.1 == h.1 + [a] by {
        HoistUnfold(e, fns, walk, it);
      }
      assert OperandsFree([a], fns) by {
        HoistListRemovesCalls(Children(e), fns, walk, it);
        assert [a][0] == a;
      }
      OperandsFreeAppend(h.1, [a], fns);
    } else {
      assert r.1 == h.1 by {
        HoistUnfold(e, fns, walk, it);
      }
    }
  }

  lemma {:induction false} HoistListOperandsFree(cs: seq<Expr>, fns: set<string>, walk: Walk, it: NameIter)
    requires TempsOutside(fns, it.prefix)
    ensures OperandsFree(HoistList(cs, fns, walk, it).1, fns)
    decreases SizeList(cs), 2
  {
    if cs != [] {
      var init, l := cs[..|cs| - 1], cs[|cs| - 1];
      assert SizeList(init) < SizeList(cs) && Size(l) <= SizeList(cs) by { SizeListSnoc(cs); }
      var hi := HoistList(init, fns, walk, it);
      var hl := Hoist(l, fns, walk, hi.2);
      assert OperandsFree(hi.1 + hl.1, fns) by {
        HoistListOperandsFree(init, fns, walk, it);
        HoistOperandsFree(l, fns, walk, hi.2);
        OperandsFreeAppend(hi.1, hl.1, fns);
      }
      assert HoistList(cs, fns, walk, it).1 == hi.1 + hl.1 by { HoistListUnfold(cs, fns, walk, it); }
    }
  }

  /** Exactly one assignment, and one fresh name, per suspending call. */
  lemma {:induction false} HoistCount(e: Expr, fns: set<string>, walk: Walk, it: NameIter)
    ensures |Hoist(e, fns, walk, it).1| == CallCount(e, fns)
    decreases Size(e), 1
  {
    assert SizeList(Children(e)) < Size(e) by { SizeChildren(e); }
    var h := HoistList(Children(e), fns, walk, it);
    assert |h.1| == CallCountList(Children(e), fns) by {
      HoistListCount(Children(e), fns, walk, it);
    }
    assert |Hoist(e, fns, walk, it).1| == |h.1| + (if IsFnsCall(e, fns) then 1 else 0) by {
      HoistUnfold(e, fns, walk, it);
    }
  }

  lemma {:induction false} HoistListCount(cs: seq<Expr>, fns: set<string>, walk: Walk, it: NameIter)
    ensures |HoistList(cs, fns, walk, it).1| == CallCountList(cs, fns)
    decreases SizeList(cs), 2
  {
    if cs != [] {
      var init, l := cs[..|cs| - 1], cs[|cs| - 1];
      assert SizeList(init) < SizeList(cs) && Size(l) <= SizeList(cs) by { SizeListSnoc(cs); }
      var hi := HoistList(init, fns, walk, it);
      var hl := Hoist(l, fns, walk, hi.2);
      assert |hi.1| == CallCountList(init, fns) by { HoistListCount(init, fns, walk, it); }
      assert |hl.1| == CallCount(l, fns) by { HoistCount(l, fns, walk, hi.2); }
      assert HoistList(cs, fns, walk, it).1 == hi.1 + hl.1 by { HoistListUnfold(cs, fns, walk, it); }
    }
  }

  /** An expression without suspending calls comes back unchanged, and
      nothing is appended or consumed. */
  lemma {:induction false} HoistNoCallUnchanged(e: Expr, fns: set<string>, it: NameIter)
    requires !HasCall(e, fns)
    ensures Hoist(e, fns, MapExpression, it) == (e, [], it)
    decreases Size(e), 1
  {
    assert SizeList(Children(e)) < Size(e) by { SizeChildren(e); }
    var h := HoistList(Children(e), fns, MapExpression, it);
    assert h == (Children(e), [], it) by {
      HoistListNoCallUnchanged(Children(e), fns, it);
    }
    assert Hoist(e, fns, MapExpression, it) == (Rebuild(e, h.0, MapExpression), h.1, h.2) by {
      HoistUnfold(e, fns, MapExpression, it);
    }
    RebuildChildren(e);
  }

  lemma {:induction false} HoistListNoCallUnchanged(cs: seq<Expr>, fns: set<string>, it: NameIter)
    requires NoCalls(cs, fns)
    ensures HoistList(cs, fns, MapExpression, it) == (cs, [], it)
    decreases SizeList(cs), 2
  {
    if cs != [] {
      var init, l := cs[..|cs| - 1], cs[|cs| - 1];
      assert SizeList(init) < SizeList(cs) && Size(l) <= SizeList(cs) by { SizeListSnoc(cs); }
      var hi := HoistList(init, fns, MapExpression, it);
      assert hi == (init, [], it) by { HoistListNoCallUnchanged(init, fns, it); }
      var hl := Hoist(l, fns, MapExpression, hi.2);
      assert hl == (l, [], it) by { HoistNoCallUnchanged(l, fns, it); }
      assert HoistList(cs, fns, MapExpression, it) == (hi.0 + [hl.0], hi.1 + hl.1, hl.2) by {
        HoistListUnfold(cs, fns, MapExpression, it);
      }
      assert init + [l] == cs;
      var none: seq<Stmt> := [];
      assert none + none == none;
    }
  }

  /** A suspending call whose operands hold no suspending call becomes a
      load of the next name, with one assignment of the call itself. */
  lemma HoistInnermost(e: Expr, fns: set<string>, it: NameIter)
    requires IsFnsCall(e, fns) && NoCalls(Children(e), fns)
    ensures Hoist(e, fns, MapExpression, it)
         == (Lookup(DunderName(it.prefix, it.count)), [MakeAssign(DunderName(it.prefix, it.count), e)],
             NameIter(it.prefix, it.count + 1))
  {
    HoistListNoCallUnchanged(Children(e), fns, it);
    HoistInnermostRoot(e, fns, it);
  }

  lemma HoistInnermostRoot(e: Expr, fns: set<string>, it: NameIter)
    requires IsFnsCall(e, fns) && HoistList(Children(e), fns, MapExpression, it) == (Children(e), [], it)
    ensures Hoist(e, fns, MapExpression, it)
         == (Lookup(DunderName(it.prefix, it.count)), [MakeAssign(DunderName(it.prefix, it.count), e)],
             NameIter(it.prefix, it.count + 1))
  {
    var cs := Children(e);
    var n := DunderName(it.prefix, it.count);
    assert Rebuild(e, cs, MapExpression) == e by {
      RebuildChildren(e);
    }
    assert Hoist(e, fns, MapExpression, it) == (Lookup(n), [] + [MakeAssign(n, e)], NameIter(it.prefix, it.count + 1)) by {
      HoistUnfold(e, fns, MapExpression, it);
    }
    EmptyPrefix([MakeAssign(DunderName(it.prefix, it.count), e)]);
  }

  /** Hoisting a list of two. */
  lemma HoistPair(a: Expr, b: Expr, fns: set<string>, walk: Walk, it: NameIter)
    ensures var ra := Hoist(a, fns, walk, it);
            var rb := Hoist(b, fns, walk, ra.2);
            HoistList([a, b], fns, walk, it) == ([ra.0, rb.0], ra.1 + rb.1, rb.2)
  {
    var ra := Hoist(a, fns, walk, it);
    var rb := Hoist(b, fns, walk, ra.2);
    assert HoistList([a], fns, walk, it) == ([ra.0], ra.1, ra.2) by {
      HoistSingle(a, fns, walk, it);
    }
    assert HoistList([a, b], fns, walk, it) == ([ra.0] + [rb.0], ra.1 + rb.1, rb.2) by {
      HoistListUnfold([a, b], fns, walk, it);
      Init2(a, b);
    }
    Cons1(ra.0, rb.0);
  }

  /** Hoisting a list of three. */
  lemma HoistTriple(a: Expr, b: Expr, c: Expr, fns: set<string>, walk: Walk, it: NameIter)
    ensures var ra := Hoist(a, fns, walk, it);
            var rb := Hoist(b, fns, walk, ra.2);
            var rc := Hoist(c, fns, walk, rb.2);
            HoistList([a, b, c], fns, walk, it) == ([ra.0, rb.0, rc.0], ra.1 + rb.1 + rc.1, rc.2)
  {
    var ra := Hoist(a, fns, walk, it);
    var rb := Hoist(b, fns, walk, ra.2);
    var rc := Hoist(c, fns, walk, rb.2);
    assert HoistList([a, b], fns, walk, it) == ([ra.0, rb.0], ra.1 + rb.1, rb.2) by {
      HoistPair(a, b, fns, walk, it);
    }
    assert HoistList([a, b, c], fns, walk, it) == ([ra.0, rb.0] + [rc.0], ra.1 + rb.1 + rc.1, rc.2) by {
      HoistListUnfold([a, b, c], fns, walk, it);
      Init3(a, b, c);
    }
    Snoc2(ra.0, rb.0, rc.0);
  }

  /** `name(args...)`, a call by plain name with positional operands. */
  function CallOf(name: string, args: seq<Expr>): Expr {
    Call(Lookup(name), args, [])
  }

  /** A load of the k-th name `it` yields. */
  function Tmp(it: NameIter, k: nat): Expr {
    Lookup(DunderName(it.prefix, it.count + k))
  }

  /** The assignment of `v` to the k-th name `it` yields. */
  function TmpAssign(it: NameIter, k: nat, v: Expr): Stmt {
    MakeAssign(DunderName(it.prefix, it.count + k), v)
  }

  function Int(i: int): Expr {
    Const(LInt(i))
  }

  function After(it: NameIter, k: nat): NameIter {
    NameIter(it.prefix, it.count + k)
  }

  /** The k-th name after `n` names is the (n + k)-th name. */
  lemma TmpAfter(it: NameIter, n: nat, k: nat)
    ensures Tmp(After(it, n), k) == Tmp(it, n + k)
  {
  }

  lemma ChildrenCallOf(name: string, args: seq<Expr>)
    ensures Children(CallOf(name, args)) == [Lookup(name)] + args
  {
    assert KwValues([]) == [];
  }

  lemma RebuildCallOf(name: string, args: seq<Expr>, vs: seq<Expr>, walk: Walk)
    requires |vs| == |args|
    ensures Rebuild(CallOf(name, args), [Lookup(name)] + vs, walk) == CallOf(name, vs)
  {
    var cs := [Lookup(name)] + vs;
    assert cs[1..1 + |args|] == vs && cs[1 + |args|..] == [];
  }

  /** Hoisting `name(args...)` once its operands have been hoisted to
      `h`: the call itself is hoisted when `name` is suspending. */
  lemma HoistCallOfStep(name: string, args: seq<Expr>, fns: set<string>, walk: Walk, it: NameIter,
                        h: (seq<Expr>, seq<Stmt>, NameIter))
    requires |h.0| == |args|
    requires HoistList(Children(CallOf(name, args)), fns, walk, it) == ([Lookup(name)] + h.0, h.1, h.2)
    ensures Hoist(CallOf(name, args), fns, walk, it)
         == if name in fns then (Tmp(h.2, 0), h.1 + [TmpAssign(h.2, 0, CallOf(name, h.0))], After(h.2, 1))
            else (CallOf(name, h.0), h.1, h.2)
  {
    assert Rebuild(CallOf(name, args), [Lookup(name)] + h.0, walk) == CallOf(name, h.0) by {
      RebuildCallOf(name, args, h.0, walk);
    }
    HoistUnfold(CallOf(name, args), fns, walk, it);
  }

  lemma Cons1<T>(x: T, a: T)
    ensures [x] + [a] == [x, a]
  {
  }

  lemma Cons2<T>(x: T, a: T, b: T)
    ensures [x] + [a, b] == [x, a, b]
  {
  }

  lemma EmptyPrefix<T>(p: seq<T>)
    ensures [] + p == p
  {
  }

  lemma EmptySuffix<T>(p: seq<T>)
    ensures p + [] == p
  {
  }

  lemma Snoc2<T>(a: T, b: T, c: T)
    ensures [a, b] + [c] == [a, b, c]
  {
  }

  lemma Snoc3<T>(a: T, b: T, c: T, d: T)
    ensures [a, b, c] + [d] == [a, b, c, d]
  {
  }

  lemma Tail2<T>(a: T, b: T)
    ensures [a, b][1..] == [b]
  {
  }

  lemma Snoc4<T>(a: T, b: T, c: T, d: T, e: T)
    ensures [a, b, c, d] + [e] == [a, b, c, d, e]
  {
  }

  lemma Init1<T>(a: T)
    ensures [a][..0] == []
  {
  }

  lemma Init2<T>(a: T, b: T)
    ensures [a, b][..1] == [a]
  {
  }

  lemma Init3<T>(a: T, b: T, c: T)
    ensures [a, b, c][..2] == [a, b]
  {
  }

  lemma HoistCallOfArgs1(name: string, a: Expr, fns: set<string>, walk: Walk, it: NameIter)
    ensures var ra := Hoist(a, fns, walk, it);
      HoistList(Children(CallOf(name, [a])), fns, walk, it) == ([Lookup(name)] + [ra.0], ra.1, ra.2)
  {
    var ra := Hoist(a, fns, walk, it);
    var l := Lookup(name);
    assert Children(CallOf(name, [a])) == [l, a] by {
      ChildrenCallOf(name, [a]);
      Cons1(l, a);
    }
    assert HoistList([l, a], fns, walk, it) == ([l, ra.0], ra.1, ra.2) by {
      HoistLeaf(l, fns, walk, it);
      HoistPair(l, a, fns, walk, it);
      EmptyPrefix(ra.1);
    }
    Cons1(l, ra.0);
  }

  lemma HoistCallOfArgs2(name: string, a: Expr, b: Expr, fns: set<string>, walk: Walk, it: NameIter)
    ensures var ra := Hoist(a, fns, walk, it);
            var rb := Hoist(b, fns, walk, ra.2);
      HoistList(Children(CallOf(name, [a, b])), fns, walk, it) == ([Lookup(name)] + [ra.0, rb.0], ra.1 + rb.1, rb.2)
  {
    var ra := Hoist(a, fns, walk, it);
    var rb := Hoist(b, fns, walk, ra.2);
    var l := Lookup(name);
    assert Children(CallOf(name, [a, b])) == [l, a, b] by {
      ChildrenCallOf(name, [a, b]);
      Cons2(l, a, b);
    }
    assert HoistList([l, a, b], fns, walk, it) == ([l, ra.0, rb.0], ra.1 + rb.1, rb.2) by {
      HoistLeaf(l, fns, walk, it);
      HoistTriple(l, a, b, fns, walk, it);
      EmptyPrefix(ra.1);
    }
    Cons2(l, ra.0, rb.0);
  }

  /** Hoisting `name(a)`: the operand is hoisted, then the call itself
      when `name` is suspending. */
  lemma HoistCallOf1(name: string, a: Expr, fns: set<string>, walk: Walk, it: NameIter)
    ensures var ra := Hoist(a, fns, walk, it);
      Hoist(CallOf(name, [a]), fns, walk, it)
      == if name in fns then (Tmp(ra.2, 0), ra.1 + [TmpAssign(ra.2, 0, CallOf(name, [ra.0]))], After(ra.2, 1))
         else (CallOf(name, [ra.0]), ra.1, ra.2)
  {
    var ra := Hoist(a, fns, walk, it);
    HoistCallOfArgs1(name, a, fns, walk, it);
    HoistCallOfStep(name, [a], fns, walk, it, ([ra.0], ra.1, ra.2));
  }

  /** Hoisting `name(a, b)`: the operands are hoisted left to right, then
      the call itself when `name` is suspending. */
  lemma HoistCallOf2(name: string, a: Expr, b: Expr, fns: set<string>, walk: Walk, it: NameIter)
    ensures var ra := Hoist(a, fns, walk, it);
            var rb := Hoist(b, fns, walk, ra.2);
      Hoist(CallOf(name, [a, b]), fns, walk, it)
      == if name in fns then
           (Tmp(rb.2, 0), ra.1 + rb.1 + [TmpAssign(rb.2, 0, CallOf(name, [ra.0, rb.0]))], After(rb.2, 1))
         else (CallOf(name, [ra.0, rb.0]), ra.1 + rb.1, rb.2)
  {
    var ra := Hoist(a, fns, walk, it);
    var rb := Hoist(b, fns, walk, ra.2);
    HoistCallOfArgs2(name, a, b, fns, walk, it);
    HoistCallOfStep(name, [a, b], fns, walk, it, ([ra.0, rb.0], ra.1 + rb.1, rb.2));
  }

  /** Hoisting a list of one. */
  lemma HoistSingle(a: Expr, fns: set<string>, walk: Walk, it: NameIter)
    ensures var ra := Hoist(a, fns, walk, it);
            HoistList([a], fns, walk, it) == ([ra.0], ra.1, ra.2)
  {
    var ra := Hoist(a, fns, walk, it);
    assert HoistList([a], fns, walk, it) == ([] + [ra.0], [] + ra.1, ra.2) by {
      HoistListUnfold([a], fns, walk, it);
      Init1(a);
    }
    EmptyPrefix([ra.0]);
    EmptyPrefix(ra.1);
  }

  /** A name or a constant is left alone. */
  lemma HoistLeaf(e: Expr, fns: set<string>, walk: Walk, it: NameIter)
    requires e.Name? || e.Const?
    ensures Hoist(e, fns, walk, it) == (e, [], it)
  {
    HoistUnfold(e, fns, walk, it);
  }

  /** Hoisting `name(a, b)` for a suspending `name` and a leaf `b`, once
      the result `ra` of hoisting `a` is known. */
  lemma HoistCallThenLeaf(name: string, a: Expr, b: Expr, fns: set<string>, walk: Walk, it: NameIter,
                          ra: (Expr, seq<Stmt>, NameIter))
    requires name in fns && (b.Name? || b.Const?) && Hoist(a, fns, walk, it) == ra
    ensures Hoist(CallOf(name, [a, b]), fns, walk, it)
         == (Tmp(ra.2, 0), ra.1 + [TmpAssign(ra.2, 0, CallOf(name, [ra.0, b]))], After(ra.2, 1))
  {
    HoistLeaf(b, fns, walk, ra.2);
    HoistCallOf2(name, a, b, fns, walk, it);
    EmptySuffix(ra.1);
  }

  /** Hoisting a binary operation: the left operand, then the right. */
  lemma HoistBinOp(l: Expr, op: BinOperator, r: Expr, fns: set<string>, walk: Walk, it: NameIter)
    ensures var rl := Hoist(l, fns, walk, it);
            var rr := Hoist(r, fns, walk, rl.2);
      Hoist(BinOp(l, op, r), fns, walk, it) == (BinOp(rl.0, op, rr.0), rl.1 + rr.1, rr.2)
  {
    var e := BinOp(l, op, r);
    assert HoistList(Children(e), fns, walk, it) == HoistList([l, r], fns, walk, it);
    HoistPair(l, r, fns, walk, it);
    HoistUnfold(e, fns, walk, it);
  }

  /** Hoisting a single comparison `l op c`: the left side, then the right. */
  lemma HoistCompareOne(l: Expr, op: CmpOp, c: Expr, fns: set<string>, walk: Walk, it: NameIter)
    ensures var rl := Hoist(l, fns, walk, it);
            var rc := Hoist(c, fns, walk, rl.2);
      Hoist(Compare(l, [op], [c]), fns, walk, it) == (Compare(rl.0, [op], [rc.0]), rl.1 + rc.1, rc.2)
  {
    var e := Compare(l, [op], [c]);
    var rl := Hoist(l, fns, walk, it);
    var rc := Hoist(c, fns, walk, rl.2);
    assert HoistList(Children(e), fns, walk, it) == ([rl.0, rc.0], rl.1 + rc.1, rc.2) by {
      assert Children(e) == [l, c] by {
        Cons1(l, c);
      }
      HoistPair(l, c, fns, walk, it);
    }
    assert Rebuild(e, [rl.0, rc.0], walk) == Compare(rl.0, [op], [rc.0]) by {
      Tail2(rl.0, rc.0);
    }
    HoistUnfold(e, fns, walk, it);
  }

  /** `bar(n)`, with `bar` suspending. */
  lemma HoistGolden1(n: int, walk: Walk, it: NameIter)
    ensures Hoist(CallOf("bar", [Int(n)]), {"bar"}, walk, it)
         == (Tmp(it, 0), [TmpAssign(it, 0, CallOf("bar", [Int(n)]))], After(it, 1))
  {
    HoistLeaf(Int(n), {"bar"}, walk, it);
    HoistCallOf1("bar", Int(n), {"bar"}, walk, it);
    EmptyPrefix([TmpAssign(it, 0, CallOf("bar", [Int(n)]))]);
  }

  /** `bar(bar(1), 3)`, with `bar` suspending. */
  lemma HoistGolden2(walk: Walk, it: NameIter)
    ensures Hoist(CallOf("bar", [CallOf("bar", [Int(1)]), Int(3)]), {"bar"}, walk, it)
         == (Tmp(it, 1), [TmpAssign(it, 0, CallOf("bar", [Int(1)])), TmpAssign(it, 1, CallOf("bar", [Tmp(it, 0), Int(3)]))],
             After(it, 2))
  {
    var b1 := CallOf("bar", [Int(1)]);
    var a0 := TmpAssign(it, 0, b1);
    var a1 := TmpAssign(it, 1, CallOf("bar", [Tmp(it, 0), Int(3)]));
    assert Hoist(b1, {"bar"}, walk, it) == (Tmp(it, 0), [a0], After(it, 1)) by {
      HoistGolden1(1, walk, it);
    }
    HoistCallThenLeaf("bar", b1, Int(3), {"bar"}, walk, it, (Tmp(it, 0), [a0], After(it, 1)));
    assert Tmp(After(it, 1), 0) == Tmp(it, 1) && After(After(it, 1), 1) == After(it, 2);
    assert TmpAssign(After(it, 1), 0, CallOf("bar", [Tmp(it, 0), Int(3)])) == a1;
    Cons1(a0, a1);
  }

  /** `bar(bar(bar(1), 3), 5)`, with `bar` suspending. */
  lemma HoistGolden3(walk: Walk, it: NameIter)
    ensures Hoist(CallOf("bar", [CallOf("bar", [CallOf("bar", [Int(1)]), Int(3)]), Int(5)]), {"bar"}, walk, it)
         == (Tmp(it, 2),
             [TmpAssign(it, 0, CallOf("bar", [Int(1)])), TmpAssign(it, 1, CallOf("bar", [Tmp(it, 0), Int(3)])),
              TmpAssign(it, 2, CallOf("bar", [Tmp(it, 1), Int(5)]))],
             After(it, 3))
  {
    var b2 := CallOf("bar", [CallOf("bar", [Int(1)]), Int(3)]);
    var a0 := TmpAssign(it, 0, CallOf("bar", [Int(1)]));
    var a1 := TmpAssign(it, 1, CallOf("bar", [Tmp(it, 0), Int(3)]));
    var a2 := TmpAssign(it, 2, CallOf("bar", [Tmp(it, 1), Int(5)]));
    assert Hoist(b2, {"bar"}, walk, it) == (Tmp(it, 1), [a0, a1], After(it, 2)) by {
      HoistGolden2(walk, it);
    }
    HoistCallThenLeaf("bar", b2, Int(5), {"bar"}, walk, it, (Tmp(it, 1), [a0, a1], After(it, 2)));
    assert Tmp(After(it, 2), 0) == Tmp(it, 2) && After(After(it, 2), 1) == After(it, 3);
    assert TmpAssign(After(it, 2), 0, CallOf("bar", [Tmp(it, 1), Int(5)])) == a2;
    Snoc2(a0, a1, a2);
  }

  /** `bar(baz(t), n)`, with `bar` suspending and `baz` not: the call to
      `baz` stays an operand. */
  lemma HoistGoldenBaz(n: int, walk: Walk, it: NameIter)
    ensures Hoist(CallOf("bar", [CallOf("baz", [Lookup("t")]), Int(n)]), {"bar"}, walk, it)
         == (Tmp(it, 0), [TmpAssign(it, 0, CallOf("bar", [CallOf("baz", [Lookup("t")]), Int(n)]))], After(it, 1))
  {
    var baz := CallOf("baz", [Lookup("t")]);
    assert Hoist(baz, {"bar"}, walk, it) == (baz, [], it) by {
      HoistLeaf(Lookup("t"), {"bar"}, walk, it);
      HoistCallOf1("baz", Lookup("t"), {"bar"}, walk, it);
    }
    assert Hoist(Int(n), {"bar"}, walk, it) == (Int(n), [], it) by {
      HoistLeaf(Int(n), {"bar"}, walk, it);
    }
    var a := TmpAssign(it, 0, CallOf("bar", [baz, Int(n)]));
    assert Hoist(CallOf("bar", [baz, Int(n)]), {"bar"}, walk, it) == (Tmp(it, 0), [] + [] + [a], After(it, 1)) by {
      HoistCallOf2("bar", baz, Int(n), {"bar"}, walk, it);
    }
    EmptySuffix<Stmt>([]);
    EmptyPrefix([a]);
  }

  /** The return value of the first `if` in the golden example,
      `bar(bar(bar(1), 3), 5) + bar(baz(t), 4)` with `bar` suspending:
      innermost calls are hoisted first, left to right, each to the next
      fresh name, and the call to `baz` stays in place. */
  lemma HoistGolden(walk: Walk, it: NameIter)
    ensures
      var e := BinOp(CallOf("bar", [CallOf("bar", [CallOf("bar", [Int(1)]), Int(3)]), Int(5)]), Add,
                     CallOf("bar", [CallOf("baz", [Lookup("t")]), Int(4)]));
      Hoist(e, {"bar"}, walk, it) ==
        (BinOp(Tmp(it, 2), Add, Tmp(it, 3)),
         [TmpAssign(it, 0, CallOf("bar", [Int(1)])),
          TmpAssign(it, 1, CallOf("bar", [Tmp(it, 0), Int(3)])),
          TmpAssign(it, 2, CallOf("bar", [Tmp(it, 1), Int(5)])),
          TmpAssign(it, 3, CallOf("bar", [CallOf("baz", [Lookup("t")]), Int(4)]))],
         After(it, 4))
  {
    var b3 := CallOf("bar", [CallOf("bar", [CallOf("bar", [Int(1)]), Int(3)]), Int(5)]);
    var b4 := CallOf("bar", [CallOf("baz", [Lookup("t")]), Int(4)]);
    var e := BinOp(b3, Add, b4);
    var a0 := TmpAssign(it, 0, CallOf("bar", [Int(1)]));
    var a1 := TmpAssign(it, 1, CallOf("bar", [Tmp(it, 0), Int(3)]));
    var a2 := TmpAssign(it, 2, CallOf("bar", [Tmp(it, 1), Int(5)]));
    var a3 := TmpAssign(it, 3, b4);
    var h := HoistList([b3, b4], {"bar"}, walk, it);
    assert h == ([Tmp(it, 2), Tmp(it, 3)], [a0, a1, a2, a3], After(it, 4)) by {
      HoistGolden3(walk, it);
      HoistGoldenBaz(4, walk, After(it, 3));
      assert Tmp(After(it, 3), 0) == Tmp(it, 3) && After(After(it, 3), 1) == After(it, 4);
      assert TmpAssign(After(it, 3), 0, b4) == a3;
      HoistPair(b3, b4, {"bar"}, walk, it);
      Snoc3(a0, a1, a2, a3);
    }
    assert Hoist(e, {"bar"}, walk, it) == (Rebuild(e, h.0, walk), h.1, h.2) by {
      assert Children(e) == [b3, b4];
      HoistUnfold(e, {"bar"}, walk, it);
    }
    assert Rebuild(e, [Tmp(it, 2), Tmp(it, 3)], walk) == BinOp(Tmp(it, 2), Add, Tmp(it, 3));
  }
}
