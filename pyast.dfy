/** The subset of Python's `ast` module that the lowering passes read and
    build. Field order within each constructor follows `ast.iter_fields`,
    which fixes the order in which the passes visit sub-nodes. */
module PyAst {
  import opened Wrappers

  datatype Literal = LInt(i: int) | LStr(s: string) | LBool(b: bool) | LNone

  datatype Ctx = Load | Store

  datatype CmpOp = Eq | NotEq | Lt | LtE | Gt | GtE

  datatype BinOperator = Add | Sub | Mult | FloorDiv | Mod

  datatype BoolOperator = And | Or

  datatype Expr =
    | Name(id: string, ctx: Ctx)
    | Const(lit: Literal)
    | Call(func: Expr, args: seq<Expr>, keywords: seq<Keyword>)
    | BinOp(left: Expr, op: BinOperator, right: Expr)
    | BoolOp(bop: BoolOperator, values: seq<Expr>)
    | Not(operand: Expr)
    | Compare(left: Expr, ops: seq<CmpOp>, comparators: seq<Expr>)
    | Subscript(value: Expr, slice: Expr, ctx: Ctx)
    | ListExpr(elts: seq<Expr>)
      /** A `None` key is a `**mapping` entry: it is not an AST node. */
    | DictExpr(keys: seq<Option<Expr>>, values: seq<Expr>)

  datatype Keyword = Keyword(arg: string, value: Expr)

  /** `ast.arguments`; `kwDefaults[i]` is `None` when the i-th keyword-only
      parameter is required, and `defaults` belong to the LAST positional
      parameters. */
  datatype Arguments = Arguments(
    posonlyargs: seq<string>,
    args: seq<string>,
    vararg: Option<string>,
    kwonlyargs: seq<string>,
    kwDefaults: seq<Option<Expr>>,
    defaults: seq<Expr>)

  datatype Stmt =
    | FunctionDef(name: string, arguments: Arguments, body: seq<Stmt>)
    | Assign(targets: seq<Expr>, value: Expr)
    | ExprStmt(value: Expr)
      /** `return value`. A bare `return`, whose `value` Python's parser
          leaves as `None` rather than a node, is outside this subset. */
    | Return(value: Expr)
    | If(test: Expr, body: seq<Stmt>, orelse: seq<Stmt>)
    | While(test: Expr, body: seq<Stmt>, orelse: seq<Stmt>)
    | For(target: Expr, iter: Expr, body: seq<Stmt>, orelse: seq<Stmt>)
      /** The `try: target = next(it) except StopIteration: flag = False; continue`
          statement that starts every loop produced from a `for`. */
    | ForAdvance(target: Expr, iterName: string, flagName: string)
    | Global(names: seq<string>)
    | Break
    | Continue
    | Pass

  /** A statement that owns a `body` list. */
  predicate HasBody(s: Stmt) {
    s.FunctionDef? || s.If? || s.While? || s.For?
  }

  /** `s` with its `body` field replaced; every other field is kept. */
  function WithBody(s: Stmt, b: seq<Stmt>): (r: Stmt)
    requires HasBody(s)
    ensures HasBody(r) && r.body == b
  {
    match s
    case FunctionDef(n, a, _) => FunctionDef(n, a, b)
    case If(t, _, e) => If(t, b, e)
    case While(t, _, e) => While(t, b, e)
    case For(tg, it, _, e) => For(tg, it, b, e)
  }

  /** `utils.make_lookup`: a load of a plain name. */
  function Lookup(name: string): Expr {
    Name(name, Load)
  }

  /** `utils.make_assign`: `name = value` with a single plain-name target. */
  function MakeAssign(name: string, value: Expr): Stmt {
    Assign([Name(name, Store)], value)
  }

  /** Nesting depth of statement bodies; passes that rebuild a scope keep it. */
  function Depth(s: Stmt): nat {
    if HasBody(s) then 1 + MaxDepth(s.body) else 0
  }

  /** Python's grammar gives every `def`, `if`, `while` and `for` a non-empty body. */
  predicate NonEmptyBodies(s: Stmt)
    decreases s
  {
    HasBody(s) ==> s.body != [] && forall i | 0 <= i < |s.body| :: NonEmptyBodies(s.body[i])
  }

  predicate AllNonEmptyBodies(ss: seq<Stmt>) {
    forall i | 0 <= i < |ss| :: NonEmptyBodies(ss[i])
  }

  function MaxDepth(ss: seq<Stmt>): nat {
    if ss == [] then 0
    else var a := Depth(ss[|ss| - 1]); var b := MaxDepth(ss[..|ss| - 1]); if a < b then b else a
  }
}
