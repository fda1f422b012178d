/** Helpers shared by the lowering passes: fresh names, the scope test and
    the statement-list flat-map `fmap_statements`. */
module Utils {
  import opened Wrappers
  import opened PyAst

  // ---------------------------------------------------------------------
  // Fresh names (`dunder_names`)
  // ---------------------------------------------------------------------

  function DigitChar(d: nat): char
    requires d < 10
  {
    "0123456789"[d]
  }

  /** Python's `str` of a non-negative integer: its decimal digits. */
  function NatToString(n: nat): (s: string)
    ensures 1 <= |s|
    ensures n >= 10 ==> 2 <= |s|
    decreases n
  {
    if n < 10 then [DigitChar(n)] else NatToString(n / 10) + [DigitChar(n % 10)]
  }

  lemma {:induction false} NatToStringInjective(a: nat, b: nat)
    requires NatToString(a) == NatToString(b)
    ensures a == b
    decreases a
  {
    if a >= 10 && b >= 10 {
      var sa, sb := NatToString(a), NatToString(b);
      assert sa[..|sa| - 1] == NatToString(a / 10);
      assert sb[..|sb| - 1] == NatToString(b / 10);
      NatToStringInjective(a / 10, b / 10);
      assert sa[|sa| - 1] == DigitChar(a % 10);
      assert sb[|sb| - 1] == DigitChar(b % 10);
    }
  }

  /** The i-th name yielded by `dunder_names(prefix)`. */
  function DunderName(prefix: string, i: nat): string {
    "__$" + prefix + NatToString(i) + "__"
  }

  /** The names one `dunder_names` generator yields are pairwise distinct. */
  lemma DunderNamesDistinct(prefix: string, i: nat, j: nat)
    requires i != j
    ensures DunderName(prefix, i) != DunderName(prefix, j)
  {
    if DunderName(prefix, i) == DunderName(prefix, j) {
      var a, b := DunderName(prefix, i), DunderName(prefix, j);
      var k := 3 + |prefix|;
      assert |NatToString(i)| == |NatToString(j)|;
      assert a[k..|a| - 2] == NatToString(i);
      assert b[k..|b| - 2] == NatToString(j);
      NatToStringInjective(i, j);
    }
  }

  /** The state of a `dunder_names` generator: its prefix and how many names
      it has yielded so far. The passes thread it from call to call. */
  datatype NameIter = NameIter(prefix: string, count: nat)

  /** `dunder_names(prefix)` before its first `next`. */
  function DunderNames(prefix: string): NameIter {
    NameIter(prefix, 0)
  }

  /** The names the generator has already handed out. */
  ghost function Issued(it: NameIter): set<string> {
    set i | 0 <= i < it.count :: DunderName(it.prefix, i)
  }

  /** `next(name_iter)`: the name is one never issued before, and afterwards
      it counts as issued. */
  function Next(it: NameIter): (r: (string, NameIter))
    ensures r.1.prefix == it.prefix && r.1.count == it.count + 1
  {
    (DunderName(it.prefix, it.count), NameIter(it.prefix, it.count + 1))
  }

  /** The name `next` yields was never issued before, and afterwards it
      counts as issued. */
  lemma NextFresh(it: NameIter)
    ensures Next(it).0 !in Issued(it)
    ensures Issued(Next(it).1) == Issued(it) + {Next(it).0}
  {
    var name := DunderName(it.prefix, it.count);
    forall i | 0 <= i < it.count ensures DunderName(it.prefix, i) != name {
      DunderNamesDistinct(it.prefix, i, it.count);
    }
  }

  // ---------------------------------------------------------------------
  // Scopes
  // ---------------------------------------------------------------------

  /** `is_scope`: the inner scopes a lowered function may contain. */
  predicate IsScope(s: Stmt)
    ensures IsScope(s) ==> HasBody(s)
  {
    s.For? || s.While? || s.If?
  }

  // ---------------------------------------------------------------------
  // fmap_statements
  // ---------------------------------------------------------------------

  /** A statement mapper: one statement to the list that replaces it. The
      fresh-name generator the Python closure advances is threaded through. */
  type Mapper = (Stmt, NameIter) -> (seq<Stmt>, NameIter)

  /** Why `body[-1]` could not be mapped: the list was empty (IndexError) or
      its last element has no `body` (AttributeError). */
  datatype MapError = EmptyBody | NoBody(s: Stmt)

  /** The mapper never deepens a statement. It is what makes the recursion
      into `body[-1]` terminate. */
  ghost predicate KeepsDepth(fn: Mapper) {
    forall s: Stmt, it: NameIter, k {:trigger fn(s, it).0[k]} ::
      0 <= k < |fn(s, it).0| ==> Depth(fn(s, it).0[k]) <= Depth(s)
  }

  lemma MaxDepthAppend(a: seq<Stmt>, b: seq<Stmt>)
    ensures MaxDepth(a + b) == if MaxDepth(a) < MaxDepth(b) then MaxDepth(b) else MaxDepth(a)
    decreases |b|
  {
    if b != [] {
      assert (a + b)[..|a + b| - 1] == a + b[..|b| - 1];
      MaxDepthAppend(a, b[..|b| - 1]);
    } else {
      assert a + b == a;
    }
  }

  lemma MaxDepthBounds(ss: seq<Stmt>)
    ensures forall k | 0 <= k < |ss| :: Depth(ss[k]) <= MaxDepth(ss)
    decreases |ss|
  {
    if ss != [] {
      MaxDepthBounds(ss[..|ss| - 1]);
      assert forall k | 0 <= k < |ss| - 1 :: ss[k] == ss[..|ss| - 1][k];
    }
  }

  lemma MaxDepthBelow(ss: seq<Stmt>, d: nat)
    requires forall k | 0 <= k < |ss| :: Depth(ss[k]) <= d
    ensures MaxDepth(ss) <= d
    decreases |ss|
  {
    if ss != [] {
      assert forall k | 0 <= k < |ss| - 1 :: ss[..|ss| - 1][k] == ss[k];
      MaxDepthBelow(ss[..|ss| - 1], d);
    }
  }

  /** Which statements produced by the mapper have their own body mapped
      in turn: `is_scope` for `fmap_statements`, `is_supported_scope` for
      `map_scope` of `src/mappers.py`. */
  type ScopeTest = Stmt -> bool

  /** `is_scope`, the test `fmap_statements` uses. */
  const InnerScopes: ScopeTest := (s: Stmt) => IsScope(s)

  /** The test only picks statements that own a body. */
  ghost predicate PicksBodies(rec: ScopeTest) {
    forall s: Stmt {:trigger rec(s)} :: rec(s) ==> HasBody(s)
  }

  /** `fmap_statements(scope, fn)`: the scope rebuilt with every non-body
      field kept. */
  function Fmap(scope: Stmt, fn: Mapper, rec: ScopeTest, it: NameIter): (r: (Result<Stmt, MapError>, NameIter))
    requires HasBody(scope) && KeepsDepth(fn)
    ensures r.0.Ok? ==> HasBody(r.0.value) && r.0.value == WithBody(scope, r.0.value.body)
    ensures r.0.Ok? ==> Depth(r.0.value) <= Depth(scope)
    decreases Depth(scope), 1, 0
  {
    var (b, it') := FmapBody(scope.body, fn, rec, it);
    match b
    case Err(e) => (Err(e), it')
    case Ok(body) =>
      MaxDepthBounds(scope.body);
      (Ok(WithBody(scope, body)), it')
  }

  /** The new body for the statements `stmts`, mapped left to right. */
  function FmapBody(stmts: seq<Stmt>, fn: Mapper, rec: ScopeTest, it: NameIter): (r: (Result<seq<Stmt>, MapError>, NameIter))
    requires KeepsDepth(fn)
    ensures r.0.Ok? ==> MaxDepth(r.0.value) <= MaxDepth(stmts)
    decreases MaxDepth(stmts), 2, |stmts|
  {
    if stmts == [] then (Ok([]), it)
    else
      MaxDepthBounds(stmts);
      assert MaxDepth(stmts[..|stmts| - 1]) <= MaxDepth(stmts);
      var (acc, it1) := FmapBody(stmts[..|stmts| - 1], fn, rec, it);
      match acc
      case Err(e) => (Err(e), it1)
      case Ok(prev) =>
        MaxDepthBounds(prev);
        MaxDepthBounds(stmts);
        MaxDepthBelow(prev + [stmts[|stmts| - 1]], MaxDepth(stmts));
        FmapStep(prev, stmts[|stmts| - 1], fn, rec, it1)
  }

  /** One turn of the loop: the images of `s` are appended to `prev`, and if
      `s` is a scope the last element of the body so far is itself mapped. */
  function FmapStep(prev: seq<Stmt>, s: Stmt, fn: Mapper, rec: ScopeTest, it: NameIter): (r: (Result<seq<Stmt>, MapError>, NameIter))
    requires KeepsDepth(fn)
    ensures r.0.Ok? ==> MaxDepth(r.0.value) <= MaxDepth(prev + [s])
    decreases MaxDepth(prev + [s]), 2, 0
  {
    var d := MaxDepth(prev + [s]);
    MaxDepthBounds(prev + [s]);
    assert forall k | 0 <= k < |prev| :: prev[k] == (prev + [s])[k];
    var (out, it2) := fn(s, it);
    var body := prev + out;
    assert forall k | 0 <= k < |body| :: Depth(body[k]) <= d by {
      assert forall k | 0 <= k < |out| :: Depth(out[k]) <= Depth(s);
    }
    MaxDepthBelow(body, d);
    if !rec(s) then (Ok(body), it2)
    else if body == [] then (Err(EmptyBody), it2)
    else if !HasBody(body[|body| - 1]) then (Err(NoBody(body[|body| - 1])), it2)
    else
      var (last, it3) := Fmap(body[|body| - 1], fn, rec, it2);
      match last
      case Err(e) => (Err(e), it3)
      case Ok(l) =>
        var body' := body[..|body| - 1] + [l];
        assert forall k | 0 <= k < |body'| :: Depth(body'[k]) <= d;
        MaxDepthBelow(body', d);
        (Ok(body'), it3)
  }

  /** `fmap_statements`, as the loop that extends and patches `body`. */
  method FmapStatements(scope: Stmt, fn: Mapper, rec: ScopeTest, it: NameIter) returns (r: Result<Stmt, MapError>, it': NameIter)
    requires HasBody(scope) && KeepsDepth(fn)
    ensures (r, it') == Fmap(scope, fn, rec, it)
    decreases Depth(scope), 0
  {
    var stmts := scope.body;
    var body: seq<Stmt> := [];
    var cur := it;
    var i := 0;
    MaxDepthBounds(stmts);
    while i < |stmts|
      invariant 0 <= i <= |stmts|
      invariant FmapBody(stmts[..i], fn, rec, it) == (Ok(body), cur)
    {
      FmapPrefixBound(stmts, i, fn, rec, it);
      FmapBodySnoc(stmts, i, fn, rec, it);
      var next;
      next, cur := FmapAppend(body, stmts[i], fn, rec, cur);
      if next.Err? {
        r, it' := Err(next.error), cur;
        FmapBodyErrorStops(stmts, i + 1, fn, rec, it);
        return;
      }
      body := next.value;
      i := i + 1;
    }
    assert stmts[..i] == stmts;
    r, it' := Ok(WithBody(scope, body)), cur;
  }

  /** The loop body of `fmap_statements`. */
  method FmapAppend(prev: seq<Stmt>, s: Stmt, fn: Mapper, rec: ScopeTest, it: NameIter)
    returns (r: Result<seq<Stmt>, MapError>, it': NameIter)
    requires KeepsDepth(fn)
    ensures (r, it') == FmapStep(prev, s, fn, rec, it)
    decreases MaxDepth(prev + [s]), 1
  {
    MaxDepthBounds(prev + [s]);
    assert forall k | 0 <= k < |prev| :: prev[k] == (prev + [s])[k];
    var step := fn(s, it);
    var body := prev + step.0;
    it' := step.1;
    if rec(s) {
      if body == [] {
        return Err(EmptyBody), it';
      }
      var last := body[|body| - 1];
      if !HasBody(last) {
        return Err(NoBody(last)), it';
      }
      assert Depth(last) <= MaxDepth(prev + [s]) by {
        assert forall k | 0 <= k < |step.0| :: Depth(step.0[k]) <= Depth(s);
      }
      var l;
      l, it' := FmapStatements(last, fn, rec, it');
      if l.Err? {
        return Err(l.error), it';
      }
      body := body[..|body| - 1] + [l.value];
    }
    r := Ok(body);
  }

  /** Once mapping a prefix fails, mapping the whole list fails the same way. */
  lemma FmapBodyErrorStops(stmts: seq<Stmt>, n: nat, fn: Mapper, rec: ScopeTest, it: NameIter)
    requires KeepsDepth(fn) && n <= |stmts|
    requires FmapBody(stmts[..n], fn, rec, it).0.Err?
    ensures FmapBody(stmts, fn, rec, it) == FmapBody(stmts[..n], fn, rec, it)
    decreases |stmts| - n
  {
    if n < |stmts| {
      assert stmts[..n + 1][..n] == stmts[..n];
      FmapBodyErrorStops(stmts, n + 1, fn, rec, it);
    } else {
      assert stmts[..n] == stmts;
    }
  }

  /** What the loop has built so far is no deeper than the scope's body. */
  lemma FmapPrefixBound(stmts: seq<Stmt>, i: nat, fn: Mapper, rec: ScopeTest, it: NameIter)
    requires KeepsDepth(fn) && i < |stmts|
    requires FmapBody(stmts[..i], fn, rec, it).0.Ok?
    ensures MaxDepth(FmapBody(stmts[..i], fn, rec, it).0.value + [stmts[i]]) <= MaxDepth(stmts)
  {
    var prev := FmapBody(stmts[..i], fn, rec, it).0.value;
    MaxDepthBounds(stmts);
    MaxDepthBounds(prev);
    assert MaxDepth(stmts[..i]) <= MaxDepth(stmts) by {
      assert forall k | 0 <= k < i :: stmts[..i][k] == stmts[k];
      MaxDepthBelow(stmts[..i], MaxDepth(stmts));
    }
    MaxDepthBelow(prev + [stmts[i]], MaxDepth(stmts));
  }

  /** One more turn of the loop extends the prefix it has mapped by one statement. */
  lemma FmapBodySnoc(stmts: seq<Stmt>, i: nat, fn: Mapper, rec: ScopeTest, it: NameIter)
    requires KeepsDepth(fn) && i < |stmts|
    requires FmapBody(stmts[..i], fn, rec, it).0.Ok?
    ensures FmapBody(stmts[..i + 1], fn, rec, it)
         == FmapStep(FmapBody(stmts[..i], fn, rec, it).0.value, stmts[i], fn, rec, FmapBody(stmts[..i], fn, rec, it).1)
  {
    assert stmts[..i + 1][..i] == stmts[..i];
  }

  // ---------------------------------------------------------------------
  // What fmap_statements guarantees
  // ---------------------------------------------------------------------

  /** For a scope, the mapper returns a non-empty list whose last element
      still has a body, as every mapper of the passes does (its last element
      is the rewritten statement). */
  ghost predicate EndsWithBody(fn: Mapper, rec: ScopeTest) {
    forall s: Stmt, it: NameIter {:trigger fn(s, it)} ::
      rec(s) ==> fn(s, it).0 != [] && HasBody(fn(s, it).0[|fn(s, it).0| - 1])
  }

  /** With such a mapper, `fmap_statements` never reaches `body[-1]` of an
      empty list or a statement without a body: it never fails. */
  lemma {:induction false} FmapSucceeds(scope: Stmt, fn: Mapper, rec: ScopeTest, it: NameIter)
    requires HasBody(scope) && KeepsDepth(fn) && EndsWithBody(fn, rec)
    ensures Fmap(scope, fn, rec, it).0.Ok?
    decreases Depth(scope), 1, 0
  {
    FmapBodySucceeds(scope.body, fn, rec, it);
  }

  lemma {:induction false} FmapBodySucceeds(stmts: seq<Stmt>, fn: Mapper, rec: ScopeTest, it: NameIter)
    requires KeepsDepth(fn) && EndsWithBody(fn, rec)
    ensures FmapBody(stmts, fn, rec, it).0.Ok?
    decreases MaxDepth(stmts), 2, |stmts|
  {
    if stmts != [] {
      var init := stmts[..|stmts| - 1];
      assert MaxDepth(init) <= MaxDepth(stmts);
      FmapBodySucceeds(init, fn, rec, it);
      var (acc, it1) := FmapBody(init, fn, rec, it);
      assert MaxDepth(acc.value + [stmts[|stmts| - 1]]) <= MaxDepth(stmts) by {
        MaxDepthBounds(acc.value);
        MaxDepthBounds(stmts);
        MaxDepthBelow(acc.value + [stmts[|stmts| - 1]], MaxDepth(stmts));
      }
      FmapStepSucceeds(acc.value, stmts[|stmts| - 1], fn, rec, it1);
    }
  }

  lemma {:induction false} FmapStepSucceeds(prev: seq<Stmt>, s: Stmt, fn: Mapper, rec: ScopeTest, it: NameIter)
    requires KeepsDepth(fn) && EndsWithBody(fn, rec)
    ensures FmapStep(prev, s, fn, rec, it).0.Ok?
    decreases MaxDepth(prev + [s]), 2, 0
  {
    if rec(s) {
      var (out, it2) := fn(s, it);
      var body := prev + out;
      assert body != [] && body[|body| - 1] == out[|out| - 1];
      assert Depth(body[|body| - 1]) <= MaxDepth(prev + [s]) by {
        MaxDepthBounds(prev + [s]);
        assert (prev + [s])[|prev|] == s;
      }
      FmapSucceeds(body[|body| - 1], fn, rec, it2);
    }
  }

  /** The mapper `λs.[s]`, which keeps every statement. */
  function Keep(): (fn: Mapper)
    ensures KeepsDepth(fn)
  {
    (s: Stmt, it: NameIter) => ([s], it)
  }

  lemma WithBodySame(s: Stmt)
    requires HasBody(s)
    ensures WithBody(s, s.body) == s
  {
  }

  /** `fmap_statements` with `λs.[s]` gives back an equal tree. */
  lemma {:induction false} FmapKeep(scope: Stmt, rec: ScopeTest, it: NameIter)
    requires HasBody(scope) && PicksBodies(rec)
    ensures Fmap(scope, Keep(), rec, it) == (Ok(scope), it)
    decreases Depth(scope), 1, 0
  {
    FmapBodyKeep(scope.body, rec, it);
    WithBodySame(scope);
  }

  lemma {:induction false} FmapBodyKeep(stmts: seq<Stmt>, rec: ScopeTest, it: NameIter)
    requires PicksBodies(rec)
    ensures FmapBody(stmts, Keep(), rec, it) == (Ok(stmts), it)
    decreases MaxDepth(stmts), 2, |stmts|
  {
    if stmts != [] {
      var init := stmts[..|stmts| - 1];
      assert MaxDepth(init) <= MaxDepth(stmts);
      FmapBodyKeep(init, rec, it);
      assert init + [stmts[|stmts| - 1]] == stmts;
      FmapStepKeep(init, stmts[|stmts| - 1], rec, it);
    }
  }

  lemma {:induction false} FmapStepKeep(prev: seq<Stmt>, s: Stmt, rec: ScopeTest, it: NameIter)
    requires PicksBodies(rec)
    ensures FmapStep(prev, s, Keep(), rec, it) == (Ok(prev + [s]), it)
    decreases MaxDepth(prev + [s]), 2, 0
  {
    if rec(s) {
      var body := prev + [s];
      assert body[|body| - 1] == s && body[..|body| - 1] + [s] == body;
      assert Depth(s) <= MaxDepth(body) by {
        MaxDepthBounds(body);
      }
      FmapKeep(s, rec, it);
    }
  }

  // ---------------------------------------------------------------------
  // fmap_statements one step at a time
  // ---------------------------------------------------------------------

  /** A body that mapped without error: the scope rebuilt around it. */
  lemma FmapOk(scope: Stmt, fn: Mapper, rec: ScopeTest, it: NameIter, b: seq<Stmt>, it': NameIter)
    requires HasBody(scope) && KeepsDepth(fn)
    requires FmapBody(scope.body, fn, rec, it) == (Ok(b), it')
    ensures Fmap(scope, fn, rec, it) == (Ok(WithBody(scope, b)), it')
  {
  }

  /** One more statement after a prefix that mapped without error. */
  lemma FmapBodyAppendOne(stmts: seq<Stmt>, s: Stmt, fn: Mapper, rec: ScopeTest, it: NameIter,
                          prev: seq<Stmt>, it1: NameIter)
    requires KeepsDepth(fn)
    requires FmapBody(stmts, fn, rec, it) == (Ok(prev), it1)
    ensures FmapBody(stmts + [s], fn, rec, it) == FmapStep(prev, s, fn, rec, it1)
  {
    assert (stmts + [s])[..|stmts|] == stmts;
  }

  /** A statement the test does not pick: its images are appended. */
  lemma FmapStepPlain(prev: seq<Stmt>, s: Stmt, fn: Mapper, rec: ScopeTest, it: NameIter)
    requires KeepsDepth(fn) && !rec(s)
    ensures FmapStep(prev, s, fn, rec, it) == (Ok(prev + fn(s, it).0), fn(s, it).1)
  {
  }

  /** A statement the test picks: its images are appended and the last of
      them is replaced by its own mapped version `l`. */
  lemma FmapStepScope(prev: seq<Stmt>, s: Stmt, fn: Mapper, rec: ScopeTest, it: NameIter,
                      l: Stmt, it3: NameIter)
    requires KeepsDepth(fn) && rec(s)
    requires var out := fn(s, it).0;
      out != [] && HasBody(out[|out| - 1]) && Fmap(out[|out| - 1], fn, rec, fn(s, it).1) == (Ok(l), it3)
    ensures var out := fn(s, it).0;
      FmapStep(prev, s, fn, rec, it) == (Ok(prev + out[..|out| - 1] + [l]), it3)
  {
    var out := fn(s, it).0;
    var body := prev + out;
    assert body[|body| - 1] == out[|out| - 1];
    assert body[..|body| - 1] == prev + out[..|out| - 1];
  }

  // ---------------------------------------------------------------------
  // Properties fmap_statements establishes everywhere
  // ---------------------------------------------------------------------

  /** A property of single statements. */
  type StmtTest = Stmt -> bool

  /** Every statement of `ss` has `good`, and so, recursively, does every
      statement in the body of each one `rec` picks. */
  predicate Everywhere(ss: seq<Stmt>, good: StmtTest, rec: ScopeTest)
    decreases ss
  {
    forall i | 0 <= i < |ss| :: good(ss[i]) && (rec(ss[i]) && HasBody(ss[i]) ==> Everywhere(ss[i].body, good, rec))
  }

  /** Every statement the mapper produces has `good`, and only the last
      one produced from a statement `rec` picks may itself be picked. */
  ghost predicate Establishes(fn: Mapper, rec: ScopeTest, good: StmtTest) {
    forall s: Stmt, it: NameIter, k {:trigger fn(s, it).0[k]} ::
      0 <= k < |fn(s, it).0| ==> good(fn(s, it).0[k]) && (rec(fn(s, it).0[k]) ==> rec(s) && k == |fn(s, it).0| - 1)
  }

  /** `good` looks at a statement's own fields, never at its body. */
  ghost predicate BodyBlind(good: StmtTest) {
    forall s: Stmt, b: seq<Stmt> {:trigger WithBody(s, b)} :: HasBody(s) && good(s) ==> good(WithBody(s, b))
  }

  lemma EverywhereAppend(a: seq<Stmt>, b: seq<Stmt>, good: StmtTest, rec: ScopeTest)
    requires Everywhere(a, good, rec) && Everywhere(b, good, rec)
    ensures Everywhere(a + b, good, rec)
  {
    forall i | 0 <= i < |a + b|
      ensures good((a + b)[i]) && (rec((a + b)[i]) && HasBody((a + b)[i]) ==> Everywhere((a + b)[i].body, good, rec))
    {
      if i < |a| { assert (a + b)[i] == a[i]; } else { assert (a + b)[i] == b[i - |a|]; }
    }
  }

  /** A mapper that establishes `good` on what it produces makes
      `fmap_statements` establish it through every scope it recurses into. */
  lemma {:induction false} FmapEverywhere(scope: Stmt, fn: Mapper, rec: ScopeTest, good: StmtTest, it: NameIter)
    requires HasBody(scope) && KeepsDepth(fn) && Establishes(fn, rec, good) && BodyBlind(good)
    ensures var r := Fmap(scope, fn, rec, it).0; r.Ok? ==> Everywhere(r.value.body, good, rec)
    decreases Depth(scope), 1, 0
  {
    FmapBodyEverywhere(scope.body, fn, rec, good, it);
  }

  lemma {:induction false} FmapBodyEverywhere(stmts: seq<Stmt>, fn: Mapper, rec: ScopeTest, good: StmtTest, it: NameIter)
    requires KeepsDepth(fn) && Establishes(fn, rec, good) && BodyBlind(good)
    ensures var r := FmapBody(stmts, fn, rec, it).0; r.Ok? ==> Everywhere(r.value, good, rec)
    decreases MaxDepth(stmts), 2, |stmts|
  {
    if stmts != [] {
      var init := stmts[..|stmts| - 1];
      assert MaxDepth(init) <= MaxDepth(stmts);
      FmapBodyEverywhere(init, fn, rec, good, it);
      var (acc, it1) := FmapBody(init, fn, rec, it);
      if acc.Ok? {
        assert MaxDepth(acc.value + [stmts[|stmts| - 1]]) <= MaxDepth(stmts) by {
          MaxDepthBounds(acc.value);
          MaxDepthBounds(stmts);
          MaxDepthBelow(acc.value + [stmts[|stmts| - 1]], MaxDepth(stmts));
        }
        FmapStepEverywhere(acc.value, stmts[|stmts| - 1], fn, rec, good, it1);
      }
    }
  }

  /** What comes before the last statement of `prev + fn(s, it).0` keeps
      `good` everywhere, and the last statement has `good` itself. */
  lemma StepInitEverywhere(prev: seq<Stmt>, s: Stmt, fn: Mapper, rec: ScopeTest, good: StmtTest, it: NameIter)
    requires Establishes(fn, rec, good) && Everywhere(prev, good, rec)
    requires prev + fn(s, it).0 != []
    ensures var body := prev + fn(s, it).0;
      Everywhere(body[..|body| - 1], good, rec) && good(body[|body| - 1])
  {
    var out := fn(s, it).0;
    var body := prev + out;
    forall i | 0 <= i < |body| - 1
      ensures good(body[i]) && (rec(body[i]) && HasBody(body[i]) ==> Everywhere(body[i].body, good, rec))
    {
      if i < |prev| {
        assert body[i] == prev[i];
      } else {
        assert body[i] == fn(s, it).0[i - |prev|];
      }
    }
    if out != [] {
      assert body[|body| - 1] == fn(s, it).0[|out| - 1];
    } else {
      assert body[|body| - 1] == prev[|prev| - 1];
    }
  }

  /** The depth of the last statement of `prev + fn(s, it).0` is within
      that of `prev + [s]`. */
  lemma StepLastDepth(prev: seq<Stmt>, s: Stmt, fn: Mapper, it: NameIter)
    requires KeepsDepth(fn) && prev + fn(s, it).0 != []
    ensures var body := prev + fn(s, it).0; Depth(body[|body| - 1]) <= MaxDepth(prev + [s])
  {
    var out := fn(s, it).0;
    var body := prev + out;
    MaxDepthBounds(prev + [s]);
    assert (prev + [s])[|prev|] == s;
    if out != [] {
      assert body[|body| - 1] == fn(s, it).0[|out| - 1];
    } else {
      assert body[|body| - 1] == (prev + [s])[|prev| - 1];
    }
  }

  lemma {:induction false} FmapStepEverywhere(prev: seq<Stmt>, s: Stmt, fn: Mapper, rec: ScopeTest, good: StmtTest, it: NameIter)
    requires KeepsDepth(fn) && Establishes(fn, rec, good) && BodyBlind(good)
    requires Everywhere(prev, good, rec)
    ensures var r := FmapStep(prev, s, fn, rec, it).0; r.Ok? ==> Everywhere(r.value, good, rec)
    decreases MaxDepth(prev + [s]), 2, 0
  {
    var (out, it2) := fn(s, it);
    var body := prev + out;
    if !rec(s) {
      assert Everywhere(out, good, rec) by {
        forall k | 0 <= k < |out| ensures good(out[k]) && !rec(out[k]) {
          assert out[k] == fn(s, it).0[k];
        }
      }
      EverywhereAppend(prev, out, good, rec);
    } else if body != [] && HasBody(body[|body| - 1]) {
      var last := body[|body| - 1];
      StepLastDepth(prev, s, fn, it);
      FmapEverywhere(last, fn, rec, good, it2);
      var (res, it3) := Fmap(last, fn, rec, it2);
      if res.Ok? {
        var l := res.value;
        StepInitEverywhere(prev, s, fn, rec, good, it);
        assert good(l) by {
          assert l == WithBody(last, l.body);
        }
        assert Everywhere([l], good, rec);
        EverywhereAppend(body[..|body| - 1], [l], good, rec);
      }
    }
  }
}
