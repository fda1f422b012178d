/** The numbering `insert_jumps` gives the function `bar` of
    `src/jumps_test.py`, with every assignment a jump target: a `for` loop,
    an assignment, a `while` loop and an `if` whose bodies hold
    assignments, two more assignments and a `return`. The statements are
    left abstract; only their kinds matter to the pass. */
module JumpsExamples {
  import opened Wrappers
  import opened PyAst
  import opened Jumps

  /** `lambda stmt: isinstance(stmt, ast.Assign)`. */
  predicate IsAssign(s: Stmt) {
    s.Assign?
  }

  /** `if <range test>: body`, the guard of one run. */
  function Guard(start: int, end: int, body: seq<Stmt>): Stmt {
    If(MakeRangeTest(start, end), body, [])
  }

  /** A statement the pass neither renumbers inside nor looks into. */
  predicate Plain(s: Stmt) {
    !s.If? && !s.While? && NonEmptyBodies(s)
  }

  predicate AllPlain(ss: seq<Stmt>) {
    forall i | 0 <= i < |ss| :: Plain(ss[i])
  }

  /** A plain statement is a jump target exactly when the test says so. */
  lemma PlainJump(s: Stmt, jt: JumpTo)
    requires Plain(s)
    ensures HasJumpTo(s, jt) == jt(s)
  {
  }

  /** `partition_stmts` on one more statement: a target opens a new run. */
  lemma PartitionSnocJump(xs: seq<Stmt>, s: Stmt, jt: JumpTo)
    requires HasJumpTo(s, jt)
    ensures Partition(xs + [s], jt) == Partition(xs, jt) + [[s]]
  {
    assert (xs + [s])[..|xs|] == xs;
  }

  /** Any other statement extends the last run. */
  lemma PartitionSnocKeep(xs: seq<Stmt>, s: Stmt, jt: JumpTo)
    requires !HasJumpTo(s, jt)
    ensures var ps := Partition(xs, jt);
      Partition(xs + [s], jt) == ps[..|ps| - 1] + [ps[|ps| - 1] + [s]]
  {
    assert (xs + [s])[..|xs|] == xs;
  }

  /** A run of plain statements is kept as it is, and uses no pc. */
  lemma {:induction false} RunPlain(ss: seq<Stmt>, jt: JumpTo, n: int)
    requires AllPlain(ss)
    ensures AllNonEmptyBodies(ss) && TransformRun(ss, jt, n) == (ss, n)
    decreases |ss|
  {
    if ss != [] {
      assert forall i | 0 <= i < |ss| - 1 :: ss[1..][i] == ss[i + 1];
      RunPlain(ss[1..], jt, n);
      assert [ss[0]] + ss[1..] == ss;
    }
  }

  /** A run of plain statements takes one pc. */
  lemma PartPlain(ss: seq<Stmt>, jt: JumpTo, n: int)
    requires ss != [] && AllPlain(ss)
    ensures AllNonEmptyBodies(ss)
    ensures TransformPartitionF(ss, jt, n) == (Guard(n, n + 1, ss + [PcAssign(n + 1)]), n + 1)
  {
    RunPlain(ss, jt, n + 1);
  }

  /** A run of one plain statement. */
  lemma PartOne(s: Stmt, jt: JumpTo, n: int)
    requires Plain(s)
    ensures AllNonEmptyBodies([s])
    ensures TransformPartitionF([s], jt, n) == (Guard(n, n + 1, [s, PcAssign(n + 1)]), n + 1)
  {
    assert AllPlain([s]);
    PartPlain([s], jt, n);
    assert [s] + [PcAssign(n + 1)] == [s, PcAssign(n + 1)];
  }

  /** A run of two plain statements. */
  lemma PartTwo(s: Stmt, u: Stmt, jt: JumpTo, n: int)
    requires Plain(s) && Plain(u)
    ensures AllNonEmptyBodies([s, u])
    ensures TransformPartitionF([s, u], jt, n) == (Guard(n, n + 1, [s, u, PcAssign(n + 1)]), n + 1)
  {
    assert AllPlain([s, u]);
    PartPlain([s, u], jt, n);
    assert [s, u] + [PcAssign(n + 1)] == [s, u, PcAssign(n + 1)];
  }

  /** One run of the loop of `insert_jumps`, written on `[p] + rest`. */
  lemma InsertPartsCons(p: seq<Stmt>, rest: seq<seq<Stmt>>, jt: JumpTo, next: int, d: nat)
    requires PartsFit([p] + rest, d)
    ensures MaxDepth(p) <= d && AllNonEmptyBodies(p) && PartsFit(rest, d)
    ensures p == [] ==> InsertParts([p] + rest, jt, next, d) == InsertParts(rest, jt, next, d)
    ensures p != [] ==>
      var (g, n) := TransformPartitionF(p, jt, next);
      InsertParts([p] + rest, jt, next, d) == ([g] + InsertParts(rest, jt, n, d).0, InsertParts(rest, jt, n, d).1)
  {
    assert ([p] + rest)[0] == p && ([p] + rest)[1..] == rest;
    InsertPartsStep([p] + rest, jt, next, d);
  }

  /** Each run is non-empty and becomes guard `gs[k]` on `[pcs[k], pcs[k + 1])`. */
  ghost predicate RunsNumbered(ps: seq<seq<Stmt>>, gs: seq<Stmt>, pcs: seq<int>, jt: JumpTo)
    decreases |ps|
  {
    && |gs| == |ps| && |pcs| == |ps| + 1
    && (ps != [] ==>
          && ps[0] != [] && AllNonEmptyBodies(ps[0])
          && TransformPartitionF(ps[0], jt, pcs[0]) == (gs[0], pcs[1])
          && RunsNumbered(ps[1..], gs[1..], pcs[1..], jt))
  }

  /** One more numbered run in front. */
  lemma NumberedCons(r: seq<Stmt>, ps: seq<seq<Stmt>>, g: Stmt, gs: seq<Stmt>, pc: int, pcs: seq<int>, jt: JumpTo)
    requires r != [] && AllNonEmptyBodies(r) && RunsNumbered(ps, gs, pcs, jt)
    requires TransformPartitionF(r, jt, pc) == (g, pcs[0])
    ensures RunsNumbered([r] + ps, [g] + gs, [pc] + pcs, jt)
  {
    assert ([r] + ps)[1..] == ps && ([g] + gs)[1..] == gs && ([pc] + pcs)[1..] == pcs;
  }

  /** `insert_jumps` on a list whose runs are numbered as given. */
  lemma InsertJumpsVia(ss: seq<Stmt>, ps: seq<seq<Stmt>>, gs: seq<Stmt>, pcs: seq<int>, jt: JumpTo)
    requires AllNonEmptyBodies(ss) && Partition(ss, jt) == ps
    requires RunsNumbered(ps, gs, pcs, jt)
    ensures InsertJumpsF(ss, jt, pcs[0]) == (gs, pcs[|ps|])
  {
    PartitionFacts(ss, jt);
    InsertRuns(ps, gs, pcs, jt, MaxDepth(ss));
  }

  /** The same when the first run is empty, as when the list starts with a target. */
  lemma InsertJumpsViaEmpty(ss: seq<Stmt>, ps: seq<seq<Stmt>>, gs: seq<Stmt>, pcs: seq<int>, jt: JumpTo)
    requires AllNonEmptyBodies(ss) && Partition(ss, jt) == [[]] + ps
    requires RunsNumbered(ps, gs, pcs, jt)
    ensures InsertJumpsF(ss, jt, pcs[0]) == (gs, pcs[|ps|])
  {
    PartitionFacts(ss, jt);
    InsertPartsCons([], ps, jt, pcs[0], MaxDepth(ss));
    InsertRuns(ps, gs, pcs, jt, MaxDepth(ss));
  }

  /** The loop of `insert_jumps` over non-empty runs whose guards and pcs
      are known: the guards in order, and the pc after the last run. */
  lemma {:induction false} InsertRuns(ps: seq<seq<Stmt>>, gs: seq<Stmt>, pcs: seq<int>, jt: JumpTo, d: nat)
    requires PartsFit(ps, d) && RunsNumbered(ps, gs, pcs, jt)
    ensures InsertParts(ps, jt, pcs[0], d) == (gs, pcs[|ps|])
    decreases |ps|
  {
    if ps != [] {
      assert ps == [ps[0]] + ps[1..];
      InsertPartsCons(ps[0], ps[1..], jt, pcs[0], d);
      InsertRuns(ps[1..], gs[1..], pcs[1..], jt, d);
      assert gs == [gs[0]] + gs[1..];
    }
  }

  /** The last run of six, replaced. */
  lemma Six<T>(a: T, b: T, c: T, d: T, e: T, f: T, g: T)
    ensures var ps := [a, b, c, d, e, f]; ps[..5] + [g] == [a, b, c, d, e, g]
  {
  }

  /** `partition_stmts` one statement further, when it is a target. */
  lemma JumpStep(xs: seq<Stmt>, ps: seq<seq<Stmt>>, s: Stmt, ys: seq<Stmt>, qs: seq<seq<Stmt>>, jt: JumpTo)
    requires Partition(xs, jt) == ps && HasJumpTo(s, jt) && ys == xs + [s] && qs == ps + [[s]]
    ensures Partition(ys, jt) == qs
  {
    PartitionSnocJump(xs, s, jt);
  }

  /** The same when it is not. */
  lemma KeepStep(xs: seq<Stmt>, ps: seq<seq<Stmt>>, s: Stmt, ys: seq<Stmt>, qs: seq<seq<Stmt>>, jt: JumpTo)
    requires Partition(xs, jt) == ps && !HasJumpTo(s, jt) && ys == xs + [s]
    requires |ps| >= 1 && qs == ps[..|ps| - 1] + [ps[|ps| - 1] + [s]]
    ensures Partition(ys, jt) == qs
  {
    PartitionSnocKeep(xs, s, jt);
  }

  /** Appending one element at a time, for sequence displays of up to three
      elements; with elements of `Stmt` or `seq<Stmt>` written inline, these
      equalities are too costly to prove where they are used. */
  lemma Three<T>(a: T, b: T, c: T)
    ensures [a] == [] + [a] && [a, b] == [a] + [b] && [a, b, c] == [a, b] + [c]
  {
  }

  /** The runs of the `while` loop's body: the call, then one run per assignment. */
  lemma WhilePartition(p: Stmt, b1: Stmt, b2: Stmt, jt: JumpTo)
    requires !HasJumpTo(p, jt) && HasJumpTo(b1, jt) && HasJumpTo(b2, jt)
    ensures Partition([p, b1, b2], jt) == [[p], [b1], [b2]]
  {
    Three(p, b1, b2);
    Three([p], [b1], [b2]);
    assert Partition([], jt) == [[]];
    KeepStep([], [[]], p, [p], [[p]], jt);
    JumpStep([p], [[p]], b1, [p, b1], [[p], [b1]], jt);
    JumpStep([p, b1], [[p], [b1]], b2, [p, b1, b2], [[p], [b1], [b2]], jt);
  }

  /** The runs of the `if`'s body: an empty run, then one per assignment. */
  lemma IfPartition(d1: Stmt, d2: Stmt, jt: JumpTo)
    requires HasJumpTo(d1, jt) && HasJumpTo(d2, jt)
    ensures Partition([d1, d2], jt) == [[]] + [[d1], [d2]]
  {
    Three(d1, d2, d2);
    Three([], [d1], [d2]);
    assert Partition([], jt) == [[]];
    JumpStep([], [[]], d1, [d1], [[], [d1]], jt);
    JumpStep([d1], [[], [d1]], d2, [d1, d2], [[], [d1], [d2]], jt);
  }

  /** Three runs of one plain statement each, numbered from `n`. */
  lemma PlainRuns3(a: Stmt, b: Stmt, c: Stmt, jt: JumpTo, n: int)
    requires Plain(a) && Plain(b) && Plain(c)
    ensures RunsNumbered([[a], [b], [c]],
      [Guard(n, n + 1, [a, PcAssign(n + 1)]), Guard(n + 1, n + 2, [b, PcAssign(n + 2)]),
       Guard(n + 2, n + 3, [c, PcAssign(n + 3)])], [n, n + 1, n + 2, n + 3], jt)
  {
    PartOne(a, jt, n);
    PartOne(b, jt, n + 1);
    PartOne(c, jt, n + 2);
    ThreeRuns([a], [b], [c], Guard(n, n + 1, [a, PcAssign(n + 1)]), Guard(n + 1, n + 2, [b, PcAssign(n + 2)]),
      Guard(n + 2, n + 3, [c, PcAssign(n + 3)]), n, n + 1, n + 2, n + 3, jt);
  }

  /** Two runs of one plain statement each, numbered from `n`. */
  lemma PlainRuns2(a: Stmt, b: Stmt, jt: JumpTo, n: int)
    requires Plain(a) && Plain(b)
    ensures RunsNumbered([[a], [b]],
      [Guard(n, n + 1, [a, PcAssign(n + 1)]), Guard(n + 1, n + 2, [b, PcAssign(n + 2)])], [n, n + 1, n + 2], jt)
  {
    PartOne(a, jt, n);
    PartOne(b, jt, n + 1);
    TwoRuns([a], [b], Guard(n, n + 1, [a, PcAssign(n + 1)]), Guard(n + 1, n + 2, [b, PcAssign(n + 2)]),
      n, n + 1, n + 2, jt);
  }

  /** The body of the `while` loop: a call, then two assignments. */
  lemma WhileBody(p: Stmt, b1: Stmt, b2: Stmt, jt: JumpTo, n: int)
    requires Plain(p) && Plain(b1) && Plain(b2) && !jt(p) && jt(b1) && jt(b2)
    ensures AllNonEmptyBodies([p, b1, b2])
    ensures InsertJumpsF([p, b1, b2], jt, n)
      == ([Guard(n, n + 1, [p, PcAssign(n + 1)]), Guard(n + 1, n + 2, [b1, PcAssign(n + 2)]),
           Guard(n + 2, n + 3, [b2, PcAssign(n + 3)])], n + 3)
  {
    PlainJump(p, jt);
    PlainJump(b1, jt);
    PlainJump(b2, jt);
    WhilePartition(p, b1, b2, jt);
    PlainRuns3(p, b1, b2, jt, n);
    assert AllNonEmptyBodies([p, b1, b2]);
    InsertJumpsVia([p, b1, b2], [[p], [b1], [b2]],
      [Guard(n, n + 1, [p, PcAssign(n + 1)]), Guard(n + 1, n + 2, [b1, PcAssign(n + 2)]),
       Guard(n + 2, n + 3, [b2, PcAssign(n + 3)])], [n, n + 1, n + 2, n + 3], jt);
  }

  /** The body of the `if`: two assignments. The run before the first one
      is empty and skipped. */
  lemma IfBody(d1: Stmt, d2: Stmt, jt: JumpTo, n: int)
    requires Plain(d1) && Plain(d2) && jt(d1) && jt(d2)
    ensures AllNonEmptyBodies([d1, d2])
    ensures InsertJumpsF([d1, d2], jt, n)
      == ([Guard(n, n + 1, [d1, PcAssign(n + 1)]), Guard(n + 1, n + 2, [d2, PcAssign(n + 2)])], n + 2)
  {
    PlainJump(d1, jt);
    PlainJump(d2, jt);
    IfPartition(d1, d2, jt);
    PlainRuns2(d1, d2, jt, n);
    assert AllNonEmptyBodies([d1, d2]);
    InsertJumpsViaEmpty([d1, d2], [[d1], [d2]],
      [Guard(n, n + 1, [d1, PcAssign(n + 1)]), Guard(n + 1, n + 2, [d2, PcAssign(n + 2)])], [n, n + 1, n + 2], jt);
  }

  /** A run of one statement. */
  lemma RunOne(s: Stmt, jt: JumpTo, n: int)
    requires NonEmptyBodies(s)
    ensures AllNonEmptyBodies([s])
    ensures TransformRun([s], jt, n) == ([TransformStmt(s, jt, n).0], TransformStmt(s, jt, n).1)
  {
    assert [s][0] == s && [s][1..] == [];
    var t := TransformStmt(s, jt, n);
    assert TransformRun([], jt, t.1) == ([], t.1);
    assert [t.0] + [] == [t.0];
  }

  /** A run holding only a loop: the loop takes the run's own first pc, its
      body is renumbered from there and ends by jumping back to it. */
  lemma WhilePart(w: Stmt, jt: JumpTo, n: int, body: seq<Stmt>, end: int)
    requires w.While? && NonEmptyBodies(w) && InsertJumpsF(w.body, jt, n) == (body, end)
    ensures AllNonEmptyBodies([w])
    ensures TransformPartitionF([w], jt, n)
      == (Guard(n, end, [While(w.test, body + [PcAssign(n)], w.orelse), PcAssign(end)]), end)
  {
    RunOne(w, jt, n + 1);
    assert TransformStmt(w, jt, n + 1) == (While(w.test, body + [PcAssign(n)], w.orelse), end);
    assert [While(w.test, body + [PcAssign(n)], w.orelse)] + [PcAssign(end)]
      == [While(w.test, body + [PcAssign(n)], w.orelse), PcAssign(end)];
  }

  /** A run holding only an `if`: the same, without the jump back. */
  lemma IfPart(s: Stmt, jt: JumpTo, n: int, body: seq<Stmt>, end: int)
    requires s.If? && NonEmptyBodies(s) && InsertJumpsF(s.body, jt, n) == (body, end)
    ensures AllNonEmptyBodies([s])
    ensures TransformPartitionF([s], jt, n)
      == (Guard(n, end, [If(s.test, body, s.orelse), PcAssign(end)]), end)
  {
    RunOne(s, jt, n + 1);
    assert TransformStmt(s, jt, n + 1) == (If(s.test, body, s.orelse), end);
    assert [If(s.test, body, s.orelse)] + [PcAssign(end)] == [If(s.test, body, s.orelse), PcAssign(end)];
  }

  lemma Seven<T>(a: T, b: T, c: T, d: T, e: T, f: T, g: T)
    ensures [a] == [] + [a] && [a, b] == [a] + [b] && [a, b, c] == [a, b] + [c]
    ensures [a, b, c, d] == [a, b, c] + [d] && [a, b, c, d, e] == [a, b, c, d] + [e]
    ensures [a, b, c, d, e, f] == [a, b, c, d, e] + [f] && [a, b, c, d, e, f, g] == [a, b, c, d, e, f] + [g]
  {
  }

  /** The runs of `bar`'s body. */
  lemma BarPartition(s1: Stmt, s2: Stmt, w: Stmt, i: Stmt, s5: Stmt, s6: Stmt, s7: Stmt, jt: JumpTo)
    requires !HasJumpTo(s1, jt) && HasJumpTo(s2, jt) && HasJumpTo(w, jt) && HasJumpTo(i, jt)
    requires HasJumpTo(s5, jt) && HasJumpTo(s6, jt) && !HasJumpTo(s7, jt)
    ensures Partition([s1, s2, w, i, s5, s6, s7], jt) == [[s1], [s2], [w], [i], [s5], [s6, s7]]
  {
    Seven(s1, s2, w, i, s5, s6, s7);
    Seven([s1], [s2], [w], [i], [s5], [s6], [s7]);
    assert Partition([], jt) == [[]];
    KeepStep([], [[]], s1, [s1], [[s1]], jt);
    JumpStep([s1], [[s1]], s2, [s1, s2], [[s1], [s2]], jt);
    JumpStep([s1, s2], [[s1], [s2]], w, [s1, s2, w], [[s1], [s2], [w]], jt);
    JumpStep([s1, s2, w], [[s1], [s2], [w]], i, [s1, s2, w, i], [[s1], [s2], [w], [i]], jt);
    JumpStep([s1, s2, w, i], [[s1], [s2], [w], [i]], s5, [s1, s2, w, i, s5], [[s1], [s2], [w], [i], [s5]], jt);
    JumpStep([s1, s2, w, i, s5], [[s1], [s2], [w], [i], [s5]], s6,
      [s1, s2, w, i, s5, s6], [[s1], [s2], [w], [i], [s5], [s6]], jt);
    assert [s6] + [s7] == [s6, s7];
    Six([s1], [s2], [w], [i], [s5], [s6], [s6, s7]);
    KeepStep([s1, s2, w, i, s5, s6], [[s1], [s2], [w], [i], [s5], [s6]], s7,
      [s1, s2, w, i, s5, s6, s7], [[s1], [s2], [w], [i], [s5], [s6, s7]], jt);
  }

  /** `insert_jumps` on `bar`'s body, given the guards of the runs that
      hold the loop and the `if`. */
  lemma BarNumbering(s1: Stmt, s2: Stmt, w: Stmt, i: Stmt, s5: Stmt, s6: Stmt, s7: Stmt,
                     gw: Stmt, gi: Stmt, jt: JumpTo)
    requires Plain(s1) && Plain(s2) && Plain(s5) && Plain(s6) && Plain(s7)
    requires !jt(s1) && jt(s2) && jt(s5) && jt(s6) && !jt(s7)
    requires NonEmptyBodies(w) && NonEmptyBodies(i) && HasJumpTo(w, jt) && HasJumpTo(i, jt)
    requires AllNonEmptyBodies([w]) && TransformPartitionF([w], jt, 2) == (gw, 5)
    requires AllNonEmptyBodies([i]) && TransformPartitionF([i], jt, 5) == (gi, 7)
    ensures AllNonEmptyBodies([s1, s2, w, i, s5, s6, s7])
    ensures InsertJumpsF([s1, s2, w, i, s5, s6, s7], jt, 0)
      == ([Guard(0, 1, [s1, PcAssign(1)]), Guard(1, 2, [s2, PcAssign(2)]), gw, gi,
           Guard(7, 8, [s5, PcAssign(8)]), Guard(8, 9, [s6, s7, PcAssign(9)])], 9)
  {
    var stmts := [s1, s2, w, i, s5, s6, s7];
    assert Partition(stmts, jt) == [[s1], [s2], [w], [i], [s5], [s6, s7]] by {
      PlainJump(s1, jt);
      PlainJump(s2, jt);
      PlainJump(s5, jt);
      PlainJump(s6, jt);
      PlainJump(s7, jt);
      BarPartition(s1, s2, w, i, s5, s6, s7, jt);
    }
    assert AllNonEmptyBodies(stmts);
    BarRuns(s1, s2, w, i, s5, s6, s7, gw, gi, jt);
    InsertJumpsVia(stmts, [[s1], [s2], [w], [i], [s5], [s6, s7]],
      [Guard(0, 1, [s1, PcAssign(1)]), Guard(1, 2, [s2, PcAssign(2)]), gw, gi,
       Guard(7, 8, [s5, PcAssign(8)]), Guard(8, 9, [s6, s7, PcAssign(9)])], [0, 1, 2, 5, 7, 8, 9], jt);
  }

  lemma Nest6<T>(a: T, b: T, c: T, d: T, e: T, f: T, g: T)
    ensures [a] + ([b] + ([c] + ([d] + ([e] + ([f] + []))))) == [a, b, c, d, e, f]
    ensures [a] + ([b] + ([c] + ([d] + ([e] + ([f] + [g]))))) == [a, b, c, d, e, f, g]
  {
  }

  lemma Nest3<T>(a: T, b: T, c: T, d: T)
    ensures [a] + ([b] + []) == [a, b] && [a] + ([b] + [c]) == [a, b, c]
    ensures [a] + ([b] + ([c] + [])) == [a, b, c] && [a] + ([b] + ([c] + [d])) == [a, b, c, d]
  {
  }

  /** Three runs, each numbered on its own, numbered together. */
  lemma ThreeRuns(r1: seq<Stmt>, r2: seq<Stmt>, r3: seq<Stmt>, g1: Stmt, g2: Stmt, g3: Stmt,
                  p0: int, p1: int, p2: int, p3: int, jt: JumpTo)
    requires r1 != [] && AllNonEmptyBodies(r1) && TransformPartitionF(r1, jt, p0) == (g1, p1)
    requires r2 != [] && AllNonEmptyBodies(r2) && TransformPartitionF(r2, jt, p1) == (g2, p2)
    requires r3 != [] && AllNonEmptyBodies(r3) && TransformPartitionF(r3, jt, p2) == (g3, p3)
    ensures RunsNumbered([r1, r2, r3], [g1, g2, g3], [p0, p1, p2, p3], jt)
  {
    var ps0: seq<seq<Stmt>>, gs0: seq<Stmt> := [], [];
    assert RunsNumbered(ps0, gs0, [p3], jt);
    NumberedCons(r3, ps0, g3, gs0, p2, [p3], jt);
    NumberedCons(r2, [r3] + ps0, g2, [g3] + gs0, p1, [p2] + [p3], jt);
    NumberedCons(r1, [r2] + ([r3] + ps0), g1, [g2] + ([g3] + gs0), p0, [p1] + ([p2] + [p3]), jt);
    Nest3(r1, r2, r3, r3);
    Nest3(g1, g2, g3, g3);
    Nest3(p0, p1, p2, p3);
  }

  /** Two runs, each numbered on its own, numbered together. */
  lemma TwoRuns(r1: seq<Stmt>, r2: seq<Stmt>, g1: Stmt, g2: Stmt, p0: int, p1: int, p2: int, jt: JumpTo)
    requires r1 != [] && AllNonEmptyBodies(r1) && TransformPartitionF(r1, jt, p0) == (g1, p1)
    requires r2 != [] && AllNonEmptyBodies(r2) && TransformPartitionF(r2, jt, p1) == (g2, p2)
    ensures RunsNumbered([r1, r2], [g1, g2], [p0, p1, p2], jt)
  {
    var ps0: seq<seq<Stmt>>, gs0: seq<Stmt> := [], [];
    assert RunsNumbered(ps0, gs0, [p2], jt);
    NumberedCons(r2, ps0, g2, gs0, p1, [p2], jt);
    NumberedCons(r1, [r2] + ps0, g1, [g2] + gs0, p0, [p1] + [p2], jt);
    Nest3(r1, r2, r2, r2);
    Nest3(g1, g2, g2, g2);
    Nest3(p0, p1, p2, p2);
  }

  /** Six runs, each numbered on its own, numbered together. */
  lemma SixRuns(r1: seq<Stmt>, r2: seq<Stmt>, r3: seq<Stmt>, r4: seq<Stmt>, r5: seq<Stmt>, r6: seq<Stmt>,
                g1: Stmt, g2: Stmt, g3: Stmt, g4: Stmt, g5: Stmt, g6: Stmt,
                p0: int, p1: int, p2: int, p3: int, p4: int, p5: int, p6: int, jt: JumpTo)
    requires r1 != [] && AllNonEmptyBodies(r1) && TransformPartitionF(r1, jt, p0) == (g1, p1)
    requires r2 != [] && AllNonEmptyBodies(r2) && TransformPartitionF(r2, jt, p1) == (g2, p2)
    requires r3 != [] && AllNonEmptyBodies(r3) && TransformPartitionF(r3, jt, p2) == (g3, p3)
    requires r4 != [] && AllNonEmptyBodies(r4) && TransformPartitionF(r4, jt, p3) == (g4, p4)
    requires r5 != [] && AllNonEmptyBodies(r5) && TransformPartitionF(r5, jt, p4) == (g5, p5)
    requires r6 != [] && AllNonEmptyBodies(r6) && TransformPartitionF(r6, jt, p5) == (g6, p6)
    ensures RunsNumbered([r1, r2, r3, r4, r5, r6], [g1, g2, g3, g4, g5, g6], [p0, p1, p2, p3, p4, p5, p6], jt)
  {
    var ps0: seq<seq<Stmt>>, gs0: seq<Stmt> := [], [];
    assert RunsNumbered(ps0, gs0, [p6], jt);
    NumberedCons(r6, ps0, g6, gs0, p5, [p6], jt);
    NumberedCons(r5, [r6] + ps0, g5, [g6] + gs0, p4, [p5] + [p6], jt);
    NumberedCons(r4, [r5] + ([r6] + ps0), g4, [g5] + ([g6] + gs0), p3, [p4] + ([p5] + [p6]), jt);
    NumberedCons(r3, [r4] + ([r5] + ([r6] + ps0)), g3, [g4] + ([g5] + ([g6] + gs0)),
      p2, [p3] + ([p4] + ([p5] + [p6])), jt);
    NumberedCons(r2, [r3] + ([r4] + ([r5] + ([r6] + ps0))), g2, [g3] + ([g4] + ([g5] + ([g6] + gs0))),
      p1, [p2] + ([p3] + ([p4] + ([p5] + [p6]))), jt);
    NumberedCons(r1, [r2] + ([r3] + ([r4] + ([r5] + ([r6] + ps0)))), g1, [g2] + ([g3] + ([g4] + ([g5] + ([g6] + gs0)))),
      p0, [p1] + ([p2] + ([p3] + ([p4] + ([p5] + [p6])))), jt);
    Nest6(r1, r2, r3, r4, r5, r6, r6);
    Nest6(g1, g2, g3, g4, g5, g6, g6);
    Nest6(p0, p1, p2, p3, p4, p5, p6);
  }

  lemma Snoc4<T>(a: T, b: T, c: T, d: T)
    ensures [a, b, c] + [d] == [a, b, c, d]
  {
  }

  /** The runs of `bar`'s body, given the guards of the loop's and the `if`'s runs. */
  lemma BarRuns(s1: Stmt, s2: Stmt, w: Stmt, i: Stmt, s5: Stmt, s6: Stmt, s7: Stmt, gw: Stmt, gi: Stmt, jt: JumpTo)
    requires Plain(s1) && Plain(s2) && Plain(s5) && Plain(s6) && Plain(s7)
    requires AllNonEmptyBodies([w]) && TransformPartitionF([w], jt, 2) == (gw, 5)
    requires AllNonEmptyBodies([i]) && TransformPartitionF([i], jt, 5) == (gi, 7)
    ensures RunsNumbered([[s1], [s2], [w], [i], [s5], [s6, s7]],
      [Guard(0, 1, [s1, PcAssign(1)]), Guard(1, 2, [s2, PcAssign(2)]), gw, gi,
       Guard(7, 8, [s5, PcAssign(8)]), Guard(8, 9, [s6, s7, PcAssign(9)])], [0, 1, 2, 5, 7, 8, 9], jt)
  {
    PartOne(s1, jt, 0);
    PartOne(s2, jt, 1);
    PartOne(s5, jt, 7);
    PartTwo(s6, s7, jt, 8);
    SixRuns([s1], [s2], [w], [i], [s5], [s6, s7], Guard(0, 1, [s1, PcAssign(1)]), Guard(1, 2, [s2, PcAssign(2)]),
      gw, gi, Guard(7, 8, [s5, PcAssign(8)]), Guard(8, 9, [s6, s7, PcAssign(9)]), 0, 1, 2, 5, 7, 8, 9, jt);
  }

  /** The run holding `bar`'s `while` loop, numbered from 2. */
  lemma BarLoopGuard(t: Expr, p: Stmt, b1: Stmt, b2: Stmt)
    requires p.ExprStmt? && b1.Assign? && b2.Assign?
    ensures NonEmptyBodies(While(t, [p, b1, b2], [])) && HasJumpTo(While(t, [p, b1, b2], []), IsAssign)
    ensures AllNonEmptyBodies([While(t, [p, b1, b2], [])])
    ensures TransformPartitionF([While(t, [p, b1, b2], [])], IsAssign, 2)
      == (Guard(2, 5, [While(t, [Guard(2, 3, [p, PcAssign(3)]), Guard(3, 4, [b1, PcAssign(4)]),
                                 Guard(4, 5, [b2, PcAssign(5)]), PcAssign(2)], []), PcAssign(5)]), 5)
  {
    var jt: JumpTo := IsAssign;
    var w := While(t, [p, b1, b2], []);
    var g2, g3, g4 := Guard(2, 3, [p, PcAssign(3)]), Guard(3, 4, [b1, PcAssign(4)]), Guard(4, 5, [b2, PcAssign(5)]);
    WhileBody(p, b1, b2, jt, 2);
    Snoc4(g2, g3, g4, PcAssign(2));
    WhilePart(w, jt, 2, [g2, g3, g4], 5);
    assert HasJumpTo(w, jt) by {
      assert w.body[1] == b1;
    }
  }

  /** The run holding `bar`'s `if`, numbered from 5. */
  lemma BarIfGuard(c: Expr, d1: Stmt, d2: Stmt)
    requires d1.Assign? && d2.Assign?
    ensures NonEmptyBodies(If(c, [d1, d2], [])) && HasJumpTo(If(c, [d1, d2], []), IsAssign)
    ensures AllNonEmptyBodies([If(c, [d1, d2], [])])
    ensures TransformPartitionF([If(c, [d1, d2], [])], IsAssign, 5)
      == (Guard(5, 7, [If(c, [Guard(5, 6, [d1, PcAssign(6)]), Guard(6, 7, [d2, PcAssign(7)])], []), PcAssign(7)]), 7)
  {
    var jt: JumpTo := IsAssign;
    var i := If(c, [d1, d2], []);
    IfBody(d1, d2, jt, 5);
    IfPart(i, jt, 5, [Guard(5, 6, [d1, PcAssign(6)]), Guard(6, 7, [d2, PcAssign(7)])], 7);
    assert HasJumpTo(i, jt) by {
      assert i.body[0] == d1;
    }
  }

  /** `insert_jumps(bar.body, lambda stmt: isinstance(stmt, ast.Assign))`
      numbers the runs 0, 1, [2, 5), [5, 7), 7 and 8; the loop's body uses
      pcs 2 to 4 and jumps back to 2, the `if`'s body uses 5 and 6; the
      next free pc is 9. */
  lemma GoldenBar(s1: Stmt, s2: Stmt, t: Expr, p: Stmt, b1: Stmt, b2: Stmt,
                  c: Expr, d1: Stmt, d2: Stmt, s5: Stmt, s6: Stmt, s7: Stmt)
    requires s1.For? && NonEmptyBodies(s1) && p.ExprStmt? && s7.Return?
    requires s2.Assign? && b1.Assign? && b2.Assign? && d1.Assign? && d2.Assign? && s5.Assign? && s6.Assign?
    ensures AllNonEmptyBodies([s1, s2, While(t, [p, b1, b2], []), If(c, [d1, d2], []), s5, s6, s7])
    ensures InsertJumpsF([s1, s2, While(t, [p, b1, b2], []), If(c, [d1, d2], []), s5, s6, s7], IsAssign, 0)
         == ([Guard(0, 1, [s1, PcAssign(1)]),
              Guard(1, 2, [s2, PcAssign(2)]),
              Guard(2, 5, [While(t, [Guard(2, 3, [p, PcAssign(3)]), Guard(3, 4, [b1, PcAssign(4)]),
                                     Guard(4, 5, [b2, PcAssign(5)]), PcAssign(2)], []), PcAssign(5)]),
              Guard(5, 7, [If(c, [Guard(5, 6, [d1, PcAssign(6)]), Guard(6, 7, [d2, PcAssign(7)])], []), PcAssign(7)]),
              Guard(7, 8, [s5, PcAssign(8)]),
              Guard(8, 9, [s6, s7, PcAssign(9)])], 9)
  {
    BarLoopGuard(t, p, b1, b2);
    BarIfGuard(c, d1, d2);
    BarNumbering(s1, s2, While(t, [p, b1, b2], []), If(c, [d1, d2], []), s5, s6, s7,
      Guard(2, 5, [While(t, [Guard(2, 3, [p, PcAssign(3)]), Guard(3, 4, [b1, PcAssign(4)]),
                             Guard(4, 5, [b2, PcAssign(5)]), PcAssign(2)], []), PcAssign(5)]),
      Guard(5, 7, [If(c, [Guard(5, 6, [d1, PcAssign(6)]), Guard(6, 7, [d2, PcAssign(7)])], []), PcAssign(7)]),
      IsAssign);
  }
}
