/** The partitioner (`src/jumps.py`): splits a statement list into runs that
    start at resumable statements, and wraps each run in a guard on the
    program-counter variable, numbering the runs depth first. */
module Jumps {
  import opened Wrappers
  import opened PyAst
  import opened Utils

  const PC_LOCAL_NAME: string := "__pc"

  /** Which statements execution must be able to resume at. */
  type JumpTo = Stmt -> bool

  predicate IsSupportedJumpBlock(s: Stmt) {
    s.While? || s.If?
  }

  /** `has_jump_to`: the statement is a target, or it is an `if`/`while`
      whose `body` (never its `orelse`) holds one. */
  predicate HasJumpTo(s: Stmt, jt: JumpTo)
    decreases s
  {
    jt(s) || (IsSupportedJumpBlock(s) && exists i | 0 <= i < |s.body| :: HasJumpTo(s.body[i], jt))
  }

  /** `block_has_jump_to`. */
  predicate BlockHasJumpTo(block: Stmt, jt: JumpTo)
    requires HasBody(block)
  {
    exists i | 0 <= i < |block.body| :: HasJumpTo(block.body[i], jt)
  }

  // ---------------------------------------------------------------------
  // An independent reading of has_jump_to: a path of body indices
  // ---------------------------------------------------------------------

  /** A path that descends only through the bodies of `if` and `while`. */
  predicate BodyPath(s: Stmt, p: seq<nat>)
    decreases |p|
  {
    p == [] || (IsSupportedJumpBlock(s) && p[0] < |s.body| && BodyPath(s.body[p[0]], p[1..]))
  }

  function At(s: Stmt, p: seq<nat>): Stmt
    requires BodyPath(s, p)
    decreases |p|
  {
    if p == [] then s else At(s.body[p[0]], p[1..])
  }

  /** `has_jump_to` holds exactly when some statement reached from `s`
      through `if`/`while` bodies is a target. */
  lemma HasJumpToByPath(s: Stmt, jt: JumpTo)
    ensures HasJumpTo(s, jt) <==> exists p :: BodyPath(s, p) && jt(At(s, p))
  {
    if HasJumpTo(s, jt) {
      var p := PathToJump(s, jt);
    }
    if exists p :: BodyPath(s, p) && jt(At(s, p)) {
      var p :| BodyPath(s, p) && jt(At(s, p));
      JumpOnPath(s, p, jt);
    }
  }

  /** A target found by `has_jump_to` lies on a body path. */
  lemma {:induction false} PathToJump(s: Stmt, jt: JumpTo) returns (p: seq<nat>)
    requires HasJumpTo(s, jt)
    ensures BodyPath(s, p) && jt(At(s, p))
    decreases s
  {
    if jt(s) {
      p := [];
    } else {
      var i :| 0 <= i < |s.body| && HasJumpTo(s.body[i], jt);
      var q := PathToJump(s.body[i], jt);
      p := [i] + q;
      assert p[1..] == q;
    }
  }

  /** A target on a body path is found by `has_jump_to`. */
  lemma {:induction false} JumpOnPath(s: Stmt, p: seq<nat>, jt: JumpTo)
    requires BodyPath(s, p) && jt(At(s, p))
    ensures HasJumpTo(s, jt)
    decreases |p|
  {
    if p != [] {
      JumpOnPath(s.body[p[0]], p[1..], jt);
    }
  }

  // ---------------------------------------------------------------------
  // partition_stmts
  // ---------------------------------------------------------------------

  function Flatten(parts: seq<seq<Stmt>>): seq<Stmt> {
    if parts == [] then [] else Flatten(parts[..|parts| - 1]) + parts[|parts| - 1]
  }

  /** The shape `partition_stmts` promises: the runs concatenate back to the
      input; every run after the first starts with a statement that has a
      jump target, and no other statement of any run has one. */
  ghost predicate IsPartition(parts: seq<seq<Stmt>>, stmts: seq<Stmt>, jt: JumpTo) {
    && |parts| >= 1
    && Flatten(parts) == stmts
    && (forall k | 1 <= k < |parts| :: parts[k] != [])
    && (forall k, j | 0 <= k < |parts| && 0 <= j < |parts[k]| ::
          HasJumpTo(parts[k][j], jt) <==> (k > 0 && j == 0))
  }

  /** The runs `partition_stmts` yields, as a function. */
  function Partition(stmts: seq<Stmt>, jt: JumpTo): (parts: seq<seq<Stmt>>)
    ensures |parts| >= 1
    decreases |stmts|
  {
    if stmts == [] then [[]]
    else
      var ps := Partition(stmts[..|stmts| - 1], jt);
      var s := stmts[|stmts| - 1];
      if HasJumpTo(s, jt) then ps + [[s]]
      else ps[..|ps| - 1] + [ps[|ps| - 1] + [s]]
  }

  lemma FlattenSnoc(parts: seq<seq<Stmt>>, last: seq<Stmt>)
    ensures Flatten(parts + [last]) == Flatten(parts) + last
  {
    assert (parts + [last])[..|parts|] == parts;
  }

  lemma {:induction false} PartitionIsPartition(stmts: seq<Stmt>, jt: JumpTo)
    ensures IsPartition(Partition(stmts, jt), stmts, jt)
    decreases |stmts|
  {
    if stmts != [] {
      var init := stmts[..|stmts| - 1];
      var s := stmts[|stmts| - 1];
      PartitionIsPartition(init, jt);
      assert init + [s] == stmts;
      if HasJumpTo(s, jt) {
        PartitionSnocTarget(Partition(init, jt), init, s, jt);
      } else {
        PartitionSnocPlain(Partition(init, jt), init, s, jt);
      }
    }
  }

  /** A target statement opens a new run. */
  lemma PartitionSnocTarget(ps: seq<seq<Stmt>>, init: seq<Stmt>, s: Stmt, jt: JumpTo)
    requires IsPartition(ps, init, jt) && HasJumpTo(s, jt)
    ensures IsPartition(ps + [[s]], init + [s], jt)
  {
    FlattenSnoc(ps, [s]);
    var r := ps + [[s]];
    forall k, j | 0 <= k < |r| && 0 <= j < |r[k]|
      ensures HasJumpTo(r[k][j], jt) <==> (k > 0 && j == 0)
    {
      if k < |ps| {
        assert r[k] == ps[k];
      }
    }
  }

  /** Any other statement extends the current run. */
  lemma PartitionSnocPlain(ps: seq<seq<Stmt>>, init: seq<Stmt>, s: Stmt, jt: JumpTo)
    requires IsPartition(ps, init, jt) && !HasJumpTo(s, jt)
    ensures IsPartition(ps[..|ps| - 1] + [ps[|ps| - 1] + [s]], init + [s], jt)
  {
    var front, lastRun := ps[..|ps| - 1], ps[|ps| - 1];
    assert ps == front + [lastRun];
    FlattenSnoc(front, lastRun);
    FlattenSnoc(front, lastRun + [s]);
    var r := front + [lastRun + [s]];
    forall k, j | 0 <= k < |r| && 0 <= j < |r[k]|
      ensures HasJumpTo(r[k][j], jt) <==> (k > 0 && j == 0)
    {
      if k < |r| - 1 {
        assert r[k] == ps[k];
      } else if j < |lastRun| {
        assert r[k][j] == ps[k][j];
      }
    }
  }

  /** `partition_stmts`, as the loop that accumulates `current`. */
  method PartitionStmts(stmts: seq<Stmt>, jt: JumpTo) returns (parts: seq<seq<Stmt>>)
    ensures IsPartition(parts, stmts, jt)
    ensures parts == Partition(stmts, jt)
  {
    parts := [];
    var current: seq<Stmt> := [];
    var i := 0;
    while i < |stmts|
      invariant 0 <= i <= |stmts|
      invariant parts + [current] == Partition(stmts[..i], jt)
    {
      assert stmts[..i + 1][..i] == stmts[..i];
      ghost var ps := parts + [current];
      assert ps[..|ps| - 1] == parts;
      assert Partition(stmts[..i + 1], jt) ==
        if HasJumpTo(stmts[i], jt) then ps + [[stmts[i]]]
        else ps[..|ps| - 1] + [ps[|ps| - 1] + [stmts[i]]];
      assert ps[|ps| - 1] == current;
      if HasJumpTo(stmts[i], jt) {
        parts := parts + [current];
        current := [stmts[i]];
        assert parts + [current] == ps + [[stmts[i]]];
      } else {
        current := current + [stmts[i]];
        assert parts + [current] == ps[..|ps| - 1] + [ps[|ps| - 1] + [stmts[i]]];
      }
      i := i + 1;
    }
    parts := parts + [current];
    assert stmts[..i] == stmts;
    PartitionIsPartition(stmts, jt);
  }

  lemma PartitionElements(stmts: seq<Stmt>, jt: JumpTo, k: nat)
    requires k < |Partition(stmts, jt)|
    ensures forall j | 0 <= j < |Partition(stmts, jt)[k]| :: Partition(stmts, jt)[k][j] in stmts
    decreases |stmts|
  {
    if stmts != [] {
      var ps := Partition(stmts[..|stmts| - 1], jt);
      if k < |ps| {
        PartitionElements(stmts[..|stmts| - 1], jt, k);
      } else {
        PartitionElements(stmts[..|stmts| - 1], jt, k - 1);
      }
    }
  }

  lemma PartitionDepth(stmts: seq<Stmt>, jt: JumpTo, k: nat)
    requires k < |Partition(stmts, jt)|
    ensures MaxDepth(Partition(stmts, jt)[k]) <= MaxDepth(stmts)
  {
    var part := Partition(stmts, jt)[k];
    PartitionElements(stmts, jt, k);
    MaxDepthBounds(stmts);
    forall j | 0 <= j < |part| ensures Depth(part[j]) <= MaxDepth(stmts) {
      var m :| 0 <= m < |stmts| && stmts[m] == part[j];
    }
    MaxDepthBelow(part, MaxDepth(stmts));
  }

  // ---------------------------------------------------------------------
  // make_range_test and its decoder
  // ---------------------------------------------------------------------

  function PcConst(pc: int): Expr {
    Const(LInt(pc))
  }

  /** `__pc = pc`. */
  function PcAssign(pc: int): Stmt {
    MakeAssign(PC_LOCAL_NAME, PcConst(pc))
  }

  /** `make_range_test(start, end)`: `__pc == start` for a one-value range,
      `start <= __pc < end` otherwise. */
  function MakeRangeTest(start: int, end: int): (e: Expr)
    ensures e.Compare?
    ensures start + 1 == end <==> e.ops == [Eq]
  {
    if start + 1 == end then Compare(Lookup(PC_LOCAL_NAME), [Eq], [PcConst(start)])
    else Compare(PcConst(start), [LtE, Lt], [Lookup(PC_LOCAL_NAME), PcConst(end)])
  }

  /** Reads back the range a guard produced by `make_range_test` tests. */
  function RangeOf(e: Expr): Option<(int, int)> {
    if e.Compare? && e.ops == [Eq] && e.left == Lookup(PC_LOCAL_NAME)
       && |e.comparators| == 1 && e.comparators[0].Const? && e.comparators[0].lit.LInt?
    then var a := e.comparators[0].lit.i; Some((a, a + 1))
    else if e.Compare? && e.ops == [LtE, Lt] && e.left.Const? && e.left.lit.LInt?
       && |e.comparators| == 2 && e.comparators[0] == Lookup(PC_LOCAL_NAME)
       && e.comparators[1].Const? && e.comparators[1].lit.LInt?
    then Some((e.left.lit.i, e.comparators[1].lit.i))
    else None
  }

  /** Every range test reads back as the range it was made for. */
  lemma RangeTestRoundTrip(start: int, end: int)
    ensures RangeOf(MakeRangeTest(start, end)) == Some((start, end))
  {
  }

  /** A guard `if <range test>: body` with no else branch. */
  predicate IsGuard(g: Stmt, start: int, end: int) {
    g.If? && g.orelse == [] && RangeOf(g.test) == Some((start, end))
  }

  /** The guards cover `[start, end)` in order, each range non-empty and
      each starting where the previous one ended. */
  predicate Contiguous(guards: seq<Stmt>, start: int, end: int)
    decreases |guards|
  {
    if guards == [] then start == end
    else
      var g := guards[0];
      && g.If? && g.orelse == [] && RangeOf(g.test).Some?
      && RangeOf(g.test).value.0 == start
      && start < RangeOf(g.test).value.1
      && Contiguous(guards[1..], RangeOf(g.test).value.1, end)
  }

  lemma {:induction false} ContiguousBounds(guards: seq<Stmt>, start: int, end: int)
    requires Contiguous(guards, start, end)
    ensures start <= end
    ensures guards != [] ==> start < end
    decreases |guards|
  {
    if guards != [] {
      ContiguousBounds(guards[1..], RangeOf(guards[0].test).value.1, end);
    }
  }

  // ---------------------------------------------------------------------
  // transform_if, transform_while, transform_partition, insert_jumps
  // ---------------------------------------------------------------------

  /** `insert_jumps(stmts, jt, start)`: the guarded runs and the next free pc. */
  function InsertJumpsF(stmts: seq<Stmt>, jt: JumpTo, start: int): (r: (seq<Stmt>, int))
    requires AllNonEmptyBodies(stmts)
    ensures Contiguous(r.0, start, r.1)
    ensures stmts == [] <==> r.0 == []
    decreases MaxDepth(stmts), 4, 0
  {
    var parts := Partition(stmts, jt);
    PartitionFacts(stmts, jt);
    InsertParts(parts, jt, start, MaxDepth(stmts))
  }

  /** What the runs inherit from the statement list they partition. */
  lemma PartitionFacts(stmts: seq<Stmt>, jt: JumpTo)
    ensures var parts := Partition(stmts, jt);
      && (forall k | 0 <= k < |parts| :: MaxDepth(parts[k]) <= MaxDepth(stmts))
      && (AllNonEmptyBodies(stmts) ==> forall k | 0 <= k < |parts| :: AllNonEmptyBodies(parts[k]))
      && (stmts == [] <==> forall k | 0 <= k < |parts| :: parts[k] == [])
  {
    var parts := Partition(stmts, jt);
    PartitionIsPartition(stmts, jt);
    forall k | 0 <= k < |parts|
      ensures MaxDepth(parts[k]) <= MaxDepth(stmts)
      ensures AllNonEmptyBodies(stmts) ==> AllNonEmptyBodies(parts[k])
    {
      PartitionDepth(stmts, jt, k);
      PartitionElements(stmts, jt, k);
    }
    FlattenNonEmpty(parts, stmts, jt);
  }

  lemma FlattenNonEmpty(parts: seq<seq<Stmt>>, stmts: seq<Stmt>, jt: JumpTo)
    requires IsPartition(parts, stmts, jt)
    ensures stmts == [] <==> forall k | 0 <= k < |parts| :: parts[k] == []
  {
    FlattenEmpty(parts);
  }

  lemma {:induction false} FlattenEmpty(parts: seq<seq<Stmt>>)
    ensures Flatten(parts) == [] <==> forall k | 0 <= k < |parts| :: parts[k] == []
    decreases |parts|
  {
    if parts != [] {
      FlattenEmpty(parts[..|parts| - 1]);
      assert forall k | 0 <= k < |parts| - 1 :: parts[..|parts| - 1][k] == parts[k];
    }
  }

  /** The loop of `insert_jumps` over the runs: empty runs are skipped. */
  function InsertParts(parts: seq<seq<Stmt>>, jt: JumpTo, next: int, ghost d: nat): (r: (seq<Stmt>, int))
    requires forall k | 0 <= k < |parts| :: MaxDepth(parts[k]) <= d && AllNonEmptyBodies(parts[k])
    ensures Contiguous(r.0, next, r.1)
    ensures (forall k | 0 <= k < |parts| :: parts[k] == []) <==> r.0 == []
    decreases d, 3, |parts|
  {
    if parts == [] then ([], next)
    else if parts[0] == [] then
      assert forall k | 1 <= k < |parts| :: parts[1..][k - 1] == parts[k];
      InsertParts(parts[1..], jt, next, d)
    else
      var (g, n) := TransformPartitionF(parts[0], jt, next);
      var (rest, m) := InsertParts(parts[1..], jt, n, d);
      assert ([g] + rest)[1..] == rest;
      RangeTestRoundTrip(next, n);
      ([g] + rest, m)
  }

  /** `transform_partition(part, jt, next)`: the run wrapped in a guard on
      `[next, end)`, ending with `__pc = end`. */
  function TransformPartitionF(part: seq<Stmt>, jt: JumpTo, next: int): (r: (Stmt, int))
    requires AllNonEmptyBodies(part)
    ensures IsGuard(r.0, next, r.1) && next < r.1
    ensures r.0.test == MakeRangeTest(next, r.1)
    ensures |r.0.body| >= 1 && r.0.body[|r.0.body| - 1] == PcAssign(r.1)
    decreases MaxDepth(part), 2, 0
  {
    var (body, end) := TransformRun(part, jt, next + 1);
    RangeTestRoundTrip(next, end);
    (If(MakeRangeTest(next, end), body + [PcAssign(end)], []), end)
  }

  /** The loop of `transform_partition`: each `if`/`while` of the run is
      renumbered from one below the pc reached so far. */
  function TransformRun(stmts: seq<Stmt>, jt: JumpTo, next: int): (r: (seq<Stmt>, int))
    requires AllNonEmptyBodies(stmts)
    ensures next <= r.1
    ensures |r.0| == |stmts|
    decreases MaxDepth(stmts), 1, |stmts|
  {
    if stmts == [] then ([], next)
    else
      var s := stmts[0];
      MaxDepthBounds(stmts);
      assert MaxDepth(stmts[1..]) <= MaxDepth(stmts) by {
        assert forall k | 0 <= k < |stmts| - 1 :: stmts[1..][k] == stmts[k + 1];
        MaxDepthBelow(stmts[1..], MaxDepth(stmts));
      }
      var t := TransformStmt(s, jt, next);
      var rest := TransformRun(stmts[1..], jt, t.1);
      ([t.0] + rest.0, rest.1)
  }

  /** One statement of a run: an `if` or `while` is renumbered from one below
      `next`, anything else is kept. */
  function TransformStmt(s: Stmt, jt: JumpTo, next: int): (r: (Stmt, int))
    requires NonEmptyBodies(s)
    ensures next <= r.1
    decreases Depth(s), 0, 1
  {
    if s.If? then TransformIfF(s, jt, next - 1)
    else if s.While? then TransformWhileF(s, jt, next - 1)
    else (s, next)
  }

  /** `transform_if`: the body renumbered from `next`; test and `orelse` kept. */
  function TransformIfF(s: Stmt, jt: JumpTo, next: int): (r: (Stmt, int))
    requires s.If? && NonEmptyBodies(s)
    ensures r.0.If? && r.0.test == s.test && r.0.orelse == s.orelse
    ensures Contiguous(r.0.body, next, r.1)
    ensures next < r.1
    decreases Depth(s), 0, 0
  {
    var (body, n) := InsertJumpsF(s.body, jt, next);
    ContiguousBounds(body, next, n);
    (If(s.test, body, s.orelse), n)
  }

  /** `transform_while`: the body renumbered from `next`, then `__pc = next`
      appended so that every iteration starts at the loop's first pc. */
  function TransformWhileF(s: Stmt, jt: JumpTo, next: int): (r: (Stmt, int))
    requires s.While? && NonEmptyBodies(s)
    ensures r.0.While? && r.0.test == s.test && r.0.orelse == s.orelse
    ensures |r.0.body| >= 1 && r.0.body[|r.0.body| - 1] == PcAssign(next)
    ensures Contiguous(r.0.body[..|r.0.body| - 1], next, r.1)
    ensures next < r.1
    decreases Depth(s), 0, 0
  {
    var (body, n) := InsertJumpsF(s.body, jt, next);
    ContiguousBounds(body, next, n);
    assert (body + [PcAssign(next)])[..|body|] == body;
    (While(s.test, body + [PcAssign(next)], s.orelse), n)
  }

  // ---------------------------------------------------------------------
  // The numbering, statement by statement
  // ---------------------------------------------------------------------

  /** `t` is `s` renumbered with its body's guards on `[from, to)`: an `if`
      keeps its test and `orelse`; a `while` also ends its body with
      `__pc = from`; any other statement is kept as it is. */
  predicate Renumbered(s: Stmt, t: Stmt, from: int, to: int) {
    if s.If? then
      t.If? && t.test == s.test && t.orelse == s.orelse && Contiguous(t.body, from, to)
    else if s.While? then
      && t.While? && t.test == s.test && t.orelse == s.orelse
      && |t.body| >= 1 && t.body[|t.body| - 1] == PcAssign(from)
      && Contiguous(t.body[..|t.body| - 1], from, to)
    else t == s
  }

  /** An `if` or `while` takes the pcs from one below `next` up to the pc it
      returns; any other statement is kept and takes none. */
  lemma TransformStmtRenumbers(s: Stmt, jt: JumpTo, next: int)
    requires NonEmptyBodies(s)
    ensures var r := TransformStmt(s, jt, next);
      Renumbered(s, r.0, next - 1, r.1) && (!s.If? && !s.While? ==> r.1 == next)
  {
  }

  /** The pcs a run from `next` reaches: before its first statement, then
      after each statement in turn. */
  function RunPcs(stmts: seq<Stmt>, jt: JumpTo, next: int): (ps: seq<int>)
    requires AllNonEmptyBodies(stmts)
    ensures |ps| == |stmts| + 1 && ps[0] == next
    decreases |stmts|
  {
    if stmts == [] then [next]
    else
      assert forall i | 0 <= i < |stmts| - 1 :: stmts[1..][i] == stmts[i + 1];
      [next] + RunPcs(stmts[1..], jt, TransformStmt(stmts[0], jt, next).1)
  }

  /** The `k`-th statement of a run, as `transform_partition`'s loop leaves
      it in `out`: renumbered from one below the pc `ps[k]` reached by the
      statements before it, up to the pc `ps[k + 1]` reached with it; one
      that is no `if`/`while` is kept in place and takes no pc. */
  predicate RenumberedAt(stmts: seq<Stmt>, out: seq<Stmt>, ps: seq<int>, k: nat)
    requires k < |stmts| && k < |out| && k + 1 < |ps|
  {
    && ps[k] <= ps[k + 1]
    && Renumbered(stmts[k], out[k], ps[k] - 1, ps[k + 1])
    && (!stmts[k].If? && !stmts[k].While? ==> ps[k + 1] == ps[k])
  }

  /** One step of `transform_partition`'s loop: the first statement, then
      the rest of the run from the pc the first one reached. */
  lemma TransformRunCons(stmts: seq<Stmt>, jt: JumpTo, next: int)
    requires AllNonEmptyBodies(stmts) && stmts != []
    ensures AllNonEmptyBodies(stmts[1..])
    ensures var t := TransformStmt(stmts[0], jt, next);
      var rr := TransformRun(stmts[1..], jt, t.1);
      TransformRun(stmts, jt, next) == ([t.0] + rr.0, rr.1)
      && RunPcs(stmts, jt, next) == [next] + RunPcs(stmts[1..], jt, t.1)
  {
    assert forall i | 0 <= i < |stmts| - 1 :: stmts[1..][i] == stmts[i + 1];
  }

  /** The last pc a run reaches is the one `transform_partition`'s loop
      returns. */
  lemma {:induction false} RunPcsEnd(stmts: seq<Stmt>, jt: JumpTo, next: int)
    requires AllNonEmptyBodies(stmts)
    ensures RunPcs(stmts, jt, next)[|stmts|] == TransformRun(stmts, jt, next).1
    decreases |stmts|
  {
    if stmts != [] {
      var t := TransformStmt(stmts[0], jt, next);
      TransformRunCons(stmts, jt, next);
      RunPcsEnd(stmts[1..], jt, t.1);
    }
  }

  lemma RenumberedAtCons(s: Stmt, t: Stmt, p: int, stmts: seq<Stmt>, out: seq<Stmt>, ps: seq<int>, k: nat)
    requires 0 < k && k - 1 < |stmts| && k - 1 < |out| && k < |ps|
    requires RenumberedAt(stmts, out, ps, k - 1)
    ensures RenumberedAt([s] + stmts, [t] + out, [p] + ps, k)
  {
    assert ([s] + stmts)[k] == stmts[k - 1];
    assert ([t] + out)[k] == out[k - 1];
    assert ([p] + ps)[k] == ps[k - 1] && ([p] + ps)[k + 1] == ps[k];
  }

  /** `transform_partition`'s loop numbers depth-first: each statement of
      the run is renumbered from one below the pc reached so far, and every
      pc it reaches lies between `next` and the pc the loop returns. */
  lemma {:induction false} TransformRunAt(stmts: seq<Stmt>, jt: JumpTo, next: int, k: nat)
    requires AllNonEmptyBodies(stmts) && k < |stmts|
    ensures var ps := RunPcs(stmts, jt, next);
      && RenumberedAt(stmts, TransformRun(stmts, jt, next).0, ps, k)
      && next <= ps[k] && ps[k + 1] <= TransformRun(stmts, jt, next).1
    decreases |stmts|
  {
    if k == 0 {
      TransformRunFirst(stmts, jt, next);
    } else {
      var t := TransformStmt(stmts[0], jt, next);
      var rest := stmts[1..];
      var rr := TransformRun(rest, jt, t.1);
      assert TransformRun(stmts, jt, next) == ([t.0] + rr.0, rr.1)
        && RunPcs(stmts, jt, next) == [next] + RunPcs(rest, jt, t.1) by {
        TransformRunCons(stmts, jt, next);
      }
      TransformRunAt(rest, jt, t.1, k - 1);
      assert stmts == [stmts[0]] + rest;
      RenumberedAtCons(stmts[0], t.0, next, rest, rr.0, RunPcs(rest, jt, t.1), k);
    }
  }

  /** The first statement of a run is renumbered from one below `next`. */
  lemma TransformRunFirst(stmts: seq<Stmt>, jt: JumpTo, next: int)
    requires AllNonEmptyBodies(stmts) && stmts != []
    ensures var ps := RunPcs(stmts, jt, next);
      && RenumberedAt(stmts, TransformRun(stmts, jt, next).0, ps, 0)
      && next <= ps[0] && ps[1] <= TransformRun(stmts, jt, next).1
  {
    var t := TransformStmt(stmts[0], jt, next);
    assert Renumbered(stmts[0], t.0, next - 1, t.1) && (!stmts[0].If? && !stmts[0].While? ==> t.1 == next) by {
      TransformStmtRenumbers(stmts[0], jt, next);
    }
    var rest := stmts[1..];
    var rr := TransformRun(rest, jt, t.1);
    var qs := RunPcs(rest, jt, t.1);
    assert TransformRun(stmts, jt, next) == ([t.0] + rr.0, rr.1)
      && RunPcs(stmts, jt, next) == [next] + qs by {
      TransformRunCons(stmts, jt, next);
    }
    assert stmts == [stmts[0]] + rest;
    RenumberedAtFirst(stmts[0], t.0, next, rest, rr.0, qs);
  }

  lemma RenumberedAtFirst(s: Stmt, t: Stmt, p: int, stmts: seq<Stmt>, out: seq<Stmt>, ps: seq<int>)
    requires ps != [] && p <= ps[0]
    requires Renumbered(s, t, p - 1, ps[0]) && (!s.If? && !s.While? ==> ps[0] == p)
    ensures RenumberedAt([s] + stmts, [t] + out, [p] + ps, 0)
  {
    assert ([s] + stmts)[0] == s && ([t] + out)[0] == t;
    assert ([p] + ps)[0] == p && ([p] + ps)[1] == ps[0];
  }

  /** The guard `transform_partition` builds holds the run, then
      `__pc = end`; the run's pcs start one above the guard's start pc, so
      a first `if`/`while` is numbered from the guard's own start, and the
      last pc the run reaches is `end`. */
  lemma TransformPartitionEnds(part: seq<Stmt>, jt: JumpTo, next: int)
    requires AllNonEmptyBodies(part)
    ensures var (g, end) := TransformPartitionF(part, jt, next);
      var ps := RunPcs(part, jt, next + 1);
      && |g.body| == |part| + 1 && g.body[|part|] == PcAssign(end)
      && ps[0] - 1 == next && ps[|part|] == end
  {
    RunPcsEnd(part, jt, next + 1);
  }

  /** The `k`-th statement of the guard's body is the `k`-th of the run,
      renumbered depth-first, and its pcs lie inside the guard's range
      `[next, end)`. */
  lemma TransformPartitionAt(part: seq<Stmt>, jt: JumpTo, next: int, k: nat)
    requires AllNonEmptyBodies(part) && k < |part|
    ensures var (g, end) := TransformPartitionF(part, jt, next);
      var ps := RunPcs(part, jt, next + 1);
      && next <= ps[k] - 1 && ps[k + 1] <= end
      && RenumberedAt(part, g.body, ps, k)
  {
    TransformRunAt(part, jt, next + 1, k);
    var (body, end) := TransformRun(part, jt, next + 1);
    var g := TransformPartitionF(part, jt, next).0;
    assert g.body == body + [PcAssign(end)];
    assert g.body[k] == body[k];
  }

  /** A run that opens with an `if` puts that block's guards first in its
      own guard, numbered from the guard's start pc: the inner guard on
      `next` is what resumes at the partition's first pc. */
  lemma FirstBlockAtStart(part: seq<Stmt>, jt: JumpTo, next: int)
    requires AllNonEmptyBodies(part) && part != [] && part[0].If?
    ensures var (g, end) := TransformPartitionF(part, jt, next);
      var inner := RunPcs(part, jt, next + 1)[1];
      && g.body[0].If? && g.body[0].test == part[0].test && g.body[0].orelse == part[0].orelse
      && Contiguous(g.body[0].body, next, inner) && next < inner <= end
  {
    TransformPartitionEnds(part, jt, next);
    TransformPartitionAt(part, jt, next, 0);
    var g := TransformPartitionF(part, jt, next).0;
    ContiguousBounds(g.body[0].body, next, RunPcs(part, jt, next + 1)[1]);
  }

  // ---------------------------------------------------------------------
  // The same passes as the loops that build the new statement lists
  // ---------------------------------------------------------------------

  /** `insert_jumps`: walks the runs of `partition_stmts`, skipping empty ones. */
  method InsertJumps(stmts: seq<Stmt>, jt: JumpTo, startPc: int) returns (newStmts: seq<Stmt>, nextPc: int)
    requires AllNonEmptyBodies(stmts)
    ensures (newStmts, nextPc) == InsertJumpsF(stmts, jt, startPc)
    ensures Contiguous(newStmts, startPc, nextPc)
    decreases MaxDepth(stmts), 4, 1
  {
    var parts := PartitionStmts(stmts, jt);
    PartitionFacts(stmts, jt);
    newStmts, nextPc := InsertPartsLoop(parts, jt, startPc, MaxDepth(stmts));
  }

  /** The loop of `insert_jumps` over the runs. */
  method InsertPartsLoop(parts: seq<seq<Stmt>>, jt: JumpTo, startPc: int, ghost d: nat) returns (newStmts: seq<Stmt>, nextPc: int)
    requires PartsFit(parts, d)
    ensures (newStmts, nextPc) == InsertParts(parts, jt, startPc, d)
    decreases d, 3, 1
  {
    newStmts, nextPc := [], startPc;
    var i := 0;
    ghost var goal := InsertParts(parts, jt, startPc, d);
    assert parts[i..] == parts;
    assert newStmts + goal.0 == goal.0;
    while i < |parts|
      invariant 0 <= i <= |parts|
      invariant PartsFit(parts[i..], d)
      invariant newStmts + InsertParts(parts[i..], jt, nextPc, d).0 == goal.0
      invariant InsertParts(parts[i..], jt, nextPc, d).1 == goal.1
    {
      InsertPartsStep(parts[i..], jt, nextPc, d);
      assert parts[i..][0] == parts[i] && parts[i..][1..] == parts[i + 1..];
      if parts[i] != [] {
        var g;
        ghost var pc0 := nextPc;
        g, nextPc := TransformPartition(parts[i], jt, nextPc);
        ghost var rest := InsertParts(parts[i + 1..], jt, nextPc, d).0;
        assert InsertParts(parts[i..], jt, pc0, d).0 == [g] + rest;
        assert (newStmts + [g]) + rest == newStmts + ([g] + rest);
        newStmts := newStmts + [g];
      }
      i := i + 1;
    }
    assert parts[i..] == [];
    assert InsertParts(parts[i..], jt, nextPc, d) == ([], nextPc);
    assert newStmts == goal.0;
  }

  /** Every run fits under the depth `d` and has non-empty bodies. */
  ghost predicate PartsFit(parts: seq<seq<Stmt>>, d: nat) {
    forall k | 0 <= k < |parts| :: MaxDepth(parts[k]) <= d && AllNonEmptyBodies(parts[k])
  }

  /** One run of `insert_jumps`'s loop: an empty run is skipped, any other
      becomes one guard. */
  lemma InsertPartsStep(parts: seq<seq<Stmt>>, jt: JumpTo, next: int, d: nat)
    requires parts != [] && PartsFit(parts, d)
    ensures PartsFit(parts[1..], d)
    ensures parts[0] == [] ==> InsertParts(parts, jt, next, d) == InsertParts(parts[1..], jt, next, d)
    ensures parts[0] != [] ==>
      var (g, n) := TransformPartitionF(parts[0], jt, next);
      InsertParts(parts, jt, next, d) == ([g] + InsertParts(parts[1..], jt, n, d).0, InsertParts(parts[1..], jt, n, d).1)
  {
    assert forall k | 1 <= k < |parts| :: parts[1..][k - 1] == parts[k];
  }

  /** `transform_partition`: one guard for the run, nested blocks renumbered. */
  method TransformPartition(part: seq<Stmt>, jt: JumpTo, nextPc0: int) returns (guard: Stmt, nextPc: int)
    requires AllNonEmptyBodies(part)
    ensures (guard, nextPc) == TransformPartitionF(part, jt, nextPc0)
    decreases MaxDepth(part), 2, 1
  {
    var body: seq<Stmt> := [];
    var startPc := nextPc0;
    nextPc := nextPc0 + 1;
    MaxDepthBounds(part);
    ghost var goal := TransformRun(part, jt, nextPc0 + 1);
    var i := 0;
    assert part[i..] == part;
    assert body + goal.0 == goal.0;
    while i < |part|
      invariant 0 <= i <= |part|
      invariant body + TransformRun(part[i..], jt, nextPc).0 == goal.0
      invariant TransformRun(part[i..], jt, nextPc).1 == goal.1
    {
      var stmt := part[i];
      assert part[i..][0] == stmt && part[i..][1..] == part[i + 1..];
      var transformed;
      transformed, nextPc := TransformOne(stmt, jt, nextPc);
      body := body + [transformed];
      i := i + 1;
    }
    assert part[i..] == [];
    assert TransformRun(part[i..], jt, nextPc) == ([], nextPc);
    assert body == goal.0;
    var endPc := nextPc;
    body := body + [PcAssign(endPc)];
    guard := If(MakeRangeTest(startPc, endPc), body, []);
  }

  /** The body of the loop in `transform_partition`. */
  method TransformOne(stmt: Stmt, jt: JumpTo, nextPc0: int) returns (transformed: Stmt, nextPc: int)
    requires NonEmptyBodies(stmt)
    ensures (transformed, nextPc) == TransformStmt(stmt, jt, nextPc0)
    decreases Depth(stmt), 0, 2
  {
    transformed, nextPc := stmt, nextPc0;
    if stmt.If? {
      transformed, nextPc := TransformIf(stmt, jt, nextPc - 1);
    } else if stmt.While? {
      transformed, nextPc := TransformWhile(stmt, jt, nextPc - 1);
    }
  }

  /** `transform_if`. */
  method TransformIf(stmt: Stmt, jt: JumpTo, nextPc0: int) returns (r: Stmt, nextPc: int)
    requires stmt.If? && NonEmptyBodies(stmt)
    ensures (r, nextPc) == TransformIfF(stmt, jt, nextPc0)
    decreases Depth(stmt), 0, 1
  {
    var body;
    body, nextPc := InsertJumps(stmt.body, jt, nextPc0);
    r := If(stmt.test, body, stmt.orelse);
  }

  /** `transform_while`: the loop body jumps back to its first pc. */
  method TransformWhile(stmt: Stmt, jt: JumpTo, nextPc0: int) returns (r: Stmt, nextPc: int)
    requires stmt.While? && NonEmptyBodies(stmt)
    ensures (r, nextPc) == TransformWhileF(stmt, jt, nextPc0)
    decreases Depth(stmt), 0, 1
  {
    var firstPc := nextPc0;
    var body;
    body, nextPc := InsertJumps(stmt.body, jt, nextPc0);
    body := body + [PcAssign(firstPc)];
    r := While(stmt.test, body, stmt.orelse);
  }
}
