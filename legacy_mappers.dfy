/** The top-level `mappers.py`, the older generation of `src/mappers.py`.
    Its `promote_to_temporary_m`, `for_to_while_m` and `lift_to_frame_m`
    are the same code as in `src/mappers.py` and are `Mappers.PromoteToTemporaryM`,
    `Mappers.ForToWhile` and `Mappers.LiftToFrame`. Two mappers differ:
    `promote_while_cond_m` promotes every loop test, a plain name included,
    and `remove_trivial_m` drops the recorded last assignment of every
    temporary the finder reports, without comparing it with the first. */
module LegacyMappers {
  import opened Wrappers
  import opened PyAst
  import opened Utils
  import opened Expressions
  import opened Mappers

  // ---------------------------------------------------------------------
  // promote_while_cond_m
  // ---------------------------------------------------------------------

  /** The legacy `promote_while_cond_m`: every `while test: body else:
      orelse` becomes `c = test; while c: body + [c = test] else: orelse`. */
  function PromoteWhileCondAlways(s: Stmt, it: NameIter): (r: (seq<Stmt>, NameIter))
  {
    if !s.While? then ([s], it)
    else
      var (c, it') := Next(it);
      var testAssign := MakeAssign(c, s.test);
      ([testAssign, While(Lookup(c), s.body + [testAssign], s.orelse)], it')
  }

  /** On a loop whose test is not a plain name, and on every statement that
      is not a loop, the two generations agree. */
  lemma PromoteWhileCondAgrees(s: Stmt, it: NameIter)
    requires !(s.While? && s.test.Name?)
    ensures PromoteWhileCondAlways(s, it) == PromoteWhileCond(s, it)
  {
  }

  /** On a loop that already tests a name, the legacy mapper still spends a
      fresh name and copies the test, where `src/mappers.py` keeps the loop. */
  lemma PromoteWhileCondNameTest(s: Stmt, it: NameIter)
    requires s.While? && s.test.Name?
    ensures PromoteWhileCond(s, it) == ([s], it)
    ensures var c := DunderName(it.prefix, it.count);
      PromoteWhileCondAlways(s, it)
      == ([MakeAssign(c, s.test), While(Lookup(c), s.body + [MakeAssign(c, s.test)], s.orelse)], After(it, 1))
  {
  }

  /** So the legacy mapper is not idempotent: applied to its own output loop
      it wraps it again, with a second name. */
  lemma PromoteWhileCondAlwaysNotIdempotent(test: Expr, body: seq<Stmt>, orelse: seq<Stmt>, it: NameIter)
    ensures var out := PromoteWhileCondAlways(While(test, body, orelse), it);
      |out.0| == 2 && |PromoteWhileCondAlways(out.0[1], out.1).0| == 2
  {
  }

  lemma PromoteWhileCondAlwaysSound()
    ensures KeepsDepth(PromoteWhileCondAlways) && EndsWithBody(PromoteWhileCondAlways, InnerScopes)
  {
    forall s: Stmt, it: NameIter, k | 0 <= k < |PromoteWhileCondAlways(s, it).0|
      ensures Depth(PromoteWhileCondAlways(s, it).0[k]) <= Depth(s)
    {
      if s.While? && k == 1 {
        var r := PromoteWhileCondAlways(s, it).0;
        MaxDepthAppend(s.body, [r[0]]);
        assert MaxDepth([r[0]]) == 0 by {
          assert [r[0]][..0] == [];
        }
      }
    }
  }

  lemma PromoteWhileCondAlwaysEstablishes()
    ensures Establishes(PromoteWhileCondAlways, InnerScopes, TestsName) && BodyBlind(TestsName)
  {
    forall s: Stmt, it: NameIter, k | 0 <= k < |PromoteWhileCondAlways(s, it).0|
      ensures TestsName(PromoteWhileCondAlways(s, it).0[k])
      ensures InnerScopes(PromoteWhileCondAlways(s, it).0[k]) ==> InnerScopes(s) && k == |PromoteWhileCondAlways(s, it).0| - 1
    {
    }
  }

  /** `map_scope` with the legacy mapper: like `Mappers.MapPromoteWhileCond`,
      it never fails and every `while` loop, recursively, tests a plain name. */
  function MapPromoteWhileCondAlways(scope: Stmt, it: NameIter): (r: (Stmt, NameIter))
    requires HasBody(scope)
    ensures HasBody(r.0) && r.0 == WithBody(scope, r.0.body)
    ensures Everywhere(r.0.body, TestsName, InnerScopes)
  {
    PromoteWhileCondAlwaysSound();
    FmapSucceeds(scope, PromoteWhileCondAlways, InnerScopes, it);
    PromoteWhileCondAlwaysEstablishes();
    FmapEverywhere(scope, PromoteWhileCondAlways, InnerScopes, TestsName, it);
    var (res, it') := Fmap(scope, PromoteWhileCondAlways, InnerScopes, it);
    (res.value, it')
  }

  // ---------------------------------------------------------------------
  // remove_trivial_m
  // ---------------------------------------------------------------------

  /** The precomputation of the legacy `remove_trivial_m`, given the map
      `find_last_assignments` returns for the temporaries
      `trivial_temporaries` reports: every recorded assignment is dropped and
      replaces the loads of its temporary. The mapper is
      `Mappers.RemoveTrivial` of this plan. */
  function LegacyPlan(assignments: map<string, Stmt>): (plan: TrivialPlan)
    ensures plan.toReplace == assignments
    ensures forall s :: s in plan.dropped <==> exists t :: t in assignments && assignments[t] == s
  {
    TrivialPlan(assignments.Values, assignments)
  }

  /** When every candidate has one assignment, which both finders record,
      the two generations plan the same removal. */
  lemma LegacyPlanAgrees(candidates: set<string>, first: map<string, Stmt>, last: map<string, Stmt>)
    requires last.Keys == candidates && candidates <= first.Keys
    requires forall t | t in candidates :: first[t] == last[t]
    ensures PlanTrivial(candidates, first, last) == Ok(LegacyPlan(last))
  {
    var plan := PlanTrivial(candidates, first, last).value;
    assert plan.toReplace == last;
    forall s ensures s in plan.dropped <==> s in last.Values {
      if s in last.Values {
        var t :| t in last && last[t] == s;
      }
    }
    assert plan.dropped == last.Values;
    assert plan == LegacyPlan(last);
  }

  /** If `trivial_temporaries` reports a name that is assigned twice, the
      legacy plan still drops its last assignment, while `src/mappers.py`
      keeps both. Whether that helper can report such a name is not part of
      this model. */
  lemma LegacyPlanDropsReassigned(first: Stmt, last: Stmt, it: NameIter)
    requires first != last
    ensures RemoveTrivial(LegacyPlan(map["t" := last]))(last, it) == ([], it)
    ensures RemoveTrivial(PlanTrivial({"t"}, map["t" := first], map["t" := last]).value)(last, it) == ([last], it)
  {
    assert map["t" := last]["t"] == last;
    assert last in LegacyPlan(map["t" := last]).dropped;
    GoldenRemoveTrivialReassigned(first, last, it);
  }
}
