/** The shape shared by the nested retry loops of app.py:
        for config in client_configs:
            for format_str in format_configs: ...
    where each pass of the inner body ends by returning, by `continue`
    (next selector) or by `break` (next persona). Positions are
    (persona index, selector index) pairs; `step` says how the pass at a
    position ends. */
module RetryWalk {

  /** How one pass of the inner loop body ends. */
  datatype Step = Done | NextSelector | NextPersona

  type Pos = (nat, nat)

  /** The position after a pass that did not return: the next selector
      after `continue`, the first selector of the next persona after `break`
      or after the last selector. */
  function Advance(ns: nat, s: Step, p: Pos): (n: Pos)
    ensures ns == 0 || p.1 < ns ==> ns == 0 || n.1 < ns
  {
    if s == NextSelector && p.1 + 1 < ns then (p.0, p.1 + 1) else (p.0 + 1, 0)
  }

  /** The positions the loops visit from position `p` on, for `np`
      personas and `ns` selectors, up to the first pass that returns. */
  function Walk(np: nat, ns: nat, step: Pos -> Step, p: Pos): seq<Pos>
    requires ns == 0 || p.1 < ns
    decreases np - p.0, ns - p.1
  {
    if ns == 0 || p.0 >= np then []
    else [p] + (if step(p) == Done then [] else Walk(np, ns, step, Advance(ns, step(p), p)))
  }

  /** `break` leads to the next persona's first selector, `continue` to
      where the inner loop stands at the next selector. */
  lemma AdvanceCases(ns: nat, s: Step, i: nat, j: nat)
    requires j < ns
    ensures s == NextPersona ==> Advance(ns, s, (i, j)) == (i + 1, 0)
    ensures s == NextSelector ==> Advance(ns, s, (i, j)) == Start(ns, i, j + 1)
  {
  }

  /** Where the loops stand when the inner loop has reached selector `j`
      of persona `i`: once past the last selector, at the next persona. */
  function Start(ns: nat, i: nat, j: nat): (p: Pos)
    ensures ns == 0 || p.1 < ns
  {
    if j < ns then (i, j) else (i + 1, 0)
  }

  /** Lexicographic order on positions. */
  predicate Before(p: Pos, q: Pos)
  {
    p.0 < q.0 || (p.0 == q.0 && p.1 < q.1)
  }

  predicate AtOrAfter(p: Pos, q: Pos)
  {
    p == q || Before(q, p)
  }

  /** The pass at `A[k]` did not return, and `A[k + 1]` is where its step leads. */
  predicate Linked(ns: nat, step: Pos -> Step, A: seq<Pos>, k: nat)
    requires k + 1 < |A|
  {
    step(A[k]) != Done && A[k + 1] == Advance(ns, step(A[k]), A[k])
  }

  /** A walk whose last pass did not return has run off the end of the persona list. */
  predicate RunsOff(np: nat, ns: nat, step: Pos -> Step, A: seq<Pos>)
  {
    A != [] && step(A[|A| - 1]) != Done ==> Advance(ns, step(A[|A| - 1]), A[|A| - 1]).0 == np
  }

  /** Every position of `A` lies inside the persona x selector space, at or
      after `p`, and the positions strictly increase. */
  predicate Forward(np: nat, ns: nat, A: seq<Pos>, p: Pos)
  {
    (forall k :: 0 <= k < |A| ==> A[k].0 < np && A[k].1 < ns && AtOrAfter(A[k], p)) &&
    (forall k1, k2 :: 0 <= k1 < k2 < |A| ==> Before(A[k1], A[k2]))
  }

  /** The walk is empty exactly when there are no selectors or no personas
      left, and otherwise it begins where it starts. */
  lemma WalkStart(np: nat, ns: nat, step: Pos -> Step, p: Pos)
    requires ns == 0 || p.1 < ns
    ensures var A := Walk(np, ns, step, p);
      (A == [] <==> ns == 0 || p.0 >= np) && (A != [] ==> A[0] == p)
  {
  }

  /** Each visited position after the first is where its predecessor's
      step leads, so only the last pass may return. */
  lemma {:induction false} WalkLinked(np: nat, ns: nat, step: Pos -> Step, p: Pos)
    requires ns == 0 || p.1 < ns
    ensures var A := Walk(np, ns, step, p);
      forall k :: 0 <= k < |A| - 1 ==> Linked(ns, step, A, k)
    decreases np - p.0, ns - p.1
  {
    if ns > 0 && p.0 < np && step(p) != Done {
      var n := Advance(ns, step(p), p);
      WalkLinked(np, ns, step, n);
      WalkStart(np, ns, step, n);
      LinkedCons(ns, step, p, Walk(np, ns, step, n));
    }
  }

  /** A walk that never reaches `Done` runs off the end of the persona list. */
  lemma {:induction false} WalkRunsOff(np: nat, ns: nat, step: Pos -> Step, p: Pos)
    requires ns == 0 || p.1 < ns
    ensures RunsOff(np, ns, step, Walk(np, ns, step, p))
    decreases np - p.0, ns - p.1
  {
    if ns > 0 && p.0 < np && step(p) != Done {
      var n := Advance(ns, step(p), p);
      WalkRunsOff(np, ns, step, n);
      WalkStart(np, ns, step, n);
      RunsOffCons(np, ns, step, p, Walk(np, ns, step, n));
    }
  }

  /** Every visited position lies inside the persona x selector space, at
      or after the first, and no position is visited twice: the walk moves
      strictly forward in lexicographic order. */
  lemma {:induction false} WalkForward(np: nat, ns: nat, step: Pos -> Step, p: Pos)
    requires ns == 0 || p.1 < ns
    ensures Forward(np, ns, Walk(np, ns, step, p), p)
    decreases np - p.0, ns - p.1
  {
    if ns > 0 && p.0 < np && step(p) != Done {
      var n := Advance(ns, step(p), p);
      WalkForward(np, ns, step, n);
      ForwardCons(np, ns, p, n, Walk(np, ns, step, n));
    }
  }

  lemma RunsOffCons(np: nat, ns: nat, step: Pos -> Step, p: Pos, B: seq<Pos>)
    requires p.0 < np && step(p) != Done
    requires B == [] <==> Advance(ns, step(p), p).0 >= np
    requires RunsOff(np, ns, step, B)
    ensures RunsOff(np, ns, step, [p] + B)
  {
    if B != [] {
      assert ([p] + B)[|B|] == B[|B| - 1];
    }
  }

  lemma LinkedCons(ns: nat, step: Pos -> Step, p: Pos, B: seq<Pos>)
    requires step(p) != Done
    requires B != [] ==> B[0] == Advance(ns, step(p), p)
    requires forall k :: 0 <= k < |B| - 1 ==> Linked(ns, step, B, k)
    ensures forall k :: 0 <= k < |[p] + B| - 1 ==> Linked(ns, step, [p] + B, k)
  {
    var A := [p] + B;
    forall k | 0 <= k < |A| - 1
      ensures Linked(ns, step, A, k)
    {
      if k > 0 {
        assert Linked(ns, step, B, k - 1);
        assert A[k] == B[k - 1] && A[k + 1] == B[k];
      }
    }
  }

  lemma ForwardCons(np: nat, ns: nat, p: Pos, n: Pos, B: seq<Pos>)
    requires p.0 < np && p.1 < ns && Before(p, n)
    requires Forward(np, ns, B, n)
    ensures Forward(np, ns, [p] + B, p)
  {
    var A := [p] + B;
    forall k | 1 <= k < |A|
      ensures A[k] == B[k - 1] && AtOrAfter(A[k], p)
    {
    }
    forall k1, k2 | 0 <= k1 < k2 < |A|
      ensures Before(A[k1], A[k2])
    {
      assert A[k2] == B[k2 - 1];
      if k1 > 0 {
        assert A[k1] == B[k1 - 1];
      }
    }
  }

  /** After a `break` no later position has the same persona; after a
      `continue` that is not on the last selector, the next position is
      the next selector of the same persona. */
  lemma Dispatch(np: nat, ns: nat, step: Pos -> Step, k: nat)
    requires k < |Walk(np, ns, step, (0, 0))|
    ensures var A := Walk(np, ns, step, (0, 0));
      (step(A[k]) == NextPersona ==> forall k' :: k < k' < |A| ==> A[k'].0 > A[k].0) &&
      (step(A[k]) == NextSelector && A[k].1 + 1 < ns ==>
         k + 1 < |A| && A[k + 1] == (A[k].0, A[k].1 + 1))
  {
    var A := Walk(np, ns, step, (0, 0));
    WalkLinked(np, ns, step, (0, 0));
    WalkRunsOff(np, ns, step, (0, 0));
    WalkForward(np, ns, step, (0, 0));
    if step(A[k]) == NextPersona {
      forall k' | k < k' < |A|
        ensures A[k'].0 > A[k].0
      {
        assert Linked(ns, step, A, k);
        if k' > k + 1 {
          assert Before(A[k + 1], A[k']);
        }
      }
    }
    if step(A[k]) == NextSelector && A[k].1 + 1 < ns {
      assert A[k].0 < np;
      if k + 1 < |A| {
        assert Linked(ns, step, A, k);
      }
    }
  }

  /** A walk in which no pass returns reaches every later persona, at its
      first selector: the loops give up only after trying every persona. */
  lemma {:induction false} WalkCoversPersonas(np: nat, ns: nat, step: Pos -> Step, p: Pos)
    requires p.1 < ns
    requires forall k :: 0 <= k < |Walk(np, ns, step, p)| ==> step(Walk(np, ns, step, p)[k]) != Done
    ensures forall i :: p.0 < i < np ==> (i, 0) in Walk(np, ns, step, p)
    decreases np - p.0, ns - p.1
  {
    var A := Walk(np, ns, step, p);
    if p.0 < np {
      assert A[0] == p;
      var n := Advance(ns, step(p), p);
      var B := Walk(np, ns, step, n);
      assert A == [p] + B;
      forall k | 0 <= k < |B|
        ensures step(B[k]) != Done
      {
        assert B[k] == A[k + 1];
      }
      WalkCoversPersonas(np, ns, step, n);
      WalkStart(np, ns, step, n);
      forall i | p.0 < i < np
        ensures (i, 0) in A
      {
        if i == n.0 {
          assert n.1 == 0 && B[0] == n;
        }
      }
    }
  }

  /** Only the last pass of a walk may return. */
  lemma OnlyLastDone(np: nat, ns: nat, step: Pos -> Step)
    ensures var A := Walk(np, ns, step, (0, 0));
      forall k :: 0 <= k < |A| - 1 ==> step(A[k]) != Done
  {
    var A := Walk(np, ns, step, (0, 0));
    forall k | 0 <= k < |A| - 1
      ensures step(A[k]) != Done
    {
      NotLast(np, ns, step, k);
    }
  }

  lemma NotLast(np: nat, ns: nat, step: Pos -> Step, k: nat)
    requires k + 1 < |Walk(np, ns, step, (0, 0))|
    ensures step(Walk(np, ns, step, (0, 0))[k]) != Done
  {
    WalkLinked(np, ns, step, (0, 0));
    assert Linked(ns, step, Walk(np, ns, step, (0, 0)), k);
  }

  /** What the loops produce from position `p` on: `attempt` of each
      position the walk visits, in order. */
  function Trace<A>(np: nat, ns: nat, step: Pos -> Step, attempt: Pos -> A, p: Pos): seq<A>
    requires ns == 0 || p.1 < ns
    decreases np - p.0, ns - p.1
  {
    if ns == 0 || p.0 >= np then []
    else [attempt(p)] + if step(p) == Done then [] else Trace(np, ns, step, attempt, Advance(ns, step(p), p))
  }

  /** The trace lists `attempt` at the walk's positions, one for one. */
  lemma {:induction false} TraceMatchesWalk<A>(np: nat, ns: nat, step: Pos -> Step, attempt: Pos -> A, p: Pos)
    requires ns == 0 || p.1 < ns
    ensures |Trace(np, ns, step, attempt, p)| == |Walk(np, ns, step, p)|
    ensures forall k :: 0 <= k < |Walk(np, ns, step, p)| ==>
      Trace(np, ns, step, attempt, p)[k] == attempt(Walk(np, ns, step, p)[k])
    decreases np - p.0, ns - p.1
  {
    if ns > 0 && p.0 < np && step(p) != Done {
      var n := Advance(ns, step(p), p);
      TraceMatchesWalk(np, ns, step, attempt, n);
      var W, T := Walk(np, ns, step, p), Trace(np, ns, step, attempt, p);
      var W', T' := Walk(np, ns, step, n), Trace(np, ns, step, attempt, n);
      forall k | 0 <= k < |W|
        ensures T[k] == attempt(W[k])
      {
        if k > 0 {
          assert W[k] == W'[k - 1] && T[k] == T'[k - 1];
        }
      }
    }
  }
}
