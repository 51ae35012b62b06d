/** The process-wide backoff gap under concurrent retry loops. Doubling it takes four separate
    accesses without a lock: load, store of the double, check against the cap, clamp. */
module SharedGap {
  import opened RetryEngine

  /** Where a loop is between two attempts. */
  datatype Phase = Idle | Loaded(value: int) | MustCheck | MustClamp

  /** The gap and the loops running on it, each with its own cap. */
  datatype State = State(gap: int, loops: seq<Phase>, caps: seq<int>) {
    ghost predicate Valid() {
      |loops| == |caps|
    }

    ghost predicate Quiescent() {
      forall t :: 0 <= t < |loops| ==> loops[t] == Idle
    }

    /** Some loop has stored a double and has yet to check it or to clamp it. */
    ghost predicate SomeLoopOwes() {
      exists t :: 0 <= t < |loops| && (loops[t] == MustCheck || loops[t] == MustClamp)
    }
  }

  /** Loop t performs its next access. */
  function Step(s: State, t: nat): (s': State)
    requires s.Valid() && t < |s.loops|
    ensures s'.Valid() && |s'.loops| == |s.loops| && s'.caps == s.caps
  {
    match s.loops[t]
    case Idle => s.(loops := s.loops[t := Loaded(s.gap)])
    case Loaded(v) => s.(gap := 2 * v, loops := s.loops[t := MustCheck])
    case MustCheck => s.(loops := s.loops[t := if s.gap > s.caps[t] then MustClamp else Idle])
    case MustClamp => s.(gap := s.caps[t], loops := s.loops[t := Idle])
  }

  ghost predicate Schedule(s: State, order: seq<nat>) {
    s.Valid() && forall k :: 0 <= k < |order| ==> order[k] < |s.loops|
  }

  /** The state after the accesses of `order`, one loop index per access. */
  function Run(s: State, order: seq<nat>): (s': State)
    requires Schedule(s, order)
    ensures s'.Valid() && |s'.loops| == |s.loops| && s'.caps == s.caps
    decreases order
  {
    if order == [] then s else Run(Step(s, order[0]), order[1..])
  }

  // ---- What the accesses amount to ----

  /** Undisturbed, a loop gets from idle back to idle in three accesses, or in four if it has to
      clamp. It leaves the gap at its double, capped, as the sequential loops do, and everything
      else as it was. */
  lemma UndisturbedIsGrow(s: State, t: nat)
    requires s.Valid() && t < |s.loops| && s.loops[t] == Idle
    ensures var order := if 2 * s.gap > s.caps[t] then [t, t, t, t] else [t, t, t];
      && Schedule(s, order)
      && Run(s, order) == s.(gap := if 2 * s.gap > s.caps[t] then s.caps[t] else 2 * s.gap)
      && Run(s, order).gap == Grow(s.gap, s.caps[t])
      && forall n: nat :: 0 < n < |order| ==> Schedule(s, order[..n]) && Run(s, order[..n]).loops[t] != Idle
  {
    var s3 := ThreeAccesses(s, t);
    assert [t, t, t][..1] == [t] && [t, t, t][..2] == [t, t];
    if 2 * s.gap > s.caps[t] {
      var order := [t, t, t, t];
      RunOne(s3, t);
      RunConcat(s, [t, t, t], [t]);
      assert [t, t, t] + [t] == order;
      assert order[..1] == [t] && order[..2] == [t, t] && order[..3] == [t, t, t];
      assert Run(s, order).loops == s.loops;
    } else {
      assert s3.loops == s.loops;
    }
  }

  lemma ThreeAccesses(s: State, t: nat) returns (s3: State)
    requires s.Valid() && t < |s.loops| && s.loops[t] == Idle
    ensures Schedule(s, [t]) && Run(s, [t]).loops[t] != Idle
    ensures Schedule(s, [t, t]) && Run(s, [t, t]).loops[t] != Idle
    ensures Schedule(s, [t, t, t]) && Run(s, [t, t, t]) == s3
    ensures s3 == s.(gap := 2 * s.gap, loops := s.loops[t := if 2 * s.gap > s.caps[t] then MustClamp else Idle])
  {
    var s1 := Step(s, t);
    var s2 := Step(s1, t);
    s3 := Step(s2, t);
    RunOne(s, t);
    RunOne(s1, t);
    RunOne(s2, t);
    RunConcat(s, [t], [t]);
    assert [t] + [t] == [t, t];
    RunConcat(s, [t, t], [t]);
    assert [t, t] + [t] == [t, t, t];
  }

  /** Whatever the other loops did before, a clamp leaves the gap at the cap of the loop that
      clamps, and that loop idle. */
  lemma ClampStoresCap(s: State, order: seq<nat>, t: nat)
    requires Schedule(s, order) && t < |s.loops| && Run(s, order).loops[t] == MustClamp
    ensures Schedule(s, order + [t])
    ensures var s' := Run(s, order + [t]);
      && s'.gap == s.caps[t] && s'.loops[t] == Idle
      && forall u :: 0 <= u < |s.loops| && u != t ==> s'.loops[u] == Run(s, order).loops[u]
  {
    RunConcat(s, order, [t]);
    RunOne(Run(s, order), t);
  }

  lemma RunOne(s: State, t: nat)
    requires s.Valid() && t < |s.loops|
    ensures Schedule(s, [t]) && Run(s, [t]) == Step(s, t)
  {
    assert [t][1..] == [];
  }

  lemma {:induction false} RunConcat(s: State, a: seq<nat>, b: seq<nat>)
    requires Schedule(s, a) && Schedule(s, b)
    ensures Schedule(s, a + b) && Run(s, a + b) == Run(Run(s, a), b)
    decreases a
  {
    if a == [] {
      assert a + b == b;
    } else {
      assert (a + b)[0] == a[0] && (a + b)[1..] == a[1..] + b;
      RunConcat(Step(s, a[0]), a[1..], b);
    }
  }

  // ---- Bounds ----

  ghost predicate Inv(s: State, bound: int) {
    && s.Valid()
    && s.gap > 0
    && (forall t :: 0 <= t < |s.caps| ==> 0 < s.caps[t] <= bound)
    && (forall t :: 0 <= t < |s.loops| && s.loops[t].Loaded? ==> s.loops[t].value > 0)
    && (s.gap > bound ==> s.SomeLoopOwes())
  }

  lemma StepKeepsInv(s: State, t: nat, bound: int)
    requires Inv(s, bound) && t < |s.loops|
    ensures Inv(Step(s, t), bound)
  {
    var s' := Step(s, t);
    if s'.gap > bound {
      if s.loops[t].Idle? {
        var u :| 0 <= u < |s.loops| && (s.loops[u] == MustCheck || s.loops[u] == MustClamp);
        assert s'.loops[u] == s.loops[u];
      } else {
        assert s'.loops[t] == MustCheck || s'.loops[t] == MustClamp;
      }
    }
  }

  lemma {:induction false} RunKeepsInv(s: State, order: seq<nat>, bound: int)
    requires Schedule(s, order) && Inv(s, bound)
    ensures Inv(Run(s, order), bound)
    decreases order
  {
    if order != [] {
      StepKeepsInv(s, order[0], bound);
      RunKeepsInv(Step(s, order[0]), order[1..], bound);
    }
  }

  /** For any number of loops in any interleaving: the gap stays positive; whenever it exceeds
      both its starting value and every cap, some loop still owes a check or a clamp; so it is
      back within the bound whenever no loop is between its accesses. */
  lemma GapBounded(s: State, order: seq<nat>, bound: int)
    requires Schedule(s, order) && s.Quiescent()
    requires 0 < s.gap <= bound && forall t :: 0 <= t < |s.caps| ==> 0 < s.caps[t] <= bound
    ensures var s' := Run(s, order);
      && s'.gap > 0
      && (s'.gap > bound ==> s'.SomeLoopOwes())
      && (s'.Quiescent() ==> s'.gap <= bound)
  {
    RunKeepsInv(s, order, bound);
  }

  // ---- In flight ----

  /** Loop u doubled past both caps and owes its check, loop v is idle. */
  ghost predicate Overshot(s: State, u: nat, v: nat) {
    && s.Valid() && u < |s.loops| && v < |s.loops| && u != v
    && s.gap > 0 && s.gap > s.caps[u] && s.gap > s.caps[v]
    && s.loops[u] == MustCheck && s.loops[v] == Idle
  }

  /** The idle loop loads the overshot gap before the other one clamps it, and stores twice as
      much afterwards: the same situation again, roles swapped. */
  lemma PingPong(s: State, u: nat, v: nat) returns (order: seq<nat>)
    requires Overshot(s, u, v)
    ensures Schedule(s, order) && Overshot(Run(s, order), v, u) && Run(s, order).gap == 2 * s.gap
  {
    order := [v, u, u, v];
    var s1 := Step(s, v);
    var s2 := Step(s1, u);
    var s3 := Step(s2, u);
    var s4 := Step(s3, v);
    assert order[1..] == [u, u, v];
    assert order[1..][1..] == [u, v];
    assert order[1..][1..][1..] == [v];
    RunOne(s3, v);
    assert Run(s2, [u, v]) == s4;
    assert Run(s1, [u, u, v]) == s4;
  }

  lemma {:induction false} OvershotGrows(s: State, u: nat, v: nat, target: int) returns (order: seq<nat>)
    requires Overshot(s, u, v)
    ensures Schedule(s, order) && Run(s, order).gap > target
    decreases target - s.gap
  {
    if s.gap > target {
      order := [];
    } else {
      var first := PingPong(s, u, v);
      var rest := OvershotGrows(Run(s, first), v, u, target);
      RunConcat(s, first, rest);
      order := first + rest;
    }
  }

  /** Loop t finishes what it is doing; the others stay where they are. */
  lemma {:induction false} Finish(s: State, t: nat, bound: int) returns (order: seq<nat>)
    requires Inv(s, bound) && t < |s.loops|
    ensures Schedule(s, order)
    ensures var s' := Run(s, order); Inv(s', bound) && s'.loops == s.loops[t := Idle]
    decreases match s.loops[t] case Idle => 0 case MustClamp => 1 case MustCheck => 2 case Loaded(_) => 3
  {
    if s.loops[t].Idle? {
      order := [];
    } else {
      StepKeepsInv(s, t, bound);
      RunOne(s, t);
      var rest := Finish(Step(s, t), t, bound);
      RunConcat(s, [t], rest);
      order := [t] + rest;
    }
  }

  /** Of two idle loops the one with the larger cap doubles the gap until it is past both. */
  lemma {:induction false} OvershootReachable(s: State, u: nat, v: nat) returns (order: seq<nat>)
    requires s.Valid() && u < |s.loops| && v < |s.loops| && u != v
    requires s.loops[u] == s.loops[v] == Idle && s.gap > 0 && s.caps[u] >= s.caps[v]
    ensures Schedule(s, order) && Overshot(Run(s, order), u, v)
    decreases s.caps[u] - s.gap
  {
    var s1 := Step(s, u);
    var s2 := Step(s1, u);
    RunOne(s1, u);
    assert [u, u][1..] == [u] && Run(s, [u, u]) == s2;
    order := [u, u];
    if 2 * s.gap <= s.caps[u] {
      var s3 := Step(s2, u);
      RunOne(s2, u);
      RunConcat(s, order, [u]);
      var rest := OvershootReachable(s3, u, v);
      RunConcat(s, order + [u], rest);
      order := order + [u] + rest;
    }
  }

  /** In flight there is no bound at all: with two loops or more, whatever they are doing and
      whatever their caps, some interleaving drives the gap past any value. */
  lemma GapUnboundedInFlight(s: State, bound: int, target: int) returns (order: seq<nat>)
    requires Inv(s, bound) && |s.loops| >= 2
    ensures Schedule(s, order) && Run(s, order).gap > target
  {
    order := Finish(s, 0, bound);
    var more := Finish(Run(s, order), 1, bound);
    RunConcat(s, order, more);
    order := order + more;
    var s' := Run(s, order);
    var u, v := if s.caps[0] >= s.caps[1] then 0 else 1, if s.caps[0] >= s.caps[1] then 1 else 0;
    more := OvershootReachable(s', u, v);
    RunConcat(s, order, more);
    order := order + more;
    more := OvershotGrows(Run(s, order), u, v, target);
    RunConcat(s, order, more);
    order := order + more;
  }

  /** A single loop never more than doubles what is within the bound: its gap stays below this. */
  function SingleLimit(s: State, bound: int): (limit: int)
    ensures limit >= 2 * bound && limit >= s.gap
  {
    var limit := if s.gap > 2 * bound then s.gap else 2 * bound;
    if |s.loops| == 1 && s.loops[0].Loaded? && 2 * s.loops[0].value > limit then 2 * s.loops[0].value else limit
  }

  lemma {:induction false} SingleLoopBounded(s: State, order: seq<nat>, bound: int, limit: int)
    requires Schedule(s, order) && Inv(s, bound) && |s.loops| <= 1
    requires limit >= SingleLimit(s, bound)
    ensures Run(s, order).gap <= limit
    decreases order
  {
    if order != [] {
      StepKeepsInv(s, order[0], bound);
      SingleLoopBounded(Step(s, order[0]), order[1..], bound, limit);
    }
  }

  ghost predicate CanExceed(s: State, target: int) {
    exists order :: Schedule(s, order) && Run(s, order).gap > target
  }

  /** Exactly when the gap is bounded in flight: from any state of the protocol it can exceed every
      value if and only if two loops or more run on it. With fewer it stays within twice the bound
      once it is at rest. */
  lemma UnboundedExactly(s: State, bound: int)
    requires Inv(s, bound)
    ensures (forall target :: CanExceed(s, target)) <==> |s.loops| >= 2
    ensures |s.loops| <= 1 && s.Quiescent() ==> !CanExceed(s, 2 * bound)
  {
    if |s.loops| >= 2 {
      forall target ensures CanExceed(s, target) {
        var order := GapUnboundedInFlight(s, bound, target);
      }
    } else {
      var limit := SingleLimit(s, bound);
      forall order | Schedule(s, order) ensures Run(s, order).gap <= limit {
        SingleLoopBounded(s, order, bound, limit);
      }
      assert !CanExceed(s, limit);
    }
  }
}
