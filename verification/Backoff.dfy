/** `retry` around a single backend call: how many calls it makes, what it returns, what it
    does to the shared gap and how long it sleeps, in closed form. */
module Backoff {
  import opened RetryEngine

  /** A retried closure that makes one backend call; `reply(k)` answers the k-th call of the
      process. As in Go, a failing call leaves the captured result nil. */
  function Leaf<T>(reply: nat -> Reply<T>): (World, Option<T>) -> Out<Option<T>> {
    (w: World, s: Option<T>) => LeafCall(reply, w)
  }

  function LeafCall<T>(reply: nat -> Reply<T>, w: World): Out<Option<T>> {
    var after := w.(calls := w.calls + 1);
    match reply(w.calls)
    case Ok(v) => Out(None, Some(v), after)
    case Fail(e) => Out(Some(e), None, after)
  }

  /** `retry` around one call, as a function of the replies. */
  function RetryLeaf<T>(n: int, cap: int, reply: nat -> Reply<T>, w: World): Out<Option<T>> {
    Until(n, RetryIter(cap, Leaf(reply)), 0, Out(None, None, w))
  }

  /** A success or a permanent API error ends the loop. */
  predicate Final<T>(r: Reply<T>) {
    r.Ok? || Permanent(r.err)
  }

  predicate ApiError<T>(r: Reply<T>) {
    r.Fail? && r.err.Api?
  }

  predicate Transient<T>(r: Reply<T>) {
    ApiError(r) && !Permanent(r.err)
  }

  /** The replies to calls c + a .. c + b - 1, the ones at offset a .. b - 1 from call c. */
  predicate NoneFinal<T>(reply: nat -> Reply<T>, c: nat, a: nat, b: nat) {
    forall k {:trigger reply(k)} :: c + a <= k < c + b ==> !Final(reply(k))
  }

  predicate AllApiErrors<T>(reply: nat -> Reply<T>, c: nat, a: nat, b: nat) {
    forall k {:trigger reply(k)} :: c + a <= k < c + b ==> ApiError(reply(k))
  }

  /** Index of the last call: the first final reply at or after i, or n - 1. */
  function LastCall<T>(reply: nat -> Reply<T>, c: nat, i: nat, n: nat): (k: nat)
    requires i < n
    ensures i <= k < n
    decreases n - i
  {
    if Final(reply(c + i)) || i + 1 == n then i else LastCall(reply, c, i + 1, n)
  }

  lemma {:induction false} LastCallMeaning<T>(reply: nat -> Reply<T>, c: nat, i: nat, n: nat)
    requires i < n
    ensures var k := LastCall(reply, c, i, n);
      NoneFinal(reply, c, i, k) && (Final(reply(c + k)) || k == n - 1)
    decreases n - i
  {
    hide SkipRetry;
    if !Final(reply(c + i)) && i + 1 < n {
      LastCallMeaning(reply, c, i + 1, n);
    }
  }

  /** How many of the replies a..b at index 1 or later are transient API errors. */
  function Doublings<T>(reply: nat -> Reply<T>, c: nat, a: nat, b: nat): nat
    decreases b - a
  {
    if a > b then 0
    else (if a >= 1 && Transient(reply(c + a)) then 1 else 0) + Doublings(reply, c, a + 1, b)
  }

  /** The gap after j capped doublings from g. */
  function GapAfter(g: nat, cap: nat, j: nat): nat {
    if j == 0 then g else Grow(GapAfter(g, cap, j - 1), cap)
  }

  function Pow2(j: nat): nat {
    if j == 0 then 1 else 2 * Pow2(j - 1)
  }

  /** min(g * 2^j, cap) */
  function Capped(g: nat, cap: nat, j: nat): nat {
    if g * Pow2(j) <= cap then g * Pow2(j) else cap
  }

  lemma TimesTwice(g: nat, x: nat)
    ensures g * (2 * x) == 2 * (g * x)
  {
  }

  /** Capping at every doubling is capping once. */
  lemma {:induction false} GapClosedForm(g: nat, cap: nat, j: nat)
    ensures GapAfter(g, cap, j) == if j == 0 then g else Capped(g, cap, j)
  {
    if j > 0 {
      GapClosedForm(g, cap, j - 1);
      TimesTwice(g, Pow2(j - 1));
      var before := g * Pow2(j - 1);
      assert g * Pow2(j) == 2 * before;
      if j == 1 {
        assert before == g;
      } else if before <= cap {
        assert GapAfter(g, cap, j - 1) == before;
      } else {
        assert GapAfter(g, cap, j - 1) == cap;
      }
    }
  }

  /** GapAfter(a) + .. + GapAfter(b - 1) */
  function GapSum(g: nat, cap: nat, a: nat, b: nat): nat
    decreases b - a
  {
    if a >= b then 0 else GapAfter(g, cap, a) + GapSum(g, cap, a + 1, b)
  }

  /** min(g * 2^a, cap) + .. + min(g * 2^(b - 1), cap) */
  function CappedSum(g: nat, cap: nat, a: nat, b: nat): nat
    decreases b - a
  {
    if a >= b then 0 else Capped(g, cap, a) + CappedSum(g, cap, a + 1, b)
  }

  lemma {:induction false} GapSumClosedForm(g: nat, cap: nat, a: nat, b: nat)
    requires g <= cap
    ensures GapSum(g, cap, a, b) == CappedSum(g, cap, a, b)
    decreases b - a
  {
    if a < b {
      GapClosedForm(g, cap, a);
      GapSumClosedForm(g, cap, a + 1, b);
    }
  }

  lemma {:induction false} GapMonotone(g: nat, cap: nat, i: nat, j: nat)
    requires i <= j && g <= cap
    ensures GapAfter(g, cap, i) <= GapAfter(g, cap, j) <= cap
  {
    if i < j {
      GapMonotone(g, cap, i, j - 1);
    } else if j > 0 {
      GapMonotone(g, cap, j - 1, j - 1);
    }
  }

  /** The loop around a leaf call, with the closure and the iteration unfolded. */
  function LeafLoop<T>(n: nat, cap: int, reply: nat -> Reply<T>, i: nat, o: Out<Option<T>>): Out<Option<T>>
    decreases n - i
  {
    if i >= n then o
    else
      var r := reply(o.w.calls);
      var o' := LeafNext(cap, r, i, o.w);
      if Final(r) then o' else LeafLoop(n, cap, reply, i + 1, o')
  }

  function LeafNext<T>(cap: int, r: Reply<T>, i: nat, w: World): Out<Option<T>> {
    var w' := World(if i >= 1 && Transient(r) then Grow(w.gap, cap) else w.gap,
                    w.slept + (if i > 0 then w.gap else 0),
                    w.calls + 1);
    match r
    case Ok(v) => Out(None, Some(v), w')
    case Fail(e) => Out(Some(e), None, w')
  }

  lemma {:induction false} LeafLoopIsRetry<T>(n: nat, cap: int, reply: nat -> Reply<T>, i: nat, o: Out<Option<T>>)
    ensures Until(n, RetryIter(cap, Leaf(reply)), i, o) == LeafLoop(n, cap, reply, i, o)
    decreases n - i
  {
    if i < n {
      var iter := RetryIter(cap, Leaf(reply));
      assert iter(i, o.w, o.s) == RetryStep(cap, Leaf(reply), i, o.w, o.s);
      var w := Pause(o.w, i, o.w.gap);
      assert Leaf(reply)(w, o.s) == LeafCall(reply, w);
      LeafLoopIsRetry(n, cap, reply, i + 1, LeafNext(cap, reply(o.w.calls), i, o.w));
    }
  }

  /** The outcome is this reply: its error, or its value in the captured variable. */
  ghost predicate Matches<T>(o: Out<Option<T>>, r: Reply<T>) {
    match r
    case Ok(v) => o.err == None && o.s == Some(v)
    case Fail(e) => o.err == Some(e) && o.s == None
  }

  /** What the loop has still to do when it is about to make call i, having doubled the gap
      d times. */
  lemma {:induction false} RetryFrom<T>(n: nat, cap: nat, reply: nat -> Reply<T>, g: nat, c: nat, i: nat, d: nat,
                                        o: Out<Option<T>>)
    requires i < n && o.w.calls == c + i && o.w.gap == GapAfter(g, cap, d)
    ensures var r := LeafLoop(n, cap, reply, i, o);
      var k := LastCall(reply, c, i, n);
      && r.w.calls == c + k + 1
      && Matches(r, reply(c + k))
      && r.w.gap == GapAfter(g, cap, d + Doublings(reply, c, i, k))
    decreases n - i
  {
    hide SkipRetry;
    var r := reply(c + i);
    if !Final(r) && i + 1 < n {
      RetryFrom(n, cap, reply, g, c, i + 1, if i >= 1 && Transient(r) then d + 1 else d,
                LeafNext(cap, r, i, o.w));
    }
  }

  /** The sleep still to come at that point: each pause is at most the gap after as many
      doublings as there were calls before it. */
  lemma {:induction false} RetrySleep<T>(n: nat, cap: nat, reply: nat -> Reply<T>, g: nat, c: nat, i: nat, d: nat,
                                         o: Out<Option<T>>)
    requires i < n && o.w.calls == c + i && o.w.gap == GapAfter(g, cap, d)
    requires d <= Before(i) && g <= cap
    ensures var r := LeafLoop(n, cap, reply, i, o);
      var k := LastCall(reply, c, i, n);
      var most := o.w.slept + GapSum(g, cap, Before(i), k);
      && r.w.slept <= most
      && (d == Before(i) && AllApiErrors(reply, c, i, k) ==> r.w.slept == most)
    decreases n - i
  {
    hide SkipRetry;
    GapMonotone(g, cap, d, Before(i));
    var r := reply(c + i);
    if !Final(r) && i + 1 < n {
      RetrySleep(n, cap, reply, g, c, i + 1, if i >= 1 && Transient(r) then d + 1 else d,
                LeafNext(cap, r, i, o.w));
    }
  }

  /** i - 1, or 0 at the start: the most doublings there can be before pause i. */
  function Before(i: nat): nat {
    if i == 0 then 0 else i - 1
  }

  /** The whole loop, for every sequence of replies: it calls up to the first final reply but
      at most n times, returns the last reply, leaves the gap at min(g * 2^d, cap) after d >= 1
      transient API errors past the first call (and alone without one), and sleeps at most the sum
      of min(g * 2^j, cap) over the pauses j, exactly that sum when every failure before the last
      call was an API error. */
  lemma RetryRefinement<T>(n: nat, cap: nat, reply: nat -> Reply<T>, w: World)
    requires n >= 1 && 0 <= w.gap
    ensures var r := RetryLeaf(n, cap, reply, w);
      var k := LastCall(reply, w.calls, 0, n);
      && r.w.calls == w.calls + k + 1
      && Matches(r, reply(w.calls + k))
      && r.w.gap == (var d := Doublings(reply, w.calls, 0, k); if d == 0 then w.gap else Capped(w.gap, cap, d))
      && (w.gap <= cap ==> r.w.slept <= w.slept + CappedSum(w.gap, cap, 0, k))
      && (w.gap <= cap && AllApiErrors(reply, w.calls, 0, k) ==>
            r.w.slept == w.slept + CappedSum(w.gap, cap, 0, k))
  {
    hide SkipRetry, Capped, GapAfter;
    var k := LastCall(reply, w.calls, 0, n);
    GapClosedForm(w.gap, cap, Doublings(reply, w.calls, 0, k));
    assert GapAfter(w.gap, cap, 0) == w.gap by {
      GapClosedForm(w.gap, cap, 0);
    }
    LeafLoopIsRetry(n, cap, reply, 0, Out(None, None, w));
    RetryFrom(n, cap, reply, w.gap, w.calls, 0, 0, Out(None, None, w));
    if w.gap <= cap {
      RetrySleep(n, cap, reply, w.gap, w.calls, 0, 0, Out(None, None, w));
      GapSumClosedForm(w.gap, cap, 0, k);
    }
  }

  /** A nil result is never vacuous: with a positive attempt limit it is the result of an
      actual successful call. It is nil exactly when some call below the limit succeeds and no
      earlier one met a permanent API error. */
  lemma NilMeansSuccess<T>(n: nat, cap: nat, reply: nat -> Reply<T>, w: World)
    requires n >= 1 && 0 <= w.gap
    ensures RetryLeaf(n, cap, reply, w).err == None
      <==> exists k :: w.calls <= k < w.calls + n && reply(k).Ok? && NoneFinal(reply, w.calls, 0, k - w.calls)
  {
    hide SkipRetry;
    RetryRefinement(n, cap, reply, w);
    LastCallMeaning(reply, w.calls, 0, n);
    var last := w.calls + LastCall(reply, w.calls, 0, n);
    if RetryLeaf(n, cap, reply, w).err == None {
      assert w.calls <= last < w.calls + n && reply(last).Ok? && NoneFinal(reply, w.calls, 0, last - w.calls);
    }
    forall k | w.calls <= k < w.calls + n && reply(k).Ok? && NoneFinal(reply, w.calls, 0, k - w.calls)
      ensures k == last
    {
      assert Final(reply(k));
    }
  }

  // ---- retryWithMinRetries ----

  /** Around a leaf call the loop with a gap of its own is `retry` in a world that has this gap;
      the shared gap is left alone. */
  lemma {:induction false} MinLoopIsLeafLoop<T>(n: nat, cap: int, reply: nat -> Reply<T>, i: nat,
                                                o: Out<WithGap<Option<T>>>)
    ensures var l := LeafLoop(n, cap, reply, i, Out(o.err, o.s.s, o.w.(gap := o.s.gap)));
      Until(n, MinIter(cap, Leaf(reply)), i, o) == Out(l.err, WithGap(l.s, l.w.gap), l.w.(gap := o.w.gap))
    decreases n - i
  {
    if i < n {
      hide SkipRetry;
      var iter := MinIter(cap, Leaf(reply));
      assert iter(i, o.w, o.s) == MinStep(cap, Leaf(reply), i, o.w, o.s);
      var w := Pause(o.w, i, o.s.gap);
      assert Leaf(reply)(w, o.s.s) == LeafCall(reply, w);
      MinLoopIsLeafLoop(n, cap, reply, i + 1, iter(i, o.w, o.s).0);
    }
  }

  /** The loop around a leaf call behaves as `retry` started on a gap of ten seconds, whatever the
      shared gap is, and neither uses nor changes the shared gap. */
  lemma MinRetryIsRetryOnOwnGap<T>(n: nat, cap: int, reply: nat -> Reply<T>, w: World)
    ensures var r := Until(n, MinIter(cap, Leaf(reply)), 0, Out(None, WithGap(None, 10), w));
      var l := RetryLeaf(n, cap, reply, w.(gap := 10));
      && r.err == l.err && r.s.s == l.s
      && r.w == World(w.gap, l.w.slept, l.w.calls)
  {
    MinLoopIsLeafLoop(n, cap, reply, 0, Out(None, WithGap(None, 10), w));
    LeafLoopIsRetry(n, cap, reply, 0, Out(None, None, w.(gap := 10)));
  }

  // ---- FlexyRetry ----

  /** The closure that stops on success and on permanent API errors. */
  function FlexyLeaf<T>(reply: nat -> Reply<T>): (World, Option<T>) -> (Out<Option<T>>, bool) {
    (w: World, s: Option<T>) => (LeafCall(reply, w), Final(reply(w.calls)))
  }

  /** One iteration around it, with the closure unfolded. */
  lemma FlexyLeafStep<T>(cap: int, reply: nat -> Reply<T>, i: nat, o: Out<Option<T>>)
    ensures var r := reply(o.w.calls);
      var (o', stop) := FlexyIter(cap, FlexyLeaf(reply))(i, o.w, o.s);
      && stop == Final(r) && Matches(o', r)
      && o'.w == World(if i >= 1 && !Final(r) then Grow(o.w.gap, cap) else o.w.gap,
                       o.w.slept + (if i > 0 then o.w.gap else 0),
                       o.w.calls + 1)
  {
    hide SkipRetry, Final, Grow;
    assert FlexyIter(cap, FlexyLeaf(reply))(i, o.w, o.s) == FlexyStep(cap, FlexyLeaf(reply), i, o.w, o.s);
    var w := Pause(o.w, i, o.w.gap);
    assert FlexyLeaf(reply)(w, o.s) == (LeafCall(reply, w), Final(reply(w.calls)));
  }

  lemma {:induction false} FlexyLeafFrom<T>(r: FlexyRetry, reply: nat -> Reply<T>, c: nat, i: nat, o: Out<Option<T>>)
    requires i < r.maxRetryAttempt && o.w.calls == c + i
    ensures var o' := Until(r.maxRetryAttempt, FlexyIter(r.maxRetryGap, FlexyLeaf(reply)), i, o);
      var k := LastCall(reply, c, i, r.maxRetryAttempt);
      o'.w.calls == c + k + 1 && Matches(o', reply(c + k))
    decreases r.maxRetryAttempt - i
  {
    hide SkipRetry, Final, Grow;
    FlexyLeafStep(r.maxRetryGap, reply, i, o);
    var (o', stop) := FlexyIter(r.maxRetryGap, FlexyLeaf(reply))(i, o.w, o.s);
    if !stop && i + 1 < r.maxRetryAttempt {
      FlexyLeafFrom(r, reply, c, i + 1, o');
    }
  }

  /** The doublings of a run whose last call has index k: one for each call at index 1 or later
      that did not stop the loop. */
  function FlexyDoublings<T>(reply: nat -> Reply<T>, c: nat, k: nat): nat {
    if Final(reply(c + k)) then Before(k) else k
  }

  /** The gap and the sleep still to come when the loop is about to make call i. */
  lemma {:induction false} FlexyGapFrom<T>(r: FlexyRetry, reply: nat -> Reply<T>, g: nat, c: nat, i: nat,
                                           o: Out<Option<T>>)
    requires i < r.maxRetryAttempt && o.w.calls == c + i && r.maxRetryGap >= 0
    requires o.w.gap == GapAfter(g, r.maxRetryGap, Before(i))
    ensures var o' := Until(r.maxRetryAttempt, FlexyIter(r.maxRetryGap, FlexyLeaf(reply)), i, o);
      var k := LastCall(reply, c, i, r.maxRetryAttempt);
      && o'.w.gap == GapAfter(g, r.maxRetryGap, FlexyDoublings(reply, c, k))
      && o'.w.slept == o.w.slept + GapSum(g, r.maxRetryGap, Before(i), k)
    decreases r.maxRetryAttempt - i
  {
    hide SkipRetry, Final, Matches;
    FlexyLeafStep(r.maxRetryGap, reply, i, o);
    var (o', stop) := FlexyIter(r.maxRetryGap, FlexyLeaf(reply))(i, o.w, o.s);
    if !stop && i + 1 < r.maxRetryAttempt {
      FlexyGapFrom(r, reply, g, c, i + 1, o');
    }
  }

  lemma {:induction false} LaterGapSum(g: nat, cap: nat, a: nat, b: nat)
    requires a >= 1
    ensures GapSum(g, cap, a, b) == CappedSum(g, cap, a, b)
    decreases b - a
  {
    if a < b {
      GapClosedForm(g, cap, a);
      LaterGapSum(g, cap, a + 1, b);
    }
  }

  /** The whole loop, for every sequence of replies: it calls up to the first final reply but at
      most n times and returns the last reply. Whatever the errors are, it sleeps exactly the gap g
      before call 1 and min(g * 2^j, cap) before call j + 1, and leaves the gap doubled, with the
      cap, once for each call at index 1 or later that did not stop it. */
  lemma FlexyRefinement<T>(r: FlexyRetry, reply: nat -> Reply<T>, w: World)
    requires r.maxRetryAttempt >= 1
    ensures var o := Until(r.maxRetryAttempt, FlexyIter(r.maxRetryGap, FlexyLeaf(reply)), 0, Out(None, None, w));
      var k := LastCall(reply, w.calls, 0, r.maxRetryAttempt);
      && o.w.calls == w.calls + k + 1
      && Matches(o, reply(w.calls + k))
      && (w.gap >= 0 && r.maxRetryGap >= 0 ==>
            var d := if Final(reply(w.calls + k)) then k - 1 else k;
            && o.w.gap == (if d <= 0 then w.gap else Capped(w.gap, r.maxRetryGap, d))
            && o.w.slept == w.slept + if k == 0 then 0 else w.gap + CappedSum(w.gap, r.maxRetryGap, 1, k))
  {
    hide SkipRetry, Final, Capped, GapAfter;
    FlexyLeafFrom(r, reply, w.calls, 0, Out(None, None, w));
    if w.gap >= 0 && r.maxRetryGap >= 0 {
      var k := LastCall(reply, w.calls, 0, r.maxRetryAttempt);
      GapClosedForm(w.gap, r.maxRetryGap, 0);
      GapClosedForm(w.gap, r.maxRetryGap, FlexyDoublings(reply, w.calls, k));
      FlexyGapFrom(r, reply, w.gap, w.calls, 0, Out(None, None, w));
      LaterGapSum(w.gap, r.maxRetryGap, 1, k);
    }
  }

  // ---- FlexyRetryWithConstGap ----

  lemma {:induction false} ConstLeafFrom<T>(n: nat, reply: nat -> Reply<T>, c: nat, i: nat, o: Out<Option<T>>)
    requires i < n && o.w.calls == c + i
    ensures var o' := Until(n, ConstIter(FlexyLeaf(reply)), i, o);
      var k := LastCall(reply, c, i, n);
      && Matches(o', reply(c + k))
      && o'.w == World(o.w.gap, o.w.slept + 10 * (k - Before(i)), c + k + 1)
    decreases n - i
  {
    hide SkipRetry, Final;
    var iter := ConstIter(FlexyLeaf(reply));
    assert iter(i, o.w, o.s) == ConstStep(FlexyLeaf(reply), i, o.w, o.s);
    var w := Pause(o.w, i, 10);
    assert FlexyLeaf(reply)(w, o.s) == (LeafCall(reply, w), Final(reply(w.calls)));
    var (o', stop) := iter(i, o.w, o.s);
    if !stop && i + 1 < n {
      ConstLeafFrom(n, reply, c, i + 1, o');
    }
  }

  /** The loop with the constant gap: up to the first final reply within four times the limit, ten
      seconds before each call but the first, the shared gap left alone. */
  lemma ConstRefinement<T>(r: FlexyRetry, reply: nat -> Reply<T>, w: World)
    requires r.maxRetryAttempt >= 1
    ensures var o := Until(4 * r.maxRetryAttempt, ConstIter(FlexyLeaf(reply)), 0, Out(None, None, w));
      var k := LastCall(reply, w.calls, 0, 4 * r.maxRetryAttempt);
      && Matches(o, reply(w.calls + k))
      && o.w == World(w.gap, w.slept + 10 * k, w.calls + k + 1)
  {
    ConstLeafFrom(4 * r.maxRetryAttempt, reply, w.calls, 0, Out(None, None, w));
  }
}
