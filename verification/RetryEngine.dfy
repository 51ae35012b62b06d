/** The retry loops of file/provider/util.go.

    A retried Go closure is a function of the process clock and counters (World) and of the
    variables it captures (S). All four loops run on one shared, mutable backoff gap. */
module RetryEngine {
  datatype Option<+T> = None | Some(value: T)

  /** The Go error values the loops tell apart: an API error with its list of codes
      (*models.Error), a user message with its code (util.Message), anything else. */
  datatype Err =
    | Api(codes: seq<string>, text: string)
    | Message(code: string)
    | Other(text: string)

  /** What a call into the API client gives: (value, nil) or (nil, error). */
  datatype Reply<+T> = Ok(value: T) | Fail(err: Err)

  /** The shared backoff gap, the seconds slept so far and the backend calls made so far. */
  datatype World = World(gap: int, slept: int, calls: nat)

  /** How a retried closure leaves things: its error, its captured variables, the world. */
  datatype Out<+S> = Out(err: Option<Err>, s: S, w: World)

  /** Captured variables beside a loop's own, local gap. */
  datatype WithGap<+S> = WithGap(s: S, gap: int)

  const CONSTANT_RETRY_GAP := 10

  /** The status in which a share or a mount target can be used. */
  const STABLE := "stable"

  /** Error codes and whether they stop a retry. */
  const SKIP_ERROR_CODES: map<string, bool> := map[
    "shares_profile_iops_not_allowed" := true,
    "shares_profile_capacity_invalid" := true,
    "shares_profile_capacity_iops_invalid" := true,
    "shares_encryption_key_crn_invalid" := true,
    "shares_zone_not_found" := true,
    "shares_bad_request" := true,
    "shares_resource_group_bad_request" := true,
    "shares_vpc_not_found" := true,
    "shares_not_found" := true,
    "shares_target_not_found" := true,
    "shares_target_one_per_vpc" := true,
    "bad_field" := true,
    "shares_name_duplicate" := true,
    "shares_subnet_zone_mismatch" := true,
    "targets_primary_ip_id_required" := true,
    "targets_subnet_and_primary_ip_missing" := true,
    "targets_primary_ip_not_related_to_subnet" := true,
    "shares_target_vpc_and_network_interface" := true,
    "shares_security_group_id_invalid" := true,
    "targets_primary_ip_address_already_in_use" := true,
    "reserved_ip_not_found" := true,
    "shares_subnet_not_found" := true,
    "targets_subnet_all_addresses_taken" := true,
    "InvalidArgument" := true,
    "shares_snapshot_not_found" := true,
    "share_snapshot_rate_too_high" := true,
    "share_snapshot_name_duplicate" := true,
    "share_snapshots_quota_limit_exceeded" := true,
    "shares_status_pending" := false,
    "internal_error" := false,
    "invalid_route" := true,
    "service_error" := false,
    "shares_bad_field_for_rfs_profile" := true,
    "shares_profile_bandwidth_not_allowed" := true,
    "shares_bandwidth_invalid" := true,
    "shares_not_implemented" := true
  ]

  /** The first code the table knows decides; unknown codes alone mean "retry". */
  predicate SkipRetry(codes: seq<string>) {
    if codes == [] then false
    else if codes[0] in SKIP_ERROR_CODES then SKIP_ERROR_CODES[codes[0]]
    else SkipRetry(codes[1..])
  }

  /** skipRetryForObviousErrors */
  predicate Permanent(e: Err) {
    e.Api? && SkipRetry(e.codes)
  }

  ghost predicate FirstKnown(codes: seq<string>, k: nat) {
    k < |codes| && codes[k] in SKIP_ERROR_CODES && forall j :: 0 <= j < k ==> codes[j] !in SKIP_ERROR_CODES
  }

  lemma {:induction false} SkipRetryMeaning(codes: seq<string>)
    ensures SkipRetry(codes) <==> exists k: nat :: FirstKnown(codes, k) && SKIP_ERROR_CODES[codes[k]]
  {
    if codes != [] {
      SkipRetryMeaning(codes[1..]);
      if codes[0] in SKIP_ERROR_CODES {
        assert FirstKnown(codes, 0);
      } else {
        forall k: nat | FirstKnown(codes[1..], k) ensures FirstKnown(codes, k + 1) {}
        forall k: nat | FirstKnown(codes, k) ensures k > 0 && FirstKnown(codes[1..], k - 1) {}
      }
    }
  }

  // ---- The pure function all four loops refine ----

  /** Runs iterations i, i+1, .. below n until one of them says stop. */
  function Until<S>(n: int, iter: Iteration<S>, i: nat, o: Out<S>): Out<S>
    decreases n - i
  {
    if i >= n then o
    else
      var (o', stop) := iter(i, o.w, o.s);
      if stop then o' else Until(n, iter, i + 1, o')
  }

  function Pause(w: World, i: nat, seconds: int): World {
    if i > 0 then w.(slept := w.slept + seconds) else w
  }

  /** Doubling with a cap. */
  function Grow(gap: int, cap: int): int {
    if 2 * gap > cap then cap else 2 * gap
  }

  function Backoff(w: World, i: nat, cap: int): World {
    if i >= 1 then w.(gap := Grow(w.gap, cap)) else w
  }

  /** One iteration of `retry`: only an API error that is not permanent backs off. */
  function RetryStep<S>(cap: int, f: (World, S) -> Out<S>, i: nat, w: World, s: S): (Out<S>, bool) {
    var o := f(Pause(w, i, w.gap), s);
    if o.err.None? then (o, true)
    else if !o.err.value.Api? then (o, false)
    else if SkipRetry(o.err.value.codes) then (o, true)
    else (o.(w := Backoff(o.w, i, cap)), false)
  }

  /** One iteration of `retryWithMinRetries`: like `retry`, on a gap of its own. */
  function MinStep<S>(cap: int, f: (World, S) -> Out<S>, i: nat, w: World, s: WithGap<S>): (Out<WithGap<S>>, bool) {
    var o := f(Pause(w, i, s.gap), s.s);
    var o' := Out(o.err, WithGap(o.s, s.gap), o.w);
    if o.err.None? then (o', true)
    else if !o.err.value.Api? then (o', false)
    else if SkipRetry(o.err.value.codes) then (o', true)
    else (o'.(s := WithGap(o.s, if i >= 1 then Grow(s.gap, cap) else s.gap)), false)
  }

  /** One iteration of `FlexyRetry.FlexyRetry`: the closure itself decides when to stop. */
  function FlexyStep<S>(cap: int, f: (World, S) -> (Out<S>, bool), i: nat, w: World, s: S): (Out<S>, bool) {
    var (o, stop) := f(Pause(w, i, w.gap), s);
    if stop then (o, true) else (o.(w := Backoff(o.w, i, cap)), false)
  }

  /** One iteration of `FlexyRetry.FlexyRetryWithConstGap`. */
  function ConstStep<S>(f: (World, S) -> (Out<S>, bool), i: nat, w: World, s: S): (Out<S>, bool) {
    f(Pause(w, i, CONSTANT_RETRY_GAP), s)
  }

  type Iteration<!S> = (nat, World, S) -> (Out<S>, bool)

  function RetryIter<S>(cap: int, f: (World, S) -> Out<S>): Iteration<S> {
    (i: nat, w: World, s: S) => RetryStep(cap, f, i, w, s)
  }

  function MinIter<S>(cap: int, f: (World, S) -> Out<S>): Iteration<WithGap<S>> {
    (i: nat, w: World, s: WithGap<S>) => MinStep(cap, f, i, w, s)
  }

  function FlexyIter<S>(cap: int, f: (World, S) -> (Out<S>, bool)): Iteration<S> {
    (i: nat, w: World, s: S) => FlexyStep(cap, f, i, w, s)
  }

  function ConstIter<S>(f: (World, S) -> (Out<S>, bool)): Iteration<S> {
    (i: nat, w: World, s: S) => ConstStep(f, i, w, s)
  }

  // ---- The loops ----

  /** The Go struct FlexyRetry. */
  datatype FlexyRetry = FlexyRetry(maxRetryAttempt: int, maxRetryGap: int)

  /** Who writes the limits: a provider being set up, a session being opened. */
  datatype LimitWrite = SetUp(attempts: int, gap: int) | Open(attempts: int, gap: int)

  /** The limits after one write: only positive values take effect. */
  function LimitsAfter(w: LimitWrite, limits: FlexyRetry): FlexyRetry {
    FlexyRetry(if w.attempts > 0 then w.attempts else limits.maxRetryAttempt,
               if w.gap > 0 then w.gap else limits.maxRetryGap)
  }

  /** The limits of the sessions opened by these writes, in order. */
  function SessionsOpened(writes: seq<LimitWrite>, limits: FlexyRetry): seq<FlexyRetry> {
    if writes == [] then []
    else
      var limits' := LimitsAfter(writes[0], limits);
      (if writes[0].Open? then [limits'] else []) + SessionsOpened(writes[1..], limits')
  }

  /** The package-level variables of util.go, with a clock and a call counter. */
  class Process {
    var maxRetryAttempt: int
    var minRetryAttempt: int  // never written after start-up
    var maxRetryGap: int
    var retryGap: int
    var slept: int
    var calls: nat

    constructor ()
      ensures maxRetryAttempt == 10 && minRetryAttempt == 5 && maxRetryGap == 60 && retryGap == 10
      ensures slept == 0 && calls == 0 && Valid()
    {
      maxRetryAttempt, minRetryAttempt, maxRetryGap, retryGap, slept, calls := 10, 5, 60, 10, 0, 0;
    }

    /** What every writer of the limits and of the gap keeps: no loop can run zero times. */
    ghost predicate Valid()
      reads this
    {
      maxRetryAttempt >= 1 && minRetryAttempt == 5 && maxRetryGap >= 1 && retryGap >= 1
    }

    function Now(): World
      reads this
    {
      World(retryGap, slept, calls)
    }

    method Resume(w: World)
      modifies this`retryGap, this`slept, this`calls
      ensures Now() == w
    {
      retryGap, slept, calls := w.gap, w.slept, w.calls;
    }

    method Sleep(seconds: int)
      modifies this`slept
      ensures slept == old(slept) + seconds
    {
      slept := slept + seconds;
    }

    /** SetRetryParameters; OpenSession writes the limits under the same guards. */
    method SetRetryParameters(maxAttempts: int, maxGap: int)
      requires Valid()
      modifies this`maxRetryAttempt, this`maxRetryGap
      ensures Valid()
      ensures maxRetryAttempt == (if maxAttempts > 0 then maxAttempts else old(maxRetryAttempt))
      ensures maxRetryGap == (if maxGap > 0 then maxGap else old(maxRetryGap))
    {
      if maxAttempts > 0 {
        maxRetryAttempt := maxAttempts;
      }
      if maxGap > 0 {
        maxRetryGap := maxGap;
      }
    }

    /** The part of OpenSession that touches the limits: it writes them and copies them into
        the session's own retry struct (NewFlexyRetryDefault). */
    method OpenSession(configAttempts: int, configGap: int) returns (r: FlexyRetry)
      requires Valid()
      modifies this`maxRetryAttempt, this`maxRetryGap
      ensures Valid()
      ensures r == FlexyRetry(maxRetryAttempt, maxRetryGap)
      ensures r.maxRetryAttempt >= 1 && r.maxRetryGap >= 1
      ensures maxRetryAttempt == (if configAttempts > 0 then configAttempts else old(maxRetryAttempt))
      ensures maxRetryGap == (if configGap > 0 then configGap else old(maxRetryGap))
    {
      SetRetryParameters(configAttempts, configGap);
      r := FlexyRetry(maxRetryAttempt, maxRetryGap);
    }

    /** Any sequence of provider set-ups and session openings leaves the limits positive, in the
        process and in every session, so no retry loop can return nil without having called its
        function. Every opened session is returned, with the limits of its moment. */
    method Configure(writes: seq<LimitWrite>) returns (sessions: seq<FlexyRetry>)
      requires Valid()
      modifies this`maxRetryAttempt, this`maxRetryGap
      ensures Valid()
      ensures sessions == SessionsOpened(writes, FlexyRetry(old(maxRetryAttempt), old(maxRetryGap)))
      ensures forall k :: 0 <= k < |sessions| ==> sessions[k].maxRetryAttempt >= 1 && sessions[k].maxRetryGap >= 1
    {
      sessions := [];
      ghost var all := SessionsOpened(writes, FlexyRetry(maxRetryAttempt, maxRetryGap));
      for k := 0 to |writes|
        invariant Valid()
        invariant sessions + SessionsOpened(writes[k..], FlexyRetry(maxRetryAttempt, maxRetryGap)) == all
        invariant forall j :: 0 <= j < |sessions| ==> sessions[j].maxRetryAttempt >= 1 && sessions[j].maxRetryGap >= 1
      {
        assert writes[k..][1..] == writes[k + 1..];
        match writes[k] {
          case SetUp(attempts, gap) => SetRetryParameters(attempts, gap);
          case Open(attempts, gap) =>
            var r := OpenSession(attempts, gap);
            sessions := sessions + [r];
        }
      }
    }

    method Retry<S>(f: (World, S) -> Out<S>, captured: S) returns (err: Option<Err>, s: S)
      modifies this`retryGap, this`slept, this`calls
      ensures Out(err, s, Now())
           == Until(maxRetryAttempt, RetryIter(maxRetryGap, f), 0, Out(None, captured, old(Now())))
    {
      hide SkipRetry;
      err, s := None, captured;
      ghost var all := Until(maxRetryAttempt, RetryIter(maxRetryGap, f), 0, Out(err, s, Now()));
      var i := 0;
      while i < maxRetryAttempt
        invariant 0 <= i
        invariant Until(maxRetryAttempt, RetryIter(maxRetryGap, f), i, Out(err, s, Now())) == all
      {
        assert RetryIter(maxRetryGap, f)(i, Now(), s) == RetryStep(maxRetryGap, f, i, Now(), s);
        if i > 0 {
          Sleep(retryGap);
        }
        var o := f(Now(), s);
        Resume(o.w);
        err, s := o.err, o.s;
        if err.Some? {
          if !err.value.Api? {
            i := i + 1;
            continue;
          }
          if SkipRetry(err.value.codes) {
            break;
          }
          if i >= 1 {
            retryGap := 2 * retryGap;
            if retryGap > maxRetryGap {
              retryGap := maxRetryGap;
            }
          }
          i := i + 1;
          continue;
        }
        return;
      }
    }

    method RetryWithMinRetries<S>(f: (World, S) -> Out<S>, captured: S)
        returns (err: Option<Err>, s: S, ghost ownGap: int)
      modifies this`retryGap, this`slept, this`calls
      ensures Out(err, WithGap(s, ownGap), Now())
           == Until(minRetryAttempt, MinIter(maxRetryGap, f), 0, Out(None, WithGap(captured, 10), old(Now())))
    {
      hide SkipRetry;
      err, s := None, captured;
      var localGap := 10;
      ghost var all := Until(minRetryAttempt, MinIter(maxRetryGap, f), 0, Out(err, WithGap(s, localGap), Now()));
      var i := 0;
      while i < minRetryAttempt
        invariant 0 <= i
        invariant Until(minRetryAttempt, MinIter(maxRetryGap, f), i, Out(err, WithGap(s, localGap), Now())) == all
      {
        ghost var step := MinStep(maxRetryGap, f, i, Now(), WithGap(s, localGap));
        assert MinIter(maxRetryGap, f)(i, Now(), WithGap(s, localGap)) == step;
        if i > 0 {
          Sleep(localGap);
        }
        var o := f(Now(), s);
        Resume(o.w);
        err, s := o.err, o.s;
        if err.Some? {
          if !err.value.Api? {
            i := i + 1;
            continue;
          }
          if SkipRetry(err.value.codes) {
            break;
          }
          if i >= 1 {
            localGap := 2 * localGap;
            if localGap > maxRetryGap {
              localGap := maxRetryGap;
            }
          }
          i := i + 1;
          continue;
        }
        ownGap := localGap;
        return;
      }
      ownGap := localGap;
    }

    method RunFlexyRetry<S>(r: FlexyRetry, f: (World, S) -> (Out<S>, bool), captured: S)
        returns (err: Option<Err>, s: S)
      modifies this`retryGap, this`slept, this`calls
      ensures Out(err, s, Now())
           == Until(r.maxRetryAttempt, FlexyIter(r.maxRetryGap, f), 0, Out(None, captured, old(Now())))
    {
      err, s := None, captured;
      ghost var all := Until(r.maxRetryAttempt, FlexyIter(r.maxRetryGap, f), 0, Out(err, s, Now()));
      var i := 0;
      while i < r.maxRetryAttempt
        invariant 0 <= i
        invariant Until(r.maxRetryAttempt, FlexyIter(r.maxRetryGap, f), i, Out(err, s, Now())) == all
      {
        assert FlexyIter(r.maxRetryGap, f)(i, Now(), s) == FlexyStep(r.maxRetryGap, f, i, Now(), s);
        if i > 0 {
          Sleep(retryGap);
        }
        var (o, stopRetry) := f(Now(), s);
        Resume(o.w);
        err, s := o.err, o.s;
        if stopRetry {
          break;
        }
        if i >= 1 {
          retryGap := 2 * retryGap;
          if retryGap > r.maxRetryGap {
            retryGap := r.maxRetryGap;
          }
        }
        i := i + 1;
      }
    }

    method RunFlexyRetryWithConstGap<S>(r: FlexyRetry, f: (World, S) -> (Out<S>, bool), captured: S)
        returns (err: Option<Err>, s: S)
      modifies this`retryGap, this`slept, this`calls
      ensures Out(err, s, Now())
           == Until(4 * r.maxRetryAttempt, ConstIter(f), 0, Out(None, captured, old(Now())))
    {
      err, s := None, captured;
      var totalAttempt := r.maxRetryAttempt * 4;
      ghost var all := Until(totalAttempt, ConstIter(f), 0, Out(err, s, Now()));
      var i := 0;
      while i < totalAttempt
        invariant 0 <= i
        invariant Until(totalAttempt, ConstIter(f), i, Out(err, s, Now())) == all
      {
        assert ConstIter(f)(i, Now(), s) == ConstStep(f, i, Now(), s);
        if i > 0 {
          Sleep(CONSTANT_RETRY_GAP);
        }
        var (o, stopRetry) := f(Now(), s);
        Resume(o.w);
        err, s := o.err, o.s;
        if stopRetry {
          break;
        }
        i := i + 1;
      }
    }
  }

  // ---- What every loop does ----

  /** The state of the loop after k iterations, none of which stopped it. */
  function After<S>(iter: Iteration<S>, o: Out<S>, k: nat): Out<S> {
    if k == 0 then o
    else var before := After(iter, o, k - 1); iter(k - 1, before.w, before.s).0
  }

  /** Whether iteration k, reached from o without a stop, stops the loop. */
  predicate StopsAt<S>(iter: Iteration<S>, o: Out<S>, k: nat) {
    var before := After(iter, o, k);
    iter(k, before.w, before.s).1
  }

  lemma {:induction false} UntilFrom<S>(n: int, iter: Iteration<S>, o: Out<S>, k: nat)
    requires k <= n && forall j: nat :: j < k ==> !StopsAt(iter, o, j)
    ensures Until(n, iter, 0, o) == Until(n, iter, k, After(iter, o, k))
  {
    if k > 0 {
      UntilFrom(n, iter, o, k - 1);
      assert !StopsAt(iter, o, k - 1);
    }
  }

  /** The loop ends with the first stopping iteration below n, or else after n iterations. */
  lemma LoopResult<S>(n: nat, iter: Iteration<S>, o: Out<S>) returns (k: nat)
    ensures k <= n && forall j: nat :: j < k ==> !StopsAt(iter, o, j)
    ensures k < n ==> StopsAt(iter, o, k)
    ensures Until(n, iter, 0, o) == After(iter, o, if k < n then k + 1 else n)
  {
    k := 0;
    while k < n && !StopsAt(iter, o, k)
      invariant k <= n && forall j: nat :: j < k ==> !StopsAt(iter, o, j)
    {
      k := k + 1;
    }
    UntilFrom(n, iter, o, k);
  }

  /** One iteration makes at most c calls, sleeps at most z seconds (and p more before it when
      it is not the first) and keeps the gap at or below m. */
  ghost predicate Bounded<S>(iter: Iteration<S>, i: nat, w: World, s: S,
                             c: nat, z: nat, p: nat, m: int) {
    var o := iter(i, w, s).0;
    && o.w.gap <= m
    && o.w.calls <= w.calls + c
    && o.w.slept <= w.slept + z + (if i > 0 then p else 0)
  }

  lemma {:induction false} UntilBounded<S(!new)>(n: nat, iter: Iteration<S>, i: nat, o: Out<S>,
                                                 c: nat, z: nat, p: nat, m: int)
    requires i <= n && o.w.gap <= m
    requires forall j: nat, w: World, s: S :: w.gap <= m ==> Bounded(iter, j, w, s, c, z, p, m)
    ensures var r := Until(n, iter, i, o);
      && r.w.gap <= m
      && r.w.calls <= o.w.calls + (n - i) * c
      && r.w.slept <= o.w.slept + (n - i) * z + Pauses(n, i) * p
    decreases n - i
  {
    if i < n {
      assert Bounded(iter, i, o.w, o.s, c, z, p, m);
      var (o', stop) := iter(i, o.w, o.s);
      if stop {
        MulMonotone(1, n - i, c);
        MulMonotone(1, n - i, z);
        MulMonotone(if i > 0 then 1 else 0, Pauses(n, i), p);
      } else {
        UntilBounded(n, iter, i + 1, o', c, z, p, m);
        MulStep(n - i - 1, c);
        MulStep(n - i - 1, z);
        MulStep(n - i - 1, p);
      }
    }
  }

  /** How many of the iterations i..n are preceded by a pause. */
  function Pauses(n: nat, i: nat): nat
    requires i <= n
  {
    if i == 0 then (if n == 0 then 0 else n - 1) else n - i
  }

  lemma MulStep(k: nat, x: nat)
    ensures (k + 1) * x == k * x + x
  {
  }

  lemma MulMonotone(j: nat, k: nat, x: nat)
    requires j <= k
    ensures j * x <= k * x
  {
  }
}
