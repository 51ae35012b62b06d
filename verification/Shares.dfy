/** Operations on a whole share: waiting for it to be stable, expanding it, deleting it. */
module Shares {
  import opened Strings
  import opened RetryEngine
  import opened Backoff
  import opened Sizes

  datatype Share = Share(id: string, status: string, sizeGiB: int, targets: nat)

  /** How the backend answers the k-th call of the process. */
  datatype Backend = Backend(
    get: nat -> Reply<Share>,
    expand: nat -> Reply<Share>,
    delete: nat -> Reply<()>)

  /** IsValidVolumeIDFormat */
  predicate ValidVolumeID(id: string) {
    |Split(id, "-")| >= 5
  }

  // ---- Waiting for the stable state ----

  /** A poll of the wait: a share that is not stable is reported as a user message, which `retry`
      repeats without backing off. */
  function StableReply(get: nat -> Reply<Share>): nat -> Reply<Share> {
    (k: nat) => Stabilised(get(k))
  }

  function Stabilised(r: Reply<Share>): Reply<Share> {
    if r.Ok? && r.value.status != STABLE then Fail(Message("VolumeNotInValidState")) else r
  }

  function StableWait(n: int, cap: int, b: Backend, w: World): (Option<Err>, World) {
    var o := RetryLeaf(n, cap, StableReply(b.get), w);
    (if o.err.Some? then Some(Message("VolumeNotInValidState")) else None, o.w)
  }

  method WaitForValidVolumeState(p: Process, b: Backend) returns (err: Option<Err>)
    modifies p`retryGap, p`slept, p`calls
    ensures (err, p.Now()) == StableWait(p.maxRetryAttempt, p.maxRetryGap, b, old(p.Now()))
  {
    var share;
    err, share := p.Retry(Leaf(StableReply(b.get)), None);
    if err.Some? {
      err := Some(Message("VolumeNotInValidState"));
    }
  }

  predicate StableAt(b: Backend, k: nat) {
    b.get(k).Ok? && b.get(k).value.status == "stable"
  }

  predicate PermanentAt(b: Backend, k: nat) {
    b.get(k).Fail? && Permanent(b.get(k).err)
  }

  /** Poll k sees the share stable, and none of the calls before it met a permanent API error. */
  ghost predicate StableFirst(b: Backend, from: nat, k: nat) {
    from <= k && StableAt(b, k) && forall j: nat :: from <= j < k ==> !PermanentAt(b, j)
  }

  /** The wait is exact: nil if and only if within the attempt limit some poll sees the share
      stable and no earlier poll met a permanent API error. */
  lemma StableWaitExact(b: Backend, n: nat, cap: nat, w: World)
    requires n >= 1 && w.gap >= 0
    ensures StableWait(n, cap, b, w).0 == None
      <==> exists k: nat :: k < w.calls + n && StableFirst(b, w.calls, k)
    ensures StableWait(n, cap, b, w).0.Some? ==> StableWait(n, cap, b, w).0.value == Message("VolumeNotInValidState")
  {
    hide SkipRetry, RetryLeaf;
    var reply := StableReply(b.get);
    NilMeansSuccess(n, cap, reply, w);
    forall k: nat ensures reply(k).Ok? == StableAt(b, k) && Final(reply(k)) == (StableAt(b, k) || PermanentAt(b, k)) {
      assert reply(k) == Stabilised(b.get(k));
    }
    if StableWait(n, cap, b, w).0 == None {
      var k :| w.calls <= k < w.calls + n && reply(k).Ok? && NoneFinal(reply, w.calls, 0, k - w.calls);
      assert StableFirst(b, w.calls, k);
    }
    if exists k: nat :: k < w.calls + n && StableFirst(b, w.calls, k) {
      var k: nat :| k < w.calls + n && StableFirst(b, w.calls, k);
      var first := LeastStable(b, w.calls, k);
      assert NoneFinal(reply, w.calls, 0, first - w.calls);
      assert reply(first).Ok?;
    }
  }

  lemma LeastStable(b: Backend, from: nat, k: nat) returns (first: nat)
    requires from <= k && StableAt(b, k)
    ensures from <= first <= k && StableAt(b, first) && forall j: nat :: from <= j < first ==> !StableAt(b, j)
  {
    first := from;
    while !StableAt(b, first)
      invariant from <= first <= k && forall j: nat :: from <= j < first ==> !StableAt(b, j)
      decreases k - first
    {
      first := first + 1;
    }
  }

  /** Polls that merely see a share that is not stable never increase the gap: whatever the polls
      see, it is doubled once for each transient API error past the first poll, with the cap. */
  lemma WaitingDoesNotBackOff(b: Backend, n: nat, cap: nat, w: World)
    requires n >= 1 && w.gap >= 0
    ensures var last := LastCall(StableReply(b.get), w.calls, 0, n);
      var d := Doublings(b.get, w.calls, 0, last);
      StableWait(n, cap, b, w).1.gap == if d == 0 then w.gap else Capped(w.gap, cap, d)
  {
    hide SkipRetry, Capped;
    RetryRefinement(n, cap, StableReply(b.get), w);
    SameDoublings(b, w.calls, 0, LastCall(StableReply(b.get), w.calls, 0, n));
  }

  lemma {:induction false} SameDoublings(b: Backend, c: nat, i: nat, j: nat)
    ensures Doublings(StableReply(b.get), c, i, j) == Doublings(b.get, c, i, j)
    decreases j - i
  {
    hide SkipRetry;
    if i <= j {
      assert StableReply(b.get)(c + i) == Stabilised(b.get(c + i));
      SameDoublings(b, c, i + 1, j);
    }
  }

  /** The call that decides a retried request whose first call is call c: its first final reply
      within the limit, or else its last one. */
  function DecidingCall<T>(reply: nat -> Reply<T>, c: nat, n: nat): (k: nat)
    requires n >= 1
    ensures c <= k < c + n
  {
    c + LastCall(reply, c, 0, n)
  }

  /** The wait ends with the poll that decides, and with nil iff that one sees the share stable. */
  lemma StableWaitEnds(b: Backend, n: nat, cap: nat, w: World)
    requires n >= 1 && w.gap >= 0
    ensures var (err, w') := StableWait(n, cap, b, w);
      && w'.calls == DecidingCall(StableReply(b.get), w.calls, n) + 1
      && err == if StableAt(b, w'.calls - 1) then None else Some(Message("VolumeNotInValidState"))
  {
    hide SkipRetry, RetryLeaf, Capped;
    RetryRefinement(n, cap, StableReply(b.get), w);
    var k := w.calls + LastCall(StableReply(b.get), w.calls, 0, n);
    assert StableReply(b.get)(k) == Stabilised(b.get(k));
  }

  // ---- Expanding ----

  /** `retry` around one call, with the reply it ends on. */
  function CallRetry<T>(n: nat, cap: nat, reply: nat -> Reply<T>, w: World): (o: Out<Option<T>>)
    requires n >= 1 && w.gap >= 0
    ensures o.w.gap >= 0 && o.w.calls == w.calls + LastCall(reply, w.calls, 0, n) + 1
    ensures Matches(o, reply(o.w.calls - 1))
  {
    RetryRefinement(n, cap, reply, w);
    RetryLeaf(n, cap, reply, w)
  }

  /** GetVolume */
  function GetVolumeRun(n: nat, cap: nat, b: Backend, id: string, w: World): (r: (Reply<Share>, World))
    requires n >= 1 && w.gap >= 0
    ensures r.1.gap >= 0
    ensures r.1.calls == if ValidVolumeID(id) then DecidingCall(b.get, w.calls, n) + 1 else w.calls
    ensures r.0.Ok? <==> ValidVolumeID(id) && b.get(DecidingCall(b.get, w.calls, n)).Ok?
    ensures r.0.Ok? ==> b.get(DecidingCall(b.get, w.calls, n)) == Ok(r.0.value)
    ensures r.0.Fail? ==>
      r.0.err == Message(if ValidVolumeID(id) then "StorageFindFailedWithVolumeId" else "InvalidVolumeID")
  {
    if !ValidVolumeID(id) then (Fail(Message("InvalidVolumeID")), w)
    else
      var o := CallRetry(n, cap, b.get, w);
      (if o.err.Some? then Fail(Message("StorageFindFailedWithVolumeId")) else Ok(o.s.value), o.w)
  }

  method GetVolume(p: Process, b: Backend, id: string) returns (r: Reply<Share>)
    requires p.maxRetryAttempt >= 1 && p.retryGap >= 0 && p.maxRetryGap >= 0
    modifies p`retryGap, p`slept, p`calls
    ensures (r, p.Now()) == GetVolumeRun(p.maxRetryAttempt, p.maxRetryGap, b, id, old(p.Now()))
  {
    if !ValidVolumeID(id) {
      return Fail(Message("InvalidVolumeID"));
    }
    ghost var o := CallRetry(p.maxRetryAttempt, p.maxRetryGap, b.get, p.Now());
    var err, share := p.Retry(Leaf(b.get), None);
    assert Out(err, share, p.Now()) == o;
    if err.Some? {
      return Fail(Message("StorageFindFailedWithVolumeId"));
    }
    return Ok(share.value);
  }

  /** The result of ExpandVolume, and the new size in GiB it asked the backend for, if it did. */
  datatype Expansion = Expansion(size: int, err: Option<Err>, sent: Option<int>)

  function ExpandRun(n: nat, cap: nat, b: Backend, id: string, bytes: int, w: World): (Expansion, World)
    requires n >= 1 && w.gap >= 0
  {
    var (existing, w1) := GetVolumeRun(n, cap, b, id, w);
    if existing.Fail? then (Expansion(-1, Some(existing.err), None), w1)
    else if existing.value.sizeGiB >= bytes then (Expansion(existing.value.sizeGiB, None, None), w1)
    else
      var sent := Some(RoundUpSize(bytes, GIB));
      var o := CallRetry(n, cap, b.expand, w1);
      if o.err.Some? then (Expansion(-1, Some(Message("FailedToExpandVolume")), sent), o.w)
      else
        var (err, w2) := StableWait(n, cap, b, o.w);
        (if err.Some? then Expansion(-1, Some(Message("VolumeNotInValidState")), sent)
         else Expansion(bytes, None, sent),
         w2)
  }

  method ExpandVolume(p: Process, b: Backend, id: string, bytes: int) returns (r: Expansion)
    requires p.maxRetryAttempt >= 1 && p.retryGap >= 0 && p.maxRetryGap >= 0
    modifies p`retryGap, p`slept, p`calls
    ensures (r, p.Now()) == ExpandRun(p.maxRetryAttempt, p.maxRetryGap, b, id, bytes, old(p.Now()))
  {
    var existing := GetVolume(p, b, id);
    if existing.Fail? {
      return Expansion(-1, Some(existing.err), None);
    }
    if existing.value.sizeGiB >= bytes {
      return Expansion(existing.value.sizeGiB, None, None);
    }
    var newSize := RoundUpSize(bytes, GIB);
    ghost var o := CallRetry(p.maxRetryAttempt, p.maxRetryGap, b.expand, p.Now());
    var failure, share := p.Retry(Leaf(b.expand), None);
    assert Out(failure, share, p.Now()) == o;
    if failure.Some? {
      return Expansion(-1, Some(Message("FailedToExpandVolume")), Some(newSize));
    }
    var unstable := WaitForValidVolumeState(p, b);
    if unstable.Some? {
      return Expansion(-1, Some(Message("VolumeNotInValidState")), Some(newSize));
    }
    return Expansion(bytes, None, Some(newSize));
  }

  /** Read k shows a share of fewer GiB than the bytes asked for. */
  predicate ShowsLess(b: Backend, k: nat, bytes: int) {
    b.get(k).Ok? && b.get(k).value.sizeGiB < bytes
  }

  /** The backend is asked to expand iff the read that decides GetVolume shows a number below the
      bytes. The size sent is the least number of GiB that holds them, up to the wrap-around. The
      expansion succeeds iff the expand call that decides, made after that read, is accepted and
      the last poll, made after it, sees the share stable. */
  lemma ExpansionIsEnough(n: nat, cap: nat, b: Backend, id: string, bytes: int, w: World)
    requires n >= 1 && w.gap >= 0 && -INT64_LIMIT <= bytes < INT64_LIMIT
    ensures var (r, w') := ExpandRun(n, cap, b, id, bytes, w);
      var read := DecidingCall(b.get, w.calls, n);
      var asked := DecidingCall(b.expand, read + 1, n);
      && (r.sent.Some? <==> ValidVolumeID(id) && ShowsLess(b, read, bytes))
      && (r.sent.Some? ==>
            && (bytes >= 0 ==> (Holds(r.sent.value, bytes) <==> bytes <= INT64_LIMIT - GIB))
            && read < asked < w'.calls
            && (r.err == None <==> b.expand(asked).Ok? && StableAt(b, w'.calls - 1))
            && (b.expand(asked).Ok? ==> asked < w'.calls - 1))
  {
    hide SkipRetry, LastCall, RetryLeaf, StableWait, RoundUpSize, Holds;
    if bytes >= 0 {
      RoundUpExact(bytes);
    }
    var (existing, w1) := GetVolumeRun(n, cap, b, id, w);
    if existing.Ok? && existing.value.sizeGiB < bytes {
      var o := CallRetry(n, cap, b.expand, w1);
      StableWaitEnds(b, n, cap, o.w);
    }
  }

  /** What an expansion returns, on the replies alone: the requested bytes if it succeeds, the number
      read if that is no less, else -1 and the code of the step that failed. */
  lemma ExpandAnswers(n: nat, cap: nat, b: Backend, id: string, bytes: int, w: World)
    requires n >= 1 && w.gap >= 0
    ensures var (r, w') := ExpandRun(n, cap, b, id, bytes, w);
      var read := DecidingCall(b.get, w.calls, n);
      var asked := DecidingCall(b.expand, read + 1, n);
      var stable := DecidingCall(StableReply(b.get), asked + 1, n);
      if !ValidVolumeID(id) then r == Expansion(-1, Some(Message("InvalidVolumeID")), None) && w'.calls == w.calls
      else if b.get(read).Fail? then
        r == Expansion(-1, Some(Message("StorageFindFailedWithVolumeId")), None) && w'.calls == read + 1
      else if !ShowsLess(b, read, bytes) then
        r == Expansion(b.get(read).value.sizeGiB, None, None) && w'.calls == read + 1
      else if b.expand(asked).Fail? then
        (r.size, r.err) == (-1, Some(Message("FailedToExpandVolume"))) && w'.calls == asked + 1
      else
        && (r.size, r.err) == (if StableAt(b, stable) then (bytes, None)
                               else (-1, Some(Message("VolumeNotInValidState"))))
        && w'.calls == stable + 1
  {
    hide SkipRetry, LastCall, RetryLeaf, StableWait, RoundUpSize;
    var (existing, w1) := GetVolumeRun(n, cap, b, id, w);
    if existing.Ok? && existing.value.sizeGiB < bytes {
      var o := CallRetry(n, cap, b.expand, w1);
      StableWaitEnds(b, n, cap, o.w);
    }
  }

  /** "Expanding never asks for less than the share has" fails, because a size in GiB is compared
      with a size in bytes: the request goes out and asks for a smaller share exactly when the
      bytes exceed the number of GiB but fit into one GiB less than the share has, or are so many
      that rounding them up wraps around. */
  lemma ExpandShrinksExactly(n: nat, cap: nat, b: Backend, id: string, bytes: int, w: World)
    requires n >= 1 && w.gap >= 0 && -INT64_LIMIT <= bytes < INT64_LIMIT
    ensures var sent := ExpandRun(n, cap, b, id, bytes, w).0.sent;
      match GetVolumeRun(n, cap, b, id, w).0
      case Fail(_) => sent == None
      case Ok(share) => share.sizeGiB >= 0 ==>
        (sent.Some? && sent.value < share.sizeGiB
         <==> share.sizeGiB < bytes && (bytes <= (share.sizeGiB - 1) * GIB || bytes > INT64_LIMIT - GIB))
  {
    hide SkipRetry, LastCall, RetryLeaf, StableWait, RoundUpSize, Holds;
    if bytes >= 0 {
      RoundUpExact(bytes);
    }
    var existing := GetVolumeRun(n, cap, b, id, w).0;
    if existing.Ok? && 0 <= bytes <= INT64_LIMIT - GIB {
      RoundUpAtMost(bytes, existing.value.sizeGiB - 1);
    }
  }

  /** Both ways it happens: a share of 20 GiB, asked for 5 GiB and for 2^63 - 1 bytes. */
  lemma ExpandCanShrink(n: nat, cap: nat, b: Backend, id: string, w: World)
    requires n >= 1 && w.gap >= 0 && ValidVolumeID(id)
    requires forall k :: b.get(k) == Ok(Share(id, STABLE, 20, 0))
    ensures ExpandRun(n, cap, b, id, 5 * GIB, w).0.sent == Some(5)
    ensures var sent := ExpandRun(n, cap, b, id, INT64_LIMIT - 1, w).0.sent;
      sent.Some? && sent.value < 0
  {
    hide SkipRetry, LastCall, RetryLeaf, StableWait, RoundUpSize;
    assert GetVolumeRun(n, cap, b, id, w).0 == Ok(Share(id, STABLE, 20, 0));
    GiBFits(5);
    RoundingUndoesConversion(5);
    RoundUpExact(INT64_LIMIT - 1);
  }

  // ---- Deleting ----

  /** What the polls of WaitForVolumeDeletion capture: the flag of the last API error, and whether
      a poll crashed on an error that is not an API error (a failed type assertion). */
  datatype Polling = Polling(skip: bool, crashed: bool)

  function PollGone(b: Backend, w: World, s: Polling): (Out<Polling>, bool) {
    var w1 := w.(calls := w.calls + 1);
    match b.get(w.calls)
    case Ok(_) => (Out(None, s, w1), false)
    case Fail(e) =>
      if e.Api? then (Out(None, s.(skip := SkipRetry(e.codes)), w1), SkipRetry(e.codes))
      else (Out(None, s.(crashed := true), w1), true)
  }

  function GonePolls(b: Backend): (World, Polling) -> (Out<Polling>, bool) {
    (w: World, s: Polling) => PollGone(b, w, s)
  }

  function GoneWait(r: FlexyRetry, b: Backend, w: World): Out<Polling> {
    Until(r.maxRetryAttempt, FlexyIter(r.maxRetryGap, GonePolls(b)), 0, Out(None, Polling(false, false), w))
  }

  /** Poll k fails with an error that is not an API error. */
  predicate CrashesAt(b: Backend, k: nat) {
    b.get(k).Fail? && !b.get(k).err.Api?
  }

  /** Poll k crashes, and none of the calls before it met a permanent API error. */
  ghost predicate CrashFirst(b: Backend, from: nat, k: nat) {
    from <= k && CrashesAt(b, k) && forall j: nat :: from <= j < k ==> !PermanentAt(b, j)
  }

  /** Poll k meets a permanent API error, and none of the calls before it crashes. */
  ghost predicate GoneFirst(b: Backend, from: nat, k: nat) {
    from <= k && PermanentAt(b, k) && forall j: nat :: from <= j < k ==> !CrashesAt(b, j)
  }

  /** One of the calls from `from` up to the limit crashes before any met a permanent API error. */
  ghost predicate CrashesWithin(b: Backend, from: nat, limit: int) {
    exists k: nat :: k < limit && CrashFirst(b, from, k)
  }

  /** One of them meets a permanent API error before any crashes. */
  ghost predicate GoneWithin(b: Backend, from: nat, limit: int) {
    exists k: nat :: k < limit && GoneFirst(b, from, k)
  }

  lemma {:induction false} GonePollsFrom(r: FlexyRetry, b: Backend, i: nat, o: Out<Polling>)
    requires o.err == None && o.s == Polling(false, false)
    ensures var o' := Until(r.maxRetryAttempt, FlexyIter(r.maxRetryGap, GonePolls(b)), i, o);
      var c, limit := o.w.calls, o.w.calls + r.maxRetryAttempt - i;
      && o'.err == None && o'.w.calls >= c
      && (o'.s.crashed <==> CrashesWithin(b, c, limit))
      && (o'.s.skip <==> GoneWithin(b, c, limit))
    decreases r.maxRetryAttempt - i
  {
    if i < r.maxRetryAttempt {
      hide SkipRetry;
      var iter := FlexyIter(r.maxRetryGap, GonePolls(b));
      assert iter(i, o.w, o.s) == FlexyStep(r.maxRetryGap, GonePolls(b), i, o.w, o.s);
      var w := Pause(o.w, i, o.w.gap);
      assert GonePolls(b)(w, o.s) == PollGone(b, w, o.s);
      var (o', stop) := iter(i, o.w, o.s);
      var c: nat, limit := o.w.calls, o.w.calls + r.maxRetryAttempt - i;
      FirstEnding(b, c, limit);
      if !stop {
        GonePollsFrom(r, b, i + 1, o');
      }
    }
  }

  /** A first poll that crashes or meets a permanent API error decides; any other one does not. */
  lemma FirstEnding(b: Backend, c: nat, limit: int)
    requires c < limit
    ensures CrashesAt(b, c) ==> CrashesWithin(b, c, limit) && !GoneWithin(b, c, limit)
    ensures PermanentAt(b, c) ==> GoneWithin(b, c, limit) && !CrashesWithin(b, c, limit)
    ensures !CrashesAt(b, c) && !PermanentAt(b, c) ==>
      && CrashesWithin(b, c, limit) == CrashesWithin(b, c + 1, limit)
      && GoneWithin(b, c, limit) == GoneWithin(b, c + 1, limit)
  {
    hide SkipRetry;
    assert CrashesAt(b, c) ==> CrashFirst(b, c, c);
    assert PermanentAt(b, c) ==> GoneFirst(b, c, c);
    if !CrashesAt(b, c) && !PermanentAt(b, c) {
      var next := c + 1;
      forall k: nat
        ensures CrashFirst(b, c, k) == CrashFirst(b, next, k) && GoneFirst(b, c, k) == GoneFirst(b, next, k)
      {
        assert k < c || k == c || k >= next;
      }
      assert CrashesWithin(b, c, limit) == CrashesWithin(b, next, limit);
      assert GoneWithin(b, c, limit) == GoneWithin(b, next, limit);
    }
  }

  /** WaitForVolumeDeletion. It returns no error on any path, timeout included: nil does not mean
      that the share is gone. It crashes iff within the limit a poll fails with an error that is
      not an API error before any met a permanent API error, and it sees the share gone iff one
      meets a permanent API error before any crashes. */
  method WaitForVolumeDeletion(p: Process, r: FlexyRetry, b: Backend)
      returns (err: Option<Err>, crashed: bool, gone: bool)
    modifies p`retryGap, p`slept, p`calls
    ensures err == None
    ensures crashed <==> CrashesWithin(b, old(p.calls), old(p.calls) + r.maxRetryAttempt)
    ensures gone <==> GoneWithin(b, old(p.calls), old(p.calls) + r.maxRetryAttempt)
    ensures Out(err, Polling(gone, crashed), p.Now()) == GoneWait(r, b, old(p.Now()))
  {
    GonePollsFrom(r, b, 0, Out(None, Polling(false, false), p.Now()));
    var s;
    err, s := p.RunFlexyRetry(r, GonePolls(b), Polling(false, false));
    crashed, gone := s.crashed, s.skip;
  }

  /** How DeleteVolume ends: with an error or nil, or with a crash; whether it asked for the
      deletion, and whether it saw the share gone. */
  datatype Deletion = Deletion(err: Option<Err>, crashed: bool, sent: bool, gone: bool)

  function DeleteVolumeRun(n: nat, cap: nat, r: FlexyRetry, b: Backend, id: string, w: World): (Deletion, World)
    requires n >= 1 && w.gap >= 0
  {
    var (existing, w1) := GetVolumeRun(n, cap, b, id, w);
    if existing.Fail? then (Deletion(Some(existing.err), false, false, false), w1)
    else if existing.value.targets != 0 then
      (Deletion(Some(Message("VolumeAccessPointExist")), false, false, false), w1)
    else
      var o := CallRetry(n, cap, b.delete, w1);
      if o.err.Some? then (Deletion(Some(Message("FailedToDeleteVolume")), false, true, false), o.w)
      else
        var wait := GoneWait(r, b, o.w);
        (Deletion(None, wait.s.crashed, true, wait.s.skip), wait.w)
  }

  method DeleteVolume(p: Process, r: FlexyRetry, b: Backend, id: string) returns (d: Deletion)
    requires p.maxRetryAttempt >= 1 && p.retryGap >= 0 && p.maxRetryGap >= 0
    modifies p`retryGap, p`slept, p`calls
    ensures (d, p.Now()) == DeleteVolumeRun(p.maxRetryAttempt, p.maxRetryGap, r, b, id, old(p.Now()))
  {
    if !ValidVolumeID(id) {
      return Deletion(Some(Message("InvalidVolumeID")), false, false, false);
    }
    var existing := GetVolume(p, b, id);
    if existing.Fail? {
      return Deletion(Some(existing.err), false, false, false);
    }
    if existing.value.targets != 0 {
      return Deletion(Some(Message("VolumeAccessPointExist")), false, false, false);
    }
    ghost var o := CallRetry(p.maxRetryAttempt, p.maxRetryGap, b.delete, p.Now());
    var failure, done := p.Retry(Leaf(b.delete), None);
    assert Out(failure, done, p.Now()) == o;
    if failure.Some? {
      return Deletion(Some(Message("FailedToDeleteVolume")), false, true, false);
    }
    var err, crashed, gone := WaitForVolumeDeletion(p, r, b);
    return Deletion(err, crashed, true, gone);
  }

  predicate ShowsNoTargets(b: Backend, k: nat) {
    b.get(k).Ok? && b.get(k).value.targets == 0
  }

  /** Deletion is guarded by what was seen: it is asked for iff the read that decides GetVolume
      shows the share without mount targets, and the first delete call is the next one. Nil means
      only that the delete call that decides is accepted; from the call after it on, the run
      crashes or sees the share gone as the wait does. */
  lemma DeletionIsGuarded(n: nat, cap: nat, r: FlexyRetry, b: Backend, id: string, w: World)
    requires n >= 1 && w.gap >= 0
    ensures var (d, w') := DeleteVolumeRun(n, cap, r, b, id, w);
      var read := DecidingCall(b.get, w.calls, n);
      var asked := DecidingCall(b.delete, read + 1, n);
      var accepted := d.sent && b.delete(asked).Ok?;
      && (d.sent <==> ValidVolumeID(id) && ShowsNoTargets(b, read))
      && (d.sent ==> read < asked < w'.calls)
      && (d.err == None <==> accepted)
      && (d.err.Some? ==>
            d.err.value == Message(if !ValidVolumeID(id) then "InvalidVolumeID"
                                   else if b.get(read).Fail? then "StorageFindFailedWithVolumeId"
                                   else if !d.sent then "VolumeAccessPointExist"
                                   else "FailedToDeleteVolume"))
      && (!d.sent ==> w'.calls == if ValidVolumeID(id) then read + 1 else w.calls)
      && (d.crashed <==> accepted && CrashesWithin(b, asked + 1, asked + 1 + r.maxRetryAttempt))
      && (d.gone <==> accepted && GoneWithin(b, asked + 1, asked + 1 + r.maxRetryAttempt))
  {
    hide SkipRetry, LastCall, RetryLeaf;
    var (existing, w1) := GetVolumeRun(n, cap, b, id, w);
    if existing.Ok? && existing.value.targets == 0 {
      var o := CallRetry(n, cap, b.delete, w1);
      GonePollsFrom(r, b, 0, Out(None, Polling(false, false), o.w));
    }
  }
}
