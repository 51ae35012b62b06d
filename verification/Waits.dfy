/** WaitForCreateVolumeAccessPoint and WaitForDeleteVolumeAccessPoint: polling loops with a
    constant gap whose polls are lookups with retries of their own. */
module Waits {
  import opened RetryEngine
  import opened Backoff
  import opened AccessPoints
  import opened TargetAnswers

  // ---- The polls, seen from outside ----

  /** The world in which poll k does its lookup: k lookups and k constant pauses later. */
  function PollWorld(ses: Session, b: Backend, req: Request, w: World, k: nat): World {
    if k == 0 then w
    else
      var before := Lookup(ses, b, req, PollWorld(ses, b, req, w, k - 1)).1;
      before.(slept := before.slept + CONSTANT_RETRY_GAP)
  }

  /** What poll k sees. */
  function Poll(ses: Session, b: Backend, req: Request, w: World, k: nat): Reply<Response> {
    Lookup(ses, b, req, PollWorld(ses, b, req, w, k)).0
  }

  predicate SeesStable(ses: Session, b: Backend, req: Request, w: World, k: nat) {
    var r := Poll(ses, b, req, w, k);
    r.Ok? && r.value.status == STABLE
  }

  predicate PollFails(ses: Session, b: Backend, req: Request, w: World, k: nat) {
    Poll(ses, b, req, w, k).Fail?
  }

  /** The number of polls: four times the attempt limit. */
  function Polls(ses: Session): nat {
    4 * ses.retry.maxRetryAttempt
  }

  // ---- Wait for create ----

  /** The closure captures the latest response. */
  function TryStable(ses: Session, b: Backend, req: Request, w: World): (Out<Option<Response>>, bool) {
    var (found, w1) := Lookup(ses, b, req, w);
    match found
    case Fail(e) => (Out(Some(e), None, w1), true)
    case Ok(v) => (Out(None, Some(v), w1), v.status == STABLE)
  }

  function StableAttempt(ses: Session, b: Backend, req: Request)
    : (World, Option<Response>) -> (Out<Option<Response>>, bool)
  {
    (w: World, s: Option<Response>) => TryStable(ses, b, req, w)
  }

  function WaitForCreateRun(ses: Session, b: Backend, req: Request, w: World): (Reply<Response>, World) {
    if !ValidRequest(req) then (InvalidRequest(ses), w)
    else
      var o := Until(Polls(ses), ConstIter(StableAttempt(ses, b, req)), 0, Out(None, None, w));
      (if o.err.None? && o.s.Some? && o.s.value.status == STABLE then Ok(o.s.value)
       else Fail(UserError(ses, "CreateVolumeAccessPointTimedOut")),
       o.w)
  }

  method WaitForCreateVolumeAccessPoint(p: Process, ses: Session, b: Backend, req: Request)
      returns (r: Reply<Response>)
    modifies p`retryGap, p`slept, p`calls
    ensures (r, p.Now()) == WaitForCreateRun(ses, b, req, old(p.Now()))
  {
    if !ValidRequest(req) {
      return InvalidRequest(ses);
    }
    var err, current := p.RunFlexyRetryWithConstGap(ses.retry, StableAttempt(ses, b, req), None);
    if err.None? && current.Some? && current.value.status == STABLE {
      return Ok(current.value);
    }
    return Fail(UserError(ses, "CreateVolumeAccessPointTimedOut"));
  }

  lemma {:induction false} StablePollWorlds(ses: Session, b: Backend, req: Request, w: World, k: nat)
    ensures var iter, start := ConstIter(StableAttempt(ses, b, req)), Out(None, None, w);
      && Pause(After(iter, start, k).w, k, CONSTANT_RETRY_GAP) == PollWorld(ses, b, req, w, k)
      && After(iter, start, k + 1) == TryStable(ses, b, req, PollWorld(ses, b, req, w, k)).0
      && StopsAt(iter, start, k) == (PollFails(ses, b, req, w, k) || SeesStable(ses, b, req, w, k))
  {
    hide Lookup;
    if k > 0 {
      StablePollWorlds(ses, b, req, w, k - 1);
    }
    var iter, start := ConstIter(StableAttempt(ses, b, req)), Out(None, None, w);
    var o := After(iter, start, k);
    assert iter(k, o.w, o.s) == ConstStep(StableAttempt(ses, b, req), k, o.w, o.s);
    var w' := PollWorld(ses, b, req, w, k);
    assert StableAttempt(ses, b, req)(w', o.s) == TryStable(ses, b, req, w');
  }

  /** The answer is v iff within the limit some poll sees v stable and every earlier poll succeeded
      and saw the target not stable yet. */
  lemma WaitForCreateByPolls(ses: Session, b: Backend, req: Request, w: World, v: Response)
    requires ValidRequest(req)
    ensures WaitForCreateRun(ses, b, req, w).0 == Ok(v)
      <==> exists k: nat ::
             && k < Polls(ses) && SeesStable(ses, b, req, w, k) && Poll(ses, b, req, w, k) == Ok(v)
             && forall j: nat :: j < k ==> !PollFails(ses, b, req, w, j) && !SeesStable(ses, b, req, w, j)
  {
    hide Lookup;
    var n, iter, start := Polls(ses), ConstIter(StableAttempt(ses, b, req)), Out(None, None, w);
    forall j: nat
      ensures StopsAt(iter, start, j) == (PollFails(ses, b, req, w, j) || SeesStable(ses, b, req, w, j))
      ensures After(iter, start, j + 1) == TryStable(ses, b, req, PollWorld(ses, b, req, w, j)).0
    {
      StablePollWorlds(ses, b, req, w, j);
    }
    var k := LoopResult(n, iter, start);
    var last: nat := if k < n then k else n - 1;
    assert After(iter, start, last + 1) == TryStable(ses, b, req, PollWorld(ses, b, req, w, last)).0;
    assert StopsAt(iter, start, last) == (k < n);
  }

  // ---- Wait for delete ----

  function TryGone(ses: Session, b: Backend, req: Request, w: World): (Out<()>, bool) {
    var (found, w1) := Lookup(ses, b, req, w);
    match found
    case Fail(e) => (Out(Some(e), (), w1), true)
    case Ok(_) => (Out(None, (), w1), false)
  }

  function GoneAttempt(ses: Session, b: Backend, req: Request): (World, ()) -> (Out<()>, bool) {
    (w: World, s: ()) => TryGone(ses, b, req, w)
  }

  function WaitForDeleteRun(ses: Session, b: Backend, req: Request, w: World): (Option<Err>, World) {
    if !ValidRequest(req) then (Some(UserError(ses, "ErrorRequiredFieldMissing")), w)
    else
      var o := Until(Polls(ses), ConstIter(GoneAttempt(ses, b, req)), 0, Out(None, (), w));
      (if o.err.Some? && o.err.value == Message(BY_ID_FAILED) then None
       else Some(UserError(ses, "DeleteVolumeAccessPointTimedOut")),
       o.w)
  }

  method WaitForDeleteVolumeAccessPoint(p: Process, ses: Session, b: Backend, req: Request)
      returns (err: Option<Err>)
    modifies p`retryGap, p`slept, p`calls
    ensures (err, p.Now()) == WaitForDeleteRun(ses, b, req, old(p.Now()))
  {
    if !ValidRequest(req) {
      return Some(UserError(ses, "ErrorRequiredFieldMissing"));
    }
    var last, _ := p.RunFlexyRetryWithConstGap(ses.retry, GoneAttempt(ses, b, req), ());
    if last.Some? {
      if last.value == Message(BY_ID_FAILED) {
        return None;
      }
    }
    return Some(UserError(ses, "DeleteVolumeAccessPointTimedOut"));
  }

  lemma {:induction false} GonePollWorlds(ses: Session, b: Backend, req: Request, w: World, k: nat)
    ensures var iter, start := ConstIter(GoneAttempt(ses, b, req)), Out(None, (), w);
      && Pause(After(iter, start, k).w, k, CONSTANT_RETRY_GAP) == PollWorld(ses, b, req, w, k)
      && After(iter, start, k + 1) == TryGone(ses, b, req, PollWorld(ses, b, req, w, k)).0
      && StopsAt(iter, start, k) == PollFails(ses, b, req, w, k)
  {
    hide Lookup;
    if k > 0 {
      GonePollWorlds(ses, b, req, w, k - 1);
    }
    var iter, start := ConstIter(GoneAttempt(ses, b, req)), Out(None, (), w);
    var o := After(iter, start, k);
    assert iter(k, o.w, o.s) == ConstStep(GoneAttempt(ses, b, req), k, o.w, o.s);
    var w' := PollWorld(ses, b, req, w, k);
    assert GoneAttempt(ses, b, req)(w', o.s) == TryGone(ses, b, req, w');
  }

  /** The code of a failed lookup depends on how the target was looked up. */
  lemma LookupFailure(ses: Session, b: Backend, req: Request, w: World)
    requires ValidRequest(req) && Lookup(ses, b, req, w).0.Fail?
    ensures Lookup(ses, b, req, w).0.err
         == UserError(ses, if req.accessPointID != "" then BY_ID_FAILED else BY_VPC_FAILED)
  {
  }

  /** The polling loop ends with the error of the first failing poll, or with none. */
  lemma GoneLoop(ses: Session, b: Backend, req: Request, w: World) returns (k: nat)
    ensures k <= Polls(ses) && forall j: nat :: j < k ==> !PollFails(ses, b, req, w, j)
    ensures k < Polls(ses) ==> PollFails(ses, b, req, w, k)
    ensures Until(Polls(ses), ConstIter(GoneAttempt(ses, b, req)), 0, Out(None, (), w)).err
         == if k < Polls(ses) then Some(Poll(ses, b, req, w, k).err) else None
  {
    hide Lookup;
    var n, iter, start := Polls(ses), ConstIter(GoneAttempt(ses, b, req)), Out(None, (), w);
    k := LoopResult(n, iter, start);
    forall j: nat
      ensures StopsAt(iter, start, j) == PollFails(ses, b, req, w, j)
      ensures After(iter, start, j + 1) == TryGone(ses, b, req, PollWorld(ses, b, req, w, j)).0
    {
      GonePollWorlds(ses, b, req, w, j);
    }
    var last: nat := if k < n then k else n - 1;
    assert After(iter, start, last + 1) == TryGone(ses, b, req, PollWorld(ses, b, req, w, last)).0;
    assert StopsAt(iter, start, last) == (k < n);
  }

  /** Nil iff the request is valid and names the target by ID, the message table is initialised, and
      within the limit some lookup fails. */
  lemma WaitForDeleteByPolls(ses: Session, b: Backend, req: Request, w: World)
    ensures WaitForDeleteRun(ses, b, req, w).0 == None
      <==> && ValidRequest(req) && req.accessPointID != "" && ses.messagesReady
           && exists k: nat :: k < Polls(ses) && PollFails(ses, b, req, w, k)
  {
    hide Lookup, Until;
    if ValidRequest(req) {
      var k := GoneLoop(ses, b, req, w);
      if k < Polls(ses) {
        LookupFailure(ses, b, req, PollWorld(ses, b, req, w, k));
      }
    }
  }

  // ---- Both waits, in terms of the backend's answers ----

  /** The call that decides poll j of a wait that begins with call c. */
  function PollEnd(b: Backend, req: Request, n: int, c: nat, j: nat): nat
    requires n >= 1
  {
    LookupEnd(b, req, n, if j == 0 then c else PollEnd(b, req, n, c, j - 1) + 1)
  }

  lemma {:induction false} PollAnswers(ses: Session, b: Backend, req: Request, w: World, j: nat)
    requires ValidRequest(req)
    ensures var k, r := PollEnd(b, req, ses.retry.maxRetryAttempt, w.calls, j), Poll(ses, b, req, w, j);
      && Lookup(ses, b, req, PollWorld(ses, b, req, w, j)).1.calls == k + 1
      && (forall t :: Shows(b, req, k, t) ==> r == Ok(Response(req.volumeID, t.id, t.status)))
      && (r.Fail? <==> ShowsNone(b, req, k))
  {
    hide Lookup, LookupEnd, Shows;
    if j > 0 {
      PollAnswers(ses, b, req, w, j - 1);
    }
    LookupAnswers(ses, b, req, PollWorld(ses, b, req, w, j));
    LookupFails(ses, b, req, PollWorld(ses, b, req, w, j));
  }

  /** Answer k shows this target in stable state. */
  ghost predicate ShowsStable(b: Backend, req: Request, k: nat, t: Target) {
    Shows(b, req, k, t) && t.status == "stable"
  }

  /** Answer k shows a target that is not stable yet. */
  ghost predicate ShowsPending(b: Backend, req: Request, k: nat) {
    exists t :: Shows(b, req, k, t) && t.status != "stable"
  }

  /** Poll k shows target t stable, after polls that showed it pending. */
  ghost predicate StableAfterPending(b: Backend, req: Request, n: int, c: nat, k: nat, t: Target)
    requires n >= 1
  {
    && k < 4 * n && ShowsStable(b, req, PollEnd(b, req, n, c, k), t)
    && forall j: nat :: j < k ==> ShowsPending(b, req, PollEnd(b, req, n, c, j))
  }

  /** Waiting for creation is exact: it succeeds iff, of at most four times as many polls as the
      limit allows attempts, one is answered with a target in stable state and every earlier one with
      a target in another state, and then it answers with that target; else it times out. */
  lemma WaitForCreateExact(ses: Session, b: Backend, req: Request, w: World)
    requires ValidRequest(req)
    ensures var r, n := WaitForCreateRun(ses, b, req, w).0, ses.retry.maxRetryAttempt;
      && (r.Ok? <==> exists k: nat, t :: StableAfterPending(b, req, n, w.calls, k, t))
      && (forall k: nat, t :: StableAfterPending(b, req, n, w.calls, k, t) ==>
            r == Ok(Response(req.volumeID, t.id, "stable")))
      && (r.Fail? ==> r == Fail(Code(ses, "CreateVolumeAccessPointTimedOut")))
  {
    hide Lookup, LookupEnd, Shows, Until, PollEnd;
    var n: nat, r := ses.retry.maxRetryAttempt, WaitForCreateRun(ses, b, req, w).0;
    forall j: nat
      ensures PollFails(ses, b, req, w, j) <==> ShowsNone(b, req, PollEnd(b, req, n, w.calls, j))
      ensures !PollFails(ses, b, req, w, j) && !SeesStable(ses, b, req, w, j)
        <==> ShowsPending(b, req, PollEnd(b, req, n, w.calls, j))
      ensures forall t :: Shows(b, req, PollEnd(b, req, n, w.calls, j), t) ==>
        Poll(ses, b, req, w, j) == Ok(Response(req.volumeID, t.id, t.status))
    {
      PollShows(ses, b, req, w, j);
    }
    forall k: nat, t | StableAfterPending(b, req, n, w.calls, k, t)
      ensures r == Ok(Response(req.volumeID, t.id, "stable"))
    {
      WaitForCreateByPolls(ses, b, req, w, Response(req.volumeID, t.id, "stable"));
      assert SeesStable(ses, b, req, w, k);
    }
    if r.Ok? {
      WaitForCreateByPolls(ses, b, req, w, r.value);
      var k: nat :| k < Polls(ses) && SeesStable(ses, b, req, w, k) && Poll(ses, b, req, w, k) == Ok(r.value)
                    && forall j: nat :: j < k ==> !PollFails(ses, b, req, w, j) && !SeesStable(ses, b, req, w, j);
      assert !PollFails(ses, b, req, w, k);
      var t :| Shows(b, req, PollEnd(b, req, n, w.calls, k), t);
      assert StableAfterPending(b, req, n, w.calls, k, t);
    }
  }

  lemma PollShows(ses: Session, b: Backend, req: Request, w: World, j: nat)
    requires ValidRequest(req)
    ensures var k := PollEnd(b, req, ses.retry.maxRetryAttempt, w.calls, j);
      && (PollFails(ses, b, req, w, j) <==> ShowsNone(b, req, k))
      && (!PollFails(ses, b, req, w, j) && !SeesStable(ses, b, req, w, j) <==> ShowsPending(b, req, k))
      && (forall t :: Shows(b, req, k, t) ==> Poll(ses, b, req, w, j) == Ok(Response(req.volumeID, t.id, t.status)))
  {
    hide Lookup, LookupEnd, Shows, PollEnd;
    PollAnswers(ses, b, req, w, j);
    var k := PollEnd(b, req, ses.retry.maxRetryAttempt, w.calls, j);
    if !PollFails(ses, b, req, w, j) {
      var t :| Shows(b, req, k, t);
      assert Poll(ses, b, req, w, j) == Ok(Response(req.volumeID, t.id, t.status));
    }
  }

  /** Poll k is answered, as a read by ID, with an error. */
  ghost predicate ReadFails(b: Backend, req: Request, n: int, c: nat, k: nat)
    requires n >= 1
  {
    b.get(PollEnd(b, req, n, c, k)).Fail?
  }

  /** Waiting for deletion is exact: nil iff the request names a share and a target by ID, the message
      table is initialised, and one of four times as many polls as the limit allows attempts ends
      with a failed read, whatever the error; else it times out. A target named by its VPC is never
      reported deleted: that lookup fails with the other code. */
  lemma WaitForDeleteExact(ses: Session, b: Backend, req: Request, w: World)
    ensures var e, n := WaitForDeleteRun(ses, b, req, w).0, ses.retry.maxRetryAttempt;
      && (e == None <==>
            && req.volumeID != "" && req.accessPointID != "" && ses.messagesReady
            && exists k: nat :: k < 4 * n && ReadFails(b, req, n, w.calls, k))
      && (e.Some? ==> e == Some(Code(ses, if ValidRequest(req) then "DeleteVolumeAccessPointTimedOut"
                                          else "ErrorRequiredFieldMissing")))
  {
    hide Lookup, LookupEnd, Until, PollEnd;
    var n: nat := ses.retry.maxRetryAttempt;
    WaitForDeleteByPolls(ses, b, req, w);
    if ValidRequest(req) && req.accessPointID != "" {
      forall j: nat ensures PollFails(ses, b, req, w, j) <==> ReadFails(b, req, n, w.calls, j) {
        PollAnswers(ses, b, req, w, j);
        var k := PollEnd(b, req, n, w.calls, j);
        assert b.get(k).Ok? ==> Shows(b, req, k, b.get(k).value);
      }
    }
  }

  // ---- How much work it all is ----

  /** m is at least the gap the loops start from and the session's cap. */
  ghost predicate Cap(ses: Session, w: World, m: nat) {
    w.gap <= m && ses.retry.maxRetryGap <= m
  }

  /** One lookup: at most n calls, at most n - 1 pauses of m. */
  lemma LookupWork(ses: Session, b: Backend, req: Request, w: World, m: nat)
    requires Cap(ses, w, m)
    ensures var (n, w') := (ses.retry.maxRetryAttempt, Lookup(ses, b, req, w).1);
      && w'.gap <= m
      && w'.calls <= w.calls + n
      && w'.slept <= w.slept + (n - 1) * m
  {
    if ValidRequest(req) {
      if req.accessPointID != "" {
        LeafWork(ses, b.get, w, m);
      } else {
        LeafWork(ses, b.list, w, m);
      }
    } else {
      MulMonotone(0, ses.retry.maxRetryAttempt - 1, m);
    }
  }

  lemma LeafWork<T(!new)>(ses: Session, reply: nat -> Reply<T>, w: World, m: nat)
    requires Cap(ses, w, m)
    ensures var (n, w') := (ses.retry.maxRetryAttempt, CallFlexy(ses, reply, w).w);
      && w'.gap <= m
      && w'.calls <= w.calls + n
      && w'.slept <= w.slept + (n - 1) * m
  {
    var n: nat, f := ses.retry.maxRetryAttempt, FlexyLeaf(reply);
    var iter := FlexyIter(ses.retry.maxRetryGap, f);
    forall j: nat, x: World, s: Option<T> | x.gap <= m ensures Bounded(iter, j, x, s, 1, 0, m, m) {
      assert iter(j, x, s) == FlexyStep(ses.retry.maxRetryGap, f, j, x, s);
      var x' := Pause(x, j, x.gap);
      assert f(x', s) == (LeafCall(reply, x'), Final(reply(x'.calls)));
    }
    UntilBounded(n, iter, 0, Out(None, None, w), 1, 0, m, m);
  }

  lemma CreateAttemptWork(ses: Session, b: Backend, req: Request, j: nat, w: World, s: Creating, c: nat, z: nat, m: nat)
    requires Cap(ses, w, m) && c == ses.retry.maxRetryAttempt + 1 && z == (ses.retry.maxRetryAttempt - 1) * m
    ensures Bounded(FlexyIter(ses.retry.maxRetryGap, CreateAttempt(ses, b, req)), j, w, s, c, z, m, m)
  {
    hide Lookup, SkipRetry;
    var f := CreateAttempt(ses, b, req);
    var iter := FlexyIter(ses.retry.maxRetryGap, f);
    assert iter(j, w, s) == FlexyStep(ses.retry.maxRetryGap, f, j, w, s);
    var w' := Pause(w, j, w.gap);
    assert f(w', s) == TryCreate(ses, b, req, w', s);
    LookupWork(ses, b, req, w', m);
  }

  /** With attempt limit n a create makes at most n (n + 1) backend calls. */
  lemma CreateWork(ses: Session, b: Backend, req: Request, w: World, m: nat)
    requires Cap(ses, w, m)
    ensures var (n, w') := (ses.retry.maxRetryAttempt, CreateRun(ses, b, req, w).2);
      && w'.calls <= w.calls + n * (n + 1)
      && w'.slept <= w.slept + n * ((n - 1) * m) + (n - 1) * m
      && w'.gap <= m
  {
    hide TryCreate;
    var n: nat := ses.retry.maxRetryAttempt;
    var iter := FlexyIter(ses.retry.maxRetryGap, CreateAttempt(ses, b, req));
    var c: nat, z: nat := n + 1, (n - 1) * m;
    forall j: nat, x: World, s: Creating | x.gap <= m ensures Bounded(iter, j, x, s, c, z, m, m) {
      CreateAttemptWork(ses, b, req, j, x, s, c, z, m);
    }
    UntilBounded(n, iter, 0, Out(None, Creating(None, []), w), c, z, m, m);
  }

  /** With attempt limit n a wait for creation makes at most 4 n n reads and sleeps at most
      (4 n - 1) 10 + 4 n (n - 1) m seconds. */
  lemma WaitForCreateWork(ses: Session, b: Backend, req: Request, w: World, m: nat)
    requires Cap(ses, w, m)
    ensures var (n, w') := (ses.retry.maxRetryAttempt, WaitForCreateRun(ses, b, req, w).1);
      && w'.calls <= w.calls + 4 * n * n
      && w'.slept <= w.slept + (4 * n - 1) * CONSTANT_RETRY_GAP + 4 * n * ((n - 1) * m)
      && w'.gap <= m
  {
    var n: nat, f := ses.retry.maxRetryAttempt, StableAttempt(ses, b, req);
    var iter := ConstIter(f);
    var z: nat := (n - 1) * m;
    forall j: nat, x: World, s: Option<Response> | x.gap <= m
      ensures Bounded(iter, j, x, s, n, z, CONSTANT_RETRY_GAP, m)
    {
      hide Lookup;
      assert iter(j, x, s) == ConstStep(f, j, x, s);
      var x' := Pause(x, j, CONSTANT_RETRY_GAP);
      assert f(x', s) == TryStable(ses, b, req, x');
      LookupWork(ses, b, req, x', m);
    }
    UntilBounded(Polls(ses), iter, 0, Out(None, None, w), n, z, CONSTANT_RETRY_GAP, m);
  }

  /** The same bounds for a wait for deletion. */
  lemma WaitForDeleteWork(ses: Session, b: Backend, req: Request, w: World, m: nat)
    requires Cap(ses, w, m)
    ensures var (n, w') := (ses.retry.maxRetryAttempt, WaitForDeleteRun(ses, b, req, w).1);
      && w'.calls <= w.calls + 4 * n * n
      && w'.slept <= w.slept + (4 * n - 1) * CONSTANT_RETRY_GAP + 4 * n * ((n - 1) * m)
      && w'.gap <= m
  {
    var n: nat, f := ses.retry.maxRetryAttempt, GoneAttempt(ses, b, req);
    var iter := ConstIter(f);
    var z: nat := (n - 1) * m;
    forall j: nat, x: World, s: () | x.gap <= m ensures Bounded(iter, j, x, s, n, z, CONSTANT_RETRY_GAP, m) {
      hide Lookup;
      assert iter(j, x, s) == ConstStep(f, j, x, s);
      var x' := Pause(x, j, CONSTANT_RETRY_GAP);
      assert f(x', s) == TryGone(ses, b, req, x');
      LookupWork(ses, b, req, x', m);
    }
    UntilBounded(Polls(ses), iter, 0, Out(None, (), w), n, z, CONSTANT_RETRY_GAP, m);
  }
}
