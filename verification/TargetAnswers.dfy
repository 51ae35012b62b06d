/** What the mount-target operations answer, in terms of the backend's answers alone: which call
    decides, and what its answer turns into. */
module TargetAnswers {
  import opened RetryEngine
  import opened Backoff
  import opened AccessPoints

  // ---- Lookup ----

  /** The call that decides a lookup whose first call is call c. */
  function LookupEnd(b: Backend, req: Request, n: int, c: nat): (k: nat)
    requires n >= 1
    ensures c <= k < c + n
  {
    c + if req.accessPointID != "" then LastCall(b.get, c, 0, n) else LastCall(b.list, c, 0, n)
  }

  /** The item at index i is the first one in this VPC. */
  ghost predicate FirstInVpc(targets: seq<Target>, vpcID: string, i: nat) {
    && i < |targets| && targets[i].vpc == Some(vpcID)
    && forall j :: 0 <= j < i ==> targets[j].vpc != Some(vpcID)
  }

  /** Answer k shows this target: by ID it is the answer, by VPC the first listed one in the VPC. */
  ghost predicate Shows(b: Backend, req: Request, k: nat, t: Target) {
    if req.accessPointID != "" then b.get(k) == Ok(t)
    else b.list(k).Ok? && exists i: nat :: FirstInVpc(b.list(k).value, req.vpcID, i) && t == b.list(k).value[i]
  }

  ghost predicate ShowsNone(b: Backend, req: Request, k: nat) {
    forall t :: !Shows(b, req, k, t)
  }

  lemma ShowsOne(b: Backend, req: Request, k: nat, t: Target, t': Target)
    requires Shows(b, req, k, t) && Shows(b, req, k, t')
    ensures t == t'
  {
  }

  /** The error of a user message, before and after the message table is initialised. */
  function Code(ses: Session, code: string): Err {
    if ses.messagesReady then Message(code) else Message("")
  }

  /** A lookup answers with the ID and the status of the target that its deciding call shows, for
      the share of the request, and fails iff that call shows none; a request that names no share, or
      no VPC, subnet or target, fails without a call. */
  lemma LookupAnswers(ses: Session, b: Backend, req: Request, w: World)
    ensures var (r, w') := Lookup(ses, b, req, w);
      var k := LookupEnd(b, req, ses.retry.maxRetryAttempt, w.calls);
      if req.volumeID == "" || (req.vpcID == "" && req.subnetID == "" && req.accessPointID == "") then
        r == Fail(Code(ses, "ErrorRequiredFieldMissing")) && w' == w
      else
        && w'.calls == k + 1
        && (forall t :: Shows(b, req, k, t) ==> r == Ok(Response(req.volumeID, t.id, t.status)))
        && (ShowsNone(b, req, k) ==>
              r == Fail(Code(ses, if req.accessPointID != "" then "AccessPointWithAPIDFindFailed"
                                  else "AccessPointWithVPCIDFindFailed")))
  {
    hide LastCall, CallFlexy;
    var k := LookupEnd(b, req, ses.retry.maxRetryAttempt, w.calls);
    if req.accessPointID != "" {
      assert b.get(k).Ok? ==> Shows(b, req, k, b.get(k).value);
    } else if b.list(k).Ok? {
      var targets := b.list(k).value;
      FoundIsListed(targets, req.vpcID);
      if FindVpc(targets, req.vpcID).Some? {
        var i: nat :| i < |targets| && targets[i] == FindVpc(targets, req.vpcID).value
                      && forall j :: 0 <= j < i ==> targets[j].vpc != Some(req.vpcID);
        assert FirstInVpc(targets, req.vpcID, i);
        assert Shows(b, req, k, targets[i]);
        forall t | Shows(b, req, k, t) ensures t == targets[i] {
          ShowsOne(b, req, k, t, targets[i]);
        }
      }
    }
  }

  lemma LookupFails(ses: Session, b: Backend, req: Request, w: World)
    requires ValidRequest(req)
    ensures var k := LookupEnd(b, req, ses.retry.maxRetryAttempt, w.calls);
      && (Lookup(ses, b, req, w).0.Fail? <==> ShowsNone(b, req, k))
      && Lookup(ses, b, req, w).1.calls == k + 1
  {
    LookupAnswers(ses, b, req, w);
    var k := LookupEnd(b, req, ses.retry.maxRetryAttempt, w.calls);
    if !ShowsNone(b, req, k) {
      var t :| Shows(b, req, k, t);
    }
  }

  // ---- Create ----

  /** The first call of attempt j of a create or a delete that begins with call c, when the attempts
      before it each make one request after their lookup. */
  function AttemptCall(b: Backend, req: Request, n: int, c: nat, j: nat): nat
    requires n >= 1
  {
    if j == 0 then c else LookupEnd(b, req, n, AttemptCall(b, req, n, c, j - 1)) + 2
  }

  /** The call that decides the lookup of attempt j; the request of the attempt is the next one. */
  function AttemptLook(b: Backend, req: Request, n: int, c: nat, j: nat): nat
    requires n >= 1
  {
    LookupEnd(b, req, n, AttemptCall(b, req, n, c, j))
  }

  /** Attempt j sees no target, and the backend rejects its create request. */
  ghost predicate TurnedDown(b: Backend, req: Request, n: int, c: nat, j: nat)
    requires n >= 1
  {
    ShowsNone(b, req, AttemptLook(b, req, n, c, j)) && b.create(AttemptLook(b, req, n, c, j) + 1).Fail?
  }

  /** Attempt j is turned down, but not for good. */
  ghost predicate GoesOn(b: Backend, req: Request, n: int, c: nat, j: nat)
    requires n >= 1
  {
    TurnedDown(b, req, n, c, j) && !Permanent(b.create(AttemptLook(b, req, n, c, j) + 1).err)
  }

  /** The attempts before j are turned down, none of them for good. */
  ghost predicate TurnedDownBefore(b: Backend, req: Request, n: int, c: nat, j: nat)
    requires n >= 1
  {
    forall i: nat :: i < j ==> GoesOn(b, req, n, c, i)
  }

  /** Attempt j obtains this target: its lookup shows it, or shows none and the request creates it. */
  ghost predicate Obtains(b: Backend, req: Request, n: int, c: nat, j: nat, t: Target)
    requires n >= 1
  {
    var look := AttemptLook(b, req, n, c, j);
    Shows(b, req, look, t) || (ShowsNone(b, req, look) && b.create(look + 1) == Ok(t))
  }

  lemma CreateAttemptAnswers(ses: Session, b: Backend, req: Request, w: World, j: nat)
    requires ValidRequest(req)
    requires CreateWorld(ses, b, req, w, j).calls == AttemptCall(b, req, ses.retry.maxRetryAttempt, w.calls, j)
    ensures var n := ses.retry.maxRetryAttempt;
      var look := AttemptLook(b, req, n, w.calls, j);
      && (CreateFinds(ses, b, req, w, j).Fail? <==> ShowsNone(b, req, look))
      && (CreateRejected(ses, b, req, w, j) <==> TurnedDown(b, req, n, w.calls, j))
      && (CreateContinues(ses, b, req, w, j) <==> GoesOn(b, req, n, w.calls, j))
      && (forall t :: Obtains(b, req, n, w.calls, j, t) ==>
            && !CreateRejected(ses, b, req, w, j)
            && CreateGives(ses, b, req, w, j) == Response(req.volumeID, t.id, t.status))
      && CreateAnswer(ses, b, req, w, j) == b.create(look + 1)
      && CreateDecides(ses, b, req, w, j) == (if ShowsNone(b, req, look) then look + 1 else look)
      && CreateWorld(ses, b, req, w, j + 1).calls == CreateDecides(ses, b, req, w, j) + 1
  {
    hide Lookup, LookupEnd, CreateWorld, SkipRetry, CreateIter, Shows;
    LookupFails(ses, b, req, CreateWorld(ses, b, req, w, j));
    LookupAnswers(ses, b, req, CreateWorld(ses, b, req, w, j));
    CreateStep(ses, b, req, w, j);
    NextCreateWorld(ses, b, req, w, j);
  }

  lemma NextCreateWorld(ses: Session, b: Backend, req: Request, w: World, j: nat)
    ensures CreateWorld(ses, b, req, w, j + 1).calls == After(CreateIter(ses, b, req), Nothing(w), j + 1).w.calls
  {
  }

  lemma {:induction false} CreateCalls(ses: Session, b: Backend, req: Request, w: World, j: nat)
    requires ValidRequest(req)
    requires TurnedDownBefore(b, req, ses.retry.maxRetryAttempt, w.calls, j)
    ensures CreateWorld(ses, b, req, w, j).calls == AttemptCall(b, req, ses.retry.maxRetryAttempt, w.calls, j)
  {
    hide LookupEnd, CreateWorld, TurnedDown;
    if j == 0 {
      FirstCreateWorld(ses, b, req, w);
    } else {
      CreateCalls(ses, b, req, w, j - 1);
      assert GoesOn(b, req, ses.retry.maxRetryAttempt, w.calls, j - 1);
      CreateAttemptAnswers(ses, b, req, w, j - 1);
      assert ShowsNone(b, req, AttemptLook(b, req, ses.retry.maxRetryAttempt, w.calls, j - 1)) by {
        TurnedDownShowsNone(b, req, ses.retry.maxRetryAttempt, w.calls, j - 1);
      }
    }
  }

  lemma TurnedDownShowsNone(b: Backend, req: Request, n: int, c: nat, j: nat)
    requires n >= 1 && TurnedDown(b, req, n, c, j)
    ensures ShowsNone(b, req, AttemptLook(b, req, n, c, j))
  {
  }

  lemma FirstCreateWorld(ses: Session, b: Backend, req: Request, w: World)
    ensures CreateWorld(ses, b, req, w, 0).calls == w.calls
  {
  }

  /** How a create ends: at attempt j, the first that is not turned down. */
  ghost predicate CreateEndsAt(b: Backend, req: Request, n: int, c: nat, j: nat)
    requires n >= 1
  {
    j < n && TurnedDownBefore(b, req, n, c, j) && !TurnedDown(b, req, n, c, j)
  }

  lemma {:induction false} TurnedDownIsRejected(ses: Session, b: Backend, req: Request, w: World, k: nat)
    requires ValidRequest(req)
    ensures RejectedBefore(ses, b, req, w, k)
      <==> TurnedDownBefore(b, req, ses.retry.maxRetryAttempt, w.calls, k)
    ensures RejectedBefore(ses, b, req, w, k) ==>
      (CreateRejected(ses, b, req, w, k) <==> TurnedDown(b, req, ses.retry.maxRetryAttempt, w.calls, k))
  {
    hide GoesOn, TurnedDown, CreateContinues, CreateRejected, CreateWorld, LookupEnd;
    if k > 0 {
      TurnedDownIsRejected(ses, b, req, w, k - 1);
      if RejectedBefore(ses, b, req, w, k - 1) {
        CreateCalls(ses, b, req, w, k - 1);
        CreateAttemptAnswers(ses, b, req, w, k - 1);
      }
    }
    if RejectedBefore(ses, b, req, w, k) && TurnedDownBefore(b, req, ses.retry.maxRetryAttempt, w.calls, k) {
      CreateCalls(ses, b, req, w, k);
      CreateAttemptAnswers(ses, b, req, w, k);
    }
  }

  /** What a create answers, in terms of the backend's answers: it succeeds iff within the limit an
      attempt is not turned down, after rejections none of which is permanent, and then answers with
      the target that attempt obtains, having sent one request per attempt that saw none. */
  lemma CreateAnswers(ses: Session, b: Backend, req: Request, w: World)
    requires ValidRequest(req)
    ensures var (r, posts, w') := CreateRun(ses, b, req, w);
      var n, c := ses.retry.maxRetryAttempt, w.calls;
      && (r.Ok? <==> exists j: nat :: CreateEndsAt(b, req, n, c, j))
      && (forall j: nat :: CreateEndsAt(b, req, n, c, j) ==>
            var look := AttemptLook(b, req, n, c, j);
            && (forall t :: Obtains(b, req, n, c, j, t) ==> r == Ok(Response(req.volumeID, t.id, t.status)))
            && |posts| == (if ShowsNone(b, req, look) then j + 1 else j)
            && w'.calls == (if ShowsNone(b, req, look) then look + 2 else look + 1))
      && (r.Fail? ==> r == Fail(Code(ses, "CreateVolumeAccessPointFailed")))
  {
    hide Lookup, LookupEnd, CreateWorld, SkipRetry, CreateIter, Shows, TurnedDown, CreateRejected, FlexyStep;
    var n: nat := ses.retry.maxRetryAttempt;
    CreateLoopResponds(ses, b, req, w);
    forall j: nat ensures CreateEndsAt(b, req, n, w.calls, j) <==> j < n && CreateSucceedsAt(ses, b, req, w, j) {
      TurnedDownIsRejected(ses, b, req, w, j);
    }
    forall j: nat | CreateEndsAt(b, req, n, w.calls, j)
      ensures var (r, posts, w') := CreateRun(ses, b, req, w);
        var look := AttemptLook(b, req, n, w.calls, j);
        && (forall t :: Obtains(b, req, n, w.calls, j, t) ==> r == Ok(Response(req.volumeID, t.id, t.status)))
        && |posts| == (if ShowsNone(b, req, look) then j + 1 else j)
        && w'.calls == (if ShowsNone(b, req, look) then look + 2 else look + 1)
    {
      CreateEnding(ses, b, req, w, j);
    }
  }

  lemma CreateEnding(ses: Session, b: Backend, req: Request, w: World, j: nat)
    requires ValidRequest(req) && CreateEndsAt(b, req, ses.retry.maxRetryAttempt, w.calls, j)
    ensures var (r, posts, w') := CreateRun(ses, b, req, w);
      var n := ses.retry.maxRetryAttempt;
      var look := AttemptLook(b, req, n, w.calls, j);
      && (forall t :: Obtains(b, req, n, w.calls, j, t) ==> r == Ok(Response(req.volumeID, t.id, t.status)))
      && |posts| == (if ShowsNone(b, req, look) then j + 1 else j)
      && w'.calls == (if ShowsNone(b, req, look) then look + 2 else look + 1)
  {
    hide Lookup, LookupEnd, CreateWorld, SkipRetry, CreateIter, Shows, TurnedDown, CreateRejected, FlexyStep;
    TurnedDownIsRejected(ses, b, req, w, j);
    CreateCalls(ses, b, req, w, j);
    CreateAttemptAnswers(ses, b, req, w, j);
    CreateLoopResponds(ses, b, req, w);
    assert CreateSucceedsAt(ses, b, req, w, j);
    CreateProgress(ses, b, req, w, j);
    CreateStep(ses, b, req, w, j);
    var n: nat, iter, start := ses.retry.maxRetryAttempt, CreateIter(ses, b, req), Nothing(w);
    forall i: nat | i < j ensures !StopsAt(iter, start, i) {
      CreateStep(ses, b, req, w, i);
    }
    UntilFrom(n, iter, start, j);
  }

  // ---- Delete ----

  /** Answer k shows a target that is neither being deleted nor deleted. */
  ghost predicate ShowsAlive(b: Backend, req: Request, k: nat) {
    exists t :: Shows(b, req, k, t) && t.status != "deleting" && t.status != "deleted"
  }

  /** Attempt j sees a target alive, and the backend refuses to delete it. */
  ghost predicate KeptAlive(b: Backend, req: Request, n: int, c: nat, j: nat)
    requires n >= 1
  {
    ShowsAlive(b, req, AttemptLook(b, req, n, c, j)) && b.delete(AttemptLook(b, req, n, c, j) + 1).Some?
  }

  ghost predicate KeptAliveBefore(b: Backend, req: Request, n: int, c: nat, j: nat)
    requires n >= 1
  {
    forall i: nat :: i < j ==> KeptAlive(b, req, n, c, i)
  }

  /** How a delete ends with nil: at attempt j, the first that is not refused. */
  ghost predicate DeleteEndsAt(b: Backend, req: Request, n: int, c: nat, j: nat)
    requires n >= 1
  {
    j < n && KeptAliveBefore(b, req, n, c, j) && !KeptAlive(b, req, n, c, j)
  }

  lemma LookupSeesAlive(ses: Session, b: Backend, req: Request, w: World)
    requires ValidRequest(req)
    ensures var found, k := Lookup(ses, b, req, w).0, LookupEnd(b, req, ses.retry.maxRetryAttempt, w.calls);
      && (found.Ok? && found.value.status != DELETING && found.value.status != DELETED <==> ShowsAlive(b, req, k))
      && (forall t :: Shows(b, req, k, t) ==> found.Ok? && found.value.accessPointID == t.id)
  {
    hide Lookup, LookupEnd, Shows;
    LookupAnswers(ses, b, req, w);
    LookupFails(ses, b, req, w);
    var found, k := Lookup(ses, b, req, w).0, LookupEnd(b, req, ses.retry.maxRetryAttempt, w.calls);
    if found.Ok? {
      var t :| Shows(b, req, k, t);
      assert found == Ok(Response(req.volumeID, t.id, t.status));
    }
  }

  lemma DeleteAttemptAnswers(ses: Session, b: Backend, req: Request, w: World, j: nat)
    requires ValidRequest(req)
    requires DeleteWorld(ses, b, req, w, j).calls == AttemptCall(b, req, ses.retry.maxRetryAttempt, w.calls, j)
    ensures var n := ses.retry.maxRetryAttempt;
      var look := AttemptLook(b, req, n, w.calls, j);
      var found := Lookup(ses, b, req, DeleteWorld(ses, b, req, w, j)).0;
      && (DeleteFindsTarget(ses, b, req, w, j) <==> ShowsAlive(b, req, look))
      && (DeleteRefused(ses, b, req, w, j) <==> KeptAlive(b, req, n, w.calls, j))
      && (forall t :: Shows(b, req, look, t) ==> found.Ok? && found.value.accessPointID == t.id)
      && DeleteWorld(ses, b, req, w, j + 1).calls == (if ShowsAlive(b, req, look) then look + 2 else look + 1)
  {
    hide Lookup, LookupEnd, DeleteWorld, SkipRetry, DeleteIter, Shows, ShowsAlive;
    LookupSeesAlive(ses, b, req, DeleteWorld(ses, b, req, w, j));
    LookupFails(ses, b, req, DeleteWorld(ses, b, req, w, j));
    DeleteStep(ses, b, req, w, j);
    NextDeleteWorld(ses, b, req, w, j);
  }

  lemma NextDeleteWorld(ses: Session, b: Backend, req: Request, w: World, j: nat)
    ensures DeleteWorld(ses, b, req, w, j + 1).calls == After(DeleteIter(ses, b, req), Out(None, [], w), j + 1).w.calls
  {
  }

  lemma FirstDeleteWorld(ses: Session, b: Backend, req: Request, w: World)
    ensures DeleteWorld(ses, b, req, w, 0).calls == w.calls
  {
  }

  lemma {:induction false} DeleteCalls(ses: Session, b: Backend, req: Request, w: World, j: nat)
    requires ValidRequest(req) && KeptAliveBefore(b, req, ses.retry.maxRetryAttempt, w.calls, j)
    ensures DeleteWorld(ses, b, req, w, j).calls == AttemptCall(b, req, ses.retry.maxRetryAttempt, w.calls, j)
    ensures forall i: nat :: i < j ==> DeleteRefused(ses, b, req, w, i)
    ensures DeleteRefused(ses, b, req, w, j) <==> KeptAlive(b, req, ses.retry.maxRetryAttempt, w.calls, j)
  {
    hide LookupEnd, DeleteWorld, ShowsAlive, DeleteRefused;
    if j == 0 {
      FirstDeleteWorld(ses, b, req, w);
    } else {
      DeleteCalls(ses, b, req, w, j - 1);
      assert KeptAlive(b, req, ses.retry.maxRetryAttempt, w.calls, j - 1);
      DeleteAttemptAnswers(ses, b, req, w, j - 1);
    }
    DeleteAttemptAnswers(ses, b, req, w, j);
  }

  /** The IDs that the lookups of refused attempts found are those the backend showed. */
  lemma {:induction false} ShownIDs(ses: Session, b: Backend, req: Request, w: World, j: nat, m: nat)
    requires ValidRequest(req) && KeptAliveBefore(b, req, ses.retry.maxRetryAttempt, w.calls, j)
    requires m <= j + 1
    requires m == j + 1 ==> ShowsAlive(b, req, AttemptLook(b, req, ses.retry.maxRetryAttempt, w.calls, j))
    ensures |FoundIDs(ses, b, req, w, m)| == m
    ensures forall i: nat, t ::
      i < m && Shows(b, req, AttemptLook(b, req, ses.retry.maxRetryAttempt, w.calls, i), t) ==>
        FoundIDs(ses, b, req, w, m)[i] == t.id
  {
    hide Lookup, LookupEnd, DeleteWorld, SkipRetry, DeleteIter, Shows, DeleteRefused;
    if m > 0 {
      ShownIDs(ses, b, req, w, j, m - 1);
      assert m - 1 < j ==> KeptAlive(b, req, ses.retry.maxRetryAttempt, w.calls, m - 1);
      DeleteCalls(ses, b, req, w, m - 1);
      DeleteAttemptAnswers(ses, b, req, w, m - 1);
    }
  }

  /** What a delete answers, in terms of the backend's answers: nil iff within the limit an attempt is
      not refused, which includes seeing no target at all; and the IDs it asked to delete are those of
      the targets its attempts saw alive, in order. */
  lemma DeleteAnswers(ses: Session, b: Backend, req: Request, w: World)
    requires ValidRequest(req)
    ensures var (e, sent, w') := DeleteRun(ses, b, req, w);
      var n, c := ses.retry.maxRetryAttempt, w.calls;
      && (e == None <==> exists j: nat :: DeleteEndsAt(b, req, n, c, j))
      && (forall j: nat :: DeleteEndsAt(b, req, n, c, j) ==>
            var look := AttemptLook(b, req, n, c, j);
            && |sent| == (if ShowsAlive(b, req, look) then j + 1 else j)
            && w'.calls == (if ShowsAlive(b, req, look) then look + 2 else look + 1)
            && forall i: nat, t :: i < |sent| && Shows(b, req, AttemptLook(b, req, n, c, i), t) ==> sent[i] == t.id)
      && (e.Some? ==> e == Some(Code(ses, "DeleteVolumeAccessPointFailed")))
  {
    hide Lookup, LookupEnd, DeleteWorld, SkipRetry, DeleteIter, Shows, ShowsAlive, DeleteRefused, KeptAlive, FlexyStep;
    var n: nat := ses.retry.maxRetryAttempt;
    forall j: nat | DeleteEndsAt(b, req, n, w.calls, j)
      ensures var (e, sent, w') := DeleteRun(ses, b, req, w);
        var look := AttemptLook(b, req, n, w.calls, j);
        && e == None
        && |sent| == (if ShowsAlive(b, req, look) then j + 1 else j)
        && w'.calls == (if ShowsAlive(b, req, look) then look + 2 else look + 1)
        && forall i: nat, t :: i < |sent| && Shows(b, req, AttemptLook(b, req, n, w.calls, i), t) ==> sent[i] == t.id
    {
      DeleteEnding(ses, b, req, w, j);
    }
    if DeleteRun(ses, b, req, w).0 == None {
      var k := DeleteNilMeaning(ses, b, req, w);
      RefusedIsKept(ses, b, req, w, k);
      assert DeleteEndsAt(b, req, n, w.calls, k);
    }
  }

  lemma {:induction false} RefusedIsKept(ses: Session, b: Backend, req: Request, w: World, k: nat)
    requires ValidRequest(req) && forall j: nat :: j < k ==> DeleteRefused(ses, b, req, w, j)
    ensures KeptAliveBefore(b, req, ses.retry.maxRetryAttempt, w.calls, k)
    ensures DeleteRefused(ses, b, req, w, k) <==> KeptAlive(b, req, ses.retry.maxRetryAttempt, w.calls, k)
  {
    hide Lookup, LookupEnd, DeleteWorld, SkipRetry, DeleteIter, Shows, ShowsAlive, DeleteRefused, KeptAlive;
    if k > 0 {
      RefusedIsKept(ses, b, req, w, k - 1);
      assert DeleteRefused(ses, b, req, w, k - 1);
    }
    DeleteCalls(ses, b, req, w, k);
  }

  lemma DeleteEnding(ses: Session, b: Backend, req: Request, w: World, j: nat)
    requires ValidRequest(req) && DeleteEndsAt(b, req, ses.retry.maxRetryAttempt, w.calls, j)
    ensures var (e, sent, w') := DeleteRun(ses, b, req, w);
      var n := ses.retry.maxRetryAttempt;
      var look := AttemptLook(b, req, n, w.calls, j);
      && e == None
      && |sent| == (if ShowsAlive(b, req, look) then j + 1 else j)
      && w'.calls == (if ShowsAlive(b, req, look) then look + 2 else look + 1)
      && forall i: nat, t :: i < |sent| && Shows(b, req, AttemptLook(b, req, n, w.calls, i), t) ==> sent[i] == t.id
  {
    hide Lookup, LookupEnd, DeleteWorld, SkipRetry, DeleteIter, Shows, ShowsAlive, DeleteRefused, KeptAlive, FlexyStep;
    var n: nat, iter, start := ses.retry.maxRetryAttempt, DeleteIter(ses, b, req), Out(None, [], w);
    DeleteCalls(ses, b, req, w, j);
    DeleteAttemptAnswers(ses, b, req, w, j);
    NextDeleteWorld(ses, b, req, w, j);
    forall i: nat ensures StopsAt(iter, start, i) == !DeleteRefused(ses, b, req, w, i) {
      DeleteStep(ses, b, req, w, i);
    }
    DeleteStep(ses, b, req, w, j);
    UntilFrom(n, iter, start, j);
    RefusalsSent(ses, b, req, w, j);
    ShownIDs(ses, b, req, w, j, if DeleteFindsTarget(ses, b, req, w, j) then j + 1 else j);
  }
}
