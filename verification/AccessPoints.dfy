/** Mount targets of a file share: lookup, create, delete, and the two waits, each a retry loop
    whose closure runs the lookup's own retry loop. */
module AccessPoints {
  import opened RetryEngine
  import opened Backoff

  datatype Target = Target(id: string, vpc: Option<string>, status: string)

  datatype Request = Request(volumeID: string, vpcID: string, subnetID: string, accessPointID: string,
                             accessControlMode: string)

  datatype Response = Response(volumeID: string, accessPointID: string, status: string)

  /** The body of a create request: it names a VPC or a network interface in a subnet. */
  datatype Post = Post(volumeID: string, vpc: Option<string>, interface: Option<Interface>)
  datatype Interface = Interface(subnet: Option<string>)

  /** How the backend answers the k-th call of the process, whatever happens to the share in
      between: any history of other callers is some choice of these four functions. */
  datatype Backend = Backend(
    get: nat -> Reply<Target>,
    list: nat -> Reply<seq<Target>>,
    create: nat -> Reply<Target>,
    delete: nat -> Option<Err>)

  const DELETING := "deleting"
  const DELETED := "deleted"
  const SECURITY_GROUP := "security_group"
  const BY_ID_FAILED := "AccessPointWithAPIDFindFailed"
  const BY_VPC_FAILED := "AccessPointWithVPCIDFindFailed"

  datatype AnySession = Session(retry: FlexyRetry, messagesReady: bool)

  /** Every session has a positive attempt limit (Process.OpenSession). */
  type Session = s: AnySession | s.retry.maxRetryAttempt >= 1 witness Session(FlexyRetry(10, 60), true)

  /** GetUserError: before the message table is initialised every message has an empty code. */
  function UserError(ses: Session, code: string): Err {
    Message(if ses.messagesReady then code else "")
  }

  predicate ValidRequest(req: Request) {
    req.volumeID != "" && (req.vpcID != "" || req.subnetID != "" || req.accessPointID != "")
  }

  function InvalidRequest<T>(ses: Session): Reply<T> {
    Fail(UserError(ses, "ErrorRequiredFieldMissing"))
  }

  function ToResponse(req: Request, t: Target): Response {
    Response(req.volumeID, t.id, t.status)
  }

  /** The loop calls up to the first success or permanent error, at least once and at most as
      often as the limit allows, and returns the reply to the last call. */
  function CallFlexy<T>(ses: Session, reply: nat -> Reply<T>, w: World): (o: Out<Option<T>>)
    ensures o.w.calls == w.calls + LastCall(reply, w.calls, 0, ses.retry.maxRetryAttempt) + 1
    ensures Matches(o, reply(o.w.calls - 1))
  {
    FlexyRefinement(ses.retry, reply, w);
    Until(ses.retry.maxRetryAttempt, FlexyIter(ses.retry.maxRetryGap, FlexyLeaf(reply)), 0, Out(None, None, w))
  }

  // ---- Lookup ----

  /** The first listed target in the VPC. */
  function FindVpc(targets: seq<Target>, vpcID: string): Option<Target> {
    if targets == [] then None
    else if targets[0].vpc == Some(vpcID) then Some(targets[0])
    else FindVpc(targets[1..], vpcID)
  }

  /** GetVolumeAccessPoint, as a function of the world it starts in. */
  function Lookup(ses: Session, b: Backend, req: Request, w: World): (Reply<Response>, World) {
    if !ValidRequest(req) then (InvalidRequest(ses), w)
    else if req.accessPointID != "" then
      var o := CallFlexy(ses, b.get, w);
      (if o.err.Some? then Fail(UserError(ses, BY_ID_FAILED)) else Ok(ToResponse(req, o.s.value)), o.w)
    else
      var o := CallFlexy(ses, b.list, w);
      (if o.err.Some? then Fail(UserError(ses, BY_VPC_FAILED))
       else match FindVpc(o.s.value, req.vpcID)
         case Some(t) => Ok(ToResponse(req, t))
         case None => Fail(UserError(ses, BY_VPC_FAILED)),
       o.w)
  }

  method GetVolumeAccessPoint(p: Process, ses: Session, b: Backend, req: Request) returns (r: Reply<Response>)
    modifies p`retryGap, p`slept, p`calls
    ensures (r, p.Now()) == Lookup(ses, b, req, old(p.Now()))
  {
    if !ValidRequest(req) {
      return InvalidRequest(ses);
    }
    if req.accessPointID != "" {
      ghost var found := CallFlexy(ses, b.get, p.Now());
      var err, target := p.RunFlexyRetry(ses.retry, FlexyLeaf(b.get), None);
      assert Out(err, target, p.Now()) == found;
      return if err.Some? then Fail(UserError(ses, BY_ID_FAILED)) else Ok(ToResponse(req, target.value));
    }
    ghost var found := CallFlexy(ses, b.list, p.Now());
    var err, targets := p.RunFlexyRetry(ses.retry, FlexyLeaf(b.list), None);
    assert Out(err, targets, p.Now()) == found;
    if err.Some? {
      return Fail(UserError(ses, BY_VPC_FAILED));
    }
    var items := targets.value;
    for k := 0 to |items|
      invariant FindVpc(items, req.vpcID) == FindVpc(items[k..], req.vpcID)
    {
      if items[k].vpc == Some(req.vpcID) {
        return Ok(ToResponse(req, items[k]));
      }
    }
    return Fail(UserError(ses, BY_VPC_FAILED));
  }

  /** The scan finds the first listed target of the VPC, and nothing only if there is none. */
  lemma {:induction false} FoundIsListed(targets: seq<Target>, vpcID: string)
    ensures match FindVpc(targets, vpcID)
      case Some(t) =>
        exists k :: 0 <= k < |targets| && targets[k] == t && t.vpc == Some(vpcID)
                    && forall j :: 0 <= j < k ==> targets[j].vpc != Some(vpcID)
      case None => forall j :: 0 <= j < |targets| ==> targets[j].vpc != Some(vpcID)
  {
    if targets != [] && targets[0].vpc != Some(vpcID) {
      FoundIsListed(targets[1..], vpcID);
      var rest := targets[1..];
      if FindVpc(targets, vpcID).Some? {
        var k :| 0 <= k < |rest| && rest[k] == FindVpc(rest, vpcID).value
                 && forall j :: 0 <= j < k ==> rest[j].vpc != Some(vpcID);
        assert targets[k + 1] == rest[k];
        assert forall j :: 1 <= j < k + 1 ==> targets[j] == rest[j - 1];
      } else {
        assert forall j :: 1 <= j < |targets| ==> targets[j] == rest[j - 1];
      }
    }
  }

  // ---- Create ----

  /** What the create closure captures: the response so far and the requests sent. */
  datatype Creating = Creating(response: Option<Response>, posts: seq<Post>)

  function BuildPost(req: Request): Post {
    if req.accessControlMode == SECURITY_GROUP then
      Post(req.volumeID, None, Some(Interface(if req.subnetID != "" then Some(req.subnetID) else None)))
    else Post(req.volumeID, Some(req.vpcID), None)
  }

  function TryCreate(ses: Session, b: Backend, req: Request, w: World, s: Creating): (Out<Creating>, bool) {
    var (found, w1) := Lookup(ses, b, req, w);
    if found.Ok? then (Out(None, s.(response := Some(found.value)), w1), true)
    else
      var s' := s.(posts := s.posts + [BuildPost(req)]);
      var w2 := w1.(calls := w1.calls + 1);
      match b.create(w1.calls)
      case Ok(t) => (Out(None, s'.(response := Some(ToResponse(req, t))), w2), true)
      case Fail(e) => (Out(Some(e), s', w2), Permanent(e))
  }

  function CreateAttempt(ses: Session, b: Backend, req: Request): (World, Creating) -> (Out<Creating>, bool) {
    (w: World, s: Creating) => TryCreate(ses, b, req, w, s)
  }

  function CreateIter(ses: Session, b: Backend, req: Request): Iteration<Creating> {
    FlexyIter(ses.retry.maxRetryGap, CreateAttempt(ses, b, req))
  }

  /** Before the first attempt. */
  function Nothing(w: World): Out<Creating> {
    Out(None, Creating(None, []), w)
  }

  function CreateLoop(ses: Session, b: Backend, req: Request, w: World): (o: Out<Creating>)
    ensures o.err.None? ==> o.s.response.Some?
  {
    CreateLoopResponds(ses, b, req, w);
    Until(ses.retry.maxRetryAttempt, CreateIter(ses, b, req), 0, Nothing(w))
  }

  /** CreateVolumeAccessPoint: the result, the create requests sent, the world it leaves. */
  function CreateRun(ses: Session, b: Backend, req: Request, w: World): (Reply<Response>, seq<Post>, World) {
    if !ValidRequest(req) then (InvalidRequest(ses), [], w)
    else
      var o := CreateLoop(ses, b, req, w);
      (if o.err.Some? then Fail(UserError(ses, "CreateVolumeAccessPointFailed")) else Ok(o.s.response.value),
       o.s.posts, o.w)
  }

  method CreateVolumeAccessPoint(p: Process, ses: Session, b: Backend, req: Request)
      returns (r: Reply<Response>, posts: seq<Post>)
    modifies p`retryGap, p`slept, p`calls
    ensures (r, posts, p.Now()) == CreateRun(ses, b, req, old(p.Now()))
  {
    if !ValidRequest(req) {
      return InvalidRequest(ses), [];
    }
    ghost var loop := CreateLoop(ses, b, req, p.Now());
    var err, s := p.RunFlexyRetry(ses.retry, CreateAttempt(ses, b, req), Creating(None, []));
    assert Out(err, s, p.Now()) == loop;
    if err.Some? {
      return Fail(UserError(ses, "CreateVolumeAccessPointFailed")), s.posts;
    }
    return Ok(s.response.value), s.posts;
  }

  /** The world in which attempt k of the create loop does its lookup. */
  function CreateWorld(ses: Session, b: Backend, req: Request, w: World, k: nat): World {
    var before := After(CreateIter(ses, b, req), Nothing(w), k).w;
    Pause(before, k, before.gap)
  }

  /** The lookup of attempt k. */
  function CreateFinds(ses: Session, b: Backend, req: Request, w: World, k: nat): Reply<Response> {
    Lookup(ses, b, req, CreateWorld(ses, b, req, w, k)).0
  }

  /** The answer to the create request of attempt k. */
  function CreateAnswer(ses: Session, b: Backend, req: Request, w: World, k: nat): Reply<Target> {
    b.create(Lookup(ses, b, req, CreateWorld(ses, b, req, w, k)).1.calls)
  }

  /** Attempt k finds nothing, and its create request is rejected or fails. */
  predicate CreateRejected(ses: Session, b: Backend, req: Request, w: World, k: nat) {
    CreateFinds(ses, b, req, w, k).Fail? && CreateAnswer(ses, b, req, w, k).Fail?
  }

  /** The number of the call whose answer decides attempt k: the last one of a successful lookup,
      or else the create request. */
  function CreateDecides(ses: Session, b: Backend, req: Request, w: World, k: nat): int {
    var (found, w1) := Lookup(ses, b, req, CreateWorld(ses, b, req, w, k));
    if found.Ok? then w1.calls - 1 else w1.calls
  }

  /** What attempt k responds: what its lookup found, or what its create request was answered. */
  function CreateGives(ses: Session, b: Backend, req: Request, w: World, k: nat): Response
    requires !CreateRejected(ses, b, req, w, k)
  {
    var found := CreateFinds(ses, b, req, w, k);
    if found.Ok? then found.value else ToResponse(req, CreateAnswer(ses, b, req, w, k).value)
  }

  /** Attempt k is rejected, but not for good, so that another one follows. */
  predicate CreateContinues(ses: Session, b: Backend, req: Request, w: World, k: nat) {
    CreateRejected(ses, b, req, w, k) && !Permanent(CreateAnswer(ses, b, req, w, k).err)
  }

  /** The first k attempts are rejected, none of them for good. */
  ghost predicate RejectedBefore(ses: Session, b: Backend, req: Request, w: World, k: nat) {
    forall j: nat :: j < k ==> CreateContinues(ses, b, req, w, j)
  }

  lemma LookupAdvances(ses: Session, b: Backend, req: Request, w: World)
    ensures Lookup(ses, b, req, w).1.calls >= w.calls
    ensures Lookup(ses, b, req, w).0.Ok? ==> Lookup(ses, b, req, w).1.calls > w.calls
  {
  }

  lemma CreateStep(ses: Session, b: Backend, req: Request, w: World, k: nat)
    ensures var iter, start := CreateIter(ses, b, req), Nothing(w);
      var o, found := After(iter, start, k + 1), CreateFinds(ses, b, req, w, k);
      var answer := CreateAnswer(ses, b, req, w, k);
      var rejected := CreateRejected(ses, b, req, w, k);
      && StopsAt(iter, start, k) == !CreateContinues(ses, b, req, w, k)
      && o.err == (if rejected then Some(answer.err) else None)
      && (!rejected ==> o.s.response == Some(CreateGives(ses, b, req, w, k)))
      && o.s.posts == After(iter, start, k).s.posts + (if found.Ok? then [] else [BuildPost(req)])
      && After(iter, start, k).w.calls <= CreateDecides(ses, b, req, w, k) == o.w.calls - 1
  {
    hide SkipRetry, Lookup, BuildPost;
    var iter, start := CreateIter(ses, b, req), Nothing(w);
    var o := After(iter, start, k);
    var f := CreateAttempt(ses, b, req);
    assert iter(k, o.w, o.s) == FlexyStep(ses.retry.maxRetryGap, f, k, o.w, o.s);
    var at := Pause(o.w, k, o.w.gap);
    assert f(at, o.s) == TryCreate(ses, b, req, at, o.s);
    assert at == CreateWorld(ses, b, req, w, k);
    LookupAdvances(ses, b, req, at);
    var (found, w1) := Lookup(ses, b, req, at);
  }

  /** The state after k attempts: at least k calls made, at most k requests sent, all of the same
      form, and exactly k if every attempt was rejected. */
  lemma {:induction false} CreateProgress(ses: Session, b: Backend, req: Request, w: World, k: nat)
    ensures var o := After(CreateIter(ses, b, req), Nothing(w), k);
      && o.w.calls >= w.calls + k
      && |o.s.posts| <= k
      && (forall p :: p in o.s.posts ==> p == BuildPost(req))
      && (RejectedBefore(ses, b, req, w, k) ==> o.s.posts == seq(k, _ => BuildPost(req)))
  {
    hide Lookup, SkipRetry, FlexyStep, TryCreate, BuildPost, CreateIter, CreateWorld;
    if k > 0 {
      CreateProgress(ses, b, req, w, k - 1);
      CreateStep(ses, b, req, w, k - 1);
    }
  }

  /** Attempt k is the first that is not rejected, and no rejection before it is permanent. */
  ghost predicate CreateSucceedsAt(ses: Session, b: Backend, req: Request, w: World, k: nat) {
    RejectedBefore(ses, b, req, w, k) && !CreateRejected(ses, b, req, w, k)
  }

  /** The loop answers nil exactly if some attempt within the limit is not rejected, after
      rejections none of which was permanent. Then it responds with what that attempt found or
      created, and the call that decided that attempt is the last one of the run. */
  lemma CreateLoopResponds(ses: Session, b: Backend, req: Request, w: World)
    ensures var n := ses.retry.maxRetryAttempt;
      var o := Until(n, CreateIter(ses, b, req), 0, Nothing(w));
      && (o.err.None? <==> exists k: nat :: k < n && CreateSucceedsAt(ses, b, req, w, k))
      && (forall k: nat :: k < n && CreateSucceedsAt(ses, b, req, w, k) ==>
            && o.s.response == Some(CreateGives(ses, b, req, w, k))
            && w.calls <= CreateDecides(ses, b, req, w, k) == o.w.calls - 1)
  {
    hide Lookup, SkipRetry, FlexyStep, TryCreate, BuildPost, CreateIter, CreateWorld;
    var n: nat, iter, start := ses.retry.maxRetryAttempt, CreateIter(ses, b, req), Nothing(w);
    var last := LoopResult(n, iter, start);
    forall j: nat ensures StopsAt(iter, start, j) == !CreateContinues(ses, b, req, w, j) {
      CreateStep(ses, b, req, w, j);
    }
    var final: nat := if last < n then last else n - 1;
    CreateStep(ses, b, req, w, final);
    CreateProgress(ses, b, req, w, final);
    assert !CreateRejected(ses, b, req, w, final) ==> CreateSucceedsAt(ses, b, req, w, final);
    forall k: nat | k < n && CreateSucceedsAt(ses, b, req, w, k) ensures k == last {
      assert StopsAt(iter, start, k);
    }
  }

  // ---- Delete ----

  /** What the delete closure captures: the IDs it sent delete requests for. */
  type Deletions = seq<string>

  function TryDelete(ses: Session, b: Backend, req: Request, w: World, sent: Deletions): (Out<Deletions>, bool) {
    var (found, w1) := Lookup(ses, b, req, w);
    if found.Ok? && found.value.status != DELETING && found.value.status != DELETED then
      var sent' := sent + [found.value.accessPointID];
      var w2 := w1.(calls := w1.calls + 1);
      match b.delete(w1.calls)
      case Some(e) => (Out(Some(e), sent', w2), false)
      case None => (Out(None, sent', w2), true)
    else (Out(None, sent, w1), true)
  }

  function DeleteAttempt(ses: Session, b: Backend, req: Request): (World, Deletions) -> (Out<Deletions>, bool) {
    (w: World, sent: Deletions) => TryDelete(ses, b, req, w, sent)
  }

  function DeleteIter(ses: Session, b: Backend, req: Request): Iteration<Deletions> {
    FlexyIter(ses.retry.maxRetryGap, DeleteAttempt(ses, b, req))
  }

  /** DeleteVolumeAccessPoint: its error, the delete requests sent, the world it leaves. */
  function DeleteRun(ses: Session, b: Backend, req: Request, w: World): (Option<Err>, Deletions, World) {
    if !ValidRequest(req) then (Some(UserError(ses, "ErrorRequiredFieldMissing")), [], w)
    else
      var o := Until(ses.retry.maxRetryAttempt, DeleteIter(ses, b, req), 0, Out(None, [], w));
      (if o.err.Some? then Some(UserError(ses, "DeleteVolumeAccessPointFailed")) else None, o.s, o.w)
  }

  method DeleteVolumeAccessPoint(p: Process, ses: Session, b: Backend, req: Request)
      returns (err: Option<Err>, sent: Deletions)
    modifies p`retryGap, p`slept, p`calls
    ensures (err, sent, p.Now()) == DeleteRun(ses, b, req, old(p.Now()))
  {
    if !ValidRequest(req) {
      return Some(UserError(ses, "ErrorRequiredFieldMissing")), [];
    }
    err, sent := p.RunFlexyRetry(ses.retry, DeleteAttempt(ses, b, req), []);
    if err.Some? {
      err := Some(UserError(ses, "DeleteVolumeAccessPointFailed"));
    }
  }

  /** The world in which attempt k of the delete loop does its lookup. */
  function DeleteWorld(ses: Session, b: Backend, req: Request, w: World, k: nat): World {
    var before := After(DeleteIter(ses, b, req), Out(None, [], w), k).w;
    Pause(before, k, before.gap)
  }

  /** Attempt k sees a target to delete, asks for its deletion and is refused. */
  predicate DeleteRefused(ses: Session, b: Backend, req: Request, w: World, k: nat) {
    var (found, w1) := Lookup(ses, b, req, DeleteWorld(ses, b, req, w, k));
    found.Ok? && found.value.status != DELETING && found.value.status != DELETED && b.delete(w1.calls).Some?
  }

  /** Attempt k finds a target that is neither deleting nor deleted. */
  predicate DeleteFindsTarget(ses: Session, b: Backend, req: Request, w: World, k: nat) {
    var found := Lookup(ses, b, req, DeleteWorld(ses, b, req, w, k)).0;
    found.Ok? && found.value.status != DELETING && found.value.status != DELETED
  }

  lemma DeleteStep(ses: Session, b: Backend, req: Request, w: World, k: nat)
    ensures var iter, start := DeleteIter(ses, b, req), Out(None, [], w);
      && StopsAt(iter, start, k) == !DeleteRefused(ses, b, req, w, k)
      && After(iter, start, k + 1).err.Some? == DeleteRefused(ses, b, req, w, k)
      && After(iter, start, k + 1).w.calls
         == Lookup(ses, b, req, DeleteWorld(ses, b, req, w, k)).1.calls
            + (if DeleteFindsTarget(ses, b, req, w, k) then 1 else 0)
  {
    hide SkipRetry, Lookup;
    var iter, start := DeleteIter(ses, b, req), Out(None, [], w);
    var o := After(iter, start, k);
    assert iter(k, o.w, o.s) == FlexyStep(ses.retry.maxRetryGap, DeleteAttempt(ses, b, req), k, o.w, o.s);
    var w' := Pause(o.w, k, o.w.gap);
    assert DeleteAttempt(ses, b, req)(w', o.s) == TryDelete(ses, b, req, w', o.s);
    assert w' == DeleteWorld(ses, b, req, w, k);
    var (found, w1) := Lookup(ses, b, req, w');
  }

  /** Delete is exact: nil if and only if the request is valid and within the attempt limit some
      attempt is not a refused deletion, that is: its lookup fails, or finds the target already
      going, or its delete request is accepted. */
  lemma DeleteExact(ses: Session, b: Backend, req: Request, w: World)
    ensures DeleteRun(ses, b, req, w).0 == None
      <==> ValidRequest(req)
           && exists k: nat :: k < ses.retry.maxRetryAttempt && !DeleteRefused(ses, b, req, w, k)
  {
    var n: nat, iter, start := ses.retry.maxRetryAttempt, DeleteIter(ses, b, req), Out(None, [], w);
    var k := LoopResult(n, iter, start);
    forall j: nat ensures StopsAt(iter, start, j) == !DeleteRefused(ses, b, req, w, j)
                       && After(iter, start, j + 1).err.Some? == DeleteRefused(ses, b, req, w, j)
    {
      DeleteStep(ses, b, req, w, j);
    }
    if k == n {
      var last: nat := n - 1;
      assert !StopsAt(iter, start, last);
      assert After(iter, start, last + 1).err.Some?;
    }
  }

  /** The IDs the lookups of the first k attempts found. */
  function FoundIDs(ses: Session, b: Backend, req: Request, w: World, k: nat): Deletions {
    if k == 0 then []
    else
      var found := Lookup(ses, b, req, DeleteWorld(ses, b, req, w, k - 1)).0;
      FoundIDs(ses, b, req, w, k - 1) + (if found.Ok? then [found.value.accessPointID] else [])
  }

  lemma {:induction false} RefusalsSent(ses: Session, b: Backend, req: Request, w: World, k: nat)
    requires forall j: nat :: j < k ==> DeleteRefused(ses, b, req, w, j)
    ensures After(DeleteIter(ses, b, req), Out(None, [], w), k).s == FoundIDs(ses, b, req, w, k)
    ensures |FoundIDs(ses, b, req, w, k)| == k
    ensures After(DeleteIter(ses, b, req), Out(None, [], w), k + 1).s
         == FoundIDs(ses, b, req, w, if DeleteFindsTarget(ses, b, req, w, k) then k + 1 else k)
  {
    hide SkipRetry, Lookup;
    if k > 0 {
      RefusalsSent(ses, b, req, w, k - 1);
      assert DeleteRefused(ses, b, req, w, k - 1);
    }
    var iter := DeleteIter(ses, b, req);
    var o := After(iter, Out(None, [], w), k);
    assert iter(k, o.w, o.s) == FlexyStep(ses.retry.maxRetryGap, DeleteAttempt(ses, b, req), k, o.w, o.s);
    var w' := Pause(o.w, k, o.w.gap);
    assert DeleteAttempt(ses, b, req)(w', o.s) == TryDelete(ses, b, req, w', o.s);
  }

  /** "Nil means a delete request was accepted" fails. A run that ends with nil has made k refused
      delete requests, each for the target its lookup had just found, and one more, accepted,
      exactly if attempt k found the target alive: a lookup that fails for whatever reason counts
      as a completed deletion. */
  lemma DeleteNilMeaning(ses: Session, b: Backend, req: Request, w: World) returns (k: nat)
    requires DeleteRun(ses, b, req, w).0 == None
    ensures k < ses.retry.maxRetryAttempt
    ensures forall j: nat :: j < k ==> DeleteRefused(ses, b, req, w, j)
    ensures !DeleteRefused(ses, b, req, w, k)
    ensures DeleteRun(ses, b, req, w).1
         == FoundIDs(ses, b, req, w, if DeleteFindsTarget(ses, b, req, w, k) then k + 1 else k)
    ensures |FoundIDs(ses, b, req, w, k)| == k
  {
    hide Lookup, FlexyStep, TryDelete;
    var n: nat, iter, start := ses.retry.maxRetryAttempt, DeleteIter(ses, b, req), Out(None, [], w);
    k := LoopResult(n, iter, start);
    forall j: nat ensures StopsAt(iter, start, j) == !DeleteRefused(ses, b, req, w, j)
                       && After(iter, start, j + 1).err.Some? == DeleteRefused(ses, b, req, w, j)
    {
      DeleteStep(ses, b, req, w, j);
    }
    DeleteExact(ses, b, req, w);
    var stopping: nat :| stopping < n && !DeleteRefused(ses, b, req, w, stopping);
    assert StopsAt(iter, start, stopping);
    RefusalsSent(ses, b, req, w, k);
  }
}
