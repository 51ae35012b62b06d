/** Concurrent CreateVolumeAccessPoint calls for the same share and VPC.

    The backend allows one mount target per share and VPC and never deletes one here; create
    requests may be lost, delayed, or applied with the answer lost on the way back. Callers run
    at any speed: `when(k)` is the moment the backend answered the k-th call of a caller. */
module TargetAgreement {
  import opened RetryEngine
  import opened Backoff
  import opened AccessPoints

  datatype Key = Key(volumeID: string, vpcID: string)

  /** A create request on the wire. */
  datatype Message = Message(number: nat, key: Key)

  /** The targets by share and VPC, the IDs ever given out, the requests on the wire, the ID each
      successful request got, and all creations in order. */
  datatype Store = Store(targets: map<Key, string>, used: set<string>, wire: set<Message>,
                         born: map<Message, string>, created: seq<(Key, string)>)

  datatype Event =
    | Quiet                            // a read, a rejected or a lost request
    | Sent(m: Message)
    | Created(m: Message, id: string)

  predicate Possible(s: Store, e: Event) {
    match e
    case Quiet => true
    case Sent(m) => m !in s.wire
    case Created(m, id) => m in s.wire && m.key !in s.targets && id !in s.used
  }

  function Apply(s: Store, e: Event): Store
    requires Possible(s, e)
  {
    match e
    case Quiet => s
    case Sent(m) => s.(wire := s.wire + {m})
    case Created(m, id) =>
      s.(targets := s.targets[m.key := id], used := s.used + {id},
         born := s.born[m := id], created := s.created + [(m.key, id)])
  }

  /** A history of the backend: what happened at every moment. */
  datatype History = History(at: nat -> Store, event: nat -> Event)

  ghost predicate ValidHistory(h: History) {
    && h.at(0).wire == {} && h.at(0).born == map[] && h.at(0).created == []
    && forall t: nat :: Possible(h.at(t), h.event(t)) && h.at(t + 1) == Apply(h.at(t), h.event(t))
  }

  ghost predicate Inv(s: Store) {
    && (forall m :: m in s.born ==> m.key in s.targets && s.targets[m.key] == s.born[m])
    && (forall c :: c in s.created ==> c.0 in s.targets && s.targets[c.0] == c.1)
    && (forall i, j :: 0 <= i < j < |s.created| ==> s.created[i].0 != s.created[j].0)
  }

  lemma {:induction false} HistoryInv(h: History, t: nat)
    requires ValidHistory(h)
    ensures Inv(h.at(t))
  {
    if t > 0 {
      HistoryInv(h, t - 1);
      assert Possible(h.at(t - 1), h.event(t - 1));
      assert h.at(t - 1 + 1) == Apply(h.at(t - 1), h.event(t - 1));
    }
  }

  /** A target, once there, stays, with its ID. */
  lemma {:induction false} TargetsStay(h: History, t: nat, u: nat, key: Key)
    requires ValidHistory(h) && t <= u && key in h.at(t).targets
    ensures key in h.at(u).targets && h.at(u).targets[key] == h.at(t).targets[key]
  {
    if t < u {
      TargetsStay(h, t, u - 1, key);
      assert Possible(h.at(u - 1), h.event(u - 1));
      assert h.at(u - 1 + 1) == Apply(h.at(u - 1), h.event(u - 1));
    }
  }

  /** A caller: its session, the answers it gets and when, its request, the world it starts in. */
  datatype Caller = Caller(ses: Session, b: Backend, req: Request, start: World,
                           when: nat -> nat, message: nat -> Message)

  /** VPC mode: the target is looked up and created by VPC. */
  predicate VpcMode(req: Request) {
    ValidRequest(req) && req.accessPointID == "" && req.accessControlMode != SECURITY_GROUP
  }

  function KeyOf(req: Request): Key {
    Key(req.volumeID, req.vpcID)
  }

  function Result(c: Caller): Reply<Response> {
    CreateRun(c.ses, c.b, c.req, c.start).0
  }

  /** The create requests it sends. */
  function Posts(c: Caller): seq<Post> {
    CreateRun(c.ses, c.b, c.req, c.start).1
  }

  function End(c: Caller): World {
    CreateRun(c.ses, c.b, c.req, c.start).2
  }

  /** What attempt k of the caller finds, how its create request is answered if it finds nothing,
      and whether it ends with a rejection. */
  function Found(c: Caller, k: nat): Reply<Response> {
    CreateFinds(c.ses, c.b, c.req, c.start, k)
  }

  function Answer(c: Caller, k: nat): Reply<Target> {
    CreateAnswer(c.ses, c.b, c.req, c.start, k)
  }

  predicate Rejected(c: Caller, k: nat) {
    CreateRejected(c.ses, c.b, c.req, c.start, k)
  }

  /** Answer k tells the truth about the backend at the moment it was given: a listed target of a
      VPC exists (a list may well miss some), and a successful create is the caller's own request
      for its share and VPC having been applied. */
  ghost predicate Truthful(h: History, c: Caller, k: nat) {
    var now := h.at(c.when(k));
    && (c.b.list(k).Ok? ==>
          forall t :: t in c.b.list(k).value && t.vpc.Some? ==>
            var key := Key(c.req.volumeID, t.vpc.value);
            key in now.targets && now.targets[key] == t.id)
    && (c.b.create(k).Ok? ==>
          && c.message(k).key == KeyOf(c.req)
          && c.message(k) in now.born && now.born[c.message(k)] == c.b.create(k).value.id)
  }

  ghost predicate Consistent(h: History, c: Caller) {
    forall k: nat :: c.start.calls <= k < End(c).calls ==> Truthful(h, c, k)
  }

  /** A successful by-VPC lookup that ends with call k returned a target of that moment. */
  lemma LookupIsATarget(h: History, c: Caller, w: World, k: nat)
    requires VpcMode(c.req) && Lookup(c.ses, c.b, c.req, w).0.Ok?
    requires k == Lookup(c.ses, c.b, c.req, w).1.calls - 1 && Truthful(h, c, k)
    ensures Holds(h.at(c.when(k)), KeyOf(c.req), Lookup(c.ses, c.b, c.req, w).0.value.accessPointID)
  {
    FoundIsListed(c.b.list(k).value, c.req.vpcID);
  }

  lemma CreatedIsATarget(h: History, c: Caller, k: nat)
    requires ValidHistory(h) && c.b.create(k).Ok? && Truthful(h, c, k)
    ensures Holds(h.at(c.when(k)), KeyOf(c.req), c.b.create(k).value.id)
  {
    HistoryInv(h, c.when(k));
  }

  /** What a successful caller returns is the ID the backend held for its share and VPC at the
      moment of the last answer the caller got. */
  lemma ResultIsATarget(h: History, c: Caller) returns (t: nat)
    requires ValidHistory(h) && Consistent(h, c) && VpcMode(c.req) && Result(c).Ok?
    ensures End(c).calls > c.start.calls && t == c.when(End(c).calls - 1)
    ensures Holds(h.at(t), KeyOf(c.req), Result(c).value.accessPointID)
  {
    hide Lookup, Truthful, ValidHistory, CreateWorld;
    CreateLoopResponds(c.ses, c.b, c.req, c.start);
    var k: nat :| k < c.ses.retry.maxRetryAttempt && CreateSucceedsAt(c.ses, c.b, c.req, c.start, k);
    var last: nat := CreateDecides(c.ses, c.b, c.req, c.start, k);
    t := c.when(last);
    assert Truthful(h, c, last);
    if Found(c, k).Ok? {
      LookupIsATarget(h, c, CreateWorld(c.ses, c.b, c.req, c.start, k), last);
    } else {
      CreatedIsATarget(h, c, last);
    }
  }

  /** From moment t on the backend holds this target, and it never creates another one. */
  ghost predicate Settled(h: History, t: nat, key: Key, id: string) {
    && (forall u: nat :: u >= t ==> Holds(h.at(u), key, id))
    && (forall u: nat :: AtMostOneCreated(h.at(u), key, id))
  }

  ghost predicate Holds(s: Store, key: Key, id: string) {
    key in s.targets && s.targets[key] == id
  }

  ghost predicate AtMostOneCreated(s: Store, key: Key, id: string) {
    && (forall i :: 0 <= i < |s.created| && s.created[i].0 == key ==> s.created[i].1 == id)
    && (forall i, j :: 0 <= i < j < |s.created| && s.created[i].0 == key ==> s.created[j].0 != key)
  }

  lemma TargetSettles(h: History, t: nat, key: Key, id: string)
    requires ValidHistory(h) && Holds(h.at(t), key, id)
    ensures Settled(h, t, key, id)
  {
    hide ValidHistory;
    forall u: nat | u >= t ensures Holds(h.at(u), key, id) {
      TargetsStay(h, t, u, key);
    }
    forall u: nat ensures AtMostOneCreated(h.at(u), key, id) {
      HistoryInv(h, u);
      forall i | 0 <= i < |h.at(u).created| && h.at(u).created[i].0 == key ensures h.at(u).created[i].1 == id {
        assert h.at(u).created[i] in h.at(u).created;
        TargetsStay(h, if t <= u then t else u, if t <= u then u else t, key);
      }
    }
  }

  /** Agreement: all successful creators for one share and VPC return the same target, however
      their calls interleave and whichever answers are lost; that target stays, and the backend
      never creates a second one for them. */
  lemma Agreement(h: History, c: Caller, d: Caller) returns (t: nat)
    requires ValidHistory(h) && Consistent(h, c) && Consistent(h, d)
    requires VpcMode(c.req) && VpcMode(d.req) && KeyOf(c.req) == KeyOf(d.req)
    requires Result(c).Ok? && Result(d).Ok?
    ensures Result(c).value.accessPointID == Result(d).value.accessPointID
    ensures Settled(h, t, KeyOf(c.req), Result(c).value.accessPointID)
  {
    hide ValidHistory, Consistent, Result, AtMostOneCreated;
    t := ResultIsATarget(h, c);
    var t' := ResultIsATarget(h, d);
    TargetSettles(h, t, KeyOf(c.req), Result(c).value.accessPointID);
    TargetSettles(h, t', KeyOf(d.req), Result(d).value.accessPointID);
    var u := if t <= t' then t' else t;
    assert Holds(h.at(u), KeyOf(c.req), Result(c).value.accessPointID);
    assert Holds(h.at(u), KeyOf(d.req), Result(d).value.accessPointID);
  }

  // ---- What a rejected creator does ----

  /** A creator whose requests were rejected k times, with errors the table does not make
      permanent, and whose next lookup succeeds within the limit, returns what it found, having sent
      just those k requests; after a permanent rejection it fails without looking again. With
      Agreement: it returns the winner's target. */
  lemma RejectedCreatorFollows(c: Caller, k: nat)
    requires ValidRequest(c.req) && k < c.ses.retry.maxRetryAttempt
    requires RejectedBefore(c.ses, c.b, c.req, c.start, k)
    ensures Found(c, k).Ok? ==> Result(c) == Ok(Found(c, k).value)
    ensures Found(c, k).Ok? ==> Posts(c) == seq(k, _ => BuildPost(c.req))
    ensures Rejected(c, k) && Permanent(Answer(c, k).err) ==> Result(c).Fail?
  {
    hide Lookup, SkipRetry, FlexyStep, TryCreate, BuildPost, CreateIter, CreateWorld;
    CreateProgress(c.ses, c.b, c.req, c.start, k);
    var n: nat, iter, start := c.ses.retry.maxRetryAttempt, CreateIter(c.ses, c.b, c.req), Nothing(c.start);
    forall j: nat | j < k ensures !StopsAt(iter, start, j) {
      CreateStep(c.ses, c.b, c.req, c.start, j);
    }
    CreateStep(c.ses, c.b, c.req, c.start, k);
    UntilFrom(n, iter, start, k);
  }

  /** Whatever the answers: a call sends at most as many create requests as it may make attempts,
      and each of them, for the caller's share, names the caller's VPC, or in security-group mode
      a network interface in the caller's subnet if there is one, and never both. */
  lemma PostsNameVpcOrInterface(c: Caller)
    ensures |Posts(c)| <= c.ses.retry.maxRetryAttempt
    ensures forall p :: p in Posts(c) ==>
      && p.volumeID == c.req.volumeID
      && (p.vpc.Some? <==> p.interface.None?)
      && (p.vpc.Some? <==> c.req.accessControlMode != SECURITY_GROUP)
      && (p.vpc.Some? ==> p.vpc.value == c.req.vpcID)
      && (p.interface.Some? ==> p.interface.value.subnet == if c.req.subnetID != "" then Some(c.req.subnetID) else None)
  {
    hide Lookup, SkipRetry, FlexyStep, TryCreate, CreateIter;
    var n: nat, iter, start := c.ses.retry.maxRetryAttempt, CreateIter(c.ses, c.b, c.req), Nothing(c.start);
    var k := LoopResult(n, iter, start);
    CreateProgress(c.ses, c.b, c.req, c.start, if k < n then k + 1 else n);
  }

  lemma DuplicateCodesDiffer()
    ensures !SkipRetry(["shares_target_vpc_duplicate"]) && SkipRetry(["shares_target_one_per_vpc"])
  {
  }

  /** The two ways the backend can say that the VPC already has a target differ in this: a creator
      told so by the one looks again and returns the target it then finds, a creator told so by
      the other fails, even if that target exists. */
  lemma DuplicateCodes(c: Caller, k: nat)
    requires ValidRequest(c.req) && k + 1 < c.ses.retry.maxRetryAttempt
    requires RejectedBefore(c.ses, c.b, c.req, c.start, k) && Rejected(c, k) && Answer(c, k).err.Api?
    ensures Answer(c, k).err.codes == ["shares_target_vpc_duplicate"] && Found(c, k + 1).Ok?
      ==> Result(c) == Ok(Found(c, k + 1).value)
    ensures Answer(c, k).err.codes == ["shares_target_one_per_vpc"] ==> Result(c).Fail?
  {
    hide SkipRetry, Lookup, FlexyStep, TryCreate, CreateIter, CreateWorld;
    DuplicateCodesDiffer();
    var codes := Answer(c, k).err.codes;
    if codes == ["shares_target_vpc_duplicate"] {
      assert CreateContinues(c.ses, c.b, c.req, c.start, k);
      RejectedCreatorFollows(c, k + 1);
    } else if codes == ["shares_target_one_per_vpc"] {
      RejectedCreatorFollows(c, k);
    }
  }
}
