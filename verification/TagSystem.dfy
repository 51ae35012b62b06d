/** Any number of UpdateVolume calls on one share, with a network that may lose, delay, reorder
    or duplicate their writes, or apply one after its caller gave up.

    Assumptions on the backend: an ETag is never reused for a different state of the share, a
    write whose If-Match differs from the current ETag changes nothing, and one that matches
    replaces the whole tag list. */
module TagSystem {
  import opened Strings
  import opened RetryEngine
  import opened TagUpdate

  type CallId = nat

  /** A conditional write on the wire: whose, from which attempt. */
  datatype Msg = Msg(caller: CallId, attempt: nat, patch: Patch)

  /** The share and its ETag; the tags under every ETag so far; the calls; every write ever
      sent (a message stays deliverable for good); the writes that took effect, in order. */
  datatype System = System(
    share: TaggedShare,
    etag: string,
    versions: map<string, seq<string>>,
    calls: map<CallId, Call>,
    wire: set<Msg>,
    log: seq<Msg>)

  datatype Action =
    | Start(id: CallId, requested: seq<string>)  // a new call
    | AnswerRead(id: CallId)                     // the backend answers a read
    | ReadFails(id: CallId, err: Err)            // a read ends in an error
    | Deliver(m: Msg, next: string)              // a write reaches the backend
    | PatchAnswered(id: CallId)                  // a caller learns that its write took effect
    | PatchFails(id: CallId, err: Err)           // a caller sees an error, whatever became of its write
    | Touch(status: string, next: string)        // the share changes state, not its tags

  predicate Initial(s: System) {
    s.versions == map[s.etag := s.share.tags] && s.calls == map[] && s.wire == {} && s.log == []
  }

  /** The write a call is waiting for. */
  function Pending(id: CallId, c: Call): Msg
    requires c.phase.Writing?
  {
    Msg(id, c.attempt, c.phase.patch)
  }

  predicate Enabled(s: System, a: Action) {
    match a
    case Start(id, _) => id !in s.calls
    case AnswerRead(id) => id in s.calls && s.calls[id].phase.Reading?
    case ReadFails(id, _) => id in s.calls && s.calls[id].phase.Reading?
    case Deliver(m, next) => m in s.wire && (m.patch.etag == s.etag ==> next !in s.versions)
    case PatchAnswered(id) => id in s.calls && s.calls[id].phase.Writing? && Pending(id, s.calls[id]) in s.log
    case PatchFails(id, _) => id in s.calls && s.calls[id].phase.Writing?
    case Touch(_, next) => next == s.etag || next !in s.versions
  }

  function Apply(s: System, a: Action): System
    requires Enabled(s, a)
  {
    match a
    case Start(id, requested) => s.(calls := s.calls[id := Call(requested, 0, Reading)])
    case AnswerRead(id) =>
      var c := s.calls[id].OnRead(Ok(Snapshot(Some(s.share), s.etag)));
      s.(calls := s.calls[id := c],
         wire := if c.phase.Writing? then s.wire + {Pending(id, c)} else s.wire)
    case ReadFails(id, e) => s.(calls := s.calls[id := s.calls[id].OnRead(Fail(e))])
    case Deliver(m, next) =>
      if m.patch.etag != s.etag then s
      else s.(share := s.share.(tags := m.patch.list), etag := next,
              versions := s.versions[next := m.patch.list], log := s.log + [m])
    case PatchAnswered(id) => s.(calls := s.calls[id := s.calls[id].OnPatch(None)])
    case PatchFails(id, e) => s.(calls := s.calls[id := s.calls[id].OnPatch(Some(e))])
    case Touch(status, next) =>
      s.(share := s.share.(status := status), etag := next, versions := s.versions[next := s.share.tags])
  }

  predicate Legal(s: System, run: seq<Action>)
    decreases run
  {
    run == [] || (Enabled(s, run[0]) && Legal(Apply(s, run[0]), run[1..]))
  }

  /** The state after a run. */
  function Exec(s: System, run: seq<Action>): System
    requires Legal(s, run)
    decreases run
  {
    if run == [] then s else Exec(Apply(s, run[0]), run[1..])
  }

  /** The requested tags of the callers of these writes, in order. */
  function Requested(calls: map<CallId, Call>, log: seq<Msg>): seq<string>
    requires forall m :: m in log ==> m.caller in calls
  {
    if log == [] then []
    else Requested(calls, log[..|log| - 1]) + calls[log[|log| - 1].caller].requested
  }

  // ---- The invariant ----

  /** A write on the wire appends its caller's tags to the list under its ETag, a list that did
      not cover them. */
  ghost predicate MsgOk(s: System, m: Msg) {
    && m.caller in s.calls
    && m.patch.etag in s.versions
    && m.patch.list == s.versions[m.patch.etag] + s.calls[m.caller].requested
    && !TagsCovered(s.versions[m.patch.etag], s.calls[m.caller].requested)
  }

  ghost predicate CallOk(s: System, id: CallId)
    requires id in s.calls
  {
    var c := s.calls[id];
    && (c.phase.Writing? ==> Pending(id, c) in s.wire)
    && (c.phase == Returned(None) ==> TagsCovered(s.share.tags, c.requested))
  }

  ghost predicate AppliedOnce(log: seq<Msg>) {
    forall i, j :: 0 <= i < j < |log| ==> log[i].caller != log[j].caller
  }

  ghost predicate Inv(s: System, origin: seq<string>) {
    && s.etag in s.versions && s.versions[s.etag] == s.share.tags
    && (forall m :: m in s.wire ==> MsgOk(s, m))
    && (forall m :: m in s.log ==> m in s.wire && TagsCovered(s.share.tags, s.calls[m.caller].requested))
    && (forall id :: id in s.calls ==> CallOk(s, id))
    && AppliedOnce(s.log)
    && s.share.tags == origin + Requested(s.calls, s.log)
  }

  lemma CoveredStays(existing: seq<string>, more: seq<string>, requested: seq<string>)
    requires TagsCovered(existing, requested)
    ensures TagsCovered(existing + more, requested)
  {
    JoinPrefix(existing, more);
    var a, b := Join(existing), Join(existing + more);
    forall v | v in requested ensures Contains(ToLower(b), ToLower(v)) {
      assert b == a + b[|a|..];
      ToLowerConcat(a, b[|a|..]);
      ContainsInside("", ToLower(a), ToLower(b[|a|..]), ToLower(v));
      assert "" + ToLower(a) + ToLower(b[|a|..]) == ToLower(b);
    }
  }

  /** A list covers its own elements. */
  lemma CoversItsOwn(existing: seq<string>, requested: seq<string>)
    ensures TagsCovered(existing + requested, requested)
  {
    var all := existing + requested;
    LowerJoin(all);
    forall v | v in requested ensures Contains(ToLower(Join(all)), ToLower(v)) {
      var k :| 0 <= k < |requested| && requested[k] == v;
      assert LowerAll(all)[|existing| + k] == ToLower(v);
      JoinHasElement(LowerAll(all), |existing| + k);
    }
  }

  /** Calls that only gained members, or only changed phase, request the same tags. */
  lemma {:induction false} RequestedSame(calls: map<CallId, Call>, calls': map<CallId, Call>, log: seq<Msg>)
    requires forall m :: m in log ==> m.caller in calls
    requires forall id :: id in calls ==> id in calls' && calls'[id].requested == calls[id].requested
    ensures Requested(calls', log) == Requested(calls, log)
  {
    if log != [] {
      RequestedSame(calls, calls', log[..|log| - 1]);
    }
  }

  /** A write that takes effect finds the list it was computed from. */
  lemma AppliedWriteAppends(s: System, origin: seq<string>, m: Msg)
    requires Inv(s, origin) && m in s.wire && m.patch.etag == s.etag
    ensures m.patch.list == s.share.tags + s.calls[m.caller].requested
    ensures forall x :: x in s.log ==> x.caller != m.caller
  {
    assert MsgOk(s, m);
  }

  lemma DeliverKeepsInv(s: System, origin: seq<string>, m: Msg, next: string)
    requires Inv(s, origin) && m in s.wire && m.patch.etag == s.etag && next !in s.versions
    ensures Inv(Apply(s, Deliver(m, next)), origin)
  {
    hide Contains, Join, ToLower, SkipRetry;
    var s' := Apply(s, Deliver(m, next));
    var mine := s.calls[m.caller].requested;
    AppliedWriteAppends(s, origin, m);
    assert s'.log[..|s'.log| - 1] == s.log;
    assert s'.share.tags == origin + Requested(s'.calls, s'.log);
    forall x | x in s'.wire ensures MsgOk(s', x) {
      assert MsgOk(s, x);
    }
    forall x | x in s'.log ensures x in s'.wire && TagsCovered(s'.share.tags, s'.calls[x.caller].requested) {
      if x in s.log {
        CoveredStays(s.share.tags, mine, s.calls[x.caller].requested);
      } else {
        CoversItsOwn(s.share.tags, mine);
      }
    }
    forall id | id in s'.calls ensures CallOk(s', id) {
      assert CallOk(s, id);
      if s.calls[id].phase == Returned(None) {
        CoveredStays(s.share.tags, mine, s.calls[id].requested);
      }
    }
  }

  /** A step of call id that leaves the share alone. */
  lemma CallerKeepsInv(s: System, origin: seq<string>, id: CallId, s': System)
    requires Inv(s, origin)
    requires id in s'.calls && (id in s.calls ==> s'.calls[id].requested == s.calls[id].requested)
    requires s' == s.(calls := s.calls[id := s'.calls[id]], wire := s'.wire) && s.wire <= s'.wire
    requires forall m :: m in s'.wire - s.wire ==> MsgOk(s', m)
    requires CallOk(s', id)
    ensures Inv(s', origin)
  {
    hide TagsCovered, SkipRetry;
    RequestedSame(s.calls, s'.calls, s.log);
    forall m | m in s'.wire ensures MsgOk(s', m) {
      if m in s.wire {
        assert MsgOk(s, m);
      }
    }
    forall x | x in s'.calls ensures CallOk(s', x) {
      if x != id {
        assert CallOk(s, x);
      }
    }
  }

  lemma TouchKeepsInv(s: System, origin: seq<string>, status: string, next: string)
    requires Inv(s, origin) && (next == s.etag || next !in s.versions)
    ensures Inv(Apply(s, Touch(status, next)), origin)
  {
    hide TagsCovered, SkipRetry;
    var s' := Apply(s, Touch(status, next));
    forall m | m in s'.wire ensures MsgOk(s', m) {
      assert MsgOk(s, m);
    }
    forall x | x in s'.calls ensures CallOk(s', x) {
      assert CallOk(s, x);
    }
  }

  lemma StepKeepsInv(s: System, origin: seq<string>, a: Action)
    requires Inv(s, origin) && Enabled(s, a)
    ensures Inv(Apply(s, a), origin)
  {
    hide TagsCovered, SkipRetry;
    var s' := Apply(s, a);
    match a
    case Start(id, _) => CallerKeepsInv(s, origin, id, s');
    case AnswerRead(id) => CallerKeepsInv(s, origin, id, s');
    case ReadFails(id, _) => CallerKeepsInv(s, origin, id, s');
    case PatchAnswered(id) => CallerKeepsInv(s, origin, id, s');
    case PatchFails(id, _) => CallerKeepsInv(s, origin, id, s');
    case Touch(status, next) => TouchKeepsInv(s, origin, status, next);
    case Deliver(m, next) =>
      if m.patch.etag == s.etag {
        DeliverKeepsInv(s, origin, m, next);
      }
  }

  lemma {:induction false} RunKeepsInv(s: System, origin: seq<string>, run: seq<Action>)
    requires Inv(s, origin) && Legal(s, run)
    ensures Inv(Exec(s, run), origin)
    decreases run
  {
    if run != [] {
      StepKeepsInv(s, origin, run[0]);
      RunKeepsInv(Apply(s, run[0]), origin, run[1..]);
    }
  }

  lemma InitialInv(s: System)
    requires Initial(s)
    ensures Inv(s, s.share.tags)
  {
    assert s.share.tags + [] == s.share.tags;
  }
}
