/** UpdateVolume: adding tags to a file share by optimistic concurrency. A call reads the share
    and its ETag, appends its tags to the list it read and writes the list back on condition
    that the ETag still matches (If-Match, section 13.1.1 of RFC 9110), up to five times. */
module TagUpdate {
  import opened Strings
  import opened RetryEngine

  /** What a call sees of a share. */
  datatype TaggedShare = TaggedShare(tags: seq<string>, status: string)

  /** The answer to a read: the share, if any, and its ETag. */
  datatype Snapshot = Snapshot(share: Option<TaggedShare>, etag: string)

  /** A conditional write of the whole tag list. */
  datatype Patch = Patch(etag: string, list: seq<string>)

  const MIN_RETRY_ATTEMPT: nat := 5

  // ---- The call, as the code runs it ----

  /** What ifTagsEqual decides. */
  predicate TagsCovered(existing: seq<string>, requested: seq<string>) {
    forall v :: v in requested ==> Contains(ToLower(Join(existing)), ToLower(v))
  }

  method IfTagsEqual(existing: seq<string>, requested: seq<string>) returns (equal: bool)
    ensures equal == TagsCovered(existing, requested)
  {
    var tags := ToLower(Join(existing));
    for i := 0 to |requested|
      invariant forall j :: 0 <= j < i ==> Contains(tags, ToLower(requested[j]))
    {
      if !Contains(tags, ToLower(requested[i])) {
        return false;
      }
    }
    return true;
  }

  /** How the backend answers: read(k) and patch(k) answer the k-th call of the process. */
  datatype Service = Service(read: nat -> Reply<Snapshot>, patch: nat -> Option<Err>)

  /** The closure UpdateVolume retries; it captures the writes sent so far. */
  function Attempt(svc: Service, requested: seq<string>): (World, seq<Patch>) -> Out<seq<Patch>> {
    (w: World, sent: seq<Patch>) => AttemptOnce(svc, requested, w, sent)
  }

  function AttemptOnce(svc: Service, requested: seq<string>, w: World, sent: seq<Patch>): Out<seq<Patch>> {
    var w1 := w.(calls := w.calls + 1);
    match svc.read(w.calls)
    case Fail(e) => Out(Some(e), sent, w1)
    case Ok(Snapshot(share, etag)) =>
      if share.Some? && share.value.status == STABLE then
        if TagsCovered(share.value.tags, requested) then Out(None, sent, w1)
        else
          var p := Patch(etag, share.value.tags + requested);
          Out(svc.patch(w1.calls), sent + [p], w1.(calls := w1.calls + 1))
      else Out(Some(Message("VolumeNotInValidState")), sent, w1)
  }

  // ---- The call, one reply at a time ----

  datatype Phase = Reading | Writing(patch: Patch) | Returned(err: Option<Err>)

  datatype Call = Call(requested: seq<string>, attempt: nat, phase: Phase) {
    /** An attempt failed with e: give up on a permanent error or after the last attempt. */
    function Failed(e: Err): Call {
      if Permanent(e) || attempt + 1 >= MIN_RETRY_ATTEMPT then this.(phase := Returned(Some(e)))
      else Call(requested, attempt + 1, Reading)
    }

    /** The read is answered. */
    function OnRead(r: Reply<Snapshot>): Call {
      match r
      case Fail(e) => Failed(e)
      case Ok(Snapshot(share, etag)) =>
        if share.Some? && share.value.status == STABLE then
          if TagsCovered(share.value.tags, requested) then this.(phase := Returned(None))
          else this.(phase := Writing(Patch(etag, share.value.tags + requested)))
        else Failed(Message("VolumeNotInValidState"))
    }

    /** The conditional write is answered. */
    function OnPatch(e: Option<Err>): Call {
      if e.None? then this.(phase := Returned(None)) else Failed(e.value)
    }

    function Measure(): nat {
      if phase.Returned? then 0
      else 2 * (if attempt < MIN_RETRY_ATTEMPT then MIN_RETRY_ATTEMPT - attempt else 0)
           + (if phase.Reading? then 2 else 1)
    }
  }

  /** Feeds a call the replies from the k-th on until it returns: its final state, the writes it
      sent and the number of the next backend call. */
  function CallRun(svc: Service, c: Call, sent: seq<Patch>, k: nat): (r: (Call, seq<Patch>, nat))
    ensures r.0.phase.Returned?
    decreases c.Measure()
  {
    match c.phase
    case Returned(_) => (c, sent, k)
    case Reading =>
      var c' := c.OnRead(svc.read(k));
      CallRun(svc, c', if c'.phase.Writing? then sent + [c'.phase.patch] else sent, k + 1)
    case Writing(_) => CallRun(svc, c.OnPatch(svc.patch(k)), sent, k + 1)
  }

  /** One execution of the closure is one read and possibly one write of the call. */
  lemma AttemptIsReplies(svc: Service, requested: seq<string>, i: nat, w: World, sent: seq<Patch>)
    ensures var o := AttemptOnce(svc, requested, w, sent);
      var c := Call(requested, i, Reading);
      var c' := if o.err.None? then c.(phase := Returned(None)) else c.Failed(o.err.value);
      CallRun(svc, c, sent, w.calls) == CallRun(svc, c', o.s, o.w.calls)
  {
    hide SkipRetry;
    var c := Call(requested, i, Reading);
    var c1 := c.OnRead(svc.read(w.calls));
    if c1.phase.Writing? {
      assert CallRun(svc, c, sent, w.calls) == CallRun(svc, c1, sent + [c1.phase.patch], w.calls + 1);
      var c2 := c1.OnPatch(svc.patch(w.calls + 1));
      assert CallRun(svc, c1, sent + [c1.phase.patch], w.calls + 1)
          == CallRun(svc, c2, sent + [c1.phase.patch], w.calls + 2);
    }
  }

  /** The retry loop around the closure is the same call: same result, same writes, same number
      of backend calls, for every sequence of replies. */
  lemma {:induction false} CallRunIsRetry(svc: Service, requested: seq<string>, cap: int, i: nat,
                                          o: Out<WithGap<seq<Patch>>>)
    requires i < MIN_RETRY_ATTEMPT
    ensures var r := Until(MIN_RETRY_ATTEMPT, MinIter(cap, Attempt(svc, requested)), i, o);
      var (c, sent, k) := CallRun(svc, Call(requested, i, Reading), o.s.s, o.w.calls);
      r.err == c.phase.err && r.s.s == sent && r.w.calls == k
    decreases MIN_RETRY_ATTEMPT - i
  {
    hide SkipRetry, AttemptOnce, Contains;
    var iter := MinIter(cap, Attempt(svc, requested));
    assert iter(i, o.w, o.s) == MinStep(cap, Attempt(svc, requested), i, o.w, o.s);
    var w := Pause(o.w, i, o.s.gap);
    assert Attempt(svc, requested)(w, o.s.s) == AttemptOnce(svc, requested, w, o.s.s);
    AttemptIsReplies(svc, requested, i, w, o.s.s);
    var (o', stop) := iter(i, o.w, o.s);
    if !stop && i + 1 < MIN_RETRY_ATTEMPT {
      CallRunIsRetry(svc, requested, cap, i + 1, o');
    }
  }

  // ---- The call, on the replies alone ----

  /** Read k shows a stable share. */
  predicate ReadsStable(svc: Service, k: nat) {
    var r := svc.read(k);
    r.Ok? && r.value.share.Some? && r.value.share.value.status == "stable"
  }

  /** Read k shows a stable share whose tags cover these. */
  predicate SkipsAt(svc: Service, requested: seq<string>, k: nat) {
    ReadsStable(svc, k) && TagsCovered(svc.read(k).value.share.value.tags, requested)
  }

  /** Read k shows a stable share whose tags do not cover these: a write follows as call k + 1. */
  predicate WritesAt(svc: Service, requested: seq<string>, k: nat) {
    ReadsStable(svc, k) && !TagsCovered(svc.read(k).value.share.value.tags, requested)
  }

  /** That write: on the ETag just read, the list just read with these appended. */
  function WriteAfter(svc: Service, requested: seq<string>, k: nat): Patch
    requires ReadsStable(svc, k)
  {
    Patch(svc.read(k).value.etag, svc.read(k).value.share.value.tags + requested)
  }

  /** How an attempt that begins with read k fails, if it does: the read fails, or shows no stable
      share, or the write is refused. */
  function Failure(svc: Service, requested: seq<string>, k: nat): Option<Err> {
    if svc.read(k).Fail? then Some(svc.read(k).err)
    else if !ReadsStable(svc, k) then Some(Message("VolumeNotInValidState"))
    else if WritesAt(svc, requested, k) then svc.patch(k + 1)
    else None
  }

  /** The read that begins attempt j, when attempt 0 begins with read k. */
  function AttemptRead(svc: Service, requested: seq<string>, k: nat, j: nat): nat {
    if j == 0 then k
    else
      var before := AttemptRead(svc, requested, k, j - 1);
      if WritesAt(svc, requested, before) then before + 2 else before + 1
  }

  /** The writes of the first j attempts. */
  function WritesBefore(svc: Service, requested: seq<string>, k: nat, j: nat): seq<Patch> {
    if j == 0 then []
    else
      var read := AttemptRead(svc, requested, k, j - 1);
      WritesBefore(svc, requested, k, j - 1)
      + if WritesAt(svc, requested, read) then [WriteAfter(svc, requested, read)] else []
  }

  function FailureOf(svc: Service, requested: seq<string>, k: nat, j: nat): Option<Err> {
    Failure(svc, requested, AttemptRead(svc, requested, k, j))
  }

  /** Every attempt before j failed, with an error that is not permanent. */
  ghost predicate Reaches(svc: Service, requested: seq<string>, k: nat, j: nat) {
    forall i: nat :: i < j ==>
      FailureOf(svc, requested, k, i).Some? && !Permanent(FailureOf(svc, requested, k, i).value)
  }

  /** Attempt j is the last one: it is reached, and it succeeds, fails for good, or is the fifth. */
  ghost predicate EndsWith(svc: Service, requested: seq<string>, k: nat, j: nat) {
    var e := FailureOf(svc, requested, k, j);
    j < 5 && Reaches(svc, requested, k, j) && (e.None? || Permanent(e.value) || j == 4)
  }

  lemma AttemptAnswers(svc: Service, requested: seq<string>, i: nat, before: seq<Patch>, k: nat)
    ensures var e := Failure(svc, requested, k);
      var sent := before + if WritesAt(svc, requested, k) then [WriteAfter(svc, requested, k)] else [];
      var next := if WritesAt(svc, requested, k) then k + 2 else k + 1;
      CallRun(svc, Call(requested, i, Reading), before, k)
      == if e.None? then (Call(requested, i, Returned(None)), sent, next)
         else if Permanent(e.value) || i >= 4 then (Call(requested, i, Returned(e)), sent, next)
         else CallRun(svc, Call(requested, i + 1, Reading), sent, next)
  {
    hide TagsCovered, SkipRetry;
    var c := Call(requested, i, Reading);
    var c1 := c.OnRead(svc.read(k));
    assert before + [] == before;
    if c1.phase.Writing? {
      var sent := before + [c1.phase.patch];
      assert CallRun(svc, c, before, k) == CallRun(svc, c1, sent, k + 1);
      var c2 := c1.OnPatch(svc.patch(k + 1));
      assert CallRun(svc, c1, sent, k + 1) == CallRun(svc, c2, sent, k + 2);
    } else {
      assert CallRun(svc, c, before, k) == CallRun(svc, c1, before, k + 1);
    }
  }

  lemma {:induction false} ReachedAnswers(svc: Service, requested: seq<string>, k: nat, j: nat)
    requires j < 5 && Reaches(svc, requested, k, j)
    ensures CallRun(svc, Call(requested, 0, Reading), [], k)
         == CallRun(svc, Call(requested, j, Reading), WritesBefore(svc, requested, k, j),
                    AttemptRead(svc, requested, k, j))
  {
    hide TagsCovered, SkipRetry, CallRun;
    if j > 0 {
      ReachedAnswers(svc, requested, k, j - 1);
      assert FailureOf(svc, requested, k, j - 1).Some?;
      AttemptAnswers(svc, requested, j - 1, WritesBefore(svc, requested, k, j - 1),
                     AttemptRead(svc, requested, k, j - 1));
    }
  }

  /** What a call does, on the replies alone. It ends with exactly one attempt, with that attempt's
      failure or without an error, having sent the writes of the attempts so far and made just
      their calls; so it succeeds iff one of five attempts succeeds, by a skip or an accepted write,
      after failures, refused writes among them, none of which is permanent. */
  lemma UpdateAnswers(svc: Service, requested: seq<string>, k: nat)
    ensures var (c, sent, k') := CallRun(svc, Call(requested, 0, Reading), [], k);
      && (exists j: nat :: EndsWith(svc, requested, k, j))
      && (forall j: nat :: EndsWith(svc, requested, k, j) ==>
            && c.phase.err == FailureOf(svc, requested, k, j)
            && sent == WritesBefore(svc, requested, k, j + 1)
            && k' == AttemptRead(svc, requested, k, j + 1))
      && (c.phase.err == None
          <==> exists j: nat :: j < 5 && Reaches(svc, requested, k, j) && FailureOf(svc, requested, k, j).None?)
  {
    hide TagsCovered, SkipRetry, CallRun, Failure, WritesAt, ReadsStable;
    forall j: nat | EndsWith(svc, requested, k, j)
      ensures var (c, sent, k') := CallRun(svc, Call(requested, 0, Reading), [], k);
        && c.phase.err == FailureOf(svc, requested, k, j)
        && sent == WritesBefore(svc, requested, k, j + 1)
        && k' == AttemptRead(svc, requested, k, j + 1)
    {
      ReachedAnswers(svc, requested, k, j);
      AttemptAnswers(svc, requested, j, WritesBefore(svc, requested, k, j), AttemptRead(svc, requested, k, j));
    }
    var last := 0;
    while !EndsWith(svc, requested, k, last)
      invariant last < 5 && Reaches(svc, requested, k, last)
      decreases 5 - last
    {
      last := last + 1;
    }
    if j: nat :| j < 5 && Reaches(svc, requested, k, j) && FailureOf(svc, requested, k, j).None? {
      assert EndsWith(svc, requested, k, j);
    }
  }

  /** UpdateVolume; `sent` lists the conditional writes it made. */
  method UpdateVolume(p: Process, svc: Service, requested: seq<string>)
      returns (err: Option<Err>, sent: seq<Patch>)
    requires p.minRetryAttempt == MIN_RETRY_ATTEMPT
    modifies p`retryGap, p`slept, p`calls
    ensures var (c, writes, k) := CallRun(svc, Call(requested, 0, Reading), [], old(p.calls));
      && err == (if c.phase.err == None then None else Some(Message("FailedToUpdateVolume")))
      && sent == writes
      && p.calls == k
    ensures err == None
      <==> exists j: nat :: j < 5 && Reaches(svc, requested, old(p.calls), j)
                            && FailureOf(svc, requested, old(p.calls), j).None?
    ensures forall j: nat :: EndsWith(svc, requested, old(p.calls), j) ==>
      && sent == WritesBefore(svc, requested, old(p.calls), j + 1)
      && p.calls == AttemptRead(svc, requested, old(p.calls), j + 1)
  {
    ghost var start := p.Now();
    ghost var ownGap;
    err, sent, ownGap := p.RetryWithMinRetries(Attempt(svc, requested), []);
    CallRunIsRetry(svc, requested, p.maxRetryGap, 0, Out(None, WithGap([], 10), start));
    UpdateAnswers(svc, requested, start.calls);
    if err.Some? {
      err := Some(Message("FailedToUpdateVolume"));
    }
  }
}
