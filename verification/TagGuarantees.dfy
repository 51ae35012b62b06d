/** What UpdateVolume guarantees over every run of the system of concurrent calls. */
module TagGuarantees {
  import opened Strings
  import opened RetryEngine
  import opened TagUpdate
  import opened TagSystem

  /** However its writes are lost, delayed, duplicated or retried, a call's tags are appended at
      most once: two writes that took effect belong to different calls. */
  lemma AtMostOnce(s: System, run: seq<Action>)
    requires Initial(s) && Legal(s, run)
    ensures forall i, j :: 0 <= i < j < |Exec(s, run).log| ==> Exec(s, run).log[i].caller != Exec(s, run).log[j].caller
  {
    InitialInv(s);
    RunKeepsInv(s, s.share.tags, run);
  }

  /** Conservation: the tag list is the original one followed by the requests of exactly the
      calls whose write took effect, in the order in which they did. */
  lemma Conservation(s: System, run: seq<Action>)
    requires Initial(s) && Legal(s, run)
    ensures var s' := Exec(s, run);
      && (forall m :: m in s'.log ==> m.caller in s'.calls)
      && s'.share.tags == s.share.tags + Requested(s'.calls, s'.log)
  {
    InitialInv(s);
    RunKeepsInv(s, s.share.tags, run);
  }

  /** No lost update: whatever happens after a reachable state, the tag list only grows at its
      end, and so does the list of writes that took effect. */
  lemma {:induction false} NoLostUpdate(s: System, origin: seq<string>, later: seq<Action>)
    requires Inv(s, origin) && Legal(s, later)
    ensures s.share.tags <= Exec(s, later).share.tags && s.log <= Exec(s, later).log
    decreases later
  {
    if later != [] {
      var a := later[0];
      if a.Deliver? && a.m.patch.etag == s.etag {
        AppliedWriteAppends(s, origin, a.m);
      }
      StepKeepsInv(s, origin, a);
      NoLostUpdate(Apply(s, a), origin, later[1..]);
    }
  }

  /** Every write on the wire carries a non-empty list ending in the caller's own tags, so the
      JSON field, omitted when empty, is always sent. */
  lemma WrittenListsAreNonEmpty(s: System, origin: seq<string>, m: Msg)
    requires Inv(s, origin) && m in s.wire
    ensures m.caller in s.calls
    ensures |m.patch.list| >= |s.calls[m.caller].requested| >= 1
  {
    assert MsgOk(s, m);
  }

  /** Success is meaningful and stable: once a call has returned nil, its tags are covered by
      the share's, then and after every later step of anyone. */
  lemma SuccessIsStable(s: System, run: seq<Action>, later: seq<Action>, id: CallId)
    requires Initial(s) && Legal(s, run) && Legal(Exec(s, run), later)
    requires id in Exec(s, run).calls && Exec(s, run).calls[id].phase == Returned(None)
    ensures TagsCovered(Exec(s, run).share.tags, Exec(s, run).calls[id].requested)
    ensures TagsCovered(Exec(Exec(s, run), later).share.tags, Exec(s, run).calls[id].requested)
  {
    InitialInv(s);
    RunKeepsInv(s, s.share.tags, run);
    var now := Exec(s, run);
    assert CallOk(now, id);
    NoLostUpdate(now, s.share.tags, later);
    var tags, tags' := now.share.tags, Exec(now, later).share.tags;
    assert tags' == tags + tags'[|tags|..];
    CoveredStays(tags, tags'[|tags|..], now.calls[id].requested);
  }

  /** Call id asks for tags already covered and has sent nothing. */
  ghost predicate Satisfied(s: System, id: CallId, requested: seq<string>) {
    && id in s.calls && s.calls[id].requested == requested
    && !s.calls[id].phase.Writing?
    && TagsCovered(s.share.tags, requested)
    && forall m :: m in s.wire ==> m.caller != id
  }

  lemma {:induction false} SatisfiedStays(s: System, origin: seq<string>, id: CallId, requested: seq<string>,
                                          run: seq<Action>)
    requires Inv(s, origin) && Satisfied(s, id, requested) && Legal(s, run)
    ensures Satisfied(Exec(s, run), id, requested)
    decreases run
  {
    if run != [] {
      var a := run[0];
      if a.Deliver? && a.m.patch.etag == s.etag {
        AppliedWriteAppends(s, origin, a.m);
        CoveredStays(s.share.tags, s.calls[a.m.caller].requested, requested);
      }
      StepKeepsInv(s, origin, a);
      SatisfiedStays(Apply(s, a), origin, id, requested, run[1..]);
    }
  }

  /** Idempotence: repeating a request after it succeeded writes nothing, in any run: no write
      of the second call is ever sent. */
  lemma RepeatWritesNothing(s: System, run: seq<Action>, first: CallId, second: CallId, later: seq<Action>)
    requires Initial(s) && Legal(s, run)
    requires first in Exec(s, run).calls && Exec(s, run).calls[first].phase == Returned(None)
    requires second !in Exec(s, run).calls
    requires var again := [Start(second, Exec(s, run).calls[first].requested)];
      Legal(Exec(s, run), again) && Legal(Exec(Exec(s, run), again), later)
    ensures var again := [Start(second, Exec(s, run).calls[first].requested)];
      forall m :: m in Exec(Exec(Exec(s, run), again), later).wire ==> m.caller != second
  {
    InitialInv(s);
    RunKeepsInv(s, s.share.tags, run);
    var now := Exec(s, run);
    var requested := now.calls[first].requested;
    assert CallOk(now, first);
    var again := [Start(second, requested)];
    assert again[1..] == [];
    assert Exec(now, again) == Apply(now, again[0]);
    StepKeepsInv(now, s.share.tags, again[0]);
    forall m | m in now.wire ensures m.caller != second {
      assert MsgOk(now, m);
    }
    SatisfiedStays(Exec(now, again), s.share.tags, second, requested, later);
  }

  /** In this run after its start, call id ends in an error although its write took effect. */
  ghost predicate FailsHavingWritten(s: System, id: CallId, requested: seq<string>, rest: seq<Action>)
    requires id !in s.calls
  {
    var started := Apply(s, Start(id, requested));
    && Legal(started, rest)
    && var s' := Exec(started, rest);
      && id in s'.calls && s'.calls[id].phase.Returned? && s'.calls[id].phase.err.Some?
      && exists m :: m in s'.log && m.caller == id
  }

  /** "An error means nothing was written" fails: a write may take effect and its caller still end
      with a permanent error. From any reachable state, whatever the other calls are doing, this
      can happen to a new call exactly if its tags are not covered when it starts. */
  lemma FailureMayHaveWritten(s: System, origin: seq<string>, id: CallId, requested: seq<string>)
    requires Inv(s, origin) && id !in s.calls
    ensures (exists rest: seq<Action> :: FailsHavingWritten(s, id, requested, rest))
      <==> !TagsCovered(s.share.tags, requested)
  {
    hide TagsCovered, SkipRetry;
    if TagsCovered(s.share.tags, requested) {
      forall rest: seq<Action> ensures !FailsHavingWritten(s, id, requested, rest) {
        CoveredNeverWrites(s, origin, id, requested, rest);
      }
    } else {
      var touched := FreshString(s.versions.Keys);
      var next := FreshString(s.versions.Keys + {touched});
      var rest := FailingRun(s, id, requested, touched, next);
    }
  }

  lemma CoveredNeverWrites(s: System, origin: seq<string>, id: CallId, requested: seq<string>, rest: seq<Action>)
    requires Inv(s, origin) && id !in s.calls && TagsCovered(s.share.tags, requested)
    ensures !FailsHavingWritten(s, id, requested, rest)
  {
    hide TagsCovered, SkipRetry;
    var started := Apply(s, Start(id, requested));
    StepKeepsInv(s, origin, Start(id, requested));
    forall m | m in started.wire ensures m.caller != id {
      assert MsgOk(s, m);
    }
    if Legal(started, rest) {
      SatisfiedStays(started, origin, id, requested, rest);
      RunKeepsInv(started, origin, rest);
    }
  }

  /** The share becomes stable if it is not, the call reads it and writes, the write takes effect,
      and the call is told of a permanent error. */
  lemma FailingRun(s: System, id: CallId, requested: seq<string>, touched: string, next: string)
      returns (rest: seq<Action>)
    requires id !in s.calls && !TagsCovered(s.share.tags, requested)
    requires touched !in s.versions && next !in s.versions && next != touched
    ensures FailsHavingWritten(s, id, requested, rest)
  {
    hide TagsCovered, SkipRetry;
    var e := Api(["bad_field"], "");
    BadFieldIsPermanent();
    var patch := Patch(touched, s.share.tags + requested);
    var m := Msg(id, 0, patch);
    var s0 := Apply(s, Start(id, requested));
    var s1 := Apply(s0, Touch(STABLE, touched));
    assert s1.calls[id] == Call(requested, 0, Reading) && s1.share == TaggedShare(s.share.tags, STABLE);
    var s2 := Apply(s1, AnswerRead(id));
    assert s2.calls[id] == Call(requested, 0, Writing(patch)) && m in s2.wire && s2.etag == touched;
    assert next !in s2.versions;
    var s3 := Apply(s2, Deliver(m, next));
    assert m in s3.log && s3.calls == s2.calls;
    var s4 := Apply(s3, PatchFails(id, e));
    assert s4.calls[id].phase == Returned(Some(e)) && s4.log == s3.log;
    rest := Before(s3, PatchFails(id, e), []);
    rest := Before(s2, Deliver(m, next), rest);
    rest := Before(s1, AnswerRead(id), rest);
    rest := Before(s0, Touch(STABLE, touched), rest);
  }

  lemma BadFieldIsPermanent()
    ensures Permanent(Api(["bad_field"], ""))
  {
  }

  lemma {:induction false} LongerThanAll(keys: set<string>) returns (n: nat)
    ensures forall k :: k in keys ==> |k| < n
  {
    if keys == {} {
      n := 0;
    } else {
      var k :| k in keys;
      n := LongerThanAll(keys - {k});
      if |k| >= n {
        n := |k| + 1;
      }
    }
  }

  lemma FreshString(keys: set<string>) returns (x: string)
    ensures x !in keys
  {
    var n := LongerThanAll(keys);
    x := seq(n, _ => 'x');
  }

  lemma Before(s: System, a: Action, rest: seq<Action>) returns (run: seq<Action>)
    requires Enabled(s, a) && Legal(Apply(s, a), rest)
    ensures Legal(s, run) && Exec(s, run) == Exec(Apply(s, a), rest)
  {
    run := [a] + rest;
    assert run[1..] == rest;
  }

  // ---- What "covered" means ----

  lemma LowerKeepsCommas(v: string)
    ensures ',' in ToLower(v) <==> ',' in v
  {
    if ',' in v {
      var k :| 0 <= k < |v| && v[k] == ',';
      assert ToLower(v)[k] == ',';
    }
    if ',' in ToLower(v) {
      var k :| 0 <= k < |v| && ToLower(v)[k] == ',';
      assert v[k] == ',';
    }
  }

  /** The tag is part of some existing tag, letter case aside. */
  ghost predicate PartOfSome(existing: seq<string>, v: string) {
    exists k :: 0 <= k < |existing| && Contains(ToLower(existing[k]), ToLower(v))
  }

  /** The tag is an existing tag, letter case aside. */
  predicate OnShare(existing: seq<string>, v: string) {
    ToLower(v) in LowerAll(existing)
  }

  /** For tags without commas the test on the joined list asks, for each requested tag, whether
      it is part of some existing tag, letter case aside. */
  lemma CoveredMeaning(existing: seq<string>, requested: seq<string>)
    requires forall v :: v in requested ==> ',' !in v && v != ""
    ensures TagsCovered(existing, requested) <==> forall v :: v in requested ==> PartOfSome(existing, v)
  {
    var lowered := LowerAll(existing);
    LowerJoin(existing);
    forall v | v in requested ensures Contains(ToLower(Join(existing)), ToLower(v)) <==> PartOfSome(existing, v) {
      LowerKeepsCommas(v);
      OccursInJoinIffInElement(lowered, ToLower(v));
      forall k | 0 <= k < |existing| ensures lowered[k] == ToLower(existing[k]) {}
    }
  }

  lemma {:induction false} CallRunExtends(svc: Service, c: Call, sent: seq<Patch>, k: nat)
    ensures sent <= CallRun(svc, c, sent, k).1
    decreases c.Measure()
  {
    hide TagsCovered, SkipRetry;
    match c.phase
    case Returned(_) =>
    case Reading =>
      var c' := c.OnRead(svc.read(k));
      CallRunExtends(svc, c', if c'.phase.Writing? then sent + [c'.phase.patch] else sent, k + 1);
    case Writing(_) => CallRunExtends(svc, c.OnPatch(svc.patch(k)), sent, k + 1);
  }

  /** An attempt that reads a stable share decides on its whole list: the call returns nil without
      another write iff every requested tag is part of some existing one; else it sends the list. */
  lemma StableReadDecides(svc: Service, existing: seq<string>, requested: seq<string>, etag: string,
                          i: nat, before: seq<Patch>, k: nat)
    requires svc.read(k) == Ok(Snapshot(Some(TaggedShare(existing, STABLE)), etag))
    requires forall v :: v in requested ==> ',' !in v && v != ""
    ensures var (c, sent, _) := CallRun(svc, Call(requested, i, Reading), before, k);
      && (sent == before <==> forall v :: v in requested ==> PartOfSome(existing, v))
      && (sent == before ==> c.phase == Returned(None))
      && (sent != before ==> before + [Patch(etag, existing + requested)] <= sent)
  {
    CoveredMeaning(existing, requested);
    hide TagsCovered, SkipRetry, OnShare, PartOfSome;
    var start := Call(requested, i, Reading);
    var c := start.OnRead(svc.read(k));
    if TagsCovered(existing, requested) {
      assert CallRun(svc, start, before, k) == (c, before, k + 1);
    } else {
      var p := Patch(etag, existing + requested);
      assert c.phase == Writing(p);
      assert CallRun(svc, start, before, k) == CallRun(svc, c, before + [p], k + 1);
      CallRunExtends(svc, c, before + [p], k + 1);
    }
  }

  /** Call k accepts `last`: the list that read k - 1 showed, without covering these, with these
      appended. */
  predicate AcceptsAt(svc: Service, requested: seq<string>, k: nat, last: Patch) {
    && k >= 1 && ReadsStable(svc, k - 1) && !SkipsAt(svc, requested, k - 1)
    && last == Patch(svc.read(k - 1).value.etag, svc.read(k - 1).value.share.value.tags + requested)
    && svc.patch(k) == None
  }

  /** What nil means, in every run and for whichever attempt it comes from: the last call was a read
      that skipped, or a write, based on the read just before it, that was accepted. */
  lemma {:induction false} NilMeaning(svc: Service, requested: seq<string>, i: nat, before: seq<Patch>, k: nat)
    ensures var (c, sent, k') := CallRun(svc, Call(requested, i, Reading), before, k);
      && k' > k
      && (c.phase == Returned(None) ==>
            || SkipsAt(svc, requested, k' - 1)
            || (k' - 2 >= k && sent != [] && AcceptsAt(svc, requested, k' - 1, sent[|sent| - 1])))
    decreases if i < MIN_RETRY_ATTEMPT then MIN_RETRY_ATTEMPT - i else 0
  {
    hide TagsCovered, SkipRetry, CallRun;
    AttemptAnswers(svc, requested, i, before, k);
    var e := Failure(svc, requested, k);
    if e.Some? && !Permanent(e.value) && i < 4 {
      var writes := if WritesAt(svc, requested, k) then [WriteAfter(svc, requested, k)] else [];
      NilMeaning(svc, requested, i + 1, before + writes, if WritesAt(svc, requested, k) then k + 2 else k + 1);
    }
  }

  /** For one tag: asked to add a tag to a share whose only tag is a longer one that starts with
      it, a call returns nil having sent nothing, and the tag is not on the share. */
  lemma SkipCanMissATag(svc: Service, v: string, more: string, etag: string, k: nat)
    requires svc.read(k) == Ok(Snapshot(Some(TaggedShare([v + more], STABLE)), etag))
    requires ',' !in v && v != "" && more != ""
    ensures var (c, sent, _) := CallRun(svc, Call([v], 0, Reading), [], k);
      c.phase == Returned(None) && sent == []
    ensures !OnShare([v + more], v)
  {
    var t := v + more;
    ToLowerConcat(v, more);
    assert OccursAt(ToLower(t), ToLower(v), 0);
    assert [t][0] == t;
    assert PartOfSome([t], v);
    assert |ToLower(t)| != |ToLower(v)|;
    assert LowerAll([t]) == [ToLower(t)];
    assert v in [v];
    StableReadDecides(svc, [t], [v], etag, 0, [], k);
  }

  // ---- When nil can miss a tag ----

  /** One of these tags is not on the share. */
  ghost predicate SomeMissing(tags: seq<string>, requested: seq<string>) {
    exists v :: v in requested && !OnShare(tags, v)
  }

  /** In this run after its start, call id returns nil although a requested tag is not on the
      share. */
  ghost predicate SucceedsMissing(s: System, id: CallId, requested: seq<string>, rest: seq<Action>)
    requires id !in s.calls
  {
    var started := Apply(s, Start(id, requested));
    && Legal(started, rest)
    && var s' := Exec(started, rest);
      id in s'.calls && s'.calls[id].phase == Returned(None) && SomeMissing(s'.share.tags, requested)
  }

  /** "Nil means the tags are on the share" fails, however often the call retries. From any
      reachable state it can happen to a new call exactly if one of its tags is not on the share
      when it starts: another call may add a longer tag that contains all of them. */
  lemma NilCanMissATag(s: System, origin: seq<string>, id: CallId, requested: seq<string>)
    requires Inv(s, origin) && id !in s.calls
    ensures (exists rest: seq<Action> :: SucceedsMissing(s, id, requested, rest))
      <==> SomeMissing(s.share.tags, requested)
  {
    hide TagsCovered, SkipRetry, OnShare, SomeMissing;
    if SomeMissing(s.share.tags, requested) {
      var touched := FreshString(s.versions.Keys);
      if TagsCovered(s.share.tags, requested) {
        var rest := SkippingRun(s, id, requested, touched);
      } else {
        var other := AboveAll(s.calls.Keys + {id});
        var next := FreshString(s.versions.Keys + {touched});
        var rest := OvertakenRun(s, id, requested, other, touched, next);
      }
    } else {
      forall rest: seq<Action> ensures !SucceedsMissing(s, id, requested, rest) {
        PresentStays(s, origin, id, requested, rest);
      }
    }
  }

  lemma PresentStays(s: System, origin: seq<string>, id: CallId, requested: seq<string>, rest: seq<Action>)
    requires Inv(s, origin) && id !in s.calls && !SomeMissing(s.share.tags, requested)
    ensures !SucceedsMissing(s, id, requested, rest)
  {
    hide TagsCovered, SkipRetry;
    var started := Apply(s, Start(id, requested));
    StepKeepsInv(s, origin, Start(id, requested));
    if Legal(started, rest) {
      NoLostUpdate(started, origin, rest);
      if SomeMissing(Exec(started, rest).share.tags, requested) {
        MissingShrinks(s.share.tags, Exec(started, rest).share.tags, requested);
      }
    }
  }

  lemma MissingShrinks(tags: seq<string>, tags': seq<string>, requested: seq<string>)
    requires tags <= tags' && SomeMissing(tags', requested)
    ensures SomeMissing(tags, requested)
  {
    var v :| v in requested && !OnShare(tags', v);
    var lowered, lowered' := LowerAll(tags), LowerAll(tags');
    forall k | 0 <= k < |tags| ensures lowered[k] == lowered'[k] {
      assert tags[k] == tags'[k];
    }
    assert !OnShare(tags, v);
  }

  /** The call reads the share in stable state and skips. */
  lemma SkippingRun(s: System, id: CallId, requested: seq<string>, touched: string) returns (rest: seq<Action>)
    requires id !in s.calls && TagsCovered(s.share.tags, requested) && SomeMissing(s.share.tags, requested)
    requires touched !in s.versions
    ensures SucceedsMissing(s, id, requested, rest)
  {
    hide TagsCovered, SkipRetry, SomeMissing;
    var s0 := Apply(s, Start(id, requested));
    var s1 := Apply(s0, Touch(STABLE, touched));
    assert s1.calls[id] == Call(requested, 0, Reading) && s1.share == TaggedShare(s.share.tags, STABLE);
    var s2 := Apply(s1, AnswerRead(id));
    assert s2.calls[id].phase == Returned(None) && s2.share == s1.share;
    rest := Before(s1, AnswerRead(id), []);
    rest := Before(s0, Touch(STABLE, touched), rest);
  }

  lemma {:induction false} AboveAll(ids: set<nat>) returns (n: nat)
    ensures forall i :: i in ids ==> i < n
  {
    if ids == {} {
      n := 0;
    } else {
      var top :| top in ids;
      var m := AboveAll(ids - {top});
      n := if top >= m then top + 1 else m;
      forall i | i in ids ensures i < n {
        assert i == top || i in ids - {top};
      }
    }
  }

  /** A tag that contains all of these and is none of them. */
  function Longer(requested: seq<string>): string {
    if requested == [] then "x" else requested[0] + Longer(requested[1..])
  }

  lemma {:induction false} LongerContains(requested: seq<string>, v: string)
    requires v in requested
    ensures |Longer(requested)| > |v| && Contains(ToLower(Longer(requested)), ToLower(v))
  {
    var first, rest := requested[0], Longer(requested[1..]);
    ToLowerConcat(first, rest);
    assert |rest| > 0 by {
      LongerNonEmpty(requested[1..]);
    }
    if v == first {
      assert OccursAt(ToLower(first), ToLower(v), 0);
      ContainsInside("", ToLower(first), ToLower(rest), ToLower(v));
      assert "" + ToLower(first) + ToLower(rest) == ToLower(first + rest);
    } else {
      LongerContains(requested[1..], v);
      ContainsInside(ToLower(first), ToLower(rest), "", ToLower(v));
      assert ToLower(first) + ToLower(rest) + "" == ToLower(first + rest);
    }
  }

  lemma {:induction false} LongerNonEmpty(requested: seq<string>)
    ensures Longer(requested) != ""
  {
    if requested != [] {
      LongerNonEmpty(requested[1..]);
    }
  }

  /** A list that covers the longer tag covers all of these. */
  lemma LongerCovers(tags: seq<string>, requested: seq<string>)
    requires TagsCovered(tags, [Longer(requested)])
    ensures TagsCovered(tags, requested)
  {
    var t := Longer(requested);
    assert t in [t];
    forall v | v in requested ensures Contains(ToLower(Join(tags)), ToLower(v)) {
      LongerContains(requested, v);
      ContainsTransitive(ToLower(Join(tags)), ToLower(t), ToLower(v));
    }
  }

  /** Appending the longer tag adds none of these. */
  lemma LongerIsNone(tags: seq<string>, requested: seq<string>)
    requires SomeMissing(tags, requested)
    ensures SomeMissing(tags + [Longer(requested)], requested)
  {
    var t := Longer(requested);
    var v :| v in requested && !OnShare(tags, v);
    LongerContains(requested, v);
    assert LowerAll(tags + [t]) == LowerAll(tags) + [ToLower(t)];
    assert |ToLower(t)| != |ToLower(v)|;
    assert !OnShare(tags + [t], v);
  }

  /** Between the start of the call and its read, another call adds the longer tag. */
  lemma OvertakenRun(s: System, id: CallId, requested: seq<string>, other: CallId, touched: string, next: string)
      returns (rest: seq<Action>)
    requires id !in s.calls && other !in s.calls && other != id
    requires !TagsCovered(s.share.tags, requested) && SomeMissing(s.share.tags, requested)
    requires touched !in s.versions && next !in s.versions && next != touched
    ensures SucceedsMissing(s, id, requested, rest)
  {
    hide TagsCovered, SkipRetry, SomeMissing, Longer;
    var t := Longer(requested);
    var tags := s.share.tags + [t];
    assert !TagsCovered(s.share.tags, [t]) by {
      if TagsCovered(s.share.tags, [t]) {
        LongerCovers(s.share.tags, requested);
      }
    }
    assert TagsCovered(tags, requested) by {
      CoversItsOwn(s.share.tags, [t]);
      LongerCovers(tags, requested);
    }
    LongerIsNone(s.share.tags, requested);
    var patch := Patch(touched, tags);
    var m := Msg(other, 0, patch);
    var s0 := Apply(s, Start(id, requested));
    var s1 := Apply(s0, Start(other, [t]));
    var s2 := Apply(s1, Touch(STABLE, touched));
    assert s2.calls[other] == Call([t], 0, Reading) && s2.share == TaggedShare(s.share.tags, STABLE);
    var s3 := Apply(s2, AnswerRead(other));
    assert s3.calls[other] == Call([t], 0, Writing(patch)) && m in s3.wire && s3.etag == touched;
    assert next !in s3.versions;
    var s4 := Apply(s3, Deliver(m, next));
    assert s4.share == TaggedShare(tags, STABLE) && s4.calls[id] == Call(requested, 0, Reading);
    var s5 := Apply(s4, AnswerRead(id));
    assert s5.calls[id].phase == Returned(None) && s5.share == s4.share;
    rest := Before(s4, AnswerRead(id), []);
    rest := Before(s3, Deliver(m, next), rest);
    rest := Before(s2, AnswerRead(other), rest);
    rest := Before(s1, Touch(STABLE, touched), rest);
    rest := Before(s0, Start(other, [t]), rest);
  }
}
