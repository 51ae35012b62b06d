/** The calls of the concurrent system are the code's: what a call does in a run, it does in
    UpdateVolume when the backend gives the answers of that run. */
module TagCalls {
  import opened RetryEngine
  import opened TagUpdate
  import opened TagSystem

  datatype Answer = ReadAnswer(reply: Reply<Snapshot>) | PatchAnswer(err: Option<Err>)

  /** The answer an action gives to call id, if it gives one. */
  function AnswerTo(s: System, a: Action, id: CallId): seq<Answer> {
    match a
    case AnswerRead(x) => if x == id then [ReadAnswer(Ok(Snapshot(Some(s.share), s.etag)))] else []
    case ReadFails(x, e) => if x == id then [ReadAnswer(Fail(e))] else []
    case PatchAnswered(x) => if x == id then [PatchAnswer(None)] else []
    case PatchFails(x, e) => if x == id then [PatchAnswer(Some(e))] else []
    case _ => []
  }

  /** The answers call id gets in a run. */
  function Answers(s: System, run: seq<Action>, id: CallId): seq<Answer>
    requires Legal(s, run)
    decreases run
  {
    if run == [] then [] else AnswerTo(s, run[0], id) + Answers(Apply(s, run[0]), run[1..], id)
  }

  /** The write call id sends in an action, if it sends one. */
  function SendsBy(s: System, a: Action, id: CallId): seq<Patch>
    requires Enabled(s, a)
  {
    if a.AnswerRead? && a.id == id && Apply(s, a).calls[id].phase.Writing? then [Apply(s, a).calls[id].phase.patch]
    else []
  }

  /** The writes call id sends in a run, in order. */
  function Sends(s: System, run: seq<Action>, id: CallId): seq<Patch>
    requires Legal(s, run)
    decreases run
  {
    if run == [] then [] else SendsBy(s, run[0], id) + Sends(Apply(s, run[0]), run[1..], id)
  }

  /** The backend that gives these answers to the calls from the k-th on. */
  ghost predicate Gives(svc: Service, answers: seq<Answer>, k: nat) {
    forall j {:trigger answers[j]} :: 0 <= j < |answers| ==>
      match answers[j]
      case ReadAnswer(r) => svc.read(k + j) == r
      case PatchAnswer(e) => svc.patch(k + j) == e
  }

  function Replay(answers: seq<Answer>): Service {
    Service(
      (k: nat) => if k < |answers| && answers[k].ReadAnswer? then answers[k].reply else Fail(Other("")),
      (k: nat) => if k < |answers| && answers[k].PatchAnswer? then answers[k].err else None)
  }

  function Elements<T>(xs: seq<T>): set<T> {
    set x | x in xs
  }

  /** The writes of call id on the wire. */
  function WritesOf(s: System, id: CallId): set<Patch> {
    set m | m in s.wire && m.caller == id :: m.patch
  }

  /** What an answer does to a call, and the write it makes it send. */
  ghost predicate Moves(c: Call, c': Call, sends: seq<Patch>, got: seq<Answer>) {
    if got == [] then c' == c && sends == []
    else
      && |got| == 1
      && match got[0]
         case ReadAnswer(r) =>
           c.phase.Reading? && c' == c.OnRead(r)
           && sends == if c'.phase.Writing? then [c'.phase.patch] else []
         case PatchAnswer(e) =>
           c.phase.Writing? && c' == c.OnPatch(e) && sends == []
  }

  /** One action, seen from call id: it gets an answer and moves as the code does, or stays; and
      what it sends is what is new of it on the wire. */
  lemma CallStep(s: System, a: Action, id: CallId)
    requires Enabled(s, a) && id in s.calls
    ensures id in Apply(s, a).calls
    ensures Moves(s.calls[id], Apply(s, a).calls[id], SendsBy(s, a, id), AnswerTo(s, a, id))
    ensures WritesOf(Apply(s, a), id) == WritesOf(s, id) + Elements(SendsBy(s, a, id))
  {
    hide TagsCovered, SkipRetry;
    var s' := Apply(s, a);
    if a.AnswerRead? {
      var c := s'.calls[a.id];
      if c.phase.Writing? {
        var m := Pending(a.id, c);
        assert s'.wire == s.wire + {m};
        if a.id == id {
          assert WritesOf(s', id) == WritesOf(s, id) + {m.patch};
        } else {
          assert WritesOf(s', id) == WritesOf(s, id);
        }
      }
    }
  }

  /** From any state on: if the call returns in the run, the code returns the same on the same
      answers, having sent the same writes in the same order. */
  lemma {:induction false} CallFollowsCodeFrom(s: System, run: seq<Action>, id: CallId, svc: Service,
                                               sent: seq<Patch>, k: nat)
    requires Legal(s, run) && id in s.calls
    requires Gives(svc, Answers(s, run, id), k)
    ensures id in Exec(s, run).calls
    ensures WritesOf(Exec(s, run), id) == WritesOf(s, id) + Elements(Sends(s, run, id))
    ensures Exec(s, run).calls[id].phase.Returned? ==>
      var (c, writes, k') := CallRun(svc, s.calls[id], sent, k);
      c == Exec(s, run).calls[id] && writes == sent + Sends(s, run, id) && k' == k + |Answers(s, run, id)|
    decreases run
  {
    hide TagsCovered, SkipRetry;
    if run != [] {
      var a, rest := run[0], run[1..];
      var s', got, sends := Apply(s, a), AnswerTo(s, a, id), SendsBy(s, a, id);
      CallStep(s, a, id);
      var answers, later := Answers(s, run, id), Sends(Apply(s, run[0]), run[1..], id);
      assert answers == got + Answers(s', rest, id);
      assert Sends(s, run, id) == sends + later && sent + (sends + later) == (sent + sends) + later;
      GivesRest(svc, got, Answers(s', rest, id), k);
      if got == [] {
        CallFollowsCodeFrom(s', rest, id, svc, sent, k);
      } else {
        assert answers[0] == got[0];
        assert CallRun(svc, s.calls[id], sent, k) == CallRun(svc, s'.calls[id], sent + sends, k + 1) by {
          assert sent + [] == sent;
        }
        CallFollowsCodeFrom(s', rest, id, svc, sent + sends, k + 1);
      }
    }
  }

  lemma GivesRest(svc: Service, got: seq<Answer>, rest: seq<Answer>, k: nat)
    requires Gives(svc, got + rest, k)
    ensures Gives(svc, got, k) && Gives(svc, rest, k + |got|)
  {
    forall j | 0 <= j < |got| ensures (got + rest)[j] == got[j] {}
    forall j | 0 <= j < |rest| ensures (got + rest)[|got| + j] == rest[j] {}
  }

  /** Whatever the other calls do: when call id, just started, has returned, UpdateVolume's
      sequence of steps on the answers it got returns the same, having sent the same writes in the
      same order and used all the answers; and those writes are what the wire carries of it. */
  lemma CallFollowsCode(s: System, run: seq<Action>, id: CallId, requested: seq<string>)
    requires Legal(s, run) && id in s.calls && s.calls[id] == Call(requested, 0, Reading) && WritesOf(s, id) == {}
    ensures id in Exec(s, run).calls
    ensures WritesOf(Exec(s, run), id) == Elements(Sends(s, run, id))
    ensures Exec(s, run).calls[id].phase.Returned? ==>
      CallRun(Replay(Answers(s, run, id)), Call(requested, 0, Reading), [], 0)
      == (Exec(s, run).calls[id], Sends(s, run, id), |Answers(s, run, id)|)
  {
    hide TagsCovered, SkipRetry, CallRun;
    var answers := Answers(s, run, id);
    assert Gives(Replay(answers), answers, 0);
    CallFollowsCodeFrom(s, run, id, Replay(answers), [], 0);
    assert [] + Sends(s, run, id) == Sends(s, run, id);
  }
}
