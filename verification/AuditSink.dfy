/**
 JSONSink (internal/audit/audit.go) as a state machine: any number of Write calls, one writer goroutine
 behind a channel of one place, timeouts, cancellations, and a ready flag that only goes down.
 */
module AuditSink {
  import opened Wrappers

  type Bytes = seq<int>

  // -------------------------------------------------------------------- state

  datatype WriteError = Cancelled | Unavailable | NotEncoded | WriteFailed

  /** Where a call of Write stands: past its checks, in the channel, or back at its caller. */
  datatype Phase = Checked | Queued | Returned(error: Option<WriteError>)

  datatype Call = Call(payload: Bytes, phase: Phase)

  /** One call of the underlying writer: the bytes it took, and whether it reported the whole payload written. */
  datatype Entry = Entry(id: nat, written: Bytes, complete: bool)

  /** The writer goroutine, by its place in the loop. */
  datatype Worker = Waiting | Received(id: nat) | Writing(id: nat) | Wrote(id: nat, ok: bool) | Marked(id: nat, ok: bool)

  /** `enqueued` and `processed` record history: the calls in channel order, and how many were answered. */
  datatype State = State(
    ready: bool, calls: map<nat, Call>, channel: Option<nat>, worker: Worker, replies: map<nat, Option<WriteError>>,
    log: seq<Entry>, enqueued: seq<nat>, processed: nat)

  const START := State(true, map[], None, Waiting, map[], [], [], 0)

  datatype Action =
    | Begin(id: nat, payload: Bytes, cancelled: bool, encodes: bool)
    | Enqueue(id: nat)
    | GiveUp(id: nat, cancelled: bool)
    | Receive
    | Check
    | Write(taken: nat, fails: bool)
    | Mark
    | Reply
    | TakeReply(id: nat)

  function Return(s: State, id: nat, error: Option<WriteError>): map<nat, Call> {
    s.calls[id := Call(if id in s.calls then s.calls[id].payload else [], Returned(error))]
  }

  function PayloadOf(s: State, id: nat): Bytes {
    if id in s.calls then s.calls[id].payload else []
  }

  predicate InPhase(s: State, id: nat, phase: Phase) {
    id in s.calls && s.calls[id].phase == phase
  }

  /**
   The effect of an action, when it can happen. Shared accesses are actions of their own, except that a call
   whose event does not encode lowers the flag as it returns.
   */
  function Step(s: State, a: Action): Option<State> {
    match a
    case Begin(id, payload, cancelled, encodes) =>
      if id in s.calls then None
      else if cancelled then Some(s.(calls := s.calls[id := Call(payload, Returned(Some(Cancelled)))]))
      else if !s.ready then Some(s.(calls := s.calls[id := Call(payload, Returned(Some(Unavailable)))]))
      else if !encodes then Some(s.(ready := false, calls := s.calls[id := Call(payload, Returned(Some(NotEncoded)))]))
      else Some(s.(calls := s.calls[id := Call(payload, Checked)]))
    case Enqueue(id) =>
      if !InPhase(s, id, Checked) || s.channel.Some? then None
      else Some(s.(channel := Some(id), enqueued := s.enqueued + [id], calls := s.calls[id := Call(s.calls[id].payload, Queued)]))
    case GiveUp(id, cancelled) =>
      if !InPhase(s, id, Checked) && !InPhase(s, id, Queued) then None
      else if cancelled then Some(s.(calls := Return(s, id, Some(Cancelled))))
      else Some(s.(ready := false, calls := Return(s, id, Some(Unavailable))))
    case Receive =>
      if s.worker != Waiting || s.channel == None then None
      else Some(s.(worker := Received(s.channel.value), channel := None))
    case Check =>
      if !s.worker.Received? then None
      else if !s.ready then
        Some(s.(worker := Waiting, replies := s.replies[s.worker.id := Some(Unavailable)], processed := s.processed + 1))
      else Some(s.(worker := Writing(s.worker.id)))
    case Write(taken, fails) =>
      if !s.worker.Writing? then None
      else
        var payload := PayloadOf(s, s.worker.id);
        var n := if taken <= |payload| then taken else |payload|;
        var ok := !fails && taken == |payload|;
        Some(s.(log := s.log + [Entry(s.worker.id, payload[..n], ok)], worker := Wrote(s.worker.id, ok)))
    case Mark =>
      if !s.worker.Wrote? then None
      else Some(s.(ready := s.ready && s.worker.ok, worker := Marked(s.worker.id, s.worker.ok)))
    case Reply =>
      if !s.worker.Marked? then None
      else
        Some(s.(worker := Waiting, processed := s.processed + 1,
                replies := s.replies[s.worker.id := if s.worker.ok then None else Some(WriteFailed)]))
    case TakeReply(id) =>
      if !InPhase(s, id, Queued) || id !in s.replies then None
      else Some(s.(calls := Return(s, id, s.replies[id])))
  }

  // --------------------------------------------------------------- invariants

  /** The calls that have been received but not answered, and then the one in the channel. */
  function Outstanding(s: State): seq<nat> {
    (if s.worker.Waiting? then [] else [s.worker.id]) + (if s.channel == None then [] else [s.channel.value])
  }

  predicate Distinct(ids: seq<nat>) {
    forall i, j :: 0 <= i < j < |ids| ==> ids[i] != ids[j]
  }

  /** How many calls the writer would have seen, had none been refused. */
  function Reached(s: State): nat {
    s.processed + (if s.worker.Wrote? || s.worker.Marked? then 1 else 0)
  }

  /** The channel keeps order: what is answered, then what is outstanding. */
  predicate QueueHolds(s: State) {
    && Distinct(s.enqueued)
    && s.processed <= |s.enqueued| && s.enqueued[s.processed..] == Outstanding(s)
    && (forall i :: 0 <= i < |s.enqueued| ==>
          s.enqueued[i] in s.calls && s.calls[s.enqueued[i]].phase != Checked)
    && (forall id :: id in s.calls && s.calls[id].phase == Queued ==> id in s.enqueued)
  }

  predicate AllComplete(log: seq<Entry>, n: nat) {
    n <= |log| && forall i :: 0 <= i < n ==> log[i].complete
  }

  /** The log is the payloads in channel order; only its last entry may be torn or failed. */
  predicate LogHolds(s: State) {
    && |s.log| <= |s.enqueued|
    && (forall i :: 0 <= i < |s.log| ==>
          && s.log[i].id == s.enqueued[i] && s.log[i].written <= PayloadOf(s, s.log[i].id)
          && (s.log[i].complete ==> s.log[i].written == PayloadOf(s, s.log[i].id)))
    && (|s.log| > 0 ==> AllComplete(s.log, |s.log| - 1))
  }

  /** While the sink is ready, everything received has been written completely. */
  predicate ReadyHolds(s: State) {
    && |s.log| <= Reached(s)
    && (s.ready || s.worker.Writing? ==> |s.log| == Reached(s))
    && (s.worker.Writing? || (s.ready && !s.worker.Wrote?) ==> AllComplete(s.log, |s.log|))
    && (s.worker.Wrote? || s.worker.Marked? ==>
          |s.log| == Reached(s) && s.log[|s.log| - 1].complete == s.worker.ok)
  }

  /** The call's payload is in the log, whole. */
  predicate Logged(s: State, id: nat) {
    exists i :: 0 <= i < |s.log| && s.log[i].id == id && s.log[i].complete
  }

  /** Success is reported only for logged calls. */
  predicate RepliesHold(s: State) {
    && (forall id :: id in s.replies && s.replies[id] == None ==> Logged(s, id))
    && (forall id :: id in s.calls && s.calls[id].phase == Returned(None) ==> Logged(s, id))
  }

  predicate Inv(s: State) {
    QueueHolds(s) && LogHolds(s) && ReadyHolds(s) && RepliesHold(s)
  }

  lemma StartHolds()
    ensures Inv(START)
  {
  }

  // -------------------------------------------------------------- step facts

  /** What an action may do to one call. */
  predicate CallKept(s: State, a: Action, t: State, id: nat) {
    && id in s.calls && id in t.calls && t.calls[id].payload == s.calls[id].payload
    && (if a == Enqueue(id) then t.calls[id].phase == Queued
        else t.calls[id].phase == s.calls[id].phase || t.calls[id].phase.Returned?)
  }

  /** Actions of callers: they touch calls, the channel's entrance and the ready flag. */
  predicate CallerStep(s: State, a: Action, t: State) {
    && t.worker == s.worker && t.log == s.log && t.processed == s.processed && t.replies == s.replies
    && (t.ready ==> s.ready)
    && (forall id :: id in s.calls ==> CallKept(s, a, t, id))
    && (forall id :: id in t.calls && t.calls[id].phase == Queued ==>
          (id in s.calls && s.calls[id].phase == Queued) || a == Enqueue(id))
    && (forall id :: id in t.calls && t.calls[id].phase == Returned(None) ==>
          (id in s.calls && s.calls[id].phase == Returned(None)) || (id in s.replies && s.replies[id] == None))
    && (if a.Enqueue? then
          && s.channel == None && t.channel == Some(a.id) && t.enqueued == s.enqueued + [a.id]
          && a.id in s.calls && s.calls[a.id].phase == Checked
        else t.channel == s.channel && t.enqueued == s.enqueued)
  }

  predicate OfCaller(a: Action) {
    a.Begin? || a.Enqueue? || a.GiveUp? || a.TakeReply?
  }

  lemma OneCallKept(s: State, a: Action, t: State, id: nat)
    requires Step(s, a) == Some(t) && OfCaller(a) && id in s.calls
    ensures CallKept(s, a, t, id)
  {
  }

  /** A call is queued by its own action, and returns nil only with the writer's reply. */
  lemma OneCallMoved(s: State, a: Action, t: State, id: nat)
    requires Step(s, a) == Some(t) && OfCaller(a) && id in t.calls
    ensures t.calls[id].phase == Queued ==> (id in s.calls && s.calls[id].phase == Queued) || a == Enqueue(id)
    ensures t.calls[id].phase == Returned(None) ==>
              (id in s.calls && s.calls[id].phase == Returned(None)) || (id in s.replies && s.replies[id] == None)
  {
  }

  lemma CallerFrame(s: State, a: Action, t: State)
    requires Step(s, a) == Some(t) && OfCaller(a)
    ensures t.worker == s.worker && t.log == s.log && t.processed == s.processed && t.replies == s.replies && (t.ready ==> s.ready)
    ensures if a.Enqueue? then
              && s.channel == None && t.channel == Some(a.id) && t.enqueued == s.enqueued + [a.id]
              && a.id in s.calls && s.calls[a.id].phase == Checked
            else t.channel == s.channel && t.enqueued == s.enqueued
  {
    hide Return;
  }

  lemma CallerFacts(s: State, a: Action, t: State)
    requires Step(s, a) == Some(t) && OfCaller(a)
    ensures CallerStep(s, a, t)
  {
    hide Step, OfCaller, CallKept;
    CallerFrame(s, a, t);
    forall id | id in s.calls ensures CallKept(s, a, t, id) {
      OneCallKept(s, a, t, id);
    }
    forall id | id in t.calls
      ensures t.calls[id].phase == Queued ==> (id in s.calls && s.calls[id].phase == Queued) || a == Enqueue(id)
      ensures t.calls[id].phase == Returned(None) ==>
                (id in s.calls && s.calls[id].phase == Returned(None)) || (id in s.replies && s.replies[id] == None)
    {
      OneCallMoved(s, a, t, id);
    }
  }

  /** Actions of the writer goroutine leave the calls alone. */
  lemma WorkerFacts(s: State, a: Action, t: State)
    requires Step(s, a) == Some(t) && !OfCaller(a)
    ensures t.calls == s.calls && t.enqueued == s.enqueued && (t.ready ==> s.ready)
    ensures a.Receive? ==> s.worker.Waiting? && s.channel.Some? && t.worker == Received(s.channel.value) && t.channel == None
    ensures !a.Receive? ==> !s.worker.Waiting? && t.channel == s.channel
    ensures (a.Check? && s.ready) || a.Write? || a.Mark? ==> !t.worker.Waiting? && t.worker.id == s.worker.id
    ensures (a.Check? && !s.ready) || a.Reply? ==> t.worker.Waiting?
    ensures t.processed == if (a.Check? && !s.ready) || a.Reply? then s.processed + 1 else s.processed
    ensures !a.Write? ==> t.log == s.log
  {
    hide PayloadOf;
  }

  lemma QueueCaller(s: State, a: Action, t: State)
    requires QueueHolds(s) && CallerStep(s, a, t)
    ensures QueueHolds(t)
  {
    if a.Enqueue? {
      AppendedRest(s.enqueued, s.processed, a.id);
      forall i | 0 <= i < |s.enqueued| ensures s.enqueued[i] != a.id {
        assert s.enqueued[i] in s.calls && s.calls[s.enqueued[i]].phase != Checked;
      }
    }
    forall i | 0 <= i < |t.enqueued| ensures t.enqueued[i] in t.calls && t.calls[t.enqueued[i]].phase != Checked {
      if i < |s.enqueued| {
        assert CallKept(s, a, t, s.enqueued[i]);
      } else {
        assert CallKept(s, a, t, a.id);
      }
    }
  }

  lemma AppendedRest(ids: seq<nat>, n: nat, id: nat)
    requires n <= |ids|
    ensures (ids + [id])[n..] == ids[n..] + [id]
  {
  }

  lemma QueueWorker(s: State, a: Action, t: State)
    requires QueueHolds(s) && Step(s, a) == Some(t) && !OfCaller(a)
    ensures QueueHolds(t)
  {
    hide Step;
    WorkerFacts(s, a, t);
    if t.processed > s.processed {
      NextInOrder(s);
      assert t.enqueued[t.processed..] == s.enqueued[s.processed..][1..];
    }
  }

  /** The received call is the next one in channel order. */
  lemma NextInOrder(s: State)
    requires QueueHolds(s) && !s.worker.Waiting?
    ensures s.processed < |s.enqueued| && s.enqueued[s.processed] == s.worker.id && s.worker.id in s.calls
  {
    assert s.enqueued[s.processed..][0] == s.worker.id;
  }

  lemma LogCaller(s: State, a: Action, t: State)
    requires QueueHolds(s) && LogHolds(s) && CallerStep(s, a, t)
    ensures LogHolds(t)
  {
    forall i | 0 <= i < |s.log|
      ensures s.log[i].id == t.enqueued[i] && PayloadOf(t, s.log[i].id) == PayloadOf(s, s.log[i].id)
    {
      assert s.log[i].id == s.enqueued[i];
      assert CallKept(s, a, t, s.log[i].id);
    }
    hide PayloadOf, CallKept, Distinct, Outstanding;
  }

  lemma WriteFacts(s: State, a: Action, t: State)
    requires Step(s, a) == Some(t) && a.Write?
    ensures s.worker.Writing? && |t.log| == |s.log| + 1 && t.log[..|s.log|] == s.log
    ensures var entry := t.log[|s.log|];
            && entry.id == s.worker.id && entry.written <= PayloadOf(s, s.worker.id)
            && (entry.complete ==> entry.written == PayloadOf(s, s.worker.id))
            && t.worker == Wrote(s.worker.id, entry.complete)
    ensures t.replies == s.replies && t.ready == s.ready
  {
  }

  lemma SamePayloads(s: State, t: State, id: nat)
    requires s.calls == t.calls
    ensures PayloadOf(s, id) == PayloadOf(t, id)
  {
  }

  lemma LogWorker(s: State, a: Action, t: State)
    requires Inv(s) && Step(s, a) == Some(t) && !OfCaller(a)
    ensures LogHolds(t)
  {
    hide Step, PayloadOf, Distinct, Outstanding, RepliesHold;
    WorkerFacts(s, a, t);
    forall id: nat ensures PayloadOf(s, id) == PayloadOf(t, id) {
      SamePayloads(s, t, id);
    }
    if a.Write? {
      WriteFacts(s, a, t);
      NextInOrder(s);
    }
    if a.Write? {
      forall i | 0 <= i < |t.log|
        ensures t.log[i].id == t.enqueued[i] && t.log[i].written <= PayloadOf(t, t.log[i].id)
        ensures t.log[i].complete ==> t.log[i].written == PayloadOf(t, t.log[i].id)
        ensures i < |s.log| ==> t.log[i] == s.log[i]
      {
        if i < |s.log| {
          assert t.log[..|s.log|][i] == s.log[i];
        }
      }
    }
  }

  lemma WorkerMoves(s: State, a: Action, t: State)
    requires Step(s, a) == Some(t) && !OfCaller(a)
    ensures a.Check? ==> s.worker.Received? && (s.ready ==> t.worker == Writing(s.worker.id)) && t.ready == s.ready
    ensures a.Mark? ==> s.worker.Wrote? && t.worker == Marked(s.worker.id, s.worker.ok) && t.ready == (s.ready && s.worker.ok)
    ensures a.Reply? ==> s.worker.Marked? && t.worker == Waiting && t.ready == s.ready
    ensures a.Receive? ==> s.worker == Waiting && t.worker.Received? && t.ready == s.ready
    ensures a.Write? ==> s.worker.Writing? && t.ready == s.ready
  {
    hide PayloadOf;
  }

  lemma ReadyWorker(s: State, a: Action, t: State)
    requires ReadyHolds(s) && LogHolds(s) && Step(s, a) == Some(t) && !OfCaller(a)
    ensures ReadyHolds(t)
  {
    hide Step, PayloadOf;
    WorkerFacts(s, a, t);
    WorkerMoves(s, a, t);
    if a.Write? {
      WriteFacts(s, a, t);
      forall i | 0 <= i < |s.log| ensures t.log[i] == s.log[i] {
        assert t.log[..|s.log|][i] == s.log[i];
      }
    }
  }

  lemma ReadyCaller(s: State, a: Action, t: State)
    requires ReadyHolds(s) && CallerStep(s, a, t)
    ensures ReadyHolds(t)
  {
    hide CallKept;
  }

  lemma RepliesCaller(s: State, a: Action, t: State)
    requires RepliesHold(s) && CallerStep(s, a, t)
    ensures RepliesHold(t)
  {
    hide CallKept;
    forall id | Logged(s, id) ensures Logged(t, id) {
      LoggedStays(s, t, id);
    }
  }

  lemma LoggedStays(s: State, t: State, id: nat)
    requires Logged(s, id) && s.log <= t.log
    ensures Logged(t, id)
  {
    var i :| 0 <= i < |s.log| && s.log[i].id == id && s.log[i].complete;
    assert t.log[i] == s.log[i];
  }

  lemma ReplyFacts(s: State, a: Action, t: State)
    requires Step(s, a) == Some(t) && !OfCaller(a)
    ensures forall id :: id in t.replies && t.replies[id] == None ==>
              (id in s.replies && s.replies[id] == None) || (a.Reply? && s.worker.Marked? && s.worker.ok && id == s.worker.id)
    ensures s.log <= t.log
  {
    hide PayloadOf;
  }

  lemma RepliesWorker(s: State, a: Action, t: State)
    requires Inv(s) && Step(s, a) == Some(t) && !OfCaller(a)
    ensures RepliesHold(t)
  {
    hide Step;
    WorkerFacts(s, a, t);
    ReplyFacts(s, a, t);
    forall id | Logged(s, id) ensures Logged(t, id) {
      LoggedStays(s, t, id);
    }
    if a.Reply? && s.worker.Marked? && s.worker.ok {
      NextInOrder(s);
      LastIsLogged(s);
    }
    hide QueueHolds, LogHolds, ReadyHolds, Logged;
  }

  /** The entry of a write that worked is the log's last one. */
  lemma LastIsLogged(s: State)
    requires QueueHolds(s) && LogHolds(s) && ReadyHolds(s) && s.worker.Marked? && s.worker.ok
    ensures Logged(s, s.worker.id)
  {
    NextInOrder(s);
    var last := |s.log| - 1;
    assert s.log[last].id == s.enqueued[last];
  }

  /** Every action keeps the invariant, in every state and for every outcome. */
  lemma InvStep(s: State, a: Action, t: State)
    requires Inv(s) && Step(s, a) == Some(t)
    ensures Inv(t)
  {
    hide *;
    InvParts(s);
    if OfCaller(a) {
      CallerFacts(s, a, t);
      QueueCaller(s, a, t);
      LogCaller(s, a, t);
      ReadyCaller(s, a, t);
      RepliesCaller(s, a, t);
    } else {
      QueueWorker(s, a, t);
      LogWorker(s, a, t);
      ReadyWorker(s, a, t);
      RepliesWorker(s, a, t);
    }
    InvBy(t);
  }

  lemma InvParts(s: State)
    requires Inv(s)
    ensures QueueHolds(s) && LogHolds(s) && ReadyHolds(s) && RepliesHold(s)
  {
    hide QueueHolds, LogHolds, ReadyHolds, RepliesHold;
  }

  lemma InvBy(s: State)
    requires QueueHolds(s) && LogHolds(s) && ReadyHolds(s) && RepliesHold(s)
    ensures Inv(s)
  {
    hide QueueHolds, LogHolds, ReadyHolds, RepliesHold;
  }

  // ----------------------------------------------------------------- theorems

  /** A run: any actions in any order, each possible where it happens. */
  predicate Run(states: seq<State>, actions: seq<Action>) {
    && |states| == |actions| + 1 && states[0] == START
    && forall i :: 0 <= i < |actions| ==> Step(states[i], actions[i]) == Some(states[i + 1])
  }

  lemma {:induction false} RunHolds(states: seq<State>, actions: seq<Action>, i: nat)
    requires Run(states, actions) && i < |states|
    ensures Inv(states[i])
  {
    hide Step, Inv;
    if i == 0 {
      StartHolds();
    } else {
      RunHolds(states, actions, i - 1);
      InvStep(states[i - 1], actions[i - 1], states[i]);
    }
  }

  /** Write returns nil only if its whole payload reached the writer, once. */
  lemma SuccessMeansWritten(states: seq<State>, actions: seq<Action>, i: nat, id: nat)
    requires Run(states, actions) && i < |states| && InPhase(states[i], id, Returned(None))
    ensures exists k :: 0 <= k < |states[i].log| && states[i].log[k].id == id
              && states[i].log[k].written == PayloadOf(states[i], id)
              && forall j :: 0 <= j < |states[i].log| && states[i].log[j].id == id ==> j == k
  {
    hide Run, Step, ReadyHolds;
    RunHolds(states, actions, i);
    var s := states[i];
    assert Logged(s, id);
    var k :| 0 <= k < |s.log| && s.log[k].id == id && s.log[k].complete;
    assert s.log[k].written == PayloadOf(s, id);
    forall j | 0 <= j < |s.log| && s.log[j].id == id ensures j == k {
      assert s.enqueued[j] == s.enqueued[k];
    }
  }

  /** The call has been answered by the writer. */
  predicate Answered(s: State, id: nat) {
    exists i :: 0 <= i < s.processed && i < |s.enqueued| && s.enqueued[i] == id
  }

  /** Replies go to answered calls, and a call whose payload is in the log whole gets no error. */
  predicate AnswersHold(s: State) {
    forall id :: id in s.replies ==> Answered(s, id) && (Logged(s, id) ==> s.replies[id] == None)
  }

  lemma AnswersCaller(s: State, a: Action, t: State)
    requires AnswersHold(s) && CallerStep(s, a, t)
    ensures AnswersHold(t)
  {
    hide CallKept;
    forall id | id in t.replies ensures Answered(t, id) && (Logged(t, id) ==> t.replies[id] == None) {
      assert Answered(s, id);
      var i :| 0 <= i < s.processed && i < |s.enqueued| && s.enqueued[i] == id;
      assert t.enqueued[i] == id;
    }
  }

  lemma EarlierDiffers(s: State, i: nat)
    requires Distinct(s.enqueued) && i < s.processed < |s.enqueued|
    ensures s.enqueued[i] != s.enqueued[s.processed]
  {
  }

  /** The call at the writer has not been answered, and its payload is in the log only once it is written. */
  lemma CurrentCall(s: State)
    requires QueueHolds(s) && LogHolds(s) && ReadyHolds(s) && !s.worker.Waiting?
    ensures !Answered(s, s.worker.id)
    ensures s.worker.Received? || s.worker.Writing? ==> !Logged(s, s.worker.id)
    ensures s.worker.Marked? && Logged(s, s.worker.id) ==> s.worker.ok
  {
    NextInOrder(s);
    forall i | 0 <= i < s.processed && i < |s.enqueued| ensures s.enqueued[i] != s.worker.id {
      EarlierDiffers(s, i);
    }
    if Logged(s, s.worker.id) {
      var k :| 0 <= k < |s.log| && s.log[k].id == s.worker.id && s.log[k].complete;
      assert s.enqueued[k] == s.enqueued[s.processed];
      assert k == s.processed;
    }
  }

  /** How the writer's actions change the replies. */
  lemma RepliesMove(s: State, a: Action, t: State)
    requires Step(s, a) == Some(t) && !OfCaller(a)
    ensures (a.Check? && !s.ready) || a.Reply? ==>
              !s.worker.Waiting? && t.log == s.log
              && t.replies == s.replies[s.worker.id := if a.Reply? && s.worker.ok then None else
                                                         if a.Reply? then Some(WriteFailed) else Some(Unavailable)]
    ensures a.Reply? ==> s.worker.Marked?
    ensures a.Check? ==> s.worker.Received?
    ensures !((a.Check? && !s.ready) || a.Reply?) ==> t.replies == s.replies
    ensures a.Write? ==> s.worker.Writing? && |t.log| == |s.log| + 1 && t.log[..|s.log|] == s.log && t.log[|s.log|].id == s.worker.id
    ensures !a.Write? ==> t.log == s.log
  {
    hide PayloadOf;
  }

  lemma AnsweredStays(s: State, t: State, id: nat)
    requires Answered(s, id) && t.enqueued == s.enqueued && t.processed >= s.processed
    ensures Answered(t, id)
  {
  }

  lemma LoggedOnlyNew(s: State, t: State, id: nat)
    requires |t.log| == |s.log| + 1 && t.log[..|s.log|] == s.log && Logged(t, id) && t.log[|s.log|].id != id
    ensures Logged(s, id)
  {
    var k :| 0 <= k < |t.log| && t.log[k].id == id && t.log[k].complete;
    assert s.log[k] == t.log[..|s.log|][k];
  }

  lemma AnswersWorker(s: State, a: Action, t: State)
    requires Inv(s) && AnswersHold(s) && Step(s, a) == Some(t) && !OfCaller(a)
    ensures AnswersHold(t)
  {
    hide Step, OfCaller, QueueHolds, LogHolds, ReadyHolds, RepliesHold, Answered, Logged;
    WorkerFacts(s, a, t);
    RepliesMove(s, a, t);
    if !s.worker.Waiting? {
      CurrentCall(s);
      NextInOrder(s);
    }
    forall id | id in t.replies ensures Answered(t, id) && (Logged(t, id) ==> t.replies[id] == None) {
      if ((a.Check? && !s.ready) || a.Reply?) && id == s.worker.id {
        AnsweredNow(s, t);
        SameLog(s, t, id);
      } else {
        AnsweredStays(s, t, id);
        if a.Write? && Logged(t, id) {
          LoggedOnlyNew(s, t, id);
        } else {
          SameLog(s, t, id);
        }
      }
    }
  }

  lemma SameLog(s: State, t: State, id: nat)
    ensures t.log == s.log ==> Logged(t, id) == Logged(s, id)
  {
  }

  lemma AnsweredNow(s: State, t: State)
    requires !s.worker.Waiting? && s.processed < |s.enqueued| && s.enqueued[s.processed] == s.worker.id
    requires t.enqueued == s.enqueued && t.processed == s.processed + 1
    ensures Answered(t, s.worker.id)
  {
    assert t.enqueued[s.processed] == s.worker.id;
  }

  lemma {:induction false} RunAnswers(states: seq<State>, actions: seq<Action>, i: nat)
    requires Run(states, actions) && i < |states|
    ensures AnswersHold(states[i])
  {
    hide Step, Inv, AnswersHold, OfCaller;
    if i == 0 {
      NoAnswers();
    } else {
      RunAnswers(states, actions, i - 1);
      RunHolds(states, actions, i - 1);
      if OfCaller(actions[i - 1]) {
        CallerFacts(states[i - 1], actions[i - 1], states[i]);
        AnswersCaller(states[i - 1], actions[i - 1], states[i]);
      } else {
        AnswersWorker(states[i - 1], actions[i - 1], states[i]);
      }
    }
  }

  lemma NoAnswers()
    ensures AnswersHold(START)
  {
  }

  /**
   A call whose payload is in the log whole gets no error from the writer: its reply, once there is one, is nil, and a
   caller that takes it returns nil.
   */
  lemma WrittenMeansSuccess(states: seq<State>, actions: seq<Action>, i: nat, id: nat, t: State)
    requires Run(states, actions) && i < |states| && id in states[i].replies
    requires exists k :: 0 <= k < |states[i].log| && states[i].log[k].id == id && states[i].log[k].complete
    ensures states[i].replies[id] == None
    ensures Step(states[i], TakeReply(id)) == Some(t) ==> InPhase(t, id, Returned(None))
  {
    hide Run;
    RunAnswers(states, actions, i);
    assert Logged(states[i], id);
  }

  /** What a caller and the writer do for one event that nothing disturbs. */
  function Served(id: nat, payload: Bytes): seq<Action> {
    [Begin(id, payload, false, true), Enqueue(id), Receive, Check, Write(|payload|, false), Mark, Reply, TakeReply(id)]
  }

  /** Each action leads from its state to the next one. */
  predicate Chain(states: seq<State>, actions: seq<Action>) {
    |states| == |actions| + 1 && forall i :: 0 <= i < |actions| ==> Step(states[i], actions[i]) == Some(states[i + 1])
  }

  lemma ChainGrows(states: seq<State>, actions: seq<Action>, a: Action, t: State)
    requires Chain(states, actions) && Step(states[|actions|], a) == Some(t)
    ensures Chain(states + [t], actions + [a])
  {
    hide Step;
    var longer, all := states + [t], actions + [a];
    forall i | 0 <= i < |all| ensures Step(longer[i], all[i]) == Some(longer[i + 1]) {
      if i < |actions| {
        assert all[i] == actions[i] && longer[i] == states[i] && longer[i + 1] == states[i + 1];
      }
    }
  }

  /** The caller's part up to the channel. */
  lemma CallQueued(s: State, id: nat, payload: Bytes) returns (states: seq<State>)
    requires s.ready && s.channel == None && id !in s.calls
    ensures Chain(states, [Begin(id, payload, false, true), Enqueue(id)]) && states[0] == s
    ensures states[2] == s.(channel := Some(id), enqueued := s.enqueued + [id], calls := s.calls[id := Call(payload, Queued)])
  {
    var middle := s.(calls := s.calls[id := Call(payload, Checked)]);
    var t := s.(channel := Some(id), enqueued := s.enqueued + [id], calls := s.calls[id := Call(payload, Queued)]);
    states := [s, middle, t];
    assert middle.calls[id := Call(payload, Queued)] == t.calls;
    assert Step(s, Begin(id, payload, false, true)) == Some(middle) && Step(middle, Enqueue(id)) == Some(t);
    hide Step;
  }

  lemma PayloadWritten(s: State, id: nat, payload: Bytes)
    requires s.ready && s.worker == Waiting && s.channel == Some(id) && id in s.calls && s.calls[id].payload == payload
    ensures var received := s.(worker := Received(id), channel := None);
            var writing := received.(worker := Writing(id));
            && Step(s, Receive) == Some(received) && Step(received, Check) == Some(writing)
            && Step(writing, Write(|payload|, false))
               == Some(writing.(log := s.log + [Entry(id, payload, true)], worker := Wrote(id, true)))
  {
    assert payload[..|payload|] == payload;
  }

  lemma PayloadAnswered(s: State, id: nat)
    requires s.ready && s.worker == Wrote(id, true) && InPhase(s, id, Queued)
    ensures var marked := s.(worker := Marked(id, true));
            var replied := marked.(worker := Waiting, processed := s.processed + 1, replies := s.replies[id := None]);
            && Step(s, Mark) == Some(marked) && Step(marked, Reply) == Some(replied)
            && Step(replied, TakeReply(id)) == Some(replied.(calls := Return(replied, id, None)))
  {
    hide PayloadOf;
  }

  /** An idle ready sink serves a new call: the payload goes to the end of the log, whole, and the caller gets nil. */
  lemma QuietCallSucceeds(s: State, id: nat, payload: Bytes) returns (states: seq<State>)
    requires s.ready && s.worker == Waiting && s.channel == None && id !in s.calls
    ensures Chain(states, Served(id, payload)) && states[0] == s
    ensures var t := states[8];
            && t.ready && t.worker == Waiting && t.channel == None && t.log == s.log + [Entry(id, payload, true)]
            && InPhase(t, id, Returned(None))
  {
    states := CallQueued(s, id, payload);
    var queued := states[2];
    var received := queued.(worker := Received(id), channel := None);
    var writing := received.(worker := Writing(id));
    var wrote := writing.(log := s.log + [Entry(id, payload, true)], worker := Wrote(id, true));
    var marked := wrote.(worker := Marked(id, true));
    var replied := marked.(worker := Waiting, processed := s.processed + 1, replies := s.replies[id := None]);
    var t := replied.(calls := Return(replied, id, None));
    hide Step, Chain, PayloadOf;
    PayloadWritten(queued, id, payload);
    PayloadAnswered(wrote, id);
    var actions := [Begin(id, payload, false, true), Enqueue(id)];
    ChainLength(states, actions);
    ChainGrows(states, actions, Receive, received);
    ChainGrows(states + [received], actions + [Receive], Check, writing);
    ChainGrows(states + [received] + [writing], actions + [Receive] + [Check], Write(|payload|, false), wrote);
    states, actions := states + [received] + [writing] + [wrote], actions + [Receive] + [Check] + [Write(|payload|, false)];
    ChainGrows(states, actions, Mark, marked);
    ChainGrows(states + [marked], actions + [Mark], Reply, replied);
    ChainGrows(states + [marked] + [replied], actions + [Mark] + [Reply], TakeReply(id), t);
    states, actions := states + [marked] + [replied] + [t], actions + [Mark] + [Reply] + [TakeReply(id)];
    assert actions == Served(id, payload);
  }

  lemma ChainLength(states: seq<State>, actions: seq<Action>)
    requires Chain(states, actions)
    ensures |states| == |actions| + 1
  {
    hide Step;
  }

  /** The log is whole payloads in channel order, then at most one that failed or was torn. */
  lemma LogIsInOrder(states: seq<State>, actions: seq<Action>, i: nat)
    requires Run(states, actions) && i < |states|
    ensures LogHolds(states[i]) && Distinct(states[i].enqueued)
  {
    hide Run, Step, ReadyHolds, RepliesHold;
    RunHolds(states, actions, i);
  }

  /** ready never goes back to true, what is written stays, and nothing follows a failed write. */
  lemma OneWay(s: State, a: Action, t: State)
    requires Inv(s) && Step(s, a) == Some(t)
    ensures !s.ready ==> !t.ready
    ensures s.log <= t.log && s.enqueued <= t.enqueued
    ensures !AllComplete(s.log, |s.log|) ==> t.log == s.log
  {
    hide QueueHolds, LogHolds, RepliesHold, PayloadOf, Return;
  }

  lemma {:induction false} OneWayRun(states: seq<State>, actions: seq<Action>, i: nat, j: nat)
    requires Run(states, actions) && i <= j < |states|
    ensures !states[i].ready ==> !states[j].ready
    ensures states[i].log <= states[j].log
    ensures !AllComplete(states[i].log, |states[i].log|) ==> states[j].log == states[i].log
    decreases j
  {
    hide Step, Inv, AllComplete;
    if i < j {
      OneWayRun(states, actions, i, j - 1);
      RunHolds(states, actions, j - 1);
      OneWay(states[j - 1], actions[j - 1], states[j]);
    }
  }
}
