/**
 The attach client's request multiplexer (daemon/ipc/client.go): many callers of Do, one reader, and a connection
 that can end at any moment. A step is one critical section, one send or one receive; every interleaving is a run.
 */
module IpcClient {
  import opened Bytes

  /** What the daemon sends back for a request. */
  datatype Response = Response(id: nat, error: Option<string>, status: Option<nat>, body: seq<byte>)

  /** What Do returns. */
  datatype Outcome =
    | Answered(status: nat, body: Option<seq<byte>>)
    | Declined(error: string)
    | Malformed
    | Cancelled
    | NotSent
    | Ended(err: string)

  predicate IsBlank(b: byte) {
    b == 32 || b == 9 || b == 10 || b == 13
  }

  /** The bytes of "null". */
  const Null: seq<byte> := [110, 117, 108, 108]

  /** No body crosses the socket as null. */
  function BodyOf(body: seq<byte>): Option<seq<byte>> {
    if Trim(body, IsBlank) == Null then None else Some(body)
  }

  function ResultOf(r: Response): (o: Outcome)
    ensures o.Answered? || o.Declined? || o.Malformed?
  {
    if r.error.Some? then Declined(r.error.value)
    else if r.status.None? then Malformed
    else Answered(r.status.value, BodyOf(r.body))
  }

  /** The word and blanks around it, as JSON has blanks. */
  ghost predicate IsNull(body: seq<byte>) {
    exists before: seq<byte>, after: seq<byte> ::
      body == before + Null + after && forall b :: b in before + after ==> b in {9, 10, 13, 32}
  }

  /** What an answer is of a response, on its own fields: what it declines with, or its status and its body's bytes. */
  ghost predicate Answers(o: Outcome, r: Response) {
    match o
    case Declined(e) => r.error == Some(e)
    case Malformed => r.error.None? && r.status.None?
    case Answered(status, body) =>
      r.error.None? && r.status == Some(status) && body == if IsNull(r.body) then None else Some(r.body)
    case _ => false
  }

  lemma NullIff(body: seq<byte>)
    ensures Trim(body, IsBlank) == Null <==> IsNull(body)
  {
    hide All, Trim;
    TrimIff(body, Null, IsBlank);
    assert Bare(Null, IsBlank);
    if Trim(body, IsBlank) == Null {
      var before, after :| All(before, IsBlank) && All(after, IsBlank) && body == before + Null + after;
      BlanksAre(before, after);
    }
    if IsNull(body) {
      var before: seq<byte>, after: seq<byte> :|
        body == before + Null + after && forall b :: b in before + after ==> b in {9, 10, 13, 32};
      BlanksAre(before, after);
    }
  }

  lemma BlanksAre(before: seq<byte>, after: seq<byte>)
    ensures All(before, IsBlank) && All(after, IsBlank) <==> forall b :: b in before + after ==> b in {9, 10, 13, 32}
  {
    assert forall i :: 0 <= i < |before| ==> before[i] in before + after;
    assert forall i :: 0 <= i < |after| ==> after[i] in before + after;
  }

  /** Every response has one answer, and it is what Do makes of it. */
  lemma ResultAnswers(r: Response)
    ensures forall o :: Answers(o, r) <==> o == ResultOf(r)
  {
    NullIff(r.body);
  }

  /** One call of Do: writing its request, waiting for its answer, or returned. answer is its channel, of one place. */
  datatype Phase = Writing | Waiting | Returned(outcome: Outcome)

  datatype Call = Call(phase: Phase, answer: Option<Response>, sent: seq<Response>)

  /** The reader between two frames, with a response in its hand, ending, or gone. */
  datatype Reader = Reading | Holding(response: Response) | Ending | Gone

  /**
   The client's fields, its calls by id, and the reader. pending is None once it has been set to nil, where a write
   to it would be a crash; done is the channel that closes when the connection has ended.
   */
  datatype Client = Client(
    pending: Option<set<nat>>,
    nextId: nat,
    err: Option<string>,
    done: bool,
    calls: map<nat, Call>,
    reader: Reader)

  const Opened := Client(Some({}), 0, None, false, map[], Reading)

  datatype Step =
    | Register
    | Sent(id: nat)
    | SendFailed(id: nat)
    | TakeAnswer(id: nat)
    | Cancel(id: nat)
    | SeeDone(id: nat)
    | Receive(response: Response)
    | Deliver
    | End(err: string)
    | CloseDone

  predicate IsWaiting(c: Client, id: nat) {
    id in c.calls && c.calls[id].phase.Waiting?
  }

  /** Whether a step is one the code can take next. Delivering is not said to need room: that it has it is proved. */
  predicate Enabled(c: Client, s: Step) {
    match s
    case Register => c.err.None?
    case Sent(id) => id in c.calls && c.calls[id].phase.Writing?
    case SendFailed(id) => id in c.calls && c.calls[id].phase.Writing?
    case TakeAnswer(id) => IsWaiting(c, id) && c.calls[id].answer.Some?
    case Cancel(id) => IsWaiting(c, id)
    case SeeDone(id) => IsWaiting(c, id) && c.done
    case Receive(_) => c.reader.Reading?
    case Deliver => c.reader.Holding? && c.reader.response.id in c.calls
    case End(_) => c.reader.Reading?
    case CloseDone => c.reader.Ending?
  }

  function Forget(c: Client, id: nat): Client {
    if c.pending.None? then c else c.(pending := Some(c.pending.value - {id}))
  }

  function Return(c: Client, id: nat, outcome: Outcome): Client
    requires id in c.calls
  {
    c.(calls := c.calls[id := c.calls[id].(phase := Returned(outcome))])
  }

  function Do(c: Client, s: Step): Client
    requires Enabled(c, s)
  {
    match s
    case Register =>
      var id := c.nextId + 1;
      c.(nextId := id,
         pending := if c.pending.None? then None else Some(c.pending.value + {id}),
         calls := c.calls[id := Call(Writing, None, [])])
    case Sent(id) => c.(calls := c.calls[id := c.calls[id].(phase := Waiting)])
    case SendFailed(id) => Return(Forget(c, id), id, NotSent)
    case TakeAnswer(id) => Return(c, id, ResultOf(c.calls[id].answer.value))
    case Cancel(id) => Return(Forget(c, id), id, Cancelled)
    case SeeDone(id) =>
      if c.calls[id].answer.Some? then Return(c, id, ResultOf(c.calls[id].answer.value))
      else Return(c, id, Ended(if c.err.Some? then c.err.value else ""))
    case Receive(response) =>
      var waiting := c.pending.Some? && response.id in c.pending.value;
      Forget(c, response.id).(reader := if waiting then Holding(response) else Reading)
    case Deliver =>
      var r := c.reader.response;
      c.(calls := c.calls[r.id := c.calls[r.id].(answer := Some(r), sent := c.calls[r.id].sent + [r])],
         reader := Reading)
    case End(err) => c.(err := Some(err), pending := None, reader := Ending)
    case CloseDone => c.(done := true, reader := Gone)
  }

  predicate Legal(c: Client, steps: seq<Step>)
    decreases |steps|
  {
    steps == [] || (Enabled(c, steps[0]) && Legal(Do(c, steps[0]), steps[1..]))
  }

  function Run(c: Client, steps: seq<Step>): Client
    requires Legal(c, steps)
    decreases |steps|
  {
    if steps == [] then c else Run(Do(c, steps[0]), steps[1..])
  }

  // ---------- what every step keeps ----------

  /** What is known of one call, whatever it is doing. */
  ghost predicate CallOk(c: Client, id: nat)
    requires id in c.calls
  {
    var k := c.calls[id];
    && 1 <= id <= c.nextId
    && |k.sent| <= 1
    && (k.answer.Some? <==> |k.sent| == 1)
    && (k.answer.Some? ==> k.sent == [k.answer.value] && k.answer.value.id == id)
    && (k.phase.Returned? ==>
          match k.phase.outcome
          case Cancelled => true
          case NotSent => true
          case Ended(e) => k.sent == [] && c.done && c.err == Some(e)
          case _ => k.answer.Some? && k.phase.outcome == ResultOf(k.answer.value))
  }

  /** An id that can still be answered has not been, and no two places hold it. */
  ghost predicate Unanswered(c: Client, id: nat) {
    id in c.calls && c.calls[id].sent == []
  }

  ghost predicate Inv(c: Client) {
    && (forall id :: id in c.calls ==> CallOk(c, id))
    && (c.pending.Some? ==> forall id :: id in c.pending.value ==> Unanswered(c, id))
    && (c.reader.Holding? ==>
          Unanswered(c, c.reader.response.id) &&
          (c.pending.Some? ==> c.reader.response.id !in c.pending.value))
    && (c.err.None? <==> c.pending.Some?)
    && (c.err.None? <==> c.reader.Reading? || c.reader.Holding?)
    && (c.done <==> c.reader.Gone?)
  }

  lemma StepKeeps(c: Client, s: Step)
    requires Inv(c) && Enabled(c, s)
    ensures Inv(Do(c, s))
  {
    hide ResultOf;
    var d := Do(c, s);
    forall id | id in d.calls ensures CallOk(d, id) {
      if id in c.calls {
        assert CallOk(c, id);
      }
    }
  }

  lemma {:induction false} RunKeeps(c: Client, steps: seq<Step>)
    requires Inv(c) && Legal(c, steps)
    ensures Inv(Run(c, steps))
    decreases |steps|
  {
    hide Inv, Do;
    if steps != [] {
      StepKeeps(c, steps[0]);
      RunKeeps(Do(c, steps[0]), steps[1..]);
    }
  }

  // ---------- what is promised, over every run ----------

  /**
   A call returns the answer to its own request, and to no other's; it fails with the connection's error only when
   nothing was delivered to it; and one that was answered before the end is lost to nothing but its own context or
   its own failure to send.
   */
  lemma AnswersAreOwn(steps: seq<Step>, id: nat)
    requires Legal(Opened, steps) && id in Run(Opened, steps).calls
    requires Run(Opened, steps).calls[id].phase.Returned?
    ensures var c := Run(Opened, steps);
            var k := c.calls[id];
            match k.phase.outcome
            case Ended(e) => k.sent == [] && c.done && c.err == Some(e)
            case Cancelled => true
            case NotSent => true
            case _ => exists r :: k.sent == [r] && r.id == id && Answers(k.phase.outcome, r)
  {
    RunKeeps(Opened, steps);
    var c := Run(Opened, steps);
    assert CallOk(c, id);
    assert c.calls[id].answer.Some? ==> c.calls[id].sent == [c.calls[id].answer.value];
    if c.calls[id].sent != [] {
      ResultAnswers(c.calls[id].sent[0]);
    }
  }

  /** The reader's send always has room: nothing has been, or can be, sent on the same channel before. */
  lemma DeliveryNeverBlocks(steps: seq<Step>)
    requires Legal(Opened, steps) && Run(Opened, steps).reader.Holding?
    ensures var c := Run(Opened, steps);
            Enabled(c, Deliver) && c.calls[c.reader.response.id].answer.None?
  {
    RunKeeps(Opened, steps);
    var c := Run(Opened, steps);
    assert CallOk(c, c.reader.response.id);
  }

  /** A request is registered under an id never used before, and never in a table that has been set to nil. */
  lemma RegisteringIsSafe(steps: seq<Step>)
    requires Legal(Opened, steps) && Run(Opened, steps).err.None?
    ensures var c := Run(Opened, steps);
            && c.pending.Some?
            && c.nextId + 1 !in c.calls
            && Do(c, Register).calls == c.calls[c.nextId + 1 := Call(Writing, None, [])]
  {
    RunKeeps(Opened, steps);
    var c := Run(Opened, steps);
    forall id | id in c.calls ensures id <= c.nextId {
      assert CallOk(c, id);
    }
  }

  /** Ids only grow, a call once begun stays, and what it was sent and what it returned do not change. */
  lemma {:induction false} CallsStay(c: Client, steps: seq<Step>)
    requires Inv(c) && Legal(c, steps)
    ensures c.nextId <= Run(c, steps).nextId
    ensures forall id :: id in c.calls ==>
              && id in Run(c, steps).calls
              && c.calls[id].sent <= Run(c, steps).calls[id].sent
              && (c.calls[id].phase.Returned? ==> Run(c, steps).calls[id].phase == c.calls[id].phase)
    decreases |steps|
  {
    if steps != [] {
      OneStepStays(c, steps[0]);
      StepKeeps(c, steps[0]);
      hide Inv, Do;
      CallsStay(Do(c, steps[0]), steps[1..]);
    }
  }

  lemma OneStepStays(c: Client, s: Step)
    requires Inv(c) && Enabled(c, s)
    ensures c.nextId <= Do(c, s).nextId
    ensures forall id :: id in c.calls ==>
              && id in Do(c, s).calls
              && c.calls[id].sent <= Do(c, s).calls[id].sent
              && (c.calls[id].phase.Returned? ==> Do(c, s).calls[id].phase == c.calls[id].phase)
  {
    forall id | id in c.calls ensures c.calls[id].sent <= Do(c, s).calls[id].sent {
      assert CallOk(c, id);
    }
    assert forall id :: id in c.calls ==> id != c.nextId + 1 by {
      forall id | id in c.calls ensures id != c.nextId + 1 {
        assert CallOk(c, id);
      }
    }
  }

  /** Once the connection has ended nothing hangs: every call still waiting can return. */
  lemma NobodyWaitsForever(steps: seq<Step>, id: nat)
    requires Legal(Opened, steps) && Run(Opened, steps).done && IsWaiting(Run(Opened, steps), id)
    ensures var c := Run(Opened, steps);
            && Enabled(c, SeeDone(id))
            && c.err.Some?
            && Do(c, SeeDone(id)).calls[id].phase.Returned?
            && var outcome := Do(c, SeeDone(id)).calls[id].phase.outcome;
               if c.calls[id].sent != [] then Answers(outcome, c.calls[id].sent[0]) else outcome == Ended(c.err.value)
  {
    RunKeeps(Opened, steps);
    var c := Run(Opened, steps);
    assert CallOk(c, id);
    if c.calls[id].sent != [] {
      ResultAnswers(c.calls[id].sent[0]);
    }
  }

  // ---------- the client's own code, one critical section at a time ----------

  class Attached {
    var c: Client

    constructor ()
      ensures c == Opened
    {
      c := Opened;
    }

    /** The section of Do that registers a request; None when the connection has ended. */
    method RegisterRequest() returns (id: Option<nat>)
      requires Inv(c)
      modifies this
      ensures Inv(c)
      ensures if old(c.err).Some? then id.None? && c == old(c) else c == Do(old(c), Register)
      ensures old(c.err).None? ==> id == Some(c.nextId) && c.pending == Some(old(c.pending).value + {c.nextId})
    {
      if c.err.Some? {
        return None;
      }
      StepKeeps(c, Register);
      var n := c.nextId + 1;
      c := c.(nextId := n, pending := Some(c.pending.value + {n}), calls := c.calls[n := Call(Writing, None, [])]);
      return Some(n);
    }

    /** The section of readLoop that finds who a response is for. */
    method FindWaiter(response: Response) returns (found: bool)
      requires Inv(c) && c.reader.Reading?
      modifies this
      ensures Inv(c) && c == Do(old(c), Receive(response))
      ensures found <==> c.reader == Holding(response)
    {
      StepKeeps(c, Receive(response));
      found := c.pending.Some? && response.id in c.pending.value;
      if c.pending.Some? {
        c := c.(pending := Some(c.pending.value - {response.id}));
      }
      if found {
        c := c.(reader := Holding(response));
      }
    }

    /** The send that follows it, on a channel with room for one. */
    method SendAnswer()
      requires Inv(c) && c.reader.Holding?
      modifies this
      ensures Inv(c) && c == Do(old(c), Deliver)
    {
      StepKeeps(c, Deliver);
      var r := c.reader.response;
      assert CallOk(c, r.id);
      var call := c.calls[r.id];
      assert call.answer.None?;
      c := c.(calls := c.calls[r.id := call.(answer := Some(r), sent := call.sent + [r])], reader := Reading);
    }

    /** The section of read that ends the connection. */
    method EndConnection(cause: string, closing: bool)
      requires Inv(c) && c.reader.Reading?
      modifies this
      ensures Inv(c) && c == Do(old(c), End(if closing then "closed" else cause))
    {
      var err := if closing then "closed" else cause;
      StepKeeps(c, End(err));
      c := c.(err := Some(err), pending := None, reader := Ending);
    }

    /** What Do returns once the connection has ended: an answer that came just before is still an answer. */
    method AfterDone(id: nat) returns (outcome: Outcome)
      requires Inv(c) && Enabled(c, SeeDone(id))
      modifies this
      ensures Inv(c) && c == Do(old(c), SeeDone(id))
      ensures if old(c).calls[id].sent != [] then Answers(outcome, old(c).calls[id].sent[0])
              else outcome == Ended(old(c).err.value)
    {
      StepKeeps(c, SeeDone(id));
      assert CallOk(c, id);
      var call := c.calls[id];
      if call.answer.Some? {
        ResultAnswers(call.answer.value);
        outcome := ResultOf(call.answer.value);
      } else {
        outcome := Ended(c.err.value);
      }
      c := c.(calls := c.calls[id := call.(phase := Returned(outcome))]);
    }
  }
}
