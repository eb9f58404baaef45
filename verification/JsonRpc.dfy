// Concurrent calls over one pipe: Client.Call (subproc/client.go) against the
// message loop of ServeCodec (subproc/server.go), as a step system. Call gives
// up its lock before it writes and reads, so the steps of different calls
// interleave freely. Frames are written and read whole.
module JsonRpc {

  datatype RpcError = RpcError(code: int, message: string)

  // What a handler returns: a value, an *RPCError, any other error, or a value
  // that cannot be marshalled.
  datatype Handled =
    | Value(raw: string)
    | Rpc(error: RpcError)
    | Other(message: string)
    | Unmarshallable(message: string)

  type Handler = (string, string) -> Handled

  datatype Request = Request(id: nat, name: string, params: string)

  datatype Reply = Result(raw: string) | Error(error: RpcError)

  datatype Response = Response(id: nat, reply: Reply)

  const CODE_PARSE_ERROR := -32700
  const CODE_INTERNAL_ERROR := -32603

  // dispatch.
  function Dispatch(h: Handler, req: Request): Response {
    match h(req.name, req.params)
    case Value(raw) => Response(req.id, Result(raw))
    case Rpc(e) => Response(req.id, Error(e))
    case Other(m) => Response(req.id, Error(RpcError(CODE_INTERNAL_ERROR, m)))
    case Unmarshallable(m) => Response(req.id, Error(RpcError(CODE_INTERNAL_ERROR, m)))
  }

  // ReadRequest rejects a request without a method name; ServeCodec answers
  // with id 0 and returns.
  const MISSING_METHOD := Response(0, Error(RpcError(CODE_PARSE_ERROR, "subproc: request missing method")))

  function Answer(h: Handler, req: Request): Response {
    if req.name == "" then MISSING_METHOD else Dispatch(h, req)
  }

  // The answer to a request has its id, but for the answer to a request without
  // a method name, which is a parse error with id 0.
  lemma AnswerIs(h: Handler, req: Request)
    ensures req.name != "" ==> Answer(h, req).id == req.id
    ensures req.name == "" ==>
      Answer(h, req) == Response(0, Error(RpcError(-32700, "subproc: request missing method")))
  {
  }

  // ---- States ----

  datatype Outcome =
    | Refused              // the client was closed
    | WriteError
    | ReadError
    | Mismatch(got: nat)   // a response with another id
    | Failed(error: RpcError)
    | Success(raw: string)

  datatype Phase = Sending | Waiting | Done(outcome: Outcome)

  datatype Call = Call(req: Request, phase: Phase)

  datatype Server = Idle | Busy(resp: Response) | Stopped(unsent: seq<Response>)

  datatype State = State(
    calls: map<nat, Call>,
    nextId: nat,
    closed: bool,
    reqs: seq<Request>,     // written by callers, not yet read by the server
    server: Server,
    resps: seq<Response>,   // written by the server, not yet read by a caller
    order: seq<nat>,        // history: the calls in the order of their writes
    taken: nat,             // history: the responses read so far
    lost: nat)              // history: the waiting calls that gave up

  const INIT := State(map[], 0, false, [], Idle, [], [], 0, 0)

  datatype Step =
    | Begin(c: nat, name: string, params: string)   // take an id under the lock
    | Write(c: nat) | FailWrite(c: nat)
    | Serve | Respond | FailRespond                     // the server reads and dispatches, writes, fails to write
    | Read(c: nat) | FailRead(c: nat)
    | Close

  predicate InPhase(s: State, c: nat, p: Phase) {
    c in s.calls && s.calls[c].phase == p
  }

  predicate Enabled(s: State, step: Step) {
    match step
    case Begin(c, _, _) => c !in s.calls
    case Write(c) => InPhase(s, c, Sending)
    case FailWrite(c) => InPhase(s, c, Sending)
    case Serve => s.server == Idle && s.reqs != []
    case Respond => s.server.Busy?
    case FailRespond => s.server.Busy?
    case Read(c) => InPhase(s, c, Waiting) && s.resps != []
    case FailRead(c) => InPhase(s, c, Waiting) && (s.closed || (s.server.Stopped? && s.resps == []))
    case Close => true
  }

  // The last lines of Call.
  function Judge(id: nat, resp: Response): Outcome {
    if resp.id != id then Mismatch(resp.id)
    else match resp.reply
      case Error(e) => Failed(e)
      case Result(raw) => Success(raw)
  }

  function End(s: State, c: nat, o: Outcome): map<nat, Call>
    requires c in s.calls
  {
    s.calls[c := s.calls[c].(phase := Done(o))]
  }

  function Next(h: Handler, s: State, step: Step): State
    requires Enabled(s, step)
  {
    match step
    case Begin(c, name, params) =>
      if s.closed then s.(calls := s.calls[c := Call(Request(0, name, params), Done(Refused))])
      else s.(nextId := s.nextId + 1, calls := s.calls[c := Call(Request(s.nextId + 1, name, params), Sending)])
    case Write(c) =>
      s.(calls := s.calls[c := s.calls[c].(phase := Waiting)],
         reqs := s.reqs + [s.calls[c].req], order := s.order + [c])
    case FailWrite(c) => s.(calls := End(s, c, WriteError))
    case Serve =>
      var req := s.reqs[0];
      if req.name == "" then s.(reqs := s.reqs[1..], server := Stopped([]), resps := s.resps + [MISSING_METHOD])
      else s.(reqs := s.reqs[1..], server := Busy(Dispatch(h, req)))
    case Respond => s.(server := Idle, resps := s.resps + [s.server.resp])
    case FailRespond => s.(server := Stopped([s.server.resp]))
    case Read(c) =>
      s.(calls := End(s, c, Judge(s.calls[c].req.id, s.resps[0])), resps := s.resps[1..], taken := s.taken + 1)
    case FailRead(c) => s.(calls := End(s, c, ReadError), lost := s.lost + 1)
    case Close => s.(closed := true)
  }

  // ---- The invariant ----

  function Held(server: Server): seq<Response> {
    match server
    case Idle => []
    case Busy(r) => [r]
    case Stopped(unsent) => unsent
  }

  // What stands for the i-th call in write order: its answer, or its request.
  ghost predicate Stands(h: Handler, s: State, i: int)
    requires s.taken <= i < |s.order|
  {
    var answered, k := s.resps + Held(s.server), i - s.taken;
    s.order[i] in s.calls &&
    var req := s.calls[s.order[i]].req;
    if k < |answered| then answered[k] == Answer(h, req)
    else k - |answered| < |s.reqs| && s.reqs[k - |answered|] == req
  }

  ghost function WaitingCalls(s: State): set<nat> {
    set c | c in s.calls && s.calls[c].phase == Waiting
  }

  // The outcome of a call is its own answer.
  ghost predicate OwnAnswer(h: Handler, call: Call) {
    match call.phase
    case Done(Success(raw)) => call.req.name != "" && h(call.req.name, call.req.params) == Value(raw)
    case Done(Failed(e)) => call.req.name != "" && Dispatch(h, call.req) == Response(call.req.id, Error(e))
    case Done(Mismatch(got)) => got != call.req.id
    case _ => true
  }

  ghost predicate Identified(s: State) {
    && (forall c <- s.calls :: s.calls[c].phase != Done(Refused) ==> 1 <= s.calls[c].req.id <= s.nextId)
    && (forall c <- s.calls, d <- s.calls |
          c != d && s.calls[c].phase != Done(Refused) && s.calls[d].phase != Done(Refused) ::
          s.calls[c].req.id != s.calls[d].req.id)
  }

  ghost predicate Ordered(s: State) {
    && s.taken <= |s.order|
    && (forall i | 0 <= i < |s.order| :: s.order[i] in s.calls && s.calls[s.order[i]].phase != Sending
          && s.calls[s.order[i]].phase != Done(Refused) && s.calls[s.order[i]].phase != Done(WriteError))
    && (forall i, j | 0 <= i < j < |s.order| :: s.order[i] != s.order[j])
    && (forall c <- s.calls :: s.calls[c].phase == Waiting ==> c in s.order)
  }

  ghost predicate Aligned(h: Handler, s: State) {
    && s.taken <= |s.order|
    && |s.order| - s.taken == |s.resps| + |Held(s.server)| + |s.reqs|
    && forall i | s.taken <= i < |s.order| :: Stands(h, s, i)
  }

  ghost predicate Inv(h: Handler, s: State) {
    && Identified(s) && Ordered(s) && Aligned(h, s)
    && (forall c <- s.calls :: OwnAnswer(h, s.calls[c]))
    && |WaitingCalls(s)| + s.lost == |s.order| - s.taken
  }

  lemma InitInv(h: Handler)
    ensures Inv(h, INIT)
  {
  }

  lemma NextInv(h: Handler, s: State, step: Step)
    requires Inv(h, s) && Enabled(s, step)
    ensures Inv(h, Next(h, s, step))
  {
    hide Identified, Ordered, Aligned, OwnAnswer, WaitingCalls;
    NextIdentified(h, s, step);
    NextOrdered(h, s, step);
    NextAligned(h, s, step);
    NextOwnAnswer(h, s, step);
    NextCount(h, s, step);
  }

  lemma NextIdentified(h: Handler, s: State, step: Step)
    requires Identified(s) && Enabled(s, step)
    ensures Identified(Next(h, s, step))
  {
    if step.Begin? {
      BeginIdentified(h, s, step);
    } else {
      NextRequests(h, s, step);
      hide Next;
    }
  }

  lemma BeginIdentified(h: Handler, s: State, step: Step)
    requires Identified(s) && Enabled(s, step) && step.Begin?
    ensures Identified(Next(h, s, step))
  {
  }

  // Only Begin makes a request.
  lemma NextRequests(h: Handler, s: State, step: Step)
    requires Enabled(s, step) && !step.Begin?
    ensures var s' := Next(h, s, step);
      && s'.nextId == s.nextId && s'.calls.Keys == s.calls.Keys
      && (forall c <- s.calls :: s'.calls[c].req == s.calls[c].req)
      && (forall c <- s.calls :: s'.calls[c].phase == Done(Refused) <==> s.calls[c].phase == Done(Refused))
  {
    hide Dispatch;
  }

  lemma NextOrdered(h: Handler, s: State, step: Step)
    requires Ordered(s) && Enabled(s, step)
    ensures step.Read? ==> s.taken < |s.order| ==> Ordered(Next(h, s, step))
    ensures !step.Read? ==> Ordered(Next(h, s, step))
  {
    hide Ordered, Next;
    match step
    case Write(c) => WriteOrdered(h, s, c);
    case Begin(c, _, _) => BeginOrdered(h, s, step);
    case Read(c) => EndOrdered(h, s, step);
    case FailRead(c) => EndOrdered(h, s, step);
    case _ => OtherOrdered(h, s, step);
  }

  lemma WriteOrdered(h: Handler, s: State, c: nat)
    requires Ordered(s) && Enabled(s, Write(c))
    ensures Ordered(Next(h, s, Write(c)))
  {
    var s' := Next(h, s, Write(c));
    assert forall d <- s.order :: d in s'.order;
    assert s'.order[|s.order|] == c;
  }

  lemma BeginOrdered(h: Handler, s: State, step: Step)
    requires Ordered(s) && Enabled(s, step) && step.Begin?
    ensures Ordered(Next(h, s, step))
  {
  }

  lemma EndOrdered(h: Handler, s: State, step: Step)
    requires Ordered(s) && Enabled(s, step) && (step.Read? || step.FailRead?)
    ensures step.Read? ==> s.taken < |s.order| ==> Ordered(Next(h, s, step))
    ensures !step.Read? ==> Ordered(Next(h, s, step))
  {
  }

  lemma OtherOrdered(h: Handler, s: State, step: Step)
    requires Ordered(s) && Enabled(s, step)
    requires step.FailWrite? || step.Serve? || step.Respond? || step.FailRespond? || step.Close?
    ensures Ordered(Next(h, s, step))
  {
  }

  lemma NextAligned(h: Handler, s: State, step: Step)
    requires Aligned(h, s) && Ordered(s) && Enabled(s, step)
    ensures Aligned(h, Next(h, s, step))
    ensures step.Read? ==> s.taken < |s.order|
  {
    var s' := Next(h, s, step);
    NextLength(h, s, step);
    hide Next, Stands;
    forall i | s'.taken <= i < |s'.order| ensures Stands(h, s', i) {
      StandsNext(h, s, step, i);
    }
  }

  lemma NextLength(h: Handler, s: State, step: Step)
    requires Enabled(s, step) && s.taken <= |s.order|
    requires |s.order| - s.taken == |s.resps| + |Held(s.server)| + |s.reqs|
    ensures var s' := Next(h, s, step);
      && |s'.order| - s'.taken == |s'.resps| + |Held(s'.server)| + |s'.reqs|
      && s'.taken == s.taken + (if step.Read? then 1 else 0) <= |s'.order|
      && |s'.order| == |s.order| + (if step.Write? then 1 else 0)
    ensures step.Read? ==> s.taken < |s.order|
  {
  }

  lemma StandsNext(h: Handler, s: State, step: Step, i: int)
    requires Aligned(h, s) && Enabled(s, step)
    requires Next(h, s, step).taken <= i < |Next(h, s, step).order|
    ensures Stands(h, Next(h, s, step), i)
  {
    NextLength(h, s, step);
    hide Stands, Next, Dispatch;
    assert i < |s.order| ==> Stands(h, s, i);
    match step
    case Write(c) => WriteStands(h, s, c, i);
    case Serve => ServeStands(h, s, i);
    case Respond => RespondStands(h, s, i);
    case FailRespond => FailRespondStands(h, s, i);
    case Read(c) => ReadStands(h, s, c, i);
    case _ => CallStands(h, s, step, i);
  }

  lemma WriteStands(h: Handler, s: State, c: nat, i: int)
    requires Enabled(s, Write(c)) && |s.order| - s.taken == |s.resps| + |Held(s.server)| + |s.reqs|
    requires s.taken <= i <= |s.order| && (i < |s.order| ==> Stands(h, s, i))
    ensures Stands(h, Next(h, s, Write(c)), i)
  {
    hide Answer, Held;
  }

  lemma ServeStands(h: Handler, s: State, i: int)
    requires Enabled(s, Serve) && s.taken <= i < |s.order| && Stands(h, s, i)
    ensures Stands(h, Next(h, s, Serve), i)
  {
    hide Dispatch;
    var s', k := Next(h, s, Serve), i - s.taken;
    assert s'.resps + Held(s'.server) == s.resps + [Answer(h, s.reqs[0])];
    if k > |s.resps| {
      assert s'.reqs[k - |s.resps| - 1] == s.reqs[k - |s.resps|];
    }
  }

  lemma RespondStands(h: Handler, s: State, i: int)
    requires Enabled(s, Respond) && s.taken <= i < |s.order| && Stands(h, s, i)
    ensures Stands(h, Next(h, s, Respond), i)
  {
    hide Answer;
    assert Next(h, s, Respond).resps + [] == s.resps + Held(s.server);
  }

  lemma FailRespondStands(h: Handler, s: State, i: int)
    requires Enabled(s, FailRespond) && s.taken <= i < |s.order| && Stands(h, s, i)
    ensures Stands(h, Next(h, s, FailRespond), i)
  {
    hide Answer;
  }

  lemma ReadStands(h: Handler, s: State, c: nat, i: int)
    requires Enabled(s, Read(c)) && s.taken < i < |s.order| && Stands(h, s, i)
    ensures Stands(h, Next(h, s, Read(c)), i)
  {
    hide Answer, Held, Judge;
    var s' := Next(h, s, Read(c));
    var a, a' := s.resps + Held(s.server), s'.resps + Held(s'.server);
    assert a == [a[0]] + a';
  }

  lemma CallStands(h: Handler, s: State, step: Step, i: int)
    requires Enabled(s, step) && (step.Begin? || step.FailWrite? || step.FailRead? || step.Close?)
    requires s.taken <= i < |s.order| && Stands(h, s, i)
    ensures Stands(h, Next(h, s, step), i)
  {
    hide Answer, Held;
  }

  lemma NextOwnAnswer(h: Handler, s: State, step: Step)
    requires Aligned(h, s) && Identified(s) && Ordered(s) && Enabled(s, step)
    requires forall c <- s.calls :: OwnAnswer(h, s.calls[c])
    ensures forall c <- Next(h, s, step).calls :: OwnAnswer(h, Next(h, s, step).calls[c])
  {
    if step.Read? {
      ReadJudged(h, s, step.c);
    }
  }

  // The response at the front answers the first unread call in write order;
  // the reading call takes it as its own exactly if it is that call, and the
  // call named a method.
  lemma ReadJudged(h: Handler, s: State, c: nat)
    requires Aligned(h, s) && Identified(s) && Ordered(s) && Enabled(s, Read(c))
    ensures s.taken < |s.order| && s.resps[0] == Answer(h, s.calls[s.order[s.taken]].req)
    ensures Judge(s.calls[c].req.id, s.resps[0]).Mismatch? <==> c != s.order[s.taken] || s.calls[c].req.name == ""
    ensures OwnAnswer(h, s.calls[c].(phase := Done(Judge(s.calls[c].req.id, s.resps[0]))))
  {
    assert Stands(h, s, s.taken);
    assert (s.resps + Held(s.server))[0] == s.resps[0];
  }

  lemma WaitingChange(h: Handler, s: State, step: Step)
    requires Enabled(s, step)
    ensures var w, w' := WaitingCalls(s), WaitingCalls(Next(h, s, step));
      match step
      case Write(c) => c !in w && w' == w + {c}
      case Read(c) => c !in w' && w == w' + {c}
      case FailRead(c) => c !in w' && w == w' + {c}
      case _ => w' == w
  {
  }

  lemma NextCount(h: Handler, s: State, step: Step)
    requires |WaitingCalls(s)| + s.lost == |s.order| - s.taken && Enabled(s, step)
    ensures var s' := Next(h, s, step); |WaitingCalls(s')| + s'.lost == |s'.order| - s'.taken
  {
    var w, w' := WaitingCalls(s), WaitingCalls(Next(h, s, step));
    WaitingChange(h, s, step);
    match step
    case Write(c) => assert |w + {c}| == |w| + 1;
    case Read(c) => assert |w' + {c}| == |w'| + 1;
    case FailRead(c) => assert |w' + {c}| == |w'| + 1;
    case _ =>
  }

  // ---- Whole runs ----

  ghost predicate Run(h: Handler, s: State, steps: seq<Step>, s': State)
    decreases |steps|
  {
    if steps == [] then s' == s
    else Enabled(s, steps[0]) && Run(h, Next(h, s, steps[0]), steps[1..], s')
  }

  lemma {:induction false} RunInv(h: Handler, s: State, steps: seq<Step>, s': State)
    requires Inv(h, s) && Run(h, s, steps, s')
    ensures Inv(h, s')
    decreases |steps|
  {
    if steps != [] {
      NextInv(h, s, steps[0]);
      RunInv(h, Next(h, s, steps[0]), steps[1..], s');
    }
  }

  // In every interleaving, a call that returns a value or an RPC error returns
  // what the handler made of its own method and parameters.
  lemma CallReturnsOwnAnswer(h: Handler, steps: seq<Step>, s: State, c: nat)
    requires Run(h, INIT, steps, s) && c in s.calls
    ensures var call := s.calls[c];
      match call.phase
      case Done(Success(raw)) => h(call.req.name, call.req.params) == Value(raw)
      case Done(Failed(e)) =>
        (match h(call.req.name, call.req.params)
         case Value(_) => false
         case Rpc(e') => e == e'
         case Other(m) => e == RpcError(-32603, m)
         case Unmarshallable(m) => e == RpcError(-32603, m))
      case _ => true
  {
    InitInv(h);
    RunInv(h, INIT, steps, s);
    assert OwnAnswer(h, s.calls[c]);
  }

  // Ids start at 1 and are never shared, so the id-0 error answers no call.
  lemma IdsUnique(h: Handler, steps: seq<Step>, s: State, c: nat, d: nat)
    requires Run(h, INIT, steps, s) && c in s.calls && d in s.calls && c != d
    requires s.calls[c].phase != Done(Refused) && s.calls[d].phase != Done(Refused)
    ensures 1 <= s.calls[c].req.id && s.calls[c].req.id != s.calls[d].req.id
  {
    InitInv(h);
    RunInv(h, INIT, steps, s);
  }

  // The callers that have written and not read, and those that gave up, are as
  // many as the requests and responses under way.
  lemma CallsConserved(h: Handler, steps: seq<Step>, s: State)
    requires Run(h, INIT, steps, s)
    ensures |WaitingCalls(s)| + s.lost == |s.reqs| + |Held(s.server)| + |s.resps|
  {
    InitInv(h);
    RunInv(h, INIT, steps, s);
  }

  // A read gives an id mismatch exactly when another call wrote the oldest
  // unanswered request, or when the call named no method.
  lemma ReadMismatchIff(h: Handler, steps: seq<Step>, s: State, c: nat)
    requires Run(h, INIT, steps, s) && Enabled(s, Read(c))
    ensures s.taken < |s.order|
    ensures Next(h, s, Read(c)).calls[c].phase.outcome.Mismatch? <==> c != s.order[s.taken] || s.calls[c].req.name == ""
  {
    InitInv(h);
    RunInv(h, INIT, steps, s);
    ReadJudged(h, s, c);
  }

  // ---- Serialised calls ----

  predicate InFlight(s: State, c: nat) {
    InPhase(s, c, Sending) || InPhase(s, c, Waiting)
  }

  // A call begins only when no other is in flight: what the comment on Client
  // says of Call, though Call does not hold its lock that long.
  ghost predicate SerialRun(h: Handler, s: State, steps: seq<Step>, s': State)
    decreases |steps|
  {
    if steps == [] then s' == s
    else
      && Enabled(s, steps[0])
      && (steps[0].Begin? ==> forall c <- s.calls :: !InFlight(s, c))
      && SerialRun(h, Next(h, s, steps[0]), steps[1..], s')
  }

  ghost predicate Serial(s: State) {
    && (forall c <- s.calls, d <- s.calls :: InFlight(s, c) && InFlight(s, d) ==> c == d)
    && (|| (s.taken <= |s.order| <= s.taken + 1 && s.lost == 0
            && forall c <- s.calls :: InPhase(s, c, Waiting) ==> s.taken < |s.order| && s.order[s.taken] == c)
        || (s.closed && forall c <- s.calls :: !InFlight(s, c))
        || (s.server.Stopped? && s.resps == []))
  }

  lemma NextSerial(h: Handler, s: State, step: Step)
    requires Serial(s) && |WaitingCalls(s)| + s.lost == |s.order| - s.taken && Enabled(s, step)
    requires step.Begin? ==> forall c <- s.calls :: !InFlight(s, c)
    ensures Serial(Next(h, s, step))
  {
    hide Serial;
    match step
    case Begin(c, _, _) => BeginSerial(h, s, step);
    case Write(c) => WriteSerial(h, s, c);
    case Serve => ServerSerial(h, s, step);
    case Respond => ServerSerial(h, s, step);
    case FailRespond => ServerSerial(h, s, step);
    case Close => CloseSerial(h, s);
    case _ => EndSerial(h, s, step);
  }

  lemma CloseSerial(h: Handler, s: State)
    requires Serial(s)
    ensures Serial(Next(h, s, Close))
  {
    assert forall c :: InFlight(Next(h, s, Close), c) <==> InFlight(s, c);
  }

  lemma ServerSerial(h: Handler, s: State, step: Step)
    requires (step.Serve? || step.Respond? || step.FailRespond?) && Enabled(s, step) && Serial(s)
    ensures Serial(Next(h, s, step))
  {
    var s' := Next(h, s, step);
    assert forall c :: InFlight(s', c) <==> InFlight(s, c);
  }

  // A call ends: nothing is in flight any more.
  lemma EndSerial(h: Handler, s: State, step: Step)
    requires (step.FailWrite? || step.Read? || step.FailRead?) && Enabled(s, step) && Serial(s)
    ensures Serial(Next(h, s, step))
  {
    assert InFlight(s, step.c);
    assert forall c <- s.calls :: !InFlight(Next(h, s, step), c);
  }

  lemma BeginSerial(h: Handler, s: State, step: Step)
    requires step.Begin? && Enabled(s, step) && Serial(s) && forall c <- s.calls :: !InFlight(s, c)
    ensures Serial(Next(h, s, step))
  {
  }

  // The call that writes is the only one in flight, so nothing is under way.
  lemma WriteSerial(h: Handler, s: State, c: nat)
    requires Enabled(s, Write(c)) && Serial(s) && |WaitingCalls(s)| + s.lost == |s.order| - s.taken
    ensures Serial(Next(h, s, Write(c)))
  {
    assert InFlight(s, c);
    assert forall d <- s.calls :: InFlight(s, d) ==> d == c;
    assert forall d <- WaitingCalls(s) :: InFlight(s, d) && d != c;
    assert WaitingCalls(s) == {};
  }

  lemma {:induction false} SerialRunKeeps(h: Handler, s: State, steps: seq<Step>, s': State)
    requires Inv(h, s) && Serial(s) && SerialRun(h, s, steps, s')
    ensures Inv(h, s') && Serial(s')
    decreases |steps|
  {
    if steps != [] {
      NextInv(h, s, steps[0]);
      NextSerial(h, s, steps[0]);
      SerialRunKeeps(h, Next(h, s, steps[0]), steps[1..], s');
    }
  }

  // With serialised calls, only a call without a method name sees a mismatch.
  lemma SerialMismatchIff(h: Handler, steps: seq<Step>, s: State, c: nat)
    requires SerialRun(h, INIT, steps, s) && Enabled(s, Read(c))
    ensures Next(h, s, Read(c)).calls[c].phase.outcome.Mismatch? <==> s.calls[c].req.name == ""
  {
    InitInv(h);
    SerialRunKeeps(h, INIT, steps, s);
    ReadJudged(h, s, c);
  }

  // Two overlapping calls: the second reads the answer of the first.
  lemma OverlapMismatches(h: Handler)
    ensures exists steps, s ::
      Run(h, INIT, steps, s) && 1 in s.calls && s.calls[1] == Call(Request(2, "m", ""), Done(Mismatch(1)))
  {
    hide *;
    OverlapBegins(h);
    OverlapEnds(h);
    var s4 := OverlapState();
    var s5 := Next(h, s4, Serve);
    var s6 := Next(h, s5, Respond);
    var s7 := Next(h, s6, Read(1));
    RunNil(h, s7);
    RunCons(h, s6, Read(1), [], s7);
    RunCons(h, s5, Respond, [Read(1)] + [], s7);
    var tail := [Respond] + ([Read(1)] + []);
    RunCons(h, s4, Serve, tail, s7);
    tail := [Serve] + tail;
    var s1 := Next(h, INIT, Begin(0, "m", ""));
    var s2 := Next(h, s1, Begin(1, "m", ""));
    var s3 := Next(h, s2, Write(0));
    RunCons(h, s3, Write(1), tail, s7);
    tail := [Write(1)] + tail;
    RunCons(h, s2, Write(0), tail, s7);
    tail := [Write(0)] + tail;
    RunCons(h, s1, Begin(1, "m", ""), tail, s7);
    tail := [Begin(1, "m", "")] + tail;
    RunCons(h, INIT, Begin(0, "m", ""), tail, s7);
  }

  // Two calls have begun and written, one after the other.
  ghost function OverlapState(): State {
    var r1, r2 := Request(1, "m", ""), Request(2, "m", "");
    State(map[0 := Call(r1, Waiting), 1 := Call(r2, Waiting)], 2, false, [r1, r2], Idle, [], [0, 1], 0, 0)
  }

  lemma OverlapBegins(h: Handler)
    ensures Enabled(INIT, Begin(0, "m", ""))
    ensures var s1 := Next(h, INIT, Begin(0, "m", ""));
      && Enabled(s1, Begin(1, "m", ""))
      && var s2 := Next(h, s1, Begin(1, "m", ""));
      && Enabled(s2, Write(0))
      && var s3 := Next(h, s2, Write(0));
      && Enabled(s3, Write(1)) && Next(h, s3, Write(1)) == OverlapState()
  {
    var s1 := Next(h, INIT, Begin(0, "m", ""));
    assert s1.calls == map[0 := Call(Request(1, "m", ""), Sending)];
    var s3 := Next(h, Next(h, s1, Begin(1, "m", "")), Write(0));
    assert Next(h, s3, Write(1)).calls == OverlapState().calls;
  }

  lemma OverlapEnds(h: Handler)
    ensures var s4 := OverlapState();
      && Enabled(s4, Serve)
      && var s5 := Next(h, s4, Serve);
      && Enabled(s5, Respond)
      && var s6 := Next(h, s5, Respond);
      && Enabled(s6, Read(1))
      && var s7 := Next(h, s6, Read(1));
      && 1 in s7.calls && s7.calls[1] == Call(Request(2, "m", ""), Done(Mismatch(1)))
  {
    assert Dispatch(h, Request(1, "m", "")).id == 1;
  }

  lemma RunNil(h: Handler, s: State)
    ensures Run(h, s, [], s)
  {
  }

  lemma RunCons(h: Handler, s: State, step: Step, steps: seq<Step>, s': State)
    requires Enabled(s, step) && Run(h, Next(h, s, step), steps, s')
    ensures Run(h, s, [step] + steps, s')
  {
    assert ([step] + steps)[1..] == steps;
  }

  // ---- The client object ----

  // The fields that Call and Close update under the mutex.
  class Client {
    var nextID: nat
    var closed: bool

    constructor ()
      ensures nextID == 0 && !closed
    {
      nextID, closed := 0, false;
    }

    ghost predicate Represents(s: State)
      reads this
    {
      nextID == s.nextId && closed == s.closed
    }

    // The locked part of Call; 0 when the client is closed.
    method TakeId(ghost h: Handler, ghost s: State, c: nat, name: string, params: string) returns (id: nat)
      requires Represents(s) && Enabled(s, Begin(c, name, params))
      modifies this
      ensures Represents(Next(h, s, Begin(c, name, params)))
      ensures id == Next(h, s, Begin(c, name, params)).calls[c].req.id
      ensures id == 0 <==> Next(h, s, Begin(c, name, params)).calls[c].phase == Done(Refused)
    {
      if closed {
        return 0;
      }
      nextID := nextID + 1;
      return nextID;
    }

    method MarkClosed(ghost h: Handler, ghost s: State)
      requires Represents(s)
      modifies this
      ensures Represents(Next(h, s, Close))
    {
      closed := true;
    }
  }
}
