/**
 * The batching JSON-RPC provider as a state machine (json-rpc-batch-provider.ts). Sends, the timer,
 * responses and transport failures interleave; each is one atomic step, as on JavaScript's event loop.
 */
module BatchProtocol {
  import opened Js
  import opened BatchTuning

  datatype Request = Request(id: nat, rpcMethod: string, params: seq<string>)

  datatype RpcError = RpcError(code: int, message: Text)

  /** The key a payload's id becomes in the result map; only numbers are ever looked up. */
  datatype PayloadId = NumberId(n: int) | NullId | OtherId

  datatype Payload = NullPayload | Payload(id: PayloadId, result: Option<string>, error: Option<RpcError>)

  /** The parsed response body: an array of payloads, or something else with the text of its error, if any. */
  datatype Response = NotAnArray(errorMessage: Text) | AnArray(payloads: seq<Payload>)

  datatype Reason =
    | InvalidResponse
    | RateLimited(message: Text)
    | MissingPayload(id: nat)
    | Refused(error: RpcError)
    | Failure(text: string)

  datatype Settlement = Resolved(result: Option<string>) | Rejected(reason: Reason)

  /** The identifier ethers gives the first request. */
  const FIRST_ID: nat := 42

  /** `TypeError`s thrown while a response is read end in the catch clause with this reason. */
  const Unreadable := Failure("TypeError")

  /** The provider's fields, and what it has done so far: requests made, batches sent, promises settled. */
  datatype State = State(
    tuner: Tuner,
    timer: bool,
    pending: Option<seq<Request>>,
    chainId: Option<string>,
    nextId: nat,
    enqueued: seq<Request>,
    wire: seq<seq<Request>>,
    open: set<nat>,
    settled: map<nat, Settlement>)

  function Initial(size: int): State {
    State(Tuner(size, 0, 0), false, None, None, FIRST_ID, [], [], {}, map[])
  }

  function PendingRequests(s: State): seq<Request> {
    if s.pending.None? then [] else s.pending.value
  }

  // ---------- Sending ----------

  /** `runRequests` up to the fetch: the pending batch goes out and a new one may start. */
  function Transmit(s: State): State {
    s.(pending := None, timer := false, wire := s.wire + [PendingRequests(s)], open := s.open + {|s.wire|})
  }

  predicate AnsweredFromCache(s: State, rpcMethod: string) {
    rpcMethod == "eth_chainId" && s.chainId.Some?
  }

  function Enqueue(s: State, rpcMethod: string, params: seq<string>): State {
    var request := Request(s.nextId, rpcMethod, params);
    s.(nextId := s.nextId + 1, pending := Some(PendingRequests(s) + [request]), timer := true, enqueued := s.enqueued + [request])
  }

  function AfterSend(s: State, rpcMethod: string, params: seq<string>): State {
    if AnsweredFromCache(s, rpcMethod) then s
    else
      var s' := Enqueue(s, rpcMethod, params);
      if |PendingRequests(s')| > s'.tuner.size then Transmit(s') else s'
  }

  // ---------- Answers ----------

  /** A promise keeps its first settlement. */
  function Settle(settled: map<nat, Settlement>, id: nat, outcome: Settlement): map<nat, Settlement> {
    if id in settled then settled else settled[id := outcome]
  }

  function RejectAll(settled: map<nat, Settlement>, batch: seq<Request>, reason: Reason): map<nat, Settlement> {
    if batch == [] then settled
    else Settle(RejectAll(settled, batch[..|batch| - 1], reason), batch[|batch| - 1].id, Rejected(reason))
  }

  /** The result map's entry: the last payload that carries the id. */
  function LastWithId(payloads: seq<Payload>, id: nat): Option<Payload> {
    if payloads == [] then None
    else
      var last := payloads[|payloads| - 1];
      if last.Payload? && last.id == NumberId(id) then Some(last) else LastWithId(payloads[..|payloads| - 1], id)
  }

  predicate Contains(s: string, part: string) {
    |part| <= |s| && (s[..|part|] == part || (s != "" && Contains(s[1..], part)))
  }

  predicate BlamesBatchSize(message: string) {
    || message == "Batch size limit exceeded"
    || message == "exceeded project rate limit"
    || Contains(message, "Failed to buffer the request body")
    || Contains(message, "Too Many Requests")
    || Contains(message, "Request Entity Too Large")
  }

  /** An error without a message makes the reader throw when it looks for the known messages. */
  predicate Poisonous(payload: Option<Payload>) {
    payload.Some? && payload.value.Payload? && payload.value.error.Some? && !payload.value.error.value.message.Str?
  }

  predicate BlamesSize(payload: Option<Payload>) {
    && payload.Some? && payload.value.Payload? && payload.value.error.Some? && payload.value.error.value.message.Str?
    && BlamesBatchSize(payload.value.error.value.message.s)
  }

  /** What the reader does with a request's own payload, when it does not throw. */
  function SettlementFor(payload: Option<Payload>, id: nat): Settlement {
    match payload
    case Some(Payload(_, result, None)) => Resolved(result)
    case Some(Payload(_, _, Some(error))) => Rejected(Refused(error))
    case _ => Rejected(MissingPayload(id))
  }

  /** The reader's progress through a batch. */
  datatype Progress = Progress(chainId: Option<string>, settled: map<nat, Settlement>, threw: bool)

  function Deliver(p: Progress, request: Request, payload: Option<Payload>): Progress {
    if p.threw then p
    else if Poisonous(payload) then p.(threw := true)
    else
      var outcome := SettlementFor(payload, request.id);
      Progress(if request.rpcMethod == "eth_chainId" && outcome.Resolved? then outcome.result else p.chainId,
               Settle(p.settled, request.id, outcome), false)
  }

  /** The first `n` turns of the reader's forEach. */
  function DeliverFirst(p: Progress, batch: seq<Request>, payloads: seq<Payload>, n: nat): Progress
    requires n <= |batch|
  {
    if n == 0 then p
    else Deliver(DeliverFirst(p, batch, payloads, n - 1), batch[n - 1], LastWithId(payloads, batch[n - 1].id))
  }

  /** The reader throws within the first `n` turns. */
  predicate ThrowsWithin(batch: seq<Request>, payloads: seq<Payload>, n: nat)
    requires n <= |batch|
  {
    n > 0 && (ThrowsWithin(batch, payloads, n - 1) || Poisonous(LastWithId(payloads, batch[n - 1].id)))
  }

  /** The failures counted in the first `n` turns: one for every error that blames the batch size. */
  function Complaints(batch: seq<Request>, payloads: seq<Payload>, n: nat): seq<bool>
    requires n <= |batch|
  {
    if n == 0 then []
    else if !ThrowsWithin(batch, payloads, n) && BlamesSize(LastWithId(payloads, batch[n - 1].id))
    then Complaints(batch, payloads, n - 1) + [false]
    else Complaints(batch, payloads, n - 1)
  }

  /** What reading a response counts towards the batch size. */
  function OutcomesOf(batch: seq<Request>, response: Response): seq<bool> {
    match response
    case NotAnArray(message) => if message == Str("Batch size is too large") then [false] else []
    case AnArray(payloads) =>
      if IsRateLimit(payloads) then [false]
      else if NullPayload in payloads then []
      else Complaints(batch, payloads, |batch|) + if ThrowsWithin(batch, payloads, |batch|) then [] else [true]
  }

  predicate IsRateLimit(payloads: seq<Payload>) {
    |payloads| == 1 && payloads[0].Payload? && payloads[0].id.NullId?
  }

  function ErrorText(payload: Payload): Text {
    if payload.Payload? && payload.error.Some? then payload.error.value.message else Undefined
  }

  /** Reading an array: forEach over the batch; what a throw left unsettled is rejected. */
  function ReadArray(chainId: Option<string>, settled: map<nat, Settlement>, batch: seq<Request>, payloads: seq<Payload>): Progress {
    var p := DeliverFirst(Progress(chainId, settled, false), batch, payloads, |batch|);
    if p.threw then p.(settled := RejectAll(p.settled, batch, Unreadable)) else p
  }

  function ReadResponse(chainId: Option<string>, settled: map<nat, Settlement>, batch: seq<Request>, response: Response): Progress {
    match response
    case NotAnArray(message) => Progress(chainId, RejectAll(settled, batch, InvalidResponse), false)
    case AnArray(payloads) =>
      if IsRateLimit(payloads) then Progress(chainId, RejectAll(settled, batch, RateLimited(ErrorText(payloads[0]))), false)
      else if NullPayload in payloads then Progress(chainId, RejectAll(settled, batch, Unreadable), true)
      else ReadArray(chainId, settled, batch, payloads)
  }

  function AfterResponse(s: State, k: nat, response: Response): State
    requires k < |s.wire|
  {
    var p := ReadResponse(s.chainId, s.settled, s.wire[k], response);
    s.(open := s.open - {k}, chainId := p.chainId, settled := p.settled,
       tuner := AdjustAll(s.tuner, OutcomesOf(s.wire[k], response)))
  }

  function AfterTransportFailure(s: State, k: nat, message: string): State
    requires k < |s.wire|
  {
    s.(open := s.open - {k}, settled := RejectAll(s.settled, s.wire[k], Failure(message)))
  }

  // ---------- Runs ----------

  datatype Event =
    | Send(rpcMethod: string, params: seq<string>)
    | TimerFires
    | Flush
    | ResponseArrives(batch: nat, response: Response)
    | TransportFails(batch: nat, message: string)
    | SetBatchSize(size: int)

  /** The timer fires only while it is set, and a batch is answered once, after it went out. */
  predicate Enabled(s: State, e: Event) {
    match e
    case TimerFires => s.timer
    case ResponseArrives(k, _) => k in s.open && k < |s.wire|
    case TransportFails(k, _) => k in s.open && k < |s.wire|
    case _ => true
  }

  function Step(s: State, e: Event): State
    requires Enabled(s, e)
  {
    match e
    case Send(m, params) => AfterSend(s, m, params)
    case TimerFires => Transmit(s)
    case Flush => if s.timer then Transmit(s) else s
    case ResponseArrives(k, response) => AfterResponse(s, k, response)
    case TransportFails(k, message) => AfterTransportFailure(s, k, message)
    case SetBatchSize(size) => s.(tuner := s.tuner.(size := size))
  }

  /** The state after a run; an event that is not enabled does not happen. */
  function Run(s: State, events: seq<Event>): State {
    if events == [] then s
    else
      var before := Run(s, events[..|events| - 1]);
      var e := events[|events| - 1];
      if Enabled(before, e) then Step(before, e) else before
  }
}
