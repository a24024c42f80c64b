/** Safety of the batching provider over whole runs: conservation, settlement, demultiplexing and batch length. */
module BatchRuns {
  import opened Js
  import opened BatchTuning
  import opened BatchProtocol
  import opened BatchSafety

  // ---------- Every step keeps the invariant ----------

  lemma TransmitKeepsInv(s: State)
    requires Inv(s) && s.timer
    ensures Inv(Transmit(s))
  {
    var t := Transmit(s);
    FlattenAppend(s.wire, PendingRequests(s));
    assert forall k: nat :: k < |t.wire| && k !in t.open ==> k < |s.wire| && k !in s.open && t.wire[k] == s.wire[k];
    assert forall k: nat :: k < |s.wire| && k !in s.open ==> k !in t.open && t.wire[k] == s.wire[k];
  }

  lemma EnqueueKeepsInv(s: State, rpcMethod: string, params: seq<string>)
    requires Inv(s)
    ensures Inv(Enqueue(s, rpcMethod, params))
  {
  }

  lemma SendKeepsInv(s: State, rpcMethod: string, params: seq<string>)
    requires Inv(s)
    ensures Inv(AfterSend(s, rpcMethod, params)) && AfterSend(s, rpcMethod, params).settled == s.settled
  {
    if !AnsweredFromCache(s, rpcMethod) {
      EnqueueKeepsInv(s, rpcMethod, params);
      TransmitKeepsInv(Enqueue(s, rpcMethod, params));
    }
  }

  lemma TransportFailureKeepsInv(s: State, k: nat, message: string)
    requires Inv(s) && k in s.open
    ensures Inv(AfterTransportFailure(s, k, message))
    ensures forall id :: id in s.settled ==> AfterTransportFailure(s, k, message).settled[id] == s.settled[id]
  {
    RejectAllMeaning(s.settled, s.wire[k], Failure(message));
    ClosingKeepsInv(s, k, AfterTransportFailure(s, k, message));
  }

  /** Closing batch k with a settlement of exactly its requests keeps the invariant. */
  lemma ClosingKeepsInv(s: State, k: nat, t: State)
    requires Inv(s) && k in s.open
    requires t == s.(open := s.open - {k}, chainId := t.chainId, settled := t.settled, tuner := t.tuner)
    requires forall id :: id in t.settled <==> id in s.settled || IdIn(id, s.wire[k])
    requires MidWindow(t.tuner)
    ensures Inv(t)
  {
    forall id | id in t.settled ensures exists l: nat :: l < |t.wire| && l !in t.open && IdIn(id, t.wire[l]) {
      if id in s.settled {
        var l: nat :| l < |s.wire| && l !in s.open && IdIn(id, s.wire[l]);
        assert l !in t.open && IdIn(id, t.wire[l]);
      } else {
        assert k !in t.open && IdIn(id, t.wire[k]);
      }
    }
    forall l: nat, id | l < |t.wire| && l !in t.open && IdIn(id, t.wire[l]) ensures id in t.settled {
      assert l == k || l !in s.open;
    }
  }

  lemma BatchIsFresh(s: State, k: nat)
    requires Inv(s) && k in s.open
    ensures DistinctIds(s.wire[k])
    ensures forall j :: 0 <= j < |s.wire[k]| ==> s.wire[k][j].id !in s.settled
  {
    var batch := s.wire[k];
    forall j | 0 <= j < |batch| ensures batch[j].id == FIRST_ID + Offset(s.wire, k) + j {
      BatchIds(s, k, j);
    }
    forall j | 0 <= j < |batch| ensures batch[j].id !in s.settled {
      if batch[j].id in s.settled {
        var l: nat :| l < |s.wire| && l !in s.open && IdIn(batch[j].id, s.wire[l]);
        assert IdIn(batch[j].id, s.wire[k]);
        IdsAreUnique(s, batch[j].id, k, l);
      }
    }
  }

  lemma {:induction false} AdjustingStaysMidWindow(t: Tuner, outcomes: seq<bool>)
    requires MidWindow(t)
    ensures MidWindow(AdjustAll(t, outcomes))
    decreases |outcomes|
  {
    if outcomes != [] {
      AdjustingStaysMidWindow(Adjust(t, outcomes[0]), outcomes[1..]);
    }
  }

  lemma ResponseKeepsInv(s: State, k: nat, response: Response)
    requires Inv(s) && k in s.open
    ensures Inv(AfterResponse(s, k, response))
    ensures forall id :: id in s.settled ==> AfterResponse(s, k, response).settled[id] == s.settled[id]
  {
    var t := AfterResponse(s, k, response);
    var batch := s.wire[k];
    BatchIsFresh(s, k);
    AdjustingStaysMidWindow(s.tuner, OutcomesOf(batch, response));
    match response {
      case NotAnArray(message) => RejectAllMeaning(s.settled, batch, InvalidResponse);
      case AnArray(payloads) =>
        if IsRateLimit(payloads) {
          RejectAllMeaning(s.settled, batch, RateLimited(ErrorText(payloads[0])));
        } else if NullPayload in payloads {
          RejectAllMeaning(s.settled, batch, Unreadable);
        } else {
          ReadingSettlesBatch(s.chainId, s.settled, batch, payloads);
        }
    }
    ClosingKeepsInv(s, k, t);
  }

  /** Each atomic step keeps the invariant and never changes a settlement. */
  lemma StepKeepsInv(s: State, e: Event)
    requires Inv(s) && Enabled(s, e)
    ensures Inv(Step(s, e))
    ensures forall id :: id in s.settled ==> id in Step(s, e).settled && Step(s, e).settled[id] == s.settled[id]
  {
    match e
    case Send(m, params) => SendKeepsInv(s, m, params);
    case TimerFires => TransmitKeepsInv(s);
    case Flush =>
      if s.timer {
        TransmitKeepsInv(s);
      }
    case ResponseArrives(k, response) => ResponseKeepsInv(s, k, response);
    case TransportFails(k, message) => TransportFailureKeepsInv(s, k, message);
    case SetBatchSize(size) =>
  }

  /**
   * In every interleaving: transmitted batches followed by the pending one are the requests in send
   * order with consecutive identifiers, the timer guards a non-empty batch, and a promise is settled
   * exactly when its batch was answered or failed.
   */
  lemma {:induction false} RunsKeepInv(size: int, events: seq<Event>)
    ensures Inv(Run(Initial(size), events))
  {
    if events != [] {
      RunsKeepInv(size, events[..|events| - 1]);
      var before, e := Run(Initial(size), events[..|events| - 1]), events[|events| - 1];
      if Enabled(before, e) {
        StepKeepsInv(before, e);
      }
    }
  }

  /** Whatever happens after a promise is settled, it keeps its settlement. */
  lemma {:induction false} SettlementsAreFinal(size: int, events: seq<Event>, n: nat, id: nat)
    requires n <= |events| && id in Run(Initial(size), events[..n]).settled
    ensures id in Run(Initial(size), events).settled
    ensures Run(Initial(size), events).settled[id] == Run(Initial(size), events[..n]).settled[id]
    decreases |events|
  {
    if n == |events| {
      assert events[..n] == events;
    } else {
      var front := events[..|events| - 1];
      assert front[..n] == events[..n];
      SettlementsAreFinal(size, front, n, id);
      RunsKeepInv(size, front);
      var before, e := Run(Initial(size), front), events[|events| - 1];
      if Enabled(before, e) {
        StepKeepsInv(before, e);
      }
    }
  }

  // ---------- Demultiplexing ----------

  /** The payload a request is matched with is the last one that carries its identifier. */
  lemma {:induction false} LastWithIdMeaning(payloads: seq<Payload>, id: nat)
    ensures match LastWithId(payloads, id)
            case None => forall i :: 0 <= i < |payloads| ==> !(payloads[i].Payload? && payloads[i].id == NumberId(id))
            case Some(p) =>
              exists i :: 0 <= i < |payloads| && payloads[i] == p && p.Payload? && p.id == NumberId(id)
                          && forall l :: i < l < |payloads| ==> !(payloads[l].Payload? && payloads[l].id == NumberId(id))
  {
    if payloads != [] {
      LastWithIdMeaning(payloads[..|payloads| - 1], id);
      var last := payloads[|payloads| - 1];
      if last.Payload? && last.id == NumberId(id) {
        assert payloads[|payloads| - 1] == last;
      } else if LastWithId(payloads, id).Some? {
        var front := payloads[..|payloads| - 1];
        var i :| 0 <= i < |front| && front[i] == LastWithId(payloads, id).value
                 && forall l :: i < l < |front| ==> !(front[l].Payload? && front[l].id == NumberId(id));
        assert payloads[i] == LastWithId(payloads, id).value;
      }
    }
  }

  /**
   * A response settles its own batch and no other promise. Each request gets what its own last payload
   * says, unless the response as a whole is unusable or reading it threw at or before that request.
   */
  lemma ResponsesAreMatchedById(s: State, k: nat, response: Response, j: nat)
    requires Inv(s) && k in s.open && j < |s.wire[k]|
    ensures var id, t := s.wire[k][j].id, AfterResponse(s, k, response);
            && id !in s.settled && id in t.settled
            && t.settled[id] ==
               match response
               case NotAnArray(_) => Rejected(InvalidResponse)
               case AnArray(payloads) =>
                 if IsRateLimit(payloads) then Rejected(RateLimited(ErrorText(payloads[0])))
                 else if NullPayload in payloads then Rejected(Unreadable)
                 else Outcome(s.wire[k], payloads, j)
    ensures forall id :: id in AfterResponse(s, k, response).settled && id !in s.settled ==> IdIn(id, s.wire[k])
  {
    var batch := s.wire[k];
    BatchIsFresh(s, k);
    assert IdIn(batch[j].id, batch);
    match response {
      case NotAnArray(message) => RejectAllMeaning(s.settled, batch, InvalidResponse);
      case AnArray(payloads) =>
        if IsRateLimit(payloads) {
          RejectAllMeaning(s.settled, batch, RateLimited(ErrorText(payloads[0])));
        } else if NullPayload in payloads {
          RejectAllMeaning(s.settled, batch, Unreadable);
        } else {
          ReadingSettlesBatch(s.chainId, s.settled, batch, payloads);
        }
    }
  }

  /** A request is resolved only with the result of the last payload of its own response that carries its id. */
  lemma ResolvedOnlyByOwnPayload(s: State, k: nat, response: Response, j: nat)
    requires Inv(s) && k in s.open && j < |s.wire[k]|
    requires s.wire[k][j].id in AfterResponse(s, k, response).settled
    requires AfterResponse(s, k, response).settled[s.wire[k][j].id].Resolved?
    ensures response.AnArray?
    ensures exists i :: 0 <= i < |response.payloads| && response.payloads[i].Payload?
              && response.payloads[i].id == NumberId(s.wire[k][j].id) && response.payloads[i].error.None?
              && AfterResponse(s, k, response).settled[s.wire[k][j].id] == Resolved(response.payloads[i].result)
              && forall l :: i < l < |response.payloads| ==>
                   !(response.payloads[l].Payload? && response.payloads[l].id == NumberId(s.wire[k][j].id))
  {
    ResponsesAreMatchedById(s, k, response, j);
    LastWithIdMeaning(response.payloads, s.wire[k][j].id);
  }

  // ---------- Batch length ----------

  /** No size ever set exceeds `cap`, and adapting cannot pass it either. */
  ghost predicate Capped(events: seq<Event>, size: int, cap: int) {
    && MAX_ADAPTIVE_SIZE <= cap && size <= cap
    && forall i :: 0 <= i < |events| && events[i].SetBatchSize? ==> events[i].size <= cap
  }

  ghost predicate WithinCap(s: State, cap: int) {
    && s.tuner.size <= cap
    && |PendingRequests(s)| <= cap
    && forall k :: 0 <= k < |s.wire| ==> 1 <= |s.wire[k]| <= cap + 1
  }

  lemma {:induction false} AdjustingStaysCapped(t: Tuner, outcomes: seq<bool>, cap: int)
    requires t.size <= cap && MAX_ADAPTIVE_SIZE <= cap
    ensures AdjustAll(t, outcomes).size <= cap
    decreases |outcomes|
  {
    if outcomes != [] {
      AdjustingStaysCapped(Adjust(t, outcomes[0]), outcomes[1..], cap);
    }
  }

  /**
   * Every transmitted batch has between one request and one more than the largest size that was ever
   * set or reached by adapting, even when the size shrinks while requests are pending.
   */
  lemma {:induction false} BatchesAreBounded(size: int, events: seq<Event>, cap: int)
    requires Capped(events, size, cap)
    ensures WithinCap(Run(Initial(size), events), cap)
  {
    if events != [] {
      var front, e := events[..|events| - 1], events[|events| - 1];
      BatchesAreBounded(size, front, cap);
      RunsKeepInv(size, front);
      var s := Run(Initial(size), front);
      if Enabled(s, e) && e.ResponseArrives? {
        AdjustingStaysCapped(s.tuner, OutcomesOf(s.wire[e.batch], e.response), cap);
      }
    }
  }

  // ---------- Adapting over runs ----------

  /** The outcomes an event counts towards the batch size. */
  function Counted(s: State, e: Event): seq<bool> {
    if e.ResponseArrives? && Enabled(s, e) then OutcomesOf(s.wire[e.batch], e.response) else []
  }

  function CountedIn(s: State, events: seq<Event>): seq<bool> {
    if events == [] then []
    else CountedIn(s, events[..|events| - 1]) + Counted(Run(s, events[..|events| - 1]), events[|events| - 1])
  }

  /**
   * After any run whose size was set beforehand, the size is the fold over complete windows of ten of the
   * outcomes the responses counted; nothing else moves it.
   */
  lemma {:induction false} RunSizeIsWindowFold(size: int, events: seq<Event>)
    requires forall i :: 0 <= i < |events| ==> !events[i].SetBatchSize?
    ensures Run(Initial(size), events).tuner == AdjustAll(Tuner(size, 0, 0), CountedIn(Initial(size), events))
    ensures Run(Initial(size), events).tuner.size == SizeAfterWindows(size, CountedIn(Initial(size), events))
  {
    if events != [] {
      var front := events[..|events| - 1];
      RunSizeIsWindowFold(size, front);
      var s, e := Run(Initial(size), front), events[|events| - 1];
      AdjustAllConcat(Tuner(size, 0, 0), CountedIn(Initial(size), front), Counted(s, e));
    }
    SizeIsWindowFold(size, CountedIn(Initial(size), events));
  }
}
