/** JsonRpcBatchProvider as the object it is: fields updated in place by send, flush, the timer and responses. */
module BatchProvider {
  import opened Js
  import opened BatchTuning
  import opened BatchProtocol

  datatype Reply = Cached(chainId: string) | Promise(id: nat)

  class JsonRpcBatchProvider {
    var batchSize: int
    var successfulBatchCount: nat
    var failedBatchCount: nat
    var pendingBatchAggregator: bool
    var pendingBatch: Option<seq<Request>>
    var chainIdCache: Option<string>
    var nextId: nat
    var transmitted: seq<seq<Request>>
    var promises: map<nat, Settlement>
    ghost var enqueued: seq<Request>
    ghost var open: set<nat>

    ghost function State(): State
      reads this
    {
      BatchProtocol.State(Tuner(batchSize, successfulBatchCount, failedBatchCount), pendingBatchAggregator, pendingBatch,
                          chainIdCache, nextId, enqueued, transmitted, open, promises)
    }

    constructor ()
      ensures State() == Initial(1)
    {
      batchSize, successfulBatchCount, failedBatchCount := 1, 0, 0;
      pendingBatchAggregator, pendingBatch, chainIdCache := false, None, None;
      nextId, transmitted, promises := FIRST_ID, [], map[];
      enqueued, open := [], {};
    }

    method SetBatchSize(size: int)
      modifies this`batchSize
      ensures State() == Step(old(State()), Event.SetBatchSize(size))
    {
      batchSize := size;
    }

    method Send(rpcMethod: string, params: seq<string>) returns (reply: Reply)
      modifies this
      ensures State() == AfterSend(old(State()), rpcMethod, params)
      ensures reply == if AnsweredFromCache(old(State()), rpcMethod) then Cached(old(chainIdCache).value)
                       else Promise(old(nextId))
    {
      if rpcMethod == "eth_chainId" && chainIdCache.Some? {
        return Cached(chainIdCache.value);
      }
      var request := Request(nextId, rpcMethod, params);
      nextId := nextId + 1;
      if pendingBatch.None? {
        pendingBatch := Some([]);
      }
      pendingBatch := Some(pendingBatch.value + [request]);
      enqueued := enqueued + [request];
      if !pendingBatchAggregator {
        pendingBatchAggregator := true;
      }
      if |pendingBatch.value| > batchSize {
        Flush();
      }
      return Promise(request.id);
    }

    method Flush()
      modifies this
      ensures State() == Step(old(State()), Event.Flush)
    {
      if pendingBatchAggregator {
        RunRequests();
      }
    }

    /** Also what the timer runs when it fires. */
    method RunRequests()
      modifies this
      ensures State() == Transmit(old(State()))
    {
      var batch := if pendingBatch.Some? then pendingBatch.value else [];
      pendingBatch := None;
      pendingBatchAggregator := false;
      open := open + {|transmitted|};
      transmitted := transmitted + [batch];
    }

    method AdjustBatchSize(success: bool)
      modifies this`batchSize, this`successfulBatchCount, this`failedBatchCount
      ensures State().tuner == Adjust(old(State()).tuner, success)
    {
      if success {
        successfulBatchCount := successfulBatchCount + 1;
      } else {
        failedBatchCount := failedBatchCount + 1;
      }
      var totalBatches := successfulBatchCount + failedBatchCount;
      if totalBatches % ADJUSTMENT_INTERVAL == 0 {
        var successRate := successfulBatchCount as real / totalBatches as real;
        RateBounds(successfulBatchCount, totalBatches);
        if successRate < 0.9 && batchSize > 1 {
          batchSize := batchSize - 1;
        } else if successRate > 0.95 && batchSize < MAX_ADAPTIVE_SIZE {
          batchSize := batchSize + 1;
        }
        successfulBatchCount := 0;
        failedBatchCount := 0;
      }
    }

    /** Resolving or rejecting a promise; only the first settlement counts. */
    method SettlePromise(id: nat, outcome: Settlement)
      modifies this`promises
      ensures promises == Settle(old(promises), id, outcome)
    {
      if id !in promises {
        promises := promises[id := outcome];
      }
    }

    method RejectBatch(batch: seq<Request>, reason: Reason)
      modifies this`promises
      ensures promises == RejectAll(old(promises), batch, reason)
    {
      for i := 0 to |batch|
        invariant promises == RejectAll(old(promises), batch[..i], reason)
      {
        assert batch[..i + 1][..i] == batch[..i];
        SettlePromise(batch[i].id, Rejected(reason));
      }
      assert batch[..|batch|] == batch;
    }

    /** The catch clause. */
    method TransportFails(k: nat, message: string)
      requires Enabled(State(), Event.TransportFails(k, message))
      modifies this
      ensures State() == Step(old(State()), Event.TransportFails(k, message))
    {
      open := open - {k};
      RejectBatch(transmitted[k], Failure(message));
    }

    /** The then clause, with what it throws caught. */
    method ResponseArrives(k: nat, response: Response)
      requires Enabled(State(), Event.ResponseArrives(k, response))
      modifies this
      ensures State() == Step(old(State()), Event.ResponseArrives(k, response))
    {
      var batch := transmitted[k];
      open := open - {k};
      if response.NotAnArray? {
        RejectBatch(batch, InvalidResponse);
        if response.errorMessage == Str("Batch size is too large") {
          AdjustOnce(State().tuner, false);
          AdjustBatchSize(false);
        }
        return;
      }
      var payloads := response.payloads;
      if IsRateLimit(payloads) {
        RejectBatch(batch, RateLimited(ErrorText(payloads[0])));
        AdjustOnce(State().tuner, false);
        AdjustBatchSize(false);
        return;
      }
      if NullPayload in payloads {
        RejectBatch(batch, Unreadable);
        return;
      }
      var threw := ReadBatch(batch, payloads);
      ghost var complaints := Complaints(batch, payloads, |batch|);
      if threw {
        assert complaints + [] == complaints;
        RejectBatch(batch, Unreadable);
      } else {
        AdjustAllConcat(old(State()).tuner, complaints, [true]);
        AdjustOnce(State().tuner, true);
        AdjustBatchSize(true);
      }
    }

    /** The forEach over the batch; it stops where reading a payload throws. */
    method ReadBatch(batch: seq<Request>, payloads: seq<Payload>) returns (threw: bool)
      modifies this`batchSize, this`successfulBatchCount, this`failedBatchCount, this`chainIdCache, this`promises
      ensures Progress(chainIdCache, promises, threw) ==
              DeliverFirst(Progress(old(chainIdCache), old(promises), false), batch, payloads, |batch|)
      ensures threw == ThrowsWithin(batch, payloads, |batch|)
      ensures State().tuner == AdjustAll(old(State()).tuner, Complaints(batch, payloads, |batch|))
    {
      threw := false;
      ghost var start := Progress(chainIdCache, promises, false);
      for i := 0 to |batch|
        invariant Progress(chainIdCache, promises, threw) == DeliverFirst(start, batch, payloads, i)
        invariant threw == ThrowsWithin(batch, payloads, i)
        invariant State().tuner == AdjustAll(old(State()).tuner, Complaints(batch, payloads, i))
      {
        if !threw {
          AdjustAllConcat(old(State()).tuner, Complaints(batch, payloads, i), [false]);
          AdjustOnce(State().tuner, false);
          threw := ReadPayload(batch[i], LastWithId(payloads, batch[i].id));
        }
      }
    }

    /** The forEach callback: settle one request by its own payload. */
    method ReadPayload(request: Request, payload: Option<Payload>) returns (threw: bool)
      modifies this`batchSize, this`successfulBatchCount, this`failedBatchCount, this`chainIdCache, this`promises
      ensures Progress(chainIdCache, promises, threw) ==
              Deliver(Progress(old(chainIdCache), old(promises), false), request, payload)
      ensures threw == Poisonous(payload)
      ensures request.id !in old(promises) && !threw ==>
                promises == old(promises)[request.id :=
                  if payload.None? || payload.value.NullPayload? then Rejected(MissingPayload(request.id))
                  else if payload.value.error.Some? then Rejected(Refused(payload.value.error.value))
                  else Resolved(payload.value.result)]
      ensures State().tuner == if BlamesSize(payload) then Adjust(old(State()).tuner, false) else old(State()).tuner
    {
      if payload.None? || payload.value.NullPayload? {
        SettlePromise(request.id, Rejected(MissingPayload(request.id)));
      } else if payload.value.error.Some? {
        var error := payload.value.error.value;
        if !error.message.Str? {
          return true;
        }
        if BlamesBatchSize(error.message.s) {
          AdjustBatchSize(false);
        }
        SettlePromise(request.id, Rejected(Refused(error)));
      } else {
        if request.rpcMethod == "eth_chainId" {
          chainIdCache := payload.value.result;
        }
        SettlePromise(request.id, Resolved(payload.value.result));
      }
      return false;
    }
  }
}
