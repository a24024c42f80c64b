/** What a response does, read off the positions of its payloads: settlements, the cached chain id and the counted outcomes. */
module BatchAnswers {
  import opened Js
  import opened BatchTuning
  import opened BatchProtocol
  import opened BatchSafety
  import opened BatchRuns

  // ---------- A request's own payload ----------

  predicate Carries(payload: Payload, id: nat) {
    payload.Payload? && payload.id == NumberId(id)
  }

  /** The i-th payload is the last one that carries the identifier. */
  predicate IsLast(payloads: seq<Payload>, i: nat, id: nat) {
    i < |payloads| && Carries(payloads[i], id) && forall l :: i < l < |payloads| ==> !Carries(payloads[l], id)
  }

  /** The reader throws on the request's own payload: its error has no message. */
  ghost predicate Stumbles(payloads: seq<Payload>, id: nat) {
    exists i: nat :: IsLast(payloads, i, id) && payloads[i].error.Some? && !payloads[i].error.value.message.Str?
  }

  /** An array that is read payload by payload: not the rate-limit form, and nothing in it is null. */
  predicate Readable(payloads: seq<Payload>) {
    && !(|payloads| == 1 && payloads[0].Payload? && payloads[0].id == NullId)
    && forall i :: 0 <= i < |payloads| ==> payloads[i].Payload?
  }

  lemma LastIsLastWithId(payloads: seq<Payload>, i: nat, id: nat)
    requires IsLast(payloads, i, id)
    ensures LastWithId(payloads, id) == Some(payloads[i])
  {
    LastWithIdMeaning(payloads, id);
  }

  lemma PoisonousIff(payloads: seq<Payload>, id: nat)
    ensures Poisonous(LastWithId(payloads, id)) <==> Stumbles(payloads, id)
  {
    LastWithIdMeaning(payloads, id);
    if i: nat :| IsLast(payloads, i, id) && payloads[i].error.Some? && !payloads[i].error.value.message.Str? {
      LastIsLastWithId(payloads, i, id);
    }
    if Poisonous(LastWithId(payloads, id)) {
      var i: nat :| i < |payloads| && payloads[i] == LastWithId(payloads, id).value && IsLast(payloads, i, id);
    }
  }

  lemma {:induction false} ThrowsWithinIff(batch: seq<Request>, payloads: seq<Payload>, n: nat)
    requires n <= |batch|
    ensures ThrowsWithin(batch, payloads, n) <==> exists m :: 0 <= m < n && Stumbles(payloads, batch[m].id)
  {
    if n > 0 {
      ThrowsWithinIff(batch, payloads, n - 1);
      PoisonousIff(payloads, batch[n - 1].id);
    }
  }

  // ---------- Settlements ----------

  /**
   * An answered request is settled by its own last payload: resolved with its result when it has no error,
   * rejected with its error otherwise, rejected as missing when there is none; and rejected as unreadable
   * exactly when the reader stumbled at it or before it.
   */
  lemma AnsweredRequestIsSettled(s: State, k: nat, payloads: seq<Payload>, j: nat)
    requires Inv(s) && k in s.open && j < |s.wire[k]| && Readable(payloads)
    ensures var batch, settled := s.wire[k], AfterResponse(s, k, AnArray(payloads)).settled;
            var id := batch[j].id;
            id in settled &&
            if exists m :: 0 <= m <= j && Stumbles(payloads, batch[m].id) then settled[id] == Rejected(Failure("TypeError"))
            else
              && (forall i: nat :: IsLast(payloads, i, id) && payloads[i].error.None? ==> settled[id] == Resolved(payloads[i].result))
              && (forall i: nat :: IsLast(payloads, i, id) && payloads[i].error.Some? ==>
                    settled[id] == Rejected(Refused(payloads[i].error.value)))
              && ((forall i :: 0 <= i < |payloads| ==> !Carries(payloads[i], id)) ==> settled[id] == Rejected(MissingPayload(id)))
  {
    var batch := s.wire[k];
    var id := batch[j].id;
    ResponsesAreMatchedById(s, k, AnArray(payloads), j);
    ThrowsWithinIff(batch, payloads, j + 1);
    LastWithIdMeaning(payloads, id);
    forall i: nat | IsLast(payloads, i, id) ensures LastWithId(payloads, id) == Some(payloads[i]) {
      LastIsLastWithId(payloads, i, id);
    }
  }

  /** A response that cannot be read as a whole resolves nothing of its batch: every request is rejected for the same reason. */
  lemma UnusableResponseRejects(s: State, k: nat, response: Response, j: nat)
    requires Inv(s) && k in s.open && j < |s.wire[k]|
    requires response.NotAnArray? || !Readable(response.payloads)
    ensures var id, settled := s.wire[k][j].id, AfterResponse(s, k, response).settled;
            id in settled && settled[id].Rejected? && settled[id].reason ==
            match response
            case NotAnArray(_) => InvalidResponse
            case AnArray(payloads) =>
              if |payloads| != 1 || payloads[0].NullPayload? then Failure("TypeError")
              else if payloads[0].error.Some? then RateLimited(payloads[0].error.value.message)
              else RateLimited(Undefined)
  {
    ResponsesAreMatchedById(s, k, response, j);
  }

  // ---------- The cached chain id ----------

  predicate AsksChainId(r: Request) {
    r.rpcMethod == "eth_chainId"
  }

  /** The j-th request of the batch asks for the chain id and is resolved. */
  predicate ResolvesChainId(batch: seq<Request>, settled: map<nat, Settlement>, j: nat) {
    j < |batch| && AsksChainId(batch[j]) && batch[j].id in settled && settled[batch[j].id].Resolved?
  }

  /** The last of the first `n` requests that resolves to a chain id, or -1. */
  function LastResolving(batch: seq<Request>, settled: map<nat, Settlement>, n: nat): int {
    if n == 0 then -1 else if ResolvesChainId(batch, settled, n - 1) then n - 1 else LastResolving(batch, settled, n - 1)
  }

  /** The j-th request is the last of its batch that resolves to a chain id. */
  predicate IsLastResolving(batch: seq<Request>, settled: map<nat, Settlement>, j: nat) {
    ResolvesChainId(batch, settled, j) && forall l: nat :: j < l < |batch| ==> !ResolvesChainId(batch, settled, l)
  }

  lemma {:induction false} LastResolvingMeaning(batch: seq<Request>, settled: map<nat, Settlement>, n: nat)
    requires n <= |batch|
    ensures -1 <= LastResolving(batch, settled, n) < n
    ensures LastResolving(batch, settled, n) >= 0 ==> ResolvesChainId(batch, settled, LastResolving(batch, settled, n))
    ensures forall l: nat :: LastResolving(batch, settled, n) < l < n ==> !ResolvesChainId(batch, settled, l)
  {
    if n > 0 {
      LastResolvingMeaning(batch, settled, n - 1);
    }
  }

  lemma {:induction false} SameLastResolving(batch: seq<Request>, a: map<nat, Settlement>, b: map<nat, Settlement>, n: nat)
    requires forall j: nat :: j < n ==> ResolvesChainId(batch, a, j) == ResolvesChainId(batch, b, j)
    ensures LastResolving(batch, a, n) == LastResolving(batch, b, n)
  {
    if n > 0 {
      SameLastResolving(batch, a, b, n - 1);
    }
  }

  /** After the first `n` turns, the chain id is what the last of them resolved to, or what it was. */
  ghost predicate ChainIdFollows(start: Option<string>, chainId: Option<string>, settled: map<nat, Settlement>, batch: seq<Request>, n: nat)
    requires n <= |batch|
  {
    LastResolvingMeaning(batch, settled, n);
    var m := LastResolving(batch, settled, n);
    if m < 0 then chainId == start else settled[batch[m].id] == Resolved(chainId)
  }

  /** A turn settles its own request only. */
  lemma TurnKeepsOthers(p: Progress, batch: seq<Request>, payload: Option<Payload>, n: nat, j: nat)
    requires DistinctIds(batch) && j < n < |batch|
    ensures var q := Deliver(p, batch[n], payload);
            && ResolvesChainId(batch, q.settled, j) == ResolvesChainId(batch, p.settled, j)
            && (ResolvesChainId(batch, p.settled, j) ==> q.settled[batch[j].id] == p.settled[batch[j].id])
  {
    assert batch[j].id != batch[n].id;
  }

  lemma OneTurnChainId(start: Option<string>, p: Progress, batch: seq<Request>, payload: Option<Payload>, n: nat)
    requires DistinctIds(batch) && n < |batch| && batch[n].id !in p.settled
    requires ChainIdFollows(start, p.chainId, p.settled, batch, n)
    ensures var q := Deliver(p, batch[n], payload); ChainIdFollows(start, q.chainId, q.settled, batch, n + 1)
  {
    var q := Deliver(p, batch[n], payload);
    forall j: nat | j < n
      ensures ResolvesChainId(batch, q.settled, j) == ResolvesChainId(batch, p.settled, j)
      ensures ResolvesChainId(batch, p.settled, j) ==> q.settled[batch[j].id] == p.settled[batch[j].id]
    {
      TurnKeepsOthers(p, batch, payload, n, j);
    }
    SameLastResolving(batch, p.settled, q.settled, n);
    LastResolvingMeaning(batch, p.settled, n);
  }

  lemma {:induction false} DeliverFirstChainId(p: Progress, batch: seq<Request>, payloads: seq<Payload>, n: nat)
    requires DistinctIds(batch) && n <= |batch|
    requires forall j :: 0 <= j < |batch| ==> batch[j].id !in p.settled
    ensures var q := DeliverFirst(p, batch, payloads, n); ChainIdFollows(p.chainId, q.chainId, q.settled, batch, n)
  {
    if n > 0 {
      DeliverFirstChainId(p, batch, payloads, n - 1);
      NotYetRead(p, batch, payloads, n - 1);
      OneTurnChainId(p.chainId, DeliverFirst(p, batch, payloads, n - 1), batch, LastWithId(payloads, batch[n - 1].id), n - 1);
    }
  }

  lemma NotYetRead(p: Progress, batch: seq<Request>, payloads: seq<Payload>, n: nat)
    requires DistinctIds(batch) && n < |batch| && batch[n].id !in p.settled
    ensures batch[n].id !in DeliverFirst(p, batch, payloads, n).settled
  {
    DeliverFirstFrame(p, batch, payloads, n);
  }

  lemma RejectingResolvesNothing(settled: map<nat, Settlement>, batch: seq<Request>, reason: Reason, j: nat)
    ensures ResolvesChainId(batch, RejectAll(settled, batch, reason), j) == ResolvesChainId(batch, settled, j)
    ensures ResolvesChainId(batch, settled, j) ==> RejectAll(settled, batch, reason)[batch[j].id] == settled[batch[j].id]
  {
    RejectAllMeaning(settled, batch, reason);
    if j < |batch| {
      assert IdIn(batch[j].id, batch);
    }
  }

  /** The chain id cached after a response is the result of the last request in the batch that resolves to one, or the old one. */
  lemma ChainIdAfterResponse(s: State, k: nat, response: Response)
    requires Inv(s) && k in s.open
    ensures var batch, t := s.wire[k], AfterResponse(s, k, response);
            && (forall j: nat :: IsLastResolving(batch, t.settled, j) ==> t.settled[batch[j].id] == Resolved(t.chainId))
            && ((forall j: nat :: j < |batch| ==> !ResolvesChainId(batch, t.settled, j)) ==> t.chainId == s.chainId)
  {
    var batch, t := s.wire[k], AfterResponse(s, k, response);
    ChainIdFollowsResponse(s, k, response);
    LastResolvingMeaning(batch, t.settled, |batch|);
    forall j: nat | IsLastResolving(batch, t.settled, j) ensures t.settled[batch[j].id] == Resolved(t.chainId) {
      assert j == LastResolving(batch, t.settled, |batch|);
    }
  }

  lemma ChainIdFollowsResponse(s: State, k: nat, response: Response)
    requires Inv(s) && k in s.open
    ensures var batch, t := s.wire[k], AfterResponse(s, k, response);
            ChainIdFollows(s.chainId, t.chainId, t.settled, batch, |batch|)
  {
    var batch, t := s.wire[k], AfterResponse(s, k, response);
    BatchIsFresh(s, k);
    LastResolvingMeaning(batch, t.settled, |batch|);
    if response.AnArray? && !IsRateLimit(response.payloads) && NullPayload !in response.payloads {
      var p := Progress(s.chainId, s.settled, false);
      var q := DeliverFirst(p, batch, response.payloads, |batch|);
      DeliverFirstChainId(p, batch, response.payloads, |batch|);
      forall j: nat | j < |batch|
        ensures ResolvesChainId(batch, t.settled, j) == ResolvesChainId(batch, q.settled, j)
        ensures ResolvesChainId(batch, q.settled, j) ==> t.settled[batch[j].id] == q.settled[batch[j].id]
      {
        RejectingResolvesNothing(q.settled, batch, Unreadable, j);
      }
      SameLastResolving(batch, t.settled, q.settled, |batch|);
    } else {
      ChainIdIsKept(s, k, response);
    }
  }

  lemma ChainIdIsKept(s: State, k: nat, response: Response)
    requires Inv(s) && k in s.open
    requires response.NotAnArray? || IsRateLimit(response.payloads) || NullPayload in response.payloads
    ensures AfterResponse(s, k, response).chainId == s.chainId
    ensures forall j: nat :: !ResolvesChainId(s.wire[k], AfterResponse(s, k, response).settled, j)
  {
    BatchIsFresh(s, k);
    var reason := match response
      case NotAnArray(_) => InvalidResponse
      case AnArray(payloads) => if IsRateLimit(payloads) then RateLimited(ErrorText(payloads[0])) else Unreadable;
    assert AfterResponse(s, k, response).settled == RejectAll(s.settled, s.wire[k], reason);
    forall j: nat ensures !ResolvesChainId(s.wire[k], RejectAll(s.settled, s.wire[k], reason), j) {
      RejectingResolvesNothing(s.settled, s.wire[k], reason, j);
    }
  }

  /** A cached chain id is what an `eth_chainId` request was resolved with. */
  ghost predicate ChainIdWasAnswered(s: State) {
    s.chainId.Some? ==>
      exists i :: 0 <= i < |s.enqueued| && AsksChainId(s.enqueued[i]) && s.enqueued[i].id in s.settled
                  && s.settled[s.enqueued[i].id] == Resolved(s.chainId)
  }

  lemma BatchWasEnqueued(s: State, k: nat, j: nat) returns (i: nat)
    requires Conserved(s) && k < |s.wire| && j < |s.wire[k]|
    ensures i < |s.enqueued| && s.enqueued[i] == s.wire[k][j]
  {
    InFlatten(s.wire, s.wire[k][j]);
    assert s.wire[k][j] in s.wire[k];
    assert s.wire[k][j] in s.enqueued;
    i :| 0 <= i < |s.enqueued| && s.enqueued[i] == s.wire[k][j];
  }

  lemma ResponseKeepsChainId(s: State, k: nat, response: Response)
    requires Inv(s) && k in s.open && ChainIdWasAnswered(s)
    ensures ChainIdWasAnswered(AfterResponse(s, k, response))
  {
    var batch, t := s.wire[k], AfterResponse(s, k, response);
    ChainIdAfterResponse(s, k, response);
    ResponseKeepsInv(s, k, response);
    LastResolvingMeaning(batch, t.settled, |batch|);
    var m := LastResolving(batch, t.settled, |batch|);
    if m >= 0 {
      assert IsLastResolving(batch, t.settled, m);
      var i := BatchWasEnqueued(s, k, m);
      assert t.enqueued[i] == batch[m];
    } else {
      AnswerStays(s, t);
    }
  }

  lemma OtherStepsFrame(s: State, e: Event)
    requires Enabled(s, e) && !e.ResponseArrives?
    ensures Step(s, e).chainId == s.chainId
    ensures |s.enqueued| <= |Step(s, e).enqueued| && forall i :: 0 <= i < |s.enqueued| ==> Step(s, e).enqueued[i] == s.enqueued[i]
  {
  }

  lemma AnswerStays(s: State, t: State)
    requires ChainIdWasAnswered(s) && t.chainId == s.chainId
    requires |s.enqueued| <= |t.enqueued| && forall i :: 0 <= i < |s.enqueued| ==> t.enqueued[i] == s.enqueued[i]
    requires forall id :: id in s.settled ==> id in t.settled && t.settled[id] == s.settled[id]
    ensures ChainIdWasAnswered(t)
  {
    if s.chainId.Some? {
      var i :| 0 <= i < |s.enqueued| && AsksChainId(s.enqueued[i]) && s.enqueued[i].id in s.settled
               && s.settled[s.enqueued[i].id] == Resolved(s.chainId);
      assert t.enqueued[i] == s.enqueued[i];
    }
  }

  /** In every run, a cached chain id is what an earlier `eth_chainId` request of the run was resolved with. */
  lemma {:induction false} ChainIdComesFromAnswers(size: int, events: seq<Event>)
    ensures ChainIdWasAnswered(Run(Initial(size), events))
  {
    if events != [] {
      var front, e := events[..|events| - 1], events[|events| - 1];
      ChainIdComesFromAnswers(size, front);
      RunsKeepInv(size, front);
      var s := Run(Initial(size), front);
      if Enabled(s, e) {
        if e.ResponseArrives? {
          ResponseKeepsChainId(s, e.batch, e.response);
        } else {
          StepKeepsInv(s, e);
          OtherStepsFrame(s, e);
          AnswerStays(s, Step(s, e));
        }
      }
    }
  }

  // ---------- Counted outcomes ----------

  ghost predicate Mentions(message: string, part: string) {
    exists before, after :: message == before + part + after
  }

  lemma {:induction false} ContainedIsMentioned(s: string, part: string) returns (before: string, after: string)
    requires Contains(s, part)
    ensures s == before + part + after
  {
    if s[..|part|] == part {
      before, after := "", s[|part|..];
    } else {
      before, after := ContainedIsMentioned(s[1..], part);
      before := [s[0]] + before;
    }
  }

  lemma {:induction false} MentionedIsContained(before: string, part: string, after: string)
    ensures Contains(before + part + after, part)
  {
    var s := before + part + after;
    if before == "" {
      assert s[..|part|] == part;
    } else {
      MentionedIsContained(before[1..], part, after);
      assert s[1..] == before[1..] + part + after;
    }
  }

  lemma ContainsIff(s: string, part: string)
    ensures Contains(s, part) <==> Mentions(s, part)
  {
    if Contains(s, part) {
      var before, after := ContainedIsMentioned(s, part);
    }
    if before, after :| s == before + part + after {
      MentionedIsContained(before, part, after);
    }
  }

  /** The messages by which a node blames the size of a batch. */
  ghost predicate SaysTooLarge(message: string) {
    || message == "Batch size limit exceeded" || message == "exceeded project rate limit"
    || Mentions(message, "Failed to buffer the request body")
    || Mentions(message, "Too Many Requests") || Mentions(message, "Request Entity Too Large")
  }

  lemma BlamesIff(message: string)
    ensures BlamesBatchSize(message) <==> SaysTooLarge(message)
  {
    ContainsIff(message, "Failed to buffer the request body");
    ContainsIff(message, "Too Many Requests");
    ContainsIff(message, "Request Entity Too Large");
  }

  /** The request's own last payload is an error that blames the size of the batch. */
  ghost predicate Blamed(payloads: seq<Payload>, id: nat) {
    exists i: nat :: IsLast(payloads, i, id) && payloads[i].error.Some? && payloads[i].error.value.message.Str?
                     && SaysTooLarge(payloads[i].error.value.message.s)
  }

  lemma BlamesSizeIff(payloads: seq<Payload>, id: nat)
    ensures BlamesSize(LastWithId(payloads, id)) <==> Blamed(payloads, id)
  {
    LastWithIdMeaning(payloads, id);
    if i: nat :| IsLast(payloads, i, id) && payloads[i].error.Some? && payloads[i].error.value.message.Str?
                 && SaysTooLarge(payloads[i].error.value.message.s) {
      LastIsLastWithId(payloads, i, id);
      BlamesIff(payloads[i].error.value.message.s);
    }
    if BlamesSize(LastWithId(payloads, id)) {
      var i: nat :| i < |payloads| && payloads[i] == LastWithId(payloads, id).value && IsLast(payloads, i, id);
      BlamesIff(payloads[i].error.value.message.s);
    }
  }

  /** How many of the first `n` requests have payloads that blame the size. */
  ghost function BlamedBefore(batch: seq<Request>, payloads: seq<Payload>, n: nat): nat
    requires n <= |batch|
  {
    if n == 0 then 0 else BlamedBefore(batch, payloads, n - 1) + if Blamed(payloads, batch[n - 1].id) then 1 else 0
  }

  function Failures(n: nat): seq<bool> {
    seq(n, _ => false)
  }

  lemma {:induction false} ComplaintsCount(batch: seq<Request>, payloads: seq<Payload>, n: nat, stop: nat)
    requires n <= |batch| && stop <= |batch|
    requires forall m :: 0 <= m < stop ==> !Stumbles(payloads, batch[m].id)
    requires stop < |batch| ==> Stumbles(payloads, batch[stop].id)
    ensures Complaints(batch, payloads, n) == Failures(BlamedBefore(batch, payloads, if n < stop then n else stop))
  {
    if n > 0 {
      ComplaintsCount(batch, payloads, n - 1, stop);
      ThrowsWithinIff(batch, payloads, n);
      BlamesSizeIff(payloads, batch[n - 1].id);
    }
  }

  /**
   * What an array counts: one failure for every payload that blames the size, up to the request the reader
   * stumbles at, and one success at the end if it does not stumble.
   */
  lemma ArrayCounts(batch: seq<Request>, payloads: seq<Payload>, stop: nat)
    requires Readable(payloads) && stop <= |batch|
    requires forall m :: 0 <= m < stop ==> !Stumbles(payloads, batch[m].id)
    requires stop < |batch| ==> Stumbles(payloads, batch[stop].id)
    ensures OutcomesOf(batch, AnArray(payloads)) ==
            Failures(BlamedBefore(batch, payloads, stop)) + if stop == |batch| then [true] else []
  {
    ComplaintsCount(batch, payloads, |batch|, stop);
    ThrowsWithinIff(batch, payloads, |batch|);
  }

  /** What any other response counts: a failure for the known complaint or the rate-limit form, nothing otherwise. */
  lemma OtherResponsesCount(batch: seq<Request>, response: Response)
    ensures response.NotAnArray? ==>
              OutcomesOf(batch, response) == if response.errorMessage == Str("Batch size is too large") then [false] else []
    ensures response.AnArray? && !Readable(response.payloads) ==>
              OutcomesOf(batch, response) ==
              if |response.payloads| == 1 && response.payloads[0].Payload? && response.payloads[0].id == NullId then [false] else []
  {
  }

  // ---------- Requests ----------

  /** A send is answered at once, waits, or transmits everything pending: it transmits exactly beyond the size. */
  lemma SendTransmitsBeyondSize(s: State, rpcMethod: string, params: seq<string>)
    requires Inv(s)
    ensures var t, request := Step(s, Send(rpcMethod, params)), Request(s.nextId, rpcMethod, params);
            && (rpcMethod == "eth_chainId" && s.chainId.Some? ==> t == s)
            && (rpcMethod != "eth_chainId" || s.chainId.None? ==>
                  && t.enqueued == s.enqueued + [request]
                  && (|PendingRequests(s)| + 1 > s.tuner.size ==> t.wire == s.wire + [PendingRequests(s) + [request]] && t.pending == None)
                  && (|PendingRequests(s)| + 1 <= s.tuner.size ==> t.wire == s.wire && t.pending == Some(PendingRequests(s) + [request])))
  {
  }

  /** The timer, and a flush while it is set, transmit everything pending; a flush without it does nothing. */
  lemma FlushingTransmitsAll(s: State, e: Event)
    requires Inv(s) && Enabled(s, e) && (e.TimerFires? || e.Flush?)
    ensures s.pending.Some? ==>
              && Step(s, e).wire == s.wire + [s.pending.value]
              && Step(s, e).open == s.open + {|s.wire|}
              && Step(s, e).pending == None && !Step(s, e).timer
    ensures s.pending.None? ==> Step(s, e) == s
  {
  }

  /** A failed transport rejects every request of its batch with its message, and counts for nothing. */
  lemma TransportFailureRejects(s: State, k: nat, message: string, j: nat)
    requires Inv(s) && k in s.open && j < |s.wire[k]|
    ensures var t, id := Step(s, TransportFails(k, message)), s.wire[k][j].id;
            && id in t.settled && t.settled[id] == Rejected(Failure(message))
            && k !in t.open && t.tuner == s.tuner && t.chainId == s.chainId && t.wire == s.wire && t.pending == s.pending
    ensures forall id :: id in Step(s, TransportFails(k, message)).settled && id !in s.settled ==> IdIn(id, s.wire[k])
  {
    BatchIsFresh(s, k);
    RejectAllMeaning(s.settled, s.wire[k], Failure(message));
    assert IdIn(s.wire[k][j].id, s.wire[k]);
  }

  /** The sends of a run that the cache does not answer. */
  function SendsToAsk(size: int, events: seq<Event>): seq<Event> {
    if events == [] then []
    else
      var front, e := events[..|events| - 1], events[|events| - 1];
      SendsToAsk(size, front)
      + if e.Send? && (e.rpcMethod != "eth_chainId" || Run(Initial(size), front).chainId.None?) then [e] else []
  }

  /** In every run, the requests made carry the methods and parameters of these sends, in order. */
  lemma {:induction false} RequestsAreTheSends(size: int, events: seq<Event>)
    ensures var s, sends := Run(Initial(size), events), SendsToAsk(size, events);
            && |s.enqueued| == |sends|
            && forall i :: 0 <= i < |sends| ==>
                 sends[i].Send? && s.enqueued[i] == Request(42 + i, sends[i].rpcMethod, sends[i].params)
  {
    if events != [] {
      var front, e := events[..|events| - 1], events[|events| - 1];
      RequestsAreTheSends(size, front);
      RunsKeepInv(size, front);
      var s := Run(Initial(size), front);
      if e.Send? {
        SendTransmitsBeyondSize(s, e.rpcMethod, e.params);
      } else if Enabled(s, e) {
        assert Step(s, e).enqueued == s.enqueued;
      }
    }
  }
}
