/** What every interleaving of the batching provider keeps, and how a response settles its batch. */
module BatchSafety {
  import opened Js
  import opened BatchTuning
  import opened BatchProtocol

  // ---------- Conservation ----------

  /** Transmitted batches followed by the pending one are the requests made, in order. */
  ghost predicate Conserved(s: State) {
    Flatten(s.wire) + PendingRequests(s) == s.enqueued
  }

  /** Requests are numbered consecutively from the first identifier. */
  ghost predicate Numbered(s: State) {
    && s.nextId == FIRST_ID + |s.enqueued|
    && forall i :: 0 <= i < |s.enqueued| ==> s.enqueued[i].id == FIRST_ID + i
  }

  /** The timer is set exactly when something is pending, so no batch is ever empty. */
  ghost predicate TimerGuardsPending(s: State) {
    && (s.timer <==> s.pending.Some?)
    && (s.pending.Some? ==> s.pending.value != [])
    && (forall k :: 0 <= k < |s.wire| ==> s.wire[k] != [])
  }

  ghost predicate IdIn(id: nat, batch: seq<Request>) {
    exists j :: 0 <= j < |batch| && batch[j].id == id
  }

  /** A promise is settled exactly when its batch was answered or failed. */
  ghost predicate SettledExactly(s: State) {
    && (forall k :: k in s.open ==> k < |s.wire|)
    && (forall id :: id in s.settled ==> exists k: nat :: k < |s.wire| && k !in s.open && IdIn(id, s.wire[k]))
    && (forall k: nat, id :: k < |s.wire| && k !in s.open && IdIn(id, s.wire[k]) ==> id in s.settled)
  }

  ghost predicate Inv(s: State) {
    Conserved(s) && Numbered(s) && TimerGuardsPending(s) && SettledExactly(s) && MidWindow(s.tuner)
  }

  /** Where a batch's requests stand in the sequence of all requests. */
  function Offset(wire: seq<seq<Request>>, k: nat): nat
    requires k <= |wire|
  {
    if k == 0 then 0 else Offset(wire, k - 1) + |wire[k - 1]|
  }

  lemma {:induction false} OffsetIsPosition(wire: seq<seq<Request>>, k: nat)
    requires k <= |wire|
    ensures Offset(wire, k) == |Flatten(wire[..k])|
  {
    if k > 0 {
      OffsetIsPosition(wire, k - 1);
      assert wire[..k] == wire[..k - 1] + [wire[k - 1]];
      FlattenAppend(wire[..k - 1], wire[k - 1]);
    }
  }

  lemma {:induction false} FlattenSplits<T>(a: seq<seq<T>>, b: seq<seq<T>>)
    ensures Flatten(a + b) == Flatten(a) + Flatten(b)
  {
    if a == [] {
      assert a + b == b;
    } else {
      assert (a + b)[1..] == a[1..] + b;
      FlattenSplits(a[1..], b);
    }
  }

  /** The j-th request of batch k has the identifier its position in send order gives it. */
  lemma BatchIds(s: State, k: nat, j: nat)
    requires Conserved(s) && Numbered(s) && k < |s.wire| && j < |s.wire[k]|
    ensures s.wire[k][j].id == FIRST_ID + Offset(s.wire, k) + j
  {
    OffsetIsPosition(s.wire, k);
    var a, b := s.wire[..k], s.wire[k + 1..];
    assert s.wire == a + ([s.wire[k]] + b);
    FlattenSplits(a, [s.wire[k]] + b);
    FlattenSplits([s.wire[k]], b);
    assert Flatten([s.wire[k]]) == s.wire[k];
    assert s.enqueued[Offset(s.wire, k) + j] == s.wire[k][j];
  }

  lemma {:induction false} OffsetGrows(wire: seq<seq<Request>>, k: nat, l: nat)
    requires k < l <= |wire|
    ensures Offset(wire, k) + |wire[k]| <= Offset(wire, l)
    decreases l
  {
    if k + 1 < l {
      OffsetGrows(wire, k, l - 1);
    }
  }

  /** An identifier belongs to one batch only. */
  lemma IdsAreUnique(s: State, id: nat, k: nat, l: nat)
    requires Conserved(s) && Numbered(s) && k < |s.wire| && l < |s.wire|
    requires IdIn(id, s.wire[k]) && IdIn(id, s.wire[l])
    ensures k == l
  {
    var i :| 0 <= i < |s.wire[k]| && s.wire[k][i].id == id;
    var j :| 0 <= j < |s.wire[l]| && s.wire[l][j].id == id;
    BatchIds(s, k, i);
    BatchIds(s, l, j);
    if k < l {
      OffsetGrows(s.wire, k, l);
    } else if l < k {
      OffsetGrows(s.wire, l, k);
    }
  }

  // ---------- Settling a batch ----------

  lemma {:induction false} RejectAllMeaning(settled: map<nat, Settlement>, batch: seq<Request>, reason: Reason)
    ensures forall id :: id in RejectAll(settled, batch, reason) <==> id in settled || IdIn(id, batch)
    ensures forall id :: id in settled ==> RejectAll(settled, batch, reason)[id] == settled[id]
    ensures forall id :: id in RejectAll(settled, batch, reason) && id !in settled ==>
              RejectAll(settled, batch, reason)[id] == Rejected(reason)
  {
    if batch != [] {
      var front, last := batch[..|batch| - 1], batch[|batch| - 1];
      RejectAllMeaning(settled, front, reason);
      assert forall id :: IdIn(id, batch) <==> IdIn(id, front) || id == last.id by {
        forall id | IdIn(id, front) ensures IdIn(id, batch) {
          var j :| 0 <= j < |front| && front[j].id == id;
          assert batch[j].id == id;
        }
        assert batch[|batch| - 1].id == last.id;
      }
    }
  }

  /** How the reader settles the j-th request: by its own payload, unless it threw at or before it. */
  function Outcome(batch: seq<Request>, payloads: seq<Payload>, j: nat): Settlement
    requires j < |batch|
  {
    if ThrowsWithin(batch, payloads, j + 1) then Rejected(Unreadable)
    else SettlementFor(LastWithId(payloads, batch[j].id), batch[j].id)
  }

  ghost predicate DistinctIds(batch: seq<Request>) {
    forall i, j :: 0 <= i < j < |batch| ==> batch[i].id != batch[j].id
  }

  lemma {:induction false} DeliverFirstThrows(p: Progress, batch: seq<Request>, payloads: seq<Payload>, n: nat)
    requires !p.threw && n <= |batch|
    ensures DeliverFirst(p, batch, payloads, n).threw <==> ThrowsWithin(batch, payloads, n)
  {
    if n > 0 {
      DeliverFirstThrows(p, batch, payloads, n - 1);
    }
  }

  /** The first turns settle only requests they read, and never again what was settled before. */
  lemma {:induction false} DeliverFirstFrame(p: Progress, batch: seq<Request>, payloads: seq<Payload>, n: nat)
    requires n <= |batch|
    ensures var q := DeliverFirst(p, batch, payloads, n).settled;
            && (forall id :: id in p.settled ==> id in q && q[id] == p.settled[id])
            && (forall id :: id in q ==> id in p.settled || exists j :: 0 <= j < n && batch[j].id == id)
  {
    if n > 0 {
      DeliverFirstFrame(p, batch, payloads, n - 1);
    }
  }

  /** A turn before the throw settles its request as `Outcome` says; a turn at or after it settles nothing. */
  lemma {:induction false} DeliverFirstSettles(p: Progress, batch: seq<Request>, payloads: seq<Payload>, n: nat, j: nat)
    requires !p.threw && DistinctIds(batch) && j < n <= |batch|
    requires forall i :: 0 <= i < |batch| ==> batch[i].id !in p.settled
    ensures var q := DeliverFirst(p, batch, payloads, n).settled;
            if ThrowsWithin(batch, payloads, j + 1) then batch[j].id !in q
            else batch[j].id in q && q[batch[j].id] == Outcome(batch, payloads, j)
  {
    DeliverFirstThrows(p, batch, payloads, n - 1);
    if j < n - 1 {
      DeliverFirstSettles(p, batch, payloads, n - 1, j);
      assert batch[j].id != batch[n - 1].id;
    } else {
      DeliverFirstFrame(p, batch, payloads, n - 1);
      assert batch[j].id !in DeliverFirst(p, batch, payloads, n - 1).settled;
    }
  }

  lemma {:induction false} ThrowingLasts(batch: seq<Request>, payloads: seq<Payload>, m: nat, n: nat)
    requires m <= n <= |batch|
    ensures ThrowsWithin(batch, payloads, m) ==> ThrowsWithin(batch, payloads, n)
  {
    if m < n {
      ThrowingLasts(batch, payloads, m, n - 1);
    }
  }

  /** Reading an array settles every request of the batch, each as `Outcome` says, and nothing else. */
  lemma ReadingSettlesBatch(chainId: Option<string>, settled: map<nat, Settlement>, batch: seq<Request>, payloads: seq<Payload>)
    requires DistinctIds(batch)
    requires forall j :: 0 <= j < |batch| ==> batch[j].id !in settled
    ensures var t := ReadArray(chainId, settled, batch, payloads).settled;
            && (forall id :: id in t <==> id in settled || IdIn(id, batch))
            && (forall id :: id in settled ==> t[id] == settled[id])
            && (forall j :: 0 <= j < |batch| ==> batch[j].id in t && t[batch[j].id] == Outcome(batch, payloads, j))
  {
    var p := Progress(chainId, settled, false);
    var q := DeliverFirst(p, batch, payloads, |batch|);
    DeliverFirstThrows(p, batch, payloads, |batch|);
    DeliverFirstFrame(p, batch, payloads, |batch|);
    RejectAllMeaning(q.settled, batch, Unreadable);
    forall j | 0 <= j < |batch|
      ensures IdIn(batch[j].id, batch)
      ensures if ThrowsWithin(batch, payloads, j + 1) then q.threw && batch[j].id !in q.settled
              else batch[j].id in q.settled && q.settled[batch[j].id] == Outcome(batch, payloads, j)
    {
      DeliverFirstSettles(p, batch, payloads, |batch|, j);
      ThrowingLasts(batch, payloads, j + 1, |batch|);
    }
  }
}
