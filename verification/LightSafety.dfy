/** Fetching without transactions leaves the event dispatches, and what event handlers run on, unchanged. */
module LightSafety {
  import opened Js
  import opened Ethereum
  import opened Grouping
  import opened LightBlocks

  // ---------- Logs by transaction ----------

  predicate DistinctHashes(txs: seq<Transaction>) {
    forall i, j :: 0 <= i < j < |txs| ==> txs[i].hash != txs[j].hash
  }

  /** The logs in the order full indexing visits them: transaction by transaction. */
  function ByTransaction(txs: seq<Transaction>, logs: seq<Log>): seq<Log> {
    if txs == [] then [] else LogsOfTx(logs, txs[0].hash) + ByTransaction(txs[1..], logs)
  }

  /** The position of the transaction with this hash; the number of transactions when there is none. */
  function Position(txs: seq<Transaction>, hash: string): nat {
    if txs == [] || txs[0].hash == hash then 0 else 1 + Position(txs[1..], hash)
  }

  predicate AllPresent(txs: seq<Transaction>, logs: seq<Log>) {
    forall i :: 0 <= i < |logs| ==> Position(txs, logs[i].transactionHash) < |txs|
  }

  /** Every log's transaction is in the block, and logs follow the order of the transactions. */
  predicate InTransactionOrder(txs: seq<Transaction>, logs: seq<Log>) {
    && AllPresent(txs, logs)
    && forall i, j :: 0 <= i < j < |logs| ==>
         Position(txs, logs[i].transactionHash) <= Position(txs, logs[j].transactionHash)
  }

  lemma {:induction false} PositionNames(txs: seq<Transaction>, hash: string)
    ensures Position(txs, hash) <= |txs|
    ensures Position(txs, hash) < |txs| ==> txs[Position(txs, hash)].hash == hash
    ensures Position(txs, hash) == |txs| ==> forall i :: 0 <= i < |txs| ==> txs[i].hash != hash
  {
    if !(txs == [] || txs[0].hash == hash) {
      PositionNames(txs[1..], hash);
      if Position(txs, hash) == |txs| {
        forall i | 0 <= i < |txs| ensures txs[i].hash != hash {
          if i > 0 {
            assert txs[1..][i - 1] == txs[i];
          }
        }
      }
    }
  }

  lemma {:induction false} InByTransaction(txs: seq<Transaction>, logs: seq<Log>, l: Log)
    ensures l in ByTransaction(txs, logs) <==> l in logs && Position(txs, l.transactionHash) < |txs|
  {
    if txs != [] {
      InByTransaction(txs[1..], logs, l);
      InFilter(logs, (x: Log) => x.transactionHash == txs[0].hash, l);
    }
  }

  /** A log that belongs to none of these transactions does not matter. */
  lemma {:induction false} SkipForeignLog(txs: seq<Transaction>, l: Log, logs: seq<Log>)
    requires forall i :: 0 <= i < |txs| ==> txs[i].hash != l.transactionHash
    ensures ByTransaction(txs, [l] + logs) == ByTransaction(txs, logs)
  {
    if txs != [] {
      SkipForeignLog(txs[1..], l, logs);
      assert ([l] + logs)[1..] == logs;
    }
  }

  /** No log belongs to this transaction. */
  lemma {:induction false} NoLogsOfTx(logs: seq<Log>, hash: string)
    requires forall l :: l in logs ==> l.transactionHash != hash
    ensures LogsOfTx(logs, hash) == []
  {
    if logs != [] {
      assert logs[0] in logs;
      NoLogsOfTx(logs[1..], hash);
    }
  }

  lemma {:induction false} OrderedLogsStay(txs: seq<Transaction>, logs: seq<Log>)
    requires DistinctHashes(txs) && InTransactionOrder(txs, logs)
    ensures ByTransaction(txs, logs) == logs
    decreases |txs| + |logs|
  {
    if txs == [] {
      assert logs == [];
    } else if logs != [] && logs[0].transactionHash == txs[0].hash {
      assert logs == [logs[0]] + logs[1..];
      assert InTransactionOrder(txs, logs[1..]);
      OrderedLogsStay(txs, logs[1..]);
      SkipForeignLog(txs[1..], logs[0], logs[1..]);
    } else {
      forall l | l in logs ensures l.transactionHash != txs[0].hash {
        var i :| 0 <= i < |logs| && logs[i] == l;
      }
      NoLogsOfTx(logs, txs[0].hash);
      forall i | 0 <= i < |logs| ensures Position(txs, logs[i].transactionHash) == 1 + Position(txs[1..], logs[i].transactionHash) {
        assert logs[i] in logs;
      }
      OrderedLogsStay(txs[1..], logs);
    }
  }

  lemma FirstGroupPosition(txs: seq<Transaction>, logs: seq<Log>, i: nat)
    requires txs != [] && i < |LogsOfTx(logs, txs[0].hash)|
    ensures Position(txs, LogsOfTx(logs, txs[0].hash)[i].transactionHash) == 0
  {
    InFilter(logs, (x: Log) => x.transactionHash == txs[0].hash, LogsOfTx(logs, txs[0].hash)[i]);
  }

  lemma LaterPosition(txs: seq<Transaction>, hash: string)
    requires txs != [] && DistinctHashes(txs) && Position(txs[1..], hash) < |txs| - 1
    ensures Position(txs, hash) == 1 + Position(txs[1..], hash)
  {
    PositionNames(txs[1..], hash);
  }

  lemma {:induction false} VisitedInOrder(txs: seq<Transaction>, logs: seq<Log>)
    requires DistinctHashes(txs)
    ensures InTransactionOrder(txs, ByTransaction(txs, logs))
  {
    if txs != [] {
      var first, rest := LogsOfTx(logs, txs[0].hash), ByTransaction(txs[1..], logs);
      VisitedInOrder(txs[1..], logs);
      forall i | 0 <= i < |first| ensures Position(txs, first[i].transactionHash) == 0 {
        FirstGroupPosition(txs, logs, i);
      }
      forall i | 0 <= i < |rest| ensures Position(txs, rest[i].transactionHash) == 1 + Position(txs[1..], rest[i].transactionHash) {
        LaterPosition(txs, rest[i].transactionHash);
      }
    }
  }

  /** Visiting logs transaction by transaction keeps their order exactly when they are in transaction order. */
  lemma RegroupingIsIdentityIff(txs: seq<Transaction>, logs: seq<Log>)
    requires DistinctHashes(txs)
    ensures ByTransaction(txs, logs) == logs <==> InTransactionOrder(txs, logs)
  {
    VisitedInOrder(txs, logs);
    if InTransactionOrder(txs, logs) {
      OrderedLogsStay(txs, logs);
    }
  }

  /** One more log is visited once if its transaction is in the block, and not at all otherwise. */
  lemma {:induction false} OneMoreLog(txs: seq<Transaction>, l: Log, logs: seq<Log>)
    requires DistinctHashes(txs)
    ensures multiset(ByTransaction(txs, [l] + logs)) ==
            (if Position(txs, l.transactionHash) < |txs| then multiset{l} else multiset{}) + multiset(ByTransaction(txs, logs))
  {
    if txs != [] {
      assert ([l] + logs)[1..] == logs;
      if txs[0].hash == l.transactionHash {
        SkipForeignLog(txs[1..], l, logs);
      } else {
        OneMoreLog(txs[1..], l, logs);
      }
    }
  }

  /** Full indexing visits every log once, in some order, exactly when each log's transaction is in the block. */
  lemma {:induction false} RegroupingIsPermutationIff(txs: seq<Transaction>, logs: seq<Log>)
    requires DistinctHashes(txs)
    ensures multiset(ByTransaction(txs, logs)) == multiset(logs) <==> AllPresent(txs, logs)
  {
    if AllPresent(txs, logs) {
      AllVisited(txs, logs);
    } else {
      var i :| 0 <= i < |logs| && !(Position(txs, logs[i].transactionHash) < |txs|);
      InByTransaction(txs, logs, logs[i]);
      assert logs[i] in multiset(logs) && logs[i] !in multiset(ByTransaction(txs, logs));
    }
  }

  lemma {:induction false} AllVisited(txs: seq<Transaction>, logs: seq<Log>)
    requires DistinctHashes(txs) && AllPresent(txs, logs)
    ensures multiset(ByTransaction(txs, logs)) == multiset(logs)
  {
    if logs == [] {
      NothingToVisit(txs);
    } else {
      assert logs == [logs[0]] + logs[1..];
      AllVisited(txs, logs[1..]);
      OneMoreLog(txs, logs[0], logs[1..]);
    }
  }

  lemma {:induction false} NothingToVisit(txs: seq<Transaction>)
    ensures ByTransaction(txs, []) == []
  {
    if txs != [] {
      NothingToVisit(txs[1..]);
    }
  }

  // ---------- Event dispatches ----------

  function IsEvent(d: Dispatch): bool {
    d.item.EventItem?
  }

  function EventDispatches(ds: seq<Dispatch>): seq<Dispatch> {
    Filter(ds, IsEvent)
  }

  lemma {:induction false} FilterAll<T>(s: seq<T>, keep: T -> bool)
    requires forall x :: x in s ==> keep(x)
    ensures Filter(s, keep) == s
  {
    if s != [] {
      assert s[0] in s && s == [s[0]] + s[1..];
      FilterAll(s[1..], keep);
    }
  }

  lemma {:induction false} EventsAreEvents(logs: seq<Log>, dataSources: seq<DataSource>)
    ensures EventDispatches(EventsOf(logs, dataSources)) == EventsOf(logs, dataSources)
  {
    if logs != [] {
      var last := ToAll(EventItem(logs[|logs| - 1]), dataSources);
      EventsAreEvents(logs[..|logs| - 1], dataSources);
      FilterConcat(EventsOf(logs[..|logs| - 1], dataSources), last, IsEvent);
      FilterAll(last, IsEvent);
    }
  }

  lemma {:induction false} EventsConcat(a: seq<Log>, b: seq<Log>, dataSources: seq<DataSource>)
    ensures EventsOf(a + b, dataSources) == EventsOf(a, dataSources) + EventsOf(b, dataSources)
  {
    if b == [] {
      assert a + b == a;
    } else {
      assert (a + b)[..|a + b| - 1] == a + b[..|b| - 1];
      EventsConcat(a, b[..|b| - 1], dataSources);
    }
  }

  lemma {:induction false} ByTransactionSnoc(txs: seq<Transaction>, logs: seq<Log>)
    requires txs != []
    ensures ByTransaction(txs, logs) == ByTransaction(txs[..|txs| - 1], logs) + LogsOfTx(logs, txs[|txs| - 1].hash)
  {
    if |txs| > 1 {
      ByTransactionSnoc(txs[1..], logs);
      assert txs[1..][..|txs| - 2] == txs[..|txs| - 1][1..];
    }
  }

  lemma OneTransactionEvents(before: seq<Dispatch>, tx: Transaction, logs: seq<Log>, dataSources: seq<DataSource>)
    ensures EventDispatches(before + ToAll(CallItem(tx), dataSources) + EventsOf(logs, dataSources)) ==
            EventDispatches(before) + EventsOf(logs, dataSources)
  {
    var call := ToAll(CallItem(tx), dataSources);
    FilterConcat(before + call, EventsOf(logs, dataSources), IsEvent);
    FilterConcat(before, call, IsEvent);
    FilterEmpty(call, IsEvent);
    EventsAreEvents(logs, dataSources);
  }

  lemma {:induction false} TransactionEvents(txs: seq<Transaction>, logs: seq<Log>, dataSources: seq<DataSource>)
    ensures EventDispatches(TransactionsOf(AttachLogs(txs, logs), dataSources)) == EventsOf(ByTransaction(txs, logs), dataSources)
  {
    if txs != [] {
      var front, last := txs[..|txs| - 1], txs[|txs| - 1];
      TransactionEvents(front, logs, dataSources);
      ByTransactionSnoc(txs, logs);
      assert AttachLogs(txs, logs)[..|txs| - 1] == AttachLogs(front, logs);
      OneTransactionEvents(TransactionsOf(AttachLogs(front, logs), dataSources), last, LogsOfTx(logs, last.hash), dataSources);
      EventsConcat(ByTransaction(front, logs), LogsOfTx(logs, last.hash), dataSources);
    }
  }

  function Full(raw: RawBlock): BlockContent {
    FullBlock(AttachLogs(raw.transactions, raw.logs), raw.logs)
  }

  /** The logs in the order full indexing dispatches them. */
  function VisitedLogs(raw: RawBlock): seq<Log> {
    if raw.transactions == [] then raw.logs else ByTransaction(raw.transactions, raw.logs)
  }

  lemma FullBlockEvents(raw: RawBlock, dataSources: seq<DataSource>)
    ensures EventDispatches(DispatchesOf(Full(raw), dataSources)) == EventsOf(VisitedLogs(raw), dataSources)
  {
    if raw.transactions == [] {
      EventsAreEvents(raw.logs, dataSources);
    } else {
      var blockItems := ToAll(BlockItem(Full(raw)), dataSources);
      FilterConcat(blockItems, TransactionsOf(Full(raw).txs, dataSources), IsEvent);
      FilterEmpty(blockItems, IsEvent);
      TransactionEvents(raw.transactions, raw.logs, dataSources);
    }
  }

  lemma {:induction false} EventsDetermineLogs(a: seq<Log>, b: seq<Log>, dataSources: seq<DataSource>)
    requires dataSources != [] && EventsOf(a, dataSources) == EventsOf(b, dataSources)
    ensures a == b
  {
    if a != [] && b != [] {
      var x, y := ToAll(EventItem(a[|a| - 1]), dataSources), ToAll(EventItem(b[|b| - 1]), dataSources);
      var p, q := EventsOf(a[..|a| - 1], dataSources), EventsOf(b[..|b| - 1], dataSources);
      assert p + x == q + y && |x| == |y|;
      assert p == (p + x)[..|p|] && q == (q + y)[..|q|];
      assert x == (p + x)[|p|..] && y == (q + y)[|q|..];
      assert x[0] == y[0];
      EventsDetermineLogs(a[..|a| - 1], b[..|b| - 1], dataSources);
      assert a == a[..|a| - 1] + [a[|a| - 1]] && b == b[..|b| - 1] + [b[|b| - 1]];
    }
  }

  /**
   * The light block dispatches the same events in the same order as the full block exactly when the block
   * has no transactions or its logs are in transaction order.
   */
  lemma LightKeepsEventSequenceIff(raw: RawBlock, dataSources: seq<DataSource>)
    requires DistinctHashes(raw.transactions) && dataSources != []
    ensures DispatchesOf(FetchLightBlock(raw), dataSources) == EventDispatches(DispatchesOf(Full(raw), dataSources))
            <==> raw.transactions == [] || InTransactionOrder(raw.transactions, raw.logs)
  {
    FullBlockEvents(raw, dataSources);
    RegroupingIsIdentityIff(raw.transactions, raw.logs);
    if EventsOf(raw.logs, dataSources) == EventsOf(VisitedLogs(raw), dataSources) {
      EventsDetermineLogs(raw.logs, VisitedLogs(raw), dataSources);
    }
  }

  // ---------- Handler runs ----------

  lemma {:induction false} RunsConcat(a: seq<Dispatch>, b: seq<Dispatch>)
    ensures AllRuns(a + b) == AllRuns(a) + AllRuns(b)
  {
    if b == [] {
      assert a + b == a;
    } else {
      assert (a + b)[..|a + b| - 1] == a + b[..|b| - 1];
      RunsConcat(a, b[..|b| - 1]);
    }
  }

  predicate OnlyEvents(ds: DataSource) {
    forall h :: h in ds.handlers ==> h.on.OnEvent?
  }

  lemma RunsNothing(d: Dispatch)
    requires OnlyEvents(d.ds) && !IsEvent(d)
    ensures RunsOf(d) == []
  {
    FilterEmpty(d.ds.handlers, (h: Handler) => HandlesKind(h.on, d.item));
  }

  /** Data sources with event handlers only run nothing on blocks and transactions. */
  lemma {:induction false} OnlyEventDispatchesRun(ds: seq<Dispatch>)
    requires forall d :: d in ds ==> OnlyEvents(d.ds)
    ensures AllRuns(ds) == AllRuns(EventDispatches(ds))
  {
    if ds != [] {
      var front, last := ds[..|ds| - 1], ds[|ds| - 1];
      assert ds == front + [last];
      OnlyEventDispatchesRun(front);
      FilterConcat(front, [last], IsEvent);
      assert last in ds && [last][1..] == [];
      if !IsEvent(last) {
        RunsNothing(last);
        assert EventDispatches(ds) == EventDispatches(front);
      } else {
        assert EventDispatches(ds) == EventDispatches(front) + [last];
      }
    }
  }

  lemma {:induction false} DispatchesGoToDataSources(raw: RawBlock, dataSources: seq<DataSource>)
    ensures forall d :: d in DispatchesOf(Full(raw), dataSources) ==> d.ds in dataSources
  {
    if raw.transactions == [] {
      EventsGoToDataSources(raw.logs, dataSources);
    } else {
      TransactionsGoToDataSources(Full(raw).txs, dataSources);
    }
  }

  lemma {:induction false} EventsGoToDataSources(logs: seq<Log>, dataSources: seq<DataSource>)
    ensures forall d :: d in EventsOf(logs, dataSources) ==> d.ds in dataSources
  {
    if logs != [] {
      EventsGoToDataSources(logs[..|logs| - 1], dataSources);
    }
  }

  lemma {:induction false} TransactionsGoToDataSources(txs: seq<FullTransaction>, dataSources: seq<DataSource>)
    ensures forall d :: d in TransactionsOf(txs, dataSources) ==> d.ds in dataSources
  {
    if txs != [] {
      TransactionsGoToDataSources(txs[..|txs| - 1], dataSources);
      EventsGoToDataSources(txs[|txs| - 1].logs, dataSources);
    }
  }

  /** A data source the indexer works on comes from the project or from one of its templates. */
  predicate FromProject(ds: DataSource, projectDs: seq<ProjectDs>, templates: seq<ProjectDs>) {
    exists d :: d in projectDs + templates && d.ds.handlers == ds.handlers
  }

  lemma OnlyEventProjects(projectDs: seq<ProjectDs>, templates: seq<ProjectDs>, ds: DataSource)
    requires IsOnlyEventHandlers(projectDs, templates) && FromProject(ds, projectDs, templates)
    ensures OnlyEvents(ds)
  {
    var d :| d in projectDs + templates && d.ds.handlers == ds.handlers;
    assert !ContainsNonEventHandlers(d);
  }

  /**
   * Where light fetching is chosen it changes nothing that runs: the same handlers run on the same items
   * in the same order as from the full block, given logs in transaction order.
   */
  lemma LightModeRunsTheSame(raw: RawBlock, projectDs: seq<ProjectDs>, templates: seq<ProjectDs>, dataSources: seq<DataSource>)
    requires IsOnlyEventHandlers(projectDs, templates)
    requires forall ds :: ds in dataSources ==> FromProject(ds, projectDs, templates)
    requires DistinctHashes(raw.transactions)
    requires raw.transactions == [] || InTransactionOrder(raw.transactions, raw.logs)
    ensures AllRuns(DispatchesOf(FetchLightBlock(raw), dataSources)) == AllRuns(DispatchesOf(Full(raw), dataSources))
  {
    OnlyEventsRun(raw, projectDs, templates, dataSources);
    RegroupingIsIdentityIff(raw.transactions, raw.logs);
  }

  lemma OnlyEventsRun(raw: RawBlock, projectDs: seq<ProjectDs>, templates: seq<ProjectDs>, dataSources: seq<DataSource>)
    requires IsOnlyEventHandlers(projectDs, templates)
    requires forall ds :: ds in dataSources ==> FromProject(ds, projectDs, templates)
    ensures AllRuns(DispatchesOf(Full(raw), dataSources)) == AllRuns(EventsOf(VisitedLogs(raw), dataSources))
  {
    DispatchesGoToDataSources(raw, dataSources);
    forall d | d in DispatchesOf(Full(raw), dataSources) ensures OnlyEvents(d.ds) {
      OnlyEventProjects(projectDs, templates, d.ds);
    }
    OnlyEventDispatchesRun(DispatchesOf(Full(raw), dataSources));
    FullBlockEvents(raw, dataSources);
  }

  /** Without the ordering the same handlers still run on the same items, as often, if every log's transaction is in the block. */
  lemma LightModeRunsTheSameItems(raw: RawBlock, projectDs: seq<ProjectDs>, templates: seq<ProjectDs>, dataSources: seq<DataSource>)
    requires IsOnlyEventHandlers(projectDs, templates)
    requires forall ds :: ds in dataSources ==> FromProject(ds, projectDs, templates)
    requires DistinctHashes(raw.transactions)
    requires raw.transactions == [] || AllPresent(raw.transactions, raw.logs)
    ensures multiset(AllRuns(DispatchesOf(FetchLightBlock(raw), dataSources))) ==
            multiset(AllRuns(DispatchesOf(Full(raw), dataSources)))
  {
    OnlyEventsRun(raw, projectDs, templates, dataSources);
    RegroupingIsPermutationIff(raw.transactions, raw.logs);
    PermutedLogsRunTheSame(raw.logs, VisitedLogs(raw), dataSources);
  }

  lemma {:induction false} PermutedLogsRunTheSame(a: seq<Log>, b: seq<Log>, dataSources: seq<DataSource>)
    requires multiset(a) == multiset(b)
    ensures multiset(AllRuns(EventsOf(a, dataSources))) == multiset(AllRuns(EventsOf(b, dataSources)))
    decreases |a|
  {
    if a == [] {
      assert |multiset(b)| == |b|;
    } else {
      var x := a[|a| - 1];
      assert a == a[..|a| - 1] + [x];
      assert x in multiset(b);
      var i :| 0 <= i < |b| && b[i] == x;
      var c := b[..i] + b[i + 1..];
      assert b == b[..i] + ([x] + b[i + 1..]);
      assert multiset(a[..|a| - 1]) == multiset(a) - multiset{x};
      assert multiset(c) == multiset(b) - multiset{x} by {
        assert multiset(b) == multiset(b[..i]) + multiset{x} + multiset(b[i + 1..]);
      }
      PermutedLogsRunTheSame(a[..|a| - 1], c, dataSources);
      MovedLogRunsTheSame(b[..i], x, b[i + 1..], dataSources);
      RunsConcat(EventsOf(a[..|a| - 1], dataSources), ToAll(EventItem(x), dataSources));
    }
  }

  lemma MovedLogRunsTheSame(p: seq<Log>, x: Log, q: seq<Log>, dataSources: seq<DataSource>)
    ensures multiset(AllRuns(EventsOf(p + ([x] + q), dataSources))) ==
            multiset(AllRuns(EventsOf(p + q, dataSources))) + multiset(AllRuns(ToAll(EventItem(x), dataSources)))
  {
    EventsConcat(p, [x] + q, dataSources);
    EventsConcat([x], q, dataSources);
    EventsConcat(p, q, dataSources);
    assert [x][..0] == [];
    var ps, xs, qs := EventsOf(p, dataSources), ToAll(EventItem(x), dataSources), EventsOf(q, dataSources);
    assert EventsOf([x], dataSources) == xs;
    RunsConcat(ps, xs + qs);
    RunsConcat(xs, qs);
    RunsConcat(ps, qs);
  }
}
