/**
 * Light against full block indexing: what each fetch path hands to the indexer and what the indexer
 * dispatches (api.ethereum.ts, indexer.manager.ts, project.ts).
 */
module LightBlocks {
  import opened Js
  import opened Ethereum
  import opened RuntimeFilters
  import opened Grouping

  // ---------- Fetching ----------

  /** The node's answers for one block: its header hash, transactions and logs. */
  datatype RawBlock = RawBlock(hash: string, transactions: seq<Transaction>, logs: seq<Log>)

  datatype FullTransaction = FullTransaction(tx: Transaction, logs: seq<Log>)

  /** A light block carries transaction hashes only; both kinds carry the block's logs. */
  datatype BlockContent =
    | FullBlock(txs: seq<FullTransaction>, logs: seq<Log>)
    | LightBlock(hashes: seq<string>, logs: seq<Log>)

  function LogsOfTx(logs: seq<Log>, hash: string): seq<Log> {
    Filter(logs, (l: Log) => l.transactionHash == hash)
  }

  function AttachLogs(txs: seq<Transaction>, logs: seq<Log>): seq<FullTransaction> {
    seq(|txs|, i requires 0 <= i < |txs| => FullTransaction(txs[i], LogsOfTx(logs, txs[i].hash)))
  }

  predicate LogsBelong(raw: RawBlock) {
    forall l :: l in raw.logs ==> Lower(l.blockHash) == Lower(raw.hash)
  }

  method FetchBlock(raw: RawBlock) returns (r: Result<BlockContent>)
    ensures r == if LogsBelong(raw) then Ok(FullBlock(AttachLogs(raw.transactions, raw.logs), raw.logs))
                 else Thrown("Log BlockHash does not match block")
    ensures r.Thrown? <==> exists l :: l in raw.logs && Lower(l.blockHash) != Lower(raw.hash)
  {
    for i := 0 to |raw.logs|
      invariant forall j :: 0 <= j < i ==> Lower(raw.logs[j].blockHash) == Lower(raw.hash)
    {
      if Lower(raw.logs[i].blockHash) != Lower(raw.hash) {
        assert raw.logs[i] in raw.logs;
        return Thrown("Log BlockHash does not match block");
      }
    }
    return Ok(FullBlock(AttachLogs(raw.transactions, raw.logs), raw.logs));
  }

  /** The light path does not compare the logs' block hash. */
  function FetchLightBlock(raw: RawBlock): BlockContent {
    LightBlock(seq(|raw.transactions|, i requires 0 <= i < |raw.transactions| => raw.transactions[i].hash), raw.logs)
  }

  /** `isFullBlock`: a block without transactions looks the same either way and counts as light. */
  predicate IsFullBlock(block: BlockContent) {
    block.FullBlock? && block.txs != []
  }

  // ---------- Dispatching ----------

  datatype Item = BlockItem(block: BlockContent) | CallItem(tx: Transaction) | EventItem(log: Log)

  /** One piece of data handed to one data source. */
  datatype Dispatch = Dispatch(item: Item, ds: DataSource)

  function ToAll(item: Item, dataSources: seq<DataSource>): seq<Dispatch> {
    seq(|dataSources|, i requires 0 <= i < |dataSources| => Dispatch(item, dataSources[i]))
  }

  function EventsOf(logs: seq<Log>, dataSources: seq<DataSource>): seq<Dispatch> {
    if logs == [] then []
    else EventsOf(logs[..|logs| - 1], dataSources) + ToAll(EventItem(logs[|logs| - 1]), dataSources)
  }

  function TransactionsOf(txs: seq<FullTransaction>, dataSources: seq<DataSource>): seq<Dispatch> {
    if txs == [] then []
    else
      var last := txs[|txs| - 1];
      TransactionsOf(txs[..|txs| - 1], dataSources) + ToAll(CallItem(last.tx), dataSources) + EventsOf(last.logs, dataSources)
  }

  function DispatchesOf(block: BlockContent, dataSources: seq<DataSource>): seq<Dispatch> {
    if IsFullBlock(block) then ToAll(BlockItem(block), dataSources) + TransactionsOf(block.txs, dataSources)
    else EventsOf(block.logs, dataSources)
  }

  lemma OneMoreTransaction(txs: seq<FullTransaction>, i: nat, dataSources: seq<DataSource>)
    requires i < |txs|
    ensures TransactionsOf(txs[..i + 1], dataSources) ==
            TransactionsOf(txs[..i], dataSources) + (ToAll(CallItem(txs[i].tx), dataSources) + EventsOf(txs[i].logs, dataSources))
  {
    assert txs[..i + 1][..i] == txs[..i];
  }

  /** The indexer; `dispatched` records `indexData` calls in order. */
  class IndexerManager {
    var dispatched: seq<Dispatch>

    constructor ()
      ensures dispatched == []
    {
      dispatched := [];
    }

    method IndexItem(item: Item, dataSources: seq<DataSource>)
      modifies this
      ensures dispatched == old(dispatched) + ToAll(item, dataSources)
    {
      for i := 0 to |dataSources|
        invariant dispatched == old(dispatched) + ToAll(item, dataSources)[..i]
      {
        dispatched := dispatched + [Dispatch(item, dataSources[i])];
      }
    }

    method IndexEvents(logs: seq<Log>, dataSources: seq<DataSource>)
      modifies this
      ensures dispatched == old(dispatched) + EventsOf(logs, dataSources)
    {
      for i := 0 to |logs|
        invariant dispatched == old(dispatched) + EventsOf(logs[..i], dataSources)
      {
        assert logs[..i + 1][..i] == logs[..i];
        IndexItem(EventItem(logs[i]), dataSources);
      }
      assert logs[..|logs|] == logs;
    }

    method IndexTransaction(tx: FullTransaction, dataSources: seq<DataSource>)
      modifies this
      ensures dispatched == old(dispatched) + (ToAll(CallItem(tx.tx), dataSources) + EventsOf(tx.logs, dataSources))
    {
      IndexItem(CallItem(tx.tx), dataSources);
      IndexEvents(tx.logs, dataSources);
    }

    method IndexTransactions(txs: seq<FullTransaction>, dataSources: seq<DataSource>)
      modifies this
      ensures dispatched == old(dispatched) + TransactionsOf(txs, dataSources)
    {
      for i := 0 to |txs|
        invariant dispatched == old(dispatched) + TransactionsOf(txs[..i], dataSources)
      {
        OneMoreTransaction(txs, i, dataSources);
        IndexTransaction(txs[i], dataSources);
      }
      assert txs[..|txs|] == txs;
    }

    method IndexBlockData(block: BlockContent, dataSources: seq<DataSource>)
      modifies this
      ensures dispatched == old(dispatched) + DispatchesOf(block, dataSources)
    {
      if IsFullBlock(block) {
        IndexItem(BlockItem(block), dataSources);
        IndexTransactions(block.txs, dataSources);
      } else {
        IndexEvents(block.logs, dataSources);
      }
    }
  }

  // ---------- Choosing the fetch path ----------

  /** Runtime data sources list their handlers; a custom one always counts as having other handlers. */
  datatype ProjectDs = RuntimeDs(ds: DataSource) | CustomDs(ds: DataSource)

  predicate ContainsNonEventHandlers(d: ProjectDs) {
    match d
    case RuntimeDs(ds) => exists h :: h in ds.handlers && !h.on.OnEvent?
    case CustomDs(_) => true
  }

  predicate IsOnlyEventHandlers(dataSources: seq<ProjectDs>, templates: seq<ProjectDs>) {
    && !(exists d :: d in dataSources && ContainsNonEventHandlers(d))
    && !(exists d :: d in templates && ContainsNonEventHandlers(d))
  }

  // ---------- What runs ----------

  /** A handler run: the handler, its data source's address and the item. */
  datatype HandlerRun = HandlerRun(handler: Handler, address: Text, item: Item)

  predicate HandlesKind(on: HandlerKind, item: Item) {
    match item
    case BlockItem(_) => on.OnBlock?
    case CallItem(_) => on.OnCall?
    case EventItem(_) => on.OnEvent?
  }

  /** `indexData` hands the item to the data source's handlers of its kind, filters still to be applied. */
  function RunsOf(d: Dispatch): seq<HandlerRun> {
    var handlers := Filter(d.ds.handlers, (h: Handler) => HandlesKind(h.on, d.item));
    seq(|handlers|, i requires 0 <= i < |handlers| => HandlerRun(handlers[i], d.ds.address, d.item))
  }

  function AllRuns(ds: seq<Dispatch>): seq<HandlerRun> {
    if ds == [] then [] else AllRuns(ds[..|ds| - 1]) + RunsOf(ds[|ds| - 1])
  }
}
