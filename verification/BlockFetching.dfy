/** Choosing between the light and the full fetch path, and why the choice is safe (api.service.ethereum.ts). */
module BlockFetching {
  import opened Js
  import opened Ethereum
  import opened Grouping
  import opened Coverage
  import opened LightBlocks
  import opened LightSafety

  datatype FetchPath = FetchLight | FetchFull

  function Fetched(path: FetchPath, raw: RawBlock): BlockContent {
    if path.FetchLight? then FetchLightBlock(raw) else Full(raw)
  }

  /** The block's logs are in transaction order, as a node lists them. */
  ghost predicate Orderly(raw: RawBlock) {
    DistinctHashes(raw.transactions) && (raw.transactions == [] || InTransactionOrder(raw.transactions, raw.logs))
  }

  ghost predicate AllFromProject(active: seq<DataSource>, dataSources: seq<ProjectDs>, templates: seq<ProjectDs>) {
    forall ds :: ds in active ==> FromProject(ds, dataSources, templates)
  }

  /** On this path the same handlers run on the same items in the same order as on the full path. */
  ghost predicate LosesNothing(path: FetchPath, dataSources: seq<ProjectDs>, templates: seq<ProjectDs>) {
    forall raw, active :: Orderly(raw) && AllFromProject(active, dataSources, templates) ==>
      AllRuns(DispatchesOf(Fetched(path, raw), active)) == AllRuns(DispatchesOf(Full(raw), active))
  }

  class ApiService {
    var fetchBlocksFunction: FetchPath

    constructor ()
    {
      fetchBlocksFunction := FetchFull;
    }

    /**
     * Whatever path is chosen, nothing that runs is lost; the light one is chosen where the configuration
     * asks for it, no data source is custom, and it loses nothing.
     */
    method UpdateBlockFetching(skipTransactions: bool, dataSources: seq<ProjectDs>, templates: seq<ProjectDs>)
      modifies this
      ensures LosesNothing(fetchBlocksFunction, dataSources, templates)
      ensures fetchBlocksFunction == FetchLight <==>
              && skipTransactions && (forall d :: d in dataSources + templates ==> d.RuntimeDs?)
              && LosesNothing(FetchLight, dataSources, templates)
      ensures fetchBlocksFunction == FetchLight <==>
              skipTransactions && forall d :: d in dataSources + templates ==>
                d.RuntimeDs? && forall x :: x in d.ds.handlers ==> x.on.OnEvent?
    {
      var onlyEventHandlers := IsOnlyEventHandlers(dataSources, templates);
      fetchBlocksFunction := if skipTransactions && onlyEventHandlers then FetchLight else FetchFull;
      OnlyEventHandlersMeaning(dataSources, templates);
      if forall d :: d in dataSources + templates ==> d.RuntimeDs? {
        LightLosesNothingIff(dataSources, templates);
      }
    }
  }

  lemma OnlyEventHandlersMeaning(dataSources: seq<ProjectDs>, templates: seq<ProjectDs>)
    ensures IsOnlyEventHandlers(dataSources, templates) <==>
            forall d :: d in dataSources + templates ==> d.RuntimeDs? && OnlyEvents(d.ds)
  {
    forall d ensures !ContainsNonEventHandlers(d) <==> d.RuntimeDs? && OnlyEvents(d.ds) {
    }
    assert forall d :: d in dataSources + templates <==> d in dataSources || d in templates;
  }

  /** A block of one transaction and no logs: on the full path it is all that a handler gets. */
  const LoneTransaction := RawBlock(SomeHash, [Transaction(SomeHash, SomeAddress, Null, "0x", "0x0")], [])

  lemma LoneTransactionRuns(ds: DataSource)
    requires !OnlyEvents(ds)
    ensures AllRuns(DispatchesOf(FetchLightBlock(LoneTransaction), [ds])) == []
    ensures AllRuns(DispatchesOf(Full(LoneTransaction), [ds])) != []
  {
    var block := Full(LoneTransaction);
    var b, c := Dispatch(BlockItem(block), ds), Dispatch(CallItem(LoneTransaction.transactions[0]), ds);
    assert block.txs[..0] == [] && LogsOfTx([], SomeHash) == [];
    assert TransactionsOf(block.txs, [ds]) == [] + ToAll(c.item, [ds]) + EventsOf([], [ds]);
    assert DispatchesOf(block, [ds]) == [b, c];
    assert [b, c][..1] == [b] && [b][..0] == [];
    assert AllRuns([b]) == AllRuns([]) + RunsOf(b) && AllRuns([b, c]) == AllRuns([b]) + RunsOf(c);
    FilterEmpty(ds.handlers, (h: Handler) => HandlesKind(h.on, b.item));
    FilterEmpty(ds.handlers, (h: Handler) => HandlesKind(h.on, c.item));
    var x :| x in ds.handlers && !x.on.OnEvent?;
    assert HandlesKind(x.on, b.item) || HandlesKind(x.on, c.item);
  }

  /**
   * Among projects without custom data sources, the light path loses nothing, on every orderly block,
   * exactly when every handler of the data sources and templates is an event handler.
   */
  lemma LightLosesNothingIff(dataSources: seq<ProjectDs>, templates: seq<ProjectDs>)
    requires forall d :: d in dataSources + templates ==> d.RuntimeDs?
    ensures LosesNothing(FetchLight, dataSources, templates) <==> IsOnlyEventHandlers(dataSources, templates)
  {
    OnlyEventHandlersMeaning(dataSources, templates);
    if IsOnlyEventHandlers(dataSources, templates) {
      forall raw, active | Orderly(raw) && AllFromProject(active, dataSources, templates)
        ensures AllRuns(DispatchesOf(Fetched(FetchLight, raw), active)) == AllRuns(DispatchesOf(Full(raw), active))
      {
        LightModeRunsTheSame(raw, dataSources, templates, active);
      }
    } else {
      var d :| d in dataSources + templates && !OnlyEvents(d.ds);
      LoneTransactionRuns(d.ds);
      LoneTransactionIsOrderly();
      assert FromProject(d.ds, dataSources, templates);
      assert AllFromProject([d.ds], dataSources, templates);
      assert Fetched(FetchLight, LoneTransaction) == FetchLightBlock(LoneTransaction);
    }
  }

  lemma LoneTransactionIsOrderly()
    ensures Orderly(LoneTransaction)
  {
  }
}
