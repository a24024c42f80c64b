/** Groups with more addresses than the limit: neither generation asks for an address. */
module AddressLimit {
  import opened Js
  import opened Hex
  import opened Ethereum
  import opened RuntimeFilters
  import opened Grouping
  import opened Coverage
  import V1 = DictionaryV1
  import V1Soundness
  import V2 = DictionaryV2
  import V2Soundness

  // ---------- The first generation ----------

  /** Beyond the limit, whether an event entry selects a log does not depend on the log's address. */
  lemma V1EventsIgnoreAddress(h: Hashing, filter: Option<LogFilter>, addresses: seq<Text>, limit: int, log: Log, other: string)
    requires |addresses| > limit
    ensures V1.EntryAccepts(V1.EventEntry(h, filter, addresses, limit), LogRow(log)) <==>
            V1.EntryAccepts(V1.EventEntry(h, filter, addresses, limit), LogRow(log.(address := other)))
  {
    var moved := log.(address := other);
    V1.EventEntryMeaning(h, filter, addresses, limit, LogRow(log));
    V1.EventEntryMeaning(h, filter, addresses, limit, LogRow(moved));
    forall i: nat | Demands(TopicsOf(filter), i)
      ensures V1.Holds(V1.TopicCondition(h, TopicsOf(filter), i), LogRow(log)) ==
              V1.Holds(V1.TopicCondition(h, TopicsOf(filter), i), LogRow(moved))
    {
    }
  }

  /** Beyond the limit, an indexable event entry selects exactly the logs its handler would run on without an address. */
  lemma V1EventsBeyondLimit(h: Hashing, filter: Option<LogFilter>, addresses: seq<Text>, limit: int, log: Log)
    requires |addresses| > limit
    requires ValidHashing(h) && WellFormedLog(log) && V1Soundness.TopicsIndexable(h, TopicsOf(filter))
    ensures V1.EntryAccepts(V1.EventEntry(h, filter, addresses, limit), LogRow(log)) <==> AcceptsLog(h, log, filter, Undefined)
  {
    V1.EventEntryMeaning(h, filter, addresses, limit, LogRow(log));
    V1.EventEntryMeaning(h, filter, [Undefined], 1, LogRow(log));
    assert Undefined in [Undefined];
    assert !AddressesUsed([Undefined], 1);
    V1Soundness.EventEntryIsExact(h, filter, [Undefined], 1, log);
  }

  /** The recipient a filter asks for on its own. */
  predicate RecipientMeets(to: Text, tx: Transaction) {
    match to
    case Undefined => true
    case Null => !tx.to.Str?
    case Str(s) => s == "" || (tx.to.Str? && Lower(tx.to.s) == Lower(s))
  }

  /** Beyond the limit, a call entry takes its recipient from the filter alone. */
  lemma V1CallsBeyondLimit(h: Hashing, filter: Option<TxFilter>, addresses: seq<Text>, limit: int, tx: Transaction)
    requires |addresses| > limit
    ensures V1.EntryAccepts(V1.CallEntry(h, filter, addresses, limit), TxRow(tx)) <==>
            (filter.Some? ==>
               && RecipientMeets(filter.value.to, tx)
               && (Truthy(filter.value.from) ==> Lower(tx.from) == Lower(filter.value.from.s))
               && V1.AllHold(V1.FuncConditions(h, filter.value.func), TxRow(tx)))
  {
    V1.CallEntryMeaning(h, filter, addresses, limit, TxRow(tx));
    if filter.Some? {
      var f := filter.value;
      if Truthy(f.from) {
        V1.AllHoldOne(V1.FromConditions(f.from)[0], TxRow(tx));
      }
      if V1.ToConditions(f.to) != [] {
        V1.AllHoldOne(V1.ToConditions(f.to)[0], TxRow(tx));
      }
    }
  }

  // ---------- The second generation ----------

  /** Beyond the limit, whether an event record selects a log does not depend on the log's address. */
  lemma V2EventsIgnoreAddress(h: Hashing, filter: Option<LogFilter>, addresses: seq<Text>, limit: int, available: Option<set<V2.LogField>>, log: Log, other: string)
    requires |addresses| > limit
    ensures V2.SelectsLog(V2.EventCondition(h, filter, addresses, limit, available), log) <==>
            V2.SelectsLog(V2.EventCondition(h, filter, addresses, limit, available), log.(address := other))
  {
    V2Soundness.EventConditionMeaning(h, filter, addresses, limit, available, log);
    V2Soundness.EventConditionMeaning(h, filter, addresses, limit, available, log.(address := other));
  }

  /** Beyond the limit, a call record takes its recipient from the filter alone. */
  lemma V2CallsBeyondLimit(h: Hashing, filter: Option<TxFilter>, addresses: seq<Text>, limit: int, available: Option<set<V2.TxField>>, tx: Transaction)
    requires |addresses| > limit
    ensures V2.SelectsTx(V2.CallCondition(h, filter, addresses, limit, available), tx) <==>
            (filter.Some? ==>
               var f := filter.value;
               && (V2.Offers(available, V2.ToField) ==> if f.to == Str("") then tx.to == Str("") else RecipientMeets(f.to, tx))
               && (V2.Offers(available, V2.FromField) && Truthy(f.from) ==> Lower(tx.from) == Lower(f.from.s))
               && (V2.Offers(available, V2.DataField) && Truthy(f.func) ==> Selector(tx.input) == FunctionToSighash(h, f.func.s))
               && (V2.Offers(available, V2.TypeField) && Truthy(f.typ) ==> tx.typ == f.typ.s))
  {
    V2Soundness.CallConditionMeaning(h, filter, addresses, limit, available, tx);
  }

  // ---------- Whole queries ----------

  /**
   * A constrained event group beyond the limit: with a log, both queries select the same log of every other
   * contract, so one address too many turns the list off instead of cutting it short.
   */
  lemma GroupBeyondLimitSelectsEveryContract(h: Hashing, dataSources: seq<DataSource>, limit: int, available: V2.Available, g: Group, log: Log, other: string)
    requires g in GroupedDataSources(dataSources) && g.handler.on.OnEvent? && |g.addresses| > limit
    requires V1Soundness.GroupSelects(h, g, limit, LogRow(log)) || V2Soundness.GroupSelects(h, g, limit, available, LogRow(log))
    ensures V1Soundness.GroupSelects(h, g, limit, LogRow(log)) ==>
              V1.QueryAccepts(V1.Query(h, dataSources, limit), LogRow(log.(address := other)))
    ensures V2Soundness.GroupSelects(h, g, limit, available, LogRow(log)) ==>
              V2.QuerySelects(V2.Query(h, dataSources, limit, available), LogRow(log.(address := other)))
  {
    var row := LogRow(log.(address := other));
    V1EventsIgnoreAddress(h, g.handler.on.logFilter, g.addresses, limit, log, other);
    V2EventsIgnoreAddress(h, g.handler.on.logFilter, g.addresses, limit, available.logs, log, other);
    V1Soundness.QueryMeaning(h, dataSources, limit, row);
    V2Soundness.QueryMeaning(h, dataSources, limit, available, row);
    assert V1Soundness.GroupSelects(h, g, limit, row) == V1Soundness.GroupSelects(h, g, limit, LogRow(log));
    assert V2Soundness.GroupSelects(h, g, limit, available, row) == V2Soundness.GroupSelects(h, g, limit, available, LogRow(log));
  }
}
