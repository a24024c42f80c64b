/** The second-generation query against the runtime filters, and against the first generation. */
module V2Soundness {
  import opened Js
  import opened Hex
  import opened Ethereum
  import opened RuntimeFilters
  import opened Grouping
  import opened Coverage
  import opened DictionaryV2
  import V1 = DictionaryV1
  import V1Soundness

  // ---------- One group ----------

  /** Every offered position that compares is reached by the runtime loop and written as the index stores topics. */
  predicate TopicsIndexable(h: Hashing, topics: seq<Text>, available: Option<set<LogField>>) {
    || NeverMatches(h, topics)
    || forall i: nat :: i < MAX_TOPICS && ComparesAt(topics, i) && Offers(available, TopicField(i)) ==>
         Reached(topics, i) && IsTopic(Wanted(h, topics, i))
  }

  /** A filter that can never match needs nothing; otherwise its offered parts are comparable. */
  predicate CallIndexable(h: Hashing, filter: Option<TxFilter>, addresses: seq<Text>, limit: int, available: Option<set<TxField>>) {
    NeverCalled(h, filter) || CallComparable(h, filter, addresses, limit, available)
  }

  predicate CallComparable(h: Hashing, filter: Option<TxFilter>, addresses: seq<Text>, limit: int, available: Option<set<TxField>>) {
    && (Offers(available, ToField) ==>
          if AddressesUsed(addresses, limit) then RecipientAgrees(filter, addresses)
          else filter.Some? ==> filter.value.to != Str(""))
    && (Offers(available, DataField) && filter.Some? ==> NamesASelector(h, filter.value.func))
  }

  /** What the condition compiled for a group selects; an unconstrained group compiles to none. */
  predicate GroupSelects(h: Hashing, g: Group, limit: int, available: Available, row: Row) {
    Constrained(g) &&
    match g.handler.on
    case OnEvent(filter) => row.LogRow? && SelectsLog(EventCondition(h, filter, g.addresses, limit, available.logs), row.log)
    case OnCall(filter) => row.TxRow? && SelectsTx(CallCondition(h, filter, g.addresses, limit, available.transactions), row.tx)
    case OnBlock(_) => false
  }

  predicate Indexable(h: Hashing, g: Group, limit: int, available: Available) {
    match g.handler.on
    case OnBlock(_) => true
    case OnCall(filter) => CallIndexable(h, filter, g.addresses, limit, available.transactions)
    case OnEvent(filter) => TopicsIndexable(h, TopicsOf(filter), available.logs)
  }

  lemma UsedAddressesMeaning(addresses: seq<Text>, limit: int)
    ensures UsedAddresses(addresses, limit) != [] <==> AddressesUsed(addresses, limit)
  {
    if AddressesUsed(addresses, limit) {
      assert addresses[0] in addresses;
    }
  }

  lemma EventConditionMeaning(h: Hashing, filter: Option<LogFilter>, addresses: seq<Text>, limit: int, available: Option<set<LogField>>, log: Log)
    ensures SelectsLog(EventCondition(h, filter, addresses, limit, available), log) <==>
            && (Offers(available, AddressField) && AddressesUsed(addresses, limit) ==> Lower(log.address) in LowerValid(addresses))
            && (forall i: nat :: ComparesAt(TopicsOf(filter), i) && Offers(available, TopicField(i)) ==>
                  i < |log.topics| && log.topics[i] == Wanted(h, TopicsOf(filter), i))
  {
    UsedAddressesMeaning(addresses, limit);
    var topics := TopicsOf(filter);
    var c := EventCondition(h, filter, addresses, limit, available);
    assert forall i: nat :: i in c.topics <==> Demands(topics, i) && Offers(available, TopicField(i));
    forall i: nat | i in c.topics
      ensures AllowsTopic(c.topics[i], log, i) <==>
              (ComparesAt(topics, i) ==> i < |log.topics| && log.topics[i] == Wanted(h, topics, i))
    {
    }
  }

  lemma CallConditionMeaning(h: Hashing, filter: Option<TxFilter>, addresses: seq<Text>, limit: int, available: Option<set<TxField>>, tx: Transaction)
    ensures SelectsTx(CallCondition(h, filter, addresses, limit, available), tx) <==>
            && (Offers(available, ToField) ==>
                  if AddressesUsed(addresses, limit) then tx.to.Str? && Lower(tx.to.s) in LowerValid(addresses)
                  else filter.Some? ==>
                    match filter.value.to
                    case Undefined => true
                    case Null => !tx.to.Str?
                    case Str(s) => tx.to.Str? && Lower(tx.to.s) == Lower(s))
            && (Offers(available, FromField) && filter.Some? && Truthy(filter.value.from) ==> Lower(tx.from) == Lower(filter.value.from.s))
            && (Offers(available, DataField) && filter.Some? && Truthy(filter.value.func) ==> Selector(tx.input) == FunctionToSighash(h, filter.value.func.s))
            && (Offers(available, TypeField) && filter.Some? && Truthy(filter.value.typ) ==> tx.typ == filter.value.typ.s)
  {
    UsedAddressesMeaning(addresses, limit);
    var used := UsedAddresses(addresses, limit);
    var c := CallCondition(h, filter, addresses, limit, available);
    forall s ensures Str(s) in AsTexts(used) <==> s in used {
      if s in used {
        var i :| 0 <= i < |used| && used[i] == s;
        assert AsTexts(used)[i] == Str(s);
      }
    }
    assert Null !in AsTexts(used);
  }

  lemma EventGroupCovers(h: Hashing, g: Group, limit: int, available: Available, a: Text, log: Log)
    requires ValidHashing(h) && g.handler.on.OnEvent? && Constrained(g) && Indexable(h, g, limit, available)
    requires a in g.addresses && WellFormedLog(log) && AcceptsLog(h, log, g.handler.on.logFilter, a)
    ensures GroupSelects(h, g, limit, available, LogRow(log))
  {
    var filter := g.handler.on.logFilter;
    var topics := TopicsOf(filter);
    EventConditionMeaning(h, filter, g.addresses, limit, available.logs, log);
    InLowerValid(g.addresses, Lower(log.address));
    if NeverMatches(h, topics) {
      NeverMatchesAcceptsNothing(h, filter, log, a);
    }
    forall i: nat | ComparesAt(topics, i) && Offers(available.logs, TopicField(i))
      ensures i < |log.topics| && log.topics[i] == Wanted(h, topics, i)
    {
      assert Reached(topics, i) && Meets(h, topics, i, log);
      TopicsCompareExactly(Wanted(h, topics, i), log.topics[i]);
    }
  }

  lemma EventGroupMisses(h: Hashing, g: Group, limit: int, available: Available, a: Text) returns (log: Log)
    requires ValidHashing(h) && g.handler.on.OnEvent? && !(Constrained(g) && Indexable(h, g, limit, available))
    ensures WellFormedLog(log) && AcceptsLog(h, log, g.handler.on.logFilter, a)
    ensures !GroupSelects(h, g, limit, available, LogRow(log))
  {
    var filter := g.handler.on.logFilter;
    var topics := TopicsOf(filter);
    if !Constrained(g) {
      log := WitnessLog(h, topics, 0, a);
      WitnessLogIsAccepted(h, filter, 0, a);
    } else {
      var i: nat :| i < MAX_TOPICS && ComparesAt(topics, i) && Offers(available.logs, TopicField(i))
                    && !(Reached(topics, i) && IsTopic(Wanted(h, topics, i)));
      var n := MAX_TOPICS;
      if !Reached(topics, i) {
        var m := UnreachedStandsBehindNotNull(topics, i);
        n := m + 1;
      }
      log := WitnessLog(h, topics, n, a);
      WitnessLogIsAccepted(h, filter, n, a);
      EventConditionMeaning(h, filter, g.addresses, limit, available.logs, log);
      if Reached(topics, i) {
        WitnessTopicIsTopic(h, topics, i);
      }
    }
  }

  lemma CallGroupCovers(h: Hashing, g: Group, limit: int, available: Available, a: Text, tx: Transaction)
    requires g.handler.on.OnCall? && Constrained(g) && Indexable(h, g, limit, available)
    requires a in g.addresses && WellFormedTx(tx) && AcceptsTransaction(h, tx, g.handler.on.txFilter, a)
    ensures GroupSelects(h, g, limit, available, TxRow(tx))
  {
    var filter := g.handler.on.txFilter;
    if NeverCalled(h, filter) {
      NeverCalledAcceptsNothing(h, filter, tx, a);
    }
    CallConditionMeaning(h, filter, g.addresses, limit, available.transactions, tx);
    if tx.to.Str? {
      InLowerValid(g.addresses, Lower(tx.to.s));
    }
    if filter.Some? && Truthy(filter.value.func) && filter.value.func.s != "0x" && NamesASelector(h, filter.value.func) {
      PrefixIsSelector(tx.input, FunctionToSighash(h, filter.value.func.s));
    }
  }

  lemma CallGroupMisses(h: Hashing, g: Group, limit: int, available: Available, a: Text)
    requires ValidHashing(h) && g.handler.on.OnCall? && !(Constrained(g) && Indexable(h, g, limit, available))
    ensures WellFormedTx(WitnessTx(h, g.handler.on.txFilter, a))
    ensures AcceptsTransaction(h, WitnessTx(h, g.handler.on.txFilter, a), g.handler.on.txFilter, a)
    ensures !GroupSelects(h, g, limit, available, TxRow(WitnessTx(h, g.handler.on.txFilter, a)))
  {
    var filter := g.handler.on.txFilter;
    var tx := WitnessTx(h, filter, a);
    WitnessTxIsAccepted(h, filter, a);
    CallConditionMeaning(h, filter, g.addresses, limit, available.transactions, tx);
    if filter.Some? && !NamesASelector(h, filter.value.func) {
      WitnessInputMissesOtherSelectors(h, filter.value);
    }
  }

  /**
   * A group's condition misses no row its handler runs on exactly when the group is constrained and
   * indexable through the filters the dictionary offers.
   */
  lemma GroupCoversIff(h: Hashing, g: Group, limit: int, available: Available)
    requires ValidHashing(h) && g.addresses != [] && !g.handler.on.OnBlock?
    ensures Covers(h, g.handler.on, g.addresses, row => GroupSelects(h, g, limit, available, row))
            <==> Constrained(g) && Indexable(h, g, limit, available)
  {
    var a := g.addresses[0];
    if Constrained(g) && Indexable(h, g, limit, available) {
      forall a, row | a in g.addresses && WellFormedRow(row) && RuntimeAccepts(h, g.handler.on, a, row)
        ensures GroupSelects(h, g, limit, available, row)
      {
        if row.LogRow? {
          EventGroupCovers(h, g, limit, available, a, row.log);
        } else {
          CallGroupCovers(h, g, limit, available, a, row.tx);
        }
      }
    } else if g.handler.on.OnEvent? {
      var log := EventGroupMisses(h, g, limit, available, a);
      assert RuntimeAccepts(h, g.handler.on, a, LogRow(log));
    } else {
      CallGroupMisses(h, g, limit, available, a);
      assert RuntimeAccepts(h, g.handler.on, a, TxRow(WitnessTx(h, g.handler.on.txFilter, a)));
    }
  }

  // ---------- The whole query ----------

  /** Deduplicating records keeps the first of each, in order, and changes nothing that is selected. */
  lemma {:induction false} DeduplicationKeepsRows(logs: seq<LogCondition>, txs: seq<TxCondition>, row: Row)
    ensures forall c :: c in UniqBy(logs, SameLog) <==> c in logs
    ensures forall c :: c in UniqBy(txs, SameTx) <==> c in txs
    ensures DistinctKeys(UniqBy(logs, SameLog), SameLog) && DistinctKeys(UniqBy(txs, SameTx), SameTx)
    ensures Sanitise(logs, txs) == NoDictionary <==> logs == [] && txs == []
    ensures Sanitise(logs, txs) != NoDictionary ==>
              (QuerySelects(Sanitise(logs, txs), row) <==>
               match row
               case LogRow(log) => exists c :: c in logs && SelectsLog(c, log)
               case TxRow(tx) => exists c :: c in txs && SelectsTx(c, tx))
  {
    UniqByDistinct(logs, SameLog);
    UniqByDistinct(txs, SameTx);
    forall c ensures c in UniqBy(logs, SameLog) <==> c in logs {
      if c in logs {
        var d := UniqByRepresents(logs, SameLog, c);
      }
      if c in UniqBy(logs, SameLog) {
        UniqByOnlyKeeps(logs, SameLog, c);
      }
    }
    forall c ensures c in UniqBy(txs, SameTx) <==> c in txs {
      if c in txs {
        var d := UniqByRepresents(txs, SameTx, c);
      }
      if c in UniqBy(txs, SameTx) {
        UniqByOnlyKeeps(txs, SameTx, c);
      }
    }
  }

  /** The dictionary is unused when a block handler rules it out or no group is constrained. */
  predicate Unused(dataSources: seq<DataSource>) {
    var groups := GroupedDataSources(dataSources);
    SomeGivesUp(groups) || forall g :: g in groups && Constrained(g) ==> g.handler.on.OnBlock?
  }

  lemma OneGroupMeaning(h: Hashing, g: Group, limit: int, available: Available, row: Row)
    ensures (match row
             case LogRow(log) => exists c :: c in NewLogs(h, g, limit, available) && SelectsLog(c, log)
             case TxRow(tx) => exists c :: c in NewTxs(h, g, limit, available) && SelectsTx(c, tx))
            <==> GroupSelects(h, g, limit, available, row)
  {
    if Constrained(g) && g.handler.on.OnEvent? {
      assert EventCondition(h, g.handler.on.logFilter, g.addresses, limit, available.logs) in NewLogs(h, g, limit, available);
    }
    if Constrained(g) && g.handler.on.OnCall? {
      assert CallCondition(h, g.handler.on.txFilter, g.addresses, limit, available.transactions) in NewTxs(h, g, limit, available);
    }
  }

  /** The collected records select what their groups select, and there are none without a constrained group. */
  lemma {:induction false} CollectedMeaning(h: Hashing, groups: seq<Group>, limit: int, available: Available, row: Row)
    ensures (match row
             case LogRow(log) => exists c :: c in LogsOf(h, groups, limit, available) && SelectsLog(c, log)
             case TxRow(tx) => exists c :: c in TxsOf(h, groups, limit, available) && SelectsTx(c, tx))
            <==> exists g :: g in groups && GroupSelects(h, g, limit, available, row)
    ensures LogsOf(h, groups, limit, available) == [] && TxsOf(h, groups, limit, available) == [] <==>
            forall g :: g in groups && Constrained(g) ==> g.handler.on.OnBlock?
    decreases |groups|
  {
    if groups != [] {
      var front, last := groups[..|groups| - 1], groups[|groups| - 1];
      CollectedMeaning(h, front, limit, available, row);
      OneGroupMeaning(h, last, limit, available, row);
      assert forall g :: g in groups <==> g in front || g == last;
      assert forall c :: c in LogsOf(h, groups, limit, available) <==> c in LogsOf(h, front, limit, available) || c in NewLogs(h, last, limit, available);
      assert forall c :: c in TxsOf(h, groups, limit, available) <==> c in TxsOf(h, front, limit, available) || c in NewTxs(h, last, limit, available);
    }
  }

  lemma QueryMeaning(h: Hashing, dataSources: seq<DataSource>, limit: int, available: Available, row: Row)
    ensures Query(h, dataSources, limit, available) == NoDictionary <==> Unused(dataSources)
    ensures QuerySelects(Query(h, dataSources, limit, available), row) <==>
            || Unused(dataSources)
            || exists g :: g in GroupedDataSources(dataSources) && GroupSelects(h, g, limit, available, row)
  {
    var groups := GroupedDataSources(dataSources);
    CollectedMeaning(h, groups, limit, available, row);
    DeduplicationKeepsRows(LogsOf(h, groups, limit, available), TxsOf(h, groups, limit, available), row);
  }

  /**
   * Soundness: whatever filters the dictionary offers, no row that any handler of the project would run
   * on is left out, provided every event and call group is constrained and indexable.
   */
  lemma QueryMissesNothing(h: Hashing, dataSources: seq<DataSource>, limit: int, available: Available, o: Occurrence, row: Row)
    requires ValidHashing(h)
    requires forall g :: g in GroupedDataSources(dataSources) && !g.handler.on.OnBlock? ==>
               Constrained(g) && Indexable(h, g, limit, available)
    requires o in Occurrences(dataSources)
    requires WellFormedRow(row) && RuntimeAccepts(h, o.handler.on, o.address, row)
    ensures QuerySelects(Query(h, dataSources, limit, available), row)
  {
    var groups := GroupedDataSources(dataSources);
    QueryMeaning(h, dataSources, limit, available, row);
    EveryOccurrenceHasAGroup(Occurrences(dataSources), o);
    var i :| 0 <= i < |groups| && BelongsTo(o, groups[i]);
    var g := groups[i];
    assert g in groups;
    KeyDeterminesRuntime(h, o.handler, g.handler, o.address, row);
    if row.LogRow? {
      EventGroupCovers(h, g, limit, available, o.address, row.log);
    } else {
      CallGroupCovers(h, g, limit, available, o.address, row.tx);
    }
  }

  /**
   * The whole compiler on a project of one handler: the query misses no row the handler runs on exactly
   * when the dictionary is not used or the handler is indexable through the offered filters.
   */
  lemma AloneMissesNothingIff(h: Hashing, o: Occurrence, limit: int, available: Available)
    requires ValidHashing(h) && !o.handler.on.OnBlock?
    ensures Covers(h, o.handler.on, [o.address], row => QuerySelects(Query(h, Alone(o), limit, available), row))
            <==> !Constrained(Group(o.handler, [o.address])) || Indexable(h, Group(o.handler, [o.address]), limit, available)
  {
    var g := Group(o.handler, [o.address]);
    AloneIsOneGroup(o);
    assert forall x :: x in [g] <==> x == g;
    OnlyBlockHandlersGiveUp(Alone(o), g);
    forall row ensures QuerySelects(Query(h, Alone(o), limit, available), row) <==>
                       !Constrained(g) || GroupSelects(h, g, limit, available, row)
    {
      QueryMeaning(h, Alone(o), limit, available, row);
    }
    GroupCoversIff(h, g, limit, available);
  }

  /** Offering fewer filters only enlarges what the query selects. */
  lemma FewerFiltersSelectMore(h: Hashing, dataSources: seq<DataSource>, limit: int, fewer: Available, more: Available, row: Row)
    requires forall f :: Offers(fewer.logs, f) ==> Offers(more.logs, f)
    requires forall f :: Offers(fewer.transactions, f) ==> Offers(more.transactions, f)
    requires QuerySelects(Query(h, dataSources, limit, more), row)
    ensures QuerySelects(Query(h, dataSources, limit, fewer), row)
  {
    QueryMeaning(h, dataSources, limit, more, row);
    QueryMeaning(h, dataSources, limit, fewer, row);
    if !Unused(dataSources) {
      var g :| g in GroupedDataSources(dataSources) && GroupSelects(h, g, limit, more, row);
      match g.handler.on {
        case OnEvent(filter) =>
          EventConditionMeaning(h, filter, g.addresses, limit, more.logs, row.log);
          EventConditionMeaning(h, filter, g.addresses, limit, fewer.logs, row.log);
        case OnCall(filter) =>
          CallConditionMeaning(h, filter, g.addresses, limit, more.transactions, row.tx);
          CallConditionMeaning(h, filter, g.addresses, limit, fewer.transactions, row.tx);
        case OnBlock(_) =>
      }
      assert GroupSelects(h, g, limit, fewer, row);
    }
  }

  // ---------- Against the first generation ----------

  predicate AllLogFiltersOffered(available: Available) {
    && Offers(available.logs, AddressField)
    && forall i: nat :: i < MAX_TOPICS ==> Offers(available.logs, TopicField(i))
  }

  predicate AsksNotNull(on: HandlerKind) {
    on.OnEvent? && exists i: nat :: i < MAX_TOPICS && IsNotNull(TopicsOf(on.logFilter), i)
  }

  /** For one constrained group: what the first generation selects, the second does too, and back. */
  lemma GroupsAgreeOnLogs(h: Hashing, g: Group, limit: int, available: Available, log: Log)
    requires Constrained(g)
    ensures V1Soundness.GroupSelects(h, g, limit, LogRow(log)) ==> GroupSelects(h, g, limit, available, LogRow(log))
    ensures AllLogFiltersOffered(available) && !AsksNotNull(g.handler.on) ==>
              (GroupSelects(h, g, limit, available, LogRow(log)) ==> V1Soundness.GroupSelects(h, g, limit, LogRow(log)))
  {
    if g.handler.on.OnEvent? {
      var filter := g.handler.on.logFilter;
      var topics := TopicsOf(filter);
      EventConditionMeaning(h, filter, g.addresses, limit, available.logs, log);
      V1.EventEntryMeaning(h, filter, g.addresses, limit, LogRow(log));
      forall i: nat | ComparesAt(topics, i)
        ensures V1.Holds(V1.TopicCondition(h, topics, i), LogRow(log)) <==>
                i < |log.topics| && log.topics[i] == Wanted(h, topics, i)
      {
      }
    } else if g.handler.on.OnCall? {
      V1.CallEntryMeaning(h, g.handler.on.txFilter, g.addresses, limit, LogRow(log));
    }
  }

  /**
   * With every handler constrained, the second generation selects every log the first one does, whatever
   * filters are offered; with all log filters offered and no '!null' asked for, exactly the same logs.
   */
  lemma GenerationsAgreeOnLogs(h: Hashing, dataSources: seq<DataSource>, limit: int, available: Available, log: Log)
    requires forall g :: g in GroupedDataSources(dataSources) ==> Constrained(g)
    ensures V1.QueryAccepts(V1.Query(h, dataSources, limit), LogRow(log)) ==>
              QuerySelects(Query(h, dataSources, limit, available), LogRow(log))
    ensures AllLogFiltersOffered(available) && (forall g :: g in GroupedDataSources(dataSources) ==> !AsksNotNull(g.handler.on)) ==>
              (QuerySelects(Query(h, dataSources, limit, available), LogRow(log)) ==>
                 V1.QueryAccepts(V1.Query(h, dataSources, limit), LogRow(log)))
  {
    var groups := GroupedDataSources(dataSources);
    QueryMeaning(h, dataSources, limit, available, LogRow(log));
    V1Soundness.QueryMeaning(h, dataSources, limit, LogRow(log));
    BothUnused(h, dataSources, limit);
    forall g | g in groups
      ensures V1Soundness.GroupSelects(h, g, limit, LogRow(log)) ==> GroupSelects(h, g, limit, available, LogRow(log))
      ensures AllLogFiltersOffered(available) && !AsksNotNull(g.handler.on) ==>
                (GroupSelects(h, g, limit, available, LogRow(log)) ==> V1Soundness.GroupSelects(h, g, limit, LogRow(log)))
    {
      GroupsAgreeOnLogs(h, g, limit, available, log);
    }
  }

  /** Among constrained groups, the first generation is unused exactly when the second is. */
  lemma BothUnused(h: Hashing, dataSources: seq<DataSource>, limit: int)
    requires forall g :: g in GroupedDataSources(dataSources) ==> Constrained(g)
    ensures V1.Query(h, dataSources, limit) == [] <==> Unused(dataSources)
  {
    var groups := GroupedDataSources(dataSources);
    V1Soundness.EntriesOfExact(h, groups, limit);
    var entries := V1.EntriesOf(h, groups, limit).value;
    V1Soundness.DeduplicationKeepsRows(entries, LogRow(Log("", [], "", "")));
    forall g | g in groups ensures !GivesUp(g) {
      OnlyBlockHandlersGiveUp(dataSources, g);
    }
    if g :| g in groups && !g.handler.on.OnBlock? {
      assert V1.TurnFor(h, g, limit).entry in entries;
    }
    if entries != [] {
      assert entries[0] in entries;
    }
  }
}
