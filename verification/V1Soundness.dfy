/** The first-generation query against the runtime filters: when it misses nothing, and what grouping keeps. */
module V1Soundness {
  import opened Js
  import opened Hex
  import opened Ethereum
  import opened RuntimeFilters
  import opened Grouping
  import opened Coverage
  import opened DictionaryV1

  // ---------- One group ----------

  /**
   * Every demanding topic position is one the runtime loop reaches, and what it compares with is
   * written the way the index stores topics. A filter that can never match needs nothing.
   */
  predicate TopicsIndexable(h: Hashing, topics: seq<Text>) {
    || NeverMatches(h, topics)
    || forall i: nat :: i < MAX_TOPICS && Demands(topics, i) ==>
         Reached(topics, i) && (IsNotNull(topics, i) || IsTopic(Wanted(h, topics, i)))
  }

  /** A filter that can never match needs nothing; otherwise the call is comparable. */
  predicate CallIndexable(h: Hashing, filter: Option<TxFilter>, addresses: seq<Text>, limit: int) {
    NeverCalled(h, filter) || CallComparable(h, filter, addresses, limit)
  }

  /** Addresses in the query do not contradict the filter's recipient, and its function is a selector. */
  predicate CallComparable(h: Hashing, filter: Option<TxFilter>, addresses: seq<Text>, limit: int) {
    && (AddressesUsed(addresses, limit) ==> RecipientAgrees(filter, addresses))
    && (filter.Some? ==> NamesASelector(h, filter.value.func))
  }

  predicate Indexable(h: Hashing, g: Group, limit: int) {
    match g.handler.on
    case OnBlock(_) => true
    case OnCall(filter) => CallIndexable(h, filter, g.addresses, limit)
    case OnEvent(filter) => TopicsIndexable(h, TopicsOf(filter))
  }

  lemma EventEntryCovers(h: Hashing, filter: Option<LogFilter>, addresses: seq<Text>, limit: int, a: Text, log: Log)
    requires ValidHashing(h) && TopicsIndexable(h, TopicsOf(filter))
    requires a in addresses && WellFormedLog(log) && AcceptsLog(h, log, filter, a)
    ensures EntryAccepts(EventEntry(h, filter, addresses, limit), LogRow(log))
  {
    var topics := TopicsOf(filter);
    EventEntryMeaning(h, filter, addresses, limit, LogRow(log));
    if NeverMatches(h, topics) {
      NeverMatchesAcceptsNothing(h, filter, log, a);
    }
    InLowerValid(addresses, Lower(log.address));
    forall i: nat | Demands(topics, i) ensures Holds(TopicCondition(h, topics, i), LogRow(log)) {
      assert Reached(topics, i) && Meets(h, topics, i, log);
      if !IsNotNull(topics, i) {
        TopicsCompareExactly(Wanted(h, topics, i), log.topics[i]);
      }
    }
  }

  /** A log the event handler runs on and the compiled entry drops, when the topics are not indexable. */
  lemma EventEntryMisses(h: Hashing, filter: Option<LogFilter>, addresses: seq<Text>, limit: int, a: Text) returns (log: Log)
    requires ValidHashing(h) && !TopicsIndexable(h, TopicsOf(filter))
    ensures WellFormedLog(log) && AcceptsLog(h, log, filter, a)
    ensures !EntryAccepts(EventEntry(h, filter, addresses, limit), LogRow(log))
  {
    var topics := TopicsOf(filter);
    var i: nat :| i < MAX_TOPICS && Demands(topics, i)
                  && !(Reached(topics, i) && (IsNotNull(topics, i) || IsTopic(Wanted(h, topics, i))));
    var n := MAX_TOPICS;
    if !Reached(topics, i) {
      var m := UnreachedStandsBehindNotNull(topics, i);
      n := m + 1;
    }
    log := WitnessLog(h, topics, n, a);
    WitnessLogIsAccepted(h, filter, n, a);
    EventEntryMeaning(h, filter, addresses, limit, LogRow(log));
    if Reached(topics, i) {
      WitnessTopicIsTopic(h, topics, i);
    }
    assert !Holds(TopicCondition(h, topics, i), LogRow(log));
  }

  /** An event entry misses no log its handler runs on exactly when the topics are indexable. */
  lemma EventEntryCoversIff(h: Hashing, filter: Option<LogFilter>, addresses: seq<Text>, limit: int)
    requires ValidHashing(h) && addresses != []
    ensures Covers(h, OnEvent(filter), addresses, row => EntryAccepts(EventEntry(h, filter, addresses, limit), row))
            <==> TopicsIndexable(h, TopicsOf(filter))
  {
    var entry := EventEntry(h, filter, addresses, limit);
    if TopicsIndexable(h, TopicsOf(filter)) {
      forall a, row | a in addresses && WellFormedRow(row) && RuntimeAccepts(h, OnEvent(filter), a, row)
        ensures EntryAccepts(entry, row)
      {
        EventEntryCovers(h, filter, addresses, limit, a, row.log);
      }
    } else {
      var log := EventEntryMisses(h, filter, addresses, limit, addresses[0]);
      assert RuntimeAccepts(h, OnEvent(filter), addresses[0], LogRow(log));
    }
  }

  lemma FunctionCovers(h: Hashing, filter: TxFilter, a: Text, tx: Transaction)
    requires NamesASelector(h, filter.func) && AcceptsTransaction(h, tx, Some(filter), a)
    ensures AllHold(FuncConditions(h, filter.func), TxRow(tx))
  {
    if Truthy(filter.func) && filter.func.s != "0x" {
      PrefixIsSelector(tx.input, FunctionToSighash(h, filter.func.s));
      assert SELECTOR_LENGTH > |"0x"|;
    }
  }

  lemma RecipientCovers(h: Hashing, filter: TxFilter, addresses: seq<Text>, a: Text, tx: Transaction)
    requires a in addresses && AcceptsTransaction(h, tx, Some(filter), a)
    ensures Truthy(a) && RecipientAgrees(Some(filter), addresses) ==> tx.to.Str? && Lower(tx.to.s) in LowerValid(addresses)
    ensures AllHold(ToConditions(filter.to), TxRow(tx)) && AllHold(FromConditions(filter.from), TxRow(tx))
  {
    if tx.to.Str? {
      InLowerValid(addresses, Lower(tx.to.s));
    }
  }

  lemma CallEntryCovers(h: Hashing, filter: Option<TxFilter>, addresses: seq<Text>, limit: int, a: Text, tx: Transaction)
    requires CallComparable(h, filter, addresses, limit)
    requires a in addresses && AcceptsTransaction(h, tx, filter, a)
    ensures EntryAccepts(CallEntry(h, filter, addresses, limit), TxRow(tx))
  {
    CallEntryMeaning(h, filter, addresses, limit, TxRow(tx));
    if filter.Some? {
      FunctionCovers(h, filter.value, a, tx);
      RecipientCovers(h, filter.value, addresses, a, tx);
    }
  }

  lemma IndexableCallIsSelected(h: Hashing, filter: Option<TxFilter>, addresses: seq<Text>, limit: int, a: Text, tx: Transaction)
    requires WellFormedTx(tx) && CallIndexable(h, filter, addresses, limit)
    requires a in addresses && AcceptsTransaction(h, tx, filter, a)
    ensures EntryAccepts(CallEntry(h, filter, addresses, limit), TxRow(tx))
  {
    if NeverCalled(h, filter) {
      NeverCalledAcceptsNothing(h, filter, tx, a);
    }
    CallEntryCovers(h, filter, addresses, limit, a, tx);
  }

  /** A call entry misses no transaction its handler runs on exactly when the call is indexable. */
  lemma CallEntryCoversIff(h: Hashing, filter: Option<TxFilter>, addresses: seq<Text>, limit: int)
    requires ValidHashing(h) && addresses != []
    ensures Covers(h, OnCall(filter), addresses, row => EntryAccepts(CallEntry(h, filter, addresses, limit), row))
            <==> CallIndexable(h, filter, addresses, limit)
  {
    var entry := CallEntry(h, filter, addresses, limit);
    if CallIndexable(h, filter, addresses, limit) {
      forall a, row | a in addresses && WellFormedRow(row) && RuntimeAccepts(h, OnCall(filter), a, row)
        ensures EntryAccepts(entry, row)
      {
        IndexableCallIsSelected(h, filter, addresses, limit, a, row.tx);
      }
    } else {
      var a := addresses[0];
      var tx := WitnessTx(h, filter, a);
      WitnessTxIsAccepted(h, filter, a);
      CallEntryMeaning(h, filter, addresses, limit, TxRow(tx));
      if filter.Some? && !NamesASelector(h, filter.value.func) {
        WitnessInputMissesOtherSelectors(h, filter.value);
        assert !Holds(FuncConditions(h, filter.value.func)[0], TxRow(tx));
      }
      assert RuntimeAccepts(h, OnCall(filter), a, TxRow(tx));
    }
  }

  // ---------- No more than the runtime ----------

  /** The address responsible for a row: one the bearer carries, if the list is used, else one that is missing. */
  lemma ResponsibleAddress(addresses: seq<Text>, limit: int, bearer: Text) returns (a: Text)
    requires addresses != [] && |addresses| <= limit
    requires AddressesUsed(addresses, limit) ==> bearer.Str? && Lower(bearer.s) in LowerValid(addresses)
    ensures a in addresses
    ensures if AddressesUsed(addresses, limit) then Truthy(a) && Lower(a.s) == Lower(bearer.s) else !Truthy(a)
  {
    if AddressesUsed(addresses, limit) {
      InLowerValid(addresses, Lower(bearer.s));
      a :| a in addresses && Truthy(a) && Lower(a.s) == Lower(bearer.s);
    } else {
      a :| a in addresses && !Truthy(a);
    }
  }

  /** Within the address limit, an indexable event entry selects exactly the logs its handler runs on. */
  lemma EventEntryIsExact(h: Hashing, filter: Option<LogFilter>, addresses: seq<Text>, limit: int, log: Log)
    requires ValidHashing(h) && WellFormedLog(log) && TopicsIndexable(h, TopicsOf(filter))
    requires addresses != [] && |addresses| <= limit
    ensures EntryAccepts(EventEntry(h, filter, addresses, limit), LogRow(log)) <==>
            exists a :: a in addresses && AcceptsLog(h, log, filter, a)
  {
    if a :| a in addresses && AcceptsLog(h, log, filter, a) {
      EventEntryCovers(h, filter, addresses, limit, a, log);
    }
    if EntryAccepts(EventEntry(h, filter, addresses, limit), LogRow(log)) {
      EventEntryMeaning(h, filter, addresses, limit, LogRow(log));
      var a := ResponsibleAddress(addresses, limit, Str(log.address));
      var topics := TopicsOf(filter);
      forall i: nat | Reached(topics, i) && Demands(topics, i) ensures Meets(h, topics, i, log) {
        assert Holds(TopicCondition(h, topics, i), LogRow(log));
        if !IsNotNull(topics, i) {
          TopicsCompareExactly(Wanted(h, topics, i), log.topics[i]);
        }
      }
      assert AcceptsLog(h, log, filter, a);
    }
  }

  /** The filter without the transaction type, which the first generation does not index. */
  function WithoutType(filter: Option<TxFilter>): Option<TxFilter> {
    match filter
    case None => None
    case Some(f) => Some(f.(typ := Undefined))
  }

  /**
   * Within the address limit, an indexable call entry selects exactly the transactions its handler would
   * run on if the filter named no type, provided used addresses stand beside an undefined recipient.
   */
  lemma CallEntryIsExact(h: Hashing, filter: Option<TxFilter>, addresses: seq<Text>, limit: int, tx: Transaction)
    requires CallComparable(h, filter, addresses, limit)
    requires addresses != [] && |addresses| <= limit
    requires filter.Some? ==> filter.value.func != Str("") && (AddressesUsed(addresses, limit) ==> filter.value.to.Undefined?)
    ensures EntryAccepts(CallEntry(h, filter, addresses, limit), TxRow(tx)) <==>
            exists a :: a in addresses && AcceptsTransaction(h, tx, WithoutType(filter), a)
  {
    var untyped := WithoutType(filter);
    CallEntryMeaning(h, filter, addresses, limit, TxRow(tx));
    if a :| a in addresses && AcceptsTransaction(h, tx, untyped, a) {
      CallEntryCovers(h, untyped, addresses, limit, a, tx);
      CallEntryMeaning(h, untyped, addresses, limit, TxRow(tx));
    }
    if EntryAccepts(CallEntry(h, filter, addresses, limit), TxRow(tx)) {
      var a := ResponsibleAddress(addresses, limit, tx.to);
      if filter.Some? {
        SelectedCallIsAccepted(h, filter.value, addresses, limit, a, tx);
      }
      assert AcceptsTransaction(h, tx, untyped, a);
    }
  }

  lemma SelectedCallIsAccepted(h: Hashing, filter: TxFilter, addresses: seq<Text>, limit: int, a: Text, tx: Transaction)
    requires NamesASelector(h, filter.func) && filter.func != Str("")
    requires AllHold(FromConditions(filter.from), TxRow(tx)) && AllHold(FuncConditions(h, filter.func), TxRow(tx))
    requires if AddressesUsed(addresses, limit) then filter.to.Undefined? && Truthy(a) && NormalizedEq(a.s, tx.to)
             else AllHold(ToConditions(filter.to), TxRow(tx)) && !Truthy(a)
    ensures AcceptsTransaction(h, tx, WithoutType(Some(filter)), a)
  {
    assert Truthy(filter.from) ==> Holds(FromConditions(filter.from)[0], TxRow(tx));
    assert Truthy(filter.to) && !AddressesUsed(addresses, limit) ==> Holds(ToConditions(filter.to)[0], TxRow(tx));
    assert filter.to.Null? ==> Holds(ToConditions(filter.to)[0], TxRow(tx));
    assert filter.func != Undefined ==> Holds(FuncConditions(h, filter.func)[0], TxRow(tx));
    if Truthy(filter.func) && filter.func.s != "0x" {
      PrefixIsSelector(tx.input, FunctionToSighash(h, filter.func.s));
    }
  }

  // ---------- The whole query ----------

  /** The entries are those the turns push, unless some turn gives up. */
  lemma {:induction false} EntriesOfExact(h: Hashing, groups: seq<Group>, limit: int)
    ensures EntriesOf(h, groups, limit).None? <==> exists g :: g in groups && !Constrained(g)
    ensures EntriesOf(h, groups, limit).Some? ==>
              forall e :: e in EntriesOf(h, groups, limit).value <==>
                          exists g :: g in groups && TurnFor(h, g, limit) == Push(e)
  {
    if groups != [] {
      var front, last := groups[..|groups| - 1], groups[|groups| - 1];
      EntriesOfExact(h, front, limit);
      assert groups == front + [last];
      assert forall g :: g in groups <==> g in front || g == last;
    }
  }

  lemma {:induction false} InInsert(c: Condition, sorted: seq<Condition>, x: Condition)
    ensures x in InsertByColumn(c, sorted) <==> x == c || x in sorted
  {
    if !(sorted == [] || Rank(c) <= Rank(sorted[0])) {
      InInsert(c, sorted[1..], x);
      assert sorted == [sorted[0]] + sorted[1..];
    }
  }

  lemma {:induction false} InSort(cs: seq<Condition>, x: Condition)
    ensures x in SortByColumn(cs) <==> x in cs
  {
    if cs != [] {
      InSort(cs[1..], x);
      InInsert(cs[0], SortByColumn(cs[1..]), x);
      assert cs == [cs[0]] + cs[1..];
    }
  }

  /** Entries with one key select the same rows: the key only sorts the conditions. */
  lemma KeyDeterminesRows(a: Entry, b: Entry, row: Row)
    requires EntryKey(a) == EntryKey(b)
    ensures EntryAccepts(a, row) == EntryAccepts(b, row)
  {
    forall c ensures c in a.conditions <==> c in b.conditions {
      InSort(a.conditions, c);
      InSort(b.conditions, c);
    }
  }

  /** Deduplication keeps the first of every key, in order, and changes no selected row. */
  lemma DeduplicationKeepsRows(entries: seq<Entry>, row: Row)
    ensures EntriesAccept(UniqBy(entries, EntryKey), row) == EntriesAccept(entries, row)
    ensures DistinctKeys(UniqBy(entries, EntryKey), EntryKey)
    ensures UniqBy(entries, EntryKey) == [] <==> entries == []
  {
    var kept := UniqBy(entries, EntryKey);
    UniqByDistinct(entries, EntryKey);
    if e :| e in entries && EntryAccepts(e, row) {
      var k := UniqByRepresents(entries, EntryKey, e);
      KeyDeterminesRows(k, e, row);
    }
    if k :| k in kept && EntryAccepts(k, row) {
      UniqByOnlyKeeps(entries, EntryKey, k);
    }
    if entries != [] {
      var k := UniqByRepresents(entries, EntryKey, entries[0]);
    }
  }

  /** The whole query selects a row exactly when it is unused or some group's entry selects it. */
  lemma QueryMeaning(h: Hashing, dataSources: seq<DataSource>, limit: int, row: Row)
    ensures (exists g :: g in GroupedDataSources(dataSources) && !Constrained(g)) ==> Query(h, dataSources, limit) == []
    ensures (forall g :: g in GroupedDataSources(dataSources) ==> Constrained(g)) ==>
              (EntriesAccept(Query(h, dataSources, limit), row) <==>
               exists g :: g in GroupedDataSources(dataSources) && GroupSelects(h, g, limit, row))
  {
    var groups := GroupedDataSources(dataSources);
    EntriesOfExact(h, groups, limit);
    if forall g :: g in groups ==> Constrained(g) {
      var entries := EntriesOf(h, groups, limit).value;
      DeduplicationKeepsRows(entries, row);
      if e :| e in entries && EntryAccepts(e, row) {
        var g :| g in groups && TurnFor(h, g, limit) == Push(e);
        assert GroupSelects(h, g, limit, row);
      }
      if g :| g in groups && GroupSelects(h, g, limit, row) {
        assert TurnFor(h, g, limit).entry in entries;
      }
    }
  }

  /** The entry compiled for a group selects the row. */
  predicate GroupSelects(h: Hashing, g: Group, limit: int, row: Row) {
    match TurnFor(h, g, limit)
    case Push(e) => EntryAccepts(e, row)
    case _ => false
  }

  lemma GroupMissesNothing(h: Hashing, g: Group, limit: int, o: Occurrence, row: Row)
    requires ValidHashing(h) && Indexable(h, g, limit) && Constrained(g) && BelongsTo(o, g)
    requires WellFormedRow(row) && RuntimeAccepts(h, o.handler.on, o.address, row)
    ensures GroupSelects(h, g, limit, row)
  {
    KeyDeterminesRuntime(h, o.handler, g.handler, o.address, row);
    match g.handler.on {
      case OnEvent(filter) => EventEntryCovers(h, filter, g.addresses, limit, o.address, row.log);
      case OnCall(filter) => IndexableCallIsSelected(h, filter, g.addresses, limit, o.address, row.tx);
      case OnBlock(_) =>
    }
  }

  /**
   * Soundness of the compiled query: through grouping, address widening, the address limit, the topic
   * loop and deduplication, no row that any handler of the project would run on is left out.
   */
  lemma QueryMissesNothing(h: Hashing, dataSources: seq<DataSource>, limit: int, o: Occurrence, row: Row)
    requires ValidHashing(h)
    requires forall g :: g in GroupedDataSources(dataSources) ==> Indexable(h, g, limit)
    requires o in Occurrences(dataSources)
    requires WellFormedRow(row) && RuntimeAccepts(h, o.handler.on, o.address, row)
    ensures QueryAccepts(Query(h, dataSources, limit), row)
  {
    var groups := GroupedDataSources(dataSources);
    QueryMeaning(h, dataSources, limit, row);
    if forall g :: g in groups ==> Constrained(g) {
      EveryOccurrenceHasAGroup(Occurrences(dataSources), o);
      var i :| 0 <= i < |groups| && BelongsTo(o, groups[i]);
      var g := groups[i];
      assert g in groups;
      GroupMissesNothing(h, g, limit, o, row);
    }
  }
}
