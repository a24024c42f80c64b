/** Concrete projects on which a dictionary query leaves out a row that a handler would run on. */
module Divergences {
  import opened Js
  import opened Hex
  import opened Ethereum
  import opened RuntimeFilters
  import opened Grouping
  import opened Coverage
  import V1 = DictionaryV1
  import V1Soundness
  import V2 = DictionaryV2
  import V2Soundness

  function AllOffered(): V2.Available {
    V2.Available(None, None)
  }

  /** Behind '!null' the runtime stops looking, but the first-generation query still demands a second topic. */
  lemma NotNullHidesLaterTopics(h: Hashing, limit: int) returns (log: Log)
    requires ValidHashing(h)
    ensures var filter := Some(LogFilter(Some([Str("!null"), Str("!null")])));
            && WellFormedLog(log) && AcceptsLog(h, log, filter, Undefined)
            && !V1.EntryAccepts(V1.EventEntry(h, filter, [Undefined], limit), LogRow(log))
  {
    var filter := Some(LogFilter(Some([Str("!null"), Str("!null")])));
    var topics := TopicsOf(filter);
    assert IsNotNull(topics, 0) && Demands(topics, 1) && !Reached(topics, 1);
    log := V1Soundness.EventEntryMisses(h, filter, [Undefined], limit, Undefined);
  }

  /** The runtime strips leading zeros before comparing topics; the query compares the text as written. */
  lemma ShortTopicsAreNotPadded(h: Hashing, limit: int) returns (log: Log)
    requires ValidHashing(h)
    ensures var filter := Some(LogFilter(Some([Str("0x1")])));
            && WellFormedLog(log) && AcceptsLog(h, log, filter, Undefined)
            && !V1.EntryAccepts(V1.EventEntry(h, filter, [Undefined], limit), LogRow(log))
  {
    var filter := Some(LogFilter(Some([Str("0x1")])));
    var topics := TopicsOf(filter);
    assert IsHexString("0x1") && Significant("0x1") == "1" by {
      assert "0x1"[2..] == "1";
    }
    assert Wanted(h, topics, 0) == "0x1" && Demands(topics, 0) && !IsTopic("0x1");
    log := V1Soundness.EventEntryMisses(h, filter, [Undefined], limit, Undefined);
  }

  /** Without a filter a call handler runs on every transaction, but both queries keep the address. */
  lemma MissingCallFilterIgnoresAddress(h: Hashing, address: string, tx: Transaction)
    requires address != "" && !NormalizedEq(address, tx.to)
    ensures var g := Group(Handler("h", OnCall(None)), [Str(address)]);
            && AcceptsTransaction(h, tx, None, Str(address))
            && !V1Soundness.GroupSelects(h, g, 100, TxRow(tx))
            && !V2Soundness.GroupSelects(h, g, 100, AllOffered(), TxRow(tx))
  {
    var addresses := [Str(address)];
    assert AddressesUsed(addresses, 100);
    V1.LowerValidOfOne(addresses);
    V1.CallEntryMeaning(h, None, addresses, 100, TxRow(tx));
    V2Soundness.CallConditionMeaning(h, None, addresses, 100, None, tx);
  }

  /** The filter's recipient wins at runtime, the data source's address wins in both queries. */
  lemma RecipientClashesWithAddress(h: Hashing, recipient: string, address: string, tx: Transaction)
    requires recipient != "" && address != "" && Lower(recipient) != Lower(address)
    requires NormalizedEq(recipient, tx.to)
    ensures var filter := Some(TxFilter(Undefined, Str(recipient), Undefined, Undefined, ["to"]));
            var g := Group(Handler("h", OnCall(filter)), [Str(address)]);
            && AcceptsTransaction(h, tx, filter, Str(address))
            && !V1Soundness.GroupSelects(h, g, 100, TxRow(tx))
            && !V2Soundness.GroupSelects(h, g, 100, AllOffered(), TxRow(tx))
  {
    var filter := Some(TxFilter(Undefined, Str(recipient), Undefined, Undefined, ["to"]));
    var addresses := [Str(address)];
    assert AddressesUsed(addresses, 100);
    V1.LowerValidOfOne(addresses);
    V1.CallEntryMeaning(h, filter, addresses, 100, TxRow(tx));
    V2Soundness.CallConditionMeaning(h, filter, addresses, 100, None, tx);
  }

  /**
   * Event handlers that nothing constrains, beside a constrained call handler: the first generation gives
   * the dictionary up, the second keeps it and selects no log at all.
   */
  lemma UnconstrainedEventsAreDropped(h: Hashing, dataSources: seq<DataSource>, limit: int, available: V2.Available, e: Group, c: Group, log: Log)
    requires e in GroupedDataSources(dataSources) && c in GroupedDataSources(dataSources)
    requires e.handler.on.OnEvent? && c.handler.on.OnCall? && Constrained(c)
    requires forall g :: g in GroupedDataSources(dataSources) ==>
               !g.handler.on.OnBlock? && (g.handler.on.OnEvent? ==> !Constrained(g))
    ensures V1.Query(h, dataSources, limit) == []
    ensures !V2.QuerySelects(V2.Query(h, dataSources, limit, available), LogRow(log))
  {
    V1Soundness.QueryMeaning(h, dataSources, limit, LogRow(log));
    V2Soundness.QueryMeaning(h, dataSources, limit, available, LogRow(log));
    forall g | g in GroupedDataSources(dataSources) ensures !V2.GivesUp(g) {
      V2.OnlyBlockHandlersGiveUp(dataSources, g);
    }
  }

  // ---------- Two handlers, one of them unconstrained ----------

  const EventHandler := Handler("e", OnEvent(None))
  const CallHandler := Handler("c", OnCall(None))

  function TopicHandler(topic: string): Handler {
    Handler("t", OnEvent(Some(LogFilter(Some([Str(topic)])))))
  }

  /** A project of two data sources with one handler each; only the second may have an address. */
  function Pair(first: Handler, address: Text, second: Handler): seq<DataSource> {
    [DataSource(Undefined, [first]), DataSource(address, [second])]
  }

  lemma PairGroups(first: Handler, address: Text, second: Handler)
    requires Key(first) != Key(second)
    ensures GroupedDataSources(Pair(first, address, second)) == [Group(first, [Undefined]), Group(second, [address])]
    ensures forall g :: g in GroupedDataSources(Pair(first, address, second)) <==>
                        g == Group(first, [Undefined]) || g == Group(second, [address])
  {
    var e, c := Occurrence(Undefined, first), Occurrence(address, second);
    var project := Pair(first, address, second);
    var parts := seq(2, i requires 0 <= i < 2 => OccurrencesOf(project[i]));
    assert OccurrencesOf(project[0]) == [e] && OccurrencesOf(project[1]) == [c];
    assert parts == [[e], [c]] && parts[1..] == [[c]] && [[c]][1..] == [];
    assert Flatten([[c]]) == [c];
    assert Occurrences(project) == [e, c];
    assert [e, c][..1] == [e] && [e][..0] == [];
    assert UniqBy([e], OccurrenceKey) == [e];
    assert UniqBy([e, c], OccurrenceKey) == [e, c];
    OnlyMember(e, c, Key(first), e);
    OnlyMember(e, c, Key(second), c);
  }

  lemma OnlyMember(e: Occurrence, c: Occurrence, key: HandlerKind, o: Occurrence)
    requires (Key(e.handler) == key && Key(c.handler) != key && o == e) || (Key(e.handler) != key && Key(c.handler) == key && o == c)
    ensures AddressesFor([e, c], key) == [o.address]
  {
    var keep := (o: Occurrence) => Key(o.handler) == key;
    FilterConcat([e], [c], keep);
    assert [e] + [c] == [e, c] && [e][1..] == [] && [c][1..] == [];
    var members := Filter([e, c], keep);
    assert members == [o];
    assert seq(|members|, i requires 0 <= i < |members| => members[i].address) == [o.address];
    UniqByOne(o.address, Identity);
  }

  lemma OneAddressConstrains(address: Text)
    ensures ValidAddresses([address]) != [] <==> Truthy(address)
  {
    FilterEmpty([address], x => Truthy(x));
    assert address in [address];
  }

  /** An event handler beside a call handler with an address: it runs on every log, and no log is selected. */
  lemma MixedProjectLosesItsLogs(h: Hashing, address: string, log: Log)
    requires address != ""
    ensures AcceptsLog(h, log, None, Undefined)
    ensures V1.Query(h, Pair(EventHandler, Str(address), CallHandler), 100) == []
    ensures !V2.QuerySelects(V2.Query(h, Pair(EventHandler, Str(address), CallHandler), 100, AllOffered()), LogRow(log))
  {
    var e, c := Group(EventHandler, [Undefined]), Group(CallHandler, [Str(address)]);
    PairGroups(EventHandler, Str(address), CallHandler);
    OneAddressConstrains(Undefined);
    OneAddressConstrains(Str(address));
    UnconstrainedEventsAreDropped(h, Pair(EventHandler, Str(address), CallHandler), 100, AllOffered(), e, c, log);
  }

  /** Beside a handler with a topic and no address, all that the second generation selects is what that one selects. */
  lemma BesideATopic(h: Hashing, first: Handler, topic: string, row: Row)
    requires first == EventHandler || first == CallHandler
    ensures V1.Query(h, Pair(first, Undefined, TopicHandler(topic)), 100) == []
    ensures V2.QuerySelects(V2.Query(h, Pair(first, Undefined, TopicHandler(topic)), 100, AllOffered()), row) <==>
            V2Soundness.GroupSelects(h, Group(TopicHandler(topic), [Undefined]), 100, AllOffered(), row)
  {
    var second := TopicHandler(topic);
    var f, t := Group(first, [Undefined]), Group(second, [Undefined]);
    PairGroups(first, Undefined, second);
    OneAddressConstrains(Undefined);
    assert !Constrained(f) && Constrained(t);
    assert !V2.GivesUp(f) && !V2.GivesUp(t);
    OnlyOneConstrained(h, Pair(first, Undefined, second), f, t, row);
  }

  lemma OnlyOneConstrained(h: Hashing, project: seq<DataSource>, f: Group, t: Group, row: Row)
    requires forall g :: g in GroupedDataSources(project) <==> g == f || g == t
    requires !Constrained(f) && Constrained(t) && !t.handler.on.OnBlock? && !V2.GivesUp(f) && !V2.GivesUp(t)
    ensures V1.Query(h, project, 100) == []
    ensures V2.QuerySelects(V2.Query(h, project, 100, AllOffered()), row) <==> V2Soundness.GroupSelects(h, t, 100, AllOffered(), row)
  {
    V1Soundness.QueryMeaning(h, project, 100, row);
    V2Soundness.QueryMeaning(h, project, 100, AllOffered(), row);
    assert t in GroupedDataSources(project) && f in GroupedDataSources(project);
  }

  /**
   * An event handler beside one that asks for a topic: it runs on every log, and only logs with that topic
   * are selected.
   */
  lemma EventsBesideATopicAreLost(h: Hashing, topic: string, log: Log)
    requires topic != "" && topic != NOT_NULL_FILTER
    requires log.topics == [] || log.topics[0] != EventToTopic(h, topic)
    ensures AcceptsLog(h, log, None, Undefined)
    ensures V1.Query(h, Pair(EventHandler, Undefined, TopicHandler(topic)), 100) == []
    ensures !V2.QuerySelects(V2.Query(h, Pair(EventHandler, Undefined, TopicHandler(topic)), 100, AllOffered()), LogRow(log))
  {
    BesideATopic(h, EventHandler, topic, LogRow(log));
    var filter := TopicHandler(topic).on.logFilter;
    assert ComparesAt(TopicsOf(filter), 0);
    V2Soundness.EventConditionMeaning(h, filter, [Undefined], 100, None, log);
  }

  /** A call handler beside an event handler that asks for a topic: it runs on every transaction, and none is selected. */
  lemma CallsBesideATopicAreLost(h: Hashing, topic: string, tx: Transaction)
    ensures AcceptsTransaction(h, tx, None, Undefined)
    ensures V1.Query(h, Pair(CallHandler, Undefined, TopicHandler(topic)), 100) == []
    ensures !V2.QuerySelects(V2.Query(h, Pair(CallHandler, Undefined, TopicHandler(topic)), 100, AllOffered()), TxRow(tx))
  {
    BesideATopic(h, CallHandler, topic, TxRow(tx));
  }
}
