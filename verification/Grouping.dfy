/** groupedDataSources: merging handlers that share a kind and a filter (dictionary/utils.ts). */
module Grouping {
  import opened Js
  import opened Ethereum
  import opened RuntimeFilters

  /** One handler of one data source, with that data source's address. */
  datatype Occurrence = Occurrence(address: Text, handler: Handler)

  datatype Group = Group(handler: Handler, addresses: seq<Text>)

  function OccurrencesOf(ds: DataSource): seq<Occurrence> {
    seq(|ds.handlers|, i requires 0 <= i < |ds.handlers| => Occurrence(ds.address, ds.handlers[i]))
  }

  function Occurrences(dataSources: seq<DataSource>): seq<Occurrence> {
    Flatten(seq(|dataSources|, i requires 0 <= i < |dataSources| => OccurrencesOf(dataSources[i])))
  }

  /** JSON writes an undefined list element as null. */
  function JsonTopics(topics: seq<Text>): seq<Text> {
    seq(|topics|, i requires 0 <= i < |topics| => if topics[i].Undefined? then Null else topics[i])
  }

  /** The value `kind:JSON.stringify(filter)` denotes; the handler's name is not part of it. */
  function Key(handler: Handler): HandlerKind {
    match handler.on
    case OnEvent(Some(LogFilter(Some(topics)))) => OnEvent(Some(LogFilter(Some(JsonTopics(topics)))))
    case on => on
  }

  function OccurrenceKey(o: Occurrence): HandlerKind {
    Key(o.handler)
  }

  function Identity(a: Text): Text {
    a
  }

  function AddressesFor(occurrences: seq<Occurrence>, key: HandlerKind): seq<Text> {
    var members := Filter(occurrences, (o: Occurrence) => Key(o.handler) == key);
    UniqBy(seq(|members|, i requires 0 <= i < |members| => members[i].address), Identity)
  }

  function GroupFor(occurrences: seq<Occurrence>, head: Handler): Group {
    Group(head, AddressesFor(occurrences, Key(head)))
  }

  function GroupsOf(occurrences: seq<Occurrence>): seq<Group> {
    var heads := UniqBy(occurrences, OccurrenceKey);
    seq(|heads|, i requires 0 <= i < |heads| => GroupFor(occurrences, heads[i].handler))
  }

  function GroupedDataSources(dataSources: seq<DataSource>): seq<Group> {
    GroupsOf(Occurrences(dataSources))
  }

  function ValidAddresses(addresses: seq<Text>): seq<Text> {
    Filter(addresses, (a: Text) => Truthy(a))
  }

  /** An occurrence is one (data source, handler) pair of the project. */
  lemma InOccurrences(dataSources: seq<DataSource>, o: Occurrence)
    ensures o in Occurrences(dataSources) <==>
            exists d :: 0 <= d < |dataSources| && o.address == dataSources[d].address && o.handler in dataSources[d].handlers
  {
    var parts := seq(|dataSources|, i requires 0 <= i < |dataSources| => OccurrencesOf(dataSources[i]));
    InFlatten(parts, o);
    forall d | 0 <= d < |dataSources|
      ensures o in parts[d] <==> o.address == dataSources[d].address && o.handler in dataSources[d].handlers
    {
      if o.address == dataSources[d].address && o.handler in dataSources[d].handlers {
        var i :| 0 <= i < |dataSources[d].handlers| && dataSources[d].handlers[i] == o.handler;
        assert parts[d][i] == o;
      }
    }
  }

  /** A group's addresses are those of the occurrences with its key, each once. */
  lemma AddressesForExact(occurrences: seq<Occurrence>, key: HandlerKind)
    ensures DistinctKeys(AddressesFor(occurrences, key), Identity)
    ensures forall a :: a in AddressesFor(occurrences, key) <==>
                        exists o :: o in occurrences && Key(o.handler) == key && o.address == a
  {
    var members := Filter(occurrences, (o: Occurrence) => Key(o.handler) == key);
    UniqByDistinct(seq(|members|, i requires 0 <= i < |members| => members[i].address), Identity);
    forall a | a in AddressesFor(occurrences, key)
      ensures exists o :: o in occurrences && Key(o.handler) == key && o.address == a
    {
      var o := CollectedFrom(occurrences, key, a);
    }
    forall o | o in occurrences && Key(o.handler) == key ensures o.address in AddressesFor(occurrences, key) {
      AddressIsCollected(occurrences, o);
    }
  }

  lemma CollectedFrom(occurrences: seq<Occurrence>, key: HandlerKind, a: Text) returns (o: Occurrence)
    requires a in AddressesFor(occurrences, key)
    ensures o in occurrences && Key(o.handler) == key && o.address == a
  {
    var members := Filter(occurrences, (o: Occurrence) => Key(o.handler) == key);
    var addresses := seq(|members|, i requires 0 <= i < |members| => members[i].address);
    UniqByOnlyKeeps(addresses, Identity, a);
    var i :| 0 <= i < |addresses| && addresses[i] == a;
    o := members[i];
    InFilter(occurrences, (o: Occurrence) => Key(o.handler) == key, o);
  }

  lemma AddressIsCollected(occurrences: seq<Occurrence>, o: Occurrence)
    requires o in occurrences
    ensures o.address in AddressesFor(occurrences, Key(o.handler))
  {
    var key := Key(o.handler);
    var members := Filter(occurrences, (o: Occurrence) => Key(o.handler) == key);
    var addresses := seq(|members|, i requires 0 <= i < |members| => members[i].address);
    InFilter(occurrences, (o: Occurrence) => Key(o.handler) == key, o);
    var i :| 0 <= i < |members| && members[i] == o;
    assert addresses[i] == o.address;
    var y := UniqByRepresents(addresses, Identity, o.address);
  }

  /** `o` belongs to `g`: same key, and its address is among the group's. */
  predicate BelongsTo(o: Occurrence, g: Group) {
    Key(o.handler) == Key(g.handler) && o.address in g.addresses
  }

  lemma GroupsHaveDistinctKeys(occurrences: seq<Occurrence>)
    ensures forall i, j :: 0 <= i < j < |GroupsOf(occurrences)| ==>
              Key(GroupsOf(occurrences)[i].handler) != Key(GroupsOf(occurrences)[j].handler)
  {
    var heads := UniqBy(occurrences, OccurrenceKey);
    UniqByDistinct(occurrences, OccurrenceKey);
    forall i, j | 0 <= i < j < |heads| ensures Key(heads[i].handler) != Key(heads[j].handler) {
      assert OccurrenceKey(heads[i]) != OccurrenceKey(heads[j]);
    }
  }

  /** A group is headed by a handler of the project and collects the addresses of its key. */
  lemma GroupHasAHead(occurrences: seq<Occurrence>, g: Group)
    requires g in GroupsOf(occurrences)
    ensures g == GroupFor(occurrences, g.handler)
    ensures exists o :: o in occurrences && o.handler == g.handler
  {
    var heads := UniqBy(occurrences, OccurrenceKey);
    var i :| 0 <= i < |heads| && GroupsOf(occurrences)[i] == g;
    UniqByOnlyKeeps(occurrences, OccurrenceKey, heads[i]);
  }

  lemma EveryOccurrenceHasAGroup(occurrences: seq<Occurrence>, o: Occurrence)
    requires o in occurrences
    ensures exists i :: 0 <= i < |GroupsOf(occurrences)| && BelongsTo(o, GroupsOf(occurrences)[i])
  {
    var heads := UniqBy(occurrences, OccurrenceKey);
    var y := UniqByRepresents(occurrences, OccurrenceKey, o);
    var i :| 0 <= i < |heads| && heads[i] == y;
    BelongsToItsGroup(occurrences, o, y.handler);
    assert GroupsOf(occurrences)[i] == GroupFor(occurrences, y.handler);
  }

  lemma BelongsToItsGroup(occurrences: seq<Occurrence>, o: Occurrence, head: Handler)
    requires o in occurrences && Key(head) == Key(o.handler)
    ensures BelongsTo(o, GroupFor(occurrences, head))
  {
    AddressIsCollected(occurrences, o);
  }

  /**
   * Grouping is a partition: every occurrence belongs to exactly one group, and a group holds
   * nothing but the addresses, without repetition, of the occurrences that belong to it.
   */
  lemma GroupingPartitions(dataSources: seq<DataSource>)
    ensures var occurrences, groups := Occurrences(dataSources), GroupedDataSources(dataSources);
            && (forall o :: o in occurrences ==> exists i :: 0 <= i < |groups| && BelongsTo(o, groups[i]))
            && (forall o, i, j :: 0 <= i < |groups| && 0 <= j < |groups| && BelongsTo(o, groups[i]) && BelongsTo(o, groups[j]) ==> i == j)
            && (forall g :: g in groups ==> GroupIsTight(occurrences, g))
  {
    var occurrences, groups := Occurrences(dataSources), GroupedDataSources(dataSources);
    forall o | o in occurrences ensures exists i :: 0 <= i < |groups| && BelongsTo(o, groups[i]) {
      EveryOccurrenceHasAGroup(occurrences, o);
    }
    GroupsHaveDistinctKeys(occurrences);
    forall g | g in groups ensures GroupIsTight(occurrences, g) {
      GroupsAreTight(occurrences, g);
    }
  }

  /** `g` has addresses, none twice, and each comes from an occurrence that belongs to `g`. */
  ghost predicate GroupIsTight(occurrences: seq<Occurrence>, g: Group) {
    && g.addresses != []
    && DistinctKeys(g.addresses, Identity)
    && forall a :: a in g.addresses ==> exists o :: o in occurrences && o.address == a && BelongsTo(o, g)
  }

  lemma GroupsAreTight(occurrences: seq<Occurrence>, g: Group)
    requires g in GroupsOf(occurrences)
    ensures GroupIsTight(occurrences, g)
  {
    GroupHasAHead(occurrences, g);
    AddressesForExact(occurrences, Key(g.handler));
    var o :| o in occurrences && o.handler == g.handler;
    assert o.address in g.addresses;
    forall a | a in g.addresses ensures exists o :: o in occurrences && o.address == a && BelongsTo(o, g) {
      var o :| o in occurrences && Key(o.handler) == Key(g.handler) && o.address == a;
      assert BelongsTo(o, g);
    }
  }

  /** The project that has one handler of one data source and nothing else. */
  function Alone(o: Occurrence): seq<DataSource> {
    [DataSource(o.address, [o.handler])]
  }

  lemma AloneOccurs(o: Occurrence)
    ensures Occurrences(Alone(o)) == [o]
  {
    var parts := seq(1, i requires 0 <= i < 1 => OccurrencesOf(Alone(o)[i]));
    assert OccurrencesOf(Alone(o)[0]) == [o];
    assert parts == [[o]] && parts[1..] == [];
    assert Flatten(parts) == [o] + [];
  }

  lemma AloneHasItsAddress(o: Occurrence)
    ensures AddressesFor([o], Key(o.handler)) == [o.address]
  {
    var keep := (p: Occurrence) => Key(p.handler) == Key(o.handler);
    assert [o][1..] == [];
    assert Filter([o], keep) == [o];
    UniqByOne(o.address, Identity);
    assert seq(1, i requires 0 <= i < 1 => [o][i].address) == [o.address];
  }

  lemma AloneIsOneGroup(o: Occurrence)
    ensures GroupedDataSources(Alone(o)) == [Group(o.handler, [o.address])]
  {
    AloneOccurs(o);
    UniqByOne(o, OccurrenceKey);
    AloneHasItsAddress(o);
  }

  lemma UniqByOne<T, K>(x: T, key: T -> K)
    ensures UniqBy([x], key) == [x]
  {
    assert [x][..0] == [];
  }

  /** The row a handler may be dispatched on. */
  datatype Row = LogRow(log: Log) | TxRow(tx: Transaction)

  predicate WellFormedRow(row: Row) {
    match row
    case LogRow(log) => WellFormedLog(log)
    case TxRow(tx) => WellFormedTx(tx)
  }

  /** The runtime decision for one occurrence; block handlers run on neither logs nor transactions. */
  ghost predicate RuntimeAccepts(h: Hashing, on: HandlerKind, address: Text, row: Row) {
    match on
    case OnEvent(filter) => row.LogRow? && AcceptsLog(h, row.log, filter, address)
    case OnCall(filter) => row.TxRow? && AcceptsTransaction(h, row.tx, filter, address)
    case OnBlock(_) => false
  }

  /** What serialising the topics forgets, the topic filter does not look at. */
  lemma SameTopicsSameMeaning(h: Hashing, t1: seq<Text>, t2: seq<Text>, log: Log)
    requires JsonTopics(t1) == JsonTopics(t2)
    ensures |t1| == |t2|
    ensures forall i :: 0 <= i < |t1| ==> Truthy(t1[i]) == Truthy(t2[i]) && (Truthy(t1[i]) ==> t1[i] == t2[i])
    ensures MeetsTopics(h, t1, log) == MeetsTopics(h, t2, log)
  {
    assert |t1| == |JsonTopics(t1)| == |t2|;
    forall i | 0 <= i < |t1| ensures Truthy(t1[i]) == Truthy(t2[i]) && (Truthy(t1[i]) ==> t1[i] == t2[i]) {
      assert JsonTopics(t1)[i] == JsonTopics(t2)[i];
    }
    assert forall i: nat :: Demands(t1, i) == Demands(t2, i) && IsNotNull(t1, i) == IsNotNull(t2, i);
    assert forall i: nat :: Reached(t1, i) == Reached(t2, i);
    assert forall i: nat :: Demands(t1, i) ==> Meets(h, t1, i, log) == Meets(h, t2, i, log);
  }

  /** Handlers that share a key run on the same rows, so keeping the first one of a group loses nothing. */
  lemma KeyDeterminesRuntime(h: Hashing, a: Handler, b: Handler, address: Text, row: Row)
    requires Key(a) == Key(b)
    ensures RuntimeAccepts(h, a.on, address, row) == RuntimeAccepts(h, b.on, address, row)
  {
    match a.on
    case OnEvent(Some(LogFilter(Some(topics)))) =>
      if row.LogRow? {
        SameTopicsSameMeaning(h, topics, b.on.logFilter.value.topics.value, row.log);
      }
    case _ =>
  }

  /** Both handlers are of the event kind and list topics that agree but for undefined and null. */
  predicate SameListedTopics(a: HandlerKind, b: HandlerKind) {
    match (a, b)
    case (OnEvent(Some(LogFilter(Some(s)))), OnEvent(Some(LogFilter(Some(t))))) =>
      |s| == |t| && forall i :: 0 <= i < |s| ==> s[i] == t[i] || (!s[i].Str? && !t[i].Str?)
    case _ => false
  }

  /** Handlers are merged exactly when they have the same kind and filter, whatever their names. */
  lemma SameKeyIff(a: Handler, b: Handler)
    ensures Key(a) == Key(b) <==> a.on == b.on || SameListedTopics(a.on, b.on)
  {
    match (a.on, b.on)
    case (OnEvent(Some(LogFilter(Some(s)))), OnEvent(Some(LogFilter(Some(t))))) =>
      if Key(a) == Key(b) {
        assert JsonTopics(s) == JsonTopics(t);
        forall i | 0 <= i < |s| ensures |s| == |t| && (s[i] == t[i] || (!s[i].Str? && !t[i].Str?)) {
          assert |JsonTopics(s)| == |JsonTopics(t)|;
          assert JsonTopics(s)[i] == JsonTopics(t)[i];
        }
        assert |s| == |JsonTopics(s)| == |t|;
      }
      if SameListedTopics(a.on, b.on) {
        assert JsonTopics(s) == JsonTopics(t);
      }
    case _ =>
  }
}
