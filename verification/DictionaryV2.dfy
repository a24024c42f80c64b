/** The second-generation dictionary query: lists of records of allowed values (ethDictionaryV2.ts). */
module DictionaryV2 {
  import opened Js
  import opened Hex
  import opened Ethereum
  import opened RuntimeFilters
  import opened Grouping
  import opened Coverage

  /** A field that is absent, or whose list is empty, allows every value. */
  datatype LogCondition = LogCondition(address: Option<seq<string>>, topics: map<nat, seq<string>>)

  datatype TxCondition = TxCondition(
    to: Option<seq<Text>>, from: Option<seq<string>>, data: Option<seq<string>>, typ: Option<seq<string>>)

  datatype QueryEntry = QueryEntry(logs: Option<seq<LogCondition>>, transactions: Option<seq<TxCondition>>)

  datatype LogField = AddressField | TopicField(position: nat)

  datatype TxField = ToField | FromField | DataField | TypeField

  /** The filters the dictionary offers; no list means every one of them. */
  datatype Available = Available(logs: Option<set<LogField>>, transactions: Option<set<TxField>>)

  const NoDictionary := QueryEntry(None, None)

  // ---------- What a query selects ----------

  predicate Allows<T(==)>(field: Option<seq<T>>, value: T) {
    field.None? || field.value == [] || value in field.value
  }

  /** The topic at a position, as the list of values it can match: none when the log has no such topic. */
  predicate AllowsTopic(values: seq<string>, log: Log, i: nat) {
    values == [] || (i < |log.topics| && log.topics[i] in values)
  }

  predicate SelectsLog(c: LogCondition, log: Log) {
    && Allows(c.address, Lower(log.address))
    && forall i :: i in c.topics ==> AllowsTopic(c.topics[i], log, i)
  }

  /** The index stores lower-case addresses, null for a missing recipient, and the input's selector. */
  predicate SelectsTx(c: TxCondition, tx: Transaction) {
    && Allows(c.to, if tx.to.Str? then Str(Lower(tx.to.s)) else Null)
    && Allows(c.from, Lower(tx.from))
    && Allows(c.data, Selector(tx.input))
    && Allows(c.typ, tx.typ)
  }

  /** `{}` means that the dictionary is not used; otherwise an absent list selects nothing. */
  predicate QuerySelects(q: QueryEntry, row: Row) {
    || q == NoDictionary
    || match row
       case LogRow(log) => q.logs.Some? && exists c :: c in q.logs.value && SelectsLog(c, log)
       case TxRow(tx) => q.transactions.Some? && exists c :: c in q.transactions.value && SelectsTx(c, tx)
  }

  // ---------- What the compiler builds ----------

  predicate Offers<F(==)>(available: Option<set<F>>, field: F) {
    available.None? || field in available.value
  }

  function UsedAddresses(addresses: seq<Text>, limit: int): seq<string> {
    if AddressesUsed(addresses, limit) then LowerValid(addresses) else []
  }

  /** Null and undefined recipients: null is a value to match, undefined is no constraint. */
  function ToValues(to: Text): seq<Text> {
    match to
    case Undefined => []
    case Null => [Null]
    case Str(s) => [Str(Lower(s))]
  }

  function AsTexts(xs: seq<string>): seq<Text> {
    seq(|xs|, i requires 0 <= i < |xs| => Str(xs[i]))
  }

  /** `setValue`: unavailable fields and empty lists are left out. */
  function SetValue<T>(available: Option<set<TxField>>, field: TxField, values: seq<T>): Option<seq<T>> {
    if !Offers(available, field) || values == [] then None else Some(values)
  }

  function CallCondition(h: Hashing, filter: Option<TxFilter>, addresses: seq<Text>, limit: int, available: Option<set<TxField>>): TxCondition {
    var used := UsedAddresses(addresses, limit);
    TxCondition(
      SetValue(available, ToField,
               if used != [] then AsTexts(used) else if filter.Some? then ToValues(filter.value.to) else []),
      SetValue(available, FromField,
               if filter.Some? && Truthy(filter.value.from) then [Lower(filter.value.from.s)] else []),
      SetValue(available, DataField,
               if filter.Some? && Truthy(filter.value.func) then [FunctionToSighash(h, filter.value.func.s)] else []),
      SetValue(available, TypeField,
               if filter.Some? && Truthy(filter.value.typ) then [filter.value.typ.s] else []))
  }

  /** The values put at a topic position that demands something: '!null' puts none. */
  function TopicValues(h: Hashing, topics: seq<Text>, i: nat): seq<string>
    requires Demands(topics, i)
  {
    if topics[i].s == NOT_NULL_FILTER then [] else [EventToTopic(h, topics[i].s)]
  }

  function TopicMap(h: Hashing, topics: seq<Text>, available: Option<set<LogField>>, n: nat): map<nat, seq<string>> {
    map i: nat | i < n && Demands(topics, i) && Offers(available, TopicField(i)) :: TopicValues(h, topics, i)
  }

  function EventCondition(h: Hashing, filter: Option<LogFilter>, addresses: seq<Text>, limit: int, available: Option<set<LogField>>): LogCondition {
    LogCondition(if Offers(available, AddressField) then Some(UsedAddresses(addresses, limit)) else None,
                 TopicMap(h, TopicsOf(filter), available, MAX_TOPICS))
  }

  /** A group that makes the compiler give up on the dictionary: in practice a block handler without modulo. */
  predicate GivesUp(g: Group) {
    || (HasNoFilter(g.handler.on) && g.addresses == [])
    || (g.handler.on.OnBlock? && !Constrained(g))
  }

  predicate SomeGivesUp(groups: seq<Group>) {
    exists g :: g in groups && GivesUp(g)
  }

  /** What one group adds to the conditions collected so far. */
  function NewLogs(h: Hashing, g: Group, limit: int, available: Available): seq<LogCondition> {
    if g.handler.on.OnEvent? && Constrained(g)
    then [EventCondition(h, g.handler.on.logFilter, g.addresses, limit, available.logs)] else []
  }

  function NewTxs(h: Hashing, g: Group, limit: int, available: Available): seq<TxCondition> {
    if g.handler.on.OnCall? && Constrained(g)
    then [CallCondition(h, g.handler.on.txFilter, g.addresses, limit, available.transactions)] else []
  }

  function LogsOf(h: Hashing, groups: seq<Group>, limit: int, available: Available): seq<LogCondition> {
    if groups == [] then []
    else LogsOf(h, groups[..|groups| - 1], limit, available) + NewLogs(h, groups[|groups| - 1], limit, available)
  }

  function TxsOf(h: Hashing, groups: seq<Group>, limit: int, available: Available): seq<TxCondition> {
    if groups == [] then []
    else TxsOf(h, groups[..|groups| - 1], limit, available) + NewTxs(h, groups[|groups| - 1], limit, available)
  }

  function SameLog(c: LogCondition): LogCondition { c }

  function SameTx(c: TxCondition): TxCondition { c }

  function Sanitise(logs: seq<LogCondition>, txs: seq<TxCondition>): QueryEntry {
    QueryEntry(if logs == [] then None else Some(UniqBy(logs, SameLog)),
               if txs == [] then None else Some(UniqBy(txs, SameTx)))
  }

  function Query(h: Hashing, dataSources: seq<DataSource>, limit: int, available: Available): QueryEntry {
    var groups := GroupedDataSources(dataSources);
    if SomeGivesUp(groups) then NoDictionary
    else Sanitise(LogsOf(h, groups, limit, available), TxsOf(h, groups, limit, available))
  }

  // ---------- The compiler, as the source runs it ----------

  method ApplyAddresses(addresses: seq<Text>, limit: int) returns (r: seq<string>)
    ensures r == UsedAddresses(addresses, limit)
    ensures |addresses| > limit || addresses == [] || (exists a :: a in addresses && !Truthy(a)) ==> r == []
    ensures |addresses| <= limit && (forall a :: a in addresses ==> Truthy(a)) ==> r == LowerValid(addresses)
  {
    FilterEmpty(addresses, a => !Truthy(a));
    if addresses == [] || |addresses| > limit || Filter(addresses, a => !Truthy(a)) != [] {
      return [];
    }
    return LowerValid(addresses);
  }

  method CallFilterToDictionaryCondition(
    h: Hashing, filter: Option<TxFilter>, addresses: seq<Text>, limit: int, available: Option<set<TxField>>)
    returns (c: TxCondition)
    ensures c == CallCondition(h, filter, addresses, limit, available)
  {
    var toArray: seq<Text>, fromArray: seq<string>, funcArray: seq<string> := [], [], [];
    if filter.Some? && Truthy(filter.value.from) {
      fromArray := fromArray + [Lower(filter.value.from.s)];
      assert fromArray == [Lower(filter.value.from.s)];
    }
    var optionsAddresses := ApplyAddresses(addresses, limit);
    if optionsAddresses == [] {
      if filter.Some? {
        toArray := toArray + ToValues(filter.value.to);
        assert toArray == ToValues(filter.value.to);
      }
    } else {
      for i := 0 to |optionsAddresses|
        invariant toArray == AsTexts(LowerAll(optionsAddresses))[..i]
      {
        toArray := toArray + ToValues(Str(optionsAddresses[i]));
      }
      LowerValidIsLower(addresses);
      assert toArray == AsTexts(optionsAddresses);
    }
    if filter.Some? && Truthy(filter.value.func) {
      funcArray := funcArray + [FunctionToSighash(h, filter.value.func.s)];
      assert funcArray == [FunctionToSighash(h, filter.value.func.s)];
    }
    c := TxCondition(None, None, None, None);
    c := c.(to := SetValue(available, ToField, toArray));
    c := c.(from := SetValue(available, FromField, fromArray));
    c := c.(data := SetValue(available, DataField, funcArray));
    if filter.Some? && Truthy(filter.value.typ) {
      c := c.(typ := SetValue(available, TypeField, [filter.value.typ.s]));
    }
  }

  lemma {:induction false} LowerValidIsLower(addresses: seq<Text>)
    ensures LowerAll(LowerValid(addresses)) == LowerValid(addresses)
  {
    if addresses != [] {
      LowerValidIsLower(addresses[1..]);
      var rest := LowerValid(addresses[1..]);
      if Truthy(addresses[0]) {
        var first := Lower(addresses[0].s);
        assert Lower(first) == first;
        assert LowerAll([first] + rest) == [first] + LowerAll(rest);
      } else {
        assert LowerValid(addresses) == rest;
      }
    }
  }

  method EventFilterToDictionaryCondition(
    h: Hashing, filter: Option<LogFilter>, addresses: seq<Text>, limit: int, available: Option<set<LogField>>)
    returns (c: LogCondition)
    ensures c == EventCondition(h, filter, addresses, limit, available)
  {
    var address: Option<seq<string>>, fields: map<nat, seq<string>> := None, map[];
    if Offers(available, AddressField) {
      var used := ApplyAddresses(addresses, limit);
      address := Some(used);
    }
    if filter.Some? && filter.value.topics.Some? {
      var topics := filter.value.topics.value;
      for i := 0 to Min(|topics|, MAX_TOPICS)
        invariant fields == TopicMap(h, topics, available, i)
      {
        TopicMapStep(h, topics, available, i);
        fields := AddTopic(h, topics[i], i, available, fields);
      }
      assert TopicMap(h, topics, available, Min(|topics|, MAX_TOPICS)) == TopicMap(h, topics, available, MAX_TOPICS);
    }
    c := LogCondition(address, fields);
  }

  /** The body of the topic loop. */
  method AddTopic(h: Hashing, topic: Text, field: nat, available: Option<set<LogField>>, fields: map<nat, seq<string>>)
    returns (r: map<nat, seq<string>>)
    requires field !in fields
    ensures r == if Truthy(topic) && Offers(available, TopicField(field))
                 then fields[field := if topic.s == NOT_NULL_FILTER then [] else [EventToTopic(h, topic.s)]] else fields
  {
    if !Truthy(topic) {
      return fields;
    }
    if !Offers(available, TopicField(field)) {
      return fields;
    }
    r := fields;
    if field !in r {
      r := r[field := []];
    }
    if topic.s == NOT_NULL_FILTER {
      r := r[field := []];
    } else {
      var values := r[field] + [EventToTopic(h, topic.s)];
      assert values == [EventToTopic(h, topic.s)];
      r := r[field := values];
    }
  }

  lemma TopicMapStep(h: Hashing, topics: seq<Text>, available: Option<set<LogField>>, n: nat)
    ensures TopicMap(h, topics, available, n + 1) ==
            if Demands(topics, n) && Offers(available, TopicField(n))
            then TopicMap(h, topics, available, n)[n := TopicValues(h, topics, n)]
            else TopicMap(h, topics, available, n)
  {
  }

  method SanitiseDictionaryConditions(q: QueryEntry) returns (r: QueryEntry)
    requires q.logs.Some? && q.transactions.Some?
    ensures r == Sanitise(q.logs.value, q.transactions.value)
  {
    r := q;
    if r.logs.value == [] {
      r := r.(logs := None);
    } else {
      r := r.(logs := Some(UniqBy(r.logs.value, SameLog)));
    }
    if r.transactions.value == [] {
      r := r.(transactions := None);
    } else {
      r := r.(transactions := Some(UniqBy(r.transactions.value, SameTx)));
    }
  }

  /** The body of the build loop; `None` stands for the early `return {}`. */
  method AddGroup(h: Hashing, q: QueryEntry, g: Group, limit: int, available: Available) returns (r: Option<QueryEntry>)
    requires q.logs.Some? && q.transactions.Some?
    ensures r == if GivesUp(g) then None
                 else Some(QueryEntry(Some(q.logs.value + NewLogs(h, g, limit, available)),
                                      Some(q.transactions.value + NewTxs(h, g, limit, available))))
  {
    if HasNoFilter(g.handler.on) && g.addresses == [] {
      return None;
    }
    var logs, txs := q.logs.value, q.transactions.value;
    assert logs + [] == logs && txs + [] == txs;
    match g.handler.on {
      case OnBlock(filter) =>
        if filter.None? || filter.value.modulo.None? {
          return None;
        }
      case OnCall(filter) =>
        if (filter.Some? && HasDefined(filter.value)) || ValidAddresses(g.addresses) != [] {
          var c := CallFilterToDictionaryCondition(h, filter, g.addresses, limit, available.transactions);
          txs := txs + [c];
        }
      case OnEvent(filter) =>
        if TopicsOf(filter) != [] || ValidAddresses(g.addresses) != [] {
          var c := EventFilterToDictionaryCondition(h, filter, g.addresses, limit, available.logs);
          logs := logs + [c];
        }
    }
    r := Some(QueryEntry(Some(logs), Some(txs)));
  }

  method BuildDictionaryV2QueryEntry(h: Hashing, dataSources: seq<DataSource>, limit: int, available: Available)
    returns (q: QueryEntry)
    ensures q == Query(h, dataSources, limit, available)
  {
    var conditions := QueryEntry(Some([]), Some([]));
    var groups := GroupedDataSources(dataSources);
    for n := 0 to |groups|
      invariant conditions.logs == Some(LogsOf(h, groups[..n], limit, available))
      invariant conditions.transactions == Some(TxsOf(h, groups[..n], limit, available))
      invariant !SomeGivesUp(groups[..n])
    {
      CollectOne(h, groups, n, limit, available);
      var added := AddGroup(h, conditions, groups[n], limit, available);
      if added.None? {
        GivingUpIsFinal(h, dataSources, limit, available, n);
        return NoDictionary;
      }
      conditions := added.value;
    }
    assert groups[..|groups|] == groups;
    q := SanitiseDictionaryConditions(conditions);
  }

  lemma CollectOne(h: Hashing, groups: seq<Group>, n: nat, limit: int, available: Available)
    requires n < |groups|
    ensures LogsOf(h, groups[..n + 1], limit, available) ==
            LogsOf(h, groups[..n], limit, available) + NewLogs(h, groups[n], limit, available)
    ensures TxsOf(h, groups[..n + 1], limit, available) ==
            TxsOf(h, groups[..n], limit, available) + NewTxs(h, groups[n], limit, available)
    ensures SomeGivesUp(groups[..n + 1]) <==> SomeGivesUp(groups[..n]) || GivesUp(groups[n])
  {
    assert groups[..n + 1][..n] == groups[..n];
    assert forall g :: g in groups[..n + 1] <==> g in groups[..n] || g == groups[n];
  }

  lemma GivingUpIsFinal(h: Hashing, dataSources: seq<DataSource>, limit: int, available: Available, n: nat)
    requires n < |GroupedDataSources(dataSources)| && GivesUp(GroupedDataSources(dataSources)[n])
    ensures Query(h, dataSources, limit, available) == NoDictionary
  {
    assert GroupedDataSources(dataSources)[n] in GroupedDataSources(dataSources);
  }

  /** The guard on a missing filter and no addresses never fires: a group always lists an address. */
  lemma OnlyBlockHandlersGiveUp(dataSources: seq<DataSource>, g: Group)
    requires g in GroupedDataSources(dataSources)
    ensures GivesUp(g) <==> g.handler.on.OnBlock? && !Constrained(g)
  {
    GroupsAreTight(Occurrences(dataSources), g);
  }
}
