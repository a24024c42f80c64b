/** The first-generation dictionary query: an OR of entries, each an AND of column conditions (ethDictionaryV1.ts). */
module DictionaryV1 {
  import opened Js
  import opened Hex
  import opened Ethereum
  import opened RuntimeFilters
  import opened Grouping
  import opened Coverage

  datatype Column = AddressColumn | FromColumn | FuncColumn | ToColumn | TopicColumn(position: nat)

  datatype Condition =
    | EqualTo(column: Column, value: string)
    | In(column: Column, values: seq<string>)
    | IsNull(column: Column, isNull: bool)

  datatype Entity = EvmLogs | EvmTransactions

  datatype Entry = Entry(entity: Entity, conditions: seq<Condition>)

  // ---------- What a query selects ----------

  /** The value the index stores for a row; addresses are stored in lower case. */
  function Stored(row: Row, column: Column): Option<string> {
    match row
    case LogRow(log) =>
      (match column
       case AddressColumn => Some(Lower(log.address))
       case TopicColumn(i) => if i < |log.topics| then Some(log.topics[i]) else None
       case _ => None)
    case TxRow(tx) =>
      match column
      case FromColumn => Some(Lower(tx.from))
      case ToColumn => if tx.to.Str? then Some(Lower(tx.to.s)) else None
      case FuncColumn => if tx.input == "0x" then None else Some(Selector(tx.input))
      case _ => None
  }

  predicate Holds(c: Condition, row: Row) {
    var stored := Stored(row, c.column);
    match c
    case EqualTo(_, value) => stored == Some(value)
    case In(_, values) => stored.Some? && stored.value in values
    case IsNull(_, isNull) => stored.None? == isNull
  }

  predicate AllHold(conditions: seq<Condition>, row: Row) {
    forall c :: c in conditions ==> Holds(c, row)
  }

  predicate EntryAccepts(e: Entry, row: Row) {
    (e.entity.EvmLogs? <==> row.LogRow?) && AllHold(e.conditions, row)
  }

  predicate EntriesAccept(entries: seq<Entry>, row: Row) {
    exists e :: e in entries && EntryAccepts(e, row)
  }

  /** An empty query means that the dictionary is not used and every block is fetched. */
  predicate QueryAccepts(entries: seq<Entry>, row: Row) {
    entries == [] || EntriesAccept(entries, row)
  }

  // ---------- What the compiler builds ----------

  function AddressConditions(addresses: seq<Text>, limit: int): seq<Condition> {
    if !AddressesUsed(addresses, limit) then []
    else if |addresses| == 1 then assert addresses[0] in addresses; [EqualTo(AddressColumn, Lower(addresses[0].s))]
    else [In(AddressColumn, LowerValid(addresses))]
  }

  function TopicCondition(h: Hashing, topics: seq<Text>, i: nat): Condition
    requires Demands(topics, i)
  {
    if topics[i].s == NOT_NULL_FILTER then IsNull(TopicColumn(i), false)
    else EqualTo(TopicColumn(i), EventToTopic(h, topics[i].s))
  }

  function TopicConditions(h: Hashing, topics: seq<Text>, n: nat): seq<Condition> {
    if n == 0 then []
    else TopicConditions(h, topics, n - 1) + if Demands(topics, n - 1) then [TopicCondition(h, topics, n - 1)] else []
  }

  function EventEntry(h: Hashing, filter: Option<LogFilter>, addresses: seq<Text>, limit: int): Entry {
    Entry(EvmLogs, AddressConditions(addresses, limit) + TopicConditions(h, TopicsOf(filter), MAX_TOPICS))
  }

  function Retarget(c: Condition): Condition {
    if c.column.AddressColumn? then c.(column := ToColumn) else c
  }

  function RetargetAll(cs: seq<Condition>): seq<Condition> {
    seq(|cs|, i requires 0 <= i < |cs| => Retarget(cs[i]))
  }

  function FromConditions(from: Text): seq<Condition> {
    if Truthy(from) then [EqualTo(FromColumn, Lower(from.s))] else []
  }

  function ToConditions(to: Text): seq<Condition> {
    if Truthy(to) then [EqualTo(ToColumn, Lower(to.s))] else if to.Null? then [IsNull(ToColumn, true)] else []
  }

  function FuncConditions(h: Hashing, func: Text): seq<Condition> {
    if func.Null? || func == Str("0x") then [IsNull(FuncColumn, true)]
    else if Truthy(func) then [EqualTo(FuncColumn, FunctionToSighash(h, func.s))]
    else []
  }

  function CallEntry(h: Hashing, filter: Option<TxFilter>, addresses: seq<Text>, limit: int): Entry {
    var options := RetargetAll(AddressConditions(addresses, limit));
    Entry(EvmTransactions,
          match filter
          case None => options
          case Some(f) =>
            options + FromConditions(f.from)
            + (if AddressesUsed(addresses, limit) then [] else ToConditions(f.to))
            + FuncConditions(h, f.func))
  }

  /** One turn of the build loop: give up on the dictionary, add nothing, or add an entry. */
  datatype Turn = GiveUp | Skip | Push(entry: Entry)

  function TurnFor(h: Hashing, g: Group, limit: int): Turn {
    if !Constrained(g) then GiveUp
    else
      match g.handler.on
      case OnBlock(_) => Skip
      case OnCall(filter) => Push(CallEntry(h, filter, g.addresses, limit))
      case OnEvent(filter) => Push(EventEntry(h, filter, g.addresses, limit))
  }

  function EntriesOf(h: Hashing, groups: seq<Group>, limit: int): Option<seq<Entry>> {
    if groups == [] then Some([])
    else
      match EntriesOf(h, groups[..|groups| - 1], limit)
      case None => None
      case Some(entries) =>
        match TurnFor(h, groups[|groups| - 1], limit)
        case GiveUp => None
        case Skip => Some(entries)
        case Push(e) => Some(entries + [e])
  }

  /** Stable insertion into conditions sorted by column name. */
  function Rank(c: Condition): nat {
    match c.column
    case AddressColumn => 0
    case FromColumn => 1
    case FuncColumn => 2
    case ToColumn => 3
    case TopicColumn(i) => 4 + i
  }

  function InsertByColumn(c: Condition, sorted: seq<Condition>): seq<Condition> {
    if sorted == [] || Rank(c) <= Rank(sorted[0]) then [c] + sorted
    else [sorted[0]] + InsertByColumn(c, sorted[1..])
  }

  function SortByColumn(cs: seq<Condition>): seq<Condition> {
    if cs == [] then [] else InsertByColumn(cs[0], SortByColumn(cs[1..]))
  }

  function EntryKey(e: Entry): Entry {
    e.(conditions := SortByColumn(e.conditions))
  }

  function Query(h: Hashing, dataSources: seq<DataSource>, limit: int): seq<Entry> {
    match EntriesOf(h, GroupedDataSources(dataSources), limit)
    case None => []
    case Some(entries) => UniqBy(entries, EntryKey)
  }

  // ---------- The compiler, as the source runs it ----------

  method ApplyAddresses(conditions: seq<Condition>, addresses: seq<Text>, limit: int) returns (r: seq<Condition>)
    ensures r == conditions + AddressConditions(addresses, limit)
    ensures |addresses| > limit || addresses == [] || (exists a :: a in addresses && !Truthy(a)) ==> r == conditions
    ensures 1 == |addresses| <= limit && Truthy(addresses[0]) ==>
              r == conditions + [EqualTo(AddressColumn, Lower(addresses[0].s))]
    ensures 1 < |addresses| <= limit && (forall a :: a in addresses ==> Truthy(a)) ==>
              r == conditions + [In(AddressColumn, LowerValid(addresses))]
  {
    if addresses == [] || |addresses| > limit || Filter(addresses, a => !Truthy(a)) != [] {
      FilterEmpty(addresses, a => !Truthy(a));
      return conditions;
    }
    FilterEmpty(addresses, a => !Truthy(a));
    var filterAddresses := LowerValid(addresses);
    if |addresses| == 1 {
      r := conditions + [EqualTo(AddressColumn, filterAddresses[0])];
    } else {
      r := conditions + [In(AddressColumn, filterAddresses)];
    }
  }

  method EventFilterToQueryEntry(h: Hashing, filter: Option<LogFilter>, addresses: seq<Text>, limit: int)
    returns (entry: Entry)
    ensures entry == EventEntry(h, filter, addresses, limit)
  {
    var conditions := ApplyAddresses([], addresses, limit);
    ghost var start := conditions;
    if filter.Some? && filter.value.topics.Some? {
      var topics := filter.value.topics.value;
      var i := 0;
      while i < Min(|topics|, MAX_TOPICS)
        invariant 0 <= i <= MAX_TOPICS && (i <= |topics|)
        invariant conditions == start + TopicConditions(h, topics, i)
      {
        OneMoreTopic(h, topics, i);
        var topic := topics[i];
        i := i + 1;
        if !Truthy(topic) {
          continue;
        }
        if topic.s == NOT_NULL_FILTER {
          conditions := conditions + [IsNull(TopicColumn(i - 1), false)];
        } else {
          conditions := conditions + [EqualTo(TopicColumn(i - 1), EventToTopic(h, topic.s))];
        }
      }
      NoTopicConditionsBeyond(h, topics, i, MAX_TOPICS);
    } else {
      NoTopicConditionsBeyond(h, [], 0, MAX_TOPICS);
    }
    return Entry(EvmLogs, conditions);
  }

  lemma OneMoreTopic(h: Hashing, topics: seq<Text>, i: nat)
    ensures TopicConditions(h, topics, i + 1) ==
            TopicConditions(h, topics, i) + if Demands(topics, i) then [TopicCondition(h, topics, i)] else []
  {
  }

  lemma {:induction false} NoTopicConditionsBeyond(h: Hashing, topics: seq<Text>, n: nat, m: nat)
    requires Min(|topics|, MAX_TOPICS) <= n <= m
    ensures TopicConditions(h, topics, m) == TopicConditions(h, topics, n)
  {
    if n < m {
      NoTopicConditionsBeyond(h, topics, n, m - 1);
    }
  }

  /** The loop that renames address conditions to recipient conditions in place. */
  method RetargetConditions(conditions: seq<Condition>) returns (r: seq<Condition>)
    ensures r == RetargetAll(conditions)
  {
    r := conditions;
    for i := 0 to |r|
      invariant |r| == |conditions|
      invariant forall j :: 0 <= j < i ==> r[j] == Retarget(conditions[j])
      invariant forall j :: i <= j < |r| ==> r[j] == conditions[j]
    {
      if r[i].column.AddressColumn? {
        r := r[i := r[i].(column := ToColumn)];
      }
    }
  }

  method CallFilterToQueryEntry(h: Hashing, filter: Option<TxFilter>, addresses: seq<Text>, limit: int)
    returns (entry: Entry)
    ensures entry == CallEntry(h, filter, addresses, limit)
  {
    var applied := ApplyAddresses([], addresses, limit);
    assert applied == AddressConditions(addresses, limit);
    var conditions := RetargetConditions(applied);
    if filter.None? {
      return Entry(EvmTransactions, conditions);
    }
    var f := filter.value;
    ghost var options := conditions;
    if Truthy(f.from) {
      conditions := conditions + [EqualTo(FromColumn, Lower(f.from.s))];
    }
    assert conditions == options + FromConditions(f.from);
    ghost var withFrom := conditions;
    RecipientConditionIsThere(addresses, limit, f.from);
    var hasTo := exists c :: c in conditions && c.column == ToColumn;
    if !hasTo {
      if Truthy(f.to) {
        conditions := conditions + [EqualTo(ToColumn, Lower(f.to.s))];
      } else if f.to.Null? {
        conditions := conditions + [IsNull(ToColumn, true)];
      }
    }
    assert conditions == withFrom + if AddressesUsed(addresses, limit) then [] else ToConditions(f.to);
    ghost var withTo := conditions;
    if f.func.Null? || f.func == Str("0x") {
      conditions := conditions + [IsNull(FuncColumn, true)];
    } else if Truthy(f.func) {
      conditions := conditions + [EqualTo(FuncColumn, FunctionToSighash(h, f.func.s))];
    }
    assert conditions == withTo + FuncConditions(h, f.func);
    return Entry(EvmTransactions, conditions);
  }

  /** The source finds a recipient condition exactly when the addresses were used. */
  lemma RecipientConditionIsThere(addresses: seq<Text>, limit: int, from: Text)
    ensures (exists c :: c in RetargetAll(AddressConditions(addresses, limit)) + FromConditions(from) && c.column == ToColumn)
            <==> AddressesUsed(addresses, limit)
  {
    var conditions := RetargetAll(AddressConditions(addresses, limit)) + FromConditions(from);
    if AddressesUsed(addresses, limit) {
      assert conditions[0].column == ToColumn && conditions[0] in conditions;
    }
  }

  method BuildDictionaryV1QueryEntries(h: Hashing, dataSources: seq<DataSource>, limit: int)
    returns (entries: seq<Entry>)
    ensures entries == Query(h, dataSources, limit)
  {
    var queryEntries: seq<Entry> := [];
    var groups := GroupedDataSources(dataSources);
    for n := 0 to |groups|
      invariant EntriesOf(h, groups[..n], limit) == Some(queryEntries)
    {
      var Group(handler, addresses) := groups[n];
      OneTurn(h, groups, n, limit);
      if HasNoFilter(handler.on) && addresses == [] {
        GivesUpForGood(h, groups, n + 1, limit);
        return [];
      }
      match handler.on {
        case OnBlock(filter) =>
          if filter.None? || filter.value.modulo.None? {
            GivesUpForGood(h, groups, n + 1, limit);
            return [];
          }
        case OnCall(filter) =>
          if (filter.None? || !HasDefined(filter.value)) && ValidAddresses(addresses) == [] {
            GivesUpForGood(h, groups, n + 1, limit);
            return [];
          }
          var entry := CallFilterToQueryEntry(h, filter, addresses, limit);
          queryEntries := queryEntries + [entry];
        case OnEvent(filter) =>
          if TopicsOf(filter) == [] && ValidAddresses(addresses) == [] {
            GivesUpForGood(h, groups, n + 1, limit);
            return [];
          }
          var entry := EventFilterToQueryEntry(h, filter, addresses, limit);
          queryEntries := queryEntries + [entry];
      }
    }
    assert groups[..|groups|] == groups;
    return UniqBy(queryEntries, EntryKey);
  }

  lemma OneTurn(h: Hashing, groups: seq<Group>, n: nat, limit: int)
    requires n < |groups|
    ensures EntriesOf(h, groups[..n + 1], limit) ==
            match EntriesOf(h, groups[..n], limit)
            case None => None
            case Some(entries) =>
              match TurnFor(h, groups[n], limit)
              case GiveUp => None
              case Skip => Some(entries)
              case Push(e) => Some(entries + [e])
  {
    assert groups[..n + 1][..n] == groups[..n];
  }

  /** Once a turn gives up, the whole build does. */
  lemma {:induction false} GivesUpForGood(h: Hashing, groups: seq<Group>, n: nat, limit: int)
    requires n <= |groups| && EntriesOf(h, groups[..n], limit).None?
    ensures EntriesOf(h, groups, limit).None?
    decreases |groups| - n
  {
    if n == |groups| {
      assert groups[..n] == groups;
    } else {
      OneTurn(h, groups, n, limit);
      GivesUpForGood(h, groups, n + 1, limit);
    }
  }

  // ---------- What entries select ----------

  lemma {:induction false} InTopicConditions(h: Hashing, topics: seq<Text>, n: nat, c: Condition)
    ensures c in TopicConditions(h, topics, n) <==>
            exists i: nat :: i < n && Demands(topics, i) && c == TopicCondition(h, topics, i)
  {
    if n > 0 {
      InTopicConditions(h, topics, n - 1, c);
    }
  }

  lemma TopicConditionsMeaning(h: Hashing, topics: seq<Text>, row: Row)
    ensures AllHold(TopicConditions(h, topics, MAX_TOPICS), row) <==>
            forall i: nat :: Demands(topics, i) ==> Holds(TopicCondition(h, topics, i), row)
  {
    forall c ensures c in TopicConditions(h, topics, MAX_TOPICS) <==>
                     exists i: nat :: i < MAX_TOPICS && Demands(topics, i) && c == TopicCondition(h, topics, i)
    {
      InTopicConditions(h, topics, MAX_TOPICS, c);
    }
    forall i: nat | Demands(topics, i) ensures TopicCondition(h, topics, i) in TopicConditions(h, topics, MAX_TOPICS) {
    }
  }

  lemma LowerValidOfOne(addresses: seq<Text>)
    requires |addresses| == 1 && Truthy(addresses[0])
    ensures LowerValid(addresses) == [Lower(addresses[0].s)]
  {
    assert LowerValid(addresses[1..]) == [];
  }

  lemma AddressConditionsMeaning(addresses: seq<Text>, limit: int, row: Row)
    ensures AllHold(AddressConditions(addresses, limit), row) <==>
            (AddressesUsed(addresses, limit) ==>
               Stored(row, AddressColumn).Some? && Stored(row, AddressColumn).value in LowerValid(addresses))
    ensures AllHold(RetargetAll(AddressConditions(addresses, limit)), row) <==>
            (AddressesUsed(addresses, limit) ==>
               Stored(row, ToColumn).Some? && Stored(row, ToColumn).value in LowerValid(addresses))
  {
    if AddressesUsed(addresses, limit) {
      if |addresses| == 1 {
        LowerValidOfOne(addresses);
        assert addresses[0] in addresses;
      }
      var c := AddressConditions(addresses, limit)[0];
      assert AddressConditions(addresses, limit) == [c];
      assert RetargetAll([c]) == [Retarget(c)];
      AllHoldOne(c, row);
      AllHoldOne(Retarget(c), row);
    }
  }

  /** A compiled event entry: the address list, if used, and every topic position that demands something. */
  lemma EventEntryMeaning(h: Hashing, filter: Option<LogFilter>, addresses: seq<Text>, limit: int, row: Row)
    ensures EntryAccepts(EventEntry(h, filter, addresses, limit), row) <==>
            && row.LogRow?
            && (AddressesUsed(addresses, limit) ==> Lower(row.log.address) in LowerValid(addresses))
            && (forall i: nat :: Demands(TopicsOf(filter), i) ==> Holds(TopicCondition(h, TopicsOf(filter), i), row))
  {
    TopicConditionsMeaning(h, TopicsOf(filter), row);
    AddressConditionsMeaning(addresses, limit, row);
    AllHoldConcat(AddressConditions(addresses, limit), TopicConditions(h, TopicsOf(filter), MAX_TOPICS), row);
  }

  lemma AllHoldOne(c: Condition, row: Row)
    ensures AllHold([c], row) <==> Holds(c, row)
  {
    assert c in [c];
  }

  lemma AllHoldConcat(a: seq<Condition>, b: seq<Condition>, row: Row)
    ensures AllHold(a + b, row) <==> AllHold(a, row) && AllHold(b, row)
  {
    assert forall c :: c in a + b <==> c in a || c in b;
  }

  /** A compiled call entry: the recipient comes from the addresses when they are used, else from the filter. */
  lemma CallEntryMeaning(h: Hashing, filter: Option<TxFilter>, addresses: seq<Text>, limit: int, row: Row)
    ensures EntryAccepts(CallEntry(h, filter, addresses, limit), row) <==>
            && row.TxRow?
            && (AddressesUsed(addresses, limit) ==> row.tx.to.Str? && Lower(row.tx.to.s) in LowerValid(addresses))
            && (filter.Some? ==>
                  && AllHold(FromConditions(filter.value.from), row)
                  && (AddressesUsed(addresses, limit) || AllHold(ToConditions(filter.value.to), row))
                  && AllHold(FuncConditions(h, filter.value.func), row))
  {
    AddressConditionsMeaning(addresses, limit, row);
    if filter.Some? {
      var f := filter.value;
      var options := RetargetAll(AddressConditions(addresses, limit));
      var to := if AddressesUsed(addresses, limit) then [] else ToConditions(f.to);
      AllHoldConcat(options, FromConditions(f.from), row);
      AllHoldConcat(options + FromConditions(f.from), to, row);
      AllHoldConcat(options + FromConditions(f.from) + to, FuncConditions(h, f.func), row);
    }
  }
}
