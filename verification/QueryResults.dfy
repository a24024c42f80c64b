/** What the compilers return holds no entry twice, in whatever order an entry lists its conditions. */
module QueryResults {
  import opened Js
  import opened Ethereum
  import opened RuntimeFilters
  import opened Grouping
  import opened Coverage
  import V1 = DictionaryV1
  import V1Soundness
  import V2 = DictionaryV2
  import V2Soundness

  // ---------- Sorting conditions by column ----------

  /** No two conditions are about one column. */
  predicate DistinctColumns(cs: seq<V1.Condition>) {
    forall i, j :: 0 <= i < j < |cs| ==> V1.Rank(cs[i]) != V1.Rank(cs[j])
  }

  predicate Ascending(cs: seq<V1.Condition>) {
    forall i, j :: 0 <= i < j < |cs| ==> V1.Rank(cs[i]) < V1.Rank(cs[j])
  }

  lemma {:induction false} InsertPermutes(c: V1.Condition, sorted: seq<V1.Condition>)
    ensures multiset(V1.InsertByColumn(c, sorted)) == multiset([c]) + multiset(sorted)
  {
    if !(sorted == [] || V1.Rank(c) <= V1.Rank(sorted[0])) {
      InsertPermutes(c, sorted[1..]);
      assert sorted == [sorted[0]] + sorted[1..];
    }
  }

  lemma {:induction false} SortPermutes(cs: seq<V1.Condition>)
    ensures multiset(V1.SortByColumn(cs)) == multiset(cs)
  {
    if cs != [] {
      SortPermutes(cs[1..]);
      InsertPermutes(cs[0], V1.SortByColumn(cs[1..]));
      assert cs == [cs[0]] + cs[1..];
    }
  }

  lemma {:induction false} InsertAscends(c: V1.Condition, sorted: seq<V1.Condition>)
    requires Ascending(sorted) && forall x :: x in sorted ==> V1.Rank(x) != V1.Rank(c)
    ensures Ascending(V1.InsertByColumn(c, sorted))
  {
    if sorted != [] && V1.Rank(c) > V1.Rank(sorted[0]) {
      InsertAscends(c, sorted[1..]);
      forall x | x in V1.InsertByColumn(c, sorted[1..]) ensures V1.Rank(sorted[0]) < V1.Rank(x) {
        V1Soundness.InInsert(c, sorted[1..], x);
      }
    }
  }

  lemma {:induction false} SortAscends(cs: seq<V1.Condition>)
    requires DistinctColumns(cs)
    ensures Ascending(V1.SortByColumn(cs))
  {
    if cs != [] {
      SortAscends(cs[1..]);
      forall x | x in V1.SortByColumn(cs[1..]) ensures V1.Rank(x) != V1.Rank(cs[0]) {
        V1Soundness.InSort(cs[1..], x);
      }
      InsertAscends(cs[0], V1.SortByColumn(cs[1..]));
    }
  }

  lemma FirstIsLeast(cs: seq<V1.Condition>, x: V1.Condition)
    requires Ascending(cs) && x in cs
    ensures V1.Rank(cs[0]) <= V1.Rank(x) && (V1.Rank(x) == V1.Rank(cs[0]) ==> x == cs[0])
  {
  }

  lemma TailContents(cs: seq<V1.Condition>)
    requires cs != []
    ensures multiset(cs[1..]) == multiset(cs) - multiset{cs[0]}
  {
    assert cs == [cs[0]] + cs[1..];
  }

  lemma SameFirst(a: seq<V1.Condition>, b: seq<V1.Condition>)
    requires Ascending(a) && Ascending(b) && multiset(a) == multiset(b) && a != []
    ensures b != [] && a[0] == b[0]
  {
    assert a[0] in multiset(b);
    assert b[0] in multiset(a);
    FirstIsLeast(a, b[0]);
    FirstIsLeast(b, a[0]);
  }

  lemma {:induction false} AscendingIsUnique(a: seq<V1.Condition>, b: seq<V1.Condition>)
    requires Ascending(a) && Ascending(b) && multiset(a) == multiset(b)
    ensures a == b
  {
    if a == [] {
      if b != [] {
        SameFirst(b, a);
      }
    } else {
      SameFirst(a, b);
      TailContents(a);
      TailContents(b);
      AscendingIsUnique(a[1..], b[1..]);
      assert a == [a[0]] + a[1..] && b == [b[0]] + b[1..];
    }
  }

  /** Same entity and same conditions, in any order. */
  predicate SameEntry(a: V1.Entry, b: V1.Entry) {
    a.entity == b.entity && multiset(a.conditions) == multiset(b.conditions)
  }

  /** Between entries without a repeated column, the sorted key tells exactly the entries that differ beyond order. */
  lemma SameEntryIff(a: V1.Entry, b: V1.Entry)
    requires DistinctColumns(a.conditions) && DistinctColumns(b.conditions)
    ensures V1.EntryKey(a) == V1.EntryKey(b) <==> SameEntry(a, b)
  {
    SortPermutes(a.conditions);
    SortPermutes(b.conditions);
    SortAscends(a.conditions);
    SortAscends(b.conditions);
    if SameEntry(a, b) {
      AscendingIsUnique(V1.SortByColumn(a.conditions), V1.SortByColumn(b.conditions));
    }
  }

  // ---------- Compiled entries ----------

  lemma {:induction false} TopicColumns(h: Hashing, topics: seq<Text>, n: nat)
    ensures DistinctColumns(V1.TopicConditions(h, topics, n))
    ensures forall c :: c in V1.TopicConditions(h, topics, n) ==> 4 <= V1.Rank(c) < 4 + n
  {
    if n > 0 {
      TopicColumns(h, topics, n - 1);
    }
  }

  lemma EventEntryColumns(h: Hashing, filter: Option<LogFilter>, addresses: seq<Text>, limit: int)
    ensures DistinctColumns(V1.EventEntry(h, filter, addresses, limit).conditions)
  {
    var a, t := V1.AddressConditions(addresses, limit), V1.TopicConditions(h, TopicsOf(filter), MAX_TOPICS);
    TopicColumns(h, TopicsOf(filter), MAX_TOPICS);
    assert |a| <= 1 && forall i :: 0 <= i < |a| ==> V1.Rank(a[i]) == 0;
    assert forall i :: 0 <= i < |t| ==> t[i] in t;
  }

  /** At most one condition, and that about the column of this rank. */
  predicate AtMostOne(cs: seq<V1.Condition>, rank: nat) {
    |cs| <= 1 && forall i :: 0 <= i < |cs| ==> V1.Rank(cs[i]) == rank
  }

  lemma FourParts(a: seq<V1.Condition>, b: seq<V1.Condition>, c: seq<V1.Condition>, d: seq<V1.Condition>)
    requires AtMostOne(a, 3) && AtMostOne(b, 1) && AtMostOne(c, 3) && AtMostOne(d, 2) && (a == [] || c == [])
    ensures DistinctColumns(a + b + c + d)
  {
  }

  lemma CallEntryColumns(h: Hashing, filter: Option<TxFilter>, addresses: seq<Text>, limit: int)
    ensures DistinctColumns(V1.CallEntry(h, filter, addresses, limit).conditions)
  {
    var a := V1.RetargetAll(V1.AddressConditions(addresses, limit));
    assert AtMostOne(a, 3) && (a != [] ==> AddressesUsed(addresses, limit));
    if filter.Some? {
      var f := filter.value;
      var to := if AddressesUsed(addresses, limit) then [] else V1.ToConditions(f.to);
      FourParts(a, V1.FromConditions(f.from), to, V1.FuncConditions(h, f.func));
    }
  }

  lemma CompiledEntry(h: Hashing, dataSources: seq<DataSource>, limit: int, e: V1.Entry)
    requires e in V1.Query(h, dataSources, limit)
    ensures DistinctColumns(e.conditions)
  {
    var groups := GroupedDataSources(dataSources);
    V1Soundness.EntriesOfExact(h, groups, limit);
    UniqByOnlyKeeps(V1.EntriesOf(h, groups, limit).value, V1.EntryKey, e);
    var g :| g in groups && V1.TurnFor(h, g, limit) == V1.Push(e);
    match g.handler.on {
      case OnEvent(filter) => EventEntryColumns(h, filter, g.addresses, limit);
      case OnCall(filter) => CallEntryColumns(h, filter, g.addresses, limit);
      case OnBlock(_) =>
    }
  }

  /** The first generation's result has no two entries that agree up to the order of their conditions. */
  lemma V1ResultHasNoDuplicates(h: Hashing, dataSources: seq<DataSource>, limit: int)
    ensures var entries := V1.Query(h, dataSources, limit);
            forall i, j :: 0 <= i < j < |entries| ==> !SameEntry(entries[i], entries[j])
  {
    var entries := V1.Query(h, dataSources, limit);
    var compiled := V1.EntriesOf(h, GroupedDataSources(dataSources), limit);
    if compiled.Some? {
      UniqByDistinct(compiled.value, V1.EntryKey);
    }
    forall i, j | 0 <= i < j < |entries| ensures !SameEntry(entries[i], entries[j]) {
      CompiledEntry(h, dataSources, limit, entries[i]);
      CompiledEntry(h, dataSources, limit, entries[j]);
      SameEntryIff(entries[i], entries[j]);
    }
  }

  /** The second generation's result has no record twice and no empty list. */
  lemma V2ResultHasNoDuplicates(h: Hashing, dataSources: seq<DataSource>, limit: int, available: V2.Available)
    ensures var q := V2.Query(h, dataSources, limit, available);
            && (q.logs.Some? ==> q.logs.value != [] && forall i, j :: 0 <= i < j < |q.logs.value| ==> q.logs.value[i] != q.logs.value[j])
            && (q.transactions.Some? ==>
                  q.transactions.value != [] && forall i, j :: 0 <= i < j < |q.transactions.value| ==> q.transactions.value[i] != q.transactions.value[j])
  {
    var groups := GroupedDataSources(dataSources);
    DistinctRecords(V2.LogsOf(h, groups, limit, available), V2.SameLog);
    DistinctRecords(V2.TxsOf(h, groups, limit, available), V2.SameTx);
  }

  lemma DistinctRecords<T>(records: seq<T>, same: T -> T)
    requires forall c :: same(c) == c
    ensures var kept := UniqBy(records, same);
            (forall i, j :: 0 <= i < j < |kept| ==> kept[i] != kept[j]) && (kept == [] ==> records == [])
  {
    UniqByDistinct(records, same);
    if records != [] {
      var c := UniqByRepresents(records, same, records[0]);
    }
  }

  // ---------- Records select no more than the runtime ----------

  predicate AllTxFiltersOffered(available: Option<set<V2.TxField>>) {
    && V2.Offers(available, V2.ToField) && V2.Offers(available, V2.FromField)
    && V2.Offers(available, V2.DataField) && V2.Offers(available, V2.TypeField)
  }

  /**
   * With all transaction filters offered, and within the address limit, a call record selects exactly the
   * transactions its handler runs on, the type included, unless the filter asks for a null function,
   * which the second generation does not compile, or names a recipient beside used addresses.
   */
  lemma V2CallRecordIsExact(h: Hashing, filter: Option<TxFilter>, addresses: seq<Text>, limit: int, available: Option<set<V2.TxField>>, tx: Transaction)
    requires AllTxFiltersOffered(available) && V2Soundness.CallComparable(h, filter, addresses, limit, available)
    requires addresses != [] && |addresses| <= limit
    requires filter.Some? ==>
               && !filter.value.func.Null? && filter.value.func != Str("")
               && (AddressesUsed(addresses, limit) ==> filter.value.to.Undefined?)
    ensures V2.SelectsTx(V2.CallCondition(h, filter, addresses, limit, available), tx) <==>
            exists a :: a in addresses && AcceptsTransaction(h, tx, filter, a)
  {
    V2Soundness.CallConditionMeaning(h, filter, addresses, limit, available, tx);
    if filter.Some? && filter.value.func.Str? && filter.value.func.s != "0x" {
      PrefixIsSelector(tx.input, FunctionToSighash(h, filter.value.func.s));
    }
    SelectorIsWholeInput(tx.input);
    if a :| a in addresses && AcceptsTransaction(h, tx, filter, a) {
      if tx.to.Str? {
        InLowerValid(addresses, Lower(tx.to.s));
      }
    }
    if V2.SelectsTx(V2.CallCondition(h, filter, addresses, limit, available), tx) {
      var a := V1Soundness.ResponsibleAddress(addresses, limit, tx.to);
      assert AcceptsTransaction(h, tx, filter, a);
    }
  }

  lemma SelectorIsWholeInput(input: string)
    ensures Selector(input) == "0x" <==> input == "0x"
  {
  }
}
