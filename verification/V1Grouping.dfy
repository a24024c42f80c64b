/** Merging handlers before compiling them changes nothing that the query selects. */
module V1Grouping {
  import opened Js
  import opened Ethereum
  import opened RuntimeFilters
  import opened Grouping
  import opened Coverage
  import opened DictionaryV1
  import opened V1Soundness

  /** No call filter sets a recipient where its data source sets an address. */
  predicate NoRecipientClash(o: Occurrence) {
    o.handler.on.OnCall? && o.handler.on.txFilter.Some? && !o.handler.on.txFilter.value.to.Undefined? ==> !Truthy(o.address)
  }

  /** What one handler selects on its own. */
  lemma AloneMeaning(h: Hashing, o: Occurrence, limit: int, row: Row)
    requires Constrained(Group(o.handler, [o.address]))
    ensures EntriesAccept(Query(h, Alone(o), limit), row) <==> GroupSelects(h, Group(o.handler, [o.address]), limit, row)
  {
    var g := Group(o.handler, [o.address]);
    AloneIsOneGroup(o);
    assert forall x :: x in [g] <==> x == g;
    QueryMeaning(h, Alone(o), limit, row);
  }

  /**
   * The whole compiler on a project of one handler: the query misses no row the handler runs on exactly
   * when the dictionary is given up or the handler is indexable.
   */
  lemma AloneMissesNothingIff(h: Hashing, o: Occurrence, limit: int)
    requires ValidHashing(h)
    ensures Covers(h, o.handler.on, [o.address], row => QueryAccepts(Query(h, Alone(o), limit), row))
            <==> !Constrained(Group(o.handler, [o.address])) || Indexable(h, Group(o.handler, [o.address]), limit)
  {
    var g := Group(o.handler, [o.address]);
    AloneIsOneGroup(o);
    assert forall x :: x in [g] <==> x == g;
    forall row ensures QueryAccepts(Query(h, Alone(o), limit), row) <==>
                       !Constrained(g) || g.handler.on.OnBlock? || GroupSelects(h, g, limit, row)
    {
      QueryMeaning(h, Alone(o), limit, row);
      EntriesOfExact(h, [g], limit);
      if Constrained(g) && !g.handler.on.OnBlock? {
        var entries := EntriesOf(h, [g], limit).value;
        assert TurnFor(h, g, limit).entry in entries;
        DeduplicationKeepsRows(entries, row);
      } else if Constrained(g) {
        OnlyBlocksPushNothing(h, g, limit);
      }
    }
    match o.handler.on {
      case OnEvent(filter) => EventEntryCoversIff(h, filter, [o.address], limit);
      case OnCall(filter) => CallEntryCoversIff(h, filter, [o.address], limit);
      case OnBlock(_) =>
    }
  }

  lemma OnlyBlocksPushNothing(h: Hashing, g: Group, limit: int)
    requires Constrained(g) && g.handler.on.OnBlock?
    ensures EntriesOf(h, [g], limit) == Some([])
  {
    assert [g][..0] == [];
  }

  /** Handlers with one key compile to one entry. */
  lemma KeyDeterminesSelection(h: Hashing, a: Handler, b: Handler, addresses: seq<Text>, limit: int, row: Row)
    requires Key(a) == Key(b)
    ensures Constrained(Group(a, addresses)) == Constrained(Group(b, addresses))
    ensures GroupSelects(h, Group(a, addresses), limit, row) == GroupSelects(h, Group(b, addresses), limit, row)
  {
    match a.on
    case OnEvent(Some(LogFilter(Some(t1)))) =>
      var t2 := b.on.logFilter.value.topics.value;
      SameTopicsSameMeaning(h, t1, t2, Log("", [], "", ""));
      EventEntryMeaning(h, a.on.logFilter, addresses, limit, row);
      EventEntryMeaning(h, b.on.logFilter, addresses, limit, row);
      assert forall i: nat :: Demands(t1, i) == Demands(t2, i);
      assert forall i: nat :: Demands(t1, i) ==> TopicCondition(h, t1, i) == TopicCondition(h, t2, i);
    case _ =>
  }

  lemma ConstrainedTogether(handler: Handler, addresses: seq<Text>, a: Text)
    requires a in addresses && Constrained(Group(handler, [a]))
    ensures Constrained(Group(handler, addresses))
  {
    if ValidAddresses([a]) != [] {
      FilterEmpty([a], x => Truthy(x));
      FilterEmpty(addresses, x => Truthy(x));
    }
  }

  lemma EventGroupSelectsItsMembers(h: Hashing, filter: Option<LogFilter>, addresses: seq<Text>, limit: int, a: Text, row: Row)
    requires a in addresses && EntryAccepts(EventEntry(h, filter, [a], limit), row)
    ensures EntryAccepts(EventEntry(h, filter, addresses, limit), row)
  {
    EventEntryMeaning(h, filter, addresses, limit, row);
    EventEntryMeaning(h, filter, [a], limit, row);
    OneAddressOfMany(addresses, limit, a, row.log.address);
  }

  /** If the list is used, so is the single address, and its bearer is in the list. */
  lemma OneAddressOfMany(addresses: seq<Text>, limit: int, a: Text, bearer: string)
    requires a in addresses
    ensures AddressesUsed(addresses, limit) ==> AddressesUsed([a], limit)
    ensures Lower(bearer) in LowerValid([a]) ==> Lower(bearer) in LowerValid(addresses)
  {
    InLowerValid([a], Lower(bearer));
    InLowerValid(addresses, Lower(bearer));
  }

  lemma CallGroupSelectsItsMembers(h: Hashing, filter: Option<TxFilter>, addresses: seq<Text>, limit: int, a: Text, row: Row)
    requires a in addresses && EntryAccepts(CallEntry(h, filter, [a], limit), row)
    requires filter.Some? && !filter.value.to.Undefined? ==> !Truthy(a)
    ensures EntryAccepts(CallEntry(h, filter, addresses, limit), row)
  {
    CallEntryMeaning(h, filter, addresses, limit, row);
    CallEntryMeaning(h, filter, [a], limit, row);
    OneAddressOfMany(addresses, limit, a, if row.tx.to.Str? then row.tx.to.s else "");
    if AddressesUsed([a], limit) && filter.Some? {
      assert a in [a];
      assert ToConditions(filter.value.to) == [];
    }
  }

  /** Adding addresses to a group only widens what it selects, whatever the limit. */
  lemma GroupSelectsItsMembers(h: Hashing, g: Group, limit: int, a: Text, row: Row)
    requires a in g.addresses && Constrained(Group(g.handler, [a])) && NoRecipientClash(Occurrence(a, g.handler))
    requires GroupSelects(h, Group(g.handler, [a]), limit, row)
    ensures GroupSelects(h, g, limit, row)
  {
    ConstrainedTogether(g.handler, g.addresses, a);
    match g.handler.on
    case OnEvent(filter) => EventGroupSelectsItsMembers(h, filter, g.addresses, limit, a, row);
    case OnCall(filter) => CallGroupSelectsItsMembers(h, filter, g.addresses, limit, a, row);
    case OnBlock(_) =>
  }

  /** Within the address limit a group selects nothing beyond what its members select alone. */
  lemma GroupSelectsOnlyItsMembers(h: Hashing, g: Group, limit: int, row: Row) returns (a: Text)
    requires g.addresses != [] && |g.addresses| <= limit
    requires forall b :: b in g.addresses ==> Constrained(Group(g.handler, [b]))
    requires GroupSelects(h, g, limit, row)
    ensures a in g.addresses && GroupSelects(h, Group(g.handler, [a]), limit, row)
  {
    a := SelectingAddress(g.addresses, limit, row);
    match g.handler.on {
      case OnEvent(filter) =>
        EventEntryMeaning(h, filter, g.addresses, limit, row);
        EventEntryMeaning(h, filter, [a], limit, row);
        InLowerValid([a], Lower(row.log.address));
        InLowerValid(g.addresses, Lower(row.log.address));
      case OnCall(filter) =>
        CallEntryMeaning(h, filter, g.addresses, limit, row);
        CallEntryMeaning(h, filter, [a], limit, row);
        if row.tx.to.Str? {
          InLowerValid([a], Lower(row.tx.to.s));
          InLowerValid(g.addresses, Lower(row.tx.to.s));
        }
      case OnBlock(_) =>
    }
  }

  /** The member responsible for a row: the one whose address the row carries, or one without address. */
  lemma SelectingAddress(addresses: seq<Text>, limit: int, row: Row) returns (a: Text)
    requires addresses != [] && |addresses| <= limit
    ensures a in addresses
    ensures !AddressesUsed(addresses, limit) ==> !AddressesUsed([a], limit)
    ensures AddressesUsed(addresses, limit) ==> AddressesUsed([a], limit)
    ensures AddressesUsed(addresses, limit) && row.LogRow? && Lower(row.log.address) in LowerValid(addresses) ==>
              Lower(a.s) == Lower(row.log.address)
    ensures AddressesUsed(addresses, limit) && row.TxRow? && row.tx.to.Str? && Lower(row.tx.to.s) in LowerValid(addresses) ==>
              Lower(a.s) == Lower(row.tx.to.s)
  {
    if !AddressesUsed(addresses, limit) {
      a :| a in addresses && !Truthy(a);
      assert a in [a];
    } else {
      a := addresses[0];
      var carried := if row.LogRow? then Str(row.log.address) else row.tx.to;
      if carried.Str? {
        InLowerValid(addresses, Lower(carried.s));
        if Lower(carried.s) in LowerValid(addresses) {
          a :| a in addresses && Truthy(a) && Lower(a.s) == Lower(carried.s);
        }
      }
    }
  }

  /**
   * Grouping preserves meaning: when every handler is constrained on its own, groups stay within the
   * address limit and no recipient clashes with an address, the grouped query selects exactly the
   * rows that the handlers, each compiled alone, select.
   */
  lemma GroupedQueryIsUnion(h: Hashing, dataSources: seq<DataSource>, limit: int, row: Row)
    requires forall o :: o in Occurrences(dataSources) ==> Constrained(Group(o.handler, [o.address])) && NoRecipientClash(o)
    requires forall g :: g in GroupedDataSources(dataSources) ==> |g.addresses| <= limit
    ensures EntriesAccept(Query(h, dataSources, limit), row) <==>
            exists o :: o in Occurrences(dataSources) && EntriesAccept(Query(h, Alone(o), limit), row)
  {
    var occurrences, groups := Occurrences(dataSources), GroupedDataSources(dataSources);
    forall g | g in groups ensures Constrained(g) {
      GroupsAreTight(occurrences, g);
      var o := MemberOf(h, occurrences, g, g.addresses[0], limit, row);
      ConstrainedTogether(g.handler, g.addresses, o.address);
    }
    QueryMeaning(h, dataSources, limit, row);
    if g :| g in groups && GroupSelects(h, g, limit, row) {
      GroupsAreTight(occurrences, g);
      forall b | b in g.addresses ensures Constrained(Group(g.handler, [b])) {
        var o := MemberOf(h, occurrences, g, b, limit, row);
      }
      var a := GroupSelectsOnlyItsMembers(h, g, limit, row);
      var o := MemberOf(h, occurrences, g, a, limit, row);
      AloneMeaning(h, o, limit, row);
    }
    if o :| o in occurrences && EntriesAccept(Query(h, Alone(o), limit), row) {
      AloneIsCoveredByItsGroup(h, dataSources, limit, o, row);
    }
  }

  /** An occurrence that put the address `a` into the group; alone it selects what the group's head selects there. */
  lemma MemberOf(h: Hashing, occurrences: seq<Occurrence>, g: Group, a: Text, limit: int, row: Row) returns (o: Occurrence)
    requires GroupIsTight(occurrences, g) && a in g.addresses
    requires forall o :: o in occurrences ==> Constrained(Group(o.handler, [o.address])) && NoRecipientClash(o)
    ensures o in occurrences && o.address == a && BelongsTo(o, g)
    ensures Constrained(Group(o.handler, [a])) && Constrained(Group(g.handler, [a])) && NoRecipientClash(Occurrence(a, g.handler))
    ensures GroupSelects(h, Group(g.handler, [a]), limit, row) == GroupSelects(h, Group(o.handler, [a]), limit, row)
  {
    o :| o in occurrences && o.address == a && BelongsTo(o, g);
    KeyDeterminesSelection(h, o.handler, g.handler, [a], limit, row);
    assert NoRecipientClash(o);
    assert Key(o.handler).OnCall? ==> o.handler.on == g.handler.on;
  }

  lemma AloneIsCoveredByItsGroup(h: Hashing, dataSources: seq<DataSource>, limit: int, o: Occurrence, row: Row)
    requires o in Occurrences(dataSources)
    requires forall o :: o in Occurrences(dataSources) ==> Constrained(Group(o.handler, [o.address])) && NoRecipientClash(o)
    requires EntriesAccept(Query(h, Alone(o), limit), row)
    ensures exists g :: g in GroupedDataSources(dataSources) && GroupSelects(h, g, limit, row)
  {
    var occurrences, groups := Occurrences(dataSources), GroupedDataSources(dataSources);
    AloneMeaning(h, o, limit, row);
    EveryOccurrenceHasAGroup(occurrences, o);
    var i :| 0 <= i < |groups| && BelongsTo(o, groups[i]);
    var g := groups[i];
    assert g in groups;
    GroupsAreTight(occurrences, g);
    KeyDeterminesSelection(h, o.handler, g.handler, [o.address], limit, row);
    forall b | b in g.addresses ensures NoRecipientClash(Occurrence(b, g.handler)) {
      var p := MemberOf(h, occurrences, g, b, limit, row);
    }
    GroupSelectsItsMembers(h, g, limit, o.address, row);
  }
}
