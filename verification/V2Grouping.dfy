/** Merging handlers before compiling them changes nothing that the second-generation query selects. */
module V2Grouping {
  import opened Js
  import opened Ethereum
  import opened RuntimeFilters
  import opened Grouping
  import opened Coverage
  import opened DictionaryV2
  import opened V2Soundness
  import V1Grouping

  lemma KeyDeterminesConstrained(a: Handler, b: Handler, addresses: seq<Text>)
    requires Key(a) == Key(b)
    ensures Constrained(Group(a, addresses)) == Constrained(Group(b, addresses))
  {
    match a.on
    case OnEvent(Some(LogFilter(Some(t1)))) =>
      assert |JsonTopics(t1)| == |JsonTopics(b.on.logFilter.value.topics.value)|;
    case _ =>
  }

  /** Handlers with one key compile to records that select the same rows. */
  lemma KeyDeterminesSelection(h: Hashing, a: Handler, b: Handler, addresses: seq<Text>, limit: int, available: Available, row: Row)
    requires Key(a) == Key(b)
    ensures GroupSelects(h, Group(a, addresses), limit, available, row) == GroupSelects(h, Group(b, addresses), limit, available, row)
  {
    KeyDeterminesConstrained(a, b, addresses);
    match a.on
    case OnEvent(Some(LogFilter(Some(t1)))) =>
      var t2 := b.on.logFilter.value.topics.value;
      SameTopicsSameMeaning(h, t1, t2, Log("", [], "", ""));
      if row.LogRow? {
        EventConditionMeaning(h, a.on.logFilter, addresses, limit, available.logs, row.log);
        EventConditionMeaning(h, b.on.logFilter, addresses, limit, available.logs, row.log);
        assert forall i: nat :: ComparesAt(t1, i) == ComparesAt(t2, i);
        assert forall i: nat :: ComparesAt(t1, i) ==> Wanted(h, t1, i) == Wanted(h, t2, i);
      }
    case _ =>
  }

  /** Adding addresses to a group only widens what it selects, unless a recipient clashes with an address. */
  lemma GroupSelectsItsMembers(h: Hashing, g: Group, limit: int, available: Available, a: Text, row: Row)
    requires a in g.addresses && Constrained(Group(g.handler, [a])) && V1Grouping.NoRecipientClash(Occurrence(a, g.handler))
    requires GroupSelects(h, Group(g.handler, [a]), limit, available, row)
    ensures GroupSelects(h, g, limit, available, row)
  {
    V1Grouping.ConstrainedTogether(g.handler, g.addresses, a);
    match g.handler.on
    case OnEvent(filter) =>
      EventConditionMeaning(h, filter, g.addresses, limit, available.logs, row.log);
      EventConditionMeaning(h, filter, [a], limit, available.logs, row.log);
      V1Grouping.OneAddressOfMany(g.addresses, limit, a, row.log.address);
    case OnCall(filter) =>
      CallConditionMeaning(h, filter, g.addresses, limit, available.transactions, row.tx);
      CallConditionMeaning(h, filter, [a], limit, available.transactions, row.tx);
      V1Grouping.OneAddressOfMany(g.addresses, limit, a, if row.tx.to.Str? then row.tx.to.s else "");
      assert a in [a];
    case OnBlock(_) =>
  }

  /** Within the address limit a group selects nothing beyond what its members select alone. */
  lemma GroupSelectsOnlyItsMembers(h: Hashing, g: Group, limit: int, available: Available, row: Row) returns (a: Text)
    requires g.addresses != [] && |g.addresses| <= limit
    requires forall b :: b in g.addresses ==> Constrained(Group(g.handler, [b]))
    requires GroupSelects(h, g, limit, available, row)
    ensures a in g.addresses && GroupSelects(h, Group(g.handler, [a]), limit, available, row)
  {
    a := V1Grouping.SelectingAddress(g.addresses, limit, row);
    match g.handler.on {
      case OnEvent(filter) =>
        EventConditionMeaning(h, filter, g.addresses, limit, available.logs, row.log);
        EventConditionMeaning(h, filter, [a], limit, available.logs, row.log);
        InLowerValid([a], Lower(row.log.address));
      case OnCall(filter) =>
        CallConditionMeaning(h, filter, g.addresses, limit, available.transactions, row.tx);
        CallConditionMeaning(h, filter, [a], limit, available.transactions, row.tx);
        if row.tx.to.Str? {
          InLowerValid([a], Lower(row.tx.to.s));
        }
      case OnBlock(_) =>
    }
  }

  /** What one handler selects on its own. */
  lemma AloneMeaning(h: Hashing, o: Occurrence, limit: int, available: Available, row: Row)
    requires Constrained(Group(o.handler, [o.address])) && !o.handler.on.OnBlock?
    ensures QuerySelects(Query(h, Alone(o), limit, available), row) <==>
            GroupSelects(h, Group(o.handler, [o.address]), limit, available, row)
  {
    var g := Group(o.handler, [o.address]);
    AloneIsOneGroup(o);
    assert forall x :: x in [g] <==> x == g;
    OnlyBlockHandlersGiveUp(Alone(o), g);
    QueryMeaning(h, Alone(o), limit, available, row);
  }

  /** Every handler is constrained on its own, and no recipient stands beside an address. */
  predicate EachStandsAlone(dataSources: seq<DataSource>) {
    forall o :: o in Occurrences(dataSources) ==> Constrained(Group(o.handler, [o.address])) && V1Grouping.NoRecipientClash(o)
  }

  /** An occurrence that put the address `a` into the group. */
  lemma MemberOf(dataSources: seq<DataSource>, g: Group, a: Text) returns (o: Occurrence)
    requires EachStandsAlone(dataSources) && GroupIsTight(Occurrences(dataSources), g) && a in g.addresses
    ensures o in Occurrences(dataSources) && o.address == a && BelongsTo(o, g)
    ensures Constrained(Group(g.handler, [a])) && V1Grouping.NoRecipientClash(Occurrence(a, g.handler))
  {
    o :| o in Occurrences(dataSources) && o.address == a && BelongsTo(o, g);
    KeyDeterminesConstrained(o.handler, g.handler, [a]);
    assert Constrained(Group(o.handler, [o.address])) && V1Grouping.NoRecipientClash(o);
    assert Key(o.handler).OnCall? ==> o.handler.on == g.handler.on;
  }

  lemma GroupsAreConstrained(dataSources: seq<DataSource>, g: Group) returns (o: Occurrence)
    requires EachStandsAlone(dataSources) && g in GroupedDataSources(dataSources)
    ensures Constrained(g) && !GivesUp(g)
    ensures o in Occurrences(dataSources) && BelongsTo(o, g)
  {
    GroupsAreTight(Occurrences(dataSources), g);
    var a := g.addresses[0];
    o := MemberOf(dataSources, g, a);
    V1Grouping.ConstrainedTogether(g.handler, g.addresses, a);
    OnlyBlockHandlersGiveUp(dataSources, g);
  }

  lemma SameKeySameKind(o: Occurrence, g: Group)
    requires BelongsTo(o, g)
    ensures o.handler.on.OnBlock? == g.handler.on.OnBlock?
  {
  }

  /** With every handler constrained, the dictionary is unused exactly in a project of block handlers. */
  lemma UnusedWithoutRows(dataSources: seq<DataSource>)
    requires EachStandsAlone(dataSources)
    ensures Unused(dataSources) <==> forall o :: o in Occurrences(dataSources) ==> o.handler.on.OnBlock?
  {
    var occurrences, groups := Occurrences(dataSources), GroupedDataSources(dataSources);
    forall g | g in groups
      ensures Constrained(g) && !GivesUp(g)
      ensures (forall o :: o in occurrences ==> o.handler.on.OnBlock?) ==> g.handler.on.OnBlock?
    {
      var o := GroupsAreConstrained(dataSources, g);
      SameKeySameKind(o, g);
    }
    if o :| o in occurrences && !o.handler.on.OnBlock? {
      EveryOccurrenceHasAGroup(occurrences, o);
      var i :| 0 <= i < |groups| && BelongsTo(o, groups[i]);
      SameKeySameKind(o, groups[i]);
      assert groups[i] in groups;
    }
  }

  lemma AloneIsCoveredByItsGroup(h: Hashing, dataSources: seq<DataSource>, limit: int, available: Available, o: Occurrence, row: Row)
    requires EachStandsAlone(dataSources) && o in Occurrences(dataSources) && !o.handler.on.OnBlock?
    requires QuerySelects(Query(h, Alone(o), limit, available), row)
    ensures exists g :: g in GroupedDataSources(dataSources) && GroupSelects(h, g, limit, available, row)
  {
    var occurrences, groups := Occurrences(dataSources), GroupedDataSources(dataSources);
    AloneMeaning(h, o, limit, available, row);
    EveryOccurrenceHasAGroup(occurrences, o);
    var i :| 0 <= i < |groups| && BelongsTo(o, groups[i]);
    var g := groups[i];
    assert g in groups;
    GroupsAreTight(occurrences, g);
    KeyDeterminesSelection(h, o.handler, g.handler, [o.address], limit, available, row);
    var p := MemberOf(dataSources, g, o.address);
    GroupSelectsItsMembers(h, g, limit, available, o.address, row);
  }

  /**
   * Grouping preserves meaning: when every handler is constrained on its own, groups stay within the
   * address limit and no recipient clashes with an address, the grouped query selects exactly the rows
   * that the event and call handlers, each compiled alone, select; without any, it is not used.
   */
  lemma GroupedQueryIsUnion(h: Hashing, dataSources: seq<DataSource>, limit: int, available: Available, row: Row)
    requires EachStandsAlone(dataSources)
    requires forall g :: g in GroupedDataSources(dataSources) ==> |g.addresses| <= limit
    ensures QuerySelects(Query(h, dataSources, limit, available), row) <==>
            || (forall o :: o in Occurrences(dataSources) ==> o.handler.on.OnBlock?)
            || exists o :: o in Occurrences(dataSources) && !o.handler.on.OnBlock? && QuerySelects(Query(h, Alone(o), limit, available), row)
  {
    var occurrences, groups := Occurrences(dataSources), GroupedDataSources(dataSources);
    QueryMeaning(h, dataSources, limit, available, row);
    UnusedWithoutRows(dataSources);
    if g :| g in groups && GroupSelects(h, g, limit, available, row) {
      GroupsAreTight(occurrences, g);
      forall b | b in g.addresses ensures Constrained(Group(g.handler, [b])) {
        var o := MemberOf(dataSources, g, b);
      }
      var a := GroupSelectsOnlyItsMembers(h, g, limit, available, row);
      var o := MemberOf(dataSources, g, a);
      KeyDeterminesSelection(h, o.handler, g.handler, [a], limit, available, row);
      AloneMeaning(h, o, limit, available, row);
    }
    if o :| o in occurrences && !o.handler.on.OnBlock? && QuerySelects(Query(h, Alone(o), limit, available), row) {
      AloneIsCoveredByItsGroup(h, dataSources, limit, available, o, row);
    }
  }
}
