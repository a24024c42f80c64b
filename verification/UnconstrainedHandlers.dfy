/**
 * Handlers that neither a filter nor an address constrains. The second-generation compiler adds no record
 * for them, so whether their rows are kept depends on the other handlers of the project.
 */
module UnconstrainedHandlers {
  import opened Js
  import opened Hex
  import opened Ethereum
  import opened RuntimeFilters
  import opened Grouping
  import opened Coverage
  import opened DictionaryV2
  import opened V2Soundness

  predicate Unconstrained(o: Occurrence) {
    !o.handler.on.OnBlock? && !Constrained(Group(o.handler, [o.address]))
  }

  /** The handler runs on every row of its kind. */
  lemma RunsOnEverything(h: Hashing, o: Occurrence, row: Row)
    requires Unconstrained(o)
    ensures RuntimeAccepts(h, o.handler.on, o.address, row) <==> (row.LogRow? <==> o.handler.on.OnEvent?)
  {
    FilterEmpty([o.address], x => Truthy(x));
    assert o.address in [o.address];
  }

  // ---------- Names that the project does not use ----------

  function Size(texts: seq<Text>): nat {
    if texts == [] then 0 else (if texts[0].Str? then |texts[0].s| else 0) + Size(texts[1..])
  }

  function TextsOf(g: Group): seq<Text> {
    g.addresses +
    if g.handler.on.OnCall? && g.handler.on.txFilter.Some?
    then var f := g.handler.on.txFilter.value; [f.to, f.from, f.typ]
    else []
  }

  function SizeOf(groups: seq<Group>): nat {
    if groups == [] then 0 else Size(TextsOf(groups[0])) + SizeOf(groups[1..])
  }

  lemma {:induction false} SizeBounds(texts: seq<Text>, s: string)
    requires Str(s) in texts
    ensures |s| <= Size(texts)
  {
    if texts[0] != Str(s) {
      assert texts == [texts[0]] + texts[1..];
      SizeBounds(texts[1..], s);
    }
  }

  lemma {:induction false} SizeOfBounds(groups: seq<Group>, g: Group, s: string)
    requires g in groups && Str(s) in TextsOf(g)
    ensures |s| <= SizeOf(groups)
  {
    if g == groups[0] {
      SizeBounds(TextsOf(g), s);
    } else {
      assert groups == [groups[0]] + groups[1..];
      SizeOfBounds(groups[1..], g, s);
    }
  }

  /** A text longer than every address, recipient, sender and type of the project. */
  function Fresh(groups: seq<Group>): string {
    "0x" + Zeros(SizeOf(groups))
  }

  lemma FreshIsUnused(groups: seq<Group>, g: Group, s: string)
    requires g in groups && Str(s) in TextsOf(g)
    ensures Lower(s) != Lower(Fresh(groups)) && s != Fresh(groups)
  {
    SizeOfBounds(groups, g, s);
    assert |Lower(s)| == |s| && |Lower(Fresh(groups))| == SizeOf(groups) + 2;
  }

  lemma FreshAddressIsUnused(groups: seq<Group>, g: Group)
    requires g in groups
    ensures Lower(Fresh(groups)) !in LowerValid(g.addresses)
  {
    InLowerValid(g.addresses, Lower(Fresh(groups)));
    forall a | a in g.addresses && Truthy(a) ensures Lower(a.s) != Lower(Fresh(groups)) {
      assert Str(a.s) in TextsOf(g);
      FreshIsUnused(groups, g, a.s);
    }
  }

  // ---------- Events ----------

  /** The group's record constrains no log: its addresses and comparing topics are not used or not offered. */
  predicate SelectsEveryLog(g: Group, limit: int, available: Available) {
    && g.handler.on.OnEvent? && Constrained(g)
    && !(Offers(available.logs, AddressField) && AddressesUsed(g.addresses, limit))
    && forall i: nat :: i < MAX_TOPICS && ComparesAt(TopicsOf(g.handler.on.logFilter), i) ==>
         !Offers(available.logs, TopicField(i))
  }

  /** A log without topics, of a contract that no group names, is selected by the all-selecting groups alone. */
  lemma BareLogIsSelectedIff(h: Hashing, g: Group, limit: int, available: Available, log: Log)
    requires log.topics == [] && Lower(log.address) !in LowerValid(g.addresses)
    ensures GroupSelects(h, g, limit, available, LogRow(log)) <==> SelectsEveryLog(g, limit, available)
  {
    if g.handler.on.OnEvent? {
      EventConditionMeaning(h, g.handler.on.logFilter, g.addresses, limit, available.logs, log);
    }
  }

  lemma SelectsEveryLogSelects(h: Hashing, g: Group, limit: int, available: Available, log: Log)
    requires SelectsEveryLog(g, limit, available)
    ensures GroupSelects(h, g, limit, available, LogRow(log))
  {
    EventConditionMeaning(h, g.handler.on.logFilter, g.addresses, limit, available.logs, log);
  }

  /**
   * An unconstrained event handler keeps its logs exactly when the dictionary is not used or some other
   * event group happens to select every log.
   */
  lemma UnconstrainedEventIsKeptIff(h: Hashing, dataSources: seq<DataSource>, limit: int, available: Available, o: Occurrence)
    requires o in Occurrences(dataSources) && o.handler.on.OnEvent? && Unconstrained(o)
    ensures Covers(h, o.handler.on, [o.address], row => QuerySelects(Query(h, dataSources, limit, available), row))
            <==> || Unused(dataSources)
                 || exists g :: g in GroupedDataSources(dataSources) && SelectsEveryLog(g, limit, available)
  {
    var groups, query := GroupedDataSources(dataSources), Query(h, dataSources, limit, available);
    if g :| g in groups && SelectsEveryLog(g, limit, available) {
      forall row | WellFormedRow(row) && RuntimeAccepts(h, o.handler.on, o.address, row) ensures QuerySelects(query, row) {
        QueryMeaning(h, dataSources, limit, available, row);
        SelectsEveryLogSelects(h, g, limit, available, row.log);
      }
    } else {
      var log := Log(Fresh(groups), [], SomeHash, SomeHash);
      RunsOnEverything(h, o, LogRow(log));
      QueryMeaning(h, dataSources, limit, available, LogRow(log));
      forall g | g in groups ensures !GroupSelects(h, g, limit, available, LogRow(log)) {
        FreshAddressIsUnused(groups, g);
        BareLogIsSelectedIff(h, g, limit, available, log);
      }
      assert o.address in [o.address] && WellFormedRow(LogRow(log));
    }
  }

  // ---------- Calls ----------

  /** Beyond the called function, the group's record constrains no transaction. */
  predicate AsksOnlyForFunction(g: Group, limit: int, available: Available) {
    && g.handler.on.OnCall? && Constrained(g)
    && !(Offers(available.transactions, ToField) && AddressesUsed(g.addresses, limit))
    && (g.handler.on.txFilter.Some? ==>
          var f := g.handler.on.txFilter.value;
          && !(Offers(available.transactions, ToField) && !f.to.Undefined?)
          && !(Offers(available.transactions, FromField) && Truthy(f.from))
          && !(Offers(available.transactions, TypeField) && Truthy(f.typ)))
  }

  /** The group's record names a function. */
  predicate AsksForFunction(g: Group, available: Available) {
    && g.handler.on.OnCall? && g.handler.on.txFilter.Some?
    && Offers(available.transactions, DataField) && Truthy(g.handler.on.txFilter.value.func)
  }

  /** The group's record selects every transaction with this call data. */
  predicate SelectsEveryCallOf(h: Hashing, g: Group, limit: int, available: Available, input: string) {
    && AsksOnlyForFunction(g, limit, available)
    && (AsksForFunction(g, available) ==> Selector(input) == FunctionToSighash(h, g.handler.on.txFilter.value.func.s))
  }

  predicate SelectsEveryCall(g: Group, limit: int, available: Available) {
    AsksOnlyForFunction(g, limit, available) && !AsksForFunction(g, available)
  }

  function FreshTx(groups: seq<Group>, input: string): Transaction {
    Transaction(SomeHash, Fresh(groups), Str(Fresh(groups)), input, Fresh(groups))
  }

  lemma FreshTxIsSelectedIff(h: Hashing, groups: seq<Group>, g: Group, limit: int, available: Available, input: string)
    requires g in groups
    ensures GroupSelects(h, g, limit, available, TxRow(FreshTx(groups, input))) <==> SelectsEveryCallOf(h, g, limit, available, input)
  {
    if g.handler.on.OnCall? {
      CallConditionMeaning(h, g.handler.on.txFilter, g.addresses, limit, available.transactions, FreshTx(groups, input));
      FreshAddressIsUnused(groups, g);
      if g.handler.on.txFilter.Some? {
        var f := g.handler.on.txFilter.value;
        forall t | t in [f.to, f.from, f.typ] && t.Str?
          ensures Lower(t.s) != Lower(Fresh(groups)) && t.s != Fresh(groups)
        {
          assert Str(t.s) in TextsOf(g);
          FreshIsUnused(groups, g, t.s);
        }
        assert f.to in [f.to, f.from, f.typ] && f.from in [f.to, f.from, f.typ] && f.typ in [f.to, f.from, f.typ];
      }
    }
  }

  lemma SelectsEveryCallOfSelects(h: Hashing, g: Group, limit: int, available: Available, tx: Transaction)
    requires SelectsEveryCallOf(h, g, limit, available, tx.input)
    ensures GroupSelects(h, g, limit, available, TxRow(tx))
  {
    CallConditionMeaning(h, g.handler.on.txFilter, g.addresses, limit, available.transactions, tx);
  }

  /**
   * An unconstrained call handler keeps its transactions exactly when the dictionary is not used or, for
   * every call data there is, some call group asks for nothing else.
   */
  lemma UnconstrainedCallIsKeptIff(h: Hashing, dataSources: seq<DataSource>, limit: int, available: Available, o: Occurrence)
    requires o in Occurrences(dataSources) && o.handler.on.OnCall? && Unconstrained(o)
    ensures Covers(h, o.handler.on, [o.address], row => QuerySelects(Query(h, dataSources, limit, available), row))
            <==> || Unused(dataSources)
                 || forall input :: IsCallData(input) ==>
                      exists g :: g in GroupedDataSources(dataSources) && SelectsEveryCallOf(h, g, limit, available, input)
  {
    var groups, query := GroupedDataSources(dataSources), Query(h, dataSources, limit, available);
    if input :| IsCallData(input) && forall g :: g in groups ==> !SelectsEveryCallOf(h, g, limit, available, input) {
      var tx := FreshTx(groups, input);
      RunsOnEverything(h, o, TxRow(tx));
      QueryMeaning(h, dataSources, limit, available, TxRow(tx));
      forall g | g in groups ensures !GroupSelects(h, g, limit, available, TxRow(tx)) {
        FreshTxIsSelectedIff(h, groups, g, limit, available, input);
      }
      assert o.address in [o.address] && WellFormedRow(TxRow(tx));
    } else {
      forall row | WellFormedRow(row) && RuntimeAccepts(h, o.handler.on, o.address, row) ensures QuerySelects(query, row) {
        QueryMeaning(h, dataSources, limit, available, row);
        var g :| g in groups && SelectsEveryCallOf(h, g, limit, available, row.tx.input);
        SelectsEveryCallOfSelects(h, g, limit, available, row.tx);
      }
    }
  }

  // ---------- There are more functions than groups ----------

  /** The last `width` hex digits of `n`. */
  function Digits(n: nat, width: nat): string {
    if width == 0 then "" else Digits(n / 16, width - 1) + ["0123456789abcdef"[n % 16]]
  }

  function Pow16(n: nat): nat {
    if n == 0 then 1 else 16 * Pow16(n - 1)
  }

  const FUNCTIONS := 0x1_0000_0000

  lemma {:induction false} DigitsAreCallData(n: nat, width: nat)
    ensures |Digits(n, width)| == width
    ensures AllHexDigits(Digits(n, width)) && Lower(Digits(n, width)) == Digits(n, width)
  {
    if width > 0 {
      DigitsAreCallData(n / 16, width - 1);
      LowerConcat(Digits(n / 16, width - 1), ["0123456789abcdef"[n % 16]]);
      assert Lower(["0123456789abcdef"[n % 16]]) == ["0123456789abcdef"[n % 16]];
    }
  }

  lemma LastDigit(a: nat, b: nat)
    requires "0123456789abcdef"[a % 16] == "0123456789abcdef"[b % 16]
    ensures a % 16 == b % 16
  {
  }

  lemma {:induction false} DigitsAreDistinct(a: nat, b: nat, width: nat)
    requires a < Pow16(width) && b < Pow16(width) && Digits(a, width) == Digits(b, width)
    ensures a == b
  {
    if width > 0 {
      DigitsAreCallData(a / 16, width - 1);
      DigitsAreCallData(b / 16, width - 1);
      var x, y := Digits(a, width), Digits(b, width);
      assert x[..width - 1] == Digits(a / 16, width - 1) && y[..width - 1] == Digits(b / 16, width - 1);
      assert x[width - 1] == "0123456789abcdef"[a % 16] && y[width - 1] == "0123456789abcdef"[b % 16];
      LastDigit(a, b);
      DigitsAreDistinct(a / 16, b / 16, width - 1);
    }
  }

  /** Fewer than `n` names leave one of `n` numbers unnamed. */
  lemma {:induction false} SomeNumberIsFree(named: set<string>, n: nat, width: nat) returns (k: nat)
    requires |named| < n <= Pow16(width)
    ensures k < n && "0x" + Digits(k, width) !in named
  {
    var last := "0x" + Digits(n - 1, width);
    if last !in named {
      k := n - 1;
    } else {
      k := SomeNumberIsFree(named - {last}, n - 1, width);
      if "0x" + Digits(k, width) == last {
        assert last[2..] == Digits(n - 1, width) && ("0x" + Digits(k, width))[2..] == Digits(k, width);
        DigitsAreDistinct(k, n - 1, width);
      }
    }
  }

  function NamedFunctions(h: Hashing, groups: seq<Group>, available: Available): set<string> {
    if groups == [] then {}
    else
      var rest := NamedFunctions(h, groups[1..], available);
      if AsksForFunction(groups[0], available)
      then {FunctionToSighash(h, groups[0].handler.on.txFilter.value.func.s)} + rest else rest
  }

  lemma {:induction false} NamedFunctionsExact(h: Hashing, groups: seq<Group>, available: Available)
    ensures |NamedFunctions(h, groups, available)| <= |groups|
    ensures forall g :: g in groups && AsksForFunction(g, available) ==>
              FunctionToSighash(h, g.handler.on.txFilter.value.func.s) in NamedFunctions(h, groups, available)
  {
    if groups != [] {
      NamedFunctionsExact(h, groups[1..], available);
      assert groups == [groups[0]] + groups[1..];
    }
  }

  lemma SomeFunctionIsNotNamed(h: Hashing, groups: seq<Group>, available: Available) returns (input: string)
    requires |groups| < FUNCTIONS
    ensures IsCallData(input)
    ensures forall g :: g in groups && AsksForFunction(g, available) ==>
              Selector(input) != FunctionToSighash(h, g.handler.on.txFilter.value.func.s)
  {
    NamedFunctionsExact(h, groups, available);
    assert Pow16(8) == FUNCTIONS by {
      assert Pow16(4) == 0x1_0000;
    }
    var k := SomeNumberIsFree(NamedFunctions(h, groups, available), FUNCTIONS, 8);
    DigitsAreCallData(k, 8);
    input := "0x" + Digits(k, 8);
    PrefixedDigits(Digits(k, 8));
    LowerConcat("0x", Digits(k, 8));
    assert Lower("0x") == "0x";
    assert Selector(input) == input;
  }

  /**
   * In a project with fewer groups than there are functions, an unconstrained call handler keeps its
   * transactions exactly when the dictionary is not used or some call group selects every transaction.
   */
  lemma UnconstrainedCallIsKeptBy(h: Hashing, dataSources: seq<DataSource>, limit: int, available: Available, o: Occurrence)
    requires o in Occurrences(dataSources) && o.handler.on.OnCall? && Unconstrained(o)
    requires |GroupedDataSources(dataSources)| < FUNCTIONS
    ensures Covers(h, o.handler.on, [o.address], row => QuerySelects(Query(h, dataSources, limit, available), row))
            <==> || Unused(dataSources)
                 || exists g :: g in GroupedDataSources(dataSources) && SelectsEveryCall(g, limit, available)
  {
    var groups := GroupedDataSources(dataSources);
    UnconstrainedCallIsKeptIff(h, dataSources, limit, available, o);
    if g :| g in groups && SelectsEveryCall(g, limit, available) {
      forall input | IsCallData(input) ensures SelectsEveryCallOf(h, g, limit, available, input) {
      }
    } else {
      var input := SomeFunctionIsNotNamed(h, groups, available);
      assert forall g :: g in groups ==> !SelectsEveryCallOf(h, g, limit, available, input);
    }
  }
}
