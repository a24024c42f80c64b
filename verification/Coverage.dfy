/**
 * What a dictionary query must cover. A row that a handler would run on but the query leaves out
 * is never indexed; the rows built here show that a filter really does run on something.
 */
module Coverage {
  import opened Js
  import opened Hex
  import opened Ethereum
  import opened RuntimeFilters
  import opened Grouping

  /** `accepts` takes every row some address of the group makes the handler run on. */
  ghost predicate Covers(h: Hashing, on: HandlerKind, addresses: seq<Text>, accepts: Row -> bool) {
    forall a, row :: a in addresses && WellFormedRow(row) && RuntimeAccepts(h, on, a, row) ==> accepts(row)
  }

  /** The topic that position `i` compares with. */
  function Wanted(h: Hashing, topics: seq<Text>, i: nat): string
    requires Demands(topics, i)
  {
    EventToTopic(h, topics[i].s)
  }

  predicate ComparesAt(topics: seq<Text>, i: nat) {
    Demands(topics, i) && !IsNotNull(topics, i)
  }

  predicate FitsTopic(s: string) {
    IsHexString(s) && |Significant(s)| <= TOPIC_DIGITS
  }

  /** Some comparison asks for more than 32 bytes, so the filter runs on no log at all. */
  predicate NeverMatches(h: Hashing, topics: seq<Text>) {
    exists i: nat :: i < MAX_TOPICS && Reached(topics, i) && ComparesAt(topics, i) && !FitsTopic(Wanted(h, topics, i))
  }

  function WitnessTopic(h: Hashing, topics: seq<Text>, i: nat): string {
    if ComparesAt(topics, i) && FitsTopic(Wanted(h, topics, i)) then AsTopic(Wanted(h, topics, i))
    else "0x" + Zeros(TOPIC_DIGITS)
  }

  /** Twenty and thirty-two zero bytes, for parts of a row that no filter asks about. */
  const SomeAddress := "0x" + Zeros(40)
  const SomeHash := "0x" + Zeros(64)

  /** A log of `n` topics that carries what the filter asks for. */
  function WitnessLog(h: Hashing, topics: seq<Text>, n: nat, address: Text): Log {
    Log(if Truthy(address) then address.s else SomeAddress,
        seq(n, i requires 0 <= i < n => WitnessTopic(h, topics, i)), SomeHash, SomeHash)
  }

  lemma WantedIsHex(h: Hashing, topics: seq<Text>, i: nat)
    requires ValidHashing(h) && Demands(topics, i)
    ensures IsHexString(Wanted(h, topics, i))
  {
  }

  lemma WitnessTopicIsTopic(h: Hashing, topics: seq<Text>, i: nat)
    ensures IsTopic(WitnessTopic(h, topics, i))
    ensures ComparesAt(topics, i) && FitsTopic(Wanted(h, topics, i)) ==>
              HexStringEq(Wanted(h, topics, i), WitnessTopic(h, topics, i)) == Ok(true)
  {
    if ComparesAt(topics, i) && FitsTopic(Wanted(h, topics, i)) {
      FittingHexHasATopic(Wanted(h, topics, i));
    }
  }

  /** A filter that can match runs on its witness, provided the witness is long enough. */
  lemma WitnessLogIsAccepted(h: Hashing, filter: Option<LogFilter>, n: nat, address: Text)
    requires ValidHashing(h) && n <= MAX_TOPICS
    requires !NeverMatches(h, TopicsOf(filter))
    requires forall i: nat :: Reached(TopicsOf(filter), i) && Demands(TopicsOf(filter), i) ==> i < n
    ensures var log := WitnessLog(h, TopicsOf(filter), n, address);
            WellFormedLog(log) && AcceptsLog(h, log, filter, address)
  {
    var topics := TopicsOf(filter);
    var log := WitnessLog(h, topics, n, address);
    forall i | 0 <= i < n ensures IsTopic(log.topics[i]) {
      WitnessTopicIsTopic(h, topics, i);
    }
    forall i: nat | Reached(topics, i) && Demands(topics, i) ensures Meets(h, topics, i, log) {
      if !IsNotNull(topics, i) {
        WantedIsHex(h, topics, i);
        WitnessTopicIsTopic(h, topics, i);
      }
    }
  }

  /** A filter that never matches runs on no log the EVM produces. */
  lemma NeverMatchesAcceptsNothing(h: Hashing, filter: Option<LogFilter>, log: Log, address: Text)
    requires ValidHashing(h) && WellFormedLog(log) && NeverMatches(h, TopicsOf(filter))
    ensures !AcceptsLog(h, log, filter, address)
  {
    var topics := TopicsOf(filter);
    var i: nat :| i < MAX_TOPICS && Reached(topics, i) && ComparesAt(topics, i) && !FitsTopic(Wanted(h, topics, i));
    WantedIsHex(h, topics, i);
    if Meets(h, topics, i, log) {
      LongHexHasNoTopic(Wanted(h, topics, i), log.topics[i]);
    }
  }

  /** A position the loop does not reach stands behind a '!null', and a log may end at that '!null'. */
  lemma UnreachedStandsBehindNotNull(topics: seq<Text>, i: nat) returns (m: nat)
    requires i < Min(|topics|, MAX_TOPICS) && !Reached(topics, i)
    ensures m < i && IsNotNull(topics, m)
    ensures forall j: nat :: Reached(topics, j) ==> j <= m
  {
    m :| m < i && IsNotNull(topics, m);
  }

  /** The recipient a transaction needs for the filter to run on it. */
  function WitnessTo(filter: TxFilter, address: Text): Text {
    match filter.to
    case Undefined => if Truthy(address) then address else Null
    case Null => Null
    case Str(t) => if t == "" then Null else filter.to
  }

  /** The runtime filter compares the start of the input with this text, if with any. */
  predicate NamesAFunction(filter: Option<TxFilter>) {
    filter.Some? && filter.value.func.Str? && filter.value.func.s != "0x"
  }

  /** The named function is written with a capital, so no input starts with it and the handler never runs. */
  predicate NeverCalled(h: Hashing, filter: Option<TxFilter>) {
    NamesAFunction(filter) && var sig := FunctionToSighash(h, filter.value.func.s); Lower(sig) != sig
  }

  /** The selector with an argument of whole bytes behind it. */
  function WitnessInput(h: Hashing, filter: TxFilter): string {
    if NamesAFunction(Some(filter)) then
      var sig := FunctionToSighash(h, filter.func.s);
      sig + Zeros(2 - |sig| % 2)
    else "0x"
  }

  function WitnessTx(h: Hashing, filter: Option<TxFilter>, address: Text): Transaction {
    match filter
    case None => Transaction(SomeHash, SomeAddress, Null, "0x", "0x0")
    case Some(f) =>
      Transaction(SomeHash, if Truthy(f.from) then f.from.s else SomeAddress, WitnessTo(f, address), WitnessInput(h, f),
                  if Truthy(f.typ) then f.typ.s else "0x0")
  }

  lemma ExtendedSelectorIsCallData(sig: string)
    requires IsHexString(sig) && Lower(sig) == sig
    ensures IsCallData(sig + Zeros(2 - |sig| % 2)) && StartsWith(sig + Zeros(2 - |sig| % 2), sig)
  {
    var zeros := Zeros(2 - |sig| % 2);
    var input := sig + zeros;
    LowerConcat(sig, zeros);
    ZerosAreDigits(|zeros|);
    assert input[2..] == sig[2..] + zeros;
    assert input[..|sig|] == sig;
    assert |input| == |sig| + (2 - |sig| % 2);
  }

  /** A transaction filter that can match runs on its witness. */
  lemma WitnessTxIsAccepted(h: Hashing, filter: Option<TxFilter>, address: Text)
    requires ValidHashing(h) && !NeverCalled(h, filter)
    ensures WellFormedTx(WitnessTx(h, filter, address))
    ensures AcceptsTransaction(h, WitnessTx(h, filter, address), filter, address)
  {
    if NamesAFunction(filter) {
      ExtendedSelectorIsCallData(FunctionToSighash(h, filter.value.func.s));
    }
  }

  /** A function written with a capital is called by no transaction a node returns. */
  lemma NeverCalledAcceptsNothing(h: Hashing, filter: Option<TxFilter>, tx: Transaction, address: Text)
    requires WellFormedTx(tx) && NeverCalled(h, filter)
    ensures !AcceptsTransaction(h, tx, filter, address)
  {
    CallDataStartsLower(tx.input, FunctionToSighash(h, filter.value.func.s));
  }

  lemma CallDataStartsLower(input: string, prefix: string)
    requires Lower(input) == input
    ensures StartsWith(input, prefix) ==> Lower(prefix) == prefix
  {
    if StartsWith(input, prefix) {
      assert Lower(input)[..|prefix|] == Lower(prefix);
    }
  }

  /** What the index stores for a call's input: its first four bytes, or the whole of a shorter input. */
  function Selector(input: string): string {
    if |input| <= SELECTOR_LENGTH then input else input[..SELECTOR_LENGTH]
  }

  /** The function a filter names, if comparing selectors with it is the same as comparing prefixes. */
  predicate NamesASelector(h: Hashing, func: Text) {
    Truthy(func) && func.s != "0x" ==> |FunctionToSighash(h, func.s)| == SELECTOR_LENGTH
  }

  lemma PrefixIsSelector(input: string, sig: string)
    requires |sig| == SELECTOR_LENGTH
    ensures StartsWith(input, sig) <==> Selector(input) == sig
  {
    if |input| <= SELECTOR_LENGTH && StartsWith(input, sig) {
      assert input[..|sig|] == input;
    }
    if |input| <= SELECTOR_LENGTH && Selector(input) == sig {
      assert input[..|sig|] == input;
    }
  }

  lemma WitnessInputMissesOtherSelectors(h: Hashing, filter: TxFilter)
    requires Truthy(filter.func) && filter.func.s != "0x"
    requires !NamesASelector(h, filter.func)
    ensures Selector(WitnessInput(h, filter)) != FunctionToSighash(h, filter.func.s)
  {
  }

  /** The lower-cased addresses the compilers put into a query. */
  function LowerValid(addresses: seq<Text>): seq<string> {
    if addresses == [] then []
    else (if Truthy(addresses[0]) then [Lower(addresses[0].s)] else []) + LowerValid(addresses[1..])
  }

  lemma {:induction false} InLowerValid(addresses: seq<Text>, v: string)
    ensures v in LowerValid(addresses) <==> exists a :: a in addresses && Truthy(a) && Lower(a.s) == v
  {
    if addresses != [] {
      InLowerValid(addresses[1..], v);
      assert addresses == [addresses[0]] + addresses[1..];
    }
  }

  /** When all addresses are present, they are lower-cased one by one. */
  lemma {:induction false} LowerValidOfAll(addresses: seq<Text>)
    requires forall a :: a in addresses ==> Truthy(a)
    ensures |LowerValid(addresses)| == |addresses|
    ensures forall i :: 0 <= i < |addresses| ==> Truthy(addresses[i]) && LowerValid(addresses)[i] == Lower(addresses[i].s)
  {
    if addresses != [] {
      assert addresses[0] in addresses;
      LowerValidOfAll(addresses[1..]);
    }
  }

  /** The addresses of a group reach the query only when all are present and there are few enough. */
  predicate AddressesUsed(addresses: seq<Text>, limit: int) {
    addresses != [] && |addresses| <= limit && forall a :: a in addresses ==> Truthy(a)
  }

  /** With addresses in the query, the filter's own recipient must be undefined or one of them. */
  predicate RecipientAgrees(filter: Option<TxFilter>, addresses: seq<Text>) {
    filter.Some? && (filter.value.to.Undefined? || (Truthy(filter.value.to) && Lower(filter.value.to.s) in LowerValid(addresses)))
  }

  /** A handler's own filter or a group's address constrains it enough to be put into a query. */
  predicate Constrained(g: Group) {
    match g.handler.on
    case OnBlock(f) => f.Some? && f.value.modulo.Some?
    case OnCall(f) => (f.Some? && HasDefined(f.value)) || ValidAddresses(g.addresses) != []
    case OnEvent(f) => TopicsOf(f) != [] || ValidAddresses(g.addresses) != []
  }

  predicate HasNoFilter(on: HandlerKind) {
    match on
    case OnBlock(f) => f.None?
    case OnCall(f) => f.None?
    case OnEvent(f) => f.None?
  }

  predicate HasDefined(f: TxFilter) {
    !f.from.Undefined? || !f.to.Undefined? || !f.func.Undefined? || !f.typ.Undefined?
  }

  /**
   * A handler is constrained exactly when one of its addresses is present, its log filter lists a topic
   * position, or its transaction filter defines a field; a block handler when it has a modulo.
   */
  lemma ConstrainedIff(g: Group)
    ensures Constrained(g) <==>
            match g.handler.on
            case OnBlock(filter) => filter.Some? && filter.value.modulo.Some?
            case OnCall(filter) =>
              || (exists a :: a in g.addresses && a.Str? && a.s != "")
              || (filter.Some? && exists t :: t in [filter.value.from, filter.value.to, filter.value.func, filter.value.typ] && t != Undefined)
            case OnEvent(filter) =>
              || (exists a :: a in g.addresses && a.Str? && a.s != "")
              || (filter.Some? && filter.value.topics.Some? && |filter.value.topics.value| > 0)
  {
    FilterEmpty(g.addresses, (a: Text) => Truthy(a));
    if g.handler.on.OnCall? && g.handler.on.txFilter.Some? {
      var f := g.handler.on.txFilter.value;
      var fields := [f.from, f.to, f.func, f.typ];
      assert f.from in fields && f.to in fields && f.func in fields && f.typ in fields;
      assert HasDefined(f) <==> exists t :: t in fields && t != Undefined;
    }
  }
}
