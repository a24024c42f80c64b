/** Chain data and manifest filters, as the indexer sees them, and the hashing of signatures. */
module Ethereum {
  import opened Js
  import opened Hex

  datatype Log = Log(address: string, topics: seq<string>, transactionHash: string, blockHash: string)

  datatype Transaction = Transaction(hash: string, from: string, to: Text, input: string, typ: string)

  datatype BlockFilter = BlockFilter(modulo: Option<int>, timestamp: Option<string>)

  /** `keyOrder` is the order in which the manifest lists the defined keys; only serialisation sees it. */
  datatype TxFilter = TxFilter(from: Text, to: Text, func: Text, typ: Text, keyOrder: seq<string>)

  datatype LogFilter = LogFilter(topics: Option<seq<Text>>)

  datatype HandlerKind =
    | OnBlock(blockFilter: Option<BlockFilter>)
    | OnCall(txFilter: Option<TxFilter>)
    | OnEvent(logFilter: Option<LogFilter>)

  datatype Handler = Handler(name: string, on: HandlerKind)

  datatype DataSource = DataSource(address: Text, handlers: seq<Handler>)

  const NOT_NULL_FILTER := "!null"

  /** The prefix of a call's input that names the function: four bytes of hex after `0x`. */
  const SELECTOR_LENGTH := 10

  /** The number of topics an EVM log can carry, and the number the filters look at. */
  const MAX_TOPICS := 4

  /** Keccak over a parsed event or function fragment; the fragment parser is not part of this model. */
  datatype Hashing = Hashing(eventId: string -> string, functionId: string -> string)

  ghost predicate ValidHashing(h: Hashing) {
    && (forall s :: IsTopic(h.eventId(s)))
    && (forall s :: |h.functionId(s)| == SELECTOR_LENGTH && IsHexString(h.functionId(s)))
  }

  function EventToTopic(h: Hashing, input: string): string {
    if IsHexString(input) then input else h.eventId(input)
  }

  function FunctionToSighash(h: Hashing, input: string): string {
    if IsHexString(input) then input else h.functionId(input)
  }

  /** What a node guarantees of a log: its contract and transaction are named, and it has at most four topics. */
  predicate WellFormedLog(log: Log) {
    && log.address != "" && log.transactionHash != ""
    && |log.topics| <= MAX_TOPICS
    && forall i :: 0 <= i < |log.topics| ==> IsTopic(log.topics[i])
  }

  /** Call data as a node returns it: whole bytes of lower-case hex. */
  predicate IsCallData(input: string) {
    IsHexString(input) && |input| % 2 == 0 && Lower(input) == input
  }

  /** What a node guarantees of a transaction; only a contract creation lacks a recipient. */
  predicate WellFormedTx(tx: Transaction) {
    && tx.hash != "" && tx.from != "" && tx.to != Str("")
    && IsCallData(tx.input)
  }

  /** Memoised `eventToTopic` and `functionToSighash`: the tables never change an answer. */
  class SignatureCache {
    const h: Hashing
    var eventTopics: map<string, string>
    var functionSighashes: map<string, string>

    ghost predicate Valid()
      reads this
    {
      && (forall s :: s in eventTopics ==> eventTopics[s] == "" || eventTopics[s] == h.eventId(s))
      && (forall s :: s in functionSighashes ==>
            functionSighashes[s] == "" || functionSighashes[s] == h.functionId(s))
    }

    constructor (h: Hashing)
      ensures Valid() && this.h == h
    {
      this.h := h;
      eventTopics, functionSighashes := map[], map[];
    }

    method Event(input: string) returns (topic: string)
      requires Valid()
      modifies this
      ensures Valid()
      ensures topic == EventToTopic(h, input)
      ensures functionSighashes == old(functionSighashes)
    {
      if IsHexString(input) {
        return input;
      }
      if input !in eventTopics || eventTopics[input] == "" {
        eventTopics := eventTopics[input := h.eventId(input)];
      }
      topic := eventTopics[input];
    }

    method Function(input: string) returns (sighash: string)
      requires Valid()
      modifies this
      ensures Valid()
      ensures sighash == FunctionToSighash(h, input)
      ensures eventTopics == old(eventTopics)
    {
      if IsHexString(input) {
        return input;
      }
      if input !in functionSighashes || functionSighashes[input] == "" {
        functionSighashes := functionSighashes[input := h.functionId(input)];
      }
      sighash := functionSighashes[input];
    }
  }
}
