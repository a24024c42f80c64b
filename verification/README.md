# SubQuery Ethereum indexer: verified model

A Dafny model of the parts of the indexer where a fast or batched path has to agree with a simple one,
and proofs that it does, or of the exact condition under which it does.

* **Dictionary queries** (`Hex`, `Ethereum`, `RuntimeFilters`, `Grouping`, `Coverage`, `DictionaryV1`,
  `V1Soundness`, `V1Grouping`, `DictionaryV2`, `V2Soundness`, `V2Grouping`, `AddressLimit`, `QueryResults`,
  `UnconstrainedHandlers`, `Divergences`). Handlers are merged and compiled
  to index queries; at runtime the log and transaction filters decide what a handler really runs on. A row
  the filter accepts and the query drops is never indexed. Both query generations get a meaning over stored rows, and
  for each compiled entry the proofs give the exact condition under which it misses nothing.
* **JSON-RPC batching** (`BatchTuning`, `BatchProtocol`, `BatchSafety`, `BatchRuns`, `BatchAnswers`, `BatchProvider`). The provider is a
  class; its methods are the atomic steps of a state machine whose runs interleave sends, the timer, responses
  and failures.
* **Fork detection and rewind** (`ForkRewind`, `ForkSafety`). The backward walk over cached headers against a
  hash-linked remote chain whose hash lookups may fail on any call.
* **Light and full blocks** (`LightBlocks`, `LightSafety`, `DispatchOrder`, `BlockFetching`). What is dispatched and what handlers run when
  transactions are not fetched, and when that path is chosen.
* **ABI names and custom types** (`AbiNames`, `AbiReading`, `CustomTypes`, `ProjectFilters`). A recursive printer that must keep overloads apart,
  and a word-by-word rewriter that should be one simultaneous substitution.

`Js` holds the few JavaScript and lodash notions that all of them use.

## What the code does where it differs from its own promises

* The runtime topic loop returns at the first '!null' and ignores later topics; both compilers still put later topics
  into the query. The first-generation entry misses logs exactly in that case, or when a compared topic is not
  written as a full-width lower-case topic (`EventEntryCoversIff`).
* A call handler without a filter runs on every transaction, whatever its data source's address; a filter's recipient overrides
  that address at runtime and is overridden by it in both queries (`CallEntryCoversIff`, `GroupCoversIff`).
* The second generation drops unconstrained handlers silently; the first gives the dictionary up. Beside a constrained handler,
  their rows are kept exactly when another handler's record happens to select every row of their kind
  (`UnconstrainedEventIsKeptIff`, `UnconstrainedCallIsKeptIff`; `MixedProjectLosesItsLogs`, `EventsBesideATopicAreLost`).
* The guard `!handler.filter && !addresses?.length` never fires, since every group lists at least one entry, possibly an
  undefined one (`OnlyBlockHandlersGiveUp`, `GroupingPartitions`).
* The comment on fork detection says that links are checked; with two cached headers they are not, so the oldest header may
  stay off the chain after a rewind (`SecondHeaderIsUnchecked`, `RewindSplitsCache`).
* The comment in the type rewriter speaks of parameter types; the pattern also replaces the event's own name (`OwnNameIsReplacedToo`).
* An error payload without a message makes the response reader throw; the requests after it are then rejected although their
  payloads may be present (`ReadingSettlesBatch`).

## Assumptions about what is outside the code

* The index stores addresses in lower case, topics as 32 bytes of lower-case hex, no function for the input `0x` in the first
  generation, and otherwise the first four bytes of the input (the whole input when shorter). An empty first-generation query,
  and `{}` in the second, mean that the dictionary is not used.
* Signature hashing is a parameter that yields full topics and 4-byte selectors. A log has at most four topics. Transactions
  have a hash, a sender and an input of whole bytes in lower-case hex; the format of addresses is left open, as two are allowed.
* `indexData` hands an item to the handlers of its kind, in order; headers are cached and trimmed as `RegisterAndCheck` and
  `TrimFinalized` say. The base classes are not part of this model.
* The first request identifier is 42, as in ethers; a timer fires at most once after it is set and a response or failure
  arrives at most once for each transmitted batch.

## Model

| member | source | states |
|---|---|---|
| `RuntimeFilters.FilterLogsProcessor` | packages/node/src/ethereum/block.ethereum.ts:91-123 | The topic loop with its early returns and the throw on non-hex topics; on logs the EVM can produce it never throws and accepts exactly the logs whose address matches and that meet every topic demand standing before the first '!null'. |
| `RuntimeFilters.OutcomeDecidesDemands` | packages/node/src/ethereum/block.ethereum.ts:102-121 | From any position on, the loop's outcome is the conjunction of the demands it still reaches. |
| `RuntimeFilters.OnePositionDecides` | packages/node/src/ethereum/block.ethereum.ts:102-121 | Each of the first four topic positions is compared on its own, with the text itself when it is hex and its hash otherwise; demands from the fifth on count for nothing. |
| `RuntimeFilters.AcceptsTransactionIff` | packages/node/src/ethereum/block.ethereum.ts:44-89 | A transaction filter is the conjunction of recipient, sender, address beside an undefined recipient, function and type; a missing filter accepts everything. |
| `Hex.TopicsCompareExactly` | packages/node/src/utils/string.ts:8-17 | Between 32-byte lower-case topics, the comparison that strips zeros and case is equality. |
| `Hex.HexStringEqIff` | packages/node/src/utils/string.ts:8-17 | Two hex strings are equal if and only if their digits, padded with zeros to one length, agree up to case; other texts throw. |
| `Hex.FittingHexHasATopic` | packages/node/src/utils/string.ts:12-17 | A hex string with at most 32 significant bytes equals its zero-padded lower-case topic, which the index may store while the query asks for the text as written. |
| `Hex.LongHexHasNoTopic` | packages/node/src/utils/string.ts:12-17 | A hex string with more than 32 significant bytes equals no topic. |
| `Ethereum.SignatureCache.Event` | packages/node/src/utils/string.ts:258-269 | The memo table never changes the answer of `eventToTopic`. |
| `Ethereum.SignatureCache.Function` | packages/node/src/utils/string.ts:271-283 | The memo table never changes the answer of `functionToSighash`. |
| `Coverage.WitnessLogIsAccepted` | packages/node/src/ethereum/block.ethereum.ts:91-123 | Every topic filter that asks for at most 32 bytes per position runs on some log, even one that ends at the first '!null'. |
| `Coverage.NeverMatchesAcceptsNothing` | packages/node/src/ethereum/block.ethereum.ts:102-121 | A filter that asks for more than 32 bytes at a position it reaches runs on no log. |
| `Coverage.WitnessTxIsAccepted` | packages/node/src/ethereum/block.ethereum.ts:44-89 | Unless it names a function with a capital, every transaction filter runs on some transaction a node can return: named hash and sender, whole bytes of lower-case hex as input. |
| `Coverage.NeverCalledAcceptsNothing` | packages/node/src/ethereum/block.ethereum.ts:72-80 | A filter whose named function is written with a capital runs on no transaction a node returns. |
| `Coverage.ConstrainedIff` | packages/node/src/indexer/dictionary/v1/ethDictionaryV1.ts:175-208 | A group is constrained if and only if an address is present, its log filter lists a position, its transaction filter defines a field, or its block filter has a modulo. |
| `Grouping.GroupingPartitions` | packages/node/src/indexer/dictionary/utils.ts:9-38 | Every (address, handler) occurrence belongs to exactly one group; a group lists at least one address, none twice, and only those of its own occurrences. |
| `Grouping.SameKeyIff` | packages/node/src/indexer/dictionary/utils.ts:25-27 | Handlers are merged if and only if they have the same kind and filter, whatever their names; in a topic list undefined and null count as the same. |
| `Grouping.InOccurrences` | packages/node/src/indexer/dictionary/utils.ts:12-23 | What is grouped are exactly the (address, handler) pairs of the project's data sources. |
| `Grouping.KeyDeterminesRuntime` | packages/node/src/indexer/dictionary/utils.ts:25-35 | Handlers with one serialised key run on the same rows at every address, so a group may keep only its first handler. |
| `DictionaryV1.ApplyAddresses` | packages/node/src/indexer/dictionary/v1/ethDictionaryV1.ts:34-64 | Beyond the limit, with no address or with one missing, nothing is added; otherwise one condition on the single lower-cased address or on the list of them. |
| `AddressLimit.V1EventsIgnoreAddress` | packages/node/src/indexer/dictionary/v1/ethDictionaryV1.ts:43-46 | Beyond the limit, whether an event entry selects a log does not depend on the log's address. |
| `AddressLimit.V1EventsBeyondLimit` | packages/node/src/indexer/dictionary/v1/ethDictionaryV1.ts:34-99 | Beyond the limit, an indexable event entry selects exactly the logs its handler would run on without an address. |
| `AddressLimit.V1CallsBeyondLimit` | packages/node/src/indexer/dictionary/v1/ethDictionaryV1.ts:101-166 | Beyond the limit, a call entry takes its recipient from the filter alone. |
| `DictionaryV1.EventFilterToQueryEntry` | packages/node/src/indexer/dictionary/v1/ethDictionaryV1.ts:66-99 | The push loop builds the address conditions followed by one condition per demanding topic position, in order. |
| `DictionaryV1.EventEntryMeaning` | packages/node/src/indexer/dictionary/v1/ethDictionaryV1.ts:66-99 | What the built entry selects: the lower-cased address is in the used list and every demanding position, reached or not, holds. |
| `DictionaryV1.RetargetConditions` | packages/node/src/indexer/dictionary/v1/ethDictionaryV1.ts:108-112 | Renaming address conditions to recipient conditions in place changes nothing else. |
| `DictionaryV1.CallFilterToQueryEntry` | packages/node/src/indexer/dictionary/v1/ethDictionaryV1.ts:101-166 | The branches on sender, recipient and function, with the data source's addresses taking precedence over the filter's recipient. |
| `DictionaryV1.CallEntryMeaning` | packages/node/src/indexer/dictionary/v1/ethDictionaryV1.ts:101-166 | What the built entry selects: recipient from the used addresses, otherwise from the filter; sender and function from the filter; the type is not asked for. |
| `DictionaryV1.BuildDictionaryV1QueryEntries` | packages/node/src/indexer/dictionary/v1/ethDictionaryV1.ts:169-217 | The build loop with its early returns and the final deduplication computes the query the lemmas below speak of. |
| `V1Soundness.EventEntryCoversIff` | packages/node/src/indexer/dictionary/v1/ethDictionaryV1.ts:66-99 | For all logs and group addresses: the entry misses no log its handler runs on if and only if no topic stands behind a '!null' and every compared topic is a full-width lower-case topic (or the filter never matches). |
| `V1Soundness.CallEntryCoversIff` | packages/node/src/indexer/dictionary/v1/ethDictionaryV1.ts:101-166 | For all transactions a node can return: the entry misses none its handler runs on if and only if the named function has a capital (so the handler never runs), or, whenever addresses are used, there is a filter whose recipient is undefined or one of them, and a named function has a 4-byte selector. |
| `V1Soundness.EventEntryIsExact` | packages/node/src/indexer/dictionary/v1/ethDictionaryV1.ts:66-99 | The other direction: for a non-empty address list within the limit, an indexable event entry selects exactly the logs its handler runs on for one of the addresses. |
| `V1Soundness.CallEntryIsExact` | packages/node/src/indexer/dictionary/v1/ethDictionaryV1.ts:101-166 | The other direction: for a non-empty address list within the limit, a call entry with a 4-byte selector if it names a function, a function that is not the empty string and no recipient beside used addresses selects exactly the transactions its handler would run on if the filter named no type, which is not indexed. |
| `V1Soundness.EntriesOfExact` | packages/node/src/indexer/dictionary/v1/ethDictionaryV1.ts:175-208 | The build gives up exactly when some group is unconstrained; otherwise the entries are exactly those of the call and event groups. |
| `V1Soundness.KeyDeterminesRows` | packages/node/src/indexer/dictionary/v1/ethDictionaryV1.ts:210-216 | Entries that agree after sorting their conditions by column select the same rows. |
| `V1Soundness.DeduplicationKeepsRows` | packages/node/src/indexer/dictionary/v1/ethDictionaryV1.ts:210-216 | Deduplication leaves no key twice and selects the same rows, for every entry list. |
| `QueryResults.V1ResultHasNoDuplicates` | packages/node/src/indexer/dictionary/v1/ethDictionaryV1.ts:210-216 | What the compiler returns has no two entries of one entity with the same conditions in any order. |
| `QueryResults.SameEntryIff` | packages/node/src/indexer/dictionary/v1/ethDictionaryV1.ts:210-216 | Between compiled entries, sorting by column identifies exactly those that differ in order only. |
| `Js.UniqByKeepsFirsts` | packages/node/src/indexer/dictionary/v1/ethDictionaryV1.ts:210-216 | `uniqBy` returns the first occurrence of every key. |
| `Js.FirstOccurrencesAscend` | packages/node/src/indexer/dictionary/v1/ethDictionaryV1.ts:210-216 | `uniqBy` keeps the original order. |
| `V1Soundness.QueryMissesNothing` | packages/node/src/indexer/dictionary/v1/ethDictionaryV1.ts:169-217 | Soundness of the whole compiler: for every project whose groups are indexable, no row that any handler runs on is left out, through grouping, address widening and limit, topic loop and deduplication. |
| `V1Grouping.AloneMissesNothingIff` | packages/node/src/indexer/dictionary/v1/ethDictionaryV1.ts:169-217 | On every project of one handler the compiled query misses nothing if and only if it is given up or the handler is indexable. |
| `V1Grouping.GroupSelectsItsMembers` | packages/node/src/indexer/dictionary/v1/ethDictionaryV1.ts:34-64 | Merging a handler that is constrained alone and has no recipient beside its address into a group only widens what is selected, whatever the limit. |
| `V1Grouping.GroupSelectsOnlyItsMembers` | packages/node/src/indexer/dictionary/v1/ethDictionaryV1.ts:34-64 | Within the limit a merged entry selects nothing beyond its members' entries. |
| `V1Grouping.GroupedQueryIsUnion` | packages/node/src/indexer/dictionary/v1/ethDictionaryV1.ts:169-217 | With handlers constrained one by one, groups within the limit and no recipient beside an address, the grouped query selects exactly the union of the single-handler queries. |
| `DictionaryV2.ApplyAddresses` | packages/node/src/indexer/dictionary/v2/ethDictionaryV2.ts:44-58 | Beyond the limit, with no address or with one missing, the list is empty; otherwise it is the lower-cased addresses. |
| `AddressLimit.V2EventsIgnoreAddress` | packages/node/src/indexer/dictionary/v2/ethDictionaryV2.ts:51-54 | Beyond the limit, whether an event record selects a log does not depend on the log's address. |
| `AddressLimit.V2CallsBeyondLimit` | packages/node/src/indexer/dictionary/v2/ethDictionaryV2.ts:60-119 | Beyond the limit, a call record takes its recipient from the filter alone. |
| `AddressLimit.GroupBeyondLimitSelectsEveryContract` | packages/node/src/indexer/dictionary/v2/ethDictionaryV2.ts:51-54 | In both generations, a whole query that selects a log through a group beyond the limit selects the same log of every other contract. |
| `DictionaryV2.CallFilterToDictionaryCondition` | packages/node/src/indexer/dictionary/v2/ethDictionaryV2.ts:60-119 | Builds the transaction record field by field, leaving out unavailable fields and empty lists; null recipients are values. |
| `DictionaryV2.AddTopic` | packages/node/src/indexer/dictionary/v2/ethDictionaryV2.ts:132-151 | One turn of the topic loop. |
| `DictionaryV2.EventFilterToDictionaryCondition` | packages/node/src/indexer/dictionary/v2/ethDictionaryV2.ts:121-153 | Builds the log record; a '!null' position becomes an unconstrained list. |
| `DictionaryV2.SanitiseDictionaryConditions` | packages/node/src/indexer/dictionary/v2/ethDictionaryV2.ts:155-176 | Empty lists are dropped, the others deduplicated by record. |
| `DictionaryV2.AddGroup` | packages/node/src/indexer/dictionary/v2/ethDictionaryV2.ts:188-234 | One turn of the build loop: the early return, or what the group adds. |
| `DictionaryV2.BuildDictionaryV2QueryEntry` | packages/node/src/indexer/dictionary/v2/ethDictionaryV2.ts:178-238 | The build loop and the final clean-up compute the query the lemmas below speak of. |
| `DictionaryV2.OnlyBlockHandlersGiveUp` | packages/node/src/indexer/dictionary/v2/ethDictionaryV2.ts:189-197 | The guard on a missing filter and no addresses never fires, because a group always lists an address; only block handlers without modulo give up. |
| `V2Soundness.GroupCoversIff` | packages/node/src/indexer/dictionary/v2/ethDictionaryV2.ts:60-153 | For all rows: a group's record misses none its handler runs on if and only if the group is constrained and indexable through the offered filters (recipient clash, empty recipient, selector width, '!null' and topic width). |
| `V2Soundness.DeduplicationKeepsRows` | packages/node/src/indexer/dictionary/v2/ethDictionaryV2.ts:155-176 | Deduplication keeps exactly the distinct records and what they select. |
| `QueryResults.V2ResultHasNoDuplicates` | packages/node/src/indexer/dictionary/v2/ethDictionaryV2.ts:155-176 | What the compiler returns has no record twice and no empty list. |
| `QueryResults.V2CallRecordIsExact` | packages/node/src/indexer/dictionary/v2/ethDictionaryV2.ts:60-119 | With all transaction filters offered and within the limit, a call record selects exactly the transactions its handler runs on, type included, unless the function is null or a recipient stands beside used addresses. |
| `V2Soundness.QueryMissesNothing` | packages/node/src/indexer/dictionary/v2/ethDictionaryV2.ts:178-238 | Soundness for every set of offered filters, over every project whose groups are constrained and indexable. |
| `V2Soundness.AloneMissesNothingIff` | packages/node/src/indexer/dictionary/v2/ethDictionaryV2.ts:178-238 | On every project of one handler the query misses nothing if and only if the dictionary is unused or the handler is indexable. |
| `UnconstrainedHandlers.UnconstrainedEventIsKeptIff` | packages/node/src/indexer/dictionary/v2/ethDictionaryV2.ts:178-238 | For every project, limit and set of offered filters: the query misses no log of an unconstrained event handler if and only if the dictionary is not used or some constrained event group has no address list used and offered and no comparing position offered. |
| `UnconstrainedHandlers.UnconstrainedCallIsKeptIff` | packages/node/src/indexer/dictionary/v2/ethDictionaryV2.ts:178-238 | The same for an unconstrained call handler: if and only if the dictionary is not used or, for every call data, some constrained call group asks at most for its function. |
| `UnconstrainedHandlers.UnconstrainedCallIsKeptBy` | packages/node/src/indexer/dictionary/v2/ethDictionaryV2.ts:178-238 | In a project of fewer than 2^32 groups, if and only if the dictionary is not used or one constrained call group asks for nothing at all that is offered. |
| `V2Grouping.GroupedQueryIsUnion` | packages/node/src/indexer/dictionary/utils.ts:9-38 | For every set of offered filters: when every handler is constrained alone, groups are within the address limit and no recipient stands beside an address, the grouped query selects exactly the union of what the event and call handlers select alone; with block handlers only, it is not used. |
| `V2Grouping.GroupSelectsItsMembers` | packages/node/src/indexer/dictionary/v2/ethDictionaryV2.ts:60-119 | Merging a handler that is constrained alone and has no recipient beside its address into a group only widens what is selected, whatever the limit. |
| `V2Grouping.GroupSelectsOnlyItsMembers` | packages/node/src/indexer/dictionary/v2/ethDictionaryV2.ts:60-119 | Within the address limit, merging selects nothing new. |
| `V2Soundness.FewerFiltersSelectMore` | packages/node/src/indexer/dictionary/v2/ethDictionaryV2.ts:98-109 | Removing offered filters only enlarges what is selected, for every project and row. |
| `V2Soundness.GenerationsAgreeOnLogs` | packages/node/src/indexer/dictionary/v2/ethDictionaryV2.ts:121-153 | Among constrained handlers the second generation selects every log the first does; with all log filters offered and no '!null', exactly the same logs. |
| `Divergences.NotNullHidesLaterTopics` | packages/node/src/ethereum/block.ethereum.ts:113-115 | A concrete filter and log: the runtime stops at '!null', the first-generation entry still demands the next topic. |
| `Divergences.ShortTopicsAreNotPadded` | packages/node/src/utils/string.ts:12-17 | A concrete short topic that the runtime accepts and the entry compares as written. |
| `Divergences.MissingCallFilterIgnoresAddress` | packages/node/src/ethereum/block.ethereum.ts:49 | Without a filter the runtime ignores the data source's address: for every address and every transaction to another recipient, the handler runs and both queries miss it. |
| `Divergences.RecipientClashesWithAddress` | packages/node/src/ethereum/block.ethereum.ts:58-70 | For every recipient and every address that differs from it beyond case: the handler runs on all transactions to the recipient, and both queries miss them. |
| `Divergences.MixedProjectLosesItsLogs` | packages/node/src/indexer/dictionary/v2/ethDictionaryV2.ts:216-232 | An event handler beside a call handler with any address: it runs on every log, the first generation gives up, the second selects no log. |
| `Divergences.EventsBesideATopicAreLost` | packages/node/src/indexer/dictionary/v2/ethDictionaryV2.ts:216-232 | An event handler beside one that asks for any topic: it runs on every log, the second generation selects none without that topic. |
| `Divergences.CallsBesideATopicAreLost` | packages/node/src/indexer/dictionary/v2/ethDictionaryV2.ts:198-215 | A call handler without filter and address beside an event handler with a topic: it runs on every transaction, the second generation selects none. |
| `BatchProvider.JsonRpcBatchProvider.SetBatchSize` | packages/node/src/ethereum/ethers/json-rpc-batch-provider.ts:43-45 | Sets the size and nothing else. |
| `BatchProvider.JsonRpcBatchProvider.Send` | packages/node/src/ethereum/ethers/json-rpc-batch-provider.ts:47-84 | Answers a cached chain id at once; otherwise numbers and enqueues the request, sets the timer, and transmits when the pending batch exceeds the size. |
| `BatchProvider.JsonRpcBatchProvider.Flush` | packages/node/src/ethereum/ethers/json-rpc-batch-provider.ts:86-91 | Transmits when the timer is set, otherwise does nothing. |
| `BatchProvider.JsonRpcBatchProvider.RunRequests` | packages/node/src/ethereum/ethers/json-rpc-batch-provider.ts:93-101 | The pending batch goes out, and neither it nor its timer remains. |
| `BatchProvider.JsonRpcBatchProvider.ReadPayload` | packages/node/src/ethereum/ethers/json-rpc-batch-provider.ts:168-196 | Settles one request by its payload: missing, refused, or resolved with the result, null included; counts complaints and reports the throw on an error without message. |
| `BatchProvider.JsonRpcBatchProvider.ReadBatch` | packages/node/src/ethereum/ethers/json-rpc-batch-provider.ts:159-196 | The forEach over the batch, stopping where it throws. |
| `BatchProvider.JsonRpcBatchProvider.ResponseArrives` | packages/node/src/ethereum/ethers/json-rpc-batch-provider.ts:109-216 | The three ways of reading a response, including what the catch clause does with a throw. |
| `BatchProvider.JsonRpcBatchProvider.TransportFails` | packages/node/src/ethereum/ethers/json-rpc-batch-provider.ts:200-215 | A failed fetch rejects what is still unsettled of its batch. |
| `BatchProvider.JsonRpcBatchProvider.AdjustBatchSize` | packages/node/src/ethereum/ethers/json-rpc-batch-provider.ts:218-236 | The floating-point rate rule equals the whole-number rule the lemmas use. |
| `BatchRuns.StepKeepsInv` | packages/node/src/ethereum/ethers/json-rpc-batch-provider.ts:47-216 | Every atomic step keeps conservation, numbering, the timer rule and exact settlement, and changes no settlement. |
| `BatchRuns.RunsKeepInv` | packages/node/src/ethereum/ethers/json-rpc-batch-provider.ts:47-216 | In every interleaving: transmitted batches followed by the pending one are the requests in send order with consecutive ids; the timer is set exactly when something is pending and no batch is empty; a promise is settled exactly when its batch was answered or failed. |
| `BatchRuns.SettlementsAreFinal` | packages/node/src/ethereum/ethers/json-rpc-batch-provider.ts:109-215 | A settled promise keeps its settlement for the rest of the run. |
| `BatchSafety.IdsAreUnique` | packages/node/src/ethereum/ethers/json-rpc-batch-provider.ts:52-57 | An id belongs to one transmitted batch only. |
| `BatchSafety.ReadingSettlesBatch` | packages/node/src/ethereum/ethers/json-rpc-batch-provider.ts:159-215 | Reading an array settles every request of the batch, as its own payload says up to the first throw, and no other promise. |
| `BatchRuns.LastWithIdMeaning` | packages/node/src/ethereum/ethers/json-rpc-batch-provider.ts:159-162 | The result map holds the last payload that carries an id. |
| `BatchRuns.ResponsesAreMatchedById` | packages/node/src/ethereum/ethers/json-rpc-batch-provider.ts:118-215 | For any order, duplicates or gaps: the exact settlement of every request of the answered batch, and of no other (section 6 of the JSON-RPC 2.0 specification). |
| `BatchRuns.ResolvedOnlyByOwnPayload` | packages/node/src/ethereum/ethers/json-rpc-batch-provider.ts:159-195 | A request is resolved only with the result of the last payload with its id in its own response; unusable responses resolve nothing. |
| `BatchAnswers.AnsweredRequestIsSettled` | packages/node/src/ethereum/ethers/json-rpc-batch-provider.ts:159-211 | For every readable array, by positions: a request is resolved with the result of the last payload that carries its id when that has no error, rejected with its error when it has one, rejected as missing when there is none, and unreadable exactly when the reader stumbled at it or before. |
| `BatchAnswers.UnusableResponseRejects` | packages/node/src/ethereum/ethers/json-rpc-batch-provider.ts:126-157 | A response that is no array, has the rate-limit form or contains a null payload resolves nothing: every request of the batch is rejected, with the response's own reason. |
| `BatchAnswers.ChainIdAfterResponse` | packages/node/src/ethereum/ethers/json-rpc-batch-provider.ts:191-194 | The chain id cached after a response is what the last `eth_chainId` request of its batch resolved to, or the old one when none did. |
| `BatchAnswers.ChainIdComesFromAnswers` | packages/node/src/ethereum/ethers/json-rpc-batch-provider.ts:47-50 | In every run, a cached chain id is what an `eth_chainId` request of the run was resolved with. |
| `BatchAnswers.ArrayCounts` | packages/node/src/ethereum/ethers/json-rpc-batch-provider.ts:159-198 | A readable array counts one failure for every request whose last payload blames the batch size, up to where the reader stumbles, and one success at the end if it does not. |
| `BatchAnswers.ContainsIff` | packages/node/src/ethereum/ethers/json-rpc-batch-provider.ts:176-186 | The search for a known complaint finds it exactly when the message is some text, the complaint and some text. |
| `BatchAnswers.OtherResponsesCount` | packages/node/src/ethereum/ethers/json-rpc-batch-provider.ts:126-157 | Any other response counts one failure in the rate-limit form or with the known complaint, and nothing otherwise. |
| `BatchAnswers.TransportFailureRejects` | packages/node/src/ethereum/ethers/json-rpc-batch-provider.ts:200-215 | A failed transport rejects exactly the requests of its batch, with its message, and counts for nothing. |
| `BatchAnswers.SendTransmitsBeyondSize` | packages/node/src/ethereum/ethers/json-rpc-batch-provider.ts:47-86 | A send that is not answered from the cache transmits everything pending exactly when more than the batch size is pending, and waits otherwise. |
| `BatchAnswers.FlushingTransmitsAll` | packages/node/src/ethereum/ethers/json-rpc-batch-provider.ts:71-98 | The timer and a flush transmit everything pending. |
| `BatchAnswers.RequestsAreTheSends` | packages/node/src/ethereum/ethers/json-rpc-batch-provider.ts:47-65 | In every run, the requests made carry the methods and parameters of the sends that the cache does not answer, in order, numbered from 42. |
| `BatchRuns.BatchesAreBounded` | packages/node/src/ethereum/ethers/json-rpc-batch-provider.ts:43-98 | Every transmitted batch has between one request and one more than the largest of ten and any size ever set, even when the size shrinks meanwhile. |
| `BatchRuns.RunSizeIsWindowFold` | packages/node/src/ethereum/ethers/json-rpc-batch-provider.ts:130-198 | Over any run the size is the window fold of the outcomes the responses counted; nothing else moves it. |
| `BatchTuning.SizeIsWindowFold` | packages/node/src/ethereum/ethers/json-rpc-batch-provider.ts:218-236 | From fresh counters the size equals a fold over complete windows of ten, and the counters are those of the open window, below ten. |
| `BatchTuning.SizeMovesSlowly` | packages/node/src/ethereum/ethers/json-rpc-batch-provider.ts:218-236 | The size stays in [1, 10] when started there and n outcomes move it by at most n / 10. |
| `BatchTuning.HundredOutcomesConverge` | packages/node/src/ethereum/ethers/json-rpc-batch-provider.ts:218-236 | From any reachable state in range, a hundred successes reach ten and a hundred failures reach one. |
| `ForkRewind.UnfinalizedBlocksService.HasForked` | packages/node/src/indexer/unfinalizedBlocks.service.ts:55-91 | The startup comparison, made once, then the link check on caches longer than two. |
| `ForkRewind.UnfinalizedBlocksService.GetLastCorrectFinalizedBlock` | packages/node/src/indexer/unfinalizedBlocks.service.ts:97-152 | The backward loop with its fallback by height, then POI, then the reindex distance. |
| `ForkRewind.UnfinalizedBlocksService.RegisterAndCheck` | packages/node/src/indexer/unfinalizedBlocks.service.ts:76-90 | Appending a header and checking, as runs below compose it. |
| `ForkSafety.RewindPointIsExact` | packages/node/src/indexer/unfinalizedBlocks.service.ts:97-133 | Whichever hash lookups fail, the loop returns a header if and only if it is cached below the fork and on the chain and every height between is cached off the chain. |
| `ForkSafety.WalkRecoversIff` | packages/node/src/indexer/unfinalizedBlocks.service.ts:97-133 | From a gapless cache that reaches the fork's parent, the walk returns a header if and only if some cached header below the fork is on the chain. |
| `ForkSafety.DetectionLeadsToRewind` | packages/node/src/indexer/unfinalizedBlocks.service.ts:55-147 | A reported fork is the chain's header at the last cached height and part of the cache is off the chain; the rewind then finds a header exactly when part of the cache below survives, and it is the rewind point. |
| `ForkSafety.LinkCheckIsExact` | packages/node/src/indexer/unfinalizedBlocks.service.ts:76-91 | With more than two cached headers and the last one on the chain, the link check reports a fork if and only if its predecessor is off the chain. |
| `ForkSafety.RewindSplitsCache` | packages/node/src/indexer/unfinalizedBlocks.service.ts:97-133 | Everything at or below the returned header is on the chain and everything above it and below the fork is not; only the oldest header can escape, exactly when its unchecked link is broken. |
| `ForkSafety.WalkStaysInRange` | packages/node/src/indexer/unfinalizedBlocks.service.ts:107-133 | The loop asks for at most one height per cached header, each in [0, fork height). |
| `ForkSafety.RewindMakesProgress` | packages/node/src/indexer/unfinalizedBlocks.service.ts:97-152 | A header from the loop lies below the fork; the fallback without POI does so exactly when at least one block is reindexed; and neither fallback is used while a rewind point is cached. |
| `ForkSafety.WithoutRewindPoint` | packages/node/src/indexer/unfinalizedBlocks.service.ts:134-152 | Without a rewind point in the cache: the result is the POI header, the header `blockForkReindex` blocks back (at least genesis), or a failure, if and only if POI has a header, is not enabled, or fails for the last checked header. |
| `ForkSafety.WithoutParentItFails` | packages/node/src/indexer/unfinalizedBlocks.service.ts:112-131 | Where the highest cached header below the fork does not match and its parent cannot be had, the rewind fails. |
| `ForkSafety.StartupCheckIsExact` | packages/node/src/indexer/unfinalizedBlocks.service.ts:57-70 | On a linked cache, startup reports no fork if and only if all of it is on the chain, and otherwise reports the chain's header at the last cached height. |
| `ForkSafety.RunsStayLinked` | packages/node/src/indexer/unfinalizedBlocks.service.ts:55-91 | In every fork-free run from an empty cache, headers from the third on name their predecessor, and the node was compared with at most once. |
| `ForkSafety.SecondHeaderIsUnchecked` | packages/node/src/indexer/unfinalizedBlocks.service.ts:72-74 | A concrete fork-free run whose second header does not name the first. |
| `LightBlocks.FetchBlock` | packages/node/src/ethereum/api.ethereum.ts:364-403 | The loop that compares every log's block hash, and the assignment of logs to transactions. |
| `LightBlocks.IndexerManager.IndexBlockData` | packages/node/src/indexer/indexer.manager.ts:113-163 | The nested loops dispatch in the order the lemmas below speak of. |
| `DispatchOrder.FullBlockOrder` | packages/node/src/indexer/indexer.manager.ts:113-163 | Position by position: the block to all data sources in project order, then each transaction followed by its logs, each to all data sources, and nothing else. |
| `DispatchOrder.LightBlockOrder` | packages/node/src/indexer/indexer.manager.ts:128-133 | A light block, or one without transactions, is dispatched log by log to all data sources, and nothing else. |
| `BlockFetching.ApiService.UpdateBlockFetching` | packages/node/src/ethereum/api.service.ethereum.ts:195-233 | Whatever path is chosen, on every orderly block the same handlers run on the same items in the same order as on the full path; light fetching is chosen if and only if it is enabled, no data source or template is custom, and it loses nothing, that is, every handler is an event handler. |
| `BlockFetching.LightLosesNothingIff` | packages/node/src/utils/project.ts:65-86 | Without custom data sources, light fetching loses no handler run on any orderly block if and only if every handler of the data sources and templates is an event handler. |
| `LightSafety.RegroupingIsIdentityIff` | packages/node/src/ethereum/api.ethereum.ts:391-396 | With distinct hashes, visiting logs transaction by transaction keeps their order if and only if they are in transaction order and every transaction is present. |
| `LightSafety.RegroupingIsPermutationIff` | packages/node/src/ethereum/api.ethereum.ts:391-396 | It visits every log once if and only if every log's transaction is in the block. |
| `LightSafety.LightKeepsEventSequenceIff` | packages/node/src/indexer/indexer.manager.ts:113-163 | The light block dispatches the same event sequence as the full block if and only if the block has no transactions or its logs are in transaction order. |
| `LightSafety.OnlyEventDispatchesRun` | packages/node/src/indexer/indexer.manager.ts:135-163 | Data sources with event handlers only run nothing on blocks and transactions. |
| `LightSafety.LightModeRunsTheSame` | packages/node/src/ethereum/api.service.ethereum.ts:195-222 | Where light fetching is chosen, the same handlers run on the same items in the same order, for logs in transaction order. |
| `LightSafety.LightModeRunsTheSameItems` | packages/node/src/ethereum/api.service.ethereum.ts:195-222 | Without the order, the same handlers run on the same items as often. |
| `AbiNames.PrintedInputParses` | packages/common-ethereum/src/codegen/codegen-controller.ts:126-141 | Two printed inputs that begin the same text, each followed by what may follow an input, agree up to normal form and leave the same rest. |
| `AbiNames.PrintingIsInjectiveUpToNormalForm` | packages/common-ethereum/src/codegen/codegen-controller.ts:126-141 | Two input lists print alike if and only if they agree up to the case of base types and the struct types other than `tuple[]`. |
| `AbiNames.PrintingIsInjective` | packages/common-ethereum/src/codegen/codegen-controller.ts:126-141 | On lower-case base types, `tuple` and `tuple[]`, printing is injective. |
| `AbiNames.FixedListsOfStructsCollide` | packages/common-ethereum/src/codegen/codegen-controller.ts:130-136 | A fixed-size list of structs prints like one struct. |
| `AbiNames.DuplicateNames` | packages/common-ethereum/src/codegen/codegen-controller.ts:206-209 | The names whose index is not their first are exactly those that occur twice. |
| `AbiNames.PrepareFunctionNames` | packages/common-ethereum/src/codegen/codegen-controller.ts:210-219 | The loop emits, in order, the plain name or the name with its printed inputs when overloaded. |
| `AbiReading.ReadingUndoesPrinting` | packages/common-ethereum/src/codegen/codegen-controller.ts:126-141 | Round trip with a reader written apart from the printer: printed canonical inputs are read back, others up to normal form. |
| `AbiReading.FunctionNamesReadBack` | packages/common-ethereum/src/codegen/codegen-controller.ts:202-217 | An emitted function name is the plain name if no other function has it, and otherwise the name followed by a text that reads as the inputs. |
| `AbiNames.FunctionNamesCollideIff` | packages/common-ethereum/src/codegen/codegen-controller.ts:202-219 | Two functions get one name if and only if their identifiers are equal and their inputs agree up to normal form. |
| `AbiNames.FunctionNamesAreDistinct` | packages/common-ethereum/src/codegen/codegen-controller.ts:202-219 | Pairwise distinct (name, canonical inputs) give pairwise distinct function names. |
| `CustomTypes.ResolveCustomTypesInSignature` | packages/node/src/utils/string.ts:235-252 | The forEach over the map replaces one name after the other. |
| `CustomTypes.ReplaceAtBoundary` | packages/node/src/utils/string.ts:242-249 | Replacing a word with word boundaries on both sides replaces exactly the maximal words equal to it; partial words are left alone. |
| `CustomTypes.MapWordsCompose` | packages/node/src/utils/string.ts:242-249 | What is put in for a word never joins its neighbours, so passes compose word by word. |
| `CustomTypes.SequentialIsSimultaneousIff` | packages/node/src/utils/string.ts:235-252 | For all signatures, replacing one by one equals substituting every whole word at once if and only if no resolved type is changed by later names. |
| `CustomTypes.ResolutionIsIdempotentIff` | packages/node/src/utils/string.ts:235-252 | For all signatures, resolving again changes nothing if and only if it changes nothing in what each custom type's own name is resolved to. |
| `CustomTypes.OrderDoesNotMatterIff` | packages/node/src/utils/string.ts:242-249 | Every order of the names gives every signature the same result if and only if replacing one name leaves every other type's resolved type as it is. |
| `CustomTypes.ResolutionIsStable` | packages/node/src/utils/string.ts:235-252 | With resolved types free of names: simultaneous, independent of the map's order, idempotent. |
| `CustomTypes.OwnNameIsReplacedToo` | packages/node/src/utils/string.ts:243-248 | The signature's own name is replaced like any parameter type. |
| `CustomTypes.LaterNamesReachIntoEarlierTypes` | packages/node/src/utils/string.ts:242-249 | Concrete types for which order matters. |
| `ProjectFilters.HandlerFilter.ProcessEventHandlerFilters` | packages/node/src/utils/project.ts:114-140 | Rewrites only a signature in the first topic position, in place. |
| `ProjectFilters.HandlerFilter.ProcessTransactionHandlerFilters` | packages/node/src/utils/project.ts:145-166 | Rewrites only a function signature, in place. |
| `ProjectFilters.FirstTopicIsResolved` | packages/node/src/utils/project.ts:114-140 | The first topic of an event handler becomes its resolved signature if and only if it is a text that is neither blank nor hex; nothing else of the filter changes. |
| `ProjectFilters.FunctionIsResolved` | packages/node/src/utils/project.ts:145-166 | A call handler's function becomes its resolved signature unless it is empty or hex; nothing else of the filter changes. |
| `ProjectFilters.ProcessingTwiceIsProcessingOnce` | packages/node/src/utils/project.ts:114-166 | Processing one handler's filter again with types that settle changes nothing; topics after the first never change. |
| `ProjectFilters.ProcessHandlers` | packages/node/src/utils/project.ts:203-207 | The loop over a data source's handlers, also where one handler is listed more than once. |
| `ProjectFilters.ResolveTopicFiltersInProject` | packages/node/src/utils/project.ts:180-217 | The loop over data sources: every filter ends up as the visits to its handler leave it, one after the other, also where data sources share a handler. |
| `ProjectFilters.LoadingResolves` | packages/node/src/utils/project.ts:180-217 | Loading resolves every filter whose handler is listed by a data source with custom types, with these types, and leaves all others as they are. |
| `ProjectFilters.LoadingTwiceIsLoadingOnce` | packages/node/src/utils/project.ts:180-217 | Loading the whole project again changes no filter whose data sources have one set of types, if these settle. |

## Left out

* HTTP, WebSocket, gzip, agents and retries: a batch response is an arbitrary input of the model.
* Keccak and the fragment parsers: signatures that fail to parse make the source throw, here hashing is total.
* ABI decoding, block and receipt formatting, and the Celo, OP and Tron providers: field copying through libraries.
* Custom data sources and their processors, and handlers of unknown kinds: they compile to nothing in both generations.
* Cron and timestamp block filters and `modulo`: block handlers only decide whether the dictionary is used; no claim is made about the blocks they run on.
* Block handlers on blocks without transactions: such a block is not treated as full, so its block handlers do not run; the model follows this and claims nothing about them.
* Arrays that the source passes around and pushes to (conditions, query entries, topic fields): modelled as sequences and maps that methods return, so aliasing between them is not captured.
* Non-ASCII text: lower-casing is modelled on ASCII letters only.
* extractCustomTypeFromInput, and prepareSortedAssets and joinInputAbiName: the custom types of an ABI and the list of assets are inputs; type names of overloads are not claimed to be distinct, since every tuple prints as `tuple` there.
* Replacement patterns such as `$&` in resolved types: the source never produces them, and the model inserts replacements literally.
* Empty custom type names: a name is a non-empty text, and the theorems on substitution take names that are single words.
* Payload ids that are texts: a text spelling a number is the same key as the number, other texts match no request; error messages that are neither text nor missing are not distinguished from missing ones.
* findFinalizedUsingPOI: its answer is a parameter, so nothing is claimed about a header it returns.
* Light blocks skip the check of each log's block hash that full blocks make; the comparison of the two paths is made on the logs the node returned.
* SafeEthProvider and the retry proxy: thin wrappers.
* BatchRuns.RunSizeIsWindowFold: takes runs in which the size is set before the first event; `BatchesAreBounded` allows it at any time.
