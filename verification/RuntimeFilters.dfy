/** The filters that decide what a handler really runs on (block.ethereum.ts). */
module RuntimeFilters {
  import opened Js
  import opened Hex
  import opened Ethereum

  predicate NormalizedEq(a: string, b: Text) {
    b.Str? && Lower(a) == Lower(b.s)
  }

  predicate StartsWith(s: string, prefix: string) {
    |prefix| <= |s| && s[..|prefix|] == prefix
  }

  predicate AcceptsTransaction(h: Hashing, tx: Transaction, filter: Option<TxFilter>, address: Text) {
    if filter.None? then true
    else
      var f := filter.value;
      if f.to.Null? && tx.to.Str? then false
      else if Truthy(f.to) && !NormalizedEq(f.to.s, tx.to) then false
      else if Truthy(f.from) && !NormalizedEq(f.from.s, Str(tx.from)) then false
      else if Truthy(address) && f.to.Undefined? && !NormalizedEq(address.s, tx.to) then false
      else if f.func.Null? || f.func == Str("0x") then
        tx.input == "0x" && (Truthy(f.typ) ==> tx.typ == f.typ.s)
      else if f.func.Str? && !StartsWith(tx.input, FunctionToSighash(h, f.func.s)) then false
      else Truthy(f.typ) ==> tx.typ == f.typ.s
  }

  /** The topics of a log filter; a missing filter and a missing list demand nothing. */
  function TopicsOf(filter: Option<LogFilter>): seq<Text> {
    if filter.None? || filter.value.topics.None? then [] else filter.value.topics.value
  }

  /** Position `i` of a topic filter demands something of the log. */
  predicate Demands(topics: seq<Text>, i: nat) {
    i < Min(|topics|, MAX_TOPICS) && Truthy(topics[i])
  }

  predicate IsNotNull(topics: seq<Text>, i: nat) {
    Demands(topics, i) && topics[i].s == NOT_NULL_FILTER
  }

  /** The loop looks at position `i`: no '!null' stands before it. */
  predicate Reached(topics: seq<Text>, i: nat) {
    i < Min(|topics|, MAX_TOPICS) && forall j: nat :: j < i ==> !IsNotNull(topics, j)
  }

  /** The log satisfies what position `i` demands. */
  predicate Meets(h: Hashing, topics: seq<Text>, i: nat, log: Log)
    requires Demands(topics, i)
  {
    && i < |log.topics|
    && (IsNotNull(topics, i) || HexStringEq(EventToTopic(h, topics[i].s), log.topics[i]) == Ok(true))
  }

  /** A log passes a topic filter when it meets every demand the loop reaches. */
  ghost predicate MeetsTopics(h: Hashing, topics: seq<Text>, log: Log) {
    forall i: nat :: Reached(topics, i) && Demands(topics, i) ==> Meets(h, topics, i, log)
  }

  ghost predicate AcceptsLog(h: Hashing, log: Log, filter: Option<LogFilter>, address: Text) {
    && (Truthy(address) ==> Lower(address.s) == Lower(log.address))
    && MeetsTopics(h, TopicsOf(filter), log)
  }

  /** What the source does at position `i` and after it, errors included. */
  function TopicsOutcome(h: Hashing, topics: seq<Text>, log: Log, i: nat): Result<bool>
    decreases MAX_TOPICS - i
  {
    if i >= Min(|topics|, MAX_TOPICS) then Ok(true)
    else if !Truthy(topics[i]) then TopicsOutcome(h, topics, log, i + 1)
    else if i >= |log.topics| || log.topics[i] == "" then Ok(false)
    else if topics[i].s == NOT_NULL_FILTER then Ok(true)
    else
      match HexStringEq(EventToTopic(h, topics[i].s), log.topics[i])
      case Thrown(e) => Thrown(e)
      case Ok(same) => if same then TopicsOutcome(h, topics, log, i + 1) else Ok(false)
  }

  /** `filterLogsProcessor`. On the logs the EVM produces it never throws and decides `AcceptsLog`. */
  method FilterLogsProcessor(h: Hashing, log: Log, filter: Option<LogFilter>, address: Text)
    returns (r: Result<bool>)
    ensures Truthy(address) && !NormalizedEq(address.s, Str(log.address)) ==> r == Ok(false)
    ensures !(Truthy(address) && !NormalizedEq(address.s, Str(log.address))) ==>
              r == TopicsOutcome(h, TopicsOf(filter), log, 0)
    ensures ValidHashing(h) && WellFormedLog(log) ==> r == Ok(AcceptsLog(h, log, filter, address))
  {
    if ValidHashing(h) && WellFormedLog(log) {
      OutcomeDecidesDemands(h, TopicsOf(filter), log, 0);
    }
    if Truthy(address) && !NormalizedEq(address.s, Str(log.address)) {
      return Ok(false);
    }
    if filter.None? {
      return Ok(true);
    }
    if filter.value.topics.Some? {
      var topics := filter.value.topics.value;
      var i := 0;
      while i < Min(|topics|, MAX_TOPICS)
        invariant 0 <= i <= MAX_TOPICS
        invariant TopicsOutcome(h, topics, log, i) == TopicsOutcome(h, topics, log, 0)
      {
        var topic := topics[i];
        if !Truthy(topic) {
          i := i + 1;
          continue;
        }
        if i >= |log.topics| || log.topics[i] == "" {
          return Ok(false);
        }
        if topic.s == NOT_NULL_FILTER {
          return Ok(true);
        }
        var same := HexStringEq(EventToTopic(h, topic.s), log.topics[i]);
        match same {
          case Thrown(e) => return Thrown(e);
          case Ok(eq) =>
            if !eq {
              return Ok(false);
            }
        }
        i := i + 1;
      }
    }
    return Ok(true);
  }

  /** Read from position `i` on, the loop's outcome is whether every demand from there on is met. */
  lemma {:induction false} OutcomeDecidesDemands(h: Hashing, topics: seq<Text>, log: Log, i: nat)
    requires ValidHashing(h) && WellFormedLog(log)
    requires i <= MAX_TOPICS
    requires forall j: nat :: j < i ==> !IsNotNull(topics, j)
    ensures TopicsOutcome(h, topics, log, i) ==
            Ok(forall j: nat :: i <= j && Reached(topics, j) && Demands(topics, j) ==> Meets(h, topics, j, log))
    decreases MAX_TOPICS - i
  {
    if i < Min(|topics|, MAX_TOPICS) {
      assert Reached(topics, i);
      if !Truthy(topics[i]) {
        OutcomeDecidesDemands(h, topics, log, i + 1);
      } else if i < |log.topics| && !IsNotNull(topics, i) {
        assert IsTopic(log.topics[i]);
        OutcomeDecidesDemands(h, topics, log, i + 1);
      } else if i < |log.topics| {
        assert forall j: nat :: i < j ==> !Reached(topics, j);
      }
    }
  }

  /** A transaction filter is the conjunction of its parts; the data source's address counts only beside an undefined recipient. */
  lemma AcceptsTransactionIff(h: Hashing, tx: Transaction, f: TxFilter, address: Text)
    ensures AcceptsTransaction(h, tx, Some(f), address) <==>
            && (f.to.Null? ==> !tx.to.Str?)
            && (f.to.Str? && f.to.s != "" ==> tx.to.Str? && Lower(f.to.s) == Lower(tx.to.s))
            && (f.to.Undefined? && address.Str? && address.s != "" ==> tx.to.Str? && Lower(address.s) == Lower(tx.to.s))
            && (f.from.Str? && f.from.s != "" ==> Lower(f.from.s) == Lower(tx.from))
            && (f.func.Null? || f.func == Str("0x") ==> tx.input == "0x")
            && (f.func.Str? && f.func != Str("0x") ==>
                  var selector := if IsHexString(f.func.s) then f.func.s else h.functionId(f.func.s);
                  |selector| <= |tx.input| && tx.input[..|selector|] == selector)
            && (f.typ.Str? && f.typ.s != "" ==> tx.typ == f.typ.s)
    ensures AcceptsTransaction(h, tx, None, address)
  {
  }

  /**
   * Each of the first four positions is compared on its own: a filter that demands something at one position
   * only, accepts exactly the logs with that topic there, and demands from the fifth position on count for nothing.
   */
  lemma OnePositionDecides(h: Hashing, topics: seq<Text>, i: nat, log: Log)
    requires i < |topics| && topics[i].Str? && topics[i].s != ""
    requires forall j :: 0 <= j < |topics| && j < 4 && j != i ==> topics[j] == Undefined || topics[j] == Null || topics[j] == Str("")
    ensures i < 4 && topics[i].s == "!null" ==> (MeetsTopics(h, topics, log) <==> i < |log.topics|)
    ensures i < 4 && topics[i].s != "!null" ==>
              (MeetsTopics(h, topics, log) <==>
                 i < |log.topics| &&
                 HexStringEq(if IsHexString(topics[i].s) then topics[i].s else h.eventId(topics[i].s), log.topics[i]) == Ok(true))
    ensures i >= 4 ==> MeetsTopics(h, topics, log)
  {
    assert forall j: nat :: Demands(topics, j) <==> j == i && i < 4;
    if i < 4 {
      assert Reached(topics, i);
    }
  }
}
