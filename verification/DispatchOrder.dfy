/** The order in which the indexer dispatches a block, position by position. */
module DispatchOrder {
  import opened Js
  import opened Ethereum
  import opened LightBlocks

  /** How many items come before the i-th transaction: the block, and the earlier transactions with their logs. */
  function Before(txs: seq<FullTransaction>, i: nat): nat
    requires i <= |txs|
  {
    if i == 0 then 1 else Before(txs, i - 1) + 1 + |txs[i - 1].logs|
  }

  /** The number of dispatches that `q` items make for `n` data sources. */
  function Times(q: nat, n: nat): nat {
    if q == 0 then 0 else Times(q - 1, n) + n
  }

  lemma {:induction false} TimesIsProduct(q: nat, n: nat)
    ensures Times(q, n) == q * n
  {
    if q > 0 {
      TimesIsProduct(q - 1, n);
      assert (q - 1) * n == q * n - n;
    }
  }

  /** The item is dispatched to all data sources, in their order, as the q-th one. */
  predicate ItemAt(dispatched: seq<Dispatch>, q: nat, item: Item, dataSources: seq<DataSource>) {
    var n := |dataSources|;
    Times(q, n) + n <= |dispatched| && forall d :: 0 <= d < n ==> dispatched[Times(q, n) + d] == Dispatch(item, dataSources[d])
  }

  lemma ItemInFront(a: seq<Dispatch>, b: seq<Dispatch>, q: nat, item: Item, dataSources: seq<DataSource>)
    requires ItemAt(a, q, item, dataSources)
    ensures ItemAt(a + b, q, item, dataSources)
  {
  }

  /** What is dispatched next to all data sources comes right after. */
  lemma AppendItem(a: seq<Dispatch>, m: nat, item: Item, dataSources: seq<DataSource>)
    requires |a| == Times(m, |dataSources|)
    ensures ItemAt(a + ToAll(item, dataSources), m, item, dataSources)
    ensures |a + ToAll(item, dataSources)| == Times(m + 1, |dataSources|)
  {
  }

  /** The logs' items, one after the other from the q-th on. */
  ghost predicate EventsAt(dispatched: seq<Dispatch>, q: nat, logs: seq<Log>, dataSources: seq<DataSource>) {
    forall l :: 0 <= l < |logs| ==> ItemAt(dispatched, q + l, EventItem(logs[l]), dataSources)
  }

  lemma EventsInFront(a: seq<Dispatch>, b: seq<Dispatch>, q: nat, logs: seq<Log>, dataSources: seq<DataSource>)
    requires EventsAt(a, q, logs, dataSources)
    ensures EventsAt(a + b, q, logs, dataSources)
  {
    forall l | 0 <= l < |logs| ensures ItemAt(a + b, q + l, EventItem(logs[l]), dataSources) {
      ItemInFront(a, b, q + l, EventItem(logs[l]), dataSources);
    }
  }

  lemma OneMoreEvent(dispatched: seq<Dispatch>, q: nat, front: seq<Log>, last: Log, dataSources: seq<DataSource>)
    requires EventsAt(dispatched, q, front, dataSources)
    requires ItemAt(dispatched, q + |front|, EventItem(last), dataSources)
    ensures EventsAt(dispatched, q, front + [last], dataSources)
  {
    var logs := front + [last];
    forall l | 0 <= l < |logs| ensures ItemAt(dispatched, q + l, EventItem(logs[l]), dataSources) {
      if l < |front| {
        assert logs[l] == front[l];
      }
    }
  }

  lemma AppendEvent(before: seq<Dispatch>, m: nat, front: seq<Log>, last: Log, dataSources: seq<DataSource>)
    requires EventsAt(before, m, front, dataSources) && |before| == Times(m + |front|, |dataSources|)
    ensures EventsAt(before + ToAll(EventItem(last), dataSources), m, front + [last], dataSources)
    ensures |before + ToAll(EventItem(last), dataSources)| == Times(m + |front + [last]|, |dataSources|)
  {
    var item := ToAll(EventItem(last), dataSources);
    AppendItem(before, m + |front|, EventItem(last), dataSources);
    EventsInFront(before, item, m, front, dataSources);
    OneMoreEvent(before + item, m, front, last, dataSources);
  }

  lemma {:induction false} AppendEvents(a: seq<Dispatch>, m: nat, logs: seq<Log>, dataSources: seq<DataSource>)
    requires |a| == Times(m, |dataSources|)
    ensures EventsAt(a + EventsOf(logs, dataSources), m, logs, dataSources)
    ensures |a + EventsOf(logs, dataSources)| == Times(m + |logs|, |dataSources|)
  {
    if logs != [] {
      var front, last := logs[..|logs| - 1], logs[|logs| - 1];
      AppendEvents(a, m, front, dataSources);
      AppendEvent(a + EventsOf(front, dataSources), m, front, last, dataSources);
      Associate(a, EventsOf(front, dataSources), ToAll(EventItem(last), dataSources));
      assert logs == front + [last];
    }
  }

  /** A transaction and then its logs, from the q-th item on. */
  ghost predicate TransactionAt(dispatched: seq<Dispatch>, q: nat, tx: FullTransaction, dataSources: seq<DataSource>) {
    ItemAt(dispatched, q, CallItem(tx.tx), dataSources) && EventsAt(dispatched, q + 1, tx.logs, dataSources)
  }

  function OneTransaction(tx: FullTransaction, dataSources: seq<DataSource>): seq<Dispatch> {
    ToAll(CallItem(tx.tx), dataSources) + EventsOf(tx.logs, dataSources)
  }

  lemma AppendTransaction(a: seq<Dispatch>, m: nat, tx: FullTransaction, dataSources: seq<DataSource>)
    requires |a| == Times(m, |dataSources|)
    ensures TransactionAt(a + OneTransaction(tx, dataSources), m, tx, dataSources)
    ensures |a + OneTransaction(tx, dataSources)| == Times(m + 1 + |tx.logs|, |dataSources|)
  {
    var call, events := ToAll(CallItem(tx.tx), dataSources), EventsOf(tx.logs, dataSources);
    AppendItem(a, m, CallItem(tx.tx), dataSources);
    AppendEvents(a + call, m + 1, tx.logs, dataSources);
    ItemInFront(a + call, events, m, CallItem(tx.tx), dataSources);
    assert a + call + events == a + OneTransaction(tx, dataSources);
  }

  /** Every transaction with its logs, each behind the ones before it. */
  ghost predicate TransactionsAt(dispatched: seq<Dispatch>, txs: seq<FullTransaction>, dataSources: seq<DataSource>) {
    forall i :: 0 <= i < |txs| ==> TransactionAt(dispatched, Before(txs, i), txs[i], dataSources)
  }

  lemma TransactionsInFront(a: seq<Dispatch>, b: seq<Dispatch>, txs: seq<FullTransaction>, dataSources: seq<DataSource>)
    requires TransactionsAt(a, txs, dataSources)
    ensures TransactionsAt(a + b, txs, dataSources)
  {
    forall i | 0 <= i < |txs| ensures TransactionAt(a + b, Before(txs, i), txs[i], dataSources) {
      ItemInFront(a, b, Before(txs, i), CallItem(txs[i].tx), dataSources);
      EventsInFront(a, b, Before(txs, i) + 1, txs[i].logs, dataSources);
    }
  }

  lemma NthStays(dispatched: seq<Dispatch>, front: seq<FullTransaction>, last: FullTransaction, i: nat, dataSources: seq<DataSource>)
    requires i < |front| && TransactionAt(dispatched, Before(front, i), front[i], dataSources)
    ensures TransactionAt(dispatched, Before(front + [last], i), (front + [last])[i], dataSources)
  {
    BeforePrefix(front, last, i);
    assert (front + [last])[i] == front[i];
  }

  lemma OneMoreTransactionAt(dispatched: seq<Dispatch>, front: seq<FullTransaction>, last: FullTransaction, dataSources: seq<DataSource>)
    requires TransactionsAt(dispatched, front, dataSources)
    requires TransactionAt(dispatched, Before(front, |front|), last, dataSources)
    ensures TransactionsAt(dispatched, front + [last], dataSources)
  {
    var txs := front + [last];
    BeforePrefix(front, last, |front|);
    forall i | 0 <= i < |txs| ensures TransactionAt(dispatched, Before(txs, i), txs[i], dataSources) {
      if i < |front| {
        NthStays(dispatched, front, last, i, dataSources);
      }
    }
  }

  lemma OneMoreBefore(front: seq<FullTransaction>, last: FullTransaction)
    ensures Before(front + [last], |front| + 1) == Before(front, |front|) + 1 + |last.logs|
  {
    BeforePrefix(front, last, |front|);
  }

  lemma DispatchedNext(front: seq<FullTransaction>, last: FullTransaction, dataSources: seq<DataSource>)
    ensures TransactionsOf(front + [last], dataSources) == TransactionsOf(front, dataSources) + OneTransaction(last, dataSources)
  {
    var txs := front + [last];
    OneMoreTransaction(txs, |front|, dataSources);
    assert txs[..|front| + 1] == txs && txs[..|front|] == front;
  }

  lemma {:induction false} BeforePrefix(front: seq<FullTransaction>, last: FullTransaction, i: nat)
    requires i <= |front|
    ensures Before(front + [last], i) == Before(front, i)
  {
    if i > 0 {
      BeforePrefix(front, last, i - 1);
    }
  }

  /** The transactions fill their places behind the block's own item, and nothing follows. */
  ghost predicate Laid(dispatched: seq<Dispatch>, txs: seq<FullTransaction>, dataSources: seq<DataSource>) {
    TransactionsAt(dispatched, txs, dataSources) && |dispatched| == Times(Before(txs, |txs|), |dataSources|)
  }

  lemma {:induction false} AppendTransactions(first: seq<Dispatch>, txs: seq<FullTransaction>, dataSources: seq<DataSource>)
    requires |first| == Times(1, |dataSources|)
    ensures Laid(first + TransactionsOf(txs, dataSources), txs, dataSources)
  {
    if txs == [] {
      assert first + TransactionsOf(txs, dataSources) == first && Before(txs, |txs|) == 1;
    } else {
      var front, last := txs[..|txs| - 1], txs[|txs| - 1];
      AppendTransactions(first, front, dataSources);
      AppendOne(first + TransactionsOf(front, dataSources), front, last, dataSources);
      Reassociate(first, front, last, dataSources);
      assert txs == front + [last];
    }
  }

  lemma Reassociate(first: seq<Dispatch>, front: seq<FullTransaction>, last: FullTransaction, dataSources: seq<DataSource>)
    ensures first + TransactionsOf(front + [last], dataSources) ==
            (first + TransactionsOf(front, dataSources)) + OneTransaction(last, dataSources)
  {
    DispatchedNext(front, last, dataSources);
    Associate(first, TransactionsOf(front, dataSources), OneTransaction(last, dataSources));
  }

  lemma Associate<T>(a: seq<T>, b: seq<T>, c: seq<T>)
    ensures a + (b + c) == (a + b) + c
  {
  }

  lemma AppendOne(before: seq<Dispatch>, front: seq<FullTransaction>, last: FullTransaction, dataSources: seq<DataSource>)
    requires Laid(before, front, dataSources)
    ensures Laid(before + OneTransaction(last, dataSources), front + [last], dataSources)
  {
    AppendedPlaces(before, front, last, dataSources);
    AppendedLength(before, front, last, dataSources);
  }

  lemma AppendedPlaces(before: seq<Dispatch>, front: seq<FullTransaction>, last: FullTransaction, dataSources: seq<DataSource>)
    requires Laid(before, front, dataSources)
    ensures TransactionsAt(before + OneTransaction(last, dataSources), front + [last], dataSources)
  {
    AppendTransaction(before, Before(front, |front|), last, dataSources);
    KeepFront(before, OneTransaction(last, dataSources), front, last, dataSources);
  }

  lemma AppendedLength(before: seq<Dispatch>, front: seq<FullTransaction>, last: FullTransaction, dataSources: seq<DataSource>)
    requires |before| == Times(Before(front, |front|), |dataSources|)
    ensures |before + OneTransaction(last, dataSources)| == Times(Before(front + [last], |front + [last]|), |dataSources|)
  {
    PlacesOf(front, last, |dataSources|);
    AppendTransaction(before, Before(front, |front|), last, dataSources);
  }

  lemma PlacesOf(front: seq<FullTransaction>, last: FullTransaction, n: nat)
    ensures Times(Before(front + [last], |front + [last]|), n) == Times(Before(front, |front|) + 1 + |last.logs|, n)
  {
    OneMoreBefore(front, last);
    assert |front + [last]| == |front| + 1;
  }

  lemma KeepFront(before: seq<Dispatch>, next: seq<Dispatch>, front: seq<FullTransaction>, last: FullTransaction, dataSources: seq<DataSource>)
    requires TransactionsAt(before, front, dataSources)
    requires TransactionAt(before + next, Before(front, |front|), last, dataSources)
    ensures TransactionsAt(before + next, front + [last], dataSources)
  {
    TransactionsInFront(before, next, front, dataSources);
    OneMoreTransactionAt(before + next, front, last, dataSources);
  }

  /**
   * A full block is dispatched item by item, each to all data sources in project order: the block itself,
   * then every transaction followed by its logs, and nothing else.
   */
  lemma FullBlockOrder(block: BlockContent, dataSources: seq<DataSource>)
    requires block.FullBlock? && block.txs != []
    ensures var dispatched := DispatchesOf(block, dataSources);
            && |dispatched| == Before(block.txs, |block.txs|) * |dataSources|
            && ItemAt(dispatched, 0, BlockItem(block), dataSources)
            && TransactionsAt(dispatched, block.txs, dataSources)
  {
    var first := ToAll(BlockItem(block), dataSources);
    assert [] + first == first;
    AppendItem([], 0, BlockItem(block), dataSources);
    ItemInFront(first, TransactionsOf(block.txs, dataSources), 0, BlockItem(block), dataSources);
    AppendTransactions(first, block.txs, dataSources);
    TimesIsProduct(Before(block.txs, |block.txs|), |dataSources|);
  }

  /** A light block, and a block without transactions, is dispatched log by log, and nothing else. */
  lemma LightBlockOrder(block: BlockContent, dataSources: seq<DataSource>)
    requires block.LightBlock? || block.txs == []
    ensures var dispatched := DispatchesOf(block, dataSources);
            && |dispatched| == |block.logs| * |dataSources|
            && EventsAt(dispatched, 0, block.logs, dataSources)
  {
    AppendEvents([], 0, block.logs, dataSources);
    assert [] + EventsOf(block.logs, dataSources) == EventsOf(block.logs, dataSources);
    TimesIsProduct(|block.logs|, |dataSources|);
  }
}
