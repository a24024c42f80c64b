/** The rewind point is exact, the walk stays in range, and what fork-free runs keep. */
module ForkSafety {
  import opened Js
  import opened ForkRewind

  // ---------- The remote chain ----------

  /** A chain from genesis, each header naming its predecessor. */
  ghost predicate IsChain(chain: seq<Header>) {
    && (forall i :: 0 <= i < |chain| ==> chain[i].blockHeight == i)
    && (forall i :: 0 < i < |chain| ==> chain[i].parentHash == chain[i - 1].blockHash && chain[i].parentHash != "")
  }

  /** Among the headers of the chain and the cache, a hash determines its header. */
  ghost predicate CollisionFree(chain: seq<Header>, cache: seq<Header>) {
    forall a, b :: (a in chain || a in cache) && (b in chain || b in cache) && a.blockHash == b.blockHash ==> a == b
  }

  /** The node serves this chain: a hash lookup fails or finds the header of that hash, heights are answered. */
  ghost predicate Serves(remote: Remote, chain: seq<Header>) {
    && (forall n: nat, i :: 0 <= i < |chain| ==>
          remote.byHash(n, chain[i].blockHash).None? || remote.byHash(n, chain[i].blockHash) == Some(chain[i]))
    && (forall i :: 0 <= i < |chain| ==> remote.byHeight(i) == Some(chain[i]))
  }

  ghost predicate Ascending(cache: seq<Header>) {
    forall i, j :: 0 <= i < j < |cache| ==> cache[i].blockHeight < cache[j].blockHeight
  }

  ghost predicate Stable(remote: Remote, chain: seq<Header>, cache: seq<Header>, fork: Header) {
    && IsChain(chain) && Serves(remote, chain) && CollisionFree(chain, cache) && Ascending(cache) && OnChain(chain, fork)
  }

  predicate OnChain(chain: seq<Header>, h: Header) {
    h.blockHeight < |chain| && chain[h.blockHeight] == h
  }

  // ---------- The candidates ----------

  lemma {:induction false} FilterKeepsAscending(cache: seq<Header>, keep: Header -> bool)
    requires Ascending(cache)
    ensures Ascending(Filter(cache, keep))
  {
    if cache != [] {
      FilterKeepsAscending(cache[1..], keep);
      forall h | h in Filter(cache[1..], keep) ensures cache[0].blockHeight < h.blockHeight {
        InFilter(cache[1..], keep, h);
      }
    }
  }

  lemma InCandidates(cache: seq<Header>, fork: Header, h: Header)
    ensures h in Candidates(cache, fork) <==> h in cache && h.blockHeight < fork.blockHeight
  {
    var kept := Filter(cache, (h: Header) => h.blockHeight < fork.blockHeight);
    InFilter(cache, (h: Header) => h.blockHeight < fork.blockHeight, h);
    if h in kept {
      var i :| 0 <= i < |kept| && kept[i] == h;
      assert Reverse(kept)[|kept| - 1 - i] == h;
    }
  }

  /** The i-th candidate stands at least i + 1 blocks below the fork. */
  lemma {:induction false} CandidatesDescend(cache: seq<Header>, fork: Header)
    requires Ascending(cache)
    ensures var cs := Candidates(cache, fork);
            && (forall i, j :: 0 <= i < j < |cs| ==> cs[j].blockHeight < cs[i].blockHeight)
            && (forall i :: 0 <= i < |cs| ==> cs[i].blockHeight <= fork.blockHeight - 1 - i)
  {
    FilterKeepsAscending(cache, (h: Header) => h.blockHeight < fork.blockHeight);
    var cs := Candidates(cache, fork);
    forall i | 0 <= i < |cs| ensures cs[i].blockHeight <= fork.blockHeight - 1 - i {
      BelowForkBy(cache, fork, i);
    }
  }

  lemma {:induction false} BelowForkBy(cache: seq<Header>, fork: Header, i: nat)
    requires i < |Candidates(cache, fork)|
    requires var cs := Candidates(cache, fork); forall i, j :: 0 <= i < j < |cs| ==> cs[j].blockHeight < cs[i].blockHeight
    ensures Candidates(cache, fork)[i].blockHeight <= fork.blockHeight - 1 - i
  {
    InCandidates(cache, fork, Candidates(cache, fork)[i]);
    if i > 0 {
      BelowForkBy(cache, fork, i - 1);
    }
  }

  // ---------- The walk ----------

  /** At turn i the loop checks the chain's header i below the fork; it matches only the one below that. */
  ghost predicate Turn(remote: Remote, chain: seq<Header>, candidates: seq<Header>, f: nat, i: nat)
    requires i < |candidates|
  {
    && i < f < |chain|
    && (Matches(candidates[i], chain[f - i]) <==> candidates[i] == chain[f - i - 1])
    && ParentOf(remote, chain[f - i], i) == Some(chain[f - i - 1])
    && chain[f - i].blockHeight == f - i && chain[f - i].parentHash != ""
  }

  lemma TurnsFollowTheChain(remote: Remote, chain: seq<Header>, cache: seq<Header>, fork: Header, i: nat)
    requires Stable(remote, chain, cache, fork)
    requires i < |Candidates(cache, fork)|
    ensures Turn(remote, chain, Candidates(cache, fork), fork.blockHeight, i)
  {
    CandidatesDescend(cache, fork);
    var c := Candidates(cache, fork)[i];
    InCandidates(cache, fork, c);
    var checking, parent := chain[fork.blockHeight - i], chain[fork.blockHeight - i - 1];
    assert checking in chain && parent in chain && c in cache;
    assert checking.parentHash == parent.blockHash;
  }

  /** No candidate before turn `i` is the chain's header at its distance below the fork. */
  ghost predicate NoMatchBefore(chain: seq<Header>, candidates: seq<Header>, f: nat, i: nat) {
    && i <= |candidates| && i <= f < |chain|
    && forall k :: 0 <= k < i ==> candidates[k] != chain[f - k - 1]
  }

  /** What the loop returns: the first candidate that is the chain's header at its own turn. */
  ghost predicate WalkedRight(chain: seq<Header>, candidates: seq<Header>, f: nat, walked: Walked) {
    match walked
    case Match(h) =>
      exists j: nat :: NoMatchBefore(chain, candidates, f, j) && j < |candidates| && j < f
                       && candidates[j] == chain[f - j - 1] && h == candidates[j]
    case Exhausted(checking) =>
      NoMatchBefore(chain, candidates, f, |candidates|) && checking == chain[f - |candidates|]
    case _ => false
  }

  lemma {:induction false} WalkFrom(remote: Remote, chain: seq<Header>, candidates: seq<Header>, f: nat, i: nat)
    requires forall k: nat :: k < |candidates| ==> Turn(remote, chain, candidates, f, k)
    requires NoMatchBefore(chain, candidates, f, i)
    ensures WalkedRight(chain, candidates, f, Walk(remote, candidates, chain[f - i], i))
    decreases |candidates| - i
  {
    if i < |candidates| {
      assert Turn(remote, chain, candidates, f, i);
      if candidates[i] != chain[f - i - 1] {
        WalkFrom(remote, chain, candidates, f, i + 1);
      }
    }
  }

  /** The loop asks for at most one height per candidate, each between genesis and the fork. */
  lemma {:induction false} AskedFrom(remote: Remote, chain: seq<Header>, candidates: seq<Header>, f: nat, i: nat)
    requires forall k: nat :: k < |candidates| ==> Turn(remote, chain, candidates, f, k)
    requires i <= |candidates| && i <= f < |chain|
    ensures var asked := AskedHeights(remote, candidates, chain[f - i], i);
            |asked| <= |candidates| - i && forall n :: 0 <= n < |asked| ==> 0 <= asked[n] < f
    decreases |candidates| - i
  {
    if i < |candidates| {
      assert Turn(remote, chain, candidates, f, i);
      AskedFrom(remote, chain, candidates, f, i + 1);
    }
  }

  lemma EveryTurn(remote: Remote, chain: seq<Header>, cache: seq<Header>, fork: Header)
    requires Stable(remote, chain, cache, fork)
    ensures forall k: nat :: k < |Candidates(cache, fork)| ==> Turn(remote, chain, Candidates(cache, fork), fork.blockHeight, k)
  {
    forall k: nat | k < |Candidates(cache, fork)| ensures Turn(remote, chain, Candidates(cache, fork), fork.blockHeight, k) {
      TurnsFollowTheChain(remote, chain, cache, fork, k);
    }
  }

  lemma WalkFollowsTheChain(remote: Remote, chain: seq<Header>, cache: seq<Header>, fork: Header)
    requires Stable(remote, chain, cache, fork)
    ensures WalkedRight(chain, Candidates(cache, fork), fork.blockHeight, Walk(remote, Candidates(cache, fork), fork, 0))
  {
    EveryTurn(remote, chain, cache, fork);
    WalkFromFork(remote, chain, Candidates(cache, fork), fork);
  }

  lemma WalkFromFork(remote: Remote, chain: seq<Header>, candidates: seq<Header>, fork: Header)
    requires forall k: nat :: k < |candidates| ==> Turn(remote, chain, candidates, fork.blockHeight, k)
    requires OnChain(chain, fork)
    ensures WalkedRight(chain, candidates, fork.blockHeight, Walk(remote, candidates, fork, 0))
  {
    WalkFrom(remote, chain, candidates, fork.blockHeight, 0);
  }

  /** The backward walk asks the node for at most one height per cached header, always in [0, fork height). */
  lemma WalkStaysInRange(remote: Remote, chain: seq<Header>, cache: seq<Header>, fork: Header)
    requires Stable(remote, chain, cache, fork)
    ensures var asked := AskedHeights(remote, Candidates(cache, fork), fork, 0);
            |asked| <= |Candidates(cache, fork)| && forall n :: 0 <= n < |asked| ==> 0 <= asked[n] < fork.blockHeight
  {
    EveryTurn(remote, chain, cache, fork);
    AskedFromFork(remote, chain, Candidates(cache, fork), fork);
  }

  lemma AskedFromFork(remote: Remote, chain: seq<Header>, candidates: seq<Header>, fork: Header)
    requires forall k: nat :: k < |candidates| ==> Turn(remote, chain, candidates, fork.blockHeight, k)
    requires OnChain(chain, fork)
    ensures var asked := AskedHeights(remote, candidates, fork, 0);
            |asked| <= |candidates| && forall n :: 0 <= n < |asked| ==> 0 <= asked[n] < fork.blockHeight
  {
    AskedFrom(remote, chain, candidates, fork.blockHeight, 0);
  }

  // ---------- The rewind point ----------

  /** The cache holds, at this height, a header that is not the chain's. */
  ghost predicate ForkedAt(chain: seq<Header>, cache: seq<Header>, m: nat) {
    exists c :: c in cache && c.blockHeight == m && !OnChain(chain, c)
  }

  /** `h` is cached below the fork and on the chain, and every height between it and the fork is cached off the chain. */
  ghost predicate IsRewindPoint(chain: seq<Header>, cache: seq<Header>, fork: Header, h: Header) {
    && h in cache && h.blockHeight < fork.blockHeight && OnChain(chain, h)
    && forall m: nat :: h.blockHeight < m < fork.blockHeight ==> ForkedAt(chain, cache, m)
  }

  /** Candidates off their mark stand lower than it; candidates on their mark leave no gap above. */
  lemma {:induction false} NoGapAbove(cache: seq<Header>, fork: Header, j: nat, k: nat)
    requires Ascending(cache) && k <= j < |Candidates(cache, fork)|
    requires Candidates(cache, fork)[j].blockHeight == fork.blockHeight - 1 - j
    ensures Candidates(cache, fork)[k].blockHeight == fork.blockHeight - 1 - k
    decreases j - k
  {
    CandidatesDescend(cache, fork);
    if k < j {
      NoGapAbove(cache, fork, j, k + 1);
    }
  }

  /** With every height above `h` cached, `h` is reached at the turn that checks its height. */
  lemma {:induction false} PositionOf(chain: seq<Header>, cache: seq<Header>, fork: Header, h: Header, i: nat)
    requires Ascending(cache) && IsRewindPoint(chain, cache, fork, h) && i <= fork.blockHeight - 1 - h.blockHeight
    ensures i < |Candidates(cache, fork)| && Candidates(cache, fork)[i].blockHeight == fork.blockHeight - 1 - i
  {
    var cs := Candidates(cache, fork);
    CandidatesDescend(cache, fork);
    var m: nat := fork.blockHeight - 1 - i;
    var c := h;
    if h.blockHeight < m {
      assert ForkedAt(chain, cache, m);
      c :| c in cache && c.blockHeight == m && !OnChain(chain, c);
    }
    InCandidates(cache, fork, c);
    var p :| 0 <= p < |cs| && cs[p] == c;
    if i > 0 {
      PositionOf(chain, cache, fork, h, i - 1);
    }
    assert p >= i;
  }

  lemma SameHeightSameHeader(cache: seq<Header>, a: Header, b: Header)
    requires Ascending(cache) && a in cache && b in cache && a.blockHeight == b.blockHeight
    ensures a == b
  {
  }

  lemma WalkFindsARewindPoint(remote: Remote, chain: seq<Header>, cache: seq<Header>, fork: Header)
    requires Stable(remote, chain, cache, fork)
    ensures var walked := Walk(remote, Candidates(cache, fork), fork, 0);
            walked.Match? ==> IsRewindPoint(chain, cache, fork, walked.header)
  {
    var cs, f := Candidates(cache, fork), fork.blockHeight;
    var walked := Walk(remote, cs, fork, 0);
    WalkFollowsTheChain(remote, chain, cache, fork);
    if walked.Match? {
      var j: nat :| NoMatchBefore(chain, cs, f, j) && j < |cs| && j < f && cs[j] == chain[f - j - 1] && walked.header == cs[j];
      MatchIsRewindPoint(chain, cache, fork, j);
    }
  }

  lemma WalkMissesNoRewindPoint(remote: Remote, chain: seq<Header>, cache: seq<Header>, fork: Header, h: Header)
    requires Stable(remote, chain, cache, fork) && IsRewindPoint(chain, cache, fork, h)
    ensures Walk(remote, Candidates(cache, fork), fork, 0).Match?
  {
    WalkFollowsTheChain(remote, chain, cache, fork);
    RewindPointIsCandidate(chain, cache, fork, h);
  }

  /**
   * The rewind point is exact: whichever hash lookups fail, the walk returns a header precisely when that
   * header is the one cached header on the chain below which nothing was forked: every height between it
   * and the fork is cached, and off the chain.
   */
  lemma RewindPointIsExact(remote: Remote, chain: seq<Header>, cache: seq<Header>, fork: Header, h: Header)
    requires Stable(remote, chain, cache, fork)
    ensures Walk(remote, Candidates(cache, fork), fork, 0) == Match(h) <==> IsRewindPoint(chain, cache, fork, h)
  {
    WalkFindsARewindPoint(remote, chain, cache, fork);
    if IsRewindPoint(chain, cache, fork, h) {
      WalkMissesNoRewindPoint(remote, chain, cache, fork, h);
      RewindPointIsUnique(chain, cache, fork, h, Walk(remote, Candidates(cache, fork), fork, 0).header);
    }
  }

  /** A rewind point stands among the candidates at the turn that checks its height. */
  lemma RewindPointIsCandidate(chain: seq<Header>, cache: seq<Header>, fork: Header, h: Header)
    requires Ascending(cache) && IsRewindPoint(chain, cache, fork, h)
    ensures var p := fork.blockHeight - 1 - h.blockHeight;
            p < |Candidates(cache, fork)| && Candidates(cache, fork)[p] == h
  {
    var p: nat := fork.blockHeight - 1 - h.blockHeight;
    PositionOf(chain, cache, fork, h, p);
    InCandidates(cache, fork, Candidates(cache, fork)[p]);
    SameHeightSameHeader(cache, Candidates(cache, fork)[p], h);
  }

  lemma MatchIsRewindPoint(chain: seq<Header>, cache: seq<Header>, fork: Header, j: nat)
    requires IsChain(chain) && Ascending(cache)
    requires NoMatchBefore(chain, Candidates(cache, fork), fork.blockHeight, j)
    requires j < |Candidates(cache, fork)| && j < fork.blockHeight
    requires Candidates(cache, fork)[j] == chain[fork.blockHeight - j - 1]
    ensures IsRewindPoint(chain, cache, fork, Candidates(cache, fork)[j])
  {
    var cs, f := Candidates(cache, fork), fork.blockHeight;
    InCandidates(cache, fork, cs[j]);
    forall m: nat | cs[j].blockHeight < m < f ensures ForkedAt(chain, cache, m) {
      var k := f - 1 - m;
      NoGapAbove(cache, fork, j, k);
      InCandidates(cache, fork, cs[k]);
      assert cs[k] in cache && cs[k].blockHeight == m && !OnChain(chain, cs[k]);
    }
  }

  lemma OffChainAbove(chain: seq<Header>, cache: seq<Header>, fork: Header, h: Header, c: Header)
    requires Ascending(cache) && IsRewindPoint(chain, cache, fork, h)
    requires c in cache && h.blockHeight < c.blockHeight < fork.blockHeight
    ensures !OnChain(chain, c)
  {
    assert ForkedAt(chain, cache, c.blockHeight);
    var d :| d in cache && d.blockHeight == c.blockHeight && !OnChain(chain, d);
    SameHeightSameHeader(cache, c, d);
  }

  lemma RewindPointIsUnique(chain: seq<Header>, cache: seq<Header>, fork: Header, a: Header, b: Header)
    requires Ascending(cache) && IsRewindPoint(chain, cache, fork, a) && IsRewindPoint(chain, cache, fork, b)
    ensures a == b
  {
    if a.blockHeight < b.blockHeight {
      OffChainAbove(chain, cache, fork, a, b);
    } else if b.blockHeight < a.blockHeight {
      OffChainAbove(chain, cache, fork, b, a);
    } else {
      SameHeightSameHeader(cache, a, b);
    }
  }

  /** From index `from` on, cached headers name their predecessor's hash as parent. */
  ghost predicate LinkedFrom(cache: seq<Header>, from: nat) {
    forall i :: 1 <= i < |cache| && from <= i ==> cache[i].parentHash == cache[i - 1].blockHash
  }

  /** A linked cache below a header of the chain is the chain. */
  lemma {:induction false} LinkedBelowIsOnChain(chain: seq<Header>, cache: seq<Header>, i: nat, k: nat, from: nat)
    requires IsChain(chain) && CollisionFree(chain, cache) && Ascending(cache) && LinkedFrom(cache, from + 1)
    requires from <= k <= i < |cache| && OnChain(chain, cache[i])
    ensures OnChain(chain, cache[k])
    decreases i - k
  {
    if k < i {
      LinkedBelowIsOnChain(chain, cache, i, k + 1, from);
      var above := cache[k + 1];
      assert cache[k].blockHeight < above.blockHeight;
      var parent := chain[above.blockHeight - 1];
      assert chain[above.blockHeight].parentHash == parent.blockHash;
      assert parent in chain && cache[k] in cache;
    }
  }

  /**
   * The rewind point splits a linked cache: everything at or below it is on the chain, everything above
   * it and below the fork is not. With the links a fork-free run keeps, only the oldest header may
   * escape, and does so exactly when its successor does not name it as parent.
   */
  lemma RewindSplitsCache(remote: Remote, chain: seq<Header>, cache: seq<Header>, fork: Header, h: Header)
    requires Stable(remote, chain, cache, fork) && LinkedFrom(cache, 2)
    requires Walk(remote, Candidates(cache, fork), fork, 0) == Match(h)
    ensures forall c :: c in cache && h.blockHeight < c.blockHeight < fork.blockHeight ==> !OnChain(chain, c)
    ensures forall k :: 1 <= k < |cache| && cache[k].blockHeight <= h.blockHeight ==> OnChain(chain, cache[k])
    ensures |cache| > 1 && cache[0].blockHeight + 1 == cache[1].blockHeight <= h.blockHeight ==>
              (OnChain(chain, cache[0]) <==> cache[1].parentHash == cache[0].blockHash)
  {
    RewindPointIsExact(remote, chain, cache, fork, h);
    forall c | c in cache && h.blockHeight < c.blockHeight < fork.blockHeight ensures !OnChain(chain, c) {
      OffChainAbove(chain, cache, fork, h, c);
    }
    var i :| 0 <= i < |cache| && cache[i] == h;
    forall k | 1 <= k < |cache| && cache[k].blockHeight <= h.blockHeight ensures OnChain(chain, cache[k]) {
      LinkedBelowIsOnChain(chain, cache, i, k, 1);
    }
    if |cache| > 1 && cache[0].blockHeight + 1 == cache[1].blockHeight <= h.blockHeight {
      OldestOnChain(chain, cache);
    }
  }

  lemma OldestOnChain(chain: seq<Header>, cache: seq<Header>)
    requires IsChain(chain) && CollisionFree(chain, cache)
    requires |cache| > 1 && OnChain(chain, cache[1]) && cache[0].blockHeight + 1 == cache[1].blockHeight
    ensures OnChain(chain, cache[0]) <==> cache[1].parentHash == cache[0].blockHash
  {
    var parent := chain[cache[0].blockHeight];
    assert chain[cache[1].blockHeight].parentHash == parent.blockHash;
    assert parent in chain && cache[0] in cache;
  }

  // ---------- Progress ----------

  /**
   * What the service returns. A header found by the walk lies below the fork; without POI the fallback
   * header lies below a positive fork height exactly when at least one block is to be reindexed.
   */
  lemma RewindMakesProgress(remote: Remote, chain: seq<Header>, cache: seq<Header>, fork: Header, poi: Header -> Poi, blockForkReindex: int)
    requires Stable(remote, chain, cache, fork) && fork.blockHeight > 0
    ensures match LastCorrect(remote, cache, fork, poi, blockForkReindex)
            case Found(h) => h.blockHeight < fork.blockHeight && IsRewindPoint(chain, cache, fork, h)
            case FromHeight(h) =>
              && (0 <= blockForkReindex ==> h.blockHeight == Max(0, fork.blockHeight - blockForkReindex) && OnChain(chain, h))
              && (0 <= blockForkReindex ==> (h.blockHeight < fork.blockHeight <==> blockForkReindex >= 1))
              && forall c :: c in cache ==> !IsRewindPoint(chain, cache, fork, c)
            case FromPoi(_) => forall c :: c in cache ==> !IsRewindPoint(chain, cache, fork, c)
            case Failed => true
  {
    var walked := Walk(remote, Candidates(cache, fork), fork, 0);
    WalkFollowsTheChain(remote, chain, cache, fork);
    forall h ensures walked == Match(h) <==> IsRewindPoint(chain, cache, fork, h) {
      RewindPointIsExact(remote, chain, cache, fork, h);
    }
  }

  /**
   * Without a rewind point in the cache the walk ends at the chain's header below all candidates, and POI
   * decides: its header is the result where it has one, the header `blockForkReindex` blocks back where it
   * is not enabled, and the rewind fails exactly where POI does.
   */
  lemma WithoutRewindPoint(remote: Remote, chain: seq<Header>, cache: seq<Header>, fork: Header, poi: Header -> Poi, blockForkReindex: int)
    requires Stable(remote, chain, cache, fork) && 0 <= blockForkReindex
    requires forall c :: c in cache ==> !IsRewindPoint(chain, cache, fork, c)
    ensures |Candidates(cache, fork)| <= fork.blockHeight
    ensures var checking := chain[fork.blockHeight - |Candidates(cache, fork)|];
            var back := if fork.blockHeight < blockForkReindex then 0 else fork.blockHeight - blockForkReindex;
            var rewind := LastCorrect(remote, cache, fork, poi, blockForkReindex);
            && (rewind == FromHeight(chain[back]) <==> poi(checking) == PoiNotEnabled)
            && (forall h :: rewind == FromPoi(h) <==> poi(checking) == PoiHeader(h))
            && (rewind == Failed <==> poi(checking) == PoiFailed)
  {
    ExhaustedWithoutRewindPoint(remote, chain, cache, fork);
    var back := if fork.blockHeight < blockForkReindex then 0 else fork.blockHeight - blockForkReindex;
    assert FallbackHeight(fork, blockForkReindex) == back;
    assert remote.byHeight(back) == Some(chain[back]);
  }

  /** Where the highest cached header below the fork does not match and its parent cannot be had, the rewind fails. */
  lemma WithoutParentItFails(remote: Remote, cache: seq<Header>, fork: Header, poi: Header -> Poi, blockForkReindex: int)
    requires Candidates(cache, fork) != []
    requires Candidates(cache, fork)[0].blockHash != fork.blockHash && Candidates(cache, fork)[0].blockHash != fork.parentHash
    ensures fork.parentHash == "" ==> LastCorrect(remote, cache, fork, poi, blockForkReindex) == Failed
    ensures remote.byHash(0, fork.parentHash) == None && remote.byHeight(fork.blockHeight - 1) == None ==>
              LastCorrect(remote, cache, fork, poi, blockForkReindex) == Failed
  {
  }

  lemma ExhaustedWithoutRewindPoint(remote: Remote, chain: seq<Header>, cache: seq<Header>, fork: Header)
    requires Stable(remote, chain, cache, fork)
    requires forall c :: c in cache ==> !IsRewindPoint(chain, cache, fork, c)
    ensures |Candidates(cache, fork)| <= fork.blockHeight
    ensures Walk(remote, Candidates(cache, fork), fork, 0) == Exhausted(chain[fork.blockHeight - |Candidates(cache, fork)|])
  {
    WalkFollowsTheChain(remote, chain, cache, fork);
    WalkFindsARewindPoint(remote, chain, cache, fork);
  }

  // ---------- Fork detection ----------

  /**
   * At startup, against a chain that reaches the cache, a linked cache is found forked exactly when its
   * last header is off the chain, that is, when not all of it is on the chain; the header then reported
   * is the chain's own at that height, which is what the walk starts from.
   */
  lemma StartupCheckIsExact(remote: Remote, chain: seq<Header>, cache: seq<Header>)
    requires IsChain(chain) && Serves(remote, chain) && CollisionFree(chain, cache) && Ascending(cache) && LinkedFrom(cache, 1)
    requires cache != [] ==> cache[|cache| - 1].blockHeight < |chain|
    ensures ForkCheckOf(remote, cache, true) == NoFork <==> forall c :: c in cache ==> OnChain(chain, c)
    ensures ForkCheckOf(remote, cache, true) == NoFork ||
            (cache != [] && ForkCheckOf(remote, cache, true) == Fork(chain[cache[|cache| - 1].blockHeight]))
  {
    if cache != [] {
      var last := cache[|cache| - 1];
      assert last in cache && chain[last.blockHeight] in chain;
      if OnChain(chain, last) {
        forall k | 0 <= k < |cache| ensures OnChain(chain, cache[k]) {
          LinkedBelowIsOnChain(chain, cache, |cache| - 1, k, 0);
        }
      }
    }
  }

  // ---------- From detection to rewind ----------

  /** Heights follow one another without a gap. */
  ghost predicate Consecutive(cache: seq<Header>) {
    forall i, j :: 0 <= i <= j < |cache| ==> cache[j].blockHeight == cache[i].blockHeight + (j - i)
  }

  /** The cache goes up to the fork's parent at least. */
  ghost predicate ReachesFork(cache: seq<Header>, fork: Header) {
    cache != [] && fork.blockHeight <= cache[|cache| - 1].blockHeight + 1
  }

  /** Some cached header below the fork is on the chain. */
  ghost predicate HasSurvivor(chain: seq<Header>, cache: seq<Header>, fork: Header) {
    exists c :: c in cache && c.blockHeight < fork.blockHeight && OnChain(chain, c)
  }

  /** Going up from a survivor, the last one is the rewind point. */
  lemma {:induction false} HighestSurvivor(chain: seq<Header>, cache: seq<Header>, fork: Header, i: nat) returns (h: Header)
    requires Consecutive(cache) && ReachesFork(cache, fork)
    requires i < |cache| && cache[i].blockHeight < fork.blockHeight && OnChain(chain, cache[i])
    ensures IsRewindPoint(chain, cache, fork, h)
    decreases |cache| - i
  {
    if j :| i < j < |cache| && cache[j].blockHeight < fork.blockHeight && OnChain(chain, cache[j]) {
      h := HighestSurvivor(chain, cache, fork, j);
    } else {
      h := cache[i];
      forall m: nat | h.blockHeight < m < fork.blockHeight ensures ForkedAt(chain, cache, m) {
        var j := i + (m - h.blockHeight);
        assert cache[|cache| - 1].blockHeight == h.blockHeight + (|cache| - 1 - i);
        assert cache[j] in cache && cache[j].blockHeight == m;
      }
    }
  }

  /**
   * The walk recovers whenever it can: from a gapless cache that reaches the fork's parent it returns a
   * header exactly when some cached header below the fork is on the chain.
   */
  lemma WalkRecoversIff(remote: Remote, chain: seq<Header>, cache: seq<Header>, fork: Header)
    requires Stable(remote, chain, cache, fork) && Consecutive(cache) && ReachesFork(cache, fork)
    ensures Walk(remote, Candidates(cache, fork), fork, 0).Match? <==> HasSurvivor(chain, cache, fork)
  {
    WalkFindsARewindPoint(remote, chain, cache, fork);
    if HasSurvivor(chain, cache, fork) {
      var c :| c in cache && c.blockHeight < fork.blockHeight && OnChain(chain, c);
      var i :| 0 <= i < |cache| && cache[i] == c;
      var h := HighestSurvivor(chain, cache, fork, i);
      WalkMissesNoRewindPoint(remote, chain, cache, fork, h);
    }
  }

  /** The link check, on a header just fetched from the chain, finds a fork exactly when its predecessor is off the chain. */
  lemma LinkCheckIsExact(chain: seq<Header>, cache: seq<Header>)
    requires IsChain(chain) && CollisionFree(chain, cache) && Consecutive(cache)
    requires |cache| > 2 && OnChain(chain, cache[|cache| - 1])
    ensures LinkCheck(cache) == NoFork <==> OnChain(chain, cache[|cache| - 2])
    ensures LinkCheck(cache) == NoFork || LinkCheck(cache) == Fork(cache[|cache| - 1])
  {
    var last, before := cache[|cache| - 1], cache[|cache| - 2];
    var parent := chain[before.blockHeight];
    assert chain[last.blockHeight].parentHash == parent.blockHash;
    assert parent in chain && before in cache;
  }

  lemma ReportedFork(remote: Remote, chain: seq<Header>, cache: seq<Header>, startup: bool)
    requires IsChain(chain) && Serves(remote, chain) && CollisionFree(chain, cache) && Consecutive(cache)
    requires cache != [] && cache[|cache| - 1].blockHeight < |chain|
    requires startup || OnChain(chain, cache[|cache| - 1])
    requires ForkCheckOf(remote, cache, startup).Fork?
    ensures ForkCheckOf(remote, cache, startup).header == chain[cache[|cache| - 1].blockHeight]
    ensures exists c :: c in cache && !OnChain(chain, c)
    ensures Stable(remote, chain, cache, chain[cache[|cache| - 1].blockHeight])
    ensures ReachesFork(cache, chain[cache[|cache| - 1].blockHeight])
  {
    var last := cache[|cache| - 1];
    assert last in cache && chain[last.blockHeight] in chain;
    if OnChain(chain, last) {
      LinkCheckIsExact(chain, cache);
      assert cache[|cache| - 2] in cache;
    }
  }

  /** What the service makes of the walk: the rewind point, exactly when part of the cache survives. */
  lemma ServiceRecoversIff(remote: Remote, chain: seq<Header>, cache: seq<Header>, fork: Header, poi: Header -> Poi, blockForkReindex: int)
    requires Stable(remote, chain, cache, fork) && Consecutive(cache) && ReachesFork(cache, fork)
    ensures var rewind := LastCorrect(remote, cache, fork, poi, blockForkReindex);
            && (rewind.Found? <==> HasSurvivor(chain, cache, fork))
            && (forall h :: rewind == Found(h) <==> IsRewindPoint(chain, cache, fork, h))
  {
    var walked := Walk(remote, Candidates(cache, fork), fork, 0);
    FoundIsMatch(remote, cache, fork, poi, blockForkReindex);
    WalkRecoversIff(remote, chain, cache, fork);
    forall h ensures walked == Match(h) <==> IsRewindPoint(chain, cache, fork, h) {
      RewindPointIsExact(remote, chain, cache, fork, h);
    }
  }

  lemma FoundIsMatch(remote: Remote, cache: seq<Header>, fork: Header, poi: Header -> Poi, blockForkReindex: int)
    ensures forall h :: LastCorrect(remote, cache, fork, poi, blockForkReindex) == Found(h) <==>
                        Walk(remote, Candidates(cache, fork), fork, 0) == Match(h)
  {
  }

  /**
   * From detection to rewind: a reported fork is the chain's header at the last cached height, and not
   * all of the cache is on the chain. The service then finds a header exactly when part of the cache
   * survives, namely the rewind point, below the fork.
   */
  lemma DetectionLeadsToRewind(remote: Remote, chain: seq<Header>, cache: seq<Header>, startup: bool, poi: Header -> Poi, blockForkReindex: int)
    requires IsChain(chain) && Serves(remote, chain) && CollisionFree(chain, cache) && Consecutive(cache)
    requires cache != [] && cache[|cache| - 1].blockHeight < |chain|
    requires startup || OnChain(chain, cache[|cache| - 1])
    requires ForkCheckOf(remote, cache, startup).Fork?
    ensures var fork := ForkCheckOf(remote, cache, startup).header;
            var rewind := LastCorrect(remote, cache, fork, poi, blockForkReindex);
            && fork == chain[cache[|cache| - 1].blockHeight] && (exists c :: c in cache && !OnChain(chain, c))
            && (rewind.Found? <==> HasSurvivor(chain, cache, fork))
            && (forall h :: rewind == Found(h) <==> IsRewindPoint(chain, cache, fork, h))
  {
    ReportedFork(remote, chain, cache, startup);
    ServiceRecoversIff(remote, chain, cache, ForkCheckOf(remote, cache, startup).header, poi, blockForkReindex);
  }

  // ---------- Runs without a fork ----------

  /** The check made after the operation reports no fork. */
  predicate ForkFree(remote: Remote, s: Service, op: Op) {
    op.Append? ==> ForkCheckOf(remote, s.cache + [op.header], s.startup) == NoFork
  }

  function RunOps(ops: seq<Op>): Service {
    if ops == [] then Service(true, [], 0)
    else Apply(RunOps(ops[..|ops| - 1]), ops[|ops| - 1])
  }

  ghost predicate ForkFreeRun(remote: Remote, ops: seq<Op>) {
    forall i :: 0 <= i < |ops| ==> ForkFree(remote, RunOps(ops[..i]), ops[i])
  }

  /**
   * In every fork-free run from an empty cache, each cached header from the third on names its
   * predecessor's hash, and the node was compared with at startup at most once.
   */
  lemma {:induction false} RunsStayLinked(remote: Remote, ops: seq<Op>)
    requires ForkFreeRun(remote, ops)
    ensures LinkedFrom(RunOps(ops).cache, 2)
    ensures RunOps(ops).remoteChecks <= 1 && (RunOps(ops).startup ==> RunOps(ops).remoteChecks == 0)
  {
    if ops != [] {
      var front, op := ops[..|ops| - 1], ops[|ops| - 1];
      forall i | 0 <= i < |front| ensures ForkFree(remote, RunOps(front[..i]), front[i]) {
        assert front[..i] == ops[..i];
      }
      RunsStayLinked(remote, front);
      assert ForkFree(remote, RunOps(front), op);
    }
  }

  /** The second header's link goes unchecked: this run is fork-free and leaves it broken. */
  lemma SecondHeaderIsUnchecked(remote: Remote)
    requires remote.byHeight(5) == Some(Header(5, "a", "z"))
    ensures var ops := [Append(Header(5, "a", "z")), Append(Header(6, "b", "other"))];
            ForkFreeRun(remote, ops) && !LinkedFrom(RunOps(ops).cache, 1)
  {
    var first, second := Header(5, "a", "z"), Header(6, "b", "other");
    var ops := [Append(first), Append(second)];
    assert ops[..0] == [] && ops[..1] == [Append(first)] && ops[..1][..0] == [];
    assert [] + [first] == [first] && [first] + [second] == [first, second];
    assert RunOps(ops[..0]) == Service(true, [], 0);
    assert RunOps(ops[..1]).cache == [first];
    assert RunOps(ops).cache == [first, second];
    assert [first, second][1].parentHash != [first, second][0].blockHash;
  }
}
