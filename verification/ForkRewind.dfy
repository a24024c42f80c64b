/** Fork detection and rewind against a remote chain (unfinalizedBlocks.service.ts). */
module ForkRewind {
  import opened Js

  datatype Header = Header(blockHeight: nat, blockHash: string, parentHash: string)

  /** The remote node: a lookup by hash may fail on any call, numbered here, and so may one by height. */
  datatype Remote = Remote(byHash: (nat, string) -> Option<Header>, byHeight: int -> Option<Header>)

  // ---------- The walk ----------

  datatype Walked = Match(header: Header) | Exhausted(checking: Header) | NoParentHash | Unavailable

  /** The parent of the header being checked: by hash, or by height where the node does not know the hash. */
  function ParentOf(remote: Remote, checking: Header, call: nat): Option<Header> {
    match remote.byHash(call, checking.parentHash)
    case Some(h) => Some(h)
    case None => remote.byHeight(checking.blockHeight - 1)
  }

  predicate Matches(candidate: Header, checking: Header) {
    candidate.blockHash == checking.blockHash || candidate.blockHash == checking.parentHash
  }

  /** The loop from candidate `i` on; candidates run from the highest cached header down. */
  function Walk(remote: Remote, candidates: seq<Header>, checking: Header, i: nat): Walked
    decreases |candidates| - i
  {
    if i >= |candidates| then Exhausted(checking)
    else if Matches(candidates[i], checking) then Match(candidates[i])
    else if checking.parentHash == "" then NoParentHash
    else
      match ParentOf(remote, checking, i)
      case None => Unavailable
      case Some(parent) => Walk(remote, candidates, parent, i + 1)
  }

  /** The heights the loop asks the node for. */
  function AskedHeights(remote: Remote, candidates: seq<Header>, checking: Header, i: nat): seq<int>
    decreases |candidates| - i
  {
    if i >= |candidates| || Matches(candidates[i], checking) || checking.parentHash == "" then []
    else
      (if remote.byHash(i, checking.parentHash).None? then [checking.blockHeight - 1] else [])
      + match ParentOf(remote, checking, i)
        case None => []
        case Some(parent) => AskedHeights(remote, candidates, parent, i + 1)
  }

  function Reverse<T>(s: seq<T>): seq<T> {
    seq(|s|, i requires 0 <= i < |s| => s[|s| - 1 - i])
  }

  /** The cached headers below the fork, highest first. */
  function Candidates(cache: seq<Header>, fork: Header): seq<Header> {
    Reverse(Filter(cache, (h: Header) => h.blockHeight < fork.blockHeight))
  }

  // ---------- The service ----------

  datatype Poi = PoiHeader(header: Option<Header>) | PoiNotEnabled | PoiFailed

  datatype Rewind = Found(header: Header) | FromPoi(verified: Option<Header>) | FromHeight(header: Header) | Failed

  function FallbackHeight(fork: Header, blockForkReindex: int): int {
    Max(0, fork.blockHeight - blockForkReindex)
  }

  function LastCorrect(remote: Remote, cache: seq<Header>, fork: Header, poi: Header -> Poi, blockForkReindex: int): Rewind {
    match Walk(remote, Candidates(cache, fork), fork, 0)
    case Match(h) => Found(h)
    case NoParentHash => Failed
    case Unavailable => Failed
    case Exhausted(checking) =>
      match poi(checking)
      case PoiHeader(h) => FromPoi(h)
      case PoiFailed => Failed
      case PoiNotEnabled =>
        match remote.byHeight(FallbackHeight(fork, blockForkReindex))
        case Some(h) => FromHeight(h)
        case None => Failed
  }

  datatype ForkCheck = NoFork | Fork(header: Header) | CheckFailed

  /** The comparison of the last cached header with the node, made once per process. */
  function StartupCheck(remote: Remote, cache: seq<Header>): ForkCheck {
    if cache == [] then NoFork
    else
      match remote.byHeight(cache[|cache| - 1].blockHeight)
      case None => CheckFailed
      case Some(h) => if cache[|cache| - 1].blockHash != h.blockHash then Fork(h) else NoFork
  }

  function LinkCheck(cache: seq<Header>): ForkCheck {
    if |cache| <= 2 then NoFork
    else if cache[|cache| - 1].parentHash != cache[|cache| - 2].blockHash then Fork(cache[|cache| - 1])
    else NoFork
  }

  function ForkCheckOf(remote: Remote, cache: seq<Header>, startup: bool): ForkCheck {
    if startup && !StartupCheck(remote, cache).NoFork? then StartupCheck(remote, cache) else LinkCheck(cache)
  }

  /** The service between forks: its two fields and how often it compared with the node at startup. */
  datatype Service = Service(startup: bool, cache: seq<Header>, remoteChecks: nat)

  datatype Op = Append(header: Header) | Trim(n: nat)

  /** Append a header and check for forks, or drop finalized headers from the front. */
  function Apply(s: Service, op: Op): Service {
    match op
    case Append(h) =>
      Service(false, s.cache + [h], s.remoteChecks + if s.startup then 1 else 0)
    case Trim(n) => if n <= |s.cache| then s.(cache := s.cache[n..]) else s
  }

  class UnfinalizedBlocksService {
    const blockForkReindex: int
    var startupCheck: bool
    var unfinalizedBlocks: seq<Header>
    ghost var remoteChecks: nat

    ghost function State(): Service
      reads this
    {
      Service(startupCheck, unfinalizedBlocks, remoteChecks)
    }

    constructor (blockForkReindex: int)
      ensures startupCheck && unfinalizedBlocks == [] && remoteChecks == 0 && this.blockForkReindex == blockForkReindex
    {
      this.blockForkReindex := blockForkReindex;
      startupCheck, unfinalizedBlocks, remoteChecks := true, [], 0;
    }

    /** What the base class does: cache a new header and check, or drop finalized headers from the front. */
    method RegisterAndCheck(remote: Remote, header: Header) returns (r: ForkCheck)
      modifies this
      ensures State() == Apply(old(State()), Append(header))
      ensures r == ForkCheckOf(remote, old(unfinalizedBlocks) + [header], old(startupCheck))
    {
      unfinalizedBlocks := unfinalizedBlocks + [header];
      r := HasForked(remote);
    }

    method TrimFinalized(n: nat)
      requires n <= |unfinalizedBlocks|
      modifies this`unfinalizedBlocks
      ensures State() == Apply(old(State()), Trim(n))
    {
      unfinalizedBlocks := unfinalizedBlocks[n..];
    }

    method HasForked(remote: Remote) returns (r: ForkCheck)
      modifies this`startupCheck, this`remoteChecks
      ensures r == ForkCheckOf(remote, unfinalizedBlocks, old(startupCheck))
      ensures !startupCheck
      ensures remoteChecks == old(remoteChecks) + if old(startupCheck) && unfinalizedBlocks != [] then 1 else 0
    {
      if startupCheck {
        startupCheck := false;
        if unfinalizedBlocks != [] {
          var lastUnfinalized := unfinalizedBlocks[|unfinalizedBlocks| - 1];
          remoteChecks := remoteChecks + 1;
          var checkUnfinalized := remote.byHeight(lastUnfinalized.blockHeight);
          if checkUnfinalized.None? {
            return CheckFailed;
          }
          if lastUnfinalized.blockHash != checkUnfinalized.value.blockHash {
            return Fork(checkUnfinalized.value);
          }
        }
      }
      if |unfinalizedBlocks| <= 2 {
        return NoFork;
      }
      var i := |unfinalizedBlocks| - 1;
      var current, parent := unfinalizedBlocks[i], unfinalizedBlocks[i - 1];
      if current.parentHash != parent.blockHash {
        return Fork(current);
      }
      return NoFork;
    }

    method GetLastCorrectFinalizedBlock(remote: Remote, forkedHeader: Header, poi: Header -> Poi) returns (r: Rewind)
      ensures r == LastCorrect(remote, unfinalizedBlocks, forkedHeader, poi, blockForkReindex)
    {
      var bestVerifiableBlocks := Filter(unfinalizedBlocks, (h: Header) => h.blockHeight < forkedHeader.blockHeight);
      var reversed := Reverse(bestVerifiableBlocks);
      var checkingHeader := forkedHeader;
      for i := 0 to |reversed|
        invariant Walk(remote, reversed, checkingHeader, i) == Walk(remote, reversed, forkedHeader, 0)
      {
        var header := reversed[i];
        if header.blockHash == checkingHeader.blockHash || header.blockHash == checkingHeader.parentHash {
          return Found(header);
        }
        if checkingHeader.parentHash == "" {
          return Failed;
        }
        var parentHeight := checkingHeader.blockHeight - 1;
        var byHash := remote.byHash(i, checkingHeader.parentHash);
        if byHash.Some? {
          checkingHeader := byHash.value;
        } else {
          var byHeight := remote.byHeight(parentHeight);
          if byHeight.None? {
            return Failed;
          }
          checkingHeader := byHeight.value;
        }
      }
      match poi(checkingHeader) {
        case PoiHeader(h) => return FromPoi(h);
        case PoiFailed => return Failed;
        case PoiNotEnabled =>
          var fallback := remote.byHeight(Max(0, forkedHeader.blockHeight - blockForkReindex));
          if fallback.None? {
            return Failed;
          }
          return FromHeight(fallback.value);
      }
    }
  }
}
