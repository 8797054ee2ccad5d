/** Walking back from a block by following previous-block hashes in the block-hash index. */
module Walker {
  import opened Wrappers
  import opened Text
  import opened Ledger
  import opened Processing
  import opened Storage
  import opened Runs

  datatype WalkError = ZeroBlocks | NotFound(hash: Hex)

  /** A slot and block hash; slot 0 with the empty hash stands for the origin. */
  datatype Point = Point(slot: nat, hash: Hex)

  const ORIGIN := Point(0, "")

  /** What following n >= 1 links from a block finds. */
  function Walk(blocks: map<Hex, BlockMeta>, hash: Hex, n: nat): Result<Point, WalkError>
    requires n > 0
    decreases n
  {
    if hash !in blocks then Err(NotFound(hash)) else
      match blocks[hash].prev
      case None => Ok(ORIGIN)
      case Some(prev) =>
        if n > 1 then Walk(blocks, prev, n - 1)
        else if prev in blocks then Ok(Point(blocks[prev].slot, prev))
        else Err(NotFound(prev))
  }

  /** `tip` is the chain tip the node reports; None is the origin. */
  method WalkBackNBlocks(storage: NetworkStorage, tip: Option<Hex>, nBlocks: nat) returns (r: Result<Point, WalkError>)
    ensures nBlocks == 0 ==> r == Err(ZeroBlocks)
    ensures nBlocks > 0 && tip == None ==> r == Ok(Point(0, ""))
    ensures nBlocks > 0 && tip.Some? ==> r == Walk(storage.View().blocks, tip.value, nBlocks)
  {
    if nBlocks == 0 {
      return Err(ZeroBlocks);
    }
    if tip == None {
      return Ok(ORIGIN);
    }
    var currentHash, blocksWalked := tip.value, 0;
    while blocksWalked < nBlocks
      invariant blocksWalked < nBlocks
      invariant Walk(storage.View().blocks, currentHash, nBlocks - blocksWalked)
                == Walk(storage.View().blocks, tip.value, nBlocks)
      decreases nBlocks - blocksWalked
    {
      var metadata := storage.GetBlockMetadata(currentHash);
      if metadata == None {
        return Err(NotFound(currentHash));
      }
      if metadata.value.prev == None {
        return Ok(ORIGIN);
      }
      var prevHash := metadata.value.prev.value;
      blocksWalked := blocksWalked + 1;
      if blocksWalked >= nBlocks {
        var target := storage.GetBlockMetadata(prevHash);
        if target == None {
          return Err(NotFound(prevHash));
        }
        return Ok(Point(target.value.slot, prevHash));
      }
      currentHash := prevHash;
    }
  }

  /** Consecutive blocks are linked, and the parent of the first one is not indexed. */
  ghost predicate Linked(chain: seq<Block>) {
    && (forall i | 0 < i < |chain| :: chain[i].prev == Some(chain[i - 1].hash))
    && (chain != [] && chain[0].prev.Some? ==> forall i | 0 <= i < |chain| :: chain[i].hash != chain[0].prev.value)
  }

  /** From the m-th block of an indexed chain: the n-th ancestor while there is one; the origin when
      a block without parent comes first; otherwise an error. */
  lemma {:induction false} WalkFindsAncestor(cfg: Config, blocks: map<Hex, BlockMeta>, chain: seq<Block>, m: nat,
                                             n: nat)
    requires Linked(chain) && Indexes(cfg, blocks, chain, |chain|)
    requires m < |chain| && n > 0
    ensures n <= m ==> Walk(blocks, chain[m].hash, n) == Ok(Point(chain[m - n].slot, chain[m - n].hash))
    ensures n > m && chain[0].prev == None ==> Walk(blocks, chain[m].hash, n) == Ok(ORIGIN)
    ensures n > m && chain[0].prev.Some? ==> Walk(blocks, chain[m].hash, n) == Err(NotFound(chain[0].prev.value))
  {
    assert chain[m].hash in blocks && blocks[chain[m].hash] == MetaOf(cfg, chain[m]);
    if m > 0 {
      assert chain[m - 1].hash in blocks && blocks[chain[m - 1].hash] == MetaOf(cfg, chain[m - 1]);
      if n > 1 {
        WalkFindsAncestor(cfg, blocks, chain, m - 1, n - 1);
      }
    } else if chain[0].prev.Some? {
      assert chain[0].prev.value !in blocks;
    }
  }

  /** In every reachable state, walking back from the last indexed block follows the surviving chain. */
  lemma ReachableWalk(cfg: Config, steps: seq<Step>, n: nat)
    requires AdmissibleRun(cfg, steps) && n > 0
    requires Run(cfg, steps).1 != [] && Linked(Run(cfg, steps).1)
    ensures var (node, chain) := Run(cfg, steps);
            var last := |chain| - 1;
            var r := Walk(node.trees.blocks, chain[last].hash, n);
            if n <= last then r == Ok(Point(chain[last - n].slot, chain[last - n].hash))
            else if chain[0].prev == None then r == Ok(Point(0, ""))
            else r == Err(NotFound(chain[0].prev.value))
  {
    hide ApplyBlock, Take, Survivors;
    var (node, chain) := Run(cfg, steps);
    RunAgreesWithReplay(cfg, steps);
    ReplayBlocks(cfg, chain, |chain|);
    WalkFindsAncestor(cfg, node.trees.blocks, chain, |chain| - 1, n);
  }
}
