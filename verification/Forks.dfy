/** What a caller sees of the guards and tips of the processor: which blocks it takes after a rollback or a block, how
    it switches to a fork, and when it saves which tip. */
module Forks {
  import opened Wrappers
  import opened Ledger
  import opened Processing
  import opened Storage
  import opened Machine
  import opened Runs

  // ---- Which blocks are taken ----------------------------------------------------------------

  /** The block is processed: its effect is on the trees, and it is counted. */
  ghost predicate Takes(n: Node, cfg: Config, b: Block) {
    forall nodeTip ::
      var m := Forward(n, cfg, b, nodeTip);
      m.trees == ApplyBlock(n.trees, cfg, b) && m.blocksProcessed == n.blocksProcessed + 1
  }

  ghost predicate Refuses(n: Node, cfg: Config, b: Block) {
    forall nodeTip :: Forward(n, cfg, b, nodeTip) == n
  }

  /** After a rollback below the persisted tip exactly the blocks from its target on are taken. */
  lemma RollbackReopens(n: Node, cfg: Config, target: nat, b: Block)
    requires TIP_KEY in n.tips && target < n.tips[TIP_KEY].slot
    ensures var m := Rollback(n, cfg, target);
            && (target <= b.slot ==> Takes(m, cfg, b))
            && (b.slot < target ==> Refuses(m, cfg, b))
  {
    hide ApplyBlock, InfoOf, SaveTips, Unwind;
  }

  /** Any other rollback changes nothing. */
  lemma RollbackElseNothing(n: Node, cfg: Config, target: nat)
    requires TIP_KEY in n.tips ==> n.tips[TIP_KEY].slot <= target
    ensures Rollback(n, cfg, target) == n
  {
    hide SaveTips, Unwind;
  }

  /** After a block that was taken exactly the blocks from its slot on are taken. */
  lemma BlockMovesOn(n: Node, cfg: Config, b: Block, nodeTip: Option<nat>, c: Block)
    requires Takes(n, cfg, b) && b.slot >= n.currentSlot
    ensures var m := Forward(n, cfg, b, nodeTip);
            && (b.slot <= c.slot ==> Takes(m, cfg, c))
            && (c.slot < b.slot ==> Refuses(m, cfg, c))
  {
    hide ApplyBlock, InfoOf, SaveTips, PushBounded;
  }

  // ---- Switching to a fork -------------------------------------------------------------------

  function BlocksOf(fork: seq<Step>): seq<Block>
    requires forall i | 0 <= i < |fork| :: fork[i].Process?
  {
    seq(|fork|, i requires 0 <= i < |fork| => fork[i].block)
  }

  /** Blocks in ascending slots, all above a slot. */
  ghost predicate Ascends(fork: seq<Step>, above: nat) {
    && (forall i | 0 <= i < |fork| :: fork[i].Process? && fork[i].block.slot > above)
    && forall i, j | 0 <= i < j < |fork| :: fork[i].block.slot < fork[j].block.slot
  }

  lemma {:induction false} ForkAppends(cfg: Config, base: seq<Step>, fork: seq<Step>, above: nat)
    requires Run(cfg, base).0.currentSlot <= above && Ascends(fork, above)
    ensures var (m, after) := Run(cfg, base + fork);
            && after == Run(cfg, base).1 + BlocksOf(fork)
            && m.currentSlot == if fork == [] then Run(cfg, base).0.currentSlot else fork[|fork| - 1].block.slot
  {
    hide Run;
    if fork == [] {
      assert base + fork == base;
    } else {
      var n := |fork| - 1;
      ForkAppends(cfg, base, fork[..n], above);
      assert base + fork == (base + fork[..n]) + [fork[n]];
      BlockAppends(cfg, base + fork[..n], fork[n]);
      assert BlocksOf(fork) == BlocksOf(fork[..n]) + [fork[n].block];
    }
  }

  lemma BlockAppends(cfg: Config, base: seq<Step>, s: Step)
    requires s.Process? && Run(cfg, base).0.currentSlot <= s.block.slot
    ensures var (m, after) := Run(cfg, base + [s]);
            after == Run(cfg, base).1 + [s.block] && m.currentSlot == s.block.slot
  {
    hide ApplyBlock, InfoOf, SaveCurrentTips, PushBounded;
    assert (base + [s])[..|base|] == base;
  }

  /** A rollback and then the blocks of a fork above its target: the chain is then the blocks at or below the target,
      followed by all blocks of the fork, and the index is the replay of that. */
  lemma SwitchesToFork(cfg: Config, steps: seq<Step>, target: nat, fork: seq<Step>) returns (k: nat)
    requires AdmissibleRun(cfg, steps + [RollBack(target)] + fork) && Ascends(fork, target)
    requires var tips := Run(cfg, steps).0.tips; TIP_KEY in tips && target < tips[TIP_KEY].slot
    ensures var chain := Run(cfg, steps).1;
            var (m, after) := Run(cfg, steps + [RollBack(target)] + fork);
            && k <= |chain| && after == chain[..k] + BlocksOf(fork)
            && (forall i | 0 <= i < |chain| :: i < k <==> chain[i].slot <= target)
            && m.trees == Replay(cfg, after)
  {
    hide ApplyBlock, InfoOf, SaveTips, Unwind, Admissible, Forward, ReplayTo, NodeOk;
    var base := steps + [RollBack(target)];
    var (n, chain) := Run(cfg, steps);
    assert base[..|base| - 1] == steps && base[|base| - 1] == RollBack(target);
    AdmissibleStart(cfg, base, fork);
    AdmissibleStart(cfg, steps, [RollBack(target)]);
    RunAgreesWithReplay(cfg, steps);
    RunAgreesWithReplay(cfg, base + fork);
    ChainIsOk(cfg, n, chain);
    ForkAppends(cfg, base, fork, target);
    KeptExactly(cfg, chain, target);
    k := |Below(chain, target)|;
    NodeIsReplay(cfg, Run(cfg, base + fork).0, Run(cfg, base + fork).1);
  }

  lemma ChainIsOk(cfg: Config, n: Node, chain: seq<Block>)
    requires NodeOk(cfg, n, chain)
    ensures ChainOk(cfg, chain)
  {
  }

  lemma NodeIsReplay(cfg: Config, n: Node, chain: seq<Block>)
    requires NodeOk(cfg, n, chain)
    ensures n.trees == Replay(cfg, chain)
  {
  }

  lemma {:induction false} AdmissibleStart(cfg: Config, steps: seq<Step>, more: seq<Step>)
    requires AdmissibleRun(cfg, steps + more)
    ensures AdmissibleRun(cfg, steps)
  {
    hide Admissible, Run;
    if more == [] {
      assert steps + more == steps;
    } else {
      assert (steps + more)[..|steps + more| - 1] == steps + more[..|more| - 1];
      AdmissibleStart(cfg, steps, more[..|more| - 1]);
    }
  }

  // ---- Which tips are saved ------------------------------------------------------------------

  /** Step i of the run processed its block. */
  ghost predicate Processed(cfg: Config, steps: seq<Step>, i: nat) {
    i < |steps| && steps[i].Process?
    && Run(cfg, steps[..i]).0.blocksProcessed < Run(cfg, steps[..i + 1]).0.blocksProcessed
  }

  /** The epoch of the block of step i. */
  function EpochAt(steps: seq<Step>, i: nat): nat {
    if i < |steps| && steps[i].Process? then steps[i].block.slot / 86_400 else 0
  }

  lemma ProcessedBefore(cfg: Config, steps: seq<Step>, i: nat)
    requires steps != []
    ensures i < |steps| - 1 ==> (Processed(cfg, steps, i) <==> Processed(cfg, steps[..|steps| - 1], i))
    ensures Processed(cfg, steps, |steps| - 1)
            <==> steps[|steps| - 1].Process?
                 && Run(cfg, steps[..|steps| - 1]).0.blocksProcessed < Run(cfg, steps).0.blocksProcessed
  {
    hide Run;
    var front := steps[..|steps| - 1];
    assert steps[..|steps|] == steps;
    if i < |front| {
      assert front[..i] == steps[..i] && front[..i + 1] == steps[..i + 1];
    }
  }

  /** The epoch the processor has reached is the highest one of all blocks it ever processed; a rollback does not lower
      it. */
  lemma {:induction false} EpochIsHighest(cfg: Config, steps: seq<Step>)
    ensures var epoch := Run(cfg, steps).0.currentEpoch;
            && (forall i: nat | Processed(cfg, steps, i) :: EpochAt(steps, i) <= epoch)
            && (epoch > 0 ==> exists i: nat :: Processed(cfg, steps, i) && EpochAt(steps, i) == epoch)
  {
    hide ApplyBlock, InfoOf, UndoBlock, Survivors, PushBounded, SaveTips, SaveCurrentTips, Unwind, Processed;
    if steps == [] {
      NothingProcessed(cfg);
    } else {
      var last := |steps| - 1;
      var front := steps[..last];
      EpochIsHighest(cfg, front);
      forall i: nat { ProcessedBefore(cfg, steps, i); }
      var before, after := Run(cfg, front).0.currentEpoch, Run(cfg, steps).0.currentEpoch;
      assert forall i: nat | i < last :: front[i] == steps[i];
      if after == before && after > 0 {
        var i: nat :| Processed(cfg, front, i) && EpochAt(front, i) == before;
        OnlySteps(cfg, front, i);
        assert Processed(cfg, steps, i);
        assert EpochAt(steps, i) == EpochAt(front, i);
      } else if after > before {
        assert Processed(cfg, steps, last);
      }
      forall i: nat | Processed(cfg, steps, i) ensures EpochAt(steps, i) <= after {
        OnlySteps(cfg, steps, i);
        if i < last { assert Processed(cfg, front, i) && EpochAt(front, i) == EpochAt(steps, i); }
      }
    }
  }

  lemma OnlySteps(cfg: Config, steps: seq<Step>, i: nat)
    requires Processed(cfg, steps, i)
    ensures i < |steps| && steps[i].Process?
  {
  }

  lemma NothingProcessed(cfg: Config)
    ensures forall i: nat :: !Processed(cfg, [], i)
  {
  }

  /** Every tip in the table is this one: the chain tip and the tip of each wallet. */
  ghost predicate TipsAre(cfg: Config, tips: map<string, ChainTip>, tip: ChainTip) {
    && TIP_KEY in tips && tips[TIP_KEY] == tip
    && forall i | 0 <= i < |cfg.walletIds| ::
         WalletTipKey(cfg.walletIds[i]) in tips && tips[WalletTipKey(cfg.walletIds[i])] == tip
  }

  lemma SavedTipsAre(cfg: Config, tips: map<string, ChainTip>, tip: ChainTip)
    ensures TipsAre(cfg, SaveTips(tips, cfg.walletIds, tip), tip)
  {
    hide SaveWalletTips, WalletTipKey;
    SaveWalletTipsWrites(tips[TIP_KEY := tip], cfg.walletIds, tip);
  }

  lemma BoundarySaves(n: Node, cfg: Config, b: Block, nodeTip: Option<nat>)
    requires cfg.bufferSize > 0 && n.currentSlot <= b.slot
    ensures var after := Forward(n, cfg, b, nodeTip).tips;
            var time := (cfg.systemStart + 1000 * b.slot) % 0x1_0000_0000_0000_0000;
            if b.slot / 86_400 > n.currentEpoch then TipsAre(cfg, after, ChainTip(b.slot, b.hash, time))
            else after == n.tips
  {
    hide ApplyBlock, WorkOf, SaveTips, TipsAre;
    var info := InfoOf(n.trees, cfg, b);
    var buffer := PushBounded(n.buffer, info, cfg.bufferSize);
    assert buffer != [] && buffer[|buffer| - 1] == info;
    SavedTipsAre(cfg, n.tips, ChainTip(info.slot, info.blockHash, info.timestamp));
  }

  /** The epoch is above 0 and above those of all blocks the run processed. */
  ghost predicate NewEpoch(cfg: Config, steps: seq<Step>, epoch: nat) {
    epoch > 0 && forall i: nat | Processed(cfg, steps, i) :: EpochAt(steps, i) < epoch
  }

  lemma NewEpochIsHigher(cfg: Config, steps: seq<Step>, epoch: nat)
    ensures NewEpoch(cfg, steps, epoch) <==> epoch > Run(cfg, steps).0.currentEpoch
  {
    hide Processed, Run, EpochAt;
    EpochIsHighest(cfg, steps);
  }

  /** A block that is taken is saved as the tip if and only if its epoch is above 0 and above those of all blocks
      processed before; otherwise no tip changes. */
  lemma SavesFirstOfEpoch(cfg: Config, steps: seq<Step>, b: Block, nodeTip: Option<nat>)
    requires cfg.bufferSize > 0 && Run(cfg, steps).0.currentSlot <= b.slot
    ensures var before, after := Run(cfg, steps).0.tips, Run(cfg, steps + [Process(b, nodeTip)]).0.tips;
            var time := (cfg.systemStart + 1000 * b.slot) % 0x1_0000_0000_0000_0000;
            && (NewEpoch(cfg, steps, b.slot / 86_400) ==> TipsAre(cfg, after, ChainTip(b.slot, b.hash, time)))
            && (!NewEpoch(cfg, steps, b.slot / 86_400) ==> after == before)
  {
    hide Forward, NewEpoch, TipsAre, Survivors;
    var all := steps + [Process(b, nodeTip)];
    assert all[..|all| - 1] == steps && all[|all| - 1] == Process(b, nodeTip);
    NewEpochIsHigher(cfg, steps, b.slot / 86_400);
    BoundarySaves(Run(cfg, steps).0, cfg, b, nodeTip);
  }

  /** A rollback that takes effect stores its target as every tip, without a hash. */
  lemma RollbackSavesTarget(n: Node, cfg: Config, target: nat)
    requires TIP_KEY in n.tips && target < n.tips[TIP_KEY].slot
    ensures TipsAre(cfg, Rollback(n, cfg, target).tips, ChainTip(target, "", 0))
  {
    hide Unwind, SaveTips;
    SavedTipsAre(cfg, n.tips, ChainTip(target, "", 0));
  }

  /** The tip estimate: what the node reports, or else the highest slot so far. */
  lemma TipEstimate(n: Node, cfg: Config, b: Block, nodeTip: Option<nat>)
    requires n.currentSlot <= b.slot
    ensures var tip := Forward(n, cfg, b, nodeTip).chainTipSlot;
            && (nodeTip.Some? ==> tip == nodeTip.value)
            && (nodeTip.None? ==> tip >= b.slot && tip >= n.chainTipSlot && (tip == b.slot || tip == n.chainTipSlot))
  {
    hide ApplyBlock, InfoOf, SaveCurrentTips, PushBounded;
  }

  // ---- What a rollback reports ---------------------------------------------------------------

  /** A rollback reports the number of blocks it undid, of those above its target as many as were buffered; if it undid
      none, the distance in slots. */
  lemma ReportsUndone(cfg: Config, n: Node, chain: seq<Block>, target: nat)
    requires NodeOk(cfg, n, chain)
    ensures var above := |chain| - |Below(chain, target)|;
            var undone := if above <= |n.buffer| then above else |n.buffer|;
            RollbackCount(n, target)
            == if TIP_KEY !in n.tips || target >= n.tips[TIP_KEY].slot then 0
               else if undone > 0 then undone
               else n.tips[TIP_KEY].slot - target
  {
    hide ApplyBlock, InfoOf, UndoBlock, WorkOf, Scanned;
    UnwindReplay(cfg, chain, |chain|, n.buffer, target, n.trees.events);
  }
}
