/** The block processor as a state machine: one forward step and one rollback step. */
module Machine {
  import opened Wrappers
  import opened Ledger
  import opened Index
  import opened Processing
  import opened Storage

  /** Everything a step reads or changes. `tips` is the persisted tip table. */
  datatype Node = Node(
    trees: Trees,
    tips: map<string, ChainTip>,
    currentSlot: nat,
    currentEpoch: nat,
    blocksProcessed: nat,
    chainTipSlot: nat,
    buffer: seq<RollbackInfo>)

  const SLOTS_PER_EPOCH: nat := 86_400

  function SlotToEpoch(slot: nat): nat {
    slot / SLOTS_PER_EPOCH
  }

  /** The persisted tip that `rollback_to` compares its target with; none reads as slot 0. */
  function TipSlot(tips: map<string, ChainTip>): nat {
    if TIP_KEY in tips then tips[TIP_KEY].slot else 0
  }

  function SaveWalletTips(tips: map<string, ChainTip>, walletIds: seq<string>, tip: ChainTip): map<string, ChainTip> {
    if walletIds == [] then tips
    else SaveWalletTips(tips, walletIds[..|walletIds| - 1], tip)[WalletTipKey(walletIds[|walletIds| - 1]) := tip]
  }

  function SaveTips(tips: map<string, ChainTip>, walletIds: seq<string>, tip: ChainTip): map<string, ChainTip> {
    SaveWalletTips(tips[TIP_KEY := tip], walletIds, tip)
  }

  /** `save_current_tips`: the tip is the newest buffered block; an empty buffer saves nothing. */
  function SaveCurrentTips(tips: map<string, ChainTip>, walletIds: seq<string>, buffer: seq<RollbackInfo>)
    : map<string, ChainTip>
  {
    if buffer == [] then tips else
      var last := buffer[|buffer| - 1];
      SaveTips(tips, walletIds, ChainTip(last.slot, last.blockHash, last.timestamp))
  }

  /** Append to a queue of bounded length, dropping the oldest entry on overflow. */
  function PushBounded(buffer: seq<RollbackInfo>, info: RollbackInfo, size: nat): seq<RollbackInfo> {
    if |buffer| + 1 > size then (buffer + [info])[1..] else buffer + [info]
  }

  /** The guard of `process_block`. */
  predicate Accepts(n: Node, b: Block) {
    b.slot >= n.currentSlot
  }

  function Forward(n: Node, cfg: Config, b: Block, nodeTip: Option<nat>): Node {
    if !Accepts(n, b) then n else
      var epoch := SlotToEpoch(b.slot);
      var buffer := PushBounded(n.buffer, InfoOf(n.trees, cfg, b), cfg.bufferSize);
      Node(ApplyBlock(n.trees, cfg, b),
           if epoch > n.currentEpoch then SaveCurrentTips(n.tips, cfg.walletIds, buffer) else n.tips,
           b.slot,
           if epoch > n.currentEpoch then epoch else n.currentEpoch,
           n.blocksProcessed + 1,
           match nodeTip
             case Some(slot) => slot
             case None => if b.slot > n.chainTipSlot then b.slot else n.chainTipSlot,
           buffer)
  }

  /** Undo buffered blocks, newest first, down to the target slot. */
  function Unwind(trees: Trees, buffer: seq<RollbackInfo>, target: nat): (Trees, seq<RollbackInfo>)
    decreases |buffer|
  {
    if buffer == [] || buffer[|buffer| - 1].slot <= target then (trees, buffer)
    else Unwind(UndoBlock(trees, buffer[|buffer| - 1]), buffer[..|buffer| - 1], target)
  }

  /** A rollback takes effect only below the persisted tip. */
  predicate Effective(n: Node, target: nat) {
    target < TipSlot(n.tips)
  }

  function Rollback(n: Node, cfg: Config, target: nat): Node {
    if !Effective(n, target) then n else
      var (trees, buffer) := Unwind(n.trees, n.buffer, target);
      n.(trees := trees,
         buffer := buffer,
         tips := SaveTips(n.tips, cfg.walletIds, ChainTip(target, "", 0)),
         currentSlot := target)
  }

  /** The block count that `rollback_to` reports: an estimate by slots when nothing was buffered. */
  function RollbackCount(n: Node, target: nat): nat {
    if !Effective(n, target) then 0 else
      var undone := |n.buffer| - |Unwind(n.trees, n.buffer, target).1|;
      if undone <= 0 then TipSlot(n.tips) - target else undone
  }
}
