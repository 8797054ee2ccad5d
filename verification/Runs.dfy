/** Every run of the block processor agrees with a replay of the surviving chain. */
module Runs {
  import opened Wrappers
  import opened Text
  import opened Ledger
  import opened Index
  import opened Holdings
  import opened Processing
  import opened Undo
  import opened Storage
  import opened Machine

  // ---- The simple thing: replay from empty ---------------------------------------------------

  /** The first n blocks of a chain, processed from empty trees. */
  function ReplayTo(cfg: Config, chain: seq<Block>, n: nat): Trees
    requires n <= |chain|
  {
    if n == 0 then EMPTY else ApplyBlock(ReplayTo(cfg, chain, n - 1), cfg, chain[n - 1])
  }

  function Replay(cfg: Config, chain: seq<Block>): Trees {
    ReplayTo(cfg, chain, |chain|)
  }

  /** The undo record of the i-th block. */
  function InfoAt(cfg: Config, chain: seq<Block>, i: nat): RollbackInfo
    requires i < |chain|
  {
    InfoOf(ReplayTo(cfg, chain, i), cfg, chain[i])
  }

  /** The events block n of a chain logged: surviving created outputs, then spends. */
  function LoggedBy(cfg: Config, chain: seq<Block>, n: nat): seq<BlockEvent>
    requires n < |chain|
  {
    BlockEvents(WorkOf(ReplayTo(cfg, chain, n), cfg, chain[n]))
  }

  /** How many of the first n blocks remain when the trailing ones above a slot go. */
  function KeptOf(chain: seq<Block>, n: nat, target: nat): (k: nat)
    requires n <= |chain|
    ensures k <= n
  {
    if n > 0 && chain[n - 1].slot > target then KeptOf(chain, n - 1, target) else n
  }

  function Below(chain: seq<Block>, target: nat): seq<Block> {
    chain[..KeptOf(chain, |chain|, target)]
  }

  // ---- What a chain must satisfy -------------------------------------------------------------

  /** No transaction of the first n blocks has this hash. */
  ghost predicate NewTx(chain: seq<Block>, n: nat, h: Hex)
    requires n <= |chain|
  {
    forall i, j | 0 <= i < n && 0 <= j < |chain[i].txs| :: chain[i].txs[j].hash != h
  }

  /** The n-th block has its own slot and hash, transactions never seen before, and no u64 overflow of value. */
  ghost predicate Follows(cfg: Config, chain: seq<Block>, n: nat)
    requires n < |chain|
  {
    var b := chain[n];
    && DistinctTxs(b)
    && (forall k | 0 <= k < |b.txs| :: NewTx(chain, n, b.txs[k].hash))
    && (forall i | 0 <= i < n :: chain[i].hash != b.hash && chain[i].slot < b.slot)
    && Total(ReplayTo(cfg, chain, n).utxos) + BlockValue(cfg, b, |b.txs|) <= U64_MAX
  }

  ghost predicate ChainOk(cfg: Config, chain: seq<Block>) {
    forall n | 0 <= n < |chain| :: Follows(cfg, chain, n)
  }

  // ---- What a replay contains ----------------------------------------------------------------

  lemma {:induction false} SpendInputsFrame(w: Work, inputs: seq<OutRef>, spend: SpendEvent, h: Hex)
    ensures var t := SpendInputs(w, inputs, spend).trees;
            t.events == w.trees.events && t.blocks == w.trees.blocks && (FreshTx(w.trees, h) ==> FreshTx(t, h))
  {
    if inputs != [] {
      SpendInputsFrame(w, inputs[..|inputs| - 1], spend, h);
    }
  }

  lemma {:induction false} CreateOutputsFrame(w: Work, cfg: Config, b: Block, j: nat, n: nat, h: Hex)
    requires j < |b.txs| && n <= |b.txs[j].outputs|
    ensures var t := CreateOutputs(w, cfg, b, j, n).trees;
            && t.events == w.trees.events && t.blocks == w.trees.blocks
            && (FreshTx(w.trees, h) && h != b.txs[j].hash ==> FreshTx(t, h))
  {
    if n > 0 {
      CreateOutputsFrame(w, cfg, b, j, n - 1, h);
      if h != b.txs[j].hash {
        forall i: nat ensures UtxoKey(h, i) != UtxoKey(b.txs[j].hash, n - 1) {
          if UtxoKey(h, i) == UtxoKey(b.txs[j].hash, n - 1) { UtxoKeyInjective(h, i, b.txs[j].hash, n - 1); }
        }
      }
    }
  }

  lemma {:induction false} ProcessTxsFrame(t0: Trees, cfg: Config, b: Block, n: nat, h: Hex)
    requires n <= |b.txs|
    ensures var t := ProcessTxs(Start(t0), cfg, b, n).trees;
            && t.events == t0.events && t.blocks == t0.blocks
            && (FreshTx(t0, h) && (forall j | 0 <= j < n :: b.txs[j].hash != h) ==> FreshTx(t, h))
  {
    if n > 0 {
      ProcessTxsFrame(t0, cfg, b, n - 1, h);
      var w := ProcessTxs(Start(t0), cfg, b, n - 1);
      SpendInputsFrame(w, b.txs[n - 1].inputs, SpendOf(cfg, b, n - 1), h);
      CreateOutputsFrame(SpendInputs(w, b.txs[n - 1].inputs, SpendOf(cfg, b, n - 1)), cfg, b, n - 1,
                         |b.txs[n - 1].outputs|, h);
    }
  }

  lemma ApplyFresh(t: Trees, cfg: Config, b: Block, h: Hex)
    requires FreshTx(t, h) && forall j | 0 <= j < |b.txs| :: b.txs[j].hash != h
    ensures FreshTx(ApplyBlock(t, cfg, b), h)
  {
    ProcessTxsFrame(t, cfg, b, |b.txs|, h);
  }

  lemma {:induction false} ReplayFresh(cfg: Config, chain: seq<Block>, n: nat, h: Hex)
    requires n <= |chain| && NewTx(chain, n, h)
    ensures FreshTx(ReplayTo(cfg, chain, n), h)
  {
    hide ApplyBlock, InfoOf, UndoBlock, WorkOf;
    if n > 0 {
      ReplayFresh(cfg, chain, n - 1, h);
      ApplyFresh(ReplayTo(cfg, chain, n - 1), cfg, chain[n - 1], h);
    }
  }

  lemma {:induction false} WriteEventsElsewhere(events: map<string, BlockEvent>, slot: nat, list: seq<BlockEvent>,
                                                slot': nat, i: nat)
    requires slot != slot' && EventKey(slot', i) !in events
    ensures EventKey(slot', i) !in WriteEvents(events, slot, list)
  {
    if list != [] {
      WriteEventsElsewhere(events, slot, list[..|list| - 1], slot', i);
      if EventKey(slot', i) == EventKey(slot, |list| - 1) { EventKeyInjective(slot', i, slot, |list| - 1); }
    }
  }

  lemma ApplyNoEvents(t: Trees, cfg: Config, b: Block, slot: nat, i: nat)
    requires b.slot != slot && EventKey(slot, i) !in t.events
    ensures EventKey(slot, i) !in ApplyBlock(t, cfg, b).events
  {
    ProcessTxsFrame(t, cfg, b, |b.txs|, "");
    WriteEventsElsewhere(t.events, b.slot, BlockEvents(WorkOf(t, cfg, b)), slot, i);
  }

  lemma {:induction false} ReplayNoEvents(cfg: Config, chain: seq<Block>, n: nat, slot: nat, i: nat)
    requires n <= |chain| && forall k | 0 <= k < n :: chain[k].slot != slot
    ensures EventKey(slot, i) !in ReplayTo(cfg, chain, n).events
  {
    hide ApplyBlock, InfoOf, UndoBlock, WorkOf;
    if n > 0 {
      ReplayNoEvents(cfg, chain, n - 1, slot, i);
      ApplyNoEvents(ReplayTo(cfg, chain, n - 1), cfg, chain[n - 1], slot, i);
    }
  }

  function MetaOf(cfg: Config, b: Block): BlockMeta {
    BlockMeta(b.slot, SlotTime(cfg.systemStart, b.slot), b.prev)
  }

  lemma ApplyIndexesBlock(t: Trees, cfg: Config, b: Block)
    ensures ApplyBlock(t, cfg, b).blocks == t.blocks[b.hash := MetaOf(cfg, b)]
  {
    ProcessTxsFrame(t, cfg, b, |b.txs|, "");
  }

  /** A block-hash index that holds exactly the first n blocks of a chain. */
  ghost predicate Indexes(cfg: Config, blocks: map<Hex, BlockMeta>, chain: seq<Block>, n: nat)
    requires n <= |chain|
  {
    && (forall h | h in blocks :: exists i :: 0 <= i < n && chain[i].hash == h)
    && (forall i | 0 <= i < n :: chain[i].hash in blocks && blocks[chain[i].hash] == MetaOf(cfg, chain[i]))
  }

  lemma {:induction false} ReplayBlocks(cfg: Config, chain: seq<Block>, n: nat)
    requires n <= |chain| && ChainOk(cfg, chain)
    ensures Indexes(cfg, ReplayTo(cfg, chain, n).blocks, chain, n)
  {
    hide ApplyBlock, InfoOf, UndoBlock, WorkOf, Indexes;
    if n > 0 {
      ReplayBlocks(cfg, chain, n - 1);
      ApplyIndexesBlock(ReplayTo(cfg, chain, n - 1), cfg, chain[n - 1]);
      IndexOneMore(cfg, ReplayTo(cfg, chain, n - 1).blocks, chain, n - 1);
    } else {
      NothingIndexed(cfg, chain);
    }
  }

  lemma NothingIndexed(cfg: Config, chain: seq<Block>)
    ensures Indexes(cfg, map[], chain, 0)
  {
  }

  lemma IndexOneMore(cfg: Config, blocks: map<Hex, BlockMeta>, chain: seq<Block>, n: nat)
    requires n < |chain| && Indexes(cfg, blocks, chain, n) && ChainOk(cfg, chain)
    ensures Indexes(cfg, blocks[chain[n].hash := MetaOf(cfg, chain[n])], chain, n + 1)
  {
    hide ReplayTo, MetaOf, NewTx, DistinctTxs;
    assert Follows(cfg, chain, n);
  }

  lemma FollowsFits(cfg: Config, chain: seq<Block>, n: nat)
    requires n < |chain| && ChainOk(cfg, chain)
    ensures BlockFits(ReplayTo(cfg, chain, n), cfg, chain[n])
  {
    hide ApplyBlock, InfoOf, UndoBlock, WorkOf;
    var t, b := ReplayTo(cfg, chain, n), chain[n];
    assert Follows(cfg, chain, n);
    forall j | 0 <= j < |b.txs| ensures FreshTx(t, b.txs[j].hash) {
      ReplayFresh(cfg, chain, n, b.txs[j].hash);
    }
    ReplayBlocks(cfg, chain, n);
    forall i: nat ensures EventKey(b.slot, i) !in t.events {
      ReplayNoEvents(cfg, chain, n, b.slot, i);
    }
  }

  /** In a replay every balance is the sum of its live UTxOs, the address index is the UTxO set seen
      by address, and no key is both live and spent. */
  lemma {:induction false} ReplayQuiescent(cfg: Config, chain: seq<Block>, n: nat)
    requires n <= |chain| && ChainOk(cfg, chain)
    ensures Quiescent(ReplayTo(cfg, chain, n))
  {
    hide ApplyBlock, InfoOf, UndoBlock, WorkOf;
    if n == 0 {
      assert BalancesOf(map[]) == map[] && IndexOf(map[]) == {};
    } else {
      ReplayQuiescent(cfg, chain, n - 1);
      FollowsFits(cfg, chain, n - 1);
      ApplyKeepsQuiescent(ReplayTo(cfg, chain, n - 1), cfg, chain[n - 1]);
    }
  }

  /** A replay looks no further than the blocks it processes. */
  lemma {:induction false} ReplayIsLocal(cfg: Config, chain: seq<Block>, chain': seq<Block>, n: nat)
    requires n <= |chain| && n <= |chain'|
    requires forall i | 0 <= i < n :: chain[i] == chain'[i]
    ensures ReplayTo(cfg, chain, n) == ReplayTo(cfg, chain', n)
  {
    hide ApplyBlock, InfoOf, UndoBlock, WorkOf;
    if n > 0 {
      ReplayIsLocal(cfg, chain, chain', n - 1);
    }
  }

  lemma FollowsIsLocal(cfg: Config, chain: seq<Block>, chain': seq<Block>, n: nat)
    requires n < |chain| && n < |chain'|
    requires forall i | 0 <= i <= n :: chain[i] == chain'[i]
    requires Follows(cfg, chain, n)
    ensures Follows(cfg, chain', n)
    ensures InfoAt(cfg, chain, n) == InfoAt(cfg, chain', n)
  {
    hide ApplyBlock, InfoOf, UndoBlock, WorkOf;
    ReplayIsLocal(cfg, chain, chain', n);
    forall k | 0 <= k < |chain'[n].txs| ensures NewTx(chain', n, chain'[n].txs[k].hash) {
      assert NewTx(chain, n, chain'[n].txs[k].hash);
    }
  }

  // ---- Invariant of a run --------------------------------------------------------------------

  /** The buffer holds the undo records of the last blocks of the first n. */
  ghost predicate Buffers(cfg: Config, buffer: seq<RollbackInfo>, chain: seq<Block>, n: nat)
    requires n <= |chain|
  {
    && |buffer| <= n
    && (forall i | 0 <= i < |buffer| :: buffer[i] == InfoAt(cfg, chain, n - |buffer| + i))
  }

  /** The processor has indexed exactly `chain`, and can undo its last |buffer| blocks. */
  ghost predicate NodeOk(cfg: Config, n: Node, chain: seq<Block>) {
    && ChainOk(cfg, chain)
    && n.trees == Replay(cfg, chain)
    && Buffers(cfg, n.buffer, chain, |chain|)
    && |n.buffer| <= cfg.bufferSize
    && TipSlot(n.tips) <= n.currentSlot
    && (forall i | 0 <= i < |chain| :: chain[i].slot <= n.currentSlot)
  }

  const INITIAL := Node(EMPTY, map[], 0, 0, 0, 0, [])

  datatype Step = Process(block: Block, nodeTip: Option<nat>) | RollBack(target: nat)

  function Take(n: Node, cfg: Config, s: Step): Node {
    match s
    case Process(b, nodeTip) => Forward(n, cfg, b, nodeTip)
    case RollBack(target) => Rollback(n, cfg, target)
  }

  /** The chain that survives a step. */
  function Survivors(n: Node, chain: seq<Block>, s: Step): seq<Block> {
    match s
    case Process(b, _) => if Accepts(n, b) then chain + [b] else chain
    case RollBack(target) => if Effective(n, target) then Below(chain, target) else chain
  }

  /** All blocks above the target can be undone from the buffer. */
  predicate Buffered(n: Node, chain: seq<Block>, target: nat) {
    |chain| - |Below(chain, target)| <= |n.buffer|
  }

  /** Each of the blocks from..n logged no more events than a rollback deletes. */
  ghost predicate Erasable(cfg: Config, chain: seq<Block>, from: nat, n: nat)
    requires n <= |chain|
  {
    forall i | from <= i < n :: |LoggedBy(cfg, chain, i)| <= 100_000
  }

  /** Blocks above the target can all be undone, their event log included. */
  ghost predicate Undoes(cfg: Config, n: Node, chain: seq<Block>, target: nat) {
    && Effective(n, target)
    && Buffered(n, chain, target)
    && Erasable(cfg, chain, |Below(chain, target)|, |chain|)
  }

  ghost predicate Admissible(cfg: Config, n: Node, chain: seq<Block>, s: Step) {
    match s
    case Process(b, _) => Accepts(n, b) ==> Follows(cfg, chain + [b], |chain|)
    case RollBack(target) => Effective(n, target) ==> Undoes(cfg, n, chain, target)
  }

  function Run(cfg: Config, steps: seq<Step>): (Node, seq<Block>) {
    if steps == [] then (INITIAL, []) else
      var (n, chain) := Run(cfg, steps[..|steps| - 1]);
      var s := steps[|steps| - 1];
      (Take(n, cfg, s), Survivors(n, chain, s))
  }

  ghost predicate AdmissibleRun(cfg: Config, steps: seq<Step>) {
    steps == [] ||
    (AdmissibleRun(cfg, steps[..|steps| - 1]) &&
     var (n, chain) := Run(cfg, steps[..|steps| - 1]);
     Admissible(cfg, n, chain, steps[|steps| - 1]))
  }

  // ---- Forward -------------------------------------------------------------------------------

  lemma {:induction false} SaveWalletTipsKeepsChainTip(tips: map<string, ChainTip>, ids: seq<string>, tip: ChainTip)
    ensures TipSlot(SaveWalletTips(tips, ids, tip)) == TipSlot(tips)
  {
    if ids != [] {
      SaveWalletTipsKeepsChainTip(tips, ids[..|ids| - 1], tip);
      assert WalletTipKey(ids[|ids| - 1])[0] != TIP_KEY[0];
    }
  }

  lemma SavedTipSlot(tips: map<string, ChainTip>, ids: seq<string>, tip: ChainTip)
    ensures TipSlot(SaveTips(tips, ids, tip)) == tip.slot
  {
    SaveWalletTipsKeepsChainTip(tips[TIP_KEY := tip], ids, tip);
  }

  lemma PushKeepsBuffers(cfg: Config, buffer: seq<RollbackInfo>, chain: seq<Block>, size: nat)
    requires chain != [] && Buffers(cfg, buffer, chain, |chain| - 1) && |buffer| <= size
    ensures var buffer' := PushBounded(buffer, InfoAt(cfg, chain, |chain| - 1), size);
            Buffers(cfg, buffer', chain, |chain|) && |buffer'| == (if |buffer| < size then |buffer| + 1 else size)
            && (buffer' != [] ==> buffer'[|buffer'| - 1] == InfoAt(cfg, chain, |chain| - 1))
  {
    hide InfoAt;
    var n, buffer' := |chain|, PushBounded(buffer, InfoAt(cfg, chain, |chain| - 1), size);
    forall i | 0 <= i < |buffer'| ensures buffer'[i] == InfoAt(cfg, chain, n - |buffer'| + i) {
      if |buffer| + 1 > size && i < |buffer'| - 1 {
        assert buffer'[i] == buffer[i + 1];
      }
    }
  }

  lemma ChainGrows(cfg: Config, chain: seq<Block>, b: Block)
    requires ChainOk(cfg, chain) && Follows(cfg, chain + [b], |chain|)
    ensures ChainOk(cfg, chain + [b])
    ensures Replay(cfg, chain + [b]) == ApplyBlock(Replay(cfg, chain), cfg, b)
  {
    hide ApplyBlock, InfoOf, UndoBlock, WorkOf;
    var chain' := chain + [b];
    ReplayIsLocal(cfg, chain, chain', |chain|);
    forall n | 0 <= n < |chain| ensures Follows(cfg, chain', n) {
      FollowsIsLocal(cfg, chain, chain', n);
    }
  }

  lemma BuffersAreLocal(cfg: Config, buffer: seq<RollbackInfo>, chain: seq<Block>, chain': seq<Block>, n: nat)
    requires n <= |chain| && n <= |chain'| && ChainOk(cfg, chain)
    requires forall i | 0 <= i < n :: chain[i] == chain'[i]
    requires Buffers(cfg, buffer, chain, n)
    ensures Buffers(cfg, buffer, chain', n)
  {
    hide ApplyBlock, InfoOf, UndoBlock, WorkOf;
    forall i | 0 <= i < |buffer| ensures buffer[i] == InfoAt(cfg, chain', n - |buffer| + i) {
      FollowsIsLocal(cfg, chain, chain', n - |buffer| + i);
    }
  }

  lemma ForwardKeepsTip(n: Node, cfg: Config, b: Block, nodeTip: Option<nat>)
    requires Accepts(n, b) && TipSlot(n.tips) <= n.currentSlot && |n.buffer| <= cfg.bufferSize
    ensures TipSlot(Forward(n, cfg, b, nodeTip).tips) <= b.slot
  {
    hide ApplyBlock, UndoBlock, WorkOf;
    var info := InfoOf(n.trees, cfg, b);
    if PushBounded(n.buffer, info, cfg.bufferSize) != [] {
      SavedTipSlot(n.tips, cfg.walletIds, ChainTip(info.slot, info.blockHash, info.timestamp));
    }
  }

  lemma ForwardStep(cfg: Config, n: Node, chain: seq<Block>, b: Block, nodeTip: Option<nat>)
    requires NodeOk(cfg, n, chain) && Accepts(n, b) && Follows(cfg, chain + [b], |chain|)
    ensures NodeOk(cfg, Forward(n, cfg, b, nodeTip), chain + [b])
  {
    hide ApplyBlock, InfoOf, UndoBlock, WorkOf;
    var chain' := chain + [b];
    ChainGrows(cfg, chain, b);
    ReplayIsLocal(cfg, chain, chain', |chain|);
    BuffersAreLocal(cfg, n.buffer, chain, chain', |chain|);
    PushKeepsBuffers(cfg, n.buffer, chain', cfg.bufferSize);
    ForwardKeepsTip(n, cfg, b, nodeTip);
    assert InfoAt(cfg, chain', |chain|) == InfoOf(n.trees, cfg, b);
  }

  // ---- Rollback ------------------------------------------------------------------------------

  /** Undoing the last of n replayed blocks gives the replay of the first n - 1, but for events beyond the 100000th. */
  lemma UndoLast(cfg: Config, chain: seq<Block>, n: nat)
    requires ChainOk(cfg, chain) && 0 < n <= |chain|
    ensures UndoBlock(ReplayTo(cfg, chain, n), InfoAt(cfg, chain, n - 1))
         == ReplayTo(cfg, chain, n - 1).(events := DeleteEvents(ReplayTo(cfg, chain, n).events, chain[n - 1].slot, 0))
    ensures UndoBlock(ReplayTo(cfg, chain, n), InfoAt(cfg, chain, n - 1)) == ReplayTo(cfg, chain, n - 1)
            <==> |LoggedBy(cfg, chain, n - 1)| <= 100_000
  {
    hide ApplyBlock, InfoOf, UndoBlock, WorkOf, BlockEvents;
    ReplayQuiescent(cfg, chain, n - 1);
    FollowsFits(cfg, chain, n - 1);
    UndoInvertsApply(ReplayTo(cfg, chain, n - 1), cfg, chain[n - 1]);
  }

  /** An event log after the scans for blocks n - 1 down to k. */
  function Scanned(chain: seq<Block>, n: nat, k: nat, e: map<string, BlockEvent>): map<string, BlockEvent>
    requires n <= |chain|
  {
    if n <= k then e else Scanned(chain, n - 1, k, DeleteEvents(e, chain[n - 1].slot, 0))
  }

  lemma {:induction false} ScanKeepsLate(events: map<string, BlockEvent>, slot: nat, from: nat, other: nat)
    requires EventKey(other, MAX_EVENTS) in events
    ensures EventKey(other, MAX_EVENTS) in DeleteEvents(events, slot, from)
    decreases MAX_EVENTS - from
  {
    if from < MAX_EVENTS && EventKey(slot, from) in events {
      if EventKey(slot, from) == EventKey(other, MAX_EVENTS) {
        EventKeyInjective(slot, from, other, MAX_EVENTS);
      }
      ScanKeepsLate(events - {EventKey(slot, from)}, slot, from + 1, other);
    }
  }

  lemma {:induction false} ScannedKeepsLate(chain: seq<Block>, n: nat, k: nat, e: map<string, BlockEvent>, slot: nat)
    requires n <= |chain| && EventKey(slot, MAX_EVENTS) in e
    ensures EventKey(slot, MAX_EVENTS) in Scanned(chain, n, k, e)
    decreases n
  {
    hide EventKey, DeleteEvents;
    if n > k {
      ScanKeepsLate(e, chain[n - 1].slot, 0, slot);
      ScannedKeepsLate(chain, n - 1, k, DeleteEvents(e, chain[n - 1].slot, 0), slot);
    }
  }

  /** A block logs its events in its slot and touches no other slot. */
  lemma ReplayWrites(cfg: Config, chain: seq<Block>, n: nat)
    requires n < |chain|
    ensures ReplayTo(cfg, chain, n + 1).events
         == WriteEvents(ReplayTo(cfg, chain, n).events, chain[n].slot, LoggedBy(cfg, chain, n))
  {
    hide BlockEvents, WriteEvents;
    ProcessTxsFrame(ReplayTo(cfg, chain, n), cfg, chain[n], |chain[n].txs|, "");
  }

  lemma NoEventsYet(cfg: Config, chain: seq<Block>, n: nat)
    requires ChainOk(cfg, chain) && n < |chain|
    ensures forall i: nat :: EventKey(chain[n].slot, i) !in ReplayTo(cfg, chain, n).events
  {
    hide ApplyBlock;
    assert Follows(cfg, chain, n);
    forall i: nat ensures EventKey(chain[n].slot, i) !in ReplayTo(cfg, chain, n).events {
      ReplayNoEvents(cfg, chain, n, chain[n].slot, i);
    }
  }

  lemma {:induction false} WriteEventsKeepsKey(events: map<string, BlockEvent>, slot: nat, list: seq<BlockEvent>,
                                               key: string)
    requires key in events
    ensures key in WriteEvents(events, slot, list)
  {
    if list != [] {
      WriteEventsKeepsKey(events, slot, list[..|list| - 1], key);
    }
  }

  /** The 100001st event of block i is in every replay that reaches beyond it. */
  lemma {:induction false} LateEventStays(cfg: Config, chain: seq<Block>, i: nat, n: nat)
    requires ChainOk(cfg, chain) && i < n <= |chain| && |LoggedBy(cfg, chain, i)| > MAX_EVENTS
    ensures EventKey(chain[i].slot, MAX_EVENTS) in ReplayTo(cfg, chain, n).events
    decreases n
  {
    hide EventKey, ReplayTo, WriteEvents, LoggedBy;
    ReplayWrites(cfg, chain, n - 1);
    if i == n - 1 {
      NoEventsYet(cfg, chain, i);
      WroteAt(ReplayTo(cfg, chain, i).events, chain[i].slot, LoggedBy(cfg, chain, i), MAX_EVENTS);
    } else {
      LateEventStays(cfg, chain, i, n - 1);
      WriteEventsKeepsKey(ReplayTo(cfg, chain, n - 1).events, chain[n - 1].slot, LoggedBy(cfg, chain, n - 1),
                          EventKey(chain[i].slot, MAX_EVENTS));
    }
  }

  /** The scans of a rollback restore the event log exactly when none of the blocks it undoes logged too much. */
  lemma ScannedExactWhen(cfg: Config, chain: seq<Block>, n: nat, k: nat)
    requires ChainOk(cfg, chain) && k <= n <= |chain|
    ensures Scanned(chain, n, k, ReplayTo(cfg, chain, n).events) == ReplayTo(cfg, chain, k).events
            <==> Erasable(cfg, chain, k, n)
  {
    hide ReplayTo, LoggedBy, Scanned, EventKey;
    if Erasable(cfg, chain, k, n) {
      ScannedAll(cfg, chain, n, k);
    } else {
      var i :| k <= i < n && |LoggedBy(cfg, chain, i)| > MAX_EVENTS;
      LateEventStays(cfg, chain, i, n);
      ScannedKeepsLate(chain, n, k, ReplayTo(cfg, chain, n).events, chain[i].slot);
      SlotIsNew(cfg, chain, i, k);
      ReplayNoEvents(cfg, chain, k, chain[i].slot, MAX_EVENTS);
    }
  }

  lemma SlotIsNew(cfg: Config, chain: seq<Block>, i: nat, k: nat)
    requires ChainOk(cfg, chain) && k <= i < |chain|
    ensures forall j | 0 <= j < k :: chain[j].slot != chain[i].slot
  {
    hide ReplayTo, NewTx, DistinctTxs;
    assert Follows(cfg, chain, i);
  }

  lemma {:induction false} ScannedAll(cfg: Config, chain: seq<Block>, n: nat, k: nat)
    requires ChainOk(cfg, chain) && k <= n <= |chain| && Erasable(cfg, chain, k, n)
    ensures Scanned(chain, n, k, ReplayTo(cfg, chain, n).events) == ReplayTo(cfg, chain, k).events
    decreases n
  {
    hide ReplayTo, LoggedBy, EventKey, DeleteEvents, WriteEvents;
    if n > k {
      ReplayWrites(cfg, chain, n - 1);
      NoEventsYet(cfg, chain, n - 1);
      DeleteEventsExactWhen(ReplayTo(cfg, chain, n - 1).events, chain[n - 1].slot, LoggedBy(cfg, chain, n - 1));
      ScannedAll(cfg, chain, n - 1, k);
    }
  }

  /** How many of n blocks are left when the unwinding loop stops, with `kept` undo records to use. */
  function Reached(chain: seq<Block>, n: nat, kept: nat, target: nat): (k: nat)
    requires kept <= n <= |chain|
    ensures n - kept <= k <= n
  {
    var low := KeptOf(chain, n, target);
    if low < n - kept then n - kept else low
  }

  lemma InfoSlot(cfg: Config, chain: seq<Block>, i: nat)
    requires i < |chain|
    ensures InfoAt(cfg, chain, i).slot == chain[i].slot
  {
  }

  /** The unwinding loop stops at the replay of the blocks at or below the target, or when its records run out;
      from the event log it has scanned away the blocks in between. */
  lemma {:induction false} UnwindReplay(cfg: Config, chain: seq<Block>, n: nat, buffer: seq<RollbackInfo>, target: nat,
                                        e: map<string, BlockEvent>)
    requires ChainOk(cfg, chain) && n <= |chain| && Buffers(cfg, buffer, chain, n)
    ensures var k := Reached(chain, n, |buffer|, target);
            Unwind(ReplayTo(cfg, chain, n).(events := e), buffer, target)
            == (ReplayTo(cfg, chain, k).(events := Scanned(chain, n, k, e)), buffer[..k - (n - |buffer|)])
    decreases n
  {
    hide ReplayTo, InfoAt, UndoBlock, DeleteEvents, Follows;
    var kept := |buffer|;
    assert buffer[..kept] == buffer;
    if kept > 0 && chain[n - 1].slot > target {
      var before := buffer[..kept - 1];
      UndoNext(cfg, chain, n, buffer, e);
      UnwindReplay(cfg, chain, n - 1, before, target, DeleteEvents(e, chain[n - 1].slot, 0));
      var k := Reached(chain, n, kept, target);
      assert before[..k - (n - kept)] == buffer[..k - (n - kept)];
    } else if kept > 0 {
      InfoSlot(cfg, chain, n - 1);
    }
  }

  /** The newest record undoes the newest block, whatever is in the event log. */
  lemma UndoNext(cfg: Config, chain: seq<Block>, n: nat, buffer: seq<RollbackInfo>, e: map<string, BlockEvent>)
    requires ChainOk(cfg, chain) && n <= |chain| && Buffers(cfg, buffer, chain, n) && buffer != []
    ensures var last := buffer[|buffer| - 1];
            && last.slot == chain[n - 1].slot
            && UndoBlock(ReplayTo(cfg, chain, n).(events := e), last)
               == ReplayTo(cfg, chain, n - 1).(events := DeleteEvents(e, last.slot, 0))
            && Buffers(cfg, buffer[..|buffer| - 1], chain, n - 1)
  {
    hide ReplayTo, InfoAt, UndoBlock, DeleteEvents, ChainOk;
    assert buffer[|buffer| - 1] == InfoAt(cfg, chain, n - 1);
    InfoSlot(cfg, chain, n - 1);
    UndoLast(cfg, chain, n);
    UndoIgnoresEvents(ReplayTo(cfg, chain, n), buffer[|buffer| - 1], e);
  }

  lemma {:induction false} KeptProperties(chain: seq<Block>, n: nat, target: nat)
    requires n <= |chain|
    ensures var k := KeptOf(chain, n, target);
            && (k > 0 ==> chain[k - 1].slot <= target)
            && (forall i | k <= i < n :: chain[i].slot > target)
  {
    if n > 0 && chain[n - 1].slot > target {
      KeptProperties(chain, n - 1, target);
    }
  }

  /** The kept blocks are exactly those at or below the target. */
  lemma KeptExactly(cfg: Config, chain: seq<Block>, target: nat)
    requires ChainOk(cfg, chain)
    ensures forall i | 0 <= i < |chain| :: i < |Below(chain, target)| <==> chain[i].slot <= target
  {
    hide ReplayTo, Follows;
    var k := KeptOf(chain, |chain|, target);
    KeptProperties(chain, |chain|, target);
    if k > 0 { SlotsBefore(cfg, chain, k - 1); }
  }

  lemma SlotsBefore(cfg: Config, chain: seq<Block>, n: nat)
    requires ChainOk(cfg, chain) && n < |chain|
    ensures forall i | 0 <= i < n :: chain[i].slot < chain[n].slot
  {
    hide ReplayTo, NewTx, DistinctTxs;
    assert Follows(cfg, chain, n);
  }

  lemma PrefixOk(cfg: Config, chain: seq<Block>, k: nat)
    requires ChainOk(cfg, chain) && k <= |chain|
    ensures ChainOk(cfg, chain[..k])
    ensures Replay(cfg, chain[..k]) == ReplayTo(cfg, chain, k)
  {
    hide ApplyBlock, InfoOf, UndoBlock, WorkOf;
    ReplayIsLocal(cfg, chain, chain[..k], k);
    forall n | 0 <= n < k ensures Follows(cfg, chain[..k], n) {
      FollowsIsLocal(cfg, chain, chain[..k], n);
    }
  }

  lemma RollbackStep(cfg: Config, n: Node, chain: seq<Block>, target: nat)
    requires NodeOk(cfg, n, chain) && Undoes(cfg, n, chain, target)
    ensures NodeOk(cfg, Rollback(n, cfg, target), Below(chain, target))
  {
    hide ApplyBlock, InfoOf, UndoBlock, WorkOf, LoggedBy, Scanned;
    var k, n' := KeptOf(chain, |chain|, target), Rollback(n, cfg, target);
    KeptExactly(cfg, chain, target);
    UnwindReplay(cfg, chain, |chain|, n.buffer, target, n.trees.events);
    ScannedExactWhen(cfg, chain, |chain|, k);
    PrefixOk(cfg, chain, k);
    BuffersAreLocal(cfg, n'.buffer, chain, chain[..k], k);
    SavedTipSlot(n.tips, cfg.walletIds, ChainTip(target, "", 0));
  }

  // ---- Main results --------------------------------------------------------------------------

  lemma StepKeepsReplay(cfg: Config, n: Node, chain: seq<Block>, s: Step)
    requires NodeOk(cfg, n, chain) && Admissible(cfg, n, chain, s)
    ensures NodeOk(cfg, Take(n, cfg, s), Survivors(n, chain, s))
  {
    hide ApplyBlock, InfoOf, UndoBlock, WorkOf;
    match s {
      case Process(b, nodeTip) =>
        if Accepts(n, b) { ForwardStep(cfg, n, chain, b, nodeTip); }
      case RollBack(target) =>
        if Effective(n, target) { RollbackStep(cfg, n, chain, target); }
    }
  }

  /** Over every run whose effective rollbacks drop only buffered blocks that logged at most 100000 events each, the
      indexed structures are a replay of the surviving chain, the buffer holds the undo records of its last blocks (at
      most K), and the persisted tip never exceeds the current slot. */
  lemma {:induction false} RunAgreesWithReplay(cfg: Config, steps: seq<Step>)
    requires AdmissibleRun(cfg, steps)
    ensures var (n, chain) := Run(cfg, steps); NodeOk(cfg, n, chain)
  {
    hide ApplyBlock, InfoOf, UndoBlock, WorkOf;
    if steps != [] {
      RunAgreesWithReplay(cfg, steps[..|steps| - 1]);
      var (n, chain) := Run(cfg, steps[..|steps| - 1]);
      StepKeepsReplay(cfg, n, chain, steps[|steps| - 1]);
    }
  }

  /** In every reachable state the balance of each address is what its live UTxOs sum to, the address
      index is exactly their (address, key) pairs, and no key is both live and spent. */
  lemma ReachableIsQuiescent(cfg: Config, steps: seq<Step>)
    requires AdmissibleRun(cfg, steps)
    ensures var t := Run(cfg, steps).0.trees;
            && (forall a: Hex :: GetBalance(t.balances, a) == Held(t.utxos, a))
            && t.addressIndex == IndexOf(t.utxos)
            && t.utxos.Keys !! t.spent.Keys
  {
    var (n, chain) := Run(cfg, steps);
    RunAgreesWithReplay(cfg, steps);
    ReplayQuiescent(cfg, chain, |chain|);
    forall a: Hex ensures GetBalance(n.trees.balances, a) == Held(n.trees.utxos, a) {
      BalanceMeansHeld(n.trees.utxos, a);
    }
  }

  lemma LiveIsCovered(t: Trees, key: string)
    requires Consistent(t) && key in t.utxos
    ensures GetBalance(t.balances, t.utxos[key].address) >= t.utxos[key].amount
  {
    DebitExact(t.utxos, key);
  }

  /** In every reachable state, at every input of the next block: the UTxO it spends is covered by the
      balance of its address, so `saturating_sub` subtracts exactly. */
  lemma NoSpendSaturates(cfg: Config, steps: seq<Step>, b: Block, j: nat, k: nat)
    requires AdmissibleRun(cfg, steps)
    requires var chain := Run(cfg, steps).1; Follows(cfg, chain + [b], |chain|)
    requires j < |b.txs| && k < |b.txs[j].inputs|
    ensures var t :=
            SpendInputs(ProcessTxs(Start(Run(cfg, steps).0.trees), cfg, b, j), b.txs[j].inputs[..k],
                        SpendOf(cfg, b, j)).trees;
            var key := UtxoKey(b.txs[j].inputs[k].txHash, b.txs[j].inputs[k].index);
            key in t.utxos ==> GetBalance(t.balances, t.utxos[key].address) >= t.utxos[key].amount
  {
    hide ApplyBlock, InfoOf, UndoBlock, WorkOf, ProcessTxs, SpendInputs, Consistent, Take, Survivors, UtxoKey;
    var (n, chain) := Run(cfg, steps);
    RunAgreesWithReplay(cfg, steps);
    ChainGrows(cfg, chain, b);
    ReplayIsLocal(cfg, chain, chain + [b], |chain|);
    ReplayQuiescent(cfg, chain, |chain|);
    FollowsFits(cfg, chain + [b], |chain|);
    SpendingStaysConsistent(n.trees, cfg, b, j, k);
    var t := SpendInputs(ProcessTxs(Start(n.trees), cfg, b, j), b.txs[j].inputs[..k], SpendOf(cfg, b, j)).trees;
    var key := UtxoKey(b.txs[j].inputs[k].txHash, b.txs[j].inputs[k].index);
    if key in t.utxos {
      LiveIsCovered(t, key);
    }
  }

  /** The same when the outputs of the n-th block of a replay are taken out again, whatever is in the event log. */
  lemma NoUndoSaturates(cfg: Config, chain: seq<Block>, n: nat, k: nat, e: map<string, BlockEvent>)
    requires ChainOk(cfg, chain) && n < |chain| && k < |InfoAt(cfg, chain, n).utxosCreated|
    ensures var info := InfoAt(cfg, chain, n);
            var t := DeleteCreated(Restored(ReplayTo(cfg, chain, n + 1).(events := e), info), info.utxosCreated[..k]);
            var key := info.utxosCreated[k];
            key in t.utxos ==> GetBalance(t.balances, t.utxos[key].address) >= t.utxos[key].amount
  {
    hide ApplyBlock, InfoOf, UndoBlock, WorkOf, DeleteCreated, Restored, Consistent;
    ReplayQuiescent(cfg, chain, n);
    FollowsFits(cfg, chain, n);
    UndoingStaysConsistent(ReplayTo(cfg, chain, n), cfg, chain[n], k, e);
    var info := InfoAt(cfg, chain, n);
    var t := DeleteCreated(Restored(ReplayTo(cfg, chain, n + 1).(events := e), info), info.utxosCreated[..k]);
    if info.utxosCreated[k] in t.utxos {
      LiveIsCovered(t, info.utxosCreated[k]);
    }
  }

  /** The trees after undoing the newest j buffered blocks: what the unwinding loop goes through. */
  function UndoNewest(trees: Trees, buffer: seq<RollbackInfo>, j: nat): Trees
    requires j <= |buffer|
  {
    if j == 0 then trees else UndoBlock(UndoNewest(trees, buffer, j - 1), buffer[|buffer| - j])
  }

  /** The unwinding loop passes through these states. */
  lemma {:induction false} UnwindGoesThrough(trees: Trees, buffer: seq<RollbackInfo>, target: nat, j: nat)
    requires j <= |buffer| && forall i | |buffer| - j <= i < |buffer| :: buffer[i].slot > target
    ensures Unwind(trees, buffer, target) == Unwind(UndoNewest(trees, buffer, j), buffer[..|buffer| - j], target)
  {
    hide UndoBlock;
    if j == 0 {
      assert buffer[..|buffer|] == buffer;
    } else {
      UnwindGoesThrough(trees, buffer, target, j - 1);
      var before := buffer[..|buffer| - (j - 1)];
      assert before[..|before| - 1] == buffer[..|buffer| - j];
    }
  }

  lemma {:induction false} UndoNewestIsReplay(cfg: Config, n: Node, chain: seq<Block>, j: nat)
    requires NodeOk(cfg, n, chain) && j <= |n.buffer|
    ensures var t := UndoNewest(n.trees, n.buffer, j); t == ReplayTo(cfg, chain, |chain| - j).(events := t.events)
  {
    hide ReplayTo, InfoAt, UndoBlock, DeleteEvents;
    if j > 0 {
      var t := UndoNewest(n.trees, n.buffer, j - 1);
      UndoNewestIsReplay(cfg, n, chain, j - 1);
      UndoLast(cfg, chain, |chain| - j + 1);
      assert n.buffer[|n.buffer| - j] == InfoAt(cfg, chain, |chain| - j);
      UndoIgnoresEvents(ReplayTo(cfg, chain, |chain| - j + 1), n.buffer[|n.buffer| - j], t.events);
    }
  }

  /** In every reachable state, at every created output a rollback deletes while it undoes the newest blocks one after
      another: the balance covers the UTxO. */
  lemma NoRollbackSaturates(cfg: Config, steps: seq<Step>, j: nat, k: nat)
    requires AdmissibleRun(cfg, steps)
    requires j < |Run(cfg, steps).0.buffer|
    requires k < |Run(cfg, steps).0.buffer[|Run(cfg, steps).0.buffer| - 1 - j].utxosCreated|
    ensures var n := Run(cfg, steps).0;
            var info := n.buffer[|n.buffer| - 1 - j];
            var t := DeleteCreated(Restored(UndoNewest(n.trees, n.buffer, j), info), info.utxosCreated[..k]);
            var key := info.utxosCreated[k];
            key in t.utxos ==> GetBalance(t.balances, t.utxos[key].address) >= t.utxos[key].amount
  {
    hide ApplyBlock, InfoOf, UndoBlock, WorkOf, DeleteCreated, Restored, Take, Survivors, AdmissibleRun;
    var (n, chain) := Run(cfg, steps);
    RunAgreesWithReplay(cfg, steps);
    UndoNewestIsReplay(cfg, n, chain, j);
    assert n.buffer[|n.buffer| - 1 - j] == InfoAt(cfg, chain, |chain| - 1 - j);
    NoUndoSaturates(cfg, chain, |chain| - 1 - j, k, UndoNewest(n.trees, n.buffer, j).events);
  }

  /** Replays of different length differ in their block-hash index. */
  lemma PrefixesDiffer(cfg: Config, chain: seq<Block>, i: nat, k: nat)
    requires ChainOk(cfg, chain) && i < k <= |chain|
    ensures ReplayTo(cfg, chain, i).blocks != ReplayTo(cfg, chain, k).blocks
  {
    hide ApplyBlock, InfoOf, UndoBlock, WorkOf;
    ReplayBlocks(cfg, chain, i);
    ReplayBlocks(cfg, chain, k);
    assert Follows(cfg, chain, k - 1);
  }

  /** Exactly when `rollback_to` leaves a replay of the blocks at or below its target: either no indexed block lies
      above the target, or the target is below the persisted tip, the buffer still holds every block above it, and none
      of these logged more than 100000 events. */
  lemma RollbackExactWhen(cfg: Config, n: Node, chain: seq<Block>, target: nat)
    requires NodeOk(cfg, n, chain)
    ensures Rollback(n, cfg, target).trees == Replay(cfg, Below(chain, target)) <==>
            (chain == [] || chain[|chain| - 1].slot <= target || Undoes(cfg, n, chain, target))
  {
    hide ApplyBlock, InfoOf, UndoBlock, WorkOf, LoggedBy, Scanned;
    var low := KeptOf(chain, |chain|, target);
    UnwindReplay(cfg, chain, |chain|, n.buffer, target, n.trees.events);
    PrefixOk(cfg, chain, low);
    ScannedExactWhen(cfg, chain, |chain|, low);
    var k := if Effective(n, target) then Reached(chain, |chain|, |n.buffer|, target) else |chain|;
    var rest := if Effective(n, target) then Scanned(chain, |chain|, k, n.trees.events) else n.trees.events;
    assert Rollback(n, cfg, target).trees == ReplayTo(cfg, chain, k).(events := rest);
    if low < k {
      PrefixesDiffer(cfg, chain, low, k);
    }
  }

  /** While only blocks of epoch 0 have been processed no tip is persisted, so no rollback does anything. */
  lemma {:induction false} EpochZeroNeverRollsBack(cfg: Config, steps: seq<Step>)
    requires forall i | 0 <= i < |steps| :: steps[i].Process? ==> steps[i].block.slot < SLOTS_PER_EPOCH
    ensures var n := Run(cfg, steps).0;
            n.tips == map[] && n.currentEpoch == 0 && forall target :: Rollback(n, cfg, target) == n
  {
    hide ApplyBlock, InfoOf, UndoBlock, WorkOf, Survivors, PushBounded;
    if steps != [] {
      var last := steps[|steps| - 1];
      EpochZeroNeverRollsBack(cfg, steps[..|steps| - 1]);
      assert last.Process? ==> SlotToEpoch(last.block.slot) == 0;
    }
  }

  /** A concrete rollback in epoch 0: the block above the target stays indexed. */
  lemma FirstEpochRollbackKeepsBlock(cfg: Config)
    ensures var b := Block(5, "aa", None, []);
            var n := Run(cfg, [Process(b, None), RollBack(3)]).0;
            && Below([b], 3) == []
            && "aa" in n.trees.blocks
            && n.trees != Replay(cfg, Below([b], 3))
  {
    var b := Block(5, "aa", None, []);
    var steps := [Process(b, None), RollBack(3)];
    assert steps[..1] == [Process(b, None)] && steps[..1][..0] == [];
    var n := Run(cfg, steps[..1]).0;
    assert Run(cfg, []) == (INITIAL, []);
    assert n == Forward(INITIAL, cfg, b, None);
    EpochZeroNeverRollsBack(cfg, steps[..1]);
    assert Run(cfg, steps).0 == n;
    assert KeptOf([b], 1, 3) == 0;
  }

  // ---- Where to resume -----------------------------------------------------------------------

  /** Every wallet's tip is the chain tip, or neither is there. */
  ghost predicate TipsAgree(cfg: Config, tips: map<string, ChainTip>) {
    forall i | 0 <= i < |cfg.walletIds| :: TipAgrees(tips, WalletTipKey(cfg.walletIds[i]))
  }

  predicate TipAgrees(tips: map<string, ChainTip>, key: string) {
    if TIP_KEY in tips then key in tips && tips[key] == tips[TIP_KEY] else key !in tips
  }

  lemma {:induction false} SaveWalletTipsWrites(tips: map<string, ChainTip>, ids: seq<string>, tip: ChainTip)
    ensures var saved := SaveWalletTips(tips, ids, tip);
            && (TIP_KEY in tips ==> TIP_KEY in saved && saved[TIP_KEY] == tips[TIP_KEY])
            && forall i | 0 <= i < |ids| :: WalletTipKey(ids[i]) in saved && saved[WalletTipKey(ids[i])] == tip
  {
    if ids != [] {
      var front := ids[..|ids| - 1];
      SaveWalletTipsWrites(tips, front, tip);
      assert WalletTipKey(ids[|ids| - 1])[0] != TIP_KEY[0];
      assert forall i | 0 <= i < |front| :: front[i] == ids[i];
    }
  }

  lemma SavedTipsAgree(cfg: Config, tips: map<string, ChainTip>, tip: ChainTip)
    ensures TipsAgree(cfg, SaveTips(tips, cfg.walletIds, tip))
  {
    hide SaveWalletTips, WalletTipKey;
    SaveWalletTipsWrites(tips[TIP_KEY := tip], cfg.walletIds, tip);
  }

  /** In every run, admissible or not, the wallets' tips agree with the chain tip. */
  lemma {:induction false} ReachableTipsAgree(cfg: Config, steps: seq<Step>)
    ensures TipsAgree(cfg, Run(cfg, steps).0.tips)
  {
    hide ApplyBlock, InfoOf, UndoBlock, Survivors, PushBounded, SaveTips, TipsAgree, Unwind;
    if steps == [] {
      NoTipsAgree(cfg);
    } else {
      var front := steps[..|steps| - 1];
      var n := Run(cfg, front).0;
      ReachableTipsAgree(cfg, front);
      match steps[|steps| - 1] {
        case Process(b, nodeTip) =>
          var buffer := PushBounded(n.buffer, InfoOf(n.trees, cfg, b), cfg.bufferSize);
          if buffer != [] {
            var last := buffer[|buffer| - 1];
            SavedTipsAgree(cfg, n.tips, ChainTip(last.slot, last.blockHash, last.timestamp));
          }
        case RollBack(target) =>
          SavedTipsAgree(cfg, n.tips, ChainTip(target, "", 0));
      }
    }
  }

  lemma NoTipsAgree(cfg: Config)
    ensures TipsAgree(cfg, map[])
  {
  }

  /** So in every reachable state the sync loop resumes at the chain tip, however many wallets there are. */
  lemma ReachableResumesAtChainTip(cfg: Config, steps: seq<Step>, r: Option<ChainTip>)
    requires ResumesAt(Run(cfg, steps).0.tips, cfg.walletIds, r)
    ensures var tips := Run(cfg, steps).0.tips; r == if TIP_KEY in tips then Some(tips[TIP_KEY]) else None
  {
    hide Run, WalletTipKey;
    ReachableTipsAgree(cfg, steps);
    var tips, ids := Run(cfg, steps).0.tips, cfg.walletIds;
    if ids != [] {
      assert TipAgrees(tips, WalletTipKey(ids[0]));
    }
  }
}
