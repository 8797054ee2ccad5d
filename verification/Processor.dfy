/** The block processor as the source writes it: loops that send storage commands and collect an
    undo record. Each method is tied to its function of the old state. */
module Processor {
  import opened Wrappers
  import opened Text
  import opened Ledger
  import opened Index
  import opened Processing
  import opened Storage
  import opened Machine

  /** No output of this transaction from the given index on is live. */
  ghost predicate Unborn(t: Trees, h: Hex, from: nat) {
    forall i: nat | from <= i :: UtxoKey(h, i) !in t.utxos
  }

  /** The outputs of a transaction pay where its hash says. */
  ghost predicate Announces(origin: string -> Hex, tx: Tx) {
    forall i | 0 <= i < |tx.outputs| :: tx.outputs[i].address == origin(UtxoKey(tx.hash, i))
  }

  /** Every consumed UTxO of an undo record is absent, and listed once. */
  ghost predicate Restorable(origin: string -> Hex, t: Trees, spent: seq<SpentRecord>) {
    && (forall i | 0 <= i < |spent| :: spent[i].data.address == origin(spent[i].key))
    && (forall i, j | 0 <= i < j < |spent| :: spent[i].key != spent[j].key)
    && (forall i | 0 <= i < |spent| :: spent[i].key !in t.utxos)
  }

  /** Each undo record the unwinding loop pops can be restored when its turn comes. */
  ghost predicate UnwindSafe(origin: string -> Hex, trees: Trees, buffer: seq<RollbackInfo>, target: nat)
    decreases |buffer|
  {
    buffer == [] || buffer[|buffer| - 1].slot <= target ||
    (Restorable(origin, trees, buffer[|buffer| - 1].utxosSpent) &&
     UnwindSafe(origin, UndoBlock(trees, buffer[|buffer| - 1]), buffer[..|buffer| - 1], target))
  }

  lemma {:induction false} SpendInputsShrinks(w: Work, inputs: seq<OutRef>, spend: SpendEvent)
    ensures SpendInputs(w, inputs, spend).trees.utxos.Keys <= w.trees.utxos.Keys
  {
    if inputs != [] {
      SpendInputsShrinks(w, inputs[..|inputs| - 1], spend);
    }
  }

  lemma {:induction false} CreateOutputsAdds(w: Work, cfg: Config, b: Block, j: nat, n: nat, h: Hex)
    requires j < |b.txs| && n <= |b.txs[j].outputs|
    requires h != b.txs[j].hash && Unborn(w.trees, h, 0)
    ensures Unborn(CreateOutputs(w, cfg, b, j, n).trees, h, 0)
  {
    if n > 0 {
      CreateOutputsAdds(w, cfg, b, j, n - 1, h);
      forall i: nat ensures UtxoKey(h, i) != UtxoKey(b.txs[j].hash, n - 1) {
        if UtxoKey(h, i) == UtxoKey(b.txs[j].hash, n - 1) { UtxoKeyInjective(h, i, b.txs[j].hash, n - 1); }
      }
    }
  }

  /** A transaction brings no key of another transaction to life. */
  lemma TxKeepsUnborn(w: Work, cfg: Config, b: Block, j: nat, h: Hex)
    requires j < |b.txs| && h != b.txs[j].hash && Unborn(w.trees, h, 0)
    ensures Unborn(ProcessTx(w, cfg, b, j).trees, h, 0)
  {
    SpendInputsShrinks(w, b.txs[j].inputs, SpendOf(cfg, b, j));
    CreateOutputsAdds(SpendInputs(w, b.txs[j].inputs, SpendOf(cfg, b, j)), cfg, b, j, |b.txs[j].outputs|, h);
  }

  /** The transactions of a block are distinct, and none of their outputs is live yet. */
  ghost predicate Creatable(origin: string -> Hex, t: Trees, b: Block) {
    && (forall i, j | 0 <= i < j < |b.txs| :: b.txs[i].hash != b.txs[j].hash)
    && (forall j | 0 <= j < |b.txs| :: Unborn(t, b.txs[j].hash, 0) && Announces(origin, b.txs[j]))
  }

  lemma NoEvents(t: Trees, slot: nat)
    ensures CreatedEvents(t.utxos, []) == [] && WriteEvents(t.events, slot, []) == t.events
  {
  }

  lemma CreatedEventsSnoc(utxos: map<string, UtxoData>, created: seq<string>, k: nat)
    requires k < |created|
    ensures CreatedEvents(utxos, created[..k + 1]) ==
            if created[k] in utxos then CreatedEvents(utxos, created[..k]) + [Created(created[k], utxos[created[k]])]
            else CreatedEvents(utxos, created[..k])
  {
    assert created[..k + 1][..k] == created[..k];
  }

  lemma {:induction false} SpentEventsAt(spent: seq<SpentRecord>, k: nat)
    requires k < |spent|
    ensures SpentEvents(spent)[k] == Spent(spent[k].key, spent[k].data, spent[k].spend)
  {
    if k < |spent| - 1 {
      SpentEventsAt(spent[..|spent| - 1], k);
    }
  }

  lemma WriteEventsPrefix(events: map<string, BlockEvent>, slot: nat, list: seq<BlockEvent>, n: nat)
    requires n < |list|
    ensures WriteEvents(events, slot, list[..n + 1])
            == WriteEvents(events, slot, list[..n])[EventKey(slot, n) := list[n]]
  {
    assert list[..n + 1][..n] == list[..n];
  }

  lemma WriteEventsSnoc(events: map<string, BlockEvent>, slot: nat, list: seq<BlockEvent>, e: BlockEvent)
    ensures WriteEvents(events, slot, list + [e]) == WriteEvents(events, slot, list)[EventKey(slot, |list|) := e]
  {
    assert (list + [e])[..|list|] == list;
  }

  class BlockProcessor {
    const storage: NetworkStorage
    const cfg: Config
    var currentSlot: nat
    var currentEpoch: nat
    var blocksProcessed: nat
    var chainTipSlot: nat
    var rollbackBuffer: seq<RollbackInfo>

    ghost function View(): Node
      reads this, storage
    {
      Node(storage.View(), storage.chainTipTree, currentSlot, currentEpoch, blocksProcessed, chainTipSlot,
           rollbackBuffer)
    }

    ghost function Progress(info: RollbackInfo): Work
      reads this, storage
    {
      Work(storage.View(), info.utxosCreated, info.utxosSpent, info.spentRecorded)
    }

    /** Resume from the persisted tip. */
    constructor (storage: NetworkStorage, cfg: Config)
      ensures this.storage == storage && this.cfg == cfg
      ensures currentSlot == chainTipSlot == TipSlot(storage.chainTipTree)
      ensures currentEpoch == blocksProcessed == 0 && rollbackBuffer == []
    {
      this.storage, this.cfg := storage, cfg;
      currentEpoch, blocksProcessed, rollbackBuffer := 0, 0, [];
      currentSlot, chainTipSlot := 0, 0;
      new;
      var tip := storage.GetChainTip();
      currentSlot := if tip.Some? then tip.value.slot else 0;
      chainTipSlot := currentSlot;
    }

    /** Subtract a UTxO from its balance and take it out of the address index. */
    method Debit(key: string, data: UtxoData)
      modifies storage
      ensures storage.View() == old(storage.View()).(
                balances := SetBalance(old(storage.View()).balances, data.address,
                                       SaturatingSub(GetBalance(old(storage.View()).balances, data.address),
                                                     data.amount)),
                addressIndex := old(storage.View()).addressIndex - {IndexKey(data.address, key)})
      ensures storage.chainTipTree == old(storage.chainTipTree)
      ensures storage.Extends(old(storage.history))
      ensures Sound(storage.origin, old(storage.View())) ==>
                storage.SoundSince(|old(storage.history)|) && Sound(storage.origin, storage.View())
    {
      hide Sound;
      var balance := storage.ReadBalance(data.address);
      storage.UpdateBalance(data.address, SaturatingSub(balance, data.amount));
      storage.RemoveUtxoFromAddressIndex(data.address, key);
    }

    /** Add a stored UTxO to its balance and to the address index. */
    method Credit(key: string, data: UtxoData)
      requires key in storage.View().utxos && storage.View().utxos[key] == data
      modifies storage
      ensures storage.View() == old(storage.View()).(
                balances := SetBalance(old(storage.View()).balances, data.address,
                                       WrappingAdd(GetBalance(old(storage.View()).balances, data.address),
                                                   data.amount)),
                addressIndex := old(storage.View()).addressIndex + {IndexKey(data.address, key)})
      ensures storage.chainTipTree == old(storage.chainTipTree)
      ensures storage.Extends(old(storage.history))
      ensures Sound(storage.origin, old(storage.View())) ==>
                storage.SoundSince(|old(storage.history)|) && Sound(storage.origin, storage.View())
    {
      hide Sound;
      var balance := storage.ReadBalance(data.address);
      storage.UpdateBalance(data.address, WrappingAdd(balance, data.amount));
      ghost var before := storage.View();
      storage.AddUtxoToAddressIndex(data.address, key);
      if Sound(storage.origin, before) {
        IndexingKeepsSound(storage.origin, before, key);
      }
    }

    method ProcessInput(input: OutRef, spend: SpendEvent, info: RollbackInfo) returns (info': RollbackInfo)
      modifies storage
      ensures Progress(info') == SpendInput(old(Progress(info)), input, spend)
      ensures info' == info.(utxosSpent := info'.utxosSpent, spentRecorded := info'.spentRecorded)
      ensures storage.chainTipTree == old(storage.chainTipTree)
      ensures storage.Extends(old(storage.history))
      ensures Sound(storage.origin, old(storage.View())) ==>
                storage.SoundSince(|old(storage.history)|) && Sound(storage.origin, storage.View())
    {
      hide Sound;
      info' := info;
      var key := UtxoKey(input.txHash, input.index);
      var found := storage.GetUtxo(key);
      if found.Some? {
        var data := found.value;
        Debit(key, data);
        storage.InsertSpentUtxo(key, spend);
        info' := info.(utxosSpent := info.utxosSpent + [SpentRecord(key, data, spend)],
                       spentRecorded := info.spentRecorded + [key]);
        ghost var before := storage.View();
        assert Sound(storage.origin, old(storage.View())) ==> Sound(storage.origin, before);
        storage.DeleteUtxo(key);
        if Sound(storage.origin, old(storage.View())) {
          DeleteKeepsSound(storage.origin, before, key);
        }
      }
    }

    method ProcessOutput(b: Block, j: nat, i: nat, info: RollbackInfo) returns (info': RollbackInfo)
      requires j < |b.txs| && i < |b.txs[j].outputs|
      modifies storage
      ensures Progress(info') == CreateOutput(old(Progress(info)), cfg, b, j, i)
      ensures info' == info.(utxosCreated := info'.utxosCreated)
      ensures storage.chainTipTree == old(storage.chainTipTree)
      ensures storage.Extends(old(storage.history))
      ensures Sound(storage.origin, old(storage.View())) && Unborn(old(storage.View()), b.txs[j].hash, i)
              && b.txs[j].outputs[i].address == storage.origin(UtxoKey(b.txs[j].hash, i)) ==>
                && storage.SoundSince(|old(storage.history)|)
                && Sound(storage.origin, storage.View())
                && Unborn(storage.View(), b.txs[j].hash, i + 1)
    {
      hide Sound;
      info' := info;
      var output := b.txs[j].outputs[i];
      if !cfg.filter.IsOurAddress(output.address) && cfg.filter.paymentKeys != {} {
        return;
      }
      var key, data := UtxoKey(b.txs[j].hash, i), NewUtxo(cfg, b, j, i);
      ghost var before := storage.View();
      storage.InsertUtxo(key, data);
      info' := info.(utxosCreated := info.utxosCreated + [key]);
      if Sound(storage.origin, before) && Unborn(before, b.txs[j].hash, i) && data.address == storage.origin(key) {
        InsertKeepsSound(storage.origin, before, key, data);
      }
      Credit(key, data);
      if Sound(storage.origin, before) && Unborn(before, b.txs[j].hash, i) {
        forall i': nat | i + 1 <= i' ensures UtxoKey(b.txs[j].hash, i') !in storage.View().utxos {
          if UtxoKey(b.txs[j].hash, i') == key { UtxoKeyInjective(b.txs[j].hash, i', b.txs[j].hash, i); }
        }
      }
    }

    method ProcessTransaction(b: Block, j: nat, info: RollbackInfo) returns (info': RollbackInfo)
      requires j < |b.txs|
      modifies storage
      ensures Progress(info') == ProcessTx(old(Progress(info)), cfg, b, j)
      ensures info'.slot == info.slot && info'.blockHash == info.blockHash && info'.timestamp == info.timestamp
      ensures storage.chainTipTree == old(storage.chainTipTree)
      ensures storage.Extends(old(storage.history))
      ensures Sound(storage.origin, old(storage.View())) && Unborn(old(storage.View()), b.txs[j].hash, 0)
              && Announces(storage.origin, b.txs[j]) ==>
                storage.SoundSince(|old(storage.history)|) && Sound(storage.origin, storage.View())
    {
      hide Sound, SpendInput;
      info' := info;
      var tx, spend := b.txs[j], SpendOf(cfg, b, j);
      ghost var w0, h0 := Progress(info), storage.history;
      ghost var safe := Sound(storage.origin, storage.View()) && Unborn(storage.View(), tx.hash, 0)
                && Announces(storage.origin, tx);
      for k := 0 to |tx.inputs|
        invariant Progress(info') == SpendInputs(w0, tx.inputs[..k], spend)
        invariant info'.slot == info.slot && info'.blockHash == info.blockHash && info'.timestamp == info.timestamp
        invariant storage.chainTipTree == old(storage.chainTipTree) && storage.Extends(h0)
        invariant safe ==> storage.SoundSince(|h0|) && Sound(storage.origin, storage.View())
      {
        info' := ProcessInput(tx.inputs[k], spend, info');
        assert tx.inputs[..k + 1][..k] == tx.inputs[..k];
      }
      assert tx.inputs[..|tx.inputs|] == tx.inputs;
      SpendInputsShrinks(w0, tx.inputs, spend);
      ghost var w1 := Progress(info');
      for i := 0 to |tx.outputs|
        invariant Progress(info') == CreateOutputs(w1, cfg, b, j, i)
        invariant info'.slot == info.slot && info'.blockHash == info.blockHash && info'.timestamp == info.timestamp
        invariant storage.chainTipTree == old(storage.chainTipTree) && storage.Extends(h0)
        invariant safe ==>
                    && storage.SoundSince(|h0|)
                    && Sound(storage.origin, storage.View()) && Unborn(storage.View(), tx.hash, i)
      {
        info' := ProcessOutput(b, j, i, info');
      }
    }

    /** Log the created outputs that are still live. */
    method LogCreated(info: RollbackInfo) returns (eventIndex: nat)
      modifies storage
      ensures eventIndex == |CreatedEvents(old(storage.View()).utxos, info.utxosCreated)|
      ensures storage.View() == old(storage.View()).(events :=
                WriteEvents(old(storage.View()).events, info.slot,
                            CreatedEvents(old(storage.View()).utxos, info.utxosCreated)))
      ensures storage.chainTipTree == old(storage.chainTipTree)
      ensures storage.Extends(old(storage.history))
      ensures Sound(storage.origin, old(storage.View())) ==>
                storage.SoundSince(|old(storage.history)|) && Sound(storage.origin, storage.View())
    {
      hide Sound, CreatedEvents, WriteEvents, EventKey;
      ghost var t, h0 := storage.View(), storage.history;
      eventIndex := 0;
      assert info.utxosCreated[..0] == [];
      NoEvents(t, info.slot);
      for k := 0 to |info.utxosCreated|
        invariant eventIndex == |CreatedEvents(t.utxos, info.utxosCreated[..k])|
        invariant storage.View()
                  == t.(events := WriteEvents(t.events, info.slot, CreatedEvents(t.utxos, info.utxosCreated[..k])))
        invariant storage.chainTipTree == old(storage.chainTipTree) && storage.Extends(h0)
        invariant Sound(storage.origin, t) ==> storage.SoundSince(|h0|) && Sound(storage.origin, storage.View())
      {
        var key := info.utxosCreated[k];
        CreatedEventsSnoc(t.utxos, info.utxosCreated, k);
        var data := storage.GetUtxo(key);
        if data.Some? {
          storage.InsertBlockEvent(EventKey(info.slot, eventIndex), Created(key, data.value));
          WriteEventsSnoc(t.events, info.slot, CreatedEvents(t.utxos, info.utxosCreated[..k]),
                          Created(key, data.value));
          eventIndex := eventIndex + 1;
        }
      }
      assert info.utxosCreated[..|info.utxosCreated|] == info.utxosCreated;
    }

    /** Log the spends, after `made` earlier events of the block. */
    method LogSpent(info: RollbackInfo, eventIndex: nat, ghost base: map<string, BlockEvent>,
                    ghost made: seq<BlockEvent>)
      requires eventIndex == |made| && storage.View().events == WriteEvents(base, info.slot, made)
      modifies storage
      ensures storage.View() == old(storage.View()).(events :=
                WriteEvents(base, info.slot, made + SpentEvents(info.utxosSpent)))
      ensures storage.chainTipTree == old(storage.chainTipTree)
      ensures storage.Extends(old(storage.history))
      ensures Sound(storage.origin, old(storage.View())) ==>
                storage.SoundSince(|old(storage.history)|) && Sound(storage.origin, storage.View())
    {
      hide Sound, WriteEvents, EventKey, SpentEvents;
      ghost var t, h0, list := storage.View(), storage.history, made + SpentEvents(info.utxosSpent);
      assert list[..eventIndex] == made;
      for k := 0 to |info.utxosSpent|
        invariant storage.View() == t.(events := WriteEvents(base, info.slot, list[..eventIndex + k]))
        invariant storage.chainTipTree == old(storage.chainTipTree) && storage.Extends(h0)
        invariant Sound(storage.origin, t) ==> storage.SoundSince(|h0|) && Sound(storage.origin, storage.View())
      {
        var r := info.utxosSpent[k];
        SpentEventsAt(info.utxosSpent, k);
        WriteEventsPrefix(base, info.slot, list, eventIndex + k);
        storage.InsertBlockEvent(EventKey(info.slot, eventIndex + k), Spent(r.key, r.data, r.spend));
      }
      assert list[..|list|] == list;
    }

    /** The transaction loop of `process_block`. */
    method ProcessTransactions(b: Block, timestamp: nat) returns (info: RollbackInfo)
      modifies storage
      ensures Progress(info) == WorkOf(old(storage.View()), cfg, b)
      ensures info.slot == b.slot && info.blockHash == b.hash && info.timestamp == timestamp
      ensures storage.chainTipTree == old(storage.chainTipTree)
      ensures storage.Extends(old(storage.history))
      ensures Sound(storage.origin, old(storage.View())) && Creatable(storage.origin, old(storage.View()), b) ==>
                storage.SoundSince(|old(storage.history)|) && Sound(storage.origin, storage.View())
    {
      hide Sound;
      ghost var t0, h0 := storage.View(), storage.history;
      ghost var safe := Sound(storage.origin, t0) && Creatable(storage.origin, t0, b);
      info := RollbackInfo(b.slot, b.hash, timestamp, [], [], []);
      for j := 0 to |b.txs|
        invariant Progress(info) == ProcessTxs(Start(t0), cfg, b, j)
        invariant info.slot == b.slot && info.blockHash == b.hash && info.timestamp == timestamp
        invariant storage.chainTipTree == old(storage.chainTipTree) && storage.Extends(h0)
        invariant safe ==> storage.SoundSince(|h0|) && Sound(storage.origin, storage.View())
        invariant safe ==> forall k | j <= k < |b.txs| :: Unborn(storage.View(), b.txs[k].hash, 0)
      {
        ghost var w := Progress(info);
        info := ProcessTransaction(b, j, info);
        if safe {
          forall k | j + 1 <= k < |b.txs| ensures Unborn(storage.View(), b.txs[k].hash, 0) {
            TxKeepsUnborn(w, cfg, b, j, b.txs[k].hash);
          }
        }
      }
    }

    /** The storage side of `process_block`: transactions, event log, block metadata. */
    method IndexBlock(b: Block) returns (info: RollbackInfo)
      modifies storage
      ensures info == InfoOf(old(storage.View()), cfg, b)
      ensures storage.View() == ApplyBlock(old(storage.View()), cfg, b)
      ensures storage.chainTipTree == old(storage.chainTipTree)
      ensures storage.Extends(old(storage.history))
      ensures Sound(storage.origin, old(storage.View())) && Creatable(storage.origin, old(storage.View()), b) ==>
                storage.SoundSince(|old(storage.history)|) && Sound(storage.origin, storage.View())
    {
      hide Sound;
      var timestamp := SlotTime(cfg.systemStart, b.slot);
      info := ProcessTransactions(b, timestamp);
      ghost var base, made := storage.View().events, CreatedEvents(storage.View().utxos, info.utxosCreated);
      var eventIndex := LogCreated(info);
      LogSpent(info, eventIndex, base, made);
      storage.StoreBlockMetadata(b.hash, BlockMeta(b.slot, timestamp, b.prev));
    }

    method UpdateTipEstimate(slot: nat, nodeTip: Option<nat>)
      modifies this`chainTipSlot
      ensures chainTipSlot == match nodeTip
                              case Some(tip) => tip
                              case None => if slot > old(chainTipSlot) then slot else old(chainTipSlot)
    {
      match nodeTip {
        case Some(tip) => chainTipSlot := tip;
        case None =>
          if slot > chainTipSlot {
            chainTipSlot := slot;
          }
      }
    }

    method PushRollbackInfo(info: RollbackInfo)
      modifies this`rollbackBuffer
      ensures rollbackBuffer == PushBounded(old(rollbackBuffer), info, cfg.bufferSize)
    {
      rollbackBuffer := rollbackBuffer + [info];
      if |rollbackBuffer| > cfg.bufferSize {
        rollbackBuffer := rollbackBuffer[1..];
      }
    }

    method ProcessBlock(b: Block, nodeTip: Option<nat>) returns (accepted: bool)
      modifies this, storage
      ensures accepted == Accepts(old(View()), b)
      ensures View() == Forward(old(View()), cfg, b, nodeTip)
      ensures !accepted ==> storage.history == old(storage.history)
      ensures storage.Extends(old(storage.history))
      ensures Sound(storage.origin, old(storage.View())) && Creatable(storage.origin, old(storage.View()), b) ==>
                storage.SoundSince(|old(storage.history)|) && Sound(storage.origin, storage.View())
    {
      hide ApplyBlock, InfoOf, Sound, Creatable, SaveCurrentTips;
      if b.slot < currentSlot {
        return false;
      }
      var epoch := SlotToEpoch(b.slot);
      var epochBoundary := epoch > currentEpoch;
      if epochBoundary {
        currentEpoch := epoch;
      }
      var info := IndexBlock(b);
      currentSlot := b.slot;
      blocksProcessed := blocksProcessed + 1;
      UpdateTipEstimate(b.slot, nodeTip);
      PushRollbackInfo(info);
      if epochBoundary {
        SaveCurrentTipsNow();
      }
      return true;
    }

    method SaveCurrentTipsNow()
      modifies storage`chainTipTree
      ensures storage.chainTipTree == SaveCurrentTips(old(storage.chainTipTree), cfg.walletIds, rollbackBuffer)
    {
      if rollbackBuffer != [] {
        var last := rollbackBuffer[|rollbackBuffer| - 1];
        StoreTips(ChainTip(last.slot, last.blockHash, last.timestamp));
      }
    }

    method StoreTips(tip: ChainTip)
      modifies storage`chainTipTree
      ensures storage.chainTipTree == SaveTips(old(storage.chainTipTree), cfg.walletIds, tip)
    {
      storage.StoreChainTip(tip);
      ghost var tips := storage.chainTipTree;
      for i := 0 to |cfg.walletIds|
        invariant storage.chainTipTree == SaveWalletTips(tips, cfg.walletIds[..i], tip)
      {
        storage.StoreWalletTip(cfg.walletIds[i], tip);
        assert cfg.walletIds[..i + 1][..i] == cfg.walletIds[..i];
      }
      assert cfg.walletIds[..|cfg.walletIds|] == cfg.walletIds;
    }

    method RestoreUtxo(r: SpentRecord)
      modifies storage
      ensures storage.View() == AddUtxo(old(storage.View()), r.key, r.data)
      ensures storage.chainTipTree == old(storage.chainTipTree)
      ensures storage.Extends(old(storage.history))
      ensures Sound(storage.origin, old(storage.View())) && r.key !in old(storage.View()).utxos
              && r.data.address == storage.origin(r.key) ==>
                storage.SoundSince(|old(storage.history)|) && Sound(storage.origin, storage.View())
    {
      hide Sound;
      ghost var before := storage.View();
      storage.InsertUtxo(r.key, r.data);
      if Sound(storage.origin, before) && r.key !in before.utxos && r.data.address == storage.origin(r.key) {
        InsertKeepsSound(storage.origin, before, r.key, r.data);
      }
      Credit(r.key, r.data);
    }

    /** Re-insert the consumed UTxOs of an undo record. */
    method RestoreSpentUtxos(info: RollbackInfo)
      modifies storage
      ensures storage.View() == RestoreSpent(old(storage.View()), info.utxosSpent)
      ensures storage.chainTipTree == old(storage.chainTipTree)
      ensures storage.Extends(old(storage.history))
      ensures Sound(storage.origin, old(storage.View()))
              && Restorable(storage.origin, old(storage.View()), info.utxosSpent) ==>
                storage.SoundSince(|old(storage.history)|) && Sound(storage.origin, storage.View())
    {
      hide Sound;
      ghost var t, h0 := storage.View(), storage.history;
      ghost var safe := Sound(storage.origin, t) && Restorable(storage.origin, t, info.utxosSpent);
      for k := 0 to |info.utxosSpent|
        invariant storage.View() == RestoreSpent(t, info.utxosSpent[..k])
        invariant storage.chainTipTree == old(storage.chainTipTree) && storage.Extends(h0)
        invariant safe ==> storage.SoundSince(|h0|) && Sound(storage.origin, storage.View())
        invariant safe ==> forall i | k <= i < |info.utxosSpent| :: info.utxosSpent[i].key !in storage.View().utxos
      {
        RestoreUtxo(info.utxosSpent[k]);
        assert info.utxosSpent[..k + 1][..k] == info.utxosSpent[..k];
      }
      assert info.utxosSpent[..|info.utxosSpent|] == info.utxosSpent;
    }

    method ForgetSpends(info: RollbackInfo)
      modifies storage
      ensures storage.View() == old(storage.View()).(spent := old(storage.View()).spent - KeySet(info.spentRecorded))
      ensures storage.chainTipTree == old(storage.chainTipTree)
      ensures storage.Extends(old(storage.history))
      ensures Sound(storage.origin, old(storage.View())) ==>
                storage.SoundSince(|old(storage.history)|) && Sound(storage.origin, storage.View())
    {
      hide Sound;
      ghost var t, h0 := storage.View(), storage.history;
      assert t.spent - KeySet([]) == t.spent;
      for k := 0 to |info.spentRecorded|
        invariant storage.View() == t.(spent := t.spent - KeySet(info.spentRecorded[..k]))
        invariant storage.chainTipTree == old(storage.chainTipTree) && storage.Extends(h0)
        invariant Sound(storage.origin, t) ==> storage.SoundSince(|h0|) && Sound(storage.origin, storage.View())
      {
        storage.DeleteSpentUtxo(info.spentRecorded[k]);
        assert KeySet(info.spentRecorded[..k + 1]) == KeySet(info.spentRecorded[..k]) + {info.spentRecorded[k]};
        assert t.spent - KeySet(info.spentRecorded[..k]) - {info.spentRecorded[k]}
            == t.spent - KeySet(info.spentRecorded[..k + 1]);
      }
      assert info.spentRecorded[..|info.spentRecorded|] == info.spentRecorded;
    }

    /** Delete event 0, 1, 2, ... of a slot until one is missing. */
    method DeleteSlotEvents(slot: nat)
      modifies storage
      ensures storage.View() == old(storage.View()).(events := DeleteEvents(old(storage.View()).events, slot, 0))
      ensures storage.chainTipTree == old(storage.chainTipTree)
      ensures storage.Extends(old(storage.history))
      ensures Sound(storage.origin, old(storage.View())) ==>
                storage.SoundSince(|old(storage.history)|) && Sound(storage.origin, storage.View())
    {
      hide Sound;
      ghost var t, h0 := storage.View(), storage.history;
      for i := 0 to MAX_EVENTS
        invariant storage.View() == t.(events := storage.View().events)
        invariant DeleteEvents(storage.View().events, slot, i) == DeleteEvents(t.events, slot, 0)
        invariant storage.chainTipTree == old(storage.chainTipTree) && storage.Extends(h0)
        invariant Sound(storage.origin, t) ==> storage.SoundSince(|h0|) && Sound(storage.origin, storage.View())
      {
        var event := storage.GetBlockEvent(EventKey(slot, i));
        if event.Some? {
          storage.DeleteBlockEvent(EventKey(slot, i));
        } else {
          break;
        }
      }
    }

    method DeleteCreatedUtxo(key: string)
      modifies storage
      ensures storage.View() == RemoveUtxo(old(storage.View()), key)
      ensures storage.chainTipTree == old(storage.chainTipTree)
      ensures storage.Extends(old(storage.history))
      ensures Sound(storage.origin, old(storage.View())) ==>
                storage.SoundSince(|old(storage.history)|) && Sound(storage.origin, storage.View())
    {
      hide Sound;
      ghost var t := storage.View();
      var found := storage.GetUtxo(key);
      if found.Some? {
        var data := found.value;
        Debit(key, data);
      }
      ghost var before := storage.View();
      storage.DeleteUtxo(key);
      if Sound(storage.origin, t) {
        DeleteKeepsSound(storage.origin, before, key);
      }
    }

    /** Remove the created UTxOs of an undo record; a key that is not live is skipped. */
    method DeleteCreatedUtxos(info: RollbackInfo)
      modifies storage
      ensures storage.View() == DeleteCreated(old(storage.View()), info.utxosCreated)
      ensures storage.chainTipTree == old(storage.chainTipTree)
      ensures storage.Extends(old(storage.history))
      ensures Sound(storage.origin, old(storage.View())) ==>
                storage.SoundSince(|old(storage.history)|) && Sound(storage.origin, storage.View())
    {
      hide Sound;
      ghost var t, h0 := storage.View(), storage.history;
      for k := 0 to |info.utxosCreated|
        invariant storage.View() == DeleteCreated(t, info.utxosCreated[..k])
        invariant storage.chainTipTree == old(storage.chainTipTree) && storage.Extends(h0)
        invariant Sound(storage.origin, t) ==> storage.SoundSince(|h0|) && Sound(storage.origin, storage.View())
      {
        DeleteCreatedUtxo(info.utxosCreated[k]);
        assert info.utxosCreated[..k + 1][..k] == info.utxosCreated[..k];
      }
      assert info.utxosCreated[..|info.utxosCreated|] == info.utxosCreated;
    }

    method RollbackBlock(info: RollbackInfo)
      modifies storage
      ensures storage.View() == UndoBlock(old(storage.View()), info)
      ensures storage.chainTipTree == old(storage.chainTipTree)
      ensures storage.Extends(old(storage.history))
      ensures Sound(storage.origin, old(storage.View()))
              && Restorable(storage.origin, old(storage.View()), info.utxosSpent) ==>
                storage.SoundSince(|old(storage.history)|) && Sound(storage.origin, storage.View())
    {
      hide Sound;
      storage.DeleteBlockMetadata(info.blockHash);
      RestoreSpentUtxos(info);
      ForgetSpends(info);
      DeleteSlotEvents(info.slot);
      DeleteCreatedUtxos(info);
    }

    /** The loop of `rollback_to`. */
    method UnwindBuffer(target: nat) returns (rolledBack: nat)
      modifies this`rollbackBuffer, storage
      ensures (storage.View(), rollbackBuffer) == Unwind(old(storage.View()), old(rollbackBuffer), target)
      ensures rolledBack == |old(rollbackBuffer)| - |rollbackBuffer|
      ensures storage.chainTipTree == old(storage.chainTipTree)
      ensures storage.Extends(old(storage.history))
      ensures Sound(storage.origin, old(storage.View()))
              && UnwindSafe(storage.origin, old(storage.View()), old(rollbackBuffer), target) ==>
                storage.SoundSince(|old(storage.history)|) && Sound(storage.origin, storage.View())
    {
      hide Sound;
      rolledBack := 0;
      ghost var t, h0 := storage.View(), storage.history;
      ghost var safe := Sound(storage.origin, t) && UnwindSafe(storage.origin, t, rollbackBuffer, target);
      while rollbackBuffer != [] && rollbackBuffer[|rollbackBuffer| - 1].slot > target
        invariant Unwind(storage.View(), rollbackBuffer, target) == Unwind(t, old(rollbackBuffer), target)
        invariant rolledBack == |old(rollbackBuffer)| - |rollbackBuffer|
        invariant storage.chainTipTree == old(storage.chainTipTree) && storage.Extends(h0)
        invariant safe ==> storage.SoundSince(|h0|) && Sound(storage.origin, storage.View())
                           && UnwindSafe(storage.origin, storage.View(), rollbackBuffer, target)
        decreases |rollbackBuffer|
      {
        var info := rollbackBuffer[|rollbackBuffer| - 1];
        rollbackBuffer := rollbackBuffer[..|rollbackBuffer| - 1];
        RollbackBlock(info);
        rolledBack := rolledBack + 1;
      }
    }

    method RollbackTo(target: nat) returns (rolledBack: nat)
      modifies this, storage
      ensures View() == Rollback(old(View()), cfg, target)
      ensures rolledBack == RollbackCount(old(View()), target)
      ensures storage.Extends(old(storage.history))
      ensures Sound(storage.origin, old(storage.View()))
              && UnwindSafe(storage.origin, old(storage.View()), old(rollbackBuffer), target) ==>
                storage.SoundSince(|old(storage.history)|) && Sound(storage.origin, storage.View())
    {
      hide Unwind, SaveTips, UnwindSafe, Sound;
      var tip := storage.GetChainTip();
      var persisted := if tip.Some? then tip.value.slot else 0;
      if target >= persisted {
        return 0;
      }
      rolledBack := UnwindBuffer(target);
      StoreTips(ChainTip(target, "", 0));
      currentSlot := target;
      if rolledBack == 0 && persisted > target {
        rolledBack := persisted - target;
      }
    }
  }
}
