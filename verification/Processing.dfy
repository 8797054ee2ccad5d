/** Block processing and its undo as functions on the indexer's trees. Folds recurse on the last
    element, so that a loop over the same sequence advances them one element at a time. */
module Processing {
  import opened Text
  import opened Ledger
  import opened Index

  datatype Config = Config(filter: WalletFilter, systemStart: nat, bufferSize: nat, walletIds: seq<string>)

  /** Rollback deletes the events of a slot up to this index. */
  const MAX_EVENTS: nat := 100000

  /** The trees in the middle of a block, with the undo record collected so far. */
  datatype Work = Work(trees: Trees, created: seq<string>, spent: seq<SpentRecord>, recorded: seq<string>)

  function SpendOf(cfg: Config, b: Block, j: nat): SpendEvent
    requires j < |b.txs|
  {
    SpendEvent(b.slot, b.hash, j, b.txs[j].hash, SlotTime(cfg.systemStart, b.slot))
  }

  function NewUtxo(cfg: Config, b: Block, j: nat, i: nat): UtxoData
    requires j < |b.txs| && i < |b.txs[j].outputs|
  {
    var o := b.txs[j].outputs[i];
    UtxoData(b.txs[j].hash, i, o.address, o.lovelace, b.slot, b.hash, j, SlotTime(cfg.systemStart, b.slot),
             o.assets, o.datumHash, o.datum)
  }

  /** `process_input`: an input that spends nothing indexed is ignored. */
  function SpendInput(w: Work, input: OutRef, spend: SpendEvent): Work {
    var key := UtxoKey(input.txHash, input.index);
    if key !in w.trees.utxos then w else
      var t := RemoveUtxo(w.trees, key);
      Work(t.(spent := t.spent[key := spend]),
           w.created,
           w.spent + [SpentRecord(key, w.trees.utxos[key], spend)],
           w.recorded + [key])
  }

  function SpendInputs(w: Work, inputs: seq<OutRef>, spend: SpendEvent): Work {
    if inputs == [] then w
    else SpendInput(SpendInputs(w, inputs[..|inputs| - 1], spend), inputs[|inputs| - 1], spend)
  }

  /** `process_output`: an output the filter does not track is skipped. */
  function CreateOutput(w: Work, cfg: Config, b: Block, j: nat, i: nat): Work
    requires j < |b.txs| && i < |b.txs[j].outputs|
  {
    if !cfg.filter.Tracks(b.txs[j].outputs[i].address) then w else
      var key := UtxoKey(b.txs[j].hash, i);
      w.(trees := AddUtxo(w.trees, key, NewUtxo(cfg, b, j, i)), created := w.created + [key])
  }

  function CreateOutputs(w: Work, cfg: Config, b: Block, j: nat, n: nat): Work
    requires j < |b.txs| && n <= |b.txs[j].outputs|
  {
    if n == 0 then w else CreateOutput(CreateOutputs(w, cfg, b, j, n - 1), cfg, b, j, n - 1)
  }

  /** `process_transaction`: all inputs, then all outputs. */
  function ProcessTx(w: Work, cfg: Config, b: Block, j: nat): Work
    requires j < |b.txs|
  {
    CreateOutputs(SpendInputs(w, b.txs[j].inputs, SpendOf(cfg, b, j)), cfg, b, j, |b.txs[j].outputs|)
  }

  function ProcessTxs(w: Work, cfg: Config, b: Block, n: nat): Work
    requires n <= |b.txs|
  {
    if n == 0 then w else ProcessTx(ProcessTxs(w, cfg, b, n - 1), cfg, b, n - 1)
  }

  /** Created outputs still unspent at the end of the block, in creation order. */
  function CreatedEvents(utxos: map<string, UtxoData>, created: seq<string>): (r: seq<BlockEvent>)
    ensures |r| <= |created|
  {
    if created == [] then [] else
      var key := created[|created| - 1];
      var before := CreatedEvents(utxos, created[..|created| - 1]);
      if key in utxos then before + [Created(key, utxos[key])] else before
  }

  function SpentEvents(spent: seq<SpentRecord>): (r: seq<BlockEvent>)
    ensures |r| == |spent|
  {
    if spent == [] then [] else
      var last := spent[|spent| - 1];
      SpentEvents(spent[..|spent| - 1]) + [Spent(last.key, last.data, last.spend)]
  }

  /** The event log of a block: surviving created outputs, then spends. */
  function BlockEvents(w: Work): seq<BlockEvent> {
    CreatedEvents(w.trees.utxos, w.created) + SpentEvents(w.spent)
  }

  function WriteEvents(events: map<string, BlockEvent>, slot: nat, list: seq<BlockEvent>): map<string, BlockEvent> {
    if list == [] then events
    else WriteEvents(events, slot, list[..|list| - 1])[EventKey(slot, |list| - 1) := list[|list| - 1]]
  }

  function Start(t: Trees): Work {
    Work(t, [], [], [])
  }

  /** The state after the last transaction of a block, before its events are written. */
  function WorkOf(t: Trees, cfg: Config, b: Block): Work {
    ProcessTxs(Start(t), cfg, b, |b.txs|)
  }

  function InfoOf(t: Trees, cfg: Config, b: Block): RollbackInfo {
    var w := WorkOf(t, cfg, b);
    RollbackInfo(b.slot, b.hash, SlotTime(cfg.systemStart, b.slot), w.created, w.spent, w.recorded)
  }

  /** The effect of `process_block` on the trees. */
  function ApplyBlock(t: Trees, cfg: Config, b: Block): Trees {
    var w := WorkOf(t, cfg, b);
    w.trees.(events := WriteEvents(w.trees.events, b.slot, BlockEvents(w)),
             blocks := w.trees.blocks[b.hash := BlockMeta(b.slot, SlotTime(cfg.systemStart, b.slot), b.prev)])
  }

  function RestoreSpent(t: Trees, spent: seq<SpentRecord>): Trees {
    if spent == [] then t else
      var last := spent[|spent| - 1];
      AddUtxo(RestoreSpent(t, spent[..|spent| - 1]), last.key, last.data)
  }

  function KeySet(keys: seq<string>): set<string> {
    set k | k in keys
  }

  function DeleteEvents(events: map<string, BlockEvent>, slot: nat, from: nat): map<string, BlockEvent>
    decreases MAX_EVENTS - from
  {
    if from < MAX_EVENTS && EventKey(slot, from) in events then
      DeleteEvents(events - {EventKey(slot, from)}, slot, from + 1)
    else events
  }

  function DeleteCreated(t: Trees, created: seq<string>): Trees {
    if created == [] then t
    else RemoveUtxo(DeleteCreated(t, created[..|created| - 1]), created[|created| - 1])
  }

  /** The effect of `rollback_block` on the trees. */
  function UndoBlock(t: Trees, info: RollbackInfo): Trees {
    var t1 := RestoreSpent(t.(blocks := t.blocks - {info.blockHash}), info.utxosSpent);
    var t2 := t1.(spent := t1.spent - KeySet(info.spentRecorded),
                  events := DeleteEvents(t1.events, info.slot, 0));
    DeleteCreated(t2, info.utxosCreated)
  }
}
