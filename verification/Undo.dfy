/** `rollback_block` is the exact inverse of `process_block`, and both keep balances and address
    index exact. */
module Undo {
  import opened Wrappers
  import opened Text
  import opened Ledger
  import opened Index
  import opened Holdings
  import opened Processing

  // ---- What a block must satisfy -------------------------------------------------------------

  /** Lovelace of the tracked outputs among the first n of a transaction. */
  function TxValue(cfg: Config, outputs: seq<Output>, n: nat): nat
    requires n <= |outputs|
  {
    if n == 0 then 0 else
      TxValue(cfg, outputs, n - 1) + if cfg.filter.Tracks(outputs[n - 1].address) then outputs[n - 1].lovelace else 0
  }

  /** Lovelace of all tracked outputs in the first n transactions of a block. */
  function BlockValue(cfg: Config, b: Block, n: nat): nat
    requires n <= |b.txs|
  {
    if n == 0 then 0 else BlockValue(cfg, b, n - 1) + TxValue(cfg, b.txs[n - 1].outputs, |b.txs[n - 1].outputs|)
  }

  /** Inputs and outputs of the first n transactions. */
  function BlockSize(b: Block, n: nat): nat
    requires n <= |b.txs|
  {
    if n == 0 then 0 else BlockSize(b, n - 1) + |b.txs[n - 1].inputs| + |b.txs[n - 1].outputs|
  }

  ghost predicate DistinctTxs(b: Block) {
    forall i, j | 0 <= i < j < |b.txs| :: b.txs[i].hash != b.txs[j].hash
  }

  ghost predicate FreshTx(t: Trees, h: Hex) {
    forall i: nat :: UtxoKey(h, i) !in t.utxos && UtxoKey(h, i) !in t.spent
  }

  /** Created keys are fresh, slot and hash are new, and every u64 sum made while the block is
      processed or undone stays in range. */
  ghost predicate BlockFits(t: Trees, cfg: Config, b: Block) {
    && DistinctTxs(b)
    && (forall j | 0 <= j < |b.txs| :: FreshTx(t, b.txs[j].hash))
    && b.hash !in t.blocks
    && (forall i: nat :: EventKey(b.slot, i) !in t.events)
    && Total(t.utxos) + BlockValue(cfg, b, |b.txs|) <= U64_MAX
  }

  /** Holds of the trees between any two operations. */
  ghost predicate Quiescent(t: Trees) {
    && Consistent(t)
    && t.utxos.Keys !! t.spent.Keys
  }

  // ---- The invariant of a block in progress --------------------------------------------------

  function Records(spent: seq<SpentRecord>): map<string, UtxoData> {
    if spent == [] then map[] else Records(spent[..|spent| - 1])[spent[|spent| - 1].key := spent[|spent| - 1].data]
  }

  /** Live UTxOs together with the ones this block has consumed. */
  function Everything(w: Work): map<string, UtxoData> {
    w.trees.utxos + Records(w.spent)
  }

  ghost predicate DistinctRecords(spent: seq<SpentRecord>) {
    forall i, j | 0 <= i < j < |spent| :: spent[i].key != spent[j].key
  }

  /** How the UTxO set (u) and spent index (s) in the middle of a block relate to those before it
      (u0, s0): `consumed` are the UTxOs spent so far, `created` the keys created so far. */
  ghost predicate Accounted(u0: map<string, UtxoData>, s0: map<string, SpendEvent>, u: map<string, UtxoData>,
                            s: map<string, SpendEvent>, consumed: map<string, UtxoData>, created: set<string>) {
    && u.Keys !! s.Keys
    && u.Keys !! consumed.Keys
    && s - consumed.Keys == s0
    && s.Keys == s0.Keys + consumed.Keys
    && u + consumed - created == u0
  }

  ghost predicate Undoable(t0: Trees, w: Work) {
    && Consistent(w.trees)
    && w.trees.events == t0.events
    && w.trees.blocks == t0.blocks
    && KeySet(w.recorded) == Records(w.spent).Keys
    && DistinctRecords(w.spent)
    && Accounted(t0.utxos, t0.spent, w.trees.utxos, w.trees.spent, Records(w.spent), KeySet(w.created))
  }

  /** Every created key belongs to a transaction before the n-th, or to the first m outputs of the n-th. */
  ghost predicate Produced(b: Block, n: nat, m: nat, key: string) {
    exists j: nat, i: nat :: j < |b.txs| && (j < n || (j == n && i < m)) && key == UtxoKey(b.txs[j].hash, i)
  }

  ghost predicate InProgress(t0: Trees, cfg: Config, b: Block, n: nat, m: nat, value: nat, w: Work) {
    && Undoable(t0, w)
    && (forall k | k in w.created :: Produced(b, n, m, k))
    && Total(Everything(w)) == Total(t0.utxos) + value
  }

  // ---- Steps ---------------------------------------------------------------------------------

  lemma RecordsKeys(spent: seq<SpentRecord>, i: nat)
    requires i < |spent|
    ensures spent[i].key in Records(spent)
  {
    if i < |spent| - 1 {
      RecordsKeys(spent[..|spent| - 1], i);
    }
  }

  lemma RecordsSnoc(spent: seq<SpentRecord>, r: SpentRecord)
    ensures Records(spent + [r]) == Records(spent)[r.key := r.data]
  {
    assert (spent + [r])[..|spent|] == spent;
  }

  lemma KeySetSnoc(keys: seq<string>, k: string)
    ensures KeySet(keys + [k]) == KeySet(keys) + {k}
  {
  }

  lemma {:induction false} TotalMonotone(m: map<string, UtxoData>, m': map<string, UtxoData>)
    requires m.Keys <= m'.Keys && forall k | k in m :: m[k] == m'[k]
    ensures Total(m) <= Total(m')
    decreases |m|
  {
    if m != map[] {
      var k :| k in m;
      TotalRemove(m, k);
      TotalRemove(m', k);
      TotalMonotone(m - {k}, m' - {k});
    }
  }

  lemma AccountSpend(u0: map<string, UtxoData>, s0: map<string, SpendEvent>, u: map<string, UtxoData>,
                     s: map<string, SpendEvent>, consumed: map<string, UtxoData>, created: set<string>,
                     key: string, spend: SpendEvent)
    requires Accounted(u0, s0, u, s, consumed, created)
    requires key in u && u0.Keys !! s0.Keys && created !! s0.Keys
    ensures Accounted(u0, s0, u - {key}, s[key := spend], consumed[key := u[key]], created)
    ensures (u - {key}) + consumed[key := u[key]] == u + consumed
  {
    assert (u - {key}) + consumed[key := u[key]] == u + consumed;
    assert key !in s0 by {
      if key !in created { assert key in u + consumed - created; }
    }
    assert s[key := spend] - consumed[key := u[key]].Keys == s - consumed.Keys;
  }

  lemma AccountCreate(u0: map<string, UtxoData>, s0: map<string, SpendEvent>, u: map<string, UtxoData>,
                      s: map<string, SpendEvent>, consumed: map<string, UtxoData>, created: set<string>,
                      key: string, data: UtxoData)
    requires Accounted(u0, s0, u, s, consumed, created)
    requires key !in u && key !in consumed && key !in s0
    ensures Accounted(u0, s0, u[key := data], s, consumed, created + {key})
    ensures u[key := data] + consumed == (u + consumed)[key := data]
  {
    assert u[key := data] + consumed == (u + consumed)[key := data];
    assert (u + consumed)[key := data] - (created + {key}) == u + consumed - created;
  }

  lemma SpendInputStep(t0: Trees, w: Work, input: OutRef, spend: SpendEvent)
    requires Undoable(t0, w)
    requires t0.utxos.Keys !! t0.spent.Keys && KeySet(w.created) !! t0.spent.Keys
    ensures Undoable(t0, SpendInput(w, input, spend))
    ensures Everything(SpendInput(w, input, spend)) == Everything(w)
    ensures SpendInput(w, input, spend).created == w.created
  {
    hide SetBalance, GetBalance, SaturatingSub, IndexKey, UtxoKey, BalancesOf, IndexOf;
    var key := UtxoKey(input.txHash, input.index);
    if key in w.trees.utxos {
      var r := SpentRecord(key, w.trees.utxos[key], spend);
      AccountSpend(t0.utxos, t0.spent, w.trees.utxos, w.trees.spent, Records(w.spent), KeySet(w.created), key, spend);
      RemoveKeepsConsistent(w.trees, key);
      RecordsSnoc(w.spent, r);
      KeySetSnoc(w.recorded, key);
      forall i | 0 <= i < |w.spent| ensures w.spent[i].key != key {
        RecordsKeys(w.spent, i);
      }
    }
  }

  lemma {:induction false} SpendInputsSteps(t0: Trees, w: Work, inputs: seq<OutRef>, spend: SpendEvent)
    requires Undoable(t0, w)
    requires t0.utxos.Keys !! t0.spent.Keys && KeySet(w.created) !! t0.spent.Keys
    ensures Undoable(t0, SpendInputs(w, inputs, spend))
    ensures Everything(SpendInputs(w, inputs, spend)) == Everything(w)
    ensures SpendInputs(w, inputs, spend).created == w.created
  {
    if inputs != [] {
      SpendInputsSteps(t0, w, inputs[..|inputs| - 1], spend);
      SpendInputStep(t0, SpendInputs(w, inputs[..|inputs| - 1], spend), inputs[|inputs| - 1], spend);
    }
  }

  lemma CreateStep(t0: Trees, w: Work, key: string, data: UtxoData)
    requires Undoable(t0, w)
    requires key !in Everything(w) && key !in t0.spent
    requires Total(Everything(w)) + data.amount <= U64_MAX
    ensures var w' := w.(trees := AddUtxo(w.trees, key, data), created := w.created + [key]);
            Undoable(t0, w') && Total(Everything(w')) == Total(Everything(w)) + data.amount
  {
    TotalMonotone(w.trees.utxos, Everything(w));
    AddKeepsConsistent(w.trees, key, data);
    AccountCreate(t0.utxos, t0.spent, w.trees.utxos, w.trees.spent, Records(w.spent), KeySet(w.created), key, data);
    TotalInsert(Everything(w), key, data);
    KeySetSnoc(w.created, key);
  }

  lemma NotYetProduced(b: Block, n: nat, m: nat)
    requires DistinctTxs(b) && n < |b.txs|
    ensures !Produced(b, n, m, UtxoKey(b.txs[n].hash, m))
  {
    var key := UtxoKey(b.txs[n].hash, m);
    if Produced(b, n, m, key) {
      var j: nat, i: nat :| j < |b.txs| && (j < n || (j == n && i < m)) && key == UtxoKey(b.txs[j].hash, i);
      UtxoKeyInjective(b.txs[n].hash, m, b.txs[j].hash, i);
      assert false;
    }
  }

  lemma ProducedGrows(b: Block, n: nat, m: nat, n': nat, m': nat, key: string)
    requires Produced(b, n, m, key) && (n < n' || (n == n' && m <= m'))
    ensures Produced(b, n', m', key)
  {
  }

  lemma ProducedIsFresh(t: Trees, b: Block, n: nat, m: nat, key: string)
    requires Produced(b, n, m, key)
    requires forall j | 0 <= j < |b.txs| :: FreshTx(t, b.txs[j].hash)
    ensures key !in t.utxos && key !in t.spent
  {
    var j: nat, i: nat :| j < |b.txs| && (j < n || (j == n && i < m)) && key == UtxoKey(b.txs[j].hash, i);
    assert FreshTx(t, b.txs[j].hash);
  }

  lemma KeyIsNew(t0: Trees, w: Work, key: string)
    requires Undoable(t0, w) && key !in t0.utxos && key !in w.created
    ensures key !in Everything(w)
  {
    hide Consistent, Records;
    assert key !in KeySet(w.created);
    assert key !in Everything(w) - KeySet(w.created);
  }

  lemma CreateOutputStep(t0: Trees, cfg: Config, b: Block, n: nat, i: nat, w: Work, value: nat)
    requires n < |b.txs| && i < |b.txs[n].outputs|
    requires DistinctTxs(b) && FreshTx(t0, b.txs[n].hash)
    requires InProgress(t0, cfg, b, n, i, value, w)
    requires cfg.filter.Tracks(b.txs[n].outputs[i].address) ==>
               Total(t0.utxos) + value + b.txs[n].outputs[i].lovelace <= U64_MAX
    ensures InProgress(t0, cfg, b, n, i + 1,
                       value + if cfg.filter.Tracks(b.txs[n].outputs[i].address) then b.txs[n].outputs[i].lovelace
                           else 0,
                       CreateOutput(w, cfg, b, n, i))
  {
    hide UtxoKey, AddUtxo, Undoable, Total, Everything, Produced;
    forall k | k in w.created ensures Produced(b, n, i + 1, k) {
      ProducedGrows(b, n, i, n, i + 1, k);
    }
    if cfg.filter.Tracks(b.txs[n].outputs[i].address) {
      var key := UtxoKey(b.txs[n].hash, i);
      NotYetProduced(b, n, i);
      KeyIsNew(t0, w, key);
      CreateStep(t0, w, key, NewUtxo(cfg, b, n, i));
      ProducedNow(b, n, i);
    }
  }

  lemma ProducedNow(b: Block, n: nat, i: nat)
    requires n < |b.txs|
    ensures Produced(b, n, i + 1, UtxoKey(b.txs[n].hash, i))
  {
  }

  lemma {:induction false} CreateOutputsSteps(t0: Trees, cfg: Config, b: Block, n: nat, m: nat, w: Work, value: nat)
    requires n < |b.txs| && m <= |b.txs[n].outputs|
    requires DistinctTxs(b) && FreshTx(t0, b.txs[n].hash)
    requires InProgress(t0, cfg, b, n, 0, value, w)
    requires Total(t0.utxos) + value + TxValue(cfg, b.txs[n].outputs, m) <= U64_MAX
    ensures InProgress(t0, cfg, b, n, m, value + TxValue(cfg, b.txs[n].outputs, m), CreateOutputs(w, cfg, b, n, m))
  {
    hide CreateOutput, InProgress, FreshTx, DistinctTxs, Total;
    if m > 0 {
      var i := m - 1;
      CreateOutputsSteps(t0, cfg, b, n, i, w, value);
      CreateOutputStep(t0, cfg, b, n, i, CreateOutputs(w, cfg, b, n, i), value + TxValue(cfg, b.txs[n].outputs, i));
    }
  }

  lemma BlockValueGrows(cfg: Config, b: Block, n: nat, m: nat)
    requires n <= m <= |b.txs|
    ensures BlockValue(cfg, b, n) <= BlockValue(cfg, b, m)
  {
  }

  lemma TxStep(t0: Trees, cfg: Config, b: Block, j: nat, w: Work, value: nat)
    requires j < |b.txs| && DistinctTxs(b)
    requires forall i | 0 <= i < |b.txs| :: FreshTx(t0, b.txs[i].hash)
    requires t0.utxos.Keys !! t0.spent.Keys
    requires InProgress(t0, cfg, b, j, 0, value, w)
    requires Total(t0.utxos) + value + TxValue(cfg, b.txs[j].outputs, |b.txs[j].outputs|) <= U64_MAX
    ensures InProgress(t0, cfg, b, j + 1, 0, value + TxValue(cfg, b.txs[j].outputs, |b.txs[j].outputs|),
                       ProcessTx(w, cfg, b, j))
  {
    hide Undoable, Total, Everything, Produced, FreshTx, SpendInputs, CreateOutputs, DistinctTxs, TxValue;
    forall k | k in KeySet(w.created) ensures k !in t0.spent {
      ProducedIsFresh(t0, b, j, 0, k);
    }
    var w1 := SpendInputs(w, b.txs[j].inputs, SpendOf(cfg, b, j));
    SpendInputsSteps(t0, w, b.txs[j].inputs, SpendOf(cfg, b, j));
    var m := |b.txs[j].outputs|;
    CreateOutputsSteps(t0, cfg, b, j, m, w1, value);
    forall k | k in CreateOutputs(w1, cfg, b, j, m).created ensures Produced(b, j + 1, 0, k) {
      ProducedGrows(b, j, m, j + 1, 0, k);
    }
  }

  lemma StartInProgress(t0: Trees, cfg: Config, b: Block)
    requires Quiescent(t0)
    ensures InProgress(t0, cfg, b, 0, 0, 0, Start(t0))
  {
    var w := Start(t0);
    assert Everything(w) == t0.utxos;
    assert t0.utxos + map[] - {} == t0.utxos;
    assert t0.spent - {} == t0.spent;
    assert KeySet([]) == {};
  }

  lemma {:induction false} ProcessTxsSteps(t0: Trees, cfg: Config, b: Block, n: nat)
    requires n <= |b.txs| && Quiescent(t0) && BlockFits(t0, cfg, b)
    ensures InProgress(t0, cfg, b, n, 0, BlockValue(cfg, b, n), ProcessTxs(Start(t0), cfg, b, n))
  {
    hide InProgress, ProcessTx, Total, TxValue, FreshTx, DistinctTxs, EventKey, Consistent;
    if n == 0 {
      StartInProgress(t0, cfg, b);
    } else {
      ProcessTxsSteps(t0, cfg, b, n - 1);
      BlockValueGrows(cfg, b, n, |b.txs|);
      TxStep(t0, cfg, b, n - 1, ProcessTxs(Start(t0), cfg, b, n - 1), BlockValue(cfg, b, n - 1));
    }
  }

  // ---- Events --------------------------------------------------------------------------------

  /** Writing a list puts exactly its elements at indices 0..n-1 of the slot. */
  lemma {:induction false} WriteEventsExact(events: map<string, BlockEvent>, slot: nat, list: seq<BlockEvent>)
    requires forall i: nat :: EventKey(slot, i) !in events
    ensures forall i: nat :: EventKey(slot, i) in WriteEvents(events, slot, list) <==> i < |list|
    ensures forall i: nat | i < |list| :: WriteEvents(events, slot, list)[EventKey(slot, i)] == list[i]
    ensures forall k | k in events ::
              k in WriteEvents(events, slot, list) && WriteEvents(events, slot, list)[k] == events[k]
    ensures forall k | k in WriteEvents(events, slot, list) ::
              k in events || exists i: nat :: i < |list| && k == EventKey(slot, i)
  {
    if list != [] {
      var n := |list| - 1;
      WriteEventsExact(events, slot, list[..n]);
      forall i: nat | EventKey(slot, i) == EventKey(slot, n) ensures i == n {
        EventKeyInjective(slot, i, slot, n);
      }
    }
  }

  /** The events of a slot that the scan of `rollback_block` has not reached. */
  ghost predicate TailOf(full: map<string, BlockEvent>, events: map<string, BlockEvent>, slot: nat,
                         list: seq<BlockEvent>, from: nat) {
    && from <= |list|
    && (forall k | k in events :: k in full && full[k] == events[k])
    && (forall i: nat :: EventKey(slot, i) in full <==> i < |list|)
    && (forall k | k in full :: k !in events ==> exists i: nat :: i < from && k == EventKey(slot, i))
    && (forall i: nat :: EventKey(slot, i) in events <==> from <= i < |list|)
  }

  lemma {:induction false} DeleteEventsScan(base: map<string, BlockEvent>, full: map<string, BlockEvent>,
                                            events: map<string, BlockEvent>, slot: nat, list: seq<BlockEvent>,
                                            from: nat)
    requires |list| <= MAX_EVENTS
    requires TailOf(full, events, slot, list, from)
    requires forall i: nat :: EventKey(slot, i) !in base
    requires forall k | k in base :: k in full && full[k] == base[k]
    requires forall k | k in full :: k in base || exists i: nat :: i < |list| && k == EventKey(slot, i)
    ensures DeleteEvents(events, slot, from) == base
    decreases |list| - from
  {
    if from < |list| {
      hide TailOf, EventKey;
      TailStep(full, events, slot, list, from);
      DeleteEventsScan(base, full, events - {EventKey(slot, from)}, slot, list, from + 1);
    } else {
      hide EventKey;
      assert EventKey(slot, from) !in events;
      assert forall k | k in base :: k in events;
    }
  }

  lemma TailStep(full: map<string, BlockEvent>, events: map<string, BlockEvent>, slot: nat, list: seq<BlockEvent>,
                 from: nat)
    requires TailOf(full, events, slot, list, from) && from < |list|
    ensures EventKey(slot, from) in events
    ensures TailOf(full, events - {EventKey(slot, from)}, slot, list, from + 1)
  {
    hide EventKey;
    forall i: nat | EventKey(slot, i) == EventKey(slot, from) ensures i == from {
      EventKeyInjective(slot, i, slot, from);
    }
  }

  /** Up to 100000 events in a slot, rollback removes all of them and nothing else. */
  lemma DeleteEventsInverts(events: map<string, BlockEvent>, slot: nat, list: seq<BlockEvent>)
    requires |list| <= MAX_EVENTS
    requires forall i: nat :: EventKey(slot, i) !in events
    ensures DeleteEvents(WriteEvents(events, slot, list), slot, 0) == events
  {
    WriteEventsExact(events, slot, list);
    var full := WriteEvents(events, slot, list);
    assert TailOf(full, full, slot, list, 0);
    DeleteEventsScan(events, full, full, slot, list, 0);
  }

  lemma {:induction false} ScanStopsAtLimit(events: map<string, BlockEvent>, slot: nat, from: nat)
    requires from <= MAX_EVENTS && EventKey(slot, MAX_EVENTS) in events
    ensures EventKey(slot, MAX_EVENTS) in DeleteEvents(events, slot, from)
    decreases MAX_EVENTS - from
  {
    if from < MAX_EVENTS && EventKey(slot, from) in events {
      if EventKey(slot, from) == EventKey(slot, MAX_EVENTS) {
        EventKeyInjective(slot, from, slot, MAX_EVENTS);
      }
      ScanStopsAtLimit(events - {EventKey(slot, from)}, slot, from + 1);
    }
  }

  /** Rollback undoes the event log of a slot exactly when it holds at most 100000 events. */
  lemma DeleteEventsExactWhen(events: map<string, BlockEvent>, slot: nat, list: seq<BlockEvent>)
    requires forall i: nat :: EventKey(slot, i) !in events
    ensures DeleteEvents(WriteEvents(events, slot, list), slot, 0) == events <==> |list| <= 100_000
  {
    hide WriteEvents, DeleteEvents, EventKey;
    if |list| <= MAX_EVENTS {
      DeleteEventsInverts(events, slot, list);
    } else {
      WroteAt(events, slot, list, MAX_EVENTS);
      ScanStopsAtLimit(WriteEvents(events, slot, list), slot, 0);
    }
  }

  lemma WroteAt(events: map<string, BlockEvent>, slot: nat, list: seq<BlockEvent>, i: nat)
    requires i < |list| && forall j: nat :: EventKey(slot, j) !in events
    ensures EventKey(slot, i) in WriteEvents(events, slot, list)
  {
    hide EventKey;
    WriteEventsExact(events, slot, list);
    assert WriteEvents(events, slot, list)[EventKey(slot, i)] == list[i];
  }

  // ---- The inverse ---------------------------------------------------------------------------

  /** Restoring re-inserts every consumed UTxO, crediting its address without wrapping. */
  lemma {:induction false} RestoreExact(t: Trees, spent: seq<SpentRecord>)
    requires Consistent(t) && DistinctRecords(spent)
    requires t.utxos.Keys !! Records(spent).Keys
    requires Total(t.utxos + Records(spent)) <= U64_MAX
    ensures Consistent(RestoreSpent(t, spent))
    ensures RestoreSpent(t, spent).utxos == t.utxos + Records(spent)
    ensures var r := RestoreSpent(t, spent); r.spent == t.spent && r.events == t.events && r.blocks == t.blocks
  {
    hide SetBalance, GetBalance, WrappingAdd, IndexKey, BalancesOf, IndexOf, Total;
    if spent == [] {
      assert t.utxos + Records(spent) == t.utxos;
    } else {
      var before, last := spent[..|spent| - 1], spent[|spent| - 1];
      assert last.key !in Records(before) by { RecordsOnly(before, last.key); }
      var all := t.utxos + Records(before);
      assert t.utxos + Records(spent) == all[last.key := last.data];
      TotalInsert(all, last.key, last.data);
      RestoreExact(t, before);
      AddKeepsConsistent(RestoreSpent(t, before), last.key, last.data);
    }
  }

  lemma {:induction false} RecordsOnly(spent: seq<SpentRecord>, key: string)
    requires forall i | 0 <= i < |spent| :: spent[i].key != key
    ensures key !in Records(spent)
  {
    if spent != [] {
      RecordsOnly(spent[..|spent| - 1], key);
    }
  }

  lemma {:induction false} DeleteCreatedExact(t: Trees, created: seq<string>)
    requires Consistent(t)
    ensures Consistent(DeleteCreated(t, created))
    ensures DeleteCreated(t, created).utxos == t.utxos - KeySet(created)
    ensures var r := DeleteCreated(t, created); r.spent == t.spent && r.events == t.events && r.blocks == t.blocks
  {
    if created != [] {
      var before, last := created[..|created| - 1], created[|created| - 1];
      DeleteCreatedExact(t, before);
      RemoveKeepsConsistent(DeleteCreated(t, before), last);
      KeySetSnoc(before, last);
      assert created == before + [last];
      assert t.utxos - KeySet(before) - {last} == t.utxos - KeySet(created);
    }
  }

  /** Processing keeps balances and address index exact and live and spent keys disjoint. */
  lemma ApplyKeepsQuiescent(t: Trees, cfg: Config, b: Block)
    requires Quiescent(t) && BlockFits(t, cfg, b)
    ensures Quiescent(ApplyBlock(t, cfg, b))
  {
    ProcessTxsSteps(t, cfg, b, |b.txs|);
  }

  /** What is left of the event log when a block just processed is undone. */
  function Leftover(t: Trees, cfg: Config, b: Block): map<string, BlockEvent> {
    DeleteEvents(ApplyBlock(t, cfg, b).events, b.slot, 0)
  }

  /** Undoing a block right after processing it restores every structure but the event log, balances included. Outputs
      created and spent inside the block are gone again, because spent ones are restored before created ones are
      deleted. The event log is restored, and with it everything, exactly when the block logged at most 100000
      events. */
  lemma UndoInvertsApply(t: Trees, cfg: Config, b: Block)
    requires Quiescent(t) && BlockFits(t, cfg, b)
    ensures UndoBlock(ApplyBlock(t, cfg, b), InfoOf(t, cfg, b)) == t.(events := Leftover(t, cfg, b))
    ensures UndoBlock(ApplyBlock(t, cfg, b), InfoOf(t, cfg, b)) == t
            <==> |BlockEvents(WorkOf(t, cfg, b))| <= 100_000
  {
    hide ProcessTxs, WriteEvents, BlockEvents, RestoreSpent, DeleteCreated, DeleteEvents, BalancesOf, IndexOf, Total;
    var w := WorkOf(t, cfg, b);
    ProcessTxsSteps(t, cfg, b, |b.txs|);
    var t1 := ApplyBlock(t, cfg, b);
    var t2 := t1.(blocks := t1.blocks - {b.hash});
    assert t2.blocks == t.blocks;
    RestoreExact(t2, w.spent);
    var t3 := RestoreSpent(t2, w.spent);
    DeleteEventsExactWhen(t.events, b.slot, BlockEvents(w));
    var t4 := t3.(spent := t3.spent - KeySet(w.recorded), events := DeleteEvents(t3.events, b.slot, 0));
    DeleteCreatedExact(t4, w.created);
  }

  /** A block never logs more events than it has inputs and outputs. */
  lemma {:induction false} RecordCounts(t0: Trees, cfg: Config, b: Block, n: nat)
    requires n <= |b.txs|
    ensures var w := ProcessTxs(Start(t0), cfg, b, n); |w.created| + |w.spent| <= BlockSize(b, n)
  {
    hide SpendInputs, CreateOutputs;
    if n > 0 {
      RecordCounts(t0, cfg, b, n - 1);
      var w := ProcessTxs(Start(t0), cfg, b, n - 1);
      SpendCounts(w, b.txs[n - 1].inputs, SpendOf(cfg, b, n - 1));
      CreateCounts(SpendInputs(w, b.txs[n - 1].inputs, SpendOf(cfg, b, n - 1)), cfg, b, n - 1, |b.txs[n - 1].outputs|);
    }
  }

  lemma {:induction false} SpendCounts(w: Work, inputs: seq<OutRef>, spend: SpendEvent)
    ensures var w' := SpendInputs(w, inputs, spend); w'.created == w.created && |w'.spent| <= |w.spent| + |inputs|
  {
    if inputs != [] {
      SpendCounts(w, inputs[..|inputs| - 1], spend);
    }
  }

  lemma {:induction false} CreateCounts(w: Work, cfg: Config, b: Block, j: nat, n: nat)
    requires j < |b.txs| && n <= |b.txs[j].outputs|
    ensures var w' := CreateOutputs(w, cfg, b, j, n); w'.spent == w.spent && |w'.created| <= |w.created| + n
  {
    if n > 0 {
      CreateCounts(w, cfg, b, j, n - 1);
    }
  }

  /** What a caller can read off a block: one with at most 100000 inputs and outputs is always undone exactly. */
  lemma SmallBlockUndone(t: Trees, cfg: Config, b: Block)
    requires Quiescent(t) && BlockFits(t, cfg, b) && BlockSize(b, |b.txs|) <= 100_000
    ensures UndoBlock(ApplyBlock(t, cfg, b), InfoOf(t, cfg, b)) == t
  {
    hide ProcessTxs, ApplyBlock, UndoBlock;
    RecordCounts(t, cfg, b, |b.txs|);
    UndoInvertsApply(t, cfg, b);
  }

  // ---- The event log does not influence an undo ----------------------------------------------

  lemma {:induction false} RestoreIgnoresEvents(t: Trees, spent: seq<SpentRecord>, e: map<string, BlockEvent>)
    ensures RestoreSpent(t.(events := e), spent) == RestoreSpent(t, spent).(events := e)
  {
    hide SetBalance, GetBalance, WrappingAdd, IndexKey;
    if spent != [] {
      RestoreIgnoresEvents(t, spent[..|spent| - 1], e);
    }
  }

  lemma {:induction false} DeleteCreatedIgnoresEvents(t: Trees, created: seq<string>, e: map<string, BlockEvent>)
    ensures DeleteCreated(t.(events := e), created) == DeleteCreated(t, created).(events := e)
  {
    hide SetBalance, GetBalance, SaturatingSub, IndexKey;
    if created != [] {
      DeleteCreatedIgnoresEvents(t, created[..|created| - 1], e);
    }
  }

  /** An undo treats the event log by itself: it deletes the slot's events and looks at none of them otherwise. */
  lemma UndoIgnoresEvents(t: Trees, info: RollbackInfo, e: map<string, BlockEvent>)
    ensures UndoBlock(t.(events := e), info) == UndoBlock(t, info).(events := DeleteEvents(e, info.slot, 0))
  {
    hide RestoreSpent, DeleteCreated, DeleteEvents;
    var t1 := t.(blocks := t.blocks - {info.blockHash});
    RestoreIgnoresEvents(t1, info.utxosSpent, e);
    RestoreIgnoresEvents(t1, info.utxosSpent, t1.events);
    var t2 := RestoreSpent(t1, info.utxosSpent);
    t2 := t2.(spent := t2.spent - KeySet(info.spentRecorded));
    DeleteCreatedIgnoresEvents(t2, info.utxosCreated, DeleteEvents(e, info.slot, 0));
    DeleteCreatedIgnoresEvents(t2, info.utxosCreated, DeleteEvents(t.events, info.slot, 0));
  }

  // ---- A block that is not undone ------------------------------------------------------------

  /** One transaction with n empty outputs to one address. */
  function Flood(n: nat): Block {
    Block(0, "bb", None, [Tx("aa", [], seq(n, _ => Output("00", 0, map[], None, None)))])
  }

  lemma {:induction false} FloodCreates(cfg: Config, n: nat, m: nat)
    requires cfg.filter.Tracks("00") && m <= n
    ensures var w := CreateOutputs(Start(EMPTY), cfg, Flood(n), 0, m);
            w.spent == [] && |w.created| == m && forall k | k in w.created :: k in w.trees.utxos
  {
    hide SetBalance, GetBalance, WrappingAdd, IndexKey, UtxoKey;
    if m > 0 {
      FloodCreates(cfg, n, m - 1);
    }
  }

  lemma {:induction false} AllLiveAreLogged(utxos: map<string, UtxoData>, created: seq<string>)
    requires forall k | k in created :: k in utxos
    ensures |CreatedEvents(utxos, created)| == |created|
  {
    if created != [] {
      AllLiveAreLogged(utxos, created[..|created| - 1]);
    }
  }

  lemma {:induction false} FloodIsWorthless(cfg: Config, n: nat, m: nat)
    requires m <= n
    ensures TxValue(cfg, Flood(n).txs[0].outputs, m) == 0
  {
    if m > 0 {
      FloodIsWorthless(cfg, n, m - 1);
    }
  }

  lemma FloodLogs(cfg: Config, n: nat)
    requires cfg.filter.Tracks("00")
    ensures |BlockEvents(WorkOf(EMPTY, cfg, Flood(n)))| == n
  {
    hide CreateOutputs, CreatedEvents;
    FloodCreates(cfg, n, n);
    var b, w := Flood(n), CreateOutputs(Start(EMPTY), cfg, Flood(n), 0, n);
    assert SpendInputs(Start(EMPTY), b.txs[0].inputs, SpendOf(cfg, b, 0)) == Start(EMPTY);
    assert ProcessTxs(Start(EMPTY), cfg, b, 1) == ProcessTx(ProcessTxs(Start(EMPTY), cfg, b, 0), cfg, b, 0) == w;
    AllLiveAreLogged(w.trees.utxos, w.created);
  }

  lemma FloodFits(cfg: Config, n: nat)
    ensures Quiescent(EMPTY) && BlockFits(EMPTY, cfg, Flood(n))
  {
    FloodIsWorthless(cfg, n, n);
    assert BalancesOf(map[]) == map[] && IndexOf(map[]) == {};
  }

  /** Undoing such a block of 100001 outputs, or more, does not give back the empty trees it was processed on. */
  lemma FloodOutlastsRollback(cfg: Config, n: nat)
    requires cfg.filter.Tracks("00") && n > 100_000
    ensures UndoBlock(ApplyBlock(EMPTY, cfg, Flood(n)), InfoOf(EMPTY, cfg, Flood(n))) != EMPTY
  {
    hide ApplyBlock, UndoBlock, InfoOf, WorkOf, Quiescent, BlockFits, Flood;
    FloodFits(cfg, n);
    FloodLogs(cfg, n);
    UndoInvertsApply(EMPTY, cfg, Flood(n));
  }

  // ---- No debit saturates --------------------------------------------------------------------

  /** Before each input of a block is spent, balances and address index are exact. */
  lemma SpendingStaysConsistent(t: Trees, cfg: Config, b: Block, j: nat, k: nat)
    requires Quiescent(t) && BlockFits(t, cfg, b) && j < |b.txs| && k <= |b.txs[j].inputs|
    ensures Consistent(SpendInputs(ProcessTxs(Start(t), cfg, b, j), b.txs[j].inputs[..k], SpendOf(cfg, b, j)).trees)
  {
    hide ProcessTxs, SpendInputs, Consistent;
    var w := ProcessTxs(Start(t), cfg, b, j);
    ProcessTxsSteps(t, cfg, b, j);
    forall key | key in KeySet(w.created) ensures key !in t.spent {
      ProducedIsFresh(t, b, j, 0, key);
    }
    SpendInputsSteps(t, w, b.txs[j].inputs[..k], SpendOf(cfg, b, j));
  }

  /** The state of a rollback before it deletes the created outputs. */
  function Restored(t: Trees, info: RollbackInfo): Trees {
    var t1 := RestoreSpent(t.(blocks := t.blocks - {info.blockHash}), info.utxosSpent);
    t1.(spent := t1.spent - KeySet(info.spentRecorded), events := DeleteEvents(t1.events, info.slot, 0))
  }

  lemma RestoredIgnoresEvents(t: Trees, info: RollbackInfo, e: map<string, BlockEvent>)
    ensures Restored(t.(events := e), info) == Restored(t, info).(events := DeleteEvents(e, info.slot, 0))
  {
    hide RestoreSpent, DeleteEvents;
    var t1 := t.(blocks := t.blocks - {info.blockHash});
    RestoreIgnoresEvents(t1, info.utxosSpent, e);
    RestoreIgnoresEvents(t1, info.utxosSpent, t1.events);
  }

  /** Before each created output of a block is deleted again, balances and address index are exact, whatever is in the
      event log. */
  lemma UndoingStaysConsistent(t: Trees, cfg: Config, b: Block, k: nat, e: map<string, BlockEvent>)
    requires Quiescent(t) && BlockFits(t, cfg, b) && k <= |InfoOf(t, cfg, b).utxosCreated|
    ensures var info := InfoOf(t, cfg, b);
            Consistent(DeleteCreated(Restored(ApplyBlock(t, cfg, b).(events := e), info), info.utxosCreated[..k]))
  {
    hide ProcessTxs, WriteEvents, BlockEvents, RestoreSpent, DeleteCreated, DeleteEvents, BalancesOf, IndexOf, Total;
    var w := WorkOf(t, cfg, b);
    ProcessTxsSteps(t, cfg, b, |b.txs|);
    var t1 := ApplyBlock(t, cfg, b);
    RestoreExact(t1.(blocks := t1.blocks - {b.hash}), w.spent);
    RestoredIgnoresEvents(t1, InfoOf(t, cfg, b), e);
    DeleteCreatedExact(Restored(t1.(events := e), InfoOf(t, cfg, b)), w.created[..k]);
  }
}
