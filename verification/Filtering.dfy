/** Filtering commutes with replay: indexing only tracked outputs gives what filtering the full
    ledger would give. */
module Filtering {
  import opened Text
  import opened Ledger
  import opened Index
  import opened Holdings
  import opened Processing
  import opened Undo
  import opened Processor
  import opened Runs

  /** The UTxOs of a set that a filter tracks. */
  function Tracked(f: WalletFilter, utxos: map<string, UtxoData>): map<string, UtxoData> {
    map k | k in utxos && f.Tracks(utxos[k].address) :: utxos[k]
  }

  ghost predicate TracksAll(f: WalletFilter) {
    forall a: Hex :: f.Tracks(a)
  }

  /** No transaction hash occurs twice in the first n blocks. */
  ghost predicate FreshHashes(chain: seq<Block>, n: nat)
    requires n <= |chain|
  {
    forall i | 0 <= i < n ::
      DistinctTxs(chain[i]) && forall j | 0 <= j < |chain[i].txs| :: NewTx(chain, i, chain[i].txs[j].hash)
  }

  lemma {:induction false} SpendInputsCommute(f: WalletFilter, part: Work, full: Work, inputs: seq<OutRef>,
                                              spend: SpendEvent)
    requires part.trees.utxos == Tracked(f, full.trees.utxos)
    ensures SpendInputs(part, inputs, spend).trees.utxos == Tracked(f, SpendInputs(full, inputs, spend).trees.utxos)
  {
    if inputs != [] {
      SpendInputsCommute(f, part, full, inputs[..|inputs| - 1], spend);
    }
  }

  lemma CreateOutputUnborn(w: Work, cfg: Config, b: Block, j: nat, i: nat)
    requires j < |b.txs| && i < |b.txs[j].outputs| && Unborn(w.trees, b.txs[j].hash, i)
    ensures Unborn(CreateOutput(w, cfg, b, j, i).trees, b.txs[j].hash, i + 1)
  {
    var h := b.txs[j].hash;
    forall i': nat | i + 1 <= i' ensures UtxoKey(h, i') != UtxoKey(h, i) {
      if UtxoKey(h, i') == UtxoKey(h, i) { UtxoKeyInjective(h, i', h, i); }
    }
  }

  lemma CreateOutputCommutes(part: Work, pcfg: Config, full: Work, fcfg: Config, b: Block, j: nat, i: nat)
    requires j < |b.txs| && i < |b.txs[j].outputs|
    requires fcfg.filter.Tracks(b.txs[j].outputs[i].address) && fcfg.systemStart == pcfg.systemStart
    requires part.trees.utxos == Tracked(pcfg.filter, full.trees.utxos)
    requires UtxoKey(b.txs[j].hash, i) !in full.trees.utxos
    ensures CreateOutput(part, pcfg, b, j, i).trees.utxos
            == Tracked(pcfg.filter, CreateOutput(full, fcfg, b, j, i).trees.utxos)
  {
    hide WrappingAdd, SetBalance, GetBalance, UtxoKey, IndexKey, Tracked;
    TrackedInsert(pcfg.filter, full.trees.utxos, UtxoKey(b.txs[j].hash, i), NewUtxo(fcfg, b, j, i));
  }

  lemma TrackedInsert(f: WalletFilter, utxos: map<string, UtxoData>, key: string, data: UtxoData)
    requires key !in utxos
    ensures Tracked(f, utxos[key := data])
            == if f.Tracks(data.address) then Tracked(f, utxos)[key := data] else Tracked(f, utxos)
  {
  }

  lemma {:induction false} CreateOutputsCommute(part: Work, pcfg: Config, full: Work, fcfg: Config, b: Block, j: nat,
                                                n: nat)
    requires j < |b.txs| && n <= |b.txs[j].outputs|
    requires TracksAll(fcfg.filter) && fcfg.systemStart == pcfg.systemStart
    requires part.trees.utxos == Tracked(pcfg.filter, full.trees.utxos)
    requires Unborn(full.trees, b.txs[j].hash, 0)
    ensures CreateOutputs(part, pcfg, b, j, n).trees.utxos
            == Tracked(pcfg.filter, CreateOutputs(full, fcfg, b, j, n).trees.utxos)
    ensures Unborn(CreateOutputs(full, fcfg, b, j, n).trees, b.txs[j].hash, n)
  {
    hide CreateOutput, Tracked;
    if n > 0 {
      CreateOutputsCommute(part, pcfg, full, fcfg, b, j, n - 1);
      var w := CreateOutputs(full, fcfg, b, j, n - 1);
      assert UtxoKey(b.txs[j].hash, n - 1) !in w.trees.utxos;
      CreateOutputUnborn(w, fcfg, b, j, n - 1);
      assert fcfg.filter.Tracks(b.txs[j].outputs[n - 1].address);
      CreateOutputCommutes(CreateOutputs(part, pcfg, b, j, n - 1), pcfg, w, fcfg, b, j, n - 1);
    }
  }

  lemma {:induction false} ProcessTxsCommute(part: Trees, pcfg: Config, full: Trees, fcfg: Config, b: Block, n: nat)
    requires n <= |b.txs| && DistinctTxs(b)
    requires TracksAll(fcfg.filter) && fcfg.systemStart == pcfg.systemStart
    requires part.utxos == Tracked(pcfg.filter, full.utxos)
    requires forall k | 0 <= k < |b.txs| :: Unborn(full, b.txs[k].hash, 0)
    ensures ProcessTxs(Start(part), pcfg, b, n).trees.utxos
            == Tracked(pcfg.filter, ProcessTxs(Start(full), fcfg, b, n).trees.utxos)
    ensures forall k | n <= k < |b.txs| :: Unborn(ProcessTxs(Start(full), fcfg, b, n).trees, b.txs[k].hash, 0)
  {
    hide CreateOutputs, SpendInputs, Tracked;
    if n > 0 {
      var j := n - 1;
      ProcessTxsCommute(part, pcfg, full, fcfg, b, j);
      var p, a := ProcessTxs(Start(part), pcfg, b, j), ProcessTxs(Start(full), fcfg, b, j);
      var spend := SpendOf(pcfg, b, j);
      SpendInputsCommute(pcfg.filter, p, a, b.txs[j].inputs, spend);
      SpendInputsShrinks(a, b.txs[j].inputs, spend);
      CreateOutputsCommute(SpendInputs(p, b.txs[j].inputs, spend), pcfg, SpendInputs(a, b.txs[j].inputs, spend), fcfg,
                           b, j, |b.txs[j].outputs|);
      forall k | n <= k < |b.txs| ensures Unborn(ProcessTx(a, fcfg, b, j).trees, b.txs[k].hash, 0) {
        TxKeepsUnborn(a, fcfg, b, j, b.txs[k].hash);
      }
    }
  }

  lemma ApplyCommutes(part: Trees, pcfg: Config, full: Trees, fcfg: Config, b: Block)
    requires DistinctTxs(b)
    requires TracksAll(fcfg.filter) && fcfg.systemStart == pcfg.systemStart
    requires part.utxos == Tracked(pcfg.filter, full.utxos)
    requires forall k | 0 <= k < |b.txs| :: Unborn(full, b.txs[k].hash, 0)
    ensures ApplyBlock(part, pcfg, b).utxos == Tracked(pcfg.filter, ApplyBlock(full, fcfg, b).utxos)
  {
    ProcessTxsCommute(part, pcfg, full, fcfg, b, |b.txs|);
  }

  /** The indexed UTxO set is the full ledger UTxO set restricted to tracked addresses: inputs that
      spend nothing indexed are ignored and untracked outputs skipped. */
  lemma {:induction false} FilteringCommutesWithReplay(pcfg: Config, fcfg: Config, chain: seq<Block>, n: nat)
    requires n <= |chain| && FreshHashes(chain, n)
    requires TracksAll(fcfg.filter) && fcfg.systemStart == pcfg.systemStart
    ensures ReplayTo(pcfg, chain, n).utxos == Tracked(pcfg.filter, ReplayTo(fcfg, chain, n).utxos)
  {
    hide ApplyBlock;
    if n > 0 {
      FilteringCommutesWithReplay(pcfg, fcfg, chain, n - 1);
      var full, b := ReplayTo(fcfg, chain, n - 1), chain[n - 1];
      forall k | 0 <= k < |b.txs| ensures Unborn(full, b.txs[k].hash, 0) {
        ReplayFresh(fcfg, chain, n - 1, b.txs[k].hash);
        assert FreshTx(full, b.txs[k].hash);
      }
      ApplyCommutes(ReplayTo(pcfg, chain, n - 1), pcfg, full, fcfg, b);
    }
  }

  lemma {:induction false} TrackedHolds(f: WalletFilter, m: map<string, UtxoData>, a: Hex)
    requires f.Tracks(a)
    ensures Held(Tracked(f, m), a) == Held(m, a)
    decreases |m|
  {
    if m == map[] {
      assert Tracked(f, m) == map[];
    } else {
      var k :| k in m;
      TrackedHolds(f, m - {k}, a);
      HeldRemove(m, k, a);
      if f.Tracks(m[k].address) {
        HeldRemove(Tracked(f, m), k, a);
        assert Tracked(f, m) - {k} == Tracked(f, m - {k});
      } else {
        assert Tracked(f, m) == Tracked(f, m - {k});
      }
    }
  }

  /** A tracked address has the balance the full ledger gives it. */
  lemma TrackedBalanceIsLedgerBalance(pcfg: Config, fcfg: Config, chain: seq<Block>, a: Hex)
    requires ChainOk(pcfg, chain) && FreshHashes(chain, |chain|)
    requires TracksAll(fcfg.filter) && fcfg.systemStart == pcfg.systemStart
    requires pcfg.filter.Tracks(a)
    ensures GetBalance(Replay(pcfg, chain).balances, a) == Held(Replay(fcfg, chain).utxos, a)
  {
    hide ApplyBlock;
    FilteringCommutesWithReplay(pcfg, fcfg, chain, |chain|);
    ReplayQuiescent(pcfg, chain, |chain|);
    BalanceMeansHeld(Replay(pcfg, chain).utxos, a);
    TrackedHolds(pcfg.filter, Replay(fcfg, chain).utxos, a);
  }
}
