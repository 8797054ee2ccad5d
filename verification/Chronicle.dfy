/** What a chain says about its outputs, defined by positions in the chain and without processing it; and that the index
    holds exactly this. */
module Chronicle {
  import opened Text
  import opened Ledger
  import opened Index
  import opened Processing
  import opened Runs

  /** The place of a transaction: a block of the chain and an index into its transactions. */
  datatype Place = Place(block: nat, tx: nat)

  predicate On(chain: seq<Block>, p: Place) {
    p.block < |chain| && p.tx < |chain[p.block].txs|
  }

  predicate Before(p: Place, q: Place) {
    p.block < q.block || (p.block == q.block && p.tx < q.tx)
  }

  function TxAt(chain: seq<Block>, p: Place): Tx
    requires On(chain, p)
  {
    chain[p.block].txs[p.tx]
  }

  function KeyAt(chain: seq<Block>, p: Place, k: nat): string {
    if On(chain, p) then UtxoKey(TxAt(chain, p).hash, k) else ""
  }

  ghost predicate Named(inputs: seq<OutRef>, key: string) {
    exists m :: 0 <= m < |inputs| && UtxoKey(inputs[m].txHash, inputs[m].index) == key
  }

  /** Output k of the transaction at p is tracked, and p comes before q. */
  predicate Made(cfg: Config, chain: seq<Block>, q: Place, p: Place, k: nat) {
    && On(chain, p) && Before(p, q)
    && k < |TxAt(chain, p).outputs|
    && cfg.filter.Tracks(TxAt(chain, p).outputs[k].address)
  }

  /** No transaction after p and before q names output k of p. */
  ghost predicate Untouched(chain: seq<Block>, q: Place, p: Place, k: nat)
    requires On(chain, p)
  {
    forall s | On(chain, s) && Before(p, s) && Before(s, q) :: !Named(TxAt(chain, s).inputs, KeyAt(chain, p, k))
  }

  /** At q this output is live. */
  ghost predicate Unspent(cfg: Config, chain: seq<Block>, q: Place, p: Place, k: nat) {
    Made(cfg, chain, q, p, k) && Untouched(chain, q, p, k)
  }

  /** Before q this output was spent, by the transaction at s: the first one after it that names it. */
  ghost predicate SpentAt(cfg: Config, chain: seq<Block>, q: Place, p: Place, k: nat, s: Place) {
    && Made(cfg, chain, q, p, k) && On(chain, s) && Before(p, s) && Before(s, q)
    && Named(TxAt(chain, s).inputs, KeyAt(chain, p, k)) && Untouched(chain, s, p, k)
  }

  /** A stored record says what the chain says about an output. */
  predicate Describes(cfg: Config, chain: seq<Block>, p: Place, k: nat, d: UtxoData) {
    && On(chain, p) && k < |TxAt(chain, p).outputs|
    && var b, o := chain[p.block], TxAt(chain, p).outputs[k];
    && d.txHash == TxAt(chain, p).hash && d.outputIndex == k && d.txIndex == p.tx
    && d.address == o.address && d.amount == o.lovelace && d.assets == o.assets
    && d.datumHash == o.datumHash && d.datum == o.datum
    && d.slot == b.slot && d.blockHash == b.hash
    && d.timestamp == (cfg.systemStart + 1000 * b.slot) % 0x1_0000_0000_0000_0000
  }

  /** A stored spend says what the chain says about the spending transaction. */
  predicate Tells(cfg: Config, chain: seq<Block>, s: Place, e: SpendEvent) {
    && On(chain, s)
    && var b := chain[s.block];
    && e.slot == b.slot && e.blockHash == b.hash && e.txIndex == s.tx && e.txHash == TxAt(chain, s).hash
    && e.timestamp == (cfg.systemStart + 1000 * b.slot) % 0x1_0000_0000_0000_0000
  }

  /** The live and the spent index of a moment hold exactly what the chain says of it. */
  ghost predicate Holds(cfg: Config, chain: seq<Block>, q: Place, utxos: map<string, UtxoData>,
                        spent: map<string, SpendEvent>)
  {
    && (forall key | key in utxos :: IsLive(cfg, chain, q, key, utxos[key]))
    && (forall p, k | Unspent(cfg, chain, q, p, k) :: KeyAt(chain, p, k) in utxos)
    && (forall key | key in spent :: IsSpent(cfg, chain, q, key, spent[key]))
    && (forall p, k, s | SpentAt(cfg, chain, q, p, k, s) :: KeyAt(chain, p, k) in spent)
  }

  ghost predicate IsLive(cfg: Config, chain: seq<Block>, q: Place, key: string, d: UtxoData) {
    exists p, k :: Unspent(cfg, chain, q, p, k) && KeyAt(chain, p, k) == key && Describes(cfg, chain, p, k, d)
  }

  ghost predicate IsSpent(cfg: Config, chain: seq<Block>, q: Place, key: string, e: SpendEvent) {
    exists p, k, s :: SpentAt(cfg, chain, q, p, k, s) && KeyAt(chain, p, k) == key && Tells(cfg, chain, s, e)
  }

  // ---- What one transaction does -------------------------------------------------------------

  /** Live UTxOs that an input names leave the live index and enter the spent one. */
  ghost predicate Moved(u: map<string, UtxoData>, s: map<string, SpendEvent>, inputs: seq<OutRef>, spend: SpendEvent,
                        u': map<string, UtxoData>, s': map<string, SpendEvent>)
  {
    && (forall key :: key in u' <==> key in u && !Named(inputs, key))
    && (forall key | key in u' :: u'[key] == u[key])
    && (forall key :: key in s' <==> key in s || (key in u && Named(inputs, key)))
    && (forall key | key in s' :: s'[key] == if key in u && Named(inputs, key) then spend else s[key])
  }

  lemma {:induction false} SpendInputsMove(w: Work, inputs: seq<OutRef>, spend: SpendEvent)
    ensures var w' := SpendInputs(w, inputs, spend);
            Moved(w.trees.utxos, w.trees.spent, inputs, spend, w'.trees.utxos, w'.trees.spent)
  {
    hide SetBalance, GetBalance, SaturatingSub, IndexKey, UtxoKey;
    if inputs != [] {
      var n := |inputs| - 1;
      SpendInputsMove(w, inputs[..n], spend);
      NamedSnoc(inputs);
    }
  }

  lemma NamedSnoc(inputs: seq<OutRef>)
    requires inputs != []
    ensures var n := |inputs| - 1;
            forall key :: Named(inputs, key)
                          <==> Named(inputs[..n], key) || UtxoKey(inputs[n].txHash, inputs[n].index) == key
  {
    hide UtxoKey;
    var n := |inputs| - 1;
    forall key ensures Named(inputs, key)
                       <==> Named(inputs[..n], key) || UtxoKey(inputs[n].txHash, inputs[n].index) == key
    {
      if Named(inputs[..n], key) {
        var m :| 0 <= m < n && UtxoKey(inputs[..n][m].txHash, inputs[..n][m].index) == key;
        assert inputs[m] == inputs[..n][m];
      }
      if Named(inputs, key) {
        var m :| 0 <= m < |inputs| && UtxoKey(inputs[m].txHash, inputs[m].index) == key;
        if m < n { assert inputs[..n][m] == inputs[m]; }
      }
    }
  }

  /** Output i of a transaction is indexed under this key. */
  ghost predicate Creates(cfg: Config, b: Block, j: nat, n: nat, i: nat, key: string)
    requires j < |b.txs| && n <= |b.txs[j].outputs|
  {
    i < n && cfg.filter.Tracks(b.txs[j].outputs[i].address) && key == UtxoKey(b.txs[j].hash, i)
  }

  lemma {:induction false} CreateOutputsAdd(w: Work, cfg: Config, b: Block, j: nat, n: nat)
    requires j < |b.txs| && n <= |b.txs[j].outputs|
    ensures var w' := CreateOutputs(w, cfg, b, j, n);
            && w'.trees.spent == w.trees.spent && w'.spent == w.spent
            && (forall key :: key in w'.trees.utxos
                              <==> key in w.trees.utxos || exists i: nat :: Creates(cfg, b, j, n, i, key))
            && (forall i: nat, key | Creates(cfg, b, j, n, i, key) :: w'.trees.utxos[key] == NewUtxo(cfg, b, j, i))
            && (forall key | key in w'.trees.utxos && !(exists i: nat :: Creates(cfg, b, j, n, i, key)) ::
                  w'.trees.utxos[key] == w.trees.utxos[key])
  {
    hide SetBalance, GetBalance, WrappingAdd, IndexKey, UtxoKey, NewUtxo;
    if n > 0 {
      CreateOutputsAdd(w, cfg, b, j, n - 1);
      var before, after := CreateOutputs(w, cfg, b, j, n - 1), CreateOutputs(w, cfg, b, j, n);
      var last := UtxoKey(b.txs[j].hash, n - 1);
      forall i: nat, key | Creates(cfg, b, j, n, i, key)
        ensures key in after.trees.utxos && after.trees.utxos[key] == NewUtxo(cfg, b, j, i)
      {
        if i < n - 1 {
          assert Creates(cfg, b, j, n - 1, i, key);
          if key == last { UtxoKeyInjective(b.txs[j].hash, i, b.txs[j].hash, n - 1); }
        }
      }
      forall key | key in after.trees.utxos && !(exists i: nat :: Creates(cfg, b, j, n, i, key))
        ensures key in w.trees.utxos && after.trees.utxos[key] == w.trees.utxos[key]
      {
        assert !Creates(cfg, b, j, n, n - 1, key);
        var m: nat := n - 1;
        forall i: nat ensures !Creates(cfg, b, j, m, i, key) {
          assert !Creates(cfg, b, j, n, i, key);
        }
        assert key in before.trees.utxos;
      }
    }
  }

  /** What comes before the next place is what came before this one, and the transaction here. */
  lemma NextPlace(chain: seq<Block>, q: Place)
    requires On(chain, q)
    ensures forall p :: Before(p, Place(q.block, q.tx + 1)) <==> Before(p, q) || p == q
    ensures !Before(q, q)
  {
  }

  lemma StaysUnspent(cfg: Config, chain: seq<Block>, q: Place, p: Place, k: nat)
    requires On(chain, q)
    ensures var next := Place(q.block, q.tx + 1);
            Unspent(cfg, chain, next, p, k)
            <==> if p == q then Made(cfg, chain, next, p, k)
                 else Unspent(cfg, chain, q, p, k) && !Named(TxAt(chain, q).inputs, KeyAt(chain, p, k))
  {
    hide Named, KeyAt, TxAt;
    NextPlace(chain, q);
  }

  lemma BecomesSpent(cfg: Config, chain: seq<Block>, q: Place, p: Place, k: nat, s: Place)
    requires On(chain, q)
    ensures var next := Place(q.block, q.tx + 1);
            SpentAt(cfg, chain, next, p, k, s)
            <==> SpentAt(cfg, chain, q, p, k, s)
                 || (s == q && Unspent(cfg, chain, q, p, k) && Named(TxAt(chain, q).inputs, KeyAt(chain, p, k)))
  {
    hide Named, KeyAt, TxAt;
    NextPlace(chain, q);
  }

  lemma NewUtxoDescribes(cfg: Config, chain: seq<Block>, q: Place, i: nat)
    requires On(chain, q) && i < |TxAt(chain, q).outputs|
    ensures Describes(cfg, chain, q, i, NewUtxo(cfg, chain[q.block], q.tx, i))
  {
  }

  lemma SpendTells(cfg: Config, chain: seq<Block>, q: Place)
    requires On(chain, q)
    ensures Tells(cfg, chain, q, SpendOf(cfg, chain[q.block], q.tx))
  {
  }

  /** One transaction takes the index from one moment of the chain to the next. */
  lemma TxHolds(cfg: Config, chain: seq<Block>, q: Place, w: Work)
    requires On(chain, q) && Holds(cfg, chain, q, w.trees.utxos, w.trees.spent)
    ensures var t := ProcessTx(w, cfg, chain[q.block], q.tx).trees;
            Holds(cfg, chain, Place(q.block, q.tx + 1), t.utxos, t.spent)
  {
    hide Unspent, SpentAt, Named, UtxoKey, SpendOf, NewUtxo, Describes, Tells, Holds, SpendInputs, CreateOutputs;
    var b, tx, next := chain[q.block], TxAt(chain, q), Place(q.block, q.tx + 1);
    var w1 := SpendInputs(w, tx.inputs, SpendOf(cfg, b, q.tx));
    var n := |tx.outputs|;
    var t := CreateOutputs(w1, cfg, b, q.tx, n).trees;
    SpendInputsMove(w, tx.inputs, SpendOf(cfg, b, q.tx));
    CreateOutputsAdd(w1, cfg, b, q.tx, n);
    LiveOnes(cfg, chain, q, w, w1, t);
    SpentOnes(cfg, chain, q, w, w1, t);
    HoldsOf(cfg, chain, next, t.utxos, t.spent);
  }

  lemma HoldsOf(cfg: Config, chain: seq<Block>, q: Place, utxos: map<string, UtxoData>, spent: map<string, SpendEvent>)
    requires forall key | key in utxos :: IsLive(cfg, chain, q, key, utxos[key])
    requires forall p, k | Unspent(cfg, chain, q, p, k) :: KeyAt(chain, p, k) in utxos
    requires forall key | key in spent :: IsSpent(cfg, chain, q, key, spent[key])
    requires forall p, k, s | SpentAt(cfg, chain, q, p, k, s) :: KeyAt(chain, p, k) in spent
    ensures Holds(cfg, chain, q, utxos, spent)
  {
  }

  lemma LiveOnes(cfg: Config, chain: seq<Block>, q: Place, w: Work, w1: Work, t: Trees)
    requires On(chain, q) && Holds(cfg, chain, q, w.trees.utxos, w.trees.spent)
    requires Moved(w.trees.utxos, w.trees.spent, TxAt(chain, q).inputs, SpendOf(cfg, chain[q.block], q.tx),
                   w1.trees.utxos, w1.trees.spent)
    requires t == CreateOutputs(w1, cfg, chain[q.block], q.tx, |TxAt(chain, q).outputs|).trees
    ensures var next := Place(q.block, q.tx + 1);
            && (forall key | key in t.utxos :: IsLive(cfg, chain, next, key, t.utxos[key]))
            && (forall p, k | Unspent(cfg, chain, next, p, k) :: KeyAt(chain, p, k) in t.utxos)
  {
    hide Unspent, SpentAt, Named, UtxoKey, SpendOf, NewUtxo, Describes, Tells, SpendInputs, CreateOutputs;
    var b, tx, next := chain[q.block], TxAt(chain, q), Place(q.block, q.tx + 1);
    var n := |tx.outputs|;
    CreateOutputsAdd(w1, cfg, b, q.tx, n);
    forall key | key in t.utxos ensures IsLive(cfg, chain, next, key, t.utxos[key]) {
      if i: nat :| Creates(cfg, b, q.tx, n, i, key) {
        NewUtxoDescribes(cfg, chain, q, i);
        StaysUnspent(cfg, chain, q, q, i);
        assert Made(cfg, chain, next, q, i);
        assert Unspent(cfg, chain, next, q, i) && KeyAt(chain, q, i) == key;
      } else {
        var d := w.trees.utxos[key];
        assert IsLive(cfg, chain, q, key, d);
        var p, k :| Unspent(cfg, chain, q, p, k) && KeyAt(chain, p, k) == key && Describes(cfg, chain, p, k, d);
        NotItself(cfg, chain, q, p, k);
        StaysUnspent(cfg, chain, q, p, k);
      }
    }
    forall p, k | Unspent(cfg, chain, next, p, k) ensures KeyAt(chain, p, k) in t.utxos {
      StaysUnspent(cfg, chain, q, p, k);
      if p == q {
        assert Creates(cfg, b, q.tx, n, k, KeyAt(chain, p, k));
      }
    }
  }

  lemma NotItself(cfg: Config, chain: seq<Block>, q: Place, p: Place, k: nat)
    requires Unspent(cfg, chain, q, p, k)
    ensures p != q && On(chain, p)
  {
  }

  lemma SpentOnes(cfg: Config, chain: seq<Block>, q: Place, w: Work, w1: Work, t: Trees)
    requires On(chain, q) && Holds(cfg, chain, q, w.trees.utxos, w.trees.spent)
    requires Moved(w.trees.utxos, w.trees.spent, TxAt(chain, q).inputs, SpendOf(cfg, chain[q.block], q.tx),
                   w1.trees.utxos, w1.trees.spent)
    requires t.spent == w1.trees.spent
    ensures var next := Place(q.block, q.tx + 1);
            && (forall key | key in t.spent :: IsSpent(cfg, chain, next, key, t.spent[key]))
            && (forall p, k, s | SpentAt(cfg, chain, next, p, k, s) :: KeyAt(chain, p, k) in t.spent)
  {
    hide Unspent, SpentAt, Named, UtxoKey, SpendOf, Describes, Tells;
    var next, inputs := Place(q.block, q.tx + 1), TxAt(chain, q).inputs;
    forall key | key in t.spent ensures IsSpent(cfg, chain, next, key, t.spent[key]) {
      if key in w.trees.utxos && Named(inputs, key) {
        var d := w.trees.utxos[key];
        assert IsLive(cfg, chain, q, key, d);
        var p, k :| Unspent(cfg, chain, q, p, k) && KeyAt(chain, p, k) == key && Describes(cfg, chain, p, k, d);
        BecomesSpent(cfg, chain, q, p, k, q);
        SpendTells(cfg, chain, q);
        assert SpentAt(cfg, chain, next, p, k, q);
      } else {
        assert IsSpent(cfg, chain, q, key, w.trees.spent[key]);
        var p, k, s :| SpentAt(cfg, chain, q, p, k, s) && KeyAt(chain, p, k) == key
                       && Tells(cfg, chain, s, w.trees.spent[key]);
        BecomesSpent(cfg, chain, q, p, k, s);
      }
    }
    forall p, k, s | SpentAt(cfg, chain, next, p, k, s) ensures KeyAt(chain, p, k) in t.spent {
      BecomesSpent(cfg, chain, q, p, k, s);
    }
  }

  // ---- Whole chains --------------------------------------------------------------------------

  /** Past the last transaction of a block is where the next block begins. */
  lemma BlockEnds(cfg: Config, chain: seq<Block>, n: nat, utxos: map<string, UtxoData>, spent: map<string, SpendEvent>)
    requires n < |chain| && Holds(cfg, chain, Place(n, |chain[n].txs|), utxos, spent)
    ensures Holds(cfg, chain, Place(n + 1, 0), utxos, spent)
  {
    hide Describes, Tells, Named, KeyAt, Holds;
    var q, next := Place(n, |chain[n].txs|), Place(n + 1, 0);
    assert forall p | On(chain, p) :: Before(p, q) <==> Before(p, next);
    forall p, k ensures Unspent(cfg, chain, q, p, k) <==> Unspent(cfg, chain, next, p, k) {}
    forall p, k, s ensures SpentAt(cfg, chain, q, p, k, s) <==> SpentAt(cfg, chain, next, p, k, s) {}
    SameMoment(cfg, chain, q, next, utxos, spent);
  }

  lemma SameMoment(cfg: Config, chain: seq<Block>, q: Place, next: Place, utxos: map<string, UtxoData>,
                   spent: map<string, SpendEvent>)
    requires forall p, k :: Unspent(cfg, chain, q, p, k) <==> Unspent(cfg, chain, next, p, k)
    requires forall p, k, s :: SpentAt(cfg, chain, q, p, k, s) <==> SpentAt(cfg, chain, next, p, k, s)
    requires Holds(cfg, chain, q, utxos, spent)
    ensures Holds(cfg, chain, next, utxos, spent)
  {
    hide Unspent, SpentAt, Describes, Tells;
    forall key | key in utxos ensures IsLive(cfg, chain, next, key, utxos[key]) {
      assert IsLive(cfg, chain, q, key, utxos[key]);
    }
    forall key | key in spent ensures IsSpent(cfg, chain, next, key, spent[key]) {
      assert IsSpent(cfg, chain, q, key, spent[key]);
    }
  }

  lemma {:induction false} BlockHolds(cfg: Config, chain: seq<Block>, n: nat, j: nat, t: Trees)
    requires n < |chain| && j <= |chain[n].txs| && Holds(cfg, chain, Place(n, 0), t.utxos, t.spent)
    ensures var t' := ProcessTxs(Start(t), cfg, chain[n], j).trees; Holds(cfg, chain, Place(n, j), t'.utxos, t'.spent)
    decreases j
  {
    hide Holds, ProcessTx;
    if j > 0 {
      BlockHolds(cfg, chain, n, j - 1, t);
      TxHolds(cfg, chain, Place(n, j - 1), ProcessTxs(Start(t), cfg, chain[n], j - 1));
    }
  }

  /** The replay of the first n blocks holds exactly the outputs that are live after them, with what the chain says
      about each, and exactly those that were spent, with what it says about the spending transaction. */
  lemma {:induction false} ReplayHolds(cfg: Config, chain: seq<Block>, n: nat)
    requires n <= |chain|
    ensures var t := ReplayTo(cfg, chain, n); Holds(cfg, chain, Place(n, 0), t.utxos, t.spent)
  {
    hide Holds, ProcessTxs, WriteEvents, BlockEvents;
    if n == 0 {
      NothingYet(cfg, chain);
    } else {
      var t := ReplayTo(cfg, chain, n - 1);
      ReplayHolds(cfg, chain, n - 1);
      BlockHolds(cfg, chain, n - 1, |chain[n - 1].txs|, t);
      var t' := ProcessTxs(Start(t), cfg, chain[n - 1], |chain[n - 1].txs|).trees;
      BlockEnds(cfg, chain, n - 1, t'.utxos, t'.spent);
    }
  }

  lemma NothingYet(cfg: Config, chain: seq<Block>)
    ensures Holds(cfg, chain, Place(0, 0), map[], map[])
  {
  }

  /** In every reachable state the index holds exactly what the surviving chain says. */
  lemma ReachableHolds(cfg: Config, steps: seq<Step>)
    requires AdmissibleRun(cfg, steps)
    ensures var (n, chain) := Run(cfg, steps); Holds(cfg, chain, Place(|chain|, 0), n.trees.utxos, n.trees.spent)
  {
    hide Holds, Take, Survivors, ReplayTo;
    RunAgreesWithReplay(cfg, steps);
    var (n, chain) := Run(cfg, steps);
    ReplayHolds(cfg, chain, |chain|);
  }
}
