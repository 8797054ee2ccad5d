/** The event log of a block against the chain: which events it holds, in which order, and what each one says. */
module EventLog {
  import opened Text
  import opened Ledger
  import opened Index
  import opened Processing
  import opened Runs
  import opened Chronicle

  /** The place of an output or input in a block: the transaction and the index in it. */
  datatype Spot = Spot(tx: nat, index: nat)

  predicate Earlier(a: Spot, b: Spot) {
    a.tx < b.tx || (a.tx == b.tx && a.index < b.index)
  }

  ghost predicate InOrder(spots: seq<Spot>) {
    forall i, j | 0 <= i < j < |spots| :: Earlier(spots[i], spots[j])
  }

  // ---- Created outputs -----------------------------------------------------------------------

  predicate IsTracked(cfg: Config, b: Block, s: Spot) {
    s.tx < |b.txs| && s.index < |b.txs[s.tx].outputs| && cfg.filter.Tracks(b.txs[s.tx].outputs[s.index].address)
  }

  /** The keys created by the first j transactions and the first k outputs of the next one. */
  ghost predicate CreatedAre(cfg: Config, b: Block, j: nat, k: nat, created: seq<string>, spots: seq<Spot>) {
    && |created| == |spots| && InOrder(spots)
    && (forall s :: s in spots <==> IsTracked(cfg, b, s) && Earlier(s, Spot(j, k)))
    && (forall i | 0 <= i < |spots| ::
          IsTracked(cfg, b, spots[i]) && created[i] == UtxoKey(b.txs[spots[i].tx].hash, spots[i].index))
  }

  lemma {:induction false} SpendKeepsCreated(w: Work, inputs: seq<OutRef>, spend: SpendEvent)
    ensures SpendInputs(w, inputs, spend).created == w.created
  {
    if inputs != [] {
      SpendKeepsCreated(w, inputs[..|inputs| - 1], spend);
    }
  }

  lemma {:induction false} OutputsCreate(cfg: Config, b: Block, j: nat, k: nat, w: Work, before: seq<Spot>)
    returns (spots: seq<Spot>)
    requires j < |b.txs| && k <= |b.txs[j].outputs| && CreatedAre(cfg, b, j, 0, w.created, before)
    ensures CreatedAre(cfg, b, j, k, CreateOutputs(w, cfg, b, j, k).created, spots)
  {
    hide UtxoKey, AddUtxo, NewUtxo, CreatedAre;
    spots := before;
    if k > 0 {
      spots := OutputsCreate(cfg, b, j, k - 1, w, before);
      var made := CreateOutputs(w, cfg, b, j, k - 1).created;
      if cfg.filter.Tracks(b.txs[j].outputs[k - 1].address) {
        OneMoreCreated(cfg, b, j, k - 1, made, spots);
        spots := spots + [Spot(j, k - 1)];
      } else {
        OneMoreSkipped(cfg, b, j, k - 1, made, spots);
      }
    }
  }

  lemma OneMoreCreated(cfg: Config, b: Block, j: nat, k: nat, created: seq<string>, spots: seq<Spot>)
    requires CreatedAre(cfg, b, j, k, created, spots) && IsTracked(cfg, b, Spot(j, k))
    ensures CreatedAre(cfg, b, j, k + 1, created + [UtxoKey(b.txs[j].hash, k)], spots + [Spot(j, k)])
  {
    hide UtxoKey;
    var all := spots + [Spot(j, k)];
    forall i | 0 <= i < |spots| ensures Earlier(spots[i], Spot(j, k)) {
      assert spots[i] in spots;
    }
  }

  lemma OneMoreSkipped(cfg: Config, b: Block, j: nat, k: nat, created: seq<string>, spots: seq<Spot>)
    requires CreatedAre(cfg, b, j, k, created, spots) && !IsTracked(cfg, b, Spot(j, k))
    ensures CreatedAre(cfg, b, j, k + 1, created, spots)
  {
    hide UtxoKey;
  }

  lemma NextTx(cfg: Config, b: Block, j: nat, created: seq<string>, spots: seq<Spot>)
    requires j < |b.txs| && CreatedAre(cfg, b, j, |b.txs[j].outputs|, created, spots)
    ensures CreatedAre(cfg, b, j + 1, 0, created, spots)
  {
    hide UtxoKey, InOrder;
  }

  lemma NothingCreated(cfg: Config, b: Block)
    ensures CreatedAre(cfg, b, 0, 0, [], [])
  {
  }

  lemma {:induction false} TxsCreate(cfg: Config, b: Block, n: nat, t: Trees) returns (spots: seq<Spot>)
    requires n <= |b.txs|
    ensures CreatedAre(cfg, b, n, 0, ProcessTxs(Start(t), cfg, b, n).created, spots)
  {
    hide CreatedAre, SpendInputs, CreateOutputs;
    spots := [];
    if n == 0 {
      NothingCreated(cfg, b);
    } else {
      spots := TxsCreate(cfg, b, n - 1, t);
      var w := ProcessTxs(Start(t), cfg, b, n - 1);
      var w1 := SpendInputs(w, b.txs[n - 1].inputs, SpendOf(cfg, b, n - 1));
      SpendKeepsCreated(w, b.txs[n - 1].inputs, SpendOf(cfg, b, n - 1));
      spots := OutputsCreate(cfg, b, n - 1, |b.txs[n - 1].outputs|, w1, spots);
      NextTx(cfg, b, n - 1, CreateOutputs(w1, cfg, b, n - 1, |b.txs[n - 1].outputs|).created, spots);
    }
  }

  /** Which outputs of block n a list of creation events is about. */
  ghost predicate CreationsAre(cfg: Config, chain: seq<Block>, n: nat, events: seq<BlockEvent>, spots: seq<Spot>)
    requires n < |chain|
  {
    && |events| == |spots| && InOrder(spots)
    && (forall s :: s in spots <==> Unspent(cfg, chain, Place(n + 1, 0), Place(n, s.tx), s.index))
    && (forall i | 0 <= i < |spots| :: CreationOf(cfg, chain, Place(n, spots[i].tx), spots[i].index, events[i]))
  }

  ghost predicate CreationOf(cfg: Config, chain: seq<Block>, p: Place, k: nat, e: BlockEvent) {
    e.Created? && e.key == KeyAt(chain, p, k) && Describes(cfg, chain, p, k, e.data)
  }

  /** The event is the creation of the live output at this spot. */
  ghost predicate LoggedFor(utxos: map<string, UtxoData>, created: seq<string>, all: seq<Spot>, s: Spot, e: BlockEvent)
    requires |created| == |all|
  {
    exists i :: 0 <= i < |all| && all[i] == s && created[i] in utxos && e == Created(created[i], utxos[created[i]])
  }

  /** The created outputs that are still live, as CreatedEvents filters them. */
  lemma {:induction false} LiveOnesLogged(utxos: map<string, UtxoData>, created: seq<string>, all: seq<Spot>)
    returns (spots: seq<Spot>)
    requires |created| == |all| && InOrder(all)
    ensures |CreatedEvents(utxos, created)| == |spots| && InOrder(spots)
    ensures forall s :: s in spots <==> exists i :: 0 <= i < |all| && all[i] == s && created[i] in utxos
    ensures forall m | 0 <= m < |spots| :: LoggedFor(utxos, created, all, spots[m], CreatedEvents(utxos, created)[m])
  {
    if all == [] {
      spots := [];
    } else {
      var n := |all| - 1;
      var before := LiveOnesLogged(utxos, created[..n], all[..n]);
      spots := before;
      assert forall i | 0 <= i < n :: created[..n][i] == created[i] && all[..n][i] == all[i];
      assert all[n] == all[n];
      if created[n] in utxos {
        forall m | 0 <= m < |spots| ensures Earlier(spots[m], all[n]) {
          assert spots[m] in spots;
        }
        spots := spots + [all[n]];
      }
      var events := CreatedEvents(utxos, created);
      forall m | 0 <= m < |spots| ensures LoggedFor(utxos, created, all, spots[m], events[m]) {
        if m < |before| {
          assert LoggedFor(utxos, created[..n], all[..n], before[m], CreatedEvents(utxos, created[..n])[m]);
        }
      }
    }
  }

  /** A key names one output of an admissible chain. */
  lemma KeyNamesOne(cfg: Config, chain: seq<Block>, p: Place, k: nat, p': Place, k': nat)
    requires ChainOk(cfg, chain) && On(chain, p) && On(chain, p') && KeyAt(chain, p, k) == KeyAt(chain, p', k')
    ensures p == p' && k == k'
  {
    hide UtxoKey, ReplayTo;
    UtxoKeyInjective(TxAt(chain, p).hash, k, TxAt(chain, p').hash, k');
    assert Follows(cfg, chain, p.block) && Follows(cfg, chain, p'.block);
  }

  lemma LiveAtKey(cfg: Config, chain: seq<Block>, q: Place, p: Place, k: nat, utxos: map<string, UtxoData>)
    requires ChainOk(cfg, chain) && On(chain, p)
    requires forall key | key in utxos :: IsLive(cfg, chain, q, key, utxos[key])
    requires KeyAt(chain, p, k) in utxos
    ensures Unspent(cfg, chain, q, p, k) && Describes(cfg, chain, p, k, utxos[KeyAt(chain, p, k)])
  {
    hide Unspent, Describes, KeyAt, ChainOk;
    var key := KeyAt(chain, p, k);
    assert IsLive(cfg, chain, q, key, utxos[key]);
    var p', k' :| Unspent(cfg, chain, q, p', k') && KeyAt(chain, p', k') == key
                  && Describes(cfg, chain, p', k', utxos[key]);
    UnspentIsOn(cfg, chain, q, p', k');
    KeyNamesOne(cfg, chain, p, k, p', k');
  }

  lemma UnspentIsOn(cfg: Config, chain: seq<Block>, q: Place, p: Place, k: nat)
    requires Unspent(cfg, chain, q, p, k)
    ensures On(chain, p) && Before(p, q) && k < |TxAt(chain, p).outputs|
    ensures IsTracked(cfg, chain[p.block], Spot(p.tx, k))
  {
  }

  lemma CreationsLogged(cfg: Config, chain: seq<Block>, n: nat, utxos: map<string, UtxoData>, created: seq<string>,
                        all: seq<Spot>) returns (spots: seq<Spot>)
    requires ChainOk(cfg, chain) && n < |chain| && CreatedAre(cfg, chain[n], |chain[n].txs|, 0, created, all)
    requires forall key | key in utxos :: IsLive(cfg, chain, Place(n + 1, 0), key, utxos[key])
    requires forall p, k | Unspent(cfg, chain, Place(n + 1, 0), p, k) :: KeyAt(chain, p, k) in utxos
    ensures CreationsAre(cfg, chain, n, CreatedEvents(utxos, created), spots)
  {
    hide Unspent, Describes, UtxoKey, ChainOk, InOrder, CreatedEvents, IsLive;
    var q := Place(n + 1, 0);
    spots := LiveOnesLogged(utxos, created, all);
    forall i | 0 <= i < |all|
      ensures On(chain, Place(n, all[i].tx)) && created[i] == KeyAt(chain, Place(n, all[i].tx), all[i].index)
    {
    }
    forall s ensures s in spots <==> Unspent(cfg, chain, q, Place(n, s.tx), s.index) {
      if s in spots {
        var i :| 0 <= i < |all| && all[i] == s && created[i] in utxos;
        LiveAtKey(cfg, chain, q, Place(n, s.tx), s.index, utxos);
      }
      if Unspent(cfg, chain, q, Place(n, s.tx), s.index) {
        UnspentIsOn(cfg, chain, q, Place(n, s.tx), s.index);
        assert s in all;
        var i :| 0 <= i < |all| && all[i] == s;
      }
    }
    var events := CreatedEvents(utxos, created);
    forall m | 0 <= m < |spots| ensures CreationOf(cfg, chain, Place(n, spots[m].tx), spots[m].index, events[m]) {
      assert LoggedFor(utxos, created, all, spots[m], events[m]);
      var i :| 0 <= i < |all| && all[i] == spots[m] && created[i] in utxos
               && events[m] == Created(created[i], utxos[created[i]]);
      LiveAtKey(cfg, chain, q, Place(n, spots[m].tx), spots[m].index, utxos);
    }
  }

  // ---- Spends --------------------------------------------------------------------------------

  function RefAt(b: Block, s: Spot): string {
    if s.tx < |b.txs| && s.index < |b.txs[s.tx].inputs|
    then UtxoKey(b.txs[s.tx].inputs[s.index].txHash, b.txs[s.tx].inputs[s.index].index) else ""
  }

  /** This input spends a live output: the first one of its transaction that names it. */
  ghost predicate Spends(cfg: Config, chain: seq<Block>, n: nat, s: Spot)
    requires n < |chain|
  {
    && s.tx < |chain[n].txs| && s.index < |chain[n].txs[s.tx].inputs|
    && !Named(chain[n].txs[s.tx].inputs[..s.index], RefAt(chain[n], s))
    && exists p, k :: Unspent(cfg, chain, Place(n, s.tx), p, k) && KeyAt(chain, p, k) == RefAt(chain[n], s)
  }

  /** The spend records of the first j transactions and the first m inputs of the next one. */
  ghost predicate SpendsAre(cfg: Config, chain: seq<Block>, n: nat, j: nat, m: nat, spent: seq<SpentRecord>,
                            spots: seq<Spot>)
    requires n < |chain|
  {
    && |spent| == |spots| && InOrder(spots)
    && (forall s :: s in spots <==> Spends(cfg, chain, n, s) && Earlier(s, Spot(j, m)))
    && (forall i | 0 <= i < |spots| :: SpendOfSpot(cfg, chain, n, spots[i], spent[i]))
  }

  /** The record names the output, says what the chain says about it, and what it says about the spending transaction.
      */
  ghost predicate SpendOfSpot(cfg: Config, chain: seq<Block>, n: nat, s: Spot, r: SpentRecord)
    requires n < |chain|
  {
    && r.key == RefAt(chain[n], s) && Tells(cfg, chain, Place(n, s.tx), r.spend)
    && IsLive(cfg, chain, Place(n, s.tx), r.key, r.data)
  }

  lemma OneMoreSpent(cfg: Config, chain: seq<Block>, n: nat, j: nat, m: nat, spent: seq<SpentRecord>, spots: seq<Spot>,
                     r: SpentRecord)
    requires n < |chain| && SpendsAre(cfg, chain, n, j, m, spent, spots)
    requires Spends(cfg, chain, n, Spot(j, m)) && SpendOfSpot(cfg, chain, n, Spot(j, m), r)
    ensures SpendsAre(cfg, chain, n, j, m + 1, spent + [r], spots + [Spot(j, m)])
  {
    hide Spends, SpendOfSpot;
    forall i | 0 <= i < |spots| ensures Earlier(spots[i], Spot(j, m)) {
      assert spots[i] in spots;
    }
  }

  lemma OneMoreIgnored(cfg: Config, chain: seq<Block>, n: nat, j: nat, m: nat, spent: seq<SpentRecord>,
                       spots: seq<Spot>)
    requires n < |chain| && SpendsAre(cfg, chain, n, j, m, spent, spots) && !Spends(cfg, chain, n, Spot(j, m))
    ensures SpendsAre(cfg, chain, n, j, m + 1, spent, spots)
  {
    hide Spends, SpendOfSpot;
  }

  lemma NextSpender(cfg: Config, chain: seq<Block>, n: nat, j: nat, spent: seq<SpentRecord>, spots: seq<Spot>)
    requires n < |chain| && j < |chain[n].txs| && SpendsAre(cfg, chain, n, j, |chain[n].txs[j].inputs|, spent, spots)
    ensures SpendsAre(cfg, chain, n, j + 1, 0, spent, spots)
  {
    hide SpendOfSpot, InOrder, Named;
  }

  /** Spending one input, with what is live before its transaction in u. */
  lemma {:induction false} InputsSpend(cfg: Config, chain: seq<Block>, n: nat, j: nat, m: nat, w: Work,
                                       before: seq<Spot>) returns (spots: seq<Spot>)
    requires n < |chain| && j < |chain[n].txs| && m <= |chain[n].txs[j].inputs|
    requires Holds(cfg, chain, Place(n, j), w.trees.utxos, w.trees.spent)
    requires SpendsAre(cfg, chain, n, j, 0, w.spent, before)
    ensures var w' := SpendInputs(w, chain[n].txs[j].inputs[..m], SpendOf(cfg, chain[n], j));
            SpendsAre(cfg, chain, n, j, m, w'.spent, spots)
    decreases m
  {
    hide UtxoKey, RemoveUtxo, SpendOf, SpendsAre, Spends, Holds, SpendOfSpot;
    var inputs, spend := chain[n].txs[j].inputs, SpendOf(cfg, chain[n], j);
    spots := before;
    if m > 0 {
      var i := m - 1;
      spots := InputsSpend(cfg, chain, n, j, i, w, before);
      var w1 := SpendInputs(w, inputs[..i], spend);
      var key := UtxoKey(inputs[i].txHash, inputs[i].index);
      assert inputs[..m][..i] == inputs[..i] && inputs[..m][i] == inputs[i];
      SpendInputsMove(w, inputs[..i], spend);
      SpendsExactly(cfg, chain, n, Spot(j, i), w.trees.utxos, w.trees.spent);
      if key in w1.trees.utxos {
        SpendTells(cfg, chain, Place(n, j));
        RecordFits(cfg, chain, n, Spot(j, i), w.trees.utxos, w.trees.spent,
                   SpentRecord(key, w1.trees.utxos[key], spend));
        OneMoreSpent(cfg, chain, n, j, i, w1.spent, spots, SpentRecord(key, w1.trees.utxos[key], spend));
        spots := spots + [Spot(j, i)];
      } else {
        OneMoreIgnored(cfg, chain, n, j, i, w1.spent, spots);
      }
    }
  }

  lemma SpendsExactly(cfg: Config, chain: seq<Block>, n: nat, s: Spot, utxos: map<string, UtxoData>,
                      spent: map<string, SpendEvent>)
    requires n < |chain| && s.tx < |chain[n].txs| && s.index < |chain[n].txs[s.tx].inputs|
    requires Holds(cfg, chain, Place(n, s.tx), utxos, spent)
    ensures Spends(cfg, chain, n, s)
            <==> RefAt(chain[n], s) in utxos && !Named(chain[n].txs[s.tx].inputs[..s.index], RefAt(chain[n], s))
  {
    hide Unspent, Describes, Named, RefAt, IsSpent, SpentAt;
    var key, q := RefAt(chain[n], s), Place(n, s.tx);
    if key in utxos {
      assert IsLive(cfg, chain, q, key, utxos[key]);
    }
  }

  lemma RecordFits(cfg: Config, chain: seq<Block>, n: nat, s: Spot, utxos: map<string, UtxoData>,
                   spent: map<string, SpendEvent>, r: SpentRecord)
    requires n < |chain| && Holds(cfg, chain, Place(n, s.tx), utxos, spent)
    requires r.key == RefAt(chain[n], s) && r.key in utxos && r.data == utxos[r.key]
    requires Tells(cfg, chain, Place(n, s.tx), r.spend)
    ensures SpendOfSpot(cfg, chain, n, s, r)
  {
    hide IsLive, Tells, IsSpent, SpentAt, Unspent;
  }

  lemma NothingSpent(cfg: Config, chain: seq<Block>, n: nat)
    requires n < |chain|
    ensures SpendsAre(cfg, chain, n, 0, 0, [], [])
  {
  }

  lemma {:induction false} TxsSpend(cfg: Config, chain: seq<Block>, n: nat, j: nat, t: Trees) returns (spots: seq<Spot>)
    requires n < |chain| && j <= |chain[n].txs| && Holds(cfg, chain, Place(n, 0), t.utxos, t.spent)
    ensures SpendsAre(cfg, chain, n, j, 0, ProcessTxs(Start(t), cfg, chain[n], j).spent, spots)
    decreases j
  {
    hide SpendsAre, SpendInputs, CreateOutputs, Holds, SpendOf;
    spots := [];
    if j == 0 {
      NothingSpent(cfg, chain, n);
    } else {
      var i := j - 1;
      var w, inputs := ProcessTxs(Start(t), cfg, chain[n], i), chain[n].txs[i].inputs;
      spots := TxsSpend(cfg, chain, n, i, t);
      BlockHolds(cfg, chain, n, i, t);
      spots := InputsSpend(cfg, chain, n, i, |inputs|, w, spots);
      assert inputs[..|inputs|] == inputs;
      var w1 := SpendInputs(w, inputs, SpendOf(cfg, chain[n], i));
      CreateOutputsAdd(w1, cfg, chain[n], i, |chain[n].txs[i].outputs|);
      NextSpender(cfg, chain, n, i, w1.spent, spots);
    }
  }

  lemma {:induction false} SpentEventsAre(spent: seq<SpentRecord>)
    ensures forall i | 0 <= i < |spent| :: SpentEvents(spent)[i] == Spent(spent[i].key, spent[i].data, spent[i].spend)
  {
    if spent != [] {
      SpentEventsAre(spent[..|spent| - 1]);
    }
  }

  // ---- The log of a block --------------------------------------------------------------------

  /** Which inputs of block n a list of spend events is about. */
  ghost predicate SpendingsAre(cfg: Config, chain: seq<Block>, n: nat, events: seq<BlockEvent>, spots: seq<Spot>)
    requires n < |chain|
  {
    && |events| == |spots| && InOrder(spots)
    && (forall s :: s in spots <==> Spends(cfg, chain, n, s))
    && (forall i | 0 <= i < |spots| ::
          events[i].Spent?
          && SpendOfSpot(cfg, chain, n, spots[i], SpentRecord(events[i].key, events[i].data, events[i].spend)))
  }

  /** What a block logs: one creation for each of its outputs that is still live after it, in order, then one spend for
      each of its inputs that spends a live output, in order; and each event says what the chain says. */
  lemma LogSaysWhatHappened(cfg: Config, chain: seq<Block>, n: nat) returns (made: seq<Spot>, used: seq<Spot>)
    requires ChainOk(cfg, chain) && n < |chain|
    ensures var events := LoggedBy(cfg, chain, n);
            && |made| <= |events|
            && CreationsAre(cfg, chain, n, events[..|made|], made)
            && SpendingsAre(cfg, chain, n, events[|made|..], used)
  {
    hide ReplayTo, ProcessTxs, Holds, CreatedAre, SpendsAre, CreationsAre, CreatedEvents, SpentEvents, ChainOk;
    var b, t := chain[n], ReplayTo(cfg, chain, n);
    var w := WorkOf(t, cfg, b);
    ReplayHolds(cfg, chain, n);
    BlockHolds(cfg, chain, n, |b.txs|, t);
    BlockEnds(cfg, chain, n, w.trees.utxos, w.trees.spent);
    var all := TxsCreate(cfg, b, |b.txs|, t);
    HoldsLive(cfg, chain, Place(n + 1, 0), w.trees.utxos, w.trees.spent);
    made := CreationsLogged(cfg, chain, n, w.trees.utxos, w.created, all);
    used := TxsSpend(cfg, chain, n, |b.txs|, t);
    CreationsHaveLength(cfg, chain, n, CreatedEvents(w.trees.utxos, w.created), made);
    SpendsLogged(cfg, chain, n, w.spent, used);
    var events := LoggedBy(cfg, chain, n);
    assert events[..|made|] == CreatedEvents(w.trees.utxos, w.created);
    assert events[|made|..] == SpentEvents(w.spent);
  }

  lemma HoldsLive(cfg: Config, chain: seq<Block>, q: Place, utxos: map<string, UtxoData>,
                  spent: map<string, SpendEvent>)
    requires Holds(cfg, chain, q, utxos, spent)
    ensures forall key | key in utxos :: IsLive(cfg, chain, q, key, utxos[key])
    ensures forall p, k | Unspent(cfg, chain, q, p, k) :: KeyAt(chain, p, k) in utxos
  {
  }

  lemma CreationsHaveLength(cfg: Config, chain: seq<Block>, n: nat, events: seq<BlockEvent>, spots: seq<Spot>)
    requires n < |chain| && CreationsAre(cfg, chain, n, events, spots)
    ensures |events| == |spots|
  {
  }

  lemma SpendsLogged(cfg: Config, chain: seq<Block>, n: nat, spent: seq<SpentRecord>, spots: seq<Spot>)
    requires n < |chain| && SpendsAre(cfg, chain, n, |chain[n].txs|, 0, spent, spots)
    ensures SpendingsAre(cfg, chain, n, SpentEvents(spent), spots)
  {
    hide SpentEvents, SpendOfSpot, InOrder, Named;
    SpentEventsAre(spent);
  }
}
