/** The sync loop, and what other tasks see of the trees between two of its storage commands. */
module Commands {
  import opened Text
  import opened Ledger
  import opened Index
  import opened Processing
  import opened Undo
  import opened Machine
  import opened Processor
  import opened Storage
  import opened Queries
  import opened Runs

  /** The address of every live UTxO is the one its transaction names. */
  ghost predicate Genuine(origin: string -> Hex, utxos: map<string, UtxoData>) {
    forall k | k in utxos :: utxos[k].address == origin(k)
  }

  ghost predicate GenuineRecords(origin: string -> Hex, spent: seq<SpentRecord>) {
    forall i | 0 <= i < |spent| :: spent[i].data.address == origin(spent[i].key)
  }

  ghost predicate BlockAnnounces(origin: string -> Hex, b: Block) {
    forall j | 0 <= j < |b.txs| :: Announces(origin, b.txs[j])
  }

  lemma {:induction false} SpendInputsGenuine(origin: string -> Hex, w: Work, inputs: seq<OutRef>, spend: SpendEvent)
    requires Genuine(origin, w.trees.utxos) && GenuineRecords(origin, w.spent)
    ensures var w' := SpendInputs(w, inputs, spend); Genuine(origin, w'.trees.utxos) && GenuineRecords(origin, w'.spent)
  {
    hide SetBalance, GetBalance, SaturatingSub, IndexKey, UtxoKey;
    if inputs != [] {
      SpendInputsGenuine(origin, w, inputs[..|inputs| - 1], spend);
    }
  }

  lemma {:induction false} CreateOutputsGenuine(origin: string -> Hex, w: Work, cfg: Config, b: Block, j: nat, n: nat)
    requires j < |b.txs| && n <= |b.txs[j].outputs| && Announces(origin, b.txs[j])
    requires Genuine(origin, w.trees.utxos)
    ensures var w' := CreateOutputs(w, cfg, b, j, n); Genuine(origin, w'.trees.utxos) && w'.spent == w.spent
  {
    hide SetBalance, GetBalance, WrappingAdd, IndexKey, UtxoKey;
    if n > 0 {
      CreateOutputsGenuine(origin, w, cfg, b, j, n - 1);
    }
  }

  lemma {:induction false} ProcessTxsGenuine(origin: string -> Hex, t: Trees, cfg: Config, b: Block, n: nat)
    requires n <= |b.txs| && BlockAnnounces(origin, b) && Genuine(origin, t.utxos)
    ensures var w := ProcessTxs(Start(t), cfg, b, n); Genuine(origin, w.trees.utxos) && GenuineRecords(origin, w.spent)
  {
    hide SpendInputs, CreateOutputs, Genuine;
    if n > 0 {
      ProcessTxsGenuine(origin, t, cfg, b, n - 1);
      var w := ProcessTxs(Start(t), cfg, b, n - 1);
      SpendInputsGenuine(origin, w, b.txs[n - 1].inputs, SpendOf(cfg, b, n - 1));
      CreateOutputsGenuine(origin, SpendInputs(w, b.txs[n - 1].inputs, SpendOf(cfg, b, n - 1)), cfg, b, n - 1,
                           |b.txs[n - 1].outputs|);
    }
  }

  ghost predicate ChainAnnounces(origin: string -> Hex, chain: seq<Block>) {
    forall i | 0 <= i < |chain| :: BlockAnnounces(origin, chain[i])
  }

  lemma {:induction false} ReplayGenuine(origin: string -> Hex, cfg: Config, chain: seq<Block>, n: nat)
    requires n <= |chain| && ChainAnnounces(origin, chain)
    ensures Genuine(origin, ReplayTo(cfg, chain, n).utxos)
  {
    hide ProcessTxs, BlockEvents, WriteEvents, BlockAnnounces, GenuineRecords;
    if n > 0 {
      ReplayGenuine(origin, cfg, chain, n - 1);
      ProcessTxsGenuine(origin, ReplayTo(cfg, chain, n - 1), cfg, chain[n - 1], |chain[n - 1].txs|);
    }
  }

  /** Between two operations the trees of an announced chain are sound. */
  lemma ReplaySound(origin: string -> Hex, cfg: Config, chain: seq<Block>, n: nat)
    requires n <= |chain| && ChainOk(cfg, chain) && ChainAnnounces(origin, chain)
    ensures Sound(origin, ReplayTo(cfg, chain, n))
  {
    hide ApplyBlock;
    ReplayQuiescent(cfg, chain, n);
    ReplayGenuine(origin, cfg, chain, n);
  }

  /** The undo record of a block just processed can be restored. */
  lemma InfoRestorable(origin: string -> Hex, t: Trees, cfg: Config, b: Block)
    requires Quiescent(t) && BlockFits(t, cfg, b) && BlockAnnounces(origin, b) && Genuine(origin, t.utxos)
    ensures Restorable(origin, ApplyBlock(t, cfg, b), InfoOf(t, cfg, b).utxosSpent)
  {
    hide WriteEvents, BlockEvents, ProcessTxs, Quiescent, Genuine, BlockAnnounces;
    var w := WorkOf(t, cfg, b);
    ProcessTxsSteps(t, cfg, b, |b.txs|);
    ProcessTxsGenuine(origin, t, cfg, b, |b.txs|);
    forall i | 0 <= i < |w.spent| ensures w.spent[i].key !in w.trees.utxos {
      RecordsKeys(w.spent, i);
    }
  }

  /** Each undo record the loop pops can be restored when its turn comes, whatever is in the event log. */
  lemma {:induction false} UnwindIsSafe(origin: string -> Hex, cfg: Config, chain: seq<Block>, n: nat,
                                        buffer: seq<RollbackInfo>, target: nat, e: map<string, BlockEvent>)
    requires ChainOk(cfg, chain) && ChainAnnounces(origin, chain) && n <= |chain| && Buffers(cfg, buffer, chain, n)
    ensures UnwindSafe(origin, ReplayTo(cfg, chain, n).(events := e), buffer, target)
  {
    hide ApplyBlock, InfoOf, UndoBlock, WorkOf, DeleteEvents;
    if buffer != [] {
      var last := |buffer| - 1;
      assert buffer[last] == InfoAt(cfg, chain, n - 1);
      ReplayQuiescent(cfg, chain, n - 1);
      ReplayGenuine(origin, cfg, chain, n - 1);
      FollowsFits(cfg, chain, n - 1);
      InfoRestorable(origin, ReplayTo(cfg, chain, n - 1), cfg, chain[n - 1]);
      UndoNext(cfg, chain, n, buffer, e);
      UnwindIsSafe(origin, cfg, chain, n - 1, buffer[..last], target, DeleteEvents(e, buffer[last].slot, 0));
    }
  }

  lemma NextIsCreatable(origin: string -> Hex, cfg: Config, chain: seq<Block>, b: Block)
    requires ChainOk(cfg, chain) && Follows(cfg, chain + [b], |chain|) && BlockAnnounces(origin, b)
    ensures Creatable(origin, Replay(cfg, chain), b)
  {
    hide ApplyBlock;
    forall j | 0 <= j < |b.txs| ensures Unborn(Replay(cfg, chain), b.txs[j].hash, 0) {
      assert NewTx(chain + [b], |chain|, b.txs[j].hash);
      assert forall i | 0 <= i < |chain| :: (chain + [b])[i] == chain[i];
      ReplayFresh(cfg, chain, |chain|, b.txs[j].hash);
      assert FreshTx(Replay(cfg, chain), b.txs[j].hash);
    }
  }

  ghost predicate StepsAnnounce(origin: string -> Hex, steps: seq<Step>) {
    forall i | 0 <= i < |steps| :: steps[i].Process? ==> BlockAnnounces(origin, steps[i].block)
  }

  lemma SurvivorsAnnounce(origin: string -> Hex, n: Node, chain: seq<Block>, s: Step)
    requires ChainAnnounces(origin, chain) && (s.Process? ==> BlockAnnounces(origin, s.block))
    ensures ChainAnnounces(origin, Survivors(n, chain, s))
  {
  }

  /** What the node's state guarantees about the commands of its next step. */
  ghost predicate ReadyFor(origin: string -> Hex, n: Node, s: Step) {
    && Sound(origin, n.trees)
    && match s
       case Process(b, _) => Accepts(n, b) ==> Creatable(origin, n.trees, b)
       case RollBack(target) => UnwindSafe(origin, n.trees, n.buffer, target)
  }

  lemma ReachableIsReady(origin: string -> Hex, cfg: Config, n: Node, chain: seq<Block>, s: Step)
    requires NodeOk(cfg, n, chain) && Admissible(cfg, n, chain, s)
    requires ChainAnnounces(origin, chain) && (s.Process? ==> BlockAnnounces(origin, s.block))
    ensures ReadyFor(origin, n, s)
  {
    hide ApplyBlock, InfoOf, UndoBlock, WorkOf, Sound, Creatable, UnwindSafe;
    ReplaySound(origin, cfg, chain, |chain|);
    match s {
      case Process(b, _) => if Accepts(n, b) { NextIsCreatable(origin, cfg, chain, b); }
      case RollBack(target) => UnwindIsSafe(origin, cfg, chain, |chain|, n.buffer, target, n.trees.events);
    }
  }

  /** The run after one more step. */
  lemma RunSnoc(cfg: Config, steps: seq<Step>, i: nat)
    requires i < |steps|
    ensures var (n, chain) := Run(cfg, steps[..i]);
            && Run(cfg, steps[..i + 1]) == (Take(n, cfg, steps[i]), Survivors(n, chain, steps[i]))
            && (AdmissibleRun(cfg, steps[..i + 1]) <==>
                AdmissibleRun(cfg, steps[..i]) && Admissible(cfg, n, chain, steps[i]))
  {
    hide Take, Survivors, Admissible;
    assert steps[..i + 1][..i] == steps[..i];
  }

  lemma {:induction false} AdmissiblePrefix(cfg: Config, steps: seq<Step>, i: nat)
    requires AdmissibleRun(cfg, steps) && i <= |steps|
    ensures AdmissibleRun(cfg, steps[..i])
    decreases |steps|
  {
    hide Admissible, Run;
    assert steps[..|steps|] == steps;
    if i < |steps| {
      AdmissiblePrefix(cfg, steps[..|steps| - 1], i);
      assert steps[..|steps| - 1][..i] == steps[..i];
    }
  }

  /** A processor on a store opened for the first time is where every run starts. */
  method StartEmpty(cfg: Config, ghost origin: string -> Hex) returns (p: BlockProcessor)
    ensures fresh(p) && fresh(p.storage) && p.cfg == cfg && p.storage.origin == origin
    ensures p.View() == INITIAL && p.storage.history == []
  {
    var storage := new NetworkStorage(origin);
    p := new BlockProcessor(storage, cfg);
  }

  /** Follow the node: forward a block or roll back, one message at a time. On every admissible run
      the trees are sound after each single storage command, mid-block and mid-rollback included, and
      every read of UTxOs by address that interleaves with these commands is honest. */
  method Sync(p: BlockProcessor, steps: seq<Step>)
    requires p.View() == INITIAL && p.storage.history == []
    modifies p, p.storage
    ensures p.View() == Run(p.cfg, steps).0
    ensures AdmissibleRun(p.cfg, steps) && StepsAnnounce(p.storage.origin, steps) ==>
              p.storage.SoundSince(0) && ReadsAreHonest(p.storage.history)
  {
    hide ReadsAreHonest, Take, Survivors, Admissible, NodeOk, Sound, Creatable, UnwindSafe, Forward, Rollback,
         Effective, Accepts;
    ghost var safe := AdmissibleRun(p.cfg, steps) && StepsAnnounce(p.storage.origin, steps);
    EmptyRun(p.storage.origin, p.cfg);
    assert steps[..0] == [];
    for i := 0 to |steps|
      invariant p.View() == Run(p.cfg, steps[..i]).0
      invariant safe ==> p.storage.SoundSince(0)
      invariant safe ==> NodeOk(p.cfg, p.View(), Run(p.cfg, steps[..i]).1)
                         && ChainAnnounces(p.storage.origin, Run(p.cfg, steps[..i]).1)
    {
      ghost var (n, chain) := Run(p.cfg, steps[..i]);
      RunSnoc(p.cfg, steps, i);
      if safe {
        AdmissiblePrefix(p.cfg, steps, i + 1);
        ReachableIsReady(p.storage.origin, p.cfg, n, chain, steps[i]);
        StepKeepsReplay(p.cfg, n, chain, steps[i]);
        SurvivorsAnnounce(p.storage.origin, n, chain, steps[i]);
      }
      HandleMessage(p, steps[i]);
    }
    assert steps[..|steps|] == steps;
    if safe {
      SoundReadsAreHonest(p.storage.origin, p.storage.history);
    }
  }

  lemma EmptyRun(origin: string -> Hex, cfg: Config)
    ensures Run(cfg, []) == (INITIAL, []) && NodeOk(cfg, INITIAL, []) && ChainAnnounces(origin, [])
  {
  }

  method HandleMessage(p: BlockProcessor, s: Step)
    modifies p, p.storage
    ensures p.View() == Take(old(p.View()), p.cfg, s)
    ensures p.storage.Extends(old(p.storage.history))
    ensures ReadyFor(p.storage.origin, old(p.View()), s) ==> p.storage.SoundSince(|old(p.storage.history)|)
  {
    match s {
      case Process(b, nodeTip) => var _ := p.ProcessBlock(b, nodeTip);
      case RollBack(target) => var _ := p.RollbackTo(target);
    }
  }

  // ---- Reads from other tasks ----------------------------------------------------------------

  /** What `read_utxos` does for one address: it asks for the keys at one moment and for the UTxO of each key at later
      ones, with any commands in between. Moments count the storage commands handled so far. */
  datatype Lookup = Lookup(address: Hex, asked: nat, keys: seq<string>, fetched: seq<nat>)

  /** The lookups of a read, each answered from the trees of its moment. */
  ghost predicate Happened(history: seq<Trees>, read: seq<Lookup>) {
    forall i | 0 <= i < |read| :: Answered(history, read[i])
  }

  ghost predicate Answered(history: seq<Trees>, l: Lookup) {
    && l.asked < |history| && |l.fetched| == |l.keys|
    && (forall k :: k in l.keys <==> IndexKey(l.address, k) in history[l.asked].addressIndex)
    && (forall j | 0 <= j < |l.keys| :: l.asked <= l.fetched[j] < |history|)
    && (forall i, j | 0 <= i < j < |l.keys| :: l.fetched[i] <= l.fetched[j])
  }

  /** The entries one lookup contributes: a key that is gone by then is skipped. */
  ghost function FoundBy(history: seq<Trees>, l: Lookup, n: nat): seq<Entry>
    requires Answered(history, l) && n <= |l.keys|
  {
    if n == 0 then [] else
      var utxos := history[l.fetched[n - 1]].utxos;
      FoundBy(history, l, n - 1) + if l.keys[n - 1] in utxos then [Entry(l.keys[n - 1], utxos[l.keys[n - 1]])] else []
  }

  lemma HappenedBefore(history: seq<Trees>, read: seq<Lookup>)
    requires Happened(history, read) && read != []
    ensures Happened(history, read[..|read| - 1]) && Answered(history, read[|read| - 1])
  {
    hide Answered;
    assert forall i | 0 <= i < |read| - 1 :: read[..|read| - 1][i] == read[i];
  }

  ghost function Result(history: seq<Trees>, read: seq<Lookup>): seq<Entry>
    requires Happened(history, read)
  {
    if read == [] then [] else
      var last := read[|read| - 1];
      HappenedBefore(history, read);
      Result(history, read[..|read| - 1]) + FoundBy(history, last, |last.keys|)
  }

  /** Whatever a read returns was live while it ran and belongs to an address it asked for; and it misses no UTxO of
      such an address that was indexed when asked and lives on. */
  ghost predicate Honest(history: seq<Trees>, read: seq<Lookup>)
    requires Happened(history, read)
  {
    && (forall e | e in Result(history, read) :: Genuinely(history, read, e))
    && (forall i, k | 0 <= i < |read| && k in read[i].keys && LivesOn(history, read[i].asked, k) ::
          exists e :: e in Result(history, read) && e.key == k)
  }

  ghost predicate Genuinely(history: seq<Trees>, read: seq<Lookup>, e: Entry) {
    exists i, m :: 0 <= i < |read| && e.data.address == read[i].address && read[i].asked <= m < |history|
                   && e.key in history[m].utxos && history[m].utxos[e.key] == e.data
  }

  ghost predicate LivesOn(history: seq<Trees>, from: nat, key: string) {
    forall m | from <= m < |history| :: key in history[m].utxos
  }

  /** One key: whatever is found under it later belongs to the address it was listed for. */
  lemma LookupIsHonest(origin: string -> Hex, history: seq<Trees>, asked: nat, fetched: nat, address: Hex, key: string)
    requires asked <= fetched < |history|
    requires forall i | 0 <= i < |history| :: Sound(origin, history[i])
    requires IndexKey(address, key) in history[asked].addressIndex
    requires key in history[fetched].utxos
    ensures history[fetched].utxos[key].address == address
  {
    assert Sound(origin, history[asked]) && Sound(origin, history[fetched]);
    var k :| k in history[asked].utxos && IndexKey(address, key) == IndexKey(history[asked].utxos[k].address, k);
    IndexKeyInjective(address, key, history[asked].utxos[k].address, k);
  }

  ghost predicate FoundAt(history: seq<Trees>, l: Lookup, j: nat, e: Entry)
    requires Answered(history, l) && j < |l.keys|
  {
    var utxos := history[l.fetched[j]].utxos;
    e.key == l.keys[j] && e.key in utxos && e.data == utxos[e.key]
  }

  lemma {:induction false} FoundByMembers(history: seq<Trees>, l: Lookup, n: nat)
    requires Answered(history, l) && n <= |l.keys|
    ensures forall e | e in FoundBy(history, l, n) :: exists j :: 0 <= j < n && FoundAt(history, l, j, e)
    ensures forall j | 0 <= j < n && l.keys[j] in history[l.fetched[j]].utxos ::
              Entry(l.keys[j], history[l.fetched[j]].utxos[l.keys[j]]) in FoundBy(history, l, n)
  {
    if n > 0 {
      FoundByMembers(history, l, n - 1);
      forall e | e in FoundBy(history, l, n) ensures exists j :: 0 <= j < n && FoundAt(history, l, j, e) {
        if e !in FoundBy(history, l, n - 1) {
          assert FoundAt(history, l, n - 1, e);
        }
      }
    }
  }

  lemma FoundIsGenuine(origin: string -> Hex, history: seq<Trees>, read: seq<Lookup>, i: nat, e: Entry)
    requires Happened(history, read) && i < |read| && forall m | 0 <= m < |history| :: Sound(origin, history[m])
    requires Answered(history, read[i]) && e in FoundBy(history, read[i], |read[i].keys|)
    ensures Genuinely(history, read, e)
  {
    hide Sound, FoundBy;
    var l := read[i];
    FoundByMembers(history, l, |l.keys|);
    var j :| 0 <= j < |l.keys| && FoundAt(history, l, j, e);
    assert l.keys[j] in l.keys;
    LookupIsHonest(origin, history, l.asked, l.fetched[j], l.address, e.key);
  }

  lemma LivingIsFound(history: seq<Trees>, l: Lookup, k: string)
    requires Answered(history, l) && k in l.keys && LivesOn(history, l.asked, k)
    ensures exists e :: e in FoundBy(history, l, |l.keys|) && e.key == k
  {
    hide FoundBy;
    FoundByMembers(history, l, |l.keys|);
    var j :| 0 <= j < |l.keys| && l.keys[j] == k;
    assert Entry(k, history[l.fetched[j]].utxos[k]) in FoundBy(history, l, |l.keys|);
  }

  lemma {:induction false} InterleavedReadIsHonest(origin: string -> Hex, history: seq<Trees>, read: seq<Lookup>)
    requires Happened(history, read) && forall m | 0 <= m < |history| :: Sound(origin, history[m])
    ensures Honest(history, read)
  {
    hide Sound, FoundBy, Answered, LivesOn;
    if read != [] {
      var n := |read| - 1;
      var before, last := read[..n], read[n];
      HappenedBefore(history, read);
      InterleavedReadIsHonest(origin, history, before);
      var found := FoundBy(history, last, |last.keys|);
      assert Result(history, read) == Result(history, before) + found;
      forall e | e in Result(history, read) ensures Genuinely(history, read, e) {
        if e in found {
          FoundIsGenuine(origin, history, read, n, e);
        } else {
          StillGenuine(history, read, e);
        }
      }
      forall i, k | 0 <= i < |read| && k in read[i].keys && LivesOn(history, read[i].asked, k)
        ensures exists e :: e in Result(history, read) && e.key == k
      {
        if i == n {
          LivingIsFound(history, last, k);
        } else {
          assert before[i] == read[i];
          var e :| e in Result(history, before) && e.key == k;
          assert e in Result(history, read);
        }
      }
    }
  }

  lemma StillGenuine(history: seq<Trees>, read: seq<Lookup>, e: Entry)
    requires read != [] && Genuinely(history, read[..|read| - 1], e)
    ensures Genuinely(history, read, e)
  {
    var before := read[..|read| - 1];
    var i, m :| 0 <= i < |before| && e.data.address == before[i].address && before[i].asked <= m < |history|
                && e.key in history[m].utxos && history[m].utxos[e.key] == e.data;
    assert read[i] == before[i];
  }

  /** Every read of these states is honest, however its lookups interleave with the commands. */
  ghost predicate ReadsAreHonest(history: seq<Trees>) {
    forall read :: Happened(history, read) ==> Honest(history, read)
  }

  lemma SoundReadsAreHonest(origin: string -> Hex, history: seq<Trees>)
    requires forall m | 0 <= m < |history| :: Sound(origin, history[m])
    ensures ReadsAreHonest(history)
  {
    hide Sound, Honest, Happened;
    forall read | Happened(history, read) ensures Honest(history, read) {
      InterleavedReadIsHonest(origin, history, read);
    }
  }
}
