/** The storage task: one mutable object per network, changed by one command at a time. */
module Storage {
  import opened Wrappers
  import opened Text
  import opened Ledger
  import opened Index

  const TIP_KEY := "current_tip"

  function WalletTipKey(walletId: string): string {
    "wallet_tip:" + walletId
  }

  /** Each wallet has a tip of its own, and none of them is the chain tip. */
  lemma WalletTipKeysDiffer(a: string, b: string)
    ensures WalletTipKey(a) == WalletTipKey(b) ==> a == b
    ensures WalletTipKey(a) != TIP_KEY
  {
    assert WalletTipKey(a)[0] != TIP_KEY[0];
    assert WalletTipKey(a)[|WalletTipKey("")|..] == a && WalletTipKey(b)[|WalletTipKey("")|..] == b;
  }

  function NonZero(balances: map<Hex, nat>): map<Hex, nat> {
    map a | a in balances && balances[a] != 0 :: balances[a]
  }

  /** The resume point: the chain tip without wallets; nothing as soon as one wallet has no tip; otherwise a wallet tip
      with the smallest slot. */
  ghost predicate ResumesAt(tips: map<string, ChainTip>, walletIds: seq<string>, r: Option<ChainTip>) {
    && (walletIds == [] ==> r == if TIP_KEY in tips then Some(tips[TIP_KEY]) else None)
    && (walletIds != [] ==> (r == None <==> exists i :: 0 <= i < |walletIds| && WalletTipKey(walletIds[i]) !in tips))
    && (walletIds != [] && r.Some? ==>
          && (exists i :: 0 <= i < |walletIds| && WalletTipKey(walletIds[i]) in tips
                          && tips[WalletTipKey(walletIds[i])] == r.value)
          && (forall i | 0 <= i < |walletIds| ::
                WalletTipKey(walletIds[i]) in tips && r.value.slot <= tips[WalletTipKey(walletIds[i])].slot))
  }

  class NetworkStorage {
    var utxoTree: map<string, UtxoData>
    var balanceTree: map<Hex, nat>
    var addressUtxoIndex: set<string>
    var spentUtxoIndex: map<string, SpendEvent>
    var blockEventsTree: map<string, BlockEvent>
    var blockHashIndex: map<Hex, BlockMeta>
    var chainTipTree: map<string, ChainTip>
    ghost const origin: string -> Hex
    /** The trees after every command handled so far. */
    ghost var history: seq<Trees>

    ghost function View(): Trees
      reads this
    {
      Trees(utxoTree, NonZero(balanceTree), addressUtxoIndex, spentUtxoIndex, blockEventsTree, blockHashIndex)
    }

    /** Every state since the n-th command is sound. */
    ghost predicate SoundSince(n: nat)
      reads this
    {
      forall i | n <= i < |history| :: Sound(origin, history[i])
    }

    /** Commands only ever append to the history. */
    ghost predicate Extends(earlier: seq<Trees>)
      reads this
    {
      earlier <= history
    }

    constructor (ghost origin: string -> Hex)
      ensures this.origin == origin
      ensures View() == EMPTY && chainTipTree == map[] && history == []
    {
      utxoTree, balanceTree, addressUtxoIndex := map[], map[], {};
      spentUtxoIndex, blockEventsTree, blockHashIndex, chainTipTree := map[], map[], map[], map[];
      history := [];
      this.origin := origin;
    }

    method GetUtxo(key: string) returns (r: Option<UtxoData>)
      ensures r == if key in View().utxos then Some(View().utxos[key]) else None
    {
      r := if key in utxoTree then Some(utxoTree[key]) else None;
    }

    method InsertUtxo(key: string, data: UtxoData)
      modifies this`utxoTree, this`history
      ensures View() == old(View()).(utxos := old(View()).utxos[key := data])
      ensures history == old(history) + [View()]
    {
      utxoTree := utxoTree[key := data];
      history := history + [View()];
    }

    method DeleteUtxo(key: string)
      modifies this`utxoTree, this`history
      ensures View() == old(View()).(utxos := old(View()).utxos - {key})
      ensures history == old(history) + [View()]
    {
      utxoTree := utxoTree - {key};
      history := history + [View()];
    }

    /** A missing balance reads as 0. */
    method ReadBalance(address: Hex) returns (r: nat)
      ensures r == GetBalance(View().balances, address)
    {
      r := if address in balanceTree then balanceTree[address] else 0;
    }

    /** Overwrites; a stored zero stays in the tree but reads like a missing entry. */
    method UpdateBalance(address: Hex, amount: nat)
      modifies this`balanceTree, this`history
      ensures View() == old(View()).(balances := SetBalance(old(View()).balances, address, amount))
      ensures history == old(history) + [View()]
      ensures Sound(origin, old(View())) ==> Sound(origin, View())
    {
      balanceTree := balanceTree[address := amount];
      history := history + [View()];
      assert NonZero(balanceTree) == SetBalance(old(View()).balances, address, amount);
    }

    method AddUtxoToAddressIndex(address: Hex, utxoKey: string)
      modifies this`addressUtxoIndex, this`history
      ensures View() == old(View()).(addressIndex := old(View()).addressIndex + {IndexKey(address, utxoKey)})
      ensures history == old(history) + [View()]
    {
      addressUtxoIndex := addressUtxoIndex + {IndexKey(address, utxoKey)};
      history := history + [View()];
    }

    method RemoveUtxoFromAddressIndex(address: Hex, utxoKey: string)
      modifies this`addressUtxoIndex, this`history
      ensures View() == old(View()).(addressIndex := old(View()).addressIndex - {IndexKey(address, utxoKey)})
      ensures history == old(history) + [View()]
      ensures Sound(origin, old(View())) ==> Sound(origin, View())
    {
      addressUtxoIndex := addressUtxoIndex - {IndexKey(address, utxoKey)};
      history := history + [View()];
    }

    method InsertSpentUtxo(key: string, spend: SpendEvent)
      modifies this`spentUtxoIndex, this`history
      ensures View() == old(View()).(spent := old(View()).spent[key := spend])
      ensures history == old(history) + [View()]
      ensures Sound(origin, old(View())) ==> Sound(origin, View())
    {
      spentUtxoIndex := spentUtxoIndex[key := spend];
      history := history + [View()];
    }

    method DeleteSpentUtxo(key: string)
      modifies this`spentUtxoIndex, this`history
      ensures View() == old(View()).(spent := old(View()).spent - {key})
      ensures history == old(history) + [View()]
      ensures Sound(origin, old(View())) ==> Sound(origin, View())
    {
      spentUtxoIndex := spentUtxoIndex - {key};
      history := history + [View()];
    }

    method GetBlockEvent(key: string) returns (r: Option<BlockEvent>)
      ensures r == if key in View().events then Some(View().events[key]) else None
    {
      r := if key in blockEventsTree then Some(blockEventsTree[key]) else None;
    }

    method InsertBlockEvent(key: string, event: BlockEvent)
      modifies this`blockEventsTree, this`history
      ensures View() == old(View()).(events := old(View()).events[key := event])
      ensures history == old(history) + [View()]
      ensures Sound(origin, old(View())) ==> Sound(origin, View())
    {
      blockEventsTree := blockEventsTree[key := event];
      history := history + [View()];
    }

    method DeleteBlockEvent(key: string)
      modifies this`blockEventsTree, this`history
      ensures View() == old(View()).(events := old(View()).events - {key})
      ensures history == old(history) + [View()]
      ensures Sound(origin, old(View())) ==> Sound(origin, View())
    {
      blockEventsTree := blockEventsTree - {key};
      history := history + [View()];
    }

    method GetBlockMetadata(hash: Hex) returns (r: Option<BlockMeta>)
      ensures r == if hash in View().blocks then Some(View().blocks[hash]) else None
    {
      r := if hash in blockHashIndex then Some(blockHashIndex[hash]) else None;
    }

    method StoreBlockMetadata(hash: Hex, meta: BlockMeta)
      modifies this`blockHashIndex, this`history
      ensures View() == old(View()).(blocks := old(View()).blocks[hash := meta])
      ensures history == old(history) + [View()]
      ensures Sound(origin, old(View())) ==> Sound(origin, View())
    {
      blockHashIndex := blockHashIndex[hash := meta];
      history := history + [View()];
    }

    method DeleteBlockMetadata(hash: Hex)
      modifies this`blockHashIndex, this`history
      ensures View() == old(View()).(blocks := old(View()).blocks - {hash})
      ensures history == old(history) + [View()]
      ensures Sound(origin, old(View())) ==> Sound(origin, View())
    {
      blockHashIndex := blockHashIndex - {hash};
      history := history + [View()];
    }

    method GetChainTip() returns (r: Option<ChainTip>)
      ensures r == if TIP_KEY in chainTipTree then Some(chainTipTree[TIP_KEY]) else None
    {
      r := if TIP_KEY in chainTipTree then Some(chainTipTree[TIP_KEY]) else None;
    }

    method StoreChainTip(tip: ChainTip)
      modifies this`chainTipTree
      ensures chainTipTree == old(chainTipTree)[TIP_KEY := tip]
    {
      chainTipTree := chainTipTree[TIP_KEY := tip];
    }

    method GetWalletTip(walletId: string) returns (r: Option<ChainTip>)
      ensures r == if WalletTipKey(walletId) in chainTipTree then Some(chainTipTree[WalletTipKey(walletId)]) else None
    {
      r := if WalletTipKey(walletId) in chainTipTree then Some(chainTipTree[WalletTipKey(walletId)]) else None;
    }

    method StoreWalletTip(walletId: string, tip: ChainTip)
      modifies this`chainTipTree
      ensures chainTipTree == old(chainTipTree)[WalletTipKey(walletId) := tip]
    {
      chainTipTree := chainTipTree[WalletTipKey(walletId) := tip];
    }

    /** Where to resume. */
    method GetMinWalletTip(walletIds: seq<string>) returns (r: Option<ChainTip>)
      ensures ResumesAt(chainTipTree, walletIds, r)
    {
      if walletIds == [] {
        r := GetChainTip();
        return;
      }
      r := None;
      for i := 0 to |walletIds|
        invariant r == None <==> i == 0
        invariant r.Some? ==> exists j :: 0 <= j < i && WalletTipKey(walletIds[j]) in chainTipTree
                                          && chainTipTree[WalletTipKey(walletIds[j])] == r.value
        invariant r.Some? ==> forall j | 0 <= j < i ::
                    WalletTipKey(walletIds[j]) in chainTipTree
                    && r.value.slot <= chainTipTree[WalletTipKey(walletIds[j])].slot
      {
        var tip := GetWalletTip(walletIds[i]);
        match tip
        case Some(t) =>
          if r == None || t.slot < r.value.slot {
            r := Some(t);
          }
        case None =>
          return None;
      }
    }
  }

  // ---- Soundness of the index between commands -----------------------------------------------

  /** A UTxO may be deleted once its own index entry is gone. */
  lemma DeleteKeepsSound(origin: string -> Hex, t: Trees, key: string)
    requires Sound(origin, t)
    requires key in t.utxos ==> IndexKey(t.utxos[key].address, key) !in t.addressIndex
    ensures Sound(origin, t.(utxos := t.utxos - {key}))
  {
    var t' := t.(utxos := t.utxos - {key});
    forall x | x in t'.addressIndex ensures exists k :: k in t'.utxos && x == IndexKey(t'.utxos[k].address, k) {
      var k :| k in t.utxos && x == IndexKey(t.utxos[k].address, k);
      assert k in t'.utxos;
    }
  }

  /** A fresh UTxO may be inserted before it is indexed. */
  lemma InsertKeepsSound(origin: string -> Hex, t: Trees, key: string, data: UtxoData)
    requires Sound(origin, t) && key !in t.utxos && data.address == origin(key)
    ensures Sound(origin, t.(utxos := t.utxos[key := data]))
  {
    var t' := t.(utxos := t.utxos[key := data]);
    forall x | x in t'.addressIndex ensures exists k :: k in t'.utxos && x == IndexKey(t'.utxos[k].address, k) {
      var k :| k in t.utxos && x == IndexKey(t.utxos[k].address, k);
      assert k in t'.utxos;
    }
  }

  lemma IndexingKeepsSound(origin: string -> Hex, t: Trees, key: string)
    requires Sound(origin, t) && key in t.utxos
    ensures Sound(origin, t.(addressIndex := t.addressIndex + {IndexKey(t.utxos[key].address, key)}))
  {
  }
}
