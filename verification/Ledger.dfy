/** Blocks as the indexer reads them, and the wallet filter applied to their outputs. */
module Ledger {
  import opened Wrappers
  import opened Text

  /** A transaction input: the output it spends. */
  datatype OutRef = OutRef(txHash: Hex, index: nat)

  /** A transaction output. `datumHash` and `datum` are taken as decoded. */
  datatype Output = Output(
    address: Hex,
    lovelace: nat,
    assets: map<string, nat>,
    datumHash: Option<Hex>,
    datum: Option<Hex>)

  datatype Tx = Tx(hash: Hex, inputs: seq<OutRef>, outputs: seq<Output>)

  datatype Block = Block(slot: nat, hash: Hex, prev: Option<Hex>, txs: seq<Tx>)

  datatype PaymentPart = KeyPayment(hash: Hex) | ScriptPayment
  datatype DelegationPart = NoDelegation | KeyDelegation(hash: Hex) | ScriptDelegation | PointerDelegation
  datatype ShelleyAddress = ShelleyAddress(payment: PaymentPart, delegation: DelegationPart)

  /** What the wallet tracks. `decode` is the address decoder: None for anything that is not a
      Shelley address. */
  datatype WalletFilter = WalletFilter(
    paymentKeys: set<Hex>,
    stakeKeys: set<Hex>,
    addresses: set<Hex>,
    decode: Hex -> Option<ShelleyAddress>)
  {
    predicate IsOurAddress(address: Hex) {
      if address in addresses then
        true
      else if paymentKeys == {} && stakeKeys == {} then
        true
      else
        match decode(address)
        case None => false
        case Some(shelley) =>
          match shelley.payment
          case ScriptPayment => false
          case KeyPayment(payment) =>
            payment in paymentKeys &&
            match shelley.delegation
            case NoDelegation => true
            case KeyDelegation(stake) => stakeKeys == {} || stake in stakeKeys
            case ScriptDelegation => true
            case PointerDelegation => true
    }

    /** The guard at the top of `process_output`: which outputs are indexed. */
    predicate Tracks(address: Hex) {
      IsOurAddress(address) || paymentKeys == {}
    }
  }

  datatype UtxoData = UtxoData(
    txHash: Hex,
    outputIndex: nat,
    address: Hex,
    amount: nat,
    slot: nat,
    blockHash: Hex,
    txIndex: nat,
    timestamp: nat,
    assets: map<string, nat>,
    datumHash: Option<Hex>,
    datum: Option<Hex>)

  datatype SpendEvent = SpendEvent(slot: nat, blockHash: Hex, txIndex: nat, txHash: Hex, timestamp: nat)

  datatype BlockEvent =
    | Created(key: string, data: UtxoData)
    | Spent(key: string, data: UtxoData, spend: SpendEvent)

  datatype BlockMeta = BlockMeta(slot: nat, timestamp: nat, prev: Option<Hex>)

  datatype ChainTip = ChainTip(slot: nat, hash: Hex, timestamp: nat)

  /** One consumed UTxO in an undo record, with the data needed to restore it. */
  datatype SpentRecord = SpentRecord(key: string, data: UtxoData, spend: SpendEvent)

  /** The undo record kept for a processed block. */
  datatype RollbackInfo = RollbackInfo(
    slot: nat,
    blockHash: Hex,
    timestamp: nat,
    utxosCreated: seq<string>,
    utxosSpent: seq<SpentRecord>,
    spentRecorded: seq<string>)

  /** Unix milliseconds of a slot, in wrapping u64 arithmetic. */
  function SlotTime(systemStart: nat, slot: nat): nat {
    (systemStart + slot * 1000) % (U64_MAX + 1)
  }

  /** Another address, as a hex string of whole bytes. */
  lemma {:induction false} FreshAddress(addresses: set<Hex>) returns (other: Hex)
    ensures other !in addresses && |other| % 2 == 0 && forall a | a in addresses :: |a| < |other|
    decreases |addresses|
  {
    if addresses == {} {
      other := "00";
    } else {
      var a :| a in addresses;
      other := FreshAddress(addresses - {a});
      if |other| <= |a| {
        other := a + if |a| % 2 == 0 then "00" else "0";
      }
    }
  }

  /** Only addresses of ours are indexed if and only if payment keys are configured or no stake keys are: stake keys
      alone narrow what counts as ours and still index everything, so that all addresses not listed are foreign. */
  lemma TracksOnlyOursExactWhen(f: WalletFilter)
    ensures (forall a: Hex :: f.Tracks(a) ==> f.IsOurAddress(a)) <==> f.paymentKeys != {} || f.stakeKeys == {}
    ensures forall a: Hex :: f.Tracks(a) && !f.IsOurAddress(a)
                             <==> f.paymentKeys == {} && f.stakeKeys != {} && a !in f.addresses
  {
    if f.paymentKeys == {} && f.stakeKeys != {} {
      var a := FreshAddress(f.addresses);
      assert f.Tracks(a) && !f.IsOurAddress(a);
    }
  }

  /** A filter for the stake key aa indexes an address of payment key bb and stake key cc. */
  lemma StakeKeyTracksForeign()
    ensures var f := WalletFilter({}, {"aa"}, {}, a => Some(ShelleyAddress(KeyPayment("bb"), KeyDelegation("cc"))));
            f.Tracks("00") && !f.IsOurAddress("00")
  {
    assert "aa" in {"aa"};
  }

  /** Which outputs are indexed, kind of address by kind of address, once payment keys are configured and the address is
      not itself listed: what pays a configured key, and of what also delegates to a stake key only what delegates to a
      configured one, if any are. */
  lemma TracksByAddress(f: WalletFilter, address: Hex, key: Hex, stake: Hex)
    requires f.paymentKeys != {} && address !in f.addresses
    ensures f.decode(address) == None ==> !f.Tracks(address)
    ensures f.decode(address).Some? && f.decode(address).value.payment == ScriptPayment ==> !f.Tracks(address)
    ensures f.decode(address) == Some(ShelleyAddress(KeyPayment(key), NoDelegation)) ==>
              (f.Tracks(address) <==> key in f.paymentKeys)
    ensures f.decode(address) == Some(ShelleyAddress(KeyPayment(key), ScriptDelegation)) ==>
              (f.Tracks(address) <==> key in f.paymentKeys)
    ensures f.decode(address) == Some(ShelleyAddress(KeyPayment(key), PointerDelegation)) ==>
              (f.Tracks(address) <==> key in f.paymentKeys)
    ensures f.decode(address) == Some(ShelleyAddress(KeyPayment(key), KeyDelegation(stake))) ==>
              (f.Tracks(address) <==> key in f.paymentKeys && (f.stakeKeys == {} || stake in f.stakeKeys))
  {
  }

  /** Which outputs are indexed without looking at the kind of address: those to listed ones always, and all of them
      when no payment key is configured. */
  lemma TracksRegardless(f: WalletFilter, address: Hex)
    requires f.paymentKeys == {} || address in f.addresses
    ensures f.Tracks(address)
  {
  }
}
