/** The derived structures of the indexer as one value, and the elementary updates that
    processing and rollback make to them. */
module Index {
  import opened Wrappers
  import opened Text
  import opened Ledger

  /** `balances` holds no zero entry: `get_balance` reads a missing balance as 0, so a stored zero
      and an absent one are the same balance. */
  datatype Trees = Trees(
    utxos: map<string, UtxoData>,
    balances: map<Hex, nat>,
    addressIndex: set<string>,
    spent: map<string, SpendEvent>,
    events: map<string, BlockEvent>,
    blocks: map<Hex, BlockMeta>)

  const EMPTY := Trees(map[], map[], {}, map[], map[], map[])

  function GetBalance(balances: map<Hex, nat>, address: Hex): nat {
    if address in balances then balances[address] else 0
  }

  function SetBalance(balances: map<Hex, nat>, address: Hex, amount: nat): map<Hex, nat> {
    if amount == 0 then balances - {address} else balances[address := amount]
  }

  /** u64 `+` as a release build computes it. */
  function WrappingAdd(a: nat, b: nat): (r: nat)
    ensures a + b <= U64_MAX ==> r == a + b
  {
    (a + b) % (U64_MAX + 1)
  }

  function SaturatingSub(a: nat, b: nat): nat {
    if a < b then 0 else a - b
  }

  /** Balances out of range, which no reachable state gets to: sums lose multiples of 2^64, differences end at zero. */
  lemma OutOfRange(a: nat, b: nat)
    ensures WrappingAdd(a, b) <= U64_MAX && (a + b - WrappingAdd(a, b)) % 0x1_0000_0000_0000_0000 == 0
    ensures a <= b ==> SaturatingSub(a, b) == 0
    ensures SaturatingSub(a + b, b) == a
  {
  }

  /** Insert a UTxO, credit its address, index it: `process_output`, and the restoring loop of
      `rollback_block`. */
  function AddUtxo(t: Trees, key: string, data: UtxoData): Trees {
    t.(utxos := t.utxos[key := data],
       balances := SetBalance(t.balances, data.address, WrappingAdd(GetBalance(t.balances, data.address), data.amount)),
       addressIndex := t.addressIndex + {IndexKey(data.address, key)})
  }

  /** Debit the address of a stored UTxO, unindex it, delete it; a missing key changes nothing:
      `process_input`, and the deleting loop of `rollback_block`. */
  function RemoveUtxo(t: Trees, key: string): Trees {
    if key !in t.utxos then t else
      var data := t.utxos[key];
      t.(utxos := t.utxos - {key},
         balances :=
             SetBalance(t.balances, data.address, SaturatingSub(GetBalance(t.balances, data.address), data.amount)),
         addressIndex := t.addressIndex - {IndexKey(data.address, key)})
  }

  /** An index entry names a live UTxO of that address. */
  ghost predicate IndexSound(t: Trees) {
    forall x :: x in t.addressIndex ==> exists k :: k in t.utxos && x == IndexKey(t.utxos[k].address, k)
  }

  /** What holds after every single storage command. `origin` is the address that the transaction
      named in a UTxO key pays with that output: a transaction hash determines its outputs. */
  ghost predicate Sound(origin: string -> Hex, t: Trees) {
    && IndexSound(t)
    && forall k | k in t.utxos :: t.utxos[k].address == origin(k)
  }
}
