/** What the balances and the address index mean: both are functions of the UTxO set. */
module Holdings {
  import opened Wrappers
  import opened Text
  import opened Ledger
  import opened Index

  function Share(data: UtxoData, address: Hex): nat {
    if data.address == address then data.amount else 0
  }

  /** The lovelace an address holds in a UTxO set. */
  ghost function Held(utxos: map<string, UtxoData>, address: Hex): nat {
    if utxos == map[] then 0 else
      var k :| k in utxos;
      Share(utxos[k], address) + Held(utxos - {k}, address)
  }

  /** All lovelace in a UTxO set. */
  ghost function Total(utxos: map<string, UtxoData>): nat {
    if utxos == map[] then 0 else
      var k :| k in utxos;
      utxos[k].amount + Total(utxos - {k})
  }

  lemma {:induction false} HeldRemove(m: map<string, UtxoData>, k: string, a: Hex)
    requires k in m
    ensures Held(m, a) == Share(m[k], a) + Held(m - {k}, a)
    decreases |m|
  {
    var c :| c in m && Held(m, a) == Share(m[c], a) + Held(m - {c}, a);
    if c != k {
      HeldRemove(m - {c}, k, a);
      HeldRemove(m - {k}, c, a);
      assert m - {c} - {k} == m - {k} - {c};
    }
  }

  lemma {:induction false} TotalRemove(m: map<string, UtxoData>, k: string)
    requires k in m
    ensures Total(m) == m[k].amount + Total(m - {k})
    decreases |m|
  {
    var c :| c in m && Total(m) == m[c].amount + Total(m - {c});
    if c != k {
      TotalRemove(m - {c}, k);
      TotalRemove(m - {k}, c);
      assert m - {c} - {k} == m - {k} - {c};
    }
  }

  lemma HeldInsert(m: map<string, UtxoData>, k: string, d: UtxoData, a: Hex)
    requires k !in m
    ensures Held(m[k := d], a) == Held(m, a) + Share(d, a)
  {
    HeldRemove(m[k := d], k, a);
    assert m[k := d] - {k} == m;
  }

  lemma TotalInsert(m: map<string, UtxoData>, k: string, d: UtxoData)
    requires k !in m
    ensures Total(m[k := d]) == Total(m) + d.amount
  {
    TotalRemove(m[k := d], k);
    assert m[k := d] - {k} == m;
  }

  lemma {:induction false} HeldWithinTotal(m: map<string, UtxoData>, a: Hex)
    ensures Held(m, a) <= Total(m)
    decreases |m|
  {
    if m != map[] {
      var k :| k in m;
      HeldRemove(m, k, a);
      TotalRemove(m, k);
      HeldWithinTotal(m - {k}, a);
    }
  }

  lemma {:induction false} HeldCovers(m: map<string, UtxoData>, k: string)
    requires k in m
    ensures Held(m, m[k].address) >= m[k].amount
  {
    HeldRemove(m, k, m[k].address);
  }

  ghost function Addresses(utxos: map<string, UtxoData>): set<Hex> {
    set k | k in utxos :: utxos[k].address
  }

  /** The balance table a UTxO set implies. */
  ghost function BalancesOf(utxos: map<string, UtxoData>): (balances: map<Hex, nat>)
    ensures forall a | a in balances :: balances[a] != 0
  {
    map a | a in Addresses(utxos) && Held(utxos, a) != 0 :: Held(utxos, a)
  }

  /** The address index a UTxO set implies. */
  ghost function IndexOf(utxos: map<string, UtxoData>): set<string> {
    set k | k in utxos :: IndexKey(utxos[k].address, k)
  }

  /** Balances and address index agree with the UTxO set. */
  ghost predicate Consistent(t: Trees) {
    t.balances == BalancesOf(t.utxos) && t.addressIndex == IndexOf(t.utxos)
  }

  lemma {:induction false} HeldByStranger(m: map<string, UtxoData>, a: Hex)
    requires a !in Addresses(m)
    ensures Held(m, a) == 0
    decreases |m|
  {
    if m != map[] {
      var k :| k in m;
      HeldRemove(m, k, a);
      assert m[k].address in Addresses(m);
      assert Addresses(m - {k}) <= Addresses(m);
      HeldByStranger(m - {k}, a);
    }
  }

  lemma BalanceMeansHeld(m: map<string, UtxoData>, a: Hex)
    ensures GetBalance(BalancesOf(m), a) == Held(m, a)
  {
    if a !in Addresses(m) {
      HeldByStranger(m, a);
    }
  }

  /** A table without zero entries is determined by what `get_balance` reads from it. */
  lemma BalancesDetermined(b: map<Hex, nat>, m: map<string, UtxoData>)
    requires forall a :: a in b ==> b[a] != 0
    requires forall a: Hex :: GetBalance(b, a) == Held(m, a)
    ensures b == BalancesOf(m)
  {
    forall a: Hex
      ensures a in b <==> a in BalancesOf(m)
      ensures a in b ==> b[a] == BalancesOf(m)[a]
    {
      BalanceMeansHeld(m, a);
      assert GetBalance(b, a) == Held(m, a);
      if a !in Addresses(m) {
        HeldByStranger(m, a);
      }
    }
  }

  lemma CreditExact(m: map<string, UtxoData>, key: string, data: UtxoData)
    requires key !in m && Total(m) + data.amount <= U64_MAX
    ensures SetBalance(BalancesOf(m), data.address, WrappingAdd(GetBalance(BalancesOf(m), data.address), data.amount))
            == BalancesOf(m[key := data])
  {
    hide Held, BalancesOf, Total;
    var a0 := data.address;
    BalanceMeansHeld(m, a0);
    HeldWithinTotal(m, a0);
    var b := SetBalance(BalancesOf(m), a0, Held(m, a0) + data.amount);
    assert WrappingAdd(Held(m, a0), data.amount) == Held(m, a0) + data.amount;
    forall a: Hex ensures GetBalance(b, a) == Held(m[key := data], a) {
      HeldInsert(m, key, data, a);
      BalanceMeansHeld(m, a);
    }
    BalancesDetermined(b, m[key := data]);
  }

  lemma DebitExact(m: map<string, UtxoData>, key: string)
    requires key in m
    ensures GetBalance(BalancesOf(m), m[key].address) >= m[key].amount
    ensures SetBalance(BalancesOf(m), m[key].address,
                       SaturatingSub(GetBalance(BalancesOf(m), m[key].address), m[key].amount))
            == BalancesOf(m - {key})
  {
    hide Held, BalancesOf;
    var a0 := m[key].address;
    BalanceMeansHeld(m, a0);
    HeldCovers(m, key);
    var b := SetBalance(BalancesOf(m), a0, Held(m, a0) - m[key].amount);
    forall a: Hex ensures GetBalance(b, a) == Held(m - {key}, a) {
      HeldRemove(m, key, a);
      BalanceMeansHeld(m, a);
    }
    BalancesDetermined(b, m - {key});
  }

  lemma IndexInsert(m: map<string, UtxoData>, key: string, data: UtxoData)
    requires key !in m
    ensures IndexOf(m[key := data]) == IndexOf(m) + {IndexKey(data.address, key)}
  {
    var m' := m[key := data];
    forall x | x in IndexOf(m) ensures x in IndexOf(m') {
      var k :| k in m && x == IndexKey(m[k].address, k);
      assert k in m' && m'[k] == m[k];
    }
    assert key in m' && m'[key] == data;
  }

  lemma IndexRemove(m: map<string, UtxoData>, key: string)
    requires key in m
    ensures IndexOf(m - {key}) == IndexOf(m) - {IndexKey(m[key].address, key)}
  {
    IndexInsert(m - {key}, key, m[key]);
    assert (m - {key})[key := m[key]] == m;
    if IndexKey(m[key].address, key) in IndexOf(m - {key}) {
      var k :| k in m - {key} && IndexKey(m[key].address, key) == IndexKey(m[k].address, k);
      IndexKeyInjective(m[key].address, key, m[k].address, k);
    }
  }

  /** Crediting a fresh UTxO keeps the derived structures exact as long as no u64 addition wraps. */
  lemma AddKeepsConsistent(t: Trees, key: string, data: UtxoData)
    requires Consistent(t) && key !in t.utxos
    requires Total(t.utxos) + data.amount <= U64_MAX
    ensures Consistent(AddUtxo(t, key, data))
    ensures Total(AddUtxo(t, key, data).utxos) == Total(t.utxos) + data.amount
  {
    CreditExact(t.utxos, key, data);
    TotalInsert(t.utxos, key, data);
    IndexInsert(t.utxos, key, data);
  }

  /** Removing a UTxO keeps the derived structures exact, and its `saturating_sub` never saturates. */
  lemma RemoveKeepsConsistent(t: Trees, key: string)
    requires Consistent(t)
    ensures Consistent(RemoveUtxo(t, key))
    ensures key in t.utxos ==>
              && GetBalance(t.balances, t.utxos[key].address) >= t.utxos[key].amount
              && Total(RemoveUtxo(t, key).utxos) == Total(t.utxos) - t.utxos[key].amount
  {
    if key in t.utxos {
      DebitExact(t.utxos, key);
      TotalRemove(t.utxos, key);
      IndexRemove(t.utxos, key);
    }
  }
}
