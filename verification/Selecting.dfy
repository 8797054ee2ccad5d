/**
 * What the selectors of Coins add up and in which order they look, said without their recursion: totals by what they
 * are of one coin and of two lists together, the order by positions in the list of available coins.
 */
module Selecting {
  import opened Wrappers
  import opened Coins

  // ----- totals -----

  /** Over two lists together every total is the sum of both, every list one after the other. */
  lemma TotalsAdd(us: seq<Utxo>, vs: seq<Utxo>, id: AssetId)
    ensures Lovelace(us + vs) == Lovelace(us) + Lovelace(vs)
    ensures AllAssets(us + vs) == AllAssets(us) + AllAssets(vs)
    ensures Amount(us + vs, id) == Amount(us, id) + Amount(vs, id)
  {
    hide Lovelace, AllAssets, AmountIn;
    LovelaceAdds(us, vs);
    AssetsAdd(us, vs);
    AmountAppends(AllAssets(us), AllAssets(vs), id);
  }

  lemma {:induction false} LovelaceAdds(us: seq<Utxo>, vs: seq<Utxo>)
    ensures Lovelace(us + vs) == Lovelace(us) + Lovelace(vs)
  {
    if vs == [] {
      assert us + vs == us;
    } else {
      var n := |vs| - 1;
      assert (us + vs)[..|us + vs| - 1] == us + vs[..n];
      LovelaceAdds(us, vs[..n]);
    }
  }

  lemma {:induction false} AssetsAdd(us: seq<Utxo>, vs: seq<Utxo>)
    ensures AllAssets(us + vs) == AllAssets(us) + AllAssets(vs)
  {
    if vs == [] {
      assert us + vs == us;
    } else {
      var n := |vs| - 1;
      assert (us + vs)[..|us + vs| - 1] == us + vs[..n];
      AssetsAdd(us, vs[..n]);
    }
  }

  lemma TotalsOfOne(u: Utxo, a: Asset, id: AssetId)
    ensures Lovelace([]) == 0 && Lovelace([u]) == u.coin
    ensures AllAssets([]) == [] && AllAssets([u]) == u.assets
    ensures AmountIn([], id) == 0 && AmountIn([a], id) == if a.id == id then a.amount else 0
  {
    assert [u][..0] == [] && [a][..0] == [];
  }

  lemma {:induction false} OutputTotalsAdd(xs: seq<Output>, ys: seq<Output>)
    ensures OutputLovelace(xs + ys) == OutputLovelace(xs) + OutputLovelace(ys)
    ensures OutputAssets(xs + ys) == OutputAssets(xs) + OutputAssets(ys)
  {
    if ys == [] {
      assert xs + ys == xs;
    } else {
      var n := |ys| - 1;
      assert (xs + ys)[..|xs + ys| - 1] == xs + ys[..n];
      OutputTotalsAdd(xs, ys[..n]);
    }
  }

  lemma OutputTotalsOfOne(o: Output)
    ensures OutputLovelace([]) == 0 && OutputLovelace([o]) == o.lovelace
    ensures OutputAssets([]) == [] && OutputAssets([o]) == o.assets
  {
    assert [o][..0] == [];
  }

  /** A total in the machine: the unified builder's stops at the top of u64, the plain builder's wraps around. */
  lemma ShownIs(total: nat)
    ensures Shown(true, total) <= total && (Shown(true, total) == total || Shown(true, total) == U64_MAX < total)
    ensures (total - Shown(false, total)) % 0x1_0000_0000_0000_0000 == 0
  {
  }

  // ----- the order -----

  /** Spent as a script input: same transaction, same output of it. */
  ghost predicate Taken(u: Utxo, scripts: seq<Utxo>) {
    exists i :: 0 <= i < |scripts| && scripts[i].txHash == u.txHash && scripts[i].index == u.index
  }

  lemma TakenIs(u: Utxo, scripts: seq<Utxo>)
    ensures IsScriptInput(u, scripts) <==> Taken(u, scripts)
  {
    if IsScriptInput(u, scripts) {
      var s :| s in scripts && s.txHash == u.txHash && s.index == u.index;
      var i :| 0 <= i < |scripts| && scripts[i] == s;
    }
  }

  /** Positions into a list, ascending, of exactly the free coins of one kind. */
  ghost predicate Places(at: seq<nat>, utxos: seq<Utxo>, scripts: seq<Utxo>, tokens: bool) {
    && (forall i | 0 <= i < |at| :: at[i] < |utxos|)
    && (forall i, j | 0 <= i < j < |at| :: at[i] < at[j])
    && (forall k | 0 <= k < |utxos| :: k in at <==> !Taken(utxos[k], scripts) && (utxos[k].assets != []) == tokens)
  }

  ghost predicate ListedAt(us: seq<Utxo>, at: seq<nat>, utxos: seq<Utxo>) {
    |us| == |at| && forall i | 0 <= i < |at| :: at[i] < |utxos| && us[i] == utxos[at[i]]
  }

  lemma {:induction false} EligiblePlaces(utxos: seq<Utxo>, scripts: seq<Utxo>, tokens: bool) returns (at: seq<nat>)
    ensures Places(at, utxos, scripts, tokens) && ListedAt(Eligible(utxos, scripts, tokens), at, utxos)
  {
    hide IsScriptInput, Taken, Places, ListedAt, Eligible;
    if utxos == [] {
      NoPlaces(scripts, tokens);
      at := [];
    } else {
      var n := |utxos| - 1;
      var rest, last := utxos[..n], utxos[n];
      at := EligiblePlaces(rest, scripts, tokens);
      PlacesStep(at, rest, last, scripts, tokens);
      ListedStep(Eligible(rest, scripts, tokens), at, rest, last);
      EligibleStep(rest, last, scripts, tokens);
      assert utxos == rest + [last];
      at := if !Taken(last, scripts) && (last.assets != []) == tokens then at + [n] else at;
    }
  }

  lemma EligibleStep(utxos: seq<Utxo>, last: Utxo, scripts: seq<Utxo>, tokens: bool)
    ensures Eligible(utxos + [last], scripts, tokens)
         == if !Taken(last, scripts) && (last.assets != []) == tokens then Eligible(utxos, scripts, tokens) + [last]
            else Eligible(utxos, scripts, tokens)
  {
    hide Taken, IsScriptInput;
    TakenIs(last, scripts);
    assert (utxos + [last])[..|utxos|] == utxos;
    assert Eligible(utxos, scripts, tokens) + [] == Eligible(utxos, scripts, tokens);
  }

  lemma NoPlaces(scripts: seq<Utxo>, tokens: bool)
    ensures Places([], [], scripts, tokens) && ListedAt(Eligible([], scripts, tokens), [], [])
  {
  }

  lemma PlacesStep(at: seq<nat>, utxos: seq<Utxo>, last: Utxo, scripts: seq<Utxo>, tokens: bool)
    requires Places(at, utxos, scripts, tokens)
    ensures Places(if !Taken(last, scripts) && (last.assets != []) == tokens then at + [|utxos|] else at,
                   utxos + [last], scripts, tokens)
  {
    hide Taken;
    assert |utxos| !in at;
    assert forall k :: k in at + [|utxos|] <==> k in at || k == |utxos|;
  }

  lemma ListedStep(us: seq<Utxo>, at: seq<nat>, utxos: seq<Utxo>, last: Utxo)
    requires ListedAt(us, at, utxos)
    ensures ListedAt(us, at, utxos + [last]) && ListedAt(us + [last], at + [|utxos|], utxos + [last])
  {
  }

  /**
   * The order the unified selector takes coins in: those of the wanted kind as they are listed, then those of the
   * other kind as they are listed, each free coin at its place and no script input.
   */
  lemma OrderIsListed(utxos: seq<Utxo>, scripts: seq<Utxo>, needAssets: bool)
    returns (wanted: seq<nat>, others: seq<nat>)
    ensures Places(wanted, utxos, scripts, needAssets) && Places(others, utxos, scripts, !needAssets)
    ensures ListedAt(SelectionOrder(utxos, scripts, needAssets), wanted + others, utxos)
  {
    hide Eligible, Places;
    wanted := EligiblePlaces(utxos, scripts, needAssets);
    others := EligiblePlaces(utxos, scripts, !needAssets);
  }

  const HALF := Utxo([], 0, 0x8000_0000_0000_0000, [])

  /** What the plain selector sums wraps around: two coins of half the range each are worth nothing to it. */
  lemma PlainTotalsWrap()
    ensures SelectUtxos([HALF, HALF], U64_MAX, map[]) == Err(InsufficientFunds(U64_MAX, 0))
  {
    hide Lovelace, AllAssets;
    var us := [HALF, HALF];
    HalvesAddUp();
    assert us[..1] == [HALF] && us[..2] == us;
    assert !Enough(false, us[..1], U64_MAX, map[]);
    assert Cut(false, us, U64_MAX, map[], 1) == Cut(false, us, U64_MAX, map[], 2) == 2;
    assert Cut(false, us, U64_MAX, map[], 0) == 2;
  }

  /** The unified selector's sum stops instead, and the two coins cover what they cannot add up to. */
  lemma UnifiedTotalsSaturate()
    ensures SelectCoins(Some([HALF, HALF]), [], U64_MAX, map[]) == Ok(Selection([HALF, HALF], 0, map[]))
  {
    hide Lovelace, AllAssets, SelectionOrder, Enough, ChangeAssets;
    var us := [HALF, HALF];
    HalvesInOrder();
    HalvesSaturate();
    assert us[..1] == [HALF] && us[..2] == us;
    assert Cut(true, us, U64_MAX, map[], 1) == Cut(true, us, U64_MAX, map[], 2) == 2;
    assert Cut(true, us, U64_MAX, map[], 0) == 2;
  }

  lemma HalvesSaturate()
    ensures Shown(true, Lovelace([HALF, HALF])) == U64_MAX && ChangeAssets(true, [HALF, HALF], map[]) == map[]
    ensures !Enough(true, [HALF], U64_MAX, map[]) && Enough(true, [HALF, HALF], U64_MAX, map[])
  {
    hide Lovelace, AllAssets;
    HalvesAddUp();
  }

  lemma HalvesAddUp()
    ensures Lovelace([HALF]) == HALF.coin && Lovelace([HALF, HALF]) == U64_MAX + 1
    ensures AllAssets([HALF, HALF]) == []
  {
    hide Lovelace, AllAssets;
    TotalsOfOne(HALF, Asset(AssetId([], []), 0), AssetId([], []));
    LovelaceAdds([HALF], [HALF]);
    AssetsAdd([HALF], [HALF]);
    assert [HALF] + [HALF] == [HALF, HALF];
  }

  lemma HalvesInOrder()
    ensures SelectionOrder([HALF, HALF], [], false) == [HALF, HALF]
  {
    var us := [HALF, HALF];
    assert us[..1] == [HALF] && us[..1][..0] == [];
    assert Eligible([HALF], [], false) == [HALF] && Eligible([HALF], [], true) == [];
    assert Eligible(us, [], false) == us && Eligible(us, [], true) == [];
  }
}
