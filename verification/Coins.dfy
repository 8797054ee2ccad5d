/**
 * Coin selection over multi-asset values: the greedy selectors of the plain transaction builder
 * (src/wallet/transaction.rs) and of the unified builder (src/wallet/unified_tx/builder.rs).
 */
module Coins {
  import opened Wrappers
  import opened Cbor
  import opened Hexadecimal

  type U64 = n: nat | n <= U64_MAX

  type U32 = n: nat | n < 0x1_0000_0000

  /** The source keys assets by hex policy id, a separator and hex name; KeyParsesBack shows nothing is lost. */
  datatype AssetId = AssetId(policy: Bytes, name: Bytes)

  datatype Asset = Asset(id: AssetId, amount: U64)

  datatype Utxo = Utxo(txHash: Bytes, index: U32, coin: U64, assets: seq<Asset>)

  datatype Selection = Selection(inputs: seq<Utxo>, change: U64, changeAssets: map<AssetId, U64>)

  datatype Error =
    | NoUtxos
    | InsufficientFunds(need: U64, available: U64)
    | InsufficientAssets
    | NoOutputs
    | FeeNotConverged
    | InsufficientChange
    | BuildFailed

  function AssetKey(id: AssetId, separator: char): string {
    ToHex(id.policy) + [separator] + ToHex(id.name)
  }

  /** What precedes the first separator, and how a key is taken apart again for the change output. */
  function Before(key: string, separator: char): (part: string)
    ensures |part| <= |key|
  {
    if key == "" || key[0] == separator then "" else [key[0]] + Before(key[1..], separator)
  }

  function ParseKey(key: string, separator: char): Option<AssetId> {
    var policy := Before(key, separator);
    if |policy| == |key| then None else
    var p, n := FromHex(policy), FromHex(key[|policy| + 1..]);
    if p.Some? && n.Some? then Some(AssetId(p.value, n.value)) else None
  }

  /** A key names its asset: splitting it and decoding both parts gives back policy and name. */
  lemma KeyParsesBack(id: AssetId, separator: char)
    requires separator == '.' || separator == ':'
    ensures ParseKey(AssetKey(id, separator), separator) == Some(id)
  {
    hide ToHex, FromHex;
    var policy, name := ToHex(id.policy), ToHex(id.name);
    HexReadsBack(id.policy);
    HexReadsBack(id.name);
    BeforeSeparator(policy, name, separator);
    assert AssetKey(id, separator)[|policy| + 1..] == name;
  }

  lemma {:induction false} BeforeSeparator(a: string, b: string, separator: char)
    requires separator !in a
    ensures Before(a + [separator] + b, separator) == a
  {
    var key := a + [separator] + b;
    if a != "" {
      assert key[1..] == a[1..] + [separator] + b;
      BeforeSeparator(a[1..], b, separator);
      assert [a[0]] + a[1..] == a;
    }
  }

  /** Distinct assets have distinct keys under both separators in use. */
  lemma AssetKeyInjective(a: AssetId, b: AssetId, separator: char)
    requires separator == '.' || separator == ':'
    requires AssetKey(a, separator) == AssetKey(b, separator)
    ensures a == b
  {
    hide AssetKey, ParseKey;
    KeyParsesBack(a, separator);
    KeyParsesBack(b, separator);
  }

  // ----- totals -----

  function Lovelace(us: seq<Utxo>): nat {
    if us == [] then 0 else Lovelace(us[..|us| - 1]) + us[|us| - 1].coin
  }

  function AllAssets(us: seq<Utxo>): seq<Asset> {
    if us == [] then [] else AllAssets(us[..|us| - 1]) + us[|us| - 1].assets
  }

  function AmountIn(assets: seq<Asset>, id: AssetId): nat {
    if assets == [] then 0 else
    var last := assets[|assets| - 1];
    AmountIn(assets[..|assets| - 1], id) + if last.id == id then last.amount else 0
  }

  function Amount(us: seq<Utxo>, id: AssetId): nat {
    AmountIn(AllAssets(us), id)
  }

  function Get(m: map<AssetId, U64>, id: AssetId): U64 {
    if id in m then m[id] else 0
  }

  /** An exact total as the machine holds it: saturated at the top of u64, or wrapped around. */
  function Shown(saturating: bool, total: nat): U64 {
    if !saturating then total % (U64_MAX + 1) else if total > U64_MAX then U64_MAX else total
  }

  /** Running totals kept with machine additions show the exact total. */
  lemma ShownAdd(saturating: bool, a: nat, b: nat)
    ensures Shown(saturating, Shown(saturating, a) + b) == Shown(saturating, a + b)
  {
  }

  function Ids(assets: seq<Asset>): set<AssetId> {
    set a | a in assets :: a.id
  }

  /** The running map of asset totals after these assets. */
  function Tally(saturating: bool, assets: seq<Asset>): map<AssetId, U64> {
    map id | id in Ids(assets) :: Shown(saturating, AmountIn(assets, id))
  }

  lemma {:induction false} AmountNeedsId(assets: seq<Asset>, id: AssetId)
    requires id !in Ids(assets)
    ensures AmountIn(assets, id) == 0
  {
    if assets != [] {
      var front := assets[..|assets| - 1];
      assert assets[|assets| - 1].id in Ids(assets);
      assert forall a | a in front :: a in assets;
      AmountNeedsId(front, id);
    }
  }

  lemma TallyGet(saturating: bool, assets: seq<Asset>, id: AssetId)
    ensures Get(Tally(saturating, assets), id) == Shown(saturating, AmountIn(assets, id))
  {
    if id !in Ids(assets) {
      AmountNeedsId(assets, id);
    }
  }

  lemma TallyStep(saturating: bool, assets: seq<Asset>, a: Asset)
    ensures Tally(saturating, assets + [a])
         == Tally(saturating, assets)[a.id := Shown(saturating, Get(Tally(saturating, assets), a.id) + a.amount)]
  {
    hide Shown, Ids;
    var more := assets + [a];
    assert more[..|more| - 1] == assets;
    IdsStep(assets, a);
    TallyGet(saturating, assets, a.id);
    ShownAdd(saturating, AmountIn(assets, a.id), a.amount);
  }

  lemma IdsStep(assets: seq<Asset>, a: Asset)
    ensures Ids(assets + [a]) == Ids(assets) + {a.id}
  {
    var more := assets + [a];
    forall id | id in Ids(assets) + {a.id} ensures id in Ids(more) {
      if id in Ids(assets) {
        var x :| x in assets && x.id == id;
        assert x in more;
      } else {
        assert a in more;
      }
    }
  }

  lemma {:induction false} LovelaceGrows(us: seq<Utxo>, n: nat, m: nat)
    requires n <= m <= |us|
    ensures Lovelace(us[..n]) <= Lovelace(us[..m])
    decreases m
  {
    if n < m {
      assert us[..m][..m - 1] == us[..m - 1];
      LovelaceGrows(us, n, m - 1);
    }
  }

  lemma {:induction false} AmountAppends(xs: seq<Asset>, ys: seq<Asset>, id: AssetId)
    ensures AmountIn(xs + ys, id) == AmountIn(xs, id) + AmountIn(ys, id)
  {
    if ys == [] {
      assert xs + ys == xs;
    } else {
      var n := |ys| - 1;
      assert (xs + ys)[..|xs + ys| - 1] == xs + ys[..n];
      AmountAppends(xs, ys[..n], id);
    }
  }

  lemma {:induction false} AmountGrows(us: seq<Utxo>, n: nat, m: nat, id: AssetId)
    requires n <= m <= |us|
    ensures Amount(us[..n], id) <= Amount(us[..m], id)
    decreases m
  {
    if n < m {
      assert us[..m][..m - 1] == us[..m - 1];
      AmountGrows(us, n, m - 1, id);
      AmountAppends(AllAssets(us[..m - 1]), us[m - 1].assets, id);
    }
  }

  // ----- the greedy rule -----

  /** The exact totals meet the requirement. */
  ghost predicate Covers(us: seq<Utxo>, need: U64, needs: map<AssetId, U64>) {
    Lovelace(us) >= need && forall id :: id in needs ==> Amount(us, id) >= needs[id]
  }

  /** The totals the machine holds meet the requirement. */
  predicate Enough(saturating: bool, us: seq<Utxo>, need: U64, needs: map<AssetId, U64>) {
    Shown(saturating, Lovelace(us)) >= need
    && forall id | id in needs :: Shown(saturating, Amount(us, id)) >= needs[id]
  }

  /** Where a scan from n UTxOs stops: at the first non-empty prefix that is enough, or at the end. */
  function Cut(saturating: bool, order: seq<Utxo>, need: U64, needs: map<AssetId, U64>, n: nat): (c: nat)
    requires n <= |order|
    ensures n <= c <= |order|
    decreases |order| - n
  {
    if n == |order| || (n > 0 && Enough(saturating, order[..n], need, needs)) then n
    else Cut(saturating, order, need, needs, n + 1)
  }

  function ChangeAssets(saturating: bool, inputs: seq<Utxo>, needs: map<AssetId, U64>): map<AssetId, U64> {
    map id | id in Ids(AllAssets(inputs)) && Shown(saturating, Amount(inputs, id)) > Get(needs, id)
      :: Shown(saturating, Amount(inputs, id)) - Get(needs, id)
  }

  function Choose(saturating: bool, order: seq<Utxo>, need: U64, needs: map<AssetId, U64>): Result<Selection, Error> {
    var inputs := order[..Cut(saturating, order, need, needs, 0)];
    var total := Shown(saturating, Lovelace(inputs));
    if total < need then Err(InsufficientFunds(need, total))
    else if !Enough(saturating, inputs, need, needs) then Err(InsufficientAssets)
    else Ok(Selection(inputs, total - need, ChangeAssets(saturating, inputs, needs)))
  }

  function SelectUtxos(utxos: seq<Utxo>, need: U64, needs: map<AssetId, U64>): Result<Selection, Error> {
    if utxos == [] then Err(NoUtxos) else Choose(false, utxos, need, needs)
  }

  predicate IsScriptInput(u: Utxo, scripts: seq<Utxo>) {
    exists s | s in scripts :: s.txHash == u.txHash && s.index == u.index
  }

  /** The UTxOs free to spend, split by whether they carry tokens. */
  function Eligible(utxos: seq<Utxo>, scripts: seq<Utxo>, tokens: bool): seq<Utxo> {
    if utxos == [] then [] else
    var last := utxos[|utxos| - 1];
    Eligible(utxos[..|utxos| - 1], scripts, tokens)
    + if !IsScriptInput(last, scripts) && (last.assets != []) == tokens then [last] else []
  }

  function SelectionOrder(utxos: seq<Utxo>, scripts: seq<Utxo>, needAssets: bool): seq<Utxo> {
    Eligible(utxos, scripts, needAssets) + Eligible(utxos, scripts, !needAssets)
  }

  function SelectCoins(available: Option<seq<Utxo>>, scripts: seq<Utxo>, need: U64, needs: map<AssetId, U64>)
    : Result<Selection, Error>
  {
    if available.None? then Err(NoUtxos)
    else Choose(true, SelectionOrder(available.value, scripts, needs != map[]), need, needs)
  }

  // ----- the loops -----

  method AddAssets(totals: map<AssetId, U64>, ghost before: seq<Asset>, assets: seq<Asset>, saturating: bool)
    returns (r: map<AssetId, U64>)
    requires totals == Tally(saturating, before)
    ensures r == Tally(saturating, before + assets)
  {
    hide Tally, Shown;
    r := totals;
    assert before + assets[..0] == before;
    for i := 0 to |assets|
      invariant r == Tally(saturating, before + assets[..i])
    {
      var a := assets[i];
      TallyStep(saturating, before + assets[..i], a);
      assert before + assets[..i + 1] == before + assets[..i] + [a];
      r := r[a.id := Shown(saturating, Get(r, a.id) + a.amount)];
    }
    assert assets[..|assets|] == assets;
  }

  /** The comparison the selectors make after each UTxO and again at the end. */
  lemma TallyEnough(saturating: bool, us: seq<Utxo>, need: U64, needs: map<AssetId, U64>)
    ensures Enough(saturating, us, need, needs)
       <==> Shown(saturating, Lovelace(us)) >= need
            && forall id | id in needs :: Get(Tally(saturating, AllAssets(us)), id) >= needs[id]
  {
    hide Tally, Shown;
    forall id { TallyGet(saturating, AllAssets(us), id); }
  }

  method TakeUntilEnough(order: seq<Utxo>, need: U64, needs: map<AssetId, U64>, saturating: bool)
    returns (selected: seq<Utxo>, total: U64, totals: map<AssetId, U64>)
    ensures selected == order[..Cut(saturating, order, need, needs, 0)]
    ensures total == Shown(saturating, Lovelace(selected)) && totals == Tally(saturating, AllAssets(selected))
  {
    hide Tally, Shown, Enough;
    selected, total, totals := [], 0, map[];
    EmptyTotals(saturating);
    var i, enough := 0, false;
    while i < |order| && !enough
      invariant i <= |order| && selected == order[..i]
      invariant total == Shown(saturating, Lovelace(selected)) && totals == Tally(saturating, AllAssets(selected))
      invariant Cut(saturating, order, need, needs, 0) == Cut(saturating, order, need, needs, i)
      invariant enough <==> i > 0 && Enough(saturating, order[..i], need, needs)
      decreases |order| - i
    {
      var u := order[i];
      ShownAdd(saturating, Lovelace(selected), u.coin);
      totals := AddAssets(totals, AllAssets(selected), u.assets, saturating);
      assert order[..i + 1] == order[..i] + [u];
      selected := selected + [u];
      assert selected[..|selected| - 1] == order[..i];
      total := Shown(saturating, total + u.coin);
      i := i + 1;
      TallyEnough(saturating, selected, need, needs);
      enough := total >= need && forall id | id in needs :: Get(totals, id) >= needs[id];
    }
  }

  lemma EmptyTotals(saturating: bool)
    ensures Shown(saturating, Lovelace([])) == 0 && Tally(saturating, AllAssets([])) == map[]
  {
  }

  lemma ChangeFromTally(saturating: bool, inputs: seq<Utxo>, needs: map<AssetId, U64>)
    ensures var totals := Tally(saturating, AllAssets(inputs));
            (map id | id in totals && totals[id] > Get(needs, id) :: totals[id] - Get(needs, id))
            == ChangeAssets(saturating, inputs, needs)
  {
    hide Shown, AmountIn, Ids, AllAssets, Get;
  }

  method Conclude(selected: seq<Utxo>, total: U64, totals: map<AssetId, U64>, need: U64, needs: map<AssetId, U64>,
                  saturating: bool) returns (r: Result<Selection, Error>)
    requires total == Shown(saturating, Lovelace(selected)) && totals == Tally(saturating, AllAssets(selected))
    ensures r == if total < need then Err(InsufficientFunds(need, total))
                 else if !Enough(saturating, selected, need, needs) then Err(InsufficientAssets)
                 else Ok(Selection(selected, total - need, ChangeAssets(saturating, selected, needs)))
  {
    hide Tally, Shown, Enough, ChangeAssets;
    if total < need {
      return Err(InsufficientFunds(need, total));
    }
    TallyEnough(saturating, selected, need, needs);
    if exists id | id in needs :: Get(totals, id) < needs[id] {
      return Err(InsufficientAssets);
    }
    ChangeFromTally(saturating, selected, needs);
    var change := map id | id in totals && totals[id] > Get(needs, id) :: totals[id] - Get(needs, id);
    return Ok(Selection(selected, total - need, change));
  }

  /** The selector of the plain builder: the order of the list, additions that wrap around. */
  method SelectUtxosGreedily(utxos: seq<Utxo>, need: U64, needs: map<AssetId, U64>)
    returns (r: Result<Selection, Error>)
    ensures r == SelectUtxos(utxos, need, needs)
  {
    hide Tally, Shown, Enough, ChangeAssets, Cut;
    if utxos == [] {
      return Err(NoUtxos);
    }
    var selected, total, totals := TakeUntilEnough(utxos, need, needs, false);
    r := Conclude(selected, total, totals, need, needs, false);
  }

  method Partition(utxos: seq<Utxo>, scripts: seq<Utxo>) returns (pure: seq<Utxo>, tokens: seq<Utxo>)
    ensures pure == Eligible(utxos, scripts, false) && tokens == Eligible(utxos, scripts, true)
  {
    hide IsScriptInput;
    pure, tokens := [], [];
    for i := 0 to |utxos|
      invariant pure == Eligible(utxos[..i], scripts, false) && tokens == Eligible(utxos[..i], scripts, true)
    {
      var u := utxos[i];
      assert utxos[..i + 1][..i] == utxos[..i];
      if !IsScriptInput(u, scripts) {
        if u.assets == [] {
          pure := pure + [u];
        } else {
          tokens := tokens + [u];
        }
      }
    }
    assert utxos[..|utxos|] == utxos;
  }

  /** The selector of the unified builder: script inputs skipped, tokens first only when assets are needed. */
  method SelectCoinsGreedily(available: Option<seq<Utxo>>, scripts: seq<Utxo>, need: U64, needs: map<AssetId, U64>)
    returns (r: Result<Selection, Error>)
    ensures r == SelectCoins(available, scripts, need, needs)
  {
    hide Tally, Shown, Enough, ChangeAssets, Cut, Eligible, Lovelace, AllAssets;
    if available.None? {
      return Err(NoUtxos);
    }
    var pure, tokens := Partition(available.value, scripts);
    var order := if needs != map[] then tokens + pure else pure + tokens;
    var selected, total, totals := TakeUntilEnough(order, need, needs, true);
    r := Conclude(selected, total, totals, need, needs, true);
  }

  // ----- what the greedy rule guarantees -----

  /** No total over these UTxOs leaves the range of u64. */
  ghost predicate Fits(us: seq<Utxo>) {
    Lovelace(us) <= U64_MAX && forall id :: Amount(us, id) <= U64_MAX
  }

  lemma FitsPrefix(us: seq<Utxo>, n: nat)
    requires Fits(us) && n <= |us|
    ensures Fits(us[..n])
  {
    assert us[..|us|] == us;
    LovelaceGrows(us, n, |us|);
    forall id ensures Amount(us[..n], id) <= U64_MAX { AmountGrows(us, n, |us|, id); }
  }

  lemma CoversGrows(us: seq<Utxo>, n: nat, m: nat, need: U64, needs: map<AssetId, U64>)
    requires n <= m <= |us| && Covers(us[..n], need, needs)
    ensures Covers(us[..m], need, needs)
  {
    hide Amount;
    LovelaceGrows(us, n, m);
    forall id | id in needs ensures Amount(us[..m], id) >= needs[id] { AmountGrows(us, n, m, id); }
  }

  /** Saturation never misjudges a comparison, and neither does wrapping while the totals fit. */
  lemma EnoughIsCovers(saturating: bool, us: seq<Utxo>, need: U64, needs: map<AssetId, U64>)
    requires saturating || Fits(us)
    ensures Enough(saturating, us, need, needs) <==> Covers(us, need, needs)
  {
    hide Lovelace, Amount;
    ShownExact(saturating, Lovelace(us), need);
    forall id | id in needs
      ensures Shown(saturating, Amount(us, id)) >= needs[id] <==> Amount(us, id) >= needs[id]
    {
      ShownExact(saturating, Amount(us, id), needs[id]);
    }
  }

  lemma ShownExact(saturating: bool, total: nat, need: U64)
    requires saturating || total <= U64_MAX
    ensures Shown(saturating, total) >= need <==> total >= need
    ensures total <= U64_MAX <==> Shown(saturating, total) == total
  {
  }

  lemma {:induction false} CutStopsFirst(saturating: bool, order: seq<Utxo>, need: U64, needs: map<AssetId, U64>,
                                         n: nat)
    requires n <= |order|
    ensures var c := Cut(saturating, order, need, needs, n);
            && (c < |order| ==> c > 0 && Enough(saturating, order[..c], need, needs))
            && forall m | n <= m < c && m > 0 :: !Enough(saturating, order[..m], need, needs)
    decreases |order| - n
  {
    hide Enough;
    if n < |order| && !(n > 0 && Enough(saturating, order[..n], need, needs)) {
      CutStopsFirst(saturating, order, need, needs, n + 1);
    }
  }

  ghost predicate ShortestPrefix(us: seq<Utxo>, order: seq<Utxo>, need: U64, needs: map<AssetId, U64>) {
    && us <= order && (us == [] ==> order == []) && Covers(us, need, needs)
    && forall m | 0 < m < |us| :: !Covers(order[..m], need, needs)
  }

  /**
   * The greedy rule, exactly: it succeeds if and only if all UTxOs of the order together cover the requirement,
   * and then takes the shortest non-empty prefix that does.
   */
  lemma ChoosesShortestPrefix(saturating: bool, order: seq<Utxo>, need: U64, needs: map<AssetId, U64>)
    requires saturating || Fits(order)
    ensures Choose(saturating, order, need, needs).Ok? <==> Covers(order, need, needs)
    ensures Choose(saturating, order, need, needs).Ok? ==>
              ShortestPrefix(Choose(saturating, order, need, needs).value.inputs, order, need, needs)
    ensures Choose(saturating, order, need, needs).Err? ==>
              Choose(saturating, order, need, needs).error == Shortage(saturating, order, need)
  {
    hide Enough, Covers, ChangeAssets, Shown, Lovelace;
    var c := Cut(saturating, order, need, needs, 0);
    assert order[..|order|] == order;
    CutStopsFirst(saturating, order, need, needs, 0);
    forall m | 0 <= m <= |order|
      ensures Enough(saturating, order[..m], need, needs) <==> Covers(order[..m], need, needs)
    {
      if !saturating { FitsPrefix(order, m); }
      EnoughIsCovers(saturating, order[..m], need, needs);
    }
    EnoughMeans(saturating, order[..c], need, needs);
    if Covers(order[..c], need, needs) {
      CoversGrows(order, c, |order|, need, needs);
      forall m | 0 < m < c ensures !Covers(order[..m], need, needs) {
        assert !Enough(saturating, order[..m], need, needs);
      }
    }
    if !saturating { FitsPrefix(order, c); }
    FitsLovelace(saturating, order[..c], need);
  }

  lemma EnoughMeans(saturating: bool, us: seq<Utxo>, need: U64, needs: map<AssetId, U64>)
    ensures Enough(saturating, us, need, needs) ==> Shown(saturating, Lovelace(us)) >= need
  {
  }

  lemma FitsLovelace(saturating: bool, us: seq<Utxo>, need: U64)
    requires saturating || Fits(us)
    ensures Shown(saturating, Lovelace(us)) >= need <==> Lovelace(us) >= need
  {
  }

  /**
   * Value is conserved in lovelace and in every asset: what is selected is what was required plus change. The
   * change never lists an empty amount. Without saturation, or as long as the totals fit, the equations are exact.
   */
  lemma ChooseConserves(saturating: bool, order: seq<Utxo>, need: U64, needs: map<AssetId, U64>, id: AssetId)
    requires saturating || Fits(order)
    requires Choose(saturating, order, need, needs).Ok?
    ensures var s := Choose(saturating, order, need, needs).value;
            && Shown(saturating, Lovelace(s.inputs)) == need + s.change
            && (Lovelace(s.inputs) == need + s.change <==> Lovelace(s.inputs) <= U64_MAX)
            && Shown(saturating, Amount(s.inputs, id)) == Get(needs, id) + Get(s.changeAssets, id)
            && (Amount(s.inputs, id) == Get(needs, id) + Get(s.changeAssets, id) <==> Amount(s.inputs, id) <= U64_MAX)
            && (id in s.changeAssets ==> s.changeAssets[id] > 0)
  {
    hide Lovelace, Shown, Covers, Cut;
    var s := Choose(saturating, order, need, needs).value;
    if !saturating { FitsPrefix(order, Cut(saturating, order, need, needs, 0)); }
    ShownExact(saturating, Lovelace(s.inputs), 0);
    ShownExact(saturating, Amount(s.inputs, id), 0);
    if id !in Ids(AllAssets(s.inputs)) {
      AmountNeedsId(AllAssets(s.inputs), id);
    }
  }

  // ----- what the unified selector prefers -----

  lemma {:induction false} EligibleMembers(utxos: seq<Utxo>, scripts: seq<Utxo>, tokens: bool, u: Utxo)
    ensures u in Eligible(utxos, scripts, tokens)
       <==> u in utxos && !IsScriptInput(u, scripts) && (u.assets != []) == tokens
  {
    if utxos != [] {
      EligibleMembers(utxos[..|utxos| - 1], scripts, tokens, u);
      assert utxos == utxos[..|utxos| - 1] + [utxos[|utxos| - 1]];
    }
  }

  /** Every selected coin was available, and none is already spent as a script input. */
  lemma NeverPicksScriptInput(available: seq<Utxo>, scripts: seq<Utxo>, need: U64, needs: map<AssetId, U64>, u: Utxo)
    requires SelectCoins(Some(available), scripts, need, needs).Ok?
    requires u in SelectCoins(Some(available), scripts, need, needs).value.inputs
    ensures u in available && !IsScriptInput(u, scripts)
  {
    hide Cut, Enough, Shown, ChangeAssets, IsScriptInput;
    EligibleMembers(available, scripts, true, u);
    EligibleMembers(available, scripts, false, u);
  }

  /**
   * A coin of the unwanted kind (token-bearing when no asset is required, pure ADA when one is) is taken only if
   * all coins of the wanted kind together fall short, or there are none.
   */
  lemma WantedKindFirst(available: seq<Utxo>, scripts: seq<Utxo>, need: U64, needs: map<AssetId, U64>, u: Utxo)
    requires SelectCoins(Some(available), scripts, need, needs).Ok?
    requires u in SelectCoins(Some(available), scripts, need, needs).value.inputs
    requires (u.assets != []) != (needs != map[])
    ensures var wanted := Eligible(available, scripts, needs != map[]);
            wanted == [] || !Covers(wanted, need, needs)
  {
    hide Covers, Enough, Shown, ChangeAssets, IsScriptInput, Cut;
    var tokens := needs != map[];
    var wanted, order := Eligible(available, scripts, tokens), SelectionOrder(available, scripts, tokens);
    var inputs := SelectCoins(Some(available), scripts, need, needs).value.inputs;
    EligibleMembers(available, scripts, tokens, u);
    ChoosesShortestPrefix(true, order, need, needs);
    assert order[..|wanted|] == wanted;
    var i :| 0 <= i < |inputs| && inputs[i] == u;
    assert order[i] == u;
    assert i >= |wanted|;
  }

  /** The unified selector fails exactly when it was given no coins to choose from or the free ones together fall short,
      and says which: of lovelace before assets. */
  lemma SelectCoinsFailsWhen(available: Option<seq<Utxo>>, scripts: seq<Utxo>, need: U64, needs: map<AssetId, U64>)
    ensures SelectCoins(available, scripts, need, needs).Err?
       <==> available.None? || !Covers(SelectionOrder(available.value, scripts, needs != map[]), need, needs)
    ensures available.None? ==> SelectCoins(available, scripts, need, needs) == Err(NoUtxos)
    ensures available.Some? ==>
              var order := SelectionOrder(available.value, scripts, needs != map[]);
              !Covers(order, need, needs) ==>
                SelectCoins(available, scripts, need, needs) == Err(Shortage(true, order, need))
  {
    hide Choose, Covers, SelectionOrder, Shown, Lovelace;
    if available.Some? {
      ChoosesShortestPrefix(true, SelectionOrder(available.value, scripts, needs != map[]), need, needs);
    }
  }

  /** What coins that fall short are reported to lack. */
  function Shortage(saturating: bool, order: seq<Utxo>, need: U64): Error {
    if Lovelace(order) < need then InsufficientFunds(need, Shown(saturating, Lovelace(order))) else InsufficientAssets
  }

  /** The plain selector fails exactly when there are no coins or they fall short, as long as their totals fit. */
  lemma SelectUtxosFailsWhen(utxos: seq<Utxo>, need: U64, needs: map<AssetId, U64>)
    requires Fits(utxos)
    ensures SelectUtxos(utxos, need, needs).Err? <==> utxos == [] || !Covers(utxos, need, needs)
    ensures utxos == [] ==> SelectUtxos(utxos, need, needs) == Err(NoUtxos)
    ensures utxos != [] && !Covers(utxos, need, needs) ==>
              SelectUtxos(utxos, need, needs) == Err(Shortage(false, utxos, need))
  {
    hide Choose, Covers, Shown, Lovelace, Fits;
    ChoosesShortestPrefix(false, utxos, need, needs);
  }

  // ----- the plain builder -----

  datatype Output = Output(address: Bytes, lovelace: U64, assets: seq<Asset>)

  function OutputLovelace(outputs: seq<Output>): nat {
    if outputs == [] then 0 else OutputLovelace(outputs[..|outputs| - 1]) + outputs[|outputs| - 1].lovelace
  }

  function OutputAssets(outputs: seq<Output>): seq<Asset> {
    if outputs == [] then [] else OutputAssets(outputs[..|outputs| - 1]) + outputs[|outputs| - 1].assets
  }

  /** `TransactionBuilder::build` up to the encoding: fee and outputs summed, then coins selected for them. */
  method SelectForOutputs(utxos: seq<Utxo>, fee: U64, outputs: seq<Output>) returns (r: Result<Selection, Error>)
    ensures r == SelectUtxos(utxos, Shown(false, fee + OutputLovelace(outputs)), Tally(false, OutputAssets(outputs)))
  {
    hide Tally, Shown, SelectUtxos;
    var need, needs := fee, map[];
    EmptyTotals(false);
    WholeShown(false, fee);
    for i := 0 to |outputs|
      invariant need == Shown(false, fee + OutputLovelace(outputs[..i]))
      invariant needs == Tally(false, OutputAssets(outputs[..i]))
    {
      assert outputs[..i + 1][..i] == outputs[..i];
      ShownAdd(false, fee + OutputLovelace(outputs[..i]), outputs[i].lovelace);
      need := Shown(false, need + outputs[i].lovelace);
      needs := AddAssets(needs, OutputAssets(outputs[..i]), outputs[i].assets, false);
    }
    assert outputs[..|outputs|] == outputs;
    r := SelectUtxosGreedily(utxos, need, needs);
  }

  lemma WholeShown(saturating: bool, n: U64)
    ensures Shown(saturating, n) == n
  {
  }

  /** Whatever the plain builder selects pays for fee, outputs and change exactly, in lovelace and in every asset. */
  lemma PlainBuilderBalances(utxos: seq<Utxo>, fee: U64, outputs: seq<Output>, id: AssetId)
    requires Fits(utxos) && fee + OutputLovelace(outputs) <= U64_MAX && AmountIn(OutputAssets(outputs), id) <= U64_MAX
    requires SelectUtxos(utxos, Shown(false, fee + OutputLovelace(outputs)), Tally(false, OutputAssets(outputs))).Ok?
    ensures var needs := Tally(false, OutputAssets(outputs));
            var s := SelectUtxos(utxos, Shown(false, fee + OutputLovelace(outputs)), needs).value;
            && s.inputs <= utxos
            && Lovelace(s.inputs) == fee + OutputLovelace(outputs) + s.change
            && Amount(s.inputs, id) == AmountIn(OutputAssets(outputs), id) + Get(s.changeAssets, id)
  {
    hide Choose, Tally, Shown, Lovelace, Fits;
    var need, needs := Shown(false, fee + OutputLovelace(outputs)), Tally(false, OutputAssets(outputs));
    ChoosesShortestPrefix(false, utxos, need, needs);
    ChooseConserves(false, utxos, need, needs, id);
    TallyGet(false, OutputAssets(outputs), id);
    WholeShown(false, fee + OutputLovelace(outputs));
    WholeShown(false, AmountIn(OutputAssets(outputs), id));
    var s := Choose(false, utxos, need, needs).value;
    FitsPrefix(utxos, |s.inputs|);
    assert utxos[..|s.inputs|] == s.inputs;
    FitsMeans(s.inputs, id);
  }

  lemma FitsMeans(us: seq<Utxo>, id: AssetId)
    requires Fits(us)
    ensures Lovelace(us) <= U64_MAX && Amount(us, id) <= U64_MAX
  {
  }
}
