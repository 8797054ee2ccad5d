/** The fee fix-point and the change decision of the unified builder (src/wallet/unified_tx/builder.rs). */
module Fees {
  import opened Arithmetic
  import opened Wrappers
  import opened Coins
  import Cbor

  datatype FeeStrategy = Fixed(fee: U64) | Automatic

  datatype ProtocolParameters = ProtocolParameters(minFeeA: U64, minFeeB: U64, utxoCostPerByte: U64,
                                                   minUtxo: Option<U64>)

  /** A payment, or a payment to a script (with or without a script reference). */
  datatype TxOutput =
    | Payment(lovelace: U64, assets: seq<Asset>)
    | ScriptPayment(lovelace: U64, assets: seq<Asset>, hasReference: bool)

  /** Positive amounts mint, negative ones burn. */
  datatype Mint = Mint(id: AssetId, amount: int)

  datatype Request = Request(outputs: seq<TxOutput>, mints: seq<Mint>, available: Option<seq<Utxo>>, scripts: seq<Utxo>,
                             strategy: FeeStrategy, params: ProtocolParameters)

  datatype ChangeOutput = ChangeOutput(ada: U64, assets: map<AssetId, U64>)

  /** The transaction assembler: the bytes for these inputs, this change output and this fee, or a failure. */
  type Assembler = (seq<Utxo>, Option<ChangeOutput>, U64) -> Option<Cbor.Bytes>

  datatype Built = Built(bytes: Cbor.Bytes, fee: U64, inputs: seq<Utxo>, change: U64, outputCount: nat)

  function SaturatingAdd(a: U64, b: U64): U64 {
    Shown(true, a + b)
  }

  function CalculateMinFee(params: ProtocolParameters, size: nat): U64 {
    SaturatingAdd(Shown(true, params.minFeeA * size), params.minFeeB)
  }

  function EstimateFee(strategy: FeeStrategy, params: ProtocolParameters, size: nat): U64 {
    match strategy
    case Fixed(fee) => fee
    case Automatic => CalculateMinFee(params, size)
  }

  const SIMPLE_OUTPUT_SIZE := 60

  function MinUtxo(params: ProtocolParameters): U64 {
    var byCost := Shown(true, params.utxoCostPerByte * SIMPLE_OUTPUT_SIZE);
    var least := if params.minUtxo.Some? && params.minUtxo.value > byCost then params.minUtxo.value else byCost;
    if least > 1_000_000 then least else 1_000_000
  }

  // ----- requirements of the outputs -----

  function OutputTotal(outputs: seq<TxOutput>): nat {
    if outputs == [] then 0 else OutputTotal(outputs[..|outputs| - 1]) + outputs[|outputs| - 1].lovelace
  }

  function OutputTokens(outputs: seq<TxOutput>): seq<Asset> {
    if outputs == [] then [] else OutputTokens(outputs[..|outputs| - 1]) + outputs[|outputs| - 1].assets
  }

  function Minted(mints: seq<Mint>): seq<Asset> {
    if mints == [] then [] else
    var last := mints[|mints| - 1];
    Minted(mints[..|mints| - 1]) + if 0 < last.amount <= U64_MAX then [Asset(last.id, last.amount)] else []
  }

  /** The tokens to take from UTxOs: those sent and not minted by the transaction itself. */
  function RequiredAssets(outputs: seq<TxOutput>, mints: seq<Mint>): map<AssetId, U64> {
    Net(Tally(true, OutputTokens(outputs)), Tally(false, Minted(mints)))
  }

  function Net(sent: map<AssetId, U64>, minted: map<AssetId, U64>): map<AssetId, U64> {
    map id | id in sent && sent[id] > Get(minted, id) :: sent[id] - Get(minted, id)
  }

  function ScriptSize(o: TxOutput): nat {
    if o.Payment? then 0 else if o.hasReference then 300 else 100
  }

  function ScriptSizes(outputs: seq<TxOutput>): nat {
    if outputs == [] then 0 else ScriptSizes(outputs[..|outputs| - 1]) + ScriptSize(outputs[|outputs| - 1])
  }

  function InitialSize(total: U64, outputs: seq<TxOutput>): nat {
    var inputs := if total / 10_000_000 + 1 > 10 then 10 else total / 10_000_000 + 1;
    300 + inputs * 180 + (|outputs| + 1) * SIMPLE_OUTPUT_SIZE + ScriptSizes(outputs)
  }

  // ----- change -----

  /** The smallest change output the builder writes. */
  function MinChange(params: ProtocolParameters, assets: map<AssetId, U64>): U64 {
    if assets == map[] then MinUtxo(params) else Shown(false, 1_500_000 + 150_000 * |assets|)
  }

  /** Tokens force a change output, topped up to its minimum; change too small for an output of its own is dropped. */
  function DecideChange(params: ProtocolParameters, change: U64, assets: map<AssetId, U64>): Option<ChangeOutput> {
    if assets == map[] && change < MinUtxo(params) then None
    else Some(ChangeOutput(if change < MinChange(params, assets) then MinChange(params, assets) else change, assets))
  }

  function ChangeAda(c: Option<ChangeOutput>): U64 {
    if c.Some? then c.value.ada else 0
  }

  // ----- the fix-point -----

  function Select(r: Request, fee: U64): Result<Selection, Error> {
    SelectCoins(r.available, r.scripts, SaturatingAdd(Shown(true, OutputTotal(r.outputs)), fee),
                RequiredAssets(r.outputs, r.mints))
  }

  function Assembled(r: Request, assemble: Assembler, s: Selection, fee: U64): Option<Cbor.Bytes> {
    assemble(s.inputs, DecideChange(r.params, s.change, s.changeAssets), fee)
  }

  /** The builder from this fee on, with so many rounds left. */
  function Rounds(r: Request, assemble: Assembler, fee: U64, rounds: nat): Result<Built, Error>
    decreases rounds
  {
    if rounds == 0 then Err(FeeNotConverged) else
    var s := Select(r, fee);
    if s.Err? then Err(s.error) else
    var bytes := Assembled(r, assemble, s.value, fee);
    if bytes.None? then Err(BuildFailed) else
    var required := EstimateFee(r.strategy, r.params, |bytes.value|);
    if required <= fee then Ok(Finished(r, s.value, bytes.value, fee))
    else if s.value.change >= Shown(false, required - fee + MinUtxo(r.params))
      then Rounds(r, assemble, required, rounds - 1)
    else Err(InsufficientChange)
  }

  function Finished(r: Request, s: Selection, bytes: Cbor.Bytes, fee: U64): Built {
    var change := ChangeAda(DecideChange(r.params, s.change, s.changeAssets));
    Built(bytes, fee, s.inputs, change, |r.outputs| + if change > 0 then 1 else 0)
  }

  function InitialFee(r: Request): U64 {
    EstimateFee(r.strategy, r.params, InitialSize(Shown(true, OutputTotal(r.outputs)), r.outputs))
  }

  const MAX_ROUNDS: nat := 3

  function BuildSpec(r: Request, assemble: Assembler): Result<Built, Error> {
    if r.outputs == [] && r.mints == [] then Err(NoOutputs)
    else Rounds(r, assemble, InitialFee(r), MAX_ROUNDS)
  }

  method SumOutputs(outputs: seq<TxOutput>) returns (total: U64, tokens: map<AssetId, U64>, extra: nat)
    ensures total == Shown(true, OutputTotal(outputs)) && tokens == Tally(true, OutputTokens(outputs))
    ensures extra == ScriptSizes(outputs)
  {
    hide Tally, Shown;
    total, tokens, extra := 0, map[], 0;
    EmptyTotals(true);
    for i := 0 to |outputs|
      invariant total == Shown(true, OutputTotal(outputs[..i])) && tokens == Tally(true, OutputTokens(outputs[..i]))
      invariant extra == ScriptSizes(outputs[..i])
    {
      var o := outputs[i];
      assert outputs[..i + 1][..i] == outputs[..i];
      ShownAdd(true, OutputTotal(outputs[..i]), o.lovelace);
      total := SaturatingAdd(total, o.lovelace);
      tokens := AddAssets(tokens, OutputTokens(outputs[..i]), o.assets, true);
      extra := extra + ScriptSize(o);
    }
    assert outputs[..|outputs|] == outputs;
  }

  method SumMints(mints: seq<Mint>) returns (minted: map<AssetId, U64>)
    ensures minted == Tally(false, Minted(mints))
  {
    hide Tally, Shown;
    minted := map[];
    EmptyTotals(false);
    for i := 0 to |mints|
      invariant minted == Tally(false, Minted(mints[..i]))
    {
      var m := mints[i];
      assert mints[..i + 1][..i] == mints[..i];
      if 0 < m.amount <= U64_MAX {
        minted := AddAssets(minted, Minted(mints[..i]), [Asset(m.id, m.amount)], false);
      } else {
        assert Minted(mints[..i + 1]) == Minted(mints[..i]);
      }
    }
    assert mints[..|mints|] == mints;
  }

  /** `UnifiedTxBuilder::build`. */
  method Build(r: Request, assemble: Assembler) returns (result: Result<Built, Error>)
    ensures result == BuildSpec(r, assemble)
  {
    hide Tally, Shown, SelectCoins, DecideChange, EstimateFee, MinUtxo, Net;
    if r.outputs == [] && r.mints == [] {
      return Err(NoOutputs);
    }
    var total, tokens, extra := SumOutputs(r.outputs);
    var minted := SumMints(r.mints);
    var needs := Net(tokens, minted);
    var inputs := if total / 10_000_000 + 1 > 10 then 10 else total / 10_000_000 + 1;
    var fee := EstimateFee(r.strategy, r.params, 300 + inputs * 180 + (|r.outputs| + 1) * SIMPLE_OUTPUT_SIZE + extra);
    var rounds: nat := MAX_ROUNDS;
    while rounds > 0
      invariant rounds <= MAX_ROUNDS
      invariant BuildSpec(r, assemble) == Rounds(r, assemble, fee, rounds)
    {
      var selected := SelectCoinsGreedily(r.available, r.scripts, SaturatingAdd(total, fee), needs);
      if selected.Err? {
        return Err(selected.error);
      }
      var s := selected.value;
      var change := DecideChange(r.params, s.change, s.changeAssets);
      var bytes := assemble(s.inputs, change, fee);
      if bytes.None? {
        return Err(BuildFailed);
      }
      var required := EstimateFee(r.strategy, r.params, |bytes.value|);
      if required <= fee {
        var count := |r.outputs| + if ChangeAda(change) > 0 then 1 else 0;
        return Ok(Built(bytes.value, fee, s.inputs, ChangeAda(change), count));
      }
      var deficit := required - fee;
      if s.change < Shown(false, deficit + MinUtxo(r.params)) {
        return Err(InsufficientChange);
      }
      fee := required;
      rounds := rounds - 1;
    }
    return Err(FeeNotConverged);
  }

  // ----- what the fix-point guarantees -----

  /** The result b of a build is the transaction of its own selection and fee, and it pays for its own size. */
  ghost predicate PaysForItself(r: Request, assemble: Assembler, b: Built) {
    && Select(r, b.fee).Ok?
    && Assembled(r, assemble, Select(r, b.fee).value, b.fee) == Some(b.bytes)
    && b == Finished(r, Select(r, b.fee).value, b.bytes, b.fee)
    && b.fee >= EstimateFee(r.strategy, r.params, |b.bytes|)
  }

  /** Whatever the assembler makes: a build that succeeds pays at least the fee for the size it has. */
  lemma {:induction false} BuiltPaysForItself(r: Request, assemble: Assembler, fee: U64, rounds: nat)
    requires Rounds(r, assemble, fee, rounds).Ok?
    ensures PaysForItself(r, assemble, Rounds(r, assemble, fee, rounds).value)
    ensures Rounds(r, assemble, fee, rounds).value.fee >= fee
    decreases rounds
  {
    hide Select, EstimateFee, Assembled, Finished, MinUtxo, Shown;
    var s := Select(r, fee);
    var bytes := Assembled(r, assemble, s.value, fee);
    var required := EstimateFee(r.strategy, r.params, |bytes.value|);
    if required > fee {
      assert Rounds(r, assemble, fee, rounds) == Rounds(r, assemble, required, rounds - 1);
      BuiltPaysForItself(r, assemble, required, rounds - 1);
    } else {
      assert Rounds(r, assemble, fee, rounds) == Ok(Finished(r, s.value, bytes.value, fee));
      FinishedFields(r, s.value, bytes.value, fee);
    }
  }

  lemma FinishedFields(r: Request, s: Selection, bytes: Cbor.Bytes, fee: U64)
    ensures Finished(r, s, bytes, fee).bytes == bytes && Finished(r, s, bytes, fee).fee == fee
  {
  }

  /**
   * Raising the requirement by no more than the change re-selects exactly the same coins; only the change shrinks,
   * by exactly the raise.
   */
  lemma RaiseKeepsInputs(order: seq<Utxo>, need: U64, raise: nat, needs: map<AssetId, U64>)
    requires Choose(true, order, need, needs).Ok? && Choose(true, order, need, needs).value.change >= raise
    ensures need + raise <= U64_MAX
    ensures var s := Choose(true, order, need, needs).value;
            Choose(true, order, need + raise, needs) == Ok(s.(change := s.change - raise))
  {
    hide Shown, Lovelace, Amount, ChangeAssets;
    var more := need + raise;
    var c := Cut(true, order, need, needs, 0);
    CutStopsFirst(true, order, need, needs, 0);
    SameCut(order, need, more, needs, 0);
    EnoughRaised(order[..c], need, more, needs);
  }

  /** If the scan for the smaller need stops where the larger one is met too, both scans stop there. */
  lemma {:induction false} SameCut(order: seq<Utxo>, need: U64, more: U64, needs: map<AssetId, U64>, n: nat)
    requires n <= |order| && need <= more
    requires Enough(true, order[..Cut(true, order, need, needs, n)], more, needs)
    ensures Cut(true, order, more, needs, n) == Cut(true, order, need, needs, n)
    decreases |order| - n
  {
    hide Shown, Lovelace, Amount;
    if n < |order| {
      EnoughRaised(order[..n], need, more, needs);
      if !(n > 0 && Enough(true, order[..n], need, needs)) {
        SameCut(order, need, more, needs, n + 1);
      }
    }
  }

  lemma EnoughRaised(us: seq<Utxo>, need: U64, more: U64, needs: map<AssetId, U64>)
    requires need <= more
    ensures Enough(true, us, more, needs) <==> Enough(true, us, need, needs) && Shown(true, Lovelace(us)) >= more
  {
    hide Shown, Lovelace, Amount;
  }

  /** A round that goes on: its transaction costs more than the fee, and the change covers the raise. */
  ghost predicate Retries(r: Request, assemble: Assembler, fee: U64) {
    && Select(r, fee).Ok?
    && Assembled(r, assemble, Select(r, fee).value, fee).Some?
    && Required(r, assemble, fee) > fee
    && Select(r, fee).value.change >= Shown(false, Required(r, assemble, fee) - fee + MinUtxo(r.params))
  }

  /** The fee for the size of the transaction a round builds. */
  ghost function Required(r: Request, assemble: Assembler, fee: U64): U64
    requires Select(r, fee).Ok? && Assembled(r, assemble, Select(r, fee).value, fee).Some?
  {
    EstimateFee(r.strategy, r.params, |Assembled(r, assemble, Select(r, fee).value, fee).value|)
  }

  /**
   * Each retry raises the fee. It selects the very same inputs and tokens again, takes the raise out of the change and
   * leaves at least the minimum UTxO there, if and only if the sum the change was compared with does not wrap around.
   */
  lemma RetryKeepsInputsExactWhen(r: Request, assemble: Assembler, fee: U64)
    requires Retries(r, assemble, fee)
    ensures var s, next := Select(r, fee).value, Required(r, assemble, fee);
            && next > fee
            && (next - fee + MinUtxo(r.params) <= U64_MAX <==>
                && s.change >= next - fee
                && Select(r, next) == Ok(s.(change := s.change - (next - fee)))
                && s.change - (next - fee) >= MinUtxo(r.params))
  {
    hide EstimateFee, MinUtxo, Choose, RequiredAssets, SelectionOrder, OutputTotal, Assembled;
    var s, next := Select(r, fee).value, Required(r, assemble, fee);
    if next - fee + MinUtxo(r.params) <= U64_MAX {
      var total := Shown(true, OutputTotal(r.outputs));
      var order := SelectionOrder(r.available.value, r.scripts, RequiredAssets(r.outputs, r.mints) != map[]);
      RaiseKeepsInputs(order, SaturatingAdd(total, fee), next - fee, RequiredAssets(r.outputs, r.mints));
    }
  }

  /** No comparison of the retries of a build wraps around. */
  ghost predicate RetriesFit(r: Request, assemble: Assembler, fee: U64, rounds: nat)
    decreases rounds
  {
    rounds > 0 && Retries(r, assemble, fee) ==>
      && Required(r, assemble, fee) - fee + MinUtxo(r.params) <= U64_MAX
      && RetriesFit(r, assemble, Required(r, assemble, fee), rounds - 1)
  }

  /**
   * The whole loop: a build that succeeds spends the inputs its first round selected, its change is the first
   * round's minus exactly the total raise of the fee, and after any raise it still holds the minimum UTxO.
   */
  lemma {:induction false} BuildKeepsFirstSelection(r: Request, assemble: Assembler, fee: U64, rounds: nat)
    requires Rounds(r, assemble, fee, rounds).Ok? && RetriesFit(r, assemble, fee, rounds)
    ensures var b := Rounds(r, assemble, fee, rounds).value;
            && Select(r, fee).Ok? && Select(r, b.fee).Ok?
            && var first, last := Select(r, fee).value, Select(r, b.fee).value;
            && b.inputs == first.inputs == last.inputs && first.changeAssets == last.changeAssets
            && b.fee >= fee
            && last.change == first.change - (b.fee - fee)
            && (b.fee > fee ==> last.change >= MinUtxo(r.params))
    decreases rounds
  {
    hide Select, EstimateFee, DecideChange, MinUtxo;
    var s := Select(r, fee).value;
    var bytes := Assembled(r, assemble, s, fee).value;
    var required := EstimateFee(r.strategy, r.params, |bytes|);
    if required > fee {
      RetryKeepsInputsExactWhen(r, assemble, fee);
      BuildKeepsFirstSelection(r, assemble, required, rounds - 1);
    }
  }

  /**
   * A built transaction balances in lovelace: its inputs equal outputs, fee and change. It spends the selected coins
   * and every script input.
   */
  ghost predicate Balances(r: Request, b: Built) {
    Lovelace(b.inputs) + Lovelace(r.scripts) == OutputTotal(r.outputs) + b.fee + b.change
  }

  /**
   * What balancing comes to when `change` is left over of the selected coins: the script inputs are worth nothing and
   * the change is neither topped up nor dropped, or they happen to be worth exactly what it is topped up by.
   */
  predicate EvensOut(r: Request, change: int, tokens: map<AssetId, U64>) {
    var least := MinChange(r.params, tokens);
    if tokens == map[] then
      Lovelace(r.scripts) == 0 && (change == 0 || change >= least)
    else if change >= least then
      Lovelace(r.scripts) == 0
    else
      change + Lovelace(r.scripts) == least
  }

  /** When a built transaction balances, exactly. */
  lemma BalancesExactWhen(r: Request, assemble: Assembler, b: Built)
    requires PaysForItself(r, assemble, b)
    requires r.available.Some? && Lovelace(b.inputs) <= U64_MAX && OutputTotal(r.outputs) + b.fee <= U64_MAX
    ensures var s := Select(r, b.fee).value; Balances(r, b) <==> EvensOut(r, s.change, s.changeAssets)
  {
    hide EstimateFee, MinUtxo, Choose, RequiredAssets, SelectionOrder, OutputTotal, Assembled, Shown, Lovelace;
    var s := Select(r, b.fee).value;
    var needs := RequiredAssets(r.outputs, r.mints);
    var order := SelectionOrder(r.available.value, r.scripts, needs != map[]);
    WholeShown(true, OutputTotal(r.outputs));
    WholeShown(true, OutputTotal(r.outputs) + b.fee);
    ChooseConserves(true, order, OutputTotal(r.outputs) + b.fee, needs, AssetId([], []));
    MinUtxoPositive(r.params);
    PlainMinimum(r.params);
  }

  lemma MinUtxoPositive(params: ProtocolParameters)
    ensures MinUtxo(params) >= 1_000_000
  {
  }

  lemma PlainMinimum(params: ProtocolParameters)
    ensures MinChange(params, map[]) == MinUtxo(params)
  {
  }

  // ----- when a build balances, from what is known before it ----------------------------------

  lemma SelectMeets(r: Request, fee: U64)
    requires Select(r, fee).Ok? && Lovelace(Select(r, fee).value.inputs) < U64_MAX
    ensures r.available.Some? && OutputTotal(r.outputs) + fee <= U64_MAX
  {
    hide RequiredAssets, SelectionOrder, OutputTotal, Lovelace, Cut, ChangeAssets, Enough;
  }

  /**
   * When a build balances, decided by its first selection alone, however often the fee is raised: without tokens in
   * the change by that change as it is, with tokens by what the raises leave of it.
   */
  lemma BuildBalancesExactWhen(r: Request, assemble: Assembler)
    requires BuildSpec(r, assemble).Ok? && RetriesFit(r, assemble, InitialFee(r), MAX_ROUNDS)
    requires Lovelace(Select(r, InitialFee(r)).value.inputs) < U64_MAX
    ensures var b, first := BuildSpec(r, assemble).value, Select(r, InitialFee(r)).value;
            && b.fee >= InitialFee(r)
            && (first.changeAssets == map[] ==> (Balances(r, b) <==> EvensOut(r, first.change, map[])))
            && (first.changeAssets != map[] ==>
                  (Balances(r, b) <==> EvensOut(r, first.change - (b.fee - InitialFee(r)), first.changeAssets)))
  {
    hide Select, EstimateFee, MinUtxo, Rounds, MinChange, Lovelace, OutputTotal, InitialFee, RetriesFit, Balances;
    var b := BuildSpec(r, assemble).value;
    BuiltPaysForItself(r, assemble, InitialFee(r), MAX_ROUNDS);
    BuildKeepsFirstSelection(r, assemble, InitialFee(r), MAX_ROUNDS);
    SelectMeets(r, b.fee);
    BalancesExactWhen(r, assemble, b);
    MinUtxoPositive(r.params);
    PlainMinimum(r.params);
  }

  function Larger(a: U64, b: U64): U64 {
    if a > b then a else b
  }

  /** Every transaction the assembler makes has between so many and so many bytes. */
  ghost predicate SizesBetween(assemble: Assembler, low: nat, high: nat) {
    low <= high && forall i, c, f :: assemble(i, c, f).Some? ==> low <= |assemble(i, c, f).value| <= high
  }

  /**
   * The fee of a build that succeeds lies between what the loop started from, or a smallest transaction costs, and the
   * same for a largest one. A fixed fee stays what it is, and transactions of one size settle on what that size costs.
   */
  lemma {:induction false} FeeBetween(r: Request, assemble: Assembler, fee: U64, rounds: nat, low: nat, high: nat)
    requires Rounds(r, assemble, fee, rounds).Ok? && SizesBetween(assemble, low, high)
    ensures var b := Rounds(r, assemble, fee, rounds).value;
            && b.fee >= Larger(fee, EstimateFee(r.strategy, r.params, low))
            && b.fee <= Larger(fee, EstimateFee(r.strategy, r.params, high))
    decreases rounds
  {
    hide Select, EstimateFee, MinUtxo, Shown, Finished;
    var s := Select(r, fee).value;
    var bytes := Assembled(r, assemble, s, fee).value;
    var required := EstimateFee(r.strategy, r.params, |bytes|);
    EstimateGrows(r.strategy, r.params, low, |bytes|);
    EstimateGrows(r.strategy, r.params, |bytes|, high);
    if required > fee {
      assert Rounds(r, assemble, fee, rounds) == Rounds(r, assemble, required, rounds - 1);
      FeeBetween(r, assemble, required, rounds - 1, low, high);
    } else {
      FinishedFields(r, s, bytes, fee);
    }
  }

  lemma EstimateGrows(strategy: FeeStrategy, params: ProtocolParameters, size: nat, more: nat)
    requires size <= more
    ensures EstimateFee(strategy, params, size) <= EstimateFee(strategy, params, more)
  {
    ProductGrows(params.minFeeA, size, more);
  }

  /**
   * With tokens in the change, from what is known before the build. If the fee is fixed or all transactions have one
   * size, the raises are known: exactly when it balances. If the sizes only lie between bounds: it balances if there
   * is no script value and the change covers the minimum of its output and the largest raise, and it does not if there
   * is script value and the change covers all that, or if script value and change miss the minimum and the smallest
   * raise.
   */
  lemma TokenChangeBalancesWhen(r: Request, assemble: Assembler, low: nat, high: nat)
    requires BuildSpec(r, assemble).Ok? && RetriesFit(r, assemble, InitialFee(r), MAX_ROUNDS)
    requires Lovelace(Select(r, InitialFee(r)).value.inputs) < U64_MAX
    requires Select(r, InitialFee(r)).value.changeAssets != map[] && SizesBetween(assemble, low, high)
    ensures var b, first := BuildSpec(r, assemble).value, Select(r, InitialFee(r)).value;
            var tokens := first.changeAssets;
            var least, extra := MinChange(r.params, tokens), Lovelace(r.scripts);
            var smallest, largest := Raise(r, low), Raise(r, high);
            && (r.strategy.Fixed? || low == high ==> (Balances(r, b) <==> EvensOut(r, first.change - smallest, tokens)))
            && (first.change >= least + largest ==> (Balances(r, b) <==> extra == 0))
            && (first.change + extra < least + smallest ==> !Balances(r, b))
  {
    hide Select, EstimateFee, MinUtxo, Rounds, MinChange, Balances, InitialFee, RetriesFit, Lovelace;
    FeeBetween(r, assemble, InitialFee(r), MAX_ROUNDS, low, high);
    BuildBalancesExactWhen(r, assemble);
    if r.strategy.Fixed? {
      SizeDoesNotMatter(r, low, high);
    }
  }

  /** By how much the fee is raised for a transaction of this size. */
  function Raise(r: Request, size: nat): nat {
    Larger(InitialFee(r), EstimateFee(r.strategy, r.params, size)) - InitialFee(r)
  }

  lemma SizeDoesNotMatter(r: Request, low: nat, high: nat)
    requires r.strategy.Fixed?
    ensures Raise(r, low) == Raise(r, high) == 0
  {
  }

  // ----- the signed build ---------------------------------------------------------------------

  /** `build_and_sign` assembles the transaction anew from the result of the build: its change comes without tokens. */
  function RebuiltChange(b: Built): Option<ChangeOutput> {
    if b.change > 0 then Some(ChangeOutput(b.change, map[])) else None
  }

  function Rebuilt(assemble: Assembler, b: Built): Option<Cbor.Bytes> {
    assemble(b.inputs, RebuiltChange(b), b.fee)
  }

  /** What is signed is what was built exactly when the first selection leaves no tokens over. */
  lemma SignedIsBuiltExactWhen(r: Request, assemble: Assembler)
    requires BuildSpec(r, assemble).Ok? && RetriesFit(r, assemble, InitialFee(r), MAX_ROUNDS)
    ensures var b, first := BuildSpec(r, assemble).value, Select(r, InitialFee(r)).value;
            && Select(r, b.fee).Ok?
            && var last := Select(r, b.fee).value;
            && (RebuiltChange(b) == DecideChange(r.params, last.change, last.changeAssets)
                <==> first.changeAssets == map[])
            && (first.changeAssets == map[] ==> Rebuilt(assemble, b) == Some(b.bytes))
  {
    hide Select, EstimateFee, MinUtxo, Rounds, InitialFee, RetriesFit;
    BuiltPaysForItself(r, assemble, InitialFee(r), MAX_ROUNDS);
    BuildKeepsFirstSelection(r, assemble, InitialFee(r), MAX_ROUNDS);
    MinUtxoPositive(r.params);
  }

  // ----- concrete requests --------------------------------------------------------------------

  const PARAMS := ProtocolParameters(44, 155_381, 4_310, None)

  /** Script inputs of this worth. */
  function Scripts(worth: U64): (r: seq<Utxo>)
    ensures Lovelace(r) == worth
  {
    assert [Utxo([1], 0, worth, [])][..0] == [];
    if worth == 0 then [] else [Utxo([1], 0, worth, [])]
  }

  /** One coin, one payment of 2 ADA, a fixed fee of 0.2 ADA. */
  function OnePayment(coin: U64, assets: seq<Asset>, worth: U64): Request {
    Request([Payment(2_000_000, [])], [], Some([Utxo([], 0, coin, assets)]), Scripts(worth), Fixed(200_000), PARAMS)
  }

  /** What selecting the only coin gives when no asset is required. */
  lemma OnlyCoin(u: Utxo, need: U64, worth: U64)
    requires 0 < need <= u.coin && u.txHash == []
    ensures SelectCoins(Some([u]), Scripts(worth), need, map[])
         == Ok(Selection([u], u.coin - need, ChangeAssets(true, [u], map[])))
  {
    hide ChangeAssets;
    OnlyOrder(u, worth);
    OnlyTotals(u, need);
    assert [u][..1] == [u] && [u][..0] == [];
    assert Cut(true, [u], need, map[], 0) == Cut(true, [u], need, map[], 1) == 1;
  }

  lemma OnlyOrder(u: Utxo, worth: U64)
    requires u.txHash == []
    ensures SelectionOrder([u], Scripts(worth), false) == [u]
  {
    var scripts := Scripts(worth);
    assert [u][..0] == [];
    assert Eligible([], scripts, true) == Eligible([], scripts, false) == [];
    assert !IsScriptInput(u, scripts);
    assert Eligible([u], scripts, true) == if u.assets != [] then [u] else [];
    assert Eligible([u], scripts, false) == if u.assets == [] then [u] else [];
  }

  lemma OnlyTotals(u: Utxo, need: U64)
    requires need <= u.coin
    ensures Lovelace([u]) == u.coin && Shown(true, u.coin) == u.coin && Enough(true, [u], need, map[])
  {
    assert [u][..0] == [];
  }

  lemma NothingRequired(coin: U64, assets: seq<Asset>, worth: U64)
    ensures OutputTotal(OnePayment(coin, assets, worth).outputs) == 2_000_000
    ensures RequiredAssets(OnePayment(coin, assets, worth).outputs, []) == map[]
  {
    var outputs := OnePayment(coin, assets, worth).outputs;
    assert outputs[..0] == [];
    assert OutputTokens(outputs) == OutputTokens([]) + [] == [];
    EmptyTotals(true);
  }

  lemma OnePaymentSelects(coin: U64, assets: seq<Asset>, worth: U64, fee: U64)
    requires 2_000_000 + fee <= coin
    ensures var u := Utxo([], 0, coin, assets);
            Select(OnePayment(coin, assets, worth), fee)
            == Ok(Selection([u], coin - 2_000_000 - fee, ChangeAssets(true, [u], map[])))
  {
    hide SelectCoins, RequiredAssets, OutputTotal, ChangeAssets, Scripts;
    NothingRequired(coin, assets, worth);
    WholeShown(true, 2_000_000);
    WholeShown(true, 2_000_000 + fee);
    OnlyCoin(Utxo([], 0, coin, assets), 2_000_000 + fee, worth);
  }

  /** The transaction is always the same empty string: what is asked of the assembler does not matter here. */
  function Blank(): Assembler {
    (i: seq<Utxo>, c: Option<ChangeOutput>, f: U64) => Some([])
  }

  /** The build takes one round; what it leaves over decides whether it balances. */
  lemma OneRound(coin: U64, assets: seq<Asset>, worth: U64)
    requires 2_200_000 <= coin
    ensures var r, u := OnePayment(coin, assets, worth), Utxo([], 0, coin, assets);
            var change, tokens := coin - 2_200_000, ChangeAssets(true, [u], map[]);
            && BuildSpec(r, Blank()) == Ok(Finished(r, Selection([u], change, tokens), [], 200_000))
            && (Balances(r, BuildSpec(r, Blank()).value)
                <==> coin + worth == 2_200_000 + ChangeAda(DecideChange(PARAMS, change, tokens)))
  {
    hide Select, ChangeAssets, DecideChange, OutputTotal, Lovelace, Scripts;
    OnePaymentSelects(coin, assets, worth, 200_000);
    NothingRequired(coin, assets, worth);
    OnlyTotals(Utxo([], 0, coin, assets), 0);
  }

  /** From a coin of 2.7 ADA half an ADA is left over: too little for an output, so it is dropped. */
  lemma DroppedChange()
    ensures var r := OnePayment(2_700_000, [], 0);
            var built := BuildSpec(r, Blank());
            built.Ok? && built.value.change == 0 && built.value.outputCount == 1 && !Balances(r, built.value)
  {
    hide BuildSpec, ChangeAssets, Balances;
    OneRound(2_700_000, [], 0);
    OnlyAssets(Utxo([], 0, 2_700_000, []));
  }

  const TOKEN := Asset(AssetId([], []), 1)

  /** From the same coin with a token on it, the change is topped up to 1.65 ADA that no input pays for. */
  lemma ToppedUpChange()
    ensures var r := OnePayment(2_700_000, [TOKEN], 0);
            var built := BuildSpec(r, Blank());
            built.Ok? && built.value.change == 1_650_000 && built.value.outputCount == 2 && !Balances(r, built.value)
  {
    hide BuildSpec, ChangeAssets, Balances;
    OneRound(2_700_000, [TOKEN], 0);
    OneToken(Utxo([], 0, 2_700_000, [TOKEN]), TOKEN);
  }

  /** A script input of 5 ADA beside a coin that pays outputs and fee to the lovelace: nothing takes up its value. */
  lemma UncountedScriptInput()
    ensures var r := OnePayment(2_200_000, [], 5_000_000);
            var built := BuildSpec(r, Blank());
            built.Ok? && built.value.change == 0 && !Balances(r, built.value)
  {
    hide BuildSpec, ChangeAssets, Balances;
    OneRound(2_200_000, [], 5_000_000);
    OnlyAssets(Utxo([], 0, 2_200_000, []));
  }

  /** Script inputs worth just what the change is topped up by make it balance by accident. */
  lemma ScriptInputPaysTopUp()
    ensures var r := OnePayment(2_700_000, [TOKEN], 1_150_000);
            var built := BuildSpec(r, Blank());
            built.Ok? && built.value.change == 1_650_000 && Balances(r, built.value)
  {
    hide BuildSpec, ChangeAssets, Balances;
    OneRound(2_700_000, [TOKEN], 1_150_000);
    OneToken(Utxo([], 0, 2_700_000, [TOKEN]), TOKEN);
    TokenMinimum();
  }

  /** From a coin of 5 ADA with a token the change is built with the token and signed without it. */
  lemma SignedChangeLosesToken()
    ensures var r := OnePayment(5_000_000, [TOKEN], 0);
            && BuildSpec(r, Blank()).Ok?
            && var b := BuildSpec(r, Blank()).value;
            && Select(r, b.fee).Ok?
            && var s := Select(r, b.fee).value;
            && DecideChange(PARAMS, s.change, s.changeAssets)
                == Some(ChangeOutput(2_800_000, map[TOKEN.id := TOKEN.amount]))
            && RebuiltChange(b) == Some(ChangeOutput(2_800_000, map[]))
  {
    hide BuildSpec, ChangeAssets, Balances, Select;
    OneRound(5_000_000, [TOKEN], 0);
    OneToken(Utxo([], 0, 5_000_000, [TOKEN]), TOKEN);
    OnePaymentSelects(5_000_000, [TOKEN], 0, 200_000);
    assert |map[TOKEN.id := TOKEN.amount]| == 1;
  }

  lemma TokenMinimum()
    ensures DecideChange(PARAMS, 500_000, map[TOKEN.id := TOKEN.amount])
         == Some(ChangeOutput(1_650_000, map[TOKEN.id := TOKEN.amount]))
  {
    assert |map[TOKEN.id := TOKEN.amount]| == 1;
  }

  lemma OnlyAssets(u: Utxo)
    requires u.assets == []
    ensures ChangeAssets(true, [u], map[]) == map[]
  {
    assert [u][..0] == [];
    assert AllAssets([u]) == [];
  }

  lemma OneToken(u: Utxo, token: Asset)
    requires u.assets == [token] && token.amount > 0
    ensures ChangeAssets(true, [u], map[]) == map[token.id := token.amount]
  {
    assert [u][..0] == [] && [token][..0] == [];
    assert AllAssets([u]) == [token];
    assert AmountIn([token], token.id) == AmountIn([], token.id) + token.amount;
    assert token in [token];
    assert Ids([token]) == {token.id};
  }

  /**
   * With a minimum UTxO at the top of u64 the compared sum wraps around to four: a retry goes on with a change of
   * four that cannot pay the raise of five, and the next selection runs out of funds.
   */
  lemma WrappedRetryRunsDry()
    ensures var params := ProtocolParameters(1, 0, 0, Some(U64_MAX));
            var r := OnePayment(2_000_604, [], 0).(strategy := Automatic, params := params);
            var assemble := (i: seq<Utxo>, c: Option<ChangeOutput>, f: U64) => Some(seq(605, _ => 0));
            && InitialFee(r) == 600
            && Retries(r, assemble, 600)
            && Required(r, assemble, 600) == 605
            && Select(r, 605).Err?
  {
    hide Choose, SelectionOrder;
    var r := OnePayment(2_000_604, [], 0).(strategy := Automatic, params := ProtocolParameters(1, 0, 0, Some(U64_MAX)));
    NothingRequired(2_000_604, [], 0);
    OnePaymentSelects(2_000_604, [], 0, 600);
    WholeShown(true, 2_000_000);
    OneTooPoor(Utxo([], 0, 2_000_604, []), 2_000_605);
    assert r.outputs[..0] == [];
  }

  lemma OneTooPoor(u: Utxo, need: U64)
    requires u.coin < need && u.txHash == []
    ensures SelectCoins(Some([u]), Scripts(0), need, map[]).Err?
  {
    hide Choose;
    OnlyOrder(u, 0);
    OnlyTotals(u, 0);
    ChoosesShortestPrefix(true, [u], need, map[]);
  }
}
