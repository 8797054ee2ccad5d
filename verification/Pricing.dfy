/**
 * The amounts the unified builder of Fees works with, said without its formulas: fees and minimum outputs as the
 * least amounts that satisfy what they are for, sums by what they are of one output and of two lists together, and the
 * number of rounds by when it runs out of them.
 */
module Pricing {
  import opened Arithmetic
  import opened Wrappers
  import opened Coins
  import opened Fees

  // ----- fees and minimum outputs -----

  /** The fee is linear in the size, as far as an unsigned 64-bit amount can say so; a fixed fee is what was fixed. */
  lemma FeeIsLinear(params: ProtocolParameters, size: nat, fixed: U64)
    ensures EstimateFee(Fixed(fixed), params, size) == fixed
    ensures var linear := size * params.minFeeA + params.minFeeB;
            var fee := EstimateFee(Automatic, params, size);
            && (linear <= U64_MAX ==> fee == linear)
            && (linear > U64_MAX ==> fee == U64_MAX)
  {
    NotNegative(params.minFeeA, size);
  }

  lemma NotNegative(a: nat, b: nat)
    ensures a * b == b * a >= 0
  {
  }

  /** The least lovelace an output may hold: one ADA, what sixty bytes cost, and what the parameters ask for. */
  predicate Allowed(params: ProtocolParameters, lovelace: U64) {
    && lovelace >= 1_000_000
    && (lovelace == U64_MAX || lovelace >= 60 * params.utxoCostPerByte)
    && (params.minUtxo.Some? ==> lovelace >= params.minUtxo.value)
  }

  lemma MinUtxoIsLeast(params: ProtocolParameters, lovelace: U64)
    ensures Allowed(params, MinUtxo(params))
    ensures Allowed(params, lovelace) ==> MinUtxo(params) <= lovelace
  {
  }

  /** Change with one token takes 1.65 ADA, and each further one 0.15 more; change without tokens an output's minimum.
      */
  lemma MinChangePerToken(params: ProtocolParameters, assets: map<AssetId, U64>, id: AssetId, amount: U64)
    requires id !in assets && |assets| < 1_000_000
    ensures MinChange(params, map[]) == MinUtxo(params)
    ensures MinChange(params, assets[id := amount])
         == if assets == map[] then 1_650_000 else MinChange(params, assets) + 150_000
  {
    hide MinUtxo, MinChange;
    PlainMinimum(params);
    assert (assets[id := amount]).Keys == assets.Keys + {id};
    TokensMinimum(params, assets[id := amount]);
    if assets == map[] {
      assert |assets| == 0;
    } else {
      TokensMinimum(params, assets);
    }
  }

  lemma TokensMinimum(params: ProtocolParameters, assets: map<AssetId, U64>)
    requires |assets| <= 1_000_000 && assets != map[]
    ensures MinChange(params, assets) == 1_500_000 + 150_000 * |assets|
  {
  }

  /** What becomes of change: an output that holds it and its minimum, or nothing, for too little without tokens. */
  lemma ChangeIsDecided(params: ProtocolParameters, change: U64, assets: map<AssetId, U64>)
    ensures var c := DecideChange(params, change, assets);
            && (c.None? <==> assets == map[] && change < MinUtxo(params))
            && (c.Some? ==>
                  && c.value.assets == assets
                  && c.value.ada >= change && c.value.ada >= MinChange(params, assets)
                  && (c.value.ada == change || c.value.ada == MinChange(params, assets)))
  {
    hide MinUtxo, MinChange;
  }

  // ----- sizes -----

  /** A first guess at the size, for nothing to send; each output adds what it takes. */
  lemma SizePerOutput(total: U64, outputs: seq<TxOutput>, o: TxOutput)
    ensures InitialSize(0, []) == 540
    ensures InitialSize(total, outputs + [o]) == InitialSize(total, outputs)
              + match o
                case Payment(_, _) => 60
                case ScriptPayment(_, _, true) => 360
                case ScriptPayment(_, _, false) => 160
  {
    assert (outputs + [o])[..|outputs|] == outputs;
  }

  /** And one more input is guessed for every ten ADA, up to ten inputs. */
  lemma SizePerTenAda(total: U64, more: nat, outputs: seq<TxOutput>)
    requires total + more <= U64_MAX
    ensures more < 10_000_000 - total % 10_000_000 ==> InitialSize(total + more, outputs) == InitialSize(total, outputs)
    ensures more == 10_000_000 && total < 90_000_000 ==>
              InitialSize(total + more, outputs) == InitialSize(total, outputs) + 180
    ensures total >= 90_000_000 ==> InitialSize(total + more, outputs) == InitialSize(total, outputs)
  {
    hide ScriptSizes;
    if more < 10_000_000 - total % 10_000_000 {
      SameQuotient(total, more, 10_000_000);
    }
  }

  lemma SameQuotient(n: nat, more: nat, d: nat)
    requires d > 0 && more < d - n % d
    ensures (n + more) / d == n / d
  {
    DivisionIsUnique(n + more, d, n / d, n % d + more);
  }

  // ----- what is asked for -----

  lemma SentAdds(xs: seq<TxOutput>, ys: seq<TxOutput>)
    ensures OutputTotal(xs + ys) == OutputTotal(xs) + OutputTotal(ys)
    ensures OutputTokens(xs + ys) == OutputTokens(xs) + OutputTokens(ys)
  {
    hide OutputTotal, OutputTokens;
    TotalAdds(xs, ys);
    TokensAdd(xs, ys);
  }

  lemma {:induction false} TotalAdds(xs: seq<TxOutput>, ys: seq<TxOutput>)
    ensures OutputTotal(xs + ys) == OutputTotal(xs) + OutputTotal(ys)
  {
    if ys == [] {
      assert xs + ys == xs;
    } else {
      var n := |ys| - 1;
      assert (xs + ys)[..|xs + ys| - 1] == xs + ys[..n];
      TotalAdds(xs, ys[..n]);
    }
  }

  lemma {:induction false} TokensAdd(xs: seq<TxOutput>, ys: seq<TxOutput>)
    ensures OutputTokens(xs + ys) == OutputTokens(xs) + OutputTokens(ys)
  {
    if ys == [] {
      assert xs + ys == xs;
    } else {
      var n := |ys| - 1;
      assert (xs + ys)[..|xs + ys| - 1] == xs + ys[..n];
      TokensAdd(xs, ys[..n]);
    }
  }

  lemma {:induction false} MintedAdds(xs: seq<Mint>, ys: seq<Mint>)
    ensures Minted(xs + ys) == Minted(xs) + Minted(ys)
  {
    if ys == [] {
      assert xs + ys == xs;
    } else {
      var n := |ys| - 1;
      assert (xs + ys)[..|xs + ys| - 1] == xs + ys[..n];
      MintedAdds(xs, ys[..n]);
    }
  }

  /** One output asks for its lovelace and tokens; a mint makes its amount, a burn or an impossible amount nothing. */
  lemma SentOfOne(o: TxOutput, m: Mint)
    ensures OutputTotal([]) == 0 && OutputTotal([o]) == o.lovelace
    ensures OutputTokens([]) == [] && OutputTokens([o]) == o.assets
    ensures Minted([]) == [] && Minted([m]) == if 1 <= m.amount <= U64_MAX then [Asset(m.id, m.amount)] else []
  {
    assert [o][..0] == [] && [m][..0] == [];
  }

  /** Of each token what is sent and not minted has to come out of coins; nothing else is asked for, and no nothing. */
  lemma RequiredIsUnminted(outputs: seq<TxOutput>, mints: seq<Mint>, id: AssetId)
    ensures var sent, minted := AmountIn(OutputTokens(outputs), id), AmountIn(Minted(mints), id);
            var needs := RequiredAssets(outputs, mints);
            && (sent <= U64_MAX && minted <= U64_MAX ==> Get(needs, id) == if sent > minted then sent - minted else 0)
            && (sent > U64_MAX && minted <= U64_MAX ==> Get(needs, id) == U64_MAX - minted)
            && (id in needs ==> needs[id] > 0)
  {
    hide Tally, AmountIn, OutputTokens, Minted;
    TallyGet(true, OutputTokens(outputs), id);
    TallyGet(false, Minted(mints), id);
  }

  // ----- the rounds -----

  /** The build gives up for want of convergence exactly when each of three rounds asks for another one. */
  lemma GivesUpExactWhen(r: Request, assemble: Assembler)
    requires r.outputs != [] || r.mints != []
    ensures BuildSpec(r, assemble) == Err(FeeNotConverged) <==>
              && Retries(r, assemble, InitialFee(r))
              && var second := Required(r, assemble, InitialFee(r));
              && Retries(r, assemble, second)
              && var third := Required(r, assemble, second);
              && Retries(r, assemble, third)
  {
    hide Required, InitialFee, Select, Assembled, MinUtxo, Rounds, Shown;
    var first := InitialFee(r);
    RoundEnds(r, assemble, first, 3);
    if Retries(r, assemble, first) {
      var second := Required(r, assemble, first);
      RoundEnds(r, assemble, second, 2);
      if Retries(r, assemble, second) {
        RoundEnds(r, assemble, Required(r, assemble, second), 1);
        NoRoundsLeft(r, assemble);
      }
    }
  }

  /** How a round ends: with another one for the fee it found lacking, with a transaction, or with the reason why not.
      */
  lemma RoundEnds(r: Request, assemble: Assembler, fee: U64, rounds: nat)
    requires rounds > 0
    ensures var s, result := Select(r, fee), Rounds(r, assemble, fee, rounds);
            && (Retries(r, assemble, fee) ==> result == Rounds(r, assemble, Required(r, assemble, fee), rounds - 1))
            && (s.Err? ==> result == Err(s.error))
            && (s.Ok? ==>
                  var bytes := Assembled(r, assemble, s.value, fee);
                  && (bytes.None? ==> result == Err(BuildFailed))
                  && (bytes.Some? && !Retries(r, assemble, fee) ==>
                        if Required(r, assemble, fee) <= fee then result.Ok? else result == Err(InsufficientChange)))
            && (s.Err? ==> s.error != FeeNotConverged)
  {
    hide Assembled, MinUtxo, EstimateFee, Finished, Enough, Covers, SelectionOrder, ChangeAssets;
  }

  lemma NoRoundsLeft(r: Request, assemble: Assembler)
    ensures forall fee: U64 :: Rounds(r, assemble, fee, 0) == Err(FeeNotConverged)
  {
  }
}
