/** Concrete keys, scripts, datums, bodies and envelopes, byte for byte: what writers and readers that only undo each
    other could both get wrong. */
module WireFormats {
  import opened Wrappers
  import opened Text
  import opened Hexadecimal
  import opened Cbor
  import opened Datum
  import NativeScript
  import Coins
  import TxBody

  // ----- keys and hex digits -----

  /** A UTxO, an index entry and an event, as they are keyed. */
  lemma KeysSpelled()
    ensures UtxoKey("ab", 120) == "ab#120" && IndexKey("cd", "ab#120") == "cd:ab#120"
  {
    hide Decimal, Digit;
    DigitsSpelled();
    DecimalStep(1, 2);
    DecimalStep(12, 0);
  }

  lemma EventKeySpelled()
    ensures EventKey(86_400, 25) == "slot#00000000000000086400#0000000025"
  {
    hide Padded;
    SlotPadded();
    IndexPadded();
  }

  lemma SlotPadded()
    ensures Padded(20, 86_400) == "00000000000000086400"
  {
    hide Decimal, Digit, Padded;
    DigitsSpelled();
    DecimalStep(8, 6);
    DecimalStep(86, 4);
    DecimalStep(864, 0);
    DecimalStep(8640, 0);
    PaddedStep(20, 86_400, "000000000000000");
  }

  lemma IndexPadded()
    ensures Padded(10, 25) == "0000000025"
  {
    hide Decimal, Digit, Padded;
    DigitsSpelled();
    DecimalStep(2, 5);
    PaddedStep(10, 25, "00000000");
  }

  lemma DigitsSpelled()
    ensures Decimal(1) == "1" && Decimal(2) == "2" && Decimal(8) == "8"
    ensures Digit(0) == '0' && Digit(2) == '2' && Digit(4) == '4' && Digit(5) == '5' && Digit(6) == '6'
  {
  }

  lemma DecimalStep(n: nat, d: nat)
    requires n > 0 && d < 10
    ensures Decimal(10 * n + d) == Decimal(n) + [Digit(d)]
  {
  }

  lemma PaddedStep(w: nat, n: nat, zeros: string)
    requires |zeros| + |Decimal(n)| == w && forall i | 0 <= i < |zeros| :: zeros[i] == '0'
    ensures Padded(w, n) == zeros + Decimal(n)
  {
    hide Decimal;
    assert Zeros(|zeros|) == zeros;
  }

  /** The keys of events order as slot and index do: within 20 and 10 digits, the event tree iterates in chain order. */
  lemma EventsInOrder(s: nat, i: nat, s': nat, i': nat)
    requires s < Pow10(20) && s' < Pow10(20) && i < Pow10(10) && i' < Pow10(10)
    ensures Less(EventKey(s, i), EventKey(s', i')) <==> s < s' || (s == s' && i < i')
  {
    hide Padded, Less, Pow10;
    var a, b, a', b' := Padded(20, s), Padded(10, i), Padded(20, s'), Padded(10, i');
    PaddedOrders(20, s, s');
    PaddedOrders(10, i, i');
    LessPrefix("slot#", a + "#" + b, a' + "#" + b');
    if s == s' {
      LessPrefix(a + "#", b, b');
      assert a + "#" + b == (a + "#") + b && a' + "#" + b' == (a + "#") + b';
    } else {
      LessDecidedEarly(a, a', "#" + b, "#" + b');
      assert a + "#" + b == a + ("#" + b) && a' + "#" + b' == a' + ("#" + b');
    }
  }

  lemma PaddedOrders(w: nat, n: nat, m: nat)
    requires w > 0 && n < Pow10(w) && m < Pow10(w)
    ensures Less(Padded(w, n), Padded(w, m)) <==> n < m
    ensures |Padded(w, n)| == |Padded(w, m)| && (Padded(w, n) == Padded(w, m) <==> n == m)
  {
    hide Padded, Less, Pow10;
    PaddedLength(w, n);
    PaddedLength(w, m);
    ValuePadded(w, n);
    ValuePadded(w, m);
    LessIsNumeric(Padded(w, n), Padded(w, m));
  }

  /** Strings of one length that differ decide, whatever follows them. */
  lemma {:induction false} LessDecidedEarly(a: string, b: string, c: string, d: string)
    requires |a| == |b| && a != b
    ensures Less(a + c, b + d) <==> Less(a, b)
  {
    assert (a + c)[1..] == a[1..] + c && (b + d)[1..] == b[1..] + d;
    if a[0] == b[0] {
      assert a == [a[0]] + a[1..] && b == [b[0]] + b[1..];
      LessDecidedEarly(a[1..], b[1..], c, d);
    }
  }

  lemma HexSpelled()
    ensures ToHex([0xab, 0x0c]) == "ab0c" && FromHex("aB0C") == Some([0xab, 0x0c])
    ensures FromHex("a") == None && FromHex("0g") == None && FromHex("") == Some([])
  {
    assert [0xab, 0x0c][1..] == [0x0c] && [0x0c][1..] == [];
    assert ToHex([0x0c]) == "0c" + ToHex([]) == "0c";
    hide FromHex;
    NoDigits();
    DecodePair('0', 'C', "", 0, 12);
    assert ['0', 'C'] + "" == "0C" && [0x0c] + [] == [0x0c];
    assert FromHex("0C") == Some([0x0c]);
    DecodePair('a', 'B', "0C", 10, 11);
    assert ['a', 'B'] + "0C" == "aB0C" && [0xab] + [0x0c] == [0xab, 0x0c];
    BadHex();
  }

  lemma BadHex()
    ensures FromHex("a") == None && FromHex("0g") == None
  {
  }

  // ----- heads of two bytes -----

  lemma ShortStrings(a: Bytes)
    ensures |a| < 24 ==> WriteBytes(a) == [0x40 + |a|] + a
    ensures 24 <= |a| < 256 ==> WriteBytes(a) == [0x58, |a|] + a
  {
    if 24 <= |a| < 256 {
      Digits1(|a|);
      assert [0x58] + [|a|] == [0x58, |a|];
    }
  }

  // ----- scripts -----

  /** A two-of-two script: all three numbers, then each key hash in order under its own tag. */
  lemma ScriptBytes(a: NativeScript.KeyHash, b: NativeScript.KeyHash)
    ensures NativeScript.WriteScript(NativeScript.Script(1, [a, b]))
         == [0x83, 0x03, 0x01, 0x82] + ([0x82, 0x00, 0x58, 0x1c] + a) + ([0x82, 0x00, 0x58, 0x1c] + b)
  {
    ShortStrings(a);
    ShortStrings(b);
    hide WriteBytes;
    assert NativeScript.WriteKey(a) == [0x82, 0x00, 0x58, 0x1c] + a;
    assert NativeScript.WriteKey(b) == [0x82, 0x00, 0x58, 0x1c] + b;
    assert [a, b][1..] == [b] && [b][1..] == [];
    assert NativeScript.WriteKeys([b]) == NativeScript.WriteKey(b) + [];
  }

  // ----- datums -----

  /** Three signers, two members listed against their order, round seven. */
  lemma DatumBytes(a: Member, b: Member)
    requires ValidMember(a) && ValidMember(b) && LessEq(a.cardanoHash, b.cardanoHash) && a.cardanoHash != b.cardanoHash
    ensures ToCbor(VersionedMultisig(3, [b, a], 7))
         == [0x82, 0x82, 0x03, 0x82]
            + ([0x82, 0x58, 0x20, 0x82, 0x00, 0x58, 0x1c] + a.cardanoHash + [0x58, 0x20] + a.sr25519Key)
            + ([0x82, 0x58, 0x20, 0x82, 0x00, 0x58, 0x1c] + b.cardanoHash + [0x58, 0x20] + b.sr25519Key)
            + [0x07]
  {
    hide LessEq, WriteMember;
    MemberBytes(a);
    MemberBytes(b);
    if LessEq(b.cardanoHash, a.cardanoHash) {
      LessEqAntisymmetric(a.cardanoHash, b.cardanoHash);
    }
    assert [b, a][..1] == [b] && [b][..0] == [];
    assert SortMembers([b]) == [b];
    assert Insert(a, [b]) == [a, b];
    assert SortMembers([b, a]) == [a, b];
    assert [a, b][1..] == [b] && [b][1..] == [];
    assert WriteMembers([b]) == WriteMember(b) + [];
    assert WriteMembers([a, b]) == WriteMember(a) + WriteMembers([b]);
  }

  lemma MemberBytes(m: Member)
    requires ValidMember(m)
    ensures WriteMember(m)
         == [0x82, 0x58, 0x20, 0x82, 0x00, 0x58, 0x1c] + m.cardanoHash + [0x58, 0x20] + m.sr25519Key
  {
    WrappedKeyLayout(m.cardanoHash);
    ShortStrings(WrappedKey(m.cardanoHash));
    ShortStrings(m.sr25519Key);
    hide WriteBytes, WrappedKey;
  }

  /** A head of one byte: what it announces, and what follows it. */
  lemma SmallHead(b: byte, rest: Bytes)
    requires b % 32 < 24
    ensures forall major :: Argument([b] + rest, major) == if major == b / 32 then Some(b % 32) else None
    ensures AfterHead([b] + rest) == rest
  {
  }

  lemma NoHead(major: nat)
    ensures Argument([], major) == None
  {
  }

  /** Where a datum that stops short, or goes on with something else, is found wanting: a different outer array, */
  lemma OuterErrors(rest: Bytes)
    ensures FromCbor([]) == Err(BadOuterArray) && FromCbor([0x83] + rest) == Err(BadOuterArray)
    ensures FromCbor([0x82]) == Err(BadInnerArray) && FromCbor([0x82] + ([0x83] + rest)) == Err(BadInnerArray)
  {
    hide Argument, AfterHead;
    NoHead(ARRAY);
    SmallHead(0x83, rest);
    SmallHead(0x82, []);
    SmallHead(0x82, [0x83] + rest);
    assert [0x82] + [] == [0x82];
  }

  /** no number of signers, no list of members, */
  lemma InnerErrors(signers: byte, rest: Bytes)
    requires signers < 24
    ensures FromCbor([0x82] + ([0x82] + ([0x80] + rest))) == Err(BadTotalSigners)
    ensures FromCbor([0x82] + ([0x82] + ([signers] + ([0x40] + rest)))) == Err(BadMemberList)
  {
    hide Argument, AfterHead;
    SmallHead(0x80, rest);
    SmallHead(0x82, [0x80] + rest);
    SmallHead(0x82, [0x82] + ([0x80] + rest));
    SmallHead(0x40, rest);
    Signers(signers, [0x40] + rest);
  }

  lemma Signers(signers: byte, rest: Bytes)
    requires signers < 24
    ensures FromCbor([0x82] + ([0x82] + ([signers] + rest))) == FromMembers(signers, rest)
  {
    hide Argument, AfterHead, FromMembers;
    SmallHead(signers, rest);
    SmallHead(0x82, [signers] + rest);
    SmallHead(0x82, [0x82] + ([signers] + rest));
  }

  /** a member that is no pair, no round. What follows the round is not looked at. */
  lemma MemberErrors(signers: byte, round: byte, rest: Bytes)
    requires signers < 24 && round < 24
    ensures FromCbor([0x82] + ([0x82] + ([signers] + ([0x81] + ([0x83] + rest))))) == Err(BadMember)
    ensures FromCbor([0x82] + ([0x82] + ([signers] + ([0x80] + ([0x83] + rest))))) == Err(BadLogicRound)
    ensures FromCbor([0x82] + ([0x82] + ([signers] + ([0x80] + ([round] + rest)))))
         == Ok(VersionedMultisig(signers, [], round))
  {
    hide Argument, AfterHead, FromCbor;
    Signers(signers, [0x81] + ([0x83] + rest));
    Signers(signers, [0x80] + ([0x83] + rest));
    Signers(signers, [0x80] + ([round] + rest));
    SmallHead(0x83, rest);
    SmallHead(round, rest);
    SmallHead(0x81, [0x83] + rest);
    SmallHead(0x80, [0x83] + rest);
    SmallHead(0x80, [round] + rest);
  }

  /** Numbers of signers and rounds that do not fit in 32 bits are no such numbers. */
  lemma NumberErrors(n: nat, signers: byte, rest: Bytes)
    requires U32_MAX < n <= U64_MAX && signers < 24
    ensures FromCbor([0x82] + ([0x82] + (WriteHead(UNSIGNED, n) + rest))) == Err(BadTotalSigners)
    ensures FromCbor([0x82] + ([0x82] + ([signers] + ([0x80] + (WriteHead(UNSIGNED, n) + rest))))) == Err(BadLogicRound)
  {
    hide Argument, AfterHead, WriteHead, ReadHead;
    var later := WriteHead(UNSIGNED, n) + rest;
    ReadHeadBack(UNSIGNED, n, rest);
    SmallHead(0x82, later);
    SmallHead(0x82, [0x82] + later);
    Signers(signers, [0x80] + later);
    SmallHead(0x80, later);
  }

  /** Of the first string of a pair only bytes 4 to 31 count, whatever is before or behind them; but they must be there,
      and the second string must be a key. */
  lemma PairPrefixIgnored(wrapped: Bytes, key: Bytes, rest: Bytes)
    requires |wrapped| <= U64_MAX && |key| <= U64_MAX
    ensures ReadMember([0x82] + (WriteBytes(wrapped) + (WriteBytes(key) + rest)))
         == if |wrapped| >= 32 && |key| == 32 then Some((Member(wrapped[4..32], key), rest)) else None
  {
    hide Argument, AfterHead, WriteBytes, ReadBytes, AfterBytes;
    SmallHead(0x82, WriteBytes(wrapped) + (WriteBytes(key) + rest));
    ReadBytesBack(wrapped, WriteBytes(key) + rest);
    ReadBytesBack(key, rest);
  }

  // ----- transaction bodies -----

  const COIN := TxBody.TxOut([0x61], 5, map[])

  const FIRST := Coins.AssetId([0xaa], [0x01])

  const SECOND := Coins.AssetId([0xbb], [0x02])

  const TOKENS := TxBody.TxOut([0x62], 6, map[SECOND := 8, FIRST := 7])

  lemma UnderEach()
    ensures TxBody.Under(TOKENS.assets, [0xaa]) == map[[0x01] := 7]
    ensures TxBody.Under(TOKENS.assets, [0xbb]) == map[[0x02] := 8]
    ensures TxBody.Policies(TOKENS.assets) == {[0xaa], [0xbb]}
    ensures TxBody.Writable(TOKENS.assets)
  {
    assert FIRST in TOKENS.assets && SECOND in TOKENS.assets;
    assert |TOKENS.assets| == 2;
  }

  lemma OneAmount(name: byte, amount: byte)
    requires amount < 24
    ensures TxBody.WriteAmounts(map[[name] := amount]) == [0x41, name, amount]
  {
    var m: map<Bytes, Coins.U64> := map[[name] := amount];
    assert m.Keys == {[name]};
    ShortStrings([name]);
    assert m - {[name]} == map[];
  }

  /** Policies in ascending order, whatever order they are listed in, each with its own map of names. */
  lemma TokenBytes()
    ensures TxBody.Writable(TOKENS.assets)
    ensures TxBody.WriteMultiasset(TOKENS.assets)
         == [0xa2, 0x41, 0xaa, 0xa1, 0x41, 0x01, 0x07, 0x41, 0xbb, 0xa1, 0x41, 0x02, 0x08]
  {
    hide TxBody.Writable, TxBody.Under, TxBody.Policies, TxBody.WritePolicies;
    UnderEach();
    FirstPolicy();
  }

  /** The policy that comes first, with one amount under it. */
  lemma LeastPolicy(assets: map<Coins.AssetId, Coins.U64>, policies: set<Bytes>, policy: byte, name: byte, amount: byte)
    requires TxBody.Writable(assets) && amount < 24 && TxBody.Under(assets, [policy]) == map[[name] := amount]
    requires [policy] in policies && forall p | p in policies :: TxBody.Short(p) && LessEq([policy], p)
    ensures TxBody.WritePolicies(assets, policies)
         == [0x41, policy, 0xa1, 0x41, name, amount] + TxBody.WritePolicies(assets, policies - {[policy]})
  {
    hide TxBody.Writable, TxBody.Under, TxBody.WriteAmounts, TxBody.WritePolicies, WriteBytes, WriteHead, LessEq;
    OneAmount(name, amount);
    ShortStrings([policy]);
    SmallHeads(1);
    PolicyStep(assets, policies, [policy]);
    var m: map<Bytes, Coins.U64> := map[[name] := amount];
    assert |m| == 1;
    assert [0x41] + [policy] + ([0xa1] + [0x41, name, amount]) == [0x41, policy, 0xa1, 0x41, name, amount];
  }

  lemma PolicyStep(assets: map<Coins.AssetId, Coins.U64>, policies: set<Bytes>, policy: Bytes)
    requires TxBody.Writable(assets) && policy in policies
    requires forall p | p in policies :: TxBody.Short(p) && LessEq(policy, p)
    ensures |TxBody.Under(assets, policy)| <= U64_MAX
    ensures forall k | k in TxBody.Under(assets, policy) :: TxBody.Short(k)
    ensures TxBody.WritePolicies(assets, policies)
         == WriteBytes(policy) + (WriteHead(MAP, |TxBody.Under(assets, policy)|)
                                  + TxBody.WriteAmounts(TxBody.Under(assets, policy)))
            + TxBody.WritePolicies(assets, policies - {policy})
  {
    hide TxBody.Writable, TxBody.Under, TxBody.WriteAmounts, WriteBytes, WriteHead, LessEq;
    TxBody.LeastKeyIs(policies, policy);
    TxBody.UnderFits(assets, policy);
  }

  lemma FirstPolicy()
    ensures TxBody.Writable(TOKENS.assets)
    ensures TxBody.WritePolicies(TOKENS.assets, {[0xaa], [0xbb]})
         == [0x41, 0xaa, 0xa1, 0x41, 0x01, 0x07] + [0x41, 0xbb, 0xa1, 0x41, 0x02, 0x08]
  {
    hide TxBody.Writable, TxBody.Under, TxBody.WritePolicies;
    UnderEach();
    LeastPolicy(TOKENS.assets, {[0xaa], [0xbb]}, 0xaa, 0x01, 7);
    assert {[0xaa], [0xbb]} - {[0xaa]} == {[0xbb]};
    LeastPolicy(TOKENS.assets, {[0xbb]}, 0xbb, 0x02, 8);
    assert {[0xbb]} - {[0xbb]} == {};
    NoPolicy();
  }

  lemma NoPolicy()
    ensures TxBody.Writable(TOKENS.assets) && TxBody.WritePolicies(TOKENS.assets, {}) == []
  {
    UnderEach();
  }

  /** The fields of a body under their keys, each list under its length. */
  lemma BodyLayout(b: TxBody.Body)
    requires TxBody.WritableBody(b) && |b.inputs| < 24 && |b.outputs| < 24 && b.fee < 24
    requires b.ttl.Some? ==> b.ttl.value < 24
    ensures TxBody.WriteBody(b)
         == [if b.ttl.Some? then 0xa4 else 0xa3] + ([0x00, 0x80 + |b.inputs|] + TxBody.WriteInputs(b.inputs))
            + ([0x01, 0x80 + |b.outputs|] + TxBody.WriteOutputs(b.outputs))
            + [0x02, b.fee] + if b.ttl.Some? then [0x03, b.ttl.value] else []
  {
    hide TxBody.WriteInputs, TxBody.WriteOutputs, TxBody.Writable;
  }

  /** One input, a coin and tokens under two policies, fee and time to live. Hash, addresses, policies and names are
      shorter here than they are on the chain. */
  lemma BodyBytes()
    ensures var b := TxBody.Body([TxBody.TxIn([0xee], 1)], [COIN, TOKENS], 9, Some(10));
            && TxBody.WritableBody(b)
            && TxBody.WriteBody(b)
               == [0xa4] + ([0x00, 0x81] + [0x82, 0x41, 0xee, 0x01])
                  + ([0x01, 0x82] + ([0x82, 0x41, 0x61, 0x05, 0x82, 0x41, 0x62, 0x82, 0x06]
                                     + [0xa2, 0x41, 0xaa, 0xa1, 0x41, 0x01, 0x07, 0x41, 0xbb, 0xa1, 0x41, 0x02, 0x08]))
                  + [0x02, 0x09] + [0x03, 0x0a]
  {
    hide TxBody.WriteOutputs, TxBody.Writable, TxBody.WriteInputs, TxBody.WriteBody;
    OutputsBytes();
    InputsBytes();
    BodyLayout(TxBody.Body([TxBody.TxIn([0xee], 1)], [COIN, TOKENS], 9, Some(10)));
  }

  lemma InputsBytes()
    ensures TxBody.WriteInputs([TxBody.TxIn([0xee], 1)]) == [0x82, 0x41, 0xee, 0x01]
  {
    ShortStrings([0xee]);
    hide WriteBytes;
    assert TxBody.WriteInput(TxBody.TxIn([0xee], 1)) == [0x82, 0x41, 0xee, 0x01];
  }

  lemma OutputsBytes()
    ensures TxBody.Writable(map[]) && TxBody.Writable(TOKENS.assets)
    ensures TxBody.WriteOutputs([COIN, TOKENS])
         == [0x82, 0x41, 0x61, 0x05, 0x82, 0x41, 0x62, 0x82, 0x06]
            + [0xa2, 0x41, 0xaa, 0xa1, 0x41, 0x01, 0x07, 0x41, 0xbb, 0xa1, 0x41, 0x02, 0x08]
  {
    hide TxBody.WriteOutput, TxBody.Writable;
    CoinBytes();
    TokensBytes();
    assert [COIN, TOKENS][1..] == [TOKENS] && [TOKENS][1..] == [];
    assert TxBody.WriteOutputs([TOKENS]) == TxBody.WriteOutput(TOKENS) + [];
  }

  lemma CoinBytes()
    ensures TxBody.Writable(map[]) && TxBody.WriteOutput(COIN) == [0x82, 0x41, 0x61, 0x05]
  {
    ShortStrings([0x61]);
  }

  lemma TokensBytes()
    ensures TxBody.Writable(TOKENS.assets)
    ensures TxBody.WriteOutput(TOKENS)
         == [0x82, 0x41, 0x62, 0x82, 0x06]
            + [0xa2, 0x41, 0xaa, 0xa1, 0x41, 0x01, 0x07, 0x41, 0xbb, 0xa1, 0x41, 0x02, 0x08]
  {
    hide TxBody.Writable, TxBody.WriteMultiasset;
    TokenBytes();
    assert FIRST in TOKENS.assets;
    OutputOf(TOKENS, 0x62);
  }

  /** An output with tokens at a one-byte address. */
  lemma OutputOf(o: TxBody.TxOut, address: byte)
    requires TxBody.Writable(o.assets) && o.assets != map[] && o.address == [address] && o.coin < 24
    ensures TxBody.WriteOutput(o) == [0x82, 0x41, address, 0x82, o.coin] + TxBody.WriteMultiasset(o.assets)
  {
    hide TxBody.Writable, TxBody.WriteMultiasset, WriteHead, WriteBytes;
    ShortStrings([address]);
    SmallHeads(o.coin);
    var value := [0x82] + ([o.coin] + TxBody.WriteMultiasset(o.assets));
    assert TxBody.WriteValue(o) == value;
    assert [0x82] + ([0x41, address] + value)
        == [0x82, 0x41, address, 0x82, o.coin] + TxBody.WriteMultiasset(o.assets);
  }

  lemma SmallHeads(n: nat)
    requires n < 24
    ensures WriteHead(ARRAY, 2) == [0x82] && WriteHead(UNSIGNED, n) == [n] && WriteHead(MAP, 1) == [0xa1]
  {
  }
}
