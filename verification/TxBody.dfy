/**
 * The transaction body of the plain builder (src/wallet/transaction.rs): inputs, outputs with multi-asset values,
 * change, fee and time to live, written as CBOR.
 */
module TxBody {
  import opened Wrappers
  import opened Cbor
  import opened Datum
  import opened Coins

  const TX_HASH_LENGTH: nat := 32
  const POLICY_LENGTH: nat := 28

  datatype TxIn = TxIn(hash: Bytes, index: U32)

  /** An output as the bytes hold it: one amount per asset. */
  datatype TxOut = TxOut(address: Bytes, coin: U64, assets: map<AssetId, U64>)

  datatype Body = Body(inputs: seq<TxIn>, outputs: seq<TxOut>, fee: U64, ttl: Option<U64>)

  datatype BodyError = InvalidTxHash | InvalidPolicy

  // ---- The bytes -----------------------------------------------------------------------------

  lemma {:induction false} FindLeastKey(s: set<Bytes>) returns (k: Bytes)
    requires s != {}
    ensures k in s && forall j | j in s :: LessEq(k, j)
    decreases |s|
  {
    hide LessEq;
    var x :| x in s;
    LessEqTotal(x, x);
    k := x;
    if s != {x} {
      assert s - {x} != {};
      var y := FindLeastKey(s - {x});
      LessEqTotal(x, y);
      if LessEq(x, y) {
        forall j | j in s ensures LessEq(x, j) {
          if j != x { LessEqTransitive(x, y, j); }
        }
      } else {
        k := y;
      }
    }
  }

  ghost function LeastKey(s: set<Bytes>): (k: Bytes)
    requires s != {}
    ensures k in s && forall j | j in s :: LessEq(k, j)
  {
    assert exists k :: k in s && forall j | j in s :: LessEq(k, j) by {
      var k := FindLeastKey(s);
    }
    var k :| k in s && forall j | j in s :: LessEq(k, j);
    k
  }

  lemma LeastKeyIs(s: set<Bytes>, k: Bytes)
    requires k in s && forall j | j in s :: LessEq(k, j)
    ensures LeastKey(s) == k
  {
    LessEqAntisymmetric(LeastKey(s), k);
  }

  predicate Short(b: Bytes) { |b| <= U64_MAX }

  /** Names with amounts in ascending order of names, as a sorted map iterates them. */
  ghost function WriteAmounts(m: map<Bytes, U64>): Bytes
    requires forall k | k in m :: Short(k)
    decreases |m|
  {
    if m == map[] then [] else
      var k := LeastKey(m.Keys);
      assert Short(k);
      WriteBytes(k) + WriteHead(UNSIGNED, m[k]) + WriteAmounts(m - {k})
  }

  function Policies(assets: map<AssetId, U64>): set<Bytes> {
    set id | id in assets :: id.policy
  }

  /** The amounts under one policy, by name. */
  function Under(assets: map<AssetId, U64>, policy: Bytes): map<Bytes, U64> {
    map id | id in assets && id.policy == policy :: id.name := assets[id]
  }

  /** Every length the encoder writes fits in a u64. */
  ghost predicate Writable(assets: map<AssetId, U64>) {
    && |assets| <= U64_MAX
    && forall id | id in assets :: Short(id.policy) && Short(id.name)
  }

  lemma UnderFits(assets: map<AssetId, U64>, policy: Bytes)
    requires Writable(assets)
    ensures |Under(assets, policy)| <= U64_MAX && forall k | k in Under(assets, policy) :: Short(k)
  {
    ImageSmall(assets.Keys, Under(assets, policy).Keys, (id: AssetId) => id.name);
  }

  lemma PoliciesFit(assets: map<AssetId, U64>)
    requires Writable(assets)
    ensures |Policies(assets)| <= U64_MAX && forall p | p in Policies(assets) :: Short(p)
  {
    ImageSmall(assets.Keys, Policies(assets), (id: AssetId) => id.policy);
  }

  lemma {:induction false} ImageSmall(from: set<AssetId>, image: set<Bytes>, f: AssetId -> Bytes)
    requires forall k | k in image :: exists id :: id in from && f(id) == k
    ensures |image| <= |from|
    decreases |image|
  {
    if image != {} {
      var k :| k in image;
      var id :| id in from && f(id) == k;
      ImageSmall(from - {id}, image - {k}, f);
    }
  }

  ghost function WritePolicies(assets: map<AssetId, U64>, ps: set<Bytes>): Bytes
    requires Writable(assets) && forall p | p in ps :: Short(p)
    decreases |ps|
  {
    if ps == {} then [] else
      var p := LeastKey(ps);
      UnderFits(assets, p);
      assert Short(p);
      WriteBytes(p) + (WriteHead(MAP, |Under(assets, p)|) + WriteAmounts(Under(assets, p)))
          + WritePolicies(assets, ps - {p})
  }

  ghost function WriteMultiasset(assets: map<AssetId, U64>): Bytes
    requires Writable(assets)
  {
    PoliciesFit(assets);
    WriteHead(MAP, |Policies(assets)|) + WritePolicies(assets, Policies(assets))
  }

  ghost function WriteValue(o: TxOut): Bytes
    requires Writable(o.assets)
  {
    if o.assets == map[] then WriteHead(UNSIGNED, o.coin)
    else WriteHead(ARRAY, 2) + (WriteHead(UNSIGNED, o.coin) + WriteMultiasset(o.assets))
  }

  ghost function WriteOutput(o: TxOut): Bytes
    requires Short(o.address) && Writable(o.assets)
  {
    WriteHead(ARRAY, 2) + (WriteBytes(o.address) + WriteValue(o))
  }

  ghost function WriteOutputs(os: seq<TxOut>): Bytes
    requires forall i | 0 <= i < |os| :: Short(os[i].address) && Writable(os[i].assets)
  {
    if os == [] then [] else WriteOutput(os[0]) + WriteOutputs(os[1..])
  }

  function WriteInput(i: TxIn): Bytes
    requires Short(i.hash)
  {
    WriteHead(ARRAY, 2) + (WriteBytes(i.hash) + WriteHead(UNSIGNED, i.index))
  }

  function WriteInputs(ins: seq<TxIn>): Bytes
    requires forall i | 0 <= i < |ins| :: Short(ins[i].hash)
  {
    if ins == [] then [] else WriteInput(ins[0]) + WriteInputs(ins[1..])
  }

  ghost predicate WritableBody(b: Body) {
    && |b.inputs| <= U64_MAX && |b.outputs| <= U64_MAX
    && (forall i | 0 <= i < |b.inputs| :: Short(b.inputs[i].hash))
    && forall i | 0 <= i < |b.outputs| :: Short(b.outputs[i].address) && Writable(b.outputs[i].assets)
  }

  function WriteTtl(ttl: Option<U64>): Bytes {
    if ttl.None? then [] else WriteHead(UNSIGNED, 3) + WriteHead(UNSIGNED, ttl.value)
  }

  ghost function WriteBody(b: Body): Bytes
    requires WritableBody(b)
  {
    WriteHead(MAP, if b.ttl.Some? then 4 else 3)
    + (WriteHead(UNSIGNED, 0) + (WriteHead(ARRAY, |b.inputs|) + WriteInputs(b.inputs)))
    + (WriteHead(UNSIGNED, 1) + (WriteHead(ARRAY, |b.outputs|) + WriteOutputs(b.outputs)))
    + (WriteHead(UNSIGNED, 2) + WriteHead(UNSIGNED, b.fee))
    + WriteTtl(b.ttl)
  }

  // ---- A reader of the body ------------------------------------------------------------------

  function ReadAmounts(s: Bytes, n: nat): Option<(map<Bytes, U64>, Bytes)>
    decreases n
  {
    if n == 0 then Some((map[], s)) else
      match ReadBytes(s)
      case None => None
      case Some(name) =>
        var s1 := AfterBytes(s);
        match Argument(s1, UNSIGNED)
        case None => None
        case Some(amount) =>
          match ReadAmounts(AfterHead(s1), n - 1)
          case None => None
          case Some((m, rest)) => if amount > U64_MAX then None else Some((map[name := amount] + m, rest))
  }

  function Lift(policy: Bytes, amounts: map<Bytes, U64>): map<AssetId, U64> {
    map name | name in amounts :: AssetId(policy, name) := amounts[name]
  }

  function ReadPolicies(s: Bytes, n: nat): Option<(map<AssetId, U64>, Bytes)>
    decreases n
  {
    if n == 0 then Some((map[], s)) else
      match ReadBytes(s)
      case None => None
      case Some(policy) =>
        var s1 := AfterBytes(s);
        match Argument(s1, MAP)
        case None => None
        case Some(k) =>
          match ReadAmounts(AfterHead(s1), k)
          case None => None
          case Some((amounts, s2)) =>
            match ReadPolicies(s2, n - 1)
            case None => None
            case Some((m, rest)) => Some((Lift(policy, amounts) + m, rest))
  }

  function ReadMultiasset(s: Bytes): Option<(map<AssetId, U64>, Bytes)> {
    match Argument(s, MAP)
    case None => None
    case Some(n) => ReadPolicies(AfterHead(s), n)
  }

  function ReadNumber(s: Bytes): Option<(U64, Bytes)> {
    match Argument(s, UNSIGNED)
    case None => None
    case Some(n) => if n > U64_MAX then None else Some((n, AfterHead(s)))
  }

  /** A bare coin, or a coin with a multi-asset map. */
  function ReadValue(address: Bytes, s: Bytes): Option<(TxOut, Bytes)> {
    if Argument(s, ARRAY) == Some(2) then
      match ReadNumber(AfterHead(s))
      case None => None
      case Some((coin, s1)) =>
        match ReadMultiasset(s1)
        case None => None
        case Some((assets, rest)) => Some((TxOut(address, coin, assets), rest))
    else
      match ReadNumber(s)
      case None => None
      case Some((coin, rest)) => Some((TxOut(address, coin, map[]), rest))
  }

  function ReadOutput(s: Bytes): Option<(TxOut, Bytes)> {
    if Argument(s, ARRAY) != Some(2) then None else
      var s1 := AfterHead(s);
      match ReadBytes(s1)
      case None => None
      case Some(address) => ReadValue(address, AfterBytes(s1))
  }

  function ReadOutputs(s: Bytes, n: nat): Option<(seq<TxOut>, Bytes)>
    decreases n
  {
    if n == 0 then Some(([], s)) else
      match ReadOutput(s)
      case None => None
      case Some((o, s1)) =>
        match ReadOutputs(s1, n - 1)
        case None => None
        case Some((os, rest)) => Some(([o] + os, rest))
  }

  function ReadInput(s: Bytes): Option<(TxIn, Bytes)> {
    if Argument(s, ARRAY) != Some(2) then None else
      var s1 := AfterHead(s);
      match ReadBytes(s1)
      case None => None
      case Some(hash) =>
        match ReadNumber(AfterBytes(s1))
        case None => None
        case Some((index, rest)) => if index >= 0x1_0000_0000 then None else Some((TxIn(hash, index), rest))
  }

  function ReadInputs(s: Bytes, n: nat): Option<(seq<TxIn>, Bytes)>
    decreases n
  {
    if n == 0 then Some(([], s)) else
      match ReadInput(s)
      case None => None
      case Some((i, s1)) =>
        match ReadInputs(s1, n - 1)
        case None => None
        case Some((ins, rest)) => Some(([i] + ins, rest))
  }

  /** The list under a key of the body map: its length, and what follows the array head. */
  function ReadListAt(s: Bytes, key: nat): Option<(nat, Bytes)> {
    if Argument(s, UNSIGNED) != Some(key) then None else
      match Argument(AfterHead(s), ARRAY)
      case None => None
      case Some(n) => Some((n, AfterHead(AfterHead(s))))
  }

  function ReadNumberAt(s: Bytes, key: nat): Option<(U64, Bytes)> {
    if Argument(s, UNSIGNED) != Some(key) then None else ReadNumber(AfterHead(s))
  }

  function ReadTtl(s: Bytes, fields: nat): Option<(Option<U64>, Bytes)> {
    if fields == 3 then Some((None, s)) else
      match ReadNumberAt(s, 3)
      case None => None
      case Some((ttl, rest)) => Some((Some(ttl), rest))
  }

  /** A body with the fields inputs, outputs, fee and perhaps time to live, and what follows it. */
  function ReadBody(s: Bytes): Option<(Body, Bytes)> {
    match Argument(s, MAP)
    case None => None
    case Some(fields) =>
      if fields != 3 && fields != 4 then None else ReadFields(AfterHead(s), fields)
  }

  function ReadFields(s: Bytes, fields: nat): Option<(Body, Bytes)> {
    match ReadListAt(s, 0)
    case None => None
    case Some((n, s1)) =>
      match ReadInputs(s1, n)
      case None => None
      case Some((inputs, s2)) =>
        match ReadListAt(s2, 1)
        case None => None
        case Some((m, s3)) =>
          match ReadOutputs(s3, m)
          case None => None
          case Some((outputs, s4)) => ReadFeeAndTtl(s4, fields, inputs, outputs)
  }

  function ReadFeeAndTtl(s: Bytes, fields: nat, inputs: seq<TxIn>, outputs: seq<TxOut>): Option<(Body, Bytes)> {
    match ReadNumberAt(s, 2)
    case None => None
    case Some((fee, s1)) =>
      match ReadTtl(s1, fields)
      case None => None
      case Some((ttl, rest)) => Some((Body(inputs, outputs, fee, ttl), rest))
  }

  // ---- Round trips ---------------------------------------------------------------------------

  lemma ReadNumberBack(n: U64, rest: Bytes)
    ensures ReadNumber(WriteHead(UNSIGNED, n) + rest) == Some((n, rest))
  {
    hide WriteHead, ReadHead, Argument, AfterHead;
    ReadHeadBack(UNSIGNED, n, rest);
  }

  lemma WithLeast(m: map<Bytes, U64>, k: Bytes)
    requires k in m
    ensures map[k := m[k]] + (m - {k}) == m && |m - {k}| == |m| - 1
  {
    assert (m - {k}).Keys == m.Keys - {k};
    assert |m.Keys| == |m| && |(m - {k}).Keys| == |m - {k}|;
  }

  lemma ReadAmountStep(name: Bytes, amount: U64, s: Bytes, n: nat)
    requires Short(name) && ReadAmounts(s, n).Some?
    ensures ReadAmounts(WriteBytes(name) + (WriteHead(UNSIGNED, amount) + s), n + 1)
         == Some((map[name := amount] + ReadAmounts(s, n).value.0, ReadAmounts(s, n).value.1))
  {
    hide WriteHead, ReadHead, WriteBytes, ReadBytes, Argument, AfterHead, AfterBytes;
    var s1 := WriteHead(UNSIGNED, amount) + s;
    ReadBytesBack(name, s1);
    ReadHeadBack(UNSIGNED, amount, s);
  }

  lemma {:induction false} ReadAmountsBack(m: map<Bytes, U64>, rest: Bytes)
    requires forall k | k in m :: Short(k)
    ensures ReadAmounts(WriteAmounts(m) + rest, |m|) == Some((m, rest))
    decreases |m|
  {
    hide WriteHead, WriteBytes, ReadBytes, Argument, AfterHead, AfterBytes, LessEq, ReadAmounts;
    if m == map[] {
      assert [] + rest == rest;
      NoAmounts(rest);
    } else {
      var k := LeastKey(m.Keys);
      WithLeast(m, k);
      var later := WriteAmounts(m - {k}) + rest;
      ReadAmountsBack(m - {k}, rest);
      ReadAmountStep(k, m[k], later, |m| - 1);
      Regroup(WriteBytes(k), WriteHead(UNSIGNED, m[k]), WriteAmounts(m - {k}), rest);
    }
  }

  lemma Regroup(a: Bytes, b: Bytes, c: Bytes, d: Bytes)
    ensures a + b + c + d == a + (b + (c + d))
  {
  }

  lemma NoAmounts(rest: Bytes)
    ensures ReadAmounts(rest, 0) == Some((map[], rest))
  {
  }

  /** The assets of some policies. */
  function OfPolicies(assets: map<AssetId, U64>, ps: set<Bytes>): map<AssetId, U64> {
    map id | id in assets && id.policy in ps :: assets[id]
  }

  lemma NoPolicies(assets: map<AssetId, U64>, rest: Bytes)
    ensures OfPolicies(assets, {}) == map[] && ReadPolicies(rest, 0) == Some((map[], rest))
  {
  }

  lemma WithPolicy(assets: map<AssetId, U64>, ps: set<Bytes>, p: Bytes)
    requires p in ps
    ensures Lift(p, Under(assets, p)) + OfPolicies(assets, ps - {p}) == OfPolicies(assets, ps)
  {
    hide Lift, Under;
    var left, right := Lift(p, Under(assets, p)) + OfPolicies(assets, ps - {p}), OfPolicies(assets, ps);
    forall id: AssetId ensures id in left <==> id in right {
      LiftUnder(assets, p, id);
    }
    forall id | id in left ensures left[id] == right[id] {
      LiftUnder(assets, p, id);
    }
  }

  lemma LiftUnder(assets: map<AssetId, U64>, p: Bytes, id: AssetId)
    ensures id in Lift(p, Under(assets, p)) <==> id in assets && id.policy == p
    ensures id in Lift(p, Under(assets, p)) ==> Lift(p, Under(assets, p))[id] == assets[id]
  {
    if id in assets && id.policy == p {
      assert id.name in Under(assets, p);
    }
  }

  lemma ReadPolicyStep(p: Bytes, amounts: map<Bytes, U64>, s: Bytes, n: nat)
    requires Short(p) && |amounts| <= U64_MAX && forall k | k in amounts :: Short(k)
    requires ReadPolicies(s, n).Some?
    ensures ReadPolicies(WriteBytes(p) + (WriteHead(MAP, |amounts|) + WriteAmounts(amounts) + s), n + 1)
         == Some((Lift(p, amounts) + ReadPolicies(s, n).value.0, ReadPolicies(s, n).value.1))
  {
    hide WriteHead, ReadHead, WriteBytes, ReadBytes, Argument, AfterHead, AfterBytes, WriteAmounts, ReadAmounts, Lift;
    var s2 := WriteAmounts(amounts) + s;
    var s1 := WriteHead(MAP, |amounts|) + s2;
    assert WriteHead(MAP, |amounts|) + WriteAmounts(amounts) + s == s1;
    ReadBytesBack(p, s1);
    ReadHeadBack(MAP, |amounts|, s2);
    ReadAmountsBack(amounts, s);
  }

  lemma {:induction false} ReadPoliciesBack(assets: map<AssetId, U64>, ps: set<Bytes>, rest: Bytes)
    requires Writable(assets) && forall p | p in ps :: Short(p)
    ensures ReadPolicies(WritePolicies(assets, ps) + rest, |ps|) == Some((OfPolicies(assets, ps), rest))
    decreases |ps|
  {
    hide WriteHead, WriteBytes, ReadBytes, Argument, AfterHead, AfterBytes, LessEq, ReadPolicies, WriteAmounts, Under,
         Lift,
         OfPolicies, Writable;
    if ps == {} {
      assert [] + rest == rest;
      NoPolicies(assets, rest);
    } else {
      var p := LeastKey(ps);
      UnderFits(assets, p);
      var later := WritePolicies(assets, ps - {p}) + rest;
      ReadPoliciesBack(assets, ps - {p}, rest);
      ReadPolicyStep(p, Under(assets, p), later, |ps| - 1);
      WithPolicy(assets, ps, p);
      Regroup(WriteBytes(p), WriteHead(MAP, |Under(assets, p)|) + WriteAmounts(Under(assets, p)),
              WritePolicies(assets, ps - {p}), rest);
    }
  }

  /** A multi-asset map reads back as exactly the assets written. */
  lemma ReadMultiassetBack(assets: map<AssetId, U64>, rest: Bytes)
    requires Writable(assets)
    ensures ReadMultiasset(WriteMultiasset(assets) + rest) == Some((assets, rest))
  {
    hide WriteHead, Argument, AfterHead, WritePolicies, ReadPolicies;
    var ps := Policies(assets);
    PoliciesFit(assets);
    var tail := WritePolicies(assets, ps) + rest;
    assert WriteMultiasset(assets) + rest == WriteHead(MAP, |ps|) + tail;
    ReadHeadBack(MAP, |ps|, tail);
    ReadPoliciesBack(assets, ps, rest);
    assert OfPolicies(assets, ps) == assets;
  }

  lemma NotAnArray(n: U64, rest: Bytes)
    ensures Argument(WriteHead(UNSIGNED, n) + rest, ARRAY) == None
  {
    hide WriteHead, ReadHead;
    HeadRoundTrip(UNSIGNED, n, rest);
  }

  lemma ReadOutputBack(o: TxOut, rest: Bytes)
    requires Short(o.address) && Writable(o.assets)
    ensures ReadOutput(WriteOutput(o) + rest) == Some((o, rest))
  {
    hide WriteHead, ReadHead, WriteBytes, ReadBytes, Argument, AfterHead, AfterBytes, ReadNumber, ReadMultiasset,
         WriteMultiasset;
    var value := WriteValue(o) + rest;
    var s1 := WriteBytes(o.address) + value;
    assert WriteOutput(o) + rest == WriteHead(ARRAY, 2) + s1;
    ReadHeadBack(ARRAY, 2, s1);
    ReadBytesBack(o.address, value);
    if o.assets == map[] {
      NotAnArray(o.coin, rest);
      ReadNumberBack(o.coin, rest);
    } else {
      var tail := WriteMultiasset(o.assets) + rest;
      assert value == WriteHead(ARRAY, 2) + (WriteHead(UNSIGNED, o.coin) + tail);
      ReadHeadBack(ARRAY, 2, WriteHead(UNSIGNED, o.coin) + tail);
      ReadNumberBack(o.coin, tail);
      ReadMultiassetBack(o.assets, rest);
    }
  }

  lemma {:induction false} ReadOutputsBack(os: seq<TxOut>, rest: Bytes)
    requires forall i | 0 <= i < |os| :: Short(os[i].address) && Writable(os[i].assets)
    ensures ReadOutputs(WriteOutputs(os) + rest, |os|) == Some((os, rest))
  {
    hide WriteOutput, ReadOutput, Writable;
    if os == [] {
      assert [] + rest == rest;
    } else {
      var later := WriteOutputs(os[1..]) + rest;
      ReadOutputsBack(os[1..], rest);
      ReadOutputBack(os[0], later);
      assert WriteOutputs(os) + rest == WriteOutput(os[0]) + later;
      assert [os[0]] + os[1..] == os;
    }
  }

  lemma ReadInputBack(i: TxIn, rest: Bytes)
    requires Short(i.hash)
    ensures ReadInput(WriteInput(i) + rest) == Some((i, rest))
  {
    hide WriteHead, ReadHead, WriteBytes, ReadBytes, Argument, AfterHead, AfterBytes, ReadNumber;
    var index := WriteHead(UNSIGNED, i.index) + rest;
    var s1 := WriteBytes(i.hash) + index;
    assert WriteInput(i) + rest == WriteHead(ARRAY, 2) + s1;
    ReadHeadBack(ARRAY, 2, s1);
    ReadBytesBack(i.hash, index);
    ReadNumberBack(i.index, rest);
  }

  lemma NoInputs(rest: Bytes)
    ensures ReadInputs(rest, 0) == Some(([], rest))
  {
  }

  lemma NextInput(s: Bytes, n: nat)
    requires ReadInput(s).Some? && ReadInputs(ReadInput(s).value.1, n).Some?
    ensures var (i, s1) := ReadInput(s).value;
            var (ins, rest) := ReadInputs(s1, n).value;
            ReadInputs(s, n + 1) == Some(([i] + ins, rest))
  {
    hide ReadInput;
  }

  lemma {:induction false} ReadInputsBack(ins: seq<TxIn>, rest: Bytes)
    requires forall i | 0 <= i < |ins| :: Short(ins[i].hash)
    ensures ReadInputs(WriteInputs(ins) + rest, |ins|) == Some((ins, rest))
  {
    hide WriteInput, ReadInput, Short, ReadInputs;
    if ins == [] {
      assert [] + rest == rest;
      NoInputs(rest);
    } else {
      var later := WriteInputs(ins[1..]) + rest;
      ReadInputsBack(ins[1..], rest);
      ReadInputBack(ins[0], later);
      NextInput(WriteInput(ins[0]) + later, |ins| - 1);
      assert WriteInputs(ins) + rest == WriteInput(ins[0]) + later;
      assert [ins[0]] + ins[1..] == ins;
    }
  }

  lemma ReadListAtBack(key: nat, n: nat, rest: Bytes)
    requires key <= U64_MAX && n <= U64_MAX
    ensures ReadListAt(WriteHead(UNSIGNED, key) + (WriteHead(ARRAY, n) + rest), key) == Some((n, rest))
  {
    hide WriteHead, ReadHead, Argument, AfterHead;
    ReadHeadBack(UNSIGNED, key, WriteHead(ARRAY, n) + rest);
    ReadHeadBack(ARRAY, n, rest);
  }

  lemma ReadNumberAtBack(key: nat, n: U64, rest: Bytes)
    requires key <= U64_MAX
    ensures ReadNumberAt(WriteHead(UNSIGNED, key) + (WriteHead(UNSIGNED, n) + rest), key) == Some((n, rest))
  {
    hide WriteHead, ReadHead, Argument, AfterHead, ReadNumber;
    ReadHeadBack(UNSIGNED, key, WriteHead(UNSIGNED, n) + rest);
    ReadNumberBack(n, rest);
  }

  lemma ReadTtlBack(ttl: Option<U64>, rest: Bytes)
    ensures ReadTtl(WriteTtl(ttl) + rest, if ttl.Some? then 4 else 3) == Some((ttl, rest))
  {
    hide WriteHead, ReadNumberAt;
    if ttl.Some? {
      assert WriteTtl(ttl) + rest == WriteHead(UNSIGNED, 3) + (WriteHead(UNSIGNED, ttl.value) + rest);
      ReadNumberAtBack(3, ttl.value, rest);
    } else {
      assert [] + rest == rest;
    }
  }

  /** A written body reads back as its inputs and outputs in order, with every amount, fee and time to live. */
  lemma BodyReadsBack(b: Body, rest: Bytes)
    requires WritableBody(b)
    ensures ReadBody(WriteBody(b) + rest) == Some((b, rest))
  {
    hide WriteHead, Argument, AfterHead, WriteInputs, ReadInputs, WriteOutputs, ReadOutputs, WriteTtl, ReadTtl,
         ReadListAt, ReadNumberAt, Writable;
    var fields := if b.ttl.Some? then 4 else 3;
    var t4 := WriteTtl(b.ttl) + rest;
    var t3 := WriteHead(UNSIGNED, 2) + (WriteHead(UNSIGNED, b.fee) + t4);
    var t2 := WriteOutputs(b.outputs) + t3;
    var t1 := WriteHead(UNSIGNED, 1) + (WriteHead(ARRAY, |b.outputs|) + t2);
    var t0 := WriteInputs(b.inputs) + t1;
    var s := WriteHead(UNSIGNED, 0) + (WriteHead(ARRAY, |b.inputs|) + t0);
    assert WriteBody(b) + rest == WriteHead(MAP, fields) + s;
    ReadHeadBack(MAP, fields, s);
    ReadListAtBack(0, |b.inputs|, t0);
    ReadInputsBack(b.inputs, t1);
    ReadListAtBack(1, |b.outputs|, t2);
    ReadOutputsBack(b.outputs, t3);
    ReadNumberAtBack(2, b.fee, t4);
    ReadTtlBack(b.ttl, rest);
  }
}
