/** The encoder of the plain builder's transaction body, and what its bytes are worth. */
module TxBodyOps {
  import opened Wrappers
  import opened Cbor
  import opened Datum
  import opened Coins
  import opened TxBody

  // ---- Values as the encoder groups them -----------------------------------------------------

  /** The amounts the nested sorted maps hold after these assets: a repeated asset keeps its last amount. */
  function LastAmounts(assets: seq<Asset>): map<AssetId, U64> {
    if assets == [] then map[] else
    var last := assets[|assets| - 1];
    LastAmounts(assets[..|assets| - 1])[last.id := last.amount]
  }

  predicate ValidPolicies(assets: seq<Asset>) {
    forall i | 0 <= i < |assets| :: |assets[i].id.policy| == POLICY_LENGTH
  }

  /** Names and list lengths are those of sequences in memory. */
  ghost predicate InMemory(assets: seq<Asset>) {
    |assets| <= U64_MAX && forall i | 0 <= i < |assets| :: Short(assets[i].id.policy) && Short(assets[i].id.name)
  }

  lemma {:induction false} LastAmountsWritable(assets: seq<Asset>)
    requires InMemory(assets)
    ensures Writable(LastAmounts(assets)) && |LastAmounts(assets)| <= |assets|
    ensures (LastAmounts(assets) == map[]) == (assets == [])
  {
    if assets != [] {
      LastAmountsWritable(assets[..|assets| - 1]);
      var before, last := LastAmounts(assets[..|assets| - 1]), assets[|assets| - 1];
      UpdateSmall(before, last.id, last.amount);
    }
  }

  lemma UpdateSmall(m: map<AssetId, U64>, id: AssetId, amount: U64)
    ensures |m[id := amount]| <= |m| + 1 && id in m[id := amount]
  {
    assert m[id := amount].Keys == m.Keys + {id};
    assert |m[id := amount].Keys| == |m[id := amount]| && |m.Keys| == |m|;
  }

  /** The nested maps built so far hold exactly these assets. */
  ghost predicate Nests(grouped: map<Bytes, map<Bytes, U64>>, assets: map<AssetId, U64>) {
    grouped.Keys == Policies(assets) && forall p | p in grouped :: grouped[p] == Under(assets, p)
  }

  /** `entry(policy).or_default().insert(name, amount)` */
  function Put(grouped: map<Bytes, map<Bytes, U64>>, id: AssetId, amount: U64): map<Bytes, map<Bytes, U64>> {
    var inner: map<Bytes, U64> := if id.policy in grouped then grouped[id.policy] else map[];
    grouped[id.policy := inner[id.name := amount]]
  }

  lemma NestsStep(grouped: map<Bytes, map<Bytes, U64>>, assets: map<AssetId, U64>, id: AssetId, amount: U64)
    requires Nests(grouped, assets)
    ensures Nests(Put(grouped, id, amount), assets[id := amount])
  {
    var more, all := Put(grouped, id, amount), assets[id := amount];
    PoliciesStep(assets, id, amount);
    UnderAbsent(assets, id.policy);
    forall p | p in more ensures more[p] == Under(all, p) {
      UnderStep(assets, id, amount, p);
    }
  }

  lemma PoliciesStep(assets: map<AssetId, U64>, id: AssetId, amount: U64)
    ensures Policies(assets[id := amount]) == Policies(assets) + {id.policy}
  {
    var all := assets[id := amount];
    forall p | p in Policies(assets) + {id.policy} ensures p in Policies(all) {
      if p == id.policy {
        assert id in all;
      } else {
        var x :| x in assets && x.policy == p;
        assert x in all;
      }
    }
  }

  lemma UnderAbsent(assets: map<AssetId, U64>, p: Bytes)
    ensures p !in Policies(assets) ==> Under(assets, p) == map[]
  {
  }

  lemma UnderStep(assets: map<AssetId, U64>, id: AssetId, amount: U64, p: Bytes)
    ensures Under(assets[id := amount], p)
         == if p == id.policy then Under(assets, p)[id.name := amount] else Under(assets, p)
  {
    var all := Under(assets[id := amount], p);
    if p == id.policy {
      assert id in assets[id := amount];
      forall n | n in Under(assets, p) ensures n in all {
        assert AssetId(p, n) in assets[id := amount];
      }
    } else {
      forall n | n in Under(assets, p) ensures n in all {
        assert AssetId(p, n) in assets[id := amount];
      }
    }
  }

  // ---- Encoding ------------------------------------------------------------------------------

  method SmallestName(s: set<Bytes>) returns (k: Bytes)
    requires s != {}
    ensures k in s && k == LeastKey(s)
  {
    var least := FindLeastKeyIn(s);
    k := least;
    LeastKeyIs(s, k);
  }

  method FindLeastKeyIn(s: set<Bytes>) returns (k: Bytes)
    requires s != {}
    ensures k in s && forall j | j in s :: LessEq(k, j)
  {
    hide LessEq;
    k :| k in s;
    LessEqTotal(k, k);
    var seen, rest := {k}, s - {k};
    while rest != {}
      invariant seen + rest == s && k in seen
      invariant forall j | j in seen :: LessEq(k, j)
      decreases |rest|
    {
      var x :| x in rest;
      LessEqTotal(k, x);
      LessEqTotal(x, x);
      if !LessEq(k, x) {
        forall j | j in seen ensures LessEq(x, j) { LessEqTransitive(x, k, j); }
        k := x;
      }
      seen, rest := seen + {x}, rest - {x};
    }
  }

  lemma AmountsStep(m: map<Bytes, U64>, before: Bytes, all: Bytes)
    requires m != map[] && forall k | k in m :: Short(k)
    requires before + WriteAmounts(m) == all
    ensures var k := LeastKey(m.Keys);
            Short(k) && before + WriteBytes(k) + WriteHead(UNSIGNED, m[k]) + WriteAmounts(m - {k}) == all
  {
    hide WriteBytes, WriteHead, LessEq;
    var k := LeastKey(m.Keys);
    assert Short(k);
    assert WriteAmounts(m) == WriteBytes(k) + WriteHead(UNSIGNED, m[k]) + WriteAmounts(m - {k});
    Reassociate(before, WriteBytes(k), WriteHead(UNSIGNED, m[k]), WriteAmounts(m - {k}));
  }

  lemma Reassociate(a: Bytes, b: Bytes, c: Bytes, d: Bytes)
    ensures a + (b + c + d) == a + b + c + d
  {
  }

  lemma NothingAfter(a: Bytes)
    ensures a + [] == a
  {
  }

  method EncodeAmounts(amounts: map<Bytes, U64>) returns (buf: Bytes)
    requires |amounts| <= U64_MAX && forall k | k in amounts :: Short(k)
    ensures buf == WriteHead(MAP, |amounts|) + WriteAmounts(amounts)
  {
    hide WriteBytes, WriteHead, LessEq, WriteAmounts;
    buf := WriteHead(MAP, |amounts|);
    var rest := amounts;
    while rest != map[]
      invariant forall k | k in rest :: Short(k)
      invariant buf + WriteAmounts(rest) == WriteHead(MAP, |amounts|) + WriteAmounts(amounts)
      decreases |rest|
    {
      AmountsStep(rest, buf, WriteHead(MAP, |amounts|) + WriteAmounts(amounts));
      var k := SmallestName(rest.Keys);
      buf := buf + WriteBytes(k) + WriteHead(UNSIGNED, rest[k]);
      FewerKeys(rest, k);
      rest := rest - {k};
    }
    NoAmountsLeft();
    NothingAfter(buf);
  }

  lemma FewerKeys<V>(m: map<Bytes, V>, k: Bytes)
    requires k in m
    ensures |m - {k}| < |m|
  {
    assert (m - {k}).Keys == m.Keys - {k};
    assert |m.Keys| == |m| && |(m - {k}).Keys| == |m - {k}|;
  }

  lemma NoAmountsLeft()
    ensures WriteAmounts(map[]) == []
  {
  }

  lemma PoliciesLeft(assets: map<AssetId, U64>, ps: set<Bytes>, before: Bytes, all: Bytes)
    requires Writable(assets) && ps != {} && forall p | p in ps :: Short(p)
    requires before + WritePolicies(assets, ps) == all
    ensures var p := LeastKey(ps);
            && Short(p) && |Under(assets, p)| <= U64_MAX && (forall k | k in Under(assets, p) :: Short(k))
            && before + WriteBytes(p) + (WriteHead(MAP, |Under(assets, p)|) + WriteAmounts(Under(assets, p)))
               + WritePolicies(assets, ps - {p}) == all
  {
    hide WriteBytes, WriteHead, LessEq, WriteAmounts, Under, Writable;
    var p := LeastKey(ps);
    assert Short(p);
    UnderFits(assets, p);
    Reassociate(before, WriteBytes(p), WriteHead(MAP, |Under(assets, p)|) + WriteAmounts(Under(assets, p)),
                WritePolicies(assets, ps - {p}));
  }

  lemma NoPoliciesLeft(assets: map<AssetId, U64>)
    requires Writable(assets)
    ensures WritePolicies(assets, {}) == []
  {
  }

  /** `encode_multiasset`: group by policy, keeping the last amount of a repeated asset, and write nested
      sorted maps. */
  method EncodeMultiasset(assets: seq<Asset>) returns (r: Result<Bytes, BodyError>)
    requires InMemory(assets)
    ensures Writable(LastAmounts(assets))
    ensures r == if ValidPolicies(assets) then Ok(WriteMultiasset(LastAmounts(assets))) else Err(InvalidPolicy)
  {
    hide WriteBytes, WriteHead, LessEq, WriteAmounts, Under, WritePolicies, Policies, Writable;
    var grouped: map<Bytes, map<Bytes, U64>> := map[];
    LastAmountsWritable(assets);
    EmptyNests();
    for i := 0 to |assets|
      invariant ValidPolicies(assets[..i]) && Nests(grouped, LastAmounts(assets[..i]))
    {
      var a := assets[i];
      if |a.id.policy| != POLICY_LENGTH {
        return Err(InvalidPolicy);
      }
      assert assets[..i + 1][..i] == assets[..i];
      NestsStep(grouped, LastAmounts(assets[..i]), a.id, a.amount);
      grouped := Put(grouped, a.id, a.amount);
    }
    assert assets[..|assets|] == assets;
    ghost var flat := LastAmounts(assets);
    PoliciesFit(flat);
    KeyCount(grouped);
    var buf := WriteHead(MAP, |grouped|);
    ghost var all := WriteMultiasset(flat);
    var rest := grouped.Keys;
    while rest != {}
      invariant rest <= grouped.Keys && forall p | p in rest :: Short(p)
      invariant buf + WritePolicies(flat, rest) == all
      decreases |rest|
    {
      PoliciesLeft(flat, rest, buf, all);
      var p := SmallestName(rest);
      assert p in grouped.Keys && grouped[p] == Under(flat, p);
      var inner := EncodeAmounts(grouped[p]);
      buf := buf + WriteBytes(p) + inner;
      rest := rest - {p};
    }
    NoPoliciesLeft(flat);
    NothingAfter(buf);
    return Ok(buf);
  }

  lemma EmptyNests()
    ensures Nests(map[], map[])
  {
  }

  lemma KeyCount(grouped: map<Bytes, map<Bytes, U64>>)
    ensures |grouped| == |grouped.Keys|
  {
  }

  // ---- The whole body ------------------------------------------------------------------------

  function UserOutputs(outputs: seq<Output>): seq<TxOut> {
    if outputs == [] then [] else
    var last := outputs[|outputs| - 1];
    UserOutputs(outputs[..|outputs| - 1]) + [TxOut(last.address, last.lovelace, LastAmounts(last.assets))]
  }

  function ChangeOutputs(changeAddress: Bytes, s: Selection): seq<TxOut> {
    if s.change > 0 || s.changeAssets != map[] then [TxOut(changeAddress, s.change, s.changeAssets)] else []
  }

  function Refs(us: seq<Utxo>): seq<TxIn> {
    if us == [] then [] else Refs(us[..|us| - 1]) + [TxIn(us[|us| - 1].txHash, us[|us| - 1].index)]
  }

  /** What the bytes of a transaction body should say. */
  function BodyOf(s: Selection, outputs: seq<Output>, changeAddress: Bytes, fee: U64, ttl: Option<U64>): Body {
    Body(Refs(s.inputs), UserOutputs(outputs) + ChangeOutputs(changeAddress, s), fee, ttl)
  }

  ghost predicate AllInMemory(us: seq<Utxo>, outputs: seq<Output>, changeAddress: Bytes) {
    && |us| <= U64_MAX && |outputs| < U64_MAX && Short(changeAddress) && InMemory(AllAssets(us))
    && (forall i | 0 <= i < |us| :: Short(us[i].txHash))
    && forall i | 0 <= i < |outputs| :: Short(outputs[i].address) && InMemory(outputs[i].assets)
  }

  predicate ValidHashes(us: seq<Utxo>) {
    forall i | 0 <= i < |us| :: |us[i].txHash| == TX_HASH_LENGTH
  }

  predicate ValidOutputs(outputs: seq<Output>) {
    forall i | 0 <= i < |outputs| :: ValidPolicies(outputs[i].assets)
  }

  predicate ValidChange(assets: map<AssetId, U64>) {
    forall id | id in assets :: |id.policy| == POLICY_LENGTH
  }

  /** Hashes of transactions are 32 bytes long and policy ids 28, in outputs and change alike. */
  lemma LengthsChecked(us: seq<Utxo>, outputs: seq<Output>, change: map<AssetId, U64>)
    ensures ValidHashes(us) <==> forall u | u in us :: |u.txHash| == 32
    ensures ValidOutputs(outputs) <==> forall o, a | o in outputs && a in o.assets :: |a.id.policy| == 28
    ensures ValidChange(change) <==> forall id | id in change :: |id.policy| == 28
  {
    if ValidOutputs(outputs) {
      forall o, a | o in outputs && a in o.assets ensures |a.id.policy| == 28 {
        var i :| 0 <= i < |outputs| && outputs[i] == o;
        assert ValidPolicies(outputs[i].assets);
      }
    }
  }

  lemma {:induction false} RefsWritable(us: seq<Utxo>)
    requires forall i | 0 <= i < |us| :: Short(us[i].txHash)
    ensures |Refs(us)| == |us| && forall i | 0 <= i < |us| :: Short(Refs(us)[i].hash)
  {
    if us != [] {
      RefsWritable(us[..|us| - 1]);
    }
  }

  lemma {:induction false} UserOutputsWritable(outputs: seq<Output>)
    requires forall i | 0 <= i < |outputs| :: Short(outputs[i].address) && InMemory(outputs[i].assets)
    ensures var os := UserOutputs(outputs);
            |os| == |outputs| && forall i | 0 <= i < |os| :: Short(os[i].address) && Writable(os[i].assets)
  {
    hide InMemory, Writable, LastAmounts;
    if outputs != [] {
      UserOutputsWritable(outputs[..|outputs| - 1]);
      LastAmountsWritable(outputs[|outputs| - 1].assets);
    }
  }

  lemma BodyWritable(s: Selection, outputs: seq<Output>, changeAddress: Bytes, fee: U64, ttl: Option<U64>)
    requires AllInMemory(s.inputs, outputs, changeAddress) && Writable(s.changeAssets)
    ensures WritableBody(BodyOf(s, outputs, changeAddress, fee, ttl))
  {
    hide InMemory, Writable, UserOutputs, Refs;
    RefsWritable(s.inputs);
    UserOutputsWritable(outputs);
  }

  lemma {:induction false} WriteInputsSnoc(ins: seq<TxIn>, i: TxIn)
    requires Short(i.hash) && forall j | 0 <= j < |ins| :: Short(ins[j].hash)
    ensures WriteInputs(ins + [i]) == WriteInputs(ins) + WriteInput(i)
  {
    hide WriteInput;
    if ins == [] {
      assert [i][1..] == [];
    } else {
      WriteInputsSnoc(ins[1..], i);
      assert (ins + [i])[1..] == ins[1..] + [i];
      Associates(WriteInput(ins[0]), WriteInputs(ins[1..]), WriteInput(i));
    }
  }

  lemma {:induction false} WriteOutputsSnoc(os: seq<TxOut>, o: TxOut)
    requires Short(o.address) && Writable(o.assets)
    requires forall i | 0 <= i < |os| :: Short(os[i].address) && Writable(os[i].assets)
    ensures WriteOutputs(os + [o]) == WriteOutputs(os) + WriteOutput(o)
  {
    hide WriteOutput, Writable;
    if os == [] {
      assert [o][1..] == [];
    } else {
      WriteOutputsSnoc(os[1..], o);
      assert (os + [o])[1..] == os[1..] + [o];
      Associates(WriteOutput(os[0]), WriteOutputs(os[1..]), WriteOutput(o));
    }
  }

  method EncodeInputs(us: seq<Utxo>) returns (r: Result<Bytes, BodyError>)
    requires |us| <= U64_MAX && forall i | 0 <= i < |us| :: Short(us[i].txHash)
    ensures |Refs(us)| == |us| && forall i | 0 <= i < |us| :: Short(Refs(us)[i].hash)
    ensures r == if ValidHashes(us) then Ok(WriteInputs(Refs(us))) else Err(InvalidTxHash)
  {
    hide WriteBytes, WriteHead;
    RefsWritable(us);
    var buf: Bytes := [];
    for n := 0 to |us|
      invariant |Refs(us[..n])| == n && forall i | 0 <= i < n :: Short(Refs(us[..n])[i].hash)
      invariant ValidHashes(us[..n]) && buf == WriteInputs(Refs(us[..n]))
    {
      var u := us[n];
      if |u.txHash| != TX_HASH_LENGTH {
        return Err(InvalidTxHash);
      }
      assert us[..n + 1][..n] == us[..n];
      RefsWritable(us[..n + 1]);
      WriteInputsSnoc(Refs(us[..n]), TxIn(u.txHash, u.index));
      buf := buf + (WriteHead(ARRAY, 2) + (WriteBytes(u.txHash) + WriteHead(UNSIGNED, u.index)));
    }
    assert us[..|us|] == us;
    return Ok(buf);
  }

  /** One output; `assets` lists its assets in any order. */
  method EncodeOutput(address: Bytes, coin: U64, assets: seq<Asset>) returns (r: Result<Bytes, BodyError>)
    requires Short(address) && InMemory(assets)
    ensures Writable(LastAmounts(assets))
    ensures r == if ValidPolicies(assets) then Ok(WriteOutput(TxOut(address, coin, LastAmounts(assets))))
            else Err(InvalidPolicy)
  {
    hide WriteBytes, WriteHead, WriteMultiasset, Writable;
    LastAmountsWritable(assets);
    var buf := WriteBytes(address);
    if assets == [] {
      buf := buf + WriteHead(UNSIGNED, coin);
    } else {
      var multiasset := EncodeMultiasset(assets);
      if multiasset.Err? {
        return multiasset;
      }
      buf := buf + (WriteHead(ARRAY, 2) + (WriteHead(UNSIGNED, coin) + multiasset.value));
    }
    return Ok(WriteHead(ARRAY, 2) + buf);
  }

  /** The entries not left to list. */
  function Listed(assets: map<AssetId, U64>, rest: set<AssetId>): map<AssetId, U64> {
    map id | id in assets && id !in rest :: assets[id]
  }

  lemma ListedStep(assets: map<AssetId, U64>, rest: set<AssetId>, id: AssetId)
    requires id in rest && rest <= assets.Keys
    ensures Listed(assets, rest - {id}) == Listed(assets, rest)[id := assets[id]]
  {
  }

  lemma ListedEnds(assets: map<AssetId, U64>)
    ensures Listed(assets, assets.Keys) == map[] && Listed(assets, {}) == assets && |assets.Keys| == |assets|
  {
  }

  lemma {:induction false} LastAmountsIds(list: seq<Asset>)
    ensures LastAmounts(list).Keys == Ids(list)
  {
    if list != [] {
      var n := |list| - 1;
      LastAmountsIds(list[..n]);
      assert list == list[..n] + [list[n]];
      IdsStep(list[..n], list[n]);
    }
  }

  lemma ListOfAll(list: seq<Asset>, assets: map<AssetId, U64>)
    requires Writable(assets) && LastAmounts(list) == assets && |list| <= |assets|
    ensures InMemory(list) && (ValidPolicies(list) <==> ValidChange(assets))
  {
    hide LastAmounts;
    LastAmountsIds(list);
    forall i | 0 <= i < |list| ensures list[i].id in assets {
      assert list[i] in list;
    }
    if ValidPolicies(list) {
      forall id | id in assets ensures |id.policy| == POLICY_LENGTH {
        assert id in Ids(list);
        var a :| a in list && a.id == id;
      }
    }
  }

  /** Change assets as a list, in any order. */
  method ListAssets(assets: map<AssetId, U64>) returns (list: seq<Asset>)
    requires Writable(assets)
    ensures InMemory(list) && LastAmounts(list) == assets && (ValidPolicies(list) <==> ValidChange(assets))
  {
    hide Listed, InMemory, Writable;
    list := [];
    var rest := assets.Keys;
    ListedEnds(assets);
    while rest != {}
      invariant rest <= assets.Keys && |list| + |rest| <= |assets.Keys|
      invariant LastAmounts(list) == Listed(assets, rest)
      decreases |rest|
    {
      var id :| id in rest;
      ghost var before := list;
      ListedStep(assets, rest, id);
      list := list + [Asset(id, assets[id])];
      assert list[..|list| - 1] == before;
      rest := rest - {id};
    }
    ListOfAll(list, assets);
  }

  method EncodeOutputs(outputs: seq<Output>) returns (r: Result<Bytes, BodyError>)
    requires forall i | 0 <= i < |outputs| :: Short(outputs[i].address) && InMemory(outputs[i].assets)
    ensures var os := UserOutputs(outputs); forall i | 0 <= i < |os| :: Short(os[i].address) && Writable(os[i].assets)
    ensures r == if ValidOutputs(outputs) then Ok(WriteOutputs(UserOutputs(outputs))) else Err(InvalidPolicy)
  {
    hide Writable, InMemory, WriteOutput, ValidPolicies, LastAmounts;
    UserOutputsWritable(outputs);
    var buf: Bytes := [];
    for n := 0 to |outputs|
      invariant var os := UserOutputs(outputs[..n]);
                forall i | 0 <= i < |os| :: Short(os[i].address) && Writable(os[i].assets)
      invariant ValidOutputs(outputs[..n]) && buf == WriteOutputs(UserOutputs(outputs[..n]))
    {
      var o := outputs[n];
      assert outputs[..n + 1][..n] == outputs[..n];
      UserOutputsWritable(outputs[..n + 1]);
      var bytes := EncodeOutput(o.address, o.lovelace, o.assets);
      if bytes.Err? {
        return bytes;
      }
      WriteOutputsSnoc(UserOutputs(outputs[..n]), TxOut(o.address, o.lovelace, LastAmounts(o.assets)));
      buf := buf + bytes.value;
    }
    assert outputs[..|outputs|] == outputs;
    return Ok(buf);
  }

  /** `encode_transaction_body` */
  method EncodeBody(s: Selection, outputs: seq<Output>, changeAddress: Bytes, fee: U64, ttl: Option<U64>)
    returns (r: Result<Bytes, BodyError>)
    requires AllInMemory(s.inputs, outputs, changeAddress) && Writable(s.changeAssets)
    ensures WritableBody(BodyOf(s, outputs, changeAddress, fee, ttl))
    ensures r == if !ValidHashes(s.inputs) then Err(InvalidTxHash)
                 else if !ValidOutputs(outputs) || !ValidChange(s.changeAssets) then Err(InvalidPolicy)
                 else Ok(WriteBody(BodyOf(s, outputs, changeAddress, fee, ttl)))
  {
    hide WriteHead, Writable, InMemory, WriteOutput, ValidPolicies, LastAmounts, WriteInputs, UserOutputs, Refs,
         ValidHashes, ValidOutputs, ValidChange, WriteOutputs;
    BodyWritable(s, outputs, changeAddress, fee, ttl);
    RefsWritable(s.inputs);
    UserOutputsWritable(outputs);
    var inputs := EncodeInputs(s.inputs);
    if inputs.Err? {
      return inputs;
    }
    var os := EncodeOutputs(outputs);
    if os.Err? {
      return os;
    }
    var all, count := os.value, |outputs|;
    if s.change > 0 || s.changeAssets != map[] {
      var list := ListAssets(s.changeAssets);
      var change := EncodeOutput(changeAddress, s.change, list);
      if change.Err? {
        return change;
      }
      WriteOutputsSnoc(UserOutputs(outputs), TxOut(changeAddress, s.change, s.changeAssets));
      all, count := all + change.value, count + 1;
    } else {
      NoChangeIsValid(s.changeAssets);
      assert UserOutputs(outputs) + [] == UserOutputs(outputs);
    }
    return Ok(WriteHead(MAP, if ttl.Some? then 4 else 3)
              + (WriteHead(UNSIGNED, 0) + (WriteHead(ARRAY, |s.inputs|) + inputs.value))
              + (WriteHead(UNSIGNED, 1) + (WriteHead(ARRAY, count) + all))
              + (WriteHead(UNSIGNED, 2) + WriteHead(UNSIGNED, fee))
              + WriteTtl(ttl));
  }

  lemma NoChangeIsValid(assets: map<AssetId, U64>)
    ensures assets == map[] ==> ValidChange(assets)
  {
  }

  // ---- From request to bytes -----------------------------------------------------------------

  datatype BuildError = NotSelected(error: Error) | NotEncoded(reason: BodyError)

  lemma {:induction false} IdsSmall(assets: seq<Asset>)
    ensures |Ids(assets)| <= |assets|
  {
    if assets != [] {
      var n := |assets| - 1;
      IdsSmall(assets[..n]);
      assert assets == assets[..n] + [assets[n]];
      IdsStep(assets[..n], assets[n]);
    }
  }

  lemma {:induction false} PrefixAssets(us: seq<Utxo>, n: nat)
    requires n <= |us|
    ensures AllAssets(us[..n]) <= AllAssets(us)
    decreases |us|
  {
    if n == |us| {
      assert us[..n] == us;
    } else {
      PrefixAssets(us[..|us| - 1], n);
      assert us[..|us| - 1][..n] == us[..n];
    }
  }

  /** Whatever the selector returns can be written: the change lists no asset the inputs do not. */
  lemma SelectionInMemory(utxos: seq<Utxo>, outputs: seq<Output>, changeAddress: Bytes, need: U64,
                          needs: map<AssetId, U64>)
    requires AllInMemory(utxos, outputs, changeAddress) && SelectUtxos(utxos, need, needs).Ok?
    ensures var s := SelectUtxos(utxos, need, needs).value;
            AllInMemory(s.inputs, outputs, changeAddress) && Writable(s.changeAssets)
  {
    hide Enough, Cut, Shown, Lovelace, Amount;
    var s := SelectUtxos(utxos, need, needs).value;
    var n := Cut(false, utxos, need, needs, 0);
    PrefixAssets(utxos, n);
    var held, all := AllAssets(s.inputs), AllAssets(utxos);
    assert held == all[..|held|];
    IdsSmall(held);
    SubmapSmall(s.changeAssets, Ids(held));
    forall id | id in s.changeAssets ensures Short(id.policy) && Short(id.name) {
      var a :| a in held && a.id == id;
      assert a in all;
    }
  }

  lemma SubmapSmall(m: map<AssetId, U64>, ids: set<AssetId>)
    requires m.Keys <= ids
    ensures |m| <= |ids|
  {
    assert |m.Keys| == |m|;
    SubsetSmall(m.Keys, ids);
  }

  lemma {:induction false} SubsetSmall(a: set<AssetId>, b: set<AssetId>)
    requires a <= b
    ensures |a| <= |b|
    decreases |a|
  {
    if a != {} {
      var x :| x in a;
      SubsetSmall(a - {x}, b - {x});
    }
  }

  /** What `TransactionBuilder::build` selects for a request. */
  function Selected(utxos: seq<Utxo>, fee: U64, outputs: seq<Output>): Result<Selection, Error> {
    SelectUtxos(utxos, Shown(false, fee + OutputLovelace(outputs)), Tally(false, OutputAssets(outputs)))
  }

  /** `TransactionBuilder::build` */
  method BuildTransaction(utxos: seq<Utxo>, fee: U64, outputs: seq<Output>, changeAddress: Bytes, ttl: Option<U64>)
    returns (r: Result<Bytes, BuildError>)
    requires AllInMemory(utxos, outputs, changeAddress)
    ensures r.Ok? ==> Selected(utxos, fee, outputs).Ok?
                      && var body := BodyOf(Selected(utxos, fee, outputs).value, outputs, changeAddress, fee, ttl);
                         WritableBody(body) && r.value == WriteBody(body)
    ensures r.Err? ==>
              r.error == if Selected(utxos, fee, outputs).Err? then NotSelected(Selected(utxos, fee, outputs).error)
                         else if !ValidHashes(Selected(utxos, fee, outputs).value.inputs) then NotEncoded(InvalidTxHash)
                         else NotEncoded(InvalidPolicy)
    ensures r.Ok? <==> Selected(utxos, fee, outputs).Ok?
                       && ValidHashes(Selected(utxos, fee, outputs).value.inputs) && ValidOutputs(outputs)
                       && ValidChange(Selected(utxos, fee, outputs).value.changeAssets)
  {
    hide SelectUtxos, Shown, Tally, WriteBody, WritableBody, BodyOf, ValidHashes, ValidOutputs, ValidChange,
         AllInMemory, Writable;
    var s := SelectForOutputs(utxos, fee, outputs);
    if s.Err? {
      return Err(NotSelected(s.error));
    }
    SelectionInMemory(utxos, outputs, changeAddress, Shown(false, fee + OutputLovelace(outputs)),
                      Tally(false, OutputAssets(outputs)));
    var bytes := EncodeBody(s.value, outputs, changeAddress, fee, ttl);
    if bytes.Err? {
      return Err(NotEncoded(bytes.error));
    }
    return Ok(bytes.value);
  }

  // ---- What the bytes are worth --------------------------------------------------------------

  function CoinsOf(os: seq<TxOut>): nat {
    if os == [] then 0 else CoinsOf(os[..|os| - 1]) + os[|os| - 1].coin
  }

  function TokensOf(os: seq<TxOut>, id: AssetId): nat {
    if os == [] then 0 else TokensOf(os[..|os| - 1], id) + Get(os[|os| - 1].assets, id)
  }

  /** No listing of this asset that a later one overwrites carries any amount. */
  predicate OverwritesNothing(assets: seq<Asset>, id: AssetId) {
    forall j, k | 0 <= j < k < |assets| && assets[j].id == id == assets[k].id :: assets[j].amount == 0
  }

  predicate NoneOverwrites(outputs: seq<Output>, id: AssetId) {
    forall i | 0 <= i < |outputs| :: OverwritesNothing(outputs[i].assets, id)
  }

  lemma {:induction false} NoAmount(assets: seq<Asset>, id: AssetId)
    ensures AmountIn(assets, id) == 0 <==> forall j | 0 <= j < |assets| && assets[j].id == id :: assets[j].amount == 0
  {
    if assets != [] {
      NoAmount(assets[..|assets| - 1], id);
    }
  }

  /** The amount the encoder keeps is the whole amount listed exactly when nothing was overwritten. */
  lemma {:induction false} KeepsAmountExactWhen(assets: seq<Asset>, id: AssetId)
    ensures Get(LastAmounts(assets), id) == AmountIn(assets, id) <==> OverwritesNothing(assets, id)
  {
    if assets != [] {
      var n := |assets| - 1;
      KeepsAmountExactWhen(assets[..n], id);
      NoAmount(assets[..n], id);
    }
  }

  lemma {:induction false} LastWithinAmount(assets: seq<Asset>, id: AssetId)
    ensures Get(LastAmounts(assets), id) <= AmountIn(assets, id)
  {
    if assets != [] {
      LastWithinAmount(assets[..|assets| - 1], id);
    }
  }

  lemma {:induction false} UserOutputsWorth(outputs: seq<Output>, id: AssetId)
    ensures CoinsOf(UserOutputs(outputs)) == OutputLovelace(outputs)
    ensures TokensOf(UserOutputs(outputs), id) <= AmountIn(OutputAssets(outputs), id)
    ensures TokensOf(UserOutputs(outputs), id) == AmountIn(OutputAssets(outputs), id)
       <==> NoneOverwrites(outputs, id)
  {
    hide AmountIn, LastAmounts, Get, OverwritesNothing, NoneOverwrites, TokensOf, CoinsOf;
    if outputs == [] {
      NothingIn(id);
    } else {
      var n := |outputs| - 1;
      var before, last := outputs[..n], outputs[n];
      UserOutputsWorth(before, id);
      LastWithinAmount(last.assets, id);
      KeepsAmountExactWhen(last.assets, id);
      AmountAppends(OutputAssets(before), last.assets, id);
      AddOutput(UserOutputs(before), TxOut(last.address, last.lovelace, LastAmounts(last.assets)), id);
      OneMoreKept(outputs, id);
    }
  }

  lemma OneMoreKept(outputs: seq<Output>, id: AssetId)
    requires outputs != []
    ensures NoneOverwrites(outputs, id)
       <==> OverwritesNothing(outputs[|outputs| - 1].assets, id) && NoneOverwrites(outputs[..|outputs| - 1], id)
  {
    hide OverwritesNothing;
    var n := |outputs| - 1;
    assert forall i | 0 <= i < n :: outputs[..n][i] == outputs[i];
  }

  lemma NothingIn(id: AssetId)
    ensures AmountIn([], id) == 0 && TokensOf([], id) == 0 && CoinsOf([]) == 0 && NoneOverwrites([], id)
  {
  }

  lemma AddOutput(os: seq<TxOut>, o: TxOut, id: AssetId)
    ensures CoinsOf(os + [o]) == CoinsOf(os) + o.coin && TokensOf(os + [o], id) == TokensOf(os, id) + Get(o.assets, id)
  {
    assert (os + [o])[..|os|] == os;
  }

  /**
   * What the built bytes say, read back: they spend exactly the selected inputs, and the lovelace of those inputs is
   * the lovelace of the outputs plus the fee. An asset balances too if and only if no output lists some of it and then
   * lists it again.
   */
  lemma BytesBalance(utxos: seq<Utxo>, fee: U64, outputs: seq<Output>, changeAddress: Bytes, ttl: Option<U64>,
                     id: AssetId)
    requires Fits(utxos) && fee + OutputLovelace(outputs) <= U64_MAX && AmountIn(OutputAssets(outputs), id) <= U64_MAX
    requires Selected(utxos, fee, outputs).Ok?
    requires WritableBody(BodyOf(Selected(utxos, fee, outputs).value, outputs, changeAddress, fee, ttl))
    ensures var s := Selected(utxos, fee, outputs).value;
            var read := ReadBody(WriteBody(BodyOf(s, outputs, changeAddress, fee, ttl)));
            && read.Some? && read.value.1 == []
            && var body := read.value.0;
            && body.inputs == Refs(s.inputs) && body.fee == fee && body.ttl == ttl
            && Lovelace(s.inputs) == CoinsOf(body.outputs) + body.fee
            && (Amount(s.inputs, id) == TokensOf(body.outputs, id)
                <==> NoneOverwrites(outputs, id))
  {
    hide SelectUtxos, Tally, Shown, Lovelace, Amount, Fits, WriteBody, ReadBody, WritableBody, NoneOverwrites,
         OutputLovelace, OutputAssets, AmountIn, UserOutputs, CoinsOf, TokensOf, ChangeOutputs;
    var s := Selected(utxos, fee, outputs).value;
    var body := BodyOf(s, outputs, changeAddress, fee, ttl);
    BodyReadsBack(body, []);
    NothingAfter(WriteBody(body));
    PlainBuilderBalances(utxos, fee, outputs, id);
    UserOutputsWorth(outputs, id);
    WithChange(UserOutputs(outputs), changeAddress, s, id);
  }

  lemma WithChange(os: seq<TxOut>, changeAddress: Bytes, s: Selection, id: AssetId)
    ensures CoinsOf(os + ChangeOutputs(changeAddress, s)) == CoinsOf(os) + s.change
    ensures TokensOf(os + ChangeOutputs(changeAddress, s), id) == TokensOf(os, id) + Get(s.changeAssets, id)
  {
    if s.change > 0 || s.changeAssets != map[] {
      AddOutput(os, TxOut(changeAddress, s.change, s.changeAssets), id);
    } else {
      assert os + [] == os;
    }
  }

  /** A concrete output that lists five of an asset and then three more: it asks for eight and its bytes hold three. */
  lemma ListedTwice(id: AssetId)
    ensures var assets := [Asset(id, 5), Asset(id, 3)];
            AmountIn(assets, id) == 8 && LastAmounts(assets) == map[id := 3] && !OverwritesNothing(assets, id)
  {
    var one, assets := [Asset(id, 5)], [Asset(id, 5), Asset(id, 3)];
    assert one[..0] == [] && assets[..1] == one;
    assert AmountIn(one, id) == AmountIn([], id) + 5 && AmountIn(assets, id) == AmountIn(one, id) + 3;
    assert LastAmounts(one) == LastAmounts([])[id := 5] && LastAmounts(assets) == LastAmounts(one)[id := 3];
    assert assets[0].id == id == assets[1].id;
  }
}
