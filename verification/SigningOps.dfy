/** The same operations as the source performs them: cursors over the input, a growing output buffer. */
module SigningOps {
  import opened Wrappers
  import opened Cbor
  import opened Witness
  import opened Signing

  /** Results of reading the rest, put behind what was read before. */
  function Behind(done: seq<Bytes>, later: Option<seq<Bytes>>): Option<seq<Bytes>> {
    match later
    case None => None
    case Some(xs) => Some(done + xs)
  }

  function Over(done: map<nat, Bytes>, later: Option<map<nat, Bytes>>): Option<map<nat, Bytes>> {
    match later
    case None => None
    case Some(m) => Some(done + m)
  }

  lemma NextItem(done: seq<Bytes>, s: Bytes, n: nat)
    requires n > 0
    ensures Behind(done, ReadItems(s, n)) ==
            if Skip(s) == None then None
            else Behind(done + [s[..Skip(s).value]], ReadItems(s[Skip(s).value..], n - 1))
  {
    hide Skip;
    if Skip(s).Some? && ReadItems(s[Skip(s).value..], n - 1).Some? {
      var k := Skip(s).value;
      var xs := ReadItems(s[k..], n - 1).value;
      assert ReadItems(s, n) == Some([s[..k]] + xs);
      assert done + ([s[..k]] + xs) == (done + [s[..k]]) + xs;
    }
  }

  lemma NoMoreItems(done: seq<Bytes>, s: Bytes)
    ensures Behind(done, ReadItems(s, 0)) == Some(done)
  {
    assert done + [] == done;
  }

  lemma TwoItems(s: Bytes)
    ensures ReadItems(s, 2) ==
            if Skip(s) == None || Skip(s[Skip(s).value..]) == None then None
            else Some([s[..Skip(s).value], s[Skip(s).value..][..Skip(s[Skip(s).value..]).value]])
  {
    hide Skip, ReadItems;
    var r := ReadItems(s, 2);
    assert r.Some? ==> [] + r.value == r.value;
    NextItem([], s, 2);
    if Skip(s).Some? {
      var k := Skip(s).value;
      NextItem([s[..k]], s[k..], 1);
      assert [] + [s[..k]] == [s[..k]];
      if Skip(s[k..]).Some? {
        var j := Skip(s[k..]).value;
        NoMoreItems([s[..k]] + [s[k..][..j]], s[k..][j..]);
        assert [s[..k]] + [s[k..][..j]] == [s[..k], s[k..][..j]];
      }
    }
  }

  lemma NextField(done: map<nat, Bytes>, s: Bytes, n: nat)
    requires n > 0
    ensures Over(done, ReadFields(s, n)) ==
            if Argument(s, UNSIGNED) == None || Skip(AfterHead(s)) == None then None
            else var rest := AfterHead(s);
                 var k := Skip(rest).value;
                 Over(done[Argument(s, UNSIGNED).value := rest[..k]], ReadFields(rest[k..], n - 1))
  {
    hide Skip, ReadHead;
    if Argument(s, UNSIGNED).Some? && Skip(AfterHead(s)).Some? {
      var rest := AfterHead(s);
      var k, key := Skip(rest).value, Argument(s, UNSIGNED).value;
      if ReadFields(rest[k..], n - 1).Some? {
        var later := ReadFields(rest[k..], n - 1).value;
        assert ReadFields(s, n) == Some(map[key := rest[..k]] + later);
        assert done + (map[key := rest[..k]] + later) == done[key := rest[..k]] + later;
      }
    }
  }

  lemma NoMoreFields(done: map<nat, Bytes>, s: Bytes)
    ensures Over(done, ReadFields(s, 0)) == Some(done)
  {
    assert done + map[] == done;
  }

  /** Validity flag, then auxiliary data if there is any. */
  method ReadFlagAndAux(dec: Decoder) returns (r: Option<(bool, Bytes)>)
    requires dec.Valid()
    modifies dec
    ensures r == FlagAndAux(old(dec.Rest()))
  {
    hide Skip;
    var valid := dec.Bool();
    if valid == None {
      return None;
    }
    var auxStart := dec.pos;
    if auxStart < |dec.buf| {
      assert dec.Rest() != [];
      var ok := dec.SkipItem();
      if !ok {
        return None;
      }
    } else {
      assert dec.Rest() == [] && dec.buf[auxStart..dec.pos] == [];
    }
    r := Some((valid.value, dec.buf[auxStart..dec.pos]));
  }

  function FlagAndAux(tail: Bytes): Option<(bool, Bytes)> {
    match ReadBool(tail)
    case None => None
    case Some(valid) =>
      if tail[1..] == [] then Some((valid, [])) else
        match Skip(tail[1..])
        case None => None
        case Some(n) => Some((valid, tail[1..][..n]))
  }

  lemma ParseTxInSteps(tx: Bytes)
    ensures ParseTx(tx) ==
            if Length(tx, ARRAY) == None then None else
              var s := AfterLength(tx, ARRAY);
              match Skip(s)
              case None => None
              case Some(j) =>
                match Skip(s[j..])
                case None => None
                case Some(k) =>
                  match FlagAndAux(s[j..][k..])
                  case None => None
                  case Some((valid, aux)) => Some(TxParts(s[..j], s[j..][..k], valid, aux))
  {
    hide Skip, ReadHead, Concat, ReadItems, ReadBool, Length, AfterLength;
    if Length(tx, ARRAY).Some? {
      var s := AfterLength(tx, ARRAY);
      TwoItems(s);
      if Skip(s).Some? && Skip(s[Skip(s).value..]).Some? {
        var j := Skip(s).value;
        var k := Skip(s[j..]).value;
        ConcatPair(s[..j], s[j..][..k]);
        assert s[j..][k..] == s[j + k..];
      }
    }
  }

  /** Split an envelope into its parts; also returns the declared number of elements. */
  method ReadTxParts(tx: Bytes) returns (r: Option<TxParts>, count: Option<Option<nat>>)
    ensures r == ParseTx(tx)
    ensures count == Length(tx, ARRAY)
  {
    hide Skip, ReadHead, ParseTx, FlagAndAux, Length, AfterLength;
    ParseTxInSteps(tx);
    r := None;
    var dec := new Decoder(tx);
    count := dec.Container(ARRAY);
    if count == None {
      return;
    }
    var bodyStart := dec.pos;
    var ok := dec.SkipItem();
    if !ok {
      return;
    }
    var body := tx[bodyStart..dec.pos];
    var witnessStart := dec.pos;
    ok := dec.SkipItem();
    if !ok {
      return;
    }
    var witnesses := tx[witnessStart..dec.pos];
    var tail := ReadFlagAndAux(dec);
    if tail == None {
      return;
    }
    r := Some(TxParts(body, witnesses, tail.value.0, tail.value.1));
  }

  /** Collect the fields of a witness set; a later duplicate overwrites. */
  method ReadWitnessFields(witnesses: Bytes) returns (r: Option<map<nat, Bytes>>)
    ensures r == ParseWitness(witnesses)
  {
    hide Skip, ReadHead, ReadFields, Length, AfterLength;
    var dec := new Decoder(witnesses);
    var mapLen := dec.Container(MAP);
    if mapLen == None {
      return None;
    }
    var count := Counted(mapLen.value);
    var fields: map<nat, Bytes> := map[];
    ghost var all := ParseWitness(witnesses);
    assert all.Some? ==> map[] + all.value == all.value;
    for i := 0 to count
      invariant dec.Valid()
      invariant all == Over(fields, ReadFields(dec.Rest(), count - i))
    {
      ghost var s := dec.Rest();
      NextField(fields, s, count - i);
      var key := dec.Expect(UNSIGNED);
      if key == None {
        return None;
      }
      var start := dec.pos;
      var ok := dec.SkipItem();
      if !ok {
        return None;
      }
      fields := fields[key.value := witnesses[start..dec.pos]];
    }
    NoMoreFields(fields, dec.Rest());
    r := Some(fields);
  }

  /** Copy the elements of an array behind each other, without the array head. */
  method CopyElements(existing: Bytes) returns (count: nat, raw: Option<Bytes>)
    ensures raw.Some? <==> ParseArray(existing).Some?
    ensures raw.Some? ==> count == |ParseArray(existing).value| && raw.value == Concat(ParseArray(existing).value)
  {
    hide Skip, ReadHead, ReadItems, Concat, Length, AfterLength;
    count := 0;
    var dec := new Decoder(existing);
    var arrLen := dec.Container(ARRAY);
    if arrLen == None {
      return 0, None;
    }
    var len := Counted(arrLen.value);
    ghost var all, done: seq<Bytes> := ParseArray(existing), [];
    var buf: Bytes := [];
    NoItemsToConcat();
    assert all.Some? ==> [] + all.value == all.value;
    for i := 0 to len
      invariant dec.Valid() && buf == Concat(done) && |done| == i
      invariant all == Behind(done, ReadItems(dec.Rest(), len - i))
    {
      NextItem(done, dec.Rest(), len - i);
      var start := dec.pos;
      var ok := dec.SkipItem();
      if !ok {
        return 0, None;
      }
      var item := existing[start..dec.pos];
      ConcatSnoc(done, item);
      buf, done := buf + item, done + [item];
    }
    NoMoreItems(done, dec.Rest());
    return len, Some(buf);
  }

  lemma EmitField(xs: seq<Bytes>, rest: map<nat, Bytes>, k: nat)
    requires forall j | j in rest :: j <= U64_MAX
    requires k in rest && forall j | j in rest :: k <= j
    ensures var pair := [WriteHead(UNSIGNED, k), rest[k]];
            && Concat(xs + pair) == Concat(xs) + WriteHead(UNSIGNED, k) + rest[k]
            && xs + FieldItems(rest) == (xs + pair) + FieldItems(rest - {k})
  {
    hide WriteHead, Concat;
    var pair := [WriteHead(UNSIGNED, k), rest[k]];
    FieldItemsStep(rest, k);
    ConcatAppend(xs, pair);
    ConcatPair(WriteHead(UNSIGNED, k), rest[k]);
  }

  lemma NoMoreToEmit(xs: seq<Bytes>)
    ensures xs + FieldItems(map[]) == xs
  {
  }

  method SmallestKey(m: map<nat, Bytes>) returns (k: nat)
    requires m != map[]
    ensures k in m && forall j | j in m :: k <= j
  {
    HasLeast(m.Keys);
    k :| k in m && forall j | j in m :: k <= j;
  }

  /** Map head, key 0 with the vkey array, then the remaining fields in ascending key order. */
  method EncodeWitness(vkeys: Bytes, others: map<nat, Bytes>) returns (buf: Bytes)
    requires FitsU64(others)
    ensures buf == WriteWitness(vkeys, others)
  {
    hide WriteHead, Concat, FieldItems;
    ghost var xs := [WriteHead(UNSIGNED, 0), vkeys];
    ghost var all := xs + FieldItems(others);
    ConcatPair(WriteHead(UNSIGNED, 0), vkeys);
    var head := WriteHead(MAP, |others| + 1);
    var fields := WriteHead(UNSIGNED, 0) + vkeys;
    var rest := others;
    while rest != map[]
      invariant forall j | j in rest :: j <= U64_MAX
      invariant fields == Concat(xs) && xs + FieldItems(rest) == all
      decreases |rest|
    {
      var k := SmallestKey(rest);
      EmitField(xs, rest, k);
      fields := fields + WriteHead(UNSIGNED, k) + rest[k];
      xs := xs + [WriteHead(UNSIGNED, k), rest[k]];
      rest := rest - {k};
    }
    NoMoreToEmit(xs);
    buf := head + fields;
  }

  /** The new witness set: existing vkey entries and one more under key 0, the remaining fields unchanged. */
  method AppendVkey(fields: map<nat, Bytes>, pair: Bytes) returns (r: Option<Bytes>)
    requires FitsU64(fields - {0}) && (Vkeys(fields).Some? ==> |Vkeys(fields).value| < U64_MAX)
    ensures r == match Vkeys(fields)
                 case None => None
                 case Some(vkeys) => Some(WriteWitness(WriteArray(vkeys + [pair]), fields - {0}))
  {
    hide WriteHead, ParseArray, WriteWitness, WriteArray, Concat, FitsU64;
    ghost var vkeys := Vkeys(fields);
    var count, raw := 0, [];
    if 0 in fields {
      var existing;
      count, existing := CopyElements(fields[0]);
      if existing == None {
        return None;
      }
      raw := existing.value;
    } else {
      NoItemsToConcat();
    }
    OneMoreVkey(vkeys.value, pair);
    var newWitness := EncodeWitness(WriteHead(ARRAY, count + 1) + raw + pair, fields - {0});
    return Some(newWitness);
  }

  lemma OneMoreVkey(vkeys: seq<Bytes>, pair: Bytes)
    requires |vkeys| < U64_MAX
    ensures WriteHead(ARRAY, |vkeys| + 1) + Concat(vkeys) + pair == WriteArray(vkeys + [pair])
  {
    hide WriteHead, Concat;
    ConcatSnoc(vkeys, pair);
  }

  /** `embed_vkey_witness` */
  method EmbedVkeyWitness(tx: Bytes, vkey: Bytes, sig: Bytes) returns (r: Result<Bytes, CborError>)
    requires |tx| < U64_MAX && |vkey| <= U64_MAX && |sig| <= U64_MAX
    ensures r == match Embed(tx, vkey, sig)
                 case None => Err(Malformed)
                 case Some(out) => Ok(out)
  {
    hide ParseTx, ParseWitness, Vkeys, KeyWitness, WriteArray, WriteWitness, WriteTx;
    var parts, _ := ReadTxParts(tx);
    if parts == None {
      return Err(Malformed);
    }
    var fields := ReadWitnessFields(parts.value.witnesses);
    if fields == None {
      return Err(Malformed);
    }
    EmbedFits(tx);
    var newWitness := AppendVkey(fields.value, KeyWitness(vkey, sig));
    if newWitness == None {
      return Err(Malformed);
    }
    r := Ok(WriteTx(parts.value.(witnesses := newWitness.value)));
  }

  lemma NoItemsToConcat()
    ensures Concat([]) == []
  {
  }

  /** `extract_tx_body` */
  method ExtractTxBody(cbor: Bytes) returns (r: Result<Bytes, CborError>)
    ensures r == ExtractBody(cbor)
  {
    hide Skip;
    if cbor == [] {
      return Err(Malformed);
    }
    if cbor[0] != TX_HEAD {
      return Ok(cbor);
    }
    var dec := new Decoder(cbor);
    var len := dec.Expect(ARRAY);
    assert AfterHead(cbor) == cbor[1..];
    var start := dec.pos;
    var ok := dec.SkipItem();
    if !ok {
      return Err(Malformed);
    }
    return Ok(cbor[start..dec.pos]);
  }

  /** The witness-set surgery of `build_and_sign`, on the transaction as built. */
  method BuildAndSign(tx: Bytes, keys: seq<SigningKey>, hash: Bytes -> Bytes) returns (r: Result<Bytes, CborError>)
    requires |tx| < U64_MAX && SmallKeys(keys)
    ensures r == match SignBuilt(tx, keys, hash)
                 case None => Err(Malformed)
                 case Some(out) => Ok(out)
  {
    hide WriteHead, ReadHead, Skip, ParseTx, ParseWitness, ReadItems, WriteWitness, Concat;
    var parts, count := ReadTxParts(tx);
    if count != Some(Some(4)) && count != Some(Some(3)) {
      return Err(Malformed);
    }
    if parts == None {
      return Err(Malformed);
    }
    var fields := ReadWitnessFields(parts.value.witnesses);
    if fields == None {
      return Err(Malformed);
    }
    EmbedFits(tx);
    var digest := hash(parts.value.body);
    ghost var pairs := Witnesses(keys, digest);
    var raw: Bytes := [];
    NoItemsToConcat();
    for i := 0 to |keys|
      invariant raw == Concat(pairs[..i])
    {
      ConcatSnoc(pairs[..i], pairs[i]);
      assert pairs[..i + 1] == pairs[..i] + [pairs[i]];
      raw := raw + KeyWitness(keys[i].publicKey, keys[i].sign(digest));
    }
    assert pairs[..|keys|] == pairs;
    var vkeyArray := WriteHead(ARRAY, |keys|) + raw;
    var newWitness := EncodeWitness(vkeyArray, fields.value - {0});
    var aux := if parts.value.aux == [] then [NULL] else parts.value.aux;
    r := Ok(WriteTx(parts.value.(witnesses := newWitness, aux := aux)));
  }
}
