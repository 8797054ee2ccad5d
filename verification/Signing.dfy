/** `embed_vkey_witness`, `extract_tx_body` and the witness-set surgery of `build_and_sign`. */
module Signing {
  import opened Wrappers
  import opened Cbor
  import opened Witness

  // ---- Embedding one signature ---------------------------------------------------------------

  /** The envelope with one more vkey witness; None when some part does not parse. */
  ghost function Embed(tx: Bytes, vkey: Bytes, sig: Bytes): Option<Bytes>
    requires |tx| < U64_MAX && |vkey| <= U64_MAX && |sig| <= U64_MAX
  {
    match ParseTx(tx)
    case None => None
    case Some(p) =>
      match ParseWitness(p.witnesses)
      case None => None
      case Some(fields) =>
        match Vkeys(fields)
        case None => None
        case Some(vkeys) =>
          EmbedFits(tx);
          Some(WriteTx(p.(witnesses := WriteWitness(WriteArray(vkeys + [KeyWitness(vkey, sig)]), fields - {0}))))
  }

  lemma EmbedFits(tx: Bytes)
    requires |tx| < U64_MAX && ParseTx(tx).Some?
    ensures var p := ParseTx(tx).value;
            ParseWitness(p.witnesses).Some? ==>
              var fields := ParseWitness(p.witnesses).value;
              && FitsU64(fields - {0})
              && ItemFields(fields - {0})
              && (Vkeys(fields).Some? ==> |Vkeys(fields).value| < U64_MAX && AllItems(Vkeys(fields).value))
  {
    hide IsItem, ReadFields, ReadItems, ParseTx;
    var p := ParseTx(tx).value;
    ParsedParts(tx);
    if ParseWitness(p.witnesses).Some? {
      var fields := ParseWitness(p.witnesses).value;
      ParsedWitness(p.witnesses);
      assert (fields - {0}).Keys <= fields.Keys;
      SubsetCardinality((fields - {0}).Keys, fields.Keys);
      FieldWithin(p.witnesses, tx);
      if 0 in fields && ParseArray(fields[0]).Some? {
        ParsedArray(fields[0]);
      }
    }
  }

  lemma SubsetCardinality(a: set<nat>, b: set<nat>)
    requires a <= b
    ensures |a| <= |b|
  {
    if a != {} {
      var k :| k in a;
      SubsetCardinality(a - {k}, b - {k});
    }
  }

  lemma {:induction false} FieldLengths(s: Bytes, n: nat)
    requires ReadFields(s, n).Some?
    ensures forall k | k in ReadFields(s, n).value :: |ReadFields(s, n).value[k]| <= |s|
  {
    hide Skip;
    if n > 0 {
      var rest := AfterHead(s);
      FieldLengths(rest[Skip(rest).value..], n - 1);
    }
  }

  lemma FieldWithin(witnesses: Bytes, tx: Bytes)
    requires |witnesses| <= |tx| && ParseWitness(witnesses).Some?
    ensures forall k | k in ParseWitness(witnesses).value :: |ParseWitness(witnesses).value[k]| <= |tx|
  {
    hide ReadHead;
    FieldLengths(AfterLength(witnesses, MAP), Counted(Length(witnesses, MAP).value));
  }

  /** Embedding keeps body, validity flag, auxiliary data and every other witness field it reads byte for byte, and
      appends exactly one entry to the vkey witnesses it reads. The result is a complete transaction exactly when
      auxiliary data was present. */
  lemma EmbedMeaning(tx: Bytes, vkey: Bytes, sig: Bytes)
    requires |tx| < U64_MAX && |vkey| <= U64_MAX && |sig| <= U64_MAX
    requires Embed(tx, vkey, sig).Some?
    ensures var p, out := ParseTx(tx).value, Embed(tx, vkey, sig).value;
            var fields := ParseWitness(p.witnesses).value;
            && ParseTx(out).Some?
            && var p' := ParseTx(out).value;
            && p'.body == p.body && p'.valid == p.valid && p'.aux == p.aux
            && ParseWitness(p'.witnesses).Some?
            && var fields' := ParseWitness(p'.witnesses).value;
            && fields' - {0} == fields - {0}
            && Vkeys(fields') == Some(Vkeys(fields).value + [KeyWitness(vkey, sig)])
            && (IsItem(out) <==> p.aux != [])
            && !Opens(p'.witnesses, MAP) && 0 in fields' && !Opens(fields'[0], ARRAY)
  {
    hide IsItem, ParseTx, ParseWitness, ParseArray, WriteTx, WriteWitness, KeyWitness, WriteArray, Opens,
         FitsU64, ItemFields;
    var p := ParseTx(tx).value;
    var fields := ParseWitness(p.witnesses).value;
    EmbedFits(tx);
    ParsedParts(tx);
    var others, pair := fields - {0}, KeyWitness(vkey, sig);
    KeyWitnessItem(vkey, sig);
    var vkeys := Vkeys(fields).value + [pair];
    WriteArrayRoundTrip(vkeys);
    WriteWitnessRoundTrip(WriteArray(vkeys), others);
    WriteTxRoundTrip(p.(witnesses := WriteWitness(WriteArray(vkeys), others)));
    assert others[0 := WriteArray(vkeys)] - {0} == others;
  }

  // ---- Any number of signatures --------------------------------------------------------------

  datatype Signature = Signature(vkey: Bytes, sig: Bytes)

  ghost predicate SmallSignatures(ws: seq<Signature>) {
    forall i | 0 <= i < |ws| :: |ws[i].vkey| <= U64_MAX && |ws[i].sig| <= U64_MAX
  }

  /** Embed signatures one after another; None as soon as one embedding fails or is too long. */
  ghost function EmbedAll(tx: Bytes, ws: seq<Signature>): Option<Bytes>
    requires SmallSignatures(ws)
  {
    if ws == [] then Some(tx) else
      match EmbedAll(tx, ws[..|ws| - 1])
      case None => None
      case Some(mid) =>
        if |mid| < U64_MAX then Embed(mid, ws[|ws| - 1].vkey, ws[|ws| - 1].sig) else None
  }

  ghost function KeyWitnesses(ws: seq<Signature>): (r: seq<Bytes>)
    requires SmallSignatures(ws)
    ensures |r| == |ws|
  {
    seq(|ws|, i requires 0 <= i < |ws| => KeyWitness(ws[i].vkey, ws[i].sig))
  }

  ghost predicate Signable(tx: Bytes) {
    && ParseTx(tx).Some?
    && ParseWitness(ParseTx(tx).value.witnesses).Some?
    && Vkeys(ParseWitness(ParseTx(tx).value.witnesses).value).Some?
  }

  /** `out` is `tx` with these key witnesses appended and nothing else changed. */
  ghost predicate SignedBy(tx: Bytes, pairs: seq<Bytes>, out: Bytes)
    requires Signable(tx)
  {
    var p := ParseTx(tx).value;
    var fields := ParseWitness(p.witnesses).value;
    && Signable(out)
    && var p' := ParseTx(out).value;
    && p'.body == p.body && p'.valid == p.valid && p'.aux == p.aux
    && var fields' := ParseWitness(p'.witnesses).value;
    && fields' - {0} == fields - {0}
    && Vkeys(fields').value == Vkeys(fields).value + pairs
  }

  /** After any number of embeddings the body is untouched and the signatures are there in order. */
  lemma {:induction false} EmbedAllSigns(tx: Bytes, ws: seq<Signature>)
    requires SmallSignatures(ws) && Signable(tx) && EmbedAll(tx, ws).Some?
    ensures SignedBy(tx, KeyWitnesses(ws), EmbedAll(tx, ws).value)
  {
    hide SignedBy, Signable, KeyWitness, Embed;
    if ws == [] {
      SignedByNone(tx);
    } else {
      var n := |ws| - 1;
      var before, last := ws[..n], ws[n];
      var mid := EmbedAll(tx, before).value;
      EmbedAllSigns(tx, before);
      EmbedSigns(mid, last.vkey, last.sig);
      SignedByThen(tx, KeyWitnesses(before), mid, KeyWitness(last.vkey, last.sig), EmbedAll(tx, ws).value);
      assert KeyWitnesses(ws) == KeyWitnesses(before) + [KeyWitness(last.vkey, last.sig)];
    }
  }

  /** The entries read as these keys and signatures, in order. */
  ghost predicate ReadAs(entries: seq<Bytes>, ws: seq<Signature>) {
    |entries| == |ws| && forall i | 0 <= i < |ws| :: ReadPair(entries[i]) == Some((ws[i].vkey, ws[i].sig))
  }

  lemma KeyWitnessesRead(ws: seq<Signature>)
    requires SmallSignatures(ws)
    ensures ReadAs(KeyWitnesses(ws), ws)
  {
    hide KeyWitness, ReadPair;
    forall i | 0 <= i < |ws| ensures ReadPair(KeyWitnesses(ws)[i]) == Some((ws[i].vkey, ws[i].sig)) {
      PairReadsBack(ws[i].vkey, ws[i].sig);
    }
  }

  /** Any number of embeddings keeps body, flag, auxiliary data and the other witness fields read, and after the entries
      read before come, in order, entries that a decoder reads as exactly these keys and signatures. */
  lemma EmbedAllMeaning(tx: Bytes, ws: seq<Signature>)
    requires SmallSignatures(ws) && Signable(tx) && EmbedAll(tx, ws).Some?
    ensures var p, out := ParseTx(tx).value, EmbedAll(tx, ws).value;
            var fields := ParseWitness(p.witnesses).value;
            && Signable(out)
            && var p' := ParseTx(out).value;
            && p'.body == p.body && p'.valid == p.valid && p'.aux == p.aux
            && var fields' := ParseWitness(p'.witnesses).value;
            && fields' - {0} == fields - {0}
            && var before, after := Vkeys(fields).value, Vkeys(fields').value;
            && before <= after && ReadAs(after[|before|..], ws)
  {
    hide ParseTx, ParseWitness, Vkeys, ReadAs, EmbedAll, KeyWitnesses;
    EmbedAllSigns(tx, ws);
    KeyWitnessesRead(ws);
    var before := Vkeys(ParseWitness(ParseTx(tx).value.witnesses).value).value;
    assert (before + KeyWitnesses(ws))[|before|..] == KeyWitnesses(ws);
  }

  lemma SignedByNone(tx: Bytes)
    requires Signable(tx)
    ensures SignedBy(tx, [], tx)
  {
    hide ParseTx, ParseWitness, Vkeys;
    var vkeys := Vkeys(ParseWitness(ParseTx(tx).value.witnesses).value).value;
    assert vkeys + [] == vkeys;
  }

  lemma EmbedSigns(tx: Bytes, vkey: Bytes, sig: Bytes)
    requires |tx| < U64_MAX && |vkey| <= U64_MAX && |sig| <= U64_MAX
    requires Embed(tx, vkey, sig).Some?
    ensures Signable(tx) && SignedBy(tx, [KeyWitness(vkey, sig)], Embed(tx, vkey, sig).value)
  {
    hide ParseTx, ParseWitness, Vkeys, KeyWitness, IsItem;
    EmbedMeaning(tx, vkey, sig);
  }

  lemma SignedByThen(tx: Bytes, pairs: seq<Bytes>, mid: Bytes, pair: Bytes, out: Bytes)
    requires Signable(tx) && SignedBy(tx, pairs, mid)
    requires Signable(mid) && SignedBy(mid, [pair], out)
    ensures SignedBy(tx, pairs + [pair], out)
  {
    hide ParseTx, ParseWitness, Vkeys;
    var vkeys := Vkeys(ParseWitness(ParseTx(tx).value.witnesses).value).value;
    assert vkeys + (pairs + [pair]) == (vkeys + pairs) + [pair];
  }

  /** Embedding succeeds exactly on what has the parts it works on. */
  lemma EmbedSucceedsExactWhen(tx: Bytes, vkey: Bytes, sig: Bytes)
    requires |tx| < U64_MAX && |vkey| <= U64_MAX && |sig| <= U64_MAX
    ensures Embed(tx, vkey, sig).Some? <==> Signable(tx)
  {
    hide ParseTx, ParseWitness, Vkeys, WriteTx, WriteWitness, WriteArray, KeyWitness;
  }

  /** No result on the way is too long for a machine. */
  ghost predicate StaysShort(tx: Bytes, ws: seq<Signature>)
    requires SmallSignatures(ws)
  {
    forall n | 0 <= n < |ws| :: EmbedAll(tx, ws[..n]).Some? ==> |EmbedAll(tx, ws[..n]).value| < U64_MAX
  }

  /** What can be signed once can be signed any number of times, and nothing else can. */
  lemma {:induction false} EmbedAllSucceedsExactWhen(tx: Bytes, ws: seq<Signature>)
    requires SmallSignatures(ws) && ws != [] && StaysShort(tx, ws)
    ensures EmbedAll(tx, ws).Some? <==> Signable(tx)
  {
    hide Signable, KeyWitness, Embed, SignedBy;
    var n := |ws| - 1;
    var before := ws[..n];
    if n > 0 {
      ShortBefore(tx, ws);
      EmbedAllSucceedsExactWhen(tx, before);
    } else {
      assert before == [];
    }
    if EmbedAll(tx, before).Some? {
      var mid := EmbedAll(tx, before).value;
      if Signable(tx) {
        EmbedAllSigns(tx, before);
        SignedIsSignable(tx, KeyWitnesses(before), mid);
      }
      EmbedSucceedsExactWhen(mid, ws[n].vkey, ws[n].sig);
    }
  }

  lemma ShortBefore(tx: Bytes, ws: seq<Signature>)
    requires SmallSignatures(ws) && ws != [] && StaysShort(tx, ws)
    ensures StaysShort(tx, ws[..|ws| - 1])
  {
    hide EmbedAll;
    var before := ws[..|ws| - 1];
    forall n | 0 <= n < |before| && EmbedAll(tx, before[..n]).Some?
      ensures |EmbedAll(tx, before[..n]).value| < U64_MAX
    {
      assert before[..n] == ws[..n];
    }
  }

  lemma SignedIsSignable(tx: Bytes, pairs: seq<Bytes>, out: Bytes)
    requires Signable(tx) && SignedBy(tx, pairs, out)
    ensures Signable(out)
  {
  }

  // ---- What embedding keeps of what is really there ------------------------------------------

  /** Witness fields and signatures can be read to their end, however their lengths are spelled. */
  ghost predicate Readable(tx: Bytes) {
    && ParseTx(tx).Some?
    && Fields(ParseTx(tx).value.witnesses).Some?
    && Signatures(Fields(ParseTx(tx).value.witnesses).value).Some?
  }

  ghost function HeldFields(tx: Bytes): map<nat, Bytes>
    requires Readable(tx)
  {
    Fields(ParseTx(tx).value.witnesses).value
  }

  ghost function HeldSignatures(tx: Bytes): seq<Bytes>
    requires Readable(tx)
  {
    Signatures(HeldFields(tx)).value
  }

  /** Where there is anything to keep its container has a length: a witness map with other fields or signatures, and a
      vkey array with signatures. */
  ghost predicate LengthsGiven(tx: Bytes)
    requires Readable(tx)
  {
    var fields := HeldFields(tx);
    && (Opens(ParseTx(tx).value.witnesses, MAP) ==> fields - {0} == map[] && HeldSignatures(tx) == [])
    && (0 in fields && Opens(fields[0], ARRAY) ==> HeldSignatures(tx) == [])
  }

  lemma NothingWithoutKey(k: nat)
    ensures var none: map<nat, Bytes> := map[]; none - {k} == none
  {
  }

  /** What the source takes out of a witness set is all there is exactly when the lengths are given. */
  lemma SeenIsHeldExactWhen(tx: Bytes)
    requires Readable(tx)
    ensures Signable(tx)
    ensures var seen := ParseWitness(ParseTx(tx).value.witnesses).value;
            seen - {0} == HeldFields(tx) - {0} && Vkeys(seen).value == HeldSignatures(tx) <==> LengthsGiven(tx)
  {
    hide ParseTx, ParseWitness, ParseArray, Opens, ReadOpenFields, ReadOpenItems;
    var w := ParseTx(tx).value.witnesses;
    OpenIsTakenAsEmpty(w);
    if 0 in HeldFields(tx) {
      OpenIsTakenAsEmpty(HeldFields(tx)[0]);
    }
    NothingWithoutKey(0);
  }

  /** `out` is `tx` with these signatures appended to those it holds, and all else as it was. */
  ghost predicate Adds(tx: Bytes, pairs: seq<Bytes>, out: Bytes)
    requires Readable(tx)
  {
    var p := ParseTx(tx).value;
    && Readable(out)
    && var p' := ParseTx(out).value;
    && p'.body == p.body && p'.valid == p.valid && p'.aux == p.aux
    && HeldFields(out) - {0} == HeldFields(tx) - {0}
    && HeldSignatures(out) == HeldSignatures(tx) + pairs
  }

  /** Any number of embeddings only adds signatures exactly when the lengths are given; otherwise fields or signatures
      that were there are gone. */
  lemma EmbedAllKeepsExactWhen(tx: Bytes, ws: seq<Signature>)
    requires SmallSignatures(ws) && ws != [] && Readable(tx) && EmbedAll(tx, ws).Some?
    ensures Adds(tx, KeyWitnesses(ws), EmbedAll(tx, ws).value) <==> LengthsGiven(tx)
  {
    hide ParseTx, ParseWitness, Fields, Signatures, Vkeys, LengthsGiven, KeyWitnesses, Embed, HeldFields,
         HeldSignatures, Opens;
    var out, pairs := EmbedAll(tx, ws).value, KeyWitnesses(ws);
    SeenIsHeldExactWhen(tx);
    EmbedAllSigns(tx, ws);
    ResultIsDefinite(tx, ws);
    SameTail(Vkeys(ParseWitness(ParseTx(tx).value.witnesses).value).value, HeldSignatures(tx), pairs);
  }

  /** What was embedded into holds just what the source takes out of it. */
  lemma ResultIsDefinite(tx: Bytes, ws: seq<Signature>)
    requires SmallSignatures(ws) && ws != [] && EmbedAll(tx, ws).Some?
    ensures var out := EmbedAll(tx, ws).value;
            && Signable(out) && Readable(out)
            && HeldFields(out) == ParseWitness(ParseTx(out).value.witnesses).value
            && HeldSignatures(out) == Vkeys(HeldFields(out)).value
  {
    hide ParseTx, ParseWitness, ParseArray, Embed, KeyWitness, Opens;
    var n := |ws| - 1;
    EmbedMeaning(EmbedAll(tx, ws[..n]).value, ws[n].vkey, ws[n].sig);
  }

  lemma SameTail(a: seq<Bytes>, b: seq<Bytes>, c: seq<Bytes>)
    ensures a + c == b + c <==> a == b
  {
    if a + c == b + c {
      assert |a| == |b| && (a + c)[..|a|] == a && (b + c)[..|b|] == b;
    }
  }

  // ---- Extracting the body -------------------------------------------------------------------

  const TX_HEAD: byte := 0x84

  /** The body of an envelope that starts with the byte 0x84; anything else is taken as a body. */
  function ExtractBody(cbor: Bytes): Result<Bytes, CborError> {
    if cbor == [] then Err(Malformed)
    else if cbor[0] != TX_HEAD then Ok(cbor)
    else
      match Skip(cbor[1..])
      case None => Err(Malformed)
      case Some(n) => Ok(cbor[1..1 + n])
  }

  lemma FourHead()
    ensures WriteHead(ARRAY, 4) == [TX_HEAD]
  {
  }

  lemma ExtractFromEnvelope(tx: Bytes)
    requires ParseTx(tx).Some? && tx[0] == TX_HEAD
    ensures ExtractBody(tx) == Ok(ParseTx(tx).value.body)
  {
    hide Skip, ReadBool;
    assert Width(tx[0] % 32) == Some(0) && ReadHead(tx).value.size == 1;
    var s := tx[1..];
    assert AfterHead(tx) == s;
    assert tx[1..1 + Skip(s).value] == s[..Skip(s).value];
  }

  /** The extracted body survives an embedding exactly when the envelope starts with the one-byte
      head 0x84; with another spelling of the array head the whole envelope is returned as the body. */
  lemma ExtractUnchangedWhen(tx: Bytes, vkey: Bytes, sig: Bytes)
    requires |tx| < U64_MAX && |vkey| <= U64_MAX && |sig| <= U64_MAX
    requires Embed(tx, vkey, sig).Some?
    ensures var out := Embed(tx, vkey, sig).value;
            && ExtractBody(out) == Ok(ParseTx(tx).value.body)
            && (ExtractBody(out) == ExtractBody(tx) <==> tx[0] == TX_HEAD)
  {
    hide ParseTx, ParseWitness, Vkeys, WriteHead;
    var out := Embed(tx, vkey, sig).value;
    EmbedMeaning(tx, vkey, sig);
    FourHead();
    assert out[0] == TX_HEAD;
    ExtractFromEnvelope(out);
    ParsedParts(tx);
    if tx[0] == TX_HEAD {
      ExtractFromEnvelope(tx);
    }
  }

  /** The same after any number of embeddings. */
  lemma ExtractAllUnchangedWhen(tx: Bytes, ws: seq<Signature>)
    requires SmallSignatures(ws) && Signable(tx) && EmbedAll(tx, ws).Some?
    ensures var out := EmbedAll(tx, ws).value;
            && (ws != [] ==> ExtractBody(out) == Ok(ParseTx(tx).value.body))
            && (ExtractBody(out) == ExtractBody(tx) <==> ws == [] || tx[0] == TX_HEAD)
  {
    hide ParseTx, ParseWitness, Vkeys, WriteHead, KeyWitnesses, Embed, ExtractBody;
    if ws != [] {
      var n := |ws| - 1;
      var mid, out := EmbedAll(tx, ws[..n]).value, EmbedAll(tx, ws).value;
      EmbedAllMeaning(tx, ws[..n]);
      ExtractUnchangedWhen(mid, ws[n].vkey, ws[n].sig);
      EnvelopeStays(tx, ParseTx(tx).value.body);
    }
  }

  /** An envelope with another head is longer than its body, so passing it through is not extracting the body. */
  lemma EnvelopeStays(tx: Bytes, body: Bytes)
    requires ParseTx(tx).Some? && body == ParseTx(tx).value.body
    ensures tx != [] && (ExtractBody(tx) == Ok(body) <==> tx[0] == TX_HEAD)
  {
    hide ParseTx;
    ParsedParts(tx);
    HeadComesFirst(tx);
    if tx[0] == TX_HEAD {
      ExtractFromEnvelope(tx);
    }
  }

  lemma HeadComesFirst(tx: Bytes)
    requires ParseTx(tx).Some?
    ensures tx != []
  {
  }

  // ---- Signing a built transaction -----------------------------------------------------------

  datatype SigningKey = SigningKey(publicKey: Bytes, sign: Bytes -> Bytes)

  ghost predicate SmallKeys(keys: seq<SigningKey>) {
    |keys| <= U64_MAX && forall i | 0 <= i < |keys| ::
      |keys[i].publicKey| <= U64_MAX && forall m :: |keys[i].sign(m)| <= U64_MAX
  }

  /** One key witness per key, over the hash of the body. */
  ghost function Witnesses(keys: seq<SigningKey>, digest: Bytes): (r: seq<Bytes>)
    requires SmallKeys(keys)
    ensures |r| == |keys|
  {
    seq(|keys|, i requires 0 <= i < |keys| => KeyWitness(keys[i].publicKey, keys[i].sign(digest)))
  }

  function SignaturesOf(keys: seq<SigningKey>, digest: Bytes): (ws: seq<Signature>)
    ensures |ws| == |keys|
    ensures forall i | 0 <= i < |keys| :: ws[i].vkey == keys[i].publicKey && ws[i].sig == keys[i].sign(digest)
  {
    seq(|keys|, i requires 0 <= i < |keys| => Signature(keys[i].publicKey, keys[i].sign(digest)))
  }

  /** Replace the vkey witnesses of a built transaction; missing auxiliary data becomes null. */
  ghost function SignBuilt(tx: Bytes, keys: seq<SigningKey>, hash: Bytes -> Bytes): Option<Bytes>
    requires |tx| < U64_MAX && SmallKeys(keys)
  {
    if Length(tx, ARRAY) != Some(Some(4)) && Length(tx, ARRAY) != Some(Some(3)) then None else
      match ParseTx(tx)
      case None => None
      case Some(p) =>
        match ParseWitness(p.witnesses)
        case None => None
        case Some(fields) =>
          EmbedFits(tx);
          var vkeys := WriteArray(Witnesses(keys, hash(p.body)));
          Some(WriteTx(p.(witnesses := WriteWitness(vkeys, fields - {0}),
                          aux := if p.aux == [] then [NULL] else p.aux)))
  }

  /** Signing keeps the body and every other witness field it reads, puts exactly the signatures of the body's
      hash under field 0, and always yields a complete transaction. */
  lemma SignBuiltMeaning(tx: Bytes, keys: seq<SigningKey>, hash: Bytes -> Bytes)
    requires |tx| < U64_MAX && SmallKeys(keys)
    requires SignBuilt(tx, keys, hash).Some?
    ensures var p, out := ParseTx(tx).value, SignBuilt(tx, keys, hash).value;
            && IsItem(out)
            && ParseTx(out).Some?
            && var p' := ParseTx(out).value;
            && p'.body == p.body && p'.valid == p.valid && p'.aux == (if p.aux == [] then [NULL] else p.aux)
            && ParseWitness(p'.witnesses).Some?
            && var fields' := ParseWitness(p'.witnesses).value;
            && fields' - {0} == ParseWitness(p.witnesses).value - {0}
            && Vkeys(fields').Some? && ReadAs(Vkeys(fields').value, SignaturesOf(keys, hash(p'.body)))
            && !Opens(p'.witnesses, MAP)
  {
    hide ReadPair, IsItem, ParseTx, ParseWitness, ParseArray, WriteTx, WriteWitness, KeyWitness, WriteArray, Opens,
         FitsU64, ItemFields;
    var p := ParseTx(tx).value;
    var fields := ParseWitness(p.witnesses).value;
    EmbedFits(tx);
    ParsedParts(tx);
    var vkeys, others := Witnesses(keys, hash(p.body)), fields - {0};
    forall i | 0 <= i < |vkeys| ensures IsItem(vkeys[i]) {
      KeyWitnessItem(keys[i].publicKey, keys[i].sign(hash(p.body)));
    }
    forall i | 0 <= i < |vkeys|
      ensures ReadPair(vkeys[i]) == Some((keys[i].publicKey, keys[i].sign(hash(p.body))))
    {
      PairReadsBack(keys[i].publicKey, keys[i].sign(hash(p.body)));
    }
    WriteArrayRoundTrip(vkeys);
    WriteWitnessRoundTrip(WriteArray(vkeys), others);
    ConstantItem(NULL);
    WriteTxRoundTrip(p.(witnesses := WriteWitness(WriteArray(vkeys), others),
                        aux := if p.aux == [] then [NULL] else p.aux));
    assert others[0 := WriteArray(vkeys)] - {0} == others;
  }

  /** Signing keeps all other witness fields exactly when their map has a length, or holds none. */
  lemma SignBuiltKeepsExactWhen(tx: Bytes, keys: seq<SigningKey>, hash: Bytes -> Bytes)
    requires |tx| < U64_MAX && SmallKeys(keys)
    requires SignBuilt(tx, keys, hash).Some? && Fields(ParseTx(tx).value.witnesses).Some?
    ensures var w, out := ParseTx(tx).value.witnesses, SignBuilt(tx, keys, hash).value;
            && ParseTx(out).Some?
            && var w' := ParseTx(out).value.witnesses;
            && Fields(w').Some?
            && (Fields(w').value - {0} == Fields(w).value - {0}
                <==> (Opens(w, MAP) ==> Fields(w).value - {0} == map[]))
  {
    hide IsItem, ParseTx, ParseWitness, WriteTx, WriteWitness, WriteArray, Witnesses, Opens, Vkeys, ReadOpenFields;
    SignBuiltMeaning(tx, keys, hash);
    OpenIsTakenAsEmpty(ParseTx(tx).value.witnesses);
    NothingWithoutKey(0);
  }
}
