/** Concrete envelopes: embedding and signing succeed on them, and what they show about the edges. */
module SigningExamples {
  import opened Wrappers
  import opened Cbor
  import opened Witness
  import opened Signing

  const EMPTY_MAP: byte := 0xa0

  lemma EmptyMapIsItem()
    ensures IsItem([EMPTY_MAP]) && ParseWitness([EMPTY_MAP]) == Some(map[]) && Vkeys(map[]) == Some([])
  {
    ContainerItem(MAP, 0, []);
    assert WriteHead(MAP, 0) + Concat([]) == [EMPTY_MAP];
  }

  /** An envelope of an empty body and an empty witness set under any array head. */
  lemma EmptyEnvelope(tx: Bytes, aux: Bytes)
    requires Length(tx, ARRAY).Some? && AfterLength(tx, ARRAY) == [EMPTY_MAP, EMPTY_MAP, TRUE] + aux
    requires aux == [] || IsItem(aux)
    ensures ParseTx(tx) == Some(TxParts([EMPTY_MAP], [EMPTY_MAP], true, aux)) && Signable(tx)
  {
    hide ReadHead, AfterHead, IsItem, ReadItems, Concat, ParseTx, ParseWitness, Vkeys;
    EmptyMapIsItem();
    var e := [EMPTY_MAP];
    ConcatPair(e, e);
    var tail := [TRUE] + aux;
    assert AfterLength(tx, ARRAY) == Concat([e, e]) + tail;
    ReadItemsRoundTrip([e, e], tail);
    ParseParts(tx, TxParts(e, e, true, aux), TRUE);
  }

  const LONG_HEAD: Bytes := [0x98, 0x04, EMPTY_MAP, EMPTY_MAP, TRUE, NULL]

  lemma LongHeadReads()
    ensures ReadHead(LONG_HEAD) == Some(Head(ARRAY, 4, 2))
  {
    assert LONG_HEAD[1..2] == [4] && [4][..0] == [];
    assert BigEndian([4]) == BigEndian([]) * 256 + 4;
  }

  /** An envelope whose array head is spelled 98 04: it can be signed, but before that its whole bytes pass for the
      body. */
  lemma LongHeadChangesBody(vkey: Bytes, sig: Bytes)
    requires |vkey| <= U64_MAX && |sig| <= U64_MAX
    ensures Embed(LONG_HEAD, vkey, sig).Some?
    ensures ExtractBody(LONG_HEAD) == Ok(LONG_HEAD)
    ensures ExtractBody(Embed(LONG_HEAD, vkey, sig).value) == Ok([EMPTY_MAP])
  {
    hide ReadHead, ParseTx, Signable, Embed, IsItem;
    LongHeadReads();
    ConstantItem(NULL);
    assert AfterHead(LONG_HEAD) == [EMPTY_MAP, EMPTY_MAP, TRUE] + [NULL];
    EmptyEnvelope(LONG_HEAD, [NULL]);
    EmbedSucceedsExactWhen(LONG_HEAD, vkey, sig);
    ExtractUnchangedWhen(LONG_HEAD, vkey, sig);
  }

  const THREE_ELEMENTS: Bytes := [0x83, EMPTY_MAP, EMPTY_MAP, TRUE]

  /** An envelope without auxiliary data: embedding promises a fourth element that is not there, signing supplies it. */
  lemma ThreeElementsStayThree(vkey: Bytes, sig: Bytes, keys: seq<SigningKey>, hash: Bytes -> Bytes)
    requires |vkey| <= U64_MAX && |sig| <= U64_MAX && SmallKeys(keys)
    ensures Embed(THREE_ELEMENTS, vkey, sig).Some? && !IsItem(Embed(THREE_ELEMENTS, vkey, sig).value)
    ensures SignBuilt(THREE_ELEMENTS, keys, hash).Some? && IsItem(SignBuilt(THREE_ELEMENTS, keys, hash).value)
  {
    hide ReadHead, ParseTx, ParseWitness, Embed, IsItem, WriteTx, WriteWitness, WriteArray, Witnesses;
    ShortHeadReads();
    assert AfterHead(THREE_ELEMENTS) == [EMPTY_MAP, EMPTY_MAP, TRUE] + [];
    EmptyEnvelope(THREE_ELEMENTS, []);
    EmptyMapIsItem();
    EmbedSucceedsExactWhen(THREE_ELEMENTS, vkey, sig);
    EmbedMeaning(THREE_ELEMENTS, vkey, sig);
    assert SignBuilt(THREE_ELEMENTS, keys, hash).Some?;
    SignBuiltMeaning(THREE_ELEMENTS, keys, hash);
  }

  lemma ShortHeadReads()
    ensures ReadHead(THREE_ELEMENTS) == Some(Head(ARRAY, 3, 1))
  {
  }

  // ---- Lengths that are not given ------------------------------------------------------------

  /** An envelope of an empty body and this witness set. */
  function Envelope(witnesses: Bytes): Bytes {
    [0x84, EMPTY_MAP] + (witnesses + [TRUE, NULL])
  }

  lemma EnvelopeParses(witnesses: Bytes)
    requires IsItem(witnesses)
    ensures ParseTx(Envelope(witnesses)) == Some(TxParts([EMPTY_MAP], witnesses, true, [NULL]))
  {
    hide WriteHead, IsItem, ParseTx, Concat;
    EmptyMapIsItem();
    ConstantItem(NULL);
    FourHead();
    assert WriteTx(TxParts([EMPTY_MAP], witnesses, true, [NULL])) == Envelope(witnesses);
    WriteTxRoundTrip(TxParts([EMPTY_MAP], witnesses, true, [NULL]));
  }

  /** The first signature of an envelope without any, byte for byte. */
  lemma EmbeddedBytes(key: byte, sig: byte)
    ensures Embed(Envelope([EMPTY_MAP]), [key], [sig])
         == Some([0x84, EMPTY_MAP] + [0xa1, 0x00, 0x81, 0x82, 0x41, key, 0x41, sig] + [TRUE, NULL])
  {
    hide ParseTx, ParseWitness, KeyWitness, WriteWitness, WriteArray, Vkeys, WriteHead, FitsU64;
    EmptyMapIsItem();
    EnvelopeParses([EMPTY_MAP]);
    SmallWitness(key, sig);
    var entries := [KeyWitness([key], [sig])];
    FirstWitness(entries);
    var none: map<nat, Bytes> := map[];
    assert none - {0} == none && [] + entries == entries;
    FourHead();
    var p := TxParts([EMPTY_MAP], [EMPTY_MAP], true, [NULL]);
    assert Embed(Envelope([EMPTY_MAP]), [key], [sig])
        == Some(WriteTx(p.(witnesses := WriteWitness(WriteArray(entries), none))));
    var w := [0xa1, 0x00, 0x81] + entries[0];
    assert WriteTx(p.(witnesses := w)) == [0x84] + [EMPTY_MAP] + w + [TRUE] + [NULL];
    assert w == [0xa1, 0x00, 0x81, 0x82, 0x41, key, 0x41, sig];
    assert [0x84] + [EMPTY_MAP] + w + [TRUE] + [NULL] == [0x84, EMPTY_MAP] + w + [TRUE, NULL];
  }

  lemma SmallWitness(key: byte, sig: byte)
    ensures KeyWitness([key], [sig]) == [0x82, 0x41, key, 0x41, sig]
  {
  }

  lemma FirstWitness(entries: seq<Bytes>)
    requires |entries| == 1
    ensures FitsU64(map[]) && WriteWitness(WriteArray(entries), map[]) == [0xa1, 0x00, 0x81] + entries[0]
  {
    assert Concat(entries) == entries[0] + [];
    ConcatPair([0x00], WriteArray(entries));
    assert [[0x00], WriteArray(entries)] + [] == [[0x00], WriteArray(entries)];
  }

  const OPEN_ARRAY: Bytes := [0x9f, 0x00, BREAK]

  lemma OpenArrayReads()
    ensures IsItem(OPEN_ARRAY) && Opens(OPEN_ARRAY, ARRAY) && Elements(OPEN_ARRAY) == Some([[0x00]])
  {
    hide Skip;
    var s := OPEN_ARRAY[1..];
    ZeroIsItem(s[1..]);
    assert s == [0x00] + s[1..] && s[1..] == [BREAK];
    assert SkipOpen(s) == Then(1, SkipOpen(s[1..])) == Some(2);
    assert ReadOpenItems(s[1..]) == Some([]);
    assert ReadOpenItems(s) == Some([s[..1]] + []);
    assert [s[..1]] + [] == [[0x00]];
    OpenSkips(OPEN_ARRAY);
  }

  lemma ZeroIsItem(t: Bytes)
    ensures Skip([0x00] + t) == Some(1) && IsItem([0x00])
  {
    hide Skip, SkipMany;
    NumberItem(0);
    assert WriteHead(UNSIGNED, 0) == [0x00];
    SkipIsLocal([0x00], t);
  }

  lemma OpenSkips(s: Bytes)
    requires Opens(s, ARRAY) || Opens(s, MAP)
    ensures Skip(s) == Then(1, SkipOpen(s[1..]))
  {
    hide SkipOpen;
    if Opens(s, ARRAY) {
      OpenHeads(s, ARRAY);
    } else {
      OpenHeads(s, MAP);
    }
  }

  const OPEN_VKEYS: Bytes := [0xa1, 0x00] + OPEN_ARRAY

  lemma OpenVkeysRead()
    ensures IsItem(OPEN_VKEYS) && ParseWitness(OPEN_VKEYS) == Fields(OPEN_VKEYS) == Some(map[0 := OPEN_ARRAY])
  {
    hide Skip, SkipMany, IsItem, ReadFields, Concat, Elements;
    OpenArrayReads();
    ZeroIsItem([]);
    var xs := [[0x00], OPEN_ARRAY];
    TwoMoreItems([0x00], OPEN_ARRAY, []);
    assert [[0x00], OPEN_ARRAY] + [] == xs;
    ContainerItem(MAP, 1, xs);
    ConcatPair([0x00], OPEN_ARRAY);
    assert WriteHead(MAP, 1) == [0xa1] && WriteHead(UNSIGNED, 0) == [0x00];
    assert WriteHead(MAP, 1) + Concat(xs) == OPEN_VKEYS;
    ReadHeadBack(MAP, 1, Concat(xs));
    DefiniteLength(OPEN_VKEYS, MAP);
    NoFields([]);
    ReadOneField(0, OPEN_ARRAY, [], 0);
    assert WriteHead(UNSIGNED, 0) + (OPEN_ARRAY + []) == Concat(xs);
    assert map[0 := OPEN_ARRAY] + map[] == map[0 := OPEN_ARRAY];
  }

  /** An envelope whose vkey array has no length: embedding a signature drops the one that was there. */
  lemma OpenVkeysAreDropped(vkey: Bytes, sig: Bytes)
    requires |vkey| <= U64_MAX && |sig| <= U64_MAX
    ensures var tx := Envelope(OPEN_VKEYS);
            && Readable(tx) && HeldSignatures(tx) == [[0x00]]
            && Embed(tx, vkey, sig).Some?
            && var out := Embed(tx, vkey, sig).value;
            && Readable(out) && HeldSignatures(out) == [KeyWitness(vkey, sig)]
  {
    hide Envelope, ParseTx, ParseWitness, ParseArray, Fields, Elements, IsItem, Embed, Opens, KeyWitness, Signable;
    var tx := Envelope(OPEN_VKEYS);
    OpenArrayReads();
    OpenVkeysRead();
    EnvelopeParses(OPEN_VKEYS);
    SeenIsHeldExactWhen(tx);
    EnvelopeIsShort(OPEN_VKEYS);
    EmbedSucceedsExactWhen(tx, vkey, sig);
    OpenIsTakenAsEmpty(OPEN_ARRAY);
    EmbedAlone(tx, vkey, sig);
    EmbedMeaning(tx, vkey, sig);
  }

  lemma EnvelopeIsShort(witnesses: Bytes)
    requires |witnesses| < 100
    ensures |Envelope(witnesses)| < U64_MAX
  {
  }

  lemma EmbedAlone(tx: Bytes, vkey: Bytes, sig: Bytes)
    requires |tx| < U64_MAX && |vkey| <= U64_MAX && |sig| <= U64_MAX && Embed(tx, vkey, sig).Some?
    ensures var out := Embed(tx, vkey, sig).value;
            && Signable(out) && Readable(out)
            && HeldFields(out) == ParseWitness(ParseTx(out).value.witnesses).value
            && HeldSignatures(out) == Vkeys(HeldFields(out)).value
  {
    hide Embed, Signable, Readable;
    var ws := [Signature(vkey, sig)];
    assert ws[..0] == [];
    ResultIsDefinite(tx, ws);
  }

  const OPEN_FIELDS: Bytes := [0xbf, 0x01, 0x80, BREAK]

  lemma OpenFieldsRead()
    ensures IsItem(OPEN_FIELDS) && Opens(OPEN_FIELDS, MAP) && Fields(OPEN_FIELDS) == Some(map[1 := [0x80]])
  {
    hide Skip, SkipMany;
    var s := OPEN_FIELDS[1..];
    assert WriteHead(UNSIGNED, 1) == [0x01] && WriteHead(ARRAY, 0) + Concat([]) == [0x80];
    NumberItem(1);
    ContainerItem(ARRAY, 0, []);
    ItemThenRest([0x01], [0x80, BREAK]);
    ItemThenRest([0x80], [BREAK]);
    assert s == [0x01] + [0x80, BREAK] && s[1..] == [0x80] + [BREAK] && s[1..][1..] == [BREAK];
    assert SkipOpen([BREAK]) == Some(1);
    assert SkipOpen(s[1..]) == Then(1, SkipOpen(s[1..][1..])) == Some(2);
    assert SkipOpen(s) == Then(1, SkipOpen(s[1..])) == Some(3);
    OpenSkips(OPEN_FIELDS);
    ReadHeadBack(UNSIGNED, 1, [0x80, BREAK]);
    assert ReadOpenFields([BREAK]) == Some(map[]);
    assert ReadOpenFields(s) == Some(map[1 := s[1..][..1]] + map[]);
    assert s[1..][..1] == [0x80];
    assert map[1 := s[1..][..1]] + map[] == map[1 := [0x80]];
  }

  /** An envelope whose witness map has no length: embedding a signature drops its other field. */
  lemma OpenFieldsAreDropped(vkey: Bytes, sig: Bytes)
    requires |vkey| <= U64_MAX && |sig| <= U64_MAX
    ensures var tx := Envelope(OPEN_FIELDS);
            && Readable(tx) && HeldFields(tx) == map[1 := [0x80]]
            && Embed(tx, vkey, sig).Some?
            && var out := Embed(tx, vkey, sig).value;
            && Readable(out) && HeldFields(out) - {0} == map[] && HeldSignatures(out) == [KeyWitness(vkey, sig)]
  {
    hide Envelope, ParseTx, ParseWitness, ParseArray, Fields, Elements, IsItem, Embed, Opens, KeyWitness, Signable;
    var tx := Envelope(OPEN_FIELDS);
    OpenFieldsRead();
    EnvelopeParses(OPEN_FIELDS);
    SeenIsHeldExactWhen(tx);
    EnvelopeIsShort(OPEN_FIELDS);
    EmbedSucceedsExactWhen(tx, vkey, sig);
    OpenIsTakenAsEmpty(OPEN_FIELDS);
    EmbedAlone(tx, vkey, sig);
    EmbedMeaning(tx, vkey, sig);
    NothingWithoutKey(0);
  }
}
