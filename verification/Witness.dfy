/** Adding signatures to a transaction without disturbing its body: witness-set surgery on bytes. */
module Witness {
  import opened Wrappers
  import opened Cbor

  datatype CborError = Malformed

  // ---- What the bytes mean -------------------------------------------------------------------

  /** The four parts of a transaction envelope; `aux` is empty when the fourth one is missing. */
  datatype TxParts = TxParts(body: Bytes, witnesses: Bytes, valid: bool, aux: Bytes)

  /** Body and witness set, then the validity flag, then optional auxiliary data. */
  function ParseTx(s: Bytes): Option<TxParts> {
    if Length(s, ARRAY) == None then None else
      match ReadItems(AfterLength(s, ARRAY), 2)
      case None => None
      case Some(xs) =>
        var tail := AfterLength(s, ARRAY)[|Concat(xs)|..];
        match ReadBool(tail)
        case None => None
        case Some(valid) =>
          if tail[1..] == [] then Some(TxParts(xs[0], xs[1], valid, [])) else
            match Skip(tail[1..])
            case None => None
            case Some(n) => Some(TxParts(xs[0], xs[1], valid, tail[1..][..n]))
  }

  /** The fields of a map with integer keys; a repeated key keeps its last value. */
  function ReadFields(s: Bytes, n: nat): Option<map<nat, Bytes>> {
    if n == 0 then Some(map[]) else
      match Argument(s, UNSIGNED)
      case None => None
      case Some(key) =>
        var rest := AfterHead(s);
        match Skip(rest)
        case None => None
        case Some(k) =>
          match ReadFields(rest[k..], n - 1)
          case None => None
          case Some(later) => Some(map[key := rest[..k]] + later)
  }

  /** How many entries the source takes out of a container: none of one without a length. */
  function Counted(length: Option<nat>): nat {
    if length.Some? then length.value else 0
  }

  /** The fields the source takes out of a witness set. */
  function ParseWitness(s: Bytes): Option<map<nat, Bytes>> {
    match Length(s, MAP)
    case None => None
    case Some(length) => ReadFields(AfterLength(s, MAP), Counted(length))
  }

  /** The elements the source takes out of an array. */
  function ParseArray(s: Bytes): Option<seq<Bytes>> {
    match Length(s, ARRAY)
    case None => None
    case Some(length) => ReadItems(AfterLength(s, ARRAY), Counted(length))
  }

  /** The vkey witnesses among the fields of a witness set. */
  function Vkeys(fields: map<nat, Bytes>): Option<seq<Bytes>> {
    if 0 in fields then ParseArray(fields[0]) else Some([])
  }

  // ---- What the encoder writes ---------------------------------------------------------------

  /** `[vkey, signature]` */
  function KeyWitness(vkey: Bytes, sig: Bytes): Bytes
    requires |vkey| <= U64_MAX && |sig| <= U64_MAX
  {
    WriteHead(ARRAY, 2) + WriteHead(BYTES, |vkey|) + vkey + WriteHead(BYTES, |sig|) + sig
  }

  function WriteArray(xs: seq<Bytes>): Bytes
    requires |xs| <= U64_MAX
  {
    WriteHead(ARRAY, |xs|) + Concat(xs)
  }

  lemma HasLeast(s: set<nat>)
    requires s != {}
    ensures exists k :: k in s && forall j | j in s :: k <= j
  {
    var k :| k in s;
    while exists j :: j in s && j < k
      invariant k in s
      decreases k
    {
      var j :| j in s && j < k;
      k := j;
    }
  }

  ghost function Least(s: set<nat>): (k: nat)
    requires s != {}
    ensures k in s && forall j | j in s :: k <= j
  {
    HasLeast(s);
    var k :| k in s && forall j | j in s :: k <= j;
    k
  }

  ghost predicate FitsU64(fields: map<nat, Bytes>) {
    |fields| < U64_MAX && forall k | k in fields :: k <= U64_MAX
  }

  /** Fields in ascending key order, as a sorted map iterates them. */
  ghost function FieldItems(fields: map<nat, Bytes>): seq<Bytes>
    requires forall k | k in fields :: k <= U64_MAX
    decreases |fields|
  {
    if fields == map[] then [] else
      var k := Least(fields.Keys);
      [WriteHead(UNSIGNED, k), fields[k]] + FieldItems(fields - {k})
  }

  /** A witness set: the vkey array under key 0, then the other fields in ascending order. */
  ghost function WriteWitness(vkeys: Bytes, others: map<nat, Bytes>): Bytes
    requires FitsU64(others)
  {
    WriteHead(MAP, |others| + 1) + Concat([WriteHead(UNSIGNED, 0), vkeys] + FieldItems(others))
  }

  function WriteTx(p: TxParts): Bytes {
    WriteHead(ARRAY, 4) + p.body + p.witnesses + [if p.valid then TRUE else FALSE] + p.aux
  }

  // ---- Reading back --------------------------------------------------------------------------

  lemma ConcatPair(a: Bytes, b: Bytes)
    ensures Concat([a, b]) == a + b
  {
    var xs := [b];
    assert [a, b][1..] == xs && Concat(xs[1..]) == [];
    assert Concat(xs) == b + [];
  }

  lemma KeyWitnessItem(vkey: Bytes, sig: Bytes)
    requires |vkey| <= U64_MAX && |sig| <= U64_MAX
    ensures IsItem(KeyWitness(vkey, sig))
  {
    hide WriteHead, Skip;
    var a, b := WriteHead(BYTES, |vkey|) + vkey, WriteHead(BYTES, |sig|) + sig;
    StringItem(vkey);
    StringItem(sig);
    ContainerItem(ARRAY, 2, [a, b]);
    ConcatPair(a, b);
    assert KeyWitness(vkey, sig) == WriteHead(ARRAY, 2) + (a + b);
  }

  /** The key and the signature of a vkey witness, as a decoder finds them. */
  function ReadPair(s: Bytes): Option<(Bytes, Bytes)> {
    if Argument(s, ARRAY) != Some(2) then None else
      match ReadBytes(AfterHead(s))
      case None => None
      case Some(key) =>
        match ReadBytes(AfterBytes(AfterHead(s)))
        case None => None
        case Some(sig) => Some((key, sig))
  }

  /** A written vkey witness reads back as its key and its signature. */
  lemma PairReadsBack(vkey: Bytes, sig: Bytes)
    requires |vkey| <= U64_MAX && |sig| <= U64_MAX
    ensures ReadPair(KeyWitness(vkey, sig)) == Some((vkey, sig))
  {
    hide WriteHead, ReadHead, ReadBytes, Argument, AfterHead, AfterBytes;
    var rest := WriteBytes(vkey) + WriteBytes(sig);
    assert KeyWitness(vkey, sig) == WriteHead(ARRAY, 2) + rest;
    ReadHeadBack(ARRAY, 2, rest);
    ReadBytesBack(vkey, WriteBytes(sig));
    assert WriteBytes(sig) + [] == WriteBytes(sig);
    ReadBytesBack(sig, []);
  }

  lemma WriteArrayRoundTrip(xs: seq<Bytes>)
    requires |xs| <= U64_MAX && AllItems(xs)
    ensures IsItem(WriteArray(xs)) && ParseArray(WriteArray(xs)) == Some(xs) && !Opens(WriteArray(xs), ARRAY)
  {
    hide WriteHead, ReadHead, IsItem, ReadItems, Opens, Length, Argument, AfterHead, AfterLength;
    ContainerItem(ARRAY, |xs|, xs);
    ReadHeadBack(ARRAY, |xs|, Concat(xs));
    DefiniteLength(WriteArray(xs), ARRAY);
    ReadItemsRoundTrip(xs, []);
    assert Concat(xs) == Concat(xs) + [];
  }

  /** Reading one field of a map. */
  lemma ReadOneField(key: nat, value: Bytes, t: Bytes, n: nat)
    requires key <= U64_MAX && IsItem(value)
    ensures ReadFields(WriteHead(UNSIGNED, key) + (value + t), n + 1) ==
            match ReadFields(t, n)
            case None => None
            case Some(later) => Some(map[key := value] + later)
  {
    hide WriteHead, ReadHead, Skip, IsItem;
    var head := WriteHead(UNSIGNED, key);
    HeadRoundTrip(UNSIGNED, key, value + t);
    assert AfterHead(head + (value + t)) == value + t;
    ItemThenRest(value, t);
  }

  ghost predicate ItemFields(fields: map<nat, Bytes>) {
    forall k | k in fields :: k <= U64_MAX && IsItem(fields[k])
  }

  lemma {:induction false} FieldItemsRoundTrip(fields: map<nat, Bytes>, t: Bytes)
    requires ItemFields(fields)
    ensures AllItems(FieldItems(fields)) && |FieldItems(fields)| == 2 * |fields|
    ensures ReadFields(Concat(FieldItems(fields)) + t, |fields|) == Some(fields)
    decreases |fields|
  {
    hide WriteHead, IsItem, ReadHead, Skip, Concat;
    if fields == map[] {
      assert FieldItems(fields) == [];
      NoFields([] + t);
    } else {
      var k := Least(fields.Keys);
      var rest := fields - {k};
      WithoutOne(fields, k);
      FieldItemsRoundTrip(rest, t);
      FieldStep(k, fields[k], FieldItems(rest), rest, t);
    }
  }

  lemma WithoutOne(fields: map<nat, Bytes>, k: nat)
    requires ItemFields(fields) && k in fields
    ensures var rest := fields - {k};
            ItemFields(rest) && |rest| == |fields| - 1 && map[k := fields[k]] + rest == fields
  {
    hide IsItem;
    var rest := fields - {k};
    assert rest.Keys == fields.Keys - {k};
    assert map[k := fields[k]] + rest == fields;
  }

  lemma TwoMoreItems(a: Bytes, b: Bytes, xs: seq<Bytes>)
    requires IsItem(a) && IsItem(b) && AllItems(xs)
    ensures AllItems([a, b] + xs)
  {
    hide IsItem;
  }

  lemma NoFields(t: Bytes)
    ensures Concat([]) == [] && ReadFields(t, 0) == Some(map[])
  {
  }

  lemma FieldStep(k: nat, value: Bytes, xs: seq<Bytes>, rest: map<nat, Bytes>, t: Bytes)
    requires k <= U64_MAX && IsItem(value) && AllItems(xs)
    requires ReadFields(Concat(xs) + t, |rest|) == Some(rest)
    ensures AllItems([WriteHead(UNSIGNED, k), value] + xs)
    ensures ReadFields(Concat([WriteHead(UNSIGNED, k), value] + xs) + t, |rest| + 1) == Some(map[k := value] + rest)
  {
    hide WriteHead, IsItem, ReadHead, Skip, ReadFields, Concat;
    NumberItem(k);
    TwoMoreItems(WriteHead(UNSIGNED, k), value, xs);
    TwoThenRest(WriteHead(UNSIGNED, k), value, xs, t);
    ReadOneField(k, value, Concat(xs) + t, |rest|);
  }

  /** The keys of the fields, in the order they come in. */
  function FieldKeys(s: Bytes, n: nat): seq<nat> {
    if n == 0 || Argument(s, UNSIGNED) == None || Skip(AfterHead(s)) == None then [] else
      [Argument(s, UNSIGNED).value] + FieldKeys(AfterHead(s)[Skip(AfterHead(s)).value..], n - 1)
  }

  lemma FirstFieldKey(key: nat, value: Bytes, t: Bytes, n: nat)
    requires key <= U64_MAX && IsItem(value)
    ensures FieldKeys(WriteHead(UNSIGNED, key) + (value + t), n + 1) == [key] + FieldKeys(t, n)
  {
    hide WriteHead, ReadHead, Skip, IsItem, Argument, AfterHead;
    ReadHeadBack(UNSIGNED, key, value + t);
    ItemThenRest(value, t);
  }

  ghost predicate Ascending(keys: seq<nat>) {
    forall i, j | 0 <= i < j < |keys| :: keys[i] < keys[j]
  }

  lemma FieldItemsStep(rest: map<nat, Bytes>, k: nat)
    requires forall j | j in rest :: j <= U64_MAX
    requires k in rest && forall j | j in rest :: k <= j
    ensures FieldItems(rest) == [WriteHead(UNSIGNED, k), rest[k]] + FieldItems(rest - {k})
  {
    assert k == Least(rest.Keys);
  }

  /** The keys of the fields as they are written. */
  ghost function WrittenKeys(fields: map<nat, Bytes>): seq<nat>
    requires ItemFields(fields)
  {
    FieldKeys(Concat(FieldItems(fields)), |fields|)
  }

  ghost predicate KeysOf(fields: map<nat, Bytes>, keys: seq<nat>) {
    Ascending(keys) && forall k :: k in keys <==> k in fields
  }

  lemma {:induction false} FieldItemsAscend(fields: map<nat, Bytes>)
    requires ItemFields(fields)
    ensures KeysOf(fields, WrittenKeys(fields))
    decreases |fields|
  {
    hide ItemFields, FieldItems, KeysOf;
    if fields == map[] {
      NoWrittenKeys();
    } else {
      hide WrittenKeys;
      var k := Least(fields.Keys);
      WithoutOne(fields, k);
      FieldItemsAscend(fields - {k});
      NextFieldKey(fields, k);
      LeastFirst(fields, k, WrittenKeys(fields - {k}));
    }
  }

  lemma NoWrittenKeys()
    ensures KeysOf(map[], FieldKeys(Concat(FieldItems(map[])), 0))
  {
  }

  lemma NextFieldKey(fields: map<nat, Bytes>, k: nat)
    requires ItemFields(fields) && k in fields && forall j | j in fields :: k <= j
    ensures ItemFields(fields - {k}) && WrittenKeys(fields) == [k] + WrittenKeys(fields - {k})
  {
    WithoutOne(fields, k);
    FieldIsItem(fields, k);
    FieldItemsStep(fields, k);
    hide WriteHead, IsItem, ReadHead, Skip, Concat, ItemFields, FieldKeys, FieldItems;
    var rest := fields - {k};
    var xs := FieldItems(rest);
    TwoThenRest(WriteHead(UNSIGNED, k), fields[k], xs, []);
    NothingAppended(Concat(xs));
    NothingAppended(Concat(FieldItems(fields)));
    FirstFieldKey(k, fields[k], Concat(xs), |rest|);
  }

  lemma NothingAppended(s: Bytes)
    ensures s + [] == s
  {
  }

  lemma LeastFirst(fields: map<nat, Bytes>, k: nat, keys: seq<nat>)
    requires k in fields && (forall j | j in fields :: k <= j) && KeysOf(fields - {k}, keys)
    ensures KeysOf(fields, [k] + keys)
  {
    forall i | 0 <= i < |keys| ensures keys[i] > k {
      assert keys[i] in keys;
    }
  }

  lemma FieldIsItem(fields: map<nat, Bytes>, k: nat)
    requires ItemFields(fields) && k in fields
    ensures k <= U64_MAX && IsItem(fields[k])
  {
  }

  /** A written witness set lists its fields in ascending order of their keys, the vkeys first. */
  lemma WitnessKeysAscend(vkeys: Bytes, others: map<nat, Bytes>)
    requires FitsU64(others) && ItemFields(others) && 0 !in others && IsItem(vkeys)
    ensures var s := WriteWitness(vkeys, others);
            Argument(s, MAP) == Some(|others| + 1) && Ascending(FieldKeys(AfterHead(s), |others| + 1))
  {
    hide WriteHead, IsItem, ReadHead, Skip, Concat, ItemFields, FieldKeys, Argument, AfterHead, FieldItems;
    var xs := FieldItems(others);
    var zero, later := WriteHead(UNSIGNED, 0), Concat(xs);
    ReadHeadBack(MAP, |others| + 1, Concat([zero, vkeys] + xs));
    FieldItemsAscend(others);
    TwoThenRest(zero, vkeys, xs, []);
    assert later + [] == later && Concat([zero, vkeys] + xs) + [] == Concat([zero, vkeys] + xs);
    FirstFieldKey(0, vkeys, later, |others|);
    ZeroFirst(others, WrittenKeys(others));
  }

  lemma ZeroFirst(others: map<nat, Bytes>, keys: seq<nat>)
    requires 0 !in others && KeysOf(others, keys)
    ensures Ascending([0] + keys)
  {
    forall i | 0 <= i < |keys| ensures keys[i] > 0 {
      assert keys[i] in keys;
    }
  }

  lemma TwoThenRest(a: Bytes, b: Bytes, xs: seq<Bytes>, t: Bytes)
    ensures Concat([a, b] + xs) + t == a + (b + (Concat(xs) + t))
  {
    assert ([a, b] + xs)[1..] == [b] + xs;
    assert ([b] + xs)[1..] == xs;
    assert Concat([b] + xs) == b + Concat(xs);
    assert Concat([a, b] + xs) == a + (b + Concat(xs));
  }

  /** A written witness set is one item and reads back as its fields. */
  lemma WriteWitnessRoundTrip(vkeys: Bytes, others: map<nat, Bytes>)
    requires FitsU64(others) && ItemFields(others) && 0 !in others && IsItem(vkeys)
    ensures IsItem(WriteWitness(vkeys, others))
    ensures ParseWitness(WriteWitness(vkeys, others)) == Some(others[0 := vkeys])
    ensures !Opens(WriteWitness(vkeys, others), MAP)
  {
    hide WriteHead, ReadHead, IsItem, ReadFields, FieldItems, Concat, ItemFields, Argument, AfterHead, Opens, Length,
         AfterLength;
    var all := [WriteHead(UNSIGNED, 0), vkeys] + FieldItems(others);
    VkeysThenFields(vkeys, others);
    ContainerItem(MAP, |others| + 1, all);
    ReadHeadBack(MAP, |others| + 1, Concat(all));
    DefiniteLength(WriteWitness(vkeys, others), MAP);
  }

  /** The items of a witness set and how they read back. */
  lemma VkeysThenFields(vkeys: Bytes, others: map<nat, Bytes>)
    requires FitsU64(others) && ItemFields(others) && 0 !in others && IsItem(vkeys)
    ensures var all := [WriteHead(UNSIGNED, 0), vkeys] + FieldItems(others);
            && AllItems(all) && |all| == 2 * (|others| + 1)
            && ReadFields(Concat(all), |others| + 1) == Some(others[0 := vkeys])
  {
    hide WriteHead, ReadHead, IsItem, ReadFields, FieldItems, Concat, ItemFields;
    var xs := FieldItems(others);
    var zero, later := WriteHead(UNSIGNED, 0), Concat(xs) + [];
    FieldItemsRoundTrip(others, []);
    NumberItem(0);
    TwoMoreItems(zero, vkeys, xs);
    TwoThenRest(zero, vkeys, xs, []);
    ReadOneField(0, vkeys, later, |others|);
    assert Concat([zero, vkeys] + xs) + [] == Concat([zero, vkeys] + xs);
    assert map[0 := vkeys] + others == others[0 := vkeys];
  }

  /** A written envelope reads back as its parts; it is one complete item exactly when it has all four. */
  lemma WriteTxRoundTrip(p: TxParts)
    requires IsItem(p.body) && IsItem(p.witnesses) && (p.aux == [] || IsItem(p.aux))
    ensures ParseTx(WriteTx(p)) == Some(p)
    ensures IsItem(WriteTx(p)) <==> p.aux != []
  {
    hide WriteHead, ReadHead, IsItem, Skip, ReadItems, ParseTx, Concat, Opens, Length, Argument, AfterHead, AfterLength;
    var flag: byte := if p.valid then TRUE else FALSE;
    var head, tail, xs := WriteHead(ARRAY, 4), [flag] + p.aux, [p.body, p.witnesses];
    ConcatPair(p.body, p.witnesses);
    assert WriteTx(p) == head + (Concat(xs) + tail);
    ReadHeadBack(ARRAY, 4, Concat(xs) + tail);
    DefiniteLength(WriteTx(p), ARRAY);
    ReadItemsRoundTrip(xs, tail);
    ParseParts(WriteTx(p), p, flag);
    WriteTxItem(p, flag);
  }

  lemma ParseParts(s: Bytes, p: TxParts, flag: byte)
    requires Length(s, ARRAY).Some? && ReadItems(AfterLength(s, ARRAY), 2) == Some([p.body, p.witnesses])
    requires AfterLength(s, ARRAY) == Concat([p.body, p.witnesses]) + ([flag] + p.aux)
    requires flag == (if p.valid then TRUE else FALSE) && (p.aux == [] || IsItem(p.aux))
    ensures ParseTx(s) == Some(p)
  {
    hide ReadHead, Skip, ReadItems, Concat, Length, AfterLength;
    var tail := AfterLength(s, ARRAY)[|Concat([p.body, p.witnesses])|..];
    assert tail == [flag] + p.aux && tail[1..] == p.aux;
    assert p.aux[..|p.aux|] == p.aux;
  }

  lemma ThreeItems(a: Bytes, b: Bytes, c: Bytes)
    requires IsItem(a) && IsItem(b) && IsItem(c)
    ensures AllItems([a, b, c])
  {
    hide IsItem;
  }

  lemma WriteTxItem(p: TxParts, flag: byte)
    requires IsItem(p.body) && IsItem(p.witnesses) && (p.aux == [] || IsItem(p.aux))
    requires flag == if p.valid then TRUE else FALSE
    ensures IsItem(WriteTx(p)) <==> p.aux != []
  {
    hide WriteHead, ReadHead, SkipMany, Concat, Skip, AllItems;
    var three := [p.body, p.witnesses, [flag]];
    ConstantItem(flag);
    ThreeItems(p.body, p.witnesses, [flag]);
    ThreeParts(p, flag);
    PartialArray(4, three, p.aux);
    OneItem(p.aux);
    NothingToSkip();
  }

  lemma ThreeParts(p: TxParts, flag: byte)
    requires flag == if p.valid then TRUE else FALSE
    ensures WriteTx(p) == WriteHead(ARRAY, 4) + (Concat([p.body, p.witnesses, [flag]]) + p.aux)
  {
    hide WriteHead, Concat;
    ConcatSnoc([p.body, p.witnesses], [flag]);
    ConcatPair(p.body, p.witnesses);
    assert [p.body, p.witnesses] + [[flag]] == [p.body, p.witnesses, [flag]];
  }

  // ---- What parsing guarantees ---------------------------------------------------------------

  lemma ParsedParts(s: Bytes)
    requires ParseTx(s).Some?
    ensures var p := ParseTx(s).value;
            IsItem(p.body) && IsItem(p.witnesses) && (p.aux == [] || IsItem(p.aux))
            && |p.body| < |s| && |p.witnesses| <= |s|
  {
    hide IsItem, ReadHead, Concat;
    var rest := AfterLength(s, ARRAY);
    ReadItemsAreItems(rest, 2);
    var xs := ReadItems(rest, 2).value;
    assert IsItem(xs[0]) && IsItem(xs[1]);
    ConcatPair(xs[0], xs[1]);
    assert xs == [xs[0], xs[1]];
    var tail := rest[|Concat(xs)|..];
    if tail[1..] != [] {
      SkipPrefix(tail[1..]);
    }
  }

  lemma {:induction false} ParsedFields(s: Bytes, n: nat)
    requires ReadFields(s, n).Some?
    ensures ItemFields(ReadFields(s, n).value) && |ReadFields(s, n).value| <= n <= |s|
  {
    hide IsItem, Skip, ReadHead;
    if n > 0 {
      var rest := AfterHead(s);
      var k := Skip(rest).value;
      ArgumentFits(s);
      SkipPrefix(rest);
      ParsedFields(rest[k..], n - 1);
      MapCardinality(Argument(s, UNSIGNED).value, rest[..k], ReadFields(rest[k..], n - 1).value);
    }
  }

  lemma MapCardinality(k: nat, v: Bytes, m: map<nat, Bytes>)
    ensures |map[k := v] + m| <= |m| + 1
  {
    var n := map[k := v] + m;
    if k in m {
      assert n == m;
    } else {
      assert n.Keys == m.Keys + {k};
    }
  }

  lemma ParsedWitness(s: Bytes)
    requires ParseWitness(s).Some?
    ensures ItemFields(ParseWitness(s).value) && |ParseWitness(s).value| < |s|
  {
    hide IsItem, ReadHead, ReadFields;
    ParsedFields(AfterLength(s, MAP), Counted(Length(s, MAP).value));
  }

  lemma ParsedArray(s: Bytes)
    requires ParseArray(s).Some?
    ensures AllItems(ParseArray(s).value) && |ParseArray(s).value| < |s|
  {
    hide IsItem, ReadHead, ReadItems;
    ReadItemsAreItems(AfterLength(s, ARRAY), Counted(Length(s, ARRAY).value));
  }

  // ---- What is really there ------------------------------------------------------------------

  /** The fields of an indefinite-length map, up to its break. */
  function ReadOpenFields(s: Bytes): Option<map<nat, Bytes>> {
    if s == [] then None
    else if s[0] == BREAK then Some(map[])
    else
      match Argument(s, UNSIGNED)
      case None => None
      case Some(key) =>
        var rest := AfterHead(s);
        match Skip(rest)
        case None => None
        case Some(k) =>
          match ReadOpenFields(rest[k..])
          case None => None
          case Some(later) => Some(map[key := rest[..k]] + later)
  }

  /** The elements of an indefinite-length array, up to its break. */
  function ReadOpenItems(s: Bytes): Option<seq<Bytes>> {
    if s == [] then None
    else if s[0] == BREAK then Some([])
    else
      match Skip(s)
      case None => None
      case Some(k) =>
        match ReadOpenItems(s[k..])
        case None => None
        case Some(xs) => Some([s[..k]] + xs)
  }

  /** All fields of a witness set, however its length is spelled. */
  function Fields(s: Bytes): Option<map<nat, Bytes>> {
    if Opens(s, MAP) then ReadOpenFields(s[1..]) else ParseWitness(s)
  }

  /** All elements of an array, however its length is spelled. */
  function Elements(s: Bytes): Option<seq<Bytes>> {
    if Opens(s, ARRAY) then ReadOpenItems(s[1..]) else ParseArray(s)
  }

  function Signatures(fields: map<nat, Bytes>): Option<seq<Bytes>> {
    if 0 in fields then Elements(fields[0]) else Some([])
  }

  lemma OpenIsTakenAsEmpty(s: Bytes)
    ensures Opens(s, MAP) ==> ParseWitness(s) == Some(map[])
    ensures Opens(s, ARRAY) ==> ParseArray(s) == Some([])
  {
  }
}
