/** The M-of-N native script of a multisig wallet (src/wallet/multisig.rs). */
module NativeScript {
  import opened Wrappers
  import opened Cbor
  import opened Datum

  const N_OF_K: nat := 3
  const PUBKEY: nat := 0

  type KeyHash = h: Bytes | |h| == 28 witness seq(28, _ => 0)

  datatype Script = Script(threshold: nat, keyHashes: seq<KeyHash>)

  predicate ValidScript(s: Script) {
    s.threshold <= U32_MAX && |s.keyHashes| <= U64_MAX
  }

  function WriteKey(hash: KeyHash): Bytes {
    WriteHead(ARRAY, 2) + WriteHead(UNSIGNED, PUBKEY) + WriteBytes(hash)
  }

  function WriteKeys(hashes: seq<KeyHash>): Bytes {
    if hashes == [] then [] else WriteKey(hashes[0]) + WriteKeys(hashes[1..])
  }

  function WriteScript(s: Script): Bytes
    requires ValidScript(s)
  {
    WriteHead(ARRAY, 3) + WriteHead(UNSIGNED, N_OF_K) + WriteHead(UNSIGNED, s.threshold)
    + WriteHead(ARRAY, |s.keyHashes|) + WriteKeys(s.keyHashes)
  }

  lemma {:induction false} WriteKeysSnoc(hashes: seq<KeyHash>, hash: KeyHash)
    ensures WriteKeys(hashes + [hash]) == WriteKeys(hashes) + WriteKey(hash)
  {
    hide WriteKey;
    if hashes == [] {
      assert [hash][1..] == [];
    } else {
      WriteKeysSnoc(hashes[1..], hash);
      assert (hashes + [hash])[1..] == hashes[1..] + [hash];
      Associates(WriteKey(hashes[0]), WriteKeys(hashes[1..]), WriteKey(hash));
    }
  }

  /** `encode_native_script_n_of_k` */
  method EncodeNativeScript(threshold: nat, keyHashes: seq<KeyHash>) returns (buf: Bytes)
    requires ValidScript(Script(threshold, keyHashes))
    ensures buf == WriteScript(Script(threshold, keyHashes))
  {
    hide WriteHead, WriteBytes;
    buf := WriteHead(ARRAY, 3);
    buf := buf + WriteHead(UNSIGNED, N_OF_K);
    buf := buf + WriteHead(UNSIGNED, threshold);
    buf := buf + WriteHead(ARRAY, |keyHashes|);
    ghost var start := buf;
    for i := 0 to |keyHashes|
      invariant buf == start + WriteKeys(keyHashes[..i])
    {
      ghost var before := buf;
      buf := buf + WriteHead(ARRAY, 2);
      buf := buf + WriteHead(UNSIGNED, PUBKEY);
      buf := buf + WriteBytes(keyHashes[i]);
      assert buf == before + WriteKey(keyHashes[i]);
      WriteKeysSnoc(keyHashes[..i], keyHashes[i]);
      assert keyHashes[..i + 1] == keyHashes[..i] + [keyHashes[i]];
    }
    assert keyHashes[..|keyHashes|] == keyHashes;
  }

  // ---- A reader of the script grammar --------------------------------------------------------

  function ReadKey(s: Bytes): Option<(KeyHash, Bytes)> {
    if Argument(s, ARRAY) != Some(2) then None else
      var s1 := AfterHead(s);
      if Argument(s1, UNSIGNED) != Some(PUBKEY) then None else
        var s2 := AfterHead(s1);
        match ReadBytes(s2)
        case None => None
        case Some(hash) => if |hash| == 28 then Some((hash, AfterBytes(s2))) else None
  }

  function ReadKeys(s: Bytes, n: nat): Option<(seq<KeyHash>, Bytes)> {
    if n == 0 then Some(([], s)) else
      match ReadKey(s)
      case None => None
      case Some((hash, rest)) =>
        match ReadKeys(rest, n - 1)
        case None => None
        case Some((hashes, rest')) => Some(([hash] + hashes, rest'))
  }

  /** An N-of-K script at the head of the input, and what follows it. */
  function ReadScript(s: Bytes): Option<(Script, Bytes)> {
    if Argument(s, ARRAY) != Some(3) then None else
      var s1 := AfterHead(s);
      if Argument(s1, UNSIGNED) != Some(N_OF_K) then None else
        var s2 := AfterHead(s1);
        match Argument(s2, UNSIGNED)
        case None => None
        case Some(threshold) =>
          var s3 := AfterHead(s2);
          match Argument(s3, ARRAY)
          case None => None
          case Some(n) =>
            match ReadKeys(AfterHead(s3), n)
            case None => None
            case Some((hashes, rest)) => Some((Script(threshold, hashes), rest))
  }

  lemma ReadKeyBack(hash: KeyHash, rest: Bytes)
    ensures ReadKey(WriteKey(hash) + rest) == Some((hash, rest))
  {
    hide WriteHead, ReadHead, WriteBytes, ReadBytes, Argument, AfterBytes, AfterHead;
    var s2 := WriteBytes(hash) + rest;
    var s1 := WriteHead(UNSIGNED, PUBKEY) + s2;
    assert WriteKey(hash) + rest == WriteHead(ARRAY, 2) + s1;
    ReadHeadBack(ARRAY, 2, s1);
    ReadHeadBack(UNSIGNED, PUBKEY, s2);
    ReadBytesBack(hash, rest);
  }

  lemma {:induction false} ReadKeysBack(hashes: seq<KeyHash>, rest: Bytes)
    ensures ReadKeys(WriteKeys(hashes) + rest, |hashes|) == Some((hashes, rest))
  {
    hide ReadKey, WriteKey;
    if hashes == [] {
      assert [] + rest == rest;
    } else {
      var later := WriteKeys(hashes[1..]) + rest;
      ReadKeysBack(hashes[1..], rest);
      ReadKeyBack(hashes[0], later);
      assert WriteKeys(hashes) + rest == WriteKey(hashes[0]) + later;
      assert [hashes[0]] + hashes[1..] == hashes;
    }
  }

  /** An encoded script reads back as its threshold and its key hashes in order, whatever follows it. */
  lemma ScriptReadsBack(s: Script, rest: Bytes)
    requires ValidScript(s)
    ensures ReadScript(WriteScript(s) + rest) == Some((s, rest))
  {
    hide WriteHead, ReadHead, Argument, WriteKeys, ReadKeys, AfterHead;
    var keys := WriteKeys(s.keyHashes) + rest;
    var list := WriteHead(ARRAY, |s.keyHashes|) + keys;
    var threshold := WriteHead(UNSIGNED, s.threshold) + list;
    var tag := WriteHead(UNSIGNED, N_OF_K) + threshold;
    assert WriteScript(s) + rest == WriteHead(ARRAY, 3) + tag;
    ReadHeadBack(ARRAY, 3, tag);
    ReadHeadBack(UNSIGNED, N_OF_K, threshold);
    ReadHeadBack(UNSIGNED, s.threshold, list);
    ReadHeadBack(ARRAY, |s.keyHashes|, keys);
    ReadKeysBack(s.keyHashes, rest);
  }

  /** So scripts, and the addresses hashed from them, differ whenever threshold, keys or key order do. */
  lemma EncodingIsInjective(a: Script, b: Script)
    requires ValidScript(a) && ValidScript(b) && WriteScript(a) == WriteScript(b)
    ensures a == b
  {
    hide WriteScript, ReadScript;
    ScriptReadsBack(a, []);
    ScriptReadsBack(b, []);
  }
}
