/** The governance datum codec. */
module Datum {
  import opened Wrappers
  import opened Cbor

  const HASH_LENGTH: nat := 28
  const KEY_LENGTH: nat := 32
  const U32_MAX: nat := 0xFFFF_FFFF

  datatype Member = Member(cardanoHash: Bytes, sr25519Key: Bytes)

  datatype VersionedMultisig = VersionedMultisig(totalSigners: nat, members: seq<Member>, logicRound: nat)

  datatype DatumError = BadOuterArray | BadInnerArray | BadTotalSigners | BadMemberList | BadMember | BadLogicRound

  predicate ValidMember(m: Member) {
    |m.cardanoHash| == HASH_LENGTH && |m.sr25519Key| == KEY_LENGTH
  }

  /** The field widths of the source's types. */
  predicate ValidDatum(d: VersionedMultisig) {
    && d.totalSigners <= U32_MAX && d.logicRound <= U32_MAX && |d.members| <= U64_MAX
    && forall i | 0 <= i < |d.members| :: ValidMember(d.members[i])
  }

  // ---- Sorting by hash -----------------------------------------------------------------------

  /** Byte-wise lexicographic order. */
  predicate LessEq(a: Bytes, b: Bytes) {
    a == [] || (b != [] && (a[0] < b[0] || (a[0] == b[0] && LessEq(a[1..], b[1..]))))
  }

  lemma LessEqTotal(a: Bytes, b: Bytes)
    ensures LessEq(a, b) || LessEq(b, a)
  {
  }

  lemma {:induction false} LessEqTransitive(a: Bytes, b: Bytes, c: Bytes)
    requires LessEq(a, b) && LessEq(b, c)
    ensures LessEq(a, c)
  {
    if a != [] && a[0] == b[0] == c[0] {
      LessEqTransitive(a[1..], b[1..], c[1..]);
    }
  }

  lemma {:induction false} LessEqAntisymmetric(a: Bytes, b: Bytes)
    requires LessEq(a, b) && LessEq(b, a)
    ensures a == b
  {
    if a != [] {
      LessEqAntisymmetric(a[1..], b[1..]);
      assert a == [a[0]] + a[1..] && b == [b[0]] + b[1..];
    }
  }

  /** The order is decided by the first byte that differs, or else by length. */
  lemma {:induction false} FirstDifferenceDecides(a: Bytes, b: Bytes, i: nat)
    requires i <= |a| && i <= |b| && a[..i] == b[..i]
    ensures i < |a| && i < |b| && a[i] != b[i] ==> (LessEq(a, b) <==> a[i] < b[i])
    ensures i == |a| ==> LessEq(a, b)
    ensures i == |b| < |a| ==> !LessEq(a, b)
  {
    if i > 0 {
      assert a[0] == a[..i][0] == b[..i][0] == b[0];
      assert a[1..][..i - 1] == a[..i][1..] == b[..i][1..] == b[1..][..i - 1];
      FirstDifferenceDecides(a[1..], b[1..], i - 1);
    }
  }

  /** Insert before the first larger element: equal keys keep their order. */
  function Insert(m: Member, ms: seq<Member>): (r: seq<Member>)
    ensures |r| == |ms| + 1
  {
    if ms == [] || !LessEq(ms[0].cardanoHash, m.cardanoHash) then [m] + ms
    else [ms[0]] + Insert(m, ms[1..])
  }

  /** `sort_by_key`, a stable sort by hash. */
  function SortMembers(ms: seq<Member>): (r: seq<Member>)
    ensures |r| == |ms|
  {
    if ms == [] then [] else Insert(ms[|ms| - 1], SortMembers(ms[..|ms| - 1]))
  }

  ghost predicate Sorted(ms: seq<Member>) {
    forall i, j | 0 <= i < j < |ms| :: LessEq(ms[i].cardanoHash, ms[j].cardanoHash)
  }

  lemma {:induction false} InsertSorts(m: Member, ms: seq<Member>)
    requires Sorted(ms)
    ensures Sorted(Insert(m, ms)) && multiset(Insert(m, ms)) == multiset(ms) + multiset{m}
  {
    hide LessEq, Sorted;
    if ms == [] {
      NothingToSort();
      SortedCons(m, ms);
    } else if !LessEq(ms[0].cardanoHash, m.cardanoHash) {
      LessEqTotal(ms[0].cardanoHash, m.cardanoHash);
      SortedCons(m, ms);
    } else {
      var rest := ms[1..];
      SortedTail(ms);
      InsertSorts(m, rest);
      assert ms == [ms[0]] + rest;
      HeadIsLeast(ms, m, Insert(m, rest));
      SortedCons(ms[0], Insert(m, rest));
    }
  }

  lemma SortedCons(m: Member, ms: seq<Member>)
    requires Sorted(ms) && (ms != [] ==> LessEq(m.cardanoHash, ms[0].cardanoHash))
    ensures Sorted([m] + ms)
  {
    hide LessEq;
    forall j | 0 <= j < |ms| ensures LessEq(m.cardanoHash, ms[j].cardanoHash) {
      if j > 0 { LessEqTransitive(m.cardanoHash, ms[0].cardanoHash, ms[j].cardanoHash); }
    }
  }

  lemma HeadIsLeast(ms: seq<Member>, m: Member, r: seq<Member>)
    requires ms != [] && Sorted(ms) && LessEq(ms[0].cardanoHash, m.cardanoHash)
    requires multiset(r) == multiset(ms[1..]) + multiset{m} && r != []
    ensures LessEq(ms[0].cardanoHash, r[0].cardanoHash)
  {
    hide LessEq;
    assert r[0] in multiset(r);
    assert r[0] in ms[1..] || r[0] == m;
  }

  lemma {:induction false} SortSorts(ms: seq<Member>)
    ensures Sorted(SortMembers(ms)) && multiset(SortMembers(ms)) == multiset(ms)
  {
    hide Sorted;
    if ms == [] {
      NothingToSort();
    } else {
      var n := |ms| - 1;
      SortSorts(ms[..n]);
      InsertSorts(ms[n], SortMembers(ms[..n]));
      assert ms == ms[..n] + [ms[n]];
    }
  }

  /** The members with one hash, as they are listed. */
  ghost function WithHash(ms: seq<Member>, hash: Bytes): seq<Member> {
    if ms == [] then [] else WithHash(ms[..|ms| - 1], hash) + OnlyWith(ms[|ms| - 1], hash)
  }

  ghost function OnlyWith(m: Member, hash: Bytes): seq<Member> {
    if m.cardanoHash == hash then [m] else []
  }

  lemma {:induction false} WithHashCons(m: Member, ms: seq<Member>, hash: Bytes)
    ensures WithHash([m] + ms, hash) == OnlyWith(m, hash) + WithHash(ms, hash)
  {
    if ms == [] {
      assert ([m] + ms)[..0] == [];
    } else {
      var n := |ms| - 1;
      WithHashCons(m, ms[..n], hash);
      assert ([m] + ms)[..n + 1] == [m] + ms[..n];
    }
  }

  lemma {:induction false} InsertIsStable(m: Member, ms: seq<Member>, hash: Bytes)
    requires Sorted(ms)
    ensures WithHash(Insert(m, ms), hash) == WithHash(ms, hash) + OnlyWith(m, hash)
  {
    hide LessEq, Sorted, WithHash;
    WithHashCons(m, ms, hash);
    if ms == [] || !LessEq(ms[0].cardanoHash, m.cardanoHash) {
      if m.cardanoHash == hash {
        LargerHaveOthers(m, ms);
      }
    } else {
      var rest := ms[1..];
      SortedTail(ms);
      InsertIsStable(m, rest, hash);
      assert ms == [ms[0]] + rest;
      WithHashCons(ms[0], rest, hash);
      WithHashCons(ms[0], Insert(m, rest), hash);
    }
  }

  lemma {:induction false} LargerHaveOthers(m: Member, ms: seq<Member>)
    requires Sorted(ms) && (ms == [] || !LessEq(ms[0].cardanoHash, m.cardanoHash))
    ensures WithHash(ms, m.cardanoHash) == []
  {
    hide LessEq;
    if ms != [] {
      var n := |ms| - 1;
      if n > 0 {
        assert LessEq(ms[0].cardanoHash, ms[n].cardanoHash);
        LessEqTotal(m.cardanoHash, m.cardanoHash);
      }
      LargerHaveOthers(m, ms[..n]);
      if ms[n].cardanoHash == m.cardanoHash && n == 0 {
        LessEqTotal(m.cardanoHash, m.cardanoHash);
      }
    }
  }

  /** The sort is stable: members with the same hash stay in the order they were listed in. */
  lemma {:induction false} SortIsStable(ms: seq<Member>, hash: Bytes)
    ensures WithHash(SortMembers(ms), hash) == WithHash(ms, hash)
  {
    hide Sorted;
    if ms != [] {
      var n := |ms| - 1;
      SortSorts(ms[..n]);
      SortIsStable(ms[..n], hash);
      InsertIsStable(ms[n], SortMembers(ms[..n]), hash);
    }
  }

  lemma NothingToSort()
    ensures Sorted([])
  {
  }

  ghost predicate DistinctHashes(ms: seq<Member>) {
    forall i, j | 0 <= i < j < |ms| :: ms[i].cardanoHash != ms[j].cardanoHash
  }

  lemma HeadsAgree(a: seq<Member>, b: seq<Member>)
    requires a != [] && |a| == |b| && Sorted(a) && Sorted(b) && multiset(a) == multiset(b) && DistinctHashes(a)
    ensures a[0] == b[0]
  {
    hide LessEq;
    assert a[0] in multiset(b) && b[0] in multiset(a);
    var i :| 0 <= i < |b| && b[i] == a[0];
    var j :| 0 <= j < |a| && a[j] == b[0];
    if i > 0 && j > 0 {
      LessEqAntisymmetric(a[0].cardanoHash, b[0].cardanoHash);
    }
  }

  /** With distinct hashes a multiset of members has one sorted order. */
  lemma {:induction false} SortedIsUnique(a: seq<Member>, b: seq<Member>)
    requires Sorted(a) && Sorted(b) && multiset(a) == multiset(b) && DistinctHashes(a)
    ensures a == b
  {
    hide LessEq, Sorted, DistinctHashes;
    assert |a| == |multiset(a)| == |multiset(b)| == |b|;
    if a != [] {
      HeadsAgree(a, b);
      SortedTail(a);
      SortedTail(b);
      TailMultiset(a);
      TailMultiset(b);
      SortedIsUnique(a[1..], b[1..]);
      assert a == [a[0]] + a[1..] && b == [b[0]] + b[1..];
    }
  }

  lemma SortedTail(a: seq<Member>)
    requires a != []
    ensures Sorted(a) ==> Sorted(a[1..])
    ensures DistinctHashes(a) ==> DistinctHashes(a[1..])
  {
    hide LessEq;
  }

  lemma TailMultiset(a: seq<Member>)
    requires a != []
    ensures multiset(a[1..]) == multiset(a) - multiset{a[0]}
  {
    assert a == [a[0]] + a[1..];
  }

  // ---- Encoding ------------------------------------------------------------------------------

  /** The hash as an item of its own: `[0, bytes(28)]`. */
  function WrappedKey(hash: Bytes): Bytes
    requires |hash| == HASH_LENGTH
  {
    WriteHead(ARRAY, 2) + WriteHead(UNSIGNED, 0) + WriteBytes(hash)
  }

  function WriteMember(m: Member): Bytes
    requires ValidMember(m)
  {
    WrappedKeyLayout(m.cardanoHash);
    WriteHead(ARRAY, 2) + WriteBytes(WrappedKey(m.cardanoHash)) + WriteBytes(m.sr25519Key)
  }

  function WriteMembers(ms: seq<Member>): Bytes
    requires forall i | 0 <= i < |ms| :: ValidMember(ms[i])
  {
    if ms == [] then [] else WriteMember(ms[0]) + WriteMembers(ms[1..])
  }

  /** The bytes `to_cbor` produces for members already in order. */
  function WriteDatum(d: VersionedMultisig): Bytes
    requires ValidDatum(d)
  {
    WriteHead(ARRAY, 2) + WriteHead(ARRAY, 2) + WriteHead(UNSIGNED, d.totalSigners) + WriteHead(ARRAY, |d.members|)
    + WriteMembers(d.members) + WriteHead(UNSIGNED, d.logicRound)
  }

  lemma SortKeepsValid(d: VersionedMultisig)
    requires ValidDatum(d)
    ensures ValidDatum(d.(members := SortMembers(d.members)))
  {
    SortSorts(d.members);
    var ms := SortMembers(d.members);
    forall i | 0 <= i < |ms| ensures ValidMember(ms[i]) {
      assert ms[i] in multiset(d.members);
    }
  }

  function ToCbor(d: VersionedMultisig): Bytes
    requires ValidDatum(d)
  {
    SortKeepsValid(d);
    WriteDatum(d.(members := SortMembers(d.members)))
  }

  /** With distinct hashes the encoding does not depend on the order of the members. */
  lemma ToCborIgnoresOrder(d: VersionedMultisig, members: seq<Member>)
    requires ValidDatum(d) && DistinctHashes(d.members) && multiset(members) == multiset(d.members)
    ensures ValidDatum(d.(members := members))
    ensures ToCbor(d.(members := members)) == ToCbor(d)
  {
    hide WriteDatum;
    var a, b := SortMembers(d.members), SortMembers(members);
    SortSorts(d.members);
    SortSorts(members);
    assert |members| == |multiset(members)| == |d.members|;
    forall i | 0 <= i < |members| ensures ValidMember(members[i]) {
      assert members[i] in multiset(d.members);
    }
    PermutationKeepsDistinct(d.members, a);
    SortedIsUnique(a, b);
  }

  lemma {:induction false} PermutationKeepsDistinct(a: seq<Member>, b: seq<Member>)
    requires DistinctHashes(a) && multiset(a) == multiset(b)
    ensures DistinctHashes(b)
  {
    forall i, j | 0 <= i < j < |b| ensures b[i].cardanoHash != b[j].cardanoHash {
      assert b[i] in multiset(a) && b[j] in multiset(a);
      var p :| 0 <= p < |a| && a[p] == b[i];
      var q :| 0 <= q < |a| && a[q] == b[j];
      if p == q {
        TwiceInMultiset(b, i, j);
        OnceInMultiset(a, p);
      }
    }
  }

  lemma TwiceInMultiset(b: seq<Member>, i: nat, j: nat)
    requires i < j < |b| && b[i] == b[j]
    ensures multiset(b)[b[i]] >= 2
  {
    assert b == b[..i] + ([b[i]] + (b[i + 1..j] + ([b[j]] + b[j + 1..])));
  }

  lemma OnceInMultiset(a: seq<Member>, p: nat)
    requires DistinctHashes(a) && p < |a|
    ensures multiset(a)[a[p]] == 1
  {
    assert a == a[..p] + ([a[p]] + a[p + 1..]);
    assert a[p] !in a[..p] && a[p] !in a[p + 1..];
  }

  // ---- Decoding ------------------------------------------------------------------------------

  function ReadU32(s: Bytes): Option<nat> {
    match Argument(s, UNSIGNED)
    case None => None
    case Some(n) => if n <= U32_MAX then Some(n) else None
  }

  /** One `[bytes, bytes(32)]` pair; bytes 4..32 of the first string are the hash, whatever precedes
      or follows them. Returns the member and the rest of the input. */
  function ReadMember(s: Bytes): Option<(Member, Bytes)> {
    if Argument(s, ARRAY) != Some(2) then None else
      var s1 := AfterHead(s);
      match ReadBytes(s1)
      case None => None
      case Some(wrapped) =>
        if |wrapped| < 32 then None else
          var s2 := AfterBytes(s1);
          match ReadBytes(s2)
          case None => None
          case Some(key) =>
            if |key| != KEY_LENGTH then None else Some((Member(wrapped[4..32], key), AfterBytes(s2)))
  }

  function ReadMembers(s: Bytes, n: nat): Option<(seq<Member>, Bytes)> {
    if n == 0 then Some(([], s)) else
      match ReadMember(s)
      case None => None
      case Some((m, rest)) =>
        match ReadMembers(rest, n - 1)
        case None => None
        case Some((ms, rest')) => Some(([m] + ms, rest'))
  }

  function FromCbor(s: Bytes): Result<VersionedMultisig, DatumError> {
    if Argument(s, ARRAY) != Some(2) then Err(BadOuterArray) else
      var s1 := AfterHead(s);
      if Argument(s1, ARRAY) != Some(2) then Err(BadInnerArray) else
        var s2 := AfterHead(s1);
        match ReadU32(s2)
        case None => Err(BadTotalSigners)
        case Some(total) => FromMembers(total, AfterHead(s2))
  }

  /** `from_cbor` from the member list on. */
  function FromMembers(total: nat, s: Bytes): Result<VersionedMultisig, DatumError> {
    match Argument(s, ARRAY)
    case None => Err(BadMemberList)
    case Some(n) =>
      match ReadMembers(AfterHead(s), n)
      case None => Err(BadMember)
      case Some((ms, rest)) =>
        match ReadU32(rest)
        case None => Err(BadLogicRound)
        case Some(round) => Ok(VersionedMultisig(total, ms, round))
  }

  // ---- Round trip ----------------------------------------------------------------------------

  /** The wrapper adds the four bytes 82 00 58 1c in front of the hash. */
  lemma WrappedKeyLayout(hash: Bytes)
    requires |hash| == HASH_LENGTH
    ensures WrappedKey(hash) == [0x82, 0x00, 0x58, 0x1c] + hash
  {
    assert WriteHead(ARRAY, 2) == [0x82] && WriteHead(UNSIGNED, 0) == [0x00];
    assert ToBigEndian(28, 1) == ToBigEndian(0, 0) + [28];
    assert WriteHead(BYTES, 28) == [0x58] + [0x1c];
  }

  lemma ReadMemberBack(m: Member, rest: Bytes)
    requires ValidMember(m)
    ensures ReadMember(WriteMember(m) + rest) == Some((m, rest))
  {
    hide WriteHead, ReadHead, WriteBytes, ReadBytes, Argument, AfterBytes;
    WrappedKeyLayout(m.cardanoHash);
    var wrapped := WrappedKey(m.cardanoHash);
    var s2 := WriteBytes(m.sr25519Key) + rest;
    var s1 := WriteBytes(wrapped) + s2;
    assert WriteMember(m) + rest == WriteHead(ARRAY, 2) + s1;
    ReadHeadBack(ARRAY, 2, s1);
    ReadBytesBack(wrapped, s2);
    ReadBytesBack(m.sr25519Key, rest);
    assert wrapped[4..32] == m.cardanoHash;
  }

  lemma ReadNone(rest: Bytes)
    ensures ReadMembers([] + rest, 0) == Some(([], rest))
  {
    assert [] + rest == rest;
  }

  lemma ReadOneMore(s: Bytes, n: nat)
    requires ReadMember(s).Some? && ReadMembers(ReadMember(s).value.1, n).Some?
    ensures var (m, rest) := ReadMember(s).value;
            var (ms, rest') := ReadMembers(rest, n).value;
            ReadMembers(s, n + 1) == Some(([m] + ms, rest'))
  {
    hide ReadMember;
  }

  lemma {:induction false} ReadMembersBack(ms: seq<Member>, rest: Bytes)
    requires forall i | 0 <= i < |ms| :: ValidMember(ms[i])
    ensures ReadMembers(WriteMembers(ms) + rest, |ms|) == Some((ms, rest))
  {
    hide ReadMember, WriteMember, ValidMember, ReadMembers;
    if ms == [] {
      ReadNone(rest);
    } else {
      var later := WriteMembers(ms[1..]) + rest;
      ReadMembersBack(ms[1..], rest);
      ReadMemberBack(ms[0], later);
      assert WriteMembers(ms) + rest == WriteMember(ms[0]) + later;
      ReadOneMore(WriteMember(ms[0]) + later, |ms| - 1);
      assert [ms[0]] + ms[1..] == ms;
    }
  }

  lemma ReadDatumBack(d: VersionedMultisig)
    requires ValidDatum(d)
    ensures FromCbor(WriteDatum(d)) == Ok(d)
  {
    hide WriteHead, ReadHead, Argument, WriteMembers, ReadMembers, AfterHead, ValidMember;
    var round := WriteHead(UNSIGNED, d.logicRound) + [];
    var members := WriteMembers(d.members) + round;
    var list := WriteHead(ARRAY, |d.members|) + members;
    var total := WriteHead(UNSIGNED, d.totalSigners) + list;
    var inner := WriteHead(ARRAY, 2) + total;
    assert WriteDatum(d) == WriteHead(ARRAY, 2) + inner;
    ReadHeadBack(ARRAY, 2, inner);
    ReadHeadBack(ARRAY, 2, total);
    ReadHeadBack(UNSIGNED, d.totalSigners, list);
    ReadHeadBack(ARRAY, |d.members|, members);
    ReadMembersBack(d.members, round);
    ReadHeadBack(UNSIGNED, d.logicRound, []);
  }

  /** Decoding an encoded datum gives it back with its members sorted by hash, for any member count. */
  lemma FromCborInvertsToCbor(d: VersionedMultisig)
    requires ValidDatum(d)
    ensures FromCbor(ToCbor(d)) == Ok(d.(members := SortMembers(d.members)))
    ensures Sorted(SortMembers(d.members)) && multiset(SortMembers(d.members)) == multiset(d.members)
  {
    hide FromCbor, WriteDatum, Sorted;
    SortKeepsValid(d);
    SortSorts(d.members);
    ReadDatumBack(d.(members := SortMembers(d.members)));
  }
}
