/** The governance datum codec as the source drives its encoder and decoder. */
module DatumOps {
  import opened Wrappers
  import opened Cbor
  import opened Datum

  lemma WriteMembersSnoc(ms: seq<Member>, m: Member)
    requires ValidMember(m) && forall i | 0 <= i < |ms| :: ValidMember(ms[i])
    ensures WriteMembers(ms + [m]) == WriteMembers(ms) + WriteMember(m)
  {
    hide WriteMember, ValidMember;
    if ms == [] {
      assert [m][1..] == [];
    } else {
      WriteMembersSnoc(ms[1..], m);
      assert (ms + [m])[1..] == ms[1..] + [m];
      Associates(WriteMember(ms[0]), WriteMembers(ms[1..]), WriteMember(m));
    }
  }

  /** `to_cbor` */
  method EncodeDatum(d: VersionedMultisig) returns (buf: Bytes)
    requires ValidDatum(d)
    ensures buf == ToCbor(d)
  {
    hide WriteHead, WriteMember, ValidMember, WriteMembers;
    SortKeepsValid(d);
    var sorted := SortMembers(d.members);
    var header := WriteHead(ARRAY, 2) + WriteHead(ARRAY, 2) + WriteHead(UNSIGNED, d.totalSigners)
                  + WriteHead(ARRAY, |d.members|);
    var list: Bytes := [];
    NoMembers();
    for i := 0 to |sorted|
      invariant list == WriteMembers(sorted[..i])
    {
      assert sorted[..i + 1] == sorted[..i] + [sorted[i]];
      WriteMembersSnoc(sorted[..i], sorted[i]);
      list := list + WriteMember(sorted[i]);
    }
    assert sorted[..|sorted|] == sorted;
    buf := header + list + WriteHead(UNSIGNED, d.logicRound);
  }

  lemma NoMembers()
    ensures WriteMembers([]) == []
  {
  }

  /** Members read before, put in front of those still to read. */
  function Front(done: seq<Member>, later: Option<(seq<Member>, Bytes)>): Option<(seq<Member>, Bytes)> {
    match later
    case None => None
    case Some((ms, rest)) => Some((done + ms, rest))
  }

  lemma NextMember(done: seq<Member>, s: Bytes, n: nat)
    requires n > 0
    ensures Front(done, ReadMembers(s, n)) ==
            match ReadMember(s)
            case None => None
            case Some((m, rest)) => Front(done + [m], ReadMembers(rest, n - 1))
  {
    hide ReadMember;
    if ReadMember(s).Some? && ReadMembers(ReadMember(s).value.1, n - 1).Some? {
      var (m, rest) := ReadMember(s).value;
      var (ms, _) := ReadMembers(rest, n - 1).value;
      assert done + ([m] + ms) == (done + [m]) + ms;
    }
  }

  lemma NoMoreMembers(done: seq<Member>, s: Bytes)
    ensures Front(done, ReadMembers(s, 0)) == Some((done, s))
  {
    assert done + [] == done;
  }

  method DecodeMember(dec: Decoder) returns (r: Option<Member>)
    requires dec.Valid()
    modifies dec
    ensures dec.Valid()
    ensures ReadMember(old(dec.Rest())) == if r == None then None else Some((r.value, dec.Rest()))
  {
    hide ReadHead;
    var pairLen := dec.Expect(ARRAY);
    if pairLen != Some(2) {
      return None;
    }
    var wrapped := dec.ByteString();
    if wrapped == None || |wrapped.value| < 32 {
      return None;
    }
    var key := dec.ByteString();
    if key == None || |key.value| != KEY_LENGTH {
      return None;
    }
    r := Some(Member(wrapped.value[4..32], key.value));
  }

  method DecodeU32(dec: Decoder) returns (r: Option<nat>)
    requires dec.Valid()
    modifies dec
    ensures dec.Valid()
    ensures r == ReadU32(old(dec.Rest()))
    ensures r.Some? ==> dec.Rest() == AfterHead(old(dec.Rest()))
  {
    r := dec.Expect(UNSIGNED);
    if r.Some? && r.value > U32_MAX {
      r := None;
    }
  }

  method DecodeMembers(dec: Decoder, total: nat) returns (r: Result<VersionedMultisig, DatumError>)
    requires dec.Valid()
    modifies dec
    ensures r == FromMembers(total, old(dec.Rest()))
  {
    hide ReadHead, ReadMember, ReadMembers, ReadU32;
    var listLen := dec.Expect(ARRAY);
    if listLen == None {
      return Err(BadMemberList);
    }
    var members: seq<Member> := [];
    ghost var all := ReadMembers(dec.Rest(), listLen.value);
    assert all.Some? ==> [] + all.value.0 == all.value.0;
    for i := 0 to listLen.value
      invariant dec.Valid()
      invariant all == Front(members, ReadMembers(dec.Rest(), listLen.value - i))
    {
      NextMember(members, dec.Rest(), listLen.value - i);
      var m := DecodeMember(dec);
      if m == None {
        return Err(BadMember);
      }
      members := members + [m.value];
    }
    NoMoreMembers(members, dec.Rest());
    var round := DecodeU32(dec);
    if round == None {
      return Err(BadLogicRound);
    }
    r := Ok(VersionedMultisig(total, members, round.value));
  }

  /** `from_cbor` */
  method DecodeDatum(cbor: Bytes) returns (r: Result<VersionedMultisig, DatumError>)
    ensures r == FromCbor(cbor)
  {
    hide ReadHead, FromMembers, ReadU32;
    var dec := new Decoder(cbor);
    var outerLen := dec.Expect(ARRAY);
    if outerLen != Some(2) {
      return Err(BadOuterArray);
    }
    var innerLen := dec.Expect(ARRAY);
    if innerLen != Some(2) {
      return Err(BadInnerArray);
    }
    var total := DecodeU32(dec);
    if total == None {
      return Err(BadTotalSigners);
    }
    r := DecodeMembers(dec, total.value);
  }
}
