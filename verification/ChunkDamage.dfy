/** What reading a slot of a damaged chunk reports: files that are missing, cut short, or not what the checksum says. */
module ChunkDamage {
  import opened Wrappers
  import opened Cbor
  import opened Immutable

  /** The fields of a secondary entry at their places, each with its most significant byte first. */
  lemma EntrySpelled(hash: Bytes, rest: Bytes)
    requires |hash| == 32 && |rest| == 8
    ensures ParseEntry([0, 0, 0, 0, 0, 0, 1, 2] + [0, 3, 0, 4, 0, 0, 5, 6] + hash + rest)
         == SecondaryEntry(0x102, 3, 4, 0x506, hash)
  {
    hide BigEndian;
    var bytes := [0, 0, 0, 0, 0, 0, 1, 2] + [0, 3, 0, 4, 0, 0, 5, 6] + hash + rest;
    assert bytes[0..8] == [0, 0, 0, 0, 0, 0] + [1, 2] && bytes[8..10] == [0] + [3] && bytes[10..12] == [0] + [4];
    assert bytes[12..16] == [0, 0] + [5, 6] && bytes[16..48] == hash;
    TwoBytes(1, 2);
    TwoBytes(5, 6);
    TwoBytes(0, 3);
    TwoBytes(0, 4);
    LeadingZeros([0, 0, 0, 0, 0, 0], [1, 2]);
    LeadingZeros([0, 0], [5, 6]);
  }

  lemma TwoBytes(a: byte, b: byte)
    ensures BigEndian([a] + [b]) == a * 0x100 + b && [a] + [b] == [a, b]
  {
    MostSignificantFirst(a, [b]);
    MostSignificantFirst(b, []);
    assert [b] + [] == [b];
  }

  lemma {:induction false} LeadingZeros(zeros: Bytes, s: Bytes)
    requires forall i | 0 <= i < |zeros| :: zeros[i] == 0
    ensures BigEndian(zeros + s) == BigEndian(s)
  {
    hide BigEndian;
    if zeros == [] {
      assert zeros + s == s;
    } else {
      LeadingZeros(zeros[1..], s);
      MostSignificantFirst(0, zeros[1..] + s);
      assert zeros + s == [0] + (zeros[1..] + s);
    }
  }

  /** The version at the front of a primary index. */
  lemma VersionLoads(version: nat, slots: Slots, crc: Crc)
    requires version < 0x1_0000_0000
    ensures LoadPrimary(Layout(version, slots, crc).primary).Ok?
    ensures LoadPrimary(Layout(version, slots, crc).primary).value.version == version
  {
    hide ToBigEndian, BigEndian, PrimaryOffsets;
    PowersOf256();
    BigEndianRoundTrip(version, 4);
    var file := ToBigEndian(version, 4) + PrimaryOffsets(slots);
    assert file[..4] == ToBigEndian(version, 4);
  }

  /** A filled slot is looked up where its entry is. */
  lemma LooksUp(version: nat, slots: Slots, crc: Crc, i: nat)
    requires WellFormed(slots) && i < |slots| && slots[i].Some?
    ensures var primary := LoadPrimary(Layout(version, slots, crc).primary);
            primary.Ok? && LookupSlot(primary.value, i) == Ok(ENTRY_SIZE * Filled(slots[..i]))
  {
    hide LoadPrimary, ToBigEndian, ChunkBytes, SecondaryBytes, PrimaryOffsets;
    LoadedOffset(version, slots, crc, i);
    LoadedOffset(version, slots, crc, i + 1);
    assert slots[..i + 1][..i] == slots[..i];
  }

  /** A filled slot of a chunk without one of its files, or with blocks that have another checksum than is recorded. */
  lemma LostFiles(version: nat, slots: Slots, crc: Crc, other: Crc, i: nat)
    requires WellFormed(slots) && i < |slots| && slots[i].Some?
    ensures var files, block := Layout(version, slots, crc), slots[i].value.block;
            && ReadFromChunk(files.(primary := None), i, crc) == Err(NoPrimary)
            && ReadFromChunk(files.(secondary := None), i, crc) == Err(NoSecondary)
            && ReadFromChunk(files.(chunk := None), i, crc) == Err(NoChunk)
            && ReadFromChunk(files, i, other) == if other(block) == crc(block) then Ok(block) else Err(ChecksumMismatch)
  {
    hide LoadPrimary, ParseEntry, SecondaryBytes, ChunkBytes, PrimaryOffsets, BlockSize, EntryBytes, ToBigEndian;
    LooksUp(version, slots, crc, i);
    SecondaryAt(slots, crc, i);
    SizeOfFilled(version, slots, crc, i);
    ChunkAt(slots, i);
    ParseWritten(|ChunkBytes(slots[..i])|, slots[i].value, crc);
    MissingPrimary();
    NoChunkNoBlock(SecondaryBytes(slots, crc), ENTRY_SIZE * Filled(slots[..i]));
  }

  lemma MissingPrimary()
    ensures LoadPrimary(None) == Err(NoPrimary)
  {
  }

  lemma NoChunkNoBlock(secondary: Bytes, start: nat)
    requires start + ENTRY_SIZE <= |secondary|
    ensures BlockSize(secondary, start, None).Err? ==> BlockSize(secondary, start, None) == Err(NoChunk)
  {
  }

  /** A secondary index that ends before the entry of a filled slot does. */
  lemma SecondaryCut(version: nat, slots: Slots, crc: Crc, i: nat, cut: nat)
    requires WellFormed(slots) && i < |slots| && slots[i].Some?
    requires cut < ENTRY_SIZE * Filled(slots[..i]) + ENTRY_SIZE && cut <= |SecondaryBytes(slots, crc)|
    ensures var files := Layout(version, slots, crc).(secondary := Some(SecondaryBytes(slots, crc)[..cut]));
            ReadFromChunk(files, i, crc) == Err(EntryOutOfBounds)
  {
    hide LoadPrimary, SecondaryBytes, ChunkBytes, PrimaryOffsets, ToBigEndian;
    LooksUp(version, slots, crc, i);
  }

  /** A chunk file that ends within the block of a filled slot with another one behind it. */
  lemma ChunkCut(version: nat, slots: Slots, crc: Crc, i: nat, cut: nat)
    requires WellFormed(slots) && i < |slots| && slots[i].Some? && Filled(slots[..i + 1]) < Filled(slots)
    requires slots[i].value.block != [] && cut < |ChunkBytes(slots[..i + 1])| && cut <= |ChunkBytes(slots)|
    ensures var files := Layout(version, slots, crc).(chunk := Some(ChunkBytes(slots)[..cut]));
            ReadFromChunk(files, i, crc) == Err(ShortRead)
  {
    hide LoadPrimary, ParseEntry, SecondaryBytes, ChunkBytes, PrimaryOffsets, BlockSize, EntryBytes, ToBigEndian;
    var start := ENTRY_SIZE * Filled(slots[..i]);
    LooksUp(version, slots, crc, i);
    SecondaryAt(slots, crc, i);
    SizeOfFilled(version, slots, crc, i);
    ChunkAt(slots, i);
    ParseWritten(|ChunkBytes(slots[..i])|, slots[i].value, crc);
    assert slots[..i + 1][..i] == slots[..i];
    SecondaryLength(slots, crc);
    SizeIgnoresChunk(SecondaryBytes(slots, crc), start, Some(ChunkBytes(slots)), Some(ChunkBytes(slots)[..cut]));
  }

  lemma SizeIgnoresChunk(secondary: Bytes, start: nat, a: Option<Bytes>, b: Option<Bytes>)
    requires start + 2 * ENTRY_SIZE <= |secondary|
    ensures BlockSize(secondary, start, a) == BlockSize(secondary, start, b)
  {
  }

  /** A primary index that ends before the offsets of a slot do: too short for a version, for any offset, or for this
      one's. */
  lemma PrimaryCut(version: nat, slots: Slots, crc: Crc, i: nat, cut: nat)
    requires WellFormed(slots) && i < |slots| && cut < 4 * i + 12
    ensures cut <= |Layout(version, slots, crc).primary.value|
    ensures var files := Layout(version, slots, crc);
            ReadFromChunk(files.(primary := Some(files.primary.value[..cut])), i, crc)
            == if cut < 4 then Err(PrimaryTooSmall) else if cut < 8 then Err(Panic) else Err(SlotNotFound)
  {
    hide SecondaryBytes, ChunkBytes, PrimaryOffsets, ToBigEndian, BigEndian;
    PrimaryAt(slots, 0);
  }

  // ----- offsets that make no sense -----

  /** What is read at a place of the chunk file, in blocks of less than 4 GiB: nothing is always there. */
  function Piece(chunk: Bytes, offset: nat, size: int): Option<Bytes> {
    var n := size % 0x1_0000_0000;
    if n == 0 then Some([]) else if offset + n <= |chunk| then Some(chunk[offset..offset + n]) else None
  }

  function Checked(piece: Option<Bytes>, checksum: nat, crc: Crc): Result<Bytes, Error> {
    if piece.None? then Err(ShortRead)
    else if crc(piece.value) == checksum then Ok(piece.value) else Err(ChecksumMismatch)
  }

  /**
   * Two entries with any offsets at all, whatever the chunk file holds: the size of a block is the distance to the next
   * offset, or from the last one to the end of the file, in 32 bits, even when that distance is negative or larger.
   */
  lemma AnyOffsets(primary: Bytes, first: Bytes, second: Bytes, chunk: Bytes, crc: Crc)
    requires LoadPrimary(Some(primary)).Ok? && LoadPrimary(Some(primary)).value.offsets == [0, 56, 112]
    requires |first| == 56 && |second| == 56
    ensures var files := ChunkFiles(Some(primary), Some(first + second), Some(chunk));
            var (a, b) := (ParseEntry(first), ParseEntry(second));
            && ReadFromChunk(files, 0, crc)
               == Checked(Piece(chunk, a.blockOffset, b.blockOffset - a.blockOffset), a.checksum, crc)
            && ReadFromChunk(files, 1, crc)
               == Checked(Piece(chunk, b.blockOffset, |chunk| - b.blockOffset), b.checksum, crc)
  {
    hide LoadPrimary, ParseEntry, WrappingSub;
    var secondary := first + second;
    assert secondary[0..56] == first && secondary[56..112] == second;
    var a, b := ParseEntry(first).blockOffset, ParseEntry(second).blockOffset;
    LowBits(b, a);
    LowBits(|chunk|, b);
  }

  lemma LowBits(x: nat, y: nat)
    ensures WrappingSub(x, y) % 0x1_0000_0000 == (x - y) % 0x1_0000_0000
  {
    var k := (x - y) / (U64_MAX + 1);
    assert x - y == k * (U64_MAX + 1) + WrappingSub(x, y);
    assert x - y == (k * 0x1_0000_0000) * 0x1_0000_0000 + WrappingSub(x, y);
  }
}
